/** The other functions that step over a CBOR item: the unchecked `skip` of the datum readers, the
    depth-capped `skip_d` of the burn lock, and the relayer's `_cbor_item_len`. Wherever the strict
    `oskip` succeeds they all agree with it. */
module CborSkippers {
  import opened Basics
  import opened Cbor

  /** `hdr` of the burn lock and of the datum readers: a reserved or indefinite head reads as argument
      zero. None is a truncated head: a refusal in the first, a panic in the second. */
  function LaxHead(b: Bytes, i: nat): (h: Option<Head>)
    ensures h.Some? ==> h.value.major < 8 && i < h.value.next <= |b|
    ensures Ohdr(b, i).Some? ==> h == Ohdr(b, i)
  {
    if i < |b| && b[i] % 32 >= 28 then Some(Head(b[i] / 32, 0, i + 1)) else Ohdr(b, i)
  }

  /** `skip_d`. */
  function SkipD(b: Bytes, i: nat, depth: nat): (e: Option<nat>)
    requires depth <= MAX_DEPTH + 1
    ensures e.Some? ==> i < e.value <= |b|
    decreases MAX_DEPTH + 1 - depth, 0, 0, b
  {
    if depth > MAX_DEPTH then None
    else
      var h :- LaxHead(b, i);
      if h.major == 2 || h.major == 3 then (if h.next + h.arg > |b| then None else Some(h.next + h.arg))
      else if h.major == 4 then SkipDMany(b, h.next, h.arg, depth + 1)
      else if h.major == 5 then SkipDMany(b, h.next, 2 * h.arg, depth + 1)
      else if h.major == 6 then SkipD(b, h.next, depth + 1)
      else Some(h.next)
  }

  function SkipDMany(b: Bytes, k: nat, n: nat, depth: nat): (e: Option<nat>)
    requires depth <= MAX_DEPTH + 1 && k <= |b|
    ensures e.Some? ==> k <= e.value <= |b|
    decreases MAX_DEPTH + 1 - depth, 1, n, b
  {
    if n == 0 then Some(k)
    else
      var e :- SkipD(b, k, depth);
      SkipDMany(b, e, n - 1, depth)
  }

  /** The unchecked `skip`: 64-bit addition, no depth cap. `fuel` bounds the recursion only; running out
      of it, like reading past the end, is None. */
  function RawSkip(b: Bytes, i: nat, fuel: nat): Option<nat>
    decreases fuel, 0, 0, b
  {
    if fuel == 0 then None
    else
      var h :- LaxHead(b, i);
      if h.major == 2 || h.major == 3 then Some((h.next + h.arg) % U64)
      else if h.major == 4 then RawSkipMany(b, h.next, h.arg, fuel - 1)
      else if h.major == 5 then RawSkipMany(b, h.next, 2 * h.arg, fuel - 1)
      else if h.major == 6 then RawSkip(b, h.next, fuel - 1)
      else Some(h.next)
  }

  function RawSkipMany(b: Bytes, k: nat, n: nat, fuel: nat): Option<nat>
    decreases fuel, 1, n, b
  {
    if n == 0 then Some(k)
    else
      var e :- RawSkip(b, k, fuel);
      RawSkipMany(b, e, n - 1, fuel)
  }

  function Min(a: nat, b: nat): nat {
    if a < b then a else b
  }

  /** The relayer's head: a slice past the end is silently shorter. None is an exception. */
  function PyHead(b: Bytes, i: nat): Option<Head> {
    if i >= |b| then None
    else
      var w :- Width(b[i] % 32);
      if w == 0 then Some(Head(b[i] / 32, b[i] % 32, i + 1))
      else if w == 1 then (if i + 1 >= |b| then None else Some(Head(b[i] / 32, b[i + 1], i + 2)))
      else Some(Head(b[i] / 32, FromBE(b[i + 1..Min(|b|, i + 1 + w)]), i + 1 + w))
  }

  /** `_cbor_item_len`. */
  function ItemLen(b: Bytes, i: nat, fuel: nat): Option<nat>
    decreases fuel, 0, 0, b
  {
    if fuel == 0 then None
    else
      var h :- PyHead(b, i);
      if h.next < i then None
      else if h.major == 2 || h.major == 3 then Some(h.next - i + h.arg)
      else if h.major == 4 then
        var n :- ItemsLen(b, h.next, h.arg, fuel - 1);
        Some(h.next - i + n)
      else if h.major == 5 then
        var n :- ItemsLen(b, h.next, 2 * h.arg, fuel - 1);
        Some(h.next - i + n)
      else if h.major == 6 then
        var n :- ItemLen(b, h.next, fuel - 1);
        Some(h.next - i + n)
      else Some(h.next - i)
  }

  function ItemsLen(b: Bytes, j: nat, n: nat, fuel: nat): Option<nat>
    decreases fuel, 1, n, b
  {
    if n == 0 then Some(0)
    else
      var first :- ItemLen(b, j, fuel);
      var rest :- ItemsLen(b, j + first, n - 1, fuel);
      Some(first + rest)
  }

  lemma FromBEOne(x: Byte)
    ensures FromBE([x]) == x
  {
    assert [x][..0] == [];
  }

  lemma HeadsAgree(b: Bytes, i: nat)
    ensures Ohdr(b, i).Some? ==> PyHead(b, i) == Ohdr(b, i)
  {
    if Ohdr(b, i).Some? && Width(b[i] % 32) == Some(1) {
      assert b[i + 1..i + 2] == [b[i + 1]];
      FromBEOne(b[i + 1]);
    }
  }

  /** Where `oskip` succeeds, every other stepper ends at the same place. */
  lemma {:induction false} SkippersAgree(b: Bytes, i: nat, depth: nat, fuel: nat)
    requires depth <= MAX_DEPTH + 1 && fuel + depth >= MAX_DEPTH + 1 && |b| < U64
    requires Skip(b, i, depth).Some?
    ensures SkipD(b, i, depth) == Skip(b, i, depth)
    ensures RawSkip(b, i, fuel) == Skip(b, i, depth)
    ensures ItemLen(b, i, fuel) == Some(Skip(b, i, depth).value - i)
    decreases MAX_DEPTH + 1 - depth, 0, 0
  {
    hide Ohdr, PyHead, LaxHead;
    HeadsAgree(b, i);
    var h := Ohdr(b, i).value;
    if h.major == 4 {
      SkippersAgreeMany(b, h.next, h.arg, depth + 1, fuel - 1);
    } else if h.major == 5 {
      SkippersAgreeMany(b, h.next, 2 * h.arg, depth + 1, fuel - 1);
    } else if h.major == 6 {
      SkippersAgree(b, h.next, depth + 1, fuel - 1);
    }
  }

  lemma {:induction false} SkippersAgreeMany(b: Bytes, k: nat, n: nat, depth: nat, fuel: nat)
    requires depth <= MAX_DEPTH + 1 && fuel + depth >= MAX_DEPTH + 1 && |b| < U64 && k <= |b|
    requires SkipMany(b, k, n, depth).Some?
    ensures SkipDMany(b, k, n, depth) == SkipMany(b, k, n, depth)
    ensures RawSkipMany(b, k, n, fuel) == SkipMany(b, k, n, depth)
    ensures ItemsLen(b, k, n, fuel) == Some(SkipMany(b, k, n, depth).value - k)
    decreases MAX_DEPTH + 1 - depth, 1, n
  {
    hide Ohdr, PyHead, LaxHead;
    if n > 0 {
      SkippersAgree(b, k, depth, fuel);
      SkippersAgreeMany(b, Skip(b, k, depth).value, n - 1, depth, fuel);
    }
  }

  /** A reserved or indefinite head is stepped over as one byte, a tag with what follows it: an indefinite array
      reads as empty. */
  lemma ReservedHeads(b: Bytes, i: nat, depth: nat)
    requires i < |b| && b[i] % 32 >= 28 && depth <= MAX_DEPTH
    ensures b[i] / 32 != 6 ==> SkipD(b, i, depth) == Some(i + 1)
    ensures b[i] / 32 == 6 ==> SkipD(b, i, depth) == SkipD(b, i + 1, depth + 1)
  {
  }

  /** The burn lock's stepper is strictly more lenient: it takes the reserved and indefinite heads. */
  lemma SkipDTakesBreak()
    ensures SkipD([0xff], 0, 0) == Some(1) && Skip([0xff], 0, 0) == None
  {
  }

  method OSkipD(b: Bytes, i: nat, depth: nat) returns (e: Option<nat>)
    requires depth <= MAX_DEPTH + 1
    ensures e == SkipD(b, i, depth)
    decreases MAX_DEPTH + 1 - depth, 0
  {
    hide SkipDMany, LaxHead;
    if depth > MAX_DEPTH { return None; }
    var h := LaxHead(b, i);
    if h == None { return None; }
    var Head(m, a, j) := h.value;
    if m == 2 || m == 3 {
      e := if j + a > |b| then None else Some(j + a);
    } else if m == 4 || m == 5 {
      e := SkipDLoop(b, j, a, m == 5, depth + 1);
    } else if m == 6 {
      e := OSkipD(b, j, depth + 1);
    } else {
      e := Some(j);
    }
  }

  lemma SkipDManyStep(b: Bytes, k: nat, n: nat, depth: nat)
    requires depth <= MAX_DEPTH + 1 && k <= |b|
    ensures SkipDMany(b, k, 0, depth) == Some(k)
    ensures n > 0 ==> SkipDMany(b, k, n, depth)
                      == match SkipD(b, k, depth) case None => None case Some(e) => SkipDMany(b, e, n - 1, depth)
  {
  }

  method SkipDLoop(b: Bytes, j: nat, a: nat, pairs: bool, depth: nat) returns (e: Option<nat>)
    requires depth <= MAX_DEPTH + 1 && j <= |b|
    ensures e == SkipDMany(b, j, if pairs then 2 * a else a, depth)
    decreases MAX_DEPTH + 1 - depth, 1
  {
    hide SkipDMany, SkipD;
    var k: nat, left: nat := j, a;
    while left > 0
      invariant k <= |b|
      invariant SkipDMany(b, j, if pairs then 2 * a else a, depth)
                == SkipDMany(b, k, if pairs then 2 * left else left, depth)
    {
      SkipDManyStep(b, k, if pairs then 2 * left else left, depth);
      var r := OSkipD(b, k, depth);
      if r == None { return None; }
      k := r.value;
      if pairs {
        SkipDManyStep(b, k, 2 * left - 1, depth);
        r := OSkipD(b, k, depth);
        if r == None { return None; }
        k := r.value;
      }
      left := left - 1;
    }
    SkipDManyStep(b, k, 0, depth);
    e := Some(k);
  }

  /** `extract_tx_body`: element 0 of the transaction array, cut from the original bytes. None is an
      exception. The header is taken to be one or two bytes long. */
  function ExtractTxBody(tx: Bytes, fuel: nat): Option<Bytes> {
    if tx == [] || tx[0] / 32 != 4 then None
    else
      var hdr := if tx[0] % 32 < 24 then 1 else 2;
      var n :- ItemLen(tx, hdr, fuel);
      Some(tx[Min(|tx|, hdr)..Min(|tx|, hdr + n)])
  }

  /** For every transaction whose array head is at most two bytes, whatever follows the body, the cut is
      exactly the encoded body. */
  lemma ExtractsTheBody(w: nat, count: nat, body: Item, rest: Bytes, fuel: nat)
    requires w <= 1 && Fits(w, count) && Wf(body) && Depth(body) <= MAX_DEPTH && fuel > MAX_DEPTH
    requires 2 + |Encode(body)| + |rest| < U64
    ensures ExtractTxBody(HeadBytes(4, w, count) + Encode(body) + rest, fuel) == Some(Encode(body))
  {
    hide Skip, SkipD, RawSkip, ItemLen, Encode, Depth, At;
    var head := HeadBytes(4, w, count);
    var tx := head + Encode(body) + rest;
    assert tx[0] == head[0];
    assert tx[|head|..|head| + |Encode(body)|] == Encode(body);
    AtSlice(tx, |head|, Encode(body));
    SkipComplete(tx, |head|, body, 0);
    SkippersAgree(tx, |head|, 0, fuel);
  }
}
