/** `parse` and the seal datum readers of the bound asset: the consumed outpoints and the inline datum of
    output 0. Nothing is bounds-checked here: None is a panic, which rejects the transaction. */
module BodyParse {
  import opened Basics
  import opened CborSkippers

  type Outpoint = (Digest, nat)

  /** One input: an array head, a 32-byte transaction id and an index cut to 32 bits. */
  function ParseInput(b: Bytes, j: nat): Option<(Outpoint, nat)> {
    var p :- LaxHead(b, j);
    var s :- LaxHead(b, p.next);
    if s.arg != 32 || s.next + 32 > |b| then None
    else
      var x :- LaxHead(b, s.next + 32);
      Some(((b[s.next..s.next + 32], x.arg % 0x1_0000_0000), x.next))
  }

  function ParseInputs(b: Bytes, j: nat, n: nat, ins: seq<Outpoint>): Option<(seq<Outpoint>, nat)>
    decreases n, b
  {
    if n == 0 then Some((ins, j))
    else
      var x :- ParseInput(b, j);
      ParseInputs(b, x.1, n - 1, ins + [x.0])
  }

  /** Skips the optional set tag 258 and reads the inputs. */
  function ParseInputField(b: Bytes, i: nat, ins: seq<Outpoint>): Option<(seq<Outpoint>, nat)> {
    var t :- LaxHead(b, i);
    var a :- LaxHead(b, if t.major == 6 && t.arg == 258 then t.next else i);
    ParseInputs(b, a.next, a.arg, ins)
  }

  /** The datum bytes under `[marker, 24(bytes)]` and where they end. */
  function ParseDatum(b: Bytes, k: nat, fuel: nat): Option<(Bytes, nat)> {
    var d :- LaxHead(b, k);
    var nk :- RawSkip(b, d.next, fuel);
    var t :- LaxHead(b, nk);
    var c :- LaxHead(b, t.next);
    if c.next + c.arg > |b| then None else Some((b[c.next..c.next + c.arg], c.next + c.arg))
  }

  function ParseOutputEntries(b: Bytes, k: nat, n: nat, first: bool, fuel: nat, datum: Bytes): Option<(Bytes, nat)>
    decreases n, b
  {
    if n == 0 then Some((datum, k))
    else
      var key :- LaxHead(b, k);
      if key.arg == 2 && first then
        var d :- ParseDatum(b, key.next, fuel);
        ParseOutputEntries(b, d.1, n - 1, first, fuel, datum + d.0)
      else
        var e :- RawSkip(b, key.next, fuel);
        ParseOutputEntries(b, e, n - 1, first, fuel, datum)
  }

  function ParseOutputs(b: Bytes, j: nat, n: nat, first: bool, fuel: nat, datum: Bytes): Option<(Bytes, nat)>
    decreases n, b
  {
    if n == 0 then Some((datum, j))
    else
      var o :- LaxHead(b, j);
      if o.major == 5 then
        var r :- ParseOutputEntries(b, o.next, o.arg, first, fuel, datum);
        ParseOutputs(b, r.1, n - 1, false, fuel, r.0)
      else
        var e :- RawSkip(b, j, fuel);
        ParseOutputs(b, e, n - 1, false, fuel, datum)
  }

  datatype Parsed = Parsed(ins: seq<Outpoint>, datum: Bytes)

  function ParseEntries(b: Bytes, i: nat, n: nat, fuel: nat, acc: Parsed): Option<Parsed>
    decreases n, b
  {
    if n == 0 then Some(acc)
    else
      var key :- LaxHead(b, i);
      if key.arg == 0 then
        var r :- ParseInputField(b, key.next, acc.ins);
        ParseEntries(b, r.1, n - 1, fuel, acc.(ins := r.0))
      else if key.arg == 1 then
        var o :- LaxHead(b, key.next);
        var r :- ParseOutputs(b, o.next, o.arg, true, fuel, acc.datum);
        ParseEntries(b, r.1, n - 1, fuel, acc.(datum := r.0))
      else
        var e :- RawSkip(b, key.next, fuel);
        ParseEntries(b, e, n - 1, fuel, acc)
  }

  /** `parse`. */
  function Parse(b: Bytes, fuel: nat): Option<Parsed> {
    var h :- LaxHead(b, 0);
    if h.major != 5 then Some(Parsed([], [])) else ParseEntries(b, h.next, h.arg, fuel, Parsed([], []))
  }

  /** The byte string at `j` of a datum. */
  function BytesAt(d: Bytes, j: nat): Option<Bytes> {
    var c :- LaxHead(d, j);
    if c.next + c.arg > |d| then None else Some(d[c.next..c.next + c.arg])
  }

  /** Where field 1 of the constructor starts. */
  function FieldOne(d: Bytes, fuel: nat): Option<nat> {
    var t :- LaxHead(d, 0);
    var a :- LaxHead(d, t.next);
    RawSkip(d, a.next, fuel)
  }

  /** `seal_commitment`: field 1. */
  function SealCommitment(d: Bytes, fuel: nat): Option<Bytes> {
    var j :- FieldOne(d, fuel);
    BytesAt(d, j)
  }

  /** `seal_recipient`: field 2, read as empty when it would pass the end. Where the end wraps round 64 bits it lies
      before the start, and slicing there panics. */
  function SealRecipient(d: Bytes, fuel: nat): Option<Bytes> {
    var j :- FieldOne(d, fuel);
    var k :- RawSkip(d, j, fuel);
    var c :- LaxHead(d, k);
    var e := (c.next + c.arg) % U64;
    if e > |d| then Some([]) else if e < c.next then None else Some(d[c.next..e])
  }

  // ---- the loops ----

  /** The body of the loop over the inputs. */
  method ComputeInput(b: Bytes, start: nat) returns (r: Option<(Outpoint, nat)>)
    ensures r == ParseInput(b, start)
  {
    hide LaxHead;
    var p := LaxHead(b, start);
    if p == None { return None; }
    var s := LaxHead(b, p.value.next);
    if s == None || s.value.arg != 32 || s.value.next + 32 > |b| { return None; }
    var id: Digest := b[s.value.next..s.value.next + 32];
    var x := LaxHead(b, s.value.next + 32);
    if x == None { return None; }
    return Some(((id, x.value.arg % 0x1_0000_0000), x.value.next));
  }

  method ComputeInputs(b: Bytes, start: nat, n: nat, ins0: seq<Outpoint>) returns (r: Option<(seq<Outpoint>, nat)>)
    ensures r == ParseInputs(b, start, n, ins0)
  {
    hide ParseInput;
    var j: nat, left: nat, ins := start, n, ins0;
    while left > 0
      invariant ParseInputs(b, start, n, ins0) == ParseInputs(b, j, left, ins)
    {
      var x := ComputeInput(b, j);
      if x == None { return None; }
      ins, j, left := ins + [x.value.0], x.value.1, left - 1;
    }
    return Some((ins, j));
  }

  method ComputeOutputs(b: Bytes, start: nat, n: nat, fuel: nat, datum0: Bytes) returns (r: Option<(Bytes, nat)>)
    ensures r == ParseOutputs(b, start, n, true, fuel, datum0)
  {
    hide LaxHead, RawSkip, ParseDatum;
    var j: nat, o, datum := start, 0, datum0;
    while o < n
      invariant 0 <= o <= n
      invariant ParseOutputs(b, start, n, true, fuel, datum0) == ParseOutputs(b, j, n - o, o == 0, fuel, datum)
    {
      var h := LaxHead(b, j);
      if h == None { return None; }
      if h.value.major == 5 {
        var k: nat, left: nat := h.value.next, h.value.arg;
        ghost var d0 := datum;
        while left > 0
          invariant ParseOutputEntries(b, h.value.next, h.value.arg, o == 0, fuel, d0)
                    == ParseOutputEntries(b, k, left, o == 0, fuel, datum)
        {
          var key := LaxHead(b, k);
          if key == None { return None; }
          if key.value.arg == 2 && o == 0 {
            var d := ParseDatum(b, key.value.next, fuel);
            if d == None { return None; }
            datum, k := datum + d.value.0, d.value.1;
          } else {
            var e := RawSkip(b, key.value.next, fuel);
            if e == None { return None; }
            k := e.value;
          }
          left := left - 1;
        }
        j := k;
      } else {
        var e := RawSkip(b, j, fuel);
        if e == None { return None; }
        j := e.value;
      }
      o := o + 1;
    }
    return Some((datum, j));
  }

  method ComputeParse(b: Bytes, fuel: nat) returns (r: Option<Parsed>)
    ensures r == Parse(b, fuel)
  {
    hide LaxHead, RawSkip, ParseInputs, ParseOutputs;
    var h := LaxHead(b, 0);
    if h == None { return None; }
    var acc := Parsed([], []);
    if h.value.major != 5 { return Some(acc); }
    var i: nat, left: nat := h.value.next, h.value.arg;
    while left > 0
      invariant ParseEntries(b, h.value.next, h.value.arg, fuel, Parsed([], [])) == ParseEntries(b, i, left, fuel, acc)
    {
      var key := LaxHead(b, i);
      if key == None { return None; }
      if key.value.arg == 0 {
        var t := LaxHead(b, key.value.next);
        if t == None { return None; }
        var a := LaxHead(b, if t.value.major == 6 && t.value.arg == 258 then t.value.next else key.value.next);
        if a == None { return None; }
        var x := ComputeInputs(b, a.value.next, a.value.arg, acc.ins);
        if x == None { return None; }
        acc, i := acc.(ins := x.value.0), x.value.1;
      } else if key.value.arg == 1 {
        var o := LaxHead(b, key.value.next);
        if o == None { return None; }
        var d := ComputeOutputs(b, o.value.next, o.value.arg, fuel, acc.datum);
        if d == None { return None; }
        acc, i := acc.(datum := d.value.0), d.value.1;
      } else {
        var e := RawSkip(b, key.value.next, fuel);
        if e == None { return None; }
        i := e.value;
      }
      left := left - 1;
    }
    return Some(acc);
  }
}
