/** What the bridge scripts share: the environment they run in and the two-level membership proof. */
module Scripts {
  import opened Basics
  import opened WitnessLayout

  /** A script: which program it is, and its args. A script hash stands for its script. */
  datatype Script =
    | Registry(args: Bytes)
    | XadaMint(args: Bytes)
    | BurnReceipt(args: Bytes)
    | BoundAsset(args: Bytes)
    | BurnUnlock(args: Bytes)
    | XadaOwner(args: Bytes)
    | Xudt(args: Bytes)
    | Other

  /** The hash functions, the Merkle mountain range verifier (root, size, position, items, leaf), the type
      hashes built into the bound asset, and the stack depth of the VM. */
  datatype Env = Env(
    script: Digest -> Script,
    smt: Hash, ckb: Hash, b2b: Hash, b2s: Hash,
    mmr: (Bytes, nat, nat, seq<Bytes>, Bytes) -> bool,
    lckp: Digest, leapRegistry: Digest,
    stack: nat)

  /** A trap of the virtual machine. */
  const PANIC: int := -1

  function HexDigit(n: nat): Byte
    requires n < 16
  {
    if n < 10 then 48 + n else 87 + n
  }

  /** `hexb`: two lower-case hexadecimal digits for every byte. */
  function Hex(b: Bytes): (r: Bytes)
    ensures |r| == 2 * |b|
  {
    if b == [] then [] else [HexDigit(b[0] / 16), HexDigit(b[0] % 16)] + Hex(b[1..])
  }

  /** The two digits of byte k are lower-case hexadecimal, the high one first. */
  lemma {:induction false} HexDigits(b: Bytes, k: nat)
    requires k < |b|
    ensures Hex(b)[2 * k] == "0123456789abcdef"[b[k] / 16] as int
    ensures Hex(b)[2 * k + 1] == "0123456789abcdef"[b[k] % 16] as int
  {
    DigitIsLower(b[0] / 16);
    DigitIsLower(b[0] % 16);
    if k > 0 { HexDigits(b[1..], k - 1); }
  }

  lemma DigitIsLower(n: nat)
    requires n < 16
    ensures HexDigit(n) == "0123456789abcdef"[n] as int
  {
    var digits := "0123456789abcdef";
    assert digits[0] == '0' && digits[1] == '1' && digits[2] == '2' && digits[3] == '3' && digits[4] == '4';
    assert digits[5] == '5' && digits[6] == '6' && digits[7] == '7' && digits[8] == '8' && digits[9] == '9';
    assert digits[10] == 'a' && digits[11] == 'b' && digits[12] == 'c' && digits[13] == 'd' && digits[14] == 'e';
    assert digits[15] == 'f';
  }

  /** Different transaction hashes are different leaves. */
  lemma {:induction false} HexInjective(a: Bytes, b: Bytes)
    requires Hex(a) == Hex(b)
    ensures a == b
  {
    if a != [] && b != [] {
      var x, y := Hex(a), Hex(b);
      assert x[0] == HexDigit(a[0] / 16) && x[1] == HexDigit(a[0] % 16);
      assert y[0] == HexDigit(b[0] / 16) && y[1] == HexDigit(b[0] % 16);
      assert x[2..] == Hex(a[1..]) && y[2..] == Hex(b[1..]);
      HexInjective(a[1..], b[1..]);
      assert a == [a[0]] + a[1..] && b == [b[0]] + b[1..];
    }
  }

  /** The transaction is a leaf under the sub-tree root. */
  predicate SubProof(env: Env, p: Proof) {
    env.mmr(p.subRoot, p.subSize, p.subPos, p.subItems, Hex(env.b2b(p.body)))
  }

  /** The sub-tree is a leaf under the certified root. */
  predicate MasterProof(env: Env, root: Bytes, p: Proof) {
    env.mmr(root, p.masterSize, p.masterPos, p.masterItems, env.b2s(p.rangeKey + p.subRoot))
  }

  /** The body of the proof belongs to the certified transaction set `root`. */
  predicate Certified(env: Env, root: Bytes, p: Proof) {
    SubProof(env, p) && MasterProof(env, root, p)
  }
}
