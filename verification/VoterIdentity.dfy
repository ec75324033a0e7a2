/** Voter identities: the 64-bit FNV-1a hash of a node's name. */
module VoterIdentity {

  type Name = seq<bv8>

  const OFFSET_BASIS: bv64 := 0xcbf2_9ce4_8422_2325

  function Mix(h: bv64, b: bv8): bv64 { h ^ (b as bv64) }
  function Times(x: bv64): bv64 { x * 0x0000_0100_0000_01b3 }

  /** One FNV-1a step: xor a byte in, multiply by the prime modulo 2^64. */
  function Step(h: bv64, b: bv8): bv64 { Times(Mix(h, b)) }

  function Fold(h: bv64, name: Name): bv64 {
    if name == [] then h else Step(Fold(h, name[..|name| - 1]), name[|name| - 1])
  }

  function NumericNodeId(name: Name): bv64 { Fold(OFFSET_BASIS, name) }

  /** Published FNV-1a test vectors: the empty name, "a", "b" and "fo". */
  lemma PublishedVectors()
    ensures NumericNodeId([]) == 0xcbf2_9ce4_8422_2325
    ensures NumericNodeId([0x61]) == 0xaf63_dc4c_8601_ec8c
    ensures NumericNodeId([0x62]) == 0xaf63_df4c_8601_f1a5
    ensures NumericNodeId([0x66, 0x6f]) == 0x0898_5907_b541_d342
  {
    var none: Name := [];
    var a: Name, b: Name, f: Name := [0x61], [0x62], [0x66];
    var fo: Name := [0x66, 0x6f];
    assert a[..0] == none && b[..0] == none && f[..0] == none && fo[..1] == f;
    assert Fold(OFFSET_BASIS, f) == Step(OFFSET_BASIS, 0x66);
  }

  // ---- Every step is a bijection on the state ------------------------------------------

  /** Multiplies by the inverse of the prime modulo 2^64. */
  function Over(x: bv64): bv64 { x * 0xce96_5057_aff6_957b }

  function Back(h: bv64, b: bv8): bv64 { Mix(Over(h), b) }

  lemma PrimeHasInverse(x: bv64)
    ensures (x * 0x0000_0100_0000_01b3) * 0xce96_5057_aff6_957b == x
    ensures (x * 0xce96_5057_aff6_957b) * 0x0000_0100_0000_01b3 == x
  {
  }

  lemma OverInlined(x: bv64)
    ensures Over(x * 0x0000_0100_0000_01b3) == x
    ensures Times(x * 0xce96_5057_aff6_957b) == x
  {
    PrimeHasInverse(x);
  }

  lemma OverUndoesTimes(x: bv64)
    ensures Over(Times(x)) == x && Times(Over(x)) == x
  {
    OverInlined(x);
    assert Times(x) == x * 0x0000_0100_0000_01b3 && Over(x) == x * 0xce96_5057_aff6_957b;
  }

  lemma XorTwice(h: bv64, b: bv64)
    ensures (h ^ b) ^ b == h && (h ^ b) ^ h == b
  {
  }

  lemma MixInlined(h: bv64, b: bv8)
    ensures Mix(h ^ (b as bv64), b) == h
  {
    XorTwice(h, b as bv64);
  }

  lemma MixUndoesItself(h: bv64, b: bv8)
    ensures Mix(Mix(h, b), b) == h
  {
    MixInlined(h, b);
    assert Mix(h, b) == h ^ (b as bv64);
  }

  /** A step can be undone when its byte is known, and every state is reached by it. */
  lemma StepIsBijective(h: bv64, b: bv8)
    ensures Back(Step(h, b), b) == h && Step(Back(h, b), b) == h
  {
    OverUndoesTimes(Mix(h, b));
    OverUndoesTimes(h);
    MixUndoesItself(h, b);
    MixUndoesItself(Over(h), b);
  }

  lemma WidenIsInjective(a: bv8, b: bv8)
    requires a as bv64 == b as bv64
    ensures a == b
  {
  }

  /** From one state, different bytes lead to different states. */
  lemma BytesStayApart(h: bv64, a: bv8, b: bv8)
    requires a != b
    ensures Step(h, a) != Step(h, b)
  {
    OverUndoesTimes(Mix(h, a));
    OverUndoesTimes(Mix(h, b));
    XorTwice(h, a as bv64);
    XorTwice(h, b as bv64);
    if a as bv64 == b as bv64 { WidenIsInjective(a, b); }
  }

  lemma StatesStayApart(g: bv64, h: bv64, b: bv8)
    requires g != h
    ensures Step(g, b) != Step(h, b)
  {
    StepIsBijective(g, b);
    StepIsBijective(h, b);
  }

  /** A name's hash is reached through any prefix of it. */
  lemma {:induction false} FoldSplits(h: bv64, p: Name, s: Name)
    ensures Fold(h, p + s) == Fold(Fold(h, p), s)
    decreases |s|
  {
    if s == [] {
      assert p + s == p;
    } else {
      assert (p + s)[..|p + s| - 1] == p + s[..|s| - 1];
      FoldSplits(h, p, s[..|s| - 1]);
    }
  }

  /** Reading the same bytes keeps different states different. */
  lemma {:induction false} FoldStaysApart(g: bv64, h: bv64, s: Name)
    requires g != h
    ensures Fold(g, s) != Fold(h, s)
    decreases |s|
  {
    if s != [] {
      FoldStaysApart(g, h, s[..|s| - 1]);
      StatesStayApart(Fold(g, s[..|s| - 1]), Fold(h, s[..|s| - 1]), s[|s| - 1]);
    }
  }

  /** Two names of equal length that differ in exactly one byte never get the same voter id. */
  lemma OneByteApartNeverCollide(x: Name, y: Name, i: nat)
    requires |x| == |y| && i < |x| && x[i] != y[i]
    requires forall j :: 0 <= j < |x| && j != i ==> x[j] == y[j]
    ensures NumericNodeId(x) != NumericNodeId(y)
  {
    var p, s := x[..i], x[i + 1..];
    assert y[..i] == p && y[i + 1..] == s;
    assert x == (p + [x[i]]) + s && y == (p + [y[i]]) + s;
    FoldSplits(OFFSET_BASIS, p + [x[i]], s);
    FoldSplits(OFFSET_BASIS, p + [y[i]], s);
    assert (p + [x[i]])[..i] == p && (p + [y[i]])[..i] == p;
    var h := Fold(OFFSET_BASIS, p);
    BytesStayApart(h, x[i], y[i]);
    FoldStaysApart(Step(h, x[i]), Step(h, y[i]), s);
  }

  /** `validate_voter_identity`: a non-empty name whose id is the voter's. */
  predicate ValidIdentity(voter: bv64, name: Name) {
    name != [] && NumericNodeId(name) == voter
  }

  /** A voter id validates at most one name of a numbered fleet: names that share everything but
      one byte, as `stack-cache-0` to `stack-cache-9` do. */
  lemma FleetNamesAreTellable(voter: bv64, stem: Name, a: bv8, b: bv8, rest: Name)
    requires ValidIdentity(voter, stem + [a] + rest) && ValidIdentity(voter, stem + [b] + rest)
    ensures a == b
  {
    if a != b { OneByteApartNeverCollide(stem + [a] + rest, stem + [b] + rest, |stem|); }
  }
}
