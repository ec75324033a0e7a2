/** The binary layout of a consensus payload fragment: a length-prefixed group name, fixed-width
    big-endian fields and the shard. */
module FragmentCodec {
  import opened Basics
  import opened Utf8

  type U64 = n: int | 0 <= n < 0x1_0000_0000_0000_0000
  type U128 = n: int | 0 <= n < 0x1_0000_0000_0000_0000_0000_0000_0000_0000
  type Hash = h: Bytes | |h| == 32 witness seq(32, _ => 0)
  type Text = s: Bytes | ValidUtf8(s) witness []

  // ---- Big-endian numbers -------------------------------------------------------------

  function Pow256(w: nat): (r: nat)
    ensures r > 0
  {
    if w == 0 then 1 else 256 * Pow256(w - 1)
  }

  /** The low `w` bytes of `n`, most significant first. */
  function ToBe(n: nat, w: nat): (s: Bytes)
    ensures |s| == w
  {
    if w == 0 then [] else ToBe(n / 256, w - 1) + [n % 256]
  }

  function FromBe(s: Bytes): nat {
    if s == [] then 0 else FromBe(s[..|s| - 1]) * 256 + s[|s| - 1]
  }

  lemma {:induction false} FromToBe(n: nat, w: nat)
    requires n < Pow256(w)
    ensures FromBe(ToBe(n, w)) == n
  {
    if w > 0 {
      FromToBe(n / 256, w - 1);
      assert ToBe(n, w)[..w - 1] == ToBe(n / 256, w - 1);
    }
  }

  lemma {:induction false} ToFromBe(s: Bytes)
    ensures FromBe(s) < Pow256(|s|) && ToBe(FromBe(s), |s|) == s
    decreases |s|
  {
    if s != [] {
      ToFromBe(s[..|s| - 1]);
      assert s == s[..|s| - 1] + [s[|s| - 1]];
    }
  }

  /** Byte `i` is the digit of weight 256^(w - 1 - i): the most significant comes first. */
  lemma {:induction false} BigEndian(n: nat, w: nat, i: nat)
    requires i < w
    ensures ToBe(n, w)[i] == (n / Pow256(w - 1 - i)) % 256
    decreases w
  {
    if i < w - 1 {
      BigEndian(n / 256, w - 1, i);
      assert ToBe(n, w)[i] == ToBe(n / 256, w - 1)[i];
      DivideTwice(n, Pow256(w - 2 - i));
    }
  }

  lemma DivideTwice(n: nat, d: nat)
    requires d > 0
    ensures 256 * d > 0 && n / 256 / d == n / (256 * d)
  {
    var q, r := n / 256 / d, n / 256 % d;
    assert n == 256 * (n / 256) + n % 256 && n / 256 == d * q + r;
    assert n == (256 * d) * q + (256 * r + n % 256);
    assert 0 <= 256 * r + n % 256 < 256 * d;
    QuotientIs(n, 256 * d, q, 256 * r + n % 256);
  }

  lemma QuotientIs(n: nat, d: nat, q: nat, r: nat)
    requires d > 0 && n == d * q + r && r < d
    ensures n / d == q
  {
    SameQuotient(d, q, r, n / d, n % d);
  }

  lemma SameQuotient(d: nat, q: nat, r: nat, m: nat, s: nat)
    requires r < d && s < d && d * q + r == d * m + s
    ensures q == m
  {
    if q < m { AtLeastOnce(d, q, m); }
    if m < q { AtLeastOnce(d, m, q); }
  }

  lemma AtLeastOnce(d: nat, q: nat, m: nat)
    requires q < m
    ensures d * q + d <= d * m
  {
    var k := m - q - 1;
    assert d * k >= 0;
    assert d * m == d * (q + 1 + k) == d * q + d + d * k;
  }

  lemma Widths()
    ensures Pow256(4) == 0x1_0000_0000
    ensures Pow256(8) == 0x1_0000_0000_0000_0000
    ensures Pow256(16) == 0x1_0000_0000_0000_0000_0000_0000_0000_0000
  {
    assert Pow256(1) == 256 && Pow256(2) == 65536;
    assert Pow256(4) == 65536 * Pow256(2);
    assert Pow256(6) == 65536 * Pow256(4);
    assert Pow256(8) == 65536 * Pow256(6);
    assert Pow256(10) == 65536 * Pow256(8);
    assert Pow256(12) == 65536 * Pow256(10);
    assert Pow256(14) == 65536 * Pow256(12);
    assert Pow256(16) == 65536 * Pow256(14);
  }

  // ---- The layout ---------------------------------------------------------------------

  datatype Mode = Coded | Complete

  datatype Representation = Representation(
    term: U64, index: U64, group: Text, generation: U64, mode: Mode, hash: Hash, request: U128,
    length: U64, slot: U64, bytes: Bytes)

  function ModeByte(m: Mode): Byte { match m case Coded => 0 case Complete => 1 }

  /** The fields of the layout, in order. The group length is truncated to 32 bits. */
  function Fields(r: Representation): seq<Bytes> {
    [ToBe(|r.group| % 0x1_0000_0000, 4), r.group, r.hash, ToBe(r.generation, 8), [ModeByte(r.mode)], ToBe(r.term, 8),
     ToBe(r.index, 8), ToBe(r.request, 16), ToBe(r.length, 8), ToBe(r.slot, 8), r.bytes]
  }

  function Concat(parts: seq<Bytes>): Bytes {
    if parts == [] then [] else Concat(parts[..|parts| - 1]) + parts[|parts| - 1]
  }

  lemma Appended(parts: seq<Bytes>, part: Bytes)
    ensures Concat(parts + [part]) == Concat(parts) + part
  {
    assert (parts + [part])[..|parts|] == parts;
  }

  function Encoding(r: Representation): Bytes { Concat(Fields(r)) }

  /** Extends the buffer by one field. */
  method Extend(buffer: Bytes, field: Bytes, ghost fields: seq<Bytes>) returns (longer: Bytes, ghost all: seq<Bytes>)
    requires buffer == Concat(fields)
    ensures all == fields + [field] && longer == Concat(all)
  {
    longer, all := buffer + field, fields + [field];
    Appended(fields, field);
  }

  /** The fields up to the mode. */
  method EncodeHead(r: Representation) returns (buffer: Bytes, ghost fields: seq<Bytes>)
    ensures fields == Fields(r)[..5] && buffer == Concat(fields)
  {
    buffer, fields := Extend([], ToBe(|r.group| % 0x1_0000_0000, 4), []);
    buffer, fields := Extend(buffer, r.group, fields);
    buffer, fields := Extend(buffer, r.hash, fields);
    buffer, fields := Extend(buffer, ToBe(r.generation, 8), fields);
    buffer, fields := Extend(buffer, [match r.mode case Coded => 0 case Complete => 1], fields);
  }

  /** `store` appends field after field to one buffer. */
  method Encode(r: Representation) returns (buffer: Bytes)
    ensures buffer == Encoding(r)
  {
    ghost var fields;
    buffer, fields := EncodeHead(r);
    buffer, fields := Extend(buffer, ToBe(r.term, 8), fields);
    buffer, fields := Extend(buffer, ToBe(r.index, 8), fields);
    buffer, fields := Extend(buffer, ToBe(r.request, 16), fields);
    buffer, fields := Extend(buffer, ToBe(r.length, 8), fields);
    buffer, fields := Extend(buffer, ToBe(r.slot, 8), fields);
    buffer, fields := Extend(buffer, r.bytes, fields);
    assert fields == Fields(r);
  }

  datatype Result = Ok(value: Representation) | CorruptRepresentation

  /** The big-endian number in the `w` bytes at `at`. */
  function NumberAt(b: Bytes, at: nat, w: nat): (n: nat)
    requires at + w <= |b|
    ensures n < Pow256(w)
  {
    ToFromBe(b[at..at + w]);
    FromBe(b[at..at + w])
  }

  /** The fields behind a group name that ends at `base`, once they are known to be there. */
  function Parse(b: Bytes, base: nat): Representation
    requires 4 <= base && base + 89 <= |b| && ValidUtf8(b[4..base])
  {
    Widths();
    Representation(NumberAt(b, base + 41, 8), NumberAt(b, base + 49, 8), b[4..base], NumberAt(b, base + 32, 8),
                   if b[base + 40] == 0 then Coded else Complete, b[base..base + 32], NumberAt(b, base + 57, 16),
                   NumberAt(b, base + 73, 8), NumberAt(b, base + 81, 8), b[base + 89..])
  }

  /** `decode_representation`, for any bytes and the hash the caller expects. */
  function Decode(hash: Hash, healthy: bool, b: Bytes): Result {
    if !healthy || |b| < 69 then CorruptRepresentation
    else
      var base := 4 + NumberAt(b, 0, 4);
      if |b| < base + 57 + 32 || !ValidUtf8(b[4..base]) then CorruptRepresentation
      else if b[base..base + 32] != hash || b[base + 40] > 1 then CorruptRepresentation
      else Ok(Parse(b, base))
  }

  // ---- Cutting and joining ------------------------------------------------------------

  /** Part `i` is the piece of `b` between two consecutive cuts. */
  predicate Piece(b: Bytes, cuts: seq<nat>, parts: seq<Bytes>, i: nat)
    requires |cuts| == |parts| + 1 && i < |parts|
  {
    cuts[i] + |parts[i]| == cuts[i + 1] <= |b| && b[cuts[i]..cuts[i + 1]] == parts[i]
  }

  predicate CutsInto(b: Bytes, cuts: seq<nat>, parts: seq<Bytes>) {
    |cuts| == |parts| + 1 && cuts[0] == 0 && forall i :: 0 <= i < |parts| ==> Piece(b, cuts, parts, i)
  }

  lemma {:induction false} JoinCuts(b: Bytes, cuts: seq<nat>, parts: seq<Bytes>)
    requires CutsInto(b, cuts, parts)
    ensures cuts[|parts|] <= |b| && Concat(parts) == b[..cuts[|parts|]]
    decreases |parts|
  {
    if parts != [] {
      var n := |parts| - 1;
      var less, fewer := cuts[..n + 1], parts[..n];
      forall i | 0 <= i < n ensures Piece(b, less, fewer, i) { assert Piece(b, cuts, parts, i); }
      JoinCuts(b, less, fewer);
      assert Piece(b, cuts, parts, n);
      assert b[..cuts[n]] + b[cuts[n]..cuts[n + 1]] == b[..cuts[n + 1]];
    }
  }

  /** The cuts match the parts' lengths. */
  predicate Fits(cuts: seq<nat>, parts: seq<Bytes>, i: nat)
    requires |cuts| == |parts| + 1 && i < |parts|
  {
    cuts[i + 1] == cuts[i] + |parts[i]|
  }

  lemma {:induction false} CutJoined(cuts: seq<nat>, parts: seq<Bytes>)
    requires |cuts| == |parts| + 1 && cuts[0] == 0 && forall i :: 0 <= i < |parts| ==> Fits(cuts, parts, i)
    ensures cuts[|parts|] == |Concat(parts)| && CutsInto(Concat(parts), cuts, parts)
    decreases |parts|
  {
    if parts != [] {
      var n := |parts| - 1;
      var less, fewer := cuts[..n + 1], parts[..n];
      forall i | 0 <= i < n ensures Fits(less, fewer, i) { assert Fits(cuts, parts, i); }
      CutJoined(less, fewer);
      var b, c := Concat(parts), Concat(parts[..n]);
      assert Fits(cuts, parts, n);
      forall i | 0 <= i < |parts| ensures Piece(b, cuts, parts, i) {
        if i < n {
          assert Piece(c, less, fewer, i);
          assert b[cuts[i]..cuts[i + 1]] == c[cuts[i]..cuts[i + 1]];
        }
      }
    }
  }

  /** Where the fields of a fragment of `total` bytes with a `g`-byte group name lie. */
  function Cuts(g: nat, total: nat): seq<nat> {
    [0, 4, 4 + g, 36 + g, 44 + g, 45 + g, 53 + g, 61 + g, 77 + g, 85 + g, 93 + g, total]
  }

  lemma FieldsFit(r: Representation, i: nat)
    requires i < 11
    ensures |Cuts(|r.group|, |r.group| + |r.bytes| + 93)| == |Fields(r)| + 1
    ensures Fits(Cuts(|r.group|, |r.group| + |r.bytes| + 93), Fields(r), i)
  {
  }

  /** The bytes of an encoding at each field's place. */
  lemma EncodingIsCut(r: Representation)
    ensures |Encoding(r)| == |r.group| + |r.bytes| + 93
    ensures CutsInto(Encoding(r), Cuts(|r.group|, |Encoding(r)|), Fields(r))
  {
    var cuts := Cuts(|r.group|, |r.group| + |r.bytes| + 93);
    forall i | 0 <= i < |Fields(r)| ensures Fits(cuts, Fields(r), i) { FieldsFit(r, i); }
    CutJoined(cuts, Fields(r));
  }

  /** Where the variable-length front of an encoding lies. */
  lemma FrontOfEncoding(r: Representation)
    ensures var b, g := Encoding(r), |r.group|;
            |b| == g + |r.bytes| + 93 && b[0..4] == ToBe(g % 0x1_0000_0000, 4) && b[4..4 + g] == r.group &&
            b[4 + g..36 + g] == r.hash && b[44 + g] == ModeByte(r.mode) && b[93 + g..] == r.bytes
  {
    var b, g := Encoding(r), |r.group|;
    EncodingIsCut(r);
    var cuts := Cuts(g, |b|);
    assert Piece(b, cuts, Fields(r), 0) && Piece(b, cuts, Fields(r), 1) && Piece(b, cuts, Fields(r), 2);
    assert Piece(b, cuts, Fields(r), 4) && Piece(b, cuts, Fields(r), 10);
    assert b[44 + g] == b[44 + g..45 + g][0];
    assert b[93 + g..] == b[93 + g..|b|];
  }

  /** A number field reads back from its piece. */
  lemma NumberFromPiece(b: Bytes, cuts: seq<nat>, parts: seq<Bytes>, i: nat, n: nat, w: nat)
    requires |cuts| == |parts| + 1 && i < |parts| && Piece(b, cuts, parts, i)
    requires parts[i] == ToBe(n, w) && n < Pow256(w)
    ensures cuts[i] + w <= |b| && NumberAt(b, cuts[i], w) == n
  {
    FromToBe(n, w);
  }

  lemma NumbersBeforeRequest(r: Representation)
    ensures var b, g := Encoding(r), |r.group|;
            |b| >= g + 93 && NumberAt(b, 36 + g, 8) == r.generation && NumberAt(b, 45 + g, 8) == r.term &&
            NumberAt(b, 53 + g, 8) == r.index
  {
    var b, fields := Encoding(r), Fields(r);
    var cuts := Cuts(|r.group|, |b|);
    EncodingIsCut(r);
    Widths();
    NumberFromPiece(b, cuts, fields, 3, r.generation, 8);
    NumberFromPiece(b, cuts, fields, 5, r.term, 8);
    NumberFromPiece(b, cuts, fields, 6, r.index, 8);
  }

  lemma NumbersFromRequest(r: Representation)
    ensures var b, g := Encoding(r), |r.group|;
            |b| >= g + 93 && NumberAt(b, 61 + g, 16) == r.request && NumberAt(b, 77 + g, 8) == r.length &&
            NumberAt(b, 85 + g, 8) == r.slot
  {
    var b, fields := Encoding(r), Fields(r);
    var cuts := Cuts(|r.group|, |b|);
    EncodingIsCut(r);
    Widths();
    NumberFromPiece(b, cuts, fields, 7, r.request, 16);
    NumberFromPiece(b, cuts, fields, 8, r.length, 8);
    NumberFromPiece(b, cuts, fields, 9, r.slot, 8);
  }

  lemma GroupLengthOfEncoding(r: Representation)
    ensures |Encoding(r)| >= 93 && NumberAt(Encoding(r), 0, 4) == |r.group| % 0x1_0000_0000
    ensures |r.group| < 0x1_0000_0000 ==> NumberAt(Encoding(r), 0, 4) == |r.group|
  {
    Widths();
    EncodingIsCut(r);
    NumberFromPiece(Encoding(r), Cuts(|r.group|, |Encoding(r)|), Fields(r), 0, |r.group| % 0x1_0000_0000, 4);
    if |r.group| < 0x1_0000_0000 { FitsTheWord(|r.group|); }
  }

  /** Byte `i` of the `w` bytes at `at` is the digit of `n` of weight 256^(w - 1 - i). */
  predicate DigitAt(b: Bytes, at: nat, n: nat, w: nat, i: nat)
    requires i < w && at + w <= |b|
  {
    b[at + i] == (n / Pow256(w - 1 - i)) % 256
  }

  /** The `w` bytes at `at` hold `n`, most significant byte first. */
  predicate BigEndianAt(b: Bytes, at: nat, n: nat, w: nat) {
    at + w <= |b| && forall i :: 0 <= i < w ==> DigitAt(b, at, n, w, i)
  }

  lemma DigitsOfPiece(b: Bytes, at: nat, n: nat, w: nat)
    requires at + w <= |b| && b[at..at + w] == ToBe(n, w)
    ensures BigEndianAt(b, at, n, w)
  {
    forall i | 0 <= i < w ensures DigitAt(b, at, n, w, i) {
      BigEndian(n, w, i);
      assert b[at + i] == b[at..at + w][i];
    }
  }

  lemma DigitsOfField(r: Representation, f: nat, at: nat, n: nat, w: nat)
    requires f < 11 && Fields(r)[f] == ToBe(n, w) && Cuts(|r.group|, 0)[f] == at
    ensures BigEndianAt(Encoding(r), at, n, w)
  {
    EncodingIsCut(r);
    assert Piece(Encoding(r), Cuts(|r.group|, |Encoding(r)|), Fields(r), f);
    DigitsOfPiece(Encoding(r), at, n, w);
  }

  /** The numbers of an encoding are written most significant byte first, at these offsets. */
  lemma NumbersOnTheWire(r: Representation)
    ensures var b, g := Encoding(r), |r.group|;
            && BigEndianAt(b, 0, g % 0x1_0000_0000, 4) && BigEndianAt(b, 36 + g, r.generation, 8)
            && BigEndianAt(b, 45 + g, r.term, 8) && BigEndianAt(b, 53 + g, r.index, 8)
            && BigEndianAt(b, 61 + g, r.request, 16) && BigEndianAt(b, 77 + g, r.length, 8)
            && BigEndianAt(b, 85 + g, r.slot, 8)
  {
    var g := |r.group|;
    DigitsOfField(r, 0, 0, g % 0x1_0000_0000, 4);
    DigitsOfField(r, 3, 36 + g, r.generation, 8);
    DigitsOfField(r, 5, 45 + g, r.term, 8);
    DigitsOfField(r, 6, 53 + g, r.index, 8);
    DigitsOfField(r, 7, 61 + g, r.request, 16);
    DigitsOfField(r, 8, 77 + g, r.length, 8);
    DigitsOfField(r, 9, 85 + g, r.slot, 8);
  }

  /** The rest of an encoding: the group name, the hash, a mode byte that is 0 for coded and 1 for complete
      replication, and the shard. */
  lemma RestOnTheWire(r: Representation)
    ensures var b, g := Encoding(r), |r.group|;
            && |b| == g + |r.bytes| + 93 && b[4..4 + g] == r.group && b[4 + g..36 + g] == r.hash
            && (b[44 + g] == 0 <==> r.mode == Coded) && (b[44 + g] == 1 <==> r.mode == Complete)
            && b[93 + g..] == r.bytes
  {
    FrontOfEncoding(r);
  }

  // ---- Mutual inverses ----------------------------------------------------------------

  /** The bytes start with a length that places the group name before `base`. */
  predicate Headed(b: Bytes, base: nat) {
    4 <= base && base + 89 <= |b| && ValidUtf8(b[4..base]) && b[base + 40] <= 1 && NumberAt(b, 0, 4) == base - 4
  }

  lemma DecodeHeaded(b: Bytes, base: nat, hash: Hash)
    requires Headed(b, base)
    ensures Decode(hash, true, b) == if b[base..base + 32] == hash then Ok(Parse(b, base)) else CorruptRepresentation
  {
  }

  lemma EncodingIsHeaded(r: Representation)
    requires |r.group| < 0x1_0000_0000
    ensures Headed(Encoding(r), 4 + |r.group|)
  {
    FrontOfEncoding(r);
    GroupLengthOfEncoding(r);
  }

  lemma ParseEncoded(r: Representation)
    ensures |Encoding(r)| >= |r.group| + 93 && Encoding(r)[4..4 + |r.group|] == r.group
    ensures Parse(Encoding(r), 4 + |r.group|) == r
  {
    FrontOfEncoding(r);
    NumbersBeforeRequest(r);
    NumbersFromRequest(r);
  }

  /** Decoding an encoding whose group name fits 32 bits gives the representation back exactly when
      the expected hash is its own, and is refused otherwise. */
  lemma DecodeEncoded(r: Representation, hash: Hash)
    requires |r.group| < 0x1_0000_0000
    ensures Decode(hash, true, Encoding(r)) == if hash == r.hash then Ok(r) else CorruptRepresentation
  {
    EncodingIsHeaded(r);
    ParseEncoded(r);
    DecodeHeaded(Encoding(r), 4 + |r.group|, hash);
  }

  /** A longer group name never survives the trip: its length is cut to 32 bits. */
  lemma LongGroupIsLost(r: Representation)
    requires |r.group| >= 0x1_0000_0000
    ensures Decode(r.hash, true, Encoding(r)) != Ok(r)
  {
    GroupLengthOfEncoding(r);
  }

  /** The round trip holds exactly for group names shorter than 2^32 bytes. */
  lemma RoundTripIff(r: Representation)
    ensures Decode(r.hash, true, Encoding(r)) == Ok(r) <==> |r.group| < 0x1_0000_0000
  {
    if |r.group| < 0x1_0000_0000 { DecodeEncoded(r, r.hash); } else { LongGroupIsLost(r); }
  }

  lemma NumberWritten(b: Bytes, at: nat, w: nat)
    requires at + w <= |b|
    ensures ToBe(NumberAt(b, at, w), w) == b[at..at + w]
  {
    ToFromBe(b[at..at + w]);
  }

  lemma NumberPiece(b: Bytes, cuts: seq<nat>, parts: seq<Bytes>, i: nat, w: nat)
    requires |cuts| == |parts| + 1 && i < |parts| && cuts[i + 1] == cuts[i] + w <= |b|
    requires parts[i] == ToBe(NumberAt(b, cuts[i], w), w)
    ensures Piece(b, cuts, parts, i)
  {
    NumberWritten(b, cuts[i], w);
  }

  /** Each field of a parsed fragment is the piece of the bytes it was read from. */
  lemma ParsedPieces(b: Bytes, base: nat, cuts: seq<nat>, fields: seq<Bytes>)
    requires Headed(b, base) && cuts == Cuts(base - 4, |b|) && fields == Fields(Parse(b, base))
    ensures |cuts| == |fields| + 1 && Piece(b, cuts, fields, 1) && Piece(b, cuts, fields, 2)
    ensures Piece(b, cuts, fields, 4) && Piece(b, cuts, fields, 10)
  {
    assert b[base + 40..base + 41] == [b[base + 40]];
    assert b[base + 89..] == b[base + 89..|b|];
  }

  lemma FitsTheWord(g: nat)
    requires g < 0x1_0000_0000
    ensures g % 0x1_0000_0000 == g
  {
  }

  lemma ParsedGroupLength(b: Bytes, base: nat, cuts: seq<nat>, fields: seq<Bytes>)
    requires Headed(b, base) && cuts == Cuts(base - 4, |b|) && fields == Fields(Parse(b, base))
    ensures |cuts| == |fields| + 1 && Piece(b, cuts, fields, 0)
  {
    assert base - 4 < 0x1_0000_0000 by { Widths(); }
    FitsTheWord(base - 4);
    assert fields[0] == ToBe(base - 4, 4);
    NumberPiece(b, cuts, fields, 0, 4);
  }

  lemma ParsedEarlyNumbers(b: Bytes, base: nat, cuts: seq<nat>, fields: seq<Bytes>)
    requires Headed(b, base) && cuts == Cuts(base - 4, |b|) && fields == Fields(Parse(b, base))
    ensures |cuts| == |fields| + 1 && Piece(b, cuts, fields, 3)
    ensures Piece(b, cuts, fields, 5) && Piece(b, cuts, fields, 6)
  {
    NumberPiece(b, cuts, fields, 3, 8);
    NumberPiece(b, cuts, fields, 5, 8);
    NumberPiece(b, cuts, fields, 6, 8);
  }

  lemma ParsedLateNumbers(b: Bytes, base: nat, cuts: seq<nat>, fields: seq<Bytes>)
    requires Headed(b, base) && cuts == Cuts(base - 4, |b|) && fields == Fields(Parse(b, base))
    ensures |cuts| == |fields| + 1 && Piece(b, cuts, fields, 7)
    ensures Piece(b, cuts, fields, 8) && Piece(b, cuts, fields, 9)
  {
    NumberPiece(b, cuts, fields, 7, 16);
    NumberPiece(b, cuts, fields, 8, 8);
    NumberPiece(b, cuts, fields, 9, 8);
  }

  lemma ParsedIsCut(b: Bytes, base: nat)
    requires Headed(b, base)
    ensures Encoding(Parse(b, base)) == b
  {
    var cuts, fields := Cuts(base - 4, |b|), Fields(Parse(b, base));
    ParsedPieces(b, base, cuts, fields);
    ParsedGroupLength(b, base, cuts, fields);
    ParsedEarlyNumbers(b, base, cuts, fields);
    ParsedLateNumbers(b, base, cuts, fields);
    JoinCuts(b, cuts, fields);
    assert b[..|b|] == b;
  }

  /** Every accepted byte string is the encoding of what it decodes to. */
  lemma AcceptedIsEncoding(hash: Hash, healthy: bool, b: Bytes)
    requires Decode(hash, healthy, b).Ok?
    ensures var r := Decode(hash, healthy, b).value;
            healthy && r.hash == hash && |r.group| < 0x1_0000_0000 && Encoding(r) == b
  {
    Widths();
    ParsedIsCut(b, 4 + NumberAt(b, 0, 4));
  }

  /** Exactly the encodings are accepted, so nothing malformed decodes. */
  lemma AcceptedIff(hash: Hash, healthy: bool, b: Bytes, r: Representation)
    ensures Decode(hash, healthy, b) == Ok(r) <==>
            (healthy && r.hash == hash && |r.group| < 0x1_0000_0000 && b == Encoding(r))
  {
    if Decode(hash, healthy, b) == Ok(r) { AcceptedIsEncoding(hash, healthy, b); }
    if |r.group| < 0x1_0000_0000 { DecodeEncoded(r, hash); }
  }

  /** Different representations have different encodings. */
  lemma EncodingIsInjective(r: Representation, s: Representation)
    requires |r.group| < 0x1_0000_0000 && |s.group| < 0x1_0000_0000 && Encoding(r) == Encoding(s)
    ensures r == s
  {
    DecodeEncoded(r, r.hash);
    DecodeEncoded(s, r.hash);
  }
}
