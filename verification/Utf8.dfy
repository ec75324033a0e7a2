/** Well-formed UTF-8 (Unicode 15, table 3-7), and what it is for: exactly the byte strings that spell out
    Unicode scalar values. */
module Utf8 {
  import opened Basics

  predicate Continuation(b: Byte) { 0x80 <= b <= 0xBF }

  /** The length of the well-formed character at the front, or 0 if there is none. */
  function CharLength(s: Bytes): (n: nat)
    ensures n <= |s|
  {
    if |s| == 0 then 0
    else if s[0] <= 0x7F then 1
    else if 0xC2 <= s[0] <= 0xDF then (if |s| >= 2 && Continuation(s[1]) then 2 else 0)
    else if 0xE0 <= s[0] <= 0xEF then
      (if |s| >= 3 && Continuation(s[1]) && Continuation(s[2]) &&
          (s[0] == 0xE0 ==> s[1] >= 0xA0) && (s[0] == 0xED ==> s[1] <= 0x9F) then 3 else 0)
    else if 0xF0 <= s[0] <= 0xF4 then
      (if |s| >= 4 && Continuation(s[1]) && Continuation(s[2]) && Continuation(s[3]) &&
          (s[0] == 0xF0 ==> s[1] >= 0x90) && (s[0] == 0xF4 ==> s[1] <= 0x8F) then 4 else 0)
    else 0
  }

  predicate ValidUtf8(s: Bytes) {
    s == [] || (CharLength(s) > 0 && ValidUtf8(s[CharLength(s)..]))
  }

  // ---- Scalar values ------------------------------------------------------------------

  /** A code point that is no surrogate. */
  type Scalar = c: int | 0 <= c <= 0x10FFFF && !(0xD800 <= c <= 0xDFFF)

  /** The bytes of one scalar value: its binary digits in groups of six behind a leading byte. */
  function Spell(c: Scalar): Bytes {
    if c < 0x80 then [c]
    else if c < 0x800 then [0xC0 + c / 64, 0x80 + c % 64]
    else if c < 0x1_0000 then [0xE0 + c / 4096, 0x80 + c / 64 % 64, 0x80 + c % 64]
    else [0xF0 + c / 0x4_0000, 0x80 + c / 4096 % 64, 0x80 + c / 64 % 64, 0x80 + c % 64]
  }

  function SpellAll(cs: seq<Scalar>): Bytes { if cs == [] then [] else Spell(cs[0]) + SpellAll(cs[1..]) }

  /** The digits a byte carries behind its marker bits. */
  function Above(b: Byte, marker: int): int { b - marker }

  /** The scalar value a leading character stands for. */
  function ScalarAt(s: Bytes): Scalar
    requires CharLength(s) > 0
  {
    if CharLength(s) == 1 then s[0]
    else if CharLength(s) == 2 then Above(s[0], 0xC0) * 64 + Above(s[1], 0x80)
    else if CharLength(s) == 3 then Above(s[0], 0xE0) * 4096 + Above(s[1], 0x80) * 64 + Above(s[2], 0x80)
    else Above(s[0], 0xF0) * 0x4_0000 + Above(s[1], 0x80) * 4096 + Above(s[2], 0x80) * 64 + Above(s[3], 0x80)
  }

  lemma SpellTwo(s: Bytes)
    requires CharLength(s) == 2
    ensures Spell(ScalarAt(s)) == s[..2]
  {
    assert ScalarAt(s) / 64 == Above(s[0], 0xC0);
  }

  lemma SpellThree(s: Bytes)
    requires CharLength(s) == 3
    ensures Spell(ScalarAt(s)) == s[..3]
  {
    var c := ScalarAt(s);
    assert c / 64 == Above(s[0], 0xE0) * 64 + Above(s[1], 0x80);
    assert c / 4096 == Above(s[0], 0xE0);
  }

  lemma SpellFour(s: Bytes)
    requires CharLength(s) == 4
    ensures Spell(ScalarAt(s)) == s[..4]
  {
    var c := ScalarAt(s);
    assert c / 64 == Above(s[0], 0xF0) * 4096 + Above(s[1], 0x80) * 64 + Above(s[2], 0x80);
    assert c / 4096 == Above(s[0], 0xF0) * 64 + Above(s[1], 0x80);
    assert c / 0x4_0000 == Above(s[0], 0xF0);
  }

  /** A well-formed character is the spelling of a scalar value. */
  lemma CharIsSpelled(s: Bytes)
    requires CharLength(s) > 0
    ensures Spell(ScalarAt(s)) == s[..CharLength(s)]
  {
    if CharLength(s) == 2 {
      SpellTwo(s);
    } else if CharLength(s) == 3 {
      SpellThree(s);
    } else if CharLength(s) == 4 {
      SpellFour(s);
    }
  }

  lemma SpelledInTwo(c: Scalar, s: Bytes)
    requires 0x80 <= c < 0x800 && |s| >= 2 && s[0] == 0xC0 + c / 64 && s[1] == 0x80 + c % 64
    ensures CharLength(s) == 2
  {
  }

  lemma SpelledInThree(c: Scalar, s: Bytes)
    requires 0x800 <= c < 0x1_0000 && |s| >= 3 && s[0] == 0xE0 + c / 4096
    requires s[1] == 0x80 + c / 64 % 64 && s[2] == 0x80 + c % 64
    ensures CharLength(s) == 3
  {
    var lead, mid := c / 4096, c / 64 % 64;
    assert c / 64 == 64 * lead + mid;
    assert lead == 0 ==> mid >= 0x20;
    assert lead == 0xD ==> mid <= 0x1F;
  }

  lemma SpelledInFour(c: Scalar, s: Bytes)
    requires 0x1_0000 <= c && |s| >= 4 && s[0] == 0xF0 + c / 0x4_0000
    requires s[1] == 0x80 + c / 4096 % 64 && s[2] == 0x80 + c / 64 % 64 && s[3] == 0x80 + c % 64
    ensures CharLength(s) == 4
  {
    var lead, mid := c / 0x4_0000, c / 4096 % 64;
    assert c / 4096 == 64 * lead + mid;
    assert lead == 0 ==> mid >= 0x10;
    assert lead == 4 ==> mid <= 0x0F;
  }

  /** The spelling of a scalar value is a well-formed character, whatever follows. */
  lemma SpelledIsChar(c: Scalar, rest: Bytes)
    ensures CharLength(Spell(c) + rest) == |Spell(c)| > 0
  {
    var s := Spell(c) + rest;
    if 0x80 <= c < 0x800 {
      SpelledInTwo(c, s);
    } else if 0x800 <= c < 0x1_0000 {
      SpelledInThree(c, s);
    } else if 0x1_0000 <= c {
      SpelledInFour(c, s);
    }
  }

  lemma {:induction false} ValidIsSpelled(s: Bytes) returns (cs: seq<Scalar>)
    requires ValidUtf8(s)
    ensures SpellAll(cs) == s
    decreases |s|
  {
    cs := [];
    if s != [] {
      var n := CharLength(s);
      CharIsSpelled(s);
      var rest := ValidIsSpelled(s[n..]);
      cs := [ScalarAt(s)] + rest;
      assert cs[1..] == rest && s == s[..n] + s[n..];
    }
  }

  lemma {:induction false} SpelledIsValid(cs: seq<Scalar>)
    ensures ValidUtf8(SpellAll(cs))
    decreases |cs|
  {
    if cs != [] {
      var rest := SpellAll(cs[1..]);
      SpelledIsValid(cs[1..]);
      SpelledIsChar(cs[0], rest);
      assert (Spell(cs[0]) + rest)[|Spell(cs[0])|..] == rest;
    }
  }

  /** Exactly the spellings of scalar values are valid. */
  lemma ValidUtf8Iff(s: Bytes)
    ensures ValidUtf8(s) <==> exists cs: seq<Scalar> :: SpellAll(cs) == s
  {
    if ValidUtf8(s) { var cs := ValidIsSpelled(s); }
    if cs: seq<Scalar> :| SpellAll(cs) == s { SpelledIsValid(cs); }
  }
}
