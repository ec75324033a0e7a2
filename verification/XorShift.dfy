/** The 64-bit xorshift generator that jitters retries. */
module XorShift {

  function L13(x: bv64): bv64 { x ^ (x << 13) }
  function R7(x: bv64): bv64 { x ^ (x >> 7) }
  function L17(x: bv64): bv64 { x ^ (x << 17) }

  function Next(x: bv64): bv64 { L17(R7(L13(x))) }

  // A shifted xor is undone by xoring in every multiple of the shift.
  function UndoL13(z: bv64): bv64 { z ^ (z << 13) ^ (z << 26) ^ (z << 39) ^ (z << 52) }
  function UndoR7(z: bv64): bv64 {
    z ^ (z >> 7) ^ (z >> 14) ^ (z >> 21) ^ (z >> 28) ^ (z >> 35) ^ (z >> 42) ^ (z >> 49) ^ (z >> 56) ^ (z >> 63)
  }
  function UndoL17(z: bv64): bv64 { z ^ (z << 17) ^ (z << 34) ^ (z << 51) }

  lemma L13Bits(x: bv64)
    ensures (x ^ (x << 13)) ^ ((x ^ (x << 13)) << 13) ^ ((x ^ (x << 13)) << 26) ^
            ((x ^ (x << 13)) << 39) ^ ((x ^ (x << 13)) << 52) == x
  {
  }

  lemma L13Inlined(x: bv64)
    ensures UndoL13(x ^ (x << 13)) == x
  {
    L13Bits(x);
  }

  lemma L13Undone(x: bv64)
    ensures UndoL13(L13(x)) == x
  {
    L13Inlined(x);
    assert L13(x) == x ^ (x << 13);
  }

  lemma R7Bits(x: bv64)
    ensures (x ^ (x >> 7)) ^ ((x ^ (x >> 7)) >> 7) ^ ((x ^ (x >> 7)) >> 14) ^ ((x ^ (x >> 7)) >> 21) ^
            ((x ^ (x >> 7)) >> 28) ^ ((x ^ (x >> 7)) >> 35) ^ ((x ^ (x >> 7)) >> 42) ^ ((x ^ (x >> 7)) >> 49) ^
            ((x ^ (x >> 7)) >> 56) ^ ((x ^ (x >> 7)) >> 63) == x
  {
  }

  lemma R7Inlined(x: bv64)
    ensures UndoR7(x ^ (x >> 7)) == x
  {
    R7Bits(x);
  }

  lemma R7Undone(x: bv64)
    ensures UndoR7(R7(x)) == x
  {
    R7Inlined(x);
    assert R7(x) == x ^ (x >> 7);
  }

  lemma L17Bits(x: bv64)
    ensures (x ^ (x << 17)) ^ ((x ^ (x << 17)) << 17) ^ ((x ^ (x << 17)) << 34) ^ ((x ^ (x << 17)) << 51) == x
  {
  }

  lemma L17Inlined(x: bv64)
    ensures UndoL17(x ^ (x << 17)) == x
  {
    L17Bits(x);
  }

  lemma L17Undone(x: bv64)
    ensures UndoL17(L17(x)) == x
  {
    L17Inlined(x);
    assert L17(x) == x ^ (x << 17);
  }

  function UndoNext(y: bv64): bv64 { UndoL13(UndoR7(UndoL17(y))) }

  /** One generator step can be undone, so it is injective, and only zero goes to zero. */
  lemma NextIsInvertible(x: bv64)
    ensures UndoNext(Next(x)) == x
    ensures x != 0 ==> Next(x) != 0
  {
    L17Undone(R7(L13(x)));
    R7Undone(L13(x));
    L13Undone(x);
    assert UndoNext(0) == 0;
  }

  /** The generator after n draws. */
  function Draws(seed: bv64, n: nat): bv64 {
    if n == 0 then seed else Next(Draws(seed, n - 1))
  }

  /** Over any number of draws the state stays non-zero, and different seeds never meet. */
  lemma {:induction false} DrawsStayApart(x: bv64, y: bv64, n: nat)
    requires x != y
    ensures Draws(x, n) != Draws(y, n)
    ensures x != 0 ==> Draws(x, n) != 0
  {
    if n > 0 {
      DrawsStayApart(x, y, n - 1);
      NextIsInvertible(Draws(x, n - 1));
      NextIsInvertible(Draws(y, n - 1));
    }
  }

  const TWO_53: nat := 0x20_0000_0000_0000

  /** The top 53 bits of a state: the numerator of the unit value over 2^53. */
  function Top53(x: bv64): (k: nat)
    ensures k < TWO_53
  {
    (x >> 11) as bv53 as nat
  }

  lemma SplitAt11(x: bv64)
    ensures x == ((((x >> 11) as bv53) as bv64) << 11) | (((x & 2047) as bv11) as bv64)
  {
  }

  lemma JoinAt11(x: bv64, high: bv53, low: bv11)
    requires x == ((high as bv64) << 11) | (low as bv64)
    ensures x as nat == 2048 * (high as nat) + (low as nat)
  {
  }

  lemma Quotient(n: nat, high: nat, low: nat)
    requires n == 2048 * high + low && low < 2048
    ensures n / 2048 == high
  {
  }

  lemma HighOfJoin(x: bv64, high: bv53, low: bv11)
    requires x == ((high as bv64) << 11) | (low as bv64)
    ensures high as nat == (x as nat) / 2048
  {
    JoinAt11(x, high, low);
    Quotient(x as nat, high as nat, low as nat);
  }

  lemma Split(x: bv64) returns (high: bv53, low: bv11)
    ensures x == ((high as bv64) << 11) | (low as bv64) && high == (x >> 11) as bv53
  {
    high, low := (x >> 11) as bv53, (x & 2047) as bv11;
    SplitAt11(x);
  }

  /** It is the number the state stands for, without its last 11 binary digits. */
  lemma Top53Divides(x: bv64)
    ensures Top53(x) == (x as nat) / 2048
  {
    var high, low := Split(x);
    HighOfJoin(x, high, low);
  }

  /** The shifts are 13 left, 7 right and 17 left, in that order. */
  lemma NextOfOne()
    ensures Next(1) == 0x4082_2041 && Next(Next(1)) == 0x1000_4106_0c01_1441
  {
  }

  /** One draw: the next state and its 53-bit numerator. */
  method Draw(state: bv64) returns (next: bv64, k: nat)
    ensures next == Next(state) && k == Top53(next) && k < TWO_53
    ensures state != 0 ==> next != 0
  {
    next := L13(state);
    next := R7(next);
    next := L17(next);
    NextIsInvertible(state);
    k := Top53(next);
  }
}
