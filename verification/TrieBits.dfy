/** Bitmaps and hash digits of the hash array mapped trie.  A machine word is a
    natural number; its operations are given bit by bit. */
module TrieBits {

  /** Whether bit `d` of `b` is set. */
  predicate Bit(b: nat, d: nat) { if d == 0 then b % 2 == 1 else Bit(b / 2, d - 1) }

  /** The number of bits set. */
  function Ones(b: nat): nat { if b == 0 then 0 else b % 2 + Ones(b / 2) }

  /** `b & (1<<d - 1)`. */
  function LowBits(b: nat, d: nat): nat { if d == 0 then 0 else b % 2 + 2 * LowBits(b / 2, d - 1) }

  /** `b | 1<<d`. */
  function SetBit(b: nat, d: nat): nat { if d == 0 then b / 2 * 2 + 1 else b % 2 + 2 * SetBit(b / 2, d - 1) }

  /** `b &^ 1<<d`. */
  function ClearBit(b: nat, d: nat): nat { if d == 0 then b / 2 * 2 else b % 2 + 2 * ClearBit(b / 2, d - 1) }

  /** The slot of bit `d`: how many lower bits are set. */
  function Rank(b: nat, d: nat): nat { Ones(LowBits(b, d)) }

  /** `Rank` one bit at a time. */
  lemma {:induction false} RankStep(b: nat, d: nat)
    ensures Rank(b, 0) == 0
    ensures d > 0 ==> Rank(b, d) == b % 2 + Rank(b / 2, d - 1)
  {
    if d > 0 {
      var low := LowBits(b / 2, d - 1);
      assert LowBits(b, d) % 2 == b % 2 && LowBits(b, d) / 2 == low;
      if LowBits(b, d) == 0 { assert low == 0; }
    }
  }

  lemma {:induction false} RankBelow(b: nat, d: nat)
    ensures Rank(b, d) <= Ones(b)
    ensures Bit(b, d) ==> Rank(b, d) < Ones(b)
  {
    RankStep(b, d);
    if b == 0 {
      ZeroBits(d);
    } else if d > 0 {
      RankBelow(b / 2, d - 1);
    }
  }

  lemma {:induction false} ZeroBits(d: nat)
    ensures !Bit(0, d) && LowBits(0, d) == 0
  {
    if d > 0 { ZeroBits(d - 1); }
  }

  /** Set bits have distinct slots, in order. */
  lemma {:induction false} RankRises(b: nat, d: nat, x: nat)
    requires d < x && Bit(b, d)
    ensures Rank(b, d) < Rank(b, x)
  {
    RankStep(b, d);
    RankStep(b, x);
    if d > 0 { RankRises(b / 2, d - 1, x - 1); }
  }

  /** Every slot belongs to a bit. */
  lemma {:induction false} Select(b: nat, i: nat) returns (d: nat)
    requires i < Ones(b)
    ensures Bit(b, d) && Rank(b, d) == i
  {
    if b % 2 == 1 && i == 0 {
      d := 0;
      RankStep(b, 0);
    } else {
      var r := Select(b / 2, i - b % 2);
      d := r + 1;
      RankStep(b, d);
    }
  }

  lemma {:induction false} SetBitIs(b: nat, d: nat, x: nat)
    ensures Bit(SetBit(b, d), x) <==> x == d || Bit(b, x)
    ensures !Bit(b, d) ==> Rank(SetBit(b, d), x) == Rank(b, x) + (if d < x then 1 else 0)
    ensures !Bit(b, d) ==> Ones(SetBit(b, d)) == Ones(b) + 1
  {
    var s := SetBit(b, d);
    RankStep(b, x);
    RankStep(s, x);
    if d == 0 {
      assert s / 2 == b / 2 && s % 2 == 1;
      if b == 0 { assert s == 1; assert Ones(1) == 1 + Ones(0); }
    } else {
      assert s % 2 == b % 2 && s / 2 == SetBit(b / 2, d - 1);
      SetBitIs(b / 2, d - 1, if x == 0 then 0 else x - 1);
      if b == 0 { assert Ones(s) == Ones(s / 2); }
    }
  }

  lemma {:induction false} ClearBitIs(b: nat, d: nat, x: nat)
    ensures Bit(ClearBit(b, d), x) <==> x != d && Bit(b, x)
    ensures Bit(b, d) ==> Rank(ClearBit(b, d), x) == Rank(b, x) - (if d < x then 1 else 0)
    ensures Bit(b, d) ==> Ones(ClearBit(b, d)) == Ones(b) - 1
  {
    var s := ClearBit(b, d);
    RankStep(b, x);
    RankStep(s, x);
    if d == 0 {
      assert s / 2 == b / 2 && s % 2 == 0;
    } else {
      assert s % 2 == b % 2 && s / 2 == ClearBit(b / 2, d - 1);
      ClearBitIs(b / 2, d - 1, if x == 0 then 0 else x - 1);
    }
  }

  /** A single bit, and two. */
  lemma {:induction false} OneBit(d: nat, x: nat)
    ensures Bit(SetBit(0, d), x) <==> x == d
    ensures Rank(SetBit(0, d), d) == 0 && Ones(SetBit(0, d)) == 1
  {
    ZeroBits(x);
    ZeroBits(d);
    SetBitIs(0, d, x);
    SetBitIs(0, d, d);
  }

  lemma TwoBits(a: nat, b: nat, x: nat)
    requires a < b
    ensures var m := SetBit(SetBit(0, a), b);
      && (Bit(m, x) <==> x == a || x == b)
      && Rank(m, a) == 0 && Rank(m, b) == 1 && Ones(m) == 2
  {
    var m := SetBit(0, a);
    OneBit(a, x);
    OneBit(a, b);
    ZeroBits(a);
    ZeroBits(b);
    SetBitIs(0, a, a);
    SetBitIs(0, a, b);
    SetBitIs(m, b, x);
    SetBitIs(m, b, a);
    SetBitIs(m, b, b);
  }

  // ---- hashes ------------------------------------------------------------

  /** Five bits of a hash: `h >> (5*k) & 31`. */
  function Digit(h: nat, k: nat): (d: nat)
    ensures d < 32
  {
    if k == 0 then h % 32 else Digit(h / 32, k - 1)
  }

  /** The level at which the hash counts as spent: 60 bits. */
  const DEPTH: nat := 12

  predicate SameDigits(h: nat, g: nat, k: nat) { forall i | 0 <= i < k :: Digit(h, i) == Digit(g, i) }

  /** The low 5k bits. */
  function LowPart(h: nat, k: nat): nat { if k == 0 then 0 else h % 32 + 32 * LowPart(h / 32, k - 1) }

  /** Agreeing on k digits is agreeing on the low 5k bits. */
  lemma {:induction false} DigitsAreLowBits(h: nat, g: nat, k: nat)
    ensures SameDigits(h, g, k) <==> LowPart(h, k) == LowPart(g, k)
  {
    if k > 0 {
      DigitsAreLowBits(h / 32, g / 32, k - 1);
      if SameDigits(h, g, k) {
        assert Digit(h, 0) == Digit(g, 0);
        forall i | 0 <= i < k - 1 ensures Digit(h / 32, i) == Digit(g / 32, i) {
          assert Digit(h, i + 1) == Digit(g, i + 1);
        }
      }
      if LowPart(h, k) == LowPart(g, k) {
        assert h % 32 == g % 32 && LowPart(h / 32, k - 1) == LowPart(g / 32, k - 1);
        forall i | 0 <= i < k ensures Digit(h, i) == Digit(g, i) {
          if i > 0 { assert Digit(h / 32, i - 1) == Digit(g / 32, i - 1); }
        }
      }
    }
  }
}
