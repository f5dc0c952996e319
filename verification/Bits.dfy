/** Numbers as sequences of bits with the least significant bit first. */
module Bits {
  import opened Bytes

  function Pow2(n: nat): (p: nat)
    ensures p >= 1
  {
    if n == 0 then 1 else 2 * Pow2(n - 1)
  }

  /** Bit `k` of `v`. */
  predicate Bit(v: nat, k: nat) {
    if k == 0 then v % 2 == 1 else Bit(v / 2, k - 1)
  }

  /** The low `n` bits of `v`. */
  function BitsOf(v: nat, n: nat): (bits: seq<bool>)
    ensures |bits| == n
  {
    if n == 0 then [] else [v % 2 == 1] + BitsOf(v / 2, n - 1)
  }

  function FromBits(bits: seq<bool>): nat {
    if bits == [] then 0 else (if bits[0] then 1 else 0) + 2 * FromBits(bits[1..])
  }

  function Ones(n: nat): seq<bool> {
    seq(n, _ => true)
  }

  function Zeros(n: nat): seq<bool> {
    seq(n, _ => false)
  }

  function Reverse<T>(s: seq<T>): (r: seq<T>)
    ensures |r| == |s|
    ensures forall i | 0 <= i < |s| :: r[i] == s[|s| - 1 - i]
  {
    if s == [] then [] else Reverse(s[1..]) + [s[0]]
  }

  /** The bits of bytes, each byte's high bit first. */
  function HighBitFirst(data: seq<byte>): seq<bool> {
    if data == [] then [] else Reverse(BitsOf(data[0], 8)) + HighBitFirst(data[1..])
  }

  lemma {:induction false} HighBitAt(data: seq<byte>, k: nat, i: nat)
    requires k < |data| && i < 8
    ensures |HighBitFirst(data)| == 8 * |data| && HighBitFirst(data)[8 * k + i] == Bit(data[k], 7 - i)
  {
    HighBitLength(data);
    if k == 0 {
      BitsOfAt(data[0], 8, 7 - i);
    } else {
      HighBitAt(data[1..], k - 1, i);
    }
  }

  lemma {:induction false} HighBitLength(data: seq<byte>)
    ensures |HighBitFirst(data)| == 8 * |data|
  {
    if data != [] {
      HighBitLength(data[1..]);
    }
  }

  /** The bitwise or. */
  function BitOr(a: nat, b: nat): nat
    decreases a + b
  {
    if a == 0 then b
    else if b == 0 then a
    else 2 * BitOr(a / 2, b / 2) + (if a % 2 == 1 || b % 2 == 1 then 1 else 0)
  }

  /** The bitwise and. */
  function BitAnd(a: nat, b: nat): nat
    decreases a + b
  {
    if a == 0 || b == 0 then 0 else 2 * BitAnd(a / 2, b / 2) + (if a % 2 == 1 && b % 2 == 1 then 1 else 0)
  }

  /** All ones leave every smaller number alone. */
  lemma {:induction false} AndOnes(n: nat, b: nat)
    requires b < Pow2(n)
    ensures BitAnd(Pow2(n) - 1, b) == b
  {
    if n > 0 && b > 0 {
      AndOnes(n - 1, b / 2);
      assert (Pow2(n) - 1) / 2 == Pow2(n - 1) - 1 && (Pow2(n) - 1) % 2 == 1;
    }
  }

  /** Bit by bit. */
  lemma {:induction false} AndBit(a: nat, b: nat, k: nat)
    ensures Bit(BitAnd(a, b), k) == (Bit(a, k) && Bit(b, k))
    decreases k, a + b
  {
    if a == 0 || b == 0 {
      NoBits(k);
    } else if k > 0 {
      AndBit(a / 2, b / 2, k - 1);
    }
  }

  lemma {:induction false} OrBit(a: nat, b: nat, k: nat)
    ensures Bit(BitOr(a, b), k) == (Bit(a, k) || Bit(b, k))
    decreases k, a + b
  {
    if a == 0 || b == 0 {
      NoBits(k);
    } else if k > 0 {
      OrBit(a / 2, b / 2, k - 1);
    }
  }

  /** What lies above the first `n` bits does not touch them. */
  lemma {:induction false} BitBelow(high: nat, low: nat, n: nat, k: nat)
    requires k < n
    ensures Bit(Pow2(n) * high + low, k) == Bit(low, k)
  {
    var p := Pow2(n - 1) * high;
    assert Pow2(n) * high == 2 * p;
    if k > 0 {
      BitBelow(high, low / 2, n - 1, k - 1);
      assert (2 * p + low) / 2 == p + low / 2;
    }
  }

  lemma {:induction false} NoBits(k: nat)
    ensures !Bit(0, k)
  {
    if k > 0 {
      NoBits(k - 1);
    }
  }

  lemma {:induction false} AndBelow(a: nat, b: nat)
    ensures BitAnd(a, b) <= a
    decreases a + b
  {
    if a != 0 && b != 0 {
      AndBelow(a / 2, b / 2);
    }
  }

  /** The logical shift right. */
  function Shr(v: nat, n: nat): nat {
    if n == 0 then v else Shr(v / 2, n - 1)
  }

  lemma HalfFromBits(bits: seq<bool>)
    requires bits != []
    ensures FromBits(bits) / 2 == FromBits(bits[1..])
  {
    var rest := FromBits(bits[1..]);
    assert FromBits(bits) == (if bits[0] then 1 else 0) + 2 * rest;
  }

  lemma {:induction false} ShrFromBits(bits: seq<bool>, n: nat)
    requires n <= |bits|
    ensures Shr(FromBits(bits), n) == FromBits(bits[n..])
  {
    if n > 0 {
      var rest := bits[1..];
      HalfFromBits(bits);
      ShrFromBits(rest, n - 1);
      assert rest[n - 1..] == bits[n..];
    } else {
      assert bits[0..] == bits;
    }
  }

  lemma {:induction false} FromBitsOf(bits: seq<bool>)
    ensures BitsOf(FromBits(bits), |bits|) == bits
    ensures FromBits(bits) < Pow2(|bits|)
  {
    if bits != [] {
      FromBitsOf(bits[1..]);
    }
  }

  lemma {:induction false} BitsOfAt(v: nat, n: nat, k: nat)
    requires k < n
    ensures BitsOf(v, n)[k] == Bit(v, k)
  {
    if k > 0 {
      BitsOfAt(v / 2, n - 1, k - 1);
    }
  }

  lemma {:induction false} BitsOfSnoc(v: nat, n: nat)
    ensures BitsOf(v, n + 1) == BitsOf(v, n) + [Bit(v, n)]
  {
    if n > 0 {
      BitsOfSnoc(v / 2, n - 1);
    }
  }

  /** Appending a top bit. */
  lemma {:induction false} FromBitsSnoc(bits: seq<bool>, b: bool)
    ensures FromBits(bits + [b]) == FromBits(bits) + (if b then Pow2(|bits|) else 0)
  {
    if bits == [] {
      assert [b][1..] == [];
    } else {
      assert (bits + [b])[1..] == bits[1..] + [b];
      FromBitsSnoc(bits[1..], b);
    }
  }

  /** A number below `2^n` keeps its low bits when bit `n` is set above them. */
  lemma {:induction false} BitsOfAbove(v: nat, n: nat, m: nat)
    requires n <= m
    ensures BitsOf(v + Pow2(m), n) == BitsOf(v, n)
  {
    if n > 0 {
      assert Pow2(m) == 2 * Pow2(m - 1);
      BitsOfAbove(v / 2, n - 1, m - 1);
    }
  }

  /** The low bits of $FF, as many as are asked for. */
  lemma OnesOfFF(n: nat)
    requires n <= 8
    ensures BitsOf(0xff, n) == Ones(n)
  {
    assert BitsOf(0xff, 8) == [true, true, true, true, true, true, true, true];
    BitsOfPrefix(0xff, 8, n);
  }

  lemma {:induction false} BitsOfPrefix(v: nat, n: nat, m: nat)
    requires m <= n
    ensures BitsOf(v, m) == BitsOf(v, n)[..m]
  {
    if m > 0 {
      BitsOfPrefix(v / 2, n - 1, m - 1);
    }
  }

  /** Setting bit 7 of a byte that has it clear. */
  lemma OrTop(b: byte)
    ensures BitOr(b, 0) == b
    ensures b < 0x80 ==> BitOr(b, 0x80) == b + 0x80
  {
    if b < 0x80 {
      OrAbove(b, 7);
      assert Pow2(7) == 128;
    }
    OrZero(b);
  }

  lemma {:induction false} OrBelow(a: nat, b: nat, n: nat)
    requires a < Pow2(n) && b < Pow2(n)
    ensures BitOr(a, b) < Pow2(n)
  {
    if a > 0 && b > 0 {
      OrBelow(a / 2, b / 2, n - 1);
    }
  }

  lemma OrZero(b: nat)
    ensures BitOr(b, 0) == b
  {
  }

  lemma {:induction false} OrAbove(b: nat, n: nat)
    requires b < Pow2(n)
    ensures BitOr(b, Pow2(n)) == b + Pow2(n)
  {
    if n > 0 && b > 0 {
      OrAbove(b / 2, n - 1);
      assert Pow2(n) / 2 == Pow2(n - 1);
    }
  }
}
