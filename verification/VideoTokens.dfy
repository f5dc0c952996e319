/** The prefix code of the compressed video stream, and a decoder that walks it with a cursor. */
module VideoTokens {
  import opened Bytes
  import opened Bits

  datatype Token =
    | Repeat
    | Recent(k: nat)
    | Explicit(rgb: nat)
    | Raster(line: nat)
    | Run(count: nat)
    | NewFrame
    | Reserved

  predicate ValidToken(t: Token) {
    match t
    case Recent(k) => 1 <= k <= 4
    case Explicit(rgb) => rgb < 0x1000
    case Raster(line) => line < 0x400
    case Run(count) => count < 0x100
    case _ => true
  }

  predicate AllValid(ts: seq<Token>) {
    forall i | 0 <= i < |ts| :: ValidToken(ts[i])
  }

  // ----- numbers, highest bit first

  function Number(bits: seq<bool>): (v: nat)
    ensures v < Pow2(|bits|)
  {
    if bits == [] then 0 else 2 * Number(bits[..|bits| - 1]) + if bits[|bits| - 1] then 1 else 0
  }

  function Digits(v: nat, n: nat): (bits: seq<bool>)
    ensures |bits| == n
  {
    if n == 0 then [] else Digits(v / 2, n - 1) + [v % 2 == 1]
  }

  lemma {:induction false} NumberOfDigits(v: nat, n: nat)
    requires v < Pow2(n)
    ensures Number(Digits(v, n)) == v
  {
    if n > 0 {
      NumberOfDigits(v / 2, n - 1);
      assert Digits(v, n)[..n - 1] == Digits(v / 2, n - 1);
    }
  }

  lemma {:induction false} DigitsOfNumber(bits: seq<bool>)
    ensures Digits(Number(bits), |bits|) == bits
  {
    if bits != [] {
      DigitsOfNumber(bits[..|bits| - 1]);
    }
  }

  /** The first bit counts most. */
  lemma {:induction false} NumberBit(bits: seq<bool>, k: nat)
    requires k < |bits|
    ensures Bit(Number(bits), |bits| - 1 - k) == bits[k]
  {
    var n := |bits| - 1;
    var front := Number(bits[..n]);
    assert Number(bits) == 2 * front + if bits[n] then 1 else 0;
    if k < n {
      NumberBit(bits[..n], k);
      assert Number(bits) / 2 == front;
    }
  }

  lemma Widths()
    ensures Pow2(8) == 0x100 && Pow2(10) == 0x400 && Pow2(12) == 0x1000
  {
    assert Pow2(8) == 0x100;
    assert Pow2(10) == 4 * Pow2(8);
  }

  // ----- the code

  const YES := true
  const NO := false

  function Code(t: Token): (bits: seq<bool>)
    ensures 1 <= |bits| <= 17
  {
    match t
    case Repeat => [NO]
    case Recent(k) =>
      if k == 1 then [YES, NO]
      else if k == 2 then [YES, YES, NO, NO]
      else if k == 3 then [YES, YES, NO, YES] else [YES, YES, YES, NO]
    case Explicit(rgb) => [YES, YES, YES, YES, NO] + Digits(rgb, 12)
    case Raster(line) => [YES, YES, YES, YES, YES, NO] + Digits(line, 10)
    case Run(count) => [YES, YES, YES, YES, YES, YES, YES, NO] + Digits(count, 8)
    case NewFrame => [YES, YES, YES, YES, YES, YES, NO, NO]
    case Reserved => [YES, YES, YES, YES, YES, YES, NO, YES]
  }

  /** The codes, bit by bit, with the numbers that follow them. */
  lemma CodesAre(v: nat)
    ensures Code(Repeat) == [false] && Code(Recent(1)) == [true, false]
    ensures Code(Recent(2)) == [true, true, false, false] && Code(Recent(3)) == [true, true, false, true]
    ensures Code(Recent(4)) == [true, true, true, false]
    ensures Code(NewFrame) == [true, true, true, true, true, true, false, false]
    ensures Code(Reserved) == [true, true, true, true, true, true, false, true]
    ensures Code(Explicit(v))[..5] == [true, true, true, true, false]
    ensures Code(Raster(v))[..6] == [true, true, true, true, true, false]
    ensures Code(Run(v))[..8] == [true, true, true, true, true, true, true, false]
    ensures v < 0x1000 ==> |Code(Explicit(v))| == 17 && Number(Code(Explicit(v))[5..]) == v
    ensures v < 0x400 ==> |Code(Raster(v))| == 16 && Number(Code(Raster(v))[6..]) == v
    ensures v < 0x100 ==> |Code(Run(v))| == 16 && Number(Code(Run(v))[8..]) == v
  {
    hide Number, Digits;
    Widths();
    assert Code(Explicit(v))[5..] == Digits(v, 12);
    assert Code(Raster(v))[6..] == Digits(v, 10);
    assert Code(Run(v))[8..] == Digits(v, 8);
    if v < 0x1000 {
      NumberOfDigits(v, 12);
    }
    if v < 0x400 {
      NumberOfDigits(v, 10);
    }
    if v < 0x100 {
      NumberOfDigits(v, 8);
    }
  }

  function CodeAll(ts: seq<Token>): seq<bool> {
    if ts == [] then [] else Code(ts[0]) + CodeAll(ts[1..])
  }

  /** The longest token has 17 bits; the decoder looks at 20. */
  const WINDOW := 20

  /** The token at the front, if any, and the number of bits it takes. */
  function ReadToken(b: seq<bool>): (r: (Option<Token>, nat))
    requires |b| >= 17
    ensures 1 <= r.1 <= 17 && (r.0.Some? ==> ValidToken(r.0.value))
  {
    Widths();
    if !b[0] then (Some(Repeat), 1)
    else if !b[1] then (Some(Recent(1)), 2)
    else if !b[2] then (Some(Recent(if b[3] then 3 else 2)), 4)
    else if !b[3] then (Some(Recent(4)), 4)
    else if !b[4] then (Some(Explicit(Number(b[5..17]))), 17)
    else if !b[5] then (Some(Raster(Number(b[6..16]))), 16)
    else if !b[6] then (Some(if b[7] then Reserved else NewFrame), 8)
    else if !b[7] then (Some(Run(Number(b[8..16]))), 16)
    else (None, 1)
  }

  /** Walks a bit stream with a cursor, skipping one bit where no token starts,
      as long as a whole window of bits is left. */
  function Tokens(bits: seq<bool>): (ts: seq<Token>)
    ensures AllValid(ts)
    decreases |bits|
  {
    if |bits| < WINDOW then []
    else
      var (t, n) := ReadToken(bits);
      (match t case Some(token) => [token] case None => []) + Tokens(bits[n..])
  }

  /** A token's code reads back as that token, whatever follows. */
  lemma ReadCode(t: Token, rest: seq<bool>)
    requires ValidToken(t) && |Code(t) + rest| >= 17
    ensures ReadToken(Code(t) + rest) == (Some(t), |Code(t)|)
  {
    Widths();
    var b := Code(t) + rest;
    match t
    case Explicit(rgb) =>
      NumberOfDigits(rgb, 12);
      assert b[5..17] == Digits(rgb, 12);
    case Raster(line) =>
      NumberOfDigits(line, 10);
      assert b[6..16] == Digits(line, 10);
    case Run(count) =>
      NumberOfDigits(count, 8);
      assert b[8..16] == Digits(count, 8);
    case _ =>
  }

  /** Where a token is read its code stands, and where none is read the bits are eight ones. */
  lemma ReadIsCode(b: seq<bool>)
    requires |b| >= 17
    ensures match ReadToken(b)
            case (Some(t), n) => b[..n] == Code(t)
            case (None, n) => b[..8] == Ones(8)
  {
    hide Number, Digits;
    Widths();
    match ReadToken(b) {
      case (Some(Explicit(_)), n) =>
        DigitsOfNumber(b[5..17]);
        assert b[..n] == b[..5] + b[5..17];
      case (Some(Raster(_)), n) =>
        DigitsOfNumber(b[6..16]);
        assert b[..n] == b[..6] + b[6..16];
      case (Some(Run(_)), n) =>
        DigitsOfNumber(b[8..16]);
        assert b[..n] == b[..8] + b[8..16];
      case _ =>
    }
  }

  /** What a stream of tokens decodes to, once 19 more bits have followed. */
  lemma {:induction false} TokensOfCode(ts: seq<Token>, tail: seq<bool>)
    requires AllValid(ts) && |tail| >= WINDOW - 1
    ensures Tokens(CodeAll(ts) + tail) == ts + Tokens(tail)
  {
    hide Code, ReadToken, ValidToken;
    if ts == [] {
      assert [] + tail == tail && [] + Tokens(tail) == Tokens(tail);
    } else {
      TokensOfCode(ts[1..], tail);
      var rest := CodeAll(ts[1..]) + tail;
      var bits := CodeAll(ts) + tail;
      assert bits == Code(ts[0]) + rest;
      ReadCode(ts[0], rest);
      assert bits[|Code(ts[0])|..] == rest;
    }
  }

  /** A token depends on the window alone. */
  lemma ReadWindow(b: seq<bool>, rest: seq<bool>)
    requires |b| >= 17
    ensures ReadToken(b + rest) == ReadToken(b)
  {
    var c := b + rest;
    assert c[5..17] == b[5..17] && c[6..16] == b[6..16] && c[8..16] == b[8..16];
  }
}
