/** The packed tile format: tokens, their bytes, and a reader of the packed bytes. */
module RleFormat {
  import opened Bytes

  /** One token: literal bytes, a repeated byte, or a repeated pair of bytes. */
  datatype Token =
    | Raw(data: seq<byte>)
    | Run(count: nat, value: byte)
    | Pairs(count: nat, first: byte, second: byte)

  predicate ValidToken(t: Token) {
    match t
    case Raw(data) => 1 <= |data| <= 127
    case Run(count, _) => 1 <= count <= 127
    case Pairs(count, _, _) => 1 <= count <= 255
  }

  predicate ValidTokens(ts: seq<Token>) {
    forall i | 0 <= i < |ts| :: ValidToken(ts[i])
  }

  /** The raw bytes a token stands for. */
  function Expand(t: Token): seq<byte> {
    match t
    case Raw(data) => data
    case Run(count, value) => seq(count, _ => value)
    case Pairs(count, first, second) => seq(2 * count, i => if i % 2 == 0 then first else second)
  }

  /** The number of packed bytes a token takes. */
  function Cost(t: Token): nat {
    match t
    case Raw(data) => 1 + |data|
    case Run(_, _) => 2
    case Pairs(_, _, _) => 4
  }

  function Emit(t: Token): seq<byte>
    requires ValidToken(t)
  {
    match t
    case Raw(data) => [|data|] + data
    case Run(count, value) => [0x80 + count, value]
    case Pairs(count, first, second) => [0x80, count, first, second]
  }

  function ExpandAll(ts: seq<Token>): seq<byte> {
    if ts == [] then [] else Expand(ts[0]) + ExpandAll(ts[1..])
  }

  function CostAll(ts: seq<Token>): nat {
    if ts == [] then 0 else Cost(ts[0]) + CostAll(ts[1..])
  }

  function EmitAll(ts: seq<Token>): seq<byte>
    requires ValidTokens(ts)
  {
    if ts == [] then [] else Emit(ts[0]) + EmitAll(ts[1..])
  }

  /** Reads a packed file up to its $00 terminator, which must be its last byte. */
  function Unpack(p: seq<byte>): Option<seq<byte>> {
    if p == [] then None
    else
      var c := p[0];
      if c == 0x00 then (if |p| == 1 then Some([]) else None)
      else if c == 0x80 then
        if |p| < 4 then None
        else
          match Unpack(p[4..])
          case None => None
          case Some(rest) => Some(Expand(Pairs(p[1], p[2], p[3])) + rest)
      else if c > 0x80 then
        if |p| < 2 then None
        else
          match Unpack(p[2..])
          case None => None
          case Some(rest) => Some(Expand(Run(c - 0x80, p[1])) + rest)
      else
        if |p| < 1 + c then None
        else
          match Unpack(p[1 + c..])
          case None => None
          case Some(rest) => Some(p[1..1 + c] + rest)
  }

  // ----- the format, byte by byte

  lemma EndReads()
    ensures Unpack([0x00]) == Some([])
  {
  }

  /** A count below $80 is followed by as many bytes that stand for themselves. */
  lemma RawReads(data: seq<byte>, rest: seq<byte>)
    requires 1 <= |data| < 0x80 && Unpack(rest).Some?
    ensures Unpack([|data|] + data + rest) == Some(data + Unpack(rest).value)
  {
    var p := [|data|] + data + rest;
    assert p[1..1 + |data|] == data && p[1 + |data|..] == rest;
  }

  /** A count above $80 repeats the byte that follows, $80 times less. */
  lemma RunReads(count: byte, value: byte, rest: seq<byte>)
    requires count > 0x80 && Unpack(rest).Some?
    ensures Unpack([count, value] + rest) == Some(seq(count - 0x80, _ => value) + Unpack(rest).value)
  {
    var p := [count, value] + rest;
    assert p[2..] == rest;
  }

  /** $80 is followed by a count and by two bytes to repeat in turn. */
  lemma PairsRead(count: byte, first: byte, second: byte, rest: seq<byte>)
    requires Unpack(rest).Some?
    ensures var r := Unpack([0x80, count, first, second] + rest);
      && r.Some? && |r.value| == 2 * count + |Unpack(rest).value| && r.value[2 * count..] == Unpack(rest).value
      && forall i | 0 <= i < 2 * count :: r.value[i] == if i % 2 == 0 then first else second
  {
    var p := [0x80, count, first, second] + rest;
    assert p[4..] == rest;
  }

  /** A file that ends before its terminator, or goes on after it, cannot be read. */
  lemma NotReadable(p: seq<byte>)
    ensures p == [] || (p[0] == 0x00 && |p| > 1) ==> Unpack(p) == None
    ensures p != [] && 0 < p[0] < 0x80 && |p| < 1 + p[0] ==> Unpack(p) == None
    ensures p != [] && p[0] > 0x80 && |p| < 2 ==> Unpack(p) == None
    ensures p != [] && p[0] == 0x80 && |p| < 4 ==> Unpack(p) == None
  {
  }

  // ----- sequences of tokens, split at the end instead of the front

  lemma {:induction false} ExpandAllSnoc(ts: seq<Token>, t: Token)
    ensures ExpandAll(ts + [t]) == ExpandAll(ts) + Expand(t)
  {
    if ts == [] {
      assert [t][1..] == [];
    } else {
      assert (ts + [t])[1..] == ts[1..] + [t];
      ExpandAllSnoc(ts[1..], t);
    }
  }

  lemma {:induction false} CostAllSnoc(ts: seq<Token>, t: Token)
    ensures CostAll(ts + [t]) == CostAll(ts) + Cost(t)
  {
    if ts == [] {
      assert [t][1..] == [];
    } else {
      assert (ts + [t])[1..] == ts[1..] + [t];
      CostAllSnoc(ts[1..], t);
    }
  }

  lemma {:induction false} EmitAllSnoc(ts: seq<Token>, t: Token)
    requires ValidTokens(ts) && ValidToken(t)
    ensures EmitAll(ts + [t]) == EmitAll(ts) + Emit(t)
  {
    if ts == [] {
      assert [t][1..] == [];
    } else {
      assert (ts + [t])[1..] == ts[1..] + [t];
      EmitAllSnoc(ts[1..], t);
    }
  }

  lemma {:induction false} EmitAllLength(ts: seq<Token>)
    requires ValidTokens(ts)
    ensures |EmitAll(ts)| == CostAll(ts)
  {
    if ts != [] {
      EmitAllLength(ts[1..]);
    }
  }

  // ----- what the reader recovers

  /** Every emitted file reads back as the bytes its tokens stand for. */
  lemma {:induction false} UnpackEmitted(ts: seq<Token>)
    requires ValidTokens(ts)
    ensures Unpack(EmitAll(ts) + [0x00]) == Some(ExpandAll(ts))
  {
    if ts != [] {
      hide Emit, Unpack, Expand;
      UnpackEmitted(ts[1..]);
      var tail := EmitAll(ts[1..]) + [0x00];
      UnpackToken(ts[0], tail);
      assert EmitAll(ts) + [0x00] == Emit(ts[0]) + tail;
    }
  }

  /** The reader takes one emitted token off the front. */
  lemma UnpackToken(t: Token, tail: seq<byte>)
    requires ValidToken(t) && Unpack(tail).Some?
    ensures Unpack(Emit(t) + tail) == Some(Expand(t) + Unpack(tail).value)
  {
    var p := Emit(t) + tail;
    assert p[|Emit(t)|..] == tail;
    match t
    case Raw(data) => assert p[1..1 + |data|] == data;
    case Run(count, value) =>
    case Pairs(count, first, second) =>
  }

  /** Every readable file is matched, for no more bytes, by some valid tokens. */
  lemma {:induction false} ReadableIsTokens(p: seq<byte>) returns (ts: seq<Token>)
    requires Unpack(p).Some?
    ensures ValidTokens(ts) && ExpandAll(ts) == Unpack(p).value
    ensures CostAll(ts) + 1 <= |p|
  {
    var c := p[0];
    if c == 0x00 {
      ts := [];
    } else {
      var used, t;
      if c == 0x80 {
        used, t := 4, Pairs(p[1], p[2], p[3]);
      } else if c > 0x80 {
        used, t := 2, Run(c - 0x80, p[1]);
      } else {
        used, t := 1 + c, Raw(p[1..1 + c]);
      }
      var rest := ReadableIsTokens(p[used..]);
      if ValidToken(t) {
        ts := [t] + rest;
        assert ts[1..] == rest;
      } else {
        assert Expand(t) == [];
        ts := rest;
      }
    }
  }
}
