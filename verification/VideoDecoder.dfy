/** The decoder as it runs: a sliding window of 20 characters, blanked where bits have been used. */
module VideoDecoder {
  import opened Bytes
  import opened Bits
  import opened VideoTokens
  import opened VideoCanvas

  function Chars(bits: seq<bool>): (s: string)
    ensures |s| == |bits|
  {
    seq(|bits|, i requires 0 <= i < |bits| => if bits[i] then '1' else '0')
  }

  function Blanks(n: nat): (s: string)
    ensures |s| == n
  {
    seq(n, _ => '.')
  }

  /** The window holds the unused bits at its end, after blanks; its first character is about to be dropped. */
  ghost predicate Holds(window: string, pending: seq<bool>) {
    |window| == WINDOW && |pending| < WINDOW && window[1..] == Blanks(WINDOW - 1 - |pending|) + Chars(pending)
  }

  predicate Starts(window: string, prefix: string) {
    prefix <= window
  }

  /** Each comparison the decoder makes, in terms of the bits in a full window. */
  lemma Prefixes(p: seq<bool>)
    requires |p| == WINDOW
    ensures var w := Chars(p);
      && (Starts(w, "0") <==> !p[0])
      && (Starts(w, "10") <==> p[0] && !p[1])
      && (Starts(w, "1100") <==> p[0] && p[1] && !p[2] && !p[3])
      && (Starts(w, "1101") <==> p[0] && p[1] && !p[2] && p[3])
      && (Starts(w, "1110") <==> p[0] && p[1] && p[2] && !p[3])
      && (Starts(w, "11110") <==> p[0] && p[1] && p[2] && p[3] && !p[4])
      && (Starts(w, "111110") <==> p[0] && p[1] && p[2] && p[3] && p[4] && !p[5])
      && (Starts(w, "11111100") <==> p[0] && p[1] && p[2] && p[3] && p[4] && p[5] && !p[6] && !p[7])
      && (Starts(w, "11111101") <==> p[0] && p[1] && p[2] && p[3] && p[4] && p[5] && !p[6] && p[7])
      && (Starts(w, "11111110") <==> p[0] && p[1] && p[2] && p[3] && p[4] && p[5] && p[6] && !p[7])
  {
    var w := Chars(p);
    assert forall i | 0 <= i < WINDOW :: w[i] == if p[i] then '1' else '0';
  }

  /** What one more bit does: nothing until the window is full of bits; then the token at its front
      is drawn and its bits are used, or one bit is given up. */
  ghost predicate Advanced(before: Canvas, p: seq<bool>, after: Canvas, pending: seq<bool>)
    requires |before.colours| == 5 && |p| <= WINDOW
  {
    if |p| < WINDOW then pending == p && after == before
    else
      match ReadToken(p)
      case (Some(t), n) => pending == p[n..] && after == Step(before, t)
      case (None, n) => pending == p[n..] && after == before
  }

  /** In a window that is not full yet no token starts. */
  lemma NoPrefix(w: string)
    requires |w| == WINDOW && w[0] == '.'
    ensures !Starts(w, "0") && !Starts(w, "10") && !Starts(w, "1100") && !Starts(w, "1101") && !Starts(w, "1110")
    ensures !Starts(w, "11110") && !Starts(w, "111110") && !Starts(w, "11111100") && !Starts(w, "11111101")
    ensures !Starts(w, "11111110")
  {
  }

  /** Blanking a used token leaves the bits after it. */
  lemma BlankHolds(w: string, p: seq<bool>, n: nat)
    requires |p| == WINDOW && 1 <= n <= WINDOW && w == Blanks(n) + Chars(p)[n..]
    ensures Holds(w, p[n..])
  {
    assert w[1..] == Blanks(n - 1) + Chars(p[n..]);
  }

  lemma ReservedDraws(c: Canvas)
    requires |c.colours| == 5
    ensures Step(c, Reserved) == c
  {
  }

  class Decoder {
    const window: array<char>
    var x: int
    var y: int
    var lastY: int
    var colour0: nat
    var colour1: nat
    var colour2: nat
    var colour3: nat
    var colour4: nat
    var draws: seq<Draw>
    ghost var pending: seq<bool>

    constructor ()
      ensures fresh(window) && window.Length == WINDOW
      ensures Canvas() == VideoCanvas.Canvas(0, -1, -1, [0, 0, 0, 0, 0], [])
    {
      window := new char[WINDOW];
      x, y, lastY := 0, -1, -1;
      colour0, colour1, colour2, colour3, colour4 := 0, 0, 0, 0, 0;
      draws := [];
      pending := [];
    }

    ghost predicate Valid()
      reads this, window
    {
      Holds(window[..], pending)
    }

    function Colours(): (s: seq<nat>)
      reads this
      ensures |s| == 5
    {
      [colour0, colour1, colour2, colour3, colour4]
    }

    function Canvas(): (c: Canvas)
      reads this
      ensures |c.colours| == 5
    {
      VideoCanvas.Canvas(x, y, lastY, Colours(), draws)
    }

    // ----- drawing

    method SetPixel()
      modifies this`draws
      ensures draws == old(draws) + PixelAt(x, y, colour0)
    {
      if 0 <= y < MAX_Y && 0 <= x < MAX_X {
        draws := draws + [Pixel(x, y, colour0)];
      }
    }

    method SetRaster()
      modifies this`draws
      ensures draws == old(draws) + LineAt(y, colour0)
    {
      if 0 <= y < MAX_Y {
        draws := draws + [Line(y, colour0)];
      }
    }

    method NextPixel()
      modifies this`draws, this`x
      ensures Canvas() == Dot(old(Canvas()))
    {
      SetPixel();
      x := x + 1;
    }

    method ResetColours()
      modifies this`colour0, this`colour1, this`colour2, this`colour3, this`colour4
      ensures Colours() == PALETTE
    {
      colour0 := 0x000000;
      colour1 := 0xf0f0f0;
      colour2 := 0x303030;
      colour3 := 0x707070;
      colour4 := 0xb0b0b0;
    }

    // ----- tokens

    method ExplicitColour(c: nat)
      requires c < 0x1000
      modifies this
      ensures Canvas() == Step(old(Canvas()), Explicit(c)) && pending == old(pending)
    {
      colour4 := colour3;
      colour3 := colour2;
      colour2 := colour1;
      colour1 := colour0;
      colour0 := c % 0x10 * 0x10 + c / 0x10 % 0x10 * 0x1000 + c / 0x100 % 0x10 * 0x10_0000;
      NextPixel();
    }

    method StartRaster(line: nat)
      requires line < 0x400
      modifies this
      ensures Canvas() == Step(old(Canvas()), Raster(line)) && pending == old(pending)
    {
      SetRaster();
      y := line;
      if lastY == -1 {
        lastY := y;
        y := -1;
      } else {
        if y != 1 + lastY && y != lastY {
          lastY := y;
          y := -1;
        } else {
          lastY := y;
        }
      }
      x := 0;
      ResetColours();
    }

    method RunOf(count: nat)
      requires count < 0x100
      modifies this
      ensures Canvas() == Step(old(Canvas()), Run(count)) && pending == old(pending)
    {
      var r := count;
      if x != -1 {
        while r != 0 && x < MAX_X
          invariant 0 <= r <= count && pending == old(pending)
          invariant Dots(Canvas(), r) == Dots(old(Canvas()), count)
          decreases r
        {
          NextPixel();
          r := r - 1;
        }
      }
    }

    method StartFrame()
      modifies this
      ensures Canvas() == Step(old(Canvas()), NewFrame) && pending == old(pending)
    {
      if y != -1 {
        SetRaster();
      }
      y := -1;
      x := -1;
      ResetColours();
      draws := draws + [Update];
    }

    /** Moves a recent colour to the front. */
    method Promote(k: nat)
      requires 1 <= k <= 4
      modifies this`colour0, this`colour1, this`colour2, this`colour3, this`colour4
      ensures Colours() == [old(Colours())[k]] + old(Colours())[..k] + old(Colours())[k + 1..]
    {
      if k == 4 {
        colour0, colour1, colour2, colour3, colour4 := colour4, colour0, colour1, colour2, colour3;
      } else if k == 3 {
        colour0, colour1, colour2, colour3 := colour3, colour0, colour1, colour2;
      } else if k == 2 {
        colour0, colour1, colour2 := colour2, colour0, colour1;
      } else {
        colour0, colour1 := colour1, colour0;
      }
    }

    method RecentColour(k: nat)
      requires 1 <= k <= 4
      modifies this
      ensures Canvas() == Step(old(Canvas()), Recent(k)) && pending == old(pending)
    {
      Promote(k);
      if x != -1 {
        NextPixel();
      }
    }

    method SameColour()
      modifies this
      ensures Canvas() == Step(old(Canvas()), Repeat) && pending == old(pending)
    {
      if x != -1 {
        NextPixel();
      }
    }

    // ----- the window

    /** Reads a number from digits in the window. */
    method ReadNumber(from: nat, to: nat, ghost p: seq<bool>) returns (v: nat)
      requires window[..] == Chars(p) && from <= to <= |p|
      ensures v == Number(p[from..to])
    {
      v := 0;
      var i := from;
      while i < to
        invariant from <= i <= to && v == Number(p[from..i])
      {
        assert p[from..i + 1][..i - from] == p[from..i];
        assert window[..][i] == Chars(p)[i];
        v := 2 * v + if window[i] == '1' then 1 else 0;
        i := i + 1;
      }
    }

    /** Blanks the characters of a token that has been used. */
    method Blank(n: nat)
      requires |pending| == WINDOW && 1 <= n <= WINDOW && window[..] == Chars(pending)
      modifies window, this`pending
      ensures Valid() && pending == old(pending)[n..]
    {
      for i := 0 to n
        invariant pending == old(pending)
        invariant window[..] == Blanks(i) + old(window[i..])
      {
        window[i] := '.';
      }
      BlankHolds(window[..], pending, n);
      pending := pending[n..];
    }

    /** Moves the window along by one character. */
    method ShiftIn(c: char)
      requires window.Length == WINDOW
      modifies window
      ensures window[..] == old(window[1..]) + [c]
    {
      var i := 0;
      while i < WINDOW - 1
        invariant 0 <= i < WINDOW
        invariant forall j | 0 <= j < i :: window[j] == old(window[j + 1])
        invariant forall j | i <= j < WINDOW :: window[j] == old(window[j])
      {
        window[i] := window[i + 1];
        i := i + 1;
      }
      window[WINDOW - 1] := c;
    }

    method DecodeBit(bit: bool)
      requires Valid()
      modifies this, window
      ensures Valid() && Advanced(old(Canvas()), old(pending) + [bit], Canvas(), pending)
    {
      ShiftIn(if bit then '1' else '0');
      pending := pending + [bit];
      UseToken();
    }

    /** Uses the token at the front of the window, if there is one. */
    method UseToken()
      requires |pending| <= WINDOW && window[..] == Blanks(WINDOW - |pending|) + Chars(pending)
      modifies this, window
      ensures Valid() && Advanced(old(Canvas()), old(pending), Canvas(), pending)
    {
      hide Step, Number, Starts;
      ghost var p := pending;
      var w := window[..];
      if |p| < WINDOW {
        NoPrefix(w);
      } else {
        assert w == Chars(p);
        Prefixes(p);
        Widths();
      }
      if Starts(w, "11110") {
        var c := ReadNumber(5, 17, p);
        ExplicitColour(c);
        Blank(17);
      } else if Starts(w, "111110") {
        var line := ReadNumber(6, 16, p);
        StartRaster(line);
        Blank(16);
      } else if Starts(w, "11111110") {
        var r := ReadNumber(8, 16, p);
        RunOf(r);
        Blank(16);
      } else if Starts(w, "11111100") {
        StartFrame();
        Blank(8);
      } else if Starts(w, "11111101") {
        ReservedDraws(Canvas());
        Blank(8);
      } else {
        UseRecent(w);
      }
    }

    /** The tokens for recent colours. */
    method UseRecent(w: string)
      requires |pending| <= WINDOW && w == window[..] == Blanks(WINDOW - |pending|) + Chars(pending)
      requires !Starts(w, "11110") && !Starts(w, "111110")
      requires !Starts(w, "11111110") && !Starts(w, "11111100") && !Starts(w, "11111101")
      modifies this, window
      ensures Valid() && Advanced(old(Canvas()), old(pending), Canvas(), pending)
    {
      hide Step, Number, Starts;
      ghost var p := pending;
      if |p| < WINDOW {
        NoPrefix(w);
      } else {
        assert w == Chars(p);
        Prefixes(p);
      }
      if Starts(w, "1100") {
        RecentColour(2);
        Blank(4);
      } else if Starts(w, "1101") {
        RecentColour(3);
        Blank(4);
      } else if Starts(w, "1110") {
        RecentColour(4);
        Blank(4);
      } else if Starts(w, "10") {
        RecentColour(1);
        Blank(2);
      } else if Starts(w, "0") {
        SameColour();
        Blank(1);
      } else if |p| == WINDOW {
        pending := p[1..];
      }
    }

    /** Decodes the bits of a byte, high bit first. */
    method DecodeByte(b: byte, ghost after: seq<bool>)
      requires Valid()
      modifies this, window
      ensures Valid()
      ensures Paint(Canvas(), Tokens(pending + after))
           == Paint(old(Canvas()), Tokens(old(pending) + Reverse(BitsOf(b, 8)) + after))
    {
      hide Advanced, Tokens, Paint, BitsOf, Bit;
      ghost var p, before := pending, Canvas();
      assert Reverse(BitsOf(b, 8)) + after == Ahead(b, 8, after);
      assert p + Reverse(BitsOf(b, 8)) + after == p + Ahead(b, 8, after);
      for bn := 8 downto 0
        invariant Valid()
        invariant Paint(Canvas(), Tokens(pending + Ahead(b, bn, after)))
                    == Paint(before, Tokens(p + Ahead(b, 8, after)))
      {
        ghost var c, q := Canvas(), pending + [Bit(b, bn)];
        NextAhead(b, bn, after);
        assert q + Ahead(b, bn, after) == pending + Ahead(b, bn + 1, after);
        DecodeBit(Bit(b, bn));
        AdvancedPaints(c, q, Canvas(), pending, Ahead(b, bn, after));
      }
      NoneAhead(b, after);
    }

    /** Decodes a packet, if it is long enough to be a video frame. The tokens are those a cursor finds in its
        bits; the window starts empty and outside any frame, the position and the colours carry over. */
    method DecodePacket(packet: seq<byte>)
      requires window.Length == WINDOW
      modifies this, window
      ensures |packet| <= 2100 ==> Canvas() == old(Canvas())
      ensures |packet| > 2100 ==>
                Canvas() == Paint(old(Canvas()).(y := -1, lastY := -1), Tokens(HighBitFirst(packet[0x56..])))
    {
      if |packet| > 2100 {
        forall i | 0 <= i < WINDOW {
          window[i] := '.';
        }
        pending := [];
        lastY := -1;
        y := -1;
        DecodeBytes(packet, 0x56);
      }
    }

    method DecodeBytes(packet: seq<byte>, start: nat)
      requires Valid() && pending == [] && start <= |packet|
      modifies this, window
      ensures Canvas() == Paint(old(Canvas()), Tokens(HighBitFirst(packet[start..])))
    {
      hide Paint, Tokens, HighBitFirst, Reverse, BitsOf;
      var offset := start;
      assert [] + HighBitFirst(packet[start..]) == HighBitFirst(packet[start..]);
      while offset < |packet|
        invariant start <= offset <= |packet| && Valid()
        invariant Paint(Canvas(), Tokens(pending + HighBitFirst(packet[offset..])))
               == Paint(old(Canvas()), Tokens(HighBitFirst(packet[start..])))
      {
        ghost var rest := HighBitFirst(packet[offset + 1..]);
        NextByte(packet, offset);
        ghost var bits := Reverse(BitsOf(packet[offset], 8));
        assert pending + (bits + rest) == pending + bits + rest;
        DecodeByte(packet[offset], rest);
        offset := offset + 1;
      }
      NoBytes(packet[offset..]);
      assert pending + [] == pending;
      NothingPainted(Canvas(), pending);
    }
  }

  /** Less than a window of bits paints nothing. */
  lemma NothingPainted(c: Canvas, bits: seq<bool>)
    requires |c.colours| == 5 && |bits| < WINDOW
    ensures Paint(c, Tokens(bits)) == c
  {
  }

  lemma NextByte(packet: seq<byte>, offset: nat)
    requires offset < |packet|
    ensures HighBitFirst(packet[offset..]) == Reverse(BitsOf(packet[offset], 8)) + HighBitFirst(packet[offset + 1..])
  {
    assert packet[offset..][1..] == packet[offset + 1..];
  }

  lemma NoBytes(bytes: seq<byte>)
    ensures bytes == [] ==> HighBitFirst(bytes) == []
  {
  }

  /** The bits still to come: the low `n` of this byte, high bit first, and those after it. */
  function Ahead(b: byte, n: nat, after: seq<bool>): seq<bool> {
    Reverse(BitsOf(b, n)) + after
  }

  lemma NextAhead(b: byte, n: nat, after: seq<bool>)
    ensures Ahead(b, n + 1, after) == [Bit(b, n)] + Ahead(b, n, after)
  {
    BitsOfSnoc(b, n);
    assert Reverse(BitsOf(b, n + 1)) == [Bit(b, n)] + Reverse(BitsOf(b, n));
  }

  lemma NoneAhead(b: byte, after: seq<bool>)
    ensures Ahead(b, 0, after) == after
  {
    assert Reverse(BitsOf(b, 0)) == [];
  }

  /** One step of the window is one step of the cursor. */
  lemma AdvancedPaints(before: Canvas, p: seq<bool>, after: Canvas, pending: seq<bool>, ahead: seq<bool>)
    requires |before.colours| == 5 && |after.colours| == 5 && |p| <= WINDOW && Advanced(before, p, after, pending)
    ensures Paint(before, Tokens(p + ahead)) == Paint(after, Tokens(pending + ahead))
  {
    hide ReadToken, Step, Paint;
    if |p| == WINDOW {
      ReadWindow(p, ahead);
      var (t, n) := ReadToken(p);
      assert (p + ahead)[n..] == pending + ahead;
      match t
      case Some(token) => PaintNext(before, token, Tokens(pending + ahead));
      case None => assert [] + Tokens(pending + ahead) == Tokens(pending + ahead);
    }
  }

  lemma PaintNext(c: Canvas, t: Token, ts: seq<Token>)
    requires |c.colours| == 5 && ValidToken(t) && AllValid(ts)
    ensures Paint(c, [t] + ts) == Paint(Step(c, t), ts)
  {
    assert ([t] + ts)[1..] == ts;
  }
}
