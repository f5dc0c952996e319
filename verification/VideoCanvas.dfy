/** What the tokens of the video stream draw, and the list of recent colours they share with the sender. */
module VideoCanvas {
  import opened Bits
  import opened Multiples
  import opened VideoTokens

  const MAX_X := 800
  const MAX_Y := 600

  /** What reaches the frame buffer. */
  datatype Draw =
    | Pixel(x: int, y: int, colour: nat)
    | Line(y: int, colour: nat)
    | Update

  /** The decoder's position, the last raster line it was given, its recent colours, and all it has drawn. */
  datatype Canvas = Canvas(x: int, y: int, lastY: int, colours: seq<nat>, draws: seq<Draw>)

  /** The recent colours at the start of each line. */
  const PALETTE: seq<nat> := [0x000000, 0xf0f0f0, 0x303030, 0x707070, 0xb0b0b0]

  /** Twelve bits of colour spread over three bytes, each nibble in the high half of its byte. */
  function Spread(rgb: nat): nat {
    rgb % 0x10 * 0x10 + rgb / 0x10 % 0x10 * 0x1000 + rgb / 0x100 % 0x10 * 0x10_0000
  }

  /** Red, green and blue, highest first. */
  lemma SpreadPlaces(red: nat, green: nat, blue: nat)
    requires red < 0x10 && green < 0x10 && blue < 0x10
    ensures Spread(0x100 * red + 0x10 * green + blue) == 0x10_0000 * red + 0x1000 * green + 0x10 * blue
  {
    var v := 0x100 * red + 0x10 * green + blue;
    ModUnique(v, 0x10, 0x10 * red + green, blue);
    ModUnique(0x10 * red + green, 0x10, red, green);
    ModUnique(v, 0x100, red, 0x10 * green + blue);
    ModUnique(red, 0x10, 0, red);
  }

  /** Three nibbles apart from each other do not mix. */
  lemma NibblesApart(low: nat, mid: nat, high: nat, low1: nat, mid1: nat, high1: nat)
    requires low < 0x10 && mid < 0x10 && high < 0x10 && low1 < 0x10 && mid1 < 0x10 && high1 < 0x10
    requires low * 0x10 + mid * 0x1000 + high * 0x10_0000 == low1 * 0x10 + mid1 * 0x1000 + high1 * 0x10_0000
    ensures low == low1 && mid == mid1 && high == high1
  {
  }

  lemma SpreadInjective(a: nat, b: nat)
    requires a < 0x1000 && b < 0x1000 && Spread(a) == Spread(b)
    ensures a == b
  {
    NibblesApart(a % 0x10, a / 0x10 % 0x10, a / 0x100 % 0x10, b % 0x10, b / 0x10 % 0x10, b / 0x100 % 0x10);
    Nibbles(a);
    Nibbles(b);
  }

  lemma Nibbles(a: nat)
    requires a < 0x1000
    ensures a == a % 0x10 + 0x10 * (a / 0x10 % 0x10) + 0x100 * (a / 0x100 % 0x10)
  {
    assert a / 0x100 == a / 0x10 / 0x10;
  }

  function PixelAt(x: int, y: int, colour: nat): seq<Draw> {
    if 0 <= x < MAX_X && 0 <= y < MAX_Y then [Pixel(x, y, colour)] else []
  }

  function LineAt(y: int, colour: nat): seq<Draw> {
    if 0 <= y < MAX_Y then [Line(y, colour)] else []
  }

  /** Draws one pixel in the front colour and steps right. */
  function Dot(c: Canvas): Canvas
    requires |c.colours| == 5
  {
    c.(x := c.x + 1, draws := c.draws + PixelAt(c.x, c.y, c.colours[0]))
  }

  /** Nothing is drawn between the start of a frame and its first line. */
  function DotInLine(c: Canvas): Canvas
    requires |c.colours| == 5
  {
    if c.x != -1 then Dot(c) else c
  }

  function Dots(c: Canvas, n: nat): (r: Canvas)
    requires |c.colours| == 5
    ensures r.colours == c.colours
    decreases n
  {
    if n == 0 || c.x >= MAX_X then c else Dots(Dot(c), n - 1)
  }

  /** The line pixels go to from now on: none until two lines in a row were the same or successive. */
  function NextLine(lastY: int, line: int): int {
    if lastY != -1 && (line == lastY + 1 || line == lastY) then line else -1
  }

  function Step(c: Canvas, t: Token): (r: Canvas)
    requires |c.colours| == 5 && ValidToken(t)
    ensures |r.colours| == 5
  {
    match t
    case Repeat => DotInLine(c)
    case Recent(k) => DotInLine(c.(colours := [c.colours[k]] + c.colours[..k] + c.colours[k + 1..]))
    case Explicit(rgb) => Dot(c.(colours := [Spread(rgb)] + c.colours[..4]))
    case Raster(line) =>
      Canvas(0, NextLine(c.lastY, line), line, PALETTE, c.draws + LineAt(c.y, c.colours[0]))
    case Run(count) => if c.x != -1 then Dots(c, count) else c
    case NewFrame => Canvas(-1, -1, c.lastY, PALETTE, c.draws + LineAt(c.y, c.colours[0]) + [Update])
    case Reserved => c
  }

  function Paint(c: Canvas, ts: seq<Token>): (r: Canvas)
    requires |c.colours| == 5 && AllValid(ts)
    ensures |r.colours| == 5
    decreases |ts|
  {
    if ts == [] then c else Paint(Step(c, ts[0]), ts[1..])
  }

  lemma {:induction false} PaintConcat(c: Canvas, a: seq<Token>, b: seq<Token>)
    requires |c.colours| == 5 && AllValid(a) && AllValid(b)
    ensures AllValid(a + b) && Paint(c, a + b) == Paint(Paint(c, a), b)
    decreases |a|
  {
    if a == [] {
      assert a + b == b;
    } else {
      assert (a + b)[1..] == a[1..] + b;
      PaintConcat(Step(c, a[0]), a[1..], b);
    }
  }

  // ----- what tokens draw

  /** A run draws pixels of the front colour one next to the other, as many as asked for up to the right edge;
      off the screen it only moves on, and before the first line of a frame it does nothing. */
  lemma RunDraws(c: Canvas, count: nat)
    requires |c.colours| == 5 && count < 0x100 && c.x >= -1
    ensures var r := Step(c, Run(count));
      var n: nat := if c.x == -1 || c.x >= 800 then 0 else if count < 800 - c.x then count else 800 - c.x;
      && r == c.(x := c.x + n, draws := r.draws)
      && r.draws == c.draws + if 0 <= c.y < 600 then seq(n, i => Pixel(c.x + i, c.y, c.colours[0])) else []
  {
    if c.x != -1 {
      DotsDraw(c, count);
    }
  }

  lemma {:induction false} DotsDraw(c: Canvas, count: nat)
    requires |c.colours| == 5 && c.x >= 0
    ensures var r := Dots(c, count);
      var n: nat := if c.x >= 800 then 0 else if count < 800 - c.x then count else 800 - c.x;
      && r == c.(x := c.x + n, draws := r.draws)
      && r.draws == c.draws + if 0 <= c.y < 600 then seq(n, i => Pixel(c.x + i, c.y, c.colours[0])) else []
    decreases count
  {
    if count > 0 && c.x < 800 {
      DotsDraw(Dot(c), count - 1);
    }
  }

  /** A raster token fills the line before, resets the colours, and starts its own line at the left; pixels go there
      only if the line repeats or follows the last one. */
  lemma RasterDraws(c: Canvas, line: nat)
    requires |c.colours| == 5 && line < 0x400 && c.lastY >= -1
    ensures var r := Step(c, Raster(line));
      && r.x == 0 && r.lastY == line
      && r.y == (if c.lastY >= 0 && (line == c.lastY || line == c.lastY + 1) then line else -1)
      && r.colours == [0x000000, 0xf0f0f0, 0x303030, 0x707070, 0xb0b0b0]
      && r.draws == c.draws + if 0 <= c.y < 600 then [Line(c.y, c.colours[0])] else []
  {
  }

  /** A new frame fills the line before, shows the picture, and leaves no line to draw on. */
  lemma NewFrameDraws(c: Canvas)
    requires |c.colours| == 5
    ensures var r := Step(c, NewFrame);
      && r.x == -1 && r.y == -1 && r.lastY == c.lastY
      && r.colours == [0x000000, 0xf0f0f0, 0x303030, 0x707070, 0xb0b0b0]
      && r.draws == c.draws + (if 0 <= c.y < 600 then [Line(c.y, c.colours[0])] else []) + [Update]
  {
  }

  /** After a new frame nothing is drawn, whatever comes, up to the next raster token or explicit colour. */
  lemma {:induction false} NothingDrawn(c: Canvas, ts: seq<Token>)
    requires |c.colours| == 5 && c.x == -1 && AllValid(ts)
    requires forall i | 0 <= i < |ts| :: !ts[i].Raster? && !ts[i].Explicit? && !ts[i].NewFrame?
    ensures Paint(c, ts).draws == c.draws && Paint(c, ts).x == -1
    decreases |ts|
  {
    if ts != [] {
      NothingDrawn(Step(c, ts[0]), ts[1..]);
    }
  }

  /** A single pixel: the front colour again, a recent colour, or a new one; the colours used before it keep
      their order. */
  lemma PixelDraws(c: Canvas, k: nat, rgb: nat)
    requires |c.colours| == 5 && 0 <= c.x < 800 && 0 <= c.y < 600 && 1 <= k <= 4 && rgb < 0x1000
    ensures Step(c, Repeat) == c.(x := c.x + 1, draws := c.draws + [Pixel(c.x, c.y, c.colours[0])])
    ensures var r := Step(c, Recent(k));
      && r.colours[0] == c.colours[k]
      && r.colours[1..k + 1] == c.colours[..k] && r.colours[k + 1..] == c.colours[k + 1..]
      && r == c.(x := c.x + 1, colours := r.colours, draws := c.draws + [Pixel(c.x, c.y, c.colours[k])])
    ensures var r := Step(c, Explicit(rgb));
      && r.colours == [Spread(rgb)] + c.colours[..4]
      && r == c.(x := c.x + 1, colours := r.colours, draws := c.draws + [Pixel(c.x, c.y, Spread(rgb))])
  {
  }

  // ----- the most recently used colours

  /** The place of a colour in a list, or the list's length. */
  function Find(s: seq<nat>, c: nat): (k: nat)
    ensures k <= |s| && (k < |s| ==> s[k] == c) && c !in s[..k]
  {
    if s == [] || s[0] == c then 0
    else
      var k := Find(s[1..], c);
      assert s[..1 + k] == [s[0]] + s[1..][..k];
      1 + k
  }

  /** A list with one colour moved, or put, in front. */
  function ToFront(s: seq<nat>, c: nat): (r: seq<nat>)
    ensures |r| >= 1 && |r| >= |s|
  {
    var k := Find(s, c);
    [c] + if k < |s| then s[..k] + s[k + 1..] else s
  }

  /** All colours ever used, most recently used first. */
  function Mru(uses: seq<nat>): seq<nat> {
    if uses == [] then [] else ToFront(Mru(uses[..|uses| - 1]), uses[|uses| - 1])
  }

  /** When a colour was last used, or -1. */
  function LastUse(uses: seq<nat>, c: nat): int {
    if uses == [] then -1
    else if uses[|uses| - 1] == c then |uses| - 1
    else LastUse(uses[..|uses| - 1], c)
  }

  predicate Ordered(uses: seq<nat>, s: seq<nat>) {
    && (forall i, j | 0 <= i < j < |s| :: s[i] != s[j])
    && (forall i, j | 0 <= i < j < |s| :: LastUse(uses, s[i]) > LastUse(uses, s[j]))
  }

  /** The list holds exactly the colours used, each once, the more recently used before the less. */
  lemma {:induction false} MruOrders(uses: seq<nat>)
    ensures Ordered(uses, Mru(uses))
    ensures forall c :: c in Mru(uses) <==> c in uses
  {
    hide Ordered, ToFront;
    if uses == [] {
      NothingOrdered();
    } else {
      var n := |uses| - 1;
      MruOrders(uses[..n]);
      assert uses == uses[..n] + [uses[n]];
      ToFrontOrdered(uses[..n], Mru(uses[..n]), uses[n]);
    }
  }

  lemma NothingOrdered()
    ensures Ordered([], [])
  {
  }

  /** Every other colour keeps its order. */
  lemma ToFrontAt(s: seq<nat>, c: nat)
    ensures ToFront(s, c)[0] == c
    ensures forall j | 0 < j < |ToFront(s, c)| ::
              && 0 <= OldPlace(s, c, j) < |s| && ToFront(s, c)[j] == s[OldPlace(s, c, j)]
              && OldPlace(s, c, j) != Find(s, c)
    ensures forall d :: d in ToFront(s, c) <==> d in s + [c]
  {
    hide Find, ToFront;
    ToFrontHas(s, c);
    ToFrontIs(s, c);
    var k := Find(s, c);
    var rest := if k < |s| then s[..k] + s[k + 1..] else s;
    forall j | 0 < j < |ToFront(s, c)|
      ensures 0 <= OldPlace(s, c, j) < |s| && ToFront(s, c)[j] == s[OldPlace(s, c, j)]
      ensures OldPlace(s, c, j) != Find(s, c)
    {
      assert ToFront(s, c)[j] == rest[j - 1];
    }
  }

  lemma ToFrontIs(s: seq<nat>, c: nat)
    ensures ToFront(s, c) == [c] + if Find(s, c) < |s| then s[..Find(s, c)] + s[Find(s, c) + 1..] else s
  {
    hide Find;
  }

  lemma ToFrontHas(s: seq<nat>, c: nat)
    ensures forall d :: d in ToFront(s, c) <==> d in s + [c]
  {
    hide Find;
    var k := Find(s, c);
    if k < |s| {
      assert s == s[..k] + ([c] + s[k + 1..]);
      assert ToFront(s, c) == [c] + s[..k] + s[k + 1..];
    }
  }

  /** Where the colour now at place `j` was before another moved to the front. */
  function OldPlace(s: seq<nat>, c: nat, j: int): int {
    if j - 1 < Find(s, c) then j - 1 else j
  }

  lemma ToFrontOrdered(uses: seq<nat>, s: seq<nat>, c: nat)
    requires Ordered(uses, s)
    ensures Ordered(uses + [c], ToFront(s, c))
    ensures forall d :: d in ToFront(s, c) <==> d in s + [c]
  {
    hide ToFront, Find;
    var k, r := Find(s, c), ToFront(s, c);
    ToFrontAt(s, c);
    forall i, j | 0 <= i < j < |r|
      ensures r[i] != r[j] && LastUse(uses + [c], r[i]) > LastUse(uses + [c], r[j])
    {
      LastUseBefore(uses, r[j]);
      assert (uses + [c])[..|uses|] == uses;
      NotFound(s, c, OldPlace(s, c, j));
    }
  }

  /** A colour stands in a list without repetitions only where it is found. */
  lemma NotFound(s: seq<nat>, c: nat, j: nat)
    requires j < |s| && j != Find(s, c) && forall i, j | 0 <= i < j < |s| :: s[i] != s[j]
    ensures s[j] != c
  {
    var k := Find(s, c);
    if j < k {
      assert s[..k][j] == s[j];
    }
  }

  lemma {:induction false} LastUseBefore(uses: seq<nat>, c: nat)
    ensures LastUse(uses, c) < |uses|
  {
    if uses != [] {
      LastUseBefore(uses[..|uses| - 1], c);
    }
  }

  /** The decoder's colours are the five most recently used. */
  predicate Caches(colours: seq<nat>, uses: seq<nat>) {
    |Mru(uses)| >= 5 && colours == Mru(uses)[..5]
  }

  /** The recent colours are distinct, and no other colour was used later than any of them. */
  lemma CacheIsRecent(colours: seq<nat>, uses: seq<nat>)
    requires Caches(colours, uses)
    ensures forall i, j | 0 <= i < j < 5 ::
              colours[i] != colours[j] && LastUse(uses, colours[i]) > LastUse(uses, colours[j])
    ensures forall c, i | c in uses && c !in colours && 0 <= i < 5 :: LastUse(uses, c) < LastUse(uses, colours[i])
  {
    MruOrders(uses);
    var all := Mru(uses);
    assert forall i | 0 <= i < 5 :: colours[i] == all[i];
    forall c, i | c in uses && c !in colours && 0 <= i < 5
      ensures LastUse(uses, c) < LastUse(uses, colours[i])
    {
      var j :| 0 <= j < |all| && all[j] == c;
    }
  }

  /** A line starts as if the palette had just been used, from its last colour to its first. */
  const PALETTE_USES: seq<nat> := [0xb0b0b0, 0x707070, 0x303030, 0xf0f0f0, 0x000000]

  lemma PaletteCaches()
    ensures Caches(PALETTE, PALETTE_USES)
  {
    hide Mru, Reverse;
    MruOfDistinct(PALETTE_USES);
    assert Reverse(PALETTE_USES) == PALETTE && PALETTE[..5] == PALETTE;
  }

  lemma {:induction false} MruOfDistinct(uses: seq<nat>)
    requires forall i, j | 0 <= i < j < |uses| :: uses[i] != uses[j]
    ensures Mru(uses) == Reverse(uses)
  {
    hide ToFront;
    if uses != [] {
      var n := |uses| - 1;
      ReverseLast(uses);
      MruOfDistinct(uses[..n]);
      NewToFront(Reverse(uses[..n]), uses[n]);
    }
  }

  lemma {:induction false} ReverseLast(s: seq<nat>)
    ensures s != [] ==> Reverse(s) == [s[|s| - 1]] + Reverse(s[..|s| - 1])
  {
    if |s| > 1 {
      ReverseLast(s[1..]);
      assert s[1..][..|s| - 2] == s[..|s| - 1][1..];
    }
  }

  lemma NewToFront(s: seq<nat>, c: nat)
    requires forall i | 0 <= i < |s| :: s[i] != c
    ensures ToFront(s, c) == [c] + s
  {
  }

  // ----- a sender

  /** The token for a pixel: its place among the recent colours, or the colour itself. */
  function Choose(colours: seq<nat>, rgb: nat): (t: Token)
    requires |colours| == 5
    ensures rgb < 0x1000 ==> ValidToken(t)
  {
    var k := Find(colours, Spread(rgb));
    if k == 0 then Repeat else if k < 5 then Recent(k) else Explicit(rgb)
  }

  /** The recent colours after one more use. */
  function Used(colours: seq<nat>, c: nat): (r: seq<nat>)
    requires |colours| == 5
    ensures |r| == 5
  {
    ToFront(colours, c)[..5]
  }

  predicate Row(row: seq<nat>) {
    forall i | 0 <= i < |row| :: row[i] < 0x1000
  }

  /** How many more times, up to 255, the first pixel of a row is repeated. */
  function Repeats(row: seq<nat>): (n: nat)
    requires row != []
    ensures n < |row| && n < 0x100 && forall i | 0 <= i <= n :: row[i] == row[0]
    decreases |row|
  {
    if |row| == 1 || row[1] != row[0] || Repeats(row[1..]) == 0xff then 0
    else
      var n := Repeats(row[1..]);
      assert forall i | 1 <= i <= n + 1 :: row[i] == row[1..][i - 1];
      n + 1
  }

  /** The pixels a sender has dealt with once it has sent the first, and a run where that is shorter than repeats. */
  function Sent(row: seq<nat>): (n: nat)
    requires row != []
    ensures 1 <= n <= |row| && n <= 0x100
  {
    if Repeats(row) > 16 then 1 + Repeats(row) else 1
  }

  function RowTokens(colours: seq<nat>, row: seq<nat>): (ts: seq<Token>)
    requires |colours| == 5
    ensures Row(row) ==> AllValid(ts)
    decreases |row|
  {
    if row == [] then []
    else Head(colours, row) + RowTokens(Used(colours, Spread(row[0])), row[Sent(row)..])
  }

  function Colours(row: seq<nat>): (r: seq<nat>)
    ensures |r| == |row|
  {
    seq(|row|, i requires 0 <= i < |row| => Spread(row[i]))
  }

  function RowDraws(x: int, y: int, colours: seq<nat>): (r: seq<Draw>)
    ensures |r| == |colours|
  {
    seq(|colours|, i requires 0 <= i < |colours| => Pixel(x + i, y, colours[i]))
  }

  lemma ChosenStep(c: Canvas, rgb: nat)
    requires |c.colours| == 5 && 0 <= c.x < MAX_X && 0 <= c.y < MAX_Y && rgb < 0x1000
    ensures Step(c, Choose(c.colours, rgb))
         == Canvas(c.x + 1, c.y, c.lastY, Used(c.colours, Spread(rgb)), c.draws + [Pixel(c.x, c.y, Spread(rgb))])
  {
    var colours, k := c.colours, Find(c.colours, Spread(rgb));
    if k < 5 {
      assert [colours[k]] + colours[..k] + colours[k + 1..] == Used(colours, colours[k]);
      assert k == 0 ==> Used(colours, colours[0]) == colours;
    }
  }

  /** One more use keeps the colours the five most recently used. */
  lemma UsedCaches(colours: seq<nat>, uses: seq<nat>, c: nat)
    requires |colours| == 5 && Caches(colours, uses)
    ensures Caches(Used(colours, c), uses + [c])
  {
    assert (uses + [c])[..|uses|] == uses;
    FindPrefix(Mru(uses), 5, c);
    PrefixToFront(Mru(uses), c);
  }

  lemma PrefixToFront(s: seq<nat>, c: nat)
    requires |s| >= 5 && Find(s[..5], c) == if Find(s, c) < 5 then Find(s, c) else 5
    ensures ToFront(s, c)[..5] == ToFront(s[..5], c)[..5]
  {
    hide Find, ToFront;
    var k, front := Find(s, c), s[..5];
    ToFrontIs(s, c);
    ToFrontIs(front, c);
    if k < 5 {
      assert ToFront(s, c)[..5] == [c] + s[..k] + s[k + 1..5];
      assert ToFront(front, c)[..5] == [c] + s[..k] + s[k + 1..5];
    } else {
      assert ToFront(s, c)[..5] == [c] + s[..4];
      assert ToFront(front, c)[..5] == [c] + s[..4];
    }
  }

  /** Looking at the front of a list only. */
  lemma {:induction false} FindPrefix(s: seq<nat>, n: nat, c: nat)
    requires n <= |s|
    ensures Find(s[..n], c) == if Find(s, c) < n then Find(s, c) else n
  {
    if n > 0 && s[0] != c {
      assert s[..n][1..] == s[1..][..n - 1];
      FindPrefix(s[1..], n - 1, c);
    }
  }

  /** Using the front colour again changes nothing. */
  lemma {:induction false} SameUses(colours: seq<nat>, uses: seq<nat>, n: nat)
    requires |colours| == 5 && Caches(colours, uses)
    ensures Caches(colours, uses + seq(n, _ => colours[0]))
    decreases n
  {
    hide Caches;
    if n == 0 {
      assert uses + seq(0, _ => colours[0]) == uses;
    } else {
      var before := uses + seq(n - 1, _ => colours[0]);
      SameUses(colours, uses, n - 1);
      UsedCaches(colours, before, colours[0]);
      assert Used(colours, colours[0]) == colours;
      assert before + [colours[0]] == uses + seq(n, _ => colours[0]);
    }
  }

  /** The first pixels of a row: one by its colour, and the repeats by a run if there are enough of them. */
  function Head(colours: seq<nat>, row: seq<nat>): (ts: seq<Token>)
    requires |colours| == 5 && row != []
    ensures Row(row) ==> AllValid(ts)
  {
    [Choose(colours, row[0])] + if Sent(row) > 1 then [Run(Sent(row) - 1)] else []
  }

  lemma UsedFront(colours: seq<nat>, c: nat)
    requires |colours| == 5
    ensures Used(colours, c)[0] == c
  {
  }

  /** What the head of a row draws: that many pixels of it. */
  lemma HeadDrawn(c: Canvas, row: seq<nat>)
    requires |c.colours| == 5 && row != [] && Row(row) && 0 <= c.y < MAX_Y && 0 <= c.x && c.x + |row| <= MAX_X
    ensures var n := Sent(row);
      Paint(c, Head(c.colours, row))
      == Canvas(c.x + n, c.y, c.lastY, Used(c.colours, Spread(row[0])),
                c.draws + RowDraws(c.x, c.y, Colours(row[..n])))
  {
    hide Choose, Used, Sent, Spread, Step, RowDraws;
    var n, first := Sent(row), Spread(row[0]);
    var choice := Choose(c.colours, row[0]);
    var d := Step(c, choice);
    ChosenStep(c, row[0]);
    UsedFront(c.colours, first);
    HeadRow(c.x, c.y, row);
    var ts := Head(c.colours, row);
    PaintOne(c, choice);
    if n > 1 {
      RunOn(d, n - 1);
      PaintConcat(c, [choice], [Run(n - 1)]);
    } else {
      assert ts == [choice];
    }
  }

  lemma RunOn(c: Canvas, n: nat)
    requires |c.colours| == 5 && n < 0x100 && 0 <= c.y < MAX_Y && 0 <= c.x && c.x + n <= MAX_X
    ensures Paint(c, [Run(n)]) == c.(x := c.x + n, draws := c.draws + seq(n, i => Pixel(c.x + i, c.y, c.colours[0])))
  {
    hide Step;
    RunDraws(c, n);
    PaintOne(c, Run(n));
  }

  lemma HeadRow(x: int, y: int, row: seq<nat>)
    requires row != []
    ensures RowDraws(x, y, Colours(row[..Sent(row)]))
         == [Pixel(x, y, Spread(row[0]))] + seq(Sent(row) - 1, i => Pixel(x + 1 + i, y, Spread(row[0])))
  {
    hide Repeats, Spread;
  }

  lemma PaintOne(c: Canvas, t: Token)
    requires |c.colours| == 5 && ValidToken(t)
    ensures Paint(c, [t]) == Step(c, t)
  {
    assert [t][1..] == [];
  }

  lemma HeadCaches(colours: seq<nat>, uses: seq<nat>, row: seq<nat>)
    requires |colours| == 5 && row != [] && Caches(colours, uses)
    ensures Caches(Used(colours, Spread(row[0])), uses + Colours(row[..Sent(row)]))
  {
    hide Used, Caches, Repeats, Spread;
    var n, first := Sent(row), Spread(row[0]);
    UsedCaches(colours, uses, first);
    UsedFront(colours, first);
    SameUses(Used(colours, first), uses + [first], n - 1);
    assert uses + Colours(row[..n]) == uses + [first] + seq(n - 1, _ => first);
  }

  /** The tokens a sender chooses for a row draw that row, and keep the recent colours. */
  lemma {:induction false} RowDrawn(c: Canvas, uses: seq<nat>, row: seq<nat>)
    requires |c.colours| == 5 && Row(row) && 0 <= c.y < MAX_Y && 0 <= c.x && c.x + |row| <= MAX_X
    requires Caches(c.colours, uses)
    ensures var r := Paint(c, RowTokens(c.colours, row));
      && r == Canvas(c.x + |row|, c.y, c.lastY, r.colours, c.draws + RowDraws(c.x, c.y, Colours(row)))
      && Caches(r.colours, uses + Colours(row))
    decreases |row|
  {
    hide Step, Choose, Used, Caches, Head, Sent, Spread;
    if row == [] {
      assert uses + Colours(row) == uses && c.draws + RowDraws(c.x, c.y, Colours(row)) == c.draws;
    } else {
      var n := Sent(row);
      var head := Head(c.colours, row);
      var d := Paint(c, head);
      HeadDrawn(c, row);
      HeadCaches(c.colours, uses, row);
      RowDrawn(d, uses + Colours(row[..n]), row[n..]);
      PaintConcat(c, head, RowTokens(d.colours, row[n..]));
      RowSplit(c, row, n);
      assert uses + Colours(row) == uses + Colours(row[..n]) + Colours(row[n..]);
    }
  }

  lemma RowSplit(c: Canvas, row: seq<nat>, n: nat)
    requires n <= |row|
    ensures c.draws + RowDraws(c.x, c.y, Colours(row))
         == c.draws + RowDraws(c.x, c.y, Colours(row[..n])) + RowDraws(c.x + n, c.y, Colours(row[n..]))
  {
    hide Spread;
  }

  /** The colour used last, given the rows so far. */
  function LastColour(row: seq<nat>): nat {
    if row == [] then PALETTE[0] else Spread(row[|row| - 1])
  }

  predicate Rows(rows: seq<seq<nat>>) {
    forall i | 0 <= i < |rows| :: Row(rows[i]) && |rows[i]| <= MAX_X
  }

  /** Rows on successive lines, each after its raster token. */
  function LineTokens(line: nat, rows: seq<seq<nat>>): (ts: seq<Token>)
    requires line + |rows| <= MAX_Y && Rows(rows)
    ensures AllValid(ts)
    decreases |rows|
  {
    if rows == [] then [] else [Raster(line)] + RowTokens(PALETTE, rows[0]) + LineTokens(line + 1, rows[1..])
  }

  /** What rows on successive lines draw: the start of each line fills the line before in its last colour. */
  function LineDraws(y: int, front: nat, line: nat, rows: seq<seq<nat>>): seq<Draw>
    decreases |rows|
  {
    if rows == [] then []
    else
      LineAt(y, front) + RowDraws(0, line, Colours(rows[0])) + LineDraws(line, LastColour(rows[0]), line + 1, rows[1..])
  }

  /** Pixel `i` of row `r`, in its place. */
  predicate ShownAt(line: nat, rows: seq<seq<nat>>, r: int, i: int, p: Draw) {
    0 <= r < |rows| && 0 <= i < |rows[r]| && p == Pixel(i, line + r, Spread(rows[r][i]))
  }

  predicate InRow(line: nat, row: seq<nat>, i: int, p: Draw) {
    0 <= i < |row| && p == Pixel(i, line, Spread(row[i]))
  }

  /** Each pixel of each row is drawn at its place and in its colour, and no others are. */
  lemma {:induction false} PixelsShown(y: int, front: nat, line: nat, rows: seq<seq<nat>>, p: Draw)
    requires p.Pixel?
    ensures p in LineDraws(y, front, line, rows) <==> exists r, i :: ShownAt(line, rows, r, i, p)
    decreases |rows|
  {
    hide Spread, RowDraws, ShownAt, InRow;
    if rows != [] {
      PixelsShown(line, LastColour(rows[0]), line + 1, rows[1..], p);
      PixelInRow(line, rows[0], p);
      ShownSplit(line, line + 1, rows, p);
    } else {
      NoneShown(line, p);
    }
  }

  lemma NoneShown(line: nat, p: Draw)
    ensures !exists r, i :: ShownAt(line, [], r, i, p)
  {
  }

  /** A pixel is shown in the first row or in those behind it. */
  lemma ShownSplit(line: nat, next: nat, rows: seq<seq<nat>>, p: Draw)
    requires rows != [] && next == line + 1
    ensures (exists r, i :: ShownAt(line, rows, r, i, p))
       <==> (exists i :: InRow(line, rows[0], i, p)) || (exists r, i :: ShownAt(next, rows[1..], r, i, p))
  {
    hide Spread;
    if i :| InRow(line, rows[0], i, p) {
      assert ShownAt(line, rows, 0, i, p);
    }
    if r, i :| ShownAt(next, rows[1..], r, i, p) {
      assert ShownAt(line, rows, r + 1, i, p);
    }
    if r, i :| ShownAt(line, rows, r, i, p) {
      assert if r == 0 then InRow(line, rows[0], i, p) else ShownAt(next, rows[1..], r - 1, i, p);
    }
  }

  lemma PixelInRow(line: nat, row: seq<nat>, p: Draw)
    requires p.Pixel?
    ensures p in RowDraws(0, line, Colours(row)) <==> exists i :: InRow(line, row, i, p)
  {
    hide Spread;
    var draws := RowDraws(0, line, Colours(row));
    if p in draws {
      var i :| 0 <= i < |draws| && draws[i] == p;
      assert InRow(line, row, i, p);
    }
    if i :| InRow(line, row, i, p) {
      assert draws[i] == p;
    }
  }

  /** A row after its raster token is drawn as that row, if its line follows the last one or repeats it. */
  lemma RowAfterRaster(c: Canvas, line: nat, row: seq<nat>)
    requires |c.colours| == 5 && line < MAX_Y && Row(row) && |row| <= MAX_X
    requires NextLine(c.lastY, line) == line
    ensures var r := Paint(c, [Raster(line)] + RowTokens(PALETTE, row));
      && r == Canvas(|row|, line, line, r.colours,
                     c.draws + LineAt(c.y, c.colours[0]) + RowDraws(0, line, Colours(row)))
      && Caches(r.colours, PALETTE_USES + Colours(row)) && r.colours[0] == LastColour(row)
  {
    hide RowTokens, RowDraws, Spread;
    var ts := [Raster(line)] + RowTokens(PALETTE, row);
    PaletteCaches();
    RowDrawn(Step(c, Raster(line)), PALETTE_USES, row);
    assert ts[1..] == RowTokens(PALETTE, row);
    FrontIsLast(Paint(c, ts).colours, row);
  }

  /** The front colour is the one used last. */
  lemma FrontIsLast(colours: seq<nat>, row: seq<nat>)
    requires |colours| == 5 && Caches(colours, PALETTE_USES + Colours(row))
    ensures colours[0] == LastColour(row)
  {
    var uses := PALETTE_USES + Colours(row);
    assert uses[|uses| - 1] == LastColour(row);
  }

  lemma {:induction false} LinesDrawn(c: Canvas, line: nat, rows: seq<seq<nat>>)
    requires |c.colours| == 5 && line + |rows| <= MAX_Y && Rows(rows) && NextLine(c.lastY, line) == line
    ensures Paint(c, LineTokens(line, rows)).draws == c.draws + LineDraws(c.y, c.colours[0], line, rows)
    decreases |rows|
  {
    hide Step, RowTokens, RowDraws, Caches;
    if rows != [] {
      var head, rest := [Raster(line)] + RowTokens(PALETTE, rows[0]), LineTokens(line + 1, rows[1..]);
      var d := Paint(c, head);
      RowAfterRaster(c, line, rows[0]);
      PaintConcat(c, head, rest);
      LinesDrawn(d, line + 1, rows[1..]);
    }
  }

  /** Rows sent on successive lines come back pixel for pixel, and so does whatever follows;
      a packet starts without a last line, so a first raster token only tells it where it is. */
  lemma LinesRoundTrip(c: Canvas, line: nat, rows: seq<seq<nat>>, tail: seq<bool>)
    requires |c.colours| == 5 && c.y == c.lastY == -1
    requires line + |rows| <= MAX_Y && Rows(rows) && |tail| >= WINDOW - 1
    ensures var ts := [Raster(line)] + LineTokens(line, rows);
      && Tokens(CodeAll(ts) + tail) == ts + Tokens(tail)
      && Paint(c, ts).draws == c.draws + LineDraws(-1, PALETTE[0], line, rows)
      && Paint(c, ts + Tokens(tail)) == Paint(Paint(c, ts), Tokens(tail))
  {
    var ts := [Raster(line)] + LineTokens(line, rows);
    TokensOfCode(ts, tail);
    PaintConcat(c, ts, Tokens(tail));
    assert ts[1..] == LineTokens(line, rows);
    var d := Step(c, Raster(line));
    assert d == Canvas(0, -1, line, PALETTE, c.draws);
    LinesDrawn(d, line, rows);
  }
}
