/** The logo converter: an image as 8x8 tiles of palette indices, behind a palette with its nibbles swapped. */
module LogoTiler {
  import opened Bytes
  import opened Multiples

  datatype Rgb = Rgb(r: byte, g: byte, b: byte)

  const PALETTE_SIZE := 2560
  const PALETTE_FIRST := 16
  const PIXELS := 0x300

  function NyblSwap(b: byte): byte {
    b % 0x10 * 0x10 + b / 0x10
  }

  lemma NibblesSwapped(high: nat, low: nat)
    requires high < 0x10 && low < 0x10
    ensures NyblSwap(0x10 * high + low) == 0x10 * low + high
  {
    ModUnique(0x10 * high + low, 0x10, high, low);
  }

  lemma SwapTwice(b: byte)
    ensures NyblSwap(NyblSwap(b)) == b
  {
    ModUnique(b % 0x10 * 0x10 + b / 0x10, 0x10, b % 0x10, b / 0x10);
  }

  // ----- where pixels go

  /** The bytes of a band of tiles. */
  function Band(w: nat): (n: nat)
    ensures w >= 8 ==> n >= 64
  {
    64 * (w / 8)
  }

  /** Pixels go by tile, and by row inside a tile. */
  function Address(w: nat, x: nat, y: nat): nat {
    PIXELS + x % 8 + y % 8 * 8 + x / 8 * 64 + y / 8 * 64 * (w / 8)
  }

  /** Right of a pixel is one byte on, and 64 in the next tile; below it is 8 on, and a band in the next one. */
  lemma Neighbours(w: nat, x: nat, y: nat)
    ensures Address(w, 0, 0) == 0x300
    ensures x % 8 != 7 ==> Address(w, x + 1, y) == Address(w, x, y) + 1
    ensures Address(w, x + 8, y) == Address(w, x, y) + 64
    ensures y % 8 != 7 ==> Address(w, x, y + 1) == Address(w, x, y) + 8
    ensures Address(w, x, y + 8) == Address(w, x, y) + 64 * (w / 8)
  {
    NextMod(x, 8);
    NextMod(y, 8);
    var tiles, bands := w / 8, y / 8;
    assert (y + 8) / 8 == bands + 1 && (x + 8) / 8 == x / 8 + 1;
    assert (bands + 1) * 64 * tiles == bands * 64 * tiles + 64 * tiles;
    assert x % 8 != 7 ==> (x + 1) / 8 == x / 8 && (x + 1) % 8 == x % 8 + 1;
    assert y % 8 != 7 ==> (y + 1) / 8 == y / 8 && (y + 1) % 8 == y % 8 + 1;
  }

  function Split(k: nat, n: nat): (nat, nat)
    requires n > 0
  {
    (k / n, k % n)
  }

  /** The pixel at an address. */
  function PixelAt(w: nat, a: nat): (nat, nat)
    requires w >= 8 && a >= PIXELS
  {
    var (band, inBand) := Split(a - PIXELS, Band(w));
    (inBand / 64 * 8 + inBand % 64 % 8, band * 8 + inBand % 64 / 8)
  }

  /** The place of a pixel, band by band and tile by tile. */
  lemma Places(w: nat, x: nat, y: nat)
    requires w % 8 == 0 && x < w
    ensures var inBand := x / 8 * 64 + y % 8 * 8 + x % 8;
      Address(w, x, y) - PIXELS == Band(w) * (y / 8) + inBand && inBand < Band(w)
  {
    var tiles := w / 8;
    assert y / 8 * 64 * tiles == Band(w) * (y / 8);
  }

  /** The address determines the pixel. */
  lemma PixelOfAddress(w: nat, x: nat, y: nat)
    requires w % 8 == 0 && x < w
    ensures PixelAt(w, Address(w, x, y)) == (x, y)
  {
    hide Address, Band;
    Places(w, x, y);
    var inTile := y % 8 * 8 + x % 8;
    ModUnique(Address(w, x, y) - PIXELS, Band(w), y / 8, x / 8 * 64 + inTile);
    ModUnique(x / 8 * 64 + inTile, 64, x / 8, inTile);
    ModUnique(inTile, 8, y % 8, x % 8);
  }

  lemma BandIs(w: nat)
    ensures Band(w) == 64 * (w / 8)
  {
  }

  lemma Area(w: nat, h: nat)
    requires w % 8 == 0 && h % 8 == 0
    ensures w * h == Band(w) * (h / 8)
  {
    var m, n := w / 8, h / 8;
    assert w == 8 * m && h == 8 * n;
    assert 8 * m * (8 * n) == 64 * m * n;
  }

  /** Every address behind the palette is a pixel's. */
  lemma AddressOfPixel(w: nat, h: nat, a: nat)
    requires w % 8 == 0 && h % 8 == 0 && w > 0 && PIXELS <= a < PIXELS + w * h
    ensures var (x, y) := PixelAt(w, a);
      x < w && y < h && Address(w, x, y) == a
  {
    hide Address, Band;
    var k, n := a - PIXELS, Band(w);
    var (band, inBand) := Split(k, n);
    Area(w, h);
    QuotientBelow(k, n, h / 8);
    BandIs(w);
    QuotientBelow(inBand, 64, w / 8);
    var tile, inTile := inBand / 64, inBand % 64;
    PlaceBack(w, tile, inTile, band);
  }

  lemma PlaceBack(w: nat, tile: nat, inTile: nat, band: nat)
    requires w % 8 == 0 && tile < w / 8 && inTile < 64
    ensures var x, y := tile * 8 + inTile % 8, band * 8 + inTile / 8;
      x < w && Address(w, x, y) == PIXELS + Band(w) * band + tile * 64 + inTile
  {
    hide Address, Band;
    var x, y := tile * 8 + inTile % 8, band * 8 + inTile / 8;
    ModUnique(x, 8, tile, inTile % 8);
    ModUnique(y, 8, band, inTile / 8);
    Places(w, x, y);
  }

  lemma AddressInside(w: nat, h: nat, x: nat, y: nat)
    requires w % 8 == 0 && h % 8 == 0 && x < w && y < h
    ensures PIXELS <= Address(w, x, y) < PIXELS + w * h
  {
    hide Address, Band;
    Area(w, h);
    Places(w, x, y);
    TimesMonotone(Band(w), y / 8 + 1, h / 8);
    TimesNat(Band(w), y / 8);
    assert Band(w) * (y / 8 + 1) == Band(w) * (y / 8) + Band(w);
  }

  /** Sizes at which no two pixels share an address. */
  predicate Apart(w: nat, h: nat) {
    w % 8 == 0 || h <= 8
  }

  lemma PixelsApart(w: nat, h: nat, x: nat, y: nat, x1: nat, y1: nat)
    requires Apart(w, h) && x < w && x1 < w && y < h && y1 < h && Address(w, x, y) == Address(w, x1, y1)
    ensures x == x1 && y == y1
  {
    hide Address, PixelAt;
    if w % 8 == 0 {
      PixelOfAddress(w, x, y);
      PixelOfAddress(w, x1, y1);
    } else {
      InOneBand(w, x, y);
      InOneBand(w, x1, y1);
      TileOf(x / 8, y, x % 8);
      TileOf(x1 / 8, y1, x1 % 8);
    }
  }

  lemma InOneBand(w: nat, x: nat, y: nat)
    requires y < 8
    ensures Address(w, x, y) == PIXELS + x / 8 * 64 + y * 8 + x % 8
  {
  }

  lemma TileOf(tile: nat, y: nat, x: nat)
    requires y < 8 && x < 8
    ensures (tile * 64 + y * 8 + x) / 64 == tile && (tile * 64 + y * 8 + x) % 64 == y * 8 + x
    ensures (y * 8 + x) / 8 == y && (y * 8 + x) % 8 == x
  {
    ModUnique(tile * 64 + y * 8 + x, 64, tile, y * 8 + x);
    ModUnique(y * 8 + x, 8, y, x);
  }

  /** At all other sizes the rest of the first row begins where the second band does. */
  lemma SharedPlace(w: nat, h: nat)
    requires !Apart(w, h)
    ensures w - w % 8 < w && 8 < h && Address(w, w - w % 8, 0) == Address(w, 0, 8)
  {
    var tiles := w / 8;
    ModUnique(w - w % 8, 8, tiles, 0);
    assert 8 / 8 * 64 * tiles == tiles * 64;
  }

  // ----- the palette

  /** The colours of some pixels, each once, in the order they are first met. */
  function Interned(pixels: seq<Rgb>): (p: seq<Rgb>)
    ensures |p| <= |pixels|
  {
    if pixels == [] then []
    else
      var p, c := Interned(pixels[..|pixels| - 1]), pixels[|pixels| - 1];
      if c in p then p else p + [c]
  }

  lemma InternedNext(pixels: seq<Rgb>, c: Rgb)
    ensures Interned(pixels + [c]) == if c in Interned(pixels) then Interned(pixels) else Interned(pixels) + [c]
  {
    assert (pixels + [c])[..|pixels|] == pixels;
  }

  /** There are as many as there are different colours. */
  lemma {:induction false} InternedCounts(pixels: seq<Rgb>)
    ensures forall c :: c in Interned(pixels) <==> c in pixels
    ensures |Interned(pixels)| == |set c | c in pixels|
  {
    if pixels != [] {
      var n := |pixels| - 1;
      var last := pixels[n];
      InternedCounts(pixels[..n]);
      assert pixels == pixels[..n] + [last];
      forall c
        ensures c in Interned(pixels) <==> c in pixels
      {
        assert c in pixels <==> c in pixels[..n] || c == last;
      }
      var before, after := set c | c in pixels[..n], set c | c in pixels;
      assert after == before + {last};
      assert last in before <==> last in Interned(pixels[..n]);
    }
  }

  function Flat(rows: seq<seq<Rgb>>): seq<Rgb> {
    if rows == [] then [] else Flat(rows[..|rows| - 1]) + rows[|rows| - 1]
  }

  /** The byte of a pixel names its colour in the palette, as long as the palette fits a byte. */
  ghost predicate Coded(out: seq<byte>, palette: seq<Rgb>, index: nat, w: nat, x: nat, y: nat, c: Rgb) {
    index <= 0x100 && index <= |palette| ==>
      && Address(w, x, y) < |out| && PALETTE_FIRST <= out[Address(w, x, y)] < index
      && palette[out[Address(w, x, y)]] == c
  }

  predicate Rectangle(image: seq<seq<Rgb>>, w: nat, h: nat) {
    |image| == h && forall y | 0 <= y < h :: |image[y]| == w
  }

  /** Pixels that share an address have the same colour. */
  ghost predicate Agree(image: seq<seq<Rgb>>, w: nat)
    requires Rectangle(image, w, |image|)
  {
    forall x: nat, y: nat, x1: nat, y1: nat
      | x < w && x1 < w && y < |image| && y1 < |image| && Address(w, x, y) == Address(w, x1, y1)
      :: image[y][x] == image[y1][x1]
  }

  /** The first rows, and the first pixels of the next one, are in the file. */
  ghost predicate UpTo(out: seq<byte>, palette: seq<Rgb>, index: nat, image: seq<seq<Rgb>>, w: nat, rows: nat,
                       pixels: nat)
    requires Rectangle(image, w, |image|) && rows <= |image| && pixels <= w
  {
    Agree(image, w) ==>
      && (forall x: nat, y: nat | y < rows && x < w :: Coded(out, palette, index, w, x, y, image[y][x]))
      && (rows < |image| ==>
            forall x: nat | x < pixels :: Coded(out, palette, index, w, x, rows, image[rows][x]))
  }

  /** One more pixel in the file leaves those before it alone. */
  lemma UpToNext(out: seq<byte>, out1: seq<byte>, palette: seq<Rgb>, palette1: seq<Rgb>, index: nat, index1: nat,
                 image: seq<seq<Rgb>>, w: nat, y: nat, x: nat)
    requires Rectangle(image, w, |image|) && y < |image| && x < w
    requires UpTo(out, palette, index, image, w, y, x) && Coded(out1, palette1, index1, w, x, y, image[y][x])
    requires |out| == |out1| && forall a | 0 <= a < |out| && a != Address(w, x, y) :: out1[a] == out[a]
    requires index <= index1 && index <= |palette| == |palette1|
    requires forall i | 0 <= i < index :: palette1[i] == palette[i]
    ensures UpTo(out1, palette1, index1, image, w, y, x + 1)
  {
    hide Coded, Address;
    if Agree(image, w) {
      forall x1: nat, y1: nat | y1 < y && x1 < w
        ensures Coded(out1, palette1, index1, w, x1, y1, image[y1][x1])
      {
        CodedKept(out, out1, palette, palette1, index, index1, w, x1, y1, image[y1][x1], x, y, image[y][x]);
      }
      forall x1: nat | x1 < x
        ensures Coded(out1, palette1, index1, w, x1, y, image[y][x1])
      {
        CodedKept(out, out1, palette, palette1, index, index1, w, x1, y, image[y][x1], x, y, image[y][x]);
      }
    }
  }

  lemma CodedKept(out: seq<byte>, out1: seq<byte>, palette: seq<Rgb>, palette1: seq<Rgb>, index: nat, index1: nat,
                  w: nat, x1: nat, y1: nat, c1: Rgb, x: nat, y: nat, c: Rgb)
    requires Coded(out, palette, index, w, x1, y1, c1) && Coded(out1, palette1, index1, w, x, y, c)
    requires Address(w, x, y) == Address(w, x1, y1) ==> c == c1
    requires |out| == |out1| && forall a | 0 <= a < |out| && a != Address(w, x, y) :: out1[a] == out[a]
    requires index <= index1 && index <= |palette| == |palette1|
    requires forall i | 0 <= i < index :: palette1[i] == palette[i]
    ensures Coded(out1, palette1, index1, w, x1, y1, c1)
  {
    hide Address;
  }

  lemma UpToRow(out: seq<byte>, palette: seq<Rgb>, index: nat, image: seq<seq<Rgb>>, w: nat, y: nat)
    requires Rectangle(image, w, |image|) && y < |image| && UpTo(out, palette, index, image, w, y, w)
    ensures UpTo(out, palette, index, image, w, y + 1, 0)
  {
    hide Address, Coded;
  }

  /** The colours the logo starts with. */
  const C64: seq<Rgb> := [
    Rgb(0, 0, 0), Rgb(0xff, 0xff, 0xff), Rgb(0xab, 0x31, 0x26), Rgb(0x66, 0xda, 0xff),
    Rgb(0xbb, 0x3f, 0xb8), Rgb(0x55, 0xce, 0x58), Rgb(0x1d, 0x0e, 0x97), Rgb(0xea, 0xf5, 0x7c),
    Rgb(0xb9, 0x74, 0x18), Rgb(0x78, 0x73, 0x00), Rgb(0xdd, 0x93, 0x87), Rgb(0x5b, 0x5b, 0x5b),
    Rgb(0x8b, 0x8b, 0x8b), Rgb(0xb0, 0xf4, 0xac), Rgb(0xaa, 0x9d, 0xef), Rgb(0xb8, 0xb8, 0xb8)]

  /** The same colours as numbers. */
  lemma C64Is()
    ensures |C64| == 16
    ensures forall i | 0 <= i < 16 ::
              C64[i].r * 0x1_0000 + C64[i].g * 0x100 + C64[i].b
              == [0x000000, 0xffffff, 0xab3126, 0x66daff, 0xbb3fb8, 0x55ce58, 0x1d0e97, 0xeaf57c,
                  0xb97418, 0x787300, 0xdd9387, 0x5b5b5b, 0x8b8b8b, 0xb0f4ac, 0xaa9def, 0xb8b8b8][i]
  {
  }

  /** The palette of a file: the colours of the C64 and behind them those of the image, in the order they are met. */
  ghost predicate PaletteIn(out: seq<byte>, colours: seq<Rgb>) {
    && |out| >= PIXELS
    && (forall c: byte | c < 16 :: Shown(out, c) == C64[c])
    && (forall c: byte | 16 <= c && c < 16 + |colours| :: Shown(out, c) == colours[c - 16])
  }

  /** The colour a reader of the file finds for a byte. */
  function Shown(out: seq<byte>, c: byte): Rgb
    requires |out| >= PIXELS
  {
    Rgb(NyblSwap(out[c]), NyblSwap(out[0x100 + c]), NyblSwap(out[0x200 + c]))
  }

  /** Reds, greens and blues, 256 of each, one after the other and with their nibbles swapped. */
  lemma ShownIs(out: seq<byte>, c: byte)
    requires |out| >= 768
    ensures Shown(out, c).r == out[c] % 16 * 16 + out[c] / 16
    ensures Shown(out, c).g == out[256 + c] % 16 * 16 + out[256 + c] / 16
    ensures Shown(out, c).b == out[512 + c] % 16 * 16 + out[512 + c] / 16
  {
  }

  /** A reader of the file sees a pixel in its colour. */
  predicate Shows(out: seq<byte>, w: nat, x: nat, y: nat, c: Rgb) {
    |out| >= PIXELS && Address(w, x, y) < |out| && Shown(out, out[Address(w, x, y)]) == c
  }

  ghost predicate AllShow(out: seq<byte>, image: seq<seq<Rgb>>, w: nat)
    requires Rectangle(image, w, |image|)
  {
    forall x: nat, y: nat | y < |image| && x < w :: Shows(out, w, x, y, image[y][x])
  }

  /** A file that shows every pixel exists only if pixels that share an address have the same colour. */
  lemma ShownAgree(out: seq<byte>, image: seq<seq<Rgb>>, w: nat)
    requires Rectangle(image, w, |image|) && AllShow(out, image, w)
    ensures Agree(image, w)
  {
    hide Address, Shown;
    forall x: nat, y: nat, x1: nat, y1: nat
      | x < w && x1 < w && y < |image| && y1 < |image| && Address(w, x, y) == Address(w, x1, y1)
      ensures image[y][x] == image[y1][x1]
    {
      assert Shows(out, w, x, y, image[y][x]) && Shows(out, w, x1, y1, image[y1][x1]);
    }
  }

  function Plain(w: nat, h: nat, mark: nat): seq<seq<Rgb>> {
    seq(h, y => seq(w, x => if y == 0 && x == mark then Rgb(1, 1, 1) else Rgb(0, 0, 0)))
  }

  /** They do in every image of a size exactly if the width is a multiple of 8 or the height at most 8. */
  lemma SizesThatAgree(w: nat, h: nat)
    ensures (forall image: seq<seq<Rgb>> | Rectangle(image, w, h) :: Agree(image, w)) <==> Apart(w, h)
  {
    hide Address;
    if Apart(w, h) {
      forall image: seq<seq<Rgb>> | Rectangle(image, w, h)
        ensures Agree(image, w)
      {
        forall x: nat, y: nat, x1: nat, y1: nat
          | x < w && x1 < w && y < h && y1 < h && Address(w, x, y) == Address(w, x1, y1)
          ensures image[y][x] == image[y1][x1]
        {
          PixelsApart(w, h, x, y, x1, y1);
        }
      }
    } else {
      SharedPlace(w, h);
      var mark := w - w % 8;
      var image := Plain(w, h, mark);
      assert image[0][mark] == Rgb(1, 1, 1) && image[8][0] == Rgb(0, 0, 0);
      assert Rectangle(image, w, h) && !Agree(image, w);
    }
  }

  /** A file long enough for every pixel. */
  ghost predicate Roomy(size: nat, w: nat, h: nat) {
    size >= PIXELS && forall x: nat, y: nat | x < w && y < h :: Address(w, x, y) < size
  }

  class Converter {
    const palette: array<Rgb>
    var paletteIndex: nat
    const out: array<byte>

    constructor (size: nat)
      ensures Shape() && fresh(palette) && fresh(out) && out.Length == size && paletteIndex == PALETTE_FIRST
    {
      palette := new Rgb[PALETTE_SIZE](_ => Rgb(0, 0, 0));
      paletteIndex := PALETTE_FIRST;
      out := new byte[size](_ => 0);
    }

    predicate Shape()
      reads this
    {
      palette.Length == PALETTE_SIZE && PALETTE_FIRST <= paletteIndex <= PALETTE_SIZE
    }

    /** The colours given an index so far. */
    function Known(): seq<Rgb>
      reads this, palette
      requires Shape()
    {
      palette[PALETTE_FIRST..paletteIndex]
    }

    /** The index of a colour, a new one if it has none yet and there is room. */
    method PaletteLookup(c: Rgb) returns (index: nat, exited: bool)
      requires Shape()
      modifies palette, this`paletteIndex
      ensures Shape()
      ensures exited <==> c !in old(Known()) && old(paletteIndex) == PALETTE_SIZE
      ensures exited ==> palette[..] == old(palette[..]) && paletteIndex == old(paletteIndex)
      ensures !exited ==> PALETTE_FIRST <= index < paletteIndex && palette[index] == c
      ensures !exited ==> Known() == if c in old(Known()) then old(Known()) else old(Known()) + [c]
      ensures forall i | 0 <= i < old(paletteIndex) :: palette[i] == old(palette[i])
    {
      exited := false;
      for i := PALETTE_FIRST to paletteIndex
        invariant forall j | PALETTE_FIRST <= j < i :: palette[j] != c
      {
        if c == palette[i] {
          assert Known()[i - PALETTE_FIRST] == c;
          return i, false;
        }
      }
      if paletteIndex > PALETTE_SIZE - 1 {
        return 0, true;
      }
      palette[paletteIndex] := c;
      index := paletteIndex;
      paletteIndex := paletteIndex + 1;
    }

    /** Looks up a pixel and writes the low byte of its index at its place. */
    method PutPixel(w: nat, x: nat, y: nat, c: Rgb) returns (exited: bool)
      requires Shape() && Address(w, x, y) < out.Length
      modifies palette, this`paletteIndex, out
      ensures Shape()
      ensures exited <==> c !in old(Known()) && old(paletteIndex) == PALETTE_SIZE
      ensures exited ==> paletteIndex == old(paletteIndex) && palette[..] == old(palette[..])
      ensures !exited ==> Known() == if c in old(Known()) then old(Known()) else old(Known()) + [c]
      ensures !exited ==> Coded(out[..], palette[..], paletteIndex, w, x, y, c)
      ensures forall i | 0 <= i < old(paletteIndex) :: palette[i] == old(palette[i])
      ensures forall a | 0 <= a < out.Length && a != Address(w, x, y) :: out[a] == old(out[a])
    {
      hide Address, Coded;
      AddressIs(w, x, y);
      var index;
      index, exited := PaletteLookup(c);
      if !exited {
        var address := 0x300 + (x % 8 + y % 8 * 8) + x / 8 * 64 + y / 8 * 64 * (w / 8);
        out[address] := index % 0x100;
        LowByteCodes(out[..], palette[..], paletteIndex, w, x, y, c, index);
      }
    }

    /** One row of pixels. */
    method PutRow(image: seq<seq<Rgb>>, w: nat, y: nat) returns (exited: bool)
      requires Shape() && Rectangle(image, w, |image|) && y < |image| && Roomy(out.Length, w, |image|)
      requires Known() == Interned(Flat(image[..y])) && UpTo(out[..], palette[..], paletteIndex, image, w, y, 0)
      modifies palette, this`paletteIndex, out
      ensures Shape() && palette[..16] == old(palette[..16])
      ensures !exited ==> Known() == Interned(Flat(image[..y + 1]))
      ensures !exited ==> UpTo(out[..], palette[..], paletteIndex, image, w, y + 1, 0)
      ensures exited ==> |Interned(Flat(image[..y + 1]))| > PALETTE_SIZE - PALETTE_FIRST
    {
      hide Address, UpTo, Coded, Interned, Flat;
      var x := 0;
      FlatRow(image, y);
      ghost var seen := Flat(image[..y]);
      assert seen + image[y][..0] == seen;
      while x < w
        invariant 0 <= x <= w && Shape() && Known() == Interned(seen + image[y][..x])
        invariant palette[..16] == old(palette[..16])
        invariant UpTo(out[..], palette[..], paletteIndex, image, w, y, x)
      {
        NextInRow(seen, image[y], x);
        ghost var out0, palette0, index0 := out[..], palette[..], paletteIndex;
        exited := PutPixel(w, x, y, image[y][x]);
        if exited {
          RestOfRow(seen, image[y], x + 1);
          return;
        }
        UpToNext(out0, out[..], palette0, palette[..], index0, paletteIndex, image, w, y, x);
        x := x + 1;
      }
      assert image[y][..w] == image[y];
      UpToRow(out[..], palette[..], paletteIndex, image, w, y);
      exited := false;
    }

    /** Swaps the nibbles of the palette into the front of the file. */
    method PutPalette()
      requires Shape() && out.Length >= PIXELS
      modifies out
      ensures forall a | PIXELS <= a < out.Length :: out[a] == old(out[a])
      ensures forall i | 0 <= i < 0x100 :: out[i] == NyblSwap(palette[i].r) && out[0x100 + i] == NyblSwap(palette[i].g)
                                           && out[0x200 + i] == NyblSwap(palette[i].b)
    {
      hide NyblSwap;
      for i := 0 to 0x100
        invariant forall a | PIXELS <= a < out.Length :: out[a] == old(out[a])
        invariant forall j | 0 <= j < i :: out[j] == NyblSwap(palette[j].r) && out[0x100 + j] == NyblSwap(palette[j].g)
                                           && out[0x200 + j] == NyblSwap(palette[j].b)
      {
        PutColour(i, palette[i]);
      }
    }

    /** One colour of the palette. */
    method PutColour(i: nat, c: Rgb)
      requires i < 0x100 && out.Length >= PIXELS
      modifies out
      ensures out[i] == NyblSwap(c.r) && out[0x100 + i] == NyblSwap(c.g) && out[0x200 + i] == NyblSwap(c.b)
      ensures forall a | 0 <= a < out.Length && a != i && a != 0x100 + i && a != 0x200 + i :: out[a] == old(out[a])
    {
      hide NyblSwap;
      NyblSwapIs(c.r);
      NyblSwapIs(c.g);
      NyblSwapIs(c.b);
      out[i] := c.r / 0x10 + c.r % 0x10 * 0x10;
      out[0x100 + i] := c.g / 0x10 + c.g % 0x10 * 0x10;
      out[0x200 + i] := c.b / 0x10 + c.b % 0x10 * 0x10;
    }

    method PresetPalette()
      requires Shape()
      modifies palette
      ensures palette[..] == C64 + old(palette[PALETTE_FIRST..])
    {
      forall i | 0 <= i < PALETTE_FIRST {
        palette[i] := C64[i];
      }
    }

    /** All rows. */
    method PutRows(image: seq<seq<Rgb>>, w: nat) returns (exited: bool)
      requires Shape() && paletteIndex == PALETTE_FIRST && Rectangle(image, w, |image|)
      requires Roomy(out.Length, w, |image|)
      modifies palette, this`paletteIndex, out
      ensures Shape() && palette[..16] == old(palette[..16])
      ensures exited <==> |Interned(Flat(image))| > PALETTE_SIZE - PALETTE_FIRST
      ensures !exited ==> Known() == Interned(Flat(image))
      ensures !exited ==> UpTo(out[..], palette[..], paletteIndex, image, w, |image|, 0)
    {
      hide Address, UpTo, Coded, Interned;
      UpToStart(out[..], palette[..], paletteIndex, image, w);
      NoneInterned();
      assert image[..0] == [];
      var y := 0;
      while y < |image|
        invariant 0 <= y <= |image| && Shape() && Known() == Interned(Flat(image[..y]))
        invariant palette[..16] == old(palette[..16])
        invariant UpTo(out[..], palette[..], paletteIndex, image, w, y, 0)
      {
        exited := PutRow(image, w, y);
        if exited {
          FlatSplit(image, y + 1);
          MoreInterned(Flat(image[..y + 1]), Flat(image[y + 1..]));
          return;
        }
        y := y + 1;
      }
      assert image[..|image|] == image;
      exited := false;
    }

    /** Converts an image. With at most 240 different colours, every pixel comes back from the file, its byte looked
        up in the palette at the front with the nibbles swapped back, exactly if pixels that share an address have
        the same colour. */
    method Convert(image: seq<seq<Rgb>>, w: nat) returns (exited: bool)
      requires Shape() && paletteIndex == PALETTE_FIRST && Rectangle(image, w, |image|)
      requires Roomy(out.Length, w, |image|)
      modifies palette, this`paletteIndex, out
      ensures exited <==> |set c | c in Flat(image)| > 2544
      ensures !exited ==> PaletteIn(out[..], Interned(Flat(image)))
      ensures |set c | c in Flat(image)| <= 240 ==> (AllShow(out[..], image, w) <==> Agree(image, w))
    {
      hide UpTo, Interned, Shows, Rectangle, Agree, AllShow, PaletteIn, NyblSwap;
      InternedCounts(Flat(image));
      PresetPalette();
      exited := PutRows(image, w);
      if exited {
        return;
      }
      ghost var before := out[..];
      PutPalette();
      PaletteShown(out[..], palette[..], Known());
      if paletteIndex <= 0x100 && Agree(image, w) {
        AllShown(before, out[..], palette[..], paletteIndex, image, w);
      }
      if AllShow(out[..], image, w) {
        ShownAgree(out[..], image, w);
      }
    }
  }

  lemma PaletteShown(out: seq<byte>, palette: seq<Rgb>, known: seq<Rgb>)
    requires |out| >= PIXELS && |palette| == PALETTE_SIZE && palette[..16] == C64 && 16 + |known| <= |palette|
    requires known == palette[16..16 + |known|]
    requires forall i | 0 <= i < 0x100 :: out[i] == NyblSwap(palette[i].r) && out[0x100 + i] == NyblSwap(palette[i].g)
                                          && out[0x200 + i] == NyblSwap(palette[i].b)
    ensures PaletteIn(out, known)
  {
    hide NyblSwap;
    forall c: byte
      ensures Shown(out, c) == palette[c]
    {
      SwapTwice(palette[c].r);
      SwapTwice(palette[c].g);
      SwapTwice(palette[c].b);
    }
    assert forall c: byte | c < 16 :: palette[..16][c] == palette[c];
  }

  lemma FlatRow(image: seq<seq<Rgb>>, y: nat)
    requires y < |image|
    ensures Flat(image[..y + 1]) == Flat(image[..y]) + image[y]
  {
    assert image[..y + 1][..y] == image[..y];
  }

  lemma NextInRow(seen: seq<Rgb>, row: seq<Rgb>, x: nat)
    requires x < |row|
    ensures var p := Interned(seen + row[..x]); Interned(seen + row[..x + 1]) == if row[x] in p then p else p + [row[x]]
  {
    hide Interned;
    InternedNext(seen + row[..x], row[x]);
    assert seen + row[..x] + [row[x]] == seen + row[..x + 1];
  }

  lemma RestOfRow(seen: seq<Rgb>, row: seq<Rgb>, x: nat)
    requires x <= |row|
    ensures Interned(seen + row[..x]) <= Interned(seen + row)
  {
    hide Interned;
    MoreInterned(seen + row[..x], row[x..]);
    assert seen + row[..x] + row[x..] == seen + row;
  }

  lemma AddressIs(w: nat, x: nat, y: nat)
    ensures Address(w, x, y) == 0x300 + (x % 8 + y % 8 * 8) + x / 8 * 64 + y / 8 * 64 * (w / 8)
  {
  }

  lemma LowByteCodes(out: seq<byte>, palette: seq<Rgb>, index: nat, w: nat, x: nat, y: nat, c: Rgb, i: nat)
    requires Address(w, x, y) < |out| && out[Address(w, x, y)] == i % 0x100
    requires PALETTE_FIRST <= i < index <= |palette| && palette[i] == c
    ensures Coded(out, palette, index, w, x, y, c)
  {
    hide Address;
  }

  lemma NyblSwapIs(b: byte)
    ensures NyblSwap(b) == b / 0x10 + b % 0x10 * 0x10
  {
  }

  lemma NoneInterned()
    ensures Interned(Flat([])) == []
  {
  }

  lemma UpToStart(out: seq<byte>, palette: seq<Rgb>, index: nat, image: seq<seq<Rgb>>, w: nat)
    requires Rectangle(image, w, |image|)
    ensures UpTo(out, palette, index, image, w, 0, 0)
  {
  }

  lemma {:induction false} FlatSplit(rows: seq<seq<Rgb>>, n: nat)
    requires n <= |rows|
    ensures Flat(rows) == Flat(rows[..n]) + Flat(rows[n..])
    decreases |rows|
  {
    if n == |rows| {
      assert rows[..n] == rows && Flat(rows) + [] == Flat(rows);
    } else {
      var m := |rows| - 1;
      FlatSplit(rows[..m], n);
      assert rows[..m][..n] == rows[..n] && rows[..m][n..] == rows[n..][..m - n];
    }
  }

  /** Writing the palette shows every pixel. */
  lemma AllShown(before: seq<byte>, out: seq<byte>, palette: seq<Rgb>, index: nat, image: seq<seq<Rgb>>, w: nat)
    requires Rectangle(image, w, |image|) && UpTo(before, palette, index, image, w, |image|, 0) && Agree(image, w)
    requires |out| == |before| >= PIXELS && index <= 0x100 && |palette| == PALETTE_SIZE
    requires forall a | PIXELS <= a < |out| :: out[a] == before[a]
    requires forall i | 0 <= i < 0x100 :: out[i] == NyblSwap(palette[i].r) && out[0x100 + i] == NyblSwap(palette[i].g)
                                          && out[0x200 + i] == NyblSwap(palette[i].b)
    ensures AllShow(out, image, w)
  {
    hide NyblSwap;
    forall x: nat, y: nat | y < |image| && x < w
      ensures Shows(out, w, x, y, image[y][x])
    {
      assert Coded(before, palette, index, w, x, y, image[y][x]);
      PixelBehindPalette(w, x, y);
      var c := palette[before[Address(w, x, y)]];
      SwapTwice(c.r);
      SwapTwice(c.g);
      SwapTwice(c.b);
    }
  }

  lemma PixelBehindPalette(w: nat, x: nat, y: nat)
    ensures Address(w, x, y) >= PIXELS
  {
    TimesNat(y / 8 * 64, w / 8);
  }

  /** Colours already met stay. */
  lemma {:induction false} MoreInterned(pixels: seq<Rgb>, more: seq<Rgb>)
    ensures Interned(pixels) <= Interned(pixels + more)
    decreases |more|
  {
    hide Interned;
    if more == [] {
      assert pixels + more == pixels;
    } else {
      InternedNext(pixels, more[0]);
      MoreInterned(pixels + [more[0]], more[1..]);
      assert pixels + [more[0]] + more[1..] == pixels + more;
    }
  }
}
