/** The tiled 2-bit font images: 8 by 8 pixel blocks, 4 pixels to a byte. */
module I2Image {
  import opened Arith
  import opened Bytes
  import Bits

  // ---- where a pixel of a tile row lies

  /** A row of 8 pixels of a block, numbered in the order the rows are stored. */
  function RowOf(wb: nat, br: nat, b: nat, r: nat): nat {
    (br * wb + b) * 8 + r
  }

  /** Index of the first pixel of stored row s in the untiled bitmap of wb blocks width. */
  function PixelBase(wb: nat, s: nat): nat
    requires wb > 0
  {
    var y: nat, b: nat := s / 8 / wb * 8 + s % 8, s / 8 % wb;
    (y * wb + b) * 8
  }

  /** The stored row a group of 8 pixels belongs to; the inverse of PixelBase. */
  function RowAt(wb: nat, g: nat): nat
    requires wb > 0
  {
    (g / wb / 8 * wb + g % wb) * 8 + g / wb % 8
  }

  lemma RowParts(wb: nat, br: nat, b: nat, r: nat)
    requires b < wb && r < 8
    ensures var s := RowOf(wb, br, b, r); s % 8 == r && s / 8 == br * wb + b && s / 8 / wb == br && s / 8 % wb == b
  {
    var t := br * wb + b;
    ModUnique(t * 8 + r, 8, t, r);
    ModUnique(t, wb, br, b);
  }

  lemma BaseIs(wb: nat, br: nat, b: nat, r: nat)
    requires b < wb && r < 8
    ensures PixelBase(wb, RowOf(wb, br, b, r)) == ((br * 8 + r) * wb + b) * 8
  {
    RowParts(wb, br, b, r);
  }

  /** PixelBase and RowAt are inverse to each other. */
  lemma RowBijection(wb: nat, s: nat)
    requires wb > 0
    ensures PixelBase(wb, s) % 8 == 0 && RowAt(wb, PixelBase(wb, s) / 8) == s
  {
    var t, r := s / 8, s % 8;
    var br, b := t / wb, t % wb;
    DivMod(t, wb);
    TimesCommutes(wb, br);
    var g := (br * 8 + r) * wb + b;
    ModUnique(g, wb, br * 8 + r, b);
    ModUnique(br * 8 + r, 8, br, r);
    ModUnique(g * 8, 8, g, 0);
  }

  lemma BaseBijection(wb: nat, g: nat)
    requires wb > 0
    ensures PixelBase(wb, RowAt(wb, g)) == g * 8
  {
    var y, b := g / wb, g % wb;
    var br, r := y / 8, y % 8;
    DivMod(g, wb);
    TimesCommutes(wb, y);
    BaseIs(wb, br, b, r);
  }

  lemma TimesCommutes(a: nat, b: nat)
    ensures a * b == b * a
  {
  }

  /** The rows of hb rows of blocks fill exactly their pixels. */
  lemma BaseRange(wb: nat, hb: nat, s: nat)
    requires wb > 0 && s < hb * wb * 8
    ensures PixelBase(wb, s) + 8 <= hb * wb * 64
  {
    var n, t, r := hb * wb, s / 8, s % 8;
    var br, b := t / wb, t % wb;
    TimesCommutes(wb, hb);
    DivBound(t, wb, hb);
    var y := br * 8 + r;
    LastRow(wb, hb, n, y);
    PixelOf(wb, s, y, b);
  }

  lemma LastRow(wb: nat, hb: nat, n: nat, y: nat)
    requires n == hb * wb && y < hb * 8
    ensures y * wb + wb <= n * 8
  {
    TimesMonotone(wb, y + 1, hb * 8);
    TimesSucc(wb, y);
    TimesCommutes(wb, y);
    TimesEight(wb, hb);
  }

  lemma PixelOf(wb: nat, s: nat, y: nat, b: nat)
    requires wb > 0 && y == s / 8 / wb * 8 + s % 8 && b == s / 8 % wb
    ensures b < wb && PixelBase(wb, s) == 8 * (y * wb) + 8 * b
  {
  }

  lemma TimesEight(wb: nat, hb: nat)
    ensures wb * (hb * 8) == hb * wb * 8
  {
  }

  lemma RowRange(wb: nat, hb: nat, g: nat)
    requires wb > 0 && g < hb * wb * 8
    ensures RowAt(wb, g) < hb * wb * 8
  {
    var y, b := g / wb, g % wb;
    TimesEight(wb, hb);
    DivBound(g, wb, hb * 8);
    var br := y / 8;
    TimesMonotone(wb, br + 1, hb);
    TimesSucc(wb, br);
    TimesCommutes(wb, br);
    TimesCommutes(wb, hb);
  }

  // ---- shrinking and expanding pixels

  /** Four pixels in a byte, the first in the high bits. */
  function Quad(p: byte, q: byte, r: byte, s: byte): byte {
    (p as nat / 64 * 64 + q as nat / 64 * 16 + r as nat / 64 * 4 + s as nat / 64) as byte
  }

  /** Pixel k of a byte, expanded to 8 bits. */
  function Grey(b: byte, k: nat): byte
    requires k < 4
  {
    var v := match k
      case 0 => b as nat / 64
      case 1 => b as nat / 16 % 4
      case 2 => b as nat / 4 % 4
      case _ => b as nat % 4;
    (v * 0x55) as byte
  }

  function QuantizedPixel(p: byte): byte {
    (p as nat / 64 * 0x55) as byte
  }

  lemma QuadGrey(p: byte, q: byte, r: byte, s: byte)
    ensures Grey(Quad(p, q, r, s), 0) == QuantizedPixel(p) && Grey(Quad(p, q, r, s), 1) == QuantizedPixel(q)
    ensures Grey(Quad(p, q, r, s), 2) == QuantizedPixel(r) && Grey(Quad(p, q, r, s), 3) == QuantizedPixel(s)
  {
    Pairs(p as nat / 64, q as nat / 64, r as nat / 64, s as nat / 64);
  }

  lemma Pairs(a: nat, b: nat, c: nat, d: nat)
    requires a < 4 && b < 4 && c < 4 && d < 4
    ensures var x := a * 64 + b * 16 + c * 4 + d; x / 64 == a && x / 16 % 4 == b && x / 4 % 4 == c && x % 4 == d
  {
    var x := a * 64 + b * 16 + c * 4 + d;
    ModUnique(x, 64, a, b * 16 + c * 4 + d);
    ModUnique(x, 16, a * 4 + b, c * 4 + d);
    ModUnique(x, 4, a * 16 + b * 4 + c, d);
    ModUnique(a * 4 + b, 4, a, b);
    ModUnique(a * 16 + b * 4 + c, 4, a * 4 + b, c);
  }

  lemma GreyQuad(b: byte)
    ensures Quad(Grey(b, 0), Grey(b, 1), Grey(b, 2), Grey(b, 3)) == b
  {
    var x := b as nat;
    assert x == x / 64 * 64 + x / 16 % 4 * 16 + x / 4 % 4 * 4 + x % 4;
    TwoBits(x / 64);
    TwoBits(x / 16 % 4);
    TwoBits(x / 4 % 4);
    TwoBits(x % 4);
  }

  /** The high bits of an expanded pixel are the pixel. */
  lemma TwoBits(v: nat)
    ensures v < 4 ==> v * 0x55 < 0x100 && v * 0x55 / 64 == v
  {
  }

  /** The masks and shifts of i2encode. */
  lemma PackBits(p: byte, q: byte, r: byte, s: byte)
    ensures Bits.Or(Bits.Or(Bits.Or(Bits.And(p as int, 0xC0), Bits.And(q as int / 4, 0x30)),
        Bits.And(r as int / 16, 0x0C)), s as int / 64)
         == Quad(p, q, r, s) as int
  {
    hide Bits.And, Bits.Or, Bits.Pow2;
    Powers();
    HighPair(p as nat, 6, 64);
    HighPair(q as nat / 4, 4, 16);
    HighPair(r as nat / 16, 2, 4);
    var a, b, c, d := p as nat / 64, q as nat / 64, r as nat / 64, s as nat / 64;
    assert q as nat / 4 / 16 == b && r as nat / 16 / 4 == c;
    JoinAbove(b * 16, a, 6, 64);
    JoinAbove(c * 4, a * 4 + b, 4, 16);
    JoinAbove(d, a * 16 + b * 4 + c, 2, 4);
  }

  lemma JoinAbove(low: nat, high: nat, k: nat, m: nat)
    requires m == Bits.Pow2(k) && low < m
    ensures Bits.Or(high * m, low) == high * m + low
  {
    Bits.OrDisjoint(low, high, k);
  }

  lemma Powers()
    ensures Bits.Pow2(2) == 4 && Bits.Pow2(4) == 16 && Bits.Pow2(6) == 64
  {
    assert Bits.Pow2(2) == 4;
    Bits.Pow2Add(2, 2);
    Bits.Pow2Add(4, 2);
  }

  lemma HighPair(x: nat, k: nat, m: nat)
    requires m == Bits.Pow2(k) && x < 4 * m
    ensures Bits.And(x, 3 * m) == x / m * m
  {
    hide Bits.And, Bits.Pow2;
    Bits.AndHigh(x, 3, k);
    TimesCommutes(4, m);
    DivBound(x, m, 4);
    var v := x / m;
    LowPair(v);
  }

  lemma LowPair(v: nat)
    ensures Bits.And(v, 3) == v % 4
  {
    assert Bits.Pow2(2) == 4;
    Bits.AndLow(v, 2);
  }

  // ---- the whole image

  function Encoded(data: seq<byte>, wb: nat, o: nat): byte
    requires wb > 0 && PixelBase(wb, o / 2) + 8 <= |data|
  {
    var i := PixelBase(wb, o / 2) + 4 * (o % 2);
    Quad(data[i], data[i + 1], data[i + 2], data[i + 3])
  }

  function Decoded(data: seq<byte>, wb: nat, p: nat): byte
    requires wb > 0 && 2 * RowAt(wb, p / 8) + 1 < |data|
  {
    Grey(data[2 * RowAt(wb, p / 8) + p % 8 / 4], p % 4)
  }

  /** An image of hb rows of wb blocks. */
  predicate IsBitmap(data: seq<byte>, wb: nat, hb: nat) {
    wb > 0 && hb * wb * 64 <= |data|
  }

  predicate IsTiled(data: seq<byte>, wb: nat, hb: nat) {
    wb > 0 && hb * wb * 16 <= |data|
  }

  lemma Sizes(wb: nat, hb: nat)
    ensures hb * wb * 64 == 8 * (hb * wb * 8) && hb * wb * 16 == 2 * (hb * wb * 8)
  {
  }

  lemma EncodedIn(data: seq<byte>, wb: nat, hb: nat, o: nat)
    requires IsBitmap(data, wb, hb) && o < hb * wb * 16
    ensures PixelBase(wb, o / 2) + 8 <= hb * wb * 64 <= |data|
  {
    Sizes(wb, hb);
    BaseRange(wb, hb, o / 2);
  }

  ghost predicate IsEncoding(tiled: seq<byte>, data: seq<byte>, wb: nat, hb: nat) {
    && IsBitmap(data, wb, hb) && |tiled| == hb * wb * 16
    && forall o: nat :: o < |tiled| ==> PixelBase(wb, o / 2) + 8 <= |data| && tiled[o] == Encoded(data, wb, o)
  }

  ghost predicate IsDecoding(data: seq<byte>, tiled: seq<byte>, wb: nat, hb: nat) {
    && IsTiled(tiled, wb, hb) && |data| == hb * wb * 64
    && forall p: nat :: p < |data| ==> 2 * RowAt(wb, p / 8) + 1 < |tiled| && data[p] == Decoded(tiled, wb, p)
  }

  /** The two bits of a byte that stand for its k-th pixel, the leftmost pixel highest. */
  function BitsOf(b: byte, k: nat): nat {
    if k == 0 then b as nat / 64 else if k == 1 then b as nat / 16 % 4 else if k == 2 then b as nat / 4 % 4
        else b as nat % 4
  }

  /** Where the pixel in column 8 b + c and line 8 br + r of the bitmap is stored: block by
      block, two bytes to a line, four pixels to a byte. */
  lemma PixelPlace(tiled: seq<byte>, data: seq<byte>, wb: nat, hb: nat, br: nat, b: nat, r: nat, c: nat)
    requires IsEncoding(tiled, data, wb, hb) && br < hb && b < wb && r < 8 && c < 8
    ensures var o, i := (br * wb + b) * 16 + r * 2 + c / 4, ((br * 8 + r) * wb + b) * 8 + c;
      o < |tiled| && i < |data| && BitsOf(tiled[o], c % 4) == data[i] as nat / 64
  {
    var o := (br * wb + b) * 16 + r * 2 + c / 4;
    BlockRange(wb, hb, br, b);
    BaseIs(wb, br, b, r);
    var s := RowOf(wb, br, b, r);
    assert o / 2 == s && o % 2 == c / 4;
    assert tiled[o] == Encoded(data, wb, o);
    hide PixelBase, RowOf;
    var i := PixelBase(wb, s) + 4 * (c / 4);
    QuadBits(data[i], data[i + 1], data[i + 2], data[i + 3]);
  }

  lemma QuadBits(p: byte, q: byte, r: byte, s: byte)
    ensures BitsOf(Quad(p, q, r, s), 0) == p as nat / 64 && BitsOf(Quad(p, q, r, s), 1) == q as nat / 64
    ensures BitsOf(Quad(p, q, r, s), 2) == r as nat / 64 && BitsOf(Quad(p, q, r, s), 3) == s as nat / 64
  {
    Pairs(p as nat / 64, q as nat / 64, r as nat / 64, s as nat / 64);
  }

  lemma BlockRange(wb: nat, hb: nat, br: nat, b: nat)
    requires br < hb && b < wb
    ensures br * wb + b < hb * wb
  {
    TimesMonotone(wb, br + 1, hb);
    TimesSucc(wb, br);
    TimesCommutes(wb, br);
    TimesCommutes(wb, hb);
  }

  /** Decoding an encoded bitmap gives every pixel in its place, cut to 4 grey levels. */
  lemma EncodeDecode(data: seq<byte>, tiled: seq<byte>, back: seq<byte>, wb: nat, hb: nat, p: nat)
    requires IsEncoding(tiled, data, wb, hb) && IsDecoding(back, tiled, wb, hb) && p < |back|
    ensures back[p] == QuantizedPixel(data[p])
  {
    hide Quad, Grey, QuantizedPixel, PixelBase, RowAt;
    var s := RowAt(wb, p / 8);
    var o := 2 * s + p % 8 / 4;
    BaseBijection(wb, p / 8);
    var i := PixelBase(wb, o / 2) + 4 * (o % 2);
    assert o / 2 == s && i + p % 4 == p;
    assert tiled[o] == Encoded(data, wb, o);
    QuadGrey(data[i], data[i + 1], data[i + 2], data[i + 3]);
  }

  /** Encoding a decoded image gives the image back: the 2-bit format loses nothing. */
  lemma DecodeEncode(tiled: seq<byte>, data: seq<byte>, back: seq<byte>, wb: nat, hb: nat, o: nat)
    requires IsDecoding(data, tiled, wb, hb) && IsEncoding(back, data, wb, hb) && o < |back|
    ensures o < |tiled| && back[o] == tiled[o]
  {
    hide Quad, Grey, PixelBase, RowAt;
    var s := o / 2;
    RowBijection(wb, s);
    var i := PixelBase(wb, s) + 4 * (o % 2);
    assert i / 8 == PixelBase(wb, s) / 8 && i % 8 == 4 * (o % 2);
    assert back[o] == Encoded(data, wb, o);
    PixelIn(tiled, data, wb, hb, s, o, 0);
    PixelIn(tiled, data, wb, hb, s, o, 1);
    PixelIn(tiled, data, wb, hb, s, o, 2);
    PixelIn(tiled, data, wb, hb, s, o, 3);
    GreyQuad(tiled[o]);
  }

  lemma PixelIn(tiled: seq<byte>, data: seq<byte>, wb: nat, hb: nat, s: nat, o: nat, k: nat)
    requires IsDecoding(data, tiled, wb, hb) && s == o / 2 && k < 4 && PixelBase(wb, s) + 8 <= |data|
    requires PixelBase(wb, s) % 8 == 0 && RowAt(wb, PixelBase(wb, s) / 8) == s
    ensures o < |tiled| && data[PixelBase(wb, s) + 4 * (o % 2) + k] == Grey(tiled[o], k)
  {
    hide Grey, PixelBase, RowAt;
    var p := PixelBase(wb, s) + 4 * (o % 2) + k;
    assert p / 8 == PixelBase(wb, s) / 8 && p % 8 / 4 == o % 2 && p % 4 == k;
    assert data[p] == Decoded(tiled, wb, p);
  }

  // ---- the loops

  /** Rows of blocks, and stored rows in a row of blocks, are counted exactly. */
  lemma RowIn(wb: nat, hb: nat, br: nat, b: nat, r: nat)
    requires br < hb && b < wb && r < 8
    ensures RowOf(wb, br, b, r) < hb * wb * 8 && RowOf(wb, br, b, r) == (br * wb + b) * 8 + r
    ensures br * wb * 16 + b * 16 + r * 2 == 2 * RowOf(wb, br, b, r)
    ensures br * wb * 64 + b * 8 + r * wb * 8 == PixelBase(wb, RowOf(wb, br, b, r))
  {
    TimesMonotone(wb, br + 1, hb);
    TimesSucc(wb, br);
    TimesCommutes(wb, br);
    TimesCommutes(wb, hb);
    BaseIs(wb, br, b, r);
    Spread(br, r, wb, b);
  }

  lemma Spread(br: nat, r: nat, wb: nat, b: nat)
    ensures ((br * 8 + r) * wb + b) * 8 == br * wb * 64 + b * 8 + r * wb * 8
  {
  }

  method PackRow(out: array<byte>, dst: nat, data: seq<byte>, src: nat)
    requires dst + 1 < out.Length && src + 8 <= |data|
    modifies out
    ensures out[dst] == Quad(data[src], data[src + 1], data[src + 2], data[src + 3])
    ensures out[dst + 1] == Quad(data[src + 4], data[src + 5], data[src + 6], data[src + 7])
    ensures forall k :: 0 <= k < out.Length && k != dst && k != dst + 1 ==> out[k] == old(out[k])
  {
    hide Quad, Bits.And, Bits.Or;
    PackBits(data[src], data[src + 1], data[src + 2], data[src + 3]);
    PackBits(data[src + 4], data[src + 5], data[src + 6], data[src + 7]);
    out[dst] := Bits.Or(Bits.Or(Bits.Or(Bits.And(data[src] as int, 0xC0), Bits.And(data[src + 1] as int / 4, 0x30)),
                                Bits.And(data[src + 2] as int / 16, 0x0C)), data[src + 3] as int / 64) as byte;
    out[dst + 1] := Bits.Or(Bits.Or(Bits.Or(Bits.And(data[src + 4] as int, 0xC0),
        Bits.And(data[src + 5] as int / 4, 0x30)),
                                    Bits.And(data[src + 6] as int / 16, 0x0C)), data[src + 7] as int / 64) as byte;
  }

  /** The first n stored rows are encoded. */
  ghost predicate EncodedTo(out: seq<byte>, data: seq<byte>, wb: nat, hb: nat, n: nat) {
    && IsBitmap(data, wb, hb) && |out| == hb * wb * 16
    && forall o: nat :: o < |out| && o < 2 * n ==> PixelBase(wb, o / 2) + 8 <= |data| && out[o] == Encoded(data, wb, o)
  }

  lemma EncodedNext(out: seq<byte>, out': seq<byte>, data: seq<byte>, wb: nat, hb: nat, n: nat)
    requires EncodedTo(out, data, wb, hb, n) && n < hb * wb * 8 && |out'| == |out| && 2 * n + 1 < |out|
    requires forall k :: 0 <= k < |out| && k != 2 * n && k != 2 * n + 1 ==> out'[k] == out[k]
    requires PixelBase(wb, n) + 8 <= |data|
    requires var i := PixelBase(wb, n);
      && out'[2 * n] == Quad(data[i], data[i + 1], data[i + 2], data[i + 3])
      && out'[2 * n + 1] == Quad(data[i + 4], data[i + 5], data[i + 6], data[i + 7])
    ensures EncodedTo(out', data, wb, hb, n + 1)
  {
    hide Quad, PixelBase;
    forall o: nat | o < |out| && o < 2 * (n + 1)
        ensures PixelBase(wb, o / 2) + 8 <= |data| && out'[o] == Encoded(data, wb, o) {
      if o < 2 * n {
        assert out[o] == Encoded(data, wb, o);
      } else {
        assert o / 2 == n;
      }
    }
  }

  /** Whole blocks in a bitmap or image of n bytes, unit bytes to a block. */
  function HeightBlocks(n: nat, wb: nat, unit: nat): nat
    requires wb > 0 && unit > 0
  {
    n / (wb * unit)
  }

  /** Stored rows follow each other across blocks and rows of blocks. */
  lemma RowSteps(wb: nat, hb: nat, br: nat, b: nat, r: nat)
    ensures RowOf(wb, br, b, r) + 1 == RowOf(wb, br, b, r + 1)
    ensures RowOf(wb, br, b, 8) == RowOf(wb, br, b + 1, 0) && RowOf(wb, br, wb, 0) == RowOf(wb, br + 1, 0, 0)
    ensures RowOf(wb, 0, 0, 0) == 0 && RowOf(wb, hb, 0, 0) == hb * wb * 8
  {
    NextBlocks(br, wb);
  }

  method EncodeRow(out: array<byte>, data: seq<byte>, wb: nat, hb: nat, br: nat, b: nat, r: nat)
    requires br < hb && b < wb && r < 8 && EncodedTo(out[..], data, wb, hb, RowOf(wb, br, b, r))
    modifies out
    ensures EncodedTo(out[..], data, wb, hb, RowOf(wb, br, b, r + 1))
  {
    hide PixelBase, RowOf, Encoded, Quad;
    RowIn(wb, hb, br, b, r);
    RowSteps(wb, hb, br, b, r);
    ghost var n, before := RowOf(wb, br, b, r), out[..];
    Sizes(wb, hb);
    EncodedIn(data, wb, hb, 2 * n);
    PackRow(out, br * wb * 16 + b * 16 + r * 2, data, br * wb * 64 + b * 8 + r * wb * 8);
    EncodedNext(before, out[..], data, wb, hb, n);
  }

  /** i2encode: rows and columns that do not fill a block are not encoded, and the pixels are
      taken as rows of whole blocks. */
  method I2Encode(data: seq<byte>, width: nat) returns (out: array<byte>, outWidth: nat)
    requires width >= 8
    ensures outWidth == width / 8 * 8 && IsEncoding(out[..], data, width / 8, HeightBlocks(|data|, width / 8, 64))
  {
    hide IsEncoding, EncodedTo, PixelBase, RowOf;
    var wb := width / 8;
    var hb := HeightBlocks(|data|, wb, 64);
    BitmapFits(data, wb, hb);
    out := new byte[hb * wb * 16](i => 0);
    outWidth := wb * 8;
    EncodedNone(out[..], data, wb, hb);
    RowSteps(wb, hb, 0, 0, 0);
    for br := 0 to hb
      invariant EncodedTo(out[..], data, wb, hb, RowOf(wb, br, 0, 0))
    {
      for b := 0 to wb
        invariant EncodedTo(out[..], data, wb, hb, RowOf(wb, br, b, 0))
      {
        for r := 0 to 8
          invariant EncodedTo(out[..], data, wb, hb, RowOf(wb, br, b, r))
        {
          EncodeRow(out, data, wb, hb, br, b, r);
        }
        RowSteps(wb, hb, br, b, 0);
      }
      RowSteps(wb, hb, br, 0, 0);
    }
    EncodedAll(out[..], data, wb, hb);
  }

  lemma NextBlocks(br: nat, wb: nat)
    ensures (br * wb + wb) * 8 == (br + 1) * wb * 8
  {
  }

  lemma BitmapFits(data: seq<byte>, wb: nat, hb: nat)
    requires wb > 0 && hb == HeightBlocks(|data|, wb, 64)
    ensures IsBitmap(data, wb, hb)
  {
    DivMod(|data|, wb * 64);
    assert hb * wb * 64 == wb * 64 * hb;
  }

  lemma EncodedNone(out: seq<byte>, data: seq<byte>, wb: nat, hb: nat)
    requires IsBitmap(data, wb, hb) && |out| == hb * wb * 16
    ensures EncodedTo(out, data, wb, hb, 0)
  {
  }

  lemma EncodedAll(out: seq<byte>, data: seq<byte>, wb: nat, hb: nat)
    requires EncodedTo(out, data, wb, hb, hb * wb * 8)
    ensures IsEncoding(out, data, wb, hb)
  {
    hide PixelBase, Encoded;
    Sizes(wb, hb);
  }

  method UnpackRow(out: array<byte>, dst: nat, src1: byte, src2: byte)
    requires dst + 8 <= out.Length
    modifies out
    ensures forall i :: 0 <= i < 8 ==> out[dst + i] == Grey(if i < 4 then src1 else src2, i % 4)
    ensures forall k :: 0 <= k < out.Length && !(dst <= k < dst + 8) ==> out[k] == old(out[k])
  {
    UnpackByte(out, dst, src1);
    UnpackByte(out, dst + 4, src2);
  }

  method UnpackByte(out: array<byte>, dst: nat, b: byte)
    requires dst + 4 <= out.Length
    modifies out
    ensures forall i :: 0 <= i < 4 ==> out[dst + i] == Grey(b, i)
    ensures forall k :: 0 <= k < out.Length && !(dst <= k < dst + 4) ==> out[k] == old(out[k])
  {
    hide Bits.And;
    LowPair(b as nat / 16);
    LowPair(b as nat / 4);
    LowPair(b as nat);
    out[dst] := (b as int / 64 * 0x55) as byte;
    out[dst + 1] := (Bits.And(b as int / 16, 3) * 0x55) as byte;
    out[dst + 2] := (Bits.And(b as int / 4, 3) * 0x55) as byte;
    out[dst + 3] := (Bits.And(b as int, 3) * 0x55) as byte;
  }

  /** The pixels of the first n stored rows are decoded. */
  ghost predicate DecodedTo(out: seq<byte>, tiled: seq<byte>, wb: nat, hb: nat, n: nat) {
    && IsTiled(tiled, wb, hb) && |out| == hb * wb * 64
    && forall p: nat :: p < |out| && RowAt(wb, p / 8) < n ==>
        2 * RowAt(wb, p / 8) + 1 < |tiled| && out[p] == Decoded(tiled, wb, p)
  }

  lemma DecodedNext(out: seq<byte>, out': seq<byte>, tiled: seq<byte>, wb: nat, hb: nat, n: nat)
    requires DecodedTo(out, tiled, wb, hb, n) && n < hb * wb * 8 && |out'| == |out| && PixelBase(wb, n) + 8 <= |out|
        && 2 * n + 1 < |tiled|
    requires forall k :: 0 <= k < |out| && !(PixelBase(wb, n) <= k < PixelBase(wb, n) + 8) ==> out'[k] == out[k]
    requires forall i :: 0 <= i < 8 ==>
        out'[PixelBase(wb, n) + i] == Grey(if i < 4 then tiled[2 * n] else tiled[2 * n + 1], i % 4)
    ensures DecodedTo(out', tiled, wb, hb, n + 1)
  {
    hide Grey, PixelBase, RowAt;
    RowBijection(wb, n);
    forall p: nat | p < |out| && RowAt(wb, p / 8) < n + 1
      ensures 2 * RowAt(wb, p / 8) + 1 < |tiled| && out'[p] == Decoded(tiled, wb, p)
    {
      BaseBijection(wb, p / 8);
      var i := p % 8;
      if RowAt(wb, p / 8) == n {
        assert out'[PixelBase(wb, n) + i] == Grey(if i < 4 then tiled[2 * n] else tiled[2 * n + 1], i % 4);
        Corner(p);
      } else {
        assert p < PixelBase(wb, n) || p >= PixelBase(wb, n) + 8;
        assert out[p] == Decoded(tiled, wb, p);
      }
    }
  }

  lemma Corner(p: nat)
    ensures p == p / 8 * 8 + p % 8 && p % 8 % 4 == p % 4 && (p % 8 / 4 == 0 <==> p % 8 < 4) && p % 8 / 4 <= 1
  {
  }

  method DecodeRow(out: array<byte>, tiled: seq<byte>, wb: nat, hb: nat, br: nat, b: nat, r: nat)
    requires br < hb && b < wb && r < 8 && DecodedTo(out[..], tiled, wb, hb, RowOf(wb, br, b, r))
    modifies out
    ensures DecodedTo(out[..], tiled, wb, hb, RowOf(wb, br, b, r + 1))
  {
    hide PixelBase, RowOf, RowAt, Decoded, Grey;
    RowIn(wb, hb, br, b, r);
    RowSteps(wb, hb, br, b, r);
    ghost var n, before := RowOf(wb, br, b, r), out[..];
    Sizes(wb, hb);
    BaseRange(wb, hb, n);
    var src := br * wb * 16 + b * 16 + r * 2;
    UnpackRow(out, br * wb * 64 + b * 8 + r * wb * 8, tiled[src], tiled[src + 1]);
    DecodedNext(before, out[..], tiled, wb, hb, n);
  }

  method I2Decode(tiled: seq<byte>, width: nat) returns (out: array<byte>, outWidth: nat)
    requires width >= 1
    ensures outWidth == (width + 7) / 8 * 8 && IsDecoding(out[..], tiled, (width + 7) / 8,
        HeightBlocks(|tiled|, (width + 7) / 8, 16))
  {
    hide IsDecoding, DecodedTo, RowOf;
    var wb := (width + 7) / 8;
    var hb := HeightBlocks(|tiled|, wb, 16);
    TiledFits(tiled, wb, hb);
    out := new byte[hb * wb * 64](i => 0);
    outWidth := wb * 8;
    DecodedNone(out[..], tiled, wb, hb);
    RowSteps(wb, hb, 0, 0, 0);
    for br := 0 to hb
      invariant DecodedTo(out[..], tiled, wb, hb, RowOf(wb, br, 0, 0))
    {
      for b := 0 to wb
        invariant DecodedTo(out[..], tiled, wb, hb, RowOf(wb, br, b, 0))
      {
        for r := 0 to 8
          invariant DecodedTo(out[..], tiled, wb, hb, RowOf(wb, br, b, r))
        {
          DecodeRow(out, tiled, wb, hb, br, b, r);
        }
        RowSteps(wb, hb, br, b, 0);
      }
      RowSteps(wb, hb, br, 0, 0);
    }
    DecodedAll(out[..], tiled, wb, hb);
  }

  lemma TiledFits(data: seq<byte>, wb: nat, hb: nat)
    requires wb > 0 && hb == HeightBlocks(|data|, wb, 16)
    ensures IsTiled(data, wb, hb)
  {
    DivMod(|data|, wb * 16);
    assert hb * wb * 16 == wb * 16 * hb;
  }

  lemma DecodedNone(out: seq<byte>, tiled: seq<byte>, wb: nat, hb: nat)
    requires IsTiled(tiled, wb, hb) && |out| == hb * wb * 64
    ensures DecodedTo(out, tiled, wb, hb, 0)
  {
  }

  lemma DecodedAll(out: seq<byte>, tiled: seq<byte>, wb: nat, hb: nat)
    requires DecodedTo(out, tiled, wb, hb, hb * wb * 8)
    ensures IsDecoding(out, tiled, wb, hb)
  {
    hide RowAt, Decoded;
    Sizes(wb, hb);
    forall p: nat | p < |out| ensures RowAt(wb, p / 8) < hb * wb * 8 {
      RowRange(wb, hb, p / 8);
    }
  }
}
