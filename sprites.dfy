/**
 * The ZX Spectrum Next sprite view: decoding of a sprite's attribute record,
 * the pixel transforms applied to its 16x16 pattern, the expansion of the
 * user's slot ranges, the palette rotation by the palette offset, the list of
 * patterns to fetch, and the table cell that highlights a changed value.
 */
module ZxNextSprites {
  import opened Opt
  import opened Text

  type byte = bv8

  // ---------------------------------------------------------------------------
  // Attribute decoding
  // ---------------------------------------------------------------------------

  /**
   * A sprite's attributes in decoded form. The mirror and rotation flags are
   * numbers 0 or 1, as in the view; `n6` is absent for an 8-bit pattern and
   * otherwise selects the half of the pattern a 4-bit sprite uses.
   */
  datatype SpriteData = SpriteData(
    x: nat, y: nat,
    xMirrored: nat, yMirrored: nat, rotated: nat,
    paletteOffset: nat, patternIndex: nat,
    visible: bool,
    n6: Option<nat>,
    relativeSprite: bool)

  /** 1 when the bit selected by `mask` is set in `b`, else 0. */
  function Flag(b: byte, mask: byte): (f: nat)
    ensures f <= 1 && (f == 1 <==> b & mask != 0)
  {
    if b & mask != 0 then 1 else 0
  }

  /** The 9-bit X position: the low byte and bit 0 of the third attribute byte. */
  function XPosition(a0: byte, a2: byte): (x: nat)
    ensures x < 512 && x % 256 == a0 as nat && (x >= 256 <==> a2 & 0x01 == 1)
  {
    a0 as nat + (a2 & 0x01) as nat * 256
  }

  /** The palette offset: the high nibble of the third attribute byte, kept in place. */
  function PaletteOffset(a2: byte): (offs: nat)
    ensures offs % 16 == 0 && offs <= 240 && offs / 16 == (a2 >> 4) as nat
  {
    (a2 & 0xF0) as nat
  }

  /** The pattern index: the low six bits of the fourth attribute byte. */
  function PatternIndex(a3: byte): (index: nat)
    ensures index < 64 && index == a3 as nat % 64
  {
    (a3 & 0x3F) as nat
  }

  /** The 4-bit-pattern selector of the fifth attribute byte: defined only when bit 7 is set. */
  function N6Of(a4: byte): (n6: Option<nat>)
    ensures n6.Some? <==> a4 as nat >= 128
    ensures n6.Some? ==> n6.value == a4 as nat / 64 % 2
  {
    if a4 & 0x80 != 0 then Some(((a4 & 0x40) >> 6) as nat) else None
  }

  /** A relative sprite has `01` in the two top bits of the fifth attribute byte. */
  function IsRelative(a4: byte): (relative: bool)
    ensures relative <==> a4 as nat / 64 == 1
  {
    a4 & 0xC0 == 0x40
  }

  /**
   * Decodes a 4- or 5-byte attribute record. The fifth byte, when present,
   * carries the 4-bit-pattern selector and the anchor/relative kind.
   */
  function DecodeSprite(attrs: seq<byte>): (s: SpriteData)
    requires |attrs| >= 4
    ensures s.x < 512 && s.x % 256 == attrs[0] as nat && (s.x >= 256 <==> attrs[2] & 0x01 == 1)
    ensures s.y == attrs[1] as nat
    ensures s.xMirrored <= 1 && (s.xMirrored == 1 <==> attrs[2] & 0x08 != 0)
    ensures s.yMirrored <= 1 && (s.yMirrored == 1 <==> attrs[2] & 0x04 != 0)
    ensures s.rotated <= 1 && (s.rotated == 1 <==> attrs[2] & 0x02 != 0)
    ensures s.paletteOffset % 16 == 0 && s.paletteOffset <= 240
    ensures s.paletteOffset / 16 == (attrs[2] >> 4) as nat
    ensures s.patternIndex < 64 && s.patternIndex == attrs[3] as nat % 64
    ensures s.visible <==> attrs[3] as nat >= 128
    ensures |attrs| == 4 ==> s.n6 == None && !s.relativeSprite
    ensures |attrs| > 4 ==> (s.n6.Some? <==> attrs[4] as nat >= 128)
    ensures |attrs| > 4 && s.n6.Some? ==> s.n6.value == attrs[4] as nat / 64 % 2
    ensures |attrs| > 4 ==> (s.relativeSprite <==> attrs[4] as nat / 64 == 1)
  {
    SpriteData(
      XPosition(attrs[0], attrs[2]),
      attrs[1] as nat,
      Flag(attrs[2], 0x08),
      Flag(attrs[2], 0x04),
      Flag(attrs[2], 0x02),
      PaletteOffset(attrs[2]),
      PatternIndex(attrs[3]),
      attrs[3] & 0x80 != 0,
      if |attrs| > 4 then N6Of(attrs[4]) else None,
      |attrs| > 4 && IsRelative(attrs[4]))
  }

  /** The attribute values a 5-byte record can carry. */
  predicate Encodable(s: SpriteData) {
    && s.x < 512 && s.y < 256
    && s.xMirrored <= 1 && s.yMirrored <= 1 && s.rotated <= 1
    && s.paletteOffset % 16 == 0 && s.paletteOffset <= 240
    && s.patternIndex < 64
    && (s.n6.Some? ==> s.n6.value <= 1 && !s.relativeSprite)
  }

  /** The byte whose value is `n`. */
  function ToByte(n: nat): (b: byte)
    requires n < 256
  {
    if n == 0 then 0 else ToByte(n - 1) + 1
  }

  lemma {:induction false} ToByteValue(n: nat)
    requires n < 256
    ensures ToByte(n) as nat == n
  {
    if n > 0 {
      ToByteValue(n - 1);
      var b := ToByte(n - 1);
      assert b as nat < 255;
      assert (b + 1) as nat == b as nat + 1;
    }
  }

  /** `mask` when the 0/1 flag `f` is set, else no bits. */
  function FlagBits(f: nat, mask: byte): byte {
    if f == 1 then mask else 0
  }

  /** The low nibble of the third attribute byte: mirror and rotation flags, X bit 8. */
  function LowNibble(xMirrored: nat, yMirrored: nat, rotated: nat, x8: nat): byte {
    FlagBits(xMirrored, 0x08) | FlagBits(yMirrored, 0x04) | FlagBits(rotated, 0x02) | FlagBits(x8, 0x01)
  }

  /** The third attribute byte: palette offset above the low nibble. */
  function ThirdByte(s: SpriteData): byte
    requires Encodable(s)
  {
    ((s.paletteOffset / 16) as byte << 4) | LowNibble(s.xMirrored, s.yMirrored, s.rotated, s.x / 256)
  }

  /** The fifth attribute byte: `01` for a relative sprite, `1n` for a 4-bit pattern half n. */
  function FifthByte(s: SpriteData): byte
    requires Encodable(s)
  {
    if s.relativeSprite then 0x40 else if s.n6.Some? then 0x80 | FlagBits(s.n6.value, 0x40) else 0
  }

  /** The 5-byte attribute record the hardware holds for `s`: the inverse of `DecodeSprite`. */
  function EncodeSprite(s: SpriteData): (attrs: seq<byte>)
    requires Encodable(s)
    ensures |attrs| == 5
  {
    [ToByte(s.x % 256), ToByte(s.y), ThirdByte(s),
     (if s.visible then 0x80 else 0) | ToByte(s.patternIndex), FifthByte(s)]
  }

  lemma {:induction false} HighNibble(h: nat)
    requires h < 16
    ensures ((h as byte) << 4) as nat == 16 * h
    ensures ((h as byte) << 4) & 0x0F == 0
  {
    if h < 8 {
      if h < 4 {
        if h < 2 { if h == 0 {} else {} } else { if h == 2 {} else {} }
      } else {
        if h < 6 { if h == 4 {} else {} } else { if h == 6 {} else {} }
      }
    } else {
      if h < 12 {
        if h < 10 { if h == 8 {} else {} } else { if h == 10 {} else {} }
      } else {
        if h < 14 { if h == 12 {} else {} } else { if h == 14 {} else {} }
      }
    }
  }

  lemma {:induction false} LowNibbleFlags(hi: byte, xMirrored: nat, yMirrored: nat, rotated: nat, x8: nat)
    requires hi & 0x0F == 0 && xMirrored <= 1 && yMirrored <= 1 && rotated <= 1 && x8 <= 1
    ensures Flag(hi | LowNibble(xMirrored, yMirrored, rotated, x8), 0x08) == xMirrored
    ensures Flag(hi | LowNibble(xMirrored, yMirrored, rotated, x8), 0x04) == yMirrored
    ensures Flag(hi | LowNibble(xMirrored, yMirrored, rotated, x8), 0x02) == rotated
    ensures ((hi | LowNibble(xMirrored, yMirrored, rotated, x8)) & 0x01) as nat == x8
    ensures (hi | LowNibble(xMirrored, yMirrored, rotated, x8)) & 0xF0 == hi
  {
    var low := LowNibble(xMirrored, yMirrored, rotated, x8);
    assert low & 0xF0 == 0;
    assert (hi | low) & 0x0F == low;
  }

  lemma ThirdByteFields(s: SpriteData)
    requires Encodable(s)
    ensures Flag(ThirdByte(s), 0x08) == s.xMirrored
    ensures Flag(ThirdByte(s), 0x04) == s.yMirrored
    ensures Flag(ThirdByte(s), 0x02) == s.rotated
    ensures (ThirdByte(s) & 0x01) as nat == s.x / 256
    ensures PaletteOffset(ThirdByte(s)) == s.paletteOffset
  {
    HighNibble(s.paletteOffset / 16);
    LowNibbleFlags((s.paletteOffset / 16) as byte << 4, s.xMirrored, s.yMirrored, s.rotated, s.x / 256);
  }

  lemma {:induction false} LowByte(x: nat, b: byte)
    requires x < 512 && (b & 0x01) as nat == x / 256
    ensures XPosition(ToByte(x % 256), b) == x
  {
    ToByteValue(x % 256);
  }

  lemma FourthByteFields(s: SpriteData)
    requires Encodable(s)
    ensures PatternIndex(EncodeSprite(s)[3]) == s.patternIndex
    ensures EncodeSprite(s)[3] & 0x80 != 0 <==> s.visible
  {
    var p := ToByte(s.patternIndex);
    ToByteValue(s.patternIndex);
    assert p & 0xC0 == 0;
  }

  lemma FifthByteFields(s: SpriteData)
    requires Encodable(s)
    ensures N6Of(FifthByte(s)) == s.n6
    ensures IsRelative(FifthByte(s)) == s.relativeSprite
  {
  }

  lemma {:induction false} DecodeFive(s: SpriteData, a0: byte, a1: byte, a2: byte, a3: byte, a4: byte)
    requires XPosition(a0, a2) == s.x && a1 as nat == s.y
    requires Flag(a2, 0x08) == s.xMirrored && Flag(a2, 0x04) == s.yMirrored && Flag(a2, 0x02) == s.rotated
    requires PaletteOffset(a2) == s.paletteOffset && PatternIndex(a3) == s.patternIndex
    requires (a3 & 0x80 != 0 <==> s.visible) && N6Of(a4) == s.n6 && IsRelative(a4) == s.relativeSprite
    ensures DecodeSprite([a0, a1, a2, a3, a4]) == s
  {
  }

  /** Decoding recovers every field of an encoded record. */
  lemma DecodeEncode(s: SpriteData)
    requires Encodable(s)
    ensures DecodeSprite(EncodeSprite(s)) == s
  {
    var a := EncodeSprite(s);
    var a0, a1, a2, a3, a4 := a[0], a[1], a[2], a[3], a[4];
    assert a == [a0, a1, a2, a3, a4];
    assert XPosition(a0, a2) == s.x && a1 as nat == s.y by {
      ThirdByteFields(s);
      LowByte(s.x, a2);
      ToByteValue(s.y);
    }
    assert Flag(a2, 0x08) == s.xMirrored && Flag(a2, 0x04) == s.yMirrored && Flag(a2, 0x02) == s.rotated
      && PaletteOffset(a2) == s.paletteOffset by {
      ThirdByteFields(s);
    }
    assert PatternIndex(a3) == s.patternIndex && (a3 & 0x80 != 0 <==> s.visible) by {
      FourthByteFields(s);
    }
    assert N6Of(a4) == s.n6 && IsRelative(a4) == s.relativeSprite by {
      FifthByteFields(s);
    }
    DecodeFive(s, a0, a1, a2, a3, a4);
  }

  // ---------------------------------------------------------------------------
  // Pattern transforms: a pattern is 16 rows of 16 pixels, row by row
  // ---------------------------------------------------------------------------

  /** Pixel (row `y`, column `x`) sits at index `y*16 + x`; this recovers both coordinates. */
  lemma {:induction false} Cell(y: int, x: int)
    requires 0 <= y < 16 && 0 <= x < 16
    ensures (y * 16 + x) / 16 == y && (y * 16 + x) % 16 == x
  {
  }

  /** The high or the low nibble of a pattern byte. */
  function Nibble(b: byte, high: bool): (n: byte)
    ensures n < 16
  {
    if high then b >> 4 else b & 0x0F
  }

  /** The 8-bit-per-pixel pattern a 4-bit sprite shows: half `n6` of `pattern`, two pixels per byte, high nibble first. */
  function Unpacked(pattern: seq<byte>, n6: nat): (np: seq<byte>)
    requires |pattern| == 256 && n6 <= 1
    ensures |np| == 256
    ensures forall j :: 0 <= j < 256 ==> np[j] < 16
  {
    seq(256, j requires 0 <= j < 256 =>
      Nibble(pattern[j / 2 + 128 * n6], j % 2 == 0))
  }

  /** Rotation by 90 degrees clockwise: the pixel at (y, x) moves to (x, 15 - y). */
  function Rotated<T>(p: seq<T>): (np: seq<T>)
    requires |p| == 256
    ensures |np| == 256
    ensures forall i :: 0 <= i < 256 ==> np[i] in p
  {
    seq(256, i requires 0 <= i < 256 => p[(15 - i % 16) * 16 + i / 16])
  }

  /** Mirroring along X: the pixel at (y, x) moves to (y, 15 - x). */
  function MirroredX<T>(p: seq<T>): (np: seq<T>)
    requires |p| == 256
    ensures |np| == 256
    ensures forall i :: 0 <= i < 256 ==> np[i] in p
  {
    seq(256, i requires 0 <= i < 256 => p[i / 16 * 16 + 15 - i % 16])
  }

  /** Mirroring along Y: the pixel at (y, x) moves to (15 - y, x). */
  function MirroredY<T>(p: seq<T>): (np: seq<T>)
    requires |p| == 256
    ensures |np| == 256
    ensures forall i :: 0 <= i < 256 ==> np[i] in p
  {
    seq(256, i requires 0 <= i < 256 => p[(15 - i / 16) * 16 + i % 16])
  }

  /** The pixels a sprite shows: unpack, then rotate, then mirror along X, then along Y. */
  function SpritePixels(s: SpriteData, pattern: seq<byte>): (pixels: seq<byte>)
    requires |pattern| == 256 && (s.n6.Some? ==> s.n6.value <= 1)
    ensures |pixels| == 256
    ensures forall j :: 0 <= j < 256 ==> pixels[j] in (if s.n6.Some? then Unpacked(pattern, s.n6.value) else pattern)
    ensures s.n6.Some? ==> forall j :: 0 <= j < 256 ==> pixels[j] < 16
    ensures s.n6.None? && s.rotated == 0 && s.xMirrored == 0 && s.yMirrored == 0 ==> pixels == pattern
  {
    var p0 := if s.n6.Some? then Unpacked(pattern, s.n6.value) else pattern;
    var p1 := if s.rotated != 0 then Rotated(p0) else p0;
    var p2 := if s.xMirrored != 0 then MirroredX(p1) else p1;
    if s.yMirrored != 0 then MirroredY(p2) else p2
  }

  /** Spreads half `n6` of a packed 4-bit pattern over a new 256-pixel array. */
  method UnpackPattern(pattern: seq<byte>, n6: nat) returns (np: array<byte>)
    requires |pattern| == 256 && n6 <= 1
    ensures np.Length == 256 && np[..] == Unpacked(pattern, n6)
  {
    var offset := n6 * 128;
    np := new byte[256];
    for i := 0 to 128
      invariant forall j :: 0 <= j < 2 * i ==> np[j] == Unpacked(pattern, n6)[j]
    {
      var val := pattern[i + offset];
      np[2 * i] := val >> 4;
      np[2 * i + 1] := val & 0x0F;
    }
  }

  /** Writes the pixels read row by row into the rotated positions of a new array. */
  method RotatePattern(used: seq<byte>) returns (np: array<byte>)
    requires |used| == 256
    ensures np.Length == 256 && np[..] == Rotated(used)
  {
    np := new byte[256];
    var k := 0;
    for y := 0 to 16
      invariant k == y * 16
      invariant forall i :: 0 <= i < 256 && 15 - i % 16 < y ==> np[i] == Rotated(used)[i]
    {
      for x := 0 to 16
        invariant k == y * 16 + x
        invariant forall i :: 0 <= i < 256 && (15 - i % 16 < y || (15 - i % 16 == y && i / 16 < x)) ==>
          np[i] == Rotated(used)[i]
      {
        Cell(x, 15 - y);
        np[x * 16 + 15 - y] := used[k];
        k := k + 1;
      }
    }
  }

  /** Fills a new array row by row with each row read backwards. */
  method MirrorPatternX(used: seq<byte>) returns (np: array<byte>)
    requires |used| == 256
    ensures np.Length == 256 && np[..] == MirroredX(used)
  {
    np := new byte[256];
    var k := 0;
    for y := 0 to 16
      invariant k == y * 16
      invariant forall i :: 0 <= i < k ==> np[i] == MirroredX(used)[i]
    {
      for x := 0 to 16
        invariant k == y * 16 + x
        invariant forall i :: 0 <= i < k ==> np[i] == MirroredX(used)[i]
      {
        Cell(y, x);
        np[k] := used[y * 16 + 15 - x];
        k := k + 1;
      }
    }
  }

  /** Fills a new array row by row with the rows taken bottom up. */
  method MirrorPatternY(used: seq<byte>) returns (np: array<byte>)
    requires |used| == 256
    ensures np.Length == 256 && np[..] == MirroredY(used)
  {
    np := new byte[256];
    var k := 0;
    for y := 0 to 16
      invariant k == y * 16
      invariant forall i :: 0 <= i < k ==> np[i] == MirroredY(used)[i]
    {
      for x := 0 to 16
        invariant k == y * 16 + x
        invariant forall i :: 0 <= i < k ==> np[i] == MirroredY(used)[i]
      {
        Cell(y, x);
        np[k] := used[(15 - y) * 16 + x];
        k := k + 1;
      }
    }
  }

  /** The pixels of `s` drawn from `pattern`, each enabled transform applied in turn. */
  method CreateImageFromPattern(s: SpriteData, pattern: seq<byte>) returns (usedPattern: seq<byte>)
    requires |pattern| == 256 && (s.n6.Some? ==> s.n6.value <= 1)
    ensures usedPattern == SpritePixels(s, pattern)
  {
    usedPattern := pattern;
    if s.n6.Some? {
      var np := UnpackPattern(pattern, s.n6.value);
      usedPattern := np[..];
    }
    if s.rotated != 0 {
      var np := RotatePattern(usedPattern);
      usedPattern := np[..];
    }
    if s.xMirrored != 0 {
      var np := MirrorPatternX(usedPattern);
      usedPattern := np[..];
    }
    if s.yMirrored != 0 {
      var np := MirrorPatternY(usedPattern);
      usedPattern := np[..];
    }
  }

  // ---------------------------------------------------------------------------
  // Properties of the pattern transforms
  // ---------------------------------------------------------------------------

  /** Each pair of unpacked pixels packs back into the source byte: high nibble first. */
  lemma UnpackedPairs(pattern: seq<byte>, n6: nat, i: nat)
    requires |pattern| == 256 && n6 <= 1 && i < 128
    ensures Unpacked(pattern, n6)[2 * i] == pattern[i + 128 * n6] >> 4
    ensures Unpacked(pattern, n6)[2 * i + 1] == pattern[i + 128 * n6] & 0x0F
    ensures (Unpacked(pattern, n6)[2 * i] << 4) | Unpacked(pattern, n6)[2 * i + 1] == pattern[i + 128 * n6]
  {
    var b := pattern[i + 128 * n6];
    assert (2 * i) / 2 == i && (2 * i + 1) / 2 == i;
    assert ((b >> 4) << 4) | (b & 0x0F) == b;
  }

  /** The index `Rotated` reads for output pixel `i`. */
  function RotationSource(i: int): int {
    (15 - i % 16) * 16 + i / 16
  }

  /** Rotation takes the pixel at column `x` of row `y` from column `y` of row `15 - x`. */
  lemma {:induction false} RotationSourceCell(y: int, x: int)
    requires 0 <= y < 16 && 0 <= x < 16
    ensures RotationSource(y * 16 + x) == (15 - x) * 16 + y
  {
    Cell(y, x);
  }

  /** Turning four times by 90 degrees leaves each pixel in place. */
  lemma {:induction false} RotationSourceFourTimes(i: int)
    requires 0 <= i < 256
    ensures 0 <= RotationSource(i) < 256
    ensures 0 <= RotationSource(RotationSource(i)) < 256
    ensures 0 <= RotationSource(RotationSource(RotationSource(i))) < 256
    ensures RotationSource(RotationSource(RotationSource(RotationSource(i)))) == i
  {
    var y, x := i / 16, i % 16;
    assert i == y * 16 + x;
    RotationSourceCell(y, x);
    RotationSourceCell(15 - x, y);
    RotationSourceCell(15 - y, 15 - x);
    RotationSourceCell(x, 15 - y);
  }

  /** Where rotation moves pixel `k`: (y, x) goes to (x, 15 - y). */
  function RotationTarget(k: int): int {
    k % 16 * 16 + 15 - k / 16
  }

  /**
   * Rotation moves pixels without merging or losing any: the index it reads and
   * the index it writes are inverse maps on 0..255.
   */
  lemma {:induction false} RotationBijective(i: int)
    requires 0 <= i < 256
    ensures 0 <= RotationSource(i) < 256 && 0 <= RotationTarget(i) < 256
    ensures RotationTarget(RotationSource(i)) == i
    ensures RotationSource(RotationTarget(i)) == i
  {
    var y, x := i / 16, i % 16;
    assert i == y * 16 + x;
    Cell(15 - x, y);
    Cell(x, 15 - y);
  }

  /** Rotating a pattern four times gives it back. */
  lemma RotatedFourTimes<T>(p: seq<T>)
    requires |p| == 256
    ensures Rotated(Rotated(Rotated(Rotated(p)))) == p
  {
    var r1 := Rotated(p);
    var r2 := Rotated(r1);
    var r3 := Rotated(r2);
    var r4 := Rotated(r3);
    forall i | 0 <= i < 256
      ensures r4[i] == p[i]
    {
      RotationSourceFourTimes(i);
      var i1 := RotationSource(i);
      var i2 := RotationSource(i1);
      var i3 := RotationSource(i2);
      assert r4[i] == r3[i1] == r2[i2] == r1[i3] == p[RotationSource(i3)];
    }
  }

  /** Mirroring along X twice gives the pattern back. */
  lemma MirroredXInvolution<T>(p: seq<T>)
    requires |p| == 256
    ensures MirroredX(MirroredX(p)) == p
  {
    forall i | 0 <= i < 256
      ensures MirroredX(MirroredX(p))[i] == p[i]
    {
      var y, x := i / 16, i % 16;
      Cell(y, 15 - x);
    }
  }

  /** Mirroring along Y twice gives the pattern back. */
  lemma MirroredYInvolution<T>(p: seq<T>)
    requires |p| == 256
    ensures MirroredY(MirroredY(p)) == p
  {
    forall i | 0 <= i < 256
      ensures MirroredY(MirroredY(p))[i] == p[i]
    {
      var y, x := i / 16, i % 16;
      Cell(15 - y, x);
    }
  }

  /** Mirroring along both axes is the same as turning by 180 degrees. */
  lemma BothMirrorsHalfTurn<T>(p: seq<T>)
    requires |p| == 256
    ensures MirroredY(MirroredX(p)) == Rotated(Rotated(p))
  {
    forall i | 0 <= i < 256
      ensures MirroredY(MirroredX(p))[i] == Rotated(Rotated(p))[i]
    {
      var y, x := i / 16, i % 16;
      Cell(15 - y, x);
      Cell(15 - x, y);
    }
  }

  // ---------------------------------------------------------------------------
  // Slot ranges
  // ---------------------------------------------------------------------------

  /** The sprite slots are numbered 0..63. */
  const LastSlot := 63

  /** Pairs of (start slot, count), each count positive, as the view's constructor demands. */
  predicate ValidRanges(slotRanges: seq<int>) {
    |slotRanges| % 2 == 0 && forall i :: 0 < i < |slotRanges| && i % 2 == 1 ==> slotRanges[i] > 0
  }

  /** The slots `start`, `start+1`, ... below `end`, cut off after slot 63. */
  function SlotRun(start: int, end: int): seq<int>
    decreases end - start
  {
    if start >= end || start > LastSlot then [] else [start] + SlotRun(start + 1, end)
  }

  /** The slots selected by the ranges, pair after pair. */
  function Slots(slotRanges: seq<int>): seq<int>
    requires |slotRanges| % 2 == 0
  {
    if slotRanges == [] then [] else SlotRun(slotRanges[0], slotRanges[0] + slotRanges[1]) + Slots(slotRanges[2..])
  }

  /** Consumes the (start, count) pairs and appends each range's slots in turn. */
  method ExpandSlotRanges(slotRanges: seq<int>) returns (slotIndices: seq<int>)
    requires ValidRanges(slotRanges)
    ensures slotIndices == Slots(slotRanges)
  {
    var ranges := slotRanges;
    slotIndices := [];
    while ranges != []
      invariant ValidRanges(ranges)
      invariant slotIndices + Slots(ranges) == Slots(slotRanges)
      decreases |ranges|
    {
      var start := ranges[0];
      var end := ranges[1];
      assert ranges[1] > 0;
      ghost var consumed := ranges;
      ranges := ranges[2..];
      assert Slots(consumed) == SlotRun(start, start + end) + Slots(ranges);
      assert ValidRanges(ranges) by {
        forall i | 0 < i < |ranges| && i % 2 == 1
          ensures ranges[i] > 0
        {
          assert ranges[i] == consumed[i + 2];
        }
      }
      end := end + start;
      var k := start;
      ghost var before := slotIndices;
      while k < end
        invariant slotIndices + SlotRun(k, end) == before + SlotRun(start, end)
        decreases end - k
      {
        if k > LastSlot {
          break;
        }
        slotIndices := slotIndices + [k];
        k := k + 1;
      }
      assert SlotRun(k, end) == [];
      assert slotIndices + SlotRun(k, end) == slotIndices;
      assert slotIndices + Slots(ranges) == before + (SlotRun(start, end) + Slots(ranges));
    }
  }

  /** A run holds the consecutive slots from `start` up to `end - 1`, or up to 63 if that comes first. */
  lemma {:induction false} SlotRunShape(start: int, end: int)
    ensures |SlotRun(start, end)| == if start >= end || start > LastSlot then 0
      else (if end <= LastSlot + 1 then end else LastSlot + 1) - start
    ensures forall i :: 0 <= i < |SlotRun(start, end)| ==> SlotRun(start, end)[i] == start + i
    decreases end - start
  {
    if start < end && start <= LastSlot {
      SlotRunShape(start + 1, end);
    }
  }

  /** No expanded slot lies beyond slot 63. */
  lemma {:induction false} SlotsBounded(slotRanges: seq<int>)
    requires |slotRanges| % 2 == 0
    ensures forall k :: k in Slots(slotRanges) ==> k <= LastSlot
    decreases |slotRanges|
  {
    if slotRanges != [] {
      var start, end := slotRanges[0], slotRanges[0] + slotRanges[1];
      SlotRunShape(start, end);
      SlotsBounded(slotRanges[2..]);
      forall k | k in SlotRun(start, end)
        ensures k <= LastSlot
      {
        var i :| 0 <= i < |SlotRun(start, end)| && SlotRun(start, end)[i] == k;
      }
    }
  }

  // ---------------------------------------------------------------------------
  // Palette offset
  // ---------------------------------------------------------------------------

  /**
   * The palette a sprite is drawn with: the palette itself for offset 0,
   * otherwise the palette rotated left by three entries per unit of offset
   * (slicing clamps an index beyond the end to the length).
   */
  function OffsetPalette<T>(palette: seq<T>, offs: nat): (usedPalette: seq<T>)
    ensures |usedPalette| == |palette|
    ensures offs == 0 || |palette| <= 3 * offs ==> usedPalette == palette
    ensures 0 < 3 * offs < |palette| ==> usedPalette[0] == palette[3 * offs]
  {
    if offs == 0 then palette
    else
      var index := if 3 * offs <= |palette| then 3 * offs else |palette|;
      palette[index..] + palette[..index]
  }

  lemma {:induction false} WrapAround(i: int, index: int, n: int)
    requires 0 <= i < n && 0 <= index <= n
    ensures (i + index) % n == if i + index < n then i + index else i + index - n
  {
    if i + index >= n {
      assert i + index == 1 * n + (i + index - n);
    }
  }

  /** The rotated palette holds the same entries as the palette. */
  lemma OffsetPalettePermutes<T>(palette: seq<T>, offs: nat)
    ensures |OffsetPalette(palette, offs)| == |palette|
    ensures multiset(OffsetPalette(palette, offs)) == multiset(palette)
    ensures offs == 0 ==> OffsetPalette(palette, offs) == palette
  {
    if offs != 0 {
      var index := if 3 * offs <= |palette| then 3 * offs else |palette|;
      assert palette == palette[..index] + palette[index..];
    }
  }

  /** Each entry of the rotated palette is the one `3*offs` places further on, wrapping around. */
  lemma OffsetPaletteRotates<T>(palette: seq<T>, offs: nat)
    requires 3 * offs <= |palette|
    ensures forall i :: 0 <= i < |palette| ==> OffsetPalette(palette, offs)[i] == palette[(i + 3 * offs) % |palette|]
  {
    var used := OffsetPalette(palette, offs);
    forall i | 0 <= i < |palette|
      ensures used[i] == palette[(i + 3 * offs) % |palette|]
    {
      WrapAround(i, 3 * offs, |palette|);
    }
  }

  // ---------------------------------------------------------------------------
  // Patterns to fetch
  // ---------------------------------------------------------------------------

  /** A slot whose sprite is present and visible. */
  predicate ShowsSprite(slot: Option<SpriteData>) {
    slot.Some? && slot.value.visible
  }

  /**
   * The pattern indices of the visible sprites, each kept once, in the order a
   * set remembers them: by first insertion.
   */
  function PatternIds(sprites: seq<Option<SpriteData>>): seq<nat>
  {
    if sprites == [] then []
    else
      var ids := PatternIds(sprites[..|sprites| - 1]);
      var last := sprites[|sprites| - 1];
      if ShowsSprite(last) && last.value.patternIndex !in ids then ids + [last.value.patternIndex] else ids
  }

  /** Collects the pattern index of each visible sprite into an insertion-ordered set. */
  method CollectPatternIds(sprites: seq<Option<SpriteData>>) returns (patternIds: seq<nat>)
    ensures patternIds == PatternIds(sprites)
  {
    patternIds := [];
    for k := 0 to |sprites|
      invariant patternIds == PatternIds(sprites[..k])
    {
      assert sprites[..k + 1][..k] == sprites[..k];
      var sprite := sprites[k];
      if sprite.Some? && sprite.value.visible {
        var index := sprite.value.patternIndex;
        if index !in patternIds {
          patternIds := patternIds + [index];
        }
      }
    }
    assert sprites[..|sprites|] == sprites;
  }

  /** The pattern list has no duplicates and holds exactly the pattern indices of the visible sprites. */
  lemma {:induction false} PatternIdsExact(sprites: seq<Option<SpriteData>>)
    ensures forall i, j :: 0 <= i < j < |PatternIds(sprites)| ==> PatternIds(sprites)[i] != PatternIds(sprites)[j]
    ensures forall index :: index in PatternIds(sprites) <==>
      exists k :: 0 <= k < |sprites| && ShowsSprite(sprites[k]) && sprites[k].value.patternIndex == index
  {
    if sprites != [] {
      var init := sprites[..|sprites| - 1];
      PatternIdsExact(init);
      forall index
        ensures index in PatternIds(sprites) <==>
          exists k :: 0 <= k < |sprites| && ShowsSprite(sprites[k]) && sprites[k].value.patternIndex == index
      {
        if index in PatternIds(init) {
          var k :| 0 <= k < |init| && ShowsSprite(init[k]) && init[k].value.patternIndex == index;
          assert sprites[k] == init[k];
        }
        if exists k :: 0 <= k < |sprites| && ShowsSprite(sprites[k]) && sprites[k].value.patternIndex == index {
          var k :| 0 <= k < |sprites| && ShowsSprite(sprites[k]) && sprites[k].value.patternIndex == index;
          if k < |init| {
            assert init[k] == sprites[k];
          }
        }
      }
    }
  }

  // ---------------------------------------------------------------------------
  // Table cell
  // ---------------------------------------------------------------------------

  /** The text shown for a value: its decimal form, or `-` when it is undefined. */
  function CellText(value: Option<int>): (text: string)
    ensures |text| >= 1 && text[0] != '<'
  {
    if value.None? then "-" else IntText(value.value)
  }

  /** ` <td>`, the inside, `</td>` and a newline. */
  function TableCell(inner: string): string {
    " <td>" + inner + "</td>\n"
  }

  function BoldText(text: string): string {
    "<b>" + text + "</b>"
  }

  /** A table cell showing `currentValue`, in bold when it differs from `prevValue`. */
  function TableTdWithBold(currentValue: Option<int>, prevValue: Option<int>): (td: string)
    ensures IsBold(td) <==> currentValue != prevValue
    ensures ShownText(td) == CellText(currentValue)
  {
    var conv := CellText(currentValue);
    CellBodyOf(conv);
    CellBodyOf(BoldText(conv));
    BoldTextOf(conv);
    TableCell(if currentValue == prevValue then conv else BoldText(conv))
  }

  /** The inside of a table cell, between ` <td>` and `</td>` and a newline. */
  function CellBody(td: string): string {
    if |td| >= 11 && td[..5] == " <td>" && td[|td| - 6..] == "</td>\n" then td[5..|td| - 6] else ""
  }

  /** Cell content that opens with `<b>` and closes with `</b>`. */
  predicate IsBoldBody(body: string) {
    |body| >= 7 && body[..3] == "<b>" && body[|body| - 4..] == "</b>"
  }

  /** A cell whose content is in bold. */
  predicate IsBold(td: string) {
    IsBoldBody(CellBody(td))
  }

  /** The text a cell shows, with any bold markup removed. */
  function ShownText(td: string): string {
    var body := CellBody(td);
    if IsBoldBody(body) then body[3..|body| - 4] else body
  }

  lemma {:induction false} CellBodyOf(inner: string)
    requires |inner| >= 1
    ensures CellBody(TableCell(inner)) == inner
  {
    var td := TableCell(inner);
    assert td[..5] == " <td>";
    assert td[|td| - 6..] == "</td>\n";
    assert td[5..|td| - 6] == inner;
  }

  lemma {:induction false} BoldTextOf(text: string)
    requires |text| >= 1 && text[0] != '<'
    ensures IsBoldBody(BoldText(text)) && !IsBoldBody(text)
    ensures BoldText(text)[3..|BoldText(text)| - 4] == text
  {
    var b := BoldText(text);
    assert b[..3] == "<b>";
    assert b[|b| - 4..] == "</b>";
    if |text| >= 3 {
      assert text[..3][0] == text[0];
    }
  }
}
