/** `ColorRGB` of Rendering.h: a colour as three channels, unpacked from a
    packed `0xAARRGGBB`/`0xRRGGBB` integer and packed back by `toRGB`. */
module Colors {
  import opened Machine

  datatype ColorRGB = ColorRGB(r: real, g: real, b: real)

  /** `(color >> shift) & 0xFF` for the shifts 16, 8 and 0; on a non-negative
      integer a right shift by `k` is division by `2^k` and the mask keeps the
      remainder modulo 256. */
  function Channel(color: uint32, shift: nat): (byte: nat)
    requires shift == 0 || shift == 8 || shift == 16
    ensures byte < 0x100
  {
    if shift == 16 then color / 0x1_0000 % 0x100
    else if shift == 8 then color / 0x100 % 0x100
    else color % 0x100
  }

  /** Every channel lies in the unit interval. */
  predicate InUnit(c: ColorRGB) {
    0.0 <= c.r <= 1.0 && 0.0 <= c.g <= 1.0 && 0.0 <= c.b <= 1.0
  }

  /** `ColorRGB(uint32_t color)`: bits 16-23, 8-15 and 0-7 become red, green
      and blue, each divided by 255; bits 24-31 are not read. */
  function FromPacked(color: uint32): (c: ColorRGB)
    ensures InUnit(c)
    ensures c.r * 255.0 == Channel(color, 16) as real
    ensures c.g * 255.0 == Channel(color, 8) as real
    ensures c.b * 255.0 == Channel(color, 0) as real
  {
    ColorRGB(Channel(color, 16) as real / 255.0,
             Channel(color, 8) as real / 255.0,
             Channel(color, 0) as real / 255.0)
  }

  /** `(int)(x * 255)`: truncation toward zero, which is the floor for the
      non-negative values a unit channel gives. */
  function Quantise(x: real): (q: nat)
    requires 0.0 <= x <= 1.0
    ensures q < 0x100
    ensures q as real <= x * 255.0 < q as real + 1.0
  {
    (x * 255.0).Floor
  }

  /** `toRGB()`: `q(r) << 16 | q(g) << 8 | q(b)`. With unit channels each
      quantised channel is below 256, the three shifted fields occupy
      disjoint bits, and the bitwise or is their sum. Channels outside the
      unit interval are not modelled. */
  function ToRGB(c: ColorRGB): (packed: uint32)
    requires InUnit(c)
    ensures packed < 0x100_0000
    ensures FromPacked(packed) == c <==>
              c.r * 255.0 == Quantise(c.r) as real &&
              c.g * 255.0 == Quantise(c.g) as real &&
              c.b * 255.0 == Quantise(c.b) as real
  {
    var packed := Quantise(c.r) * 0x1_0000 + Quantise(c.g) * 0x100 + Quantise(c.b);
    ChannelsOfSum(Quantise(c.r), Quantise(c.g), Quantise(c.b));
    packed
  }

  /** Packing three bytes and unpacking them again gives the same bytes. */
  lemma ChannelsOfSum(hi: nat, mid: nat, lo: nat)
    requires hi < 0x100 && mid < 0x100 && lo < 0x100
    ensures var p := hi * 0x1_0000 + mid * 0x100 + lo;
            p < 0x100_0000 &&
            Channel(p, 16) == hi && Channel(p, 8) == mid && Channel(p, 0) == lo
  {
    var p := hi * 0x1_0000 + mid * 0x100 + lo;
    assert p / 0x1_0000 == hi;
    assert p / 0x100 == hi * 0x100 + mid;
    assert (hi * 0x100 + mid) % 0x100 == mid;
  }

  /** `operator==` on colours: all three channels equal. */
  function SameColor(a: ColorRGB, b: ColorRGB): (r: bool)
    ensures r <==> a == b
  {
    a.r == b.r && a.g == b.g && a.b == b.b
  }

  /** Unpacking and repacking a colour keeps its low 24 bits and clears the
      top byte. */
  lemma {:induction false} PackedRoundTrip(color: uint32)
    ensures ToRGB(FromPacked(color)) == color % 0x100_0000
  {
    var c := FromPacked(color);
    assert Quantise(c.r) == Channel(color, 16);
    assert Quantise(c.g) == Channel(color, 8);
    assert Quantise(c.b) == Channel(color, 0);
    LowBytes(color);
  }

  /** The three channel bytes are the digits, base 256, of the low 24 bits. */
  lemma LowBytes(color: uint32)
    ensures Channel(color, 16) * 0x1_0000 + Channel(color, 8) * 0x100 + Channel(color, 0)
            == color % 0x100_0000
  {
    var low := color % 0x100_0000;
    ChannelsOfLow(color);
    var rest := low % 0x1_0000;
    assert low == low / 0x1_0000 * 0x1_0000 + rest;
    assert low / 0x100 == low / 0x1_0000 * 0x100 + rest / 0x100;
    assert rest == rest / 0x100 * 0x100 + rest % 0x100;
  }

  /** Each channel is read from the low 24 bits alone. */
  lemma ChannelsOfLow(color: uint32)
    ensures var low := color % 0x100_0000;
            Channel(color, 16) == low / 0x1_0000 &&
            Channel(color, 8) == low / 0x100 % 0x100 &&
            Channel(color, 0) == low % 0x100
  {
    var q, low := color / 0x100_0000, color % 0x100_0000;
    HighOfShifted(q, low);
    MidOfShifted(q, low);
    LowOfShifted(q, low);
  }

  /** The red byte of `q · 2^24 + low` is read from `low` alone. */
  lemma HighOfShifted(q: nat, low: nat)
    requires low < 0x100_0000
    ensures (q * 0x100_0000 + low) / 0x1_0000 % 0x100 == low / 0x1_0000
  {
    var x := q * 0x100 + low / 0x1_0000;
    QuotientBy65536(q * 0x100_0000 + low, x, low % 0x1_0000);
    QuotientBy256(x, q, low / 0x1_0000);
  }

  /** The green byte of `q · 2^24 + low` is read from `low` alone. */
  lemma MidOfShifted(q: nat, low: nat)
    requires low < 0x100_0000
    ensures (q * 0x100_0000 + low) / 0x100 % 0x100 == low / 0x100 % 0x100
  {
    var mid := low / 0x100;
    var x := q * 0x1_0000 + mid;
    QuotientBy256(q * 0x100_0000 + low, x, low % 0x100);
    QuotientBy256(x, q * 0x100 + mid / 0x100, mid % 0x100);
  }

  /** A quotient and remainder by 256, recognised from their defining sum. */
  lemma QuotientBy256(a: int, x: int, r: int)
    requires 0 <= r < 0x100 && a == 0x100 * x + r
    ensures a / 0x100 == x && a % 0x100 == r
  {
  }

  /** A quotient and remainder by 65536, recognised from their defining sum. */
  lemma QuotientBy65536(a: int, x: int, r: int)
    requires 0 <= r < 0x1_0000 && a == 0x1_0000 * x + r
    ensures a / 0x1_0000 == x && a % 0x1_0000 == r
  {
  }

  /** The blue byte of `q · 2^24 + low` is read from `low` alone. */
  lemma LowOfShifted(q: nat, low: nat)
    requires low < 0x100_0000
    ensures (q * 0x100_0000 + low) % 0x100 == low % 0x100
  {
  }

  /** Bits 24-31 are ignored: colours that agree on their low 24 bits unpack
      to the same channels. */
  lemma {:induction false} AlphaIgnored(c1: uint32, c2: uint32)
    requires c1 % 0x100_0000 == c2 % 0x100_0000
    ensures FromPacked(c1) == FromPacked(c2)
  {
    ChannelsOfLow(c1);
    ChannelsOfLow(c2);
  }

  /** The second planet's colour `0xFFFF0000` is plain red. */
  lemma OpaqueRedIsRed()
    ensures FromPacked(0xFFFF_0000) == FromPacked(0x00FF_0000) == ColorRGB(1.0, 0.0, 0.0)
  {
    AlphaIgnored(0xFFFF_0000, 0x00FF_0000);
  }
}
