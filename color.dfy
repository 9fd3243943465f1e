// Colour packing of the engine: the RGBA macros of include-xpl/xpl_color.h.
// A packed colour is a 32-bit word whose bytes, from least to most
// significant, are the red, green, blue and alpha channels.

module Color {

  /** Byte `k` (0 = least significant) of a packed colour: `(x >> 8k) & 0xff`. */
  function Channel(x: bv32, k: nat): (c: bv32)
    requires k < 4
    ensures c < 256
  {
    if k == 0 then x & 0xff
    else if k == 1 then (x >> 8) & 0xff
    else if k == 2 then (x >> 16) & 0xff
    else (x >> 24) & 0xff
  }

  /** RGBA(r, g, b, a): only the low 8 bits of each argument are kept. */
  function Rgba(r: bv32, g: bv32, b: bv32, a: bv32): (x: bv32)
    ensures Channel(x, 0) == r & 0xff && Channel(x, 1) == g & 0xff
    ensures Channel(x, 2) == b & 0xff && Channel(x, 3) == a & 0xff
  {
    (r & 0xff) | ((g & 0xff) << 8) | ((b & 0xff) << 16) | ((a & 0xff) << 24)
  }

  /** Splitting a word into its four channels and packing them again gives it back. */
  lemma RepackIdentity(x: bv32)
    ensures Rgba(Channel(x, 0), Channel(x, 1), Channel(x, 2), Channel(x, 3)) == x
  {
  }

  /** Two packed colours are equal exactly when their four channels are. */
  lemma RgbaInjective(r: bv32, g: bv32, b: bv32, a: bv32, r': bv32, g': bv32, b': bv32, a': bv32)
    ensures Rgba(r, g, b, a) == Rgba(r', g', b', a') <==>
      (r & 0xff == r' & 0xff && g & 0xff == g' & 0xff && b & 0xff == b' & 0xff && a & 0xff == a' & 0xff)
  {
    var x, y := Rgba(r, g, b, a), Rgba(r', g', b', a');
    if x == y {
      assert Channel(x, 0) == Channel(y, 0) && Channel(x, 1) == Channel(y, 1);
      assert Channel(x, 2) == Channel(y, 2) && Channel(x, 3) == Channel(y, 3);
    }
  }

  /** A colour with components in [0, 1], the RGBA_V form. */
  datatype ColorF = ColorF(r: real, g: real, b: real, a: real)

  /** RGBA_F(x): the channels of `x` in r, g, b, a order, each divided by 255. */
  function RgbaF(x: bv32): (v: ColorF)
    ensures v.r == (Channel(x, 0) as int) as real / 255.0
    ensures v.g == (Channel(x, 1) as int) as real / 255.0
    ensures v.b == (Channel(x, 2) as int) as real / 255.0
    ensures v.a == (Channel(x, 3) as int) as real / 255.0
    ensures 0.0 <= v.r <= 1.0 && 0.0 <= v.g <= 1.0 && 0.0 <= v.b <= 1.0 && 0.0 <= v.a <= 1.0
  {
    ColorF((Channel(x, 0) as int) as real / 255.0, (Channel(x, 1) as int) as real / 255.0,
           (Channel(x, 2) as int) as real / 255.0, (Channel(x, 3) as int) as real / 255.0)
  }
}
