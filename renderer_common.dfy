/**
 * `RendererCommon::pack`: an RGBA colour of floats packed into one 32-bit word.
 * Each channel is scaled by 255 and truncated toward zero (`static_cast<uint32_t>`), shifted
 * into its byte and combined with OR.  Channels are not clamped.
 */
module RendererCommon {

  datatype Rgba = Rgba(r: real, g: real, b: real, a: real)

  /** c·255 converts to `uint32_t` exactly when it lies in (-1, 2^32); outside that the cast is undefined. */
  predicate Convertible(c: real)
  {
    -1.0 < c * 255.0 < 4294967296.0
  }

  /** A colour whose four channels can be packed. */
  type Colour = t: Rgba | Convertible(t.r) && Convertible(t.g) && Convertible(t.b) && Convertible(t.a)
    witness Rgba(0.0, 0.0, 0.0, 0.0)

  const White: Colour := Rgba(1.0, 1.0, 1.0, 1.0)

  /** `static_cast<uint32_t>(c * 255.f)`: truncation toward zero. */
  function Quantise(c: real): (q: nat)
    requires Convertible(c)
    ensures q < 0x1_0000_0000
    ensures c * 255.0 >= 0.0 ==> q as real <= c * 255.0 < q as real + 1.0
    ensures c * 255.0 < 0.0 ==> q == 0
  {
    if c * 255.0 < 0.0 then 0 else (c * 255.0).Floor
  }

  /** A quantised channel as the 32-bit word the cast produces. */
  function Channel(c: real): bv32
    requires Convertible(c)
  {
    Quantise(c) as bv32
  }

  /** Byte k (bits 8k .. 8k+7) of a packed word. */
  function ByteOf(p: bv32, k: nat): bv32
    requires k < 4
  {
    (if k == 0 then p else if k == 1 then p >> 8 else if k == 2 then p >> 16 else p >> 24) & 0xFF
  }

  /** The shifts and ORs of `pack` on four already-quantised channels. */
  function PackWords(r: bv32, g: bv32, b: bv32, a: bv32): (p: bv32)
    ensures r < 256 && g < 256 && b < 256 && a < 256 ==>
      ByteOf(p, 0) == r && ByteOf(p, 1) == g && ByteOf(p, 2) == b && ByteOf(p, 3) == a
    ensures ByteOf(p, 0) == r & 0xFF
  {
    (r << 0) | (g << 8) | (b << 16) | (a << 24)
  }

  /** All four quantised channels fit in a byte (no channel bleeds into its neighbour). */
  predicate FitsBytes(t: Colour)
  {
    Channel(t.r) < 256 && Channel(t.g) < 256 && Channel(t.b) < 256 && Channel(t.a) < 256
  }

  /**
   * `pack(tint)`: red in bits 0-7, green 8-15, blue 16-23, alpha 24-31, combined with OR.
   * When every channel fits a byte, each byte reads back its channel; the lowest byte is
   * always the low byte of red.
   */
  function Pack(t: Colour): (p: bv32)
    ensures FitsBytes(t) ==>
      ByteOf(p, 0) == Channel(t.r) && ByteOf(p, 1) == Channel(t.g) &&
      ByteOf(p, 2) == Channel(t.b) && ByteOf(p, 3) == Channel(t.a)
    ensures ByteOf(p, 0) == Channel(t.r) & 0xFF
  {
    PackWords(Channel(t.r), Channel(t.g), Channel(t.b), Channel(t.a))
  }

  /** Opaque white packs to 0xFFFFFFFF and all-zero packs to 0. */
  lemma {:induction false} PackExtremes()
    ensures Pack(White) == 0xFFFF_FFFF
    ensures Pack(Rgba(0.0, 0.0, 0.0, 0.0)) == 0
  {
    QuantiseExact(255);
    QuantiseExact(0);
  }

  /** Scaling n/255 by 255 and truncating gives n back. */
  lemma {:induction false} QuantiseExact(n: nat)
    requires n < 0x1_0000_0000
    ensures Convertible(n as real / 255.0) && Quantise(n as real / 255.0) == n
  {
    assert (n as real / 255.0) * 255.0 == n as real;
  }

  /**
   * Without clamping, a red value whose quantised form exceeds 255 bleeds into the green
   * byte: red = 256/255 with every other channel 0 packs to 0x100, whose green byte is 1.
   */
  lemma {:induction false} RedBleedsIntoGreen()
    ensures Convertible(256.0 / 255.0)
    ensures Pack(Rgba(256.0 / 255.0, 0.0, 0.0, 0.0)) == 0x100
    ensures ByteOf(Pack(Rgba(256.0 / 255.0, 0.0, 0.0, 0.0)), 1) == 1
  {
    QuantiseExact(256);
    QuantiseExact(0);
  }
}
