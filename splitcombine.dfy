/**
 * What happens when the splitter's four output images are loaded, channel for
 * channel, into the combiner at the source's size.
 */
module SplitCombine {
  import opened Wrappers
  import opened Pixels
  import opened ChannelSplitter
  import opened ChannelCombiner

  /** The combiner's slots after loading each channel's split image into its own slot. */
  function SplitSlots(src: seq<Byte>, w: nat, h: nat, grayscale: bool): (slots: Slots)
    requires IsRaster(w, h, src)
    ensures Fits(slots, w * h * 4)
    ensures forall c :: WellFormed(slots.Get(c))
  {
    assert |src| % 4 == 0;
    PerChannel(Slot(Some(Extract(src, Red, grayscale)), w, h), Slot(Some(Extract(src, Green, grayscale)), w, h),
               Slot(Some(Extract(src, Blue, grayscale)), w, h), Slot(Some(Extract(src, Alpha, grayscale)), w, h))
  }

  /** The four split images pass the combiner's size check, with the source's size. */
  lemma SplitSlotsValid(src: seq<Byte>, w: nat, h: nat, grayscale: bool)
    requires IsRaster(w, h, src)
    ensures ValidateDimensions(SplitSlots(src, w, h, grayscale).Items()) == Validation(true, Some((w, h)))
  {
    var items := SplitSlots(src, w, h, grayscale).Items();
    assert items[0].pixels.Some?;
    assert SomeLoaded(items);
  }

  /**
   * Grayscale split followed by combine gives the source back byte for byte,
   * whatever the fill levels: each gray image's intensity is the channel's
   * original byte.
   */
  lemma GrayscaleRoundTrip(src: seq<Byte>, w: nat, h: nat, defaults: PerChannel<Byte>)
    requires IsRaster(w, h, src)
    ensures (w * h * 4) % 4 == 0
    ensures Combined(SplitSlots(src, w, h, true), defaults, w * h * 4) == src
  {
    var n := w * h * 4;
    assert |src| == n && n % 4 == 0;
    var slots := SplitSlots(src, w, h, true);
    forall q, c | 0 <= q < n / 4
      ensures src[4 * q + Offset(c)] == OutputByte(slots, defaults, n, q, c)
    {
      ExtractByteAt(src, c, true, q, 0);
      ExtractByteAt(src, c, true, q, 1);
      ExtractByteAt(src, c, true, q, 2);
    }
    FromOutputBytes(src, slots, defaults, n);
  }

  /** The combiner's intensity of a colour-split image: the kept byte for red, green or blue, 0 for alpha. */
  lemma ColourIntensity(src: seq<Byte>, c: Channel, q: nat)
    requires |src| % 4 == 0 && 4 * q + 4 <= |src|
    ensures ChannelIntensity(Extract(src, c, false), 4 * q) == if c == Alpha then 0 else src[4 * q + Offset(c)]
  {
    ExtractByteAt(src, c, false, q, 0);
    ExtractByteAt(src, c, false, q, 1);
    ExtractByteAt(src, c, false, q, 2);
  }

  /**
   * Colour split followed by combine restores red, green and blue but not
   * alpha: the alpha image's colour bytes are all 0, so the combined alpha is
   * 0 whatever the source alpha was.
   */
  lemma ColourRoundTrip(src: seq<Byte>, w: nat, h: nat, defaults: PerChannel<Byte>, q: nat)
    requires IsRaster(w, h, src) && 4 * q + 4 <= |src|
    ensures (w * h * 4) % 4 == 0
    ensures PixelAt(Combined(SplitSlots(src, w, h, false), defaults, w * h * 4), q) ==
      [src[4 * q], src[4 * q + 1], src[4 * q + 2], 0]
  {
    var n := w * h * 4;
    assert |src| == n && n % 4 == 0;
    var slots := SplitSlots(src, w, h, false);
    CombinedAt(slots, defaults, n, q, Red);
    CombinedAt(slots, defaults, n, q, Green);
    CombinedAt(slots, defaults, n, q, Blue);
    CombinedAt(slots, defaults, n, q, Alpha);
    ColourIntensity(src, Red, q);
    ColourIntensity(src, Green, q);
    ColourIntensity(src, Blue, q);
    ColourIntensity(src, Alpha, q);
  }

  /** The one-pixel case: opaque `(12, 34, 56, 255)` comes back as `(12, 34, 56, 0)` in colour mode. */
  lemma ColourRoundTripExample(defaults: PerChannel<Byte>)
    ensures Combined(SplitSlots([12, 34, 56, 255], 1, 1, false), defaults, 4) == [12, 34, 56, 0]
    ensures Combined(SplitSlots([12, 34, 56, 255], 1, 1, true), defaults, 4) == [12, 34, 56, 255]
  {
    var out := Combined(SplitSlots([12, 34, 56, 255], 1, 1, false), defaults, 4);
    ColourRoundTrip([12, 34, 56, 255], 1, 1, defaults, 0);
    assert out == PixelAt(out, 0);
    GrayscaleRoundTrip([12, 34, 56, 255], 1, 1, defaults);
  }
}
