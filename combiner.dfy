/**
 * The channel combiner: builds one RGBA texture from up to four separately
 * loaded channel images, using a fixed fill level for each channel that has
 * no image.
 */
module ChannelCombiner {
  import opened Wrappers
  import opened Pixels

  /** One channel's input (`ChannelData`): the decoded bytes, if loaded, and the image's size. */
  datatype Slot = Slot(pixels: Option<seq<Byte>>, w: nat, h: nat)

  /** The record a slot is reset to: no image, size 0 by 0. */
  const EmptySlot := Slot(None, 0, 0)

  /** A loaded slot's buffer has the size its dimensions say. */
  predicate WellFormed(s: Slot)
  {
    s.pixels.Some? ==> IsRaster(s.w, s.h, s.pixels.value)
  }

  /** The fill levels the combiner offers for a channel without an image: black, gray, white. */
  predicate IsFillLevel(v: Byte)
  {
    v == 0 || v == 128 || v == 255
  }

  function Max(x: int, y: int): (m: int)
    ensures m >= x && m >= y && (m == x || m == y)
  {
    if x >= y then x else y
  }

  /**
   * `getChannelIntensity`: the brightness a channel image contributes at
   * byte `index`; a gray pixel gives its common value, any other pixel the
   * largest of its red, green and blue bytes. Either way it is that maximum.
   */
  function ChannelIntensity(pixels: seq<Byte>, index: nat): (v: Byte)
    requires index + 2 < |pixels|
    ensures v == Max(Max(pixels[index], pixels[index + 1]), pixels[index + 2])
  {
    var r, g, b := pixels[index], pixels[index + 1], pixels[index + 2];
    if r == g && g == b then r else Max(Max(r, g), b)
  }

  /** The intensity is one of the pixel's colour bytes, none of them exceeds it, and alpha is never read. */
  lemma IntensityProperties(pixels: seq<Byte>, other: seq<Byte>, index: nat)
    requires index + 2 < |pixels| && index + 2 < |other|
    ensures var v := ChannelIntensity(pixels, index);
      (v == pixels[index] || v == pixels[index + 1] || v == pixels[index + 2]) &&
      pixels[index] <= v && pixels[index + 1] <= v && pixels[index + 2] <= v
    ensures pixels[index..index + 3] == other[index..index + 3] ==>
      ChannelIntensity(pixels, index) == ChannelIntensity(other, index)
  {
    if pixels[index..index + 3] == other[index..index + 3] {
      assert pixels[index + 1] == pixels[index..index + 3][1] == other[index + 1];
      assert pixels[index + 2] == pixels[index..index + 3][2] == other[index + 2];
    }
  }

  /** A gray slot pixel `(10, 10, 10, 255)` reads as 10; a coloured `(10, 20, 30, 255)` as 30. */
  lemma IntensityExamples()
    ensures ChannelIntensity([10, 10, 10, 255], 0) == 10
    ensures ChannelIntensity([10, 20, 30, 255], 0) == 30
  {
  }

  /** The slots that hold an image, in slot order (`filter(ch => ch.pixels !== null)`). */
  function Loaded(slots: seq<Slot>): (loaded: seq<Slot>)
    ensures |loaded| <= |slots|
    ensures forall s :: s in loaded <==> s in slots && s.pixels.Some?
  {
    if slots == [] then []
    else (if slots[0].pixels.Some? then [slots[0]] else []) + Loaded(slots[1..])
  }

  predicate SomeLoaded(slots: seq<Slot>)
  {
    exists i :: 0 <= i < |slots| && slots[i].pixels.Some?
  }

  /** Every two loaded slots have the same width and the same height. */
  predicate SameDimensions(slots: seq<Slot>)
  {
    forall i, k :: 0 <= i < |slots| && 0 <= k < |slots| && slots[i].pixels.Some? && slots[k].pixels.Some? ==>
      slots[i].w == slots[k].w && slots[i].h == slots[k].h
  }

  /** The verdict of `validateDimensions`: valid or not, and the common size when valid. */
  datatype Validation = Validation(isValid: bool, dims: Option<(nat, nat)>)

  /**
   * `validateDimensions`: invalid with no loaded slot; otherwise valid exactly
   * when every loaded slot has the first loaded slot's size, which is then the
   * size returned.
   */
  function ValidateDimensions(slots: seq<Slot>): (v: Validation)
    ensures !SomeLoaded(slots) ==> v == Validation(false, None)
    ensures v.isValid <==> SomeLoaded(slots) && SameDimensions(slots)
    ensures v.isValid ==> v.dims.Some?
    ensures v.isValid ==>
      forall i :: 0 <= i < |slots| && slots[i].pixels.Some? ==> (slots[i].w, slots[i].h) == v.dims.value
    ensures !v.isValid ==> v.dims == None
  {
    var loadedChannels := Loaded(slots);
    if |loadedChannels| == 0 then
      assert forall i :: 0 <= i < |slots| ==> slots[i] in slots;
      Validation(false, None)
    else
      var firstDims := (loadedChannels[0].w, loadedChannels[0].h);
      var allSameDimensions := forall ch :: ch in loadedChannels ==> (ch.w, ch.h) == firstDims;
      assert loadedChannels[0] in slots;
      assert allSameDimensions <==> SameDimensions(slots) by {
        if allSameDimensions {
          forall i, k | 0 <= i < |slots| && 0 <= k < |slots| && slots[i].pixels.Some? && slots[k].pixels.Some?
            ensures slots[i].w == slots[k].w && slots[i].h == slots[k].h
          {
            assert slots[i] in loadedChannels && slots[k] in loadedChannels;
          }
        }
        if SameDimensions(slots) {
          forall ch | ch in loadedChannels
            ensures (ch.w, ch.h) == firstDims
          {
            var i :| 0 <= i < |slots| && slots[i] == ch;
            var k :| 0 <= k < |slots| && slots[k] == loadedChannels[0];
          }
        }
      }
      assert allSameDimensions ==> forall i :: 0 <= i < |slots| && slots[i].pixels.Some? ==> slots[i] in loadedChannels;
      Validation(allSameDimensions, if allSameDimensions then Some(firstDims) else None)
  }

  lemma LoadedNonEmpty(slots: seq<Slot>)
    ensures |Loaded(slots)| > 0 <==> SomeLoaded(slots)
  {
    var loaded := Loaded(slots);
    if SomeLoaded(slots) {
      var i :| 0 <= i < |slots| && slots[i].pixels.Some?;
      assert slots[i] in slots;
      assert slots[i] in loaded;
    }
  }

  /** `canCombine`: at least one slot holds an image; there are then between 1 and 4 loaded slots. */
  function CanCombine(slots: seq<Slot>): (can: bool)
    ensures can <==> SomeLoaded(slots)
    ensures can ==> 1 <= |Loaded(slots)| <= |slots|
  {
    LoadedNonEmpty(slots);
    |Loaded(slots)| > 0
  }

  /** The combiner's four inputs (`channels`). */
  type Slots = PerChannel<Slot>

  const NoSlots: Slots := PerChannel(EmptySlot, EmptySlot, EmptySlot, EmptySlot)

  predicate HasSize(s: Slot, n: nat)
  {
    s.pixels.Some? ==> |s.pixels.value| == n
  }

  /** Every loaded slot holds `n` bytes. */
  predicate Fits(slots: Slots, n: nat)
  {
    HasSize(slots.red, n) && HasSize(slots.green, n) && HasSize(slots.blue, n) && HasSize(slots.alpha, n)
  }

  /** Some slot of the record is loaded exactly when some item of `Items()` is. */
  lemma SomeLoadedItems(slots: Slots)
    ensures SomeLoaded(slots.Items()) <==> exists c :: slots.Get(c).pixels.Some?
  {
    var items := slots.Items();
    if SomeLoaded(items) {
      var i :| 0 <= i < 4 && items[i].pixels.Some?;
      assert items[Offset(ChannelAt(i))] == slots.Get(ChannelAt(i));
    }
  }

  /**
   * When every loaded item has size `w` by `h`, every loaded slot holds
   * `w * h * 4` bytes.
   */
  lemma SizesAgree(slots: Slots, w: nat, h: nat)
    requires forall c :: WellFormed(slots.Get(c))
    requires forall i :: 0 <= i < |slots.Items()| && slots.Items()[i].pixels.Some? ==>
      (slots.Items()[i].w, slots.Items()[i].h) == (w, h)
    ensures Fits(slots, w * h * 4)
  {
    var items := slots.Items();
    assert WellFormed(slots.Get(Red)) && WellFormed(slots.Get(Green)) && WellFormed(slots.Get(Blue)) && WellFormed(slots.Get(Alpha));
    assert items[0] == slots.red && items[1] == slots.green && items[2] == slots.blue && items[3] == slots.alpha;
  }

  /**
   * Output byte for channel `c` of pixel `q`: the intensity of `c`'s own slot
   * at that pixel when the slot is loaded, `c`'s fill level otherwise.
   */
  function OutputByte(slots: Slots, defaults: PerChannel<Byte>, n: nat, q: nat, c: Channel): Byte
    requires Fits(slots, n) && 4 * q + 4 <= n
  {
    match slots.Get(c).pixels
    case Some(pixels) => ChannelIntensity(pixels, 4 * q)
    case None => defaults.Get(c)
  }

  /** The combined buffer of `n` bytes, pixel by pixel in red, green, blue, alpha order. */
  function Combined(slots: Slots, defaults: PerChannel<Byte>, n: nat): (out: seq<Byte>)
    requires Fits(slots, n) && n % 4 == 0
    ensures |out| == n
  {
    seq(n, k requires 0 <= k < n => OutputByte(slots, defaults, n, k / 4, ChannelAt(k % 4)))
  }

  /**
   * Byte `Offset(c)` of combined pixel `q` comes from channel `c`'s own slot
   * at pixel `q`, or is `c`'s fill level; no other slot is read.
   */
  lemma CombinedAt(slots: Slots, defaults: PerChannel<Byte>, n: nat, q: nat, c: Channel)
    requires Fits(slots, n) && n % 4 == 0 && 4 * q + 4 <= n
    ensures Combined(slots, defaults, n)[4 * q + Offset(c)] ==
      match slots.Get(c).pixels
      case Some(pixels) => ChannelIntensity(pixels, 4 * q)
      case None => defaults.Get(c)
  {
    assert (4 * q + Offset(c)) / 4 == q && (4 * q + Offset(c)) % 4 == Offset(c);
  }

  /** A buffer that holds `OutputByte` at every position is the combined buffer. */
  lemma FromOutputBytes(out: seq<Byte>, slots: Slots, defaults: PerChannel<Byte>, n: nat)
    requires Fits(slots, n) && n % 4 == 0 && |out| == n
    requires forall q, c :: 0 <= q < n / 4 ==> out[4 * q + Offset(c)] == OutputByte(slots, defaults, n, q, c)
    ensures out == Combined(slots, defaults, n)
  {
    forall k | 0 <= k < n
      ensures out[k] == Combined(slots, defaults, n)[k]
    {
      var q, c := k / 4, ChannelAt(k % 4);
      assert k == 4 * q + Offset(c);
    }
  }

  /**
   * The output buffer of `combineChannels`: `w * h * 4` new bytes, each pixel
   * assembled from the four slots.
   */
  method AssemblePixels(slots: Slots, defaults: PerChannel<Byte>, w: nat, h: nat) returns (outputPixels: array<Byte>)
    requires Fits(slots, w * h * 4)
    ensures fresh(outputPixels)
    ensures (w * h * 4) % 4 == 0
    ensures outputPixels[..] == Combined(slots, defaults, w * h * 4)
  {
    outputPixels := new Byte[w * h * 4];
    FillPixels(outputPixels, slots, defaults);
  }

  /** The pixel loop of `combineChannels`, writing the combined bytes into `outputPixels`. */
  method FillPixels(outputPixels: array<Byte>, slots: Slots, defaults: PerChannel<Byte>)
    requires Fits(slots, outputPixels.Length) && outputPixels.Length % 4 == 0
    modifies outputPixels
    ensures outputPixels[..] == Combined(slots, defaults, outputPixels.Length)
  {
    ghost var n := outputPixels.Length;
    ghost var pixelCount := n / 4;
    var i := 0;
    ghost var p := 0;
    while i < outputPixels.Length
      invariant 0 <= p <= pixelCount && i == 4 * p
      invariant forall q, c :: 0 <= q < p ==> outputPixels[4 * q + Offset(c)] == OutputByte(slots, defaults, n, q, c)
    {
      var redValue := if slots.red.pixels.Some? then ChannelIntensity(slots.red.pixels.value, i) else defaults.red;
      var greenValue := if slots.green.pixels.Some? then ChannelIntensity(slots.green.pixels.value, i) else defaults.green;
      var blueValue := if slots.blue.pixels.Some? then ChannelIntensity(slots.blue.pixels.value, i) else defaults.blue;
      var alphaValue := if slots.alpha.pixels.Some? then ChannelIntensity(slots.alpha.pixels.value, i) else defaults.alpha;
      outputPixels[i] := redValue;
      outputPixels[i + 1] := greenValue;
      outputPixels[i + 2] := blueValue;
      outputPixels[i + 3] := alphaValue;
      i, p := i + 4, p + 1;
    }
    FromOutputBytes(outputPixels[..], slots, defaults, n);
  }

  const DimensionsError := "All loaded channels must have the same dimensions"

  /** The message shown when a channel image cannot be decoded. */
  function LoadError(c: Channel): string
  {
    "Failed to load " + ChannelName(c) + " channel image"
  }

  /** One combiner session (`TextureChannelCombiner`). */
  class Combiner {
    /** `channels`. */
    var slots: Slots
    /** `defaultValues`. */
    var defaults: PerChannel<Byte>
    /** `combinedTexture`. */
    var combined: Option<seq<Byte>>
    var processing: bool
    var error: Option<string>

    ghost predicate Valid()
      reads this
    {
      && (forall c :: WellFormed(slots.Get(c)))
      && (forall c :: IsFillLevel(defaults.Get(c)))
    }

    /** A fresh session: four empty slots, every fill level 255, no result, no error. */
    constructor ()
      ensures Valid()
      ensures slots == NoSlots && defaults == PerChannel(255, 255, 255, 255)
      ensures combined == None && !processing && error == None
    {
      slots := NoSlots;
      defaults := PerChannel(255, 255, 255, 255);
      combined := None;
      processing := false;
      error := None;
    }

    /** A channel image has been decoded: it replaces that slot alone, and the error is cleared. */
    method LoadChannel(c: Channel, pixels: seq<Byte>, w: nat, h: nat)
      requires Valid() && IsRaster(w, h, pixels)
      modifies this
      ensures Valid()
      ensures slots == old(slots).Set(c, Slot(Some(pixels), w, h))
      ensures error == None
      ensures defaults == old(defaults) && combined == old(combined) && processing == old(processing)
    {
      slots := slots.Set(c, Slot(Some(pixels), w, h));
      error := None;
    }

    /** A channel image could not be decoded: only the error changes. */
    method LoadFailed(c: Channel)
      modifies this`error
      ensures error == Some(LoadError(c))
    {
      error := Some(LoadError(c));
    }

    /** The fill-level selector of one channel. */
    method SetDefault(c: Channel, v: Byte)
      requires Valid() && IsFillLevel(v)
      modifies this`defaults
      ensures Valid()
      ensures defaults == old(defaults).Set(c, v)
    {
      defaults := defaults.Set(c, v);
    }

    /**
     * `combineChannels`: when validation fails the error is set and the
     * previous result stays; otherwise the result is replaced by the buffer
     * assembled at the common size.
     */
    method Combine()
      requires Valid()
      modifies this
      ensures Valid()
      ensures slots == old(slots) && defaults == old(defaults) && !processing
      ensures var v := ValidateDimensions(slots.Items());
        if v.isValid then
          v.dims.Some? && Fits(slots, v.dims.value.0 * v.dims.value.1 * 4) &&
          (v.dims.value.0 * v.dims.value.1 * 4) % 4 == 0 &&
          error == None && combined == Some(Combined(slots, defaults, v.dims.value.0 * v.dims.value.1 * 4))
        else
          error == Some(DimensionsError) && combined == old(combined)
    {
      processing := true;
      error := None;
      var validation := ValidateDimensions(slots.Items());
      if !validation.isValid || validation.dims.None? {
        error := Some(DimensionsError);
        processing := false;
        return;
      }
      var (w, h) := validation.dims.value;
      SizesAgree(slots, w, h);
      var outputPixels := AssemblePixels(slots, defaults, w, h);
      combined := Some(outputPixels[..]);
      processing := false;
    }

    /** `clearChannel`: that slot is emptied, the other three are untouched. */
    method ClearChannel(c: Channel)
      requires Valid()
      modifies this`slots
      ensures Valid()
      ensures slots == old(slots).Set(c, EmptySlot)
    {
      slots := slots.Set(c, EmptySlot);
    }

    /** `clearAll`: four empty slots, no result and no error; the fill levels stay. */
    method ClearAll()
      requires Valid()
      modifies this
      ensures Valid()
      ensures slots == NoSlots && combined == None && error == None
      ensures defaults == old(defaults) && processing == old(processing)
    {
      slots := NoSlots;
      combined := None;
      error := None;
    }

    /** `canCombine`, computed from the current slots. */
    function CanCombineNow(): (can: bool)
      reads this
      ensures can <==> exists c :: slots.Get(c).pixels.Some?
    {
      SomeLoadedItems(slots);
      CanCombine(slots.Items())
    }

    /** `downloadTexture`: nothing without a result, otherwise `combined-channels.png`. */
    function DownloadName(): (name: Option<string>)
      reads this
      ensures name.Some? <==> combined.Some?
      ensures name.Some? ==> name.value == "combined-channels.png"
    {
      if combined.None? then None else Some("combined-channels.png")
    }
  }
}
