/**
 * The channel splitter: renders each channel of an RGBA texture as an image
 * of its own, either as a gray mask or as the isolated colour.
 */
module ChannelSplitter {
  import opened Wrappers
  import opened Pixels

  /**
   * How the splitter renders one source pixel `px` (R, G, B, A) for channel `c`.
   * Grayscale repeats the channel's byte four times; colour keeps that byte in
   * its own position, zeroes the other colour bytes and makes the pixel opaque,
   * except that the alpha channel keeps the source alpha.
   */
  function ExtractPixel(px: seq<Byte>, c: Channel, grayscale: bool): (q: seq<Byte>)
    requires |px| == 4
    ensures |q| == 4
  {
    var v := px[Offset(c)];
    if grayscale then [v, v, v, v]
    else [if c == Red then px[0] else 0,
          if c == Green then px[1] else 0,
          if c == Blue then px[2] else 0,
          if c == Alpha then px[3] else 255]
  }

  /** The whole output buffer: every source pixel rendered in turn. */
  function Extract(src: seq<Byte>, c: Channel, grayscale: bool): (out: seq<Byte>)
    requires |src| % 4 == 0
    ensures |out| == |src|
    decreases |src|
  {
    if src == [] then [] else ExtractPixel(src[..4], c, grayscale) + Extract(src[4..], c, grayscale)
  }

  /**
   * A second statement of the same rendering, one byte at a time as the source
   * loop writes it: byte `j` of pixel `p` is the selected channel's byte of
   * that pixel, except that colour mode zeroes the other colour positions and
   * puts 255 in the alpha position unless alpha is the channel kept.
   */
  function ByteAt(src: seq<Byte>, c: Channel, grayscale: bool, p: nat, j: nat): Byte
    requires 4 * p + 4 <= |src| && j < 4
  {
    var v := src[4 * p + Offset(c)];
    if grayscale || j == Offset(c) then v else if j == 3 then 255 else 0
  }

  /** The pixel-by-pixel definition and the byte-at-a-time one agree on every byte. */
  lemma {:induction false} ExtractByteAt(src: seq<Byte>, c: Channel, grayscale: bool, p: nat, j: nat)
    requires |src| % 4 == 0 && 4 * p + 4 <= |src| && j < 4
    ensures Extract(src, c, grayscale)[4 * p + j] == ByteAt(src, c, grayscale, p, j)
    decreases p
  {
    var out := Extract(src, c, grayscale);
    var head := ExtractPixel(src[..4], c, grayscale);
    var rest := Extract(src[4..], c, grayscale);
    assert out == head + rest;
    if p == 0 {
      assert out[j] == head[j];
      assert src[..4][Offset(c)] == src[Offset(c)];
    } else {
      var k := 4 * p;
      assert 4 * (p - 1) == k - 4;
      ExtractByteAt(src[4..], c, grayscale, p - 1, j);
      assert out[k + j] == rest[k - 4 + j];
      assert src[4..][k - 4 + Offset(c)] == src[k + Offset(c)];
    }
  }

  /**
   * Output pixel `p` is the rendering of source pixel `p` and of nothing else,
   * its four bytes being `ByteAt` of that pixel.
   */
  lemma ExtractIsPerPixel(src: seq<Byte>, c: Channel, grayscale: bool, p: nat)
    requires |src| % 4 == 0 && 4 * p + 4 <= |src|
    ensures |Extract(src, c, grayscale)| == |src|
    ensures PixelAt(Extract(src, c, grayscale), p) == ExtractPixel(PixelAt(src, p), c, grayscale)
    ensures PixelAt(Extract(src, c, grayscale), p) ==
      [ByteAt(src, c, grayscale, p, 0), ByteAt(src, c, grayscale, p, 1),
       ByteAt(src, c, grayscale, p, 2), ByteAt(src, c, grayscale, p, 3)]
  {
    ExtractByteAt(src, c, grayscale, p, 0);
    ExtractByteAt(src, c, grayscale, p, 1);
    ExtractByteAt(src, c, grayscale, p, 2);
    ExtractByteAt(src, c, grayscale, p, 3);
  }

  /** A buffer that holds `ByteAt` at every position is the rendering of the whole source. */
  lemma FromPixelBytes(out: seq<Byte>, src: seq<Byte>, c: Channel, grayscale: bool)
    requires |src| % 4 == 0 && |out| == |src|
    requires forall q, j :: 0 <= q < |src| / 4 && 0 <= j < 4 ==> out[4 * q + j] == ByteAt(src, c, grayscale, q, j)
    ensures out == Extract(src, c, grayscale)
  {
    forall k | 0 <= k < |out|
      ensures out[k] == Extract(src, c, grayscale)[k]
    {
      var q, j := k / 4, k % 4;
      assert k == 4 * q + j;
      ExtractByteAt(src, c, grayscale, q, j);
    }
  }

  /** Grayscale: all four output bytes of every pixel, alpha included, are the channel's source byte. */
  lemma GrayscaleOutput(src: seq<Byte>, c: Channel, p: nat)
    requires |src| % 4 == 0 && 4 * p + 4 <= |src|
    ensures |Extract(src, c, true)| == |src|
    ensures var v := src[4 * p + Offset(c)]; PixelAt(Extract(src, c, true), p) == [v, v, v, v]
  {
    ExtractIsPerPixel(src, c, true, p);
  }

  /** Colour mode, red, green or blue: that byte is copied, the other two colour bytes are 0, alpha is 255. */
  lemma ColourOutput(src: seq<Byte>, c: Channel, p: nat)
    requires |src| % 4 == 0 && 4 * p + 4 <= |src|
    requires c != Alpha
    ensures |Extract(src, c, false)| == |src|
    ensures PixelAt(Extract(src, c, false), p) ==
      [if c == Red then src[4 * p] else 0,
       if c == Green then src[4 * p + 1] else 0,
       if c == Blue then src[4 * p + 2] else 0,
       255]
  {
    ExtractIsPerPixel(src, c, false, p);
  }

  /** Colour mode, alpha: red, green and blue are 0 and alpha is the source alpha. */
  lemma ColourAlphaOutput(src: seq<Byte>, p: nat)
    requires |src| % 4 == 0 && 4 * p + 4 <= |src|
    ensures |Extract(src, Alpha, false)| == |src|
    ensures PixelAt(Extract(src, Alpha, false), p) == [0, 0, 0, src[4 * p + 3]]
  {
    ExtractIsPerPixel(src, Alpha, false, p);
  }

  /** Grayscale-extracting any channel of a grayscale-extracted image gives that image back. */
  lemma {:induction false} GrayscaleIdempotent(src: seq<Byte>, c: Channel, d: Channel)
    requires |src| % 4 == 0
    ensures Extract(Extract(src, c, true), d, true) == Extract(src, c, true)
    decreases |src|
  {
    if src != [] {
      var once := Extract(src, c, true);
      var head := ExtractPixel(src[..4], c, true);
      assert once[..4] == head && once[4..] == Extract(src[4..], c, true);
      GrayscaleIdempotent(src[4..], c, d);
    }
  }

  /** Colour-extracting the same channel twice is the same as extracting it once. */
  lemma {:induction false} ColourIdempotent(src: seq<Byte>, c: Channel)
    requires |src| % 4 == 0
    ensures Extract(Extract(src, c, false), c, false) == Extract(src, c, false)
    decreases |src|
  {
    if src != [] {
      var once := Extract(src, c, false);
      var head := ExtractPixel(src[..4], c, false);
      assert once[..4] == head && once[4..] == Extract(src[4..], c, false);
      ColourIdempotent(src[4..], c);
    }
  }

  /**
   * `extractChannel`: walks the source four bytes at a time and fills a new
   * buffer of `width * height * 4` bytes. The source is only read.
   */
  method ExtractChannel(originalPixels: array<Byte>, width: nat, height: nat, channel: Channel, grayscale: bool)
    returns (newPixels: array<Byte>)
    requires originalPixels.Length == width * height * 4
    ensures fresh(newPixels)
    ensures newPixels.Length == width * height * 4
    ensures newPixels[..] == Extract(originalPixels[..], channel, grayscale)
  {
    newPixels := new Byte[width * height * 4];
    assert originalPixels.Length % 4 == 0;
    FillChannel(originalPixels, newPixels, channel, grayscale);
  }

  /** The pixel loop of `ExtractChannel`, writing the channel image of `originalPixels` into `newPixels`. */
  method FillChannel(originalPixels: array<Byte>, newPixels: array<Byte>, channel: Channel, grayscale: bool)
    requires newPixels != originalPixels
    requires newPixels.Length == originalPixels.Length && originalPixels.Length % 4 == 0
    modifies newPixels
    ensures newPixels[..] == Extract(originalPixels[..], channel, grayscale)
  {
    ghost var src := originalPixels[..];
    var i := 0;
    ghost var p := 0;
    while i < originalPixels.Length
      invariant 0 <= p <= originalPixels.Length / 4 && i == 4 * p
      invariant forall q, j :: 0 <= q < p && 0 <= j < 4 ==> newPixels[4 * q + j] == ByteAt(src, channel, grayscale, q, j)
    {
      var r, g, b, a := originalPixels[i], originalPixels[i + 1], originalPixels[i + 2], originalPixels[i + 3];
      if grayscale {
        var intensity: Byte := 0;
        if channel == Red { intensity := r; }
        if channel == Green { intensity := g; }
        if channel == Blue { intensity := b; }
        if channel == Alpha { intensity := a; }
        newPixels[i] := intensity;
        newPixels[i + 1] := intensity;
        newPixels[i + 2] := intensity;
        newPixels[i + 3] := intensity;
        assert intensity == src[i + Offset(channel)];
      } else {
        newPixels[i] := if channel == Red then r else 0;
        newPixels[i + 1] := if channel == Green then g else 0;
        newPixels[i + 2] := if channel == Blue then b else 0;
        newPixels[i + 3] := if channel == Alpha then a else 255;
      }
      i, p := i + 4, p + 1;
    }
    FromPixelBytes(newPixels[..], src, channel, grayscale);
  }

  /** The four channel images the splitter shows; `None` is the empty data URL. */
  type ChannelImages = PerChannel<Option<seq<Byte>>>

  const NoImages: ChannelImages := PerChannel(None, None, None, None)

  /** All four channels of `src` rendered in one mode. */
  function AllChannelImages(src: seq<Byte>, grayscale: bool): (imgs: ChannelImages)
    requires |src| % 4 == 0
    ensures forall c :: imgs.Get(c) == Some(Extract(src, c, grayscale))
  {
    PerChannel(Some(Extract(src, Red, grayscale)), Some(Extract(src, Green, grayscale)),
               Some(Extract(src, Blue, grayscale)), Some(Extract(src, Alpha, grayscale)))
  }

  /** The name a downloaded channel image is saved under: `<channel>-channel.png`. */
  function DownloadName(c: Channel): string
  {
    ChannelName(c) + "-channel.png"
  }

  /** The four downloads never share a file name, and each one is a `.png` named after its channel. */
  lemma DownloadNames(c: Channel, d: Channel)
    ensures |DownloadName(c)| == |ChannelName(c)| + 12
    ensures DownloadName(c)[..|ChannelName(c)|] == ChannelName(c)
    ensures DownloadName(c)[|DownloadName(c)| - 4..] == ".png"
    ensures DownloadName(c) == DownloadName(d) ==> c == d
  {
    if DownloadName(c) == DownloadName(d) {
      assert DownloadName(c)[..|DownloadName(c)| - 12] == ChannelName(c);
      assert DownloadName(d)[..|DownloadName(d)| - 12] == ChannelName(d);
      ChannelNameInjective(c, d);
    }
  }

  /** One splitter session (`TextureChannelSplitter`). */
  class Splitter {
    /** `sourcePixelsRef`: the decoded source texture, or null. */
    var source: array?<Byte>
    /** `dimensionsRef`. */
    var width: nat
    var height: nat
    /** `isGrayscale`. */
    var grayscale: bool
    /** `channels`: the four rendered images. */
    var images: ChannelImages

    ghost predicate Valid()
      reads this, source
    {
      source != null ==> source.Length == width * height * 4
    }

    constructor ()
      ensures Valid()
      ensures source == null && width == 0 && height == 0
      ensures grayscale && images == NoImages
    {
      source := null;
      width, height := 0, 0;
      grayscale := true;
      images := NoImages;
    }

    /**
     * `updateChannelImages`: nothing happens without source pixels or with width 0;
     * otherwise all four channels are regenerated in the given mode.
     */
    method UpdateChannelImages(grayscaleMode: bool)
      requires Valid()
      modifies this`images
      ensures Valid()
      ensures images == if source == null || width == 0 then old(images)
                        else AllChannelImages(source[..], grayscaleMode)
    {
      if source == null || width == 0 {
        return;
      }
      var w, h := width, height;
      var redImage := ExtractChannel(source, w, h, Red, grayscaleMode);
      var greenImage := ExtractChannel(source, w, h, Green, grayscaleMode);
      var blueImage := ExtractChannel(source, w, h, Blue, grayscaleMode);
      var alphaImage := ExtractChannel(source, w, h, Alpha, grayscaleMode);
      images := PerChannel(Some(redImage[..]), Some(greenImage[..]), Some(blueImage[..]), Some(alphaImage[..]));
    }

    /** The image has been decoded: remember its pixels and size, then render the channels in the current mode. */
    method Load(pixels: array<Byte>, w: nat, h: nat)
      requires pixels.Length == w * h * 4
      modifies this
      ensures Valid()
      ensures source == pixels && width == w && height == h && grayscale == old(grayscale)
      ensures images == if w == 0 then old(images) else AllChannelImages(pixels[..], grayscale)
    {
      width, height := w, h;
      source := pixels;
      UpdateChannelImages(grayscale);
    }

    /** The mode button: flip the mode, then render all channels in the new mode. */
    method ToggleGrayscale()
      requires Valid()
      modifies this
      ensures Valid()
      ensures grayscale == !old(grayscale)
      ensures source == old(source) && width == old(width) && height == old(height)
      ensures images == if source == null || width == 0 then old(images)
                        else AllChannelImages(source[..], grayscale)
    {
      grayscale := !grayscale;
      UpdateChannelImages(grayscale);
    }

    /** `clearAll`: no source, a 0 by 0 size and four empty channel images; the mode is kept. */
    method ClearAll()
      modifies this
      ensures Valid()
      ensures source == null && width == 0 && height == 0 && images == NoImages
      ensures grayscale == old(grayscale)
    {
      source := null;
      images := NoImages;
      width, height := 0, 0;
    }

    /** `downloadChannel`: nothing is saved for an empty image; otherwise the file name for the channel. */
    function DownloadChannel(c: Channel): (name: Option<string>)
      reads this
      ensures name.Some? <==> images.Get(c).Some?
      ensures name.Some? ==> name.value == DownloadName(c)
    {
      if images.Get(c).None? then None else Some(DownloadName(c))
    }
  }
}
