/** Decimal rendering of integers, as in a template literal. */
module Decimal {

  predicate IsDigit(ch: char)
  {
    '0' <= ch <= '9'
  }

  predicate AllDigits(s: string)
  {
    forall k :: 0 <= k < |s| ==> IsDigit(s[k])
  }

  function DigitChar(d: nat): (ch: char)
    requires d < 10
    ensures IsDigit(ch) && ch as int - '0' as int == d
  {
    (d + '0' as int) as char
  }

  /** The decimal digits of `n`, most significant first. */
  function NatToString(n: nat): (s: string)
    ensures |s| >= 1
    decreases n
  {
    if n < 10 then [DigitChar(n)] else NatToString(n / 10) + [DigitChar(n % 10)]
  }

  /** The rendering consists of digits only. */
  lemma {:induction false} NatToStringDigits(n: nat)
    ensures AllDigits(NatToString(n))
    decreases n
  {
    if n >= 10 {
      NatToStringDigits(n / 10);
    }
  }

  /** Reading a string of digits back as a number: the reference the rendering is checked against. */
  function ParseNat(s: string): nat
    requires AllDigits(s)
    decreases |s|
  {
    if s == [] then 0 else ParseNat(s[..|s| - 1]) * 10 + (s[|s| - 1] as int - '0' as int)
  }

  /** Rendering then reading gives the number back, so different numbers render differently. */
  lemma {:induction false} ParseNatToString(n: nat)
    ensures AllDigits(NatToString(n)) && ParseNat(NatToString(n)) == n
    decreases n
  {
    NatToStringDigits(n);
    var s := NatToString(n);
    if n >= 10 {
      ParseNatToString(n / 10);
      assert s[..|s| - 1] == NatToString(n / 10);
    }
  }

  /**
   * An integer in decimal, with a leading `-` when negative, as a template
   * literal writes integers below 10^21. The sign shows in the first character.
   */
  function IntToString(i: int): (s: string)
    ensures |s| >= 1
    ensures s[0] == '-' <==> i < 0
  {
    if i < 0 then "-" + NatToString(-i)
    else NatToStringDigits(i); NatToString(i)
  }

  /** A rendering is made of digits and `-` only. */
  lemma IntToStringSymbols(i: int)
    ensures forall k :: 0 <= k < |IntToString(i)| ==> IsDigit(IntToString(i)[k]) || IntToString(i)[k] == '-'
  {
    if i < 0 {
      NatToStringDigits(-i);
      var s := IntToString(i);
      assert forall k :: 1 <= k < |s| ==> s[k] == NatToString(-i)[k - 1];
    } else {
      NatToStringDigits(i);
    }
  }

  /** Without its sign, a negative number's rendering is its magnitude's. */
  lemma NegativeMagnitude(i: int)
    requires i < 0
    ensures IntToString(i)[1..] == NatToString(-i)
  {
  }

  /** Different integers render differently. */
  lemma IntToStringInjective(i: int, j: int)
    ensures IntToString(i) == IntToString(j) ==> i == j
  {
    if IntToString(i) == IntToString(j) {
      assert IntToString(i)[0] == IntToString(j)[0];
      if i < 0 {
        NegativeMagnitude(i);
        NegativeMagnitude(j);
        ParseNatToString(-i);
        ParseNatToString(-j);
      } else {
        ParseNatToString(i);
        ParseNatToString(j);
      }
    }
  }
}

/**
 * The texture resizer's decisions: the target size in each mode, the aspect
 * lock, the positivity guard, the encoding parameters and the file name. The
 * resampling itself is not modelled.
 */
module TextureResizer {
  import opened Wrappers
  import opened Decimal

  /**
   * `Math.round(a / b)` for a positive divisor: the integer nearest to `a / b`,
   * halves rounded up.
   */
  function RoundDiv(a: int, b: int): (q: int)
    requires b > 0
    ensures 2 * b * q <= 2 * a + b < 2 * b * q + 2 * b
  {
    (2 * a + b) / (2 * b)
  }

  lemma MulAtLeast(d: int, x: int)
    requires d > 0 && x >= 1
    ensures d * x >= d
  {
  }

  /** Only one integer lies in the window `RoundDiv` promises, so these bounds define it. */
  lemma RoundDivUnique(a: int, b: int, q: int)
    requires b > 0
    requires 2 * b * q <= 2 * a + b < 2 * b * q + 2 * b
    ensures RoundDiv(a, b) == q
  {
    var r, d := RoundDiv(a, b), 2 * b;
    if r > q {
      assert d * r == d * q + d * (r - q);
      MulAtLeast(d, r - q);
    } else if r < q {
      assert d * q == d * r + d * (q - r);
      MulAtLeast(d, q - r);
    }
  }

  /** Rounding an exact quotient changes nothing. */
  lemma RoundDivExact(a: int, b: int)
    requires b > 0
    ensures RoundDiv(a * b, b) == a
  {
    assert 2 * b * a == 2 * (a * b);
    RoundDivUnique(a * b, b, a);
  }

  datatype ResizeMode = Percentage | Dimensions | PresetMode

  /** A named fixed target size (`PresetSize`). */
  datatype Preset = Preset(name: string, width: nat, height: nat)

  const Presets: seq<Preset> := [
    Preset("32x32", 32, 32), Preset("64x64", 64, 64), Preset("128x128", 128, 128),
    Preset("256x256", 256, 256), Preset("512x512", 512, 512), Preset("1024x1024", 1024, 1024),
    Preset("2048x2048", 2048, 2048), Preset("4096x4096", 4096, 4096)]

  function Pow2(i: nat): nat
  {
    if i == 0 then 1 else 2 * Pow2(i - 1)
  }

  /** The name of a `w` by `h` size: `<w>x<h>`. */
  function SizeName(w: int, h: int): string
  {
    IntToString(w) + "x" + IntToString(h)
  }

  /** `s` does not contain the character `ch`. */
  predicate Avoids(s: string, ch: char)
  {
    forall k :: 0 <= k < |s| ==> s[k] != ch
  }

  /** A part free of `sep` and followed by `sep` is determined by the whole string: it ends at the first `sep`. */
  lemma {:induction false} CutAt(sep: char, s1: string, e1: string, s2: string, e2: string)
    requires Avoids(s1, sep) && Avoids(s2, sep)
    requires s1 + [sep] + e1 == s2 + [sep] + e2
    ensures s1 == s2 && e1 == e2
  {
    var n := s1 + [sep] + e1;
    assert n[|s1|] == sep && n[|s2|] == sep;
    assert forall k :: 0 <= k < |s1| ==> n[k] == s1[k];
    assert forall k :: 0 <= k < |s2| ==> n[k] == s2[k];
    assert |s1| == |s2|;
    assert s1 == n[..|s1|] == s2;
    assert e1 == n[|s1| + 1..] == e2;
  }

  /** A size name determines the size: the `x` cannot be confused with a digit or a sign. */
  lemma SizeNameInjective(w1: int, h1: int, w2: int, h2: int)
    ensures SizeName(w1, h1) == SizeName(w2, h2) ==> w1 == w2 && h1 == h2
  {
    if SizeName(w1, h1) == SizeName(w2, h2) {
      IntToStringSymbols(w1);
      IntToStringSymbols(w2);
      CutAt('x', IntToString(w1), IntToString(h1), IntToString(w2), IntToString(h2));
      IntToStringInjective(w1, w2);
      IntToStringInjective(h1, h2);
    }
  }

  /** The preset table: eight square sizes, the powers of two from 32 to 4096. */
  lemma PresetSizes()
    ensures |Presets| == 8
    ensures forall i :: 0 <= i < |Presets| ==> Presets[i].width == Presets[i].height == 32 * Pow2(i)
  {
    assert Pow2(7) == 128;
  }

  /** The names of the two smallest power-of-two squares; the table's names are checked in pairs. */
  lemma SquareNames32And64()
    ensures SizeName(32, 32) == "32x32" && SizeName(64, 64) == "64x64"
  {
  }

  lemma SquareNames128And256()
    ensures SizeName(128, 128) == "128x128" && SizeName(256, 256) == "256x256"
  {
  }

  lemma SquareNames512And1024()
    ensures SizeName(512, 512) == "512x512" && SizeName(1024, 1024) == "1024x1024"
  {
  }

  lemma SquareNames2048And4096()
    ensures SizeName(2048, 2048) == "2048x2048" && SizeName(4096, 4096) == "4096x4096"
  {
  }

  /** Every preset is named after its size, `<width>x<height>`. */
  lemma PresetNames()
    ensures forall i :: 0 <= i < |Presets| ==> Presets[i].name == SizeName(Presets[i].width, Presets[i].height)
  {
    SquareNames32And64();
    SquareNames128And256();
    SquareNames512And1024();
    SquareNames2048And4096();
  }

  /** No two presets share a name. */
  lemma PresetNamesDistinct()
    ensures forall i, k :: 0 <= i < k < |Presets| ==> Presets[i].name != Presets[k].name
  {
  }

  /** `presetSizes.find(p => p.name === name)`: the first preset of that name, if any. */
  function FindPreset(name: string, table: seq<Preset>): (r: Option<Preset>)
    ensures r.Some? ==> r.value in table && r.value.name == name
    ensures r.None? ==> forall p :: p in table ==> p.name != name
    ensures r.Some? ==> exists i :: 0 <= i < |table| && table[i] == r.value && forall k :: 0 <= k < i ==> table[k].name != name
  {
    if table == [] then None
    else if table[0].name == name then Some(table[0])
    else
      var r := FindPreset(name, table[1..]);
      if r.Some? then
        var i :| 0 <= i < |table[1..]| && table[1..][i] == r.value && forall k :: 0 <= k < i ==> table[1..][k].name != name;
        assert table[i + 1] == r.value;
        r
      else r
  }

  /**
   * `calculateTargetDimensions`: percentage mode scales the original size and
   * rounds; preset mode with a known, non-empty name gives that preset's size;
   * everything else, including an empty or unknown preset name, gives the
   * typed target size.
   */
  function TargetDimensions(mode: ResizeMode, originalWidth: nat, originalHeight: nat, percentage: int,
                            selectedPreset: string, targetWidth: int, targetHeight: int): (d: (int, int))
    ensures mode == Percentage ==>
      200 * d.0 <= 2 * originalWidth * percentage + 100 < 200 * d.0 + 200 &&
      200 * d.1 <= 2 * originalHeight * percentage + 100 < 200 * d.1 + 200
    ensures mode == PresetMode && selectedPreset != "" && FindPreset(selectedPreset, Presets).Some? ==>
      d == (FindPreset(selectedPreset, Presets).value.width, FindPreset(selectedPreset, Presets).value.height)
    ensures mode == PresetMode && (selectedPreset == "" || FindPreset(selectedPreset, Presets).None?) ==>
      d == (targetWidth, targetHeight)
    ensures mode == Dimensions ==> d == (targetWidth, targetHeight)
  {
    if mode == Percentage then
      (RoundDiv(originalWidth * percentage, 100), RoundDiv(originalHeight * percentage, 100))
    else if mode == PresetMode && selectedPreset != "" && FindPreset(selectedPreset, Presets).Some? then
      var preset := FindPreset(selectedPreset, Presets).value;
      (preset.width, preset.height)
    else
      (targetWidth, targetHeight)
  }

  /** At 100 percent the target is the original size. */
  lemma FullPercentage(originalWidth: nat, originalHeight: nat, selectedPreset: string, targetWidth: int, targetHeight: int)
    ensures TargetDimensions(Percentage, originalWidth, originalHeight, 100, selectedPreset, targetWidth, targetHeight)
      == (originalWidth, originalHeight)
  {
    RoundDivExact(originalWidth, 100);
    RoundDivExact(originalHeight, 100);
  }

  /** Every preset in the table is reachable by its name. */
  lemma PresetTargets(i: nat, originalWidth: nat, originalHeight: nat, percentage: int, targetWidth: int, targetHeight: int)
    requires i < |Presets|
    ensures TargetDimensions(PresetMode, originalWidth, originalHeight, percentage, Presets[i].name, targetWidth, targetHeight)
      == (Presets[i].width, Presets[i].height)
  {
    var preset := Presets[i];
    PresetNamesDistinct();
    FindDistinct(Presets, i);
    PresetNames();
    assert preset.name == SizeName(preset.width, preset.height);
    assert preset.name != "";
  }

  /** In a table whose names are all different, looking up an entry's name finds that entry. */
  lemma FindDistinct(table: seq<Preset>, i: nat)
    requires i < |table|
    requires forall j, k :: 0 <= j < k < |table| ==> table[j].name != table[k].name
    ensures FindPreset(table[i].name, table) == Some(table[i])
  {
    assert table[i] in table;
    var r := FindPreset(table[i].name, table);
    var k :| 0 <= k < |table| && table[k] == r.value && forall m :: 0 <= m < k ==> table[m].name != table[i].name;
    assert k == i;
  }

  /** With the aspect lock, a width of 100 for a 200 by 100 original gives height 50. */
  /** The output encodings (`outputFormat`). */
  datatype Format = Png | Jpeg | Webp

  /** The format's own name, as the selector stores it. */
  function FormatName(f: Format): string
  {
    match f
    case Png => "png"
    case Jpeg => "jpeg"
    case Webp => "webp"
  }

  /** The MIME type the result is encoded as: `image/` followed by the format's name. */
  function MimeType(f: Format): (mime: string)
    ensures mime == "image/" + FormatName(f)
  {
    if f == Jpeg then "image/jpeg" else if f == Webp then "image/webp" else "image/png"
  }

  /** The encoder quality: none for png, otherwise the slider value as a fraction of 100. */
  function QualityValue(f: Format, quality: int): (v: Option<real>)
    ensures v.None? <==> f == Png
    ensures v.Some? ==> v.value * 100.0 == quality as real
  {
    if f == Png then None else Some(quality as real / 100.0)
  }

  /** The file extension: the format's name, except that jpeg is written `jpg`. */
  function Extension(f: Format): (ext: string)
    ensures f != Jpeg ==> ext == FormatName(f)
    ensures f == Jpeg ==> ext == "jpg"
  {
    if f == Jpeg then "jpg" else FormatName(f)
  }

  /** The download name `resized-<w>x<h>.<ext>`. */
  function FileName(w: int, h: int, f: Format): string
  {
    "resized-" + SizeName(w, h) + "." + Extension(f)
  }

  /** A size name contains no `.`: it is made of digits, signs and one `x`. */
  lemma SizeNameNoDot(w: int, h: int)
    ensures Avoids(SizeName(w, h), '.')
  {
    IntToStringSymbols(w);
    IntToStringSymbols(h);
  }

  /** After `resized-` comes the size name, a dot and the extension. */
  lemma FileNameParts(w: int, h: int, f: Format)
    ensures FileName(w, h, f)[..8] == "resized-"
    ensures FileName(w, h, f)[8..] == SizeName(w, h) + "." + Extension(f)
  {
    assert FileName(w, h, f) == "resized-" + (SizeName(w, h) + "." + Extension(f));
  }

  /**
   * Two downloads of different sizes or formats never share a file name: the
   * first `.` after `resized-` ends the size, which determines width and height,
   * and the extension after it determines the format.
   */
  lemma FileNameInjective(w1: int, h1: int, f1: Format, w2: int, h2: int, f2: Format)
    ensures FileName(w1, h1, f1) == FileName(w2, h2, f2) ==> w1 == w2 && h1 == h2 && f1 == f2
  {
    if FileName(w1, h1, f1) == FileName(w2, h2, f2) {
      var s1, s2 := SizeName(w1, h1), SizeName(w2, h2);
      var e1, e2 := Extension(f1), Extension(f2);
      FileNameParts(w1, h1, f1);
      FileNameParts(w2, h2, f2);
      SizeNameNoDot(w1, h1);
      SizeNameNoDot(w2, h2);
      CutAt('.', s1, e1, s2, e2);
      SizeNameInjective(w1, h1, w2, h2);
      EncodingsDistinct(f1, f2);
    }
  }

  /** Different formats never share a MIME type or an extension. */
  lemma EncodingsDistinct(f: Format, g: Format)
    ensures MimeType(f) == MimeType(g) ==> f == g
    ensures Extension(f) == Extension(g) ==> f == g
  {
    assert MimeType(f)[6] == FormatName(f)[0] && MimeType(g)[6] == FormatName(g)[0];
  }

  /** What `toDataURL` is asked to produce: the target size, the MIME type and the quality. */
  datatype ResizedImage = ResizedImage(width: int, height: int, mime: string, quality: Option<real>)

  const DimensionsLoadError := "Failed to load texture dimensions"
  const NonPositiveError := "Target dimensions must be positive numbers"

  /** One resizer session (`TextureResizer`). */
  class Resizer {
    /** An original texture is loaded (`originalTexture !== null`). */
    var hasTexture: bool
    var resized: Option<ResizedImage>
    var processing: bool
    var error: Option<string>
    var originalWidth: nat
    var originalHeight: nat
    var mode: ResizeMode
    var percentage: int
    var targetWidth: int
    var targetHeight: int
    var maintainAspectRatio: bool
    var selectedPreset: string
    var quality: int
    var format: Format

    /** The initial settings. */
    constructor ()
      ensures !hasTexture && resized == None && !processing && error == None
      ensures originalWidth == 0 && originalHeight == 0
      ensures mode == Percentage && percentage == 100 && targetWidth == 800 && targetHeight == 600
      ensures maintainAspectRatio && selectedPreset == "" && quality == 90 && format == Png
    {
      hasTexture, resized, processing, error := false, None, false, None;
      originalWidth, originalHeight := 0, 0;
      mode, percentage, targetWidth, targetHeight := Percentage, 100, 800, 600;
      maintainAspectRatio, selectedPreset, quality, format := true, "", 90, Png;
    }

    /** The current target size. */
    function Target(): (int, int)
      reads this
    {
      TargetDimensions(mode, originalWidth, originalHeight, percentage, selectedPreset, targetWidth, targetHeight)
    }

    /** The file reader has produced the texture: the previous result and error are dropped. */
    method FileRead()
      modifies this`hasTexture, this`resized, this`error
      ensures hasTexture && resized == None && error == None
    {
      hasTexture := true;
      resized := None;
      error := None;
    }

    /** The texture's natural size is known: it becomes the original size and the typed target. */
    method DimensionsLoaded(w: nat, h: nat)
      modifies this`originalWidth, this`originalHeight, this`targetWidth, this`targetHeight
      ensures originalWidth == w && originalHeight == h && targetWidth == w && targetHeight == h
    {
      originalWidth, originalHeight := w, h;
      targetWidth, targetHeight := w, h;
    }

    /** The texture could not be decoded to read its size. */
    method DimensionsFailed()
      modifies this`error
      ensures error == Some(DimensionsLoadError)
    {
      error := Some(DimensionsLoadError);
    }

    /**
     * `handleWidthChange`: the width is taken as typed; with the aspect lock
     * and a known original width, the height becomes the nearest integer to
     * `newWidth * originalHeight / originalWidth`.
     */
    method SetWidth(newWidth: int)
      modifies this`targetWidth, this`targetHeight
      ensures targetWidth == newWidth
      ensures maintainAspectRatio && originalWidth > 0 ==>
        2 * originalWidth * targetHeight <= 2 * newWidth * originalHeight + originalWidth < 2 * originalWidth * targetHeight + 2 * originalWidth
      ensures !(maintainAspectRatio && originalWidth > 0) ==> targetHeight == old(targetHeight)
    {
      targetWidth := newWidth;
      if maintainAspectRatio && originalWidth > 0 {
        targetHeight := RoundDiv(newWidth * originalHeight, originalWidth);
      }
    }

    /** `handleHeightChange`: the same with width and height exchanged. */
    method SetHeight(newHeight: int)
      modifies this`targetWidth, this`targetHeight
      ensures targetHeight == newHeight
      ensures maintainAspectRatio && originalHeight > 0 ==>
        2 * originalHeight * targetWidth <= 2 * newHeight * originalWidth + originalHeight < 2 * originalHeight * targetWidth + 2 * originalHeight
      ensures !(maintainAspectRatio && originalHeight > 0) ==> targetWidth == old(targetWidth)
    {
      targetHeight := newHeight;
      if maintainAspectRatio && originalHeight > 0 {
        targetWidth := RoundDiv(newHeight * originalWidth, originalHeight);
      }
    }

    /**
     * `resizeTexture`: nothing without a texture; a target size with a side
     * of 0 or less sets the error and keeps the previous result; otherwise the
     * result is the target size encoded with the chosen MIME type and quality.
     */
    method Resize()
      modifies this`processing, this`error, this`resized
      ensures !old(hasTexture) ==> processing == old(processing) && error == old(error) && resized == old(resized)
      ensures old(hasTexture) ==> !processing
      ensures old(hasTexture) && (Target().0 <= 0 || Target().1 <= 0) ==>
        error == Some(NonPositiveError) && resized == old(resized)
      ensures old(hasTexture) && Target().0 > 0 && Target().1 > 0 ==>
        error == None && resized == Some(ResizedImage(Target().0, Target().1, MimeType(format), QualityValue(format, quality)))
      ensures old(hasTexture) && Target().0 > 0 && Target().1 > 0 ==>
        DownloadName() == Some(FileName(resized.value.width, resized.value.height, format))
    {
      if !hasTexture {
        return;
      }
      processing := true;
      error := None;
      var target := Target();
      if target.0 <= 0 || target.1 <= 0 {
        error := Some(NonPositiveError);
        processing := false;
        return;
      }
      var mimeType := MimeType(format);
      var qualityValue := QualityValue(format, quality);
      resized := Some(ResizedImage(target.0, target.1, mimeType, qualityValue));
      processing := false;
    }

    /**
     * `downloadTexture`: nothing without a result; otherwise the name built
     * from the target size of the current settings and the current format.
     */
    function DownloadName(): (name: Option<string>)
      reads this
      ensures name.Some? <==> resized.Some?
      ensures name.Some? ==> name.value == FileName(Target().0, Target().1, format)
    {
      if resized.None? then None else Some(FileName(Target().0, Target().1, format))
    }

    /**
     * `clearAll`: texture, result, original size, error, percentage and preset
     * are reset; the typed target, mode, format, quality and aspect lock stay.
     */
    method ClearAll()
      modifies this`hasTexture, this`resized, this`originalWidth, this`originalHeight, this`error,
               this`percentage, this`selectedPreset
      ensures !hasTexture && resized == None && originalWidth == 0 && originalHeight == 0 && error == None
      ensures percentage == 100 && selectedPreset == ""
    {
      hasTexture, resized := false, None;
      originalWidth, originalHeight := 0, 0;
      error := None;
      percentage, selectedPreset := 100, "";
    }
  }

  /** With the aspect lock, a 200 by 100 original edited to width 100 gets height 50. */
  method AspectLockExample() returns (r: Resizer)
    ensures r.maintainAspectRatio && r.originalWidth == 200 && r.originalHeight == 100
    ensures r.targetWidth == 100 && r.targetHeight == 50
  {
    r := new Resizer();
    r.DimensionsLoaded(200, 100);
    r.SetWidth(100);
  }

  /** Typing the original width back with the aspect lock restores the original height. */
  lemma AspectRoundTrip(originalWidth: nat, originalHeight: nat)
    requires originalWidth > 0
    ensures RoundDiv(originalWidth * originalHeight, originalWidth) == originalHeight
  {
    assert originalWidth * originalHeight == originalHeight * originalWidth;
    RoundDivExact(originalHeight, originalWidth);
  }
}
