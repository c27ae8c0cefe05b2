/** The QR code display of `static/js/qr_generator.js`: the generator's
    options, the choice between the flat and the embossed rendering, the
    emboss pass over the canvas bytes, the mode button, the student id read
    from a container id, and the download name. The QR encoder itself and the
    canvas drawing calls are not modelled. */
module QrGenerator {
  import opened Wrappers
  import opened JsText

  // ---------------------------------------------------------------- options

  /** Error-correction levels of the encoding library. */
  datatype CorrectLevel = LevelL | LevelM | LevelQ | LevelH

  datatype Options = Options(
    width: int,
    height: int,
    colorDark: string,
    colorLight: string,
    correctLevel: CorrectLevel,
    mode: string)

  /** The constructor's defaults: 256 by 256, black on white, level H, flat. */
  const Defaults := Options(256, 256, "#000000", "#ffffff", LevelH, "2d")

  /** The keys of the options object a caller passes; an absent key is None. */
  datatype Overrides = Overrides(
    width: Option<int>,
    height: Option<int>,
    colorDark: Option<string>,
    colorLight: Option<string>,
    correctLevel: Option<CorrectLevel>,
    mode: Option<string>)

  const NoOverrides := Overrides(None, None, None, None, None, None)

  /** `Object.assign(defaults, o)`: every key the caller gives wins, every
      other key keeps its default. */
  function Merge(d: Options, o: Overrides): (r: Options)
    ensures o.width.Some? ==> r.width == o.width.value
    ensures o.width.None? ==> r.width == d.width
    ensures o.height.Some? ==> r.height == o.height.value
    ensures o.height.None? ==> r.height == d.height
    ensures o.colorDark.Some? ==> r.colorDark == o.colorDark.value
    ensures o.colorDark.None? ==> r.colorDark == d.colorDark
    ensures o.colorLight.Some? ==> r.colorLight == o.colorLight.value
    ensures o.colorLight.None? ==> r.colorLight == d.colorLight
    ensures o.correctLevel.Some? ==> r.correctLevel == o.correctLevel.value
    ensures o.correctLevel.None? ==> r.correctLevel == d.correctLevel
    ensures o.mode.Some? ==> r.mode == o.mode.value
    ensures o.mode.None? ==> r.mode == d.mode
  {
    Options(o.width.GetOr(d.width), o.height.GetOr(d.height), o.colorDark.GetOr(d.colorDark),
            o.colorLight.GetOr(d.colorLight), o.correctLevel.GetOr(d.correctLevel), o.mode.GetOr(d.mode))
  }

  /** Two option objects applied in turn: the later one's keys win. */
  function Then(a: Overrides, b: Overrides): Overrides {
    Overrides(
      if b.width.Some? then b.width else a.width,
      if b.height.Some? then b.height else a.height,
      if b.colorDark.Some? then b.colorDark else a.colorDark,
      if b.colorLight.Some? then b.colorLight else a.colorLight,
      if b.correctLevel.Some? then b.correctLevel else a.correctLevel,
      if b.mode.Some? then b.mode else a.mode)
  }

  /** Merging nothing keeps the defaults; merging the same keys twice is
      merging them once; merging in two steps is merging their combination. */
  lemma MergeLaws(d: Options, a: Overrides, b: Overrides)
    ensures Merge(d, NoOverrides) == d
    ensures Merge(Merge(d, a), a) == Merge(d, a)
    ensures Merge(Merge(d, a), b) == Merge(d, Then(a, b))
  {
  }

  // ---------------------------------------------------------------- generate

  /** A generator: whether its container element exists, and its options. */
  datatype Generator = Generator(hasContainer: bool, options: Options)

  /** What `generate` draws into the container. */
  datatype Render = Nothing | Flat(text: string) | Embossed(text: string)

  /** `new QRGenerator(containerId, options)`: without options the
      generator draws 256 by 256, black on white, level H, flat. */
  function NewGenerator(hasContainer: bool, o: Overrides): (g: Generator)
    ensures g.hasContainer == hasContainer
    ensures o == NoOverrides ==> g.options == Defaults
    ensures o.mode.None? ==> g.options.mode == "2d"
    ensures o.mode.Some? ==> g.options.mode == o.mode.value
  {
    Generator(hasContainer, Merge(Defaults, o))
  }

  /** `if (mode)`: the mode argument counts only when it is a non-empty
      string. */
  predicate Truthy(mode: Option<string>) {
    mode.Some? && mode.value != ""
  }

  /** `generate(data, mode)` */
  function Generate(g: Generator, data: string, mode: Option<string>): (r: (Generator, Render))
    ensures !g.hasContainer ==> r == (g, Nothing)
    ensures g.hasContainer && Truthy(mode) ==> r.0 == g.(options := g.options.(mode := mode.value))
    ensures !Truthy(mode) ==> r.0 == g
    ensures r.1.Embossed? <==> g.hasContainer && r.0.options.mode == "3d"
    ensures r.1.Flat? <==> g.hasContainer && r.0.options.mode != "3d"
    ensures r.1 != Nothing ==> r.1.text == data
  {
    if !g.hasContainer then (g, Nothing)
    else
      var g' := if Truthy(mode) then g.(options := g.options.(mode := mode.value)) else g;
      (g', if g'.options.mode == "3d" then Embossed(data) else Flat(data))
  }

  /** A mode given once stays: the next call without a mode renders the same
      way. */
  lemma ModePersists(g: Generator, d1: string, d2: string, m: string)
    requires g.hasContainer && m != ""
    ensures var g1 := Generate(g, d1, Some(m)).0;
            Generate(g1, d2, None).1 == (if m == "3d" then Embossed(d2) else Flat(d2))
  {
  }

  // ---------------------------------------------------------------- emboss

  type byte = x: int | 0 <= x < 256

  /** A pixel is dark when its red byte in the source image is below 128. */
  predicate Dark(src: seq<byte>, p: nat)
    requires 4 * p < |src|
  {
    src[4 * p] < 128
  }

  /** Byte `k` of the target after the emboss loop has handled the pixels
      that start below byte `i`: a pixel whose successor was handled and is
      dark is set to 70, else a handled dark pixel is set to 0, else it is
      untouched; alpha bytes are never written. */
  function PartialAt(src: seq<byte>, pix: seq<byte>, i: nat, k: nat): byte
    requires |src| == |pix| && |src| % 4 == 0 && k < |pix|
  {
    var p := k / 4;
    if k % 4 == 3 then pix[k]
    else if 4 * (p + 1) < i && 4 * (p + 1) < |src| && Dark(src, p + 1) then 70
    else if 4 * p < i && Dark(src, p) then 0
    else pix[k]
  }

  /** Byte `k` after the whole pass. Pixels are handled in increasing order,
      so a dark pixel followed by a dark pixel ends at 70, the last pixel of a
      dark run at 0, and the pixel just before a dark run at 70. */
  function EmbossedAt(src: seq<byte>, pix: seq<byte>, k: nat): byte
    requires |src| == |pix| && |src| % 4 == 0 && k < |pix|
  {
    PartialAt(src, pix, |src|, k)
  }

  /** The loop of `apply3DEffect`. `src` holds the source canvas's bytes and
      `pix` the target canvas's, four per pixel (red, green, blue, alpha).
      The highlight writes before the first pixel fall outside the typed
      array and are ignored. */
  method Emboss(src: seq<byte>, pix: seq<byte>) returns (out: seq<byte>)
    requires |src| == |pix| && |src| % 4 == 0
    ensures |out| == |pix|
    ensures forall k :: 0 <= k < |out| ==> out[k] == EmbossedAt(src, pix, k)
  {
    out := pix;
    var i := 0;
    while i < |src|
      invariant 0 <= i <= |src| && i % 4 == 0
      invariant |out| == |pix|
      invariant forall k :: 0 <= k < |out| ==> out[k] == PartialAt(src, pix, i, k)
    {
      if src[i] < 128 {
        if i >= 4 {
          out := out[i - 4 := 70][i - 3 := 70][i - 2 := 70];
        }
        out := out[i := 0][i + 1 := 0][i + 2 := 0];
      }
      i := i + 4;
    }
  }

  /** Alpha bytes keep their value, and a pixel that is neither dark nor
      followed by a dark pixel keeps all four bytes. */
  lemma EmbossLeavesOthers(src: seq<byte>, pix: seq<byte>, k: nat)
    requires |src| == |pix| && |src| % 4 == 0 && k < |pix|
    requires k % 4 == 3 || (!Dark(src, k / 4) && (4 * (k / 4 + 1) < |src| ==> !Dark(src, k / 4 + 1)))
    ensures EmbossedAt(src, pix, k) == pix[k]
  {
  }

  // ---------------------------------------------------------------- page wiring

  /** The mode button: `'2d'` switches to `'3d'`, anything else to `'2d'`. */
  function ToggleMode(current: string): (r: string)
    ensures r == "2d" || r == "3d"
    ensures r == "3d" <==> current == "2d"
  {
    if current == "2d" then "3d" else "2d"
  }

  /** The button text after a click names the mode being left, upper-cased:
      leaving `'2d'` shows "Switch to 2D QR". */
  function ToggleText(current: string): (r: string)
    ensures |r| == |current| + 13
    ensures r[..10] == "Switch to " && r[|r| - 3..] == " QR"
    ensures current == "2d" ==> r == "Switch to 2D QR"
    ensures current == "3d" ==> r == "Switch to 3D QR"
  {
    "Switch to " + ToUpper(current) + " QR"
  }

  /** The mode button: its `data-mode` attribute, None when the element has
      none, and its text. */
  datatype ModeButton = ModeButton(mode: Option<string>, text: string)

  /** A click on the mode button. Without a `data-mode` attribute the
      handler throws at `toUpperCase`, before the button or the code change,
      so the click has no effect (None). Otherwise the attribute takes the
      new mode, the text names the mode being left, and the code is drawn
      again in the new mode. */
  function ModeClick(b: ModeButton, g: Generator, data: string): (r: Option<(ModeButton, Generator, Render)>)
    ensures r.None? <==> b.mode.None?
    ensures r.Some? ==> r.value.0.mode == Some(ToggleMode(b.mode.value))
    ensures r.Some? ==> r.value.0.text == ToggleText(b.mode.value)
    ensures r.Some? && g.hasContainer ==>
              && r.value.1.options.mode == ToggleMode(b.mode.value)
              && (r.value.2.Embossed? <==> b.mode.value == "2d")
              && r.value.2 != Nothing && r.value.2.text == data
    ensures r.Some? && !g.hasContainer ==> r.value.1 == g && r.value.2 == Nothing
  {
    match b.mode
    case None => None
    case Some(current) =>
      var next := ToggleMode(current);
      var (g', out) := Generate(g, data, Some(next));
      Some((ModeButton(Some(next), ToggleText(current)), g', out))
  }

  /** From a button on `'2d'` or `'3d'`, a click leaves the text naming the
      mode the next click selects, a second click restores the button's
      mode, and the generator then draws as before the first click. */
  lemma ModeClickLaws(m: string, text: string, g: Generator, data: string)
    requires m == "2d" || m == "3d"
    requires g.hasContainer && g.options.mode == m
    ensures var r1 := ModeClick(ModeButton(Some(m), text), g, data).value;
            && r1.0.text == ToggleText(ToggleMode(r1.0.mode.value))
            && var r2 := ModeClick(r1.0, r1.1, data).value;
               && r2.0.mode == Some(m)
               && r2.1 == g
               && r2.2 == Generate(g, data, None).1
  {
  }

  /** The first click on a button rendered for `'2d'` shows
      "Switch to 2D QR" and draws the embossed code. */
  lemma ModeClickFrom2d(g: Generator, data: string)
    requires g.hasContainer
    ensures var r := ModeClick(ModeButton(Some("2d"), "Switch to 3D QR"), g, data).value;
            r.0 == ModeButton(Some("3d"), "Switch to 2D QR") && r.2 == Embossed(data)
  {
  }

  /** Two clicks come back to the starting mode, whatever the button started
      with after the first click; each click regenerates with the new mode, so
      the rendering follows the button. */
  lemma ToggleRoundTrip(g: Generator, data: string, m: string)
    requires g.hasContainer
    ensures m == "2d" || m == "3d" ==> ToggleMode(ToggleMode(m)) == m
    ensures ToggleMode(ToggleMode(ToggleMode(m))) == ToggleMode(m)
    ensures Generate(g, data, Some(ToggleMode(m))).1 ==
              (if m == "2d" then Embossed(data) else Flat(data))
  {
  }

  /** `containerId.split('-').pop()`: the text after the last dash (all of
      it when there is no dash). */
  function LastSegment(s: string): (r: string)
    ensures '-' !in r
    ensures EndsWith(s, r)
    ensures |r| < |s| ==> s[|s| - |r| - 1] == '-'
    decreases |s|
  {
    if |s| == 0 then ""
    else if s[|s| - 1] == '-' then ""
    else
      var r := LastSegment(s[..|s| - 1]) + [s[|s| - 1]];
      assert s[|s| - |r|..] == s[..|s| - 1][|s| - |r|..] + [s[|s| - 1]];
      r
  }

  /** The student id of `qr-container-<id>` is `<id>`, provided the id has no
      dash of its own. */
  lemma StudentIdOfContainer(prefix: string, id: string)
    requires '-' !in id
    ensures LastSegment(prefix + "-" + id) == id
  {
    var s := prefix + "-" + id;
    var r := LastSegment(s);
    assert s[|s| - |id| - 1] == '-';
    if |r| < |id| {
      assert false;
    } else if |r| > |id| {
      assert false;
    }
    assert s[|s| - |id|..] == id;
  }

  /** `downloadQR(filename)`: nothing without a canvas, else a download
      named `filename + '.png'`. Unlike the CSV name, the suffix is added even
      when already present. */
  function DownloadName(hasCanvas: bool, filename: string): (r: Option<string>)
    ensures r.Some? <==> hasCanvas
    ensures r.Some? ==> |r.value| == |filename| + 4
    ensures r.Some? ==> EndsWith(r.value, ".png") && r.value[..|filename|] == filename
  {
    if hasCanvas then Some(filename + ".png") else None
  }

  /** The name given is recovered from the download name by dropping the
      suffix, so different names give different downloads; and a name that
      already ends in `.png` gets a second suffix, unlike the CSV file name,
      which is only completed. */
  lemma DownloadNameLaws(f: string, g: string)
    ensures DownloadName(true, f).value[..|f|] == f
    ensures DownloadName(true, f) == DownloadName(true, g) ==> f == g
    ensures EndsWith(f, ".png") ==> DownloadName(true, f) != Some(f)
  {
    if DownloadName(true, f) == DownloadName(true, g) {
      assert |f| == |g|;
      assert f == DownloadName(true, f).value[..|f|];
    }
  }
}
