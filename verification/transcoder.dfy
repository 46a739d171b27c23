/**
 * The FFmpeg invocations the media service builds: for each operation, the
 * inputs, the options applied in order, and the output path. Running FFmpeg is
 * outside the model; the uuid drawn for the output name is a parameter.
 */
module Transcoder {
  import opened Wrappers
  import opened JsValue
  import Text
  import Paths

  /** One call on the fluent command builder, in the order the service makes it. */
  datatype Step =
    | Input(path: string)
    | Loop(duration: Param)
    | VideoCodec(codec: Param)
    | AudioCodec(codec: Param)
    | VideoBitrate(rate: Param)
    | AudioBitrate(rate: Param)
    | Size(spec: string)
    | Fps(rate: Param)
    | StartTime(time: Param)
    | Duration(time: Param)
    | VideoFilter(filter: string)
    | ComplexFilter(filters: seq<string>)
    | NoVideo
    | NoAudio
    | OutputOptions(options: seq<string>)
    | Screenshots(timestamp: Param, filename: string, folder: string)

  /** How the command is started: `run()` to the output, `mergeToFile`, or the
      self-starting `screenshots` call. */
  datatype Sink = Run | MergeToFile | TakeScreenshots

  datatype Invocation = Invocation(steps: seq<Step>, output: string, sink: Sink)

  /** The `options` object; an absent key is `Undefined`. */
  datatype Options = Options(
    videoCodec: Param, audioCodec: Param,
    videoBitrate: Param, audioBitrate: Param,
    width: Param, height: Param, scale: Param, fps: Param,
    startTime: Param, duration: Param,
    position: Param, fontSize: Param, fontColor: Param, quality: Param)

  /** `options = {}`. */
  const NoOptions := Options(Undefined, Undefined, Undefined, Undefined, Undefined, Undefined,
                             Undefined, Undefined, Undefined, Undefined, Undefined, Undefined,
                             Undefined, Undefined)

  /** The service's static methods (the speed change is not modelled). */
  datatype Operation =
    | ConvertVideo(input: string, format: Param, opts: Options)
    | CompressVideo(input: string, opts: Options)
    | CutVideo(input: string, start: Param, length: Param)
    | MergeVideos(inputs: seq<string>, format: Param)
    | RotateVideo(input: string, angle: Param)
    | FlipVideo(input: string, direction: Param)
    | ExtractAudio(input: string, format: Param)
    | VideoToGif(input: string, opts: Options)
    | AddWatermark(input: string, watermark: string, opts: Options)
    | AddTextWatermark(input: string, text: Param, opts: Options)
    | TakeScreenshot(input: string, time: Param, opts: Options)
    | RemoveAudio(input: string)
    | ReplaceAudio(input: string, audio: string)
    | ConvertImage(input: string, format: Param)
    | ResizeImage(input: string, opts: Options)
    | ImagesToVideo(inputs: seq<string>, opts: Options)
    | RotateImage(input: string, angle: Param)
    | FlipImage(input: string, direction: Param)

  /** A default parameter value: it replaces `undefined` only. */
  function Default(p: Param, d: Param): (r: Param)
    ensures p != Undefined ==> r == p
    ensures p == Undefined ==> r == d
  {
    if p == Undefined then d else p
  }

  /** The files an operation reads, in the order it reads them; an independent
      description against which the built command is checked. */
  function Sources(op: Operation): seq<string> {
    match op
    case MergeVideos(inputs, _) => inputs
    case ImagesToVideo(inputs, _) => inputs
    case AddWatermark(input, watermark, _) => [input, watermark]
    case ReplaceAudio(input, audio) => [input, audio]
    case _ => [op.input]
  }

  /** What the output file name ends with: a format the caller chose, a fixed
      extension, or the input's own extension. */
  datatype Suffix = Format(format: Param) | Fixed(ext: string) | SameAsInput(input: string)

  function SuffixOf(op: Operation): Suffix {
    match op
    case ConvertVideo(_, format, _) => Format(format)
    case MergeVideos(_, format) => Format(Default(format, Str("mp4")))
    case ExtractAudio(_, format) => Format(Default(format, Str("mp3")))
    case ConvertImage(_, format) => Format(format)
    case VideoToGif(_, _) => Fixed(".gif")
    case TakeScreenshot(_, _, _) => Fixed(".jpg")
    case ImagesToVideo(_, _) => Fixed(".mp4")
    case _ => SameAsInput(op.input)
  }

  /** The text the output file name ends with. */
  function ExpectedExtension(op: Operation): string {
    match SuffixOf(op)
    case Format(format) => "." + ToStr(format)
    case Fixed(ext) => ext
    case SameAsInput(input) => Paths.Extname(input)
  }

  /** The output file name: the uuid followed by the suffix. */
  function OutputName(op: Operation, uuid: string): (r: string)
    ensures |r| >= |uuid| && r[..|uuid|] == uuid
  {
    uuid + ExpectedExtension(op)
  }

  // ---- option rendering -------------------------------------------------

  /** The `size(...)` argument of the compress and resize operations: width by
      height when both are truthy, otherwise a percentage when the scale is. */
  function SizeSpec(o: Options): (r: Option<string>)
    ensures r.Some? <==> (Truthy(o.width) && Truthy(o.height)) || Truthy(o.scale)
  {
    if Truthy(o.width) && Truthy(o.height) then Some(ToStr(o.width) + "x" + ToStr(o.height))
    else if Truthy(o.scale) then Some(ToStr(o.scale) + "%")
    else None
  }

  /** `transposeMap`: the keys are the numbers 90, 180 and 270, which an
      object literal stores as strings. */
  const TransposeMap: seq<(string, string)> := [("90", "1"), ("180", "2,transpose=2"), ("270", "2")]

  /** `transposeMap[angle] || '1'`: a declared angle gives its entry, a key that
      `Object.prototype` supplies gives that member's text (a function or
      object, hence truthy), and any other key falls back to `'1'`. */
  function TransposeArg(key: string): (r: string)
    ensures key == "90" ==> r == "1"
    ensures key == "180" ==> r == "2,transpose=2"
    ensures key == "270" ==> r == "2"
    ensures key != "90" && key != "180" && key != "270" ==>
              r == (if InheritedMember(key).Some? then InheritedMember(key).value else "1")
  {
    match PropertyLookup(key, TransposeMap)
    case Some(v) => v
    case None => "1"
  }

  function RotateFilter(angle: Param): string {
    "transpose=" + TransposeArg(ToStr(angle))
  }

  /** Only the exact string `horizontal` selects a horizontal flip. */
  function FlipFilter(direction: Param): (r: string)
    ensures r == "hflip" <==> direction == Str("horizontal")
    ensures r == "hflip" || r == "vflip"
  {
    if direction == Str("horizontal") then "hflip" else "vflip"
  }

  /** `positions[position]` inside a template literal: a position the table
      holds renders its entry, a key `Object.prototype` supplies renders that
      member's text, and any other key renders `undefined`. */
  function PositionLookup(key: string, table: seq<(string, string)>): (r: string)
    ensures (exists i :: 0 <= i < |table| && table[i].0 == key) ==>
              exists i :: 0 <= i < |table| && table[i] == (key, r)
    ensures (forall i :: 0 <= i < |table| ==> table[i].0 != key) ==>
              r == (if InheritedMember(key).Some? then InheritedMember(key).value else "undefined")
  {
    match PropertyLookup(key, table)
    case Some(v) => v
    case None => "undefined"
  }

  const OverlayPositions: seq<(string, string)> := [
    ("topleft", "10:10"),
    ("topright", "main_w-overlay_w-10:10"),
    ("bottomleft", "10:main_h-overlay_h-10"),
    ("bottomright", "main_w-overlay_w-10:main_h-overlay_h-10"),
    ("center", "(main_w-overlay_w)/2:(main_h-overlay_h)/2")]

  const TextPositions: seq<(string, string)> := [
    ("topleft", "x=10:y=10"),
    ("topright", "x=w-text_w-10:y=10"),
    ("bottomleft", "x=10:y=h-text_h-10"),
    ("bottomright", "x=w-text_w-10:y=h-text_h-10"),
    ("center", "x=(w-text_w)/2:y=(h-text_h)/2")]

  /** The two filters of the image watermark: scale the second input, overlay it. */
  function WatermarkFilters(o: Options): seq<string> {
    var position := Or(o.position, Str("topright"));
    ["[1:v]scale=" + ToStr(Or(o.width, Num(100))) + ":-1[watermark]",
     "[0:v][watermark]overlay=" + PositionLookup(ToStr(position), OverlayPositions)]
  }

  /** The `drawtext` filter of the text watermark. */
  function DrawTextFilter(text: Param, o: Options): string {
    var position := Or(o.position, Str("bottomright"));
    "drawtext=text='" + ToStr(text) + "':fontsize=" + ToStr(Or(o.fontSize, Num(24)))
      + ":fontcolor=" + ToStr(Or(o.fontColor, Str("white"))) + ":"
      + PositionLookup(ToStr(position), TextPositions)
  }

  /** A step that is added only when its option is truthy. */
  function When(cond: bool, s: Step): seq<Step> {
    if cond then [s] else []
  }

  /** `command.input(p).loop(d)` for each image, in order. */
  function LoopedInputs(paths: seq<string>, d: Param): (r: seq<Step>)
    ensures |r| == 2 * |paths|
  {
    if paths == [] then [] else [Input(paths[0]), Loop(d)] + LoopedInputs(paths[1..], d)
  }

  function InputsOf(paths: seq<string>): (r: seq<Step>)
    ensures |r| == |paths|
  {
    if paths == [] then [] else [Input(paths[0])] + InputsOf(paths[1..])
  }

  predicate NoInputs(r: seq<Step>) {
    forall i :: 0 <= i < |r| ==> !r[i].Input?
  }

  /** `videoCodec` and `audioCodec`, each only when given. */
  function ConvertSettings(o: Options): (r: seq<Step>)
    ensures NoInputs(r)
  {
    When(Truthy(o.videoCodec), VideoCodec(o.videoCodec))
      + When(Truthy(o.audioCodec), AudioCodec(o.audioCodec))
  }

  /** Bitrates, size and frame rate, each only when given. */
  function CompressSettings(o: Options): (r: seq<Step>)
    ensures NoInputs(r)
  {
    var size := SizeSpec(o);
    When(Truthy(o.videoBitrate), VideoBitrate(o.videoBitrate))
      + When(Truthy(o.audioBitrate), AudioBitrate(o.audioBitrate))
      + When(size.Some?, Size(size.GetOr([]))) + When(Truthy(o.fps), Fps(o.fps))
  }

  /** Start, duration and width when given, then the frame rate (10 by default). */
  function GifSettings(o: Options): (r: seq<Step>)
    ensures NoInputs(r)
  {
    When(Truthy(o.startTime), StartTime(o.startTime))
      + When(Truthy(o.duration), Duration(o.duration))
      + When(Truthy(o.width), Size(ToStr(o.width) + "x?"))
      + [Fps(Or(o.fps, Num(10)))]
  }

  /** The screenshot size, only when both width and height are given. */
  function ScreenshotSize(o: Options): (r: seq<Step>)
    ensures NoInputs(r)
  {
    When(Truthy(o.width) && Truthy(o.height), Size(ToStr(o.width) + "x" + ToStr(o.height)))
  }

  /** Size and quality, each only when given. */
  function ResizeSettings(o: Options): (r: seq<Step>)
    ensures NoInputs(r)
  {
    var size := SizeSpec(o);
    When(size.Some?, Size(size.GetOr([])))
      + When(Truthy(o.quality), OutputOptions(["-q:v " + ToStr(o.quality)]))
  }

  /** The builder calls after `ffmpeg(input)` of an operation with one input. */
  function Settings(op: Operation, outDir: string, uuid: string): (r: seq<Step>)
    ensures NoInputs(r)
  {
    match op
    case ConvertVideo(_, _, o) => ConvertSettings(o)
    case CompressVideo(_, o) => CompressSettings(o)
    case CutVideo(_, start, length) => [StartTime(start), Duration(length)]
    case RotateVideo(_, angle) => [VideoFilter(RotateFilter(angle))]
    case FlipVideo(_, direction) => [VideoFilter(FlipFilter(direction))]
    case ExtractAudio(_, _) => [NoVideo, AudioCodec(Str("libmp3lame"))]
    case VideoToGif(_, o) => GifSettings(o)
    case AddTextWatermark(_, text, o) => [VideoFilter(DrawTextFilter(text, o))]
    case TakeScreenshot(_, time, o) =>
      [Screenshots(time, OutputName(op, uuid), outDir)] + ScreenshotSize(o)
    case RemoveAudio(_) => [NoAudio]
    case ConvertImage(_, _) => []
    case ResizeImage(_, o) => ResizeSettings(o)
    case RotateImage(_, angle) => [VideoFilter(RotateFilter(angle))]
    case FlipImage(_, direction) => [VideoFilter(FlipFilter(direction))]
    case _ => []
  }

  /** The steps of each operation, in the order the service calls the builder. */
  function Steps(op: Operation, outDir: string, uuid: string): seq<Step> {
    match op
    case MergeVideos(inputs, _) => InputsOf(inputs)
    case AddWatermark(input, watermark, o) =>
      [Input(input), Input(watermark), ComplexFilter(WatermarkFilters(o))]
    case ReplaceAudio(input, audio) =>
      [Input(input), Input(audio), OutputOptions(["-c:v copy", "-map 0:v:0", "-map 1:a:0"])]
    case ImagesToVideo(inputs, o) =>
      LoopedInputs(inputs, Or(o.duration, Num(3))) + [Fps(Or(o.fps, Num(25))), VideoCodec(Str("libx264"))]
    case _ => [Input(op.input)] + Settings(op, outDir, uuid)
  }

  /** The paths of the `Input` steps, in order. */
  function Inputs(steps: seq<Step>): seq<string> {
    if steps == [] then []
    else (if steps[0].Input? then [steps[0].path] else []) + Inputs(steps[1..])
  }

  /** The command the service builds for `op`, writing into `outDir`. */
  function Plan(op: Operation, outDir: string, uuid: string): (r: Invocation)
    ensures r.output == Paths.Join(outDir, OutputName(op, uuid))
    ensures Inputs(r.steps) == Sources(op)
    ensures r.sink == MergeToFile <==> op.MergeVideos?
    ensures r.sink == TakeScreenshots <==> op.TakeScreenshot?
  {
    var steps := Steps(op, outDir, uuid);
    InputsOfSteps(op, outDir, uuid);
    var sink := if op.MergeVideos? then MergeToFile else if op.TakeScreenshot? then TakeScreenshots else Run;
    Invocation(steps, Paths.Join(outDir, OutputName(op, uuid)), sink)
  }

  // ---- lemmas -----------------------------------------------------------

  lemma {:induction false} InputsAppend(a: seq<Step>, b: seq<Step>)
    ensures Inputs(a + b) == Inputs(a) + Inputs(b)
  {
    if a == [] {
      assert a + b == b;
    } else {
      assert (a + b)[0] == a[0];
      assert (a + b)[1..] == a[1..] + b;
      InputsAppend(a[1..], b);
    }
  }

  /** A sequence of steps without `Input` reads nothing. */
  lemma {:induction false} InputsOfNonInputs(s: seq<Step>)
    requires forall i :: 0 <= i < |s| ==> !s[i].Input?
    ensures Inputs(s) == []
  {
    if s != [] {
      InputsOfNonInputs(s[1..]);
    }
  }

  lemma {:induction false} InputsOfLooped(paths: seq<string>, d: Param)
    ensures Inputs(LoopedInputs(paths, d)) == paths
  {
    if paths != [] {
      var rest := LoopedInputs(paths[1..], d);
      InputsAppend([Input(paths[0]), Loop(d)], rest);
      InputsAppend([Input(paths[0])], [Loop(d)]);
      InputsOfLooped(paths[1..], d);
    }
  }

  lemma {:induction false} InputsOfInputs(paths: seq<string>)
    ensures Inputs(InputsOf(paths)) == paths
  {
    if paths != [] {
      InputsAppend([Input(paths[0])], InputsOf(paths[1..]));
      InputsOfInputs(paths[1..]);
    }
  }

  /** The command reads exactly the operation's sources, in order. */
  lemma InputsOfSteps(op: Operation, outDir: string, uuid: string)
    ensures Inputs(Steps(op, outDir, uuid)) == Sources(op)
  {
    match op {
      case MergeVideos(inputs, _) => InputsOfInputs(inputs);
      case ImagesToVideo(inputs, o) => InputsOfImagesToVideo(inputs, o);
      case AddWatermark(input, watermark, o) =>
        InputsOfPair(input, watermark, ComplexFilter(WatermarkFilters(o)));
      case ReplaceAudio(input, audio) =>
        InputsOfPair(input, audio, OutputOptions(["-c:v copy", "-map 0:v:0", "-map 1:a:0"]));
      case _ =>
        var rest := Settings(op, outDir, uuid);
        InputsAppend([Input(op.input)], rest);
        InputsOfNonInputs(rest);
    }
  }

  lemma InputsOfImagesToVideo(inputs: seq<string>, o: Options)
    ensures Inputs(LoopedInputs(inputs, Or(o.duration, Num(3)))
                   + [Fps(Or(o.fps, Num(25))), VideoCodec(Str("libx264"))]) == inputs
  {
    var tail := [Fps(Or(o.fps, Num(25))), VideoCodec(Str("libx264"))];
    InputsAppend(LoopedInputs(inputs, Or(o.duration, Num(3))), tail);
    InputsOfLooped(inputs, Or(o.duration, Num(3)));
    InputsOfNonInputs(tail);
  }

  lemma InputsOfPair(a: string, b: string, last: Step)
    requires !last.Input?
    ensures Inputs([Input(a), Input(b), last]) == [a, b]
  {
    InputsAppend([Input(a), Input(b)], [last]);
    InputsAppend([Input(a)], [Input(b)]);
  }

  // ---- output file name ---------------------------------------------------

  /** The shape of a version-4 uuid: 36 hexadecimal digits and dashes. */
  predicate UuidShaped(u: string) {
    |u| == 36 && forall i :: 0 <= i < |u| ==> IsHexDigit(u[i]) || u[i] == '-'
  }

  lemma ExtnameOfJoin(dir: string, name: string)
    requires '/' !in name && name != []
    ensures Paths.Extname(Paths.Join(dir, name)) == Paths.Extname(name)
  {
    Paths.BasenameOfJoin(dir, name);
    Paths.BasenameOfPlain(name);
  }

  /** The output lands in the output directory under the uuid-based name, and
      carries the chosen format, the fixed extension or the input's extension,
      whenever the chosen format is itself a plain extension. */
  lemma OutputPathShape(op: Operation, outDir: string, uuid: string)
    requires UuidShaped(uuid)
    requires SuffixOf(op).Format? ==> Paths.IsExtension("." + ToStr(SuffixOf(op).format))
    ensures Paths.Basename(Plan(op, outDir, uuid).output) == uuid + ExpectedExtension(op)
    ensures Paths.Extname(Plan(op, outDir, uuid).output) == ExpectedExtension(op)
  {
    UuidNamePath(outDir, uuid, ExpectedExtension(op));
  }

  /** A uuid followed by an extension, joined onto a directory, keeps both. */
  lemma UuidNamePath(outDir: string, uuid: string, ext: string)
    requires UuidShaped(uuid) && Paths.IsExtension(ext)
    ensures Paths.Basename(Paths.Join(outDir, uuid + ext)) == uuid + ext
    ensures Paths.Extname(Paths.Join(outDir, uuid + ext)) == ext
  {
    var name := uuid + ext;
    assert '.' !in uuid && '/' !in uuid by {
      forall i | 0 <= i < |uuid| ensures uuid[i] != '.' && uuid[i] != '/' {
        assert IsHexDigit(uuid[i]) || uuid[i] == '-';
      }
    }
    assert '/' !in name by {
      forall i | 0 <= i < |name| ensures name[i] != '/' {
        if i < |uuid| { assert name[i] == uuid[i]; } else { assert name[i] == ext[i - |uuid|]; }
      }
    }
    Paths.BasenameOfJoin(outDir, name);
    ExtnameOfJoin(outDir, name);
    Paths.ExtnameOfStemAndExtension(uuid, ext);
  }

  // ---- size -----------------------------------------------------------------

  lemma IntToStringHasNo(n: int, c: char)
    requires c != '-' && !Text.IsDigit(c)
    ensures c !in Decimal.IntToString(n)
  {
    var r := Decimal.IntToString(n);
    var m := if n < 0 then -n else n;
    var d := Decimal.NatToString(m);
    forall i | 0 <= i < |d| ensures d[i] != c { assert Text.IsDigit(d[i]); }
  }

  /** How FFmpeg reads a `WxH` size: two integers around an `x`. */
  function ParseSize(spec: string): Option<(int, int)> {
    var parts := Text.Split(spec, 'x');
    if |parts| != 2 then None
    else match (ParseInt(parts[0]), ParseInt(parts[1]))
      case (Some(w), Some(h)) => Some((w, h))
      case _ => None
  }

  /** Numeric width and height win over the scale and are read back exactly. */
  lemma SizeSpecDimensions(o: Options)
    requires o.width.Num? && o.height.Num? && o.width.n != 0 && o.height.n != 0
    ensures SizeSpec(o).Some?
    ensures ParseSize(SizeSpec(o).value) == Some((o.width.n, o.height.n))
  {
    var w := Decimal.IntToString(o.width.n);
    var h := Decimal.IntToString(o.height.n);
    IntToStringHasNo(o.width.n, 'x');
    IntToStringHasNo(o.height.n, 'x');
    assert SizeSpec(o).value == w + ['x'] + h;
    Text.SplitAtOnly(w, h, 'x');
    ParseIntOfIntToString(o.width.n);
    ParseIntOfIntToString(o.height.n);
  }

  /** Without both dimensions a truthy scale becomes a percentage. */
  lemma SizeSpecScale(o: Options)
    requires !(Truthy(o.width) && Truthy(o.height)) && o.scale.Num? && o.scale.n != 0
    ensures SizeSpec(o) == Some(Decimal.IntToString(o.scale.n) + "%")
  {
  }

  // ---- rotation -------------------------------------------------------------

  /** FFmpeg's `transpose` directions that are pure rotations, in clockwise
      degrees: `1` turns a quarter clockwise, `2` a quarter counter-clockwise. */
  function TransposeDegrees(code: string): Option<int> {
    if code == "1" then Some(90) else if code == "2" then Some(270) else None
  }

  const TransposeKey := "transpose="

  /** The net clockwise rotation of a comma-separated chain of `transpose`
      filters, modulo a full turn; `None` when a link is not a pure rotation. */
  function ChainRotation(links: seq<string>): Option<int> {
    if links == [] then Some(0)
    else
      var head := links[0];
      if |head| < |TransposeKey| || head[..|TransposeKey|] != TransposeKey then None
      else match (TransposeDegrees(head[|TransposeKey|..]), ChainRotation(links[1..]))
        case (Some(d), Some(rest)) => Some((d + rest) % 360)
        case _ => None
  }

  function FilterRotation(filter: string): Option<int> {
    ChainRotation(Text.Split(filter, ','))
  }

  lemma ChainOfLinks(code: string, links: seq<string>)
    requires TransposeDegrees(code).Some? && ChainRotation(links).Some?
    ensures ChainRotation([TransposeKey + code] + links)
         == Some((TransposeDegrees(code).value + ChainRotation(links).value) % 360)
  {
    var all := [TransposeKey + code] + links;
    assert all[0][..|TransposeKey|] == TransposeKey;
    assert all[0][|TransposeKey|..] == code;
    assert all[1..] == links;
  }

  lemma HalfTurnFilter()
    ensures FilterRotation(TransposeKey + TransposeArg("180")) == Some(180)
  {
    assert TransposeArg("180") == "2,transpose=2";
    HalfTurnChain();
  }

  /** Two counter-clockwise quarter turns make a half turn. */
  lemma HalfTurnChain()
    ensures FilterRotation(TransposeKey + "2,transpose=2") == Some(180)
  {
    var f := TransposeKey + "2,transpose=2";
    var none: seq<string> := [];
    var link := TransposeKey + "2";
    assert "2,transpose=2" == "2" + [','] + link;
    assert f == link + [','] + link;
    Text.SplitAtOnly(link, link, ',');
    ChainOfLinks("2", none);
    assert [link] + none == [link];
    ChainOfLinks("2", [link]);
  }

  /** `270` turns a quarter counter-clockwise, which is 270 degrees clockwise;
      a key `Object.prototype` supplies renders text FFmpeg cannot read as a
      rotation; every other key turns the picture 90 degrees. */
  lemma QuarterTurnFilter(key: string)
    requires key != "180"
    ensures FilterRotation(TransposeKey + TransposeArg(key)) ==
      if InheritedMember(key).Some? then None
      else Some(if key == "270" then 270 else 90)
  {
    if InheritedMember(key).Some? {
      InheritedNoRotation(key);
    } else {
      DeclaredQuarterTurn(key);
    }
  }

  /** An inherited member is rendered into the filter, which is no rotation. */
  lemma InheritedNoRotation(key: string)
    requires InheritedMember(key).Some?
    ensures FilterRotation(TransposeKey + TransposeArg(key)) == None
  {
    InheritedHasNoComma(key);
    NonRotationFilter(InheritedMember(key).value);
  }

  /** A single link whose argument is neither direction code is no rotation. */
  lemma NonRotationFilter(code: string)
    requires ',' !in code && code != "1" && code != "2"
    ensures FilterRotation(TransposeKey + code) == None
  {
    var f := TransposeKey + code;
    assert ',' !in f by {
      forall k | 0 <= k < |f| ensures f[k] != ',' {
        if k >= |TransposeKey| { assert f[k] == code[k - |TransposeKey|]; }
      }
    }
    Text.SplitOfPlain(f, ',');
    assert f[|TransposeKey|..] == code;
  }

  /** A key that is neither 180 nor inherited gives a single quarter turn. */
  lemma DeclaredQuarterTurn(key: string)
    requires key != "180" && InheritedMember(key).None?
    ensures FilterRotation(TransposeKey + TransposeArg(key)) == Some(if key == "270" then 270 else 90)
  {
    var code := TransposeArg(key);
    assert code == (if key == "270" then "2" else "1");
    var f := TransposeKey + code;
    var none: seq<string> := [];
    Text.SplitOfPlain(f, ',');
    ChainOfLinks(code, none);
    assert [f] + none == [f];
  }

  /** The rendered members of `Object.prototype` contain no comma. */
  lemma InheritedHasNoComma(key: string)
    requires InheritedMember(key).Some?
    ensures ',' !in InheritedMember(key).value
    ensures InheritedMember(key).value != "1" && InheritedMember(key).value != "2"
  {
    if key != "constructor" && key != "__proto__" {
      MethodNameHasNoComma(key);
      NativeFunctionText(key);
    }
  }

  lemma MethodNameHasNoComma(key: string)
    requires key in ObjectPrototypeMethods
    ensures ',' !in key
  {
  }

  /** The source text of a native function names it and holds no comma of its own. */
  lemma NativeFunctionText(name: string)
    requires ',' !in name
    ensures ',' !in "function " + name + "() { [native code] }"
  {
    var v := "function " + name + "() { [native code] }";
    forall k | 0 <= k < |v| ensures v[k] != ',' {
      if 9 <= k < 9 + |name| { assert v[k] == name[k - 9]; }
    }
  }

  /** The rotation filter turns the picture clockwise by the requested angle
      when it is 90, 180 or 270 (as a number or a string), is no rotation at
      all for a key `Object.prototype` supplies, and turns by 90 otherwise. */
  lemma RotateFilterAngle(angle: Param)
    ensures var key := ToStr(angle);
      FilterRotation(RotateFilter(angle)) ==
        if key == "180" then Some(180)
        else if key == "270" then Some(270)
        else if InheritedMember(key).Some? then None
        else Some(90)
  {
    if ToStr(angle) == "180" {
      HalfTurnFilter();
    } else {
      QuarterTurnFilter(ToStr(angle));
    }
  }
}
