/**
 * The processing endpoints: each resolves the uploaded files named in the
 * request, refuses missing ones, records a job in `processing`, runs the
 * FFmpeg command and settles the job as completed or failed. Whether FFmpeg
 * succeeds is an oracle.
 */
module Process {
  import opened Wrappers
  import opened JsValue
  import opened Jobs
  import T = Transcoder
  import Paths
  import Text

  /** `UPLOAD_DIR` and `OUTPUT_DIR`, each falling back to its default. */
  datatype Config = Config(uploadDir: string, outputDir: string)

  function ConfigFromEnv(uploadDir: Option<string>, outputDir: Option<string>): (c: Config)
    ensures c.uploadDir == EnvOr(uploadDir, "uploads") && c.outputDir == EnvOr(outputDir, "outputs")
    ensures c.uploadDir != [] && c.outputDir != []
  {
    Config(EnvOr(uploadDir, "uploads"), EnvOr(outputDir, "outputs"))
  }

  /** The request bodies of the ten endpoints. `fileIds` is `None` when the
      body's value is not an array. */
  datatype Request =
    | ConvertVideo(fileId: Param, outputFormat: Param, videoCodec: Param, audioCodec: Param)
    | CompressVideo(fileId: Param, videoBitrate: Param, audioBitrate: Param,
                    width: Param, height: Param, scale: Param, fps: Param)
    | CutVideo(fileId: Param, startTime: Param, duration: Param)
    | MergeVideos(fileIds: Option<seq<Param>>, outputFormat: Param)
    | RotateVideo(fileId: Param, angle: Param)
    | ExtractAudio(fileId: Param, outputFormat: Param)
    | VideoToGif(fileId: Param, startTime: Param, duration: Param, width: Param, fps: Param)
    | AddWatermark(fileId: Param, watermarkFileId: Param, position: Param, width: Param)
    | ConvertImage(fileId: Param, outputFormat: Param)
    | ResizeImage(fileId: Param, width: Param, height: Param, scale: Param, quality: Param)

  /** The stored job type, the success message and the failure message of each endpoint. */
  function JobType(r: Request): string {
    match r
    case ConvertVideo(_, _, _, _) => "video_convert"
    case CompressVideo(_, _, _, _, _, _, _) => "video_compress"
    case CutVideo(_, _, _) => "video_cut"
    case MergeVideos(_, _) => "video_merge"
    case RotateVideo(_, _) => "video_rotate"
    case ExtractAudio(_, _) => "extract_audio"
    case VideoToGif(_, _, _, _, _) => "video_to_gif"
    case AddWatermark(_, _, _, _) => "add_watermark"
    case ConvertImage(_, _) => "image_convert"
    case ResizeImage(_, _, _, _, _) => "image_resize"
  }

  function SuccessMessage(r: Request): string {
    match r
    case ConvertVideo(_, _, _, _) => "Video converted successfully"
    case CompressVideo(_, _, _, _, _, _, _) => "Video compressed successfully"
    case CutVideo(_, _, _) => "Video cut successfully"
    case MergeVideos(_, _) => "Videos merged successfully"
    case RotateVideo(_, _) => "Video rotated successfully"
    case ExtractAudio(_, _) => "Audio extracted successfully"
    case VideoToGif(_, _, _, _, _) => "GIF created successfully"
    case AddWatermark(_, _, _, _) => "Watermark added successfully"
    case ConvertImage(_, _) => "Image converted successfully"
    case ResizeImage(_, _, _, _, _) => "Image resized successfully"
  }

  function FailureMessage(r: Request): string {
    match r
    case ConvertVideo(_, _, _, _) => "Video conversion failed"
    case CompressVideo(_, _, _, _, _, _, _) => "Video compression failed"
    case CutVideo(_, _, _) => "Video cutting failed"
    case MergeVideos(_, _) => "Video merging failed"
    case RotateVideo(_, _) => "Video rotation failed"
    case ExtractAudio(_, _) => "Audio extraction failed"
    case VideoToGif(_, _, _, _, _) => "GIF creation failed"
    case AddWatermark(_, _, _, _) => "Watermark addition failed"
    case ConvertImage(_, _) => "Image conversion failed"
    case ResizeImage(_, _, _, _, _) => "Image resizing failed"
  }

  /** The ids a request names, in the order the endpoint joins them onto the
      upload directory. */
  function FileIds(r: Request): Option<seq<Param>> {
    match r
    case MergeVideos(ids, _) => ids
    case AddWatermark(id, wm, _, _) => Some([id, wm])
    case _ => Some([r.fileId])
  }

  /** `path.join(uploadDir, id)` for every id; `None` when one is not a string,
      where `path.join` throws a type error. */
  function ResolvePaths(cfg: Config, ids: seq<Param>): (r: Option<seq<string>>)
    ensures r.Some? <==> forall i :: 0 <= i < |ids| ==> ids[i].Str?
    ensures r.Some? ==> |r.value| == |ids|
    ensures r.Some? ==> forall i :: 0 <= i < |ids| ==> r.value[i] == Paths.Join(cfg.uploadDir, ids[i].s)
  {
    if ids == [] then Some([])
    else if !ids[0].Str? then None
    else match ResolvePaths(cfg, ids[1..])
      case None => None
      case Some(rest) => Some([Paths.Join(cfg.uploadDir, ids[0].s)] + rest)
  }

  /** The existence checks in the order the endpoint makes them: each path with
      the 404 message returned when it is missing. */
  function Checks(r: Request, paths: seq<string>): (c: seq<(string, string)>)
    ensures |c| == |paths|
    ensures forall i :: 0 <= i < |c| ==> c[i].0 == paths[i]
    ensures r.MergeVideos? ==> forall i :: 0 <= i < |c| ==> c[i].1 == "File not found: " + Paths.Basename(paths[i])
    ensures r.AddWatermark? ==> forall i :: 0 <= i < |c| ==>
              c[i].1 == (if i == 0 then "Input file not found" else "Watermark file not found")
    ensures !r.MergeVideos? && !r.AddWatermark? ==> forall i :: 0 <= i < |c| ==> c[i].1 == "File not found"
  {
    match r
    case MergeVideos(_, _) =>
      seq(|paths|, i requires 0 <= i < |paths| => (paths[i], "File not found: " + Paths.Basename(paths[i])))
    case AddWatermark(_, _, _, _) =>
      seq(|paths|, i requires 0 <= i < |paths| =>
        (paths[i], if i == 0 then "Input file not found" else "Watermark file not found"))
    case _ => seq(|paths|, i requires 0 <= i < |paths| => (paths[i], "File not found"))
  }

  /** Check `i` is the first whose path is missing. */
  predicate MissingAt(checks: seq<(string, string)>, files: set<string>, i: int) {
    && 0 <= i < |checks| && checks[i].0 !in files
    && forall k :: 0 <= k < i ==> checks[k].0 in files
  }

  /** The message of the first failing check, if any. */
  function FirstMissing(checks: seq<(string, string)>, files: set<string>): (r: Option<string>)
    ensures r.None? <==> forall i :: 0 <= i < |checks| ==> checks[i].0 in files
    ensures r.Some? ==> exists i :: MissingAt(checks, files, i) && r.value == checks[i].1
  {
    if checks == [] then None
    else if checks[0].0 !in files then Some(checks[0].1)
    else
      var r := FirstMissing(checks[1..], files);
      assert r.Some? ==> exists i :: MissingAt(checks, files, i) && r.value == checks[i].1 by {
        if r.Some? {
          var i :| MissingAt(checks[1..], files, i) && r.value == checks[1..][i].1;
          forall k | 0 <= k < i + 1 ensures checks[k].0 in files {
            if k > 0 { assert checks[k] == checks[1..][k - 1]; }
          }
          assert MissingAt(checks, files, i + 1);
        }
      }
      assert r.None? ==> forall i :: 0 <= i < |checks| ==> checks[i].0 in files by {
        if r.None? {
          forall i | 0 <= i < |checks| ensures checks[i].0 in files {
            if i > 0 { assert checks[i] == checks[1..][i - 1]; }
          }
        }
      }
      r
  }

  /** The `original_file` column: the joined list for a merge, otherwise the main input. */
  function OriginalFile(r: Request, paths: seq<string>): string {
    if r.MergeVideos? then Text.Join(paths, ",") else if paths == [] then [] else paths[0]
  }

  /** The `parameters` column: the request's options, as the endpoint lists them. */
  function Parameters(r: Request): seq<(string, Value)> {
    match r
    case ConvertVideo(_, f, vc, ac) =>
      [("outputFormat", Scalar(f)), ("videoCodec", Scalar(vc)), ("audioCodec", Scalar(ac))]
    case CompressVideo(_, vb, ab, w, h, s, fps) =>
      [("videoBitrate", Scalar(vb)), ("audioBitrate", Scalar(ab)), ("width", Scalar(w)),
       ("height", Scalar(h)), ("scale", Scalar(s)), ("fps", Scalar(fps))]
    case CutVideo(_, st, d) => [("startTime", Scalar(st)), ("duration", Scalar(d))]
    case MergeVideos(ids, f) =>
      [("fileIds", List(ids.GetOr([]))), ("outputFormat", Scalar(f))]
    case RotateVideo(_, a) => [("angle", Scalar(a))]
    case ExtractAudio(_, f) => [("outputFormat", Scalar(f))]
    case VideoToGif(_, st, d, w, fps) =>
      [("startTime", Scalar(st)), ("duration", Scalar(d)), ("width", Scalar(w)), ("fps", Scalar(fps))]
    case AddWatermark(_, wm, pos, w) =>
      [("watermarkFileId", Scalar(wm)), ("position", Scalar(pos)), ("width", Scalar(w))]
    case ConvertImage(_, f) => [("outputFormat", Scalar(f))]
    case ResizeImage(_, w, h, s, q) =>
      [("width", Scalar(w)), ("height", Scalar(h)), ("scale", Scalar(s)), ("quality", Scalar(q))]
  }

  /** The media-service call each endpoint makes with the resolved paths. */
  function ToOperation(r: Request, paths: seq<string>): (op: T.Operation)
    requires |paths| >= (if r.MergeVideos? then 0 else if r.AddWatermark? then 2 else 1)
  {
    var o := T.NoOptions;
    match r
    case ConvertVideo(_, f, vc, ac) => T.ConvertVideo(paths[0], f, o.(videoCodec := vc, audioCodec := ac))
    case CompressVideo(_, vb, ab, w, h, s, fps) =>
      T.CompressVideo(paths[0], o.(videoBitrate := vb, audioBitrate := ab, width := w, height := h,
                                   scale := s, fps := fps))
    case CutVideo(_, st, d) => T.CutVideo(paths[0], st, d)
    case MergeVideos(_, f) => T.MergeVideos(paths, f)
    case RotateVideo(_, a) => T.RotateVideo(paths[0], a)
    case ExtractAudio(_, f) => T.ExtractAudio(paths[0], f)
    case VideoToGif(_, st, d, w, fps) =>
      T.VideoToGif(paths[0], o.(startTime := st, duration := d, width := w, fps := fps))
    case AddWatermark(_, _, pos, w) => T.AddWatermark(paths[0], paths[1], o.(position := pos, width := w))
    case ConvertImage(_, f) => T.ConvertImage(paths[0], f)
    case ResizeImage(_, w, h, s, q) =>
      T.ResizeImage(paths[0], o.(width := w, height := h, scale := s, quality := q))
  }

  /** What becomes of the FFmpeg run: it ends, or fails with an error message. */
  datatype ToolOutcome = ToolSucceeded | ToolFailed(message: string)

  /** Why a 500 was sent: a non-string file id or the tool's error. */
  datatype Cause = InvalidArgument | ToolError(message: string)

  datatype Response =
    | Processed(message: string, jobId: nat, outputFile: string)
    | NotFound(error: string)
    | ServerError(error: string, cause: Cause)

  function StatusCode(r: Response): int {
    match r
    case Processed(_, _, _) => 200
    case NotFound(_) => 404
    case ServerError(_, _) => 500
  }

  /** The job table and the set of existing file paths. */
  datatype World = World(jobs: JobTable, files: set<string>)

  /** The paths a request resolves to, if every id is a string. */
  function Resolved(cfg: Config, r: Request): Option<seq<string>> {
    match FileIds(r)
    case None => None
    case Some(ids) => ResolvePaths(cfg, ids)
  }

  /** Every id is a string and every file exists: the endpoint creates a job. */
  predicate Accepted(w: World, cfg: Config, r: Request) {
    var paths := Resolved(cfg, r);
    paths.Some? && FirstMissing(Checks(r, paths.value), w.files).None?
  }

  lemma ResolvedLength(cfg: Config, r: Request)
    requires Resolved(cfg, r).Some?
    ensures |Resolved(cfg, r).value| == (if r.MergeVideos? then |r.fileIds.value| else if r.AddWatermark? then 2 else 1)
  {
  }

  /** The output path the endpoint's command writes to. */
  function OutputPath(cfg: Config, r: Request, paths: seq<string>, uuid: string): string
    requires |paths| >= (if r.MergeVideos? then 0 else if r.AddWatermark? then 2 else 1)
  {
    T.Plan(ToOperation(r, paths), cfg.outputDir, uuid).output
  }

  /** One call of a processing endpoint by user `userId` at time `now`. */
  function Handle(w: World, cfg: Config, userId: nat, r: Request, uuid: string,
                  tool: ToolOutcome, now: int): (res: (World, Response))
    ensures Valid(w.jobs) ==> Valid(res.0.jobs)
  {
    match Resolved(cfg, r)
    case None => (w, ServerError(FailureMessage(r), InvalidArgument))
    case Some(paths) =>
      match FirstMissing(Checks(r, paths), w.files)
      case Some(error) => (w, NotFound(error))
      case None =>
        ResolvedLength(cfg, r);
        var attrs := NewJob(userId, OriginalFile(r, paths), JobType(r), Some(Processing), Parameters(r));
        var (t1, job) := Create(w.jobs, attrs, now);
        var out := OutputPath(cfg, r, paths, uuid);
        match tool
        case ToolSucceeded =>
          (World(Save(t1, Complete(job, out, now)), w.files + {out}),
           Processed(SuccessMessage(r), job.id, Paths.Basename(out)))
        case ToolFailed(m) =>
          (World(Save(t1, Fail(job, m, now)), w.files), ServerError(FailureMessage(r), ToolError(m)))
  }

  /** The `getJobStatus` body. */
  datatype StatusView = StatusView(
    jobId: nat, status: JobStatus, jobType: string, outputFile: Option<string>,
    errorMessage: Option<string>, createdAt: int, completedAt: Option<int>)

  /** `job.output_file ? path.basename(job.output_file) : null`. */
  function ShownOutput(f: Option<string>): (r: Option<string>)
    ensures r.Some? <==> f.Some? && f.value != []
    ensures r.Some? ==> r.value == Paths.Basename(f.value)
  {
    if f.Some? && f.value != [] then Some(Paths.Basename(f.value)) else None
  }

  /** `GET /status/:jobId`: only the owner sees a job; anyone else gets a 404. */
  function GetJobStatus(t: JobTable, userId: nat, jobId: nat): (r: Result<StatusView, string>)
    ensures r.Ok? <==> Has(t, jobId) && Get(t, jobId).userId == userId
    ensures r.Err? ==> r.error == "Job not found"
    ensures r.Ok? ==> r.value.jobId == Get(t, jobId).id && r.value.status == Get(t, jobId).status
  {
    match FindOwned(t, jobId, userId)
    case None => Err("Job not found")
    case Some(j) =>
      Ok(StatusView(j.id, j.status, j.jobType, ShownOutput(j.outputFile), j.errorMessage,
                    j.createdAt, j.completedAt))
  }

  // ---- properties of one call ----------------------------------------------

  /** A request with a non-string id fails with a 500 and a missing file with
      the first failing check's 404; neither touches the jobs or the files. */
  lemma HandleRejected(w: World, cfg: Config, userId: nat, r: Request, uuid: string,
                       tool: ToolOutcome, now: int)
    requires !Accepted(w, cfg, r)
    ensures Handle(w, cfg, userId, r, uuid, tool, now).0 == w
    ensures Resolved(cfg, r).None? ==>
      Handle(w, cfg, userId, r, uuid, tool, now).1 == ServerError(FailureMessage(r), InvalidArgument)
    ensures Resolved(cfg, r).Some? ==>
      exists i :: MissingAt(Checks(r, Resolved(cfg, r).value), w.files, i)
        && Handle(w, cfg, userId, r, uuid, tool, now).1 == NotFound(Checks(r, Resolved(cfg, r).value)[i].1)
  {
  }

  /** The 404 message of the endpoint for the path checked at position `i`. */
  function MissingText(r: Request, path: string, i: nat): string {
    if r.MergeVideos? then "File not found: " + Paths.Basename(path)
    else if r.AddWatermark? then (if i == 0 then "Input file not found" else "Watermark file not found")
    else "File not found"
  }

  /** A request whose files do not all exist answers 404 for the first missing
      file in the endpoint's order: a merge names that file, the watermark
      endpoint says whether the input or the watermark is missing, and every
      other endpoint says only that the file is missing. */
  lemma NotFoundMessage(w: World, cfg: Config, userId: nat, r: Request, uuid: string,
                        tool: ToolOutcome, now: int)
    requires Resolved(cfg, r).Some? && !Accepted(w, cfg, r)
    ensures var paths := Resolved(cfg, r).value;
      exists i :: 0 <= i < |paths| && paths[i] !in w.files
        && (forall k :: 0 <= k < i ==> paths[k] in w.files)
        && Handle(w, cfg, userId, r, uuid, tool, now).1 == NotFound(MissingText(r, paths[i], i))
  {
    var paths := Resolved(cfg, r).value;
    var checks := Checks(r, paths);
    var missing := RejectedAnswer(w, cfg, userId, r, uuid, tool, now);
    var i :| MissingAt(checks, w.files, i) && missing == checks[i].1;
    FirstMissingPath(r, paths, w.files, i);
  }

  /** A rejected request with resolvable ids answers the first failing check's 404. */
  lemma RejectedAnswer(w: World, cfg: Config, userId: nat, r: Request, uuid: string,
                       tool: ToolOutcome, now: int) returns (missing: string)
    requires Resolved(cfg, r).Some? && !Accepted(w, cfg, r)
    ensures FirstMissing(Checks(r, Resolved(cfg, r).value), w.files) == Some(missing)
    ensures Handle(w, cfg, userId, r, uuid, tool, now).1 == NotFound(missing)
  {
    missing := FirstMissing(Checks(r, Resolved(cfg, r).value), w.files).value;
  }

  /** The check that fails first is the first missing path, with the
      endpoint's message for it. */
  lemma FirstMissingPath(r: Request, paths: seq<string>, files: set<string>, i: int)
    requires MissingAt(Checks(r, paths), files, i)
    ensures 0 <= i < |paths| && paths[i] !in files && (forall k :: 0 <= k < i ==> paths[k] in files)
    ensures Checks(r, paths)[i].1 == MissingText(r, paths[i], i)
  {
    var checks := Checks(r, paths);
    assert forall k :: 0 <= k < i ==> checks[k].0 == paths[k];
  }

  /** An accepted request appends exactly one job, owned by the caller, of the
      endpoint's type, already settled: completed with the output recorded and
      created when FFmpeg succeeds, failed with its message otherwise. */
  lemma HandleAccepted(w: World, cfg: Config, userId: nat, r: Request, uuid: string,
                       tool: ToolOutcome, now: int)
    requires Valid(w.jobs) && Accepted(w, cfg, r)
    ensures var (w', resp) := Handle(w, cfg, userId, r, uuid, tool, now);
      var n := |w.jobs.rows|;
      && |w'.jobs.rows| == n + 1 && w'.jobs.rows[..n] == w.jobs.rows
      && w'.jobs.rows[n].id == w.jobs.NextId()
      && w'.jobs.rows[n].userId == userId
      && w'.jobs.rows[n].jobType == JobType(r)
      && Terminal(w'.jobs.rows[n].status)
      && (w'.jobs.rows[n].status == Completed <==> tool.ToolSucceeded?)
      && (tool.ToolSucceeded? ==>
            && w'.jobs.rows[n].outputFile.Some?
            && w'.files == w.files + {w'.jobs.rows[n].outputFile.value}
            && resp == Processed(SuccessMessage(r), w.jobs.NextId(),
                                 Paths.Basename(w'.jobs.rows[n].outputFile.value)))
      && (tool.ToolFailed? ==>
            && w'.files == w.files
            && w'.jobs.rows[n].errorMessage == Some(tool.message)
            && resp == ServerError(FailureMessage(r), ToolError(tool.message)))
  {
    var (w', resp) := Handle(w, cfg, userId, r, uuid, tool, now);
    var n := |w.jobs.rows|;
    assert w'.jobs.rows[..n] == w.jobs.rows by {
      forall i | 0 <= i < n ensures w'.jobs.rows[i] == w.jobs.rows[i] {
        assert Has(w.jobs, i + 1) && Get(w'.jobs, i + 1) == Get(w.jobs, i + 1);
      }
    }
  }

  /** After an accepted call the caller can look the job up, sees it settled
      and, on success, sees the same output name the call returned; another
      user cannot see it. */
  lemma HandleThenStatus(w: World, cfg: Config, userId: nat, other: nat, r: Request, uuid: string,
                         tool: ToolOutcome, now: int)
    requires Valid(w.jobs) && Accepted(w, cfg, r) && other != userId
    ensures var (w', resp) := Handle(w, cfg, userId, r, uuid, tool, now);
      var st := GetJobStatus(w'.jobs, userId, w.jobs.NextId());
      && st.Ok? && Terminal(st.value.status)
      && (resp.Processed? ==> st.value.status == Completed && st.value.outputFile == Some(resp.outputFile))
      && (resp.ServerError? ==> st.value.status == Failed && st.value.errorMessage == Some(resp.cause.message))
      && GetJobStatus(w'.jobs, other, w.jobs.NextId()) == Err("Job not found")
  {
    HandleAccepted(w, cfg, userId, r, uuid, tool, now);
    var (w', resp) := Handle(w, cfg, userId, r, uuid, tool, now);
    var n := |w.jobs.rows|;
    assert Get(w'.jobs, w.jobs.NextId()) == w'.jobs.rows[n];
    if resp.Processed? {
      assert w'.jobs.rows[n].outputFile.value != [];
    }
  }

  /** A successful call returns the uuid-based name with the extension the
      operation promises (the input's own, a fixed one, or the chosen format). */
  lemma HandleOutputName(w: World, cfg: Config, userId: nat, r: Request, uuid: string, now: int)
    requires Accepted(w, cfg, r) && T.UuidShaped(uuid)
    requires var op := ToOperation(r, Resolved(cfg, r).value);
      T.SuffixOf(op).Format? ==> Paths.IsExtension("." + ToStr(T.SuffixOf(op).format))
    ensures var resp := Handle(w, cfg, userId, r, uuid, ToolSucceeded, now).1;
      resp.Processed? && resp.outputFile == uuid + T.ExpectedExtension(ToOperation(r, Resolved(cfg, r).value))
  {
    ResolvedLength(cfg, r);
    T.OutputPathShape(ToOperation(r, Resolved(cfg, r).value), cfg.outputDir, uuid);
  }
}
