/**
 * The download endpoint: the owner of a job with an existing output file
 * receives it with a content type chosen by extension and a
 * `Content-Disposition` header naming it.
 */
module Download {
  import opened Wrappers
  import opened Jobs
  import Text
  import Paths
  import Disposition
  import T = Transcoder
  import Process

  /** The extension table, keyed by lower-case extension. */
  const MimeTypes: seq<(string, string)> := [
    (".mp4", "video/mp4"),
    (".avi", "video/x-msvideo"),
    (".mov", "video/quicktime"),
    (".mkv", "video/x-matroska"),
    (".webm", "video/webm"),
    (".flv", "video/x-flv"),
    (".gif", "image/gif"),
    (".jpg", "image/jpeg"),
    (".jpeg", "image/jpeg"),
    (".png", "image/png"),
    (".webp", "image/webp"),
    (".bmp", "image/bmp"),
    (".mp3", "audio/mpeg"),
    (".wav", "audio/wav"),
    (".aac", "audio/aac")]

  const Fallback := "application/octet-stream"

  predicate Known(ext: string) {
    exists i :: 0 <= i < |MimeTypes| && MimeTypes[i].0 == ext
  }

  function Lookup(ext: string, table: seq<(string, string)>): (r: Option<string>)
    ensures r.Some? <==> exists i :: 0 <= i < |table| && table[i].0 == ext
    ensures r.Some? ==> exists i :: 0 <= i < |table| && table[i] == (ext, r.value)
  {
    if table == [] then None
    else if table[0].0 == ext then Some(table[0].1)
    else
      var r := Lookup(ext, table[1..]);
      assert forall i :: 1 <= i < |table| ==> table[i] == table[1..][i - 1];
      r
  }

  /** `mimeTypes[ext] || 'application/octet-stream'`. */
  function MimeType(ext: string): (r: string)
    ensures Known(ext) ==> exists i :: 0 <= i < |MimeTypes| && MimeTypes[i] == (ext, r)
    ensures !Known(ext) <==> r == Fallback
  {
    var r := Lookup(ext, MimeTypes);
    if r.Some? then r.value else Fallback
  }

  /** The content type of a file name: by its extension, in lower case. */
  function ContentType(filename: string): string {
    MimeType(Text.ToLower(Paths.Extname(filename)))
  }

  /** The file of a download and the headers it is sent with. */
  datatype Reply = Reply(path: string, filename: string, contentType: string, disposition: string,
                         exposeHeaders: string)

  /** The job is the caller's and its recorded output is a non-empty path that exists. */
  predicate OutputReady(w: Process.World, userId: nat, jobId: nat) {
    && Has(w.jobs, jobId) && Get(w.jobs, jobId).userId == userId
    && var f := Get(w.jobs, jobId).outputFile; f.Some? && f.value != [] && f.value in w.files
  }

  /** `GET /download/:jobId`. An error is sent with status 404. The
      `Content-Disposition` set before `res.download` is replaced by the one
      `res.download` writes, so the reply carries the latter. */
  function DownloadFile(w: Process.World, userId: nat, jobId: nat): (r: Result<Reply, string>)
    ensures r == Err("Job not found") <==> !(Has(w.jobs, jobId) && Get(w.jobs, jobId).userId == userId)
    ensures r == Err("Output file not found") <==>
              Has(w.jobs, jobId) && Get(w.jobs, jobId).userId == userId && !OutputReady(w, userId, jobId)
    ensures r.Ok? <==> OutputReady(w, userId, jobId)
    ensures r.Ok? ==>
      && Get(w.jobs, jobId).outputFile == Some(r.value.path) && r.value.path in w.files
      && r.value.filename == Paths.Basename(r.value.path)
      && r.value.contentType == MimeType(Text.ToLower(Paths.Extname(r.value.filename)))
      && r.value.disposition == Disposition.ExpressHeader(r.value.filename)
      && r.value.exposeHeaders == "Content-Disposition"
  {
    match FindOwned(w.jobs, jobId, userId)
    case None => Err("Job not found")
    case Some(job) =>
      if job.outputFile.None? || job.outputFile.value == [] || job.outputFile.value !in w.files then
        Err("Output file not found")
      else
        var path := job.outputFile.value;
        var filename := Paths.Basename(path);
        Ok(Reply(path, filename, ContentType(filename), Disposition.ExpressHeader(filename), "Content-Disposition"))
  }

  // ---- properties ---------------------------------------------------------------

  /** Another user's job is reported missing, exactly as an unknown id is. */
  lemma DownloadOwnerOnly(w: Process.World, userId: nat, jobId: nat)
    requires !(Has(w.jobs, jobId) && Get(w.jobs, jobId).userId == userId)
    ensures DownloadFile(w, userId, jobId) == Err("Job not found")
  {
  }

  /** An extension written with KELVIN SIGN for its `k` is lower-cased into the
      table, as JavaScript's `toLowerCase` does. */
  lemma KelvinSignExtension(stem: string)
    requires '.' !in stem && '/' !in stem && stem != []
    ensures ContentType(stem + ".m\U{212A}v") == "video/x-matroska"
  {
    var ext := ".m\U{212A}v";
    assert Paths.IsExtension(ext);
    Paths.ExtnameOfStemAndExtension(stem, ext);
    KelvinLowered();
    MatroskaType();
  }

  lemma KelvinLowered()
    ensures Text.ToLower(".m\U{212A}v") == ".mkv"
  {
    var s := ".m\U{212A}v";
    assert s[1..][1..][1..] == "v";
    assert Text.ToLower(s[1..][1..]) == "kv";
  }

  lemma MatroskaType()
    ensures MimeType(".mkv") == "video/x-matroska"
  {
    var t := MimeTypes;
    assert t[3] == (".mkv", "video/x-matroska");
    assert t[0].0 == ".mp4" && t[1].0 == ".avi" && t[2].0 == ".mov";
    LookupFirst(".mkv", t, 3);
  }

  /** The lookup returns the entry of the first row with the key. */
  lemma {:induction false} LookupFirst(ext: string, table: seq<(string, string)>, i: nat)
    requires i < |table| && table[i].0 == ext
    requires forall k :: 0 <= k < i ==> table[k].0 != ext
    ensures Lookup(ext, table) == Some(table[i].1)
    decreases i
  {
    if i > 0 {
      assert forall k :: 0 <= k < i - 1 ==> table[1..][k] == table[k + 1];
      LookupFirst(ext, table[1..], i - 1);
    }
  }

  /** The extension decides the type whatever its letter case. */
  lemma ContentTypeIgnoresCase(a: string, b: string)
    requires Text.ToLower(Paths.Extname(a)) == Text.ToLower(Paths.Extname(b))
    ensures ContentType(a) == ContentType(b)
  {
  }

  /** After a successful processing call the same user can download the result:
      the reply names the file the call returned, its type is the one the
      table gives that name's extension, and for a plain name the client reads
      that very name back out of the `Content-Disposition` header sent. */
  lemma ProcessThenDownload(w: Process.World, cfg: Process.Config, userId: nat, r: Process.Request,
                            uuid: string, now: int)
    requires Valid(w.jobs) && Process.Accepted(w, cfg, r)
    requires Process.Handle(w, cfg, userId, r, uuid, Process.ToolSucceeded, now).1.outputFile != []
    ensures var (w', resp) := Process.Handle(w, cfg, userId, r, uuid, Process.ToolSucceeded, now);
      var d := DownloadFile(w', userId, resp.jobId);
      && d.Ok? && d.value.filename == resp.outputFile
      && d.value.contentType == ContentType(resp.outputFile)
      && (Disposition.PlainName(resp.outputFile) ==>
            Disposition.ParseFilename(Some(d.value.disposition)) == Some(resp.outputFile))
  {
    var (w', resp) := Process.Handle(w, cfg, userId, r, uuid, Process.ToolSucceeded, now);
    var path := OutputReadyAfterProcessing(w, cfg, userId, r, uuid, now);
    var d := DownloadFile(w', userId, resp.jobId);
    assert d.Ok? && d.value.path == path;
    if Disposition.PlainName(resp.outputFile) {
      Disposition.SentHeaderRoundTrip(resp.outputFile);
    }
  }

  /** A successful processing call leaves its job ready for download, its
      output recorded under the path whose base name the call returned. */
  lemma OutputReadyAfterProcessing(w: Process.World, cfg: Process.Config, userId: nat,
                                   r: Process.Request, uuid: string, now: int) returns (path: string)
    requires Valid(w.jobs) && Process.Accepted(w, cfg, r)
    requires Process.Handle(w, cfg, userId, r, uuid, Process.ToolSucceeded, now).1.outputFile != []
    ensures var (w', resp) := Process.Handle(w, cfg, userId, r, uuid, Process.ToolSucceeded, now);
      && OutputReady(w', userId, resp.jobId)
      && Get(w'.jobs, resp.jobId).outputFile == Some(path)
      && Paths.Basename(path) == resp.outputFile
  {
    Process.HandleAccepted(w, cfg, userId, r, uuid, Process.ToolSucceeded, now);
    var (w', resp) := Process.Handle(w, cfg, userId, r, uuid, Process.ToolSucceeded, now);
    var n := |w.jobs.rows|;
    var job := w'.jobs.rows[n];
    assert Has(w'.jobs, resp.jobId) && Get(w'.jobs, resp.jobId) == job;
    path := job.outputFile.value;
    assert path in w'.files && path != [];
  }
}
