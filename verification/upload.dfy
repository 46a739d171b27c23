/**
 * File upload: the MIME allow-list, the name under which an accepted file
 * is stored, the size limit, and the metadata the upload endpoints return.
 */
module Upload {
  import opened Wrappers
  import opened JsValue
  import Text
  import Decimal
  import Paths
  import T = Transcoder
  import Process

  /** The fifteen MIME types the upload filter lets through: video, then image. */
  const AllowedMimes: seq<string> := [
    "video/mp4", "video/avi", "video/x-msvideo", "video/quicktime",
    "video/x-matroska", "video/webm", "video/x-flv", "video/mpeg",
    "image/jpeg", "image/png", "image/gif", "image/webp", "image/bmp",
    "image/tiff", "image/svg+xml"]

  const InvalidTypeMessage := "Invalid file type. Only video and image files are allowed."

  /** `500 * 1024 * 1024`, the size limit when none is configured. */
  const DefaultMaxFileSize := 524288000

  /** What the filter answers for one file. */
  datatype Verdict = Accept | Reject(error: string)

  /** The file filter: accept exactly the allow-listed MIME types. */
  function FileFilter(mimetype: string): (v: Verdict)
    ensures v.Accept? <==> mimetype in AllowedMimes
    ensures v.Reject? ==> v.error == InvalidTypeMessage
  {
    if mimetype in AllowedMimes then Accept else Reject(InvalidTypeMessage)
  }

  /** Every accepted type is a video or an image type. */
  lemma AcceptedIsVideoOrImage(mimetype: string)
    requires FileFilter(mimetype).Accept?
    ensures Text.StartsWith(mimetype, "video/") || Text.StartsWith(mimetype, "image/")
  {
    var i :| 0 <= i < |AllowedMimes| && AllowedMimes[i] == mimetype;
    if i < 8 {
      assert AllowedMimes[i][..6] == "video/";
    } else {
      assert AllowedMimes[i][..6] == "image/";
    }
  }

  /** No audio type passes the filter, even those the service can produce. */
  lemma AudioRejected(mimetype: string)
    requires Text.StartsWith(mimetype, "audio/")
    ensures FileFilter(mimetype) == Reject(InvalidTypeMessage)
  {
    assert mimetype[0] == 'a';
    forall i | 0 <= i < |AllowedMimes| ensures AllowedMimes[i] != mimetype {
      assert AllowedMimes[i][0] == 'v' || AllowedMimes[i][0] == 'i';
    }
  }

  /** The stored name: a fresh identifier followed by the original name's extension. */
  function StoredName(uuid: string, originalname: string): (r: string)
    ensures Text.StartsWith(r, uuid)
    ensures |r| >= |uuid|
  {
    uuid + Paths.Extname(originalname)
  }

  /** The stored name keeps the original extension and nothing else of the
      original name, and the upload directory's base name lookup finds it. */
  lemma StoredNameShape(uuid: string, originalname: string)
    requires T.UuidShaped(uuid)
    ensures Paths.Extname(StoredName(uuid, originalname)) == Paths.Extname(originalname)
    ensures StoredName(uuid, originalname)[..|uuid|] == uuid
    ensures '/' !in StoredName(uuid, originalname)
  {
    var e := Paths.Extname(originalname);
    assert '.' !in uuid && '/' !in uuid by {
      forall k | 0 <= k < |uuid| ensures uuid[k] != '.' && uuid[k] != '/' {
        assert JsValue.IsHexDigit(uuid[k]) || uuid[k] == '-';
      }
    }
    Paths.ExtnameOfStemAndExtension(uuid, e);
    var r := StoredName(uuid, originalname);
    forall k | 0 <= k < |r| ensures r[k] != '/' {
      if k < |uuid| { assert r[k] == uuid[k]; } else { assert r[k] == e[k - |uuid|]; }
    }
  }

  /** `parseInt(process.env.MAX_FILE_SIZE) || 500 * 1024 * 1024`. */
  function SizeLimit(env: Option<string>): (limit: int)
    ensures limit != 0
  {
    ParsedOr(ParseIntParam(Env(env)), DefaultMaxFileSize)
  }

  /** A setting `parseInt` reads as NaN or zero gives 500 MiB, and any other
      number it reads is the limit; so an unset, empty or non-numeric setting
      falls back, and a decimal setting is used as written. */
  lemma SizeLimitFallback(setting: string, n: nat)
    ensures ParseInt(setting).None? || ParseInt(setting) == Some(0) ==>
              SizeLimit(Some(setting)) == DefaultMaxFileSize
    ensures ParseInt(setting).Some? && ParseInt(setting).value != 0 ==>
              SizeLimit(Some(setting)) == ParseInt(setting).value
    ensures SizeLimit(None) == DefaultMaxFileSize && SizeLimit(Some("")) == DefaultMaxFileSize
    ensures SizeLimit(Some("0")) == DefaultMaxFileSize && SizeLimit(Some("MB")) == DefaultMaxFileSize
    ensures n > 0 ==> SizeLimit(Some(Decimal.NatToString(n))) == n
  {
    ParseIntNotANumber("undefined");
    ParseIntNotANumber("");
    ParseIntNotANumber("MB");
    Decimal.ParseNatToString(0);
    ParseIntOfIntToString(0);
    ParseIntOfIntToString(n);
  }

  /** A file as the client sends it. */
  datatype Incoming = Incoming(originalname: string, mimetype: string, size: nat)

  /** A file the middleware accepted and wrote to the upload directory. */
  datatype Stored = Stored(filename: string, originalname: string, path: string,
                           size: nat, mimetype: string)

  /** Why the middleware refused a file. */
  datatype Refusal = InvalidType(message: string) | TooLarge

  /** The middleware on one file: filter, size limit, then naming. */
  function Receive(cfg: Process.Config, limit: int, uuid: string, f: Incoming): (r: Result<Stored, Refusal>)
    ensures r.Ok? <==> f.mimetype in AllowedMimes && f.size <= limit
    ensures r.Ok? ==> r.value.filename == StoredName(uuid, f.originalname)
                      && r.value.path == Paths.Join(cfg.uploadDir, r.value.filename)
                      && r.value.originalname == f.originalname
                      && r.value.size == f.size && r.value.mimetype == f.mimetype
    ensures f.mimetype !in AllowedMimes ==> r == Err(InvalidType(InvalidTypeMessage))
  {
    match FileFilter(f.mimetype)
    case Reject(msg) => Err(InvalidType(msg))
    case Accept =>
      if f.size > limit then Err(TooLarge)
      else
        var name := StoredName(uuid, f.originalname);
        Ok(Stored(name, f.originalname, Paths.Join(cfg.uploadDir, name), f.size, f.mimetype))
  }

  /** The metadata returned for one stored file. */
  datatype FileInfo = FileInfo(fileId: string, originalName: string, filePath: string,
                               size: nat, mimeType: string, uploadedAt: int)

  function Info(f: Stored, now: int): (i: FileInfo)
    ensures i.fileId == f.filename && i.originalName == f.originalname
    ensures i.filePath == f.path && i.size == f.size && i.mimeType == f.mimetype
    ensures i.uploadedAt == now
  {
    FileInfo(f.filename, f.originalname, f.path, f.size, f.mimetype, now)
  }

  datatype Response =
    | Uploaded(message: string, file: FileInfo)
    | UploadedMany(message: string, files: seq<FileInfo>)
    | BadRequest(error: string)

  function StatusCode(r: Response): int {
    if r.BadRequest? then 400 else 200
  }

  /** The single-file endpoint. */
  function UploadFile(file: Option<Stored>, now: int): (r: Response)
    ensures file.None? <==> r == BadRequest("No file uploaded")
    ensures file.Some? ==> r.Uploaded? && r.message == "File uploaded successfully"
                           && r.file.fileId == file.value.filename
                           && r.file.filePath == file.value.path
  {
    match file
    case None => BadRequest("No file uploaded")
    case Some(f) => Uploaded("File uploaded successfully", Info(f, now))
  }

  function Infos(files: seq<Stored>, now: int): (r: seq<FileInfo>)
    ensures |r| == |files|
    ensures forall i :: 0 <= i < |files| ==> r[i].fileId == files[i].filename
    ensures forall i :: 0 <= i < |files| ==> r[i].filePath == files[i].path
    ensures forall i :: 0 <= i < |files| ==> r[i] == Info(files[i], now)
  {
    if files == [] then [] else [Info(files[0], now)] + Infos(files[1..], now)
  }

  /** The multiple-file endpoint: a missing or empty list is refused. */
  function UploadMultipleFiles(files: Option<seq<Stored>>, now: int): (r: Response)
    ensures (files.None? || files.value == []) <==> r == BadRequest("No files uploaded")
    ensures files.Some? && files.value != [] ==>
              r.UploadedMany? && r.message == "Files uploaded successfully" && |r.files| == |files.value|
    ensures files.Some? && files.value != [] ==>
              forall i :: 0 <= i < |files.value| ==> r.files[i].fileId == files.value[i].filename
  {
    if files.None? || files.value == [] then BadRequest("No files uploaded")
    else UploadedMany("Files uploaded successfully", Infos(files.value, now))
  }

  /** Uploading one file through either endpoint describes it the same way. */
  lemma SingleAndMultipleAgree(f: Stored, now: int)
    ensures UploadMultipleFiles(Some([f]), now).files == [UploadFile(Some(f), now).file]
  {
  }

  /** A single string identifier resolves to its path under the upload directory. */
  lemma ResolveOne(cfg: Process.Config, id: string)
    ensures Process.ResolvePaths(cfg, [Str(id)]) == Some([Paths.Join(cfg.uploadDir, id)])
  {
    var ids := [Str(id)];
    assert ids[1..] == [];
    assert Process.ResolvePaths(cfg, ids[1..]) == Some([]);
    assert ids[0].Str? && ids[0].s == id;
    var one := [Paths.Join(cfg.uploadDir, id)];
    assert one + [] == one;
  }

  /** The identifier handed to the client resolves, under the processing
      endpoints' path rule, to the file the middleware wrote. */
  lemma UploadedIdResolves(cfg: Process.Config, limit: int, uuid: string, f: Incoming, s: Stored, now: int)
    requires Receive(cfg, limit, uuid, f) == Ok(s)
    ensures Process.ResolvePaths(cfg, [Str(UploadFile(Some(s), now).file.fileId)])
            == Some([UploadFile(Some(s), now).file.filePath])
  {
    ResolveOne(cfg, s.filename);
  }
}
