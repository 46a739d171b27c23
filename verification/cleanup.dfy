/**
 * The periodic removal of old files from the upload and output directories.
 * The clock, `readdir`, `stat` and `unlink` are inputs: a directory is
 * missing, unreadable or a listing whose entries carry their stat result and
 * whether unlinking them fails.
 */
module Cleanup {
  import opened Wrappers
  import opened JsValue
  import Paths
  import Decimal

  datatype Stats = Stats(isFile: bool, mtimeMs: int)

  /** One directory entry: its name, the `stat` result (`None` when `stat`
      fails) and whether `unlink` would fail. */
  datatype Entry = Entry(name: string, stat: Option<Stats>, unlinkFails: bool)

  datatype Directory = Missing | Unreadable | Listing(entries: seq<Entry>)

  const HourMs := 60 * 60 * 1000

  /** `hours * 60 * 60 * 1000`. */
  function MaxAge(hours: int): (r: int)
    ensures hours >= 0 ==> r >= 0
    ensures r == hours * 3600000
  {
    hours * HourMs
  }

  /** A file is removed when it is a regular file strictly older than the maximum age. */
  predicate Expired(s: Stats, now: int, maxAge: int) {
    s.isFile && now - s.mtimeMs > maxAge
  }

  /** The entry is actually deleted: its stat succeeded, it is expired, and
      `unlink` succeeds. */
  predicate Deleted(e: Entry, now: int, maxAge: int) {
    e.stat.Some? && Expired(e.stat.value, now, maxAge) && !e.unlinkFails
  }

  /** The paths removed from a listing, in listing order. */
  function Removed(dir: string, entries: seq<Entry>, now: int, maxAge: int): seq<string> {
    if entries == [] then []
    else
      var last := entries[|entries| - 1];
      Removed(dir, entries[..|entries| - 1], now, maxAge)
        + (if Deleted(last, now, maxAge) then [Paths.Join(dir, last.name)] else [])
  }

  /** `cleanupOldFiles(directory, hours)` over one directory: the paths it deletes. */
  method CleanupOldFiles(directory: string, dirState: Directory, hours: int, now: int)
    returns (deleted: seq<string>)
    ensures dirState.Listing? ==> deleted == Removed(directory, dirState.entries, now, MaxAge(hours))
    ensures !dirState.Listing? ==> deleted == []
  {
    deleted := [];
    if !dirState.Listing? {
      return;
    }
    var maxAge := MaxAge(hours);
    var entries := dirState.entries;
    var i := 0;
    while i < |entries|
      invariant 0 <= i <= |entries|
      invariant deleted == Removed(directory, entries[..i], now, maxAge)
    {
      var e := entries[i];
      assert entries[..i + 1][..i] == entries[..i];
      if e.stat.Some? && Expired(e.stat.value, now, maxAge) && !e.unlinkFails {
        deleted := deleted + [Paths.Join(directory, e.name)];
      }
      i := i + 1;
    }
    assert entries[..i] == entries;
  }

  /** Every removed path is an expired regular file of the listing whose
      unlink succeeded, and every such entry is removed. */
  lemma {:induction false} RemovedExactly(dir: string, entries: seq<Entry>, now: int, maxAge: int, p: string)
    ensures p in Removed(dir, entries, now, maxAge) <==>
      exists k :: 0 <= k < |entries| && Deleted(entries[k], now, maxAge) && p == Paths.Join(dir, entries[k].name)
  {
    if entries != [] {
      var init := entries[..|entries| - 1];
      RemovedExactly(dir, init, now, maxAge, p);
      forall k | 0 <= k < |init| ensures init[k] == entries[k] { }
    }
  }

  /** A fresh file (modified within the retention window) is never removed,
      nor is anything that is not a regular file. */
  lemma KeepsFreshAndNonFiles(dir: string, entries: seq<Entry>, now: int, maxAge: int, k: nat)
    requires k < |entries| && entries[k].stat.Some?
    requires !entries[k].stat.value.isFile || now - entries[k].stat.value.mtimeMs <= maxAge
    requires forall i :: 0 <= i < |entries| && i != k ==> entries[i].name != entries[k].name
    ensures Paths.Join(dir, entries[k].name) !in Removed(dir, entries, now, maxAge)
  {
    var p := Paths.Join(dir, entries[k].name);
    RemovedExactly(dir, entries, now, maxAge, p);
    forall i | 0 <= i < |entries| && Deleted(entries[i], now, maxAge)
      ensures p != Paths.Join(dir, entries[i].name)
    {
      assert p[|dir| + 1..] == entries[k].name;
      assert Paths.Join(dir, entries[i].name)[|dir| + 1..] == entries[i].name;
    }
  }

  /** `parseInt(process.env.FILE_RETENTION_HOURS) || 24`. */
  function RetentionHours(env: Option<string>): (h: int)
    ensures h != 0
  {
    ParsedOr(ParseIntParam(Env(env)), 24)
  }

  /** The two directories each run sweeps, upload directory first. */
  function Targets(uploadEnv: Option<string>, outputEnv: Option<string>): (r: seq<string>)
    ensures |r| == 2 && r[0] == EnvOr(uploadEnv, "uploads") && r[1] == EnvOr(outputEnv, "outputs")
  {
    [EnvOr(uploadEnv, "uploads"), EnvOr(outputEnv, "outputs")]
  }

  /** One run of the schedule: both directories with the configured retention;
      the set of existing files loses exactly the deleted paths. */
  method RunCleanup(files: set<string>, uploadEnv: Option<string>, outputEnv: Option<string>,
                    retentionEnv: Option<string>, uploads: Directory, outputs: Directory, now: int)
    returns (remaining: set<string>)
    ensures var hours := RetentionHours(retentionEnv);
      var dirs := Targets(uploadEnv, outputEnv);
      var gone := (if uploads.Listing? then Removed(dirs[0], uploads.entries, now, MaxAge(hours)) else [])
                + (if outputs.Listing? then Removed(dirs[1], outputs.entries, now, MaxAge(hours)) else []);
      remaining == files - set p | p in gone
  {
    var hours := RetentionHours(retentionEnv);
    var dirs := Targets(uploadEnv, outputEnv);
    var a := CleanupOldFiles(dirs[0], uploads, hours, now);
    var b := CleanupOldFiles(dirs[1], outputs, hours, now);
    remaining := files - set p | p in a + b;
  }

  /** A setting `parseInt` reads as NaN or zero falls back to 24 hours, and
      any other number it reads is the retention; so an absent setting, one
      that does not start with a number, and zero all fall back, and a decimal
      setting is taken as given. */
  lemma RetentionFallback(setting: string, n: nat)
    ensures ParseInt(setting).None? || ParseInt(setting) == Some(0) ==> RetentionHours(Some(setting)) == 24
    ensures ParseInt(setting).Some? && ParseInt(setting).value != 0 ==>
              RetentionHours(Some(setting)) == ParseInt(setting).value
    ensures RetentionHours(None) == 24 && RetentionHours(Some("")) == 24
    ensures RetentionHours(Some("abc")) == 24 && RetentionHours(Some("0")) == 24
    ensures n > 0 ==> RetentionHours(Some(Decimal.NatToString(n))) == n
  {
    ParseIntNotANumber("undefined");
    ParseIntNotANumber("");
    ParseIntNotANumber("abc");
    Decimal.ParseNatToString(0);
    ParseIntOfIntToString(0);
    ParseIntOfIntToString(n);
  }
}
