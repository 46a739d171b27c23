/**
 * The port-release script: it reads the `netstat | findstr` output for the
 * port, takes the last field of every line as a process id, drops empty ids
 * and `0`, removes duplicates keeping first occurrences, and tries to kill
 * each process once. The shell commands are inputs.
 */
module KillPort {
  import opened Wrappers
  import opened Text

  /** The last field of `t.split(/\s+/)` for a trimmed `t`: the text after the
      last white-space character. */
  function LastField(t: string): (r: string)
    ensures |r| <= |t| && r == t[|t| - |r|..]
    ensures NoSpace(r)
    ensures |r| < |t| ==> IsJsSpace(t[|t| - |r| - 1])
  {
    if t == [] || IsJsSpace(t[|t| - 1]) then []
    else
      var r := LastField(t[..|t| - 1]) + [t[|t| - 1]];
      assert t[..|t| - 1][|t| - 1 - (|r| - 1)..] + [t[|t| - 1]] == t[|t| - |r|..];
      r
  }

  /** The process id of one line of the listing. */
  function PidOf(line: string): string {
    LastField(Trim(line))
  }

  /** A non-space character extends the last field. */
  lemma LastFieldSnoc(t: string, c: char)
    requires !IsJsSpace(c)
    ensures LastField(t + [c]) == LastField(t) + [c]
  {
    assert (t + [c])[..|t|] == t;
  }

  /** The field after a white-space character is the last field. */
  lemma {:induction false} LastFieldAfterSpace(w: string, pid: string)
    requires pid != [] && NoSpace(pid)
    requires w == [] || IsJsSpace(w[|w| - 1])
    ensures LastField(w + pid) == pid
    decreases |pid|
  {
    var init := pid[..|pid| - 1];
    var last := pid[|pid| - 1];
    assert !IsJsSpace(last);
    assert w + pid == (w + init) + [last];
    LastFieldSnoc(w + init, last);
    if init == [] {
      assert w + init == w;
    } else {
      assert NoSpace(init) by {
        forall i | 0 <= i < |init| ensures !IsJsSpace(init[i]) { assert init[i] == pid[i]; }
      }
      LastFieldAfterSpace(w, init);
    }
    assert pid == init + [last];
  }

  lemma {:induction false} TrimEndOfSpaces(u: string, tail: string)
    requires u != [] && !IsJsSpace(u[|u| - 1])
    requires forall i :: 0 <= i < |tail| ==> IsJsSpace(tail[i])
    ensures TrimEnd(u + tail) == u
    decreases |tail|
  {
    if tail == [] {
      assert u + tail == u;
    } else {
      assert (u + tail)[|u + tail| - 1] == tail[|tail| - 1];
      assert (u + tail)[..|u + tail| - 1] == u + tail[..|tail| - 1];
      TrimEndOfSpaces(u, tail[..|tail| - 1]);
    }
  }

  /** Trimming the start of a line stops at or before its first non-space
      character. */
  lemma TrimStartBefore(line: string, b: nat)
    requires b < |line| && !IsJsSpace(line[b])
    ensures |line| - |TrimStart(line)| <= b
    ensures TrimStart(line) == line[|line| - |TrimStart(line)|..b] + line[b..]
  {
    var r := TrimStart(line);
    var c := |line| - |r|;
    TrimmedPrefixSpaces(line, b);
    assert r == line[c..];
    assert line[c..] == line[c..b] + line[b..];
  }

  /** Everything `TrimStart` removes is space, so it removes nothing at or
      after a non-space position. */
  lemma TrimmedPrefixSpaces(line: string, b: nat)
    requires b < |line| && !IsJsSpace(line[b])
    ensures |line| - |TrimStart(line)| <= b
  {
    var c := |line| - |TrimStart(line)|;
    assert forall i :: 0 <= i < c ==> IsJsSpace(line[i]);
  }

  /** A listing line `<fields> <pid><trailing space>` (netstat ends its lines
      with a carriage return) yields the pid. */
  lemma PidOfLine(fields: string, pid: string, tail: string)
    requires pid != [] && NoSpace(pid)
    requires forall i :: 0 <= i < |tail| ==> IsJsSpace(tail[i])
    ensures PidOf(fields + " " + pid + tail) == pid
  {
    var w := TrimmedLead(fields, pid, tail);
    assert (w + pid)[|w + pid| - 1] == pid[|pid| - 1];
    TrimEndOfSpaces(w + pid, tail);
    LastFieldAfterSpace(w, pid);
  }

  /** Trimming the start of such a line leaves the pid behind a lead that is
      empty or ends in white space. */
  lemma TrimmedLead(fields: string, pid: string, tail: string) returns (w: string)
    requires pid != [] && !IsJsSpace(pid[0])
    ensures TrimStart(fields + " " + pid + tail) == w + pid + tail
    ensures w == [] || IsJsSpace(w[|w| - 1])
  {
    var line := fields + " " + pid + tail;
    var b := |fields| + 1;
    assert line[b..] == pid + tail;
    assert line[b] == pid[0];
    TrimStartBefore(line, b);
    var c := |line| - |TrimStart(line)|;
    w := line[c..b];
    assert TrimStart(line) == (w + pid) + tail;
    if w != [] { assert w[|w| - 1] == line[b - 1] == ' '; }
  }

  predicate Usable(pid: string) {
    pid != [] && pid != "0"
  }

  /** The id field of every line. */
  function LinePids(lines: seq<string>): (r: seq<string>)
    ensures |r| == |lines|
    ensures forall k :: 0 <= k < |lines| ==> r[k] == PidOf(lines[k])
  {
    seq(|lines|, k requires 0 <= k < |lines| => PidOf(lines[k]))
  }

  /** A listing whose every line is `<fields> <pid><trailing space>` yields
      exactly those ids, line by line. */
  lemma ListingPids(fields: seq<string>, pids: seq<string>, tails: seq<string>, lines: seq<string>)
    requires |fields| == |pids| == |tails| == |lines|
    requires forall k :: 0 <= k < |lines| ==>
               && pids[k] != [] && NoSpace(pids[k])
               && (forall i :: 0 <= i < |tails[k]| ==> IsJsSpace(tails[k][i]))
               && lines[k] == fields[k] + " " + pids[k] + tails[k]
    ensures LinePids(lines) == pids
  {
    forall k | 0 <= k < |lines| ensures LinePids(lines)[k] == pids[k] {
      PidOfLine(fields[k], pids[k], tails[k]);
    }
  }

  /** The usable ids, in order, duplicates included. */
  function Candidates(ids: seq<string>): (r: seq<string>)
    ensures forall k :: 0 <= k < |r| ==> Usable(r[k])
  {
    if ids == [] then []
    else
      var init := Candidates(ids[..|ids| - 1]);
      var pid := ids[|ids| - 1];
      if Usable(pid) then init + [pid] else init
  }

  predicate Distinct(s: seq<string>) {
    forall i, j :: 0 <= i < j < |s| ==> s[i] != s[j]
  }

  /** A `Set` filled in order: first occurrences, in order of first appearance. */
  function Dedup(s: seq<string>): (r: seq<string>)
    ensures Distinct(r)
  {
    if s == [] then []
    else
      var init := Dedup(s[..|s| - 1]);
      var x := s[|s| - 1];
      if x in init then init else init + [x]
  }

  /** The set keeps every id and invents none. */
  lemma {:induction false} DedupMembers(s: seq<string>, y: string)
    ensures y in Dedup(s) <==> y in s
  {
    if s != [] {
      var x := s[|s| - 1];
      assert s == s[..|s| - 1] + [x];
      DedupMembers(s[..|s| - 1], y);
    }
  }

  lemma CandidatesSnoc(ids: seq<string>, id: string)
    ensures Candidates(ids + [id]) == Candidates(ids) + (if Usable(id) then [id] else [])
  {
    assert (ids + [id])[..|ids|] == ids;
  }

  lemma DedupSnoc(s: seq<string>, x: string)
    ensures Dedup(s + [x]) == if x in Dedup(s) then Dedup(s) else Dedup(s) + [x]
  {
    assert (s + [x])[..|s|] == s;
  }

  /** `stdout.trim().split('\n')`. */
  function Lines(stdout: string): seq<string> {
    Split(Trim(stdout), '\n')
  }

  /** The id collection loop over the lines' id fields: each usable id is
      added to the set unless it is already there. */
  method CollectPids(ids: seq<string>) returns (pids: seq<string>)
    ensures pids == Dedup(Candidates(ids))
  {
    pids := [];
    var i := 0;
    while i < |ids|
      invariant 0 <= i <= |ids|
      invariant pids == Dedup(Candidates(ids[..i]))
    {
      assert ids[..i + 1] == ids[..i] + [ids[i]];
      CandidatesSnoc(ids[..i], ids[i]);
      var pid := ids[i];
      ghost var c := Candidates(ids[..i]);
      if Usable(pid) {
        DedupSnoc(c, pid);
      }
      if pid != [] && pid != "0" && pid !in pids {
        pids := pids + [pid];
      }
      i := i + 1;
    }
    assert ids[..i] == ids;
  }

  /** What `netstat -ano | findstr :PORT` did: exited with its output, or
      failed, carrying its output when there was one. */
  datatype Lookup = Exited(stdout: string) | Errored(output: Option<string>)

  datatype Outcome =
    | PortFree
    | NoValidPid
    | Attempted(results: seq<(string, bool)>)
    | LookupError

  /** `taskkill` for every id in order; a failure is reported and the loop goes on. */
  method AttemptAll(pids: seq<string>, killable: set<string>) returns (results: seq<(string, bool)>)
    ensures |results| == |pids|
    ensures forall k :: 0 <= k < |pids| ==> results[k] == (pids[k], pids[k] in killable)
  {
    results := [];
    var i := 0;
    while i < |pids|
      invariant 0 <= i <= |pids|
      invariant |results| == i
      invariant forall k :: 0 <= k < i ==> results[k] == (pids[k], pids[k] in killable)
    {
      var ok := pids[i] in killable;
      results := results + [(pids[i], ok)];
      i := i + 1;
    }
  }

  /** The script's run; `killable` says which `taskkill` calls succeed. */
  method KillPort(lookup: Lookup, killable: set<string>) returns (out: Outcome)
    ensures lookup.Errored? ==> out == (if lookup.output == Some("") then PortFree else LookupError)
    ensures lookup.Exited? && lookup.stdout == [] ==> out == PortFree
    ensures out.Attempted? ==> lookup.Exited? && var pids := Dedup(Candidates(LinePids(Lines(lookup.stdout))));
      && |out.results| == |pids| > 0
      && forall k :: 0 <= k < |pids| ==> out.results[k] == (pids[k], pids[k] in killable)
    ensures out == NoValidPid <==>
              (lookup.Exited? && lookup.stdout != [] && Candidates(LinePids(Lines(lookup.stdout))) == [])
    ensures lookup.Exited? && lookup.stdout != [] && Candidates(LinePids(Lines(lookup.stdout))) != [] ==>
              out.Attempted?
  {
    if lookup.Errored? {
      return if lookup.output == Some("") then PortFree else LookupError;
    }
    if lookup.stdout == [] {
      return PortFree;
    }
    var pids := CollectPids(LinePids(Lines(lookup.stdout)));
    if |pids| == 0 {
      assert Candidates(LinePids(Lines(lookup.stdout))) == [] by {
        var c := Candidates(LinePids(Lines(lookup.stdout)));
        if c != [] {
          DedupMembers(c, c[0]);
        }
      }
      return NoValidPid;
    }
    var results := AttemptAll(pids, killable);
    out := Attempted(results);
  }
}
