/**
 * The processing history: the caller's jobs, newest first, cut into pages.
 */
module History {
  import opened Wrappers
  import opened JsValue
  import opened Jobs
  import Paths
  import Process

  /** `created_at DESC`; jobs created at the same instant keep id order. */
  predicate Precedes(a: Job, b: Job) {
    a.createdAt > b.createdAt || (a.createdAt == b.createdAt && a.id <= b.id)
  }

  predicate NewestFirst(s: seq<Job>) {
    forall i, j :: 0 <= i < j < |s| ==> Precedes(s[i], s[j])
  }

  /** `where: { user_id }`, keeping table order. */
  function OwnedBy(rows: seq<Job>, userId: nat): (r: seq<Job>)
    ensures |r| <= |rows|
  {
    if rows == [] then []
    else (if rows[0].userId == userId then [rows[0]] else []) + OwnedBy(rows[1..], userId)
  }

  /** The filter keeps exactly the caller's rows. */
  lemma {:induction false} OwnedByMembers(rows: seq<Job>, userId: nat)
    ensures forall j :: j in OwnedBy(rows, userId) <==> j in rows && j.userId == userId
  {
    if rows != [] {
      OwnedByMembers(rows[1..], userId);
      assert rows == [rows[0]] + rows[1..];
    }
  }

  /** Places `x` before the first job it precedes. */
  function Insert(x: Job, s: seq<Job>): (r: seq<Job>)
    ensures multiset(r) == multiset(s) + multiset{x} && |r| == |s| + 1
  {
    if s == [] then [x]
    else if Precedes(x, s[0]) then [x] + s
    else
      assert s == [s[0]] + s[1..];
      [s[0]] + Insert(x, s[1..])
  }

  /** Every job in the list comes no earlier than `x` in the order. */
  predicate AllAfter(x: Job, s: seq<Job>) {
    forall k :: 0 <= k < |s| ==> Precedes(x, s[k])
  }

  lemma {:induction false} InsertNewestFirst(x: Job, s: seq<Job>)
    requires NewestFirst(s)
    ensures NewestFirst(Insert(x, s))
  {
    if s == [] {
    } else if Precedes(x, s[0]) {
      var r := [x] + s;
      forall i, j | 0 <= i < j < |r| ensures Precedes(r[i], r[j]) {
        if i == 0 && j > 1 { assert Precedes(s[0], s[j - 1]); }
      }
    } else {
      var rest := Insert(x, s[1..]);
      assert NewestFirst(s[1..]) by {
        forall i, j | 0 <= i < j < |s[1..]| ensures Precedes(s[1..][i], s[1..][j]) {
          assert s[1..][i] == s[i + 1] && s[1..][j] == s[j + 1];
        }
      }
      InsertNewestFirst(x, s[1..]);
      assert AllAfter(s[0], rest) by {
        forall k | 0 <= k < |rest| ensures Precedes(s[0], rest[k]) {
          assert rest[k] in multiset(rest);
          if rest[k] in multiset(s[1..]) {
            var m :| 0 <= m < |s[1..]| && s[1..][m] == rest[k];
            assert s[m + 1] == rest[k];
          }
        }
      }
      var r := [s[0]] + rest;
      forall i, j | 0 <= i < j < |r| ensures Precedes(r[i], r[j]) {
        if i > 0 { assert r[i] == rest[i - 1] && r[j] == rest[j - 1]; }
      }
    }
  }

  /** Insertion sort into newest-first order: a permutation of its input. */
  function SortNewestFirst(s: seq<Job>): (r: seq<Job>)
    ensures multiset(r) == multiset(s) && |r| == |s|
    ensures NewestFirst(r)
  {
    if s == [] then []
    else
      assert s == [s[0]] + s[1..];
      var rest := SortNewestFirst(s[1..]);
      InsertNewestFirst(s[0], rest);
      Insert(s[0], rest)
  }

  /** The rows SQL returns for `LIMIT limit OFFSET offset`. */
  function Window(s: seq<Job>, offset: nat, limit: nat): (r: seq<Job>)
    ensures |r| == if offset >= |s| then 0 else if offset + limit <= |s| then limit else |s| - offset
    ensures forall k :: 0 <= k < |r| ==> r[k] == s[offset + k]
  {
    if offset >= |s| then [] else s[offset..if offset + limit <= |s| then offset + limit else |s|]
  }

  /** One element of the `jobs` list. */
  datatype Entry = Entry(
    id: nat, jobType: string, status: JobStatus, originalFile: string, outputFile: Option<string>,
    parameters: seq<(string, Value)>, createdAt: int, completedAt: Option<int>)

  function ToEntry(j: Job): (e: Entry)
    ensures e.id == j.id && e.status == j.status && e.createdAt == j.createdAt
  {
    Entry(j.id, j.jobType, j.status, Paths.Basename(j.originalFile), Process.ShownOutput(j.outputFile),
          j.parameters, j.createdAt, j.completedAt)
  }

  datatype Pagination = Pagination(total: nat, page: int, limit: int, pages: Option<int>)

  /** `Math.ceil(count / limit)`; `None` stands for the `null` that JSON makes
      of the infinity or NaN a zero limit gives. */
  function PageCount(count: nat, limit: int): (r: Option<int>)
    requires limit >= 0
    ensures r.Some? <==> limit > 0
    ensures r.Some? ==> (r.value - 1) * limit < count <= r.value * limit || (count == 0 && r.value == 0)
  {
    if limit == 0 then None else Some((count + limit - 1) / limit)
  }

  /** The query string: `page` and `limit`, each absent or an integer. */
  datatype Query = Query(page: Option<int>, limit: Option<int>)

  /** The caller's jobs, newest first. */
  function Listing(t: JobTable, userId: nat): (r: seq<Job>)
    ensures |r| == |OwnedBy(t.rows, userId)|
  {
    SortNewestFirst(OwnedBy(t.rows, userId))
  }

  function Entries(rows: seq<Job>): (r: seq<Entry>)
    ensures |r| == |rows| && forall k :: 0 <= k < |rows| ==> r[k] == ToEntry(rows[k])
  {
    seq(|rows|, k requires 0 <= k < |rows| => ToEntry(rows[k]))
  }

  /** `GET /history`. Absent values default to page 1 and 20 per page; the
      database rejects a negative limit or offset, which answers 500. */
  function GetHistory(t: JobTable, userId: nat, q: Query): (r: Result<(seq<Entry>, Pagination), string>)
    ensures var page := q.page.GetOr(1); var limit := q.limit.GetOr(20);
      r.Err? <==> limit < 0 || (page - 1) * limit < 0
    ensures r.Err? ==> r.error == "Failed to get processing history"
    ensures r.Ok? ==> r.value.1.total == |OwnedBy(t.rows, userId)| && |r.value.0| <= r.value.1.limit
  {
    var page := q.page.GetOr(1);
    var limit := q.limit.GetOr(20);
    var offset := (page - 1) * limit;
    if limit < 0 || offset < 0 then Err("Failed to get processing history")
    else
      var all := Listing(t, userId);
      Ok((Entries(Window(all, offset, limit)), Pagination(|all|, page, limit, PageCount(|all|, limit))))
  }

  // ---- properties -------------------------------------------------------------

  /** The listing holds exactly the caller's jobs, newest first. */
  lemma ListingOwned(t: JobTable, userId: nat)
    ensures forall j :: j in Listing(t, userId) <==> j in t.rows && j.userId == userId
    ensures NewestFirst(Listing(t, userId))
  {
    var s := OwnedBy(t.rows, userId);
    OwnedByMembers(t.rows, userId);
    var r := SortNewestFirst(s);
    forall j ensures j in r <==> j in s {
      assert j in r <==> j in multiset(r);
      assert j in s <==> j in multiset(s);
    }
  }

  /** A page is the window of the listing at offset `(page - 1) * limit`. */
  lemma HistoryPage(t: JobTable, userId: nat, q: Query, offset: nat)
    requires q.limit.GetOr(20) >= 0 && offset == (q.page.GetOr(1) - 1) * q.limit.GetOr(20)
    ensures var all := Listing(t, userId); var limit := q.limit.GetOr(20);
      GetHistory(t, userId, q)
      == Ok((Entries(Window(all, offset, limit)), Pagination(|all|, q.page.GetOr(1), limit, PageCount(|all|, limit))))
  {
  }

  /** Every entry of a page is one of the caller's jobs, and the page lists them
      newest first. */
  lemma HistoryPageOwnedAndOrdered(t: JobTable, userId: nat, q: Query)
    requires GetHistory(t, userId, q).Ok?
    ensures var entries := GetHistory(t, userId, q).value.0;
      && (forall k :: 0 <= k < |entries| ==>
            exists j :: j in t.rows && j.userId == userId && entries[k] == ToEntry(j))
      && (forall a, b :: 0 <= a < b < |entries| ==> entries[a].createdAt >= entries[b].createdAt)
  {
    var offset: nat := (q.page.GetOr(1) - 1) * q.limit.GetOr(20);
    HistoryPage(t, userId, q, offset);
    WindowOwned(t, userId, offset, q.limit.GetOr(20));
    ListingOwned(t, userId);
    WindowOrdered(Listing(t, userId), offset, q.limit.GetOr(20));
  }

  /** Every row of a window of the listing is one of the caller's jobs. */
  lemma WindowOwned(t: JobTable, userId: nat, offset: nat, limit: nat)
    ensures var rows := Window(Listing(t, userId), offset, limit);
      forall k :: 0 <= k < |rows| ==>
        exists j :: j in t.rows && j.userId == userId && Entries(rows)[k] == ToEntry(j)
  {
    ListingOwned(t, userId);
    var all := Listing(t, userId);
    var rows := Window(all, offset, limit);
    forall k | 0 <= k < |rows|
      ensures exists j :: j in t.rows && j.userId == userId && Entries(rows)[k] == ToEntry(j)
    {
      assert rows[k] in all;
    }
  }

  lemma WindowOrdered(all: seq<Job>, offset: nat, limit: nat)
    requires NewestFirst(all)
    ensures var rows := Window(all, offset, limit);
      forall a, b :: 0 <= a < b < |rows| ==> rows[a].createdAt >= rows[b].createdAt
  {
    var rows := Window(all, offset, limit);
    forall a, b | 0 <= a < b < |rows| ensures rows[a].createdAt >= rows[b].createdAt {
      assert Precedes(all[offset + a], all[offset + b]);
    }
  }

  /** Position `k` lies on page `k / limit + 1`, at index `k % limit`. */
  lemma PageArithmetic(k: nat, limit: nat)
    requires limit >= 1
    ensures (k / limit + 1 - 1) * limit == k - k % limit && 0 <= k % limit <= k && k % limit < limit
  {
  }

  /** `q <= m / d` whenever `q * d <= m`. */
  lemma DivAtLeast(m: int, d: int, q: int)
    requires d >= 1 && q * d <= m
    ensures q <= m / d
  {
    var r := m / d;
    assert r * d + m % d == m && m % d < d;
    assert (r + 1) * d == r * d + d;
    assert (r + 1 - q) * d == (r + 1) * d - q * d;
    PositiveFactor(r + 1 - q, d);
  }

  /** A product with a positive factor is positive only when the other one is. */
  lemma PositiveFactor(a: int, d: int)
    requires d >= 1 && a * d > 0
    ensures a >= 1
  {
  }

  /** A page that starts inside the listing is within the page count. */
  lemma PageWithinCount(p: int, limit: int, offset: nat, n: nat)
    requires limit >= 1 && p >= 1 && offset == (p - 1) * limit && offset < n
    ensures PageCount(n, limit).Some? && p <= PageCount(n, limit).value
  {
    assert p * limit == offset + limit;
    DivAtLeast(n + limit - 1, limit, p);
  }

  /** The page that starts at `offset`. */
  lemma PageAt(t: JobTable, userId: nat, limit: int, p: int, offset: nat)
    requires limit >= 1 && offset == (p - 1) * limit
    ensures var all := Listing(t, userId);
      GetHistory(t, userId, Query(Some(p), Some(limit)))
      == Ok((Entries(Window(all, offset, limit)),
             Pagination(|all|, p, limit, PageCount(|all|, limit))))
  {
  }

  /** With a positive limit, index `i` of page `p` is the job at position
      `(p - 1) * limit + i` of the listing, whenever that position exists, and
      such a page is within the page count. */
  lemma PageEntry(t: JobTable, userId: nat, limit: int, p: int, offset: nat, i: nat)
    requires limit >= 1 && p >= 1 && offset == (p - 1) * limit && i < limit
    requires offset + i < |OwnedBy(t.rows, userId)|
    ensures var h := GetHistory(t, userId, Query(Some(p), Some(limit)));
      && h.Ok? && i < |h.value.0| && h.value.0[i] == ToEntry(Listing(t, userId)[offset + i])
      && h.value.1.pages.Some? && p <= h.value.1.pages.value
  {
    var all := Listing(t, userId);
    PageAt(t, userId, limit, p, offset);
    var rows := Window(all, offset, limit);
    assert rows[i] == all[offset + i];
    PageInCount(t, userId, limit, p, offset);
  }

  /** The page starting at `offset` inside the listing is within the page count. */
  lemma PageInCount(t: JobTable, userId: nat, limit: int, p: int, offset: nat)
    requires limit >= 1 && p >= 1 && offset == (p - 1) * limit
    requires offset < |OwnedBy(t.rows, userId)|
    ensures var h := GetHistory(t, userId, Query(Some(p), Some(limit)));
      h.Ok? && h.value.1.pages.Some? && p <= h.value.1.pages.value
  {
    var n := |Listing(t, userId)|;
    PageAt(t, userId, limit, p, offset);
    PageWithinCount(p, limit, offset, n);
    assert GetHistory(t, userId, Query(Some(p), Some(limit))).value.1.pages == PageCount(n, limit);
  }

  /** With a positive limit, the job at position `k` of the listing appears on
      page `k / limit + 1`, at position `k % limit`, and that page is within the
      page count. */
  lemma EveryJobOnItsPage(t: JobTable, userId: nat, limit: int, k: nat)
    requires limit >= 1 && k < |OwnedBy(t.rows, userId)|
    ensures var h := GetHistory(t, userId, Query(Some(k / limit + 1), Some(limit)));
      && h.Ok? && k % limit < |h.value.0| && h.value.0[k % limit] == ToEntry(Listing(t, userId)[k])
      && h.value.1.pages.Some? && k / limit + 1 <= h.value.1.pages.value
  {
    PageArithmetic(k, limit);
    PageEntry(t, userId, limit, k / limit + 1, k - k % limit, k % limit);
  }
}
