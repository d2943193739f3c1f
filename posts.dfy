/**
 * The post store: time-limited text posts kept in a `posts` table.
 *
 * The table is held in memory as a sequence of rows in insertion order,
 * together with the table's auto-increment counter. Timestamps are whole
 * seconds in UTC, and `now` stands for the database server's
 * `UTC_TIMESTAMP()` at the moment a statement runs. Every failure the SQL
 * driver can report (Exec, LastInsertId, Query, Scan, rows.Err) is an
 * explicit input of the operation that meets it.
 */
module Posts {
  import opened Wrappers

  /** Seconds in one day: `INTERVAL n DAY` added to a UTC timestamp. */
  const Day: int := 86400

  /** `LIMIT 10` of the listing query. */
  const LatestLimit: nat := 10

  /** One row of the `posts` table (the fields of models.Post). */
  datatype Post = Post(id: int, title: string, content: string, created: int, expires: int)

  /** The errors the store hands back: the distinct "no record" sentinel, or a driver error passed through unchanged. */
  datatype Error = ErrNoRecord | DbError(msg: string)

  /** What `Scan` on a single-row query meets: the row, `sql.ErrNoRows`, or any other driver error. */
  datatype ScanResult = Row(post: Post) | NoRows | ScanFailed(msg: string)

  /** A failure of `rows.Next()`: iteration stops before row `at` and `rows.Err()` reports `msg`. */
  datatype IterFault = IterFault(at: nat, msg: string)

  /** The rows of `WHERE expires > UTC_TIMESTAMP()`, in table order. */
  function Live(posts: seq<Post>, now: int): (r: seq<Post>)
    ensures forall p :: p in r <==> p in posts && p.expires > now
  {
    if posts == [] then []
    else (if posts[0].expires > now then [posts[0]] else []) + Live(posts[1..], now)
  }

  /** The first row of `WHERE expires > UTC_TIMESTAMP() AND id = ?`. */
  function FirstLive(posts: seq<Post>, id: int, now: int): (r: Option<Post>)
    ensures r.Some? ==> r.value in posts && r.value.id == id && r.value.expires > now
    ensures r.None? <==> forall p :: p in posts && p.id == id ==> p.expires <= now
  {
    if posts == [] then None
    else if posts[0].id == id && posts[0].expires > now then Some(posts[0])
    else FirstLive(posts[1..], id, now)
  }

  /** What `QueryRow(...).Scan(...)` in Get meets; a driver fault wins over the rows. */
  function QueryRow(posts: seq<Post>, id: int, now: int, scanErr: Option<string>): (r: ScanResult)
    ensures scanErr.Some? <==> r.ScanFailed?
    ensures r.ScanFailed? ==> r.msg == scanErr.value
    ensures r.Row? ==> r.post in posts && r.post.id == id && r.post.expires > now
    ensures r.NoRows? <==> scanErr.None? && forall p :: p in posts && p.id == id ==> p.expires <= now
  {
    if scanErr.Some? then ScanFailed(scanErr.value)
    else match FirstLive(posts, id, now)
      case Some(p) => Row(p)
      case None => NoRows
  }

  /** `ORDER BY created DESC`. */
  ghost predicate NewestFirst(s: seq<Post>)
  {
    forall i, j :: 0 <= i < j < |s| ==> s[i].created >= s[j].created
  }

  /** Puts `p` into a newest-first sequence, ahead of the rows created at the same time. */
  function InsertNewest(p: Post, s: seq<Post>): (r: seq<Post>)
    requires NewestFirst(s)
    ensures NewestFirst(r)
    ensures multiset(r) == multiset(s) + multiset{p}
  {
    if s == [] || p.created >= s[0].created then [p] + s
    else
      var rest := InsertNewest(p, s[1..]);
      assert s == [s[0]] + s[1..];
      InsertNewestBelow(p, s, rest);
      [s[0]] + rest
  }

  /** Every row of `rest`, the insertion into `s[1..]`, is no newer than `s[0]`. */
  lemma InsertNewestBelow(p: Post, s: seq<Post>, rest: seq<Post>)
    requires NewestFirst(s) && NewestFirst(rest) && s != [] && p.created < s[0].created
    requires multiset(rest) == multiset(s[1..]) + multiset{p}
    ensures NewestFirst([s[0]] + rest)
  {
    forall k | 0 <= k < |rest| ensures rest[k].created <= s[0].created {
      assert rest[k] in multiset(rest);
      if rest[k] != p {
        assert rest[k] in multiset(s[1..]);
        var j :| 0 <= j < |s[1..]| && s[1..][j] == rest[k];
        assert s[j + 1] == rest[k];
      }
    }
  }

  /** A stable sort on `created`, newest first; rows created at the same time keep their table order. */
  function SortNewestFirst(s: seq<Post>): (r: seq<Post>)
    ensures NewestFirst(r)
    ensures multiset(r) == multiset(s)
  {
    if s == [] then []
    else
      assert s == [s[0]] + s[1..];
      InsertNewest(s[0], SortNewestFirst(s[1..]))
  }

  /**
   * The result set of the listing query: at most ten live rows, newest
   * first. SQL leaves the order of rows with equal `created` open; this
   * model keeps their table order.
   */
  function LatestRows(posts: seq<Post>, now: int): (r: seq<Post>)
    ensures |r| <= LatestLimit
  {
    var sorted := SortNewestFirst(Live(posts, now));
    if |sorted| <= LatestLimit then sorted else sorted[..LatestLimit]
  }

  /**
   * The listing holds live stored rows only, newest first, each at most as
   * often as stored; it leaves a live row out only when ten are shown, and
   * then only one no newer than every row shown.
   */
  lemma LatestRowsSelect(posts: seq<Post>, now: int)
    ensures var r := LatestRows(posts, now);
      && NewestFirst(r)
      && multiset(r) <= multiset(Live(posts, now))
      && (forall p :: p in r ==> p in posts && p.expires > now)
      && (|r| < LatestLimit ==> forall q :: q in posts && q.expires > now ==> q in r)
      && (forall q, p :: q in posts && q.expires > now && q !in r && p in r ==> q.created <= p.created)
  {
    var sorted := SortNewestFirst(Live(posts, now));
    PrefixOfNewestFirst(sorted, LatestRows(posts, now), Live(posts, now));
  }

  /** With no live row the listing is empty. */
  lemma LatestRowsEmpty(posts: seq<Post>, now: int)
    requires forall p :: p in posts ==> p.expires <= now
    ensures LatestRows(posts, now) == []
  {
    NoneLive(posts, now);
  }

  /** With every row expired no row is live. */
  lemma {:induction false} NoneLive(posts: seq<Post>, now: int)
    requires forall p :: p in posts ==> p.expires <= now
    ensures Live(posts, now) == []
  {
    if posts != [] {
      assert posts[0] in posts;
      assert forall p :: p in posts[1..] ==> p in posts;
      NoneLive(posts[1..], now);
    }
  }

  /**
   * A prefix `r` of a newest-first arrangement of `live` holds only rows of
   * `live`, and every row of `live` it leaves out is no newer than any it keeps.
   */
  lemma PrefixOfNewestFirst(sorted: seq<Post>, r: seq<Post>, live: seq<Post>)
    requires NewestFirst(sorted) && multiset(sorted) == multiset(live)
    requires |r| <= |sorted| && r == sorted[..|r|]
    ensures NewestFirst(r)
    ensures multiset(r) <= multiset(live)
    ensures forall p :: p in r ==> p in live
    ensures |r| == |sorted| ==> forall q :: q in live ==> q in r
    ensures forall q, p :: q in live && q !in r && p in r ==> q.created <= p.created
  {
    var tail := sorted[|r|..];
    assert sorted == r + tail;
    assert multiset(sorted) == multiset(r) + multiset(tail);
    forall p | p in r ensures p in live {
      assert p in multiset(live);
    }
    forall q | q in live ensures q in r || q in tail {
      assert q in multiset(sorted);
    }
    PrefixLeavesOlder(sorted, r, tail);
  }

  /** In a newest-first sequence cut in two, nothing in the second part is newer than anything in the first. */
  lemma PrefixLeavesOlder(sorted: seq<Post>, r: seq<Post>, tail: seq<Post>)
    requires NewestFirst(sorted) && sorted == r + tail
    ensures forall q, p :: q in tail && p in r ==> q.created <= p.created
  {
    forall q, p | q in tail && p in r
      ensures q.created <= p.created
    {
      var j :| 0 <= j < |tail| && tail[j] == q;
      var i :| 0 <= i < |r| && r[i] == p;
      assert sorted[i] == p && sorted[|r| + j] == q;
    }
  }

  /** The `posts` table behind a PostModel, with its auto-increment counter. */
  class PostModel {
    var posts: seq<Post>
    var nextId: int

    /** Ids are assigned by the table: positive, increasing in insertion order, below the counter. */
    ghost predicate Valid()
      reads this
    {
      && nextId >= 1
      && (forall i :: 0 <= i < |posts| ==> 1 <= posts[i].id < nextId)
      && (forall i, j :: 0 <= i < j < |posts| ==> posts[i].id < posts[j].id)
    }

    /** An empty table whose first auto-assigned id is 1. */
    constructor ()
      ensures Valid() && posts == [] && nextId == 1
    {
      posts := [];
      nextId := 1;
    }

    /**
     * `Insert`, as written: a failed Exec and a failed LastInsertId are both
     * swallowed and reported as id 0 with no error. When only LastInsertId
     * fails the row has already been stored.
     */
    method Insert(title: string, content: string, days: int, now: int,
                  execErr: Option<string>, lastIdErr: Option<string>)
      returns (id: int, err: Option<Error>)
      requires Valid()
      modifies this
      ensures Valid()
      ensures err == None
      ensures execErr.Some? ==> posts == old(posts) && nextId == old(nextId) && id == 0
      ensures execErr.None? ==>
        && posts == old(posts) + [Post(old(nextId), title, content, now, now + days * Day)]
        && nextId == old(nextId) + 1
      ensures execErr.None? ==> id == if lastIdErr.Some? then 0 else old(nextId)
    {
      if execErr.Some? {
        return 0, None;
      }
      var row := Post(nextId, title, content, now, now + days * Day);
      posts := posts + [row];
      nextId := nextId + 1;
      if lastIdErr.Some? {
        return 0, None;
      }
      return row.id, None;
    }

    /** Insert with both driver failures reported to the caller instead of swallowed. */
    method InsertChecked(title: string, content: string, days: int, now: int,
                         execErr: Option<string>, lastIdErr: Option<string>)
      returns (r: Result<int, Error>)
      requires Valid()
      modifies this
      ensures Valid()
      ensures execErr.Some? ==> posts == old(posts) && nextId == old(nextId) && r == Err(DbError(execErr.value))
      ensures execErr.None? ==>
        && posts == old(posts) + [Post(old(nextId), title, content, now, now + days * Day)]
        && nextId == old(nextId) + 1
      ensures execErr.None? ==> r == if lastIdErr.Some? then Err(DbError(lastIdErr.value)) else Ok(old(nextId))
      ensures r.Ok? ==> r.value >= 1
    {
      if execErr.Some? {
        return Err(DbError(execErr.value));
      }
      var row := Post(nextId, title, content, now, now + days * Day);
      posts := posts + [row];
      nextId := nextId + 1;
      if lastIdErr.Some? {
        return Err(DbError(lastIdErr.value));
      }
      return Ok(row.id);
    }

    /**
     * `Get`: the stored row with this id if it has not expired; the
     * distinct ErrNoRecord when there is none; any other scan error as is.
     */
    function Get(id: int, now: int, scanErr: Option<string>): (r: Result<Post, Error>)
      reads this
      ensures scanErr.Some? ==> r == Err(DbError(scanErr.value))
      ensures r.Ok? <==> scanErr.None? && exists p :: p in posts && p.id == id && p.expires > now
      ensures r == Err(ErrNoRecord) <==> scanErr.None? && forall p :: p in posts && p.id == id ==> p.expires <= now
      ensures r.Ok? ==> r.value in posts && r.value.id == id && r.value.expires > now
      ensures r.Ok? && Valid() ==> forall p :: p in posts && p.id == id ==> p == r.value
    {
      match QueryRow(posts, id, now, scanErr)
      case Row(p) => Ok(p)
      case NoRows => Err(ErrNoRecord)
      case ScanFailed(msg) => Err(DbError(msg))
    }

    /**
     * `Latest`: runs the listing query and drains its cursor. A query error,
     * a scan error on any row reached, or an iteration error reported by
     * `rows.Err()` discards everything read so far.
     */
    method Latest(now: int, queryErr: Option<string>, scanErrs: map<nat, string>, iterErr: Option<IterFault>)
      returns (r: Result<seq<Post>, Error>)
      ensures queryErr.Some? ==> r == Err(DbError(queryErr.value))
      ensures queryErr.None? ==>
        var n := |LatestRows(posts, now)|;
        var first := FirstScanFault(scanErrs, Reached(n, iterErr));
        && (first.Some? ==> r == Err(DbError(scanErrs[first.value])))
        && (first.None? && IterFails(n, iterErr) ==> r == Err(DbError(iterErr.value.msg)))
        && (first.None? && !IterFails(n, iterErr) ==> r == Ok(LatestRows(posts, now)))
    {
      if queryErr.Some? {
        return Err(DbError(queryErr.value));
      }
      r := Drain(LatestRows(posts, now), scanErrs, iterErr);
    }
  }

  /**
   * The `for rows.Next()` loop of Latest over the result set `rows`: each
   * row reached is scanned and appended; the first scan error, or else the
   * iteration error, is returned instead of the rows.
   */
  method Drain(rows: seq<Post>, scanErrs: map<nat, string>, iterErr: Option<IterFault>)
    returns (r: Result<seq<Post>, Error>)
    ensures var first := FirstScanFault(scanErrs, Reached(|rows|, iterErr));
      && (first.Some? ==> r == Err(DbError(scanErrs[first.value])))
      && (first.None? && IterFails(|rows|, iterErr) ==> r == Err(DbError(iterErr.value.msg)))
      && (first.None? && !IterFails(|rows|, iterErr) ==> r == Ok(rows))
  {
    var out: seq<Post> := [];
    var i := 0;
    ghost var reached := Reached(|rows|, iterErr);
    while i < |rows| && !(iterErr.Some? && iterErr.value.at == i)
      invariant 0 <= i <= reached
      invariant out == rows[..i]
      invariant forall j :: 0 <= j < i ==> j !in scanErrs
    {
      if i in scanErrs {
        FirstScanFaultIs(scanErrs, reached, i);
        return Err(DbError(scanErrs[i]));
      }
      out := out + [rows[i]];
      i := i + 1;
    }
    assert i == reached;
    if iterErr.Some? && iterErr.value.at == i {
      return Err(DbError(iterErr.value.msg));
    }
    assert rows[..i] == rows;
    return Ok(out);
  }

  /** The first of the rows `0 .. n-1` whose Scan fails, if any. */
  function FirstScanFault(scanErrs: map<nat, string>, n: nat): (k: Option<nat>)
    ensures k.Some? ==> k.value < n && k.value in scanErrs && forall j :: 0 <= j < k.value ==> j !in scanErrs
    ensures k.None? <==> forall j :: 0 <= j < n ==> j !in scanErrs
  {
    if n == 0 then None
    else match FirstScanFault(scanErrs, n - 1)
      case Some(k) => Some(k)
      case None => if n - 1 in scanErrs then Some(n - 1) else None
  }

  /** A failing row with no failing row before it is the first scan fault of any longer run. */
  lemma {:induction false} FirstScanFaultIs(scanErrs: map<nat, string>, n: nat, i: nat)
    requires i < n && i in scanErrs
    requires forall j :: 0 <= j < i ==> j !in scanErrs
    ensures FirstScanFault(scanErrs, n) == Some(i)
  {
    if n - 1 > i {
      FirstScanFaultIs(scanErrs, n - 1, i);
    }
  }

  /** Whether `rows.Next()` fails within the `n` rows of the result set or at its end. */
  predicate IterFails(n: nat, iterErr: Option<IterFault>)
  {
    iterErr.Some? && iterErr.value.at <= n
  }

  /** How many rows `rows.Next()` hands out before iteration ends. */
  function Reached(n: nat, iterErr: Option<IterFault>): (k: nat)
    ensures k <= n
  {
    if iterErr.Some? && iterErr.value.at < n then iterErr.value.at else n
  }

  /**
   * Insert a post for `days` days, then look it up by the returned id at
   * the same instant: the stored post comes back with every field as given
   * when `days` is positive, and a post stored for no days is already gone.
   */
  method InsertThenGet(m: PostModel, title: string, content: string, days: int, now: int)
    returns (id: int, got: Result<Post, Error>)
    requires m.Valid()
    modifies m
    ensures m.Valid()
    ensures id == old(m.nextId)
    ensures days > 0 ==> got == Ok(Post(id, title, content, now, now + days * Day))
    ensures days <= 0 ==> got == Err(ErrNoRecord)
  {
    var r := m.InsertChecked(title, content, days, now, None, None);
    id := r.value;
    got := m.Get(id, now, None);
  }

  /**
   * Insert ("Hello", "World", 7) into an empty store: id 1 comes back, the
   * post is returned just before its seventh day ends, and eight days later
   * Get reports ErrNoRecord although the row is still stored.
   */
  method HelloWorldScenario(now: int)
    returns (id: int, within: Result<Post, Error>, expired: Result<Post, Error>, stored: nat)
    ensures id == 1
    ensures within == Ok(Post(1, "Hello", "World", now, now + 7 * Day))
    ensures expired == Err(ErrNoRecord) && stored == 1
  {
    var m := new PostModel();
    var r := m.InsertChecked("Hello", "World", 7, now, None, None);
    id := r.value;
    within := m.Get(id, now + 7 * Day - 1, None);
    expired := m.Get(id, now + 8 * Day, None);
    stored := |m.posts|;
  }

  /**
   * The swallowed Exec failure: Insert reports id 0 and no error, so the
   * caller cannot tell that nothing was stored.
   */
  method LostInsert(title: string, content: string, days: int, now: int, msg: string)
    returns (id: int, err: Option<Error>, stored: nat)
    ensures id == 0 && err == None
    ensures stored == 0
  {
    var m := new PostModel();
    id, err := m.Insert(title, content, days, now, Some(msg), None);
    stored := |m.posts|;
  }

  /** The same Exec failure through InsertChecked: the error reaches the caller. */
  method ReportedInsert(title: string, content: string, days: int, now: int, msg: string)
    returns (r: Result<int, Error>, stored: nat)
    ensures r == Err(DbError(msg))
    ensures stored == 0
  {
    var m := new PostModel();
    r := m.InsertChecked(title, content, days, now, Some(msg), None);
    stored := |m.posts|;
  }

  /**
   * The swallowed failure: when LastInsertId fails, Insert reports id 0 and
   * no error although the row was stored under id 1, and the id the caller
   * receives finds nothing.
   */
  method LostInsertId(title: string, content: string, days: int, now: int, msg: string)
    returns (id: int, err: Option<Error>, storedId: int, lookup: Result<Post, Error>)
    ensures id == 0 && err == None
    ensures storedId == 1
    ensures lookup == Err(ErrNoRecord)
  {
    var m := new PostModel();
    id, err := m.Insert(title, content, days, now, None, Some(msg));
    storedId := m.posts[0].id;
    lookup := m.Get(id, now, None);
  }

  /** The same failure through InsertChecked: the error reaches the caller. */
  method ReportedInsertId(title: string, content: string, days: int, now: int, msg: string)
    returns (r: Result<int, Error>, stored: nat)
    ensures r == Err(DbError(msg))
    ensures stored == 1
  {
    var m := new PostModel();
    r := m.InsertChecked(title, content, days, now, None, Some(msg));
    stored := |m.posts|;
  }
}
