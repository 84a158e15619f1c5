/** The activity feed: pages of an append-only log, newest first, each page keyed by the oldest row
    of the one before it, so that rows arriving meanwhile do not slide anything. */
module Activity {
  import opened Wrappers
  import opened Decimal

  const DEFAULT_LIMIT := 200
  const MAX_LIMIT := 1000

  /** One row of the transition log. */
  datatype Row = Row(id: int64, source: string, set_: string, name: string, from: string, to: string, at: int, detail: string)

  datatype ActivityEvent = ActivityEvent(
    artifactId: string, backupSetId: string, source: string, set_: string, name: string,
    from: string, to: string, at: int, detail: string)

  function EventOf(r: Row): ActivityEvent
  {
    ActivityEvent(r.source + "/" + r.set_ + "/" + r.name, r.source + "/" + r.set_, r.source, r.set_, r.name,
                  r.from, r.to, r.at, r.detail)
  }

  function Events(rows: seq<Row>): (out: seq<ActivityEvent>)
    ensures |out| == |rows|
  {
    seq(|rows|, i requires 0 <= i < |rows| => EventOf(rows[i]))
  }

  /** An event says what its row says, field by field, and names the set and the artifact by the ids
      an operator knows. */
  lemma EventsSayWhatTheRowsSay(rows: seq<Row>, i: nat)
    requires i < |rows|
    ensures
      var e, r := Events(rows)[i], rows[i];
      && e.from == r.from && e.to == r.to && e.at == r.at && e.detail == r.detail
      && e.source == r.source && e.set_ == r.set_ && e.name == r.name
      && e.backupSetId == r.source + "/" + r.set_ && e.artifactId == e.backupSetId + "/" + r.name
  {}

  /** Ids are positive and grow with every insertion. */
  ghost predicate IsLog(log: seq<Row>)
  {
    && (forall i :: 0 <= i < |log| ==> log[i].id > 0)
    && (forall i, j :: 0 <= i < j < |log| ==> log[i].id < log[j].id)
  }

  function Reversed(rows: seq<Row>): (out: seq<Row>)
    ensures |out| == |rows|
  {
    seq(|rows|, i requires 0 <= i < |rows| => rows[|rows| - 1 - i])
  }

  /** The rows a read sees behind a cursor, oldest first; all of them behind none. */
  function Older(log: seq<Row>, before: int64): seq<Row>
  {
    if before <= 0 || log == [] then log
    else if log[|log| - 1].id < before then Older(log[..|log| - 1], before) + [log[|log| - 1]]
    else Older(log[..|log| - 1], before)
  }

  /** The newest of them, newest first, as many as asked for. */
  function RecentActivityBefore(log: seq<Row>, before: int64, limit: nat): seq<Row>
  {
    var rows := Older(log, before);
    Reversed(if |rows| <= limit then rows else rows[|rows| - limit..])
  }

  function Clamped(limit: int): (n: nat)
    ensures 1 <= n <= MAX_LIMIT
    ensures 1 <= limit <= 1000 ==> n == limit
    ensures limit <= 0 ==> n == 200
    ensures limit > 1000 ==> n == 1000
  {
    if limit <= 0 then DEFAULT_LIMIT
    else if limit > MAX_LIMIT then MAX_LIMIT
    else limit
  }

  /** Whatever is not a positive decimal id means the newest row. */
  function ActivityCursor(before: string): int64
  {
    match ParseInt(before)
    case None => 0
    case Some(id) => if id <= 0 then 0 else id
  }

  /** Only an optional sign and digits in range name a row, and only a positive one. */
  lemma CursorNamesARowExactly(before: string)
    ensures ActivityCursor(before) > 0 <==>
      exists digits: string :: AllDigits(digits) && digits != "" && 0 < NatValue(digits) <= MAX_INT64 && (before == digits || before == "+" + digits)
    ensures ActivityCursor(before) >= 0
    ensures forall digits: string :: AllDigits(digits) && digits != "" && 0 < NatValue(digits) <= MAX_INT64 && before == digits ==>
      ActivityCursor(before) == NatValue(digits)
  {
    ParsesExactly(before);
  }

  function NextCursor(rows: seq<Row>, limit: nat): string
  {
    if |rows| == limit && rows != [] then FormatInt(rows[|rows| - 1].id) else ""
  }

  lemma EventsAppend(a: seq<Row>, b: seq<Row>)
    ensures Events(a + b) == Events(a) + Events(b)
  {}

  datatype Feed = Page(events: seq<ActivityEvent>, nextCursor: string) | NotRead

  /** readable is whether the journal could be read; if not there is neither page nor cursor. */
  method ListActivity(log: seq<Row>, readable: bool, limit: int, before: string) returns (feed: Feed)
    ensures feed.NotRead? <==> !readable
    ensures readable ==>
      var rows := RecentActivityBefore(log, ActivityCursor(before), Clamped(limit));
      feed == Page(Events(rows), NextCursor(rows, Clamped(limit)))
  {
    var n := limit;
    if n <= 0 {
      n := DEFAULT_LIMIT;
    }
    if n > MAX_LIMIT {
      n := MAX_LIMIT;
    }
    if !readable {
      return NotRead;
    }
    var records := RecentActivityBefore(log, ActivityCursor(before), n);
    var out: seq<ActivityEvent> := [];
    for i := 0 to |records|
      invariant out == Events(records[..i])
    {
      assert records[..i + 1] == records[..i] + [records[i]];
      EventsAppend(records[..i], [records[i]]);
      out := out + [EventOf(records[i])];
    }
    assert records[..|records|] == records;
    var nextCursor := "";
    if |records| == n {
      nextCursor := FormatInt(records[|records| - 1].id);
    }
    return Page(out, nextCursor);
  }

  // ----- following the cursor to the end -----

  /** What a client gets that follows the cursor, one log as it stands at each of its calls, until
      the cursor comes back empty or it stops calling. */
  function Follow(logs: seq<seq<Row>>, limit: nat, before: string): seq<seq<ActivityEvent>>
  {
    if logs == [] then []
    else
      var rows := RecentActivityBefore(logs[0], ActivityCursor(before), limit);
      var next := NextCursor(rows, limit);
      if next == "" then [Events(rows)] else [Events(rows)] + Follow(logs[1..], limit, next)
  }

  function Concat(pages: seq<seq<ActivityEvent>>): seq<ActivityEvent>
  {
    if pages == [] then [] else pages[0] + Concat(pages[1..])
  }

  /** A cursor this feed issued names its row again. */
  lemma IssuedCursorReadsBack(id: int64)
    requires id > 0
    ensures ActivityCursor(FormatInt(id)) == id && FormatInt(id) != ""
  {
    FormatIntReadsBack(id);
    FormatNatReadsBack(id);
  }

  lemma {:induction false} AllOlder(log: seq<Row>, before: int64)
    requires forall i :: 0 <= i < |log| ==> log[i].id < before
    ensures Older(log, before) == log
  {
    if log != [] && before > 0 {
      AllOlder(log[..|log| - 1], before);
      assert log[..|log| - 1] + [log[|log| - 1]] == log;
    }
  }

  /** Behind a row's own id lie exactly the rows that were there before it, however many have been
      appended since. */
  lemma {:induction false} OlderThanARow(log: seq<Row>, k: nat)
    requires IsLog(log) && k < |log|
    ensures Older(log, log[k].id) == log[..k]
  {
    var front := log[..|log| - 1];
    if k < |log| - 1 {
      assert front[k] == log[k];
      OlderThanARow(front, k);
      assert front[..k] == log[..k];
    } else {
      AllOlder(front, log[k].id);
      assert front == log[..k];
    }
  }

  lemma ReversedSplits(rows: seq<Row>, k: nat)
    requires k <= |rows|
    ensures Reversed(rows) == Reversed(rows[k..]) + Reversed(rows[..k])
  {}

  /** Where a page of this size starts in what is left, oldest first. */
  function Cut(rest: seq<Row>, limit: nat): (cut: nat)
    ensures cut <= |rest| && (|rest| >= limit ==> |rest| == cut + limit) && (|rest| < limit ==> cut == 0)
  {
    if |rest| <= limit then 0 else |rest| - limit
  }

  /** One call: a page of the newest rows left, and a cursor only when it was filled. */
  lemma OneCall(logs: seq<seq<Row>>, limit: nat, before: string, rest: seq<Row>)
    requires limit > 0 && logs != [] && Older(logs[0], ActivityCursor(before)) == rest
    requires forall i :: 0 <= i < |rest| ==> rest[i].id > 0
    ensures var page := Events(Reversed(rest[Cut(rest, limit)..]));
      Follow(logs, limit, before) ==
        if |rest| < limit then [page] else [page] + Follow(logs[1..], limit, FormatInt(rest[Cut(rest, limit)].id))
  {}

  lemma ConcatSplits(pages: seq<seq<ActivityEvent>>)
    requires pages != []
    ensures Concat(pages) == pages[0] + Concat(pages[1..])
    ensures |pages| == 1 ==> Concat(pages) == pages[0]
  {}

  /** One call per full page, and one more to find there is nothing left. */
  function Calls(n: nat, limit: nat): (c: nat)
    requires limit > 0
    ensures c > 0
  {
    if n < limit then 1 else 1 + Calls(n - limit, limit)
  }

  lemma Small(n: nat, d: nat)
    requires n < d
    ensures n / d == 0
  {}

  lemma AtLeastOnce(d: nat, k: int)
    requires k >= 1
    ensures d * k >= d
  {}

  lemma Quotient(n: nat, d: nat)
    requires 0 < d <= n
    ensures n / d == (n - d) / d + 1
  {
    var p, q := n / d, (n - d) / d + 1;
    assert d * p + n % d == n && d * (q - 1) + (n - d) % d == n - d;
    assert d * q == d * (q - 1) + d;
    assert d * (p - q) == (n - d) % d - n % d;
    if p > q { AtLeastOnce(d, p - q); }
    if q > p { AtLeastOnce(d, q - p); }
  }

  lemma {:induction false} CallsCounted(n: nat, limit: nat)
    requires limit > 0
    ensures Calls(n, limit) == n / limit + 1
  {
    if n < limit {
      Small(n, limit);
    } else {
      CallsCounted(n - limit, limit);
      Quotient(n, limit);
    }
  }

  lemma RestIsALog(log: seq<Row>, rest: seq<Row>)
    requires IsLog(log) && rest <= log
    ensures IsLog(rest)
  {}

  lemma LaterLogs(logs: seq<seq<Row>>, rest: seq<Row>, cut: nat)
    requires |logs| > 0 && cut < |rest| && forall i :: 0 <= i < |logs| ==> IsLog(logs[i]) && rest <= logs[i]
    ensures forall i :: 0 <= i < |logs[1..]| ==>
      IsLog(logs[1..][i]) && rest[..cut] <= logs[1..][i] && logs[1..][i][cut] == rest[cut] && logs[1..][i][..cut] == rest[..cut]
  {}

  /** From any call on: behind this call's cursor lies rest, and every log from here on still
      starts with it. */
  lemma {:induction false} FollowsTheRest(logs: seq<seq<Row>>, limit: nat, before: string, rest: seq<Row>)
    requires limit > 0 && |logs| >= Calls(|rest|, limit) && Older(logs[0], ActivityCursor(before)) == rest
    requires forall i :: 0 <= i < |logs| ==> IsLog(logs[i]) && rest <= logs[i]
    ensures var pages := Follow(logs, limit, before);
      Concat(pages) == Events(Reversed(rest)) && |pages| == Calls(|rest|, limit)
    decreases |rest|
  {
    var cut, pages := Cut(rest, limit), Follow(logs, limit, before);
    RestIsALog(logs[0], rest);
    OneCall(logs, limit, before, rest);
    ConcatSplits(pages);
    ReversedSplits(rest, cut);
    EventsAppend(Reversed(rest[cut..]), Reversed(rest[..cut]));
    if |rest| < limit {
      assert Reversed(rest[..cut]) == [];
    } else {
      var later, id := logs[1..], rest[cut].id;
      IssuedCursorReadsBack(id);
      LaterLogs(logs, rest, cut);
      OlderThanARow(later[0], cut);
      assert |rest[..cut]| == |rest| - limit;
      FollowsTheRest(later, limit, FormatInt(id), rest[..cut]);
      assert pages[1..] == Follow(later, limit, FormatInt(id));
    }
  }

  /** The main result. A client that follows the cursor from empty until it comes back empty, with
      anything appended between any two of its calls, gets exactly the rows that were there at its
      first call, newest to oldest, in floor(n / limit) + 1 calls (CallsCounted), for any limit it
      may ask for. */
  lemma PagingIsComplete(logs: seq<seq<Row>>, limit: int)
    requires logs != [] && forall i :: 0 <= i < |logs| ==> IsLog(logs[i]) && logs[0] <= logs[i]
    requires |logs| >= Calls(|logs[0]|, Clamped(limit))
    ensures var pages := Follow(logs, Clamped(limit), "");
      Concat(pages) == Events(Reversed(logs[0])) && |pages| == Calls(|logs[0]|, Clamped(limit))
  {
    assert ActivityCursor("") == 0 && Older(logs[0], 0) == logs[0];
    FollowsTheRest(logs, Clamped(limit), "", logs[0]);
  }

  /** And that is strictly newest to oldest, each row once. */
  lemma NewestToOldest(log: seq<Row>, i: nat, j: nat)
    requires IsLog(log) && i < j < |log|
    ensures Reversed(log)[i].id > Reversed(log)[j].id
  {}
}
