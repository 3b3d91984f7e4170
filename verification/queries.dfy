/** The ordered, filtered and paged reads, and what stays put under them while the log moves on. */
module Queries {
  import opened Texts
  import opened Wrappers
  import opened AuditLog
  import opened Hashing
  import opened System
  import opened Invariants
  import opened Concurrency

  /** The optional filters; an absent one lets every row through. */
  datatype Filter = Filter(
    tenantId: Option<Text>,
    actorId: Option<Text>,
    eventType: Option<Text>,
    resourceType: Option<Text>,
    resourceId: Option<Text>,
    startTime: Option<int>,
    endTime: Option<int>,
    activeOnly: bool
  )

  predicate Admits(wanted: Option<Text>, t: Text) {
    wanted.None? || wanted.value == t
  }

  predicate Matches(f: Filter, r: Row) {
    var c := r.content;
    && (f.activeOnly ==> r.archivedAt.None?)
    && Admits(f.tenantId, c.request.tenantId)
    && Admits(f.actorId, c.request.actorId)
    && Admits(f.eventType, c.request.eventType)
    && Admits(f.resourceType, c.request.resourceType)
    && Admits(f.resourceId, c.request.resourceId)
    && (f.startTime.Some? ==> c.timestamp >= f.startTime.value)
    && (f.endTime.Some? ==> c.timestamp <= f.endTime.value)
  }

  /** The matching rows, in the order of the table, which is kept in id order. */
  function Select(rows: seq<Row>, f: Filter): seq<Row> {
    if rows == [] then []
    else
      var before := Select(rows[..|rows| - 1], f);
      if Matches(f, rows[|rows| - 1]) then before + [rows[|rows| - 1]] else before
  }

  function Min(a: nat, b: nat): nat {
    if a < b then a else b
  }

  /** `offset(...).limit(...)`. */
  function Page(rows: seq<Row>, offset: nat, limit: nat): seq<Row> {
    var from := Min(offset, |rows|);
    rows[from..Min(from + limit, |rows|)]
  }

  /** `list_events`: archived rows are left out. */
  function ListEvents(rows: seq<Row>, f: Filter, limit: nat, offset: nat): seq<Row> {
    Page(Select(rows, f.(activeOnly := true)), offset, limit)
  }

  /** `list_events_including_archived`: archived rows count, tenant and event type do not. */
  function ListEventsIncludingArchived(rows: seq<Row>, f: Filter): seq<Row> {
    Select(rows, f.(tenantId := None, eventType := None, activeOnly := false))
  }

  // ----- what a filtered list is -----

  /** The list holds exactly the matching rows. */
  lemma {:induction false} SelectMembers(rows: seq<Row>, f: Filter, r: Row)
    ensures r in Select(rows, f) <==> r in rows && Matches(f, r)
  {
    if rows != [] {
      var n := |rows| - 1;
      SelectMembers(rows[..n], f, r);
      assert rows == rows[..n] + [rows[n]];
    }
  }

  /** The list is in id order. */
  lemma {:induction false} SelectAscending(rows: seq<Row>, f: Filter)
    requires AscendingIds(rows)
    ensures AscendingIds(Select(rows, f))
  {
    if rows != [] {
      var n := |rows| - 1;
      SelectAscending(rows[..n], f);
      var before := Select(rows[..n], f);
      forall i | 0 <= i < |before|
        ensures before[i].id < rows[n].id
      {
        SelectMembers(rows[..n], f, before[i]);
        assert before[i] in rows[..n];
      }
    }
  }

  /** Two lists in id order with the same rows are the same list. */
  lemma {:induction false} AscendingUnique(a: seq<Row>, b: seq<Row>)
    requires AscendingIds(a) && AscendingIds(b)
    requires forall r :: r in a <==> r in b
    ensures a == b
  {
    assert a != [] ==> a[0] in a;
    assert b != [] ==> b[0] in b;
    if a == [] || b == [] {
      assert a == b;
    } else {
      LastIsGreatest(a, b);
      LastIsGreatest(b, a);
      var x, y := a[..|a| - 1], b[..|b| - 1];
      forall r
        ensures r in x <==> r in y
      {
        FrontMembers(a, r);
        FrontMembers(b, r);
      }
      AscendingUnique(x, y);
      assert a == x + [a[|a| - 1]] && b == y + [b[|b| - 1]];
    }
  }

  lemma LastIsGreatest(a: seq<Row>, b: seq<Row>)
    requires AscendingIds(a) && AscendingIds(b) && a != [] && b != []
    requires forall r :: r in a <==> r in b
    ensures a[|a| - 1] == b[|b| - 1]
  {
    var last, other := a[|a| - 1], b[|b| - 1];
    assert last in b && other in a;
    var i :| 0 <= i < |b| && b[i] == last;
    var j :| 0 <= j < |a| && a[j] == other;
  }

  lemma FrontMembers(a: seq<Row>, r: Row)
    requires AscendingIds(a) && a != []
    ensures r in a[..|a| - 1] <==> r in a && r != a[|a| - 1]
  {
    assert a == a[..|a| - 1] + [a[|a| - 1]];
  }

  /** What a filter asks of a row. */
  lemma MatchMeans(f: Filter, r: Row)
    ensures Matches(f, r)
            <==> (&& (f.activeOnly ==> r.archivedAt.None?)
                  && (f.tenantId.Some? ==> r.content.request.tenantId == f.tenantId.value)
                  && (f.actorId.Some? ==> r.content.request.actorId == f.actorId.value)
                  && (f.eventType.Some? ==> r.content.request.eventType == f.eventType.value)
                  && (f.resourceType.Some? ==> r.content.request.resourceType == f.resourceType.value)
                  && (f.resourceId.Some? ==> r.content.request.resourceId == f.resourceId.value)
                  && (f.startTime.Some? ==> f.startTime.value <= r.content.timestamp)
                  && (f.endTime.Some? ==> r.content.timestamp <= f.endTime.value))
  {
  }

  /** In every reachable state a filtered list is the one list that is in id order and holds the
      rows that have each value asked for, and nothing else. */
  lemma FilteredListExact(d: Digests, steps: seq<Step>, f: Filter, list: seq<Row>)
    requires ValidRun(d, steps)
    ensures list == Select(After(d, steps).rows, f)
            <==> (&& AscendingIds(list)
                  && forall r :: r in list <==>
                       && r in After(d, steps).rows
                       && (f.activeOnly ==> r.archivedAt.None?)
                       && (f.tenantId.Some? ==> r.content.request.tenantId == f.tenantId.value)
                       && (f.actorId.Some? ==> r.content.request.actorId == f.actorId.value)
                       && (f.eventType.Some? ==> r.content.request.eventType == f.eventType.value)
                       && (f.resourceType.Some? ==> r.content.request.resourceType == f.resourceType.value)
                       && (f.resourceId.Some? ==> r.content.request.resourceId == f.resourceId.value)
                       && (f.startTime.Some? ==> f.startTime.value <= r.content.timestamp)
                       && (f.endTime.Some? ==> r.content.timestamp <= f.endTime.value))
  {
    var rows := After(d, steps).rows;
    RunKeepsInv(d, steps);
    SelectUnique(rows, f, list);
    forall r {
      MatchMeans(f, r);
    }
  }

  lemma SelectUnique(rows: seq<Row>, f: Filter, list: seq<Row>)
    requires AscendingIds(rows)
    ensures list == Select(rows, f)
            <==> AscendingIds(list) && forall r :: r in list <==> r in rows && Matches(f, r)
  {
    SelectAscending(rows, f);
    forall r {
      SelectMembers(rows, f, r);
    }
    if AscendingIds(list) && forall r :: r in list <==> r in rows && Matches(f, r) {
      AscendingUnique(list, Select(rows, f));
    }
  }

  lemma PageExact(all: seq<Row>, offset: nat, limit: nat)
    ensures var page := Page(all, offset, limit);
            && |page| == (if offset >= |all| then 0 else if limit <= |all| - offset then limit else |all| - offset)
            && forall i :: 0 <= i < |page| ==> page[i] == all[offset + i]
  {
  }

  /** `list_events` on a reachable log: from position `offset` on, at most `limit` rows of the list in
      id order of exactly the active rows that have each value asked for and a timestamp from the start
      to the end. A reader's tenant is such a value, so no other tenant's rows are among them. */
  lemma ListedRows(d: Digests, steps: seq<Step>, f: Filter, limit: nat, offset: nat) returns (all: seq<Row>)
    requires ValidRun(d, steps)
    ensures AscendingIds(all)
    ensures forall r :: r in all <==>
              && r in After(d, steps).rows && r.archivedAt.None?
              && (f.tenantId.Some? ==> r.content.request.tenantId == f.tenantId.value)
              && (f.actorId.Some? ==> r.content.request.actorId == f.actorId.value)
              && (f.eventType.Some? ==> r.content.request.eventType == f.eventType.value)
              && (f.resourceType.Some? ==> r.content.request.resourceType == f.resourceType.value)
              && (f.resourceId.Some? ==> r.content.request.resourceId == f.resourceId.value)
              && (f.startTime.Some? ==> f.startTime.value <= r.content.timestamp)
              && (f.endTime.Some? ==> r.content.timestamp <= f.endTime.value)
    ensures var page := ListEvents(After(d, steps).rows, f, limit, offset);
            && |page| == (if offset >= |all| then 0 else if limit <= |all| - offset then limit else |all| - offset)
            && forall i :: 0 <= i < |page| ==> page[i] == all[offset + i]
  {
    var rows := After(d, steps).rows;
    var g := f.(activeOnly := true);
    all := Select(rows, g);
    RunKeepsInv(d, steps);
    SelectAscending(rows, g);
    PageExact(all, offset, limit);
    forall r {
      SelectMembers(rows, g, r);
    }
    forall r {
      MatchMeans(g, r);
    }
  }

  /** `list_events_including_archived` on a reachable log: the same over all rows, without a page and
      without the two filters it does not take. */
  lemma ListedWithArchived(d: Digests, steps: seq<Step>, f: Filter)
    requires ValidRun(d, steps)
    ensures var all := ListEventsIncludingArchived(After(d, steps).rows, f);
            && AscendingIds(all)
            && forall r :: r in all <==>
                 && r in After(d, steps).rows
                 && (f.actorId.Some? ==> r.content.request.actorId == f.actorId.value)
                 && (f.resourceType.Some? ==> r.content.request.resourceType == f.resourceType.value)
                 && (f.resourceId.Some? ==> r.content.request.resourceId == f.resourceId.value)
                 && (f.startTime.Some? ==> f.startTime.value <= r.content.timestamp)
                 && (f.endTime.Some? ==> r.content.timestamp <= f.endTime.value)
  {
    var rows := After(d, steps).rows;
    var g := f.(tenantId := None, eventType := None, activeOnly := false);
    RunKeepsInv(d, steps);
    SelectAscending(rows, g);
    forall r {
      SelectMembers(rows, g, r);
    }
    forall r {
      MatchMeans(g, r);
    }
  }

  // ----- what a row keeps while nothing is archived -----

  /** The same record, possibly redacted since. */
  predicate SameEvent(r: Row, t: Row) {
    && t.id == r.id && t.eventHash == r.eventHash && t.archivedAt == r.archivedAt
    && t.content == WithPayload(r.content, Payload(t))
  }

  ghost predicate SameEvents(a: seq<Row>, b: seq<Row>) {
    |a| == |b| && forall i :: 0 <= i < |a| ==> SameEvent(a[i], b[i])
  }

  /** The rows of `a` are still there, in their places, and others may have come after them. */
  ghost predicate Extends(a: seq<Row>, b: seq<Row>) {
    |a| <= |b| && SameEvents(a, b[..|a|])
  }

  lemma ExtendsSelf(a: seq<Row>)
    ensures Extends(a, a)
  {
    assert a[..|a|] == a;
  }

  lemma ExtendsTransitive(a: seq<Row>, b: seq<Row>, c: seq<Row>)
    requires Extends(a, b) && Extends(b, c)
    ensures Extends(a, c)
  {
    forall i | 0 <= i < |a|
      ensures SameEvent(a[i], c[..|a|][i])
    {
      assert SameEvent(a[i], b[..|a|][i]) && SameEvent(b[i], c[..|b|][i]);
    }
  }

  /** Filters do not look at what a redaction changes. */
  lemma MatchesSameEvent(f: Filter, r: Row, t: Row)
    requires SameEvent(r, t)
    ensures Matches(f, r) <==> Matches(f, t)
  {
  }

  lemma {:induction false} SelectSameEvents(a: seq<Row>, b: seq<Row>, f: Filter)
    requires SameEvents(a, b)
    ensures SameEvents(Select(a, f), Select(b, f))
  {
    if a != [] {
      var n := |a| - 1;
      assert SameEvent(a[n], b[n]);
      MatchesSameEvent(f, a[n], b[n]);
      SelectSameEvents(a[..n], b[..n], f);
    }
  }

  lemma {:induction false} SelectPrefix(rows: seq<Row>, n: nat, f: Filter)
    requires n <= |rows|
    ensures Select(rows[..n], f) <= Select(rows, f)
  {
    if n == |rows| {
      assert rows[..n] == rows;
    } else {
      SelectPrefix(rows[..|rows| - 1], n, f);
      assert rows[..|rows| - 1][..n] == rows[..n];
    }
  }

  /** What a filter finds stays where it is in the filtered list. */
  lemma SelectExtends(a: seq<Row>, b: seq<Row>, f: Filter)
    requires Extends(a, b)
    ensures Extends(Select(a, f), Select(b, f))
  {
    SelectSameEvents(a, b[..|a|], f);
    SelectPrefix(b, |a|, f);
  }

  // ----- paging -----

  /** Fetching page after page, each from the log as it is by then. */
  function Fetched(logs: seq<seq<Row>>, f: Filter, limit: nat): seq<Row> {
    if logs == [] then []
    else
      var n := |logs| - 1;
      Fetched(logs[..n], f, limit) + ListEvents(logs[n], f, limit, n * limit)
  }

  ghost predicate Growing(logs: seq<seq<Row>>) {
    forall i, j :: 0 <= i <= j < |logs| ==> Extends(logs[i], logs[j])
  }

  /** Every page but the last was full. */
  ghost predicate FullBeforeLast(logs: seq<seq<Row>>, f: Filter, limit: nat) {
    forall k :: 0 <= k < |logs| - 1 ==> |ListEvents(logs[k], f, limit, k * limit)| == limit
  }

  lemma PageIsRest(rows: seq<Row>, offset: nat, limit: nat)
    requires limit > 0
    ensures |Page(rows, offset, limit)| < limit && offset <= |rows| ==> Page(rows, offset, limit) == rows[offset..]
    ensures |Page(rows, offset, limit)| == limit ==>
              offset + limit <= |rows| && Page(rows, offset, limit) == rows[offset..offset + limit]
  {
  }

  lemma OneMore(n: nat, limit: nat)
    ensures (n + 1) * limit == n * limit + limit
  {
  }

  /** What the full pages so far have brought is what the present list begins with. */
  lemma {:induction false} FetchedFull(logs: seq<seq<Row>>, f: Filter, limit: nat, now: seq<Row>)
    requires limit > 0
    requires forall k :: 0 <= k < |logs| ==>
               Extends(logs[k], now) && |ListEvents(logs[k], f, limit, k * limit)| == limit
    ensures var all := Select(now, f.(activeOnly := true));
            && |logs| * limit <= |all|
            && SameEvents(Fetched(logs, f, limit), all[..|logs| * limit])
  {
    if logs != [] {
      var n := |logs| - 1;
      var g := f.(activeOnly := true);
      assert forall k :: 0 <= k < n ==> logs[..n][k] == logs[k];
      FetchedFull(logs[..n], f, limit, now);
      SelectExtends(logs[n], now, g);
      OneMore(n, limit);
      NextPage(Select(logs[n], g), Select(now, g), n * limit, limit, Fetched(logs[..n], f, limit));
    }
  }

  lemma NextPage(source: seq<Row>, all: seq<Row>, offset: nat, limit: nat, fetched: seq<Row>)
    requires limit > 0 && Extends(source, all) && |Page(source, offset, limit)| == limit
    requires offset <= |all| && SameEvents(fetched, all[..offset])
    ensures offset + limit <= |all|
    ensures SameEvents(fetched + Page(source, offset, limit), all[..offset + limit])
  {
    PageIsRest(source, offset, limit);
    var got := fetched + Page(source, offset, limit);
    forall i | 0 <= i < |got|
      ensures SameEvent(got[i], all[..offset + limit][i])
    {
      if i < offset {
        assert SameEvent(fetched[i], all[..offset][i]);
      } else {
        assert got[i] == source[i];
        assert SameEvent(source[i], all[..|source|][i]);
      }
    }
  }

  /** Pages fetched until one is short, from a log that only grows meanwhile, are together exactly
      the filtered list as it is at the last fetch: same events, same order, none twice. */
  lemma PagesMakeTheList(logs: seq<seq<Row>>, f: Filter, limit: nat)
    requires limit > 0 && logs != [] && Growing(logs) && FullBeforeLast(logs, f, limit)
    requires |ListEvents(logs[|logs| - 1], f, limit, (|logs| - 1) * limit)| < limit
    ensures SameEvents(Fetched(logs, f, limit), Select(logs[|logs| - 1], f.(activeOnly := true)))
  {
    var n := |logs| - 1;
    var all := Select(logs[n], f.(activeOnly := true));
    forall k | 0 <= k < n
      ensures Extends(logs[..n][k], logs[n]) && |ListEvents(logs[..n][k], f, limit, k * limit)| == limit
    {
      assert logs[..n][k] == logs[k];
    }
    FetchedFull(logs[..n], f, limit, logs[n]);
    PageIsRest(all, n * limit, limit);
    RestCompletes(Fetched(logs[..n], f, limit), all, n * limit);
  }

  lemma RestCompletes(front: seq<Row>, all: seq<Row>, offset: nat)
    requires offset <= |all| && SameEvents(front, all[..offset])
    ensures SameEvents(front + all[offset..], all)
  {
    forall i | 0 <= i < |all|
      ensures SameEvent((front + all[offset..])[i], all[i])
    {
      if i < offset {
        assert SameEvent(front[i], all[..offset][i]);
      }
    }
  }

  // ----- logs of concurrent histories only grow -----

  predicate Archives(l: Label) {
    l.Outside? && l.step.ArchiveStep?
  }

  lemma MoveExtends(d: Digests, w: World, l: Label)
    requires CanDo(d, w, l) && !Archives(l)
    ensures Extends(w.db.rows, Do(d, w, l).db.rows)
  {
    var t := Do(d, w, l);
    match l {
      case Commit(i) => assert t.db.rows[..|w.db.rows|] == w.db.rows;
      case Outside(step) =>
        if step.RedactStep? {
          assert t.db.rows[..|w.db.rows|] == t.db.rows;
        } else {
          ExtendsSelf(w.db.rows);
        }
      case _ => ExtendsSelf(w.db.rows);
    }
  }

  lemma {:induction false} PrefixReachable(d: Digests, labels: seq<Label>, n: nat)
    requires ValidHistory(d, labels) && n <= |labels|
    ensures ValidHistory(d, labels[..n])
  {
    if n == |labels| {
      assert labels[..n] == labels;
    } else {
      PrefixReachable(d, labels[..|labels| - 1], n);
      assert labels[..|labels| - 1][..n] == labels[..n];
    }
  }

  /** Between two points of a history with no archive run in between, the log only grows. */
  lemma {:induction false} HistoryExtends(d: Digests, labels: seq<Label>, m: nat, n: nat)
    requires ValidHistory(d, labels) && m <= n <= |labels|
    requires forall k :: m <= k < n ==> !Archives(labels[k])
    ensures ValidHistory(d, labels[..m]) && ValidHistory(d, labels[..n])
    ensures Extends(Reached(d, labels[..m]).db.rows, Reached(d, labels[..n]).db.rows)
    decreases n - m
  {
    PrefixReachable(d, labels, m);
    PrefixReachable(d, labels, n);
    if m == n {
      ExtendsSelf(Reached(d, labels[..n]).db.rows);
    } else {
      HistoryExtends(d, labels, m, n - 1);
      assert labels[..n][..n - 1] == labels[..n - 1];
      MoveExtends(d, Reached(d, labels[..n - 1]), labels[n - 1]);
      ExtendsTransitive(Reached(d, labels[..m]).db.rows, Reached(d, labels[..n - 1]).db.rows,
                        Reached(d, labels[..n]).db.rows);
    }
  }

  /** Points of a history, in order, with no archive run between the first and the last. */
  ghost predicate FetchPoints(labels: seq<Label>, at: seq<nat>) {
    && (forall i :: 0 <= i < |at| ==> at[i] <= |labels|)
    && (forall i, j :: 0 <= i <= j < |at| ==> at[i] <= at[j])
    && (forall k, i, j :: 0 <= i <= j < |at| && at[i] <= k < at[j] ==> !Archives(labels[k]))
  }

  /** The log at the points of the fetches. */
  ghost function LogsAt(d: Digests, labels: seq<Label>, at: seq<nat>): (r: seq<seq<Row>>)
    requires ValidHistory(d, labels) && FetchPoints(labels, at)
    ensures |r| == |at|
    ensures forall i :: 0 <= i < |at| ==> ValidHistory(d, labels[..at[i]]) && r[i] == Reached(d, labels[..at[i]]).db.rows
  {
    if at == [] then []
    else
      var n := |at| - 1;
      PrefixReachable(d, labels, at[n]);
      LogsAt(d, labels, at[..n]) + [Reached(d, labels[..at[n]]).db.rows]
  }

  lemma LogsGrow(d: Digests, labels: seq<Label>, at: seq<nat>)
    requires ValidHistory(d, labels) && FetchPoints(labels, at)
    ensures Growing(LogsAt(d, labels, at))
  {
    var logs := LogsAt(d, labels, at);
    forall i, j | 0 <= i <= j < |logs|
      ensures Extends(logs[i], logs[j])
    {
      HistoryExtends(d, labels, at[i], at[j]);
    }
  }

  /** Whatever clients append and redact between the fetches, paging until a short page yields
      exactly the filtered list as it is at the last fetch. */
  lemma StablePaging(d: Digests, labels: seq<Label>, at: seq<nat>, f: Filter, limit: nat)
    requires ValidHistory(d, labels) && FetchPoints(labels, at) && at != [] && limit > 0
    requires var logs := LogsAt(d, labels, at);
             && FullBeforeLast(logs, f, limit)
             && |ListEvents(logs[|logs| - 1], f, limit, (|logs| - 1) * limit)| < limit
    ensures var logs := LogsAt(d, labels, at);
            SameEvents(Fetched(logs, f, limit),
                       Select(Reached(d, labels[..at[|at| - 1]]).db.rows, f.(activeOnly := true)))
  {
    LogsGrow(d, labels, at);
    PagesMakeTheList(LogsAt(d, labels, at), f, limit);
  }
}
