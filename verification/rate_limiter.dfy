/** The sliding-window limiter: a pruned deque per key, against the full history it stands for. */
module RateLimiter {
  import opened Texts
  import opened Wrappers

  datatype Config = Config(maxRequests: int, window: real)

  /** What the limiter is asked to do, in the order its lock admits it. */
  datatype Op = Try(key: Text, now: real) | Clear

  // ----- what the deques hold -----

  /** The deque without the old entries at its head. */
  function Pruned(hits: seq<real>, cutoff: real): seq<real> {
    if hits != [] && hits[0] < cutoff then Pruned(hits[1..], cutoff) else hits
  }

  /** The deque of `key` after a call. */
  function Recorded(c: Config, hits: seq<real>, now: real): seq<real> {
    var kept := Pruned(hits, now - c.window);
    if |kept| >= c.maxRequests then kept else kept + [now]
  }

  function DequeStep(c: Config, before: seq<real>, op: Op, key: Text): seq<real> {
    match op
    case Try(k, now) => if k == key then Recorded(c, before, now) else before
    case Clear => []
  }

  /** The deque of `key` after a run of operations. */
  function Deque(c: Config, ops: seq<Op>, key: Text): seq<real> {
    if ops == [] then []
    else DequeStep(c, Deque(c, ops[..|ops| - 1], key), ops[|ops| - 1], key)
  }

  predicate Refuses(c: Config, ops: seq<Op>, key: Text, now: real) {
    |Pruned(Deque(c, ops, key), now - c.window)| >= c.maxRequests
  }

  /** Every hit of `key` the deque let through since the last reset, under the reading it came
      with, in the order it came. */
  function Allowed(c: Config, ops: seq<Op>, key: Text): seq<real> {
    if ops == [] then []
    else
      var front := ops[..|ops| - 1];
      match ops[|ops| - 1]
      case Try(k, now) =>
        if k == key && !Refuses(c, front, key, now) then Allowed(c, front, key) + [now] else Allowed(c, front, key)
      case Clear => []
  }

  // ----- the naive specification -----

  function CountIn(hits: seq<real>, low: real, high: real): nat {
    if hits == [] then 0
    else CountIn(hits[..|hits| - 1], low, high) + (if low <= hits[|hits| - 1] <= high then 1 else 0)
  }

  /** Fewer than the maximum of the allowed hits lie in the trailing window. */
  predicate Allows(c: Config, granted: seq<real>, now: real) {
    CountIn(granted, now - c.window, now) < c.maxRequests
  }

  function GrantedStep(c: Config, before: seq<real>, op: Op, key: Text): seq<real> {
    match op
    case Try(k, now) => if k == key && Allows(c, before, now) then before + [now] else before
    case Clear => []
  }

  /** Every hit of `key` allowed since the last reset, none of them forgotten. */
  function Granted(c: Config, ops: seq<Op>, key: Text): seq<real> {
    if ops == [] then []
    else GrantedStep(c, Granted(c, ops[..|ops| - 1], key), ops[|ops| - 1], key)
  }

  function CaughtUp(latest: Option<real>, now: real): real {
    if latest.Some? && latest.value > now then latest.value else now
  }

  /** The latest clock reading among this key's calls since the last reset. */
  function Latest(ops: seq<Op>, key: Text): Option<real> {
    if ops == [] then None
    else
      var before := Latest(ops[..|ops| - 1], key);
      match ops[|ops| - 1]
      case Try(k, now) => if k == key then Some(CaughtUp(before, now)) else before
      case Clear => None
  }

  predicate NotAfter(latest: Option<real>, now: real) {
    latest.None? || latest.value <= now
  }

  /** Between resets, the clock readings of this key's calls do not decrease in lock order. The
      limiter reads the clock before it takes its lock, so nothing in it makes that so. */
  predicate Ordered(ops: seq<Op>, key: Text) {
    || ops == []
    || (var front, last := ops[..|ops| - 1], ops[|ops| - 1];
        Ordered(front, key) && (last.Try? && last.key == key ==> NotAfter(Latest(front, key), last.now)))
  }

  // ----- the deque is the recent end of the history -----

  ghost predicate Nondecreasing(hits: seq<real>) {
    forall i, j :: 0 <= i < j < |hits| ==> hits[i] <= hits[j]
  }

  /** `tail` is what is left of `all` after some entries below `cutoff` are dropped in front. */
  ghost predicate RecentEnd(tail: seq<real>, all: seq<real>, cutoff: real) {
    && |tail| <= |all| && tail == all[|all| - |tail|..]
    && forall i :: 0 <= i < |all| - |tail| ==> all[i] < cutoff
  }

  lemma {:induction false} PrunedIsEnd(hits: seq<real>, cutoff: real)
    requires Nondecreasing(hits)
    ensures RecentEnd(Pruned(hits, cutoff), hits, cutoff)
    ensures forall i :: 0 <= i < |Pruned(hits, cutoff)| ==> Pruned(hits, cutoff)[i] >= cutoff
  {
    if hits != [] && hits[0] < cutoff {
      PrunedIsEnd(hits[1..], cutoff);
      assert forall i :: 0 < i < |hits| ==> hits[i] == hits[1..][i - 1];
    }
  }

  lemma RecentEndTrans(a: seq<real>, b: seq<real>, c: seq<real>, low: real, high: real)
    requires RecentEnd(a, b, high) && RecentEnd(b, c, low) && low <= high
    ensures RecentEnd(a, c, high)
  {
    var cut := |c| - |b|;
    forall i | 0 <= i < |c| - |a|
      ensures c[i] < high
    {
      if i >= cut {
        assert c[i] == b[i - cut];
      }
    }
  }

  lemma {:induction false} CountSplit(a: seq<real>, b: seq<real>, low: real, high: real)
    ensures CountIn(a + b, low, high) == CountIn(a, low, high) + CountIn(b, low, high)
  {
    if b == [] {
      assert a + b == a;
    } else {
      var n := |b| - 1;
      CountSplit(a, b[..n], low, high);
      assert (a + b)[..|a + b| - 1] == a + b[..n];
    }
  }

  lemma {:induction false} CountNone(hits: seq<real>, low: real, high: real)
    requires forall i :: 0 <= i < |hits| ==> hits[i] < low
    ensures CountIn(hits, low, high) == 0
  {
    if hits != [] {
      CountNone(hits[..|hits| - 1], low, high);
    }
  }

  lemma {:induction false} CountAll(hits: seq<real>, low: real, high: real)
    requires forall i :: 0 <= i < |hits| ==> low <= hits[i] <= high
    ensures CountIn(hits, low, high) == |hits|
  {
    if hits != [] {
      CountAll(hits[..|hits| - 1], low, high);
    }
  }

  /** What stays after pruning is as much as the trailing window of the whole history holds. */
  lemma RecentEndCount(kept: seq<real>, all: seq<real>, low: real, high: real)
    requires RecentEnd(kept, all, low) && forall i :: 0 <= i < |kept| ==> low <= kept[i] <= high
    ensures CountIn(all, low, high) == |kept|
  {
    var cut := |all| - |kept|;
    assert all == all[..cut] + kept;
    CountSplit(all[..cut], kept, low, high);
    CountNone(all[..cut], low, high);
    CountAll(kept, low, high);
  }

  lemma EndGrows(tail: seq<real>, all: seq<real>, cutoff: real, later: real, t: real)
    requires RecentEnd(tail, all, cutoff) && cutoff <= later
    ensures RecentEnd(tail, all, later) && RecentEnd(tail + [t], all + [t], later)
  {
  }

  ghost predicate AllAtMost(hits: seq<real>, now: real) {
    forall i :: 0 <= i < |hits| ==> hits[i] <= now
  }

  /** The deque is the end of an orderly history that a call at `now` still looks at, and maybe
      more of it. */
  ghost predicate Represents(c: Config, deque: seq<real>, granted: seq<real>, now: real) {
    RecentEnd(deque, granted, now - c.window) && Nondecreasing(granted) && AllAtMost(granted, now)
  }

  lemma EndInherits(tail: seq<real>, all: seq<real>, cutoff: real, now: real)
    requires RecentEnd(tail, all, cutoff) && Nondecreasing(all) && AllAtMost(all, now)
    ensures Nondecreasing(tail) && AllAtMost(tail, now)
  {
    assert forall i :: 0 <= i < |tail| ==> tail[i] == all[|all| - |tail| + i];
  }

  /** Pruning the recent end of a history leaves as many entries as its trailing window holds. */
  lemma PrunedCount(deque: seq<real>, granted: seq<real>, cutoff: real, now: real)
    requires RecentEnd(deque, granted, cutoff) && Nondecreasing(granted) && AllAtMost(granted, now)
    ensures RecentEnd(Pruned(deque, cutoff), granted, cutoff)
    ensures |Pruned(deque, cutoff)| == CountIn(granted, cutoff, now)
  {
    EndInherits(deque, granted, cutoff, now);
    PrunedIsEnd(deque, cutoff);
    EndInherits(Pruned(deque, cutoff), deque, cutoff, now);
    RecentEndTrans(Pruned(deque, cutoff), deque, granted, cutoff, cutoff);
    RecentEndCount(Pruned(deque, cutoff), granted, cutoff, now);
  }

  /** Deciding by the pruned deque is deciding by the whole history. */
  lemma Decides(c: Config, deque: seq<real>, granted: seq<real>, now: real)
    requires Represents(c, deque, granted, now)
    ensures |Pruned(deque, now - c.window)| < c.maxRequests <==> Allows(c, granted, now)
  {
    PrunedCount(deque, granted, now - c.window, now);
  }

  lemma OrderlyGrows(granted: seq<real>, now: real, later: real)
    requires Nondecreasing(granted) && AllAtMost(granted, now) && now <= later
    ensures Nondecreasing(granted + [now]) && AllAtMost(granted + [now], later)
  {
  }

  /** Deque and history grow together or not at all. */
  lemma StepsMatch(c: Config, deque: seq<real>, granted: seq<real>, key: Text, now: real)
    requires Represents(c, deque, granted, now)
    ensures var kept := Pruned(deque, now - c.window);
            var hit := if Allows(c, granted, now) then [now] else [];
            && DequeStep(c, deque, Try(key, now), key) == kept + hit
            && GrantedStep(c, granted, Try(key, now), key) == granted + hit
  {
    Decides(c, deque, granted, now);
  }

  lemma StillRepresents(c: Config, kept: seq<real>, granted: seq<real>, now: real, later: real)
    requires RecentEnd(kept, granted, now - c.window) && Nondecreasing(granted) && AllAtMost(granted, now)
    requires now <= later
    ensures Represents(c, kept, granted, later) && Represents(c, kept + [now], granted + [now], later)
  {
    EndGrows(kept, granted, now - c.window, later - c.window, now);
    OrderlyGrows(granted, now, later);
  }

  /** One operation keeps deque and history in step. */
  lemma RepresentsStep(c: Config, deque: seq<real>, granted: seq<real>, key: Text, now: real, later: real)
    requires Represents(c, deque, granted, now) && now <= later
    ensures Represents(c, DequeStep(c, deque, Try(key, now), key), GrantedStep(c, granted, Try(key, now), key), later)
  {
    StepsMatch(c, deque, granted, key, now);
    PrunedCount(deque, granted, now - c.window, now);
    StillRepresents(c, Pruned(deque, now - c.window), granted, now, later);
  }

  lemma {:induction false} DequeRepresents(c: Config, ops: seq<Op>, key: Text, now: real)
    requires Ordered(ops, key) && NotAfter(Latest(ops, key), now)
    ensures Represents(c, Deque(c, ops, key), Granted(c, ops, key), now)
  {
    if ops != [] {
      var front, last := ops[..|ops| - 1], ops[|ops| - 1];
      if last.Try? && last.key == key {
        DequeRepresents(c, front, key, last.now);
        RepresentsStep(c, Deque(c, front, key), Granted(c, front, key), key, last.now, now);
      } else if last.Try? {
        DequeRepresents(c, front, key, now);
      }
    }
  }

  lemma LastOp(c: Config, ops: seq<Op>, last: Op, key: Text)
    ensures Deque(c, ops + [last], key) == DequeStep(c, Deque(c, ops, key), last, key)
    ensures Granted(c, ops + [last], key) == GrantedStep(c, Granted(c, ops, key), last, key)
    ensures Ordered(ops + [last], key)
            <==> Ordered(ops, key) && (last.Try? && last.key == key ==> NotAfter(Latest(ops, key), last.now))
  {
    assert (ops + [last])[..|ops|] == ops;
  }

  /** With clock readings in order, the limiter allows a call exactly when fewer than the maximum
      of all the hits it ever allowed for that key lie in the closed trailing window. */
  lemma RefinesFullHistory(c: Config, ops: seq<Op>, key: Text, now: real)
    requires Ordered(ops, key) && NotAfter(Latest(ops, key), now)
    ensures |Pruned(Deque(c, ops, key), now - c.window)| < c.maxRequests <==> Allows(c, Granted(c, ops, key), now)
  {
    DequeRepresents(c, ops, key, now);
    Decides(c, Deque(c, ops, key), Granted(c, ops, key), now);
  }

  // ----- clock readings in any order -----

  /** The operations with each reading of this key moved up to the latest one before it. */
  function Caught(ops: seq<Op>, key: Text): seq<Op> {
    if ops == [] then []
    else
      var front, last := ops[..|ops| - 1], ops[|ops| - 1];
      var op := if last.Try? && last.key == key then Try(key, CaughtUp(Latest(front, key), last.now)) else last;
      Caught(front, key) + [op]
  }

  lemma {:induction false} CaughtOrdered(ops: seq<Op>, key: Text)
    ensures Ordered(Caught(ops, key), key) && Latest(Caught(ops, key), key) == Latest(ops, key)
    ensures Ordered(ops, key) ==> Caught(ops, key) == ops
  {
    if ops != [] {
      var front := ops[..|ops| - 1];
      CaughtOrdered(front, key);
      assert Caught(ops, key)[..|Caught(ops, key)| - 1] == Caught(front, key);
      assert ops == front + [ops[|ops| - 1]];
    }
  }

  /** Some entry up to position `i` is `t`. */
  ghost predicate Seen(hits: seq<real>, i: int, t: real) {
    exists j :: 0 <= j <= i < |hits| && hits[j] == t
  }

  /** Each caught-up entry is the greatest raw one so far. */
  ghost predicate Paired(raw: seq<real>, caught: seq<real>) {
    && |raw| == |caught| && Nondecreasing(caught)
    && forall i :: 0 <= i < |raw| ==> raw[i] <= caught[i] && Seen(raw, i, caught[i])
  }

  /** A deque of raw readings and the deque of the same readings caught up. */
  ghost predicate KeepsPace(c: Config, raw: seq<real>, caught: seq<real>, latest: Option<real>) {
    && Paired(raw, caught)
    && (latest.None? ==> raw == [])
    && (latest.Some? ==>
          && AllAtMost(caught, latest.value)
          && (raw != [] ==> raw[0] >= latest.value - c.window)
          && (|raw| < c.maxRequests ==> Seen(raw, |raw| - 1, latest.value)))
  }

  /** The same for the entries a cutoff lets through. */
  ghost predicate PairedAbove(raw: seq<real>, caught: seq<real>, cutoff: real)
    requires |raw| == |caught|
  {
    forall i :: 0 <= i < |raw| ==> raw[i] <= caught[i] && (caught[i] < cutoff || Seen(raw, i, caught[i]))
  }

  lemma PairedAboveRest(raw: seq<real>, caught: seq<real>, cutoff: real)
    requires |raw| == |caught| && PairedAbove(raw, caught, cutoff) && raw != [] && raw[0] < cutoff
    ensures caught[0] < cutoff && PairedAbove(raw[1..], caught[1..], cutoff)
  {
    assert caught[0] < cutoff || Seen(raw, 0, caught[0]);
    forall i | 0 <= i < |raw| - 1
      ensures raw[1..][i] <= caught[1..][i] && (caught[1..][i] < cutoff || Seen(raw[1..], i, caught[1..][i]))
    {
      if caught[i + 1] >= cutoff {
        assert Seen(raw, i + 1, caught[i + 1]);
        var j :| 0 <= j <= i + 1 && raw[j] == caught[i + 1];
        assert raw[1..][j - 1] == caught[1..][i];
      }
    }
  }

  /** Both deques lose the same entries to the same cutoff. */
  lemma {:induction false} PrunedAlike(raw: seq<real>, caught: seq<real>, cutoff: real) returns (n: nat)
    requires |raw| == |caught| && PairedAbove(raw, caught, cutoff)
    ensures n <= |raw| && Pruned(raw, cutoff) == raw[n..] && Pruned(caught, cutoff) == caught[n..]
    ensures forall i :: 0 <= i < n ==> raw[i] < cutoff
    ensures n < |raw| ==> raw[n] >= cutoff
    decreases |raw|
  {
    n := 0;
    if raw != [] && raw[0] < cutoff {
      PairedAboveRest(raw, caught, cutoff);
      var m := PrunedAlike(raw[1..], caught[1..], cutoff);
      n := m + 1;
      RestDropped(raw, m, cutoff);
      assert caught[1..][m..] == caught[n..];
    }
  }

  lemma RestDropped(hits: seq<real>, m: nat, cutoff: real)
    requires m < |hits| && hits[0] < cutoff && forall i :: 0 <= i < m ==> hits[1..][i] < cutoff
    ensures hits[1..][m..] == hits[m + 1..]
    ensures forall i :: 0 <= i < m + 1 ==> hits[i] < cutoff
  {
    assert forall i :: 0 < i < m + 1 ==> hits[i] == hits[1..][i - 1];
  }

  lemma PairedEnd(raw: seq<real>, caught: seq<real>, cutoff: real, n: nat)
    requires Paired(raw, caught) && n <= |raw|
    requires forall i :: 0 <= i < n ==> raw[i] < cutoff
    requires n < |raw| ==> raw[n] >= cutoff
    ensures Paired(raw[n..], caught[n..])
  {
    var kept, moved := raw[n..], caught[n..];
    forall i | 0 <= i < |kept|
      ensures kept[i] <= moved[i] && Seen(kept, i, moved[i])
    {
      assert caught[n + i] >= caught[n] >= raw[n];
      assert Seen(raw, n + i, caught[n + i]);
      var j :| 0 <= j <= n + i && raw[j] == caught[n + i];
      assert kept[j - n] == moved[i];
    }
    assert forall i :: 0 <= i < |moved| ==> moved[i] == caught[n + i];
  }

  lemma PairedAfterPruning(raw: seq<real>, caught: seq<real>, cutoff: real, latest: real)
    requires Paired(raw, caught) && AllAtMost(caught, latest)
    ensures Paired(Pruned(raw, cutoff), Pruned(caught, cutoff)) && AllAtMost(Pruned(caught, cutoff), latest)
    ensures Pruned(raw, cutoff) != [] ==> Pruned(raw, cutoff)[0] >= cutoff
  {
    var n := PrunedAlike(raw, caught, cutoff);
    PairedEnd(raw, caught, cutoff, n);
  }

  lemma PairedGrows(raw: seq<real>, caught: seq<real>, now: real, latest: real)
    requires Paired(raw, caught) && now <= latest && AllAtMost(caught, latest)
    requires now == latest || Seen(raw, |raw| - 1, latest)
    ensures Paired(raw + [now], caught + [latest]) && AllAtMost(caught + [latest], latest)
    ensures Seen(raw + [now], |raw|, latest)
  {
    var a, b := raw + [now], caught + [latest];
    OrderlyGrows(caught, latest, latest);
    assert Seen(a, |raw|, latest) by {
      if now == latest {
        assert a[|raw|] == latest;
      } else {
        SeenLonger(raw, now, |raw| - 1, latest);
      }
    }
    forall i | 0 <= i < |a|
      ensures a[i] <= b[i] && Seen(a, i, b[i])
    {
      if i < |raw| {
        assert b[i] == caught[i];
        SeenLonger(raw, now, i, caught[i]);
      }
    }
  }

  lemma SeenLonger(hits: seq<real>, t: real, i: int, seen: real)
    requires Seen(hits, i, seen)
    ensures Seen(hits + [t], i, seen) && Seen(hits + [t], |hits|, seen)
  {
    var j :| 0 <= j <= i < |hits| && hits[j] == seen;
    assert (hits + [t])[j] == seen;
  }

  /** A call no earlier than all before it prunes both deques alike and records the same reading. */
  lemma NewReading(c: Config, raw: seq<real>, caught: seq<real>, now: real)
    requires c.window >= 0.0 && Paired(raw, caught) && AllAtMost(caught, now)
    ensures |Pruned(raw, now - c.window)| == |Pruned(caught, now - c.window)|
    ensures var kept, moved := Pruned(raw, now - c.window), Pruned(caught, now - c.window);
            if |kept| < c.maxRequests then KeepsPace(c, kept + [now], moved + [now], Some(now))
            else KeepsPace(c, kept, moved, Some(now))
  {
    var kept, moved := Pruned(raw, now - c.window), Pruned(caught, now - c.window);
    PairedAfterPruning(raw, caught, now - c.window, now);
    PairedGrows(kept, moved, now, now);
  }

  /** A late call prunes neither deque. */
  lemma LatePrunesNothing(c: Config, raw: seq<real>, caught: seq<real>, latest: real, now: real)
    requires KeepsPace(c, raw, caught, Some(latest)) && now <= latest
    ensures Pruned(raw, now - c.window) == raw && Pruned(caught, latest - c.window) == caught
  {
    assert raw != [] ==> Seen(raw, 0, caught[0]);
  }

  /** And records the latest reading in one where the other gets its own. */
  lemma LateReadingPace(c: Config, raw: seq<real>, caught: seq<real>, latest: real, now: real)
    requires KeepsPace(c, raw, caught, Some(latest)) && now <= latest && |raw| < c.maxRequests
    ensures KeepsPace(c, raw + [now], caught + [latest], Some(latest))
  {
    PairedGrows(raw, caught, now, latest);
  }

  lemma {:induction false} DequeBounded(c: Config, ops: seq<Op>, key: Text)
    ensures |Deque(c, ops, key)| <= c.maxRequests || Deque(c, ops, key) == []
  {
    if ops != [] {
      var front, last := ops[..|ops| - 1], ops[|ops| - 1];
      DequeBounded(c, front, key);
      if last.Try? {
        PrunedShorter(Deque(c, front, key), last.now - c.window);
      }
    }
  }

  lemma {:induction false} PrunedShorter(hits: seq<real>, cutoff: real)
    ensures |Pruned(hits, cutoff)| <= |hits|
    ensures |Pruned(hits, cutoff)| == |hits| ==> Pruned(hits, cutoff) == hits
  {
    if hits != [] && hits[0] < cutoff {
      PrunedShorter(hits[1..], cutoff);
    }
  }

  /** A call finds as much room in one deque as in the other. */
  lemma SameRoom(c: Config, raw: seq<real>, caught: seq<real>, latest: Option<real>, now: real)
    requires c.window >= 0.0 && KeepsPace(c, raw, caught, latest)
    ensures |Pruned(raw, now - c.window)| == |Pruned(caught, CaughtUp(latest, now) - c.window)|
  {
    if NotAfter(latest, now) {
      NewReading(c, raw, caught, now);
    } else {
      LatePrunesNothing(c, raw, caught, latest.value, now);
    }
  }

  lemma PaceStep(c: Config, raw: seq<real>, caught: seq<real>, latest: Option<real>, now: real)
    requires c.window >= 0.0 && KeepsPace(c, raw, caught, latest)
    ensures var up := CaughtUp(latest, now);
            KeepsPace(c, Recorded(c, raw, now), Recorded(c, caught, up), Some(up))
  {
    if NotAfter(latest, now) {
      NewStep(c, raw, caught, now);
    } else {
      LateStep(c, raw, caught, latest.value, now);
    }
  }

  lemma NewStep(c: Config, raw: seq<real>, caught: seq<real>, now: real)
    requires c.window >= 0.0 && Paired(raw, caught) && AllAtMost(caught, now)
    ensures KeepsPace(c, Recorded(c, raw, now), Recorded(c, caught, now), Some(now))
  {
    NewReading(c, raw, caught, now);
  }

  lemma LateStep(c: Config, raw: seq<real>, caught: seq<real>, latest: real, now: real)
    requires KeepsPace(c, raw, caught, Some(latest)) && now <= latest
    ensures KeepsPace(c, Recorded(c, raw, now), Recorded(c, caught, latest), Some(latest))
  {
    LatePrunesNothing(c, raw, caught, latest, now);
    if |raw| < c.maxRequests {
      LateReadingPace(c, raw, caught, latest, now);
    }
  }

  lemma {:induction false} PaceKept(c: Config, ops: seq<Op>, key: Text)
    requires c.window >= 0.0
    ensures KeepsPace(c, Deque(c, ops, key), Deque(c, Caught(ops, key), key), Latest(ops, key))
  {
    if ops != [] {
      var front, last := ops[..|ops| - 1], ops[|ops| - 1];
      PaceKept(c, front, key);
      assert Caught(ops, key)[..|Caught(ops, key)| - 1] == Caught(front, key);
      if last.Try? && last.key == key {
        PaceStep(c, Deque(c, front, key), Deque(c, Caught(front, key), key), Latest(front, key), last.now);
      }
    }
  }

  lemma SameAnswer(c: Config, raw: seq<real>, caught: seq<real>, granted: seq<real>, latest: Option<real>, now: real)
    requires c.window >= 0.0 && KeepsPace(c, raw, caught, latest)
    requires Represents(c, caught, granted, CaughtUp(latest, now))
    ensures |Pruned(raw, now - c.window)| < c.maxRequests <==> Allows(c, granted, CaughtUp(latest, now))
  {
    SameRoom(c, raw, caught, latest, now);
    Decides(c, caught, granted, CaughtUp(latest, now));
  }

  /** Whatever the order of the readings, the limiter decides every call as if each reading had
      been the latest so far. */
  lemma DecidesCaughtUp(c: Config, ops: seq<Op>, key: Text, now: real)
    requires c.window >= 0.0
    ensures |Pruned(Deque(c, ops, key), now - c.window)| < c.maxRequests
            <==> Allows(c, Granted(c, Caught(ops, key), key), CaughtUp(Latest(ops, key), now))
  {
    var caught := Caught(ops, key);
    PaceKept(c, ops, key);
    CaughtOrdered(ops, key);
    DequeRepresents(c, caught, key, CaughtUp(Latest(ops, key), now));
    SameAnswer(c, Deque(c, ops, key), Deque(c, caught, key), Granted(c, caught, key), Latest(ops, key), now);
  }

  /** A reading that comes late to calls in order is judged by the latest window, not by its own. */
  lemma LateReading(c: Config, ops: seq<Op>, key: Text, now: real)
    requires c.window >= 0.0 && Ordered(ops, key)
    requires Latest(ops, key).Some? && now <= Latest(ops, key).value
    ensures Refuses(c, ops, key, now) <==> !Allows(c, Granted(c, ops, key), Latest(ops, key).value)
  {
    DecidesCaughtUp(c, ops, key, now);
    CaughtOrdered(ops, key);
  }

  // ----- what the specification guarantees -----

  lemma {:induction false} CountNarrower(hits: seq<real>, low: real, high: real, low': real, high': real)
    requires forall i :: 0 <= i < |hits| && low <= hits[i] <= high ==> low' <= hits[i] <= high'
    ensures CountIn(hits, low, high) <= CountIn(hits, low', high')
  {
    if hits != [] {
      CountNarrower(hits[..|hits| - 1], low, high, low', high');
    }
  }

  /** An allowed hit cannot overfill an interval: those before it there lie in its window. */
  lemma GrantFits(c: Config, granted: seq<real>, now: real, from: real)
    requires AllAtMost(granted, now) && Allows(c, granted, now)
    requires CountIn(granted, from, from + c.window) <= c.maxRequests
    ensures CountIn(granted + [now], from, from + c.window) <= c.maxRequests
  {
    assert (granted + [now])[..|granted|] == granted;
    if from <= now <= from + c.window {
      CountNarrower(granted, from, from + c.window, now - c.window, now);
    }
  }

  /** No closed interval as long as the window holds more allowed hits of a key than the maximum. */
  lemma {:induction false} WindowBound(c: Config, ops: seq<Op>, key: Text, from: real)
    requires c.maxRequests >= 0 && Ordered(ops, key)
    ensures CountIn(Granted(c, ops, key), from, from + c.window) <= c.maxRequests
  {
    if ops != [] {
      var front, last := ops[..|ops| - 1], ops[|ops| - 1];
      WindowBound(c, front, key, from);
      if last.Try? && last.key == key && Allows(c, Granted(c, front, key), last.now) {
        DequeRepresents(c, front, key, last.now);
        GrantFits(c, Granted(c, front, key), last.now, from);
      }
    }
  }

  /** The operations that concern one key. */
  function Concerning(ops: seq<Op>, key: Text): seq<Op> {
    if ops == [] then []
    else
      var last, before := ops[|ops| - 1], Concerning(ops[..|ops| - 1], key);
      if last.Clear? || last.key == key then before + [last] else before
  }

  /** Calls for other keys make no difference to a key. */
  lemma {:induction false} KeysIndependent(c: Config, ops: seq<Op>, key: Text)
    ensures Deque(c, ops, key) == Deque(c, Concerning(ops, key), key)
    ensures Granted(c, ops, key) == Granted(c, Concerning(ops, key), key)
  {
    if ops != [] {
      var front, last := ops[..|ops| - 1], ops[|ops| - 1];
      KeysIndependent(c, front, key);
      if last.Clear? || last.key == key {
        LastOp(c, Concerning(front, key), last, key);
      }
    }
  }

  /** A refused call leaves no trace in any deque, whatever the order of the readings: later calls
      are decided as if it had never been made. (The comment at app/core/rate_limit.py:45-48 says
      every call counts.) */
  lemma {:induction false} RefusedCallsDoNotCount(c: Config, ops: seq<Op>, key: Text, now: real, later: seq<Op>, k: Text)
    requires |Pruned(Deque(c, ops, key), now - c.window)| >= c.maxRequests
    ensures Deque(c, ops + [Try(key, now)] + later, k) == Deque(c, ops + later, k)
    decreases |later|
  {
    var with := ops + [Try(key, now)];
    if later == [] {
      LastOp(c, ops, Try(key, now), k);
      DequeBounded(c, ops, key);
      PrunedShorter(Deque(c, ops, key), now - c.window);
      assert with + later == with && ops + later == ops;
    } else {
      var front, last := later[..|later| - 1], later[|later| - 1];
      RefusedCallsDoNotCount(c, ops, key, now, front, k);
      LastOp(c, with + front, last, k);
      LastOp(c, ops + front, last, k);
      assert with + later == with + front + [last] && ops + later == ops + front + [last];
    }
  }

  /** A call that the comment has refused and the code allows: of the two calls before it in its
      window one was refused. */
  lemma RefusedCallShown(key: Text)
    ensures var c := Config(1, 1.0);
            && Refuses(c, [Try(key, 0.0)], key, 0.75)
            && !Refuses(c, [Try(key, 0.0), Try(key, 0.75)], key, 1.25)
            && CountIn([0.0, 0.75], 1.25 - c.window, 1.25) >= c.maxRequests
  {
    var c := Config(1, 1.0);
    LastOp(c, [], Try(key, 0.0), key);
    LastOp(c, [Try(key, 0.0)], Try(key, 0.75), key);
    assert [] + [Try(key, 0.0)] == [Try(key, 0.0)];
    assert [Try(key, 0.0)] + [Try(key, 0.75)] == [Try(key, 0.0), Try(key, 0.75)];
    assert Pruned([], -1.0) == [] && Pruned([0.0], -0.25) == [0.0] && Pruned([0.0], 0.25) == [];
    assert [0.0, 0.75][..1] == [0.0];
  }

  function HitsOf(hits: map<Text, seq<real>>, key: Text): seq<real> {
    if key in hits then hits[key] else []
  }

  /** Each deque is what the operations so far leave in it. */
  ghost predicate Reflects(c: Config, hits: map<Text, seq<real>>, ops: seq<Op>) {
    forall key :: HitsOf(hits, key) == Deque(c, ops, key)
  }

  lemma TryReflected(c: Config, hits: map<Text, seq<real>>, ops: seq<Op>, key: Text, now: real)
    requires Reflects(c, hits, ops)
    ensures Deque(c, ops + [Try(key, now)], key) == Recorded(c, HitsOf(hits, key), now)
    ensures Reflects(c, hits[key := Recorded(c, HitsOf(hits, key), now)], ops + [Try(key, now)])
  {
    forall k
      ensures Deque(c, ops + [Try(key, now)], k) == DequeStep(c, HitsOf(hits, k), Try(key, now), k)
    {
      LastOp(c, ops, Try(key, now), k);
      assert HitsOf(hits, k) == Deque(c, ops, k);
    }
  }

  lemma TryAllowed(c: Config, hits: map<Text, seq<real>>, ops: seq<Op>, key: Text, now: real)
    requires Reflects(c, hits, ops)
    ensures Allowed(c, ops + [Try(key, now)], key) ==
              Allowed(c, ops, key)
              + (if |Pruned(HitsOf(hits, key), now - c.window)| < c.maxRequests then [now] else [])
  {
    assert HitsOf(hits, key) == Deque(c, ops, key);
    AllowedAfter(c, ops, Try(key, now), key);
  }

  lemma AllowedAfter(c: Config, ops: seq<Op>, last: Op, key: Text)
    ensures Allowed(c, ops + [last], key) ==
              if last.Clear? then []
              else if last.key == key && !Refuses(c, ops, key, last.now) then Allowed(c, ops, key) + [last.now]
              else Allowed(c, ops, key)
  {
    assert (ops + [last])[..|ops|] == ops;
  }

  /** What a call has to answer, and what it adds to the history. */
  lemma TryAnswered(c: Config, hits: map<Text, seq<real>>, ops: seq<Op>, key: Text, now: real)
    requires Reflects(c, hits, ops)
    ensures var allowed := |Pruned(HitsOf(hits, key), now - c.window)| < c.maxRequests;
            && (c.window >= 0.0 ==>
                  (allowed <==> Allows(c, Granted(c, Caught(ops, key), key), CaughtUp(Latest(ops, key), now))))
            && (Ordered(ops + [Try(key, now)], key) ==>
                  && (allowed <==> Allows(c, Granted(c, ops, key), now))
                  && Granted(c, ops + [Try(key, now)], key) == Granted(c, ops, key) + (if allowed then [now] else []))
  {
    assert HitsOf(hits, key) == Deque(c, ops, key);
    LastOp(c, ops, Try(key, now), key);
    if c.window >= 0.0 {
      DecidesCaughtUp(c, ops, key, now);
    }
    if Ordered(ops + [Try(key, now)], key) {
      RefinesFullHistory(c, ops, key, now);
    }
  }

  /** The ordering of the clock readings is needed: a reading taken before another thread's but
      admitted after it is allowed although its window is full. */
  lemma LateReadingOverfills(key: Text)
    ensures var c := Config(2, 10.0);
            var ops := [Try(key, 0.0), Try(key, 1.0), Try(key, 12.0)];
            && |Pruned(Deque(c, ops, key), 5.0 - c.window)| < c.maxRequests
            && !Allows(c, Granted(c, ops, key), 5.0)
  {
    var c := Config(2, 10.0);
    LastOp(c, [], Try(key, 0.0), key);
    LastOp(c, [Try(key, 0.0)], Try(key, 1.0), key);
    LastOp(c, [Try(key, 0.0), Try(key, 1.0)], Try(key, 12.0), key);
    assert [] + [Try(key, 0.0)] == [Try(key, 0.0)];
    assert [Try(key, 0.0)] + [Try(key, 1.0)] == [Try(key, 0.0), Try(key, 1.0)];
    assert [Try(key, 0.0), Try(key, 1.0)] + [Try(key, 12.0)] == [Try(key, 0.0), Try(key, 1.0), Try(key, 12.0)];
    TwoHits();
    assert Granted(c, [Try(key, 0.0)], key) == [0.0];
    assert Granted(c, [Try(key, 0.0), Try(key, 1.0)], key) == [0.0] + [1.0] == [0.0, 1.0];
    assert Granted(c, [Try(key, 0.0), Try(key, 1.0), Try(key, 12.0)], key) == [0.0, 1.0] + [12.0] == [0.0, 1.0, 12.0];
  }

  /** Two early hits fill a window that ends before a late one, which no deque remembers them by. */
  lemma TwoHits()
    ensures CountIn([0.0], -9.0, 1.0) == 1
    ensures CountIn([0.0, 1.0], 2.0, 12.0) == 0
    ensures CountIn([0.0, 1.0, 12.0], -5.0, 5.0) == 2
    ensures Pruned([0.0], -9.0) == [0.0]
    ensures Pruned([0.0, 1.0], 2.0) == []
    ensures Pruned([12.0], -5.0) == [12.0]
  {
    assert [0.0, 1.0][..1] == [0.0] && [0.0, 1.0, 12.0][..2] == [0.0, 1.0];
    assert [0.0, 1.0][1..] == [1.0];
  }

  // ----- the limiter -----

  /** The pruning loop of `check`: it drops old entries from the head until it meets one that is
      not old. */
  method DropOld(hits: seq<real>, cutoff: real) returns (kept: seq<real>)
    ensures RecentEnd(kept, hits, cutoff)
    ensures kept != [] ==> kept[0] >= cutoff
    ensures kept == Pruned(hits, cutoff)
  {
    kept := hits;
    while kept != [] && kept[0] < cutoff
      invariant RecentEnd(kept, hits, cutoff)
      invariant Pruned(kept, cutoff) == Pruned(hits, cutoff)
      decreases |kept|
    {
      kept := kept[1..];
    }
  }

  class InMemoryRateLimiter {
    const config: Config
    var hits: map<Text, seq<real>>
    ghost var ops: seq<Op>

    ghost predicate Valid()
      reads this
    {
      Reflects(config, hits, ops)
    }

    constructor (maxRequests: int, windowSeconds: int)
      ensures Valid() && ops == [] && config == Config(maxRequests, windowSeconds as real)
    {
      config := Config(maxRequests, windowSeconds as real);
      hits := map[];
      ops := [];
    }

    /** `check`, with the clock reading it starts from. */
    method Check(key: Text, now: real) returns (allowed: bool)
      requires Valid()
      modifies this
      ensures Valid() && ops == old(ops) + [Try(key, now)]
      ensures config.window >= 0.0 ==>
                (allowed <==> Allows(config, Granted(config, Caught(old(ops), key), key),
                                     CaughtUp(Latest(old(ops), key), now)))
      ensures Ordered(ops, key) ==> (allowed <==> Allows(config, Granted(config, old(ops), key), now))
      ensures Ordered(ops, key) ==>
                Granted(config, ops, key) == Granted(config, old(ops), key) + (if allowed then [now] else [])
      ensures Allowed(config, ops, key) == Allowed(config, old(ops), key) + (if allowed then [now] else [])
      ensures hits == old(hits)[key := Deque(config, ops, key)]
    {
      var deque := DropOld(HitsOf(hits, key), now - config.window);
      allowed := |deque| < config.maxRequests;
      if allowed {
        deque := deque + [now];
      }
      assert deque == Recorded(config, HitsOf(hits, key), now);
      TryReflected(config, hits, ops, key, now);
      TryAnswered(config, hits, ops, key, now);
      TryAllowed(config, hits, ops, key, now);
      hits, ops := hits[key := deque], ops + [Try(key, now)];
    }

    /** `reset`. */
    method Reset()
      modifies this
      ensures Valid() && ops == old(ops) + [Clear]
      ensures forall key :: Granted(config, ops, key) == [] && Deque(config, ops, key) == []
    {
      hits := map[];
      ops := ops + [Clear];
    }
  }
}
