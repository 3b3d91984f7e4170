/** How many hits the limiter really lets into an interval, for clock readings in any order. */
module LimiterBound {
  import opened Texts
  import opened Wrappers
  import opened RateLimiter

  /** Hits in the closed interval of the window's length that starts at `from`. */
  function In(c: Config, hits: seq<real>, from: real): nat {
    CountIn(hits, from, from + c.window)
  }

  /** The promise of the class: no such interval holds more hits than the maximum. */
  ghost predicate Bounded(c: Config, hits: seq<real>) {
    forall from :: In(c, hits, from) <= c.maxRequests
  }

  /** Every such interval around `now` can take one more hit, also those that end after it. */
  ghost predicate Room(c: Config, hits: seq<real>, now: real) {
    forall from :: from <= now <= from + c.window ==> In(c, hits, from) < c.maxRequests
  }

  // ----- exactly when the promise is kept -----

  lemma OneMoreHit(c: Config, hits: seq<real>, now: real, from: real)
    ensures In(c, hits + [now], from) == In(c, hits, from) + if from <= now <= from + c.window then 1 else 0
  {
    assert (hits + [now])[..|hits|] == hits;
  }

  lemma RoomForHit(c: Config, hits: seq<real>, now: real)
    ensures Bounded(c, hits + [now]) <==> Bounded(c, hits) && Room(c, hits, now)
  {
    forall from
      ensures In(c, hits + [now], from) == In(c, hits, from) + if from <= now <= from + c.window then 1 else 0
    {
      OneMoreHit(c, hits, now, from);
    }
  }

  /** A call keeps the promise if and only if it is refused or there was room for it. */
  lemma BoundAfterTry(c: Config, ops: seq<Op>, key: Text, now: real)
    ensures Bounded(c, Allowed(c, ops + [Try(key, now)], key))
            <==> Bounded(c, Allowed(c, ops, key)) && (Refuses(c, ops, key, now) || Room(c, Allowed(c, ops, key), now))
  {
    AllowedAfter(c, ops, Try(key, now), key);
    RoomForHit(c, Allowed(c, ops, key), now);
  }

  /** Since the last reset there was room for every call of this key that was let through. */
  ghost predicate RoomForAll(c: Config, ops: seq<Op>, key: Text) {
    ops == [] ||
    (var front, last := ops[..|ops| - 1], ops[|ops| - 1];
     || last.Clear?
     || (&& RoomForAll(c, front, key)
         && (last.key == key ==> Refuses(c, front, key, last.now) || Room(c, Allowed(c, front, key), last.now))))
  }

  /** For any operations in any order: the promise is kept if and only if there was room for every
      hit that was let through. */
  lemma {:induction false} BoundExactly(c: Config, ops: seq<Op>, key: Text)
    requires c.maxRequests >= 0
    ensures Bounded(c, Allowed(c, ops, key)) <==> RoomForAll(c, ops, key)
  {
    if ops != [] {
      var front, last := ops[..|ops| - 1], ops[|ops| - 1];
      assert ops == front + [last];
      AllowedAfter(c, front, last, key);
      if last.Try? {
        BoundExactly(c, front, key);
        if last.key == key {
          BoundAfterTry(c, front, key, last.now);
        }
      }
    }
  }

  // ----- room, by looking at finitely many intervals -----

  /** The intervals that start at `now`, or at a hit at most a window before it. */
  ghost predicate RoomAtHits(c: Config, hits: seq<real>, now: real) {
    && In(c, hits, now) < c.maxRequests
    && forall i :: 0 <= i < |hits| && hits[i] <= now <= hits[i] + c.window ==> In(c, hits, hits[i]) < c.maxRequests
  }

  /** The first hit from `from` on, or `now` if none comes before it. */
  lemma {:induction false} FirstFrom(hits: seq<real>, from: real, now: real) returns (first: real)
    requires from <= now
    ensures from <= first <= now
    ensures first == now || exists i :: 0 <= i < |hits| && hits[i] == first
    ensures forall i :: 0 <= i < |hits| && hits[i] >= from ==> hits[i] >= first
  {
    first := now;
    if hits != [] {
      var n := |hits| - 1;
      first := FirstFrom(hits[..n], from, now);
      if from <= hits[n] < first {
        first := hits[n];
      }
      assert forall i :: 0 <= i < n ==> hits[..n][i] == hits[i];
    }
  }

  /** Checking those intervals is enough. */
  lemma RoomIsCheckable(c: Config, hits: seq<real>, now: real)
    requires c.window >= 0.0
    ensures Room(c, hits, now) <==> RoomAtHits(c, hits, now)
  {
    if RoomAtHits(c, hits, now) {
      forall from | from <= now <= from + c.window
        ensures In(c, hits, from) < c.maxRequests
      {
        var first := FirstFrom(hits, from, now);
        CountNarrower(hits, from, from + c.window, first, first + c.window);
        assert In(c, hits, first) < c.maxRequests;
      }
    }
  }

  // ----- calls in order, and one that is late -----

  /** In order, what is let through is what the naive specification grants. */
  lemma {:induction false} AllowedInOrder(c: Config, ops: seq<Op>, key: Text)
    requires Ordered(ops, key)
    ensures Allowed(c, ops, key) == Granted(c, ops, key)
  {
    if ops != [] {
      var front, last := ops[..|ops| - 1], ops[|ops| - 1];
      AllowedInOrder(c, front, key);
      if last.Try? && last.key == key {
        RefinesFullHistory(c, front, key, last.now);
      }
    }
  }

  lemma BoundInOrder(c: Config, ops: seq<Op>, key: Text)
    requires c.maxRequests >= 0 && Ordered(ops, key)
    ensures Bounded(c, Allowed(c, ops, key))
  {
    AllowedInOrder(c, ops, key);
    forall from
      ensures In(c, Granted(c, ops, key), from) <= c.maxRequests
    {
      WindowBound(c, ops, key, from);
    }
  }

  /** A late call after calls in order keeps the promise if and only if the latest window is full,
      so that it is refused, or every window around its own reading has room. */
  lemma LateBound(c: Config, ops: seq<Op>, key: Text, now: real)
    requires c.window >= 0.0 && c.maxRequests >= 0 && Ordered(ops, key)
    requires Latest(ops, key).Some? && now <= Latest(ops, key).value
    ensures Bounded(c, Allowed(c, ops + [Try(key, now)], key))
            <==> !Allows(c, Granted(c, ops, key), Latest(ops, key).value) || Room(c, Granted(c, ops, key), now)
  {
    AllowedInOrder(c, ops, key);
    BoundInOrder(c, ops, key);
    BoundAfterTry(c, ops, key, now);
    LateReading(c, ops, key, now);
  }

  // ----- readings that lag by a known time -----

  /** Since the last reset no reading of this key was more than `lag` behind the latest before it. */
  predicate Lagging(ops: seq<Op>, key: Text, lag: real) {
    ops == [] ||
    (var front, last := ops[..|ops| - 1], ops[|ops| - 1];
     || last.Clear?
     || (Lagging(front, key, lag) && (last.key == key ==> CaughtUp(Latest(front, key), last.now) <= last.now + lag)))
  }

  /** The same hits under their own readings and under the readings caught up. */
  ghost predicate Lags(own: seq<real>, caught: seq<real>, lag: real) {
    |own| == |caught| && forall i :: 0 <= i < |own| ==> own[i] <= caught[i] <= own[i] + lag
  }

  lemma {:induction false} AllowedLags(c: Config, ops: seq<Op>, key: Text, lag: real)
    requires c.window >= 0.0 && Lagging(ops, key, lag)
    ensures Lags(Allowed(c, ops, key), Granted(c, Caught(ops, key), key), lag)
  {
    if ops != [] {
      var front, last := ops[..|ops| - 1], ops[|ops| - 1];
      var caught := Caught(ops, key);
      assert caught[..|caught| - 1] == Caught(front, key);
      if last.Try? {
        AllowedLags(c, front, key, lag);
        if last.key == key {
          DecidesCaughtUp(c, front, key, last.now);
        }
      }
    }
  }

  lemma {:induction false} CountLags(own: seq<real>, caught: seq<real>, lag: real, low: real, high: real)
    requires Lags(own, caught, lag)
    ensures CountIn(own, low, high) <= CountIn(caught, low, high + lag)
  {
    if own != [] {
      var n := |own| - 1;
      CountLags(own[..n], caught[..n], lag, low, high);
    }
  }

  /** The bound a caller can plan with: if readings lag by at most `lag`, no closed interval that is
      shorter than the window by that much holds more hits than the maximum. */
  lemma LagBound(c: Config, ops: seq<Op>, key: Text, lag: real, from: real)
    requires c.window >= 0.0 && c.maxRequests >= 0 && Lagging(ops, key, lag)
    ensures CountIn(Allowed(c, ops, key), from, from + c.window - lag) <= c.maxRequests
  {
    AllowedLags(c, ops, key, lag);
    CountLags(Allowed(c, ops, key), Granted(c, Caught(ops, key), key), lag, from, from + c.window - lag);
    CaughtOrdered(ops, key);
    WindowBound(c, Caught(ops, key), key, from);
  }

  // ----- two late calls that break the promise -----

  function Tries(key: Text, readings: seq<real>): seq<Op> {
    if readings == [] then [] else Tries(key, readings[..|readings| - 1]) + [Try(key, readings[|readings| - 1])]
  }

  function LastOf(readings: seq<real>): Option<real> {
    if readings == [] then None else Some(readings[|readings| - 1])
  }

  /** One more call in order that is allowed. */
  lemma GrantedOneMore(c: Config, key: Text, readings: seq<real>, now: real)
    requires var ops := Tries(key, readings);
             Ordered(ops, key) && Granted(c, ops, key) == readings && Latest(ops, key) == LastOf(readings)
    requires NotAfter(LastOf(readings), now) && Allows(c, readings, now)
    ensures var ops := Tries(key, readings + [now]);
            Ordered(ops, key) && Granted(c, ops, key) == readings + [now] && Latest(ops, key) == Some(now)
  {
    var more := readings + [now];
    assert more[..|readings|] == readings;
    assert Tries(key, more) == Tries(key, readings) + [Try(key, now)];
    LastOp(c, Tries(key, readings), Try(key, now), key);
    assert Tries(key, more)[..|Tries(key, more)| - 1] == Tries(key, readings);
  }

  /** A late call whose own window is full: three hits in [0, 10] where two are the maximum. */
  lemma FullWindowOverfilled(key: Text)
    ensures var c := Config(2, 10.0);
            var ops := Tries(key, [0.0, 1.0, 12.0]);
            && Ordered(ops, key)
            && !Allows(c, Granted(c, ops, key), 5.0)
            && !Bounded(c, Allowed(c, ops + [Try(key, 5.0)], key))
  {
    var c := Config(2, 10.0);
    var readings := [0.0, 1.0, 12.0];
    assert [0.0, 1.0][..1] == [0.0] && readings[..2] == [0.0, 1.0];
    GrantedOneMore(c, key, [], 0.0);
    GrantedOneMore(c, key, [0.0], 1.0);
    assert CountIn([0.0, 1.0], 2.0, 12.0) == 0;
    GrantedOneMore(c, key, [0.0, 1.0], 12.0);
    assert readings == [0.0, 1.0] + [12.0];
    LateBound(c, Tries(key, readings), key, 5.0);
    assert CountIn(readings, 2.0, 12.0) == 1 && CountIn(readings, -5.0, 5.0) == 2;
    assert In(c, readings, 0.0) == 2;
  }

  /** A late call whose own window has room, as the latest has: four hits in [5, 15] where three are
      the maximum. */
  lemma LaterWindowOverfilled(key: Text)
    ensures var c := Config(3, 10.0);
            var ops := Tries(key, [5.0, 12.0, 14.0, 23.0]);
            && Ordered(ops, key)
            && Allows(c, Granted(c, ops, key), 13.0) && Allows(c, Granted(c, ops, key), 23.0)
            && !Bounded(c, Allowed(c, ops + [Try(key, 13.0)], key))
  {
    var c := Config(3, 10.0);
    var readings := [5.0, 12.0, 14.0, 23.0];
    FourGranted(c, key);
    LateBound(c, Tries(key, readings), key, 13.0);
    FourCounted();
    assert In(c, readings, 5.0) == 3;
  }

  lemma FourGranted(c: Config, key: Text)
    requires c == Config(3, 10.0)
    ensures var readings := [5.0, 12.0, 14.0, 23.0];
            var ops := Tries(key, readings);
            Ordered(ops, key) && Granted(c, ops, key) == readings && Latest(ops, key) == Some(23.0)
  {
    FourCounted();
    GrantedOneMore(c, key, [], 5.0);
    assert [] + [5.0] == [5.0];
    GrantedOneMore(c, key, [5.0], 12.0);
    assert [5.0] + [12.0] == [5.0, 12.0];
    GrantedOneMore(c, key, [5.0, 12.0], 14.0);
    assert [5.0, 12.0] + [14.0] == [5.0, 12.0, 14.0];
    GrantedOneMore(c, key, [5.0, 12.0, 14.0], 23.0);
    assert [5.0, 12.0, 14.0] + [23.0] == [5.0, 12.0, 14.0, 23.0];
  }

  lemma FourCounted()
    ensures CountIn([5.0], 2.0, 12.0) == 1
    ensures CountIn([5.0, 12.0], 4.0, 14.0) == 2
    ensures CountIn([5.0, 12.0, 14.0], 13.0, 23.0) == 1
    ensures CountIn([5.0, 12.0, 14.0, 23.0], 13.0, 23.0) == 2
    ensures CountIn([5.0, 12.0, 14.0, 23.0], 3.0, 13.0) == 2
    ensures CountIn([5.0, 12.0, 14.0, 23.0], 5.0, 15.0) == 3
  {
    var three := [5.0, 12.0, 14.0];
    assert [5.0, 12.0, 14.0, 23.0][..3] == three && three[..2] == [5.0, 12.0] && [5.0, 12.0][..1] == [5.0];
    assert CountIn(three, 3.0, 13.0) == 2 && CountIn(three, 5.0, 15.0) == 3;
  }
}
