// The in-memory fixed-window rate limiter, its cleanup timer, and what it guarantees
// over any run with a clock that does not go backwards.
module RateLimit {
  import opened Options

  type Key = string

  datatype Entry = Entry(count: nat, resetAt: int)

  // ---- One request, one cleanup

  // A window is renewed when there is none or when it has ended before now.
  function Touched(entry: Option<Entry>, windowMs: nat, now: int): Entry {
    if entry.None? || entry.value.resetAt < now then Entry(1, now + windowMs)
    else entry.value.(count := entry.value.count + 1)
  }

  function Lookup(store: map<Key, Entry>, key: Key): Option<Entry> {
    if key in store then Some(store[key]) else None
  }

  function Unexpired(store: map<Key, Entry>, now: int): map<Key, Entry> {
    map key | key in store && store[key].resetAt >= now :: store[key]
  }

  class MemoryRateLimiter {
    const windowMs: nat
    const maxRequests: nat
    var store: map<Key, Entry>

    constructor (windowMs: nat, maxRequests: nat)
      ensures store == map[] && this.windowMs == windowMs && this.maxRequests == maxRequests
    {
      this.windowMs, this.maxRequests := windowMs, maxRequests;
      store := map[];
    }

    // The cleanup timer.
    method Cleanup(now: int)
      modifies this`store
      ensures store == Unexpired(old(store), now)
    {
      var keys := store.Keys;
      while keys != {}
        invariant keys <= old(store).Keys
        invariant store == map key | key in old(store) && (key in keys || old(store)[key].resetAt >= now) ::
          old(store)[key]
        decreases |keys|
      {
        var key :| key in keys;
        if store[key].resetAt < now {
          store := store - {key};
        }
        keys := keys - {key};
      }
    }

    method Increment(key: Key, now: int) returns (entry: Entry)
      modifies this`store
      ensures entry == Touched(Lookup(old(store), key), windowMs, now)
      ensures store == old(store)[key := entry]
    {
      var found := Lookup(store, key);
      if found.None? || found.value.resetAt < now {
        entry := Entry(0, now + windowMs);
      } else {
        entry := found.value;
      }
      entry := entry.(count := entry.count + 1);
      store := store[key := entry];
    }

    // The middleware, for a path that is not skipped: false is the 429 answer.
    method Admit(key: Key, now: int) returns (admitted: bool, remaining: nat)
      modifies this`store
      ensures Outcome(old(store), Request(key, now), windowMs, maxRequests) == (store, [Answer(key, now, admitted)])
      ensures admitted && remaining == 0 <==> store[key].count == maxRequests
    {
      var entry := Increment(key, now);
      remaining := if maxRequests > entry.count then maxRequests - entry.count else 0;
      admitted := !(entry.count > maxRequests);
    }
  }

  // ---- Runs

  datatype Event = Request(key: Key, now: int) | Cleaned(now: int)

  datatype Answer = Answer(key: Key, now: int, admitted: bool)

  // What an event leaves in the store and answers.
  function Outcome(store: map<Key, Entry>, e: Event, windowMs: nat, max: nat): (map<Key, Entry>, seq<Answer>) {
    match e
    case Cleaned(now) => (Unexpired(store, now), [])
    case Request(key, now) =>
      var entry := Touched(Lookup(store, key), windowMs, now);
      (store[key := entry], [Answer(key, now, entry.count <= max)])
  }

  function Answers(store: map<Key, Entry>, events: seq<Event>, windowMs: nat, max: nat): seq<Answer>
    decreases |events|
  {
    if events == [] then []
    else
      var outcome := Outcome(store, events[0], windowMs, max);
      outcome.1 + Answers(outcome.0, events[1..], windowMs, max)
  }

  // The clock never goes backwards.
  predicate InOrder(events: seq<Event>) {
    forall i, j :: 0 <= i <= j < |events| ==> events[i].now <= events[j].now
  }

  function WithoutCleanups(events: seq<Event>): seq<Event> {
    if events == [] then []
    else (if events[0].Cleaned? then [] else [events[0]]) + WithoutCleanups(events[1..])
  }

  function Live(store: map<Key, Entry>, key: Key, now: int): Option<Entry> {
    if key in store && store[key].resetAt >= now then Some(store[key]) else None
  }

  // Two stores that differ in entries that have ended by now.
  ghost predicate SameLive(s: map<Key, Entry>, t: map<Key, Entry>, now: int) {
    forall key :: Live(s, key, now) == Live(t, key, now)
  }

  lemma SameLiveLater(s: map<Key, Entry>, t: map<Key, Entry>, now: int, later: int)
    requires SameLive(s, t, now) && now <= later
    ensures SameLive(s, t, later)
  {
    forall key ensures Live(s, key, later) == Live(t, key, later) {
      assert Live(s, key, now) == Live(t, key, now);
    }
  }

  lemma {:induction false} SameLiveSameAnswers(
      s: map<Key, Entry>, t: map<Key, Entry>, events: seq<Event>, from: int, windowMs: nat, max: nat)
    requires InOrder(events) && SameLive(s, t, from)
    requires forall e :: e in events ==> from <= e.now
    ensures Answers(s, events, windowMs, max) == Answers(t, WithoutCleanups(events), windowMs, max)
    decreases |events|
  {
    if events != [] {
      var e, rest := events[0], events[1..];
      assert e in events;
      SameLiveLater(s, t, from, e.now);
      forall x | x in rest ensures e.now <= x.now {
        var i :| 0 <= i < |rest| && rest[i] == x;
        assert events[0].now <= events[i + 1].now;
      }
      var after := Outcome(s, e, windowMs, max).0;
      if e.Cleaned? {
        assert SameLive(after, t, e.now) by {
          forall key ensures Live(after, key, e.now) == Live(t, key, e.now) {
            assert Live(s, key, e.now) == Live(t, key, e.now);
          }
        }
        SameLiveSameAnswers(after, t, rest, e.now, windowMs, max);
        assert WithoutCleanups(events) == WithoutCleanups(rest);
      } else {
        var afterT := Outcome(t, e, windowMs, max).0;
        assert Live(s, e.key, e.now) == Live(t, e.key, e.now);
        assert after[e.key] == afterT[e.key];
        assert SameLive(after, afterT, e.now) by {
          forall key ensures Live(after, key, e.now) == Live(afterT, key, e.now) {
            assert Live(s, key, e.now) == Live(t, key, e.now);
          }
        }
        SameLiveSameAnswers(after, afterT, rest, e.now, windowMs, max);
        assert WithoutCleanups(events) == [e] + WithoutCleanups(rest);
        assert ([e] + WithoutCleanups(rest))[1..] == WithoutCleanups(rest);
      }
    }
  }

  // Running the cleanup, at whatever moments, changes no answer.
  lemma CleanupChangesNoAnswer(store: map<Key, Entry>, events: seq<Event>, windowMs: nat, max: nat)
    requires InOrder(events)
    ensures Answers(store, events, windowMs, max) == Answers(store, WithoutCleanups(events), windowMs, max)
  {
    if events != [] {
      forall e | e in events ensures events[0].now <= e.now {
        var i :| 0 <= i < |events| && events[i] == e;
      }
      SameLiveSameAnswers(store, store, events, events[0].now, windowMs, max);
    }
  }

  // ---- How many requests get through

  predicate Counts(a: Answer, key: Key, from: int, to: int) {
    a.admitted && a.key == key && from <= a.now <= to
  }

  // Admitted requests of one client in a closed interval.
  function Admitted(answers: seq<Answer>, key: Key, from: int, to: int): nat {
    if answers == [] then 0
    else (if Counts(answers[0], key, from, to) then 1 else 0) + Admitted(answers[1..], key, from, to)
  }

  // With `seen` requests counted so far and this entry for the client: `earlier` of them
  // were counted in former windows, the others in the current one. While the interval
  // lasts, former windows only count if the current one began inside it, and the
  // request that began the current window only counts if it did.
  predicate Accounted(entry: Option<Entry>, seen: nat, earlier: nat, from: int, windowMs: nat, max: nat) {
    match entry
    case None => seen == 0
    case Some(e) =>
      var begun := e.resetAt - windowMs;
      && e.count >= 1 && earlier <= seen
      && (earlier > 0 ==> begun >= from && earlier <= max - 1)
      && seen - earlier <= e.count && seen - earlier <= max
      && (begun < from && seen - earlier > 0 ==> seen - earlier <= e.count - 1 && seen - earlier <= max - 1)
  }

  // The account after one more request of the client at `now`, inside the interval or not.
  lemma AccountGoesOn(entry: Option<Entry>, seen: nat, earlier: nat, now: int, from: int, to: int, windowMs: nat,
                      max: nat)
    requires Accounted(entry, seen, earlier, from, windowMs, max)
    requires entry.Some? ==> entry.value.resetAt <= now + windowMs
    requires to - from <= windowMs && max >= 1 && now <= to && (seen > 0 ==> from <= now)
    ensures var next := Touched(entry, windowMs, now);
      var counted := if next.count <= max && from <= now then seen + 1 else seen;
      var renewed := entry.None? || entry.value.resetAt < now;
      && Accounted(Some(next), counted, if renewed then seen else earlier, from, windowMs, max)
      && next.resetAt <= now + windowMs
  {
  }

  lemma AdmittedStep(
      store: map<Key, Entry>, events: seq<Event>, key: Key, from: int, to: int, windowMs: nat, max: nat)
    requires events != [] && events[0].Request?
    ensures var outcome := Outcome(store, events[0], windowMs, max);
      Admitted(Answers(store, events, windowMs, max), key, from, to)
      == (if Counts(outcome.1[0], key, from, to) then 1 else 0)
         + Admitted(Answers(outcome.0, events[1..], windowMs, max), key, from, to)
  {
    var outcome := Outcome(store, events[0], windowMs, max);
    assert Answers(store, events, windowMs, max)[1..] == Answers(outcome.0, events[1..], windowMs, max);
  }

  lemma LaterEvents(events: seq<Event>)
    requires events != [] && InOrder(events)
    ensures InOrder(events[1..]) && forall e :: e in events[1..] ==> events[0].now <= e.now
  {
    forall e | e in events[1..] ensures events[0].now <= e.now {
      var i :| 0 <= i < |events[1..]| && events[1..][i] == e;
      assert events[0].now <= events[i + 1].now;
    }
  }

  lemma {:induction false} FewAreAdmitted(
      store: map<Key, Entry>, events: seq<Event>, key: Key, from: int, to: int, windowMs: nat, max: nat,
      seen: nat, earlier: nat, clock: int)
    requires InOrder(events) && (forall e :: e in events ==> e.Request? && clock <= e.now)
    requires to - from <= windowMs && max >= 1 && seen <= 2 * max - 1 && (seen > 0 ==> from <= clock)
    requires Accounted(Lookup(store, key), seen, earlier, from, windowMs, max)
    requires key in store ==> store[key].resetAt <= clock + windowMs
    ensures seen + Admitted(Answers(store, events, windowMs, max), key, from, to) <= 2 * max - 1
    decreases |events|
  {
    if events != [] {
      var e, rest := events[0], events[1..];
      assert e in events;
      var entry := Lookup(store, key);
      LaterEvents(events);
      if e.now > to {
        NoneAfter(store, events, key, from, to, windowMs, max);
      } else {
        AdmittedStep(store, events, key, from, to, windowMs, max);
        var outcome := Outcome(store, e, windowMs, max);
        if e.key == key {
          AccountGoesOn(entry, seen, earlier, e.now, from, to, windowMs, max);
          var counted := if Counts(outcome.1[0], key, from, to) then seen + 1 else seen;
          var renewed := entry.None? || entry.value.resetAt < e.now;
          var former := if renewed then seen else earlier;
          FewAreAdmitted(outcome.0, rest, key, from, to, windowMs, max, counted, former, e.now);
        } else {
          FewAreAdmitted(outcome.0, rest, key, from, to, windowMs, max, seen, earlier, e.now);
        }
      }
    }
  }

  lemma {:induction false} NoneAfter(
      store: map<Key, Entry>, events: seq<Event>, key: Key, from: int, to: int, windowMs: nat, max: nat)
    requires events != [] ==> to < events[0].now
    requires InOrder(events) && forall e :: e in events ==> e.Request?
    ensures Admitted(Answers(store, events, windowMs, max), key, from, to) == 0
    decreases |events|
  {
    if events != [] {
      assert events[0] in events;
      AdmittedStep(store, events, key, from, to, windowMs, max);
      LaterEvents(events);
      assert events[1..] != [] ==> events[1..][0] in events[1..];
      NoneAfter(Outcome(store, events[0], windowMs, max).0, events[1..], key, from, to, windowMs, max);
    }
  }

  lemma {:induction false} OnlyRequestsLeft(events: seq<Event>)
    ensures forall e :: e in WithoutCleanups(events) ==> e.Request? && e in events
    ensures InOrder(events) ==> InOrder(WithoutCleanups(events))
  {
    if events != [] {
      OnlyRequestsLeft(events[1..]);
      var rest := WithoutCleanups(events[1..]);
      if InOrder(events) {
        forall e | e in rest ensures events[0].now <= e.now {
          var i :| 0 <= i < |events[1..]| && events[1..][i] == e;
          assert events[0].now <= events[i + 1].now;
        }
      }
    }
  }

  lemma {:induction false} NothingIsAdmitted(store: map<Key, Entry>, events: seq<Event>, key: Key, from: int, to: int,
                                             windowMs: nat)
    ensures Admitted(Answers(store, events, windowMs, 0), key, from, to) == 0
    decreases |events|
  {
    if events != [] {
      var outcome := Outcome(store, events[0], windowMs, 0);
      NothingIsAdmitted(outcome.0, events[1..], key, from, to, windowMs);
      if events[0].Request? {
        assert Answers(store, events, windowMs, 0)[1..] == Answers(outcome.0, events[1..], windowMs, 0);
      } else {
        assert Answers(store, events, windowMs, 0) == Answers(outcome.0, events[1..], windowMs, 0);
      }
    }
  }

  // From a fresh start, whatever the requests of all clients and the cleanups: no closed
  // interval as long as a window lets more than 2 * max - 1 requests of a client through.
  lemma FewerThanTwiceTheLimit(events: seq<Event>, key: Key, from: int, to: int, windowMs: nat, max: nat)
    requires InOrder(events) && to - from <= windowMs
    ensures Admitted(Answers(map[], events, windowMs, max), key, from, to) <= if max == 0 then 0 else 2 * max - 1
  {
    if max == 0 {
      NothingIsAdmitted(map[], events, key, from, to, windowMs);
    } else if events != [] {
      CleanupChangesNoAnswer(map[], events, windowMs, max);
      OnlyRequestsLeft(events);
      forall e | e in WithoutCleanups(events) ensures events[0].now <= e.now {
        var i :| 0 <= i < |events| && events[i] == e;
      }
      FewAreAdmitted(map[], WithoutCleanups(events), key, from, to, windowMs, max, 0, 0, events[0].now);
    }
  }

  // ---- The bound is reached

  function Burst(key: Key, now: int, n: nat): (events: seq<Event>)
    ensures |events| == n && forall i :: 0 <= i < n ==> events[i] == Request(key, now)
  {
    seq(n, _ => Request(key, now))
  }

  lemma {:induction false} BurstIsAdmitted(
      store: map<Key, Entry>, key: Key, now: int, n: nat, rest: seq<Event>, from: int, to: int, windowMs: nat, max: nat)
    requires key in store && store[key].resetAt >= now && store[key].count + n <= max
    requires from <= now <= to
    ensures Admitted(Answers(store, Burst(key, now, n) + rest, windowMs, max), key, from, to)
         == n + Admitted(Answers(store[key := store[key].(count := store[key].count + n)], rest, windowMs, max),
                         key, from, to)
  {
    var events := Burst(key, now, n) + rest;
    if n == 0 {
      assert events == rest;
      assert store[key := store[key].(count := store[key].count + 0)] == store;
    } else {
      assert events[0] == Request(key, now) && events[1..] == Burst(key, now, n - 1) + rest;
      var next := store[key := store[key].(count := store[key].count + 1)];
      assert Outcome(store, events[0], windowMs, max) == (next, [Answer(key, now, true)]);
      assert Answers(store, events, windowMs, max)[1..] == Answers(next, events[1..], windowMs, max);
      BurstIsAdmitted(next, key, now, n - 1, rest, from, to, windowMs, max);
      assert next[key := next[key].(count := next[key].count + (n - 1))]
          == store[key := store[key].(count := store[key].count + n)];
    }
  }

  // A burst that begins a window and fills it.
  lemma FreshBurstIsAdmitted(
      store: map<Key, Entry>, key: Key, now: int, n: nat, rest: seq<Event>, from: int, to: int, windowMs: nat, max: nat)
    requires (key !in store || store[key].resetAt < now) && 1 <= n <= max
    ensures Admitted(Answers(store, Burst(key, now, n) + rest, windowMs, max), key, from, to)
         == (if from <= now <= to then 1 else 0)
            + Admitted(Answers(store[key := Entry(1, now + windowMs)], Burst(key, now, n - 1) + rest, windowMs, max),
                       key, from, to)
  {
    var events := Burst(key, now, n) + rest;
    assert events[0] == Request(key, now) && events[1..] == Burst(key, now, n - 1) + rest;
    AdmittedStep(store, events, key, from, to, windowMs, max);
  }

  function TightRun(key: Key, windowMs: nat, max: nat): seq<Event>
    requires max >= 1
  {
    Burst(key, 0, 1) + (Burst(key, windowMs, max - 1) + (Burst(key, windowMs + 1, max) + []))
  }

  lemma TightRunIsInOrder(key: Key, windowMs: nat, max: nat)
    requires max >= 1
    ensures InOrder(TightRun(key, windowMs, max))
  {
    var events := TightRun(key, windowMs, max);
    forall i | 0 <= i < |events|
      ensures events[i].now == if i < 1 then 0 else if i < max then windowMs else windowMs + 1
    {
    }
  }

  // One request begins a window; the rest of it comes just before the window ends and a
  // whole second window right after: 2 * max - 1 requests within one millisecond.
  lemma BoundIsReached(key: Key, windowMs: nat, max: nat)
    requires windowMs >= 1 && max >= 1
    ensures InOrder(TightRun(key, windowMs, max))
    ensures Admitted(Answers(map[], TightRun(key, windowMs, max), windowMs, max), key, windowMs, windowMs + 1)
         == 2 * max - 1
  {
    TightRunIsInOrder(key, windowMs, max);
    var from, to := windowMs, windowMs + 1;
    var second := Burst(key, to, max) + [];
    var first := Burst(key, from, max - 1) + second;
    var s0: map<Key, Entry> := map[];
    FreshBurstIsAdmitted(s0, key, 0, 1, first, from, to, windowMs, max);
    assert Burst(key, 0, 0) + first == first;
    var s1 := s0[key := Entry(1, windowMs)];
    BurstIsAdmitted(s1, key, from, max - 1, second, from, to, windowMs, max);
    SecondWindow(s1[key := s1[key].(count := s1[key].count + (max - 1))], key, to, from, windowMs, max);
  }

  lemma SecondWindow(store: map<Key, Entry>, key: Key, now: int, from: int, windowMs: nat, max: nat)
    requires key in store && store[key].resetAt < now && from <= now && max >= 1
    ensures Admitted(Answers(store, Burst(key, now, max) + [], windowMs, max), key, from, now) == max
  {
    FreshBurstIsAdmitted(store, key, now, max, [], from, now, windowMs, max);
    BurstIsAdmitted(store[key := Entry(1, now + windowMs)], key, now, max - 1, [], from, now, windowMs, max);
  }

  // ---- Where the plain limit holds

  // No closed interval as long as a window ever lets more than max requests of a client through.
  ghost predicate LimitHolds(windowMs: nat, max: nat) {
    forall events, key, from, to :: InOrder(events) && to - from <= windowMs ==>
      Admitted(Answers(map[], events, windowMs, max), key, from, to) <= max
  }

  // In a single millisecond, with windows of length zero: what was counted belongs to the
  // window of that millisecond.
  predicate CountedAtOnce(entry: Option<Entry>, seen: nat, at: int, max: nat) {
    seen <= max && (seen > 0 ==> entry.Some? && entry.value.resetAt >= at && seen <= entry.value.count)
  }

  lemma {:induction false} FewAtOnce(
      store: map<Key, Entry>, events: seq<Event>, key: Key, at: int, max: nat, seen: nat)
    requires InOrder(events) && (forall e :: e in events ==> e.Request?)
    requires CountedAtOnce(Lookup(store, key), seen, at, max)
    ensures seen + Admitted(Answers(store, events, 0, max), key, at, at) <= max
    decreases |events|
  {
    if events != [] {
      var e, rest := events[0], events[1..];
      assert e in events;
      LaterEvents(events);
      if e.now > at {
        NoneAfter(store, events, key, at, at, 0, max);
      } else {
        AdmittedStep(store, events, key, at, at, 0, max);
        var outcome := Outcome(store, e, 0, max);
        FewAtOnce(outcome.0, rest, key, at, max, if Counts(outcome.1[0], key, at, at) then seen + 1 else seen);
      }
    }
  }

  lemma {:induction false} EmptyInterval(answers: seq<Answer>, key: Key, from: int, to: int)
    requires to < from
    ensures Admitted(answers, key, from, to) == 0
  {
    if answers != [] { EmptyInterval(answers[1..], key, from, to); }
  }

  lemma ZeroWindowHoldsLimit(events: seq<Event>, key: Key, from: int, to: int, max: nat)
    requires InOrder(events) && to <= from
    ensures Admitted(Answers(map[], events, 0, max), key, from, to) <= max
  {
    if to < from {
      EmptyInterval(Answers(map[], events, 0, max), key, from, to);
    } else {
      CleanupChangesNoAnswer(map[], events, 0, max);
      OnlyRequestsLeft(events);
      FewAtOnce(map[], WithoutCleanups(events), key, from, max, 0);
    }
  }

  // BoundIsReached in an interval of at most a window breaks the limit where 2 * max - 1 is
  // more than max; nothing else does.
  lemma LimitHoldsIff(windowMs: nat, max: nat)
    ensures LimitHolds(windowMs, max) <==> max <= 1 || windowMs == 0
  {
    if max <= 1 || windowMs == 0 {
      forall events, key, from, to | InOrder(events) && to - from <= windowMs
        ensures Admitted(Answers(map[], events, windowMs, max), key, from, to) <= max
      {
        if windowMs == 0 {
          ZeroWindowHoldsLimit(events, key, from, to, max);
        } else {
          FewerThanTwiceTheLimit(events, key, from, to, windowMs, max);
        }
      }
    } else {
      BoundIsReached("", windowMs, max);
      var events := TightRun("", windowMs, max);
      assert Admitted(Answers(map[], events, windowMs, max), "", windowMs, windowMs + 1) > max;
    }
  }
}
