/**
 The relay's upload limiter (relay/ratelimit.go): the code's pruning as functions and as the class that
 does it in place, against a specification that keeps every admission and counts.
 */
module RateLimiter {
  import opened Slices

  type Key = string

  /** What the limiter holds: per key, the admissions not yet pruned, and the time of the last sweep. */
  datatype Limiter = Limiter(hits: map<Key, seq<int>>, lastGC: int)

  datatype Request = Request(key: Key, now: int)

  function Gc(l: Limiter, window: int, now: int): Limiter {
    if now - l.lastGC < window then l
    else Limiter(map k | k in l.hits && Newer(l.hits[k], now - window) != [] :: l.hits[k], now)
  }

  function Allow(l: Limiter, limit: int, window: int, r: Request): (Limiter, bool) {
    var g := Gc(l, window, r.now);
    var kept := Newer(At(g.hits, r.key), r.now - window);
    if |kept| >= limit then (g.(hits := g.hits[r.key := kept]), false)
    else (g.(hits := g.hits[r.key := kept + [r.now]]), true)
  }

  /** The naive limiter: never forgets an admission, counts those newer than the window. */
  function Admits(history: map<Key, seq<int>>, limit: int, window: int, r: Request): bool {
    |Newer(At(history, r.key), r.now - window)| < limit
  }

  function Remember(history: map<Key, seq<int>>, limit: int, window: int, r: Request): map<Key, seq<int>> {
    if Admits(history, limit, window, r) then history[r.key := At(history, r.key) + [r.now]] else history
  }

  function History(limit: int, window: int, reqs: seq<Request>): map<Key, seq<int>> {
    if reqs == [] then map[]
    else Remember(History(limit, window, reqs[..|reqs| - 1]), limit, window, reqs[|reqs| - 1])
  }

  function NaiveAnswers(limit: int, window: int, reqs: seq<Request>): seq<bool> {
    if reqs == [] then []
    else
      var init, r := reqs[..|reqs| - 1], reqs[|reqs| - 1];
      NaiveAnswers(limit, window, init) + [Admits(History(limit, window, init), limit, window, r)]
  }

  function RunLimiter(start: int, limit: int, window: int, reqs: seq<Request>): (r: (Limiter, seq<bool>))
    ensures |r.1| == |reqs|
  {
    if reqs == [] then (Limiter(map[], start), [])
    else
      var (l, answers) := RunLimiter(start, limit, window, reqs[..|reqs| - 1]);
      var (l', ok) := Allow(l, limit, window, reqs[|reqs| - 1]);
      (l', answers + [ok])
  }

  ghost predicate Nondecreasing(reqs: seq<Request>) {
    forall i, j :: 0 <= i < j < |reqs| ==> reqs[i].now <= reqs[j].now
  }

  /** The pruned state and the full history show the same admissions after the cutoff. */
  ghost predicate Tracks(m: map<Key, seq<int>>, history: map<Key, seq<int>>, cutoff: int) {
    forall k: Key :: Newer(At(m, k), cutoff) == Newer(At(history, k), cutoff)
  }

  lemma TracksLater(m: map<Key, seq<int>>, history: map<Key, seq<int>>, c: int, d: int)
    requires Tracks(m, history, c) && c <= d
    ensures Tracks(m, history, d)
  {
    forall k: Key
      ensures Newer(At(m, k), d) == Newer(At(history, k), d)
    {
      NewerTwice(At(m, k), c, d);
      NewerTwice(At(history, k), c, d);
    }
  }

  lemma GcTracks(l: Limiter, history: map<Key, seq<int>>, window: int, now: int)
    requires Tracks(l.hits, history, now - window)
    ensures Tracks(Gc(l, window, now).hits, history, now - window)
  {
    var g := Gc(l, window, now);
    forall k: Key
      ensures Newer(At(g.hits, k), now - window) == Newer(At(l.hits, k), now - window)
    {
    }
  }

  /** What one request does to each key's times, in the code and in the naive limiter. */
  lemma AllowShape(l: Limiter, history: map<Key, seq<int>>, limit: int, window: int, r: Request, k: Key)
    ensures var g := Gc(l, window, r.now).hits;
            var kept := Newer(At(g, r.key), r.now - window);
            && Allow(l, limit, window, r).1 == (|kept| < limit)
            && At(Allow(l, limit, window, r).0.hits, k)
               == (if k != r.key then At(g, k) else if |kept| < limit then kept + [r.now] else kept)
            && At(Remember(history, limit, window, r), k)
               == if k == r.key && Admits(history, limit, window, r) then At(history, k) + [r.now] else At(history, k)
  {
  }

  /** One request gets the naive limiter's answer. */
  lemma AllowAnswers(l: Limiter, history: map<Key, seq<int>>, limit: int, window: int, r: Request)
    requires Tracks(l.hits, history, r.now - window)
    ensures Allow(l, limit, window, r).1 == Admits(history, limit, window, r)
  {
    hide *;
    GcTracks(l, history, window, r.now);
    TracksAt(Gc(l, window, r.now).hits, history, r.now - window, r.key);
    AllowShape(l, history, limit, window, r, r.key);
    AdmitsIs(history, limit, window, r);
  }

  lemma TracksAt(m: map<Key, seq<int>>, history: map<Key, seq<int>>, cutoff: int, k: Key)
    requires Tracks(m, history, cutoff)
    ensures Newer(At(m, k), cutoff) == Newer(At(history, k), cutoff)
  {
    hide Newer;
    hide At;
  }

  lemma AdmitsIs(history: map<Key, seq<int>>, limit: int, window: int, r: Request)
    ensures Admits(history, limit, window, r) == (|Newer(At(history, r.key), r.now - window)| < limit)
  {
    hide Newer;
    hide At;
  }

  /** And the state still tracks the history after it. */
  lemma AllowTracks(l: Limiter, history: map<Key, seq<int>>, limit: int, window: int, r: Request)
    requires Tracks(l.hits, history, r.now - window)
    ensures Tracks(Allow(l, limit, window, r).0.hits, Remember(history, limit, window, r), r.now - window)
  {
    hide Newer;
    hide Gc;
    hide Allow;
    hide At;
    var c := r.now - window;
    GcTracks(l, history, window, r.now);
    AllowAnswers(l, history, limit, window, r);
    AllowShape(l, history, limit, window, r, r.key);
    var g := Gc(l, window, r.now).hits;
    var all, kept := At(history, r.key), Newer(At(g, r.key), c);
    NewerTwice(At(g, r.key), c, c);
    NewerSnoc(kept, r.now, c);
    NewerSnoc(all, r.now, c);
    var m, m' := Allow(l, limit, window, r).0.hits, Remember(history, limit, window, r);
    hide Remember;
    forall k: Key
      ensures Newer(At(m, k), c) == Newer(At(m', k), c)
    {
      AllowShape(l, history, limit, window, r, k);
    }
  }

  /** The last request of a run. */
  lemma RunLast(start: int, limit: int, window: int, reqs: seq<Request>)
    requires reqs != []
    ensures var init, r := reqs[..|reqs| - 1], reqs[|reqs| - 1];
            var l, h := RunLimiter(start, limit, window, init).0, History(limit, window, init);
            && RunLimiter(start, limit, window, reqs).0 == Allow(l, limit, window, r).0
            && RunLimiter(start, limit, window, reqs).1
               == RunLimiter(start, limit, window, init).1 + [Allow(l, limit, window, r).1]
            && History(limit, window, reqs) == Remember(h, limit, window, r)
            && NaiveAnswers(limit, window, reqs) == NaiveAnswers(limit, window, init) + [Admits(h, limit, window, r)]
  {
    hide Allow;
    hide Remember;
    hide Admits;
  }

  lemma InitNondecreasing(reqs: seq<Request>)
    requires Nondecreasing(reqs) && reqs != []
    ensures var init := reqs[..|reqs| - 1];
            Nondecreasing(init) && (init != [] ==> init[|init| - 1].now <= reqs[|reqs| - 1].now)
  {
  }

  lemma EmptyRun(start: int, limit: int, window: int, c: int)
    ensures Tracks(RunLimiter(start, limit, window, []).0.hits, History(limit, window, []), c)
    ensures RunLimiter(start, limit, window, []).1 == NaiveAnswers(limit, window, [])
  {
  }

  /** Along every run with nondecreasing times the pruned state tracks the full history. */
  lemma {:induction false} RunTracks(start: int, limit: int, window: int, reqs: seq<Request>, now: int)
    requires Nondecreasing(reqs) && (reqs != [] ==> reqs[|reqs| - 1].now <= now)
    ensures Tracks(RunLimiter(start, limit, window, reqs).0.hits, History(limit, window, reqs), now - window)
  {
    hide *;
    if reqs == [] {
      EmptyRun(start, limit, window, now - window);
    } else {
      var init, r := reqs[..|reqs| - 1], reqs[|reqs| - 1];
      InitNondecreasing(reqs);
      RunTracks(start, limit, window, init, r.now);
      RunLast(start, limit, window, reqs);
      AllowTracks(RunLimiter(start, limit, window, init).0, History(limit, window, init), limit, window, r);
      TracksLater(RunLimiter(start, limit, window, reqs).0.hits, History(limit, window, reqs), r.now - window, now - window);
    }
  }

  /**
   Pruning and sweeping are unobservable: whatever the sweep clock starts at, over every run with
   nondecreasing times the limiter answers as if it kept every admission for ever.
   */
  lemma {:induction false} PruningUnobservable(start: int, limit: int, window: int, reqs: seq<Request>)
    requires Nondecreasing(reqs)
    ensures RunLimiter(start, limit, window, reqs).1 == NaiveAnswers(limit, window, reqs)
  {
    hide *;
    if reqs == [] {
      EmptyRun(start, limit, window, 0);
    } else {
      var init, r := reqs[..|reqs| - 1], reqs[|reqs| - 1];
      InitNondecreasing(reqs);
      PruningUnobservable(start, limit, window, init);
      RunTracks(start, limit, window, init, r.now);
      RunLast(start, limit, window, reqs);
      AllowAnswers(RunLimiter(start, limit, window, init).0, History(limit, window, init), limit, window, r);
    }
  }

  /** How many of the times fall in [a, b). */
  function CountIn(ts: seq<int>, a: int, b: int): nat {
    if ts == [] then 0
    else CountIn(ts[..|ts| - 1], a, b) + if a <= ts[|ts| - 1] < b then 1 else 0
  }

  lemma {:induction false} CountAtMostNewer(ts: seq<int>, a: int, b: int, c: int)
    requires c < a
    ensures CountIn(ts, a, b) <= |Newer(ts, c)|
  {
    if ts != [] {
      CountAtMostNewer(ts[..|ts| - 1], a, b, c);
    }
  }

  /** Every half-open interval of one window holds at most `limit` admissions of a key, over every run. */
  lemma {:induction false} WindowBound(limit: int, window: int, reqs: seq<Request>, k: Key, a: int)
    ensures CountIn(At(History(limit, window, reqs), k), a, a + window) <= if limit < 0 then 0 else limit
  {
    if reqs != [] {
      var init, r := reqs[..|reqs| - 1], reqs[|reqs| - 1];
      WindowBound(limit, window, init, k, a);
      var h := History(limit, window, init);
      if r.key == k && a <= r.now < a + window && Admits(h, limit, window, r) {
        CountAtMostNewer(At(h, k), a, a + window, r.now - window);
        assert (At(h, k) + [r.now])[..|At(h, k)|] == At(h, k);
      } else if r.key == k {
        assert (At(h, k) + [r.now])[..|At(h, k)|] == At(h, k);
      }
    }
  }

  /** The admissions the limiter itself granted to a key. */
  function Granted(reqs: seq<Request>, answers: seq<bool>, k: Key): seq<int>
    requires |reqs| == |answers|
  {
    if reqs == [] then []
    else
      var n := |reqs| - 1;
      var init := Granted(reqs[..n], answers[..n], k);
      if answers[n] && reqs[n].key == k then init + [reqs[n].now] else init
  }

  lemma {:induction false} GrantedIsHistory(limit: int, window: int, reqs: seq<Request>, k: Key)
    ensures |NaiveAnswers(limit, window, reqs)| == |reqs|
    ensures Granted(reqs, NaiveAnswers(limit, window, reqs), k) == At(History(limit, window, reqs), k)
  {
    if reqs != [] {
      var n := |reqs| - 1;
      GrantedIsHistory(limit, window, reqs[..n], k);
      assert NaiveAnswers(limit, window, reqs)[..n] == NaiveAnswers(limit, window, reqs[..n]);
    }
  }

  /** The limit holds of the code's own answers, as long as the clock readings come in order. */
  lemma LimiterKeepsBound(start: int, limit: int, window: int, reqs: seq<Request>, k: Key, a: int)
    requires Nondecreasing(reqs)
    ensures var answers := RunLimiter(start, limit, window, reqs).1;
            && |answers| == |reqs|
            && CountIn(Granted(reqs, answers, k), a, a + window) <= if limit < 0 then 0 else limit
  {
    PruningUnobservable(start, limit, window, reqs);
    GrantedIsHistory(limit, window, reqs, k);
    WindowBound(limit, window, reqs, k, a);
  }

  /** Readings reach the limiter at most d behind the latest one before them. */
  ghost predicate FallsBack(reqs: seq<Request>, d: nat) {
    forall i, j :: 0 <= i < j < |reqs| ==> reqs[i].now - reqs[j].now <= d
  }

  /** In the window from a on, the key is granted no more than the limit. */
  predicate WindowKept(start: int, limit: int, window: int, reqs: seq<Request>, k: Key, a: int) {
    CountIn(Granted(reqs, RunLimiter(start, limit, window, reqs).1, k), a, a + window) <= if limit < 0 then 0 else limit
  }

  /** No key is granted more than the limit in any half-open interval of one window. */
  ghost predicate WithinBound(start: int, limit: int, window: int, reqs: seq<Request>) {
    forall k: Key, a: int :: WindowKept(start, limit, window, reqs, k, a)
  }

  function Copies(n: nat, t: int): (r: seq<int>)
    ensures |r| == n
  {
    if n == 0 then [] else Copies(n - 1, t) + [t]
  }

  function Same(n: nat, r: Request): (s: seq<Request>)
    ensures |s| == n && forall i :: 0 <= i < n ==> s[i] == r
  {
    if n == 0 then [] else Same(n - 1, r) + [r]
  }

  lemma {:induction false} CopiesNewer(n: nat, t: int, c: int)
    ensures Newer(Copies(n, t), c) == if t > c then Copies(n, t) else []
    ensures CountIn(Copies(n, t), t, t + 1) == n
  {
    if n > 0 {
      CopiesNewer(n - 1, t, c);
      assert (Copies(n - 1, t) + [t])[..n - 1] == Copies(n - 1, t);
    }
  }

  /** Where the sweep clock stands once a request at t has been seen. */
  function Swept(start: int, window: int, t: int): int {
    if t - start < window then start else t
  }

  /** After n requests of one key at t the limiter holds these n times and has granted them. */
  ghost predicate Filled(start: int, limit: int, window: int, k: Key, t: int, n: nat) {
    var reqs := Same(n, Request(k, t));
    var r := RunLimiter(start, limit, window, reqs);
    && r.0 == Limiter(if n == 0 then map[] else map[k := Copies(n, t)], if n == 0 then start else Swept(start, window, t))
    && Granted(reqs, r.1, k) == Copies(n, t)
  }

  /** The first requests of a key, all at one time and within the limit. */
  lemma {:induction false} Filling(start: int, limit: int, window: int, k: Key, t: int, n: nat)
    requires n <= limit && window >= 1
    ensures Filled(start, limit, window, k, t, n)
  {
    if n == 0 {
      EmptyState(start, limit, window);
    } else {
      Filling(start, limit, window, k, t, n - 1);
      FillingNext(start, limit, window, k, t, n - 1);
    }
  }

  lemma {:induction false} FillingNext(start: int, limit: int, window: int, k: Key, t: int, n: nat)
    requires n < limit && window >= 1 && Filled(start, limit, window, k, t, n)
    ensures Filled(start, limit, window, k, t, n + 1)
  {
    var r, swept, kept := Request(k, t), Swept(start, window, t), Copies(n, t);
    var l := RunLimiter(start, limit, window, Same(n, r)).0;
    CopiesNewer(n, t, t - window);
    FillSizes(n + 1, r);
    hide Newer;
    hide Copies;
    hide Same;
    hide RunLimiter;
    hide Granted;
    FillOnce(l, limit, window, r, kept, swept);
    hide Allow;
    RunGranted(start, limit, window, Same(n, r), r, k, Limiter(map[k := kept + [t]], swept));
  }

  lemma FillSizes(n: nat, r: Request)
    requires n >= 1
    ensures Same(n, r) == Same(n - 1, r) + [r] && Copies(n, r.now) == Copies(n - 1, r.now) + [r.now]
    ensures n == 1 ==> Same(n - 1, r) == [] && Copies(n - 1, r.now) == []
    ensures n > 1 ==> Copies(n - 1, r.now) != []
  {
  }

  /** One more request, granted. */
  lemma RunGranted(start: int, limit: int, window: int, reqs: seq<Request>, r: Request, k: Key, l: Limiter)
    requires Allow(RunLimiter(start, limit, window, reqs).0, limit, window, r) == (l, true)
    ensures var before, after := RunLimiter(start, limit, window, reqs), RunLimiter(start, limit, window, reqs + [r]);
            && after == (l, before.1 + [true])
            && Granted(reqs + [r], after.1, k)
               == if r.key == k then Granted(reqs, before.1, k) + [r.now] else Granted(reqs, before.1, k)
  {
    assert (reqs + [r])[..|reqs|] == reqs;
    GrantedLast(reqs, RunLimiter(start, limit, window, reqs).1, r, k);
    hide Allow;
    hide Granted;
  }

  lemma EmptyState(start: int, limit: int, window: int)
    ensures RunLimiter(start, limit, window, []) == (Limiter(map[], start), [])
    ensures forall k: Key :: Granted([], [], k) == []
  {
  }

  lemma GrantedLast(reqs: seq<Request>, answers: seq<bool>, r: Request, k: Key)
    requires |reqs| == |answers|
    ensures Granted(reqs + [r], answers + [true], k)
            == if r.key == k then Granted(reqs, answers, k) + [r.now] else Granted(reqs, answers, k)
  {
    var n := |reqs|;
    assert (reqs + [r])[..n] == reqs && (answers + [true])[..n] == answers;
  }

  /** One more request of the only key, all of whose times are recent. */
  lemma FillOnce(l: Limiter, limit: int, window: int, r: Request, kept: seq<int>, swept: int)
    requires l.hits == (if kept == [] then map[] else map[r.key := kept])
    requires Newer(kept, r.now - window) == kept && |kept| < limit
    requires swept == if r.now - l.lastGC < window then l.lastGC else r.now
    ensures Allow(l, limit, window, r) == (Limiter(map[r.key := kept + [r.now]], swept), true)
  {
    var g := Gc(l, window, r.now);
    assert g == Limiter(l.hits, swept);
    assert At(g.hits, r.key) == kept;
    assert g.hits[r.key := kept + [r.now]] == map[r.key := kept + [r.now]];
  }

  /** A sweep at t + window drops a key whose times are all t; then t + window - 1 is granted again. */
  lemma SweepForgets(l: Limiter, limit: int, window: int, k: Key, other: Key, t: int, n: nat)
    requires l.hits == map[k := Copies(n, t)] && l.lastGC <= t && window >= 1 && limit >= 1 && k != other
    ensures var (l1, ok1) := Allow(l, limit, window, Request(other, t + window));
            ok1 && Allow(l1, limit, window, Request(k, t + window - 1)).1
  {
    CopiesNewer(n, t, t);
    var g := Gc(l, window, t + window);
    assert g == Limiter(map[], t + window);
    assert At(g.hits, other) == [] && Newer([], t) == [];
    var l1 := Limiter(map[other := [t + window]], t + window);
    assert [] + [t + window] == [t + window];
    assert Allow(l, limit, window, Request(other, t + window)) == (l1, true);
    assert Gc(l1, window, t + window - 1) == l1;
  }

  /** The run that breaks the bound: a key's full allowance, a sweep one window on, and a reading one behind it. */
  function LateRun(limit: nat, window: int, k: Key, other: Key, t: int): seq<Request> {
    Same(limit, Request(k, t)) + [Request(other, t + window)] + [Request(k, t + window - 1)]
  }

  /**
   allow reads its clock before it takes the lock, so readings can reach it out of order. A reading one
   behind is enough: for every limit and window, whatever was swept before, one request more than the limit
   is granted within one window.
   */
  lemma {:induction false} OutOfOrderBreaksBound(start: int, limit: nat, window: int, k: Key, other: Key, t: int)
    requires limit >= 1 && window >= 1 && start <= t && k != other
    ensures var reqs := LateRun(limit, window, k, other, t);
            var answers := RunLimiter(start, limit, window, reqs).1;
            && FallsBack(reqs, 1)
            && |answers| == |reqs| && CountIn(Granted(reqs, answers, k), t, t + window) == limit + 1
  {
    var r1, r2 := Request(other, t + window), Request(k, t + window - 1);
    var a := Same(limit, Request(k, t));
    var c := LateRun(limit, window, k, other, t);
    Filling(start, limit, window, k, t, limit);
    FilledIs(start, limit, window, k, t, limit);
    var l := RunLimiter(start, limit, window, a).0;
    SweepForgets(l, limit, window, k, other, t, limit);
    CountAll(limit, t, window);
    LateFallsBack(limit, window, k, other, t);
    hide *;
    var l1 := Allow(l, limit, window, r1).0;
    RunGranted(start, limit, window, a, r1, k, l1);
    RunGranted(start, limit, window, a + [r1], r2, k, Allow(l1, limit, window, r2).0);
  }

  lemma FilledIs(start: int, limit: int, window: int, k: Key, t: int, n: nat)
    requires n >= 1 && Filled(start, limit, window, k, t, n)
    ensures var reqs := Same(n, Request(k, t));
            var r := RunLimiter(start, limit, window, reqs);
            r.0 == Limiter(map[k := Copies(n, t)], Swept(start, window, t)) && Granted(reqs, r.1, k) == Copies(n, t)
    ensures start <= t ==> Swept(start, window, t) <= t
  {
    hide RunLimiter;
    hide Granted;
    hide Copies;
    hide Same;
  }

  lemma LateFallsBack(limit: nat, window: int, k: Key, other: Key, t: int)
    requires window >= 1
    ensures var c := LateRun(limit, window, k, other, t);
            FallsBack(c, 1) && c == Same(limit, Request(k, t)) + [Request(other, t + window)] + [Request(k, t + window - 1)]
  {
  }

  lemma CountAll(n: nat, t: int, window: int)
    requires window >= 1
    ensures CountIn(Copies(n, t) + [t + window - 1], t, t + window) == n + 1
  {
    CountSame(n, t, window);
    assert (Copies(n, t) + [t + window - 1])[..n] == Copies(n, t);
  }

  lemma {:induction false} CountSame(n: nat, t: int, window: int)
    requires window >= 1
    ensures CountIn(Copies(n, t), t, t + window) == n
  {
    if n > 0 {
      CountSame(n - 1, t, window);
      assert (Copies(n - 1, t) + [t])[..n - 1] == Copies(n - 1, t);
    }
  }

  /** Without an allowance nothing is ever granted. */
  lemma {:induction false} NothingGranted(start: int, limit: int, window: int, reqs: seq<Request>, k: Key)
    requires limit <= 0
    ensures var answers := RunLimiter(start, limit, window, reqs).1;
            |answers| == |reqs| && Granted(reqs, answers, k) == []
  {
    if reqs != [] {
      var n := |reqs| - 1;
      NothingGranted(start, limit, window, reqs[..n], k);
      var (l, answers) := RunLimiter(start, limit, window, reqs[..n]);
      assert (answers + [false])[..n] == answers;
    }
  }

  lemma {:induction false} CountEmpty(ts: seq<int>, a: int, b: int)
    requires b <= a
    ensures CountIn(ts, a, b) == 0
  {
    if ts != [] {
      CountEmpty(ts[..|ts| - 1], a, b);
    }
  }

  lemma BoundKept(start: int, limit: int, window: int, reqs: seq<Request>, k: Key, a: int)
    requires Nondecreasing(reqs) || limit <= 0 || window <= 0
    ensures WindowKept(start, limit, window, reqs, k, a)
  {
    var answers := RunLimiter(start, limit, window, reqs).1;
    hide RunLimiter;
    hide Granted;
    hide CountIn;
    if Nondecreasing(reqs) {
      LimiterKeepsBound(start, limit, window, reqs, k, a);
    } else if limit <= 0 {
      NothingGranted(start, limit, window, reqs, k);
      CountNone(a, a + window);
    } else {
      CountEmpty(Granted(reqs, answers, k), a, a + window);
    }
  }

  lemma CountNone(a: int, b: int)
    ensures CountIn([], a, b) == 0
  {
  }

  /**
   How much disorder the limiter stands: none at all. The bound holds on all runs whose readings fall back
   by at most d exactly when d is zero, unless the limit or the window leaves nothing to bound.
   */
  lemma ToleranceExactly(start: int, limit: int, window: int, d: nat)
    ensures (forall reqs :: FallsBack(reqs, d) ==> WithinBound(start, limit, window, reqs))
            <==> d == 0 || limit <= 0 || window <= 0
  {
    if d == 0 || limit <= 0 || window <= 0 {
      forall reqs, k: Key, a: int | FallsBack(reqs, d)
        ensures WindowKept(start, limit, window, reqs, k, a)
      {
        BoundKept(start, limit, window, reqs, k, a);
      }
      hide WindowKept;
    } else {
      var reqs := LateRun(limit, window, "a", "b", start);
      OutOfOrderBreaksBound(start, limit, window, "a", "b", start);
      Loosen(reqs, d);
      LimitBroken(start, limit, window, reqs, "a", start);
    }
  }

  lemma LimitBroken(start: int, limit: int, window: int, reqs: seq<Request>, k: Key, a: int)
    requires limit >= 0
    requires CountIn(Granted(reqs, RunLimiter(start, limit, window, reqs).1, k), a, a + window) > limit
    ensures !WithinBound(start, limit, window, reqs)
  {
    assert !WindowKept(start, limit, window, reqs, k, a);
  }

  lemma Loosen(reqs: seq<Request>, d: nat)
    requires FallsBack(reqs, 1) && d >= 1
    ensures FallsBack(reqs, d)
  {
  }

  lemma AllowParts(l: Limiter, limit: int, window: int, r: Request, g: Limiter)
    requires g == Gc(l, window, r.now)
    ensures var kept := Newer(At(g.hits, r.key), r.now - window);
            var times := if |kept| >= limit then kept else kept + [r.now];
            Allow(l, limit, window, r) == (g.(hits := g.hits[r.key := times]), |kept| < limit)
  {
  }

  lemma SweptIsGc(l: Limiter, left: map<Key, seq<int>>, window: int, now: int)
    requires now - l.lastGC >= window
    requires forall k :: k in left ==> k in l.hits && left[k] == l.hits[k]
    requires forall k :: k in l.hits ==> (k in left <==> Newer(l.hits[k], now - window) != [])
    ensures Gc(l, window, now) == Limiter(left, now)
  {
  }

  /** rateLimiter, with its slices in place. */
  class RateLimiter {
    var hits: map<Key, Slice>
    const limit: int
    const window: int
    var lastGC: int

    ghost predicate Valid()
      reads this
    {
      WellFormed(hits)
    }

    ghost function State(): Limiter
      requires Valid()
      reads this, Arrays(hits)
    {
      Limiter(Times(hits), lastGC)
    }

    constructor (limit: int, window: int, start: int)
      ensures Valid() && hits == map[] && State() == Limiter(map[], start)
      ensures this.limit == limit && this.window == window
    {
      this.limit, this.window := limit, window;
      hits, lastGC := map[], start;
    }

    method Sweep(now: int)
      requires Valid()
      modifies `hits, `lastGC
      ensures Valid() && Arrays(hits) <= old(Arrays(hits))
      ensures State() == Gc(old(State()), window, now)
    {
      hide Newer;
      hide WellFormed;
      hide Times;
      if now - lastGC < window {
        return;
      }
      ghost var hits0, was := hits, Times(hits);
      SweepAll(now, was);
      lastGC := now;
      SubmapWellFormed(hits, hits0);
      EachTime(hits0);
      EachTime(hits);
      SweptIsGc(old(State()), Times(hits), window, now);
    }

    /** The sweep's loop over the keys. */
    method SweepAll(now: int, ghost was: map<Key, seq<int>>)
      requires WellFormed(hits) && was == Times(hits)
      modifies `hits
      ensures Submap(hits, old(hits))
      ensures forall k :: k in old(hits) ==> (k in hits <==> Newer(was[k], now - window) != [])
    {
      hide *;
      var todo := hits.Keys;
      ghost var hits0 := hits;
      EachTime(hits0);
      SubmapSelf(hits0);
      while todo != {}
        invariant Submap(hits, hits0)
        invariant todo <= hits.Keys <= hits0.Keys
        invariant forall k :: k in todo ==> hits[k] == hits0[k]
        invariant forall k :: k in hits0 && k !in todo ==> (k in hits <==> Newer(was[k], now - window) != [])
        decreases todo
      {
        var k :| k in todo;
        SubmapDelete(hits, hits0, k);
        SweepKey(k, now, was[k]);
        todo := todo - {k};
      }
    }

    /** One key of the sweep: deleted when none of its times is newer. */
    method SweepKey(k: Key, now: int, ghost ts: seq<int>)
      requires k in hits && hits[k].len <= hits[k].arr.Length && hits[k].arr[..hits[k].len] == ts
      modifies `hits
      ensures hits == if Newer(ts, now - window) == [] then old(hits) - {k} else old(hits)
    {
      hide Newer;
      var found := AnyNewer(hits[k], now - window);
      if !found {
        hits := hits - {k};
      }
    }

    method AllowNow(key: Key, now: int) returns (ok: bool)
      requires Valid()
      modifies this, Arrays(hits)
      ensures Valid() && fresh(Arrays(hits) - old(Arrays(hits)))
      ensures (State(), ok) == Allow(old(State()), limit, window, Request(key, now))
    {
      hide Newer;
      hide Gc;
      hide Allow;
      hide Times;
      hide WellFormed;
      ghost var l := State();
      Sweep(now);
      AllowParts(l, limit, window, Request(key, now), State());
      ok := Admit(key, now);
    }

    /** Filter the key's times in place, and record the request if it is within the limit. */
    method Admit(key: Key, now: int) returns (ok: bool)
      requires Valid()
      modifies `hits, Arrays(hits)
      ensures Valid() && fresh(Arrays(hits) - old(Arrays(hits)))
      ensures var g := old(State());
              var kept := Newer(At(g.hits, key), now - window);
              && ok == (|kept| < limit)
              && State() == g.(hits := g.hits[key := if ok then kept + [now] else kept])
    {
      hide Newer;
      hide Times;
      hide Others;
      ghost var g := Times(hits);
      var kept := FilterKey(hits, key, now - window);
      ok := kept.len < limit;
      if ok {
        kept := AppendKey(hits, g, key, kept, now);
      }
      StoreTimes(hits, g, key, kept);
      hits := hits[key := kept];
    }
  }

  /** The class over a whole run: in order, it answers exactly as the naive limiter. */
  method AnswerAll(limit: int, window: int, start: int, reqs: seq<Request>) returns (answers: seq<bool>)
    requires Nondecreasing(reqs)
    ensures answers == NaiveAnswers(limit, window, reqs)
  {
    var rl := new RateLimiter(limit, window, start);
    answers := [];
    for i := 0 to |reqs|
      invariant fresh(rl) && rl.Valid() && fresh(Arrays(rl.hits))
      invariant rl.limit == limit && rl.window == window
      invariant (rl.State(), answers) == RunLimiter(start, limit, window, reqs[..i])
    {
      assert reqs[..i + 1][..i] == reqs[..i];
      var ok := rl.AllowNow(reqs[i].key, reqs[i].now);
      answers := answers + [ok];
    }
    assert reqs[..|reqs|] == reqs;
    PruningUnobservable(start, limit, window, reqs);
  }
}
