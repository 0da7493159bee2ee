/**
 The login guard (loginGuard in web/security.go) against a specification that keeps every failure since
 the key's last reset and counts those within the window.
 */
module LoginGuard {
  import opened Slices

  type Key = string

  datatype Op = Locked(key: Key, now: int) | Fail(key: Key, now: int) | Reset(key: Key, now: int)

  function Recent(fails: map<Key, seq<int>>, window: int, key: Key, now: int): seq<int> {
    Newer(At(fails, key), now - window)
  }

  /** The code: every look at a key prunes it; reset deletes it. */
  function Apply(fails: map<Key, seq<int>>, window: int, op: Op): map<Key, seq<int>> {
    match op
    case Locked(key, now) => fails[key := Recent(fails, window, key, now)]
    case Fail(key, now) => fails[key := Recent(fails, window, key, now) + [now]]
    case Reset(key, _) => fails - {key}
  }

  /** The specification: every failure since the last reset, in order. */
  function Remember(history: map<Key, seq<int>>, op: Op): map<Key, seq<int>> {
    match op
    case Locked(_, _) => history
    case Fail(key, now) => history[key := At(history, key) + [now]]
    case Reset(key, _) => history[key := []]
  }

  function LockedOut(fails: map<Key, seq<int>>, max: int, window: int, key: Key, now: int): bool {
    |Recent(fails, window, key, now)| >= max
  }

  function RunGuard(window: int, ops: seq<Op>): map<Key, seq<int>> {
    if ops == [] then map[] else Apply(RunGuard(window, ops[..|ops| - 1]), window, ops[|ops| - 1])
  }

  function History(ops: seq<Op>): map<Key, seq<int>> {
    if ops == [] then map[] else Remember(History(ops[..|ops| - 1]), ops[|ops| - 1])
  }

  ghost predicate Nondecreasing(ops: seq<Op>) {
    forall i, j :: 0 <= i < j < |ops| ==> ops[i].now <= ops[j].now
  }

  /** What one operation does to each key's times, in the code and in the history. */
  lemma ApplyAt(fails: map<Key, seq<int>>, history: map<Key, seq<int>>, window: int, op: Op, key: Key)
    ensures var kept := Newer(At(fails, key), op.now - window);
            At(Apply(fails, window, op), key) ==
            if op.key != key then At(fails, key) else if op.Locked? then kept else if op.Fail? then kept + [op.now] else []
    ensures At(Remember(history, op), key) ==
            if op.key != key || op.Locked? then At(history, key) else if op.Fail? then At(history, key) + [op.now] else []
  {
    hide Newer;
  }

  lemma ApplySame(fails: map<Key, seq<int>>, history: map<Key, seq<int>>, window: int, op: Op, key: Key, now: int)
    requires Newer(At(fails, key), op.now - window) == Newer(At(history, key), op.now - window)
    requires op.now <= now
    ensures Newer(At(Apply(fails, window, op), key), now - window)
            == Newer(At(Remember(history, op), key), now - window)
  {
    hide *;
    var c, d := op.now - window, now - window;
    var f, h := At(fails, key), At(history, key);
    ApplyAt(fails, history, window, op, key);
    NewerTwice(f, c, d);
    NewerTwice(h, c, d);
    NewerSnoc(Newer(f, c), op.now, d);
    NewerSnoc(h, op.now, d);
  }

  lemma GuardLast(window: int, ops: seq<Op>)
    requires ops != []
    ensures RunGuard(window, ops) == Apply(RunGuard(window, ops[..|ops| - 1]), window, ops[|ops| - 1])
    ensures History(ops) == Remember(History(ops[..|ops| - 1]), ops[|ops| - 1])
  {
    hide Apply;
    hide Remember;
  }

  lemma InitNondecreasing(ops: seq<Op>)
    requires Nondecreasing(ops) && ops != []
    ensures var init := ops[..|ops| - 1];
            Nondecreasing(init) && (init != [] ==> init[|init| - 1].now <= ops[|ops| - 1].now)
  {
  }

  lemma EmptyRun(window: int)
    ensures RunGuard(window, []) == map[] && History([]) == map[]
  {
  }

  /**
   Over every run with nondecreasing times, the failures still counted for a key at any later time are
   those of the full history since its last reset.
   */
  lemma {:induction false} GuardSame(window: int, ops: seq<Op>, key: Key, now: int)
    requires Nondecreasing(ops) && (ops != [] ==> ops[|ops| - 1].now <= now)
    ensures Newer(At(RunGuard(window, ops), key), now - window) == Newer(At(History(ops), key), now - window)
  {
    hide *;
    if ops == [] {
      EmptyRun(window);
    } else {
      var init, op := ops[..|ops| - 1], ops[|ops| - 1];
      InitNondecreasing(ops);
      GuardSame(window, init, key, op.now);
      GuardLast(window, ops);
      ApplySame(RunGuard(window, init), History(init), window, op, key, now);
    }
  }

  /** The failures of a key after its last reset, read off the run itself. */
  function FailuresSinceReset(ops: seq<Op>, key: Key): seq<int> {
    if ops == [] then []
    else
      var init, op := FailuresSinceReset(ops[..|ops| - 1], key), ops[|ops| - 1];
      if op.key != key then init
      else match op
        case Locked(_, _) => init
        case Fail(_, now) => init + [now]
        case Reset(_, _) => []
  }

  lemma {:induction false} HistoryIsFailures(ops: seq<Op>, key: Key)
    ensures At(History(ops), key) == FailuresSinceReset(ops, key)
  {
    if ops != [] {
      HistoryIsFailures(ops[..|ops| - 1], key);
    }
  }

  /** A key is locked exactly when enough failures since its last reset are newer than the window. */
  lemma LockedExactly(max: int, window: int, ops: seq<Op>, key: Key, now: int)
    requires Nondecreasing(ops) && (ops != [] ==> ops[|ops| - 1].now <= now)
    ensures LockedOut(RunGuard(window, ops), max, window, key, now)
            <==> |Newer(FailuresSinceReset(ops, key), now - window)| >= max
  {
    hide Newer;
    GuardSame(window, ops, key, now);
    HistoryIsFailures(ops, key);
  }

  /** loginGuard, pruning its slices in place. */
  class Guard {
    var fails: map<Key, Slice>
    const max: int
    const window: int

    ghost predicate Valid()
      reads this
    {
      WellFormed(fails)
    }

    constructor (max: int, window: int)
      ensures Valid() && fails == map[]
      ensures this.max == max && this.window == window
    {
      this.max, this.window, fails := max, window, map[];
    }

    /** recent: the key's failures within the window, pruned in place and stored back. */
    method RecentFor(key: Key, now: int) returns (kept: Slice)
      requires Valid()
      modifies this, Arrays(fails)
      ensures Valid() && key in fails && fails[key] == kept
      ensures fresh(Arrays(fails) - old(Arrays(fails)))
      ensures Times(fails) == Apply(old(Times(fails)), window, Locked(key, now))
      ensures kept.arr[..kept.len] == Recent(old(Times(fails)), window, key, now)
    {
      hide Newer;
      hide Times;
      hide Others;
      ghost var g := Times(fails);
      kept := FilterKey(fails, key, now - window);
      StoreTimes(fails, g, key, kept);
      fails := fails[key := kept];
    }

    method IsLocked(key: Key, now: int) returns (locked: bool)
      requires Valid()
      modifies this, Arrays(fails)
      ensures Valid() && fresh(Arrays(fails) - old(Arrays(fails)))
      ensures locked <==> LockedOut(old(Times(fails)), max, window, key, now)
      ensures Times(fails) == Apply(old(Times(fails)), window, Locked(key, now))
    {
      var kept := RecentFor(key, now);
      locked := kept.len >= max;
    }

    method RecordFailure(key: Key, now: int)
      requires Valid()
      modifies this, Arrays(fails)
      ensures Valid() && fresh(Arrays(fails) - old(Arrays(fails)))
      ensures Times(fails) == Apply(old(Times(fails)), window, Fail(key, now))
    {
      hide Newer;
      ghost var g0 := Times(fails);
      var kept := RecentFor(key, now);
      ghost var g := Times(fails);
      assert g == g0[key := Recent(g0, window, key, now)];
      hide Apply;
      hide Times;
      hide Others;
      SelfOthers(fails, key);
      var grown := AppendKey(fails, g, key, kept, now);
      StoreTimes(fails, g, key, grown);
      fails := fails[key := grown];
      FailAfterRecent(g0, window, key, now);
    }

    static lemma FailAfterRecent(g: map<Key, seq<int>>, window: int, key: Key, now: int)
      ensures Apply(g, window, Fail(key, now))
              == g[key := Recent(g, window, key, now)][key := Recent(g, window, key, now) + [now]]
    {
    }

    method Perform(op: Op) returns (answer: bool)
      requires Valid()
      modifies this, Arrays(fails)
      ensures Valid() && fresh(Arrays(fails) - old(Arrays(fails)))
      ensures op.Locked? ==> (answer <==> LockedOut(old(Times(fails)), max, window, op.key, op.now))
      ensures Times(fails) == Apply(old(Times(fails)), window, op)
    {
      hide Newer;
      hide LockedOut;
      hide Recent;
      answer := false;
      match op {
        case Locked(key, now) => answer := IsLocked(key, now);
        case Fail(key, now) => RecordFailure(key, now);
        case Reset(key, _) => ResetKey(key);
      }
    }

    method ResetKey(key: Key)
      requires Valid()
      modifies `fails
      ensures Valid() && Arrays(fails) <= old(Arrays(fails))
      ensures Times(fails) == old(Times(fails)) - {key}
    {
      ghost var m := fails;
      SubmapSelf(m);
      SubmapDelete(m, m, key);
      fails := fails - {key};
      SubmapWellFormed(fails, m);
    }
  }

  /** The class over a whole run: every answer is the naive count since the key's last reset. */
  method AnswerAll(max: int, window: int, ops: seq<Op>) returns (answers: seq<bool>)
    requires Nondecreasing(ops)
    ensures |answers| == |ops|
    ensures forall i :: 0 <= i < |ops| && ops[i].Locked? ==>
              (answers[i] <==> |Newer(FailuresSinceReset(ops[..i], ops[i].key), ops[i].now - window)| >= max)
  {
    hide Newer;
    hide Apply;
    hide RunGuard;
    hide FailuresSinceReset;
    hide Nondecreasing;
    hide Times;
    hide WellFormed;
    var g := new Guard(max, window);
    answers := [];
    EmptyGuard(g);
    EmptyRun(window);
    for i := 0 to |ops|
      invariant fresh(g) && g.Valid() && fresh(Arrays(g.fails))
      invariant g.max == max && g.window == window
      invariant Times(g.fails) == RunGuard(window, ops[..i])
      invariant |answers| == i
      invariant forall j :: 0 <= j < i && ops[j].Locked? ==>
                  (answers[j] <==> |Newer(FailuresSinceReset(ops[..j], ops[j].key), ops[j].now - window)| >= max)
    {
      assert ops[..i + 1][..i] == ops[..i] && ops[..i + 1][i] == ops[i];
      GuardLast(window, ops[..i + 1]);
      TakeNondecreasing(ops, i);
      assert fresh(Arrays(g.fails));
      var answer := g.Perform(ops[i]);
      if ops[i].Locked? {
        LockedExactly(max, window, ops[..i], ops[i].key, ops[i].now);
      }
      answers := answers + [answer];
    }
  }

  lemma TakeNondecreasing(ops: seq<Op>, i: nat)
    requires Nondecreasing(ops) && i < |ops|
    ensures Nondecreasing(ops[..i]) && (i > 0 ==> ops[..i][i - 1].now <= ops[i].now)
  {
  }

  lemma EmptyGuard(g: Guard)
    requires g.Valid() && g.fails == map[]
    ensures Times(g.fails) == map[] && Arrays(g.fails) == {}
  {
  }
}
