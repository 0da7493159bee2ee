/**
 Read-modify-write of a user's record (web/accounts.go): take the lock kept under the typed name, load the
 record of the account the name leads to, run the caller's closure on it, save it unless the closure
 declines, give the lock back. Any number of calls interleave. The records change as if the closures ran
 one after another exactly when no two of the names in use lead to one account.
 */
module AccountLock {
  import opened Names

  type Pid = nat

  /** Where a call stands. */
  datatype Op<R, E> =
    | Waiting(name: Name, e: E)
    | Entered(name: Name, e: E)
    | Loaded(name: Name, e: E, r: R)
    | Leaving(name: Name, ok: bool)
    | Done(ok: bool)

  /** What took effect: a closure on an account's record, a look for a record that is not there, an account opened. */
  datatype Entry<R, E> =
    | Ran(pid: Pid, account: Name, e: E, ok: bool)
    | Missed(pid: Pid, account: Name)
    | Opened(account: Name, r: R)

  datatype Shared<R, E> = Shared(records: map<Name, R>, held: set<Name>, ops: map<Pid, Op<R, E>>, log: seq<Entry<R, E>>)

  datatype Move<R, E> = Call(pid: Pid, name: Name, e: E) | Go(pid: Pid) | Open(name: Name, r: R)

  /** A closure: the new record, and whether to save it. */
  type Closure<!R, !E> = (R, E) -> (R, bool)

  function OpStep<R, E>(acct: Accounts, f: Closure<R, E>, s: Shared<R, E>, pid: Pid): Shared<R, E>
    requires pid in s.ops
  {
    match s.ops[pid]
    case Waiting(n, e) => if n in s.held then s else s.(held := s.held + {n}, ops := s.ops[pid := Entered(n, e)])
    case Entered(n, e) =>
      var a := acct(n);
      if a in s.records then s.(ops := s.ops[pid := Loaded(n, e, s.records[a])])
      else s.(ops := s.ops[pid := Leaving(n, false)], log := s.log + [Missed(pid, a)])
    case Loaded(n, e, r) =>
      var (r', ok) := f(r, e);
      s.(records := if ok then s.records[acct(n) := r'] else s.records,
         ops := s.ops[pid := Leaving(n, ok)],
         log := s.log + [Ran(pid, acct(n), e, ok)])
    case Leaving(n, ok) => s.(held := s.held - {n}, ops := s.ops[pid := Done(ok)])
    case Done(_) => s
  }

  /** An account is opened under its own name, under the same lock. */
  function MoveStep<R, E>(acct: Accounts, f: Closure<R, E>, s: Shared<R, E>, m: Move<R, E>): Shared<R, E> {
    match m
    case Call(pid, n, e) => if pid in s.ops then s else s.(ops := s.ops[pid := Waiting(n, e)])
    case Go(pid) => if pid in s.ops then OpStep(acct, f, s, pid) else s
    case Open(n, r) =>
      if acct(n) != n || n in s.held || n in s.records then s
      else s.(records := s.records[n := r], log := s.log + [Opened(n, r)])
  }

  function RunMoves<R, E>(acct: Accounts, f: Closure<R, E>, s: Shared<R, E>, moves: seq<Move<R, E>>): Shared<R, E>
    decreases |moves|
  {
    if moves == [] then s else RunMoves(acct, f, MoveStep(acct, f, s, moves[0]), moves[1..])
  }

  function Start<R, E>(records: map<Name, R>): Shared<R, E> {
    Shared(records, {}, map[], [])
  }

  ghost predicate CallsFrom<R, E>(moves: seq<Move<R, E>>, n: iset<Name>) {
    forall i :: 0 <= i < |moves| && moves[i].Call? ==> moves[i].name in n
  }

  // One after another.

  function Apply<R, E>(f: Closure<R, E>, records: map<Name, R>, x: Entry<R, E>): map<Name, R> {
    match x
    case Ran(_, a, e, ok) => if a in records && ok then records[a := f(records[a], e).0] else records
    case Missed(_, _) => records
    case Opened(a, r) => records[a := r]
  }

  /** The records after the log's closures have run on them, one after another. */
  function Replay<R, E>(f: Closure<R, E>, records: map<Name, R>, log: seq<Entry<R, E>>): map<Name, R> {
    if log == [] then records else Apply(f, Replay(f, records, log[..|log| - 1]), log[|log| - 1])
  }

  /** The entry says what happens on these records. */
  predicate RightAt<R, E>(f: Closure<R, E>, records: map<Name, R>, x: Entry<R, E>) {
    match x
    case Ran(_, a, e, ok) => a in records && f(records[a], e).1 == ok
    case Missed(_, a) => a !in records
    case Opened(a, _) => a !in records
  }

  ghost predicate Right<R, E>(f: Closure<R, E>, records: map<Name, R>, log: seq<Entry<R, E>>) {
    log == []
    || (Right(f, records, log[..|log| - 1]) && RightAt(f, Replay(f, records, log[..|log| - 1]), log[|log| - 1]))
  }

  /** The records and every answer are those of the closures run one after another, in the log's order. */
  ghost predicate OneAfterAnother<R, E>(f: Closure<R, E>, records: map<Name, R>, s: Shared<R, E>) {
    Right(f, records, s.log) && s.records == Replay(f, records, s.log)
  }

  lemma LogSnoc<R, E>(f: Closure<R, E>, records: map<Name, R>, log: seq<Entry<R, E>>, x: Entry<R, E>)
    requires Right(f, records, log) && RightAt(f, Replay(f, records, log), x)
    ensures Right(f, records, log + [x]) && Replay(f, records, log + [x]) == Apply(f, Replay(f, records, log), x)
  {
    assert (log + [x])[..|log|] == log;
  }

  lemma {:induction false} RightThere<R, E>(f: Closure<R, E>, records: map<Name, R>, log: seq<Entry<R, E>>, i: nat)
    requires Right(f, records, log) && i < |log|
    ensures RightAt(f, Replay(f, records, log[..i]), log[i])
  {
    if i < |log| - 1 {
      var init := log[..|log| - 1];
      RightThere(f, records, init, i);
      assert init[..i] == log[..i];
    }
    hide Replay;
  }

  lemma ReplayNext<R, E>(f: Closure<R, E>, records: map<Name, R>, log: seq<Entry<R, E>>, i: nat)
    requires i < |log|
    ensures Replay(f, records, log[..i + 1]) == Apply(f, Replay(f, records, log[..i]), log[i])
  {
    assert log[..i + 1][..i] == log[..i];
    hide Apply;
  }

  // Locks.

  predicate Inside<R, E>(o: Op<R, E>) {
    o.Entered? || o.Loaded? || o.Leaving?
  }

  /** Nobody is inside together with another under the same name. */
  ghost predicate Exclusive<R, E>(s: Shared<R, E>) {
    && (forall p :: p in s.ops && Inside(s.ops[p]) ==> s.ops[p].name in s.held)
    && (forall p, q ::
          p in s.ops && q in s.ops && Inside(s.ops[p]) && Inside(s.ops[q]) && s.ops[p].name == s.ops[q].name ==> p == q)
  }

  /** What a call has loaded is what is stored. */
  ghost predicate Current<R, E>(acct: Accounts, s: Shared<R, E>) {
    forall p :: p in s.ops ==> CurrentOp(acct, s.records, s.ops[p])
  }

  ghost predicate CurrentOp<R, E>(acct: Accounts, records: map<Name, R>, o: Op<R, E>) {
    o.Loaded? ==> acct(o.name) in records && records[acct(o.name)] == o.r
  }

  ghost predicate CallsIn<R, E>(s: Shared<R, E>, n: iset<Name>) {
    forall p :: p in s.ops && !s.ops[p].Done? ==> s.ops[p].name in n
  }

  ghost predicate Locked<R, E>(acct: Accounts, f: Closure<R, E>, n: iset<Name>, records: map<Name, R>, s: Shared<R, E>) {
    Exclusive(s) && Current(acct, s) && CallsIn(s, n) && OneAfterAnother(f, records, s)
  }

  lemma OpExclusive<R, E>(acct: Accounts, f: Closure<R, E>, s: Shared<R, E>, pid: Pid)
    requires Exclusive(s) && pid in s.ops
    ensures Exclusive(OpStep(acct, f, s, pid))
  {
  }

  /** A save under one name leaves what the others loaded as it is stored. */
  lemma OpCurrent<R, E>(acct: Accounts, f: Closure<R, E>, n: iset<Name>, s: Shared<R, E>, pid: Pid)
    requires OneSpelling(acct, n) && Exclusive(s) && Current(acct, s) && CallsIn(s, n) && pid in s.ops
    ensures Current(acct, OpStep(acct, f, s, pid))
  {
    var s' := OpStep(acct, f, s, pid);
    forall p | p in s'.ops
      ensures CurrentOp(acct, s'.records, s'.ops[p])
    {
      assert p in s.ops && CurrentOp(acct, s.records, s.ops[p]);
      if p != pid && s.ops[p].Loaded? && s.ops[pid].Loaded? {
        assert s.ops[p].name != s.ops[pid].name;
        assert acct(s.ops[p].name) != acct(s.ops[pid].name);
      }
    }
  }

  lemma OpSerial<R, E>(acct: Accounts, f: Closure<R, E>, records: map<Name, R>, s: Shared<R, E>, pid: Pid)
    requires Current(acct, s) && OneAfterAnother(f, records, s) && pid in s.ops
    ensures OneAfterAnother(f, records, OpStep(acct, f, s, pid))
  {
    var o := s.ops[pid];
    assert CurrentOp(acct, s.records, o);
    hide Right;
    hide Replay;
    if o.Loaded? {
      LogSnoc(f, records, s.log, Ran(pid, acct(o.name), o.e, f(o.r, o.e).1));
    }
    if o.Entered? && acct(o.name) !in s.records {
      LogSnoc(f, records, s.log, Missed(pid, acct(o.name)));
    }
  }

  /** A call that comes in, or an account that opens, disturbs nothing. */
  lemma QuietCurrent<R, E>(acct: Accounts, f: Closure<R, E>, s: Shared<R, E>, m: Move<R, E>)
    requires Exclusive(s) && Current(acct, s) && !m.Go?
    ensures Exclusive(MoveStep(acct, f, s, m)) && Current(acct, MoveStep(acct, f, s, m))
  {
    var s' := MoveStep(acct, f, s, m);
    forall p | p in s'.ops
      ensures CurrentOp(acct, s'.records, s'.ops[p])
    {
      assert p in s.ops ==> CurrentOp(acct, s.records, s.ops[p]);
    }
    hide CurrentOp;
  }

  lemma QuietSerial<R, E>(acct: Accounts, f: Closure<R, E>, records: map<Name, R>, s: Shared<R, E>, m: Move<R, E>)
    requires OneAfterAnother(f, records, s) && !m.Go?
    ensures OneAfterAnother(f, records, MoveStep(acct, f, s, m))
  {
    hide Right;
    hide Replay;
    if m.Open? && acct(m.name) == m.name && m.name !in s.held && m.name !in s.records {
      LogSnoc(f, records, s.log, Opened(m.name, m.r));
    }
  }

  lemma StepCalls<R, E>(acct: Accounts, f: Closure<R, E>, n: iset<Name>, s: Shared<R, E>, m: Move<R, E>)
    requires CallsIn(s, n) && (m.Call? ==> m.name in n)
    ensures CallsIn(MoveStep(acct, f, s, m), n)
  {
  }

  lemma MoveLocked<R, E>(acct: Accounts, f: Closure<R, E>, n: iset<Name>, records: map<Name, R>, s: Shared<R, E>, m: Move<R, E>)
    requires OneSpelling(acct, n) && Locked(acct, f, n, records, s) && (m.Call? ==> m.name in n)
    ensures Locked(acct, f, n, records, MoveStep(acct, f, s, m))
  {
    StepCalls(acct, f, n, s, m);
    hide Exclusive;
    hide Current;
    hide OneAfterAnother;
    hide OneSpelling;
    hide OpStep;
    if m.Go? {
      if m.pid in s.ops {
        OpExclusive(acct, f, s, m.pid);
        OpCurrent(acct, f, n, s, m.pid);
        OpSerial(acct, f, records, s, m.pid);
      }
    } else {
      QuietCurrent(acct, f, s, m);
      QuietSerial(acct, f, records, s, m);
    }
    hide CallsIn;
  }

  lemma {:induction false} RunLocked<R, E>(acct: Accounts, f: Closure<R, E>, n: iset<Name>, records: map<Name, R>,
      s: Shared<R, E>, moves: seq<Move<R, E>>)
    requires OneSpelling(acct, n) && Locked(acct, f, n, records, s) && CallsFrom(moves, n)
    ensures Locked(acct, f, n, records, RunMoves(acct, f, s, moves))
    decreases |moves|
  {
    if moves != [] {
      MoveLocked(acct, f, n, records, s, moves[0]);
      hide Locked;
      hide MoveStep;
      RunLocked(acct, f, n, records, MoveStep(acct, f, s, moves[0]), moves[1..]);
    }
  }

  // Two spellings.

  /** Both take their locks, both load, both save. */
  function Overlapped<R, E>(p: Pid, q: Pid, u: Name, v: Name, e: E): seq<Move<R, E>> {
    [Call(p, u, e), Call(q, v, e), Go(p), Go(q), Go(p), Go(q), Go(p), Go(q), Go(p), Go(q)]
  }

  lemma MoveFirst<R, E>(acct: Accounts, f: Closure<R, E>, s: Shared<R, E>, m: Move<R, E>, rest: seq<Move<R, E>>)
    ensures RunMoves(acct, f, s, [m] + rest) == RunMoves(acct, f, MoveStep(acct, f, s, m), rest)
  {
    assert ([m] + rest)[1..] == rest;
  }

  function Two<R, E>(s: Shared<R, E>, p: Pid, q: Pid, a: Op<R, E>, b: Op<R, E>): Shared<R, E> {
    s.(ops := s.ops[p := a][q := b])
  }

  lemma FirstGoes<R, E>(acct: Accounts, f: Closure<R, E>, s: Shared<R, E>, s': Shared<R, E>, p: Pid, q: Pid,
      a: Op<R, E>, a': Op<R, E>, b: Op<R, E>, rest: seq<Move<R, E>>)
    requires p != q && OpStep(acct, f, Two(s, p, q, a, b), p) == s'.(ops := Two(s, p, q, a, b).ops[p := a']) && s'.ops == s.ops
    ensures RunMoves(acct, f, Two(s, p, q, a, b), [Go(p)] + rest) == RunMoves(acct, f, Two(s', p, q, a', b), rest)
  {
    MoveFirst(acct, f, Two(s, p, q, a, b), Go(p), rest);
    hide RunMoves;
    hide OpStep;
    assert s.ops[p := a][q := b][p := a'] == s.ops[p := a'][q := b];
  }

  lemma SecondGoes<R, E>(acct: Accounts, f: Closure<R, E>, s: Shared<R, E>, s': Shared<R, E>, p: Pid, q: Pid,
      a: Op<R, E>, b: Op<R, E>, b': Op<R, E>, rest: seq<Move<R, E>>)
    requires p != q && OpStep(acct, f, Two(s, p, q, a, b), q) == s'.(ops := Two(s, p, q, a, b).ops[q := b']) && s'.ops == s.ops
    ensures RunMoves(acct, f, Two(s, p, q, a, b), [Go(q)] + rest) == RunMoves(acct, f, Two(s', p, q, a, b'), rest)
  {
    MoveFirst(acct, f, Two(s, p, q, a, b), Go(q), rest);
    hide RunMoves;
    hide OpStep;
    assert s.ops[p := a][q := b][q := b'] == s.ops[p := a][q := b'];
  }

  /** Both locked and loaded the same record. */
  lemma BothLoad<R, E>(acct: Accounts, f: Closure<R, E>, s: Shared<R, E>, p: Pid, q: Pid, u: Name, v: Name, e: E,
      rest: seq<Move<R, E>>)
    requires p != q && p !in s.ops && q !in s.ops && u != v && acct(u) == acct(v)
    requires u !in s.held && v !in s.held && acct(u) in s.records
    ensures var r := s.records[acct(u)];
            RunMoves(acct, f, s, [Call(p, u, e)] + ([Call(q, v, e)] + ([Go(p)] + ([Go(q)] + ([Go(p)] + ([Go(q)] + rest))))))
            == RunMoves(acct, f, Two(s.(held := s.held + {u} + {v}), p, q, Loaded(u, e, r), Loaded(v, e, r)), rest)
  {
    var r := s.records[acct(u)];
    var s1 := s.(held := s.held + {u});
    var s2 := s.(held := s.held + {u} + {v});
    var m6 := [Go(q)] + rest;
    var m5 := [Go(p)] + m6;
    var m4 := [Go(q)] + m5;
    var m3 := [Go(p)] + m4;
    var m2 := [Call(q, v, e)] + m3;
    MoveFirst(acct, f, s, Call(p, u, e), m2);
    MoveFirst(acct, f, s.(ops := s.ops[p := Waiting(u, e)]), Call(q, v, e), m3);
    hide RunMoves;
    FirstGoes(acct, f, s, s1, p, q, Waiting(u, e), Entered(u, e), Waiting(v, e), m4);
    SecondGoes(acct, f, s1, s2, p, q, Entered(u, e), Waiting(v, e), Entered(v, e), m5);
    FirstGoes(acct, f, s2, s2, p, q, Entered(u, e), Loaded(u, e, r), Entered(v, e), m6);
    SecondGoes(acct, f, s2, s2, p, q, Loaded(u, e, r), Entered(v, e), Loaded(v, e, r), rest);
  }

  /** Both save what the closure makes of it. */
  lemma BothSave<R, E>(acct: Accounts, f: Closure<R, E>, s: Shared<R, E>, p: Pid, q: Pid, u: Name, v: Name, e: E, r: R)
    requires p != q && acct(u) == acct(v) && u != v && u in s.held && v in s.held && f(r, e).1
    ensures var a := acct(u);
            RunMoves(acct, f, Two(s, p, q, Loaded(u, e, r), Loaded(v, e, r)), [Go(p)] + ([Go(q)] + ([Go(p)] + ([Go(q)] + []))))
            == Two(Shared(s.records[a := f(r, e).0], s.held - {u} - {v}, s.ops,
                          s.log + [Ran(p, a, e, true)] + [Ran(q, a, e, true)]),
                   p, q, Done(true), Done(true))
  {
    var a, r' := acct(u), f(r, e).0;
    var s1 := s.(records := s.records[a := r'], log := s.log + [Ran(p, a, e, true)]);
    var s2 := s1.(log := s1.log + [Ran(q, a, e, true)]);
    var s3 := s2.(held := s.held - {u});
    var s4 := s2.(held := s.held - {u} - {v});
    assert s1.records[a := r'] == s1.records;
    var m4: seq<Move<R, E>> := [Go(q)] + [];
    var m3 := [Go(p)] + m4;
    var m2 := [Go(q)] + m3;
    FirstGoes(acct, f, s, s1, p, q, Loaded(u, e, r), Leaving(u, true), Loaded(v, e, r), m2);
    SecondGoes(acct, f, s1, s2, p, q, Leaving(u, true), Loaded(v, e, r), Leaving(v, true), m3);
    FirstGoes(acct, f, s2, s3, p, q, Leaving(u, true), Done(true), Leaving(v, true), m4);
    SecondGoes(acct, f, s3, s4, p, q, Done(true), Leaving(v, true), Done(true), []);
  }

  /**
   From any state in which both locks are free: two calls under two names of one account overlap, and both
   are told yes whenever the closure says yes to the record as it was.
   */
  lemma BothAccepted<R, E>(acct: Accounts, f: Closure<R, E>, s: Shared<R, E>, p: Pid, q: Pid, u: Name, v: Name, e: E)
    requires p != q && p !in s.ops && q !in s.ops && u != v && acct(u) == acct(v)
    requires u !in s.held && v !in s.held && acct(u) in s.records && f(s.records[acct(u)], e).1
    ensures var a := acct(u);
            RunMoves(acct, f, s, Overlapped(p, q, u, v, e))
            == Shared(s.records[a := f(s.records[a], e).0], s.held, s.ops[p := Done(true)][q := Done(true)],
                      s.log + [Ran(p, a, e, true), Ran(q, a, e, true)])
  {
    var r := s.records[acct(u)];
    var tail: seq<Move<R, E>> := [Go(p)] + ([Go(q)] + ([Go(p)] + ([Go(q)] + [])));
    var s2 := s.(held := s.held + {u} + {v});
    BothLoad(acct, f, s, p, q, u, v, e, tail);
    BothSave(acct, f, s2, p, q, u, v, e, r);
    hide RunMoves;
    assert Overlapped(p, q, u, v, e)
        == [Call(p, u, e)] + ([Call(q, v, e)] + ([Go(p)] + ([Go(q)] + ([Go(p)] + ([Go(q)] + tail)))));
    assert s.held + {u} + {v} - {u} - {v} == s.held;
  }

  /** A closure that takes e once from r. */
  predicate SingleUse<R, E>(f: Closure<R, E>, r: R, e: E) {
    f(r, e).1 && !f(f(r, e).0, e).1
  }

  ghost predicate SerialThere<R, E>(acct: Accounts, f: Closure<R, E>, n: iset<Name>, records: map<Name, R>,
      moves: seq<Move<R, E>>) {
    CallsFrom(moves, n) ==> OneAfterAnother(f, records, RunMoves(acct, f, Start(records), moves))
  }

  /**
   For every closure that takes something once: over all runs whose calls use names from n the closures run
   one after another, exactly when no two names in n lead to one account.
   */
  lemma SerialExactly<R(!new), E(!new)>(acct: Accounts, f: Closure<R, E>, n: iset<Name>, r: R, e: E)
    requires SingleUse(f, r, e)
    ensures (forall records, moves :: SerialThere(acct, f, n, records, moves)) <==> OneSpelling(acct, n)
  {
    if OneSpelling(acct, n) {
      forall records, moves
        ensures SerialThere(acct, f, n, records, moves)
      {
        SerialHolds(acct, f, n, records, moves);
      }
    } else {
      var u, v :| u in n && v in n && acct(u) == acct(v) && u != v;
      SerialFails(acct, f, n, u, v, r, e);
      hide SerialThere;
    }
  }

  lemma SerialHolds<R, E>(acct: Accounts, f: Closure<R, E>, n: iset<Name>, records: map<Name, R>, moves: seq<Move<R, E>>)
    requires OneSpelling(acct, n)
    ensures SerialThere(acct, f, n, records, moves)
  {
    if CallsFrom(moves, n) {
      assert Locked(acct, f, n, records, Start(records));
      RunLocked(acct, f, n, records, Start(records), moves);
    }
  }

  lemma SerialFails<R, E>(acct: Accounts, f: Closure<R, E>, n: iset<Name>, u: Name, v: Name, r: R, e: E)
    requires u in n && v in n && acct(u) == acct(v) && u != v && SingleUse(f, r, e)
    ensures !SerialThere(acct, f, n, map[acct(u) := r], Overlapped(0, 1, u, v, e))
  {
    var a := acct(u);
    var records := map[a := r];
    BothAccepted(acct, f, Start(records), 0, 1, u, v, e);
    TwiceWrong(f, records, a, e);
    var log: seq<Entry<R, E>> := [Ran(0, a, e, true), Ran(1, a, e, true)];
    assert Start<R, E>(records).log + log == log;
    hide RunMoves;
    hide Right;
    hide Replay;
  }

  lemma TwiceWrong<R, E>(f: Closure<R, E>, records: map<Name, R>, a: Name, e: E)
    requires a in records && SingleUse(f, records[a], e)
    ensures !Right(f, records, [Ran(0, a, e, true), Ran(1, a, e, true)])
  {
    var x: Entry<R, E> := Ran(0, a, e, true);
    var y: Entry<R, E> := Ran(1, a, e, true);
    assert [x, y][..1] == [x] && [x][..0] == [];
    assert Replay(f, records, [x]) == records[a := f(records[a], e).0];
  }

  // Answers.

  predicate Answers<R, E>(x: Entry<R, E>, p: Pid, ok: bool) {
    (x.Ran? && x.pid == p && x.ok == ok) || (x.Missed? && x.pid == p && !ok)
  }

  ghost predicate AnsweredOp<R, E>(log: seq<Entry<R, E>>, p: Pid, o: Op<R, E>) {
    o.Leaving? || o.Done? ==> exists i :: 0 <= i < |log| && Answers(log[i], p, o.ok)
  }

  ghost predicate AllAnswered<R, E>(s: Shared<R, E>) {
    forall p :: p in s.ops ==> AnsweredOp(s.log, p, s.ops[p])
  }

  lemma AnswerGrows<R, E>(log: seq<Entry<R, E>>, more: seq<Entry<R, E>>, p: Pid, o: Op<R, E>)
    requires AnsweredOp(log, p, o)
    ensures AnsweredOp(log + more, p, o)
  {
    if o.Leaving? || o.Done? {
      var i :| 0 <= i < |log| && Answers(log[i], p, o.ok);
      assert (log + more)[i] == log[i];
    }
  }

  /** What a call is told is what the log says of it, whatever names are in use. */
  lemma {:induction false} RunAnswers<R, E>(acct: Accounts, f: Closure<R, E>, s: Shared<R, E>, moves: seq<Move<R, E>>)
    requires AllAnswered(s)
    ensures AllAnswered(RunMoves(acct, f, s, moves))
    decreases |moves|
  {
    if moves != [] {
      var s' := MoveStep(acct, f, s, moves[0]);
      forall p | p in s'.ops
        ensures AnsweredOp(s'.log, p, s'.ops[p])
      {
        MoveAnswers(acct, f, s, moves[0], p);
      }
      hide MoveStep;
      hide AnsweredOp;
      RunAnswers(acct, f, s', moves[1..]);
    }
  }

  lemma MoveAnswers<R, E>(acct: Accounts, f: Closure<R, E>, s: Shared<R, E>, m: Move<R, E>, p: Pid)
    requires AllAnswered(s) && p in MoveStep(acct, f, s, m).ops
    ensures AnsweredOp(MoveStep(acct, f, s, m).log, p, MoveStep(acct, f, s, m).ops[p])
  {
    var s' := MoveStep(acct, f, s, m);
    var more := s'.log[|s.log|..];
    assert s'.log == s.log + more;
    if p in s.ops {
      AnswerGrows(s.log, more, p, s.ops[p]);
    }
    if m.Go? && m.pid == p && |more| == 1 {
      assert Answers(s'.log[|s.log|], p, s'.ops[p].ok);
    }
  }
}
