/**
 Single-use second factors over every interleaving of logins and settings changes, each one `update` of the
 user's record (web/accounts.go). What was accepted is read off the calls' own answers. The bounds hold
 exactly when no two of the names in use lead to one account; under two names of one account, two logins
 that overlap both get in with one code (a login keeps the name as it was typed).
 */
module SecondFactorRuns {
  import opened Bytes
  import opened Names
  import opened AccountLock
  import F = SecondFactor
  import Totp

  type Log = seq<Entry<F.Record, F.Event>>
  type Moves = seq<Move<F.Record, F.Event>>

  function After(acct: Accounts, records: map<Name, F.Record>, moves: Moves): Shared<F.Record, F.Event> {
    RunMoves(acct, F.Step, Start(records), moves)
  }

  /** The closures that ran on an account's record, in order. */
  function EventsOf(log: Log, a: Name): seq<F.Event> {
    if log == [] then []
    else
      var init, x := EventsOf(log[..|log| - 1], a), log[|log| - 1];
      if x.Ran? && x.account == a then init + [x.e] else init
  }

  /** The record the account began with. */
  function Began(records: map<Name, F.Record>, log: Log, a: Name): Option<F.Record> {
    if log == [] then if a in records then Some(records[a]) else None
    else
      var init, x := Began(records, log[..|log| - 1], a), log[|log| - 1];
      if x.Opened? && x.account == a then Some(x.r) else init
  }

  /** The time steps callers were told were accepted on an account, since the replay guard was last reset. */
  function AcceptedLog(log: Log, a: Name): seq<int> {
    if log == [] then []
    else
      var init, x := AcceptedLog(log[..|log| - 1], a), log[|log| - 1];
      if !x.Ran? || x.account != a || !x.ok then init
      else if x.e.Setup? || x.e.Disable? then []
      else if x.e.UseTotp? then init + [x.e.counter]
      else init
  }

  /** The codes an account was told it had last. */
  function IssuedLog(records: map<Name, F.Record>, log: Log, a: Name): seq<string> {
    if log == [] then if a in records then records[a].codes else []
    else
      var init, x := IssuedLog(records, log[..|log| - 1], a), log[|log| - 1];
      if x.Opened? && x.account == a then x.r.codes
      else if !x.Ran? || x.account != a || !x.ok then init
      else if x.e.Enable? || x.e.Regenerate? then x.e.hashes
      else if x.e.Disable? then []
      else init
  }

  /** How often callers were told that h was accepted, since. */
  function UsesLog(log: Log, a: Name, h: string): nat {
    if log == [] then 0
    else
      var init, x := UsesLog(log[..|log| - 1], a, h), log[|log| - 1];
      if !x.Ran? || x.account != a || !x.ok then init
      else if F.Issues(x.e) then 0
      else init + F.UsedNow(x.e, true, h)
  }

  /** On a log of closures run one after another, an account's record and answers are those of its own closures. */
  ghost predicate Told(records: map<Name, F.Record>, log: Log, a: Name, h: string) {
    var (m, events) := (Replay(F.Step, records, log), EventsOf(log, a));
    match Began(records, log, a)
    case None => a !in m && events == [] && AcceptedLog(log, a) == [] && UsesLog(log, a, h) == 0
    case Some(u) =>
      && a in m && m[a] == F.Run(u, events)
      && AcceptedLog(log, a) == F.Accepted(u, events)
      && IssuedLog(records, log, a) == F.Issued(u, events)
      && UsesLog(log, a, h) == F.Uses(u, events, h)
  }

  /** One more closure on the record. */
  lemma RunMore(u: F.Record, events: seq<F.Event>, e: F.Event, h: string)
    ensures var (before, longer) := (F.Run(u, events), events + [e]);
            var (after, ok) := F.Step(before, e);
            && F.Run(u, longer) == after
            && F.Accepted(u, longer) == (if F.Resets(before, e) then []
                                         else if e.UseTotp? && ok then F.Accepted(u, events) + [e.counter]
                                         else F.Accepted(u, events))
            && F.Issued(u, longer) == (if F.Issues(e) && ok then after.codes else F.Issued(u, events))
            && F.Uses(u, longer, h) == (if F.Issues(e) && ok then 0 else F.Uses(u, events, h) + F.UsedNow(e, ok, h))
  {
    assert (events + [e])[..|events|] == events;
    hide F.Step;
  }

  lemma NoEvents(u: F.Record, h: string)
    ensures F.Run(u, []) == u && F.Accepted(u, []) == [] && F.Issued(u, []) == u.codes && F.Uses(u, [], h) == 0
  {
  }

  /** What one more entry adds to what an account was told. */
  lemma {:induction false} LogMore(records: map<Name, F.Record>, init: Log, x: Entry<F.Record, F.Event>, a: Name, h: string)
    ensures var (log, mine) := (init + [x], x.Ran? && x.account == a);
            && EventsOf(log, a) == (if mine then EventsOf(init, a) + [x.e] else EventsOf(init, a))
            && Began(records, log, a) == (if x.Opened? && x.account == a then Some(x.r) else Began(records, init, a))
            && AcceptedLog(log, a) == (if !mine || !x.ok then AcceptedLog(init, a)
                                       else if x.e.Setup? || x.e.Disable? then []
                                       else if x.e.UseTotp? then AcceptedLog(init, a) + [x.e.counter]
                                       else AcceptedLog(init, a))
            && Replay(F.Step, records, log) == Apply(F.Step, Replay(F.Step, records, init), x)
  {
    assert (init + [x])[..|init|] == init;
    hide F.Step;
  }

  lemma {:induction false} CodesMore(records: map<Name, F.Record>, init: Log, x: Entry<F.Record, F.Event>, a: Name, h: string)
    ensures var (log, mine) := (init + [x], x.Ran? && x.account == a);
            && IssuedLog(records, log, a) == (if x.Opened? && x.account == a then x.r.codes
                                              else if !mine || !x.ok then IssuedLog(records, init, a)
                                              else if x.e.Enable? || x.e.Regenerate? then x.e.hashes
                                              else if x.e.Disable? then []
                                              else IssuedLog(records, init, a))
            && UsesLog(log, a, h) == (if !mine || !x.ok then UsesLog(init, a, h)
                                      else if F.Issues(x.e) then 0
                                      else UsesLog(init, a, h) + F.UsedNow(x.e, true, h))
  {
    assert (init + [x])[..|init|] == init;
  }

  lemma StepIs(u: F.Record, e: F.Event)
    ensures var (u', ok) := F.Step(u, e);
            && (!ok ==> u' == u)
            && (F.Resets(u, e) <==> ok && (e.Setup? || e.Disable?))
            && (ok && (e.Enable? || e.Regenerate?) ==> u'.codes == e.hashes)
            && (ok && e.Disable? ==> u'.codes == [])
  {
    hide F.WithoutFirst;
  }

  lemma {:induction false} ToldRan(records: map<Name, F.Record>, init: Log, x: Entry<F.Record, F.Event>, a: Name, h: string)
    requires Told(records, init, a, h) && RightAt(F.Step, Replay(F.Step, records, init), x)
    requires x.Ran? && x.account == a
    ensures Told(records, init + [x], a, h)
  {
    LogMore(records, init, x, a, h);
    CodesMore(records, init, x, a, h);
    var u, events := Began(records, init, a).value, EventsOf(init, a);
    RunMore(u, events, x.e, h);
    StepIs(F.Run(u, events), x.e);
    hide F.Run;
    hide F.Accepted;
    hide F.Issued;
    hide F.Uses;
    hide F.Step;
    hide F.Resets;
    hide EventsOf;
    hide Began;
    hide AcceptedLog;
    hide IssuedLog;
    hide UsesLog;
    hide Replay;
  }

  lemma {:induction false} ToldOther(records: map<Name, F.Record>, init: Log, x: Entry<F.Record, F.Event>, a: Name, h: string)
    requires Told(records, init, a, h) && RightAt(F.Step, Replay(F.Step, records, init), x)
    requires !(x.Ran? && x.account == a)
    ensures Told(records, init + [x], a, h)
  {
    LogMore(records, init, x, a, h);
    CodesMore(records, init, x, a, h);
    if x.Opened? && x.account == a {
      NoEvents(x.r, h);
    }
    hide F.Run;
    hide F.Accepted;
    hide F.Issued;
    hide F.Uses;
    hide F.Step;
    hide EventsOf;
    hide Began;
    hide AcceptedLog;
    hide IssuedLog;
    hide UsesLog;
    hide Replay;
  }

  lemma {:induction false} RightIsTold(records: map<Name, F.Record>, log: Log, a: Name, h: string)
    requires Right(F.Step, records, log)
    ensures Told(records, log, a, h)
  {
    if log == [] {
      if a in records {
        NoEvents(records[a], h);
      }
    } else {
      var init, x := log[..|log| - 1], log[|log| - 1];
      RightIsTold(records, init, a, h);
      assert log == init + [x];
      hide Told;
      hide Replay;
      if x.Ran? && x.account == a {
        ToldRan(records, init, x, a, h);
      } else {
        ToldOther(records, init, x, a, h);
      }
    }
  }

  // What holds while every account goes by one name.

  /** The record is its own closures', in a row, and its answers are theirs. */
  lemma {:induction false} AfterTold(acct: Accounts, n: iset<Name>, records: map<Name, F.Record>, moves: Moves,
      a: Name, h: string)
    requires OneSpelling(acct, n) && CallsFrom(moves, n)
    ensures var s := After(acct, records, moves);
            Told(records, s.log, a, h) && s.records == Replay(F.Step, records, s.log)
  {
    SerialHolds(acct, F.Step, n, records, moves);
    RightIsTold(records, After(acct, records, moves).log, a, h);
    hide Told;
    hide Right;
    hide Replay;
    hide RunMoves;
  }

  /** Accepted time steps only increase. */
  lemma {:induction false} AcceptedUp(acct: Accounts, n: iset<Name>, records: map<Name, F.Record>, moves: Moves, a: Name)
    requires OneSpelling(acct, n) && CallsFrom(moves, n)
    ensures F.Increasing(AcceptedLog(After(acct, records, moves).log, a))
  {
    var log := After(acct, records, moves).log;
    AfterTold(acct, n, records, moves, a, "");
    if Began(records, log, a).Some? {
      F.AcceptedIncrease(Began(records, log, a).value, EventsOf(log, a));
    }
    hide F.Accepted;
    hide F.Run;
    hide F.Issued;
    hide F.Uses;
    hide AcceptedLog;
    hide RunMoves;
  }

  /**
   However logins interleave, codes checked between t0 and t1 are accepted on an account at most
   t1/30 - t0/30 + 3 times between resets.
   */
  lemma {:induction false} TotpBound(acct: Accounts, n: iset<Name>, records: map<Name, F.Record>, moves: Moves,
      a: Name, t0: nat, t1: nat)
    requires OneSpelling(acct, n) && CallsFrom(moves, n) && t0 <= t1
    requires F.CheckedWithin(EventsOf(After(acct, records, moves).log, a), t0, t1)
    ensures |AcceptedLog(After(acct, records, moves).log, a)| <= t1 / Totp.PERIOD - t0 / Totp.PERIOD + 3
  {
    var log := After(acct, records, moves).log;
    AfterTold(acct, n, records, moves, a, "");
    if Began(records, log, a).Some? {
      F.TotpAcceptances(Began(records, log, a).value, EventsOf(log, a), t0, t1);
    }
    assert t0 / Totp.PERIOD <= t1 / Totp.PERIOD;
    hide F.Accepted;
    hide F.Run;
    hide F.Issued;
    hide F.Uses;
    hide AcceptedLog;
    hide RunMoves;
    hide F.CheckedWithin;
  }

  ghost predicate CodesAddUp(records: map<Name, F.Record>, s: Shared<F.Record, F.Event>, a: Name, h: string) {
    a in s.records ==>
      UsesLog(s.log, a, h) + F.Count(s.records[a].codes, h) == F.Count(IssuedLog(records, s.log, a), h)
  }

  /**
   Of each recovery code, the uses since codes were last issued and the copies still stored add up to the
   copies issued, and what is stored is in the order it was issued.
   */
  lemma {:induction false} CodesKept(acct: Accounts, n: iset<Name>, records: map<Name, F.Record>, moves: Moves,
      a: Name, h: string)
    requires OneSpelling(acct, n) && CallsFrom(moves, n)
    ensures var s := After(acct, records, moves);
            CodesAddUp(records, s, a, h) && (a in s.records ==> F.InOrder(s.records[a].codes, IssuedLog(records, s.log, a)))
  {
    var log := After(acct, records, moves).log;
    AfterTold(acct, n, records, moves, a, h);
    if Began(records, log, a).Some? {
      F.CodesConserved(Began(records, log, a).value, EventsOf(log, a), h);
    }
    hide F.Accepted;
    hide F.Run;
    hide F.Issued;
    hide F.Uses;
    hide F.InOrder;
    hide F.Count;
    hide IssuedLog;
    hide UsesLog;
    hide Replay;
    hide RunMoves;
  }

  /** A code issued once lets at most one login in until codes are issued again. */
  lemma {:induction false} RecoveryOnce(acct: Accounts, n: iset<Name>, records: map<Name, F.Record>, moves: Moves,
      a: Name, h: string)
    requires OneSpelling(acct, n) && CallsFrom(moves, n)
    requires F.Count(IssuedLog(records, After(acct, records, moves).log, a), h) <= 1
    ensures UsesLog(After(acct, records, moves).log, a, h) <= 1
  {
    var log := After(acct, records, moves).log;
    AfterTold(acct, n, records, moves, a, h);
    if Began(records, log, a).Some? {
      F.RecoveryOnce(Began(records, log, a).value, EventsOf(log, a), h);
    }
    hide F.Accepted;
    hide F.Run;
    hide F.Issued;
    hide F.Uses;
    hide F.Count;
    hide IssuedLog;
    hide UsesLog;
    hide Replay;
    hide RunMoves;
  }

  /** The k-th closure on an account's record is in the log, with the answer it gives on the record then. */
  lemma {:induction false} LogEvent(records: map<Name, F.Record>, log: Log, a: Name, u: F.Record, k: nat) returns (i: nat)
    requires Right(F.Step, records, log) && Began(records, log, a) == Some(u) && k < |EventsOf(log, a)|
    ensures i < |log| && log[i].Ran? && log[i].account == a && log[i].e == EventsOf(log, a)[k]
    ensures log[i].ok == F.Step(F.Run(u, EventsOf(log, a)[..k]), log[i].e).1
    ensures var m := Replay(F.Step, records, log[..i]);
            a in m && m[a] == F.Run(u, EventsOf(log, a)[..k])
  {
    var init, x := log[..|log| - 1], log[|log| - 1];
    var events, before := EventsOf(log, a), EventsOf(init, a);
    RightIsTold(records, init, a, "");
    assert log == init + [x];
    LogMore(records, init, x, a, "");
    hide F.Run;
    hide F.Accepted;
    hide F.Issued;
    hide F.Uses;
    hide F.Step;
    hide EventsOf;
    hide Began;
    hide AcceptedLog;
    hide IssuedLog;
    hide UsesLog;
    hide Replay;
    if x.Ran? && x.account == a && k == |before| {
      i := |log| - 1;
      assert events[..k] == before;
    } else {
      i := LogEvent(records, init, a, u, k);
      assert init[..i] == log[..i] && events[..k] == before[..k];
    }
  }

  /**
   A factor that was on and is off was turned off by a new secret, or by a disable whose code verified, and its
   caller told so.
   */
  lemma {:induction false} FactorOff(acct: Accounts, n: iset<Name>, records: map<Name, F.Record>, moves: Moves, a: Name)
    returns (i: nat)
    requires OneSpelling(acct, n) && CallsFrom(moves, n)
    requires var s := After(acct, records, moves);
             && Began(records, s.log, a).Some? && Began(records, s.log, a).value.enabled
             && a in s.records && !s.records[a].enabled
    ensures var log := After(acct, records, moves).log;
            i < |log| && log[i].Ran? && log[i].account == a && log[i].ok && F.MayTurnOff(log[i].e)
  {
    var log := After(acct, records, moves).log;
    SerialHolds(acct, F.Step, n, records, moves);
    AfterTold(acct, n, records, moves, a, "");
    var u := Began(records, log, a).value;
    var k := F.TurnedOff(u, EventsOf(log, a));
    i := LogEvent(records, log, a, u, k);
    F.RunNext(u, EventsOf(log, a), k);
    StepIs(F.Run(u, EventsOf(log, a)[..k]), EventsOf(log, a)[k]);
    hide F.Run;
    hide F.Accepted;
    hide F.Issued;
    hide F.Uses;
    hide F.Step;
    hide EventsOf;
    hide RunMoves;
    hide AcceptedLog;
    hide IssuedLog;
    hide UsesLog;
    hide Replay;
    hide Right;
  }

  /**
   A factor that is on and was off was turned on by an enable whose code verified against a secret stored then,
   and its caller told so.
   */
  lemma {:induction false} FactorOn(acct: Accounts, n: iset<Name>, records: map<Name, F.Record>, moves: Moves, a: Name)
    returns (i: nat)
    requires OneSpelling(acct, n) && CallsFrom(moves, n)
    requires var s := After(acct, records, moves);
             && Began(records, s.log, a).Some? && !Began(records, s.log, a).value.enabled
             && a in s.records && s.records[a].enabled
    ensures var log := After(acct, records, moves).log;
            && i < |log| && log[i].Ran? && log[i].account == a && log[i].ok && log[i].e.Enable? && log[i].e.valid
            && a in Replay(F.Step, records, log[..i]) && Replay(F.Step, records, log[..i])[a].hasSecret
  {
    var log := After(acct, records, moves).log;
    SerialHolds(acct, F.Step, n, records, moves);
    AfterTold(acct, n, records, moves, a, "");
    var u := Began(records, log, a).value;
    var k := F.TurnedOn(u, EventsOf(log, a));
    i := LogEvent(records, log, a, u, k);
    F.EnableIs(F.Run(u, EventsOf(log, a)[..k]));
    hide F.Run;
    hide F.Accepted;
    hide F.Issued;
    hide F.Uses;
    hide F.Step;
    hide EventsOf;
    hide RunMoves;
    hide AcceptedLog;
    hide IssuedLog;
    hide UsesLog;
    hide Replay;
    hide Right;
  }

  /** A disable told yes verified its code, or found the factor off; one told no changed nothing. */
  lemma {:induction false} DisableTold(acct: Accounts, n: iset<Name>, records: map<Name, F.Record>, moves: Moves, i: nat)
    requires OneSpelling(acct, n) && CallsFrom(moves, n)
    requires i < |After(acct, records, moves).log| && After(acct, records, moves).log[i].Ran?
    requires After(acct, records, moves).log[i].e.Disable?
    ensures var log := After(acct, records, moves).log;
            var (x, before, after) := (log[i], Replay(F.Step, records, log[..i]), Replay(F.Step, records, log[..i + 1]));
            && x.account in before
            && (x.ok ==> x.e.valid || !before[x.account].enabled)
            && (!x.ok ==> after == before)
  {
    var log := After(acct, records, moves).log;
    SerialHolds(acct, F.Step, n, records, moves);
    RightThere(F.Step, records, log, i);
    ReplayNext(F.Step, records, log, i);
    F.FactorStep(Replay(F.Step, records, log[..i])[log[i].account], log[i].e);
    hide F.Step;
    hide RunMoves;
    hide Replay;
    hide Right;
  }

  // What two names of one account do.

  /** On any record: two overlapping logins under two names are both accepted with one code for any later time step. */
  lemma CodeTwice(acct: Accounts, records: map<Name, F.Record>, u: Name, v: Name, at: nat, c: int)
    requires u != v && acct(u) == acct(v) && acct(u) in records && c > records[acct(u)].lastUsed
    ensures var s := After(acct, records, Overlapped(0, 1, u, v, F.UseTotp(at, c)));
            s.ops == map[0 := Done(true), 1 := Done(true)] && AcceptedLog(s.log, acct(u)) == [c, c]
  {
    var a, e := acct(u), F.UseTotp(at, c);
    BothAccepted(acct, F.Step, Start(records), 0, 1, u, v, e);
    var x: Entry<F.Record, F.Event> := Ran(0, a, e, true);
    var y: Entry<F.Record, F.Event> := Ran(1, a, e, true);
    LogTwo(records, x, y, a);
    assert Start<F.Record, F.Event>(records).log + [x, y] == [x, y];
    hide RunMoves;
    hide AcceptedLog;
    hide F.WithoutFirst;
  }

  lemma LogTwo(records: map<Name, F.Record>, x: Entry<F.Record, F.Event>, y: Entry<F.Record, F.Event>, a: Name)
    requires x.Ran? && y.Ran? && x.account == y.account == a && x.ok && y.ok && x.e == y.e
    ensures x.e.UseTotp? ==> AcceptedLog([x, y], a) == [x.e.counter, x.e.counter]
    ensures x.e.UseRecovery? ==> UsesLog([x, y], a, x.e.hash) == 2
    ensures x.e.UseRecovery? ==> IssuedLog(records, [x, y], a) == if a in records then records[a].codes else []
  {
    assert [] + [x] == [x] && [x] + [y] == [x, y];
    LogMore(records, [], x, a, "");
    LogMore(records, [x], y, a, "");
    if x.e.UseRecovery? {
      CodesMore(records, [], x, a, x.e.hash);
      CodesMore(records, [x], y, a, x.e.hash);
    }
    LogNone(records, a, if x.e.UseRecovery? then x.e.hash else "");
    hide AcceptedLog;
    hide UsesLog;
    hide IssuedLog;
  }

  lemma LogNone(records: map<Name, F.Record>, a: Name, h: string)
    ensures AcceptedLog([], a) == [] && UsesLog([], a, h) == 0
    ensures IssuedLog(records, [], a) == if a in records then records[a].codes else []
  {
  }

  /** And with one stored copy of a recovery code. */
  lemma RecoveryTwice(acct: Accounts, records: map<Name, F.Record>, u: Name, v: Name, h: string)
    requires u != v && acct(u) == acct(v) && acct(u) in records && h in records[acct(u)].codes
    ensures var s := After(acct, records, Overlapped(0, 1, u, v, F.UseRecovery(h)));
            && s.ops == map[0 := Done(true), 1 := Done(true)] && UsesLog(s.log, acct(u), h) == 2
            && s.records == records[acct(u) := records[acct(u)].(codes := F.WithoutFirst(records[acct(u)].codes, h))]
            && IssuedLog(records, s.log, acct(u)) == records[acct(u)].codes
  {
    var a, e := acct(u), F.UseRecovery(h);
    BothAccepted(acct, F.Step, Start(records), 0, 1, u, v, e);
    var x: Entry<F.Record, F.Event> := Ran(0, a, e, true);
    var y: Entry<F.Record, F.Event> := Ran(1, a, e, true);
    LogTwo(records, x, y, a);
    assert Start<F.Record, F.Event>(records).log + [x, y] == [x, y];
    hide RunMoves;
    hide UsesLog;
    hide IssuedLog;
    hide F.WithoutFirst;
  }

  // The exact conditions.

  ghost predicate StepsUp(acct: Accounts, n: iset<Name>, records: map<Name, F.Record>, moves: Moves, a: Name) {
    CallsFrom(moves, n) ==> F.Increasing(AcceptedLog(After(acct, records, moves).log, a))
  }

  /**
   Over all interleavings of calls under names from n: on no account is a time step accepted twice between
   resets, exactly when no two names in n lead to one account.
   */
  lemma TotpExactly(acct: Accounts, n: iset<Name>)
    ensures (forall records, moves, a :: StepsUp(acct, n, records, moves, a)) <==> OneSpelling(acct, n)
  {
    if OneSpelling(acct, n) {
      forall records, moves, a
        ensures StepsUp(acct, n, records, moves, a)
      {
        if CallsFrom(moves, n) {
          AcceptedUp(acct, n, records, moves, a);
        }
      }
    } else {
      var u, v :| u in n && v in n && acct(u) == acct(v) && u != v;
      StepsRepeat(acct, n, u, v);
      hide StepsUp;
    }
  }

  lemma StepsRepeat(acct: Accounts, n: iset<Name>, u: Name, v: Name)
    requires u in n && v in n && acct(u) == acct(v) && u != v
    ensures !StepsUp(acct, n, map[acct(u) := F.Record(true, true, 0, [])], Overlapped(0, 1, u, v, F.UseTotp(0, 1)), acct(u))
  {
    CodeTwice(acct, map[acct(u) := F.Record(true, true, 0, [])], u, v, 0, 1);
    var twice := [1, 1];
    assert !(twice[0] < twice[1]);
    hide AcceptedLog;
    hide RunMoves;
  }

  ghost predicate AddUp(acct: Accounts, n: iset<Name>, records: map<Name, F.Record>, moves: Moves, a: Name, h: string) {
    CallsFrom(moves, n) ==> CodesAddUp(records, After(acct, records, moves), a, h)
  }

  /**
   Over all interleavings of calls under names from n: every account's recovery codes add up (each issued copy
   is stored or was used, and used once), exactly when no two names in n lead to one account.
   */
  lemma RecoveryExactly(acct: Accounts, n: iset<Name>)
    ensures (forall records, moves, a, h :: AddUp(acct, n, records, moves, a, h)) <==> OneSpelling(acct, n)
  {
    if OneSpelling(acct, n) {
      forall records, moves, a, h
        ensures AddUp(acct, n, records, moves, a, h)
      {
        if CallsFrom(moves, n) {
          CodesKept(acct, n, records, moves, a, h);
        }
      }
    } else {
      var u, v :| u in n && v in n && acct(u) == acct(v) && u != v;
      CodesDiffer(acct, n, u, v);
      hide AddUp;
    }
  }

  lemma CodesDiffer(acct: Accounts, n: iset<Name>, u: Name, v: Name)
    requires u in n && v in n && acct(u) == acct(v) && u != v
    ensures !AddUp(acct, n, map[acct(u) := F.Record(true, true, 0, ["h"])],
                   Overlapped(0, 1, u, v, F.UseRecovery("h")), acct(u), "h")
  {
    RecoveryTwice(acct, map[acct(u) := F.Record(true, true, 0, ["h"])], u, v, "h");
    hide UsesLog;
    hide IssuedLog;
    hide RunMoves;
  }
}
