/** Runs that need no scheduling assumption, and what goes wrong in the runs that do. */
module TeamRuns {
  import opened Bytes
  import opened TeamMachine
  import opened TeamOwner
  import opened TeamAgreement
  import opened TeamNames
  import opened TeamHandlers
  import opened TeamRace

  ghost predicate OnlyCreateInvite(events: seq<Event>) {
    forall i :: 0 <= i < |events| && events[i].Arrive? ==> events[i].req.Create? || events[i].req.Invite?
  }

  ghost predicate NeverDrops(p: Proc) {
    match p
    case Begin(req) => req.Create? || req.Invite?
    case Loaded(req, _) => req.Create? || req.Invite?
    case DropMember(_, _) => false
    case DropLink(_, _) => false
    case _ => true
  }

  lemma {:induction false} CreateInviteCalm(s: State, events: seq<Event>)
    requires Initial(s) && OnlyCreateInvite(events)
    ensures Calm(s, events)
    ensures forall p :: p in Run(s, events).procs ==> NeverDrops(Run(s, events).procs[p])
  {
    if events != [] {
      var init, e := events[..|events| - 1], events[|events| - 1];
      CreateInviteCalm(s, init);
      var r := Run(s, init);
      if e.Advance? && e.pid in r.procs {
        NeverDropsStep(r, r.procs[e.pid], e.newId);
      }
      hide StepProc;
    }
  }

  lemma NeverDropsStep(s: State, p: Proc, id: TeamId)
    requires NeverDrops(p)
    ensures NeverDrops(StepProc(s, p, id).1) && StepProc(s, p, id).0.procs == s.procs
  {
  }

  /** Creates and invites may interleave in any way whatever. */
  lemma CreateInviteAgree(s: State, events: seq<Event>)
    requires Initial(s) && OnlyCreateInvite(events) && Quiet(Run(s, events))
    ensures Agreement(Run(s, events)) && OneTeamPerOwner(Run(s, events))
  {
    CreateInviteCalm(s, events);
    CalmAgrees(s, events);
  }

  /** Each request arrives only when every earlier handler is done. */
  ghost predicate Serial(s: State, events: seq<Event>) {
    events == []
    || (var init, e := events[..|events| - 1], events[|events| - 1];
        && Serial(s, init)
        && (e.Arrive? ==> forall p :: p in Run(s, init).procs ==> Run(s, init).procs[p].Done?))
  }

  ghost predicate AtMostOneActive(s: State) {
    forall p, q :: p in s.procs && q in s.procs && !s.procs[p].Done? && !s.procs[q].Done? ==> p == q
  }

  lemma SerialStep(s: State, e: Event)
    requires AtMostOneActive(s)
    requires e.Arrive? ==> forall p :: p in s.procs ==> s.procs[p].Done?
    ensures AtMostOneActive(Step(s, e))
  {
    hide StepProc;
    if e.Advance? && e.pid in s.procs && s.procs[e.pid].Done? {
      DoneStays(s, s.procs[e.pid], e.newId);
    }
  }

  lemma DoneStays(s: State, p: Proc, id: TeamId)
    requires p.Done?
    ensures StepProc(s, p, id) == (s, p)
  {
  }

  lemma {:induction false} SerialCalm(s: State, events: seq<Event>)
    requires Initial(s) && Serial(s, events)
    ensures Calm(s, events) && AtMostOneActive(Run(s, events))
  {
    if events != [] {
      var init, e := events[..|events| - 1], events[|events| - 1];
      SerialCalm(s, init);
      SerialStep(Run(s, init), e);
    }
  }

  /** All four handlers, one after the other in any order. */
  lemma SerialAgree(s: State, events: seq<Event>)
    requires Initial(s) && Serial(s, events) && Quiet(Run(s, events))
    ensures Agreement(Run(s, events)) && OneTeamPerOwner(Run(s, events))
  {
    SerialCalm(s, events);
    CalmAgrees(s, events);
  }

  /** An invite up to its reserved seat: load the caller, the team and the target, take the seat. */
  function InviteReserving(p: Pid, owner: User, u: User): seq<Event> {
    [Arrive(p, Invite(owner, u))] + Advances(p, 0, 3) + [Advance(p, 0)]
  }

  /** The schedule of one invite around one removal of the same user. */
  function InviteAroundRemove(p: Pid, q: Pid, owner: User, u: User): seq<Event> {
    InviteReserving(p, owner, u) + WholeHandler(q, Remove(owner, u), 0) + [Advance(p, 0)]
  }

  lemma InviteReserves(s: State, tid: TeamId, u: User, p: Pid)
    requires Settled(s, tid) && |s.teams[tid].members| < s.teams[tid].seats
    requires u in s.users && !OnRoster(s, tid, u) && p !in s.procs
    ensures var t := s.teams[tid];
            Run(s, InviteReserving(p, t.owner, u))
            == s.(teams := s.teams[tid := t.(members := t.members + [u])], procs := s.procs[p := LinkTarget(tid, u)])
  {
    InviteArrives(s, tid, u, p);
    RunSnoc(s, [Arrive(p, Invite(s.teams[tid].owner, u))] + Advances(p, 0, 3), Advance(p, 0));
    ReserveGoes(Goes(s, p, Reserve(tid, u)), tid, u, p);
    hide Run;
    hide Step;
  }

  lemma RemoveCompletes(s: State, tid: TeamId, u: User, q: Pid)
    requires Settled(s, tid) && OnRoster(s, tid, u) && u != s.teams[tid].owner
    requires u in s.users && s.users[u] == None && q !in s.procs
    ensures var t := s.teams[tid];
            Run(s, WholeHandler(q, Remove(t.owner, u), 0))
            == s.(teams := s.teams[tid := t.(members := Without(t.members, u))], procs := s.procs[q := Done(true)])
  {
    var t := s.teams[tid];
    SameRun(s, WholeHandler(q, Remove(t.owner, u), 0));
    HandlerIsRun(Same, s, q, Remove(t.owner, u), 0);
    RemoveAlone(s.(procs := map[]), tid, u);
    hide WholeHandler;
    hide Run;
    hide RunAt;
    hide Alone;
    hide Without;
  }

  lemma RemoveAlone(s: State, tid: TeamId, u: User)
    requires Settled(s, tid) && OnRoster(s, tid, u) && u != s.teams[tid].owner && u in s.users && s.users[u] == None
    ensures var t := s.teams[tid];
            Alone(Same, s, Begin(Remove(t.owner, u)), 0)
            == (s.(teams := s.teams[tid := t.(members := Without(t.members, u))]), true)
  {
    var t := s.teams[tid];
    AloneAfterLoad(Same, s, Remove(t.owner, u), 0);
    AloneStep(Same, s, DropMember(tid, u), 0);
    AloneStep(Same, s.(teams := Shrink(s.teams, tid, u)), DropLink(tid, u), 0);
    hide Alone;
    hide Without;
  }

  lemma LinkCompletes(s: State, tid: TeamId, u: User, p: Pid)
    requires p in s.procs && s.procs[p] == LinkTarget(tid, u)
    requires u in s.users && s.users[u] == None
    ensures Step(s, Advance(p, 0)) == s.(users := s.users[u := Some(tid)], procs := s.procs[p := Done(true)])
  {
  }

  /**
   The scheduling assumption is needed: from every agreeing state, for every team with a free seat and
   every unlinked account, an invite that spans a removal of the same user ends with both handlers
   reporting success and the account linked to a team whose roster does not have it.
   */
  lemma OverlapDisagrees(s: State, tid: TeamId, u: User, p: Pid, q: Pid)
    requires Agreement(s) && Settled(s, tid)
    requires |s.teams[tid].members| < s.teams[tid].seats
    requires u in s.users && s.users[u] == None
    requires p !in s.procs && q !in s.procs && p != q
    ensures var s' := Run(s, InviteAroundRemove(p, q, s.teams[tid].owner, u));
            && s'.procs == s.procs[p := Done(true)][q := Done(true)]
            && Linked(s', tid, u) && !OnRoster(s', tid, u)
  {
    hide StepProc;
    hide Run;
    hide Alone;
    hide WholeHandler;
    hide InviteReserving;
    var t := s.teams[tid];
    assert !Linked(s, tid, u);
    assert !OnRoster(s, tid, u);
    InviteReserves(s, tid, u, p);
    var s1 := Run(s, InviteReserving(p, t.owner, u));
    RemoveCompletes(s1, tid, u, q);
    var s2 := Run(s1, WholeHandler(q, Remove(t.owner, u), 0));
    assert s2.procs[p] == LinkTarget(tid, u);
    LinkCompletes(s2, tid, u, p);
    hide Step;
    RunJoin(s, InviteReserving(p, t.owner, u), WholeHandler(q, Remove(t.owner, u), 0));
    RunSnoc(s, InviteReserving(p, t.owner, u) + WholeHandler(q, Remove(t.owner, u), 0), Advance(p, 0));
  }
}
