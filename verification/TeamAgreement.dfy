/**
 Runs on which the two stores agree without looking at the order of writes. An invite's writes (take a
 seat, link the user, or give the seat back) and a removal's writes (shrink the roster, unlink the user)
 are two-store sections; the stores agree as long as no invite section overlaps a removal section of the
 same user. TeamOrder has the exact condition.
 */
module TeamAgreement {
  import opened Bytes
  import opened TeamMachine
  import opened TeamOwner

  ghost predicate InviteOpen(p: Proc, u: User) {
    (p.LinkTarget? || p.Unreserve?) && p.target == u
  }

  ghost predicate DropOpen(p: Proc, u: User) {
    p.DropLink? && p.target == u
  }

  ghost predicate NoOverlap(s: State) {
    forall p, q, u :: p in s.procs && q in s.procs && InviteOpen(s.procs[p], u) ==> !DropOpen(s.procs[q], u)
  }

  /** No invite section ever overlaps a removal section of the same user along the run. */
  ghost predicate Calm(s: State, events: seq<Event>) {
    NoOverlap(Run(s, events)) && (events == [] || Calm(s, events[..|events| - 1]))
  }

  ghost predicate OnRoster(s: State, t: TeamId, u: User) {
    t in s.teams && u in s.teams[t].members
  }

  ghost predicate Linked(s: State, t: TeamId, u: User) {
    u in s.users && s.users[u] == Some(t)
  }

  /** The two stores say the same. */
  ghost predicate Agreement(s: State) {
    forall t, u :: OnRoster(s, t, u) <==> Linked(s, t, u)
  }

  ghost predicate OneTeamPerOwner(s: State) {
    forall t1, t2 :: t1 in s.teams && t2 in s.teams && s.teams[t1].owner == s.teams[t2].owner ==> t1 == t2
  }

  /** No handler is between its writes to the two stores. */
  ghost predicate Quiet(s: State) {
    forall p :: p in s.procs ==> !MidWrite(s.procs[p])
  }

  ghost predicate MidWrite(p: Proc) {
    p.LinkOwner? || p.Discard? || p.LinkTarget? || p.Unreserve? || p.DropLink?
  }

  /** A seat taken and not yet linked. */
  ghost predicate Seating(p: Proc, t: TeamId, u: User) {
    p == LinkTarget(t, u) || p == Unreserve(t, u) || p == LinkOwner(u, t) || p == Discard(u, t)
  }

  ghost predicate SeatPending(s: State, t: TeamId, u: User) {
    exists p :: p in s.procs && Seating(s.procs[p], t, u)
  }

  ghost predicate DropPending(s: State, t: TeamId, u: User) {
    exists p :: p in s.procs && s.procs[p] == DropLink(t, u)
  }

  ghost predicate LinkedElsewhere(s: State, t: TeamId, u: User) {
    u in s.users && s.users[u].Some? && s.users[u] != Some(t)
  }

  ghost predicate ProcAgrees(s: State, p: Proc) {
    match p
    case Reserve(t, u) => u in s.users
    case LinkTarget(t, u) => u in s.users && (OnRoster(s, t, u) || LinkedElsewhere(s, t, u))
    case Unreserve(t, u) => LinkedElsewhere(s, t, u)
    case DropLink(t, u) => !OnRoster(s, t, u)
    case _ => true
  }

  /** Every difference between the stores is the open section of some handler in flight. */
  ghost predicate Explained(s: State) {
    && (forall t, u :: Linked(s, t, u) ==> OnRoster(s, t, u) || DropPending(s, t, u))
    && (forall t, u :: OnRoster(s, t, u) ==> Linked(s, t, u) || SeatPending(s, t, u))
    && (forall p :: p in s.procs ==> ProcAgrees(s, s.procs[p]))
  }

  /** The step's own process, before and after, and its stores. */
  ghost predicate StepOf(s: State, s': State, pid: Pid, newId: TeamId) {
    && pid in s.procs
    && s' == StepProc(s, s.procs[pid], newId).0.(procs := s.procs[pid := StepProc(s, s.procs[pid], newId).1])
  }

  /** The only ways a step changes a roster. */
  lemma RosterChange(s: State, s': State, pid: Pid, newId: TeamId, t: TeamId, u: User)
    requires Inv(s) && StepOf(s, s', pid, newId)
    ensures var p, p' := s.procs[pid], s'.procs[pid];
            && (OnRoster(s', t, u) && !OnRoster(s, t, u) ==> p' == LinkTarget(t, u) || p' == LinkOwner(u, t))
            && (OnRoster(s, t, u) && !OnRoster(s', t, u) ==>
                  || p == Unreserve(t, u)
                  || (p == DropMember(t, u) && p' == DropLink(t, u))
                  || (p.Discard? && p.tid == t))
  {
    assert ProcSound(s, s.procs[pid]);
  }

  /** The only ways a step changes a link. */
  lemma LinkChange(s: State, s': State, pid: Pid, newId: TeamId, t: TeamId, u: User)
    requires Inv(s) && StepOf(s, s', pid, newId)
    ensures var p := s.procs[pid];
            && (Linked(s', t, u) && !Linked(s, t, u) ==>
                  !LinkedElsewhere(s, t, u) && (p == LinkOwner(u, t) || p == LinkTarget(t, u)))
            && (Linked(s, t, u) && !Linked(s', t, u) ==> p == DropLink(t, u))
  {
  }

  /** A process that has a seat pending either keeps it pending, links it or gives it back. */
  lemma SeatingStep(s: State, s': State, pid: Pid, newId: TeamId, t: TeamId, u: User)
    requires Inv(s) && StepOf(s, s', pid, newId) && Seating(s.procs[pid], t, u)
    ensures Seating(s'.procs[pid], t, u) || Linked(s', t, u) || !OnRoster(s', t, u)
  {
    assert ProcSound(s, s.procs[pid]);
  }

  lemma StepLinked(s: State, s': State, pid: Pid, newId: TeamId, t: TeamId, u: User)
    requires Inv(s) && Explained(s) && StepOf(s, s', pid, newId)
    requires Linked(s', t, u)
    ensures OnRoster(s', t, u) || DropPending(s', t, u)
  {
    var p := s.procs[pid];
    assert ProcAgrees(s, p) && ProcSound(s, p);
    RosterChange(s, s', pid, newId, t, u);
    LinkChange(s, s', pid, newId, t, u);
    if p == DropLink(t, u) {
      DropUnlinks(s, s', pid, newId, t, u);
    }
    hide StepProc;
    if DropPending(s, t, u) {
      var q :| q in s.procs && s.procs[q] == DropLink(t, u);
      assert s'.procs[q] == DropLink(t, u);
    }
    if !Linked(s, t, u) && p.LinkOwner? {
      assert OnRoster(s, t, u);
    }
  }

  lemma DropUnlinks(s: State, s': State, pid: Pid, newId: TeamId, t: TeamId, u: User)
    requires StepOf(s, s', pid, newId) && s.procs[pid] == DropLink(t, u)
    ensures !Linked(s', t, u)
  {
  }

  lemma StepSeated(s: State, s': State, pid: Pid, newId: TeamId, t: TeamId, u: User)
    requires Inv(s) && Explained(s) && StepOf(s, s', pid, newId)
    requires OnRoster(s', t, u)
    ensures Linked(s', t, u) || SeatPending(s', t, u)
  {
    var p := s.procs[pid];
    assert ProcAgrees(s, p);
    RosterChange(s, s', pid, newId, t, u);
    LinkChange(s, s', pid, newId, t, u);
    if Seating(p, t, u) {
      SeatingStep(s, s', pid, newId, t, u);
    }
    hide StepProc;
    if OnRoster(s, t, u) {
      if !Linked(s, t, u) {
        var q :| q in s.procs && Seating(s.procs[q], t, u);
        assert Seating(s'.procs[q], t, u) || Linked(s', t, u);
      }
    } else {
      assert Seating(s'.procs[pid], t, u);
    }
  }

  /** The stepping process, after its step. */
  lemma OwnProcAgrees(s: State, s': State, pid: Pid, newId: TeamId)
    requires Inv(s) && Explained(s) && StepOf(s, s', pid, newId)
    ensures ProcAgrees(s', s'.procs[pid])
  {
    assert ProcAgrees(s, s.procs[pid]) && ProcSound(s, s.procs[pid]);
  }

  /** A step that neither unlinks u nor takes u off a roster keeps an open invite of u consistent. */
  lemma InviteStays(s: State, s': State, pid: Pid, newId: TeamId, q: Pid)
    requires Inv(s) && Explained(s) && StepOf(s, s', pid, newId)
    requires q in s.procs && q != pid && (s.procs[q].LinkTarget? || s.procs[q].Unreserve?)
    requires !DropOpen(s.procs[pid], s.procs[q].target) && !DropOpen(s'.procs[pid], s.procs[q].target)
    ensures ProcAgrees(s', s.procs[q])
  {
    var p, r := s.procs[pid], s.procs[q];
    assert ProcAgrees(s, p) && ProcSound(s, p) && ProcAgrees(s, r) && ProcSound(s, r);
    assert p.Discard? ==> !Linked(s, p.tid, p.me) && r.tid != p.tid;
  }

  /** A step that does not seat u keeps an open removal of u consistent. */
  lemma DropStaysOff(s: State, s': State, pid: Pid, newId: TeamId, q: Pid)
    requires Inv(s) && Explained(s) && StepOf(s, s', pid, newId)
    requires q in s.procs && q != pid && s.procs[q].DropLink?
    requires !InviteOpen(s'.procs[pid], s.procs[q].target)
    ensures ProcAgrees(s', s.procs[q])
  {
    var p, r := s.procs[pid], s.procs[q];
    assert ProcAgrees(s, r) && ProcSound(s, p) && ProcSound(s, r);
  }

  lemma StepProcAgrees(s: State, s': State, pid: Pid, newId: TeamId, q: Pid)
    requires Inv(s) && Explained(s) && NoOverlap(s) && StepOf(s, s', pid, newId) && NoOverlap(s')
    requires q in s'.procs
    ensures ProcAgrees(s', s'.procs[q])
  {
    OwnProcAgrees(s, s', pid, newId);
    hide StepProc;
    if q != pid {
      var r := s.procs[q];
      assert ProcAgrees(s, r);
      if r.LinkTarget? || r.Unreserve? {
        assert InviteOpen(r, r.target);
        assert InviteOpen(s'.procs[q], r.target);
        InviteStays(s, s', pid, newId, q);
      } else if r.DropLink? {
        assert DropOpen(s'.procs[q], r.target);
        DropStaysOff(s, s', pid, newId, q);
      }
    }
  }

  lemma StepExplained(s: State, e: Event)
    requires Inv(s) && Explained(s) && NoOverlap(s) && NoOverlap(Step(s, e))
    ensures Explained(Step(s, e))
  {
    var s' := Step(s, e);
    StepKeepsInv(s, e);
    if e.Advance? && e.pid in s.procs {
      assert StepOf(s, s', e.pid, e.newId);
      forall t, u | Linked(s', t, u)
        ensures OnRoster(s', t, u) || DropPending(s', t, u)
      {
        StepLinked(s, s', e.pid, e.newId, t, u);
      }
      forall t, u | OnRoster(s', t, u)
        ensures Linked(s', t, u) || SeatPending(s', t, u)
      {
        StepSeated(s, s', e.pid, e.newId, t, u);
      }
      forall q | q in s'.procs
        ensures ProcAgrees(s', s'.procs[q])
      {
        StepProcAgrees(s, s', e.pid, e.newId, q);
      }
    } else {
      ArriveExplained(s, e);
    }
  }

  lemma ArriveExplained(s: State, e: Event)
    requires Explained(s) && (e.Advance? ==> e.pid !in s.procs)
    ensures Explained(Step(s, e))
  {
    var s' := Step(s, e);
    forall t, u | Linked(s', t, u)
      ensures OnRoster(s', t, u) || DropPending(s', t, u)
    {
      if DropPending(s, t, u) {
        var p :| p in s.procs && s.procs[p] == DropLink(t, u);
        assert s'.procs[p] == DropLink(t, u);
      }
      assert Linked(s, t, u) && (OnRoster(s, t, u) ==> OnRoster(s', t, u));
    }
    forall t, u | OnRoster(s', t, u)
      ensures Linked(s', t, u) || SeatPending(s', t, u)
    {
      if SeatPending(s, t, u) {
        var p :| p in s.procs && Seating(s.procs[p], t, u);
        assert Seating(s'.procs[p], t, u);
      }
      assert OnRoster(s, t, u) && (Linked(s, t, u) ==> Linked(s', t, u));
    }
    forall q | q in s'.procs
      ensures ProcAgrees(s', s'.procs[q])
    {
      assert q in s.procs ==> ProcAgrees(s, s'.procs[q]);
    }
  }

  lemma {:induction false} RunExplained(s: State, events: seq<Event>)
    requires Initial(s) && Calm(s, events)
    ensures Inv(Run(s, events)) && Explained(Run(s, events))
  {
    RostersSound(s, events);
    if events != [] {
      var init := events[..|events| - 1];
      RunExplained(s, init);
      assert Calm(s, init);
      StepExplained(Run(s, init), events[|events| - 1]);
    }
  }

  lemma QuietNonePending(s: State, t: TeamId, u: User)
    requires Quiet(s)
    ensures !SeatPending(s, t, u) && !DropPending(s, t, u)
  {
  }

  lemma OwnersApart(s: State)
    requires Inv(s) && Agreement(s)
    ensures OneTeamPerOwner(s)
  {
    forall t1, t2 | t1 in s.teams && t2 in s.teams && s.teams[t1].owner == s.teams[t2].owner
      ensures t1 == t2
    {
      assert SoundRoster(s.teams[t1]) && SoundRoster(s.teams[t2]);
      assert OnRoster(s, t1, s.teams[t1].owner) && OnRoster(s, t2, s.teams[t2].owner);
    }
  }

  /**
   Over every interleaving of create, invite, remove and leave in which no invite's section overlaps a
   removal's section of the same user: whenever no handler is between its two writes, a team's roster is
   exactly the accounts linked to it, and nobody owns two teams.
   */
  lemma CalmAgrees(s: State, events: seq<Event>)
    requires Initial(s) && Calm(s, events) && Quiet(Run(s, events))
    ensures Agreement(Run(s, events)) && OneTeamPerOwner(Run(s, events))
  {
    RunExplained(s, events);
    var s' := Run(s, events);
    forall t, u
      ensures OnRoster(s', t, u) <==> Linked(s', t, u)
    {
      QuietNonePending(s', t, u);
    }
    OwnersApart(s');
  }
}
