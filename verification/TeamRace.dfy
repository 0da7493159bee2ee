/**
 One invite racing one removal of the same user, by the owner or by leaving: all six orders of their four
 writes, from every state that has them about to write.
 */
module TeamRace {
  import opened Bytes
  import opened TeamMachine
  import opened TeamOwner
  import opened TeamAgreement
  import opened TeamOrder
  import opened TeamHandlers

  /** p is about to take u's seat and q to take u off; u is linked nowhere else, and there is room. */
  ghost predicate Racing(s: State, tid: TeamId, u: User, p: Pid, q: Pid) {
    && p in s.procs && q in s.procs && p != q
    && s.procs[p] == Reserve(tid, u) && s.procs[q] == DropMember(tid, u)
    && tid in s.teams && SoundRoster(s.teams[tid])
    && u in s.users && (s.users[u] == None || s.users[u] == Some(tid))
    && (OnRoster(s, tid, u) || |s.teams[tid].members| < s.teams[tid].seats)
  }

  function InOrder(o: seq<Pid>): seq<Event> {
    seq(|o|, i requires 0 <= i < |o| => Advance(o[i], 0))
  }

  /** The two writes of each in some order. */
  predicate TwoEach(o: seq<Pid>, p: Pid, q: Pid) {
    |o| == 4 && multiset(o) == multiset{p, p, q, q}
  }

  function Seat(s: State, tid: TeamId, u: User): State
    requires tid in s.teams
  {
    var t := s.teams[tid];
    if u in t.members then s else s.(teams := s.teams[tid := t.(members := t.members + [u])])
  }

  function Goes(s: State, pid: Pid, p: Proc): State {
    s.(procs := s.procs[pid := p])
  }

  /** The invite's first write goes through when there is room. */
  lemma ReserveGoes(s: State, tid: TeamId, u: User, p: Pid)
    requires p in s.procs && s.procs[p] == Reserve(tid, u) && tid in s.teams
    requires OnRoster(s, tid, u) || |s.teams[tid].members| < s.teams[tid].seats
    ensures Step(s, Advance(p, 0)) == Goes(Seat(s, tid, u), p, LinkTarget(tid, u))
    ensures OnRoster(Seat(s, tid, u), tid, u)
  {
    if OnRoster(s, tid, u) {
      assert Seat(s, tid, u) == s;
    }
  }

  lemma LinkGoes(s: State, tid: TeamId, u: User, p: Pid)
    requires p in s.procs && s.procs[p] == LinkTarget(tid, u)
    requires u in s.users && (s.users[u] == None || s.users[u] == Some(tid))
    ensures Step(s, Advance(p, 0)) == Goes(s.(users := s.users[u := Some(tid)]), p, Done(true))
  {
  }

  lemma DropGoes(s: State, tid: TeamId, u: User, q: Pid)
    requires q in s.procs && s.procs[q] == DropMember(tid, u) && tid in s.teams
    ensures Step(s, Advance(q, 0)) == Goes(s.(teams := Shrink(s.teams, tid, u)), q, DropLink(tid, u))
  {
  }

  lemma UnlinkGoes(s: State, tid: TeamId, u: User, q: Pid)
    requires q in s.procs && s.procs[q] == DropLink(tid, u)
    ensures Step(s, Advance(q, 0)) == Goes(s.(users := Unlink(s.users, tid, u)), q, Done(true))
  {
  }

  /** Dropping a member makes room. */
  lemma DropMakesRoom(s: State, tid: TeamId, u: User)
    requires tid in s.teams && SoundRoster(s.teams[tid])
    requires OnRoster(s, tid, u) || |s.teams[tid].members| < s.teams[tid].seats
    ensures var t := Shrink(s.teams, tid, u)[tid];
            u !in t.members && |t.members| < t.seats
  {
    WithoutDistinct(s.teams[tid].members, u);
  }

  lemma RunFour(s: State, o: seq<Pid>)
    requires |o| == 4
    ensures Run(s, InOrder(o))
            == Step(Step(Step(Step(s, Advance(o[0], 0)), Advance(o[1], 0)), Advance(o[2], 0)), Advance(o[3], 0))
  {
    hide Step;
    var e1, e2, e3, e4 := Advance(o[0], 0), Advance(o[1], 0), Advance(o[2], 0), Advance(o[3], 0);
    RunOne(s, e1);
    RunSnoc(s, [e1], e2);
    RunSnoc(s, [e1, e2], e3);
    RunSnoc(s, [e1, e2, e3], e4);
    assert InOrder(o) == [e1] + [e2] + [e3] + [e4];
    assert [e1, e2] == [e1] + [e2] && [e1, e2, e3] == [e1] + [e2] + [e3];
  }

  /** What the four writes leave of u, by who goes first and who goes last. */
  ghost predicate Ends(s: State, tid: TeamId, u: User, p: Pid, q: Pid, on: bool, linked: bool) {
    && p in s.procs && q in s.procs && s.procs[p] == Done(true) && s.procs[q] == Done(true)
    && (OnRoster(s, tid, u) <==> on) && (Linked(s, tid, u) <==> linked)
  }

  lemma InviteStarts(s: State, tid: TeamId, u: User, p: Pid, q: Pid, s2: State)
    requires Racing(s, tid, u, p, q)
    requires s2 == Goes(Goes(Seat(s, tid, u), p, LinkTarget(tid, u)).(teams := Shrink(Seat(s, tid, u).teams, tid, u)), q, DropLink(tid, u))
    ensures Step(Step(s, Advance(p, 0)), Advance(q, 0)) == s2
    ensures !OnRoster(s2, tid, u)
  {
    hide StepProc;
    ReserveGoes(s, tid, u, p);
    DropGoes(Goes(Seat(s, tid, u), p, LinkTarget(tid, u)), tid, u, q);
    hide Step;
  }

  lemma DropStarts(s: State, tid: TeamId, u: User, p: Pid, q: Pid, s2: State)
    requires Racing(s, tid, u, p, q)
    requires s2 == Goes(Seat(Goes(s.(teams := Shrink(s.teams, tid, u)), q, DropLink(tid, u)), tid, u), p, LinkTarget(tid, u))
    ensures Step(Step(s, Advance(q, 0)), Advance(p, 0)) == s2
    ensures OnRoster(s2, tid, u)
  {
    hide StepProc;
    DropGoes(s, tid, u, q);
    DropMakesRoom(s, tid, u);
    ReserveGoes(Goes(s.(teams := Shrink(s.teams, tid, u)), q, DropLink(tid, u)), tid, u, p);
    hide Step;
  }

  /** Both rosters written: the later link write decides the link. */
  lemma LinksLast(s: State, tid: TeamId, u: User, p: Pid, q: Pid, inviteLast: bool)
    requires p != q && p in s.procs && q in s.procs
    requires s.procs[p] == LinkTarget(tid, u) && s.procs[q] == DropLink(tid, u)
    requires u in s.users && (s.users[u] == None || s.users[u] == Some(tid))
    ensures var s' := if inviteLast then Step(Step(s, Advance(q, 0)), Advance(p, 0)) else Step(Step(s, Advance(p, 0)), Advance(q, 0));
            Ends(s', tid, u, p, q, OnRoster(s, tid, u), inviteLast)
  {
    hide StepProc;
    if inviteLast {
      UnlinkGoes(s, tid, u, q);
      LinkGoes(Goes(s.(users := Unlink(s.users, tid, u)), q, Done(true)), tid, u, p);
    } else {
      LinkGoes(s, tid, u, p);
      UnlinkGoes(Goes(s.(users := s.users[u := Some(tid)]), p, Done(true)), tid, u, q);
    }
    hide Step;
  }

  /** One after the other: the second to go decides both. */
  lemma InviteThenDrop(s: State, tid: TeamId, u: User, p: Pid, q: Pid)
    requires Racing(s, tid, u, p, q)
    ensures Ends(Step(Step(Step(Step(s, Advance(p, 0)), Advance(p, 0)), Advance(q, 0)), Advance(q, 0)), tid, u, p, q, false, false)
  {
    hide StepProc;
    ReserveGoes(s, tid, u, p);
    var s1 := Goes(Seat(s, tid, u), p, LinkTarget(tid, u));
    LinkGoes(s1, tid, u, p);
    var s2 := Goes(s1.(users := s1.users[u := Some(tid)]), p, Done(true));
    DropGoes(s2, tid, u, q);
    var s3 := Goes(s2.(teams := Shrink(s2.teams, tid, u)), q, DropLink(tid, u));
    UnlinkGoes(s3, tid, u, q);
    hide Step;
  }

  lemma DropThenInvite(s: State, tid: TeamId, u: User, p: Pid, q: Pid)
    requires Racing(s, tid, u, p, q)
    ensures Ends(Step(Step(Step(Step(s, Advance(q, 0)), Advance(q, 0)), Advance(p, 0)), Advance(p, 0)), tid, u, p, q, true, true)
  {
    hide StepProc;
    DropGoes(s, tid, u, q);
    DropMakesRoom(s, tid, u);
    var s1 := Goes(s.(teams := Shrink(s.teams, tid, u)), q, DropLink(tid, u));
    UnlinkGoes(s1, tid, u, q);
    var s2 := Goes(s1.(users := Unlink(s1.users, tid, u)), q, Done(true));
    ReserveGoes(s2, tid, u, p);
    var s3 := Goes(Seat(s2, tid, u), p, LinkTarget(tid, u));
    LinkGoes(s3, tid, u, p);
    hide Step;
  }

  /**
   Exactly which races go wrong. In every order of the four writes both handlers report success, and the
   stores agree on the user exactly when the handler that wrote first is not also the one that wrote last:
   that is, when both stores were written in the same order.
   */
  lemma RaceExactly(s: State, tid: TeamId, u: User, p: Pid, q: Pid, o: seq<Pid>)
    requires Racing(s, tid, u, p, q) && TwoEach(o, p, q)
    ensures var s' := Run(s, InOrder(o));
            && Ends(s', tid, u, p, q, OnRoster(s', tid, u), o[3] == p)
            && (AgreesAt(s', tid, u) <==> o[0] != o[3])
  {
    SixOrders(o, p, q);
    RunFour(s, o);
    hide Run;
    hide Step;
    if o[0] == o[1] == p {
      InviteThenDrop(s, tid, u, p, q);
    } else if o[0] == o[1] {
      DropThenInvite(s, tid, u, p, q);
    } else if o[0] == p {
      var s2 := Goes(Goes(Seat(s, tid, u), p, LinkTarget(tid, u)).(teams := Shrink(Seat(s, tid, u).teams, tid, u)), q, DropLink(tid, u));
      InviteStarts(s, tid, u, p, q, s2);
      LinksLast(s2, tid, u, p, q, o[3] == p);
    } else {
      var s2 := Goes(Seat(Goes(s.(teams := Shrink(s.teams, tid, u)), q, DropLink(tid, u)), tid, u), p, LinkTarget(tid, u));
      DropStarts(s, tid, u, p, q, s2);
      LinksLast(s2, tid, u, p, q, o[3] == p);
    }
  }

  lemma SixOrders(o: seq<Pid>, p: Pid, q: Pid)
    requires TwoEach(o, p, q) && p != q
    ensures o in {[p, p, q, q], [p, q, p, q], [p, q, q, p], [q, p, p, q], [q, p, q, p], [q, q, p, p]}
  {
    assert o == [o[0], o[1], o[2], o[3]];
    var m := multiset{o[0], o[1], o[2], o[3]};
    assert m == multiset(o);
    assert o[0] in m && o[1] in m && o[2] in m && o[3] in m;
    assert m[p] == 2 && m[q] == 2;
  }

  /** Requests that take u off the team: the owner removing, or the member leaving. */
  predicate TakesOff(req: Request, owner: User, u: User) {
    req == Remove(owner, u) || req == Leave(u)
  }

  /** Both handlers arrive and read; neither has written yet. */
  function BothArrive(p: Pid, q: Pid, owner: User, u: User, req: Request): seq<Event> {
    [Arrive(p, Invite(owner, u))] + Advances(p, 0, 3) + ([Arrive(q, req)] + Advances(q, 0, 2))
  }

  lemma InviteArrives(s: State, tid: TeamId, u: User, p: Pid)
    requires Settled(s, tid) && u in s.users && p !in s.procs
    ensures Run(s, [Arrive(p, Invite(s.teams[tid].owner, u))] + Advances(p, 0, 3)) == Goes(s, p, Reserve(tid, u))
  {
    var o, a := s.teams[tid].owner, Advance(p, 0);
    var req := Invite(o, u);
    var e0 := Arrive(p, req);
    RunOne(s, e0);
    RunSnoc(s, [e0], a);
    RunSnoc(s, [e0, a], a);
    RunSnoc(s, [e0, a, a], a);
    assert [e0] + Advances(p, 0, 3) == [e0, a, a] + [a];
    assert [e0, a] == [e0] + [a] && [e0, a, a] == [e0, a] + [a];
    hide Run;
    assert Step(s, e0) == Goes(s, p, Begin(req));
    assert Step(Goes(s, p, Begin(req)), a) == Goes(s, p, Loaded(req, tid));
    assert Step(Goes(s, p, Loaded(req, tid)), a) == Goes(s, p, FindTarget(tid, u));
    assert Step(Goes(s, p, FindTarget(tid, u)), a) == Goes(s, p, Reserve(tid, u));
  }

  lemma RemovalArrives(s: State, tid: TeamId, u: User, q: Pid, req: Request)
    requires Settled(s, tid) && u != s.teams[tid].owner && OnRoster(s, tid, u) && Linked(s, tid, u)
    requires q !in s.procs && TakesOff(req, s.teams[tid].owner, u)
    ensures Run(s, [Arrive(q, req)] + Advances(q, 0, 2)) == Goes(s, q, DropMember(tid, u))
  {
    var a, e0 := Advance(q, 0), Arrive(q, req);
    RunOne(s, e0);
    RunSnoc(s, [e0], a);
    RunSnoc(s, [e0, a], a);
    assert [e0] + Advances(q, 0, 2) == [e0, a] + [a];
    assert [e0, a] == [e0] + [a];
    hide Run;
    assert Step(s, e0) == Goes(s, q, Begin(req));
    assert Step(Goes(s, q, Begin(req)), a) == Goes(s, q, Loaded(req, tid));
    assert Step(Goes(s, q, Loaded(req, tid)), a) == Goes(s, q, DropMember(tid, u));
  }

  /**
   From every sound state, for every member but the owner: inviting the member again while the owner removes
   them, or while they leave, ends with both handlers reporting success, and in disagreement in exactly the
   two orders in which one handler writes both first and last.
   */
  lemma MemberRace(s: State, tid: TeamId, u: User, p: Pid, q: Pid, req: Request, o: seq<Pid>)
    requires Inv(s) && Settled(s, tid) && u != s.teams[tid].owner && OnRoster(s, tid, u) && Linked(s, tid, u)
    requires p !in s.procs && q !in s.procs && p != q && TakesOff(req, s.teams[tid].owner, u) && TwoEach(o, p, q)
    ensures var s' := Run(s, BothArrive(p, q, s.teams[tid].owner, u, req) + InOrder(o));
            && Ends(s', tid, u, p, q, OnRoster(s', tid, u), o[3] == p)
            && (AgreesAt(s', tid, u) <==> o[0] != o[3])
  {
    hide StepProc;
    hide Run;
    var owner := s.teams[tid].owner;
    var s1 := Goes(s, p, Reserve(tid, u));
    var s2 := Goes(s1, q, DropMember(tid, u));
    InviteArrives(s, tid, u, p);
    RemovalArrives(s1, tid, u, q, req);
    RunJoin(s, [Arrive(p, Invite(owner, u))] + Advances(p, 0, 3), [Arrive(q, req)] + Advances(q, 0, 2));
    RunJoin(s, BothArrive(p, q, owner, u, req), InOrder(o));
    assert Racing(s2, tid, u, p, q);
    RaceExactly(s2, tid, u, p, q, o);
  }
}
