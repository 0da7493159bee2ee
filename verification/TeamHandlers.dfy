/**
 The stores and the four handlers as they are written, on names as they are typed, proved to be their
 process run alone.
 */
module TeamHandlers {
  import opened Bytes
  import opened Names
  import opened TeamMachine
  import opened TeamNames

  /** How many steps a handler has left at most. */
  function Rank(p: Proc): nat {
    match p
    case Begin(_) => 6
    case Loaded(_, _) => 5
    case Mint(_, _) => 4
    case FindTarget(_, _) => 4
    case Reserve(_, _) => 3
    case LinkOwner(_, _) => 2
    case LinkTarget(_, _) => 2
    case DropMember(_, _) => 2
    case Discard(_, _) => 1
    case Unreserve(_, _) => 1
    case DropLink(_, _) => 1
    case Done(_) => 0
  }

  /** Every handler finishes, in at most six atomic steps, whatever the others do. */
  lemma StepsFinish(acct: Accounts, s: State, p: Proc, id: TeamId)
    requires !p.Done?
    ensures Rank(StepProcAt(acct, s, p, id).1) < Rank(p) <= 6
  {
    if p.Loaded? && p.tid in s.teams {
      assert Rank(WithTeam(p.req, p.tid, s.teams[p.tid])) <= 4;
    }
  }

  /** A handler run with no other in flight. */
  function Alone(acct: Accounts, s: State, p: Proc, id: TeamId): (State, bool)
    decreases Rank(p)
  {
    if p.Done? then (s, p.ok)
    else
      StepsFinish(acct, s, p, id);
      var (s', p') := StepProcAt(acct, s, p, id);
      Alone(acct, s', p', id)
  }

  /** What follows from the caller's team, when there is one; currentTeam is the first two steps. */
  lemma AloneAfterLoad(acct: Accounts, s: State, req: Request, id: TeamId)
    ensures var a := acct(req.me);
            Alone(acct, s, Begin(req), id)
            == if a in s.users && s.users[a].Some? && s.users[a].value in s.teams
               then Alone(acct, s, WithTeam(req, s.users[a].value, s.teams[s.users[a].value]), id)
               else Alone(acct, s, NoTeam(req), id)
  {
    var a := acct(req.me);
    if a in s.users && s.users[a].Some? {
      var p := Loaded(req, s.users[a].value);
      assert StepProcAt(acct, s, Begin(req), id) == (s, p);
      assert Alone(acct, s, p, id) == Alone(acct, s, StepProcAt(acct, s, p, id).1, id);
    }
  }

  lemma AloneStep(acct: Accounts, s: State, p: Proc, id: TeamId)
    requires !p.Done?
    ensures var (s', p') := StepProcAt(acct, s, p, id);
            Alone(acct, s, p, id) == Alone(acct, s', p', id) && (p'.Done? ==> Alone(acct, s, p, id) == (s', p'.ok))
  {
  }

  lemma AloneDone(acct: Accounts, s: State, ok: bool, id: TeamId)
    ensures Alone(acct, s, Done(ok), id) == (s, ok)
  {
  }

  function Advances(pid: Pid, id: TeamId, n: nat): seq<Event> {
    seq(n, _ => Advance(pid, id))
  }

  lemma {:induction false} RunAtAppend(acct: Accounts, s: State, a: seq<Event>, b: seq<Event>)
    ensures RunAt(acct, s, a + b) == RunAt(acct, RunAt(acct, s, a), b)
  {
    hide StepAt;
    if b == [] {
      assert a + b == a;
    } else {
      var b' := b[..|b| - 1];
      RunAtAppend(acct, s, a, b');
      assert (a + b)[..|a + b| - 1] == a + b';
    }
  }

  lemma RunAtOne(acct: Accounts, s: State, e: Event)
    ensures RunAt(acct, s, [e]) == StepAt(acct, s, e)
  {
    assert [e][..0] == [];
  }

  /** A process step neither reads nor writes the process table. */
  lemma StepIgnoresProcs(acct: Accounts, s: State, procs: map<Pid, Proc>, p: Proc, id: TeamId)
    ensures StepProcAt(acct, s.(procs := procs), p, id)
            == (StepProcAt(acct, s, p, id).0.(procs := procs), StepProcAt(acct, s, p, id).1)
  {
  }

  /** A finished process stays as it is. */
  lemma AdvanceDone(acct: Accounts, s: State, p: Proc, id: TeamId)
    requires p.Done?
    ensures StepProcAt(acct, s, p, id) == (s, p)
    ensures Alone(acct, s.(procs := map[]), p, id) == (s.(procs := map[]), p.ok)
  {
  }

  /** One step inside the machine is one step alone. */
  lemma AdvanceIs(acct: Accounts, s: State, pid: Pid, id: TeamId)
    requires pid in s.procs
    ensures var (s0, p) := (s.(procs := map[]), s.procs[pid]);
            var (s', p') := StepProcAt(acct, s0, p, id);
            && StepAt(acct, s, Advance(pid, id)) == s'.(procs := s.procs[pid := p']) && s'.procs == map[]
            && Alone(acct, s0, p, id) == Alone(acct, s', p', id)
            && if p.Done? then p' == p else Rank(p') < Rank(p)
  {
    var s0, p := s.(procs := map[]), s.procs[pid];
    StepIgnoresProcs(acct, s, map[], p, id);
    StepIgnoresProcs(acct, s, s.procs, p, id);
    if p.Done? {
      AdvanceDone(acct, s, p, id);
      AdvanceDone(acct, s0, p, id);
    } else {
      StepsFinish(acct, s0, p, id);
      AloneStep(acct, s0, p, id);
    }
    hide StepProcAt;
    hide StepProc;
    hide Alone;
    hide Rank;
  }

  /** Letting one process run to its end changes the stores as Alone says and nothing else. */
  lemma {:induction false} AdvancesAreAlone(acct: Accounts, s: State, pid: Pid, id: TeamId, n: nat)
    requires pid in s.procs && n >= Rank(s.procs[pid])
    ensures var (r, ok) := Alone(acct, s.(procs := map[]), s.procs[pid], id);
            RunAt(acct, s, Advances(pid, id, n)) == r.(procs := s.procs[pid := Done(ok)])
    decreases n
  {
    var p := s.procs[pid];
    if n == 0 {
      AloneDone(acct, s.(procs := map[]), p.ok, id);
      hide Alone;
      assert s.procs[pid := p] == s.procs;
    } else {
      AdvanceIs(acct, s, pid, id);
      hide StepProcAt;
      hide StepProc;
      hide Alone;
      var next := StepAt(acct, s, Advance(pid, id));
      hide StepAt;
      assert Rank(next.procs[pid]) <= n - 1;
      AdvancesAreAlone(acct, next, pid, id, n - 1);
      hide Rank;
      assert Advances(pid, id, n) == [Advance(pid, id)] + Advances(pid, id, n - 1);
      RunAtAppend(acct, s, [Advance(pid, id)], Advances(pid, id, n - 1));
      RunAtOne(acct, s, Advance(pid, id));
      hide RunAt;
      hide Advances;
      var ok := Alone(acct, next.(procs := map[]), next.procs[pid], id).1;
      assert next.procs[pid := Done(ok)] == s.procs[pid := Done(ok)];
    }
  }

  /** The handler's own run inside the machine: it arrives and takes its (at most six) steps. */
  function WholeHandler(pid: Pid, req: Request, id: TeamId): seq<Event> {
    [Arrive(pid, req)] + Advances(pid, id, 6)
  }

  /** What a handler does by itself is what its process does in the machine when nobody interleaves. */
  lemma HandlerIsRun(acct: Accounts, s: State, pid: Pid, req: Request, id: TeamId)
    requires pid !in s.procs
    ensures var (r, ok) := Alone(acct, s.(procs := map[]), Begin(req), id);
            RunAt(acct, s, WholeHandler(pid, req, id)) == r.(procs := s.procs[pid := Done(ok)])
  {
    hide StepProcAt;
    hide StepProc;
    hide Alone;
    hide Rank;
    assert Rank(Begin(req)) <= 6 by { StepsFinish(acct, s, Begin(req), id); }
    var s1 := StepAt(acct, s, Arrive(pid, req));
    RunAtAppend(acct, s, [Arrive(pid, req)], Advances(pid, id, 6));
    RunAtOne(acct, s, Arrive(pid, req));
    hide RunAt;
    AdvancesAreAlone(acct, s1, pid, id, 6);
    assert s1.(procs := map[]) == s.(procs := map[]);
    var ok := Alone(acct, s.(procs := map[]), Begin(req), id).1;
    assert s1.procs[pid := Done(ok)] == s.procs[pid := Done(ok)];
  }

  /** Every name an account of its own. */
  function Same(u: User): User {
    u
  }

  /** Then the machine is the one of TeamMachine. */
  lemma SameStep(s: State, e: Event)
    ensures StepAt(Same, s, e) == Step(s, e)
  {
  }

  lemma {:induction false} SameRun(s: State, events: seq<Event>)
    ensures RunAt(Same, s, events) == Run(s, events)
  {
    if events != [] {
      SameRun(s, events[..|events| - 1]);
      SameStep(Run(s, events[..|events| - 1]), events[|events| - 1]);
    }
    hide Step;
    hide StepAt;
  }

  // What each handler does when nobody interleaves, and for whom.

  /** The account the caller's name leads to is linked to t, and t is there. */
  predicate OnTeam(acct: Accounts, s: State, me: User, t: TeamId) {
    acct(me) in s.users && s.users[acct(me)] == Some(t) && t in s.teams
  }

  /** Only the owner removes, and removes members other than themselves. */
  predicate MayRemove(acct: Accounts, s: State, me: User, target: User, t: TeamId) {
    OnTeam(acct, s, me, t) && s.teams[t].owner == me && target != me && target in s.teams[t].members
  }

  /** Everybody but the owner leaves. */
  predicate MayLeave(acct: Accounts, s: State, me: User, t: TeamId) {
    OnTeam(acct, s, me, t) && s.teams[t].owner != me
  }

  /** Only the owner invites, an account that is there; there is a seat, and no other team has the account. */
  predicate MayInvite(acct: Accounts, s: State, me: User, target: User, t: TeamId) {
    && OnTeam(acct, s, me, t) && s.teams[t].owner == me
    && acct(target) in s.users && (s.users[acct(target)] == None || s.users[acct(target)] == Some(t))
    && (target in s.teams[t].members || |s.teams[t].members| < s.teams[t].seats)
  }

  /** The owner invites a name on the roster whose account another team has: giving the seat back takes the name off. */
  predicate RollsOff(acct: Accounts, s: State, me: User, target: User, t: TeamId) {
    && OnTeam(acct, s, me, t) && s.teams[t].owner == me && target in s.teams[t].members
    && acct(target) in s.users && s.users[acct(target)].Some? && s.users[acct(target)] != Some(t)
  }

  /** An unlinked account, and between 2 and 50 seats, where asking for none, or for no number, is asking for 5. */
  predicate MayCreate(acct: Accounts, s: State, me: User, wanted: Option<int>, id: TeamId) {
    && acct(me) in s.users && s.users[acct(me)] == None && id !in s.minted
    && (wanted.Some? && wanted.value > 0 ==> 2 <= wanted.value <= 50)
  }

  /** The roster of t without u, and everything else as it was. */
  function WithoutMember(s: State, t: TeamId, u: User): State
    requires t in s.teams
  {
    s.(teams := s.teams[t := Team(s.teams[t].owner, Without(s.teams[t].members, u), s.teams[t].seats)])
  }

  /** The account a no longer linked to t, if it was, and everything else as it was. */
  function Unlinked(s: State, t: TeamId, a: User): State {
    if a in s.users && s.users[a] == Some(t) then s.(users := s.users[a := None]) else s
  }

  lemma DropAlone(acct: Accounts, s: State, t: TeamId, u: User, id: TeamId)
    requires t in s.teams
    ensures Alone(acct, s, DropMember(t, u), id) == (Unlinked(WithoutMember(s, t, u), t, acct(u)), true)
  {
    hide Without;
    AloneStep(acct, s, DropMember(t, u), id);
    AloneStep(acct, s.(teams := Shrink(s.teams, t, u)), DropLink(t, u), id);
    hide Alone;
    assert s.(teams := Shrink(s.teams, t, u)) == WithoutMember(s, t, u);
  }

  /**
   A removal by itself succeeds exactly for the owner of the caller's team, of a member other than the owner,
   and then takes that name off that roster and its account's link to that team; else nothing changes.
   */
  lemma RemoveExactly(acct: Accounts, s: State, me: User, target: User, id: TeamId)
    ensures var (r, ok) := Alone(acct, s, Begin(Remove(me, target)), id);
            && (ok <==> exists t :: MayRemove(acct, s, me, target, t))
            && (!ok ==> r == s)
            && forall t :: MayRemove(acct, s, me, target, t) ==> r == Unlinked(WithoutMember(s, t, target), t, acct(target))
  {
    AloneAfterLoad(acct, s, Remove(me, target), id);
    AloneDone(acct, s, false, id);
    hide Alone;
    hide Without;
    if acct(me) in s.users && s.users[acct(me)].Some? && s.users[acct(me)].value in s.teams {
      var t := s.users[acct(me)].value;
      DropAlone(acct, s, t, target, id);
      assert MayRemove(acct, s, me, target, t)
        <==> s.teams[t].owner == me && target != s.teams[t].owner && target in s.teams[t].members;
    }
    hide WithoutMember;
    hide Unlinked;
  }

  /** Leaving by itself succeeds exactly for those who do not own their team, and takes only them off and their own link. */
  lemma LeaveExactly(acct: Accounts, s: State, me: User, id: TeamId)
    ensures var (r, ok) := Alone(acct, s, Begin(Leave(me)), id);
            && (ok <==> exists t :: MayLeave(acct, s, me, t))
            && (!ok ==> r == s)
            && forall t :: MayLeave(acct, s, me, t) ==> r == Unlinked(WithoutMember(s, t, me), t, acct(me))
  {
    AloneAfterLoad(acct, s, Leave(me), id);
    AloneDone(acct, s, false, id);
    hide Alone;
    hide Without;
    if acct(me) in s.users && s.users[acct(me)].Some? && s.users[acct(me)].value in s.teams {
      var t := s.users[acct(me)].value;
      DropAlone(acct, s, t, me, id);
      assert MayLeave(acct, s, me, t) <==> s.teams[t].owner != me;
    }
    hide WithoutMember;
    hide Unlinked;
  }

  /** What an invite makes of the roster and the link. */
  function Seated(acct: Accounts, s: State, t: TeamId, u: User): State
    requires t in s.teams
  {
    var m := s.teams[t].members;
    s.(teams := s.teams[t := Team(s.teams[t].owner, if u in m then m else m + [u], s.teams[t].seats)],
       users := s.users[acct(u) := Some(t)])
  }

  lemma FindAlone(acct: Accounts, s: State, t: TeamId, u: User)
    ensures Alone(acct, s, FindTarget(t, u), 0) == if acct(u) in s.users then Alone(acct, s, Reserve(t, u), 0) else (s, false)
  {
    AloneStep(acct, s, FindTarget(t, u), 0);
  }

  lemma ReserveAlone(acct: Accounts, s: State, t: TeamId, u: User)
    requires t in s.teams
    ensures var o := s.teams[t];
            Alone(acct, s, Reserve(t, u), 0)
            == if u in o.members then Alone(acct, s, LinkTarget(t, u), 0)
               else if |o.members| >= o.seats then (s, false)
               else Alone(acct, s.(teams := s.teams[t := o.(members := o.members + [u])]), LinkTarget(t, u), 0)
  {
    AloneStep(acct, s, Reserve(t, u), 0);
  }

  lemma LinkAlone(acct: Accounts, s: State, t: TeamId, u: User)
    ensures var a := acct(u);
            Alone(acct, s, LinkTarget(t, u), 0)
            == if a !in s.users || (s.users[a].Some? && s.users[a] != Some(t)) then (s.(teams := Shrink(s.teams, t, u)), false)
               else (s.(users := s.users[a := Some(t)]), true)
  {
    AloneStep(acct, s, LinkTarget(t, u), 0);
    AloneStep(acct, s, Unreserve(t, u), 0);
    hide Shrink;
  }

  lemma SeatAlone(acct: Accounts, s: State, t: TeamId, u: User)
    requires t in s.teams
    ensures var (r, ok) := Alone(acct, s, FindTarget(t, u), 0);
            var there := acct(u) in s.users;
            var free := u in s.teams[t].members || |s.teams[t].members| < s.teams[t].seats;
            var mine := there && (s.users[acct(u)] == None || s.users[acct(u)] == Some(t));
            && (ok <==> there && free && mine)
            && (ok ==> r == Seated(acct, s, t, u))
            && (!ok ==> r == if there && !mine && u in s.teams[t].members then WithoutMember(s, t, u) else s)
  {
    var o := s.teams[t];
    var s1 := if u in o.members then s else s.(teams := s.teams[t := o.(members := o.members + [u])]);
    FindAlone(acct, s, t, u);
    ReserveAlone(acct, s, t, u);
    LinkAlone(acct, s1, t, u);
    hide Alone;
    if u !in o.members {
      GivenBack(s, t, u);
    } else {
      assert s.teams[t := o] == s.teams;
    }
    hide Without;
  }

  /** Giving back a seat just taken leaves the roster as it was. */
  lemma GivenBack(s: State, t: TeamId, u: User)
    requires t in s.teams && u !in s.teams[t].members
    ensures Shrink(s.teams[t := s.teams[t].(members := s.teams[t].members + [u])], t, u) == s.teams
  {
    var m := s.teams[t].members;
    WithoutRest(m, [], u);
    assert m + [u] + [] == m + [u] && m + Without([], u) == m;
    hide Without;
    assert s.teams[t].(members := m) == s.teams[t];
  }

  /**
   An invite by itself succeeds exactly for the owner of the caller's team, with the target's account there and
   on no other team, and a seat free; then that name is on that roster and its account linked. Otherwise nothing
   changes, but for a name on the roster whose account another team has, which is taken off.
   */
  lemma InviteExactly(acct: Accounts, s: State, me: User, target: User)
    ensures var (r, ok) := Alone(acct, s, Begin(Invite(me, target)), 0);
            && (ok <==> exists t :: MayInvite(acct, s, me, target, t))
            && (forall t :: MayInvite(acct, s, me, target, t) ==> r == Seated(acct, s, t, target))
            && (forall t :: RollsOff(acct, s, me, target, t) ==> r == WithoutMember(s, t, target))
            && (!ok && (forall t :: !RollsOff(acct, s, me, target, t)) ==> r == s)
  {
    AloneAfterLoad(acct, s, Invite(me, target), 0);
    AloneDone(acct, s, false, 0);
    hide Alone;
    hide Without;
    if acct(me) in s.users && s.users[acct(me)].Some? && s.users[acct(me)].value in s.teams {
      var t := s.users[acct(me)].value;
      SeatAlone(acct, s, t, target);
      assert OnTeam(acct, s, me, t);
      assert MayInvite(acct, s, me, target, t) || !MayInvite(acct, s, me, target, t);
      assert RollsOff(acct, s, me, target, t) || !RollsOff(acct, s, me, target, t);
    }
    hide WithoutMember;
    hide Seated;
  }

  /**
   A create by itself succeeds exactly for an unlinked account and an allowed number of seats, and then there is
   one more team, the caller's own, with the caller on it and linked; else the stores stay as they were.
   */
  lemma CreateExactly(acct: Accounts, s: State, me: User, wanted: Option<int>, id: TeamId)
    requires s.teams.Keys <= s.minted
    ensures var (r, ok) := Alone(acct, s, Begin(Create(me, wanted)), id);
            var seats := if wanted.Some? && wanted.value > 0 then wanted.value else 5;
            && (ok <==> MayCreate(acct, s, me, wanted, id))
            && (ok ==> r == s.(teams := s.teams[id := Team(me, [me], seats)], users := s.users[acct(me) := Some(id)],
                               minted := s.minted + {id}))
            && (!ok ==> r.teams == s.teams && r.users == s.users && r.procs == s.procs)
  {
    AloneAfterLoad(acct, s, Create(me, wanted), id);
    AloneDone(acct, s, false, id);
    var seats := SeatsAsked(wanted);
    AloneStep(acct, s, Mint(me, seats), id);
    if 2 <= seats <= 50 && id !in s.minted {
      var s1 := s.(teams := s.teams[id := Team(me, [me], seats)], minted := s.minted + {id});
      AloneStep(acct, s1, LinkOwner(me, id), id);
      AloneStep(acct, s1, Discard(me, id), id);
      assert id !in s.teams && s1.teams - {id} == s.teams;
    }
    hide Alone;
  }

  method HasMemberLoop(members: seq<User>, u: User) returns (found: bool)
    ensures found == HasMember(members, u)
  {
    for i := 0 to |members|
      invariant u !in members[..i]
    {
      if members[i] == u {
        return true;
      }
    }
    found := false;
  }

  /** removeMember filters the roster into the front of its own array. */
  method RemoveMember(a: array<User>, u: User) returns (n: nat)
    modifies a
    ensures n <= a.Length && a[..n] == Without(old(a[..]), u)
  {
    n := 0;
    for i := 0 to a.Length
      invariant n <= i
      invariant a[..n] == Without(old(a[..i]), u)
      invariant a[i..] == old(a[i..])
    {
      ghost var was := old(a[..]);
      assert was[..i + 1][..i] == was[..i] && old(a[..i]) == was[..i] && old(a[..i + 1]) == was[..i + 1];
      assert a[i] == a[i..][0] == old(a[i..])[0] == was[i];
      if a[i] != u {
        a[n] := a[i];
        n := n + 1;
        assert a[..n] == a[..n - 1] + [was[i]];
      }
      assert a[i + 1..] == old(a[i..])[1..] == old(a[i + 1..]);
    }
    assert old(a[..a.Length]) == old(a[..]);
  }

  class TeamServer {
    const acct: Accounts
    var teams: map<TeamId, Team>
    var users: map<User, Option<TeamId>>
    var minted: set<TeamId>

    constructor (acct: Accounts, users: map<User, Option<TeamId>>)
      ensures this.acct == acct && Snapshot() == State(map[], users, map[], {})
    {
      this.acct := acct;
      this.teams, this.users, this.minted := map[], users, {};
    }

    ghost function Snapshot(): State
      reads this
    {
      State(teams, users, map[], minted)
    }

    /** teamStore.update with the removeMember closure: load, filter in place, save. */
    method UpdateRemove(tid: TeamId, u: User)
      modifies `teams
      ensures teams == Shrink(old(teams), tid, u)
    {
      if tid !in teams {
        return;
      }
      var t := teams[tid];
      var a := new User[|t.members|](i requires 0 <= i < |t.members| => t.members[i]);
      assert a[..] == t.members;
      var n := RemoveMember(a, u);
      teams := teams[tid := t.(members := a[..n])];
    }

    method UpdateUnlink(tid: TeamId, u: User)
      modifies `users
      ensures users == Unlink(old(users), tid, acct(u))
    {
      var a := acct(u);
      if a in users && users[a] == Some(tid) {
        users := users[a := None];
      }
    }

    method CurrentTeam(me: User) returns (tid: Option<TeamId>)
      ensures tid.Some? <==> acct(me) in users && users[acct(me)].Some? && users[acct(me)].value in teams
      ensures tid.Some? ==> users[acct(me)] == tid
    {
      var a := acct(me);
      if a in users && users[a].Some? && users[a].value in teams {
        return users[a];
      }
      tid := None;
    }

    method HandleTeamCreate(me: User, wanted: Option<int>, newId: TeamId) returns (ok: bool)
      modifies this
      ensures (Snapshot(), ok) == Alone(acct, old(Snapshot()), Begin(Create(me, wanted)), newId)
      ensures old(teams.Keys <= minted) ==> (ok <==> old(MayCreate(acct, Snapshot(), me, wanted, newId)))
      ensures old(teams.Keys <= minted) && !ok ==> teams == old(teams) && users == old(users)
      ensures old(teams.Keys <= minted) && ok ==>
                && teams == old(teams)[newId := Team(me, [me], if wanted.Some? && wanted.value > 0 then wanted.value else 5)]
                && users == old(users)[acct(me) := Some(newId)] && minted == old(minted) + {newId}
    {
      if teams.Keys <= minted {
        CreateExactly(acct, Snapshot(), me, wanted, newId);
      }
      hide MayCreate;
      AloneAfterLoad(acct, Snapshot(), Create(me, wanted), newId);
      var tid := CurrentTeam(me);
      if tid.Some? {
        return false;
      }
      var seats := SeatsAsked(wanted);
      AloneStep(acct, Snapshot(), Mint(me, seats), newId);
      if seats < MIN_SEATS || seats > MAX_SEATS || newId in minted {
        return false;
      }
      teams, minted := teams[newId := Team(me, [me], seats)], minted + {newId};
      AloneStep(acct, Snapshot(), LinkOwner(me, newId), newId);
      if acct(me) !in users || users[acct(me)].Some? {
        AloneStep(acct, Snapshot(), Discard(me, newId), newId);
        teams := teams - {newId};
        return false;
      }
      users := users[acct(me) := Some(newId)];
      ok := true;
    }

    method HandleTeamInvite(me: User, target: User) returns (ok: bool)
      modifies this
      ensures (Snapshot(), ok) == Alone(acct, old(Snapshot()), Begin(Invite(me, target)), 0)
      ensures ok <==> exists t :: old(MayInvite(acct, Snapshot(), me, target, t))
      ensures forall t :: old(MayInvite(acct, Snapshot(), me, target, t)) ==>
                Snapshot() == Seated(acct, old(Snapshot()), t, target)
      ensures forall t :: old(RollsOff(acct, Snapshot(), me, target, t)) ==>
                Snapshot() == WithoutMember(old(Snapshot()), t, target)
      ensures !ok && (forall t :: !old(RollsOff(acct, Snapshot(), me, target, t))) ==> Snapshot() == old(Snapshot())
    {
      InviteExactly(acct, Snapshot(), me, target);
      hide MayInvite;
      hide RollsOff;
      hide Seated;
      hide WithoutMember;
      AloneDone(acct, Snapshot(), false, 0);
      hide Alone;
      hide StepProcAt;
      hide StepProc;
      hide Shrink;
      AloneAfterLoad(acct, Snapshot(), Invite(me, target), 0);
      var tid := CurrentTeam(me);
      if tid.None? || teams[tid.value].owner != me {
        return false;
      }
      var id := tid.value;
      var a := acct(target);
      FindAlone(acct, Snapshot(), id, target);
      if a !in users {
        return false;
      }
      ReserveAlone(acct, Snapshot(), id, target);
      var t := teams[id];
      var member := HasMemberLoop(t.members, target);
      if !member {
        if |t.members| >= t.seats {
          return false;
        }
        teams := teams[id := t.(members := t.members + [target])];
      }
      LinkAlone(acct, Snapshot(), id, target);
      if users[a].Some? && users[a] != Some(id) {
        UpdateRemove(id, target);
        return false;
      }
      users := users[a := Some(id)];
      ok := true;
    }

    method HandleTeamRemove(me: User, target: User) returns (ok: bool)
      modifies this
      ensures (Snapshot(), ok) == Alone(acct, old(Snapshot()), Begin(Remove(me, target)), 0)
      ensures ok <==> exists t :: old(MayRemove(acct, Snapshot(), me, target, t))
      ensures !ok ==> Snapshot() == old(Snapshot())
      ensures forall t :: old(MayRemove(acct, Snapshot(), me, target, t)) ==>
                Snapshot() == Unlinked(WithoutMember(old(Snapshot()), t, target), t, acct(target))
    {
      RemoveExactly(acct, Snapshot(), me, target, 0);
      hide MayRemove;
      hide Unlinked;
      hide WithoutMember;
      AloneAfterLoad(acct, Snapshot(), Remove(me, target), 0);
      var tid := CurrentTeam(me);
      if tid.None? || teams[tid.value].owner != me || target == teams[tid.value].owner {
        return false;
      }
      var id := tid.value;
      var member := HasMemberLoop(teams[id].members, target);
      if !member {
        return false;
      }
      AloneStep(acct, Snapshot(), DropMember(id, target), 0);
      UpdateRemove(id, target);
      AloneStep(acct, Snapshot(), DropLink(id, target), 0);
      UpdateUnlink(id, target);
      ok := true;
    }

    method HandleTeamLeave(me: User) returns (ok: bool)
      modifies this
      ensures (Snapshot(), ok) == Alone(acct, old(Snapshot()), Begin(Leave(me)), 0)
      ensures ok <==> exists t :: old(MayLeave(acct, Snapshot(), me, t))
      ensures !ok ==> Snapshot() == old(Snapshot())
      ensures forall t :: old(MayLeave(acct, Snapshot(), me, t)) ==>
                Snapshot() == Unlinked(WithoutMember(old(Snapshot()), t, me), t, acct(me))
    {
      LeaveExactly(acct, Snapshot(), me, 0);
      hide MayLeave;
      hide Unlinked;
      hide WithoutMember;
      AloneAfterLoad(acct, Snapshot(), Leave(me), 0);
      var tid := CurrentTeam(me);
      if tid.None? || teams[tid.value].owner == me {
        return false;
      }
      var id := tid.value;
      AloneStep(acct, Snapshot(), DropMember(id, me), 0);
      UpdateRemove(id, me);
      AloneStep(acct, Snapshot(), DropLink(id, me), 0);
      UpdateUnlink(id, me);
      ok := true;
    }
  }
}
