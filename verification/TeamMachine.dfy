/**
 Team membership (web/teams.go, web/team_handlers.go) as processes over two separately locked stores.
 Each handler is a sequence of atomic steps; a run interleaves the steps of any number of handlers.
 Stores do not fail; a team id, once minted, is never minted again. Here every account goes by one name;
 TeamNames has the machine on names as they are typed, and what carries over to it.
 */
module TeamMachine {
  import opened Bytes

  type User = string
  type TeamId = nat
  type Pid = nat

  const MIN_SEATS := 2
  const MAX_SEATS := 50
  const DEFAULT_SEATS := 5

  datatype Team = Team(owner: User, members: seq<User>, seats: int)

  function HasMember(members: seq<User>, u: User): bool {
    u in members
  }

  /** removeMember: the other members, in order. */
  function Without(members: seq<User>, u: User): (r: seq<User>)
    ensures u !in r
    ensures forall v :: v != u ==> (v in r <==> v in members)
    ensures |r| <= |members|
  {
    if members == [] then []
    else
      var init, m := members[..|members| - 1], members[|members| - 1];
      if m == u then Without(init, u) else Without(init, u) + [m]
  }

  lemma WithoutSnoc(a: seq<User>, m: User, u: User)
    ensures Without(a + [m], u) == if m == u then Without(a, u) else Without(a, u) + [m]
  {
    assert (a + [m])[..|a|] == a;
  }

  lemma {:induction false} WithoutConcat(a: seq<User>, b: seq<User>, u: User)
    ensures Without(a + b, u) == Without(a, u) + Without(b, u)
  {
    if b == [] {
      assert a + b == a;
    } else {
      var b', m := b[..|b| - 1], b[|b| - 1];
      WithoutConcat(a, b', u);
      WithoutSnoc(a + b', m, u);
      WithoutSnoc(b', m, u);
      hide Without;
      SplitLast(a, b);
      Assoc(Without(a, u), Without(b', u), [m]);
    }
  }

  lemma Assoc<T>(x: seq<T>, y: seq<T>, z: seq<T>)
    ensures (x + y) + z == x + (y + z)
  {
  }

  lemma SplitLast<T>(a: seq<T>, b: seq<T>)
    requires b != []
    ensures b == b[..|b| - 1] + [b[|b| - 1]] && a + b == (a + b[..|b| - 1]) + [b[|b| - 1]]
  {
  }

  lemma {:induction false} WithoutAbsent(a: seq<User>, u: User)
    requires u !in a
    ensures Without(a, u) == a
  {
    if a != [] {
      WithoutAbsent(a[..|a| - 1], u);
      assert a == a[..|a| - 1] + [a[|a| - 1]];
    }
  }

  /** Only the named member goes: everybody around each mention stays, as often and in the order they stood. */
  lemma {:induction false} WithoutRest(a: seq<User>, b: seq<User>, u: User)
    requires u !in a
    ensures Without(a, u) == a && Without(a + [u] + b, u) == a + Without(b, u)
  {
    WithoutAbsent(a, u);
    WithoutConcat(a + [u], b, u);
    WithoutConcat(a, [u], u);
    assert [u][..0] == [];
  }

  datatype Request =
    | Create(me: User, wanted: Option<int>)
    | Invite(me: User, target: User)
    | Remove(me: User, target: User)
    | Leave(me: User)

  /** Where a handler stands: what it has read and what it will do next. */
  datatype Proc =
    | Begin(req: Request)                          // about to load the caller's record
    | Loaded(req: Request, tid: TeamId)            // about to load the caller's team
    | Mint(me: User, seats: int)                   // create: about to write the new team
    | LinkOwner(me: User, tid: TeamId)             // create: about to link the owner
    | Discard(me: User, tid: TeamId)               // create: about to delete the team again
    | FindTarget(tid: TeamId, target: User)        // invite: about to look the target up
    | Reserve(tid: TeamId, target: User)           // invite: about to take a seat
    | LinkTarget(tid: TeamId, target: User)        // invite: about to link the target
    | Unreserve(tid: TeamId, target: User)         // invite: about to give the seat back
    | DropMember(tid: TeamId, target: User)        // remove and leave: about to shrink the team
    | DropLink(tid: TeamId, target: User)          // remove and leave: about to unlink the user
    | Done(ok: bool)

  /**
   `teams` is the team store, `users` the TeamID field of every account, `minted` the ids ever used.
   */
  datatype State = State(
    teams: map<TeamId, Team>,
    users: map<User, Option<TeamId>>,
    procs: map<Pid, Proc>,
    minted: set<TeamId>)

  function SeatsAsked(wanted: Option<int>): int {
    if wanted.Some? && wanted.value > 0 then wanted.value else DEFAULT_SEATS
  }

  /** What currentTeam finding no team means for each handler. */
  function NoTeam(req: Request): Proc {
    if req.Create? then Mint(req.me, SeatsAsked(req.wanted)) else Done(false)
  }

  /** What each handler does once currentTeam has returned a team. */
  function WithTeam(req: Request, tid: TeamId, t: Team): Proc {
    match req
    case Create(_, _) => Done(false)
    case Invite(me, target) => if t.owner != me then Done(false) else FindTarget(tid, target)
    case Remove(me, target) =>
      if t.owner != me || target == t.owner || !HasMember(t.members, target) then Done(false)
      else DropMember(tid, target)
    case Leave(me) => if t.owner == me then Done(false) else DropMember(tid, me)
  }

  function Shrink(teams: map<TeamId, Team>, tid: TeamId, u: User): map<TeamId, Team> {
    if tid in teams then teams[tid := teams[tid].(members := Without(teams[tid].members, u))] else teams
  }

  function Unlink(users: map<User, Option<TeamId>>, tid: TeamId, u: User): map<User, Option<TeamId>> {
    if u in users && users[u] == Some(tid) then users[u := None] else users
  }

  /** The stores and the process after its next atomic step. `newId` is the id newID would return. */
  function StepProc(s: State, p: Proc, newId: TeamId): (State, Proc) {
    match p
    case Begin(req) =>
      if req.me in s.users && s.users[req.me].Some? then (s, Loaded(req, s.users[req.me].value))
      else (s, NoTeam(req))
    case Loaded(req, tid) =>
      if tid in s.teams then (s, WithTeam(req, tid, s.teams[tid])) else (s, NoTeam(req))
    case Mint(me, seats) =>
      if seats < MIN_SEATS || seats > MAX_SEATS || newId in s.minted then (s, Done(false))
      else (s.(teams := s.teams[newId := Team(me, [me], seats)], minted := s.minted + {newId}), LinkOwner(me, newId))
    case LinkOwner(me, tid) =>
      if me !in s.users || s.users[me].Some? then (s, Discard(me, tid))
      else (s.(users := s.users[me := Some(tid)]), Done(true))
    case Discard(me, tid) => (s.(teams := s.teams - {tid}), Done(false))
    case FindTarget(tid, target) =>
      if target in s.users then (s, Reserve(tid, target)) else (s, Done(false))
    case Reserve(tid, target) =>
      if tid !in s.teams then (s, Done(false))
      else
        var t := s.teams[tid];
        if HasMember(t.members, target) then (s, LinkTarget(tid, target))
        else if |t.members| >= t.seats then (s, Done(false))
        else (s.(teams := s.teams[tid := t.(members := t.members + [target])]), LinkTarget(tid, target))
    case LinkTarget(tid, target) =>
      if target !in s.users || (s.users[target].Some? && s.users[target] != Some(tid)) then (s, Unreserve(tid, target))
      else (s.(users := s.users[target := Some(tid)]), Done(true))
    case Unreserve(tid, target) => (s.(teams := Shrink(s.teams, tid, target)), Done(false))
    case DropMember(tid, target) => (s.(teams := Shrink(s.teams, tid, target)), DropLink(tid, target))
    case DropLink(tid, target) => (s.(users := Unlink(s.users, tid, target)), Done(true))
    case Done(_) => (s, p)
  }

  /** A request arriving on a new process, one step of a process already there, or an account being opened. */
  datatype Event = Arrive(pid: Pid, req: Request) | Advance(pid: Pid, newId: TeamId) | Register(user: User)

  function Step(s: State, e: Event): State {
    match e
    case Arrive(pid, req) =>
      if pid in s.procs then s else s.(procs := s.procs[pid := Begin(req)])
    case Advance(pid, newId) =>
      if pid !in s.procs then s
      else
        var (s', p') := StepProc(s, s.procs[pid], newId);
        s'.(procs := s.procs[pid := p'])
    case Register(u) => if u in s.users then s else s.(users := s.users[u := None])
  }

  function Run(s: State, events: seq<Event>): State {
    if events == [] then s else Step(Run(s, events[..|events| - 1]), events[|events| - 1])
  }

  /** No teams yet, every account unlinked, no handler running. */
  predicate Initial(s: State) {
    s.teams == map[] && s.procs == map[] && s.minted == {} && forall u :: u in s.users ==> s.users[u] == None
  }

  lemma RunSnoc(s: State, events: seq<Event>, e: Event)
    ensures Run(s, events + [e]) == Step(Run(s, events), e)
  {
    assert (events + [e])[..|events|] == events;
  }

  lemma RunOne(s: State, e: Event)
    ensures Run(s, [e]) == Step(s, e)
  {
    assert [e][..0] == [];
  }

  lemma {:induction false} RunJoin(s: State, a: seq<Event>, b: seq<Event>)
    ensures Run(s, a + b) == Run(Run(s, a), b)
  {
    hide Step;
    if b == [] {
      assert a + b == a;
    } else {
      var b' := b[..|b| - 1];
      RunJoin(s, a, b');
      assert (a + b)[..|a + b| - 1] == a + b';
    }
  }
}
