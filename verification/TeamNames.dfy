/**
 The team machine on names as they are typed. An account's record is reached through the last element of
 the name's path (web/accounts.go), while rosters, owners and requests keep the name itself; so several
 names can lead to one account. As long as the names in use do not, the machine is the one of TeamMachine
 seen through them, and everything proved there holds of it.
 */
module TeamNames {
  import opened Bytes
  import opened Names
  import opened TeamMachine
  import opened TeamOwner
  import opened TeamAgreement
  import opened TeamOrder

  /** The handler's next step. Only the account store looks a name's account up. */
  function StepProcAt(acct: Accounts, s: State, p: Proc, newId: TeamId): (State, Proc) {
    match p
    case Begin(req) =>
      var a := acct(req.me);
      if a in s.users && s.users[a].Some? then (s, Loaded(req, s.users[a].value)) else (s, NoTeam(req))
    case LinkOwner(me, tid) =>
      var a := acct(me);
      if a !in s.users || s.users[a].Some? then (s, Discard(me, tid))
      else (s.(users := s.users[a := Some(tid)]), Done(true))
    case FindTarget(tid, target) =>
      if acct(target) in s.users then (s, Reserve(tid, target)) else (s, Done(false))
    case LinkTarget(tid, target) =>
      var a := acct(target);
      if a !in s.users || (s.users[a].Some? && s.users[a] != Some(tid)) then (s, Unreserve(tid, target))
      else (s.(users := s.users[a := Some(tid)]), Done(true))
    case DropLink(tid, target) => (s.(users := Unlink(s.users, tid, acct(target))), Done(true))
    case _ => StepProc(s, p, newId)
  }

  function StepAt(acct: Accounts, s: State, e: Event): State {
    match e
    case Advance(pid, newId) =>
      if pid !in s.procs then s
      else
        var (s', p') := StepProcAt(acct, s, s.procs[pid], newId);
        s'.(procs := s.procs[pid := p'])
    case _ => Step(s, e)
  }

  function RunAt(acct: Accounts, s: State, events: seq<Event>): State {
    if events == [] then s else StepAt(acct, RunAt(acct, s, events[..|events| - 1]), events[|events| - 1])
  }

  predicate NamedReq(req: Request, names: set<User>) {
    match req
    case Create(me, _) => me in names
    case Invite(me, target) => me in names && target in names
    case Remove(me, target) => me in names && target in names
    case Leave(me) => me in names
  }

  /** Only names of accounts' own are registered. */
  predicate NamedEvent(acct: Accounts, e: Event, names: set<User>) {
    match e
    case Arrive(_, req) => NamedReq(req, names)
    case Advance(_, _) => true
    case Register(u) => u in names && acct(u) == u
  }

  predicate Named(acct: Accounts, events: seq<Event>, names: set<User>) {
    forall i :: 0 <= i < |events| ==> NamedEvent(acct, events[i], names)
  }

  predicate NamedProc(p: Proc, names: set<User>) {
    match p
    case Begin(req) => NamedReq(req, names)
    case Loaded(req, _) => NamedReq(req, names)
    case Mint(me, _) => me in names
    case LinkOwner(me, _) => me in names
    case Discard(me, _) => me in names
    case FindTarget(_, u) => u in names
    case Reserve(_, u) => u in names
    case LinkTarget(_, u) => u in names
    case Unreserve(_, u) => u in names
    case DropMember(_, u) => u in names
    case DropLink(_, u) => u in names
    case Done(_) => true
  }

  ghost predicate NamedProcs(s: State, names: set<User>) {
    forall p :: p in s.procs ==> NamedProc(s.procs[p], names)
  }

  /** The names' accounts, each under its name. */
  function ViewUsers(acct: Accounts, names: set<User>, users: map<User, Option<TeamId>>): map<User, Option<TeamId>> {
    map n | n in names && acct(n) in users :: users[acct(n)]
  }

  /** The state as seen through the names. */
  function View(acct: Accounts, names: set<User>, s: State): State {
    s.(users := ViewUsers(acct, names, s.users))
  }

  ghost predicate Apart(acct: Accounts, names: set<User>) {
    forall m, n :: m in names && n in names && acct(m) == acct(n) ==> m == n
  }

  lemma ViewAt(acct: Accounts, names: set<User>, users: map<User, Option<TeamId>>, n: User)
    ensures n in ViewUsers(acct, names, users) <==> n in names && acct(n) in users
    ensures n in ViewUsers(acct, names, users) ==> ViewUsers(acct, names, users)[n] == users[acct(n)]
  {
  }

  /** Writing a name's account shows under that name and no other. */
  lemma ViewWrite(acct: Accounts, names: set<User>, users: map<User, Option<TeamId>>, n: User, v: Option<TeamId>)
    requires Apart(acct, names) && n in names
    ensures ViewUsers(acct, names, users[acct(n) := v]) == ViewUsers(acct, names, users)[n := v]
  {
    var a, b := ViewUsers(acct, names, users[acct(n) := v]), ViewUsers(acct, names, users)[n := v];
    hide *;
    forall k: User
      ensures SameAt(a, b, k)
    {
      WriteShows(acct, names, users, n, v, k);
    }
    SameMap(a, b);
  }

  predicate SameAt(a: map<User, Option<TeamId>>, b: map<User, Option<TeamId>>, k: User) {
    (k in a <==> k in b) && (k in a && k in b ==> a[k] == b[k])
  }

  lemma SameMap(a: map<User, Option<TeamId>>, b: map<User, Option<TeamId>>)
    requires forall k: User :: SameAt(a, b, k)
    ensures a == b
  {
    forall k: User
      ensures k in a <==> k in b
      ensures k in a && k in b ==> a[k] == b[k]
    {
      assert SameAt(a, b, k);
    }
    assert a.Keys == b.Keys;
  }

  lemma WriteShows(acct: Accounts, names: set<User>, users: map<User, Option<TeamId>>, n: User, v: Option<TeamId>, k: User)
    requires Apart(acct, names) && n in names
    ensures SameAt(ViewUsers(acct, names, users[acct(n) := v]), ViewUsers(acct, names, users)[n := v], k)
  {
    ViewAt(acct, names, users[acct(n) := v], k);
    ViewAt(acct, names, users, k);
    assert k in names && acct(k) == acct(n) ==> k == n;
    hide ViewUsers;
    hide Apart;
  }

  lemma ViewSame(acct: Accounts, names: set<User>, users: map<User, Option<TeamId>>, n: User)
    requires Apart(acct, names) && n in names
    ensures var v := ViewUsers(acct, names, users);
            && (n in v <==> acct(n) in users) && (n in v ==> v[n] == users[acct(n)])
  {
    ViewAt(acct, names, users, n);
  }

  predicate TouchesUsers(p: Proc) {
    p.Begin? || p.LinkOwner? || p.FindTarget? || p.LinkTarget? || p.DropLink?
  }

  lemma ViewProcStep(acct: Accounts, names: set<User>, s: State, p: Proc, id: TeamId)
    requires Apart(acct, names) && NamedProc(p, names)
    ensures StepProc(View(acct, names, s), p, id)
            == (View(acct, names, StepProcAt(acct, s, p, id).0), StepProcAt(acct, s, p, id).1)
  {
    if TouchesUsers(p) {
      ViewUserStep(acct, names, s, p, id);
    } else {
      ViewTeamStep(acct, names, s, p, id);
    }
  }

  lemma ViewUserStep(acct: Accounts, names: set<User>, s: State, p: Proc, id: TeamId)
    requires Apart(acct, names) && NamedProc(p, names) && TouchesUsers(p)
    ensures StepProc(View(acct, names, s), p, id)
            == (View(acct, names, StepProcAt(acct, s, p, id).0), StepProcAt(acct, s, p, id).1)
  {
    var n := if p.Begin? then p.req.me else if p.LinkOwner? then p.me else p.target;
    assert n in names;
    ViewSame(acct, names, s.users, n);
    if p.LinkOwner? || p.LinkTarget? {
      ViewWrite(acct, names, s.users, n, Some(p.tid));
    }
    if p.DropLink? {
      ViewWrite(acct, names, s.users, n, None);
    }
    hide ViewUsers;
    hide Apart;
  }

  lemma ViewTeamStep(acct: Accounts, names: set<User>, s: State, p: Proc, id: TeamId)
    requires !TouchesUsers(p)
    ensures StepProc(View(acct, names, s), p, id)
            == (View(acct, names, StepProcAt(acct, s, p, id).0), StepProcAt(acct, s, p, id).1)
  {
    hide ViewUsers;
  }

  lemma NamedStep(acct: Accounts, names: set<User>, s: State, p: Proc, id: TeamId)
    requires NamedProc(p, names)
    ensures NamedProc(StepProcAt(acct, s, p, id).1, names)
  {
  }

  lemma ViewStep(acct: Accounts, names: set<User>, s: State, e: Event)
    requires Apart(acct, names) && NamedProcs(s, names) && NamedEvent(acct, e, names)
    ensures View(acct, names, StepAt(acct, s, e)) == Step(View(acct, names, s), e)
    ensures NamedProcs(StepAt(acct, s, e), names)
  {
    if e.Advance? && e.pid in s.procs {
      ViewProcStep(acct, names, s, s.procs[e.pid], e.newId);
      NamedStep(acct, names, s, s.procs[e.pid], e.newId);
    }
    if e.Register? {
      ViewSame(acct, names, s.users, e.user);
      ViewWrite(acct, names, s.users, e.user, None);
    }
    hide StepProcAt;
    hide StepProc;
    hide NamedProc;
    hide ViewUsers;
  }

  lemma {:induction false} ViewRun(acct: Accounts, names: set<User>, s: State, events: seq<Event>)
    requires Initial(s) && Apart(acct, names) && Named(acct, events, names)
    ensures View(acct, names, RunAt(acct, s, events)) == Run(View(acct, names, s), events)
    ensures NamedProcs(RunAt(acct, s, events), names) && Initial(View(acct, names, s))
  {
    if events != [] {
      var init := events[..|events| - 1];
      ViewRun(acct, names, s, init);
      ViewStep(acct, names, RunAt(acct, s, init), events[|events| - 1]);
      hide StepAt;
      hide Step;
    }
  }

  ghost predicate NamedTeams(s: State, names: set<User>) {
    forall t :: t in s.teams ==> s.teams[t].owner in names && forall u :: u in s.teams[t].members ==> u in names
  }

  /** Every account that is linked is one of the names'. */
  ghost predicate NamedLinks(acct: Accounts, s: State, names: set<User>) {
    forall a :: a in s.users && s.users[a].Some? ==> exists n :: n in names && acct(n) == a
  }

  lemma TeamsStep(acct: Accounts, s: State, names: set<User>, p: Proc, id: TeamId)
    requires NamedTeams(s, names) && NamedProc(p, names)
    ensures NamedTeams(StepProcAt(acct, s, p, id).0, names)
  {
  }

  lemma LinksStep(acct: Accounts, s: State, names: set<User>, p: Proc, id: TeamId)
    requires NamedLinks(acct, s, names) && NamedProc(p, names)
    ensures NamedLinks(acct, StepProcAt(acct, s, p, id).0, names)
  {
  }

  lemma {:induction false} RunNamed(acct: Accounts, s: State, events: seq<Event>, names: set<User>)
    requires Initial(s) && Named(acct, events, names)
    ensures var r := RunAt(acct, s, events);
            NamedProcs(r, names) && NamedTeams(r, names) && NamedLinks(acct, r, names)
  {
    if events != [] {
      var init, e := events[..|events| - 1], events[|events| - 1];
      RunNamed(acct, s, init, names);
      StepNamed(acct, RunAt(acct, s, init), e, names);
      hide StepAt;
    }
  }

  lemma StepNamed(acct: Accounts, s: State, e: Event, names: set<User>)
    requires NamedProcs(s, names) && NamedTeams(s, names) && NamedLinks(acct, s, names) && NamedEvent(acct, e, names)
    ensures var r := StepAt(acct, s, e);
            NamedProcs(r, names) && NamedTeams(r, names) && NamedLinks(acct, r, names)
  {
    if e.Advance? && e.pid in s.procs {
      var p := s.procs[e.pid];
      TeamsStep(acct, s, names, p, e.newId);
      LinksStep(acct, s, names, p, e.newId);
      NamedStep(acct, names, s, p, e.newId);
    }
    hide StepProcAt;
    hide StepProc;
    hide NamedProc;
  }

  // What the stores say of a name.

  ghost predicate LinkedAt(acct: Accounts, s: State, t: TeamId, u: User) {
    acct(u) in s.users && s.users[acct(u)] == Some(t)
  }

  ghost predicate SettledAt(acct: Accounts, s: State, t: TeamId) {
    t in s.teams && LinkedAt(acct, s, t, s.teams[t].owner)
  }

  /** Sound rosters, and no account linked to a team that is missing or not yet its owner's. */
  ghost predicate SoundAt(acct: Accounts, s: State) {
    && (forall t :: t in s.teams ==> SoundRoster(s.teams[t]))
    && (forall a :: a in s.users && s.users[a].Some? ==> SettledAt(acct, s, s.users[a].value))
  }

  lemma LinkedInView(acct: Accounts, names: set<User>, s: State, t: TeamId, u: User)
    requires u in names
    ensures Linked(View(acct, names, s), t, u) <==> LinkedAt(acct, s, t, u)
    ensures OnRoster(View(acct, names, s), t, u) <==> OnRoster(s, t, u)
  {
    ViewAt(acct, names, s.users, u);
    hide ViewUsers;
  }

  lemma SettledInView(acct: Accounts, names: set<User>, s: State, t: TeamId)
    requires NamedTeams(s, names)
    ensures Settled(View(acct, names, s), t) <==> SettledAt(acct, s, t)
  {
    if t in s.teams {
      LinkedInView(acct, names, s, t, s.teams[t].owner);
    }
    hide ViewUsers;
  }

  /** The view of a run of the names in use is a run of the machine with one name each. */
  lemma {:induction false} RunInView(acct: Accounts, names: set<User>, s: State, events: seq<Event>)
    requires Initial(s) && Apart(acct, names) && Named(acct, events, names)
    ensures var (v0, r) := (View(acct, names, s), RunAt(acct, s, events));
            && Initial(v0) && View(acct, names, r) == Run(v0, events) && Inv(View(acct, names, r))
            && NamedTeams(r, names) && NamedLinks(acct, r, names)
  {
    ViewRun(acct, names, s, events);
    RunNamed(acct, s, events, names);
    RostersSound(View(acct, names, s), events);
    hide *;
  }

  /** Rosters and links stay sound over every interleaving. */
  lemma {:induction false} RostersSoundAt(acct: Accounts, names: set<User>, s: State, events: seq<Event>)
    requires Initial(s) && Apart(acct, names) && Named(acct, events, names)
    ensures SoundAt(acct, RunAt(acct, s, events))
  {
    RunInView(acct, names, s, events);
    SoundFromView(acct, names, RunAt(acct, s, events));
    hide *;
  }

  lemma {:induction false} SoundFromView(acct: Accounts, names: set<User>, s: State)
    requires NamedTeams(s, names) && NamedLinks(acct, s, names) && Inv(View(acct, names, s))
    ensures SoundAt(acct, s)
  {
    var v := View(acct, names, s);
    assert StoresSound(v);
    forall a | a in s.users && s.users[a].Some?
      ensures SettledAt(acct, s, s.users[a].value)
    {
      var n :| n in names && acct(n) == a;
      ViewAt(acct, names, s.users, n);
      assert Settled(v, v.users[n].value);
      SettledInView(acct, names, s, s.users[a].value);
    }
    hide Settled;
    hide SettledAt;
    hide SoundRoster;
  }

  /** Once a team's owner is linked to it, nothing that follows unlinks, replaces or removes the owner. */
  lemma {:induction false} OwnerStaysAt(acct: Accounts, names: set<User>, s: State, a: seq<Event>, b: seq<Event>, t: TeamId)
    requires Initial(s) && Apart(acct, names) && Named(acct, a + b, names) && SettledAt(acct, RunAt(acct, s, a), t)
    ensures var (r, r') := (RunAt(acct, s, a), RunAt(acct, s, a + b));
            && SettledAt(acct, r', t) && r'.teams[t].owner == r.teams[t].owner
            && r'.teams[t].owner in r'.teams[t].members
  {
    NamedFront(acct, a, b, names);
    RunInView(acct, names, s, a);
    RunInView(acct, names, s, a + b);
    var (v0, r, r') := (View(acct, names, s), RunAt(acct, s, a), RunAt(acct, s, a + b));
    SettledInView(acct, names, r, t);
    RunJoin(v0, a, b);
    OwnerStays(View(acct, names, r), b, t);
    SettledInView(acct, names, r', t);
    ViewTeams(acct, names, r);
    ViewTeams(acct, names, r');
    hide *;
  }

  lemma ViewTeams(acct: Accounts, names: set<User>, s: State)
    ensures View(acct, names, s).teams == s.teams && View(acct, names, s).procs == s.procs
  {
  }

  lemma NamedFront(acct: Accounts, a: seq<Event>, b: seq<Event>, names: set<User>)
    requires Named(acct, a + b, names)
    ensures Named(acct, a, names)
  {
    forall i | 0 <= i < |a|
      ensures NamedEvent(acct, a[i], names)
    {
      assert (a + b)[i] == a[i];
    }
  }

  function EventWriteAt(acct: Accounts, s: State, e: Event): Option<Write> {
    if e.Advance? && e.pid in s.procs
    then WriteFrom(e.pid, s.procs[e.pid], StepProcAt(acct, s, s.procs[e.pid], e.newId).1, e.newId) else None
  }

  /** The writes of a run, in order, under the names they were made. */
  function WritesAt(acct: Accounts, s: State, events: seq<Event>): seq<Write> {
    if events == [] then []
    else
      var init := events[..|events| - 1];
      Push(WritesAt(acct, s, init), EventWriteAt(acct, RunAt(acct, s, init), events[|events| - 1]))
  }

  lemma {:induction false} WritesInView(acct: Accounts, names: set<User>, s: State, events: seq<Event>)
    requires Initial(s) && Apart(acct, names) && Named(acct, events, names)
    ensures WritesAt(acct, s, events) == Writes(View(acct, names, s), events)
  {
    if events != [] {
      var init, e := events[..|events| - 1], events[|events| - 1];
      WritesInView(acct, names, s, init);
      ViewRun(acct, names, s, init);
      var r := RunAt(acct, s, init);
      if e.Advance? && e.pid in r.procs {
        ViewProcStep(acct, names, r, r.procs[e.pid], e.newId);
      }
      hide StepProcAt;
      hide StepProc;
      hide WriteFrom;
      hide StepAt;
      hide Step;
      hide ViewUsers;
    }
  }

  ghost predicate AgreesOn(acct: Accounts, s: State, t: TeamId, u: User) {
    OnRoster(s, t, u) <==> LinkedAt(acct, s, t, u)
  }

  /** On one name: quiet stores agree exactly when no two opposed handlers crossed there. */
  lemma {:induction false} AgreesOnExactly(acct: Accounts, names: set<User>, s: State, events: seq<Event>, t: TeamId, u: User)
    requires Initial(s) && Apart(acct, names) && Named(acct, events, names) && u in names
    requires Quiet(RunAt(acct, s, events))
    ensures AgreesOn(acct, RunAt(acct, s, events), t, u) <==> !Crossed(WritesAt(acct, s, events), t, u)
  {
    RunInView(acct, names, s, events);
    WritesInView(acct, names, s, events);
    var (v0, r) := (View(acct, names, s), RunAt(acct, s, events));
    RunFollows(v0, events);
    ViewTeams(acct, names, r);
    LinkedInView(acct, names, r, t, u);
    QuietSame(r, View(acct, names, r));
    AgreesAtExactly(View(acct, names, r), Writes(v0, events), t, u);
    hide Run;
    hide RunAt;
    hide Writes;
    hide WritesAt;
    hide View;
    hide Crossed;
    hide OnRoster;
    hide LinkedAt;
    hide Linked;
  }

  lemma QuietSame(s: State, v: State)
    requires s.procs == v.procs
    ensures Quiet(s) <==> Quiet(v)
  {
  }
}
