/**
 What the team handlers promise on names as they are typed, and exactly when: as long as no two of the
 names in use lead to one account. With a second spelling in use each promise fails, and every account has
 one (web/accounts.go looks names up by their last path element and checks them only when they are registered).
 */
module TeamSpelling {
  import opened Bytes
  import opened Names
  import opened TeamMachine
  import opened TeamOwner
  import opened TeamAgreement
  import opened TeamOrder
  import opened TeamNames
  import opened TeamHandlers
  import opened TeamRace
  import opened TeamRuns

  ghost predicate Within(names: set<User>, n: iset<User>) {
    forall u :: u in names ==> u in n
  }

  /** All the names the events use are in n. */
  ghost predicate From(acct: Accounts, events: seq<Event>, n: iset<User>) {
    exists names: set<User> :: Within(names, n) && Named(acct, events, names)
  }

  lemma NamedMore(acct: Accounts, events: seq<Event>, names: set<User>, more: set<User>)
    requires Named(acct, events, names) && names <= more
    ensures Named(acct, events, more)
  {
    forall i | 0 <= i < |events|
      ensures NamedEvent(acct, events[i], more)
    {
      assert NamedEvent(acct, events[i], names);
    }
  }

  /** The names of a run and one more, all apart. */
  lemma Typed(acct: Accounts, n: iset<User>, events: seq<Event>, u: User) returns (names: set<User>)
    requires OneSpelling(acct, n) && From(acct, events, n) && u in n
    ensures u in names && Within(names, n) && Apart(acct, names) && Named(acct, events, names)
  {
    var used: set<User> :| Within(used, n) && Named(acct, events, used);
    names := used + {u};
    NamedMore(acct, events, used, names);
    hide Named;
  }

  lemma TypedAll(acct: Accounts, n: iset<User>, events: seq<Event>) returns (names: set<User>)
    requires OneSpelling(acct, n) && From(acct, events, n)
    ensures Within(names, n) && Apart(acct, names) && Named(acct, events, names)
  {
    names :| Within(names, n) && Named(acct, events, names);
    hide Named;
  }

  // What carries over from the view.

  lemma ViewAgrees(acct: Accounts, names: set<User>, s: State, events: seq<Event>, t: TeamId, u: User)
    requires Initial(s) && Apart(acct, names) && Named(acct, events, names) && u in names
    requires Agreement(Run(View(acct, names, s), events))
    ensures AgreesOn(acct, RunAt(acct, s, events), t, u)
  {
    RunInView(acct, names, s, events);
    LinkedInView(acct, names, RunAt(acct, s, events), t, u);
    var v := Run(View(acct, names, s), events);
    assert OnRoster(v, t, u) <==> Linked(v, t, u);
    hide Agreement;
    hide OnRoster;
    hide Linked;
    hide LinkedAt;
    hide View;
    hide Run;
    hide RunAt;
  }

  lemma QuietInView(acct: Accounts, names: set<User>, s: State, events: seq<Event>)
    requires Initial(s) && Apart(acct, names) && Named(acct, events, names)
    ensures Initial(View(acct, names, s))
    ensures Quiet(RunAt(acct, s, events)) <==> Quiet(Run(View(acct, names, s), events))
  {
    RunInView(acct, names, s, events);
    ViewTeams(acct, names, RunAt(acct, s, events));
    QuietSame(RunAt(acct, s, events), Run(View(acct, names, s), events));
    hide *;
  }

  /** Nobody owns two teams, under any spellings. */
  ghost predicate OneTeamPerAccount(acct: Accounts, s: State) {
    forall t1, t2 :: t1 in s.teams && t2 in s.teams && acct(s.teams[t1].owner) == acct(s.teams[t2].owner) ==> t1 == t2
  }

  lemma ViewOwners(acct: Accounts, names: set<User>, s: State, events: seq<Event>)
    requires Initial(s) && Apart(acct, names) && Named(acct, events, names)
    requires OneTeamPerOwner(Run(View(acct, names, s), events))
    ensures OneTeamPerAccount(acct, RunAt(acct, s, events))
  {
    RunInView(acct, names, s, events);
    var r := RunAt(acct, s, events);
    ViewTeams(acct, names, r);
    assert NamedTeams(r, names);
    hide View;
    hide Run;
    hide RunAt;
  }

  /** Over every run each store says of every name what was last written about it. */
  lemma FollowsAt(acct: Accounts, n: iset<User>, s: State, events: seq<Event>, t: TeamId, u: User)
    requires OneSpelling(acct, n) && Initial(s) && From(acct, events, n) && u in n
    ensures var (r, w) := (RunAt(acct, s, events), WritesAt(acct, s, events));
            && (OnRoster(r, t, u) <==> LastSeats(w, Roster, t, u))
            && (LinkedAt(acct, r, t, u) <==> LastSeats(w, Link, t, u))
  {
    var names := Typed(acct, n, events, u);
    RunInView(acct, names, s, events);
    WritesInView(acct, names, s, events);
    RunFollows(View(acct, names, s), events);
    LinkedInView(acct, names, RunAt(acct, s, events), t, u);
    FollowsThere(Run(View(acct, names, s), events), WritesAt(acct, s, events), t, u);
    hide *;
  }

  lemma FollowsThere(s: State, w: seq<Write>, t: TeamId, u: User)
    requires Follows(s, w)
    ensures (OnRoster(s, t, u) <==> LastSeats(w, Roster, t, u)) && (Linked(s, t, u) <==> LastSeats(w, Link, t, u))
  {
    hide OnRoster;
    hide Linked;
    hide LastSeats;
  }

  /** Two opposed handlers, the last to write about a name: the stores agree on it exactly when they wrote in the same order. */
  lemma TwoSectionsAt(acct: Accounts, n: iset<User>, s: State, events: seq<Event>, p: Pid, q: Pid, t: TeamId, u: User)
    requires OneSpelling(acct, n) && Initial(s) && From(acct, events, n) && u in n && Quiet(RunAt(acct, s, events))
    requires Opposed(WritesAt(acct, s, events), p, q, t, u) && LastTwo(WritesAt(acct, s, events), p, q, t, u)
    ensures var w := WritesAt(acct, s, events);
            && LastBy(w, p, Roster).Some? && LastBy(w, q, Roster).Some? && LastBy(w, p, Link).Some? && LastBy(w, q, Link).Some?
            && (AgreesOn(acct, RunAt(acct, s, events), t, u) <==> SameOrder(w, p, q))
  {
    var names := Typed(acct, n, events, u);
    QuietInView(acct, names, s, events);
    RunInView(acct, names, s, events);
    WritesInView(acct, names, s, events);
    TwoSectionsExactly(View(acct, names, s), events, p, q, t, u);
    LinkedInView(acct, names, RunAt(acct, s, events), t, u);
    AgreesIs(acct, RunAt(acct, s, events), Run(View(acct, names, s), events), t, u);
    hide *;
  }

  lemma AgreesIs(acct: Accounts, r: State, v: State, t: TeamId, u: User)
    requires (Linked(v, t, u) <==> LinkedAt(acct, r, t, u)) && (OnRoster(v, t, u) <==> OnRoster(r, t, u))
    ensures AgreesOn(acct, r, t, u) <==> AgreesAt(v, t, u)
  {
    hide OnRoster;
    hide Linked;
    hide LinkedAt;
  }

  // Runs on which the stores need no looking at.

  /** Each request arrives only when every earlier handler is done. */
  ghost predicate SerialAt(acct: Accounts, s: State, events: seq<Event>) {
    forall i :: 0 <= i < |events| && events[i].Arrive? ==>
      forall p :: p in RunAt(acct, s, events[..i]).procs ==> RunAt(acct, s, events[..i]).procs[p].Done?
  }

  /** No invite's section ever overlaps a removal's section of the same name. */
  ghost predicate CalmAt(acct: Accounts, s: State, events: seq<Event>) {
    forall i :: 0 <= i <= |events| ==> NoOverlap(RunAt(acct, s, events[..i]))
  }

  lemma SerialFront(acct: Accounts, s: State, events: seq<Event>)
    requires SerialAt(acct, s, events) && events != []
    ensures SerialAt(acct, s, events[..|events| - 1])
    ensures events[|events| - 1].Arrive? ==>
              var r := RunAt(acct, s, events[..|events| - 1]);
              forall p :: p in r.procs ==> r.procs[p].Done?
  {
    var init := events[..|events| - 1];
    hide RunAt;
    forall i | 0 <= i < |init|
      ensures init[..i] == events[..i]
    {
    }
  }

  lemma CalmFront(acct: Accounts, s: State, events: seq<Event>)
    requires CalmAt(acct, s, events)
    ensures NoOverlap(RunAt(acct, s, events)) && (events != [] ==> CalmAt(acct, s, events[..|events| - 1]))
  {
    hide RunAt;
    hide NoOverlap;
    assert events[..|events|] == events;
    if events != [] {
      var init := events[..|events| - 1];
      forall i | 0 <= i <= |init|
        ensures init[..i] == events[..i]
      {
      }
    }
  }

  lemma NamedInit(acct: Accounts, events: seq<Event>, names: set<User>)
    requires Named(acct, events, names) && events != []
    ensures Named(acct, events[..|events| - 1], names)
  {
  }

  lemma {:induction false} SerialInView(acct: Accounts, names: set<User>, s: State, events: seq<Event>)
    requires Initial(s) && Apart(acct, names) && Named(acct, events, names) && SerialAt(acct, s, events)
    ensures Serial(View(acct, names, s), events)
  {
    if events != [] {
      var init := events[..|events| - 1];
      SerialFront(acct, s, events);
      NamedInit(acct, events, names);
      SerialInView(acct, names, s, init);
      RunInView(acct, names, s, init);
      ViewTeams(acct, names, RunAt(acct, s, init));
      hide View;
      hide Run;
      hide RunAt;
      hide SerialAt;
      hide Named;
      hide Apart;
    }
  }

  lemma {:induction false} CalmInView(acct: Accounts, names: set<User>, s: State, events: seq<Event>)
    requires Initial(s) && Apart(acct, names) && Named(acct, events, names) && CalmAt(acct, s, events)
    ensures Calm(View(acct, names, s), events)
  {
    CalmFront(acct, s, events);
    RunInView(acct, names, s, events);
    ViewTeams(acct, names, RunAt(acct, s, events));
    OverlapSame(RunAt(acct, s, events), Run(View(acct, names, s), events));
    if events != [] {
      NamedInit(acct, events, names);
      CalmInView(acct, names, s, events[..|events| - 1]);
    }
    hide View;
    hide Run;
    hide RunAt;
    hide CalmAt;
    hide Named;
    hide Apart;
    hide NoOverlap;
  }

  lemma OverlapSame(s: State, v: State)
    requires s.procs == v.procs && NoOverlap(s)
    ensures NoOverlap(v)
  {
  }

  datatype Kind = Serially | Calmly | CreatesAndInvites | InOneOrder

  /** Runs on which no two handlers can cross. */
  ghost predicate OfKind(k: Kind, acct: Accounts, s: State, events: seq<Event>) {
    match k
    case Serially => SerialAt(acct, s, events)
    case Calmly => CalmAt(acct, s, events)
    case CreatesAndInvites => OnlyCreateInvite(events)
    case InOneOrder => AllSameOrder(WritesAt(acct, s, events))
  }

  lemma {:induction false} KindAgrees(k: Kind, acct: Accounts, names: set<User>, s: State, events: seq<Event>)
    requires Initial(s) && Apart(acct, names) && Named(acct, events, names)
    requires OfKind(k, acct, s, events) && Quiet(RunAt(acct, s, events))
    ensures var v := Run(View(acct, names, s), events);
            Agreement(v) && OneTeamPerOwner(v)
  {
    var v0 := View(acct, names, s);
    QuietInView(acct, names, s, events);
    hide Agreement;
    hide OneTeamPerOwner;
    hide Quiet;
    hide View;
    hide Run;
    hide RunAt;
    match k
    case Serially =>
      SerialInView(acct, names, s, events);
      SerialAgree(v0, events);
    case Calmly =>
      CalmInView(acct, names, s, events);
      CalmAgrees(v0, events);
    case CreatesAndInvites =>
      CreateInviteAgree(v0, events);
    case InOneOrder =>
      WritesInView(acct, names, s, events);
      SameOrderAgrees(v0, events);
  }

  // A second spelling.

  /** From any state: under another spelling of their name, an owner leaves a team that goes on having them as owner. */
  lemma LeaveUnlinksOwner(acct: Accounts, s: State, t: TeamId, n: User, q: Pid)
    requires SettledAt(acct, s, t) && q !in s.procs
    requires n != s.teams[t].owner && acct(n) == acct(s.teams[t].owner)
    ensures var (o, r) := (s.teams[t].owner, RunAt(acct, s, WholeHandler(q, Leave(n), 0)));
            && r == State(Shrink(s.teams, t, n), s.users[acct(n) := None], s.procs[q := Done(true)], s.minted)
            && r.teams[t].owner == o && (o in r.teams[t].members <==> o in s.teams[t].members)
            && !SettledAt(acct, r, t)
  {
    HandlerIsRun(acct, s, q, Leave(n), 0);
    LeaveAlone(acct, s.(procs := map[]), t, n);
    hide RunAt;
    hide WholeHandler;
    hide Alone;
    hide Without;
  }

  lemma LeaveAlone(acct: Accounts, s: State, t: TeamId, n: User)
    requires SettledAt(acct, s, t) && n != s.teams[t].owner && acct(n) == acct(s.teams[t].owner)
    ensures Alone(acct, s, Begin(Leave(n)), 0)
            == (s.(teams := Shrink(s.teams, t, n), users := s.users[acct(n) := None]), true)
  {
    var s' := s.(teams := Shrink(s.teams, t, n));
    LeaveSteps(acct, s, s', t, n);
    AloneAfterLoad(acct, s, Leave(n), 0);
    hide Alone;
    hide Shrink;
    hide StepProcAt;
    hide StepProc;
    AloneStep(acct, s, DropMember(t, n), 0);
    AloneStep(acct, s', DropLink(t, n), 0);
  }

  lemma LeaveSteps(acct: Accounts, s: State, s': State, t: TeamId, n: User)
    requires acct(n) in s.users && s.users[acct(n)] == Some(t) && s' == s.(teams := Shrink(s.teams, t, n))
    ensures StepProcAt(acct, s, DropMember(t, n), 0) == (s', DropLink(t, n))
    ensures StepProcAt(acct, s', DropLink(t, n), 0) == (s'.(users := s.users[acct(n) := None]), Done(true))
  {
    hide Without;
  }

  lemma CreateGoes(acct: Accounts, s: State, u: User, q: Pid, id: TeamId)
    requires q !in s.procs && id !in s.minted && acct(u) in s.users && s.users[acct(u)] == None
    ensures RunAt(acct, s, WholeHandler(q, Create(u, None), id))
            == State(s.teams[id := Team(u, [u], DEFAULT_SEATS)], s.users[acct(u) := Some(id)],
                     s.procs[q := Done(true)], s.minted + {id})
  {
    var s0 := s.(procs := map[]);
    HandlerIsRun(acct, s, q, Create(u, None), id);
    hide RunAt;
    hide WholeHandler;
    AloneAfterLoad(acct, s0, Create(u, None), id);
    AloneStep(acct, s0, Mint(u, DEFAULT_SEATS), id);
    AloneStep(acct, StepProcAt(acct, s0, Mint(u, DEFAULT_SEATS), id).0, LinkOwner(u, id), id);
  }

  /** And can then create a second one. */
  lemma SecondTeam(acct: Accounts, s: State, t: TeamId, n: User, q: Pid, p: Pid, id: TeamId)
    requires SettledAt(acct, s, t) && q !in s.procs && p !in s.procs && p != q && id !in s.minted && id != t
    requires n != s.teams[t].owner && acct(n) == acct(s.teams[t].owner)
    ensures var o := s.teams[t].owner;
            var r := RunAt(acct, s, WholeHandler(q, Leave(n), 0) + WholeHandler(p, Create(o, None), id));
            && r.procs == s.procs[q := Done(true)][p := Done(true)]
            && t in r.teams && id in r.teams && r.teams[t].owner == r.teams[id].owner == o
  {
    LeaveUnlinksOwner(acct, s, t, n, q);
    var (o, l) := (s.teams[t].owner, RunAt(acct, s, WholeHandler(q, Leave(n), 0)));
    CreateGoes(acct, l, o, p, id);
    RunAtAppend(acct, s, WholeHandler(q, Leave(n), 0), WholeHandler(p, Create(o, None), id));
    hide RunAt;
    hide WholeHandler;
    hide Without;
  }

  /**
   From any state: one invite under a name that is not the account's own links the account and puts the
   other name on the roster.
   */
  lemma InviteSpelled(acct: Accounts, s: State, t: TeamId, n: User, q: Pid)
    requires SettledAt(acct, s, t) && q !in s.procs && |s.teams[t].members| < s.teams[t].seats
    requires n !in s.teams[t].members && acct(n) in s.users && s.users[acct(n)] == None
    ensures var (o, r) := (s.teams[t], RunAt(acct, s, WholeHandler(q, Invite(s.teams[t].owner, n), 0)));
            && r == State(s.teams[t := o.(members := o.members + [n])], s.users[acct(n) := Some(t)],
                          s.procs[q := Done(true)], s.minted)
            && (acct(n) != n && acct(n) !in o.members ==>
                  Linked(r, t, acct(n)) && !OnRoster(r, t, acct(n)) && OnRoster(r, t, n))
  {
    HandlerIsRun(acct, s, q, Invite(s.teams[t].owner, n), 0);
    InviteAlone(acct, s.(procs := map[]), t, n);
    hide RunAt;
    hide WholeHandler;
    hide Alone;
  }

  lemma InviteAlone(acct: Accounts, s: State, t: TeamId, n: User)
    requires SettledAt(acct, s, t) && |s.teams[t].members| < s.teams[t].seats
    requires n !in s.teams[t].members && acct(n) in s.users && s.users[acct(n)] == None
    ensures var o := s.teams[t];
            Alone(acct, s, Begin(Invite(o.owner, n)), 0)
            == (s.(teams := s.teams[t := o.(members := o.members + [n])], users := s.users[acct(n) := Some(t)]), true)
  {
    var o := s.teams[t];
    AloneAfterLoad(acct, s, Invite(o.owner, n), 0);
    AloneStep(acct, s, FindTarget(t, n), 0);
    AloneStep(acct, s, Reserve(t, n), 0);
    AloneStep(acct, s.(teams := s.teams[t := o.(members := o.members + [n])]), LinkTarget(t, n), 0);
    hide Alone;
  }

  lemma AdvanceFirst(acct: Accounts, s: State, p: Pid, id: TeamId, k: nat)
    requires k > 0
    ensures RunAt(acct, s, Advances(p, id, k)) == RunAt(acct, StepAt(acct, s, Advance(p, id)), Advances(p, id, k - 1))
  {
    assert Advances(p, id, k) == [Advance(p, id)] + Advances(p, id, k - 1);
    RunAtAppend(acct, s, [Advance(p, id)], Advances(p, id, k - 1));
    RunAtOne(acct, s, Advance(p, id));
  }

  /** One step of process p, which stands at `at`, whatever the others do. */
  lemma AdvanceTo(acct: Accounts, s: State, p: Pid, at: Proc, s': State, next: Proc, k: nat)
    requires k > 0 && StepProcAt(acct, s, at, 0) == (s', next)
    ensures RunAt(acct, Goes(s, p, at), Advances(p, 0, k)) == RunAt(acct, Goes(s', p, next), Advances(p, 0, k - 1))
  {
    AdvanceFirst(acct, Goes(s, p, at), p, 0, k);
    StepIgnoresProcs(acct, s, Goes(s, p, at).procs, at, 0);
    StepIgnoresProcs(acct, s, s.procs, at, 0);
    hide RunAt;
    hide StepProcAt;
    assert s.procs[p := at][p := next] == s.procs[p := next];
  }

  /** An owner inviting themselves, up to the look at their account's link. */
  function InvitesOwner(p: Pid, o: User): seq<Event> {
    [Arrive(p, Invite(o, o))] + Advances(p, 0, 4)
  }

  lemma OwnerInvited(acct: Accounts, s: State, t: TeamId)
    requires SettledAt(acct, s, t) && s.teams[t].owner in s.teams[t].members
    ensures var o := s.teams[t].owner;
            && StepProcAt(acct, s, Begin(Invite(o, o)), 0) == (s, Loaded(Invite(o, o), t))
            && StepProcAt(acct, s, Loaded(Invite(o, o), t), 0) == (s, FindTarget(t, o))
            && StepProcAt(acct, s, FindTarget(t, o), 0) == (s, Reserve(t, o))
            && StepProcAt(acct, s, Reserve(t, o), 0) == (s, LinkTarget(t, o))
  {
  }

  lemma InvitesOwnerGoes(acct: Accounts, s: State, t: TeamId, p: Pid)
    requires SettledAt(acct, s, t) && s.teams[t].owner in s.teams[t].members && p !in s.procs
    ensures var o := s.teams[t].owner;
            RunAt(acct, s, InvitesOwner(p, o)) == Goes(s, p, LinkTarget(t, o))
  {
    var o := s.teams[t].owner;
    OwnerInvited(acct, s, t);
    RunAtAppend(acct, s, [Arrive(p, Invite(o, o))], Advances(p, 0, 4));
    RunAtOne(acct, s, Arrive(p, Invite(o, o)));
    assert StepAt(acct, s, Arrive(p, Invite(o, o))) == Goes(s, p, Begin(Invite(o, o)));
    hide StepProcAt;
    hide StepProc;
    hide StepAt;
    hide SettledAt;
    hide RunAt;
    hide Goes;
    hide Advances;
    AdvanceTo(acct, s, p, Begin(Invite(o, o)), s, Loaded(Invite(o, o), t), 4);
    AdvanceTo(acct, s, p, Loaded(Invite(o, o), t), s, FindTarget(t, o), 3);
    AdvanceTo(acct, s, p, FindTarget(t, o), s, Reserve(t, o), 2);
    AdvanceTo(acct, s, p, Reserve(t, o), s, LinkTarget(t, o), 1);
    Nothing(acct, Goes(s, p, LinkTarget(t, o)), p);
  }

  lemma Nothing(acct: Accounts, s: State, p: Pid)
    ensures RunAt(acct, s, Advances(p, 0, 0)) == s
  {
  }

  lemma GivesBack(acct: Accounts, s: State, t: TeamId, o: User, p: Pid)
    requires p in s.procs && s.procs[p] == LinkTarget(t, o)
    requires acct(o) in s.users && s.users[acct(o)].Some? && s.users[acct(o)] != Some(t)
    ensures RunAt(acct, s, Advances(p, 0, 2)) == Goes(s.(teams := Shrink(s.teams, t, o)), p, Done(false))
  {
    var s' := s.(teams := Shrink(s.teams, t, o));
    assert s == Goes(s, p, LinkTarget(t, o)) by { assert s.procs[p := LinkTarget(t, o)] == s.procs; }
    assert StepProcAt(acct, s, LinkTarget(t, o), 0) == (s, Unreserve(t, o));
    assert StepProcAt(acct, s, Unreserve(t, o), 0) == (s', Done(false));
    hide *;
    AdvanceTo(acct, s, p, LinkTarget(t, o), s, Unreserve(t, o), 2);
    AdvanceTo(acct, s, p, Unreserve(t, o), s', Done(false), 1);
    Nothing(acct, Goes(s', p, Done(false)), p);
  }

  /** The owner invites themselves, leaves under another name, opens another team, and the invite goes on. */
  function OffRoster(o: User, n: User, p: Pid, q: Pid, c: Pid, id: TeamId): seq<Event> {
    InvitesOwner(p, o) + WholeHandler(q, Leave(n), 0) + WholeHandler(c, Create(o, None), id) + Advances(p, 0, 2)
  }

  /** From any state: then the first team's roster no longer has its owner. */
  lemma OwnerOffRoster(acct: Accounts, s: State, t: TeamId, n: User, p: Pid, q: Pid, c: Pid, id: TeamId)
    requires SettledAt(acct, s, t) && s.teams[t].owner in s.teams[t].members
    requires n != s.teams[t].owner && acct(n) == acct(s.teams[t].owner)
    requires p !in s.procs && q !in s.procs && c !in s.procs && p != q && p != c && q != c && id !in s.minted && id != t
    ensures var o := s.teams[t].owner;
            var r := RunAt(acct, s, OffRoster(o, n, p, q, c, id));
            t in r.teams && r.teams[t].owner == o && o !in r.teams[t].members
  {
    var o := s.teams[t].owner;
    var a, b, d, e := InvitesOwner(p, o), WholeHandler(q, Leave(n), 0), WholeHandler(c, Create(o, None), id), Advances(p, 0, 2);
    InvitesOwnerGoes(acct, s, t, p);
    var s1 := RunAt(acct, s, a);
    LeaveUnlinksOwner(acct, s1, t, n, q);
    var s2 := RunAt(acct, s1, b);
    CreateGoes(acct, s2, o, c, id);
    var s3 := RunAt(acct, s2, d);
    GivesBack(acct, s3, t, o, p);
    RunAtAppend(acct, s, a, b);
    RunAtAppend(acct, s, a + b, d);
    RunAtAppend(acct, s, a + b + d, e);
    hide RunAt;
    hide WholeHandler;
    hide InvitesOwner;
    hide Advances;
  }

  // The exact conditions.

  /** One unlinked account and nothing else. */
  function Solo(a: User): State {
    State(map[], map[a := None], map[], {})
  }

  lemma NamedWhole(acct: Accounts, p: Pid, req: Request, id: TeamId, names: set<User>)
    requires NamedReq(req, names)
    ensures Named(acct, WholeHandler(p, req, id), names)
  {
  }

  lemma NamedJoin(acct: Accounts, a: seq<Event>, b: seq<Event>, names: set<User>)
    requires Named(acct, a, names) && Named(acct, b, names)
    ensures Named(acct, a + b, names)
  {
  }

  lemma FromNamed(acct: Accounts, events: seq<Event>, names: set<User>, n: iset<User>)
    requires Named(acct, events, names) && Within(names, n)
    ensures From(acct, events, n)
  {
  }

  function CreateAlone(u: User): seq<Event> {
    WholeHandler(0, Create(u, None), 0)
  }

  /** One create by itself, from one unlinked account. */
  lemma CreateAloneRun(acct: Accounts, u: User)
    ensures var (s, r) := (Solo(acct(u)), RunAt(acct, Solo(acct(u)), CreateAlone(u)));
            && Initial(s) && Named(acct, CreateAlone(u), {u})
            && r == State(map[0 := Team(u, [u], DEFAULT_SEATS)], map[acct(u) := Some(0)], map[0 := Done(true)], {0})
            && Quiet(r) && SettledAt(acct, r, 0)
  {
    CreateGoes(acct, Solo(acct(u)), u, 0, 0);
    NamedWhole(acct, 0, Create(u, None), 0, {u});
    hide RunAt;
    hide WholeHandler;
  }

  /** Only the one process has written. */
  lemma {:induction false} CreateAloneWords(acct: Accounts, u: User) returns (r: State)
    ensures r.procs == map[0 := Done(true)] && AllWords(r, WritesAt(acct, Solo(acct(u)), CreateAlone(u)))
  {
    var s, events := Solo(acct(u)), CreateAlone(u);
    var v := View(acct, {u}, s);
    CreateAloneRun(acct, u);
    assert Apart(acct, {u});
    r := Run(v, events);
    hide *;
    RunInView(acct, {u}, s, events);
    WritesInView(acct, {u}, s, events);
    RunFollows(v, events);
    ViewTeams(acct, {u}, RunAt(acct, s, events));
  }

  lemma {:induction false} CreateAloneOpposes(acct: Accounts, u: User, p: Pid, q: Pid, t: TeamId, v: User)
    ensures !Opposed(WritesAt(acct, Solo(acct(u)), CreateAlone(u)), p, q, t, v)
  {
    hide *;
    var w := WritesAt(acct, Solo(acct(u)), CreateAlone(u));
    var r := CreateAloneWords(acct, u);
    if Opposed(w, p, q, t, v) {
      OpposedSpoke(w, p, q, t, v);
      SpeakerThere(r, w, p);
      SpeakerThere(r, w, q);
      assert false;
    }
  }

  lemma SpeakerThere(s: State, w: seq<Write>, p: Pid)
    requires AllWords(s, w) && LastBy(w, p, Roster).Some?
    ensures p in s.procs
  {
  }

  lemma CreateAloneKind(k: Kind, acct: Accounts, u: User)
    ensures OfKind(k, acct, Solo(acct(u)), CreateAlone(u))
    ensures forall t, v :: !Crossed(WritesAt(acct, Solo(acct(u)), CreateAlone(u)), t, v)
  {
    var s, events := Solo(acct(u)), CreateAlone(u);
    forall p, q, t, v
      ensures !Opposed(WritesAt(acct, s, events), p, q, t, v)
    {
      CreateAloneOpposes(acct, u, p, q, t, v);
    }
    if k.Calmly? {
      CreateAloneCalm(acct, u);
    }
    hide RunAt;
    hide WritesAt;
    hide Opposed;
    if k.Serially? {
      assert RunAt(acct, s, events[..0]) == s by { RunAtNone(acct, s, events[..0]); }
    }
  }

  lemma RunAtNone(acct: Accounts, s: State, events: seq<Event>)
    requires events == []
    ensures RunAt(acct, s, events) == s
  {
  }

  lemma CreateAloneCalm(acct: Accounts, u: User)
    ensures CalmAt(acct, Solo(acct(u)), CreateAlone(u))
  {
    var s, events := Solo(acct(u)), CreateAlone(u);
    forall i | 0 <= i <= |events|
      ensures NoOverlap(RunAt(acct, s, events[..i]))
    {
      OneProcess(acct, s, events[..i]);
    }
    hide NoOverlap;
    hide RunAt;
  }

  lemma {:induction false} OneProcess(acct: Accounts, s: State, events: seq<Event>)
    requires s.procs == map[] && forall i :: 0 <= i < |events| ==> !events[i].Register? && events[i].pid == 0
    ensures RunAt(acct, s, events).procs.Keys <= {0} && NoOverlap(RunAt(acct, s, events))
  {
    if events != [] {
      OneProcess(acct, s, events[..|events| - 1]);
    }
    hide StepProcAt;
  }

  /** A settled owner stays. */
  ghost predicate OwnerKept(acct: Accounts, n: iset<User>, s: State, a: seq<Event>, b: seq<Event>, t: TeamId) {
    var (r, r') := (RunAt(acct, s, a), RunAt(acct, s, a + b));
    Initial(s) && From(acct, a + b, n) && SettledAt(acct, r, t) ==>
      SettledAt(acct, r', t) && r'.teams[t].owner == r.teams[t].owner && r'.teams[t].owner in r'.teams[t].members
  }

  /**
   Over all runs with names from n: once a team's owner is linked, nothing unlinks, replaces or removes the
   owner, exactly when no two names in n lead to one account.
   */
  lemma OwnersStayExactly(acct: Accounts, n: iset<User>)
    ensures (forall s, a, b, t :: OwnerKept(acct, n, s, a, b, t)) <==> OneSpelling(acct, n)
  {
    if OneSpelling(acct, n) {
      forall s, a, b, t
        ensures OwnerKept(acct, n, s, a, b, t)
      {
        OwnerKeptThere(acct, n, s, a, b, t);
      }
    } else {
      var u, v :| u in n && v in n && acct(u) == acct(v) && u != v;
      OwnerLost(acct, n, u, v);
      hide OwnerKept;
    }
  }

  lemma OwnerKeptThere(acct: Accounts, n: iset<User>, s: State, a: seq<Event>, b: seq<Event>, t: TeamId)
    requires OneSpelling(acct, n)
    ensures OwnerKept(acct, n, s, a, b, t)
  {
    hide RunAt;
    if Initial(s) && From(acct, a + b, n) && SettledAt(acct, RunAt(acct, s, a), t) {
      var names := TypedAll(acct, n, a + b);
      OwnerStaysAt(acct, names, s, a, b, t);
    }
  }

  lemma OwnerLost(acct: Accounts, n: iset<User>, u: User, v: User)
    requires u in n && v in n && acct(u) == acct(v) && u != v
    ensures !OwnerKept(acct, n, Solo(acct(u)), CreateAlone(u), WholeHandler(1, Leave(v), 0), 0)
  {
    var s, a, b := Solo(acct(u)), CreateAlone(u), WholeHandler(1, Leave(v), 0);
    CreateAloneRun(acct, u);
    LeaveUnlinksOwner(acct, RunAt(acct, s, a), 0, v, 1);
    RunAtAppend(acct, s, a, b);
    NamedMore(acct, a, {u}, {u, v});
    NamedWhole(acct, 1, Leave(v), 0, {u, v});
    NamedJoin(acct, a, b, {u, v});
    FromNamed(acct, a + b, {u, v}, n);
    hide RunAt;
    hide WholeHandler;
    hide CreateAlone;
    hide From;
  }

  /** Rosters and links are sound. */
  ghost predicate RostersKept(acct: Accounts, n: iset<User>, s: State, events: seq<Event>) {
    Initial(s) && From(acct, events, n) ==> SoundAt(acct, RunAt(acct, s, events))
  }

  /**
   Over all runs with names from n: rosters never repeat a member, never exceed their seats and hold their
   owner, and every linked account's team is there with its owner linked, exactly when no two names in n
   lead to one account.
   */
  lemma RostersSoundExactly(acct: Accounts, n: iset<User>)
    ensures (forall s, events :: RostersKept(acct, n, s, events)) <==> OneSpelling(acct, n)
  {
    if OneSpelling(acct, n) {
      forall s, events
        ensures RostersKept(acct, n, s, events)
      {
        RostersKeptThere(acct, n, s, events);
      }
    } else {
      var u, v :| u in n && v in n && acct(u) == acct(v) && u != v;
      RosterLost(acct, n, u, v);
      hide RostersKept;
    }
  }

  lemma RostersKeptThere(acct: Accounts, n: iset<User>, s: State, events: seq<Event>)
    requires OneSpelling(acct, n)
    ensures RostersKept(acct, n, s, events)
  {
    hide RunAt;
    hide SoundAt;
    if Initial(s) && From(acct, events, n) {
      var names := TypedAll(acct, n, events);
      RostersSoundAt(acct, names, s, events);
    }
  }

  lemma RosterLost(acct: Accounts, n: iset<User>, u: User, v: User)
    requires u in n && v in n && acct(u) == acct(v) && u != v
    ensures !RostersKept(acct, n, Solo(acct(u)), CreateAlone(u) + OffRoster(u, v, 1, 2, 3, 1))
  {
    var s, a, b := Solo(acct(u)), CreateAlone(u), OffRoster(u, v, 1, 2, 3, 1);
    CreateAloneRun(acct, u);
    var r := RunAt(acct, s, a);
    OwnerOffRoster(acct, r, 0, v, 1, 2, 3, 1);
    RunAtAppend(acct, s, a, b);
    NamedMore(acct, a, {u}, {u, v});
    NamedOff(acct, u, v);
    NamedJoin(acct, a, b, {u, v});
    FromNamed(acct, a + b, {u, v}, n);
    NoOwnerUnsound(acct, RunAt(acct, s, a + b), 0);
    hide RunAt;
    hide OffRoster;
    hide CreateAlone;
    hide From;
  }

  lemma NoOwnerUnsound(acct: Accounts, s: State, t: TeamId)
    requires t in s.teams && s.teams[t].owner !in s.teams[t].members
    ensures !SoundAt(acct, s)
  {
    assert !SoundRoster(s.teams[t]);
  }

  lemma NamedOff(acct: Accounts, u: User, v: User)
    ensures Named(acct, OffRoster(u, v, 1, 2, 3, 1), {u, v})
  {
    NamedWhole(acct, 2, Leave(v), 0, {u, v});
    NamedWhole(acct, 3, Create(u, None), 1, {u, v});
    NamedJoin(acct, InvitesOwner(1, u), WholeHandler(2, Leave(v), 0), {u, v});
    NamedJoin(acct, InvitesOwner(1, u) + WholeHandler(2, Leave(v), 0), WholeHandler(3, Create(u, None), 1), {u, v});
    hide WholeHandler;
  }

  /** The two stores say the same of every name in n. */
  ghost predicate Agreeing(acct: Accounts, n: iset<User>, s: State) {
    forall t, u :: u in n ==> AgreesOn(acct, s, t, u)
  }

  /** Quiet stores agree on each name and team exactly when no two opposed handlers crossed there. */
  ghost predicate CrossingDecides(acct: Accounts, n: iset<User>, s: State, events: seq<Event>) {
    Initial(s) && From(acct, events, n) && Quiet(RunAt(acct, s, events)) ==>
      forall t, u :: u in n ==> (AgreesOn(acct, RunAt(acct, s, events), t, u) <==> !Crossed(WritesAt(acct, s, events), t, u))
  }

  /**
   Over all runs with names from n, interleaved in any way: crossing decides whether the stores agree,
   exactly when no two names in n lead to one account.
   */
  lemma StoresAgreeExactly(acct: Accounts, n: iset<User>)
    ensures (forall s, events :: CrossingDecides(acct, n, s, events)) <==> OneSpelling(acct, n)
  {
    if OneSpelling(acct, n) {
      forall s, events
        ensures CrossingDecides(acct, n, s, events)
      {
        CrossingDecidesThere(acct, n, s, events);
      }
    } else {
      var u, v :| u in n && v in n && acct(u) == acct(v) && u != v;
      SpellingMissed(acct, n, u, v);
      hide CrossingDecides;
    }
  }

  lemma CrossingDecidesThere(acct: Accounts, n: iset<User>, s: State, events: seq<Event>)
    requires OneSpelling(acct, n)
    ensures CrossingDecides(acct, n, s, events)
  {
    hide RunAt;
    hide WritesAt;
    hide AgreesOn;
    hide Crossed;
    if Initial(s) && From(acct, events, n) && Quiet(RunAt(acct, s, events)) {
      forall t, u | u in n
        ensures AgreesOn(acct, RunAt(acct, s, events), t, u) <==> !Crossed(WritesAt(acct, s, events), t, u)
      {
        var names := Typed(acct, n, events, u);
        AgreesOnExactly(acct, names, s, events, t, u);
      }
    }
  }

  /** After one create the other spelling's account is linked and the other spelling on no roster. */
  lemma MissesOn(acct: Accounts, n: iset<User>, u: User, v: User)
    requires u in n && v in n && acct(u) == acct(v) && u != v
    ensures Initial(Solo(acct(u))) && From(acct, CreateAlone(u), n)
    ensures Quiet(RunAt(acct, Solo(acct(u)), CreateAlone(u)))
    ensures !AgreesOn(acct, RunAt(acct, Solo(acct(u)), CreateAlone(u)), 0, v)
  {
    CreateAloneRun(acct, u);
    FromNamed(acct, CreateAlone(u), {u}, n);
    hide RunAt;
    hide CreateAlone;
    hide From;
  }

  lemma SpellingMissed(acct: Accounts, n: iset<User>, u: User, v: User)
    requires u in n && v in n && acct(u) == acct(v) && u != v
    ensures !CrossingDecides(acct, n, Solo(acct(u)), CreateAlone(u))
  {
    MissesOn(acct, n, u, v);
    CreateAloneKind(Serially, acct, u);
    assert !Crossed(WritesAt(acct, Solo(acct(u)), CreateAlone(u)), 0, v);
    hide *;
    CrossingFails(acct, n, Solo(acct(u)), CreateAlone(u), 0, v);
  }

  lemma CrossingFails(acct: Accounts, n: iset<User>, s: State, events: seq<Event>, t: TeamId, u: User)
    requires Initial(s) && From(acct, events, n) && Quiet(RunAt(acct, s, events)) && u in n
    requires !AgreesOn(acct, RunAt(acct, s, events), t, u) && !Crossed(WritesAt(acct, s, events), t, u)
    ensures !CrossingDecides(acct, n, s, events)
  {
    hide AgreesOn;
    hide Crossed;
    hide RunAt;
    hide WritesAt;
  }

  /** On runs of the kind, quiet stores agree on every name and no account owns two teams. */
  ghost predicate KindKept(k: Kind, acct: Accounts, n: iset<User>, s: State, events: seq<Event>) {
    Initial(s) && From(acct, events, n) && OfKind(k, acct, s, events) && Quiet(RunAt(acct, s, events)) ==>
      Agreeing(acct, n, RunAt(acct, s, events)) && OneTeamPerAccount(acct, RunAt(acct, s, events))
  }

  /**
   Over all runs with names from n that are serial (or without overlapping sections, or of creates and invites
   only, or with opposed handlers writing in one order): quiet stores agree and no account owns two teams,
   exactly when no two names in n lead to one account.
   */
  lemma KindAgreesExactly(k: Kind, acct: Accounts, n: iset<User>)
    ensures (forall s, events :: KindKept(k, acct, n, s, events)) <==> OneSpelling(acct, n)
  {
    if OneSpelling(acct, n) {
      forall s, events
        ensures KindKept(k, acct, n, s, events)
      {
        KindKeptThere(k, acct, n, s, events);
      }
    } else {
      var u, v :| u in n && v in n && acct(u) == acct(v) && u != v;
      KindMissed(k, acct, n, u, v);
      hide KindKept;
    }
  }

  lemma KindKeptThere(k: Kind, acct: Accounts, n: iset<User>, s: State, events: seq<Event>)
    requires OneSpelling(acct, n)
    ensures KindKept(k, acct, n, s, events)
  {
    hide OfKind;
    hide RunAt;
    hide AgreesOn;
    hide OneTeamPerAccount;
    hide Named;
    if Initial(s) && From(acct, events, n) && OfKind(k, acct, s, events) && Quiet(RunAt(acct, s, events)) {
      var all := TypedAll(acct, n, events);
      KindAgrees(k, acct, all, s, events);
      ViewOwners(acct, all, s, events);
      forall t, u | u in n
        ensures AgreesOn(acct, RunAt(acct, s, events), t, u)
      {
        var names := Typed(acct, n, events, u);
        KindAgrees(k, acct, names, s, events);
        ViewAgrees(acct, names, s, events, t, u);
      }
    }
  }

  lemma KindMissed(k: Kind, acct: Accounts, n: iset<User>, u: User, v: User)
    requires u in n && v in n && acct(u) == acct(v) && u != v
    ensures !KindKept(k, acct, n, Solo(acct(u)), CreateAlone(u))
  {
    MissesOn(acct, n, u, v);
    CreateAloneKind(k, acct, u);
    hide OfKind;
    hide RunAt;
    hide AgreesOn;
    hide CreateAlone;
    hide From;
    hide Quiet;
    hide Crossed;
    hide WritesAt;
    hide OneTeamPerAccount;
  }

  /** Every name is its account's own. */
  ghost predicate AllOwn(acct: Accounts, n: iset<User>) {
    forall u :: u in n ==> acct(u) == u
  }

  /** Rosters, and the accounts' own records: crossing decides whether they agree. */
  ghost predicate RecordsDecided(acct: Accounts, n: iset<User>, s: State, events: seq<Event>) {
    Initial(s) && From(acct, events, n) && Quiet(RunAt(acct, s, events)) ==>
      (Agreement(RunAt(acct, s, events)) <==> forall t, u :: !Crossed(WritesAt(acct, s, events), t, u))
  }

  /**
   Over all runs with names from n, interleaved in any way: every roster is exactly the accounts whose records
   point to it unless two opposed handlers crossed, exactly when every name in n is its account's own.
   */
  lemma RecordsAgreeExactly(acct: Accounts, n: iset<User>)
    ensures (forall s, events :: RecordsDecided(acct, n, s, events)) <==> AllOwn(acct, n)
  {
    if AllOwn(acct, n) {
      forall s, events
        ensures RecordsDecided(acct, n, s, events)
      {
        RecordsDecidedThere(acct, n, s, events);
      }
    } else {
      var u :| u in n && acct(u) != u;
      RecordMissed(acct, n, u);
      hide RecordsDecided;
    }
  }

  lemma RecordMissed(acct: Accounts, n: iset<User>, u: User)
    requires u in n && acct(u) != u
    ensures !RecordsDecided(acct, n, Solo(acct(u)), CreateAlone(u))
  {
    var r := RunAt(acct, Solo(acct(u)), CreateAlone(u));
    CreateAloneRun(acct, u);
    CreateAloneKind(Serially, acct, u);
    FromNamed(acct, CreateAlone(u), {u}, n);
    assert Linked(r, 0, acct(u)) && !OnRoster(r, 0, acct(u));
    hide RunAt;
    hide CreateAlone;
    hide From;
    hide Crossed;
    hide WritesAt;
    hide OfKind;
  }

  lemma RecordsDecidedThere(acct: Accounts, n: iset<User>, s: State, events: seq<Event>)
    requires AllOwn(acct, n)
    ensures RecordsDecided(acct, n, s, events)
  {
    assert OneSpelling(acct, n);
    hide RunAt;
    hide WritesAt;
    hide Crossed;
    hide Named;
    hide OnRoster;
    hide Linked;
    if Initial(s) && From(acct, events, n) && Quiet(RunAt(acct, s, events)) {
      forall t, u
        ensures AgreesAt(RunAt(acct, s, events), t, u) <==> !Crossed(WritesAt(acct, s, events), t, u)
      {
        RecordDecided(acct, n, s, events, t, u);
      }
      EverywhereIs(RunAt(acct, s, events));
    }
  }

  lemma {:induction false} RecordDecided(acct: Accounts, n: iset<User>, s: State, events: seq<Event>, t: TeamId, u: User)
    requires AllOwn(acct, n) && Initial(s) && From(acct, events, n) && Quiet(RunAt(acct, s, events))
    ensures AgreesAt(RunAt(acct, s, events), t, u) <==> !Crossed(WritesAt(acct, s, events), t, u)
  {
    assert OneSpelling(acct, n);
    var r, w := RunAt(acct, s, events), WritesAt(acct, s, events);
    hide RunAt;
    hide WritesAt;
    hide Crossed;
    hide Named;
    if u in n {
      var names := Typed(acct, n, events, u);
      AgreesOnExactly(acct, names, s, events, t, u);
    } else {
      var names := TypedAll(acct, n, events);
      assert u !in names;
      RunInView(acct, names, s, events);
      WritesInView(acct, names, s, events);
      RunFollows(View(acct, names, s), events);
      Stranger(acct, names, r, t, u);
      var v := View(acct, names, r);
      QuietSame(r, v);
      AgreesAtExactly(v, w, t, u);
    }
  }

  /** Somebody none of the names lead to is nowhere. */
  lemma Stranger(acct: Accounts, names: set<User>, s: State, t: TeamId, u: User)
    requires NamedTeams(s, names) && NamedLinks(acct, s, names) && u !in names && forall m :: m in names ==> acct(m) == m
    ensures !OnRoster(s, t, u) && !Linked(s, t, u)
    ensures !OnRoster(View(acct, names, s), t, u) && !Linked(View(acct, names, s), t, u)
    ensures View(acct, names, s).procs == s.procs
  {
  }
}
