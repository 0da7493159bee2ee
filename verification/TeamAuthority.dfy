/**
 Who may change a team. Over every interleaving, under any spellings, a handler that takes, gives back or
 clears a seat, or links or unlinks an account, was asked to by the owner of that team, or by the one it
 concerns; and a team's owner is never another.
 */
module TeamAuthority {
  import opened Bytes
  import opened Names
  import opened TeamMachine
  import opened TeamAgreement
  import opened TeamNames

  /** The request a process arrived with. */
  function RequestOf(events: seq<Event>, pid: Pid): Option<Request> {
    if events == [] then None
    else
      var init, e := RequestOf(events[..|events| - 1], pid), events[|events| - 1];
      if init.None? && e.Arrive? && e.pid == pid then Some(e.req) else init
  }

  /** What a handler can have seen of a team. */
  datatype Sight = Owned(me: User) | OwnedWith(me: User, u: User) | NotOwned(u: User)

  predicate Shows(o: Team, x: Sight) {
    match x
    case Owned(me) => o.owner == me
    case OwnedWith(me, u) => o.owner == me && u in o.members
    case NotOwned(u) => o.owner != u
  }

  ghost predicate Seen(s: State, t: TeamId, x: Sight) {
    t in s.teams && Shows(s.teams[t], x)
  }

  /** At some point of the run the team was there and showed this. */
  ghost predicate Once(acct: Accounts, s: State, events: seq<Event>, t: TeamId, x: Sight) {
    Seen(RunAt(acct, s, events), t, x) || (events != [] && Once(acct, s, events[..|events| - 1], t, x))
  }

  /** At some point of the run the account was linked to the team. */
  ghost predicate WasLinked(acct: Accounts, s: State, events: seq<Event>, a: User, t: TeamId) {
    Linked(RunAt(acct, s, events), t, a) || (events != [] && WasLinked(acct, s, events[..|events| - 1], a, t))
  }

  /** The caller's account had been linked to the team, which the caller then owned. */
  ghost predicate ByOwner(acct: Accounts, s: State, events: seq<Event>, me: User, t: TeamId) {
    WasLinked(acct, s, events, acct(me), t) && Once(acct, s, events, t, Owned(me))
  }

  /** Why a process stands where it does. */
  ghost predicate Asked(acct: Accounts, s: State, events: seq<Event>, p: Proc, req: Request) {
    match p
    case Begin(r) => r == req
    case Loaded(r, t) => r == req && WasLinked(acct, s, events, acct(req.me), t)
    case Mint(me, _) => req.Create? && req.me == me
    case LinkOwner(me, t) => req.Create? && req.me == me && Once(acct, s, events, t, Owned(me))
    case Discard(me, t) => req.Create? && req.me == me && Once(acct, s, events, t, Owned(me))
    case FindTarget(t, u) => req == Invite(req.me, u) && ByOwner(acct, s, events, req.me, t)
    case Reserve(t, u) => req == Invite(req.me, u) && ByOwner(acct, s, events, req.me, t)
    case LinkTarget(t, u) => req == Invite(req.me, u) && ByOwner(acct, s, events, req.me, t)
    case Unreserve(t, u) => req == Invite(req.me, u) && ByOwner(acct, s, events, req.me, t)
    case DropMember(t, u) => Dropped(acct, s, events, req, t, u)
    case DropLink(t, u) => Dropped(acct, s, events, req, t, u)
    case Done(_) => true
  }

  /** The owner removes somebody else who was on the roster, or somebody who was not the owner leaves. */
  ghost predicate Dropped(acct: Accounts, s: State, events: seq<Event>, req: Request, t: TeamId, u: User) {
    && WasLinked(acct, s, events, acct(req.me), t)
    && ((req == Remove(req.me, u) && u != req.me && ByOwner(acct, s, events, req.me, t)
          && Once(acct, s, events, t, OwnedWith(req.me, u)))
        || (req == Leave(u) && Once(acct, s, events, t, NotOwned(u))))
  }

  lemma OnceNow(acct: Accounts, s: State, events: seq<Event>, t: TeamId, x: Sight)
    requires Seen(RunAt(acct, s, events), t, x)
    ensures Once(acct, s, events, t, x)
  {
  }

  /** What has been stays so as the run goes on. */
  lemma OnceMore(acct: Accounts, s: State, events: seq<Event>, e: Event, t: TeamId, x: Sight)
    requires Once(acct, s, events, t, x)
    ensures Once(acct, s, events + [e], t, x)
  {
    assert (events + [e])[..|events|] == events;
    hide RunAt;
    hide Seen;
  }

  lemma LinkedMore(acct: Accounts, s: State, events: seq<Event>, e: Event, a: User, t: TeamId)
    requires WasLinked(acct, s, events, a, t)
    ensures WasLinked(acct, s, events + [e], a, t)
  {
    assert (events + [e])[..|events|] == events;
    hide RunAt;
    hide Linked;
  }

  lemma DroppedMore(acct: Accounts, s: State, events: seq<Event>, e: Event, req: Request, t: TeamId, u: User)
    requires Dropped(acct, s, events, req, t, u)
    ensures Dropped(acct, s, events + [e], req, t, u)
  {
    LinkedMore(acct, s, events, e, acct(req.me), t);
    hide WasLinked;
    if req == Leave(u) {
      OnceMore(acct, s, events, e, t, NotOwned(u));
    } else {
      OnceMore(acct, s, events, e, t, Owned(req.me));
      OnceMore(acct, s, events, e, t, OwnedWith(req.me, u));
    }
    hide Once;
  }

  lemma ByOwnerMore(acct: Accounts, s: State, events: seq<Event>, e: Event, me: User, t: TeamId)
    requires ByOwner(acct, s, events, me, t)
    ensures ByOwner(acct, s, events + [e], me, t)
  {
    LinkedMore(acct, s, events, e, acct(me), t);
    OnceMore(acct, s, events, e, t, Owned(me));
    hide WasLinked;
    hide Once;
  }

  lemma AskedMore(acct: Accounts, s: State, events: seq<Event>, e: Event, p: Proc, req: Request)
    requires Asked(acct, s, events, p, req)
    ensures Asked(acct, s, events + [e], p, req)
  {
    match p
    case Loaded(_, t) => LinkedMore(acct, s, events, e, acct(req.me), t);
    case LinkOwner(me, t) => OnceMore(acct, s, events, e, t, Owned(me));
    case Discard(me, t) => OnceMore(acct, s, events, e, t, Owned(me));
    case FindTarget(t, _) => ByOwnerMore(acct, s, events, e, req.me, t);
    case Reserve(t, _) => ByOwnerMore(acct, s, events, e, req.me, t);
    case LinkTarget(t, _) => ByOwnerMore(acct, s, events, e, req.me, t);
    case Unreserve(t, _) => ByOwnerMore(acct, s, events, e, req.me, t);
    case DropMember(t, u) => DroppedMore(acct, s, events, e, req, t, u);
    case DropLink(t, u) => DroppedMore(acct, s, events, e, req, t, u);
    case _ =>
  }

  /** A process's own step, the stores being those at the end of the run so far. */
  lemma AskedStep(acct: Accounts, s: State, events: seq<Event>, p: Proc, req: Request, id: TeamId)
    requires Asked(acct, s, events, p, req) && !p.Mint?
    ensures Asked(acct, s, events, StepProcAt(acct, RunAt(acct, s, events), p, id).1, req)
  {
    if p.Loaded? {
      LoadedStep(acct, s, events, p, req, id);
    } else {
      hide RunAt;
      hide Once;
    }
  }

  lemma LoadedStep(acct: Accounts, s: State, events: seq<Event>, p: Proc, req: Request, id: TeamId)
    requires Asked(acct, s, events, p, req) && p.Loaded?
    ensures Asked(acct, s, events, StepProcAt(acct, RunAt(acct, s, events), p, id).1, req)
  {
    var r := RunAt(acct, s, events);
    if p.tid in r.teams {
      var o, t := r.teams[p.tid], p.tid;
      if o.owner == req.me {
        OnceNow(acct, s, events, t, Owned(req.me));
      }
      if req.Remove? && o.owner == req.me && req.target in o.members {
        OnceNow(acct, s, events, t, OwnedWith(req.me, req.target));
      }
      if req.Leave? && o.owner != req.me {
        OnceNow(acct, s, events, t, NotOwned(req.me));
      }
    }
    hide RunAt;
    hide Once;
    hide WasLinked;
  }

  lemma MintAsked(acct: Accounts, s: State, events: seq<Event>, pid: Pid, req: Request, id: TeamId)
    requires pid in RunAt(acct, s, events).procs && RunAt(acct, s, events).procs[pid].Mint?
    requires Asked(acct, s, events, RunAt(acct, s, events).procs[pid], req)
    ensures Asked(acct, s, events + [Advance(pid, id)], RunAt(acct, s, events + [Advance(pid, id)]).procs[pid], req)
  {
    var e := Advance(pid, id);
    RunAtSnoc(acct, s, events, e);
    var r' := RunAt(acct, s, events + [e]);
    hide RunAt;
    if r'.procs[pid].LinkOwner? {
      OnceNow(acct, s, events + [e], id, Owned(req.me));
    }
    hide Once;
  }

  lemma RunAtSnoc(acct: Accounts, s: State, events: seq<Event>, e: Event)
    ensures RunAt(acct, s, events + [e]) == StepAt(acct, RunAt(acct, s, events), e)
  {
    assert (events + [e])[..|events|] == events;
  }

  lemma RequestSnoc(events: seq<Event>, e: Event, pid: Pid)
    ensures RequestOf(events + [e], pid)
            == if RequestOf(events, pid).None? && e.Arrive? && e.pid == pid then Some(e.req) else RequestOf(events, pid)
  {
    assert (events + [e])[..|events|] == events;
  }

  /** Every process has a request, and stands where it does for the reasons it may. */
  ghost predicate AllAsked(acct: Accounts, s: State, events: seq<Event>) {
    var r := RunAt(acct, s, events);
    forall pid :: (pid in r.procs <==> RequestOf(events, pid).Some?)
      && (pid in r.procs ==> Asked(acct, s, events, r.procs[pid], RequestOf(events, pid).value))
  }

  lemma SnocAsked(acct: Accounts, s: State, events: seq<Event>, e: Event)
    requires AllAsked(acct, s, events)
    ensures AllAsked(acct, s, events + [e])
  {
    var r, longer := RunAt(acct, s, events), events + [e];
    RunAtSnoc(acct, s, events, e);
    var r' := RunAt(acct, s, longer);
    forall pid
      ensures (pid in r'.procs <==> RequestOf(longer, pid).Some?)
      ensures (pid in r'.procs ==> Asked(acct, s, longer, r'.procs[pid], RequestOf(longer, pid).value))
    {
      RequestSnoc(events, e, pid);
      ProcsAfter(acct, r, e, pid);
      if pid in r.procs {
        var req := RequestOf(events, pid).value;
        if e.Advance? && e.pid == pid {
          if r.procs[pid].Mint? {
            MintAsked(acct, s, events, pid, req, e.newId);
          } else {
            AskedStep(acct, s, events, r.procs[pid], req, e.newId);
            AskedMore(acct, s, events, e, StepProcAt(acct, r, r.procs[pid], e.newId).1, req);
          }
        } else {
          AskedMore(acct, s, events, e, r.procs[pid], req);
        }
        hide Asked;
      }
      hide RunAt;
      hide StepAt;
      hide RequestOf;
    }
    hide Asked;
    hide StepAt;
    hide RequestOf;
  }

  lemma ProcsAfter(acct: Accounts, s: State, e: Event, pid: Pid)
    ensures var r := StepAt(acct, s, e);
            && (pid in r.procs <==> pid in s.procs || (e.Arrive? && e.pid == pid))
            && (pid in s.procs ==>
                  r.procs[pid] == if e.Advance? && e.pid == pid then StepProcAt(acct, s, s.procs[pid], e.newId).1
                                  else s.procs[pid])
            && (pid !in s.procs && e.Arrive? && e.pid == pid ==> r.procs[pid] == Begin(e.req))
  {
    hide StepProcAt;
  }

  /**
   Over every interleaving, under any spellings: each handler about to take a seat, link, give back, clear a seat
   or unlink was asked to by somebody whose account was linked to that team and who was seen to own it, or, when
   leaving, by the one it concerns, seen not to own it.
   */
  lemma {:induction false} RunAsked(acct: Accounts, s: State, events: seq<Event>)
    requires Initial(s)
    ensures AllAsked(acct, s, events)
  {
    if events != [] {
      var init, e := events[..|events| - 1], events[|events| - 1];
      RunAsked(acct, s, init);
      SnocAsked(acct, s, init, e);
      assert init + [e] == events;
    }
    hide StepAt;
  }

  // A team's owner.

  lemma StepOwner(acct: Accounts, s: State, e: Event, t: TeamId)
    requires s.teams.Keys <= s.minted
    ensures var r := StepAt(acct, s, e);
            r.teams.Keys <= r.minted && s.minted <= r.minted
            && (t in s.minted && t in r.teams ==> t in s.teams && r.teams[t].owner == s.teams[t].owner)
  {
    hide Without;
  }

  /** Whoever owned a team at any point owns it as long as it is there. */
  lemma {:induction false} OwnerFixed(acct: Accounts, s: State, events: seq<Event>, t: TeamId, me: User)
    requires Initial(s)
    ensures var r := RunAt(acct, s, events);
            && r.teams.Keys <= r.minted
            && (Once(acct, s, events, t, Owned(me)) ==> t in r.minted && (t in r.teams ==> r.teams[t].owner == me))
  {
    if events != [] {
      var init := events[..|events| - 1];
      OwnerFixed(acct, s, init, t, me);
      StepOwner(acct, RunAt(acct, s, init), events[|events| - 1], t);
      hide StepAt;
    }
  }

  lemma {:induction false} NotOwnerFixed(acct: Accounts, s: State, events: seq<Event>, t: TeamId, u: User)
    requires Initial(s) && Once(acct, s, events, t, NotOwned(u))
    ensures var r := RunAt(acct, s, events);
            t in r.minted && (t in r.teams ==> r.teams[t].owner != u)
  {
    OwnerFixed(acct, s, events, t, u);
    if events != [] && Once(acct, s, events[..|events| - 1], t, NotOwned(u)) {
      var init := events[..|events| - 1];
      NotOwnerFixed(acct, s, init, t, u);
      OwnerFixed(acct, s, init, t, u);
      StepOwner(acct, RunAt(acct, s, init), events[|events| - 1], t);
      hide StepAt;
    }
  }

  // What changes.

  /** Whose request lets the team's word on v change: the owner's about v, or v's own. */
  ghost predicate Allows(req: Request, o: Team, v: User) {
    match req
    case Create(me, _) => o.owner == me
    case Invite(me, target) => o.owner == me && target == v
    case Remove(me, target) => o.owner == me && target == v && v != me
    case Leave(me) => me == v && o.owner != v
  }

  /** A step changes a roster only at its own process, and about whom that process is at work. */
  lemma StepRoster(acct: Accounts, s: State, e: Event, t: TeamId, v: User)
    requires OnRoster(s, t, v) != OnRoster(StepAt(acct, s, e), t, v)
    ensures e.Advance? && e.pid in s.procs
    ensures var p := s.procs[e.pid];
            || (p.Mint? && t == e.newId && t !in s.minted && StepAt(acct, s, e).procs[e.pid] == LinkOwner(p.me, t)
                && StepAt(acct, s, e).teams[t].owner == p.me)
            || (p.Mint? && t in s.teams && t !in s.minted)
            || (t in s.teams && p.Discard? && p.tid == t)
            || (t in s.teams && (p.Reserve? || p.Unreserve? || p.DropMember?) && p.tid == t && p.target == v)
  {
  }

  /**
   Over every interleaving, under any spellings: a roster's word on v changes only at a step of a handler whose
   request is the owner's about v, or v's own leaving, or the create that opens or takes back the team.
   */
  lemma {:induction false} RosterAuthority(acct: Accounts, s: State, events: seq<Event>, e: Event, t: TeamId, v: User)
    requires Initial(s)
    requires OnRoster(RunAt(acct, s, events), t, v) != OnRoster(RunAt(acct, s, events + [e]), t, v)
    ensures var r, r' := RunAt(acct, s, events), RunAt(acct, s, events + [e]);
            && e.Advance? && RequestOf(events, e.pid).Some?
            && (t in r.teams || t in r'.teams)
            && Allows(RequestOf(events, e.pid).value, if t in r.teams then r.teams[t] else r'.teams[t], v)
  {
    var r := RunAt(acct, s, events);
    RunAtSnoc(acct, s, events, e);
    RunAsked(acct, s, events);
    hide RunAt;
    StepRoster(acct, r, e, t, v);
    var p, req := r.procs[e.pid], RequestOf(events, e.pid).value;
    assert Asked(acct, s, events, p, req);
    OwnerFixed(acct, s, events, t, req.me);
    if Once(acct, s, events, t, NotOwned(v)) {
      NotOwnerFixed(acct, s, events, t, v);
    }
    hide StepProcAt;
    hide StepProc;
    hide RequestOf;
    hide Once;
    hide WasLinked;
  }

  lemma StepLink(acct: Accounts, s: State, e: Event, t: TeamId, a: User)
    requires Linked(s, t, a) != Linked(StepAt(acct, s, e), t, a)
    ensures e.Advance? && e.pid in s.procs
    ensures var p := s.procs[e.pid];
            || (p.LinkOwner? && acct(p.me) == a && p.tid == t)
            || ((p.LinkTarget? || p.DropLink?) && acct(p.target) == a && p.tid == t)
  {
  }

  /** And an account's link only at a handler whose request is the owner's about a name of that account, or its own. */
  lemma {:induction false} LinkAuthority(acct: Accounts, s: State, events: seq<Event>, e: Event, t: TeamId, a: User)
    requires Initial(s)
    requires Linked(RunAt(acct, s, events), t, a) != Linked(RunAt(acct, s, events + [e]), t, a)
    ensures var r := RunAt(acct, s, events);
            && e.Advance? && RequestOf(events, e.pid).Some?
            && (var req := RequestOf(events, e.pid).value;
                var v := if req.Invite? || req.Remove? then req.target else req.me;
                acct(v) == a && (t in r.teams ==> Allows(req, r.teams[t], v)))
  {
    var r := RunAt(acct, s, events);
    RunAtSnoc(acct, s, events, e);
    RunAsked(acct, s, events);
    hide RunAt;
    StepLink(acct, r, e, t, a);
    var p, req := r.procs[e.pid], RequestOf(events, e.pid).value;
    assert Asked(acct, s, events, p, req);
    OwnerFixed(acct, s, events, t, req.me);
    if Once(acct, s, events, t, NotOwned(req.me)) {
      NotOwnerFixed(acct, s, events, t, req.me);
    }
    hide StepProcAt;
    hide StepProc;
    hide RequestOf;
    hide Once;
    hide WasLinked;
  }
}
