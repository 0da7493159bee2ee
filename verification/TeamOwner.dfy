/** What every interleaving of the four team handlers keeps: rosters stay sound, owners stay put. */
module TeamOwner {
  import opened Bytes
  import opened TeamMachine

  ghost predicate Distinct(members: seq<User>) {
    forall i, j :: 0 <= i < j < |members| ==> members[i] != members[j]
  }

  /** A roster has no repeats, fits its seats, and has the owner on it. */
  ghost predicate SoundRoster(t: Team) {
    && Distinct(t.members)
    && |t.members| <= t.seats
    && MIN_SEATS <= t.seats <= MAX_SEATS
    && t.owner in t.members
  }

  /** The team is there and its owner's account points to it. */
  ghost predicate Settled(s: State, tid: TeamId) {
    && tid in s.teams
    && s.teams[tid].owner in s.users
    && s.users[s.teams[tid].owner] == Some(tid)
  }

  ghost predicate NobodyLinked(s: State, tid: TeamId) {
    forall u :: u in s.users ==> s.users[u] != Some(tid)
  }

  /** What each handler in flight may rely on. */
  ghost predicate ProcSound(s: State, p: Proc) {
    match p
    case Loaded(_, tid) => Settled(s, tid)
    case FindTarget(tid, _) => Settled(s, tid)
    case Reserve(tid, _) => Settled(s, tid)
    case LinkTarget(tid, _) => Settled(s, tid)
    case Unreserve(tid, target) => Settled(s, tid) && target != s.teams[tid].owner
    case DropMember(tid, target) => Settled(s, tid) && target != s.teams[tid].owner
    case DropLink(tid, target) => Settled(s, tid) && target != s.teams[tid].owner
    case LinkOwner(me, tid) =>
      && tid in s.minted && tid in s.teams && NobodyLinked(s, tid)
      && s.teams[tid].owner == me && s.teams[tid].members == [me]
    case Discard(me, tid) =>
      && tid in s.minted && tid in s.teams && NobodyLinked(s, tid)
      && s.teams[tid].owner == me && s.teams[tid].members == [me]
    case _ => true
  }

  ghost predicate Minting(p: Proc, tid: TeamId) {
    (p.LinkOwner? || p.Discard?) && p.tid == tid
  }

  /** Sound rosters, and no account linked to a team that is missing or not yet its owner's. */
  ghost predicate StoresSound(s: State) {
    && (forall t :: t in s.teams ==> t in s.minted && SoundRoster(s.teams[t]))
    && (forall u :: u in s.users && s.users[u].Some? ==> Settled(s, s.users[u].value))
  }

  ghost predicate Inv(s: State) {
    && StoresSound(s)
    && (forall pid :: pid in s.procs ==> ProcSound(s, s.procs[pid]))
    && (forall p, q, t :: p in s.procs && q in s.procs && Minting(s.procs[p], t) && Minting(s.procs[q], t) ==> p == q)
  }

  lemma {:induction false} WithoutDistinct(members: seq<User>, u: User)
    requires Distinct(members)
    ensures Distinct(Without(members, u))
    ensures u in members ==> |Without(members, u)| == |members| - 1
    ensures u !in members ==> Without(members, u) == members
  {
    if members != [] {
      var init, m := members[..|members| - 1], members[|members| - 1];
      assert members == init + [m];
      WithoutDistinct(init, u);
      assert m !in init;
    }
  }

  /** Giving up or losing a seat keeps the roster sound as long as the leaver is not the owner. */
  lemma ShrinkSound(t: Team, u: User)
    requires SoundRoster(t) && u != t.owner
    ensures SoundRoster(t.(members := Without(t.members, u)))
  {
    WithoutDistinct(t.members, u);
  }

  /** What a change of the stores leaves alone: settled teams stay settled, under the same owner. */
  ghost predicate StoresKept(s: State, s': State) {
    && s.users.Keys <= s'.users.Keys
    && s.minted <= s'.minted
    && (forall t :: Settled(s, t) ==>
          Settled(s', t) && s'.teams[t].owner == s.teams[t].owner && s'.teams[t].seats == s.teams[t].seats)
  }

  lemma MintKeeps(s: State, me: User, seats: int, id: TeamId)
    requires StoresSound(s) && id !in s.minted && MIN_SEATS <= seats <= MAX_SEATS
    ensures var s' := s.(teams := s.teams[id := Team(me, [me], seats)], minted := s.minted + {id});
            && StoresSound(s') && StoresKept(s, s')
            && (forall u :: u in s.users ==> s.users[u] != Some(id))
  {
    var s' := s.(teams := s.teams[id := Team(me, [me], seats)], minted := s.minted + {id});
    assert SoundRoster(s'.teams[id]);
    forall u | u in s.users
      ensures s.users[u] != Some(id)
    {
      assert s.users[u].Some? ==> Settled(s, s.users[u].value);
    }
  }

  lemma LinkKeeps(s: State, u: User, tid: TeamId)
    requires StoresSound(s) && tid in s.teams
    requires u in s.users && (s.users[u] == None || s.users[u] == Some(tid))
    requires Settled(s, tid) || s.teams[tid].owner == u
    ensures var s' := s.(users := s.users[u := Some(tid)]);
            StoresSound(s') && StoresKept(s, s')
  {
  }

  lemma UnlinkKeeps(s: State, u: User, tid: TeamId)
    requires StoresSound(s) && Settled(s, tid) && u != s.teams[tid].owner
    ensures var s' := s.(users := Unlink(s.users, tid, u));
            StoresSound(s') && StoresKept(s, s')
  {
  }

  lemma RosterKeeps(s: State, tid: TeamId, t: Team)
    requires StoresSound(s) && tid in s.teams && SoundRoster(t)
    requires t.owner == s.teams[tid].owner && t.seats == s.teams[tid].seats
    ensures var s' := s.(teams := s.teams[tid := t]);
            StoresSound(s') && StoresKept(s, s')
  {
  }

  lemma DiscardKeeps(s: State, tid: TeamId)
    requires StoresSound(s) && NobodyLinked(s, tid)
    ensures var s' := s.(teams := s.teams - {tid});
            StoresSound(s') && StoresKept(s, s')
  {
  }

  lemma StepStores(s: State, pid: Pid, newId: TeamId)
    requires Inv(s) && pid in s.procs
    ensures var (s', p') := StepProc(s, s.procs[pid], newId);
            StoresSound(s') && StoresKept(s, s') && ProcSound(s', p')
  {
    var p := s.procs[pid];
    assert ProcSound(s, p);
    var (s', p') := StepProc(s, p, newId);
    if s' == s {
      StepReads(s, p, newId);
      return;
    }
    match p
    case Mint(me, seats) =>
      MintKeeps(s, me, seats, newId);
      assert NobodyLinked(s', newId);
    case LinkOwner(me, tid) => LinkKeeps(s, me, tid);
    case LinkTarget(tid, target) => LinkKeeps(s, target, tid);
    case DropLink(tid, target) => UnlinkKeeps(s, target, tid);
    case Discard(me, tid) => DiscardKeeps(s, tid);
    case Unreserve(tid, target) =>
      ShrinkSound(s.teams[tid], target);
      RosterKeeps(s, tid, s'.teams[tid]);
    case DropMember(tid, target) =>
      ShrinkSound(s.teams[tid], target);
      RosterKeeps(s, tid, s'.teams[tid]);
    case Reserve(tid, target) =>
      assert SoundRoster(s'.teams[tid]);
      RosterKeeps(s, tid, s'.teams[tid]);
    case _ =>
  }

  /** Steps that only read leave the process with what it may rely on. */
  lemma StepReads(s: State, p: Proc, newId: TeamId)
    requires StoresSound(s) && ProcSound(s, p)
    requires StepProc(s, p, newId).0 == s
    ensures ProcSound(s, StepProc(s, p, newId).1)
  {
    var p' := StepProc(s, p, newId).1;
    assert p'.Unreserve? ==> p.LinkTarget? && Settled(s, p.tid);
  }

  /** A handler that relies on a settled team does so after any change that keeps it. */
  lemma KeptProc(s: State, s': State, r: Proc)
    requires StoresKept(s, s') && ProcSound(s, r) && !r.LinkOwner? && !r.Discard?
    ensures ProcSound(s', r)
  {
    hide Settled;
  }

  /** A handler at work on a team of its own is alone with it. */
  lemma MintKept(s: State, pid: Pid, newId: TeamId, q: Pid)
    requires Inv(s) && pid in s.procs && q in s.procs && q != pid && (s.procs[q].LinkOwner? || s.procs[q].Discard?)
    ensures ProcSound(StepProc(s, s.procs[pid], newId).0, s.procs[q])
  {
    var p, r := s.procs[pid], s.procs[q];
    assert ProcSound(s, p) && ProcSound(s, r) && Minting(r, r.tid);
    assert p.Discard? || p.LinkOwner? ==> Minting(p, p.tid);
    hide SoundRoster;
  }

  lemma StepOthers(s: State, pid: Pid, newId: TeamId, q: Pid)
    requires Inv(s) && pid in s.procs && q in s.procs && q != pid
    ensures ProcSound(StepProc(s, s.procs[pid], newId).0, s.procs[q])
  {
    StepStores(s, pid, newId);
    assert ProcSound(s, s.procs[q]);
    hide StepProc;
    hide Inv;
    hide ProcSound;
    if s.procs[q].LinkOwner? || s.procs[q].Discard? {
      MintKept(s, pid, newId, q);
    } else {
      KeptProc(s, StepProc(s, s.procs[pid], newId).0, s.procs[q]);
    }
  }

  lemma StepMinting(s: State, pid: Pid, newId: TeamId, q: Pid, t: TeamId)
    requires Inv(s) && pid in s.procs && q in s.procs && q != pid
    requires Minting(StepProc(s, s.procs[pid], newId).1, t)
    ensures !Minting(s.procs[q], t)
  {
    assert ProcSound(s, s.procs[q]);
    assert s.procs[pid].Mint? || Minting(s.procs[pid], t);
  }

  /** An account that opens, or a handler that starts, disturbs nothing. */
  lemma QuietKeepsInv(s: State, e: Event)
    requires Inv(s) && (e.Advance? ==> e.pid !in s.procs)
    ensures Inv(Step(s, e)) && StoresKept(s, Step(s, e))
  {
    var s' := Step(s, e);
    assert s'.teams == s.teams && s'.minted == s.minted;
    if e.Register? {
      OpenKeeps(s, e.user);
      forall q | q in s.procs
        ensures ProcSound(s', s.procs[q])
      {
        OpenKeepsProc(s, e.user, s.procs[q]);
      }
      hide ProcSound;
      hide StoresSound;
      hide StoresKept;
    } else {
      hide StoresSound;
      forall q | q in s'.procs
        ensures ProcSound(s', s'.procs[q])
      {
        assert q in s.procs ==> ProcSound(s, s'.procs[q]);
      }
    }
  }

  lemma OpenKeeps(s: State, u: User)
    requires StoresSound(s)
    ensures var s' := Step(s, Register(u));
            StoresSound(s') && StoresKept(s, s')
  {
    hide SoundRoster;
  }

  lemma OpenKeepsProc(s: State, u: User, p: Proc)
    requires ProcSound(s, p)
    ensures ProcSound(Step(s, Register(u)), p)
  {
  }

  lemma StepKeepsInv(s: State, e: Event)
    requires Inv(s)
    ensures Inv(Step(s, e))
    ensures StoresKept(s, Step(s, e))
  {
    if !e.Advance? || e.pid !in s.procs {
      QuietKeepsInv(s, e);
      return;
    }
    var s' := Step(s, e);
    StepStores(s, e.pid, e.newId);
    var (mid, p') := StepProc(s, s.procs[e.pid], e.newId);
    assert s' == mid.(procs := s.procs[e.pid := p']);
    hide StepProc;
    forall q | q in s'.procs
      ensures ProcSound(s', s'.procs[q])
    {
      if q != e.pid {
        StepOthers(s, e.pid, e.newId, q);
      }
      assert ProcSound(mid, s'.procs[q]);
    }
    forall q, t | q in s.procs && q != e.pid && Minting(p', t)
      ensures !Minting(s.procs[q], t)
    {
      StepMinting(s, e.pid, e.newId, q, t);
    }
  }

  /**
   Over every interleaving of every set of requests: rosters never repeat a member, never exceed the
   seats and always hold the owner, and every linked account points to a team that is there, with its
   owner linked to it.
   */
  lemma {:induction false} RostersSound(s: State, events: seq<Event>)
    requires Initial(s)
    ensures Inv(Run(s, events))
  {
    if events != [] {
      RostersSound(s, events[..|events| - 1]);
      StepKeepsInv(Run(s, events[..|events| - 1]), events[|events| - 1]);
    }
  }

  /**
   Once a team's owner is linked to it, no later event of any handler unlinks the owner, moves the
   team to another owner, deletes it, or takes the owner off the roster.
   */
  lemma {:induction false} OwnerStays(s: State, events: seq<Event>, tid: TeamId)
    requires Inv(s) && Settled(s, tid)
    ensures var s' := Run(s, events);
            && Inv(s') && Settled(s', tid)
            && s'.teams[tid].owner == s.teams[tid].owner
            && s'.teams[tid].owner in s'.teams[tid].members
  {
    if events != [] {
      var init := events[..|events| - 1];
      OwnerStays(s, init, tid);
      StepKeepsInv(Run(s, init), events[|events| - 1]);
    }
  }
}
