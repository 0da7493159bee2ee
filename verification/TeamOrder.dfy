/**
 Exactly when the two stores agree. Every write a handler makes, or finds already made, has a place in the
 run; the stores agree on a user and a team unless the handler that spoke last about the roster and the
 one that spoke last about the link wanted opposite things.
 */
module TeamOrder {
  import opened Bytes
  import opened TeamMachine
  import opened TeamOwner
  import opened TeamAgreement

  datatype Store = Roster | Link

  /** A step that settles one store's word on a user: on the team, or off it. */
  datatype Write = Write(pid: Pid, store: Store, tid: TeamId, user: User, seats: bool)

  /** What the step from p to p' says; a link refused, to an invite's target or a create's owner, says no. */
  function WriteFrom(pid: Pid, p: Proc, p': Proc, id: TeamId): Option<Write> {
    match p
    case Mint(me, _) => if p'.LinkOwner? then Some(Write(pid, Roster, id, me, true)) else None
    case LinkOwner(me, t) => Some(Write(pid, Link, t, me, p'.Done?))
    case Discard(me, t) => Some(Write(pid, Roster, t, me, false))
    case Reserve(t, u) => if p'.LinkTarget? then Some(Write(pid, Roster, t, u, true)) else None
    case LinkTarget(t, u) => Some(Write(pid, Link, t, u, p'.Done?))
    case Unreserve(t, u) => Some(Write(pid, Roster, t, u, false))
    case DropMember(t, u) => Some(Write(pid, Roster, t, u, false))
    case DropLink(t, u) => Some(Write(pid, Link, t, u, false))
    case _ => None
  }

  function WriteOf(s: State, pid: Pid, p: Proc, id: TeamId): Option<Write> {
    WriteFrom(pid, p, StepProc(s, p, id).1, id)
  }

  function Push(w: seq<Write>, x: Option<Write>): seq<Write> {
    if x.Some? then w + [x.value] else w
  }

  function EventWrite(s: State, e: Event): Option<Write> {
    if e.Advance? && e.pid in s.procs then WriteOf(s, e.pid, s.procs[e.pid], e.newId) else None
  }

  /** The writes of a run, in order. */
  function Writes(s: State, events: seq<Event>): seq<Write> {
    if events == [] then []
    else
      var init := events[..|events| - 1];
      Push(Writes(s, init), EventWrite(Run(s, init), events[|events| - 1]))
  }

  predicate About(x: Write, store: Store, t: TeamId, u: User) {
    x.store == store && x.tid == t && x.user == u
  }

  /** The place of the last write about u in one store of team t. */
  function LastAbout(w: seq<Write>, store: Store, t: TeamId, u: User): (r: Option<nat>)
    ensures r.Some? ==> r.value < |w| && About(w[r.value], store, t, u)
    ensures r.Some? ==> forall j :: r.value < j < |w| ==> !About(w[j], store, t, u)
    ensures r.None? ==> forall j :: 0 <= j < |w| ==> !About(w[j], store, t, u)
  {
    if w == [] then None
    else if About(w[|w| - 1], store, t, u) then Some(|w| - 1)
    else LastAbout(w[..|w| - 1], store, t, u)
  }

  /** The place of a handler's last write in one store. */
  function LastBy(w: seq<Write>, pid: Pid, store: Store): (r: Option<nat>)
    ensures r.Some? ==> r.value < |w| && w[r.value].pid == pid && w[r.value].store == store
    ensures r.Some? ==> forall j :: r.value < j < |w| ==> !(w[j].pid == pid && w[j].store == store)
    ensures r.None? ==> forall j :: 0 <= j < |w| ==> !(w[j].pid == pid && w[j].store == store)
  {
    if w == [] then None
    else if w[|w| - 1].pid == pid && w[|w| - 1].store == store then Some(|w| - 1)
    else LastBy(w[..|w| - 1], pid, store)
  }

  lemma LastAboutPush(w: seq<Write>, x: Write, store: Store, t: TeamId, u: User)
    ensures LastAbout(w + [x], store, t, u) == if About(x, store, t, u) then Some(|w|) else LastAbout(w, store, t, u)
  {
    assert (w + [x])[..|w|] == w;
  }

  lemma LastByPush(w: seq<Write>, x: Write, pid: Pid, store: Store)
    ensures LastBy(w + [x], pid, store) == if x.pid == pid && x.store == store then Some(|w|) else LastBy(w, pid, store)
  {
    assert (w + [x])[..|w|] == w;
  }

  predicate LastSeats(w: seq<Write>, store: Store, t: TeamId, u: User) {
    var i := LastAbout(w, store, t, u);
    i.Some? && w[i.value].seats
  }

  /** Each store says of everybody what was last written about them. */
  ghost predicate Follows(s: State, w: seq<Write>) {
    forall t, u :: (OnRoster(s, t, u) <==> LastSeats(w, Roster, t, u)) && (Linked(s, t, u) <==> LastSeats(w, Link, t, u))
  }

  lemma LastSeatsPush(w: seq<Write>, x: Write, store: Store, t: TeamId, u: User)
    ensures LastSeats(w + [x], store, t, u) == if About(x, store, t, u) then x.seats else LastSeats(w, store, t, u)
  {
    LastAboutPush(w, x, store, t, u);
  }

  /** A step changes what the roster says of a user only as its write says. */
  lemma RosterShows(s: State, s': State, pid: Pid, newId: TeamId, t: TeamId, u: User)
    requires Inv(s) && StepOf(s, s', pid, newId)
    ensures var x := WriteOf(s, pid, s.procs[pid], newId);
            OnRoster(s', t, u) <==> if x.Some? && About(x.value, Roster, t, u) then x.value.seats else OnRoster(s, t, u)
  {
    assert ProcSound(s, s.procs[pid]);
  }

  /** And what the link says. */
  lemma LinkShows(s: State, s': State, pid: Pid, newId: TeamId, t: TeamId, u: User)
    requires Inv(s) && StepOf(s, s', pid, newId)
    ensures var x := WriteOf(s, pid, s.procs[pid], newId);
            Linked(s', t, u) <==> if x.Some? && About(x.value, Link, t, u) then x.value.seats else Linked(s, t, u)
  {
    assert ProcSound(s, s.procs[pid]);
  }

  lemma FollowsStep(s: State, w: seq<Write>, e: Event)
    requires Inv(s) && Follows(s, w)
    ensures Follows(Step(s, e), Push(w, EventWrite(s, e)))
  {
    var s', x := Step(s, e), EventWrite(s, e);
    if e.Advance? && e.pid in s.procs {
      assert StepOf(s, s', e.pid, e.newId);
      forall t, u
        ensures OnRoster(s', t, u) <==> LastSeats(Push(w, x), Roster, t, u)
        ensures Linked(s', t, u) <==> LastSeats(Push(w, x), Link, t, u)
      {
        RosterShows(s, s', e.pid, e.newId, t, u);
        LinkShows(s, s', e.pid, e.newId, t, u);
        hide *;
        PushShows(s, s', w, x, t, u);
      }
    }
  }

  lemma PushShows(s: State, s': State, w: seq<Write>, x: Option<Write>, t: TeamId, u: User)
    requires Follows(s, w)
    requires OnRoster(s', t, u) <==> if x.Some? && About(x.value, Roster, t, u) then x.value.seats else OnRoster(s, t, u)
    requires Linked(s', t, u) <==> if x.Some? && About(x.value, Link, t, u) then x.value.seats else Linked(s, t, u)
    ensures OnRoster(s', t, u) <==> LastSeats(Push(w, x), Roster, t, u)
    ensures Linked(s', t, u) <==> LastSeats(Push(w, x), Link, t, u)
  {
    hide OnRoster;
    hide Linked;
    hide LastSeats;
    if x.Some? {
      LastSeatsPush(w, x.value, Roster, t, u);
      LastSeatsPush(w, x.value, Link, t, u);
    }
  }

  /** No handler writes about two users or two teams. */
  ghost predicate OneTopic(w: seq<Write>) {
    forall i, j :: 0 <= i < |w| && 0 <= j < |w| && w[i].pid == w[j].pid ==> w[i].tid == w[j].tid && w[i].user == w[j].user
  }

  predicate Silent(w: seq<Write>, pid: Pid) {
    LastBy(w, pid, Roster).None? && LastBy(w, pid, Link).None?
  }

  predicate Said(w: seq<Write>, pid: Pid, store: Store, t: TeamId, u: User, seats: bool) {
    var i := LastBy(w, pid, store);
    i.Some? && w[i.value] == Write(pid, store, t, u, seats)
  }

  /** A handler with both its words said, the same. */
  ghost predicate Section(w: seq<Write>, pid: Pid, t: TeamId, u: User, seats: bool) {
    Said(w, pid, Roster, t, u, seats) && Said(w, pid, Link, t, u, seats)
  }

  /** What each handler has said so far. */
  ghost predicate Words(w: seq<Write>, pid: Pid, p: Proc) {
    match p
    case LinkOwner(me, t) => Said(w, pid, Roster, t, me, true) && LastBy(w, pid, Link).None?
    case Discard(me, t) => Said(w, pid, Roster, t, me, true) && Said(w, pid, Link, t, me, false)
    case LinkTarget(t, u) => Said(w, pid, Roster, t, u, true) && LastBy(w, pid, Link).None?
    case Unreserve(t, u) => Said(w, pid, Roster, t, u, true) && Said(w, pid, Link, t, u, false)
    case DropLink(t, u) => Said(w, pid, Roster, t, u, false) && LastBy(w, pid, Link).None?
    case Done(_) => Finished(w, pid)
    case _ => Silent(w, pid)
  }

  ghost predicate Finished(w: seq<Write>, pid: Pid) {
    Silent(w, pid) || exists t, u, seats :: Section(w, pid, t, u, seats)
  }

  ghost predicate AllWords(s: State, w: seq<Write>) {
    && OneTopic(w)
    && (forall pid :: pid in s.procs ==> Words(w, pid, s.procs[pid]))
    && (forall i :: 0 <= i < |w| ==> w[i].pid in s.procs)
  }

  lemma SaidPush(w: seq<Write>, x: Write, pid: Pid, store: Store, t: TeamId, u: User, seats: bool)
    ensures Said(w + [x], pid, store, t, u, seats)
            == if x.pid == pid && x.store == store then x == Write(pid, store, t, u, seats) else Said(w, pid, store, t, u, seats)
  {
    LastByPush(w, x, pid, store);
  }

  /** Another handler's write changes nothing of what this one has said. */
  lemma {:induction false} OthersWords(w: seq<Write>, x: Write, pid: Pid, p: Proc)
    requires Words(w, pid, p) && x.pid != pid
    ensures Words(w + [x], pid, p)
  {
    LastByPush(w, x, pid, Roster);
    LastByPush(w, x, pid, Link);
    SaidKept(w, x, pid);
    hide LastBy;
    hide Said;
    hide Section;
    if p.Done? {
      if !Silent(w, pid) {
        SectionKept(w, x, pid);
      }
    } else {
      hide Finished;
    }
  }

  lemma {:induction false} SectionKept(w: seq<Write>, x: Write, pid: Pid)
    requires x.pid != pid && exists t, u, seats :: Section(w, pid, t, u, seats)
    ensures exists t, u, seats :: Section(w + [x], pid, t, u, seats)
  {
    var t, u, seats :| Section(w, pid, t, u, seats);
    SaidPush(w, x, pid, Roster, t, u, seats);
    SaidPush(w, x, pid, Link, t, u, seats);
    hide Said;
    assert Section(w + [x], pid, t, u, seats);
  }

  lemma SaidKept(w: seq<Write>, x: Write, pid: Pid)
    requires x.pid != pid
    ensures forall store: Store, t, u, seats :: Said(w + [x], pid, store, t, u, seats) == Said(w, pid, store, t, u, seats)
    ensures forall t, u, seats :: Section(w + [x], pid, t, u, seats) == Section(w, pid, t, u, seats)
  {
    forall store: Store, t, u, seats
      ensures Said(w + [x], pid, store, t, u, seats) == Said(w, pid, store, t, u, seats)
    {
      SaidPush(w, x, pid, store, t, u, seats);
    }
    hide Said;
  }

  lemma {:induction false} OwnWords(s: State, w: seq<Write>, pid: Pid, p: Proc, id: TeamId)
    requires Words(w, pid, p)
    ensures Words(Push(w, WriteOf(s, pid, p, id)), pid, StepProc(s, p, id).1)
  {
    var x, p' := WriteOf(s, pid, p, id), StepProc(s, p, id).1;
    if x.Some? {
      LastByPush(w, x.value, pid, Roster);
      LastByPush(w, x.value, pid, Link);
      if p'.Done? {
        assert Section(w + [x.value], pid, x.value.tid, x.value.user, x.value.seats);
      }
    }
  }

  /** The stepping handler writes about the user and team it has written about. */
  lemma OwnTopic(s: State, w: seq<Write>, pid: Pid, p: Proc, id: TeamId, i: nat)
    requires Words(w, pid, p) && OneTopic(w) && i < |w| && w[i].pid == pid
    ensures var x := WriteOf(s, pid, p, id);
            x.Some? ==> x.value.tid == w[i].tid && x.value.user == w[i].user
  {
    hide OneTopic;
    var x, k := WriteOf(s, pid, p, id), LastBy(w, pid, Roster);
    assert w[i].store == Roster || w[i].store == Link;
    if x.Some? {
      assert k.Some? && w[k.value].tid == x.value.tid && w[k.value].user == x.value.user;
      TopicAt(w, i, k.value);
    }
  }

  lemma TopicAt(w: seq<Write>, i: nat, j: nat)
    requires OneTopic(w) && i < |w| && j < |w| && w[i].pid == w[j].pid
    ensures w[i].tid == w[j].tid && w[i].user == w[j].user
  {
  }

  lemma WordsStep(s: State, w: seq<Write>, e: Event)
    requires AllWords(s, w)
    ensures AllWords(Step(s, e), Push(w, EventWrite(s, e)))
  {
    if e.Advance? && e.pid in s.procs {
      var p, x := s.procs[e.pid], WriteOf(s, e.pid, s.procs[e.pid], e.newId);
      OwnWords(s, w, e.pid, p, e.newId);
      WriterIs(s, e.pid, p, e.newId);
      StepProcs(s, e);
      TopicKept(s, w, e.pid, e.newId);
      hide StepProc;
      hide WriteOf;
      hide Words;
      hide Step;
      hide OneTopic;
      forall q | q in s.procs && q != e.pid
        ensures Words(Push(w, x), q, s.procs[q])
      {
        if x.Some? {
          OthersWords(w, x.value, q, s.procs[q]);
        }
      }
    } else {
      ArriveWords(s, w, e);
    }
  }

  lemma TopicKept(s: State, w: seq<Write>, pid: Pid, id: TeamId)
    requires AllWords(s, w) && pid in s.procs
    ensures OneTopic(Push(w, WriteOf(s, pid, s.procs[pid], id)))
  {
    WriterIs(s, pid, s.procs[pid], id);
    var x := WriteOf(s, pid, s.procs[pid], id);
    forall i | 0 <= i < |w| && x.Some? && w[i].pid == pid
      ensures x.value.tid == w[i].tid && x.value.user == w[i].user
    {
      OwnTopic(s, w, pid, s.procs[pid], id, i);
    }
    hide WriteOf;
    hide Words;
  }

  lemma ArriveWords(s: State, w: seq<Write>, e: Event)
    requires AllWords(s, w) && (e.Advance? ==> e.pid !in s.procs)
    ensures AllWords(Step(s, e), Push(w, EventWrite(s, e)))
  {
    if e.Arrive? && e.pid !in s.procs {
      NewcomerSilent(s, w, e.pid, e.req);
    }
    hide WriteOf;
    hide StepProc;
    hide Words;
    hide OneTopic;
  }

  lemma NewcomerSilent(s: State, w: seq<Write>, pid: Pid, req: Request)
    requires AllWords(s, w) && pid !in s.procs
    ensures Words(w, pid, Begin(req))
  {
    hide OneTopic;
    hide Said;
    hide Section;
  }

  lemma StepProcs(s: State, e: Event)
    requires e.Advance? && e.pid in s.procs
    ensures Step(s, e).procs == s.procs[e.pid := StepProc(s, s.procs[e.pid], e.newId).1]
    ensures EventWrite(s, e) == WriteOf(s, e.pid, s.procs[e.pid], e.newId)
  {
    hide StepProc;
    hide WriteOf;
  }

  lemma WriterIs(s: State, pid: Pid, p: Proc, id: TeamId)
    ensures var x := WriteOf(s, pid, p, id);
            x.Some? ==> x.value.pid == pid
  {
  }

  /** Over every run the stores follow the writes, and every handler has said what its place says. */
  lemma {:induction false} RunFollows(s: State, events: seq<Event>)
    requires Initial(s)
    ensures Inv(Run(s, events)) && Follows(Run(s, events), Writes(s, events)) && AllWords(Run(s, events), Writes(s, events))
  {
    RostersSound(s, events);
    if events != [] {
      var init, e := events[..|events| - 1], events[|events| - 1];
      RunFollows(s, init);
      FollowsStep(Run(s, init), Writes(s, init), e);
      WordsStep(Run(s, init), Writes(s, init), e);
      hide *;
      RunLast(s, events);
    }
  }

  lemma RunLast(s: State, events: seq<Event>)
    requires events != []
    ensures var init, e := events[..|events| - 1], events[|events| - 1];
            && Run(s, events) == Step(Run(s, init), e)
            && Writes(s, events) == Push(Writes(s, init), EventWrite(Run(s, init), e))
  {
    hide Step;
    hide EventWrite;
  }

  ghost predicate AgreesAt(s: State, t: TeamId, u: User) {
    OnRoster(s, t, u) <==> Linked(s, t, u)
  }

  /** Two handlers that were through with u on team t and wanted opposite things. */
  ghost predicate Opposed(w: seq<Write>, p: Pid, q: Pid, t: TeamId, u: User) {
    exists seats :: Section(w, p, t, u, seats) && Section(w, q, t, u, !seats)
  }

  /** p spoke last about the roster, q about the link, and they are opposed. */
  ghost predicate Crossing(w: seq<Write>, p: Pid, q: Pid, t: TeamId, u: User) {
    && Opposed(w, p, q, t, u)
    && LastBy(w, p, Roster) == LastAbout(w, Roster, t, u)
    && LastBy(w, q, Link) == LastAbout(w, Link, t, u)
  }

  ghost predicate Crossed(w: seq<Write>, t: TeamId, u: User) {
    exists p, q :: Crossing(w, p, q, t, u)
  }

  /** When no handler is between its writes, whoever wrote has said the same in both stores. */
  lemma QuietSection(s: State, w: seq<Write>, i: nat)
    requires AllWords(s, w) && Quiet(s) && i < |w|
    ensures exists seats :: Section(w, w[i].pid, w[i].tid, w[i].user, seats)
  {
    var pid := w[i].pid;
    var p := s.procs[pid];
    assert Words(w, pid, p) && !MidWrite(p);
    assert w[i].store == Roster || w[i].store == Link;
    var t, u, seats :| Section(w, pid, t, u, seats);
    TopicAt(w, i, LastBy(w, pid, Roster).value);
  }

  /** The last word about u in a store is its speaker's own last word there. */
  lemma LastIsOwn(w: seq<Write>, store: Store, t: TeamId, u: User, seats: bool)
    requires OneTopic(w) && LastAbout(w, store, t, u).Some?
    requires Section(w, w[LastAbout(w, store, t, u).value].pid, t, u, seats)
    ensures LastBy(w, w[LastAbout(w, store, t, u).value].pid, store) == LastAbout(w, store, t, u)
    ensures w[LastAbout(w, store, t, u).value].seats == seats
  {
    var i := LastAbout(w, store, t, u).value;
    var pid := w[i].pid;
    var j := LastBy(w, pid, store);
    assert j.Some? && i <= j.value;
    TopicAt(w, i, j.value);
    assert Said(w, pid, Roster, t, u, seats) && Said(w, pid, Link, t, u, seats);
  }

  /** On one user and one team: the stores agree exactly when no two handlers crossed there. */
  lemma AgreesAtExactly(s: State, w: seq<Write>, t: TeamId, u: User)
    requires Follows(s, w) && AllWords(s, w) && Quiet(s)
    ensures AgreesAt(s, t, u) <==> !Crossed(w, t, u)
  {
    var i, j := LastAbout(w, Roster, t, u), LastAbout(w, Link, t, u);
    if i.Some? || j.Some? {
      BothSpoken(s, w, t, u);
      QuietSection(s, w, i.value);
      QuietSection(s, w, j.value);
      var p, q := w[i.value].pid, w[j.value].pid;
      var a :| Section(w, p, t, u, a);
      var b :| Section(w, q, t, u, b);
      LastIsOwn(w, Roster, t, u, a);
      LastIsOwn(w, Link, t, u, b);
      assert AgreesAt(s, t, u) <==> a == b;
      assert a != b ==> Section(w, q, t, u, !a);
      assert a != b ==> Crossing(w, p, q, t, u);
    }
    if Crossed(w, t, u) {
      var p, q :| Crossing(w, p, q, t, u);
      var a :| Section(w, p, t, u, a) && Section(w, q, t, u, !a);
      assert Said(w, p, Roster, t, u, a) && Said(w, q, Link, t, u, !a);
    }
  }

  lemma BothSpoken(s: State, w: seq<Write>, t: TeamId, u: User)
    requires AllWords(s, w) && Quiet(s)
    ensures LastAbout(w, Roster, t, u).Some? <==> LastAbout(w, Link, t, u).Some?
  {
    var i, j := LastAbout(w, Roster, t, u), LastAbout(w, Link, t, u);
    if i.Some? {
      QuietSection(s, w, i.value);
      var a :| Section(w, w[i.value].pid, t, u, a);
      assert Said(w, w[i.value].pid, Link, t, u, a);
    }
    if j.Some? {
      QuietSection(s, w, j.value);
      var b :| Section(w, w[j.value].pid, t, u, b);
      assert Said(w, w[j.value].pid, Roster, t, u, b);
    }
  }

  /**
   Over every run of the four handlers, interleaved in any way: whenever no handler is between its two
   writes, the stores agree exactly when nowhere the last word on the roster and the last word on the link
   came from opposed handlers. Then nobody owns two teams.
   */
  lemma StoresAgree(s: State, events: seq<Event>)
    requires Initial(s) && Quiet(Run(s, events))
    ensures Agreement(Run(s, events)) <==> forall t, u :: !Crossed(Writes(s, events), t, u)
    ensures Agreement(Run(s, events)) ==> OneTeamPerOwner(Run(s, events))
  {
    RunFollows(s, events);
    hide *;
    EverywhereExactly(Run(s, events), Writes(s, events));
    if Agreement(Run(s, events)) {
      OwnersApart(Run(s, events));
    }
  }

  lemma EverywhereExactly(s: State, w: seq<Write>)
    requires Follows(s, w) && AllWords(s, w) && Quiet(s)
    ensures Agreement(s) <==> forall t, u :: !Crossed(w, t, u)
  {
    forall t, u
      ensures AgreesAt(s, t, u) <==> !Crossed(w, t, u)
    {
      AgreesAtExactly(s, w, t, u);
    }
    EverywhereIs(s);
    hide *;
  }

  lemma EverywhereIs(s: State)
    ensures Agreement(s) <==> forall t, u :: AgreesAt(s, t, u)
  {
    hide OnRoster;
    hide Linked;
    if forall t, u :: AgreesAt(s, t, u) {
      forall t, u
        ensures OnRoster(s, t, u) <==> Linked(s, t, u)
      {
        assert AgreesAt(s, t, u);
      }
    }
  }

  /** Both opposed handlers' words come in the same order in the two stores. */
  predicate SameOrder(w: seq<Write>, p: Pid, q: Pid)
    requires LastBy(w, p, Roster).Some? && LastBy(w, q, Roster).Some? && LastBy(w, p, Link).Some? && LastBy(w, q, Link).Some?
  {
    LastBy(w, p, Roster).value < LastBy(w, q, Roster).value <==> LastBy(w, p, Link).value < LastBy(w, q, Link).value
  }

  lemma OpposedSpoke(w: seq<Write>, p: Pid, q: Pid, t: TeamId, u: User)
    requires Opposed(w, p, q, t, u)
    ensures LastBy(w, p, Roster).Some? && LastBy(w, q, Roster).Some? && LastBy(w, p, Link).Some? && LastBy(w, q, Link).Some?
    ensures p != q
  {
    var a :| Section(w, p, t, u, a) && Section(w, q, t, u, !a);
    assert Said(w, p, Roster, t, u, a) && Said(w, q, Roster, t, u, !a);
    assert Said(w, p, Link, t, u, a) && Said(w, q, Link, t, u, !a);
  }

  ghost predicate AllSameOrder(w: seq<Write>) {
    forall p, q, t, u :: Opposed(w, p, q, t, u) ==> (OpposedSpoke(w, p, q, t, u); SameOrder(w, p, q))
  }

  /** So it is enough that opposed handlers always write in the same order. */
  lemma SameOrderAgrees(s: State, events: seq<Event>)
    requires Initial(s) && Quiet(Run(s, events)) && AllSameOrder(Writes(s, events))
    ensures Agreement(Run(s, events)) && OneTeamPerOwner(Run(s, events))
  {
    StoresAgree(s, events);
    var w := Writes(s, events);
    forall t, u
      ensures !Crossed(w, t, u)
    {
      if Crossed(w, t, u) {
        var p, q :| Crossing(w, p, q, t, u);
        CrossingSwaps(w, p, q, t, u);
      }
    }
  }

  lemma CrossingSwaps(w: seq<Write>, p: Pid, q: Pid, t: TeamId, u: User)
    requires Crossing(w, p, q, t, u)
    ensures Opposed(w, p, q, t, u)
    ensures LastBy(w, p, Roster).Some? && LastBy(w, q, Roster).Some? && LastBy(w, p, Link).Some? && LastBy(w, q, Link).Some?
    ensures !SameOrder(w, p, q)
  {
    OpposedSpoke(w, p, q, t, u);
    var a :| Section(w, p, t, u, a) && Section(w, q, t, u, !a);
    assert Said(w, p, Link, t, u, a) && Said(w, q, Roster, t, u, !a);
    assert LastBy(w, p, Roster) != LastBy(w, q, Roster) && LastBy(w, p, Link) != LastBy(w, q, Link);
  }

  predicate OnTopic(x: Write, t: TeamId, u: User) {
    x.tid == t && x.user == u
  }

  /** Everybody else spoke about u before p and q had their last words. */
  ghost predicate LastTwo(w: seq<Write>, p: Pid, q: Pid, t: TeamId, u: User) {
    forall i, j ::
      0 <= i < j < |w| && OnTopic(w[i], t, u) && OnTopic(w[j], t, u) && w[i].pid in {p, q} ==> w[j].pid in {p, q}
  }

  /** Two opposed handlers, the last to write about u: the stores agree exactly when they wrote in the same order. */
  lemma TwoSectionsExactly(s: State, events: seq<Event>, p: Pid, q: Pid, t: TeamId, u: User)
    requires Initial(s) && Quiet(Run(s, events))
    requires Opposed(Writes(s, events), p, q, t, u) && LastTwo(Writes(s, events), p, q, t, u)
    ensures var w := Writes(s, events);
            && LastBy(w, p, Roster).Some? && LastBy(w, q, Roster).Some? && LastBy(w, p, Link).Some? && LastBy(w, q, Link).Some?
            && (AgreesAt(Run(s, events), t, u) <==> SameOrder(w, p, q))
  {
    RunFollows(s, events);
    var w := Writes(s, events);
    OpposedSpoke(w, p, q, t, u);
    LastOfTwo(w, p, q, t, u, Roster);
    LastOfTwo(w, p, q, t, u, Link);
    var a :| Section(w, p, t, u, a) && Section(w, q, t, u, !a);
    assert Said(w, p, Roster, t, u, a) && Said(w, q, Roster, t, u, !a);
    assert Said(w, p, Link, t, u, a) && Said(w, q, Link, t, u, !a);
  }

  lemma LastOfTwo(w: seq<Write>, p: Pid, q: Pid, t: TeamId, u: User, store: Store)
    requires OneTopic(w) && Opposed(w, p, q, t, u) && LastTwo(w, p, q, t, u)
    ensures LastBy(w, p, store).Some? && LastBy(w, q, store).Some?
    ensures LastBy(w, p, store) != LastBy(w, q, store)
    ensures LastAbout(w, store, t, u)
            == if LastBy(w, p, store).value < LastBy(w, q, store).value then LastBy(w, q, store) else LastBy(w, p, store)
  {
    var a :| Section(w, p, t, u, a) && Section(w, q, t, u, !a);
    assert Said(w, p, store, t, u, a) && Said(w, q, store, t, u, !a);
    var i, j, k := LastBy(w, p, store).value, LastBy(w, q, store).value, LastAbout(w, store, t, u);
    assert About(w[i], store, t, u) && About(w[j], store, t, u);
    assert k.Some? && i <= k.value && j <= k.value;
  }

  /** Runs whose invites and removals of a user never overlap are among those that do not cross. */
  lemma CalmNeverCrosses(s: State, events: seq<Event>, t: TeamId, u: User)
    requires Initial(s) && Calm(s, events) && Quiet(Run(s, events))
    ensures !Crossed(Writes(s, events), t, u)
  {
    CalmAgrees(s, events);
    RunFollows(s, events);
    AgreesAtExactly(Run(s, events), Writes(s, events), t, u);
  }
}
