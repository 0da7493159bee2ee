/** What becomes of a claim: it is delivered, or a sweep took the claimed name past its age first. */
module RelayClaims {
  import opened Base32
  import opened Bytes
  import opened Relay
  import opened RelayOnce

  /** The download is still at work on its claim, has delivered it, or lost it to a sweep. */
  ghost predicate Claimant(s: Store, p: Proc, c: string) {
    match p
    case DlOpen(code) => code == c && (ClaimedName(c) in s.dir || ClaimedName(c) in s.lapsed)
    case DlRead(code, _, _) => code == c
    case DlCleanup(code, sent) => code == c && (sent.None? ==> ClaimedName(c) in s.lapsed)
    case DlDone(code, sent) => code == c && (sent.None? ==> ClaimedName(c) in s.lapsed)
    case _ => false
  }

  /** Claimed names come from claims. */
  ghost predicate NamesClaimed(s: Store) {
    forall c :: ValidCode(c) && (ClaimedName(c) in s.dir || ClaimedName(c) in s.lapsed) ==> c in s.claims
  }

  /** Claimed names go to sweeps only past their age. */
  ghost predicate LapsedOld(s: Store, ttl: nat) {
    forall c :: c in s.claims && ClaimedName(c) in s.lapsed ==>
      s.lapsed[ClaimedName(c)].mtime < s.lapsed[ClaimedName(c)].at - ttl
  }

  /** A sweep about to remove a claimed name has seen that it is old enough. */
  ghost predicate SweepsOld(s: Store, p: Proc) {
    p.SwRemove? ==>
      forall c :: ValidCode(c) && p.name == ClaimedName(c) ==>
        && c in s.claims
        && (p.name in s.dir && s.dir[p.name] in s.files ==> s.files[s.dir[p.name]].mtime < p.cutoff)
  }

  ghost predicate Tracked(s: State, ttl: nat) {
    && NamesClaimed(s.store) && LapsedOld(s.store, ttl)
    && (forall c :: c in s.store.claims ==> s.store.claims[c] in s.procs && Claimant(s.store, s.procs[s.store.claims[c]], c))
    && (forall pid :: pid in s.procs ==> SweepsOld(s.store, s.procs[pid]))
  }

  /** The only claim a step adds. */
  lemma Claims(s: Store, ttl: nat, pid: Pid, p: Proc, ch: Choice, c: string)
    ensures var (s', p') := StepProc(s, ttl, pid, p, ch);
            && (c in s.claims && c !in s.dir ==> c in s'.claims && s'.claims[c] == s.claims[c])
            && (c in s'.claims && (c !in s.claims || s'.claims[c] != s.claims[c]) ==>
                  p == DlRename(c) && c in s.dir && s'.claims[c] == pid && p' == DlOpen(c) && ClaimedName(c) in s'.dir)
  {
    assert |ClaimedName(c)| > |c|;
    hide ValidCode;
    hide TempName;
    hide ClaimedName;
  }

  lemma NamesStep(s: Store, ttl: nat, pid: Pid, p: Proc, ch: Choice)
    requires Sound(s, ttl) && ProcSound(s, ttl, pid, p) && NamesClaimed(s)
    ensures NamesClaimed(StepProc(s, ttl, pid, p, ch).0)
  {
    var s' := StepProc(s, ttl, pid, p, ch).0;
    OwnStep(s, ttl, pid, p, ch);
    hide StepProc;
    forall c | ValidCode(c) && (ClaimedName(c) in s'.dir || ClaimedName(c) in s'.lapsed)
      ensures c in s'.claims
    {
      NameStep(s, ttl, pid, p, ch, c);
    }
  }

  lemma NameStep(s: Store, ttl: nat, pid: Pid, p: Proc, ch: Choice, c: string)
    requires Sound(s, ttl) && ProcSound(s, ttl, pid, p) && NamesClaimed(s) && ValidCode(c)
    requires Kept(s, StepProc(s, ttl, pid, p, ch).0)
    requires var s' := StepProc(s, ttl, pid, p, ch).0; ClaimedName(c) in s'.dir || ClaimedName(c) in s'.lapsed
    ensures c in StepProc(s, ttl, pid, p, ch).0.claims
  {
    var n := ClaimedName(c);
    NamesDisjoint(ch.name, c);
    Binds(s, ttl, pid, p, ch, n);
    Lapses(s, ttl, pid, p, ch, n);
    UploadCode(s, ttl, pid, p);
    if p.DlRename? && ClaimedName(p.code) == n {
      ClaimedInjective(p.code, c);
    }
    assert n in s.dir || n in s.lapsed ==> c in s.claims;
    hide StepProc;
    hide ClaimedName;
    hide TempName;
    hide ValidCode;
    hide Sound;
    hide ProcSound;
  }

  lemma UploadCode(s: Store, ttl: nat, pid: Pid, p: Proc)
    requires Sound(s, ttl) && ProcSound(s, ttl, pid, p)
    ensures p.UpRename? ==> ValidCode(p.code) && TempName(p.tmp)
    ensures p.UpCleanup? ==> TempName(p.tmp)
    ensures p.DlCleanup? ==> p.code in s.claims && s.claims[p.code] == pid
  {
    hide OnePlace;
    hide SweptOld;
    hide ValidCode;
    hide TempName;
  }

  /** A claimed name stays bound to the one file, until a sweep or its claimant takes it. */
  lemma ClaimedBinding(s: Store, ttl: nat, pid: Pid, p: Proc, ch: Choice, c: string)
    requires Sound(s, ttl) && ProcSound(s, ttl, pid, p) && c in s.claims && ClaimedName(c) in s.dir
    ensures var (s', n) := (StepProc(s, ttl, pid, p, ch).0, ClaimedName(c));
            && (n in s'.dir ==> s'.dir[n] == s.dir[n])
            && (n !in s'.dir ==> n in s'.lapsed || (p.DlCleanup? && p.code == c && s.claims[c] == pid))
  {
    var n := ClaimedName(c);
    ClaimFacts(s, ttl, c);
    NamesDisjoint(ch.name, c);
    UploadCode(s, ttl, pid, p);
    if p.UpCleanup? || p.UpRename? {
      NamesDisjoint(p.tmp, c);
    }
    Binds(s, ttl, pid, p, ch, n);
    Unbinds(s, ttl, pid, p, ch, n);
    Lapses(s, ttl, pid, p, ch, n);
    DownloadCode(s, ttl, pid, p);
    if (p.DlRename? || p.DlCleanup?) && ClaimedName(p.code) == n {
      ClaimedInjective(p.code, c);
    }
    hide StepProc;
    hide ClaimedName;
    hide TempName;
    hide ValidCode;
    hide Sound;
    hide ProcSound;
  }

  lemma DownloadCode(s: Store, ttl: nat, pid: Pid, p: Proc)
    requires ProcSound(s, ttl, pid, p)
    ensures p.DlRename? ==> ValidCode(p.code)
  {
    hide ValidCode;
  }

  lemma ClaimFacts(s: Store, ttl: nat, c: string)
    requires Sound(s, ttl) && c in s.claims
    ensures ValidCode(c) && c in s.codes && c !in s.dir && c !in s.swept
    ensures ClaimedName(c) !in s.codes
    ensures ClaimedName(c) in s.dir ==>
              var i := s.dir[ClaimedName(c)];
              i in s.files && !s.files[i].open
  {
    assert c in s.published && c in s.codes;
    NamesDisjoint("", c);
    hide ClaimedName;
    hide ValidCode;
  }

  lemma LapsedStep(s: Store, ttl: nat, pid: Pid, p: Proc, ch: Choice)
    requires Sound(s, ttl) && ProcSound(s, ttl, pid, p) && LapsedOld(s, ttl) && NamesClaimed(s) && SweepsOld(s, p)
    ensures LapsedOld(StepProc(s, ttl, pid, p, ch).0, ttl)
  {
    var s' := StepProc(s, ttl, pid, p, ch).0;
    forall c | c in s'.claims && ClaimedName(c) in s'.lapsed
      ensures s'.lapsed[ClaimedName(c)].mtime < s'.lapsed[ClaimedName(c)].at - ttl
    {
      var n := ClaimedName(c);
      Lapses(s, ttl, pid, p, ch, n);
      Claims(s, ttl, pid, p, ch, c);
      DownloadCode(s, ttl, pid, p);
      SweepCutoff(s, ttl, pid, p);
      assert ValidCode(c) && n in s.lapsed ==> c in s.claims;
      if c in s.claims {
        ClaimFacts(s, ttl, c);
      }
      hide StepProc;
      hide ClaimedName;
      hide ValidCode;
      hide Sound;
      hide ProcSound;
    }
  }

  lemma SweepCutoff(s: Store, ttl: nat, pid: Pid, p: Proc)
    requires ProcSound(s, ttl, pid, p)
    ensures p.SwRemove? ==> p.cutoff <= s.clock - ttl
  {
    hide ValidCode;
  }

  /** What a sweep has seen of a claimed name stays so whoever steps. */
  lemma SweepsStay(s: Store, ttl: nat, pid: Pid, p: Proc, ch: Choice, r: Proc)
    requires Sound(s, ttl) && ProcSound(s, ttl, pid, p) && SweepsOld(s, r)
    requires Kept(s, StepProc(s, ttl, pid, p, ch).0)
    ensures SweepsOld(StepProc(s, ttl, pid, p, ch).0, r)
  {
    var s' := StepProc(s, ttl, pid, p, ch).0;
    if r.SwRemove? {
      forall c | ValidCode(c) && r.name == ClaimedName(c)
        ensures c in s'.claims
        ensures r.name in s'.dir && s'.dir[r.name] in s'.files ==> s'.files[s'.dir[r.name]].mtime < r.cutoff
      {
        SweepStays(s, ttl, pid, p, ch, r, c);
      }
    }
  }

  lemma SweepStays(s: Store, ttl: nat, pid: Pid, p: Proc, ch: Choice, r: Proc, c: string)
    requires Sound(s, ttl) && ProcSound(s, ttl, pid, p) && SweepsOld(s, r) && r.SwRemove?
    requires Kept(s, StepProc(s, ttl, pid, p, ch).0) && ValidCode(c) && r.name == ClaimedName(c)
    ensures var s' := StepProc(s, ttl, pid, p, ch).0;
            && c in s'.claims
            && (r.name in s'.dir && s'.dir[r.name] in s'.files ==> s'.files[s'.dir[r.name]].mtime < r.cutoff)
  {
    assert c in s.claims;
    ClaimFacts(s, ttl, c);
    if r.name in s.dir {
      ClaimedBinding(s, ttl, pid, p, ch, c);
    } else {
      Binds(s, ttl, pid, p, ch, r.name);
      UploadCode(s, ttl, pid, p);
      NamesDisjoint(ch.name, c);
      if p.DlRename? && ClaimedName(p.code) == r.name {
        ClaimedInjective(p.code, c);
      }
    }
    hide StepProc;
    hide ClaimedName;
    hide ValidCode;
    hide TempName;
    hide Sound;
    hide ProcSound;
  }

  /** A sweep only goes on to remove what it has just seen old. */
  lemma SweepsOwn(s: Store, ttl: nat, pid: Pid, p: Proc, ch: Choice)
    requires NamesClaimed(s)
    ensures SweepsOld(StepProc(s, ttl, pid, p, ch).0, StepProc(s, ttl, pid, p, ch).1)
  {
    hide ValidCode;
    hide TempName;
    hide ClaimedName;
  }

  /** A claimant's own step keeps it one, for the code it has claimed. */
  lemma ClaimantOwn(s: Store, ttl: nat, pid: Pid, p: Proc, ch: Choice, c: string)
    requires Claimant(s, p, c)
    ensures Claimant(StepProc(s, ttl, pid, p, ch).0, StepProc(s, ttl, pid, p, ch).1, c)
  {
    hide ValidCode;
    hide TempName;
    hide ClaimedName;
  }

  lemma ClaimantStays(s: Store, ttl: nat, pid: Pid, p: Proc, ch: Choice, q: Pid, r: Proc, c: string)
    requires Sound(s, ttl) && ProcSound(s, ttl, pid, p) && c in s.claims && s.claims[c] == q != pid && Claimant(s, r, c)
    ensures Claimant(StepProc(s, ttl, pid, p, ch).0, r, c)
  {
    Lapses(s, ttl, pid, p, ch, ClaimedName(c));
    if ClaimedName(c) in s.dir {
      ClaimedBinding(s, ttl, pid, p, ch, c);
    }
    hide StepProc;
    hide ClaimedName;
    hide Sound;
    hide ProcSound;
  }

  lemma {:induction false} AdvanceTracked(s: State, ttl: nat, pid: Pid, ch: Choice)
    requires Inv(s, ttl) && Tracked(s, ttl) && pid in s.procs
    ensures var (d', p') := StepProc(s.store, ttl, pid, s.procs[pid], ch);
            && NamesClaimed(d') && LapsedOld(d', ttl)
            && (forall q :: q in s.procs ==> SweepsOld(d', if q == pid then p' else s.procs[q]))
  {
    var p := s.procs[pid];
    assert ProcSound(s.store, ttl, pid, p) && SweepsOld(s.store, p);
    OwnStep(s.store, ttl, pid, p, ch);
    NamesStep(s.store, ttl, pid, p, ch);
    LapsedStep(s.store, ttl, pid, p, ch);
    SweepsOwn(s.store, ttl, pid, p, ch);
    var d' := StepProc(s.store, ttl, pid, p, ch).0;
    assert forall q :: q in s.procs ==> SweepsOld(s.store, s.procs[q]);
    hide *;
    forall q | q in s.procs && q != pid
      ensures SweepsOld(d', s.procs[q])
    {
      StepKept(s.store, ttl, pid, p, ch);
      SweepsStay(s.store, ttl, pid, p, ch, s.procs[q]);
    }
  }

  lemma StepKept(s: Store, ttl: nat, pid: Pid, p: Proc, ch: Choice)
    requires Sound(s, ttl) && ProcSound(s, ttl, pid, p)
    ensures Kept(s, StepProc(s, ttl, pid, p, ch).0)
  {
    OwnStep(s, ttl, pid, p, ch);
    hide StepProc;
    hide Kept;
    hide Sound;
    hide ProcSound;
    hide Elsewhere;
  }

  lemma {:induction false} TrackedStep(s: State, ttl: nat, e: Event)
    requires Inv(s, ttl) && Tracked(s, ttl)
    ensures Tracked(Step(s, ttl, e), ttl)
  {
    if e.Advance? && e.pid in s.procs {
      AdvanceTracked(s, ttl, e.pid, e.choice);
      var d' := StepProc(s.store, ttl, e.pid, s.procs[e.pid], e.choice).0;
      forall c | c in d'.claims
        ensures d'.claims[c] in s.procs
        ensures Claimant(d', if d'.claims[c] == e.pid then StepProc(s.store, ttl, e.pid, s.procs[e.pid], e.choice).1 else s.procs[d'.claims[c]], c)
      {
        ClaimTracked(s, ttl, e.pid, e.choice, c);
      }
      hide StepProc;
      hide NamesClaimed;
      hide LapsedOld;
      hide SweepsOld;
      hide Claimant;
      hide Inv;
    } else {
      QuietTracked(s, ttl, e);
    }
  }

  /** Arrivals and the clock change no claim. */
  lemma {:induction false} QuietTracked(s: State, ttl: nat, e: Event)
    requires Tracked(s, ttl) && (e.Advance? ==> e.pid !in s.procs)
    ensures Tracked(Step(s, ttl, e), ttl)
  {
    hide ClaimedName;
    hide ValidCode;
  }

  lemma ClaimTracked(s: State, ttl: nat, pid: Pid, ch: Choice, c: string)
    requires Inv(s, ttl) && Tracked(s, ttl) && pid in s.procs
    requires c in StepProc(s.store, ttl, pid, s.procs[pid], ch).0.claims
    ensures var (d', p') := StepProc(s.store, ttl, pid, s.procs[pid], ch);
            var q := d'.claims[c];
            q in s.procs && Claimant(d', if q == pid then p' else s.procs[q], c)
  {
    var d, p := s.store, s.procs[pid];
    assert ProcSound(d, ttl, pid, p);
    Claims(d, ttl, pid, p, ch, c);
    if c in d.claims {
      ClaimFacts(d, ttl, c);
      var q := d.claims[c];
      assert Claimant(d, s.procs[q], c);
      if q == pid {
        ClaimantOwn(d, ttl, pid, p, ch, c);
      } else {
        ClaimantStays(d, ttl, pid, p, ch, q, s.procs[q], c);
      }
    }
    hide StepProc;
    hide ClaimedName;
  }

  lemma {:induction false} RunTracked(ttl: nat, start: int, events: seq<Event>)
    ensures Tracked(Run(ttl, start, events), ttl)
  {
    if events != [] {
      var init := events[..|events| - 1];
      RunTracked(ttl, start, init);
      RunSound(ttl, start, init);
      TrackedStep(Run(ttl, start, init), ttl, events[|events| - 1]);
      hide Step;
      hide Tracked;
    }
  }

  /**
   No claim is lost silently: over every interleaving, each claimed code's claimant is still at work on it,
   or has delivered the whole body, or a sweep took the claimed name when the blob was past its age.
   */
  lemma {:induction false} ClaimsAccounted(ttl: nat, start: int, events: seq<Event>, c: string)
    ensures var s := Run(ttl, start, events);
            c in s.store.claims ==>
              && s.store.claims[c] in s.procs
              && var p := s.procs[s.store.claims[c]];
              && (p.DlOpen? || p.DlRead? || p.DlCleanup? || p.DlDone?) && p.code == c
              && (p.DlDone? && p.sent.Some? ==> BodyOf(s.store, c, p.sent.value))
              && (p.DlDone? && p.sent.None? ==>
                    && ClaimedName(c) in s.store.lapsed
                    && s.store.lapsed[ClaimedName(c)].mtime < s.store.lapsed[ClaimedName(c)].at - ttl)
  {
    RunTracked(ttl, start, events);
    RunSound(ttl, start, events);
    var s := Run(ttl, start, events);
    hide Run;
    if c in s.store.claims {
      var q := s.store.claims[c];
      assert Claimant(s.store, s.procs[q], c) && ProcSound(s.store, ttl, q, s.procs[q]);
    }
    hide ClaimedName;
    hide ValidCode;
  }
}
