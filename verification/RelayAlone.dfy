/**
 One request of the relay with nobody else about: whatever its process leaves to chance on the way, once it
 is done the directory and the answer are those of the handler.
 */
module RelayAlone {
  import opened Base32
  import opened Bytes
  import opened Relay
  import opened RelayOnce
  import opened RelayHandlers

  /** The process's steps one after another, each with its own choices. */
  function RunProc(s: Store, ttl: nat, pid: Pid, p: Proc, choices: seq<Choice>): (Store, Proc) {
    if choices == [] then (s, p)
    else
      var (s', p') := RunProc(s, ttl, pid, p, choices[..|choices| - 1]);
      StepProc(s', ttl, pid, p', choices[|choices| - 1])
  }

  /** Every name has a file, and temp names are ones that were drawn. */
  ghost predicate Backed(s: Store) {
    && (forall n :: n in s.dir ==> s.dir[n] in s.files)
    && (forall n :: n in s.dir && TempName(n) ==> n in s.temps)
  }

  ghost predicate NoStray(s: Store) {
    forall n :: n in s.dir && TempName(n) ==> n in s.temps
  }

  lemma {:induction false} StrayStep(s: Store, ttl: nat, pid: Pid, p: Proc, c: Choice)
    requires NoStray(s) && Sound(s, ttl) && ProcSound(s, ttl, pid, p)
    ensures NoStray(StepProc(s, ttl, pid, p, c).0)
  {
    var s' := StepProc(s, ttl, pid, p, c).0;
    TempsGrow(s, ttl, pid, p, c);
    if p.UpRename? || p.DlRename? {
      ProcCode(s, ttl, pid, p);
      NamesDisjoint(p.code, p.code);
    }
    hide StepProc;
    hide ProcSound;
    hide Sound;
    hide TempName;
    hide ValidCode;
    hide ClaimedName;
    forall n | n in s'.dir && TempName(n)
      ensures n in s'.temps
    {
      Binds(s, ttl, pid, p, c, n);
    }
  }

  lemma ProcCode(s: Store, ttl: nat, pid: Pid, p: Proc)
    requires Sound(s, ttl) && ProcSound(s, ttl, pid, p) && (p.UpRename? || p.DlRename?)
    ensures ValidCode(p.code)
  {
    hide ValidCode;
  }

  lemma TempsGrow(s: Store, ttl: nat, pid: Pid, p: Proc, c: Choice)
    ensures var s' := StepProc(s, ttl, pid, p, c).0;
            && s.temps.Keys <= s'.temps.Keys
            && (p.UpTemp? && c.name in s'.dir && c.name !in s.dir ==> c.name in s'.temps)
            && (p.UpTemp? && c.name in s'.dir && c.name in s.dir && s'.dir[c.name] != s.dir[c.name] ==> c.name in s'.temps)
  {
    hide ValidCode;
    hide TempName;
    hide ClaimedName;
  }

  /** Whatever has happened to the relay, its directory is in order for the next request. */
  lemma {:induction false} RunBacked(ttl: nat, start: int, events: seq<Event>)
    ensures Backed(Run(ttl, start, events).store)
  {
    RunSound(ttl, start, events);
    RunNoStray(ttl, start, events);
    hide Run;
    hide TempName;
    hide ValidCode;
  }

  lemma {:induction false} RunNoStray(ttl: nat, start: int, events: seq<Event>)
    ensures NoStray(Run(ttl, start, events).store)
  {
    if events != [] {
      var init, e := events[..|events| - 1], events[|events| - 1];
      RunNoStray(ttl, start, init);
      RunSound(ttl, start, init);
      var s := Run(ttl, start, init);
      if e.Advance? && e.pid in s.procs {
        StrayStep(s.store, ttl, e.pid, s.procs[e.pid], e.choice);
      }
      hide StepProc;
      hide NoStray;
    }
  }

  /** The directory as the handlers see it. */
  function View(s: Store): map<string, Blob>
    requires forall n :: n in s.dir ==> s.dir[n] in s.files
  {
    map n | n in s.dir :: Blob(s.files[s.dir[n]].content, s.files[s.dir[n]].mtime)
  }

  // Uploads.

  /** The upload's file under its temp name, as far as it has been written. */
  ghost predicate Writing(s0: Store, s: Store, tmp: string, ino: Ino, f: File) {
    && TempName(tmp) && tmp !in s0.dir && ino !in s0.files
    && s.dir == s0.dir[tmp := ino] && s.files == s0.files[ino := f] && s.clock == s0.clock
  }

  /** Where an upload alone has got. */
  ghost predicate UpAt(s0: Store, s: Store, p: Proc, body: bytes, fails: bool) {
    match p
    case UpStart(b, f) => s == s0 && b == body && f == fails
    case UpTemp(code, b, f) =>
      && ValidCode(code) && b == body && f == fails
      && s.dir == s0.dir && s.files == s0.files && s.clock == s0.clock && s.temps == s0.temps
    case UpCopy(code, tmp, ino, left, b, f) =>
      && ValidCode(code) && b == body && f == fails
      && ino in s.files && s.files[ino].content + left == body
      && Writing(s0, s, tmp, ino, File(s.files[ino].content, s0.clock, true))
    case UpRename(code, tmp, ino, b) =>
      ValidCode(code) && b == body && !fails && Writing(s0, s, tmp, ino, File(body, s0.clock, false))
    case UpCleanup(tmp, result) =>
      if result.None? then fails && exists ino: Ino, f: File :: Writing(s0, s, tmp, ino, f)
      else !fails && exists ino: Ino :: Stored(s0, s, result.value, ino, body) && TempName(tmp) && tmp !in s.dir
    case UpDone(result) =>
      if result.None? then fails && exists ino: Ino, f: File :: Dropped(s0, s, ino, f)
      else !fails && exists ino: Ino :: Stored(s0, s, result.value, ino, body)
    case _ => false
  }

  ghost predicate Stored(s0: Store, s: Store, code: string, ino: Ino, body: bytes) {
    && ValidCode(code) && ino !in s0.files && s.clock == s0.clock
    && s.dir == s0.dir[code := ino] && s.files == s0.files[ino := File(body, s0.clock, false)]
  }

  ghost predicate Dropped(s0: Store, s: Store, ino: Ino, f: File) {
    ino !in s0.files && s.dir == s0.dir && s.files == s0.files[ino := f] && s.clock == s0.clock
  }

  lemma {:induction false} UpStep(s0: Store, s: Store, ttl: nat, pid: Pid, p: Proc, c: Choice, body: bytes, fails: bool)
    requires Backed(s0) && UpAt(s0, s, p, body, fails)
    ensures UpAt(s0, StepProc(s, ttl, pid, p, c).0, StepProc(s, ttl, pid, p, c).1, body, fails)
  {
    hide ValidCode;
    hide TempName;
    match p
    case UpCopy(_, _, _, left, _, _) =>
      if left == [] {
        UpCopyEnds(s0, s, ttl, pid, p, c, body, fails);
      } else {
        UpCopyMore(s0, s, ttl, pid, p, c, body, fails);
      }
    case UpRename(_, _, _, _) => UpRenameStep(s0, s, ttl, pid, p, c, body, fails);
    case UpCleanup(_, _) => UpCleanupStep(s0, s, ttl, pid, p, c, body, fails);
    case _ =>
  }

  lemma {:induction false} UpCopyEnds(s0: Store, s: Store, ttl: nat, pid: Pid, p: Proc, c: Choice, body: bytes, fails: bool)
    requires Backed(s0) && UpAt(s0, s, p, body, fails) && p.UpCopy? && p.left == []
    ensures UpAt(s0, StepProc(s, ttl, pid, p, c).0, StepProc(s, ttl, pid, p, c).1, body, fails)
  {
    hide ValidCode;
    hide TempName;
    hide Backed;
    var was, s' := s.files[p.ino].content, StepProc(s, ttl, pid, p, c).0;
    assert was + [] == was && was == body;
    assert s'.files[p.ino] == File(body, s0.clock, false);
    assert s'.files == s0.files[p.ino := File(body, s0.clock, false)];
    assert Writing(s0, s', p.tmp, p.ino, File(body, s0.clock, false));
  }

  lemma {:induction false} UpCopyMore(s0: Store, s: Store, ttl: nat, pid: Pid, p: Proc, c: Choice, body: bytes, fails: bool)
    requires Backed(s0) && UpAt(s0, s, p, body, fails) && p.UpCopy? && p.left != []
    ensures UpAt(s0, StepProc(s, ttl, pid, p, c).0, StepProc(s, ttl, pid, p, c).1, body, fails)
  {
    hide ValidCode;
    hide TempName;
    hide Backed;
    var was, n := s.files[p.ino].content, if c.size < |p.left| then c.size else |p.left|;
    assert (was + p.left[..n]) + p.left[n..] == was + p.left;
    assert Writing(s0, StepProc(s, ttl, pid, p, c).0, p.tmp, p.ino, File(was + p.left[..n], s0.clock, true));
  }

  lemma {:induction false} UpRenameStep(s0: Store, s: Store, ttl: nat, pid: Pid, p: Proc, c: Choice, body: bytes, fails: bool)
    requires Backed(s0) && UpAt(s0, s, p, body, fails) && p.UpRename?
    ensures UpAt(s0, StepProc(s, ttl, pid, p, c).0, StepProc(s, ttl, pid, p, c).1, body, fails)
  {
    NamesDisjoint(p.tmp, p.code);
    hide ValidCode;
    hide TempName;
    var s' := StepProc(s, ttl, pid, p, c).0;
    assert s'.dir == s0.dir[p.code := p.ino];
    assert Stored(s0, s', p.code, p.ino, body);
  }

  lemma {:induction false} UpCleanupStep(s0: Store, s: Store, ttl: nat, pid: Pid, p: Proc, c: Choice, body: bytes, fails: bool)
    requires Backed(s0) && UpAt(s0, s, p, body, fails) && p.UpCleanup?
    ensures UpAt(s0, StepProc(s, ttl, pid, p, c).0, StepProc(s, ttl, pid, p, c).1, body, fails)
  {
    hide ValidCode;
    hide TempName;
    var s' := StepProc(s, ttl, pid, p, c).0;
    if p.result.None? {
      var ino: Ino, f: File :| Writing(s0, s, p.tmp, ino, f);
      assert s'.dir == s0.dir;
      assert Dropped(s0, s', ino, f);
    } else {
      var ino: Ino :| Stored(s0, s, p.result.value, ino, body);
      assert s'.dir == s.dir;
      assert Stored(s0, s', p.result.value, ino, body);
    }
  }

  lemma {:induction false} UploadRuns(s: Store, ttl: nat, pid: Pid, body: bytes, fails: bool, choices: seq<Choice>)
    requires Backed(s)
    ensures var (s', p') := RunProc(s, ttl, pid, UpStart(body, fails), choices);
            UpAt(s, s', p', body, fails)
  {
    hide StepProc;
    if choices != [] {
      var init := choices[..|choices| - 1];
      UploadRuns(s, ttl, pid, body, fails, init);
      var (m, p) := RunProc(s, ttl, pid, UpStart(body, fails), init);
      UpStep(s, m, ttl, pid, p, choices[|choices| - 1], body, fails);
    }
  }

  /** An upload that is done has stored its whole body under the code it answers with, or left nothing. */
  lemma UploadIsRun(s: Store, ttl: nat, maxBytes: nat, pid: Pid, body: bytes, choices: seq<Choice>)
    requires Backed(s)
    ensures var (s', p') := RunProc(s, ttl, pid, UpStart(body, |body| > maxBytes), choices);
            p'.UpDone? ==>
              && (p'.result.Some? <==> |body| <= maxBytes)
              && (forall n :: n in s'.dir ==> s'.dir[n] in s'.files)
              && View(s') == if p'.result.Some? then View(s)[p'.result.value := Blob(body, s.clock)] else View(s)
  {
    UploadRuns(s, ttl, pid, body, |body| > maxBytes, choices);
    var (s', p') := RunProc(s, ttl, pid, UpStart(body, |body| > maxBytes), choices);
    hide RunProc;
    if p'.UpDone? {
      if p'.result.Some? {
        var ino: Ino :| Stored(s, s', p'.result.value, ino, body);
        assert forall n :: n in s.dir ==> s.dir[n] != ino;
      } else {
        var ino: Ino, f: File :| Dropped(s, s', ino, f);
        assert forall n :: n in s.dir ==> s.dir[n] != ino;
      }
    }
  }

  // Downloads.

  ghost predicate Claimed(s0: Store, s: Store, code: string) {
    && ValidCode(code) && code in s0.dir && s.files == s0.files
    && s.dir == s0.dir[ClaimedName(code) := s0.dir[code]] - {code}
  }

  ghost predicate DlAt(s0: Store, s: Store, p: Proc, code: string) {
    match p
    case DlStart(c) => s == s0 && c == code
    case DlRename(c) => s == s0 && c == code && ValidCode(code)
    case DlOpen(c) => c == code && Claimed(s0, s, code)
    case DlRead(c, ino, got) =>
      && c == code && Claimed(s0, s, code) && ino == s0.dir[code]
      && ino in s0.files && got <= s0.files[ino].content
    case DlCleanup(c, sent) =>
      c == code && Claimed(s0, s, code) && s0.dir[code] in s0.files && sent == Some(s0.files[s0.dir[code]].content)
    case DlDone(c, sent) =>
      && c == code && s.files == s0.files
      && if ValidCode(code) && code in s0.dir
         then && s0.dir[code] in s0.files && sent == Some(s0.files[s0.dir[code]].content)
              && s.dir == s0.dir - {code, ClaimedName(code)}
         else s.dir == s0.dir && sent == None
    case _ => false
  }

  lemma {:induction false} DlStep(s0: Store, s: Store, ttl: nat, pid: Pid, p: Proc, c: Choice, code: string)
    requires Backed(s0) && DlAt(s0, s, p, code)
    ensures DlAt(s0, StepProc(s, ttl, pid, p, c).0, StepProc(s, ttl, pid, p, c).1, code)
  {
    if ValidCode(code) {
      NamesDisjoint("", code);
    }
    hide ValidCode;
    hide ClaimedName;
    if p.DlRead? {
      ReadOn(s.files[p.ino].content, p.got, c.size);
    }
    if p.DlCleanup? {
      assert s.dir - {ClaimedName(code)} == s0.dir - {code, ClaimedName(code)};
    }
  }

  lemma {:induction false} DownloadRuns(s: Store, ttl: nat, pid: Pid, code: string, choices: seq<Choice>)
    requires Backed(s)
    ensures var (s', p') := RunProc(s, ttl, pid, DlStart(code), choices);
            DlAt(s, s', p', code)
  {
    hide StepProc;
    if choices != [] {
      var init := choices[..|choices| - 1];
      DownloadRuns(s, ttl, pid, code, init);
      var (m, p) := RunProc(s, ttl, pid, DlStart(code), init);
      DlStep(s, m, ttl, pid, p, choices[|choices| - 1], code);
    }
  }

  /** A download that is done has sent the stored blob and removed it, or found nothing and changed nothing. */
  lemma DownloadIsRun(s: Store, ttl: nat, pid: Pid, code: string, choices: seq<Choice>)
    requires Backed(s)
    ensures var (s', p') := RunProc(s, ttl, pid, DlStart(code), choices);
            p'.DlDone? ==>
              && p'.sent == (if ValidCode(code) && code in View(s) then Some(View(s)[code].content) else None)
              && (forall n :: n in s'.dir ==> s'.dir[n] in s'.files)
              && View(s') == if p'.sent.Some? then View(s) - {code, ClaimedName(code)} else View(s)
  {
    DownloadRuns(s, ttl, pid, code, choices);
    hide RunProc;
    hide ValidCode;
    hide ClaimedName;
  }

  // Sweeps.

  ghost predicate Old(s0: Store, n: string, cutoff: int) {
    n in s0.dir && s0.dir[n] in s0.files && s0.files[s0.dir[n]].mtime < cutoff
  }

  /** Of the names there at the start, the old ones are gone unless they are still to be looked at. */
  ghost predicate SweptSoFar(s0: Store, s: Store, left: set<string>, cutoff: int) {
    && s.files == s0.files && left <= s0.dir.Keys
    && (forall n :: n in s.dir <==> n in s0.dir && (n in left || !Old(s0, n, cutoff)))
    && (forall n :: n in s.dir ==> s.dir[n] == s0.dir[n])
  }

  ghost predicate SwAt(s0: Store, s: Store, p: Proc, ttl: nat) {
    match p
    case SwStart => s == s0
    case SwNext(names, cutoff) => cutoff == s0.clock - ttl && SweptSoFar(s0, s, names, cutoff)
    case SwRemove(name, names, cutoff) =>
      && cutoff == s0.clock - ttl && name !in names && Old(s0, name, cutoff)
      && SweptSoFar(s0, s, names + {name}, cutoff)
    case SwDone => SweptSoFar(s0, s, {}, s0.clock - ttl)
    case _ => false
  }

  lemma {:induction false} SwNextStep(s0: Store, s: Store, ttl: nat, pid: Pid, p: Proc, c: Choice)
    requires Backed(s0) && SwAt(s0, s, p, ttl) && p.SwNext?
    ensures SwAt(s0, StepProc(s, ttl, pid, p, c).0, StepProc(s, ttl, pid, p, c).1, ttl)
  {
    hide ValidCode;
    hide TempName;
    hide ClaimedName;
    if c.name in p.names {
      assert p.names - {c.name} + {c.name} == p.names;
    }
  }

  lemma {:induction false} SwRemoveStep(s0: Store, s: Store, ttl: nat, pid: Pid, p: Proc, c: Choice)
    requires Backed(s0) && SwAt(s0, s, p, ttl) && p.SwRemove?
    ensures SwAt(s0, StepProc(s, ttl, pid, p, c).0, StepProc(s, ttl, pid, p, c).1, ttl)
  {
    hide ValidCode;
    hide TempName;
    hide ClaimedName;
  }

  lemma {:induction false} SwStep(s0: Store, s: Store, ttl: nat, pid: Pid, p: Proc, c: Choice)
    requires Backed(s0) && SwAt(s0, s, p, ttl)
    ensures SwAt(s0, StepProc(s, ttl, pid, p, c).0, StepProc(s, ttl, pid, p, c).1, ttl)
  {
    if p.SwNext? {
      SwNextStep(s0, s, ttl, pid, p, c);
    } else if p.SwRemove? {
      SwRemoveStep(s0, s, ttl, pid, p, c);
    } else {
      hide ValidCode;
      hide TempName;
      hide ClaimedName;
    }
  }

  lemma {:induction false} SweepRuns(s: Store, ttl: nat, pid: Pid, choices: seq<Choice>)
    requires Backed(s)
    ensures var (s', p') := RunProc(s, ttl, pid, SwStart, choices);
            SwAt(s, s', p', ttl)
  {
    hide StepProc;
    if choices != [] {
      var init := choices[..|choices| - 1];
      SweepRuns(s, ttl, pid, init);
      var (m, p) := RunProc(s, ttl, pid, SwStart, init);
      SwStep(s, m, ttl, pid, p, choices[|choices| - 1]);
    }
  }

  /** A sweep that is done has removed exactly the entries past their age, in whatever order it looked. */
  lemma SweepIsRun(s: Store, ttl: nat, pid: Pid, choices: seq<Choice>)
    requires Backed(s)
    ensures var (s', p') := RunProc(s, ttl, pid, SwStart, choices);
            p'.SwDone? ==>
              && (forall n :: n in s'.dir ==> s'.dir[n] in s'.files)
              && View(s') == map n | n in View(s) && View(s)[n].mtime >= s.clock - ttl :: View(s)[n]
  {
    SweepRuns(s, ttl, pid, choices);
    hide RunProc;
    hide TempName;
  }
}
