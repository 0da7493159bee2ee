/** What every interleaving of uploads, downloads and sweeps keeps, and one-time delivery from it. */
module RelayOnce {
  import opened Base32
  import opened Bytes
  import opened Relay

  /** Temp names, codes and claimed names are three disjoint kinds, so no valid code names the others. */
  lemma NamesDisjoint(s: string, code: string)
    requires ValidCode(code)
    ensures !ValidCode(ClaimedName(code)) && !TempName(ClaimedName(code))
    ensures TempName(s) ==> !ValidCode(s) && s != ClaimedName(code)
  {
    assert ClaimedName(code)[0] == code[0] && Alphabet(code[0]);
    if TempName(s) {
      assert s[0] == ".upload-"[0] == '.';
      assert ValidCode(s) ==> Alphabet(s[0]);
    }
  }

  lemma ClaimedInjective(a: string, b: string)
    requires ClaimedName(a) == ClaimedName(b)
    ensures a == b
  {
    assert |a| == |b|;
    assert ClaimedName(a)[..|a|] == a && ClaimedName(b)[..|b|] == b;
  }

  /** A file that is finished and holds the body uploaded under the code. */
  ghost predicate Holds(s: Store, ino: Ino, code: string) {
    && code in s.codes
    && ino in s.files
    && !s.files[ino].open
    && s.files[ino].content == s.codes[code].body
  }

  /** The directory: what each kind of name stands for. */
  ghost predicate DirSound(s: Store) {
    && (forall n :: n in s.dir ==> s.dir[n] in s.files)
    && (forall t :: t in s.temps ==> TempName(t))
    && (forall c :: c in s.codes ==> ValidCode(c))
    && s.published <= s.codes.Keys
    && s.claims.Keys <= s.published
    && s.swept.Keys <= s.published
    && s.files.Keys == s.writers.Keys
    && (forall n :: n in s.dir && ValidCode(n) ==> n in s.published && Holds(s, s.dir[n], n))
    && (forall c :: c in s.claims && ClaimedName(c) in s.dir ==> Holds(s, s.dir[ClaimedName(c)], c))
  }

  /** A published blob is in exactly one place: available, claimed by one download, or swept. */
  ghost predicate OnePlace(s: Store) {
    && (forall c :: c in s.published ==> c in s.dir || c in s.claims || c in s.swept)
    && (forall c :: c in s.dir ==> c !in s.claims && c !in s.swept)
    && (forall c :: c in s.claims ==> c !in s.swept)
  }

  /** Sweeps take only what is older than the time to live. */
  ghost predicate SweptOld(s: Store, ttl: nat) {
    forall c :: c in s.swept ==> s.swept[c].mtime < s.swept[c].at - ttl
  }

  ghost predicate OwnedBy(s: Store, code: string, pid: Pid) {
    code in s.codes && s.codes[code].pid == pid
  }

  ghost predicate BodyOf(s: Store, code: string, data: bytes) {
    code in s.codes && s.codes[code].body == data
  }

  /** What each process may rely on. */
  ghost predicate ProcSound(s: Store, ttl: nat, pid: Pid, p: Proc) {
    match p
    case UpTemp(code, body, _) => code in s.codes && s.codes[code] == Owned(pid, body) && code !in s.published
    case UpCopy(code, tmp, ino, left, body, _) =>
      && code in s.codes && s.codes[code] == Owned(pid, body) && code !in s.published
      && tmp in s.temps && s.temps[tmp] == pid
      && ino in s.files && ino in s.writers && s.writers[ino] == pid && s.files[ino].open
      && s.files[ino].content + left == body
      && (tmp in s.dir ==> s.dir[tmp] == ino)
    case UpRename(code, tmp, ino, body) =>
      && code in s.codes && s.codes[code] == Owned(pid, body) && code !in s.published
      && tmp in s.temps && s.temps[tmp] == pid
      && Holds(s, ino, code)
      && (tmp in s.dir ==> s.dir[tmp] == ino)
    case UpCleanup(tmp, result) =>
      && tmp in s.temps && s.temps[tmp] == pid
      && (result.Some? ==> OwnedBy(s, result.value, pid) && result.value in s.published)
    case UpDone(result) => result.Some? ==> OwnedBy(s, result.value, pid) && result.value in s.published
    case DlRename(code) => ValidCode(code)
    case DlOpen(code) => code in s.claims && s.claims[code] == pid
    case DlRead(code, ino, got) =>
      code in s.claims && s.claims[code] == pid && Holds(s, ino, code) && got <= s.codes[code].body
    case DlCleanup(code, sent) =>
      code in s.claims && s.claims[code] == pid && (sent.Some? ==> BodyOf(s, code, sent.value))
    case DlDone(code, sent) =>
      sent.Some? ==> code in s.claims && s.claims[code] == pid && BodyOf(s, code, sent.value)
    case SwNext(_, cutoff) => cutoff <= s.clock - ttl
    case SwRemove(name, _, cutoff) =>
      && cutoff <= s.clock - ttl
      && (ValidCode(name) && name in s.dir && s.dir[name] in s.files ==> s.files[s.dir[name]].mtime < cutoff)
      && (ValidCode(name) ==> name in s.published)
    case _ => true
  }

  ghost predicate Sound(s: Store, ttl: nat) {
    DirSound(s) && OnePlace(s) && SweptOld(s, ttl)
  }

  ghost predicate Inv(s: State, ttl: nat) {
    && Sound(s.store, ttl)
    && forall pid :: pid in s.procs ==> ProcSound(s.store, ttl, pid, s.procs[pid])
  }

  /** What no step undoes: codes keep their upload and body, claims their download, finished files their bytes. */
  ghost predicate Kept(s: Store, s': Store) {
    && s.clock <= s'.clock
    && (forall c :: c in s.codes ==> c in s'.codes && s'.codes[c] == s.codes[c])
    && (forall t :: t in s.temps ==> t in s'.temps && s'.temps[t] == s.temps[t])
    && (forall c :: c in s.claims ==> c in s'.claims && s'.claims[c] == s.claims[c])
    && s.published <= s'.published
    && (forall i :: i in s.files && !s.files[i].open ==> i in s'.files && s'.files[i] == s.files[i])
    && (forall n :: n in s.dir && n in s'.dir && ValidCode(n) ==> s'.dir[n] == s.dir[n])
  }

  /** A step seen by the other processes: it only writes files of its own and binds its own temp name. */
  ghost predicate Elsewhere(s: Store, s': Store, pid: Pid) {
    && (forall i :: i in s.files && i in s.writers && s.writers[i] != pid ==>
          i in s'.files && s'.files[i] == s.files[i] && i in s'.writers && s'.writers[i] == s.writers[i])
    && (forall t :: t in s.temps && s.temps[t] != pid && t in s'.dir ==> t in s.dir && s'.dir[t] == s.dir[t])
    && (forall c :: c in s.codes && s.codes[c].pid != pid && c in s'.published ==> c in s.published)
    && (forall n :: n in s.published && n in s'.dir && ValidCode(n) ==> n in s.dir)
  }

  /** One step of process pid, to stores s' and program counter p'. */
  ghost predicate StepOk(s: Store, s': Store, ttl: nat, pid: Pid, p': Proc) {
    Sound(s', ttl) && Kept(s, s') && Elsewhere(s, s', pid) && ProcSound(s', ttl, pid, p')
  }

  /** The three kinds of names, against every code and temp name drawn so far. */
  lemma TempApart(s: Store, t: string)
    requires DirSound(s) && TempName(t)
    ensures !ValidCode(t) && forall k :: k in s.codes ==> t != ClaimedName(k) && t != k
  {
    hide ClaimedName;
    hide ValidCode;
    hide TempName;
    forall k | k in s.codes
      ensures t != ClaimedName(k) && t != k
    {
      NamesDisjoint(t, k);
    }
    TempIsNoCode(t);
  }

  lemma TempIsNoCode(t: string)
    requires TempName(t)
    ensures !ValidCode(t)
  {
    assert t[0] == ".upload-"[0];
    assert ValidCode(t) ==> Alphabet(t[0]);
  }

  lemma CodeApart(s: Store, code: string)
    requires DirSound(s) && ValidCode(code)
    ensures !ValidCode(ClaimedName(code)) && code != ClaimedName(code)
    ensures forall t :: t in s.temps ==> t != ClaimedName(code) && t != code
    ensures forall k :: ClaimedName(k) == ClaimedName(code) ==> k == code
    ensures forall k :: k in s.codes ==> code != ClaimedName(k)
  {
    hide ClaimedName;
    hide ValidCode;
    hide TempName;
    NamesDisjoint("", code);
    forall t | t in s.temps
      ensures t != ClaimedName(code) && t != code
    {
      NamesDisjoint(t, code);
    }
    forall k | ClaimedName(k) == ClaimedName(code)
      ensures k == code
    {
      ClaimedInjective(k, code);
    }
    forall k | k in s.codes
      ensures code != ClaimedName(k)
    {
      NamesDisjoint("", k);
    }
  }

  predicate Uploading(p: Proc) {
    p.UpStart? || p.UpTemp? || p.UpCopy? || p.UpRename? || p.UpCleanup? || p.UpDone?
  }

  lemma UploadBinds(s: Store, ttl: nat, pid: Pid, p: Proc, ch: Choice, n: string)
    requires Uploading(p)
    ensures var s' := StepProc(s, ttl, pid, p, ch).0;
            n in s'.dir ==>
              || (n in s.dir && s'.dir[n] == s.dir[n])
              || (p.UpTemp? && n == ch.name && TempName(n))
              || (p.UpRename? && n == p.code)
  {
    hide ValidCode;
    hide TempName;
    hide ClaimedName;
  }

  lemma OtherBinds(s: Store, ttl: nat, pid: Pid, p: Proc, ch: Choice, n: string)
    requires !Uploading(p)
    ensures var s' := StepProc(s, ttl, pid, p, ch).0;
            n in s'.dir ==>
              || (n in s.dir && s'.dir[n] == s.dir[n])
              || (p.DlRename? && n == ClaimedName(p.code) && p.code in s.dir && p.code in s'.claims)
  {
    hide ValidCode;
    hide TempName;
    hide ClaimedName;
  }

  /** The only names a step binds, or binds anew. */
  lemma Binds(s: Store, ttl: nat, pid: Pid, p: Proc, ch: Choice, n: string)
    ensures var s' := StepProc(s, ttl, pid, p, ch).0;
            n in s'.dir ==>
              || (n in s.dir && s'.dir[n] == s.dir[n])
              || (p.UpTemp? && n == ch.name && TempName(n))
              || (p.UpRename? && n == p.code)
              || (p.DlRename? && n == ClaimedName(p.code) && p.code in s.dir && p.code in s'.claims)
  {
    hide *;
    if Uploading(p) {
      UploadBinds(s, ttl, pid, p, ch, n);
    } else {
      OtherBinds(s, ttl, pid, p, ch, n);
    }
  }

  lemma UploadUnbinds(s: Store, ttl: nat, pid: Pid, p: Proc, ch: Choice, n: string)
    requires Uploading(p)
    ensures var s' := StepProc(s, ttl, pid, p, ch).0;
            n in s.dir && n !in s'.dir ==> (p.UpRename? || p.UpCleanup?) && n == p.tmp
  {
    hide ValidCode;
    hide TempName;
    hide ClaimedName;
  }

  lemma OtherUnbinds(s: Store, ttl: nat, pid: Pid, p: Proc, ch: Choice, n: string)
    requires !Uploading(p)
    ensures var s' := StepProc(s, ttl, pid, p, ch).0;
            n in s.dir && n !in s'.dir ==>
              || (p.DlRename? && n == p.code)
              || (p.DlCleanup? && n == ClaimedName(p.code))
              || (p.SwRemove? && n == p.name)
  {
    hide ValidCode;
    hide TempName;
    hide ClaimedName;
  }

  /** The only names a step takes away. */
  lemma Unbinds(s: Store, ttl: nat, pid: Pid, p: Proc, ch: Choice, n: string)
    ensures var s' := StepProc(s, ttl, pid, p, ch).0;
            n in s.dir && n !in s'.dir ==>
              || ((p.UpRename? || p.UpCleanup?) && n == p.tmp)
              || (p.DlRename? && n == p.code)
              || (p.DlCleanup? && n == ClaimedName(p.code))
              || (p.SwRemove? && n == p.name)
  {
    hide *;
    if Uploading(p) {
      UploadUnbinds(s, ttl, pid, p, ch, n);
    } else {
      OtherUnbinds(s, ttl, pid, p, ch, n);
    }
  }

  /** The only name a step records as taken by a sweep. */
  lemma Lapses(s: Store, ttl: nat, pid: Pid, p: Proc, ch: Choice, n: string)
    ensures var s' := StepProc(s, ttl, pid, p, ch).0;
            && (n in s.lapsed ==> n in s'.lapsed)
            && (n in s'.lapsed && (n !in s.lapsed || s'.lapsed[n] != s.lapsed[n]) ==>
                  && p.SwRemove? && n == p.name && n in s.dir && s.dir[n] in s.files
                  && s'.lapsed[n] == Swept(s.files[s.dir[n]].mtime, s.clock))
            && (p.SwRemove? && n == p.name && n in s.dir && s.dir[n] in s.files && n !in s.codes ==> n in s'.lapsed)
  {
    hide ValidCode;
    hide TempName;
    hide ClaimedName;
  }

  /** A step that leaves the stores alone. */
  lemma SameStores(s: Store, pid: Pid)
    ensures Kept(s, s) && Elsewhere(s, s, pid)
  {
  }

  // Each kind of step is proved against each predicate by itself, with the spelling of names hidden behind
  // TempApart and CodeApart, so that no proof has to look at all of the directory's facts at once. Steps
  // that only unlink a name share the Unlink lemmas.

  lemma StartStepSound(s: Store, ttl: nat, pid: Pid, p: Proc, c: Choice)
    requires Sound(s, ttl) && ProcSound(s, ttl, pid, p) && p.UpStart?
    ensures var (s', p') := StepProc(s, ttl, pid, p, c);
            Sound(s', ttl)
  {
    hide ValidCode;
    hide TempName;
    hide ClaimedName;
  }

  lemma StartStepKept(s: Store, ttl: nat, pid: Pid, p: Proc, c: Choice)
    requires Sound(s, ttl) && ProcSound(s, ttl, pid, p) && p.UpStart?
    ensures var (s', p') := StepProc(s, ttl, pid, p, c);
            Kept(s, s') && ProcSound(s', ttl, pid, p')
  {
    hide ValidCode;
    hide TempName;
    hide ClaimedName;
  }

  lemma StartStepElsewhere(s: Store, ttl: nat, pid: Pid, p: Proc, c: Choice)
    requires Sound(s, ttl) && ProcSound(s, ttl, pid, p) && p.UpStart?
    ensures var (s', p') := StepProc(s, ttl, pid, p, c);
            Elsewhere(s, s', pid)
  {
    hide ValidCode;
    hide TempName;
    hide ClaimedName;
  }

  lemma StartStep(s: Store, ttl: nat, pid: Pid, p: Proc, c: Choice)
    requires Sound(s, ttl) && ProcSound(s, ttl, pid, p) && p.UpStart?
    ensures var (s', p') := StepProc(s, ttl, pid, p, c);
            StepOk(s, s', ttl, pid, p')
  {
    StartStepSound(s, ttl, pid, p, c);
    StartStepKept(s, ttl, pid, p, c);
    StartStepElsewhere(s, ttl, pid, p, c);
  }

  lemma TempStepDir(s: Store, ttl: nat, pid: Pid, p: Proc, c: Choice)
    requires Sound(s, ttl) && ProcSound(s, ttl, pid, p) && p.UpTemp?
    ensures var (s', p') := StepProc(s, ttl, pid, p, c);
            DirSound(s')
  {
    hide OnePlace;
    hide SweptOld;
    hide Holds;
    hide ValidCode;
    hide TempName;
    hide ClaimedName;
    if TempName(c.name) {
      TempApart(s, c.name);
      if c.ino !in s.files {
        CreateDir(s, c.name, c.ino, pid);
      }
    }
    hide DirSound;
  }

  /** A new empty file under a new temp name. */
  lemma CreateDir(s: Store, n: string, ino: Ino, pid: Pid)
    requires DirSound(s) && TempName(n) && ino !in s.files
    requires !ValidCode(n) && forall k :: k in s.codes ==> n != ClaimedName(k)
    ensures DirSound(s.(dir := s.dir[n := ino], files := s.files[ino := File([], s.clock, true)],
                        temps := s.temps[n := pid], writers := s.writers[ino := pid]))
  {
    hide ValidCode;
    hide TempName;
    hide ClaimedName;
  }

  lemma TempStepPlaces(s: Store, ttl: nat, pid: Pid, p: Proc, c: Choice)
    requires Sound(s, ttl) && ProcSound(s, ttl, pid, p) && p.UpTemp?
    ensures var (s', p') := StepProc(s, ttl, pid, p, c);
            OnePlace(s') && SweptOld(s', ttl)
  {
    hide ValidCode;
    hide TempName;
    hide ClaimedName;
    if TempName(c.name) {
      TempApart(s, c.name);
    }
  }

  lemma TempStepKept(s: Store, ttl: nat, pid: Pid, p: Proc, c: Choice)
    requires Sound(s, ttl) && ProcSound(s, ttl, pid, p) && p.UpTemp?
    ensures var (s', p') := StepProc(s, ttl, pid, p, c);
            Kept(s, s')
  {
    hide OnePlace;
    hide SweptOld;
    hide ValidCode;
    hide TempName;
    hide ClaimedName;
    if TempName(c.name) {
      TempApart(s, c.name);
    }
  }

  lemma TempStepProc(s: Store, ttl: nat, pid: Pid, p: Proc, c: Choice)
    requires Sound(s, ttl) && ProcSound(s, ttl, pid, p) && p.UpTemp?
    ensures var (s', p') := StepProc(s, ttl, pid, p, c);
            ProcSound(s', ttl, pid, p')
  {
    hide OnePlace;
    hide SweptOld;
    hide ValidCode;
    hide TempName;
    hide ClaimedName;
    if TempName(c.name) {
      TempApart(s, c.name);
    }
  }

  lemma TempStepElsewhere(s: Store, ttl: nat, pid: Pid, p: Proc, c: Choice)
    requires Sound(s, ttl) && ProcSound(s, ttl, pid, p) && p.UpTemp?
    ensures var (s', p') := StepProc(s, ttl, pid, p, c);
            Elsewhere(s, s', pid)
  {
    hide OnePlace;
    hide SweptOld;
    hide ValidCode;
    hide TempName;
    hide ClaimedName;
    if TempName(c.name) {
      TempApart(s, c.name);
    }
  }

  lemma TempStep(s: Store, ttl: nat, pid: Pid, p: Proc, c: Choice)
    requires Sound(s, ttl) && ProcSound(s, ttl, pid, p) && p.UpTemp?
    ensures var (s', p') := StepProc(s, ttl, pid, p, c);
            StepOk(s, s', ttl, pid, p')
  {
    TempStepDir(s, ttl, pid, p, c);
    TempStepPlaces(s, ttl, pid, p, c);
    TempStepKept(s, ttl, pid, p, c);
    TempStepProc(s, ttl, pid, p, c);
    TempStepElsewhere(s, ttl, pid, p, c);
  }

  lemma CopySplit(s: Store, ttl: nat, pid: Pid, p: Proc, c: Choice)
    requires ProcSound(s, ttl, pid, p) && p.UpCopy?
    ensures var n := if c.size < |p.left| then c.size else |p.left|;
            (s.files[p.ino].content + p.left[..n]) + p.left[n..] == p.body
    ensures p.left == [] ==> s.files[p.ino].content == p.body
  {
    var n := if c.size < |p.left| then c.size else |p.left|;
    assert s.files[p.ino].content + p.left == (s.files[p.ino].content + p.left[..n]) + p.left[n..];
  }

  /** Writing to a file that is still open touches nothing published. */
  lemma WriteDir(s: Store, ino: Ino, f: File)
    requires DirSound(s) && ino in s.files && s.files[ino].open
    ensures DirSound(s.(files := s.files[ino := f]))
  {
    hide ValidCode;
    hide TempName;
    hide ClaimedName;
  }

  lemma CopyStepDir(s: Store, ttl: nat, pid: Pid, p: Proc, c: Choice)
    requires Sound(s, ttl) && ProcSound(s, ttl, pid, p) && p.UpCopy?
    ensures var (s', p') := StepProc(s, ttl, pid, p, c);
            DirSound(s')
  {
    hide OnePlace;
    hide SweptOld;
    hide ValidCode;
    hide TempName;
    hide ClaimedName;
    var s' := StepProc(s, ttl, pid, p, c).0;
    WriteDir(s, p.ino, s'.files[p.ino]);
    hide DirSound;
    assert s' == s.(files := s.files[p.ino := s'.files[p.ino]]);
  }

  lemma CopyStepPlaces(s: Store, ttl: nat, pid: Pid, p: Proc, c: Choice)
    requires Sound(s, ttl) && ProcSound(s, ttl, pid, p) && p.UpCopy?
    ensures var (s', p') := StepProc(s, ttl, pid, p, c);
            OnePlace(s') && SweptOld(s', ttl)
  {
    hide ValidCode;
    hide TempName;
    hide ClaimedName;
    CopySplit(s, ttl, pid, p, c);
    TempApart(s, p.tmp);
  }

  lemma CopyStepKept(s: Store, ttl: nat, pid: Pid, p: Proc, c: Choice)
    requires Sound(s, ttl) && ProcSound(s, ttl, pid, p) && p.UpCopy?
    ensures var (s', p') := StepProc(s, ttl, pid, p, c);
            Kept(s, s') && ProcSound(s', ttl, pid, p')
  {
    hide ValidCode;
    hide TempName;
    hide ClaimedName;
    CopySplit(s, ttl, pid, p, c);
    TempApart(s, p.tmp);
  }

  lemma CopyStepElsewhere(s: Store, ttl: nat, pid: Pid, p: Proc, c: Choice)
    requires Sound(s, ttl) && ProcSound(s, ttl, pid, p) && p.UpCopy?
    ensures var (s', p') := StepProc(s, ttl, pid, p, c);
            Elsewhere(s, s', pid)
  {
    hide ValidCode;
    hide TempName;
    hide ClaimedName;
    CopySplit(s, ttl, pid, p, c);
    TempApart(s, p.tmp);
  }

  lemma CopyStep(s: Store, ttl: nat, pid: Pid, p: Proc, c: Choice)
    requires Sound(s, ttl) && ProcSound(s, ttl, pid, p) && p.UpCopy?
    ensures var (s', p') := StepProc(s, ttl, pid, p, c);
            StepOk(s, s', ttl, pid, p')
  {
    CopyStepDir(s, ttl, pid, p, c);
    CopyStepPlaces(s, ttl, pid, p, c);
    CopyStepKept(s, ttl, pid, p, c);
    CopyStepElsewhere(s, ttl, pid, p, c);
  }

  lemma RenameStepDir(s: Store, ttl: nat, pid: Pid, p: Proc, c: Choice)
    requires Sound(s, ttl) && ProcSound(s, ttl, pid, p) && p.UpRename?
    ensures var (s', p') := StepProc(s, ttl, pid, p, c);
            DirSound(s')
  {
    hide OnePlace;
    hide SweptOld;
    hide ValidCode;
    hide TempName;
    hide ClaimedName;
    TempApart(s, p.tmp);
    CodeApart(s, p.code);
  }

  lemma RenameStepPlaces(s: Store, ttl: nat, pid: Pid, p: Proc, c: Choice)
    requires Sound(s, ttl) && ProcSound(s, ttl, pid, p) && p.UpRename?
    ensures var (s', p') := StepProc(s, ttl, pid, p, c);
            OnePlace(s') && SweptOld(s', ttl)
  {
    hide ValidCode;
    hide TempName;
    hide ClaimedName;
    TempApart(s, p.tmp);
    CodeApart(s, p.code);
  }

  lemma RenameStepKept(s: Store, ttl: nat, pid: Pid, p: Proc, c: Choice)
    requires Sound(s, ttl) && ProcSound(s, ttl, pid, p) && p.UpRename?
    ensures var (s', p') := StepProc(s, ttl, pid, p, c);
            Kept(s, s')
  {
    hide OnePlace;
    hide SweptOld;
    hide ValidCode;
    hide TempName;
    hide ClaimedName;
    TempApart(s, p.tmp);
    CodeApart(s, p.code);
  }

  lemma RenameStepProc(s: Store, ttl: nat, pid: Pid, p: Proc, c: Choice)
    requires Sound(s, ttl) && ProcSound(s, ttl, pid, p) && p.UpRename?
    ensures var (s', p') := StepProc(s, ttl, pid, p, c);
            ProcSound(s', ttl, pid, p')
  {
    hide OnePlace;
    hide SweptOld;
    hide ValidCode;
    hide TempName;
    hide ClaimedName;
    TempApart(s, p.tmp);
    CodeApart(s, p.code);
  }

  lemma RenameStepElsewhere(s: Store, ttl: nat, pid: Pid, p: Proc, c: Choice)
    requires Sound(s, ttl) && ProcSound(s, ttl, pid, p) && p.UpRename?
    ensures var (s', p') := StepProc(s, ttl, pid, p, c);
            Elsewhere(s, s', pid)
  {
    hide OnePlace;
    hide SweptOld;
    hide ValidCode;
    hide TempName;
    hide ClaimedName;
    TempApart(s, p.tmp);
    CodeApart(s, p.code);
  }

  lemma RenameStep(s: Store, ttl: nat, pid: Pid, p: Proc, c: Choice)
    requires Sound(s, ttl) && ProcSound(s, ttl, pid, p) && p.UpRename?
    ensures var (s', p') := StepProc(s, ttl, pid, p, c);
            StepOk(s, s', ttl, pid, p')
  {
    RenameStepDir(s, ttl, pid, p, c);
    RenameStepPlaces(s, ttl, pid, p, c);
    RenameStepKept(s, ttl, pid, p, c);
    RenameStepProc(s, ttl, pid, p, c);
    RenameStepElsewhere(s, ttl, pid, p, c);
  }

  lemma ClaimStepDir(s: Store, ttl: nat, pid: Pid, p: Proc, c: Choice)
    requires Sound(s, ttl) && ProcSound(s, ttl, pid, p) && p.DlRename?
    ensures var (s', p') := StepProc(s, ttl, pid, p, c);
            DirSound(s')
  {
    hide OnePlace;
    hide SweptOld;
    hide ValidCode;
    hide TempName;
    hide ClaimedName;
    CodeApart(s, p.code);
  }

  lemma ClaimStepPlaces(s: Store, ttl: nat, pid: Pid, p: Proc, c: Choice)
    requires Sound(s, ttl) && ProcSound(s, ttl, pid, p) && p.DlRename?
    ensures var (s', p') := StepProc(s, ttl, pid, p, c);
            OnePlace(s') && SweptOld(s', ttl)
  {
    hide ValidCode;
    hide TempName;
    hide ClaimedName;
    CodeApart(s, p.code);
  }

  lemma ClaimStepKept(s: Store, ttl: nat, pid: Pid, p: Proc, c: Choice)
    requires Sound(s, ttl) && ProcSound(s, ttl, pid, p) && p.DlRename?
    ensures var (s', p') := StepProc(s, ttl, pid, p, c);
            Kept(s, s')
  {
    hide ValidCode;
    hide TempName;
    hide ClaimedName;
    CodeApart(s, p.code);
  }

  lemma ClaimStepProc(s: Store, ttl: nat, pid: Pid, p: Proc, c: Choice)
    requires Sound(s, ttl) && ProcSound(s, ttl, pid, p) && p.DlRename?
    ensures var (s', p') := StepProc(s, ttl, pid, p, c);
            ProcSound(s', ttl, pid, p')
  {
    hide OnePlace;
    hide SweptOld;
    hide ValidCode;
    hide TempName;
    hide ClaimedName;
    CodeApart(s, p.code);
  }

  lemma ClaimStepElsewhere(s: Store, ttl: nat, pid: Pid, p: Proc, c: Choice)
    requires Sound(s, ttl) && ProcSound(s, ttl, pid, p) && p.DlRename?
    ensures var (s', p') := StepProc(s, ttl, pid, p, c);
            Elsewhere(s, s', pid)
  {
    hide OnePlace;
    hide SweptOld;
    hide ValidCode;
    hide TempName;
    hide ClaimedName;
    CodeApart(s, p.code);
  }

  lemma ClaimStep(s: Store, ttl: nat, pid: Pid, p: Proc, c: Choice)
    requires Sound(s, ttl) && ProcSound(s, ttl, pid, p) && p.DlRename?
    ensures var (s', p') := StepProc(s, ttl, pid, p, c);
            StepOk(s, s', ttl, pid, p')
  {
    ClaimStepDir(s, ttl, pid, p, c);
    ClaimStepPlaces(s, ttl, pid, p, c);
    ClaimStepKept(s, ttl, pid, p, c);
    ClaimStepProc(s, ttl, pid, p, c);
    ClaimStepElsewhere(s, ttl, pid, p, c);
  }

  /** The stores once a name is unlinked, with what the sweeps have taken. */
  function Unlinked(s: Store, n: string, swept: map<string, Swept>, lapsed: map<string, Swept>): Store {
    s.(dir := s.dir - {n}, swept := swept, lapsed := lapsed)
  }

  lemma UnlinkKept(s: Store, n: string, swept: map<string, Swept>, lapsed: map<string, Swept>, pid: Pid)
    ensures Kept(s, Unlinked(s, n, swept, lapsed)) && Elsewhere(s, Unlinked(s, n, swept, lapsed), pid)
  {
    hide ValidCode;
    hide TempName;
    hide ClaimedName;
  }

  lemma UnlinkDir(s: Store, n: string, swept: map<string, Swept>, lapsed: map<string, Swept>)
    requires DirSound(s) && swept.Keys <= s.published
    ensures DirSound(Unlinked(s, n, swept, lapsed))
  {
    hide ValidCode;
    hide TempName;
    hide ClaimedName;
  }

  /** No published blob goes with a name that is no code of one. */
  lemma UnlinkOther(s: Store, ttl: nat, n: string)
    requires OnePlace(s) && SweptOld(s, ttl) && n !in s.published
    ensures OnePlace(Unlinked(s, n, s.swept, s.lapsed)) && SweptOld(Unlinked(s, n, s.swept, s.lapsed), ttl)
  {
  }

  lemma CleanupStep(s: Store, ttl: nat, pid: Pid, p: Proc, c: Choice)
    requires Sound(s, ttl) && ProcSound(s, ttl, pid, p) && p.UpCleanup?
    ensures var (s', p') := StepProc(s, ttl, pid, p, c);
            StepOk(s, s', ttl, pid, p')
  {
    TempApart(s, p.tmp);
    UnlinkKept(s, p.tmp, s.swept, s.lapsed, pid);
    UnlinkDir(s, p.tmp, s.swept, s.lapsed);
    UnlinkOther(s, ttl, p.tmp);
    hide Kept;
    hide Elsewhere;
    hide DirSound;
    hide OnePlace;
    hide SweptOld;
    assert Unlinked(s, p.tmp, s.swept, s.lapsed) == StepProc(s, ttl, pid, p, c).0;
  }

  lemma ClaimedIsNoCode(s: Store, code: string)
    requires DirSound(s) && code in s.codes
    ensures ClaimedName(code) !in s.published
  {
    NamesDisjoint("", code);
    hide ClaimedName;
  }

  lemma ReleaseStep(s: Store, ttl: nat, pid: Pid, p: Proc, c: Choice)
    requires Sound(s, ttl) && ProcSound(s, ttl, pid, p) && p.DlCleanup?
    ensures var (s', p') := StepProc(s, ttl, pid, p, c);
            StepOk(s, s', ttl, pid, p')
  {
    var n := ClaimedName(p.code);
    ClaimedIsNoCode(s, p.code);
    UnlinkKept(s, n, s.swept, s.lapsed, pid);
    UnlinkDir(s, n, s.swept, s.lapsed);
    UnlinkOther(s, ttl, n);
    hide ValidCode;
    hide TempName;
    hide ClaimedName;
    hide Kept;
    hide Elsewhere;
    hide DirSound;
    hide OnePlace;
    hide SweptOld;
    assert Unlinked(s, n, s.swept, s.lapsed) == StepProc(s, ttl, pid, p, c).0;
  }

  /** A sweep's removal records the blob it takes, if it takes one. */
  lemma RemoveStepPlaces(s: Store, ttl: nat, pid: Pid, p: Proc, c: Choice)
    requires Sound(s, ttl) && ProcSound(s, ttl, pid, p) && p.SwRemove?
    ensures var (s', p') := StepProc(s, ttl, pid, p, c);
            OnePlace(s') && SweptOld(s', ttl)
  {
    hide ValidCode;
    hide TempName;
    hide ClaimedName;
  }

  lemma RemoveStepIs(s: Store, ttl: nat, pid: Pid, p: Proc, c: Choice)
    requires Sound(s, ttl) && ProcSound(s, ttl, pid, p) && p.SwRemove?
    ensures var (s', p') := StepProc(s, ttl, pid, p, c);
            && ProcSound(s', ttl, pid, p')
            && s' == Unlinked(s, p.name, s'.swept, s'.lapsed) && s'.swept.Keys <= s.published
  {
    hide OnePlace;
    hide SweptOld;
    hide Holds;
    hide ValidCode;
    hide TempName;
    hide ClaimedName;
  }

  lemma RemoveStep(s: Store, ttl: nat, pid: Pid, p: Proc, c: Choice)
    requires Sound(s, ttl) && ProcSound(s, ttl, pid, p) && p.SwRemove?
    ensures var (s', p') := StepProc(s, ttl, pid, p, c);
            StepOk(s, s', ttl, pid, p')
  {
    RemoveStepPlaces(s, ttl, pid, p, c);
    RemoveStepIs(s, ttl, pid, p, c);
    var s' := StepProc(s, ttl, pid, p, c).0;
    UnlinkKept(s, p.name, s'.swept, s'.lapsed, pid);
    UnlinkDir(s, p.name, s'.swept, s'.lapsed);
    hide StepProc;
    hide Kept;
    hide Elsewhere;
    hide DirSound;
    hide OnePlace;
    hide SweptOld;
    hide ProcSound;
    hide Unlinked;
  }

  lemma ReadStep(s: Store, ttl: nat, pid: Pid, p: Proc, c: Choice)
    requires Sound(s, ttl) && ProcSound(s, ttl, pid, p) && (p.DlOpen? || p.DlRead? || p.DlStart?)
    ensures var (s', p') := StepProc(s, ttl, pid, p, c);
            StepOk(s, s', ttl, pid, p')
  {
    hide Elsewhere;
    hide Kept;
    SameStores(s, pid);
    if p.DlRead? {
      ReadOn(s.files[p.ino].content, p.got, c.size);
    }
  }

  /** Reading on from a prefix stays a prefix, and ends at the end. */
  lemma ReadOn(all: bytes, got: bytes, size: nat)
    requires got <= all
    ensures var rest := all[|got|..];
            got + rest[..if size < |rest| then size else |rest|] <= all && (rest == [] ==> got == all)
  {
    var rest := all[|got|..];
    var n := if size < |rest| then size else |rest|;
    assert all == got + rest && rest == rest[..n] + rest[n..];
    assert (got + rest[..n]) + rest[n..] == got + (rest[..n] + rest[n..]);
  }

  lemma LookStep(s: Store, ttl: nat, pid: Pid, p: Proc, c: Choice)
    requires Sound(s, ttl) && ProcSound(s, ttl, pid, p) && (p.SwStart? || p.SwNext? || p.UpDone? || p.DlDone? || p.SwDone?)
    ensures var (s', p') := StepProc(s, ttl, pid, p, c);
            StepOk(s, s', ttl, pid, p')
  {
    hide Elsewhere;
    hide Kept;
    hide ValidCode;
    SameStores(s, pid);
  }

  lemma OwnStep(s: Store, ttl: nat, pid: Pid, p: Proc, c: Choice)
    requires Sound(s, ttl) && ProcSound(s, ttl, pid, p)
    ensures var (s', p') := StepProc(s, ttl, pid, p, c);
            StepOk(s, s', ttl, pid, p')
  {
    hide StepOk;
    hide Sound;
    match p
    case UpStart(_, _) => StartStep(s, ttl, pid, p, c);
    case UpTemp(_, _, _) => TempStep(s, ttl, pid, p, c);
    case UpCopy(_, _, _, _, _, _) => CopyStep(s, ttl, pid, p, c);
    case UpRename(_, _, _, _) => RenameStep(s, ttl, pid, p, c);
    case UpCleanup(_, _) => CleanupStep(s, ttl, pid, p, c);
    case DlStart(_) => ReadStep(s, ttl, pid, p, c);
    case DlRename(_) => ClaimStep(s, ttl, pid, p, c);
    case DlOpen(_) => ReadStep(s, ttl, pid, p, c);
    case DlRead(_, _, _) => ReadStep(s, ttl, pid, p, c);
    case DlCleanup(_, _) => ReleaseStep(s, ttl, pid, p, c);
    case SwRemove(_, _, _) => RemoveStep(s, ttl, pid, p, c);
    case _ => LookStep(s, ttl, pid, p, c);
  }

  lemma UploadKeeps(s: Store, s': Store, ttl: nat, pid: Pid, q: Pid, r: Proc)
    requires Sound(s, ttl) && Sound(s', ttl) && Kept(s, s') && Elsewhere(s, s', pid) && q != pid
    requires ProcSound(s, ttl, q, r) && Uploading(r)
    ensures ProcSound(s', ttl, q, r)
  {
    hide ValidCode;
    hide ClaimedName;
    hide TempName;
    hide OnePlace;
    hide SweptOld;
  }

  lemma OtherKeeps(s: Store, s': Store, ttl: nat, pid: Pid, q: Pid, r: Proc)
    requires Sound(s, ttl) && Sound(s', ttl) && Kept(s, s') && Elsewhere(s, s', pid) && q != pid
    requires ProcSound(s, ttl, q, r) && !Uploading(r)
    ensures ProcSound(s', ttl, q, r)
  {
    hide ValidCode;
    hide ClaimedName;
    hide TempName;
    hide OnePlace;
    hide SweptOld;
  }

  /** What another process relied on still holds after the step. */
  lemma OthersKeep(s: Store, s': Store, ttl: nat, pid: Pid, q: Pid, r: Proc)
    requires Sound(s, ttl) && Sound(s', ttl) && Kept(s, s') && Elsewhere(s, s', pid) && q != pid
    requires ProcSound(s, ttl, q, r)
    ensures ProcSound(s', ttl, q, r)
  {
    hide *;
    if Uploading(r) {
      UploadKeeps(s, s', ttl, pid, q, r);
    } else {
      OtherKeeps(s, s', ttl, pid, q, r);
    }
  }

  lemma TickKeeps(s: Store, ttl: nat, d: nat)
    requires Sound(s, ttl)
    ensures var s' := s.(clock := s.clock + d);
            Sound(s', ttl) && Kept(s, s')
  {
    hide ValidCode;
    hide ClaimedName;
    hide TempName;
  }

  lemma TickProc(s: Store, ttl: nat, d: nat, q: Pid, r: Proc)
    requires ProcSound(s, ttl, q, r)
    ensures ProcSound(s.(clock := s.clock + d), ttl, q, r)
  {
    hide ValidCode;
    hide ClaimedName;
  }

  lemma KeptSelf(s: Store)
    ensures Kept(s, s)
  {
  }

  lemma StepKeepsInv(s: State, ttl: nat, e: Event)
    requires Inv(s, ttl)
    ensures Inv(Step(s, ttl, e), ttl) && Kept(s.store, Step(s, ttl, e).store)
  {
    hide StepProc;
    hide Sound;
    hide Kept;
    hide Elsewhere;
    KeptSelf(s.store);
    if e.Tick? {
      hide ProcSound;
      TickKeeps(s.store, ttl, e.d);
      forall q | q in s.procs
        ensures ProcSound(s.store.(clock := s.store.clock + e.d), ttl, q, s.procs[q])
      {
        TickProc(s.store, ttl, e.d, q, s.procs[q]);
      }
    } else if e.Advance? && e.pid in s.procs {
      hide ProcSound;
      OwnStep(s.store, ttl, e.pid, s.procs[e.pid], e.choice);
      var (store', p') := StepProc(s.store, ttl, e.pid, s.procs[e.pid], e.choice);
      forall q | q in s.procs && q != e.pid
        ensures ProcSound(store', ttl, q, s.procs[q])
      {
        OthersKeep(s.store, store', ttl, e.pid, q, s.procs[q]);
      }
    }
  }

  lemma {:induction false} RunSound(ttl: nat, start: int, events: seq<Event>)
    ensures Inv(Run(ttl, start, events), ttl)
  {
    if events != [] {
      RunSound(ttl, start, events[..|events| - 1]);
      StepKeepsInv(Run(ttl, start, events[..|events| - 1]), ttl, events[|events| - 1]);
    }
  }

  /**
   One-time delivery, over every interleaving: a download that delivers anything delivers the complete
   body of the one upload that drew its code, and no second download of that code delivers anything.
   */
  lemma DeliveredOnce(ttl: nat, start: int, events: seq<Event>, p: Pid, q: Pid)
    ensures var s := Run(ttl, start, events);
            p in s.procs && s.procs[p].DlDone? && s.procs[p].sent.Some? ==>
              && BodyOf(s.store, s.procs[p].code, s.procs[p].sent.value)
              && (q in s.procs && s.procs[q].DlDone? && s.procs[q].sent.Some? && s.procs[q].code == s.procs[p].code
                  ==> q == p)
  {
    RunSound(ttl, start, events);
    var s := Run(ttl, start, events);
    assert p in s.procs ==> ProcSound(s.store, ttl, p, s.procs[p]);
    assert q in s.procs ==> ProcSound(s.store, ttl, q, s.procs[q]);
  }

  /**
   No blob is lost silently: after every run, a code whose upload reported success is in exactly one of
   three places, available with its complete body, claimed by one download, or swept past its age.
   */
  lemma BlobAccounted(ttl: nat, start: int, events: seq<Event>, u: Pid)
    ensures var s := Run(ttl, start, events);
            u in s.procs && s.procs[u].UpDone? && s.procs[u].result.Some? ==>
              var c := s.procs[u].result.value;
              var d := s.store;
              && OwnedBy(d, c, u)
              && (c in d.dir ==> Holds(d, d.dir[c], c) && c !in d.claims && c !in d.swept)
              && (c !in d.dir ==> (c in d.claims <==> c !in d.swept))
              && (c in d.swept ==> d.swept[c].mtime < d.swept[c].at - ttl)
  {
    RunSound(ttl, start, events);
    var s := Run(ttl, start, events);
    assert u in s.procs ==> ProcSound(s.store, ttl, u, s.procs[u]);
  }
}
