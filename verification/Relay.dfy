/**
 The relay's claim protocol (relay/main.go): uploads, downloads and sweeps as processes over one shared
 directory, interleaved step by step. Renames and removes are atomic, an open file stays readable after
 its name is gone, and claim codes and temp names are never drawn twice.
 */
module Relay {
  import opened Base32
  import opened Bytes

  type Pid = nat
  type Ino = nat

  const CODE_LENGTH := 26

  /** validCode: 26 characters of the code alphabet and nothing else. */
  predicate ValidCode(s: string) {
    |s| == CODE_LENGTH && forall i :: 0 <= i < |s| ==> Alphabet(s[i])
  }

  predicate TempName(s: string) {
    ".upload-" <= s
  }

  function ClaimedName(code: string): string {
    code + ".claimed"
  }

  /** An open file's bytes, its modification time and whether its upload may still write to it. */
  datatype File = File(content: bytes, mtime: int, open: bool)

  datatype Owned = Owned(pid: Pid, body: bytes)

  datatype Swept = Swept(mtime: int, at: int)

  datatype Proc =
    | UpStart(body: bytes, fails: bool)
    | UpTemp(code: string, body: bytes, fails: bool)
    | UpCopy(code: string, tmp: string, ino: Ino, left: bytes, body: bytes, fails: bool)
    | UpRename(code: string, tmp: string, ino: Ino, body: bytes)
    | UpCleanup(tmp: string, result: Option<string>)
    | UpDone(result: Option<string>)
    | DlStart(code: string)
    | DlRename(code: string)
    | DlOpen(code: string)
    | DlRead(code: string, ino: Ino, got: bytes)
    | DlCleanup(code: string, sent: Option<bytes>)
    | DlDone(code: string, sent: Option<bytes>)
    | SwStart
    | SwNext(names: set<string>, cutoff: int)
    | SwRemove(name: string, names: set<string>, cutoff: int)
    | SwDone

  /**
   The directory, its files and the clock; and, for what is proved, which upload drew each code and
   temp name, which codes were published, claimed by which download, or swept, and which other names a sweep
   took.
   */
  datatype Store = Store(
    dir: map<string, Ino>,
    files: map<Ino, File>,
    clock: int,
    temps: map<string, Pid>,
    writers: map<Ino, Pid>,
    codes: map<string, Owned>,
    published: set<string>,
    claims: map<string, Pid>,
    swept: map<string, Swept>,
    lapsed: map<string, Swept>)

  /** Anything a step leaves to chance: a random name, a free inode, how many bytes move. */
  datatype Choice = Choice(name: string, ino: Ino, size: nat)

  /** The process's next atomic step. */
  function StepProc(s: Store, ttl: nat, pid: Pid, p: Proc, c: Choice): (Store, Proc) {
    match p
    case UpStart(body, fails) =>
      if ValidCode(c.name) && c.name !in s.codes
      then (s.(codes := s.codes[c.name := Owned(pid, body)]), UpTemp(c.name, body, fails))
      else (s, p)
    case UpTemp(code, body, fails) =>
      if TempName(c.name) && c.name !in s.temps && c.ino !in s.files
      then (s.(dir := s.dir[c.name := c.ino], files := s.files[c.ino := File([], s.clock, true)],
               temps := s.temps[c.name := pid], writers := s.writers[c.ino := pid]),
            UpCopy(code, c.name, c.ino, body, body, fails))
      else (s, p)
    case UpCopy(code, tmp, ino, left, body, fails) =>
      if ino !in s.files then (s, p)
      else if left == [] then
        var closed := s.files[ino := s.files[ino].(open := false)];
        (s.(files := closed), if fails then UpCleanup(tmp, None) else UpRename(code, tmp, ino, body))
      else
        var n := if c.size < |left| then c.size else |left|;
        (s.(files := s.files[ino := File(s.files[ino].content + left[..n], s.clock, true)]),
         UpCopy(code, tmp, ino, left[n..], body, fails))
    case UpRename(code, tmp, ino, body) =>
      if tmp in s.dir
      then (s.(dir := s.dir[code := s.dir[tmp]] - {tmp}, published := s.published + {code}), UpCleanup(tmp, Some(code)))
      else (s, UpCleanup(tmp, None))
    case UpCleanup(tmp, result) => (s.(dir := s.dir - {tmp}), UpDone(result))
    case DlStart(code) => (s, if ValidCode(code) then DlRename(code) else DlDone(code, None))
    case DlRename(code) =>
      if code in s.dir
      then (s.(dir := s.dir[ClaimedName(code) := s.dir[code]] - {code}, claims := s.claims[code := pid]), DlOpen(code))
      else (s, DlDone(code, None))
    case DlOpen(code) =>
      if ClaimedName(code) in s.dir then (s, DlRead(code, s.dir[ClaimedName(code)], []))
      else (s, DlCleanup(code, None))
    case DlRead(code, ino, got) =>
      if ino !in s.files || |got| > |s.files[ino].content| then (s, p)
      else
        var rest := s.files[ino].content[|got|..];
        var n := if c.size < |rest| then c.size else |rest|;
        (s, if rest == [] then DlCleanup(code, Some(got)) else DlRead(code, ino, got + rest[..n]))
    case DlCleanup(code, sent) => (s.(dir := s.dir - {ClaimedName(code)}), DlDone(code, sent))
    case SwStart => (s, SwNext(s.dir.Keys, s.clock - ttl))
    case SwNext(names, cutoff) =>
      if names == {} then (s, SwDone)
      else if c.name !in names then (s, p)
      else if c.name in s.dir && s.dir[c.name] in s.files && s.files[s.dir[c.name]].mtime < cutoff
      then (s, SwRemove(c.name, names - {c.name}, cutoff))
      else (s, SwNext(names - {c.name}, cutoff))
    case SwRemove(name, names, cutoff) =>
      var s' := s.(dir := s.dir - {name});
      if name !in s.dir || s.dir[name] !in s.files then (s', SwNext(names, cutoff))
      else
        var taken := Swept(s.files[s.dir[name]].mtime, s.clock);
        if name in s.codes then (s'.(swept := s.swept[name := taken]), SwNext(names, cutoff))
        else (s'.(lapsed := s.lapsed[name := taken]), SwNext(names, cutoff))
    case _ => (s, p)
  }

  datatype Event =
    | Upload(pid: Pid, body: bytes, fails: bool)
    | Download(pid: Pid, code: string)
    | Sweep(pid: Pid)
    | Advance(pid: Pid, choice: Choice)
    | Tick(d: nat)

  datatype State = State(store: Store, procs: map<Pid, Proc>)

  function Arrive(s: State, pid: Pid, p: Proc): State {
    if pid in s.procs then s else s.(procs := s.procs[pid := p])
  }

  function Step(s: State, ttl: nat, e: Event): State {
    match e
    case Upload(pid, body, fails) => Arrive(s, pid, UpStart(body, fails))
    case Download(pid, code) => Arrive(s, pid, DlStart(code))
    case Sweep(pid) => Arrive(s, pid, SwStart)
    case Tick(d) => s.(store := s.store.(clock := s.store.clock + d))
    case Advance(pid, c) =>
      if pid !in s.procs then s
      else
        var (store', p') := StepProc(s.store, ttl, pid, s.procs[pid], c);
        State(store', s.procs[pid := p'])
  }

  function Run(ttl: nat, start: int, events: seq<Event>): State {
    if events == [] then State(Store(map[], map[], start, map[], map[], map[], {}, map[], map[], map[]), map[])
    else Step(Run(ttl, start, events[..|events| - 1]), ttl, events[|events| - 1])
  }
}
