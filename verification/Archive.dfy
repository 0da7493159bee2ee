/**
 The .kyz archive (src/archive.c) on values: what each writing call does to the file under construction,
 what opening, unlocking and extracting return, and that reading undoes every order of writing.
 Compression, the KEM with its key derivation, and AES-GCM are abstract pairs of inverse functions.
 */
module Archive {
  import opened Bytes
  import opened ArchiveFormat

  /** The KyberError codes; Overrun stands for a read past a buffer, where C leaves the outcome undefined. */
  datatype Error = IO | Format | Tampered | Compress | Crypto | InvalidParam | WrongKey | Overrun

  datatype Result<+T> = Ok(value: T) | Err(error: Error)

  type Nonce = n: bytes | |n| == NONCE_SIZE witness Zeros(NONCE_SIZE)

  /**
   seal: key, nonce, plaintext to ciphertext and tag; decompress: input and original length;
   decaps: secret key, parameter set, KEM ciphertext to the derived symmetric key.
   */
  datatype Suite = Suite(
    seal: (bytes, Nonce, bytes) -> (bytes, bytes),
    unseal: (bytes, bytes, bytes, bytes) -> Option<bytes>,
    compress: (bytes, int) -> Option<bytes>,
    decompress: (bytes, nat) -> Option<bytes>,
    decaps: (bytes, byte, bytes) -> Option<bytes>)

  ghost predicate Sound(s: Suite) {
    && (forall k: bytes, n: Nonce, p: bytes :: |s.seal(k, n, p).0| == |p| && |s.seal(k, n, p).1| == TAG_SIZE)
    && (forall k: bytes, n: Nonce, p: bytes :: s.unseal(k, n, s.seal(k, n, p).0, s.seal(k, n, p).1) == Some(p))
    && (forall x: bytes, l: int :: s.compress(x, l).Some? ==> s.decompress(s.compress(x, l).value, |x|) == Some(x))
  }

  /** KyberStagedRef, without the path on disk: the C string in `arcname` and the level. */
  datatype Staged = Staged(arcname: bytes, level: int)

  predicate StagedOk(r: Staged) {
    |r.arcname| < NAME_SIZE && 0 !in r.arcname
  }

  predicate AllStaged(staged: seq<Staged>) {
    forall i :: 0 <= i < |staged| ==> StagedOk(staged[i])
  }

  function Slashed(name: bytes): (r: bytes)
    ensures |r| == |name| && (0 !in name ==> 0 !in r) && 92 !in r
  {
    seq(|name|, i requires 0 <= i < |name| => if name[i] == 92 then 47 else name[i])
  }

  /** add_file: strncpy keeps 511 bytes, then each backslash becomes a slash. */
  function Stage(arcname: bytes, level: int): (r: Staged)
    ensures 0 !in arcname ==> StagedOk(r)
  {
    Staged(Slashed(if |arcname| < NAME_SIZE then arcname else arcname[..NAME_SIZE - 1]), level)
  }

  /** The name a file is kept under: the one given, cut at 511 bytes, with slashes for its backslashes. */
  ghost predicate KeptUnder(stored: bytes, arcname: bytes) {
    && |stored| == (if |arcname| < 512 then |arcname| else 511)
    && forall i :: 0 <= i < |stored| ==> stored[i] == if arcname[i] == 92 then 47 else arcname[i]
  }

  lemma StageKeeps(arcname: bytes, level: int)
    ensures KeptUnder(Stage(arcname, level).arcname, arcname) && Stage(arcname, level).level == level
  {
  }

  /** Only one name is that, and a short name without backslashes is its own. */
  lemma KeptIs(x: bytes, y: bytes, arcname: bytes)
    requires KeptUnder(x, arcname) && KeptUnder(y, arcname)
    ensures x == y
    ensures |arcname| < 512 && 92 !in arcname <==> x == arcname
  {
    if x == arcname {
      forall i | 0 <= i < |arcname|
        ensures arcname[i] != 92
      {
        assert x[i] == arcname[i];
      }
    }
  }

  function NameField(name: bytes): (r: bytes)
    requires |name| < NAME_SIZE
    ensures |r| == NAME_SIZE && r[NAME_SIZE - 1] == 0
  {
    name + Zeros(NAME_SIZE - |name|)
  }

  /** A char buffer read as a C string. */
  function CName(f: bytes): bytes {
    if f == [] || f[0] == 0 then [] else [f[0]] + CName(f[1..])
  }

  lemma {:induction false} CNameAt(f: bytes, n: bytes)
    requires n <= f && 0 !in n && |n| < |f| && f[|n|] == 0
    ensures CName(f) == n
  {
    if n != [] {
      assert f[0] == n[0] && n[0] in n;
      assert n == [n[0]] + n[1..];
      CNameAt(f[1..], n[1..]);
    }
  }

  lemma NameFieldRead(name: bytes)
    requires |name| < NAME_SIZE && 0 !in name
    ensures CName(NameField(name)) == name
  {
    CNameAt(NameField(name), name);
  }

  /** One write_next: the index, the source file's content then (None if it cannot be opened), the nonce drawn. */
  datatype Call = Call(index: nat, content: Option<bytes>, nonce: Nonce)

  datatype Build = Build(file: bytes, entries: seq<Entry>)

  function Packed(s: Suite, level: int, data: bytes): Option<bytes> {
    if level == 0 then Some(data) else s.compress(data, level)
  }

  /** What an entry holds before anything is written: the level is cast to one byte. */
  function Meta(r: Staged, data: bytes, nonce: Nonce): Entry
    requires StagedOk(r)
  {
    Entry(NameField(r.arcname), |data|, 0, 0, nonce, Zeros(TAG_SIZE), r.level % 256)
  }

  /** process_file: the result, the entry and the output file after it. */
  function ProcessFile(s: Suite, key: bytes, r: Staged, c: Call, was: Entry, file: bytes): (Result<()>, Entry, bytes)
    requires StagedOk(r)
  {
    if c.content.None? then (Err(IO), was, file)
    else
      var e := Meta(r, c.content.value, c.nonce);
      if c.content.value == [] then (Ok(()), e.(dataOffset := |file|), file)
      else
        match Packed(s, r.level, c.content.value)
        case None => (Err(Compress), e, file)
        case Some(p) =>
          var ct := s.seal(key, c.nonce, p);
          (Ok(()), e.(compressedSize := |p|, dataOffset := |file|, tag := ct.1), file + ct.0)
  }

  function Next(s: Suite, key: bytes, staged: seq<Staged>, b: Build, c: Call): (r: (Result<()>, Build))
    requires AllStaged(staged) && |b.entries| == |staged|
    ensures |r.1.entries| == |staged| && b.file <= r.1.file
  {
    if c.index >= |staged| then (Err(InvalidParam), b)
    else
      var p := ProcessFile(s, key, staged[c.index], c, b.entries[c.index], b.file);
      (p.0, Build(p.2, b.entries[c.index := p.1]))
  }

  /** write_begin: header, KEM ciphertext, and entries as calloc leaves them. */
  function Begin(param: byte, kem: bytes, n: nat): (b: Build)
    ensures |b.entries| == n && |b.file| == HEADER_SIZE + |kem|
  {
    Build(WriteHeader(Header(param, |kem|, n * ENTRY_SIZE, n)) + kem, seq(n, _ => BlankEntry()))
  }

  /** Any sequence of write_next calls, failed ones included. */
  function Nexts(s: Suite, key: bytes, staged: seq<Staged>, b: Build, calls: seq<Call>): (r: Build)
    requires AllStaged(staged) && |b.entries| == |staged|
    ensures |r.entries| == |staged|
  {
    if calls == [] then b
    else Next(s, key, staged, Nexts(s, key, staged, b, calls[..|calls| - 1]), calls[|calls| - 1]).1
  }

  /** write_finish. */
  function Finish(s: Suite, key: bytes, b: Build, tableNonce: Nonce): bytes {
    var ct := s.seal(key, tableNonce, Table(b.entries));
    b.file + tableNonce + ct.1 + ct.0
  }

  /** The file that begin, the calls and finish leave. */
  function ArchiveOf(s: Suite, key: bytes, param: byte, kem: bytes, staged: seq<Staged>, calls: seq<Call>, tableNonce: Nonce): bytes
    requires AllStaged(staged)
  {
    Finish(s, key, Nexts(s, key, staged, Begin(param, kem, |staged|), calls), tableNonce)
  }

  /** The last call on i that reached the entry. */
  function Latest(calls: seq<Call>, i: nat): (r: Option<Call>)
    ensures r.Some? ==> r.value in calls && r.value.index == i && r.value.content.Some?
  {
    if calls == [] then None
    else
      var c := calls[|calls| - 1];
      if c.index == i && c.content.Some? then Some(c) else Latest(calls[..|calls| - 1], i)
  }

  // Reading.

  datatype Opened = Opened(header: Header, kem: bytes, tableNonce: bytes, tableTag: bytes)

  /** kyber_archive_open: header and KEM ciphertext from the front, table nonce and tag from the back. */
  function OpenArchive(f: bytes): Result<Opened> {
    if |f| < HEADER_SIZE then Err(IO)
    else
      match ReadHeader(f)
      case None => Err(Format)
      case Some(h) =>
        if |f| < HEADER_SIZE + h.kemLength then Err(IO)
        else if |f| < NONCE_SIZE + TAG_SIZE + h.tableLength then Err(Format)
        else
          var at := |f| - NONCE_SIZE - TAG_SIZE - h.tableLength;
          Ok(Opened(h, f[HEADER_SIZE..HEADER_SIZE + h.kemLength], f[at..at + NONCE_SIZE],
                    f[at + NONCE_SIZE..at + NONCE_SIZE + TAG_SIZE]))
  }

  /** kyber_archive_unlock: the symmetric key and the entries. */
  function Unlock(s: Suite, f: bytes, o: Opened, secret: bytes): Result<(bytes, seq<Entry>)> {
    match s.decaps(secret, o.header.param, o.kem)
    case None => Err(Crypto)
    case Some(key) =>
      if |f| < NONCE_SIZE + TAG_SIZE + o.header.tableLength then Err(Format)
      else
        match s.unseal(key, o.tableNonce, f[|f| - o.header.tableLength..], o.tableTag)
        case None => Err(Tampered)
        case Some(t) =>
          if |t| < ENTRY_SIZE * o.header.fileCount then Err(Overrun)
          else Ok((key, ReadTable(t, o.header.fileCount)))
  }

  /** kyber_archive_extract_file once the index and the entries are known: the name and the content. */
  function ExtractEntry(s: Suite, key: bytes, f: bytes, e: Entry): Result<(bytes, bytes)> {
    if e.originalSize == 0 then Ok((CName(e.name), []))
    else if e.dataOffset + e.compressedSize > |f| then Err(IO)
    else
      match s.unseal(key, e.nonce, f[e.dataOffset..e.dataOffset + e.compressedSize], e.tag)
      case None => Err(Tampered)
      case Some(p) =>
        if e.compression == 0 then
          if |p| < e.originalSize then Err(Overrun) else Ok((CName(e.name), p[..e.originalSize]))
        else
          match s.decompress(p, e.originalSize)
          case None => Err(Compress)
          case Some(x) => Ok((CName(e.name), x))
  }

  function Extract(s: Suite, key: bytes, f: bytes, count: nat, entries: Option<seq<Entry>>, i: nat): Result<(bytes, bytes)>
    requires entries.Some? ==> |entries.value| == count
  {
    if i >= count then Err(InvalidParam)
    else if entries.None? then Err(WrongKey)
    else ExtractEntry(s, key, f, entries.value[i])
  }

  // What a run of writing calls leaves.

  /** The entry that call c leaves for file r when the output file was `at` bytes long. */
  function EntryFor(s: Suite, key: bytes, r: Staged, c: Call, at: nat): Entry
    requires StagedOk(r) && c.content.Some?
  {
    var e, data := Meta(r, c.content.value, c.nonce), c.content.value;
    if data == [] then e.(dataOffset := at)
    else
      match Packed(s, r.level, data)
      case None => e
      case Some(p) => e.(compressedSize := |p|, dataOffset := at, tag := s.seal(key, c.nonce, p).1)
  }

  function BlobFor(s: Suite, key: bytes, r: Staged, c: Call): (b: bytes)
    ensures Sound(s) && c.content.Some? && c.content.value != [] && Packed(s, r.level, c.content.value).Some?
            ==> |b| == |Packed(s, r.level, c.content.value).value|
  {
    if c.content.None? || c.content.value == [] then []
    else
      match Packed(s, r.level, c.content.value)
      case None => []
      case Some(p) => s.seal(key, c.nonce, p).0
  }

  /** What one call answers: the source file cannot be read, it does not compress, or it is in. */
  function Answer(s: Suite, r: Staged, c: Call): Result<()> {
    if c.content.None? then Err(IO)
    else if c.content.value != [] && Packed(s, r.level, c.content.value).None? then Err(Compress)
    else Ok(())
  }

  /** A step appends one blob and points one entry at it. */
  lemma NextIs(s: Suite, key: bytes, staged: seq<Staged>, b: Build, c: Call)
    requires AllStaged(staged) && |b.entries| == |staged| && c.index < |staged|
    ensures Next(s, key, staged, b, c).0 == Answer(s, staged[c.index], c)
    ensures var n := Next(s, key, staged, b, c).1;
            && n.file == b.file + BlobFor(s, key, staged[c.index], c)
            && n.entries == b.entries[c.index := if c.content.None? then b.entries[c.index] else
                                       EntryFor(s, key, staged[c.index], c, |b.file|)]
  {
  }

  /** Entry e of file r says what call c put in the file: its blob lies where the entry points. */
  ghost predicate Holds(s: Suite, key: bytes, r: Staged, c: Call, e: Entry, file: bytes)
    requires StagedOk(r) && c.content.Some?
  {
    exists at: nat :: HoldsAt(s, key, r, c, e, file, at)
  }

  predicate HoldsAt(s: Suite, key: bytes, r: Staged, c: Call, e: Entry, file: bytes, at: nat)
    requires StagedOk(r) && c.content.Some?
  {
    var blob := BlobFor(s, key, r, c);
    e == EntryFor(s, key, r, c, at) && at + |blob| <= |file| && file[at..at + |blob|] == blob
  }

  lemma HoldsMore(s: Suite, key: bytes, r: Staged, c: Call, e: Entry, file: bytes, more: bytes)
    requires StagedOk(r) && c.content.Some? && Holds(s, key, r, c, e, file)
    ensures Holds(s, key, r, c, e, file + more)
  {
    var at: nat :| HoldsAt(s, key, r, c, e, file, at);
    hide BlobFor;
    hide EntryFor;
    var blob := BlobFor(s, key, r, c);
    assert (file + more)[at..at + |blob|] == file[at..at + |blob|];
    assert HoldsAt(s, key, r, c, e, file + more, at);
  }

  /** After any calls: an untouched entry is blank, a touched one holds its latest call. */
  lemma {:induction false} LatestHolds(s: Suite, key: bytes, staged: seq<Staged>, b: Build, calls: seq<Call>, i: nat)
    requires AllStaged(staged) && |b.entries| == |staged| && i < |staged|
    ensures var (n, l) := (Nexts(s, key, staged, b, calls), Latest(calls, i));
            && (l.None? ==> n.entries[i] == b.entries[i])
            && (l.Some? ==> Holds(s, key, staged[i], l.value, n.entries[i], n.file))
  {
    if calls != [] {
      var init, c := calls[..|calls| - 1], calls[|calls| - 1];
      var m, l := Nexts(s, key, staged, b, init), Latest(init, i);
      LatestHolds(s, key, staged, b, init, i);
      NextsStep(s, key, staged, b, calls);
      if c.index < |staged| {
        NextIs(s, key, staged, m, c);
        var blob := BlobFor(s, key, staged[c.index], c);
        if c.index == i && c.content.Some? {
          assert (m.file + blob)[|m.file|..|m.file| + |blob|] == blob;
          assert HoldsAt(s, key, staged[i], c, EntryFor(s, key, staged[i], c, |m.file|), m.file + blob, |m.file|);
        } else if l.Some? {
          HoldsMore(s, key, staged[i], l.value, m.entries[i], m.file, blob);
        }
      }
    }
  }

  lemma NextsStep(s: Suite, key: bytes, staged: seq<Staged>, b: Build, calls: seq<Call>)
    requires AllStaged(staged) && |b.entries| == |staged| && calls != []
    ensures var init, c := calls[..|calls| - 1], calls[|calls| - 1];
            Nexts(s, key, staged, b, calls) == Next(s, key, staged, Nexts(s, key, staged, b, init), c).1
  {
  }

  /** Sizes and offsets stay within the 64-bit fields. */
  predicate Sized(file: bytes, calls: seq<Call>) {
    |file| < U64 && forall k :: 0 <= k < |calls| ==> calls[k].content.Some? ==> |calls[k].content.value| < U64
  }

  lemma HeldOk(s: Suite, key: bytes, r: Staged, c: Call, e: Entry, file: bytes)
    requires Sound(s) && StagedOk(r) && c.content.Some? && |c.content.value| < U64 && |file| < U64
    requires Holds(s, key, r, c, e, file)
    ensures EntryOk(e)
  {
    var at: nat :| HoldsAt(s, key, r, c, e, file, at);
  }

  lemma EntriesOk(s: Suite, key: bytes, staged: seq<Staged>, b: Build, calls: seq<Call>)
    requires Sound(s) && AllStaged(staged) && |b.entries| == |staged|
    requires forall i :: 0 <= i < |staged| ==> EntryOk(b.entries[i])
    requires Sized(Nexts(s, key, staged, b, calls).file, calls)
    ensures forall i :: 0 <= i < |staged| ==> EntryOk(Nexts(s, key, staged, b, calls).entries[i])
  {
    var n := Nexts(s, key, staged, b, calls);
    forall i | 0 <= i < |staged|
      ensures EntryOk(n.entries[i])
    {
      LatestHolds(s, key, staged, b, calls, i);
      hide *;
      var l := Latest(calls, i);
      if l.Some? {
        SizedCall(n.file, calls, l.value);
        StagedAt(staged, i);
        HeldOk(s, key, staged[i], l.value, n.entries[i], n.file);
      }
    }
  }

  lemma SizedCall(file: bytes, calls: seq<Call>, c: Call)
    requires Sized(file, calls) && c in calls && c.content.Some?
    ensures |file| < U64 && |c.content.value| < U64
  {
  }

  lemma StagedAt(staged: seq<Staged>, i: nat)
    requires AllStaged(staged) && i < |staged|
    ensures StagedOk(staged[i])
  {
  }

  /** The levels whose one-byte cast still says whether the data was compressed. */
  predicate LevelFits(level: int) {
    level == 0 || level % 256 != 0
  }

  /** What comes out of a file that call c wrote; a level that does not fit makes the reader skip inflating. */
  function Outcome(s: Suite, key: bytes, r: Staged, c: Call): Result<(bytes, bytes)>
    requires c.content.Some?
  {
    var data := c.content.value;
    if data == [] then Ok((r.arcname, []))
    else
      match Packed(s, r.level, data)
      case None => Err(Tampered)
      case Some(p) =>
        if LevelFits(r.level) then Ok((r.arcname, data))
        else if |p| < |data| then Err(Overrun)
        else Ok((r.arcname, p[..|data|]))
  }

  /** A zero tag on no ciphertext, which a failed compression leaves, does not authenticate. */
  predicate Rejected(s: Suite, key: bytes, r: Staged, c: Call)
    requires c.content.Some?
  {
    c.content.value == [] || Packed(s, r.level, c.content.value).Some?
    || s.unseal(key, c.nonce, [], Zeros(TAG_SIZE)) == None
  }

  lemma HeldRead(s: Suite, key: bytes, r: Staged, c: Call, e: Entry, file: bytes, tail: bytes)
    requires Sound(s) && StagedOk(r) && c.content.Some? && Holds(s, key, r, c, e, file)
    requires Rejected(s, key, r, c)
    ensures ExtractEntry(s, key, file + tail, e) == Outcome(s, key, r, c)
  {
    var at: nat :| HoldsAt(s, key, r, c, e, file, at);
    NameFieldRead(r.arcname);
    hide CName;
    hide NameField;
    var blob := BlobFor(s, key, r, c);
    assert (file + tail)[at..at + |blob|] == blob;
    assert c.content.value[..|c.content.value|] == c.content.value;
    assert (file + tail)[0..0] == [];
  }

  /** The reader finds the parts from the two ends of the file. */
  lemma OpenParts(h: Header, kem: bytes, blobs: bytes, nonce: bytes, tag: bytes, table: bytes)
    requires HeaderOk(h) && |kem| == h.kemLength && |table| == h.tableLength
    requires |nonce| == NONCE_SIZE && |tag| == TAG_SIZE
    ensures var f := WriteHeader(h) + kem + blobs + nonce + tag + table;
            OpenArchive(f) == Ok(Opened(h, kem, nonce, tag)) && f[|f| - |table|..] == table
  {
    var head := WriteHeader(h);
    var rest := kem + blobs + nonce + tag + table;
    HeaderRoundTrip(h, rest);
    hide WriteHeader;
    hide ReadHeader;
    var f := head + kem + blobs + nonce + tag + table;
    Slots(head, kem, blobs, nonce, tag, table);
    assert f == head + rest;
  }

  lemma Slots(head: bytes, kem: bytes, blobs: bytes, nonce: bytes, tag: bytes, table: bytes)
    ensures var f, at := head + kem + blobs + nonce + tag + table, |head| + |kem| + |blobs|;
            && |f| == at + |nonce| + |tag| + |table| && f[|head|..|head| + |kem|] == kem
            && f[at..at + |nonce|] == nonce && f[at + |nonce|..at + |nonce| + |tag|] == tag
            && f[|f| - |table|..] == table
  {
  }

  lemma {:induction false} UnlockParts(s: Suite, secret: bytes, f: bytes, o: Opened, key: bytes, nonce: Nonce, es: seq<Entry>)
    requires Sound(s) && s.decaps(secret, o.header.param, o.kem) == Some(key)
    requires forall i :: 0 <= i < |es| ==> EntryOk(es[i])
    requires o.header.fileCount == |es| && o.header.tableLength == |es| * ENTRY_SIZE
    requires var ct := s.seal(key, nonce, Table(es));
             && o.tableNonce == nonce && o.tableTag == ct.1
             && |f| >= NONCE_SIZE + TAG_SIZE + |ct.0| && f[|f| - |ct.0|..] == ct.0
    ensures Unlock(s, f, o, secret) == Ok((key, es))
  {
    SealOpens(s, key, nonce, Table(es));
    hide Sound;
    hide Table;
    hide ReadTable;
    hide EntryOk;
    hide Unlock;
    TableRoundTrip(es);
    UnlockOf(s, secret, f, o, key, Table(es));
  }

  lemma SealOpens(s: Suite, key: bytes, nonce: Nonce, p: bytes)
    requires Sound(s)
    ensures var ct := s.seal(key, nonce, p);
            |ct.0| == |p| && |ct.1| == TAG_SIZE && s.unseal(key, nonce, ct.0, ct.1) == Some(p)
  {
  }

  lemma {:induction false} UnlockOf(s: Suite, secret: bytes, f: bytes, o: Opened, key: bytes, t: bytes)
    requires s.decaps(secret, o.header.param, o.kem) == Some(key)
    requires |f| >= NONCE_SIZE + TAG_SIZE + o.header.tableLength && |t| >= ENTRY_SIZE * o.header.fileCount
    requires s.unseal(key, o.tableNonce, f[|f| - o.header.tableLength..], o.tableTag) == Some(t)
    ensures Unlock(s, f, o, secret) == Ok((key, ReadTable(t, o.header.fileCount)))
  {
    hide ReadTable;
  }

  /** The archive opened and unlocked: the header written, the KEM ciphertext, the key and the entries. */
  lemma {:induction false} OpensAndUnlocks(s: Suite, secret: bytes, param: byte, kem: bytes, key: bytes, b: Build, tableNonce: Nonce)
    requires Sound(s) && s.decaps(secret, param, kem) == Some(key)
    requires |kem| < 0x1_0000 && |b.entries| * ENTRY_SIZE < U32
    requires Begin(param, kem, |b.entries|).file <= b.file
    requires forall i :: 0 <= i < |b.entries| ==> EntryOk(b.entries[i])
    ensures var f, h := Finish(s, key, b, tableNonce), Header(param, |kem|, |b.entries| * ENTRY_SIZE, |b.entries|);
            && OpenArchive(f).Ok? && OpenArchive(f).value.header == h && OpenArchive(f).value.kem == kem
            && Unlock(s, f, OpenArchive(f).value, secret) == Ok((key, b.entries))
  {
    var n, table := |b.entries|, Table(b.entries);
    var h := Header(param, |kem|, n * ENTRY_SIZE, n);
    TableAt(b.entries, 0);
    var ct := s.seal(key, tableNonce, table);
    var front := WriteHeader(h) + kem;
    OpenParts(h, kem, b.file[|front|..], tableNonce, ct.1, ct.0);
    hide OpenArchive;
    hide Unlock;
    hide Table;
    hide WriteHeader;
    hide EntryOk;
    assert b.file == front + b.file[|front|..];
    UnlockParts(s, secret, Finish(s, key, b, tableNonce), Opened(h, kem, tableNonce, ct.1), key, tableNonce, b.entries);
  }

  lemma {:induction false} NextsGrow(s: Suite, key: bytes, staged: seq<Staged>, b: Build, calls: seq<Call>)
    requires AllStaged(staged) && |b.entries| == |staged|
    ensures b.file <= Nexts(s, key, staged, b, calls).file
  {
    if calls != [] {
      NextsGrow(s, key, staged, b, calls[..|calls| - 1]);
    }
  }

  /** What extracting index i must give after the calls. */
  function Expected(s: Suite, key: bytes, staged: seq<Staged>, calls: seq<Call>, i: nat): Result<(bytes, bytes)>
    requires i < |staged|
  {
    match Latest(calls, i)
    case None => Ok(([], []))
    case Some(c) => Outcome(s, key, staged[i], c)
  }

  lemma BlankRead(s: Suite, key: bytes, f: bytes)
    ensures ExtractEntry(s, key, f, BlankEntry()) == Ok(([], []))
  {
    CNameAt(Zeros(NAME_SIZE), []);
  }

  /**
   Whatever order the files were written in, however often, and whichever calls failed: the archive opens,
   unlocks with the matching secret key, and gives for every index what its latest call put there.
   */
  lemma AnyOrder(s: Suite, secret: bytes, param: byte, kem: bytes, key: bytes, staged: seq<Staged>, calls: seq<Call>,
                 tableNonce: Nonce, i: nat)
    requires Sound(s) && s.decaps(secret, param, kem) == Some(key) && AllStaged(staged)
    requires |kem| < 0x1_0000 && |staged| * ENTRY_SIZE < U32 && i < |staged|
    requires Sized(Nexts(s, key, staged, Begin(param, kem, |staged|), calls).file, calls)
    requires Latest(calls, i).Some? ==> Rejected(s, key, staged[i], Latest(calls, i).value)
    ensures var f := ArchiveOf(s, key, param, kem, staged, calls, tableNonce);
            && OpenArchive(f).Ok? && OpenArchive(f).value.header.fileCount == |staged|
            && var u := Unlock(s, f, OpenArchive(f).value, secret);
            && u.Ok? && u.value.0 == key && |u.value.1| == |staged|
            && Extract(s, key, f, |staged|, Some(u.value.1), i) == Expected(s, key, staged, calls, i)
  {
    var b0 := Begin(param, kem, |staged|);
    var b := Nexts(s, key, staged, b0, calls);
    var f := Finish(s, key, b, tableNonce);
    EntriesOk(s, key, staged, b0, calls);
    NextsGrow(s, key, staged, b0, calls);
    OpensAndUnlocks(s, secret, param, kem, key, b, tableNonce);
    LatestHolds(s, key, staged, b0, calls, i);
    var tail := FinishTail(s, key, b, tableNonce);
    StagedAt(staged, i);
    if Latest(calls, i).Some? {
      HeldRead(s, key, staged[i], Latest(calls, i).value, b.entries[i], b.file, tail);
    } else {
      BlankRead(s, key, f);
    }
    hide Nexts;
    hide OpenArchive;
    hide Unlock;
    hide ExtractEntry;
  }

  lemma FinishTail(s: Suite, key: bytes, b: Build, tableNonce: Nonce) returns (tail: bytes)
    ensures Finish(s, key, b, tableNonce) == b.file + tail
  {
    var ct := s.seal(key, tableNonce, Table(b.entries));
    tail := tableNonce + ct.1 + ct.0;
  }

  /**
   The level's cast to one byte: a file comes back exactly when the byte still tells deflated from stored,
   or when the deflated bytes, taken for stored ones, happen to begin with the file.
   */
  lemma LevelExact(s: Suite, key: bytes, r: Staged, c: Call)
    requires Sound(s) && c.content.Some? && Packed(s, r.level, c.content.value).Some?
    ensures var data := c.content.value;
            Outcome(s, key, r, c) == Ok((r.arcname, data))
            <==> LevelFits(r.level) || data <= Packed(s, r.level, data).value
  {
    var data, p := c.content.value, Packed(s, r.level, c.content.value).value;
    assert |data| <= |p| ==> (data <= p <==> p[..|data|] == data);
  }

  /** Deflate's zlib framing begins every output with one byte; the file of that byte comes back whatever the level. */
  lemma FirstByteComesBack(s: Suite, key: bytes, r: Staged, c: Call, first: byte)
    requires Sound(s) && c.content == Some([first]) && Packed(s, r.level, [first]).Some?
    requires r.level != 0 ==> |Packed(s, r.level, [first]).value| > 0 && Packed(s, r.level, [first]).value[0] == first
    ensures Outcome(s, key, r, c) == Ok((r.arcname, [first]))
  {
    LevelExact(s, key, r, c);
  }

  predicate Live(e: Entry) {
    e.compressedSize > 0
  }

  /** Blobs lie between the KEM ciphertext and the table, and no two overlap. */
  ghost predicate Apart(start: nat, b: Build) {
    && (forall i :: 0 <= i < |b.entries| && Live(b.entries[i]) ==>
          start <= b.entries[i].dataOffset && b.entries[i].dataOffset + b.entries[i].compressedSize <= |b.file|)
    && (forall i, j :: 0 <= i < |b.entries| && 0 <= j < |b.entries| && i != j && Live(b.entries[i]) && Live(b.entries[j]) ==>
          || b.entries[i].dataOffset + b.entries[i].compressedSize <= b.entries[j].dataOffset
          || b.entries[j].dataOffset + b.entries[j].compressedSize <= b.entries[i].dataOffset)
  }

  lemma {:induction false} BlobsApart(s: Suite, key: bytes, staged: seq<Staged>, b: Build, calls: seq<Call>, start: nat)
    requires Sound(s) && AllStaged(staged) && |b.entries| == |staged|
    requires start <= |b.file| && Apart(start, b)
    ensures Apart(start, Nexts(s, key, staged, b, calls))
  {
    if calls != [] {
      var init, c := calls[..|calls| - 1], calls[|calls| - 1];
      var m := Nexts(s, key, staged, b, init);
      BlobsApart(s, key, staged, b, init, start);
      NextsGrow(s, key, staged, b, init);
      NextsStep(s, key, staged, b, calls);
      if c.index < |staged| {
        NextIs(s, key, staged, m, c);
        StagedAt(staged, c.index);
        hide Next;
        hide Nexts;
        ApartStep(s, key, staged[c.index], m, c, start);
      }
    }
  }

  lemma ApartStep(s: Suite, key: bytes, r: Staged, m: Build, c: Call, start: nat)
    requires Sound(s) && StagedOk(r) && c.index < |m.entries| && Apart(start, m) && start <= |m.file|
    ensures Apart(start, Build(m.file + BlobFor(s, key, r, c),
                               m.entries[c.index := if c.content.None? then m.entries[c.index] else
                                         EntryFor(s, key, r, c, |m.file|)]))
  {
    if c.content.Some? {
      var e := EntryFor(s, key, r, c, |m.file|);
      assert Live(e) ==> e.dataOffset == |m.file| && e.compressedSize == |BlobFor(s, key, r, c)|;
      hide EntryFor;
      hide BlobFor;
    }
  }

  /** From an empty archive on, whatever the calls: every blob between the front and the table, none overlapping. */
  lemma LiveBlobs(s: Suite, key: bytes, param: byte, kem: bytes, staged: seq<Staged>, calls: seq<Call>)
    requires Sound(s) && AllStaged(staged)
    ensures Apart(HEADER_SIZE + |kem|, Nexts(s, key, staged, Begin(param, kem, |staged|), calls))
  {
    BlobsApart(s, key, staged, Begin(param, kem, |staged|), calls, HEADER_SIZE + |kem|);
  }

  // In index order, and the one-shot form.

  function InOrder(contents: seq<Option<bytes>>, nonces: seq<Nonce>): (calls: seq<Call>)
    requires |contents| == |nonces|
    ensures |calls| == |contents|
  {
    seq(|contents|, k requires 0 <= k < |contents| => Call(k, contents[k], nonces[k]))
  }

  function Blobs(s: Suite, key: bytes, staged: seq<Staged>, calls: seq<Call>): (r: seq<bytes>)
    requires |calls| <= |staged|
    ensures |r| == |calls|
  {
    seq(|calls|, k requires 0 <= k < |calls| => BlobFor(s, key, staged[k], calls[k]))
  }

  /** Called once for each index in order, the blobs follow the front one after another. */
  lemma {:induction false} InOrderLayout(s: Suite, key: bytes, staged: seq<Staged>, b: Build, calls: seq<Call>)
    requires AllStaged(staged) && |b.entries| == |staged| && |calls| <= |staged|
    requires forall k :: 0 <= k < |calls| ==> calls[k].index == k
    ensures Nexts(s, key, staged, b, calls).file == b.file + Flatten(Blobs(s, key, staged, calls))
  {
    if calls != [] {
      var init, c := calls[..|calls| - 1], calls[|calls| - 1];
      InOrderLayout(s, key, staged, b, init);
      NextsStep(s, key, staged, b, calls);
      NextIs(s, key, staged, Nexts(s, key, staged, b, init), c);
      hide Nexts;
      hide Next;
      hide BlobFor;
      hide Flatten;
      var last := BlobFor(s, key, staged[|init|], c);
      assert Blobs(s, key, staged, calls) == Blobs(s, key, staged, init) + [last];
      FlattenSnoc(Blobs(s, key, staged, init), last);
      Glue(b.file, Flatten(Blobs(s, key, staged, init)), last);
    }
  }

  lemma Glue(a: bytes, b: bytes, c: bytes)
    ensures (a + b) + c == a + (b + c)
  {
  }

  /** kyber_archive_write's loop: it stops at the first failure. */
  function UntilError(s: Suite, key: bytes, staged: seq<Staged>, b: Build, calls: seq<Call>): (r: (Result<()>, Build))
    requires AllStaged(staged) && |b.entries| == |staged|
    ensures |r.1.entries| == |staged|
  {
    if calls == [] then (Ok(()), b)
    else
      var p := UntilError(s, key, staged, b, calls[..|calls| - 1]);
      if p.0.Err? then p else Next(s, key, staged, p.1, calls[|calls| - 1])
  }

  predicate AllSucceed(s: Suite, key: bytes, staged: seq<Staged>, b: Build, calls: seq<Call>)
    requires AllStaged(staged) && |b.entries| == |staged|
  {
    calls == []
    || var init := calls[..|calls| - 1];
       AllSucceed(s, key, staged, b, init)
       && Next(s, key, staged, Nexts(s, key, staged, b, init), calls[|calls| - 1]).0.Ok?
  }

  /** The one-shot form gets through exactly when every single call succeeds, and then leaves what they leave. */
  lemma {:induction false} OneShotSame(s: Suite, key: bytes, staged: seq<Staged>, b: Build, calls: seq<Call>)
    requires AllStaged(staged) && |b.entries| == |staged|
    ensures var r := UntilError(s, key, staged, b, calls);
            && (r.0.Ok? <==> AllSucceed(s, key, staged, b, calls))
            && (r.0.Ok? ==> r.1 == Nexts(s, key, staged, b, calls))
  {
    if calls != [] {
      OneShotSame(s, key, staged, b, calls[..|calls| - 1]);
      hide Next;
    }
  }

  /** extract_all over the first k entries into a directory; it stops at the first failure. */
  function ExtractAll(s: Suite, key: bytes, f: bytes, count: nat, entries: Option<seq<Entry>>, k: nat,
                      dir: map<bytes, bytes>): (Result<()>, map<bytes, bytes>)
    requires (entries.Some? ==> |entries.value| == count) && k <= count
  {
    if k == 0 then (Ok(()), dir)
    else
      var p := ExtractAll(s, key, f, count, entries, k - 1, dir);
      if p.0.Err? then p
      else
        match Extract(s, key, f, count, entries, k - 1)
        case Err(e) => (Err(e), p.1)
        case Ok(x) => (Ok(()), p.1[x.0 := x.1])
  }

  /** The last of the first k results with this name. */
  function LastNamed(got: seq<(bytes, bytes)>, k: nat, name: bytes): (r: Option<nat>)
    requires k <= |got|
    ensures r.Some? ==> r.value < k && got[r.value].0 == name && forall j :: r.value < j < k ==> got[j].0 != name
    ensures r.None? ==> forall j :: 0 <= j < k ==> got[j].0 != name
  {
    if k == 0 then None
    else if got[k - 1].0 == name then Some(k - 1)
    else LastNamed(got, k - 1, name)
  }

  /** Every file lands under its name; of several with one name the last stays; nothing else changes. */
  lemma {:induction false} AllExtracted(s: Suite, key: bytes, f: bytes, count: nat, entries: Option<seq<Entry>>, k: nat,
                                        dir: map<bytes, bytes>, got: seq<(bytes, bytes)>, name: bytes)
    requires (entries.Some? ==> |entries.value| == count) && k <= count == |got|
    requires forall i :: 0 <= i < count ==> Extract(s, key, f, count, entries, i) == Ok(got[i])
    ensures var r, last := ExtractAll(s, key, f, count, entries, k, dir), LastNamed(got, k, name);
            && r.0.Ok?
            && (last.Some? ==> name in r.1 && r.1[name] == got[last.value].1)
            && (last.None? ==> (name in r.1 <==> name in dir) && (name in dir ==> r.1[name] == dir[name]))
  {
    if k > 0 {
      AllExtracted(s, key, f, count, entries, k - 1, dir, got, name);
      assert Extract(s, key, f, count, entries, k - 1) == Ok(got[k - 1]);
      hide Extract;
    }
  }

  /** Every index written, by calls whose compression worked, at levels that fit the byte. */
  ghost predicate Covered(s: Suite, staged: seq<Staged>, calls: seq<Call>) {
    forall i :: 0 <= i < |staged| ==> LevelFits(staged[i].level) && CoveredAt(s, staged[i], Latest(calls, i))
  }

  predicate CoveredAt(s: Suite, r: Staged, l: Option<Call>)
    requires l.Some? ==> l.value.content.Some?
  {
    l.Some? && (l.value.content.value == [] || Packed(s, r.level, l.value.content.value).Some?)
  }

  /** The content of the latest call on each index under that file's name. */
  function Contents(s: Suite, staged: seq<Staged>, calls: seq<Call>): (r: seq<(bytes, bytes)>)
    requires Covered(s, staged, calls)
    ensures |r| == |staged|
  {
    seq(|staged|, i requires 0 <= i < |staged| =>
      assert CoveredAt(s, staged[i], Latest(calls, i));
      (staged[i].arcname, Latest(calls, i).value.content.value))
  }

  lemma ContentsExpected(s: Suite, key: bytes, staged: seq<Staged>, calls: seq<Call>, i: nat)
    requires Covered(s, staged, calls) && i < |staged|
    ensures Expected(s, key, staged, calls, i) == Ok(Contents(s, staged, calls)[i])
    ensures Latest(calls, i).Some? && Rejected(s, key, staged[i], Latest(calls, i).value)
  {
    assert CoveredAt(s, staged[i], Latest(calls, i));
  }

  /** The whole round trip: write every index at least once in any order, finish, open, unlock, extract all. */
  lemma WrittenThenExtracted(s: Suite, secret: bytes, param: byte, kem: bytes, key: bytes, staged: seq<Staged>,
                             calls: seq<Call>, tableNonce: Nonce, dir: map<bytes, bytes>, name: bytes)
    requires Sound(s) && s.decaps(secret, param, kem) == Some(key) && AllStaged(staged)
    requires |kem| < 0x1_0000 && 0 < |staged| && |staged| * ENTRY_SIZE < U32
    requires Sized(Nexts(s, key, staged, Begin(param, kem, |staged|), calls).file, calls)
    requires Covered(s, staged, calls)
    ensures var f, n := ArchiveOf(s, key, param, kem, staged, calls, tableNonce), |staged|;
            && OpenArchive(f).Ok? && OpenArchive(f).value.header.fileCount == n
            && var u := Unlock(s, f, OpenArchive(f).value, secret);
            && u.Ok? && u.value.0 == key && |u.value.1| == n
            && var r, last := ExtractAll(s, key, f, n, Some(u.value.1), n, dir), LastNamed(Contents(s, staged, calls), n, name);
            && r.0 == Ok(())
            && (last.Some? ==> name in r.1 && r.1[name] == Contents(s, staged, calls)[last.value].1)
            && (last.None? ==> (name in r.1 <==> name in dir) && (name in dir ==> r.1[name] == dir[name]))
  {
    var f, n, got := ArchiveOf(s, key, param, kem, staged, calls, tableNonce), |staged|, Contents(s, staged, calls);
    ContentsExpected(s, key, staged, calls, 0);
    AnyOrder(s, secret, param, kem, key, staged, calls, tableNonce, 0);
    var es := Unlock(s, f, OpenArchive(f).value, secret).value.1;
    forall i | 0 <= i < n
      ensures Extract(s, key, f, n, Some(es), i) == Ok(got[i])
    {
      hide *;
      ContentsExpected(s, key, staged, calls, i);
      AnyOrder(s, secret, param, kem, key, staged, calls, tableNonce, i);
    }
    hide *;
    AllExtracted(s, key, f, n, Some(es), n, dir, got, name);
  }
}
