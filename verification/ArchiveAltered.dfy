/**
 Archives changed after they were written. The 33-byte header is not authenticated; the table and every
 file's blob are, each by its own nonce under the archive's key.
 */
module ArchiveAltered {
  import opened Bytes
  import opened ArchiveFormat
  import opened Archive
  import opened ArchiveIO

  /** Nothing but the sealing of p opens under this key and nonce. */
  ghost predicate OnlySealed(s: Suite, key: bytes, nonce: Nonce, p: bytes) {
    forall c: bytes, t: bytes :: s.unseal(key, nonce, c, t).Some? ==> c == s.seal(key, nonce, p).0 && t == s.seal(key, nonce, p).1
  }

  /** The finished archive with another number in the header's file count. */
  function WithCount(s: Suite, key: bytes, param: byte, kem: bytes, b: Build, tableNonce: Nonce, m: nat): bytes
    requires HEADER_SIZE <= |b.file|
  {
    var ct := s.seal(key, tableNonce, Table(b.entries));
    WriteHeader(Header(param, |kem|, |b.entries| * ENTRY_SIZE, m)) + b.file[HEADER_SIZE..] + tableNonce + ct.1 + ct.0
  }

  lemma {:induction false} ReadPrefix(t: bytes, n: nat, m: nat)
    requires m <= n && ENTRY_SIZE * n <= |t|
    ensures ReadTable(t, m) == ReadTable(t, n)[..m]
  {
    hide DeserializeEntry;
  }

  lemma {:induction false} TablePrefix(es: seq<Entry>, m: nat)
    requires m <= |es| && forall j :: 0 <= j < |es| ==> EntryOk(es[j])
    ensures |Table(es)| == ENTRY_SIZE * |es| && ReadTable(Table(es), m) == es[..m]
  {
    TableRoundTrip(es);
    hide Table;
    hide ReadTable;
    hide EntryOk;
    ReadPrefix(Table(es), |es|, m);
  }

  /** Two files alike behind their headers give the same for an entry that points behind them. */
  lemma SameBehindHeader(s: Suite, key: bytes, f: bytes, g: bytes, e: Entry)
    requires |f| == |g| && HEADER_SIZE <= |f| && f[HEADER_SIZE..] == g[HEADER_SIZE..]
    requires Live(e) ==> HEADER_SIZE <= e.dataOffset
    ensures ExtractEntry(s, key, f, e) == ExtractEntry(s, key, g, e)
  {
    var lo, hi := e.dataOffset, e.dataOffset + e.compressedSize;
    if hi <= |f| {
      if Live(e) {
        SliceBehind(f, HEADER_SIZE, lo, hi);
        SliceBehind(g, HEADER_SIZE, lo, hi);
      }
      assert f[lo..hi] == g[lo..hi];
    }
    hide CName;
  }

  lemma SliceBehind(f: bytes, from: nat, lo: nat, hi: nat)
    requires from <= lo <= hi <= |f|
    ensures f[lo..hi] == f[from..][lo - from..hi - from]
  {
    forall k | 0 <= k < hi - lo
      ensures f[lo..hi][k] == f[from..][lo - from..hi - from][k]
    {
      assert f[from..][lo - from + k] == f[lo + k];
    }
  }

  /**
   The count in the header decides what is there. A smaller one unlocks to that many of the first entries,
   a larger one reads past the table; and extracting all of the smaller archive succeeds or fails, and
   writes, exactly as the first steps of extracting the whole one: the other files are dropped silently.
   */
  lemma {:induction false} CountExactly(s: Suite, secret: bytes, param: byte, kem: bytes, key: bytes, b: Build, tableNonce: Nonce, m: nat)
    requires Sound(s) && s.decaps(secret, param, kem) == Some(key)
    requires |kem| < 0x1_0000 && |b.entries| * ENTRY_SIZE < U32 && m < U32
    requires Begin(param, kem, |b.entries|).file <= b.file
    requires forall i :: 0 <= i < |b.entries| ==> EntryOk(b.entries[i])
    ensures var f := WithCount(s, key, param, kem, b, tableNonce, m);
            && OpenArchive(f).Ok? && OpenArchive(f).value.header.fileCount == m
            && Unlock(s, f, OpenArchive(f).value, secret)
               == if m <= |b.entries| then Ok((key, b.entries[..m])) else Err(Overrun)
  {
    var n, es := |b.entries|, b.entries;
    var h := Header(param, |kem|, n * ENTRY_SIZE, m);
    TablePrefix(es, 0);
    SealOpens(s, key, tableNonce, Table(es));
    var ct := s.seal(key, tableNonce, Table(es));
    var blobs := CountLayout(s, key, param, kem, b, tableNonce, m);
    OpenParts(h, kem, blobs, tableNonce, ct.1, ct.0);
    hide OpenArchive;
    hide Unlock;
    hide Table;
    hide ReadTable;
    hide WriteHeader;
    hide WithCount;
    hide EntryOk;
    hide Sound;
    hide Begin;
    CountUnlocks(s, secret, WithCount(s, key, param, kem, b, tableNonce, m), Opened(h, kem, tableNonce, ct.1), key, es);
  }

  lemma CountLayout(s: Suite, key: bytes, param: byte, kem: bytes, b: Build, tableNonce: Nonce, m: nat) returns (blobs: bytes)
    requires Begin(param, kem, |b.entries|).file <= b.file
    ensures var ct := s.seal(key, tableNonce, Table(b.entries));
            WithCount(s, key, param, kem, b, tableNonce, m)
            == WriteHeader(Header(param, |kem|, |b.entries| * ENTRY_SIZE, m)) + kem + blobs + tableNonce + ct.1 + ct.0
  {
    var n := |b.entries|;
    var front := WriteHeader(Header(param, |kem|, n * ENTRY_SIZE, n)) + kem;
    blobs := b.file[|front|..];
    hide WriteHeader;
    hide Table;
    assert b.file == front + blobs;
    assert b.file[HEADER_SIZE..] == kem + blobs;
    var head := WriteHeader(Header(param, |kem|, n * ENTRY_SIZE, m));
    assert head + b.file[HEADER_SIZE..] == head + kem + blobs;
  }

  lemma {:induction false} CountUnlocks(s: Suite, secret: bytes, f: bytes, o: Opened, key: bytes, es: seq<Entry>)
    requires s.decaps(secret, o.header.param, o.kem) == Some(key)
    requires |f| >= NONCE_SIZE + TAG_SIZE + o.header.tableLength
    requires s.unseal(key, o.tableNonce, f[|f| - o.header.tableLength..], o.tableTag) == Some(Table(es))
    requires forall i :: 0 <= i < |es| ==> EntryOk(es[i])
    ensures Unlock(s, f, o, secret)
            == if o.header.fileCount <= |es| then Ok((key, es[..o.header.fileCount])) else Err(Overrun)
  {
    hide Table;
    hide ReadTable;
    hide EntryOk;
    hide Unlock;
    TablePrefix(es, 0);
    UnlockCases(s, secret, f, o, key);
    if o.header.fileCount <= |es| {
      TablePrefix(es, o.header.fileCount);
    }
  }

  lemma UnlockCases(s: Suite, secret: bytes, f: bytes, o: Opened, key: bytes)
    requires s.decaps(secret, o.header.param, o.kem) == Some(key)
    requires |f| >= NONCE_SIZE + TAG_SIZE + o.header.tableLength
    ensures var t := s.unseal(key, o.tableNonce, f[|f| - o.header.tableLength..], o.tableTag);
            && (t.None? ==> Unlock(s, f, o, secret) == Err(Tampered))
            && (t.Some? && |t.value| < ENTRY_SIZE * o.header.fileCount ==> Unlock(s, f, o, secret) == Err(Overrun))
            && (t.Some? && |t.value| >= ENTRY_SIZE * o.header.fileCount ==>
                  Unlock(s, f, o, secret) == Ok((key, ReadTable(t.value, o.header.fileCount))))
  {
    hide ReadTable;
  }

  /** The smaller archive is extracted like the front of the whole one. */
  lemma {:induction false} DroppedSilently(s: Suite, key: bytes, f: bytes, g: bytes, es: seq<Entry>, m: nat, k: nat, dir: map<bytes, bytes>)
    requires k <= m <= |es|
    requires |f| == |g| && HEADER_SIZE <= |f| && f[HEADER_SIZE..] == g[HEADER_SIZE..]
    requires forall i :: 0 <= i < |es| && Live(es[i]) ==> HEADER_SIZE <= es[i].dataOffset
    ensures ExtractAll(s, key, f, m, Some(es[..m]), k, dir) == ExtractAll(s, key, g, |es|, Some(es), k, dir)
  {
    hide ExtractEntry;
    if k > 0 {
      DroppedSilently(s, key, f, g, es, m, k - 1, dir);
      SameBehindHeader(s, key, f, g, es[k - 1]);
    }
  }

  lemma CountKeepsRest(s: Suite, key: bytes, param: byte, kem: bytes, b: Build, tableNonce: Nonce, m: nat)
    requires Begin(param, kem, |b.entries|).file <= b.file
    ensures var f, g := WithCount(s, key, param, kem, b, tableNonce, m), Finish(s, key, b, tableNonce);
            |f| == |g| && HEADER_SIZE <= |f| && f[HEADER_SIZE..] == g[HEADER_SIZE..]
  {
    hide WriteHeader;
    hide Table;
  }

  lemma LastNamedPrefix(got: seq<(bytes, bytes)>, m: nat, k: nat, name: bytes)
    requires k <= m <= |got|
    ensures LastNamed(got[..m], k, name) == LastNamed(got, k, name)
  {
  }

  /** What extracting the whole archive gives for each index, from the run that wrote it. */
  lemma {:induction false} EachExtracts(s: Suite, secret: bytes, param: byte, kem: bytes, key: bytes, staged: seq<Staged>,
                                        calls: seq<Call>, tableNonce: Nonce, i: nat)
    requires Sound(s) && s.decaps(secret, param, kem) == Some(key) && AllStaged(staged)
    requires |kem| < 0x1_0000 && |staged| * ENTRY_SIZE < U32 && i < |staged|
    requires Sized(Nexts(s, key, staged, Begin(param, kem, |staged|), calls).file, calls) && Covered(s, staged, calls)
    ensures var b := Nexts(s, key, staged, Begin(param, kem, |staged|), calls);
            Extract(s, key, Finish(s, key, b, tableNonce), |staged|, Some(b.entries), i) == Ok(Contents(s, staged, calls)[i])
  {
    var b0 := Begin(param, kem, |staged|);
    var b := Nexts(s, key, staged, b0, calls);
    ContentsExpected(s, key, staged, calls, i);
    AnyOrder(s, secret, param, kem, key, staged, calls, tableNonce, i);
    EntriesOk(s, key, staged, b0, calls);
    NextsGrow(s, key, staged, b0, calls);
    OpensAndUnlocks(s, secret, param, kem, key, b, tableNonce);
    hide Nexts;
    hide Begin;
    hide Extract;
    hide Unlock;
    hide OpenArchive;
    hide Finish;
    hide Sound;
  }

  lemma {:induction false} LiveBehind(s: Suite, key: bytes, param: byte, kem: bytes, staged: seq<Staged>, calls: seq<Call>)
    requires Sound(s) && AllStaged(staged)
    ensures var b := Nexts(s, key, staged, Begin(param, kem, |staged|), calls);
            forall i :: 0 <= i < |staged| && Live(b.entries[i]) ==> HEADER_SIZE <= b.entries[i].dataOffset
  {
    LiveBlobs(s, key, param, kem, staged, calls);
    hide Nexts;
    hide Live;
  }

  /**
   The silent drop, end to end: an archive with every file written, whose count is then lowered to m,
   opens, unlocks and is extracted with success, giving exactly the first m files.
   */
  lemma {:induction false} LoweredFetch(s: Suite, secret: bytes, param: byte, kem: bytes, key: bytes, staged: seq<Staged>,
                                        calls: seq<Call>, tableNonce: Nonce, m: nat, dir: map<bytes, bytes>, name: bytes)
    requires Sound(s) && s.decaps(secret, param, kem) == Some(key) && AllStaged(staged)
    requires |kem| < 0x1_0000 && m <= |staged| && |staged| * ENTRY_SIZE < U32
    requires Sized(Nexts(s, key, staged, Begin(param, kem, |staged|), calls).file, calls) && Covered(s, staged, calls)
    ensures var b := Nexts(s, key, staged, Begin(param, kem, |staged|), calls);
            HEADER_SIZE <= |b.file|
    ensures var b := Nexts(s, key, staged, Begin(param, kem, |staged|), calls);
            var x := Fetch(s, WithCount(s, key, param, kem, b, tableNonce, m), secret, dir);
            x.0 == Ok(()) && Delivered(Contents(s, staged, calls)[..m], dir, x.1, name)
  {
    var n, b0, got := |staged|, Begin(param, kem, |staged|), Contents(s, staged, calls);
    var b := Nexts(s, key, staged, b0, calls);
    NextsGrow(s, key, staged, b0, calls);
    EntriesOk(s, key, staged, b0, calls);
    LiveBehind(s, key, param, kem, staged, calls);
    CountExactly(s, secret, param, kem, key, b, tableNonce, m);
    CountKeepsRest(s, key, param, kem, b, tableNonce, m);
    var f, g := WithCount(s, key, param, kem, b, tableNonce, m), Finish(s, key, b, tableNonce);
    forall i | 0 <= i < n
      ensures Extract(s, key, g, n, Some(b.entries), i) == Ok(got[i])
    {
      EachExtracts(s, secret, param, kem, key, staged, calls, tableNonce, i);
      hide *;
    }
    FetchCount(s, secret, f, key, b.entries[..m], m, dir);
    DeliveredIs(got[..m], dir, ExtractAll(s, key, f, m, Some(b.entries[..m]), m, dir).1, name);
    hide *;
    DroppedSilently(s, key, f, g, b.entries, m, m, dir);
    AllExtracted(s, key, g, n, Some(b.entries), m, dir, got, name);
    LastNamedPrefix(got, m, m, name);
  }

  lemma FetchCount(s: Suite, secret: bytes, f: bytes, key: bytes, es: seq<Entry>, m: nat, dir: map<bytes, bytes>)
    requires OpenArchive(f).Ok? && OpenArchive(f).value.header.fileCount == m == |es|
    requires Unlock(s, f, OpenArchive(f).value, secret) == Ok((key, es))
    ensures Fetch(s, f, secret, dir) == ExtractAll(s, key, f, m, Some(es), m, dir)
  {
    hide OpenArchive;
    hide Unlock;
    hide ExtractAll;
  }

  lemma DeliveredIs(got: seq<(bytes, bytes)>, dir: map<bytes, bytes>, out: map<bytes, bytes>, name: bytes)
    ensures var last := LastNamed(got, |got|, name);
            Delivered(got, dir, out, name)
            <==> && (last.Some? ==> name in out && out[name] == got[last.value].1)
                 && (last.None? ==> (name in out <==> name in dir) && (name in dir ==> out[name] == dir[name]))
  {
  }

  /**
   Any file whatever that carries the archive's key and table nonce: it unlocks exactly when its tail is
   the sealed table untouched and its count does not go past it, and then to the first entries.
   */
  lemma {:induction false} AlteredUnlocks(s: Suite, secret: bytes, f: bytes, key: bytes, es: seq<Entry>, tableNonce: Nonce)
    requires Sound(s) && OpenArchive(f).Ok? && OpenArchive(f).value.tableNonce == tableNonce
    requires s.decaps(secret, OpenArchive(f).value.header.param, OpenArchive(f).value.kem) == Some(key)
    requires OnlySealed(s, key, tableNonce, Table(es)) && forall i :: 0 <= i < |es| ==> EntryOk(es[i])
    ensures var o := OpenArchive(f).value;
            var ct, u := s.seal(key, tableNonce, Table(es)), Unlock(s, f, o, secret);
            && o.header.tableLength <= |f|
            && (u.Ok? <==> f[|f| - o.header.tableLength..] == ct.0 && o.tableTag == ct.1 && o.header.fileCount <= |es|)
            && (u.Ok? ==> u.value == (key, es[..o.header.fileCount]))
  {
    OpenLong(f);
    hide *;
    TailDecides(s, secret, f, OpenArchive(f).value, key, es, tableNonce);
  }

  lemma {:induction false} TailDecides(s: Suite, secret: bytes, f: bytes, o: Opened, key: bytes, es: seq<Entry>, tableNonce: Nonce)
    requires Sound(s) && o.tableNonce == tableNonce && |f| >= NONCE_SIZE + TAG_SIZE + o.header.tableLength
    requires s.decaps(secret, o.header.param, o.kem) == Some(key)
    requires OnlySealed(s, key, tableNonce, Table(es)) && forall i :: 0 <= i < |es| ==> EntryOk(es[i])
    ensures var ct, u := s.seal(key, tableNonce, Table(es)), Unlock(s, f, o, secret);
            && (u.Ok? <==> f[|f| - o.header.tableLength..] == ct.0 && o.tableTag == ct.1 && o.header.fileCount <= |es|)
            && (u.Ok? ==> u.value == (key, es[..o.header.fileCount]))
  {
    var tail := f[|f| - o.header.tableLength..];
    hide *;
    OpensOnly(s, key, tableNonce, Table(es), tail, o.tableTag);
    if s.unseal(key, tableNonce, tail, o.tableTag).Some? {
      CountUnlocks(s, secret, f, o, key, es);
    } else {
      UnlockCases(s, secret, f, o, key);
    }
  }

  lemma OpensOnly(s: Suite, key: bytes, nonce: Nonce, p: bytes, c: bytes, t: bytes)
    requires Sound(s) && OnlySealed(s, key, nonce, p)
    ensures s.unseal(key, nonce, c, t)
            == if c == s.seal(key, nonce, p).0 && t == s.seal(key, nonce, p).1 then Some(p) else None
  {
    SealOpens(s, key, nonce, p);
  }

  lemma OpenLong(f: bytes)
    requires OpenArchive(f).Ok?
    ensures |f| >= NONCE_SIZE + TAG_SIZE + OpenArchive(f).value.header.tableLength
  {
    hide ReadHeader;
  }

  /**
   And what such a file gives for an entry the writer made: the file that was put in, exactly when its blob
   is still in its place; otherwise an error, and nothing else.
   */
  lemma AlteredExtracts(s: Suite, key: bytes, r: Staged, c: Call, e: Entry, written: bytes, f: bytes)
    requires Sound(s) && StagedOk(r) && c.content.Some? && Holds(s, key, r, c, e, written)
    requires Packed(s, r.level, c.content.value).Some?
    requires OnlySealed(s, key, c.nonce, Packed(s, r.level, c.content.value).value)
    ensures ExtractEntry(s, key, f, e)
            == if c.content.value == [] then Outcome(s, key, r, c)
               else if e.dataOffset + e.compressedSize > |f| then Err(IO)
               else if f[e.dataOffset..e.dataOffset + e.compressedSize] != BlobFor(s, key, r, c) then Err(Tampered)
               else Outcome(s, key, r, c)
  {
    var at: nat :| HoldsAt(s, key, r, c, e, written, at);
    NameFieldRead(r.arcname);
    hide CName;
    hide NameField;
    assert c.content.value[..|c.content.value|] == c.content.value;
    if c.content.value != [] && at + e.compressedSize <= |f| {
      var got, p := f[at..at + e.compressedSize], Packed(s, r.level, c.content.value).value;
      OpensOnly(s, key, c.nonce, p, got, e.tag);
    }
    hide Sound;
    hide OnlySealed;
  }
}
