/** The writing and the reading half of KyberArchive (src/archive.c) as objects that change step by step. */
module ArchiveIO {
  import opened Bytes
  import opened ArchiveFormat
  import opened Archive

  /** add_file's copy of the name into the 512-byte field, with its loop over the backslashes. */
  method StageName(arcname: bytes) returns (name: bytes)
    ensures name == Stage(arcname, 0).arcname && KeptUnder(name, arcname)
  {
    name := if |arcname| < NAME_SIZE then arcname else arcname[..NAME_SIZE - 1];
    ghost var was := name;
    for p := 0 to |name|
      invariant |name| == |was|
      invariant forall i :: p <= i < |was| ==> name[i] == was[i]
      invariant forall i :: 0 <= i < p ==> name[i] == if was[i] == 92 then 47 else was[i]
    {
      if name[p] == 92 {
        name := name[p := 47];
      }
    }
    assert name == Slashed(was);
  }

  /** The writing half: staged references, the entries under construction, and the output file. */
  class ArchiveWriter {
    const suite: Suite
    const param: byte
    const kem: bytes
    const key: bytes
    var staged: Option<seq<Staged>>
    var fileCount: nat
    var entries: seq<Entry>
    var file: bytes
    var writing: bool
    var tableEncLen: nat
    var tableNonce: bytes
    var tableTag: bytes

    ghost predicate Valid()
      reads this
    {
      && Sound(suite) && |kem| < 0x1_0000
      && (staged.Some? ==> AllStaged(staged.value) && |staged.value| == fileCount)
      && (writing ==> staged.Some? && |entries| == fileCount && tableEncLen == fileCount * ENTRY_SIZE < U32)
      && (writing ==> forall i :: 0 <= i < |entries| ==> EntryOk(entries[i]))
    }

    function Building(): Build
      reads this
    {
      Build(file, entries)
    }

    /** kyber_archive_create, given what encapsulation and key derivation return. */
    constructor (suite: Suite, param: byte, kem: bytes, key: bytes)
      requires Sound(suite) && |kem| < 0x1_0000
      ensures Valid() && !writing && staged == None && fileCount == 0
      ensures this.suite == suite && this.param == param && this.kem == kem && this.key == key
    {
      this.suite, this.param, this.kem, this.key := suite, param, kem, key;
      staged, fileCount, entries, file, writing := None, 0, [], [], false;
      tableEncLen, tableNonce, tableTag := 0, [], [];
    }

    method AddFile(found: bool, arcname: bytes, level: int) returns (r: Result<()>)
      requires Valid() && !writing && (staged.Some? || fileCount == 0) && 0 !in arcname
      modifies this
      ensures Valid() && !writing && file == old(file)
      ensures r == if found then Ok(()) else Err(IO)
      ensures r.Err? ==> staged == old(staged) && fileCount == old(fileCount)
      ensures r.Ok? ==> fileCount == old(fileCount) + 1
                        && staged == Some((if old(staged).Some? then old(staged.value) else []) + [Stage(arcname, level)])
      ensures r.Ok? ==> var added := staged.value[|staged.value| - 1];
                        KeptUnder(added.arcname, arcname) && added.level == level
    {
      if !found {
        return Err(IO);
      }
      var name := StageName(arcname);
      var refs := if staged.Some? then staged.value else [];
      staged := Some(refs + [Staged(name, level)]);
      fileCount := fileCount + 1;
      return Ok(());
    }

    method WriteBegin() returns (r: Result<()>)
      requires Valid() && fileCount * ENTRY_SIZE < U32
      modifies this
      ensures Valid() && staged == old(staged) && fileCount == old(fileCount)
      ensures r == if staged == None || fileCount == 0 then Err(InvalidParam) else Ok(())
      ensures r.Err? ==> unchanged(this)
      ensures r.Ok? ==> writing && Building() == Begin(param, kem, fileCount)
    {
      if staged == None || fileCount == 0 {
        return Err(InvalidParam);
      }
      entries := seq(fileCount, _ => BlankEntry());
      tableEncLen := fileCount * ENTRY_SIZE;
      var header := BuildHeader(Header(param, |kem|, tableEncLen, fileCount));
      file := header[..];
      file := file + kem;
      writing := true;
      return Ok(());
    }

    /** process_file for one staged reference, on the open output file. */
    method ProcessFileAt(i: nat, content: Option<bytes>, nonce: Nonce) returns (r: Result<()>)
      requires Valid() && writing && i < fileCount
      modifies `entries, `file
      ensures (r, Building()) == Next(suite, key, staged.value, old(Building()), Call(i, content, nonce))
    {
      var ref := staged.value[i];
      if content.None? {
        assert entries[i := entries[i]] == entries;
        return Err(IO);
      }
      var data := content.value;
      var e := BlankEntry();
      e := e.(name := NameField(ref.arcname));
      e := e.(originalSize := |data|, compression := ref.level % 256, nonce := nonce);
      if |data| == 0 {
        e := e.(compressedSize := 0, dataOffset := |file|);
        entries := entries[i := e];
        return Ok(());
      }
      var packed := if ref.level == 0 then Some(data) else suite.compress(data, ref.level);
      if packed.None? {
        entries := entries[i := e];
        return Err(Compress);
      }
      e := e.(compressedSize := |packed.value|);
      var sealed := suite.seal(key, nonce, packed.value);
      e := e.(tag := sealed.1, dataOffset := |file|);
      entries := entries[i := e];
      file := file + sealed.0;
      return Ok(());
    }

    method WriteNext(i: nat, content: Option<bytes>, nonce: Nonce) returns (r: Result<()>)
      requires Valid()
      requires writing ==> InRange(Next(suite, key, staged.value, Building(), Call(i, content, nonce)).1, content)
      modifies `entries, `file
      ensures Valid()
      ensures !old(writing) ==> r == Err(InvalidParam) && Building() == old(Building())
      ensures old(writing) ==>
                (r, Building()) == Next(suite, key, staged.value, old(Building()), Call(i, content, nonce))
    {
      if !writing || i >= fileCount {
        return Err(InvalidParam);
      }
      NextOk(suite, key, staged.value, Building(), Call(i, content, nonce));
      hide Next;
      r := ProcessFileAt(i, content, nonce);
    }

    /** The serialized table, filled entry by entry. */
    method SerializeTable() returns (table: array<byte>)
      requires Valid() && writing
      ensures fresh(table) && table[..] == Table(entries)
    {
      hide Table;
      hide Splice;
      hide SerializeEntry;
      hide EntryOk;
      hide Sound;
      ghost var es := entries;
      table := new byte[|entries| * ENTRY_SIZE](_ => 0);
      ghost var was: bytes := table[..];
      SpliceNone(was, 0);
      TableNone();
      assert es[..0] == [];
      for i := 0 to |entries|
        invariant entries == es && |Table(es[..i])| == i * ENTRY_SIZE
        invariant table[..] == Splice(was, 0, Table(es[..i]))
      {
        TableStep(es, i);
        SpliceTwice(was, 0, Table(es[..i]), SerializeEntry(es[i]));
        SerializeInto(table, i * ENTRY_SIZE, entries[i]);
      }
      assert es[..|es|] == es;
      SpliceAll(was, Table(es));
    }

    /** The loop of kyber_archive_write: every file in order until one fails. */
    method WriteEach(contents: seq<Option<bytes>>, nonces: seq<Nonce>) returns (r: Result<()>)
      requires Valid() && writing && |contents| == |nonces| == fileCount
      requires AllInRange(suite, key, staged.value, Building(), InOrder(contents, nonces))
      modifies `entries, `file
      ensures Valid()
      ensures (r, Building()) == UntilError(suite, key, staged.value, old(Building()), InOrder(contents, nonces))
    {
      ghost var calls, refs, b0 := InOrder(contents, nonces), staged.value, Building();
      assert calls[..0] == [];
      r := Ok(());
      for i := 0 to fileCount
        invariant Valid()
        invariant UntilError(suite, key, refs, b0, calls[..i]) == (Ok(()), Building())
      {
        InRangeAt(suite, key, refs, b0, calls, i);
        UntilErrorStep(suite, key, refs, b0, calls, i);
        assert calls[i] == Call(i, contents[i], nonces[i]);
        hide UntilError;
        hide Next;
        hide Nexts;
        hide InRange;
        hide EntryOk;
        hide Sound;
        hide AllStaged;
        r := WriteNext(i, contents[i], nonces[i]);
        if r.Err? {
          UntilErrorStays(suite, key, refs, b0, calls, i + 1);
          return;
        }
      }
      r := Ok(());
      assert calls[..fileCount] == calls;
    }

    /** kyber_archive_write: begin, every file in order, the table. */
    method Write(contents: seq<Option<bytes>>, nonces: seq<Nonce>, nonce: Nonce) returns (r: Result<()>)
      requires Valid() && !writing && fileCount * ENTRY_SIZE < U32 && |contents| == |nonces| == fileCount
      requires staged.Some? ==> AllInRange(suite, key, staged.value, Begin(param, kem, fileCount), InOrder(contents, nonces))
      modifies this
      ensures Valid() && fileCount == old(fileCount) && !writing
      ensures old(staged) == None || fileCount == 0 ==> r == Err(InvalidParam) && unchanged(this)
      ensures old(staged).Some? && fileCount > 0 ==>
                var p := UntilError(suite, key, old(staged.value), Begin(param, kem, fileCount), InOrder(contents, nonces));
                && r == p.0
                && (r.Ok? ==> staged == None
                              && file == ArchiveOf(suite, key, param, kem, old(staged.value), InOrder(contents, nonces), nonce))
                && (r.Err? ==> staged == old(staged) && Building() == p.1)
    {
      hide UntilError;
      hide AllInRange;
      hide Begin;
      hide InOrder;
      hide Finish;
      r := WriteBegin();
      if r.Err? {
        return;
      }
      ghost var refs, b0 := staged.value, Building();
      r := WriteEach(contents, nonces);
      if r.Err? {
        writing := false;
        return;
      }
      assert r == Ok(()) by {
        assert r.value == ();
      }
      OneShotSame(suite, key, refs, b0, InOrder(contents, nonces));
      r := WriteFinish(nonce);
    }

    method WriteFinish(nonce: Nonce) returns (r: Result<()>)
      requires Valid()
      modifies this
      ensures Valid() && fileCount == old(fileCount) && entries == old(entries)
      ensures r == if old(writing) then Ok(()) else Err(InvalidParam)
      ensures r.Err? ==> unchanged(this)
      ensures r.Ok? ==> !writing && staged == None && file == Finish(suite, key, old(Building()), nonce)
    {
      if !writing {
        return Err(InvalidParam);
      }
      var table := SerializeTable();
      tableNonce := nonce;
      var sealed := suite.seal(key, tableNonce, table[..]);
      tableTag := sealed.1;
      file := file + tableNonce;
      file := file + tableTag;
      file := file + sealed.0;
      writing := false;
      staged := None;
      return Ok(());
    }
  }

  /** One step stays within the 64-bit fields. */
  predicate InRange(after: Build, content: Option<bytes>) {
    |after.file| < U64 && (content.Some? ==> |content.value| < U64)
  }

  lemma NextOk(s: Suite, key: bytes, staged: seq<Staged>, b: Build, c: Call)
    requires Sound(s) && AllStaged(staged) && |b.entries| == |staged|
    requires forall i :: 0 <= i < |staged| ==> EntryOk(b.entries[i])
    requires InRange(Next(s, key, staged, b, c).1, c.content)
    ensures forall i :: 0 <= i < |staged| ==> EntryOk(Next(s, key, staged, b, c).1.entries[i])
  {
  }

  /** The calls stay within the 64-bit fields. */
  ghost predicate AllInRange(s: Suite, key: bytes, staged: seq<Staged>, b: Build, calls: seq<Call>)
    requires AllStaged(staged) && |b.entries| == |staged|
  {
    Sized(Nexts(s, key, staged, b, calls).file, calls)
  }

  lemma InRangeAt(s: Suite, key: bytes, staged: seq<Staged>, b: Build, calls: seq<Call>, i: nat)
    requires AllStaged(staged) && |b.entries| == |staged| && i < |calls| && AllInRange(s, key, staged, b, calls)
    ensures InRange(Next(s, key, staged, Nexts(s, key, staged, b, calls[..i]), calls[i]).1, calls[i].content)
  {
    var m := Nexts(s, key, staged, b, calls[..i + 1]);
    assert calls[..i + 1][..i] == calls[..i];
    NextsStep(s, key, staged, b, calls[..i + 1]);
    NextsSplit(s, key, staged, b, calls, i + 1);
    NextsGrow(s, key, staged, m, calls[i + 1..]);
    hide Next;
    hide Nexts;
  }

  lemma {:induction false} NextsSplit(s: Suite, key: bytes, staged: seq<Staged>, b: Build, calls: seq<Call>, i: nat)
    requires AllStaged(staged) && |b.entries| == |staged| && i <= |calls|
    ensures Nexts(s, key, staged, b, calls) == Nexts(s, key, staged, Nexts(s, key, staged, b, calls[..i]), calls[i..])
  {
    var n := |calls|;
    if i == n {
      assert calls[..i] == calls;
    } else {
      NextsSplit(s, key, staged, b, calls[..n - 1], i);
      assert calls[..n - 1][..i] == calls[..i];
      assert calls[i..][..n - 1 - i] == calls[..n - 1][i..] && calls[i..][n - 1 - i] == calls[n - 1];
    }
  }

  lemma UntilErrorStep(s: Suite, key: bytes, staged: seq<Staged>, b: Build, calls: seq<Call>, i: nat)
    requires AllStaged(staged) && |b.entries| == |staged| && i < |calls|
    ensures var p := UntilError(s, key, staged, b, calls[..i]);
            && (p.0.Ok? ==> UntilError(s, key, staged, b, calls[..i + 1]) == Next(s, key, staged, p.1, calls[i]))
            && (p.0.Ok? ==> p.1 == Nexts(s, key, staged, b, calls[..i]))
  {
    assert calls[..i + 1][..i] == calls[..i];
    OneShotSame(s, key, staged, b, calls[..i]);
  }

  lemma {:induction false} UntilErrorStays(s: Suite, key: bytes, staged: seq<Staged>, b: Build, calls: seq<Call>, i: nat)
    requires AllStaged(staged) && |b.entries| == |staged| && i <= |calls|
    requires UntilError(s, key, staged, b, calls[..i]).0.Err?
    ensures UntilError(s, key, staged, b, calls) == UntilError(s, key, staged, b, calls[..i])
  {
    var n := |calls|;
    if i == n {
      assert calls[..i] == calls;
    } else {
      assert calls[..n - 1][..i] == calls[..i];
      UntilErrorStays(s, key, staged, b, calls[..n - 1], i);
    }
  }

  lemma TableNone()
    ensures Table([]) == []
  {
  }

  lemma TableStep(es: seq<Entry>, i: nat)
    requires i < |es| && forall j :: 0 <= j < |es| ==> EntryOk(es[j])
    ensures Table(es[..i + 1]) == Table(es[..i]) + SerializeEntry(es[i])
    ensures |Table(es[..i])| == i * ENTRY_SIZE && |SerializeEntry(es[i])| == ENTRY_SIZE
  {
    assert es[..i + 1][..i] == es[..i];
    TableAt(es[..i], 0);
  }

  lemma SpliceAll(s: bytes, p: bytes)
    requires |p| == |s|
    ensures Splice(s, 0, p) == p
  {
  }

  /** write_header's buffer, byte by byte. */
  method BuildHeader(h: Header) returns (header: array<byte>)
    ensures fresh(header) && header[..] == WriteHeader(h)
  {
    hide Splice;
    hide Le;
    header := new byte[HEADER_SIZE](_ => 0);
    ghost var zeros: bytes, got: bytes := header[..], MAGIC;
    CopyIn(header, 0, MAGIC);
    SpliceTwice(zeros, 0, got, [0]);
    SpliceByte(header[..], 4, 0);
    header[4] := 0;
    got := got + [0];
    SpliceTwice(zeros, 0, got, [1]);
    SpliceByte(header[..], 5, 1);
    header[5] := 1;
    got := got + [1];
    SpliceTwice(zeros, 0, got, [h.param]);
    SpliceByte(header[..], 6, h.param);
    header[6] := h.param;
    got := got + [h.param];
    SpliceTwice(zeros, 0, got, Le(h.kemLength, 2));
    PutLe2(header, 7, h.kemLength);
    got := got + Le(h.kemLength, 2);
    SpliceTwice(zeros, 0, got, Le(h.tableLength, 4));
    PutLe4(header, 9, h.tableLength);
    got := got + Le(h.tableLength, 4);
    SpliceTwice(zeros, 0, got, Le(h.fileCount, 4));
    PutLe4(header, 13, h.fileCount);
    got := got + Le(h.fileCount, 4);
    SpliceFront(zeros, got);
    assert zeros[17..] == Zeros(16);
    assert MAGIC + [0] + [1] == MAGIC + [0, 1];
  }

  lemma SpliceFront(s: bytes, p: bytes)
    requires |p| <= |s|
    ensures Splice(s, 0, p) == p + s[|p|..]
  {
  }

  /** The two shifted bytes of a 16-bit field. */
  method PutLe2(dst: array<byte>, off: nat, n: nat)
    requires off + 2 <= dst.Length
    modifies dst
    ensures dst[..] == Splice(old(dst[..]), off, Le(n, 2))
  {
    Le2(n);
    hide Le;
    dst[off], dst[off + 1] := n % 256, n / 256 % 256;
  }

  /** The four shifted bytes of a 32-bit field. */
  method PutLe4(dst: array<byte>, off: nat, n: nat)
    requires off + 4 <= dst.Length
    modifies dst
    ensures dst[..] == Splice(old(dst[..]), off, Le(n, 4))
  {
    Le4(n);
    hide Le;
    dst[off], dst[off + 1] := n % 256, n / 256 % 256;
    dst[off + 2], dst[off + 3] := n / 256 / 256 % 256, n / 256 / 256 / 256 % 256;
  }

  lemma Le2(n: nat)
    ensures Le(n, 2) == [n % 256, n / 256 % 256]
  {
    LeUnfold(n, 2);
    LeUnfold(n / 256, 1);
  }

  lemma Le4(n: nat)
    ensures Le(n, 4) == [n % 256, n / 256 % 256, n / 256 / 256 % 256, n / 256 / 256 / 256 % 256]
  {
    LeUnfold(n, 4);
    LeUnfold(n / 256, 3);
    Le2(n / 256 / 256);
    hide Le;
  }

  /** Incremental use: begin, the given calls whatever they return, finish. */
  method WriteCalls(w: ArchiveWriter, calls: seq<Call>, nonce: Nonce) returns (r: Result<()>)
    requires w.Valid() && w.fileCount * ENTRY_SIZE < U32
    requires w.staged.Some? ==> AllInRange(w.suite, w.key, w.staged.value, Begin(w.param, w.kem, w.fileCount), calls)
    modifies w
    ensures w.Valid() && w.fileCount == old(w.fileCount)
    ensures r == if old(w.staged) == None || w.fileCount == 0 then Err(InvalidParam) else Ok(())
    ensures r.Ok? ==> w.file == ArchiveOf(w.suite, w.key, w.param, w.kem, old(w.staged.value), calls, nonce)
  {
    r := w.WriteBegin();
    if r.Err? {
      return;
    }
    ghost var refs, b0 := w.staged.value, w.Building();
    assert calls[..0] == [];
    for i := 0 to |calls|
      invariant w.Valid() && w.writing && w.staged == Some(refs) && w.fileCount == |refs|
      invariant w.Building() == Nexts(w.suite, w.key, refs, b0, calls[..i])
      invariant AllInRange(w.suite, w.key, refs, b0, calls)
    {
      InRangeAt(w.suite, w.key, refs, b0, calls, i);
      assert calls[..i + 1][..i] == calls[..i];
      NextsStep(w.suite, w.key, refs, b0, calls[..i + 1]);
      hide *;
      var _ := w.WriteNext(calls[i].index, calls[i].content, calls[i].nonce);
    }
    assert calls[..|calls|] == calls;
    hide *;
    r := w.WriteFinish(nonce);
  }

  /** deserialize_entry at an offset of the decrypted table. */
  method DeserializeAt(table: array<byte>, base: nat) returns (e: Entry)
    requires base + ENTRY_SIZE <= table.Length
    ensures e == DeserializeEntry(table[base..base + ENTRY_SIZE])
  {
    var off := base;
    var name: bytes := table[off..off + NAME_SIZE - 1] + [0];
    off := off + NAME_SIZE;
    var original := ReadLe64(table, off);
    off := off + 8;
    var compressed := ReadLe64(table, off);
    off := off + 8;
    var offset := ReadLe64(table, off);
    off := off + 8;
    var nonce: bytes := table[off..off + NONCE_SIZE];
    off := off + NONCE_SIZE;
    var tag: bytes := table[off..off + TAG_SIZE];
    off := off + TAG_SIZE;
    e := Entry(name, original, compressed, offset, nonce, tag, table[off]);
    FieldSlices(table[..], base);
  }

  lemma FieldSlices(t: bytes, base: nat)
    requires base + ENTRY_SIZE <= |t|
    ensures var b := t[base..base + ENTRY_SIZE];
            && b[..511] == t[base..base + 511] && b[512..520] == t[base + 512..base + 520]
            && b[520..528] == t[base + 520..base + 528] && b[528..536] == t[base + 528..base + 536]
            && b[536..548] == t[base + 536..base + 548] && b[548..564] == t[base + 548..base + 564]
            && b[564] == t[base + 564]
  {
    Subslice(t, base, ENTRY_SIZE, 0, 511);
    Subslice(t, base, ENTRY_SIZE, 512, 520);
    Subslice(t, base, ENTRY_SIZE, 520, 528);
    Subslice(t, base, ENTRY_SIZE, 528, 536);
    Subslice(t, base, ENTRY_SIZE, 536, 548);
    Subslice(t, base, ENTRY_SIZE, 548, 564);
  }

  lemma Subslice(t: bytes, base: nat, n: nat, i: nat, j: nat)
    requires base + n <= |t| && i <= j <= n
    ensures t[base..base + n][i..j] == t[base + i..base + j]
  {
    var s := t[base..base + n];
    assert |s[i..j]| == |t[base + i..base + j]|;
    forall k | 0 <= k < j - i
      ensures s[i..j][k] == t[base + i..base + j][k]
    {
      assert s[i..j][k] == s[i + k] == t[base + (i + k)];
    }
  }

  /** unlock's loop. */
  method DeserializeTable(table: array<byte>, count: nat) returns (entries: seq<Entry>)
    requires ENTRY_SIZE * count <= table.Length
    ensures entries == ReadTable(table[..], count)
  {
    hide DeserializeEntry;
    entries := [];
    for i := 0 to count
      invariant |entries| == i
      invariant forall j :: 0 <= j < i ==> entries[j] == DeserializeEntry(table[..][ENTRY_SIZE * j..ENTRY_SIZE * j + ENTRY_SIZE])
    {
      var e := DeserializeAt(table, i * ENTRY_SIZE);
      assert table[i * ENTRY_SIZE..i * ENTRY_SIZE + ENTRY_SIZE] == table[..][ENTRY_SIZE * i..ENTRY_SIZE * i + ENTRY_SIZE];
      entries := entries + [e];
    }
  }

  /** The shifted bytes of a field or-ed together. */
  function Word(a: byte, b: byte, c: byte, d: byte): nat {
    var (x: int, y: int, z: int, w: int) := (a, b, c, d);
    x + 256 * y + 0x1_0000 * z + 0x100_0000 * w
  }

  /** read_header on the buffer read from the file. */
  method ParseHeader(header: array<byte>) returns (h: Option<Header>)
    requires header.Length == HEADER_SIZE
    ensures h == ReadHeader(header[..])
  {
    var b: bytes := header[..];
    if header[0] != 75 || header[1] != 89 || header[2] != 90 || (header[3] != 1 && header[3] != 2) {
      assert b[..3] == MAGIC[..3] ==> b[0] == MAGIC[..3][0] && b[1] == MAGIC[..3][1] && b[2] == MAGIC[..3][2];
      return None;
    }
    assert b[..3] == MAGIC[..3];
    var kemLength := Word(header[7], header[8], 0, 0);
    var tableLength := Word(header[9], header[10], header[11], header[12]);
    var fileCount := Word(header[13], header[14], header[15], header[16]);
    FromLe2(b[7..9]);
    FromLe4(b[9..13]);
    FromLe4(b[13..17]);
    hide FromLe;
    h := Some(Header(header[6], kemLength, tableLength, fileCount));
  }

  lemma FromLe2(s: bytes)
    requires |s| == 2
    ensures FromLe(s) == Word(s[0], s[1], 0, 0)
  {
    FromLeUnfold(s);
    FromLeUnfold(s[1..]);
  }

  lemma FromLe4(s: bytes)
    requires |s| == 4
    ensures FromLe(s) == Word(s[0], s[1], s[2], s[3])
  {
    FromLeUnfold(s);
    FromLeUnfold(s[1..]);
    FromLe2(s[2..]);
    assert s[1..][1..] == s[2..];
    hide FromLe;
  }

  /** The reading half, with the bytes at its path and the directory files are extracted into. */
  class ArchiveReader {
    const suite: Suite
    const disk: bytes
    const parts: Opened
    var key: bytes
    var entries: Option<seq<Entry>>
    var dir: map<bytes, bytes>

    ghost predicate Valid()
      reads this
    {
      && OpenArchive(disk) == Ok(parts)
      && (entries.Some? ==> |entries.value| == parts.header.fileCount)
    }

    constructor (suite: Suite, disk: bytes, parts: Opened, dir: map<bytes, bytes>)
      requires OpenArchive(disk) == Ok(parts)
      ensures Valid() && entries == None
      ensures this.suite == suite && this.disk == disk && this.parts == parts && this.dir == dir
    {
      this.suite, this.disk, this.parts, this.dir := suite, disk, parts, dir;
      key, entries := [], None;
    }

    /** kyber_archive_unlock; after a failure the entries are what they were. */
    method Unlock(secret: bytes) returns (r: Result<()>)
      requires Valid()
      modifies `key, `entries
      ensures Valid()
      ensures var u := Archive.Unlock(suite, disk, parts, secret);
              && (u.Ok? ==> r == Ok(()) && key == u.value.0 && entries == Some(u.value.1))
              && (u.Err? ==> r == Err(u.error) && entries == old(entries))
    {
      var h := parts.header;
      var secretKey := suite.decaps(secret, h.param, parts.kem);
      if secretKey.None? {
        return Err(Crypto);
      }
      key := secretKey.value;
      var plain := suite.unseal(key, parts.tableNonce, disk[|disk| - h.tableLength..], parts.tableTag);
      if plain.None? {
        return Err(Tampered);
      }
      var t := plain.value;
      if |t| < ENTRY_SIZE * h.fileCount {
        return Err(Overrun);
      }
      var table := new byte[|t|](i requires 0 <= i < |t| => t[i]);
      assert table[..] == t;
      hide ReadTable;
      var es := DeserializeTable(table, h.fileCount);
      entries := Some(es);
      return Ok(());
    }

    /** kyber_archive_extract_file into the directory. */
    method ExtractFile(index: nat) returns (r: Result<()>)
      requires Valid()
      modifies `dir
      ensures var x := Extract(suite, key, disk, parts.header.fileCount, entries, index);
              && (x.Ok? ==> r == Ok(()) && dir == old(dir)[x.value.0 := x.value.1])
              && (x.Err? ==> r == Err(x.error) && dir == old(dir))
    {
      if index >= parts.header.fileCount {
        return Err(InvalidParam);
      }
      if entries.None? {
        return Err(WrongKey);
      }
      hide CName;
      var e := entries.value[index];
      if e.originalSize == 0 {
        dir := dir[CName(e.name) := []];
        return Ok(());
      }
      if e.dataOffset + e.compressedSize > |disk| {
        return Err(IO);
      }
      var packed := suite.unseal(key, e.nonce, disk[e.dataOffset..e.dataOffset + e.compressedSize], e.tag);
      if packed.None? {
        return Err(Tampered);
      }
      var plain := packed.value;
      if e.compression == 0 {
        if |plain| < e.originalSize {
          return Err(Overrun);
        }
        plain := plain[..e.originalSize];
      } else {
        var inflated := suite.decompress(plain, e.originalSize);
        if inflated.None? {
          return Err(Compress);
        }
        plain := inflated.value;
      }
      dir := dir[CName(e.name) := plain];
      return Ok(());
    }

    method ExtractAllFiles() returns (r: Result<()>)
      requires Valid()
      modifies `dir
      ensures (r, dir) == ExtractAll(suite, key, disk, parts.header.fileCount, entries, parts.header.fileCount, old(dir))
    {
      hide Extract;
      r := Ok(());
      var n := parts.header.fileCount;
      for i := 0 to n
        invariant Valid()
        invariant (Ok(()), dir) == ExtractAll(suite, key, disk, n, entries, i, old(dir))
      {
        ExtractAllStep(suite, key, disk, n, entries, i, old(dir));
        r := ExtractFile(i);
        if r.Err? {
          ExtractAllStays(suite, key, disk, n, entries, i + 1, n, old(dir));
          return;
        }
      }
      r := Ok(());
    }
  }

  lemma ExtractAllStep(s: Suite, key: bytes, f: bytes, count: nat, entries: Option<seq<Entry>>, k: nat, dir: map<bytes, bytes>)
    requires (entries.Some? ==> |entries.value| == count) && k < count
    ensures var p := ExtractAll(s, key, f, count, entries, k, dir);
            p.0.Ok? ==> ExtractAll(s, key, f, count, entries, k + 1, dir)
                        == match Extract(s, key, f, count, entries, k)
                           case Err(e) => (Err(e), p.1)
                           case Ok(x) => (Ok(()), p.1[x.0 := x.1])
  {
  }

  lemma {:induction false} ExtractAllStays(s: Suite, key: bytes, f: bytes, count: nat, entries: Option<seq<Entry>>, k: nat, n: nat,
                                           dir: map<bytes, bytes>)
    requires (entries.Some? ==> |entries.value| == count) && k <= n <= count
    requires ExtractAll(s, key, f, count, entries, k, dir).0.Err?
    ensures ExtractAll(s, key, f, count, entries, n, dir) == ExtractAll(s, key, f, count, entries, k, dir)
  {
    hide Extract;
    if k < n {
      ExtractAllStays(s, key, f, count, entries, k, n - 1, dir);
    }
  }

  /** kyber_archive_open on the bytes at its path. */
  method OpenAt(suite: Suite, disk: bytes, dir: map<bytes, bytes>) returns (r: Result<ArchiveReader>)
    ensures OpenArchive(disk).Err? ==> r == Err(OpenArchive(disk).error)
    ensures OpenArchive(disk).Ok? ==>
              && r.Ok? && fresh(r.value) && r.value.Valid() && r.value.entries == None
              && r.value.suite == suite && r.value.disk == disk && r.value.dir == dir
              && r.value.parts == OpenArchive(disk).value
  {
    if |disk| < HEADER_SIZE {
      return Err(IO);
    }
    var header := new byte[HEADER_SIZE](i requires 0 <= i < HEADER_SIZE => disk[i]);
    var parsed := ParseHeader(header);
    assert header[..] == disk[..HEADER_SIZE];
    SameHeader(disk);
    hide ReadHeader;
    if parsed.None? {
      return Err(Format);
    }
    var h := parsed.value;
    if |disk| < HEADER_SIZE + h.kemLength {
      return Err(IO);
    }
    var kem := disk[HEADER_SIZE..HEADER_SIZE + h.kemLength];
    var block := NONCE_SIZE + TAG_SIZE + h.tableLength;
    if block > |disk| {
      return Err(Format);
    }
    var at := |disk| - block;
    var parts := Opened(h, kem, disk[at..at + NONCE_SIZE], disk[at + NONCE_SIZE..at + NONCE_SIZE + TAG_SIZE]);
    var reader := new ArchiveReader(suite, disk, parts, dir);
    return Ok(reader);
  }

  lemma SameHeader(b: bytes)
    requires |b| >= HEADER_SIZE
    ensures ReadHeader(b[..HEADER_SIZE]) == ReadHeader(b)
  {
    var a := b[..HEADER_SIZE];
    assert a[..3] == b[..3] && a[7..9] == b[7..9] && a[9..13] == b[9..13] && a[13..17] == b[13..17];
    hide FromLe;
  }

  /**
   A file opens exactly when it has a header's length and magic, the KEM ciphertext fits behind the header, and
   nonce, tag and table fit into the file; too short for the first two is an input error, else it is a foreign format.
   */
  lemma OpenExactly(b: bytes)
    ensures var x := OpenArchive(b);
            if |b| < 33 then x == Err(IO)
            else if !(b[0] == 75 && b[1] == 89 && b[2] == 90 && (b[3] == 1 || b[3] == 2)) then x == Err(Format)
            else if |b| < 33 + Word(b[7], b[8], 0, 0) then x == Err(IO)
            else if |b| < 28 + Word(b[9], b[10], b[11], b[12]) then x == Err(Format)
            else x.Ok? && x.value.header == Header(b[6], Word(b[7], b[8], 0, 0), Word(b[9], b[10], b[11], b[12]),
                                                   Word(b[13], b[14], b[15], b[16]))
                 && x.value.kem == b[33..33 + Word(b[7], b[8], 0, 0)]
  {
    if |b| >= 33 {
      FromLe2(b[7..9]);
      FromLe4(b[9..13]);
      FromLe4(b[13..17]);
      FirstThree(b);
    }
    hide FromLe;
    hide Word;
  }

  lemma FirstThree(b: bytes)
    requires |b| >= 3
    ensures b[..3] == MAGIC[..3] <==> b[0] == 75 && b[1] == 89 && b[2] == 90
  {
    assert b[..3] == [b[0], b[1], b[2]];
  }

  /** For the same nonces the one-shot form and the single calls in index order write the same bytes. */
  method WriteBothWays(a: ArchiveWriter, b: ArchiveWriter, contents: seq<Option<bytes>>, nonces: seq<Nonce>, nonce: Nonce)
    returns (once: Result<()>, stepwise: Result<()>)
    requires a != b && a.Valid() && b.Valid() && !a.writing
    requires a.suite == b.suite && a.param == b.param && a.kem == b.kem && a.key == b.key
    requires a.staged == b.staged && a.fileCount == b.fileCount == |contents| == |nonces|
    requires a.fileCount * ENTRY_SIZE < U32
    requires a.staged.Some? ==>
               AllInRange(a.suite, a.key, a.staged.value, Begin(a.param, a.kem, a.fileCount), InOrder(contents, nonces))
    modifies a, b
    ensures once.Ok? ==> stepwise.Ok? && a.file == b.file
  {
    hide AllInRange;
    hide UntilError;
    hide ArchiveOf;
    once := a.Write(contents, nonces, nonce);
    stepwise := WriteCalls(b, InOrder(contents, nonces), nonce);
  }

  /** Open, unlock, extract everything. */
  function Fetch(s: Suite, f: bytes, secret: bytes, dir: map<bytes, bytes>): (Result<()>, map<bytes, bytes>) {
    match OpenArchive(f)
    case Err(e) => (Err(e), dir)
    case Ok(o) =>
      match Archive.Unlock(s, f, o, secret)
      case Err(e) => (Err(e), dir)
      case Ok(u) => ExtractAll(s, u.0, f, o.header.fileCount, Some(u.1), o.header.fileCount, dir)
  }

  method ReadArchive(suite: Suite, disk: bytes, secret: bytes, dir: map<bytes, bytes>)
    returns (r: Result<()>, out: map<bytes, bytes>)
    ensures (r, out) == Fetch(suite, disk, secret, dir)
  {
    hide OpenArchive;
    hide ExtractAll;
    var reader := OpenAt(suite, disk, dir);
    if reader.Err? {
      return Err(reader.error), dir;
    }
    r := reader.value.Unlock(secret);
    if r.Ok? {
      r := reader.value.ExtractAllFiles();
    }
    out := reader.value.dir;
  }

  /** The directory has the last content written under the name, or what it had if there is none. */
  predicate Delivered(got: seq<(bytes, bytes)>, dir: map<bytes, bytes>, out: map<bytes, bytes>, name: bytes) {
    var last := LastNamed(got, |got|, name);
    && (last.Some? ==> name in out && out[name] == got[last.value].1)
    && (last.None? ==> (name in out <==> name in dir) && (name in dir ==> out[name] == dir[name]))
  }

  lemma FetchDelivers(s: Suite, secret: bytes, param: byte, kem: bytes, key: bytes, staged: seq<Staged>,
                      calls: seq<Call>, tableNonce: Nonce, dir: map<bytes, bytes>, name: bytes)
    requires Sound(s) && s.decaps(secret, param, kem) == Some(key) && AllStaged(staged)
    requires |kem| < 0x1_0000 && 0 < |staged| && |staged| * ENTRY_SIZE < U32
    requires Sized(Nexts(s, key, staged, Begin(param, kem, |staged|), calls).file, calls)
    requires Covered(s, staged, calls)
    ensures var x := Fetch(s, ArchiveOf(s, key, param, kem, staged, calls, tableNonce), secret, dir);
            x.0 == Ok(()) && Delivered(Contents(s, staged, calls), dir, x.1, name)
  {
    WrittenThenExtracted(s, secret, param, kem, key, staged, calls, tableNonce, dir, name);
    hide OpenArchive;
    hide Archive.Unlock;
    hide ExtractAll;
    hide ArchiveOf;
  }

  /** The whole life of an archive, on the objects: written in any order, then read back. */
  method WriteAndExtract(w: ArchiveWriter, calls: seq<Call>, nonce: Nonce, secret: bytes, dir: map<bytes, bytes>)
    returns (r: Result<()>, out: map<bytes, bytes>)
    requires w.Valid() && w.staged.Some? && w.fileCount > 0 && w.fileCount * ENTRY_SIZE < U32
    requires w.suite.decaps(secret, w.param, w.kem) == Some(w.key)
    requires AllInRange(w.suite, w.key, w.staged.value, Begin(w.param, w.kem, w.fileCount), calls)
    requires Covered(w.suite, w.staged.value, calls)
    modifies w
    ensures r == Ok(())
    ensures forall name :: Delivered(Contents(w.suite, old(w.staged.value), calls), dir, out, name)
  {
    ghost var refs := w.staged.value;
    r := WriteCalls(w, calls, nonce);
    r, out := ReadArchive(w.suite, w.file, secret, dir);
    FetchDelivers(w.suite, secret, w.param, w.kem, w.key, refs, calls, nonce, dir, []);
    forall name: bytes
      ensures Delivered(Contents(w.suite, refs, calls), dir, out, name)
    {
      FetchDelivers(w.suite, secret, w.param, w.kem, w.key, refs, calls, nonce, dir, name);
      hide *;
    }
  }

  /** What adding the files stages. */
  function StagedOf(files: seq<(bytes, int)>): (r: seq<Staged>)
    ensures |r| == |files|
    ensures forall i :: 0 <= i < |files| ==> KeptUnder(r[i].arcname, files[i].0) && r[i].level == files[i].1
    ensures (forall i :: 0 <= i < |files| ==> 0 !in files[i].0) ==> AllStaged(r)
  {
    seq(|files|, i requires 0 <= i < |files| => Stage(files[i].0, files[i].1))
  }

  /** Every file of a new archive, under the names and levels given. */
  method AddFiles(w: ArchiveWriter, files: seq<(bytes, int)>)
    requires w.Valid() && !w.writing && w.staged == None && w.fileCount == 0 && files != []
    requires forall i :: 0 <= i < |files| ==> 0 !in files[i].0
    modifies w
    ensures w.Valid() && !w.writing && w.fileCount == |files| && w.staged == Some(StagedOf(files))
  {
    hide KeptUnder;
    for i := 0 to |files|
      invariant w.Valid() && !w.writing && w.fileCount == i
      invariant w.staged == if i == 0 then None else Some(StagedOf(files)[..i])
    {
      assert StagedOf(files)[..i + 1] == StagedOf(files)[..i] + [Stage(files[i].0, files[i].1)];
      var _ := w.AddFile(true, files[i].0, files[i].1);
    }
    assert StagedOf(files)[..|files|] == StagedOf(files);
  }

  /** A stored name no later file has gives that file's latest content; a name nobody has is as it was. */
  lemma DeliveredAt(got: seq<(bytes, bytes)>, dir: map<bytes, bytes>, out: map<bytes, bytes>, name: bytes, k: nat)
    requires Delivered(got, dir, out, name)
    ensures k < |got| && got[k].0 == name && (forall j :: k < j < |got| ==> got[j].0 != name) ==>
              name in out && out[name] == got[k].1
    ensures (forall j :: 0 <= j < |got| ==> got[j].0 != name) ==>
              (name in out <==> name in dir) && (name in dir ==> out[name] == dir[name])
  {
  }

  /**
   From adding to extracting: every file is found under the name it was added under, cut at 511 bytes and with
   slashes for its backslashes, unless a later one has that name too; other names are untouched.
   */
  method AddWriteExtract(w: ArchiveWriter, files: seq<(bytes, int)>, calls: seq<Call>, nonce: Nonce, secret: bytes,
                         dir: map<bytes, bytes>)
    returns (r: Result<()>, out: map<bytes, bytes>, ghost names: seq<bytes>)
    requires w.Valid() && !w.writing && w.staged == None && w.fileCount == 0 && files != []
    requires forall i :: 0 <= i < |files| ==> 0 !in files[i].0
    requires |files| * ENTRY_SIZE < U32 && w.suite.decaps(secret, w.param, w.kem) == Some(w.key)
    requires AllInRange(w.suite, w.key, StagedOf(files), Begin(w.param, w.kem, |files|), calls)
    requires Covered(w.suite, StagedOf(files), calls)
    modifies w
    ensures r == Ok(()) && |names| == |files|
    ensures forall k :: 0 <= k < |files| ==> KeptUnder(names[k], files[k].0)
    ensures forall k :: 0 <= k < |files| ==> Latest(calls, k).Some?
    ensures forall k :: 0 <= k < |files| && (forall j :: k < j < |files| ==> names[j] != names[k]) ==>
              names[k] in out && out[names[k]] == Latest(calls, k).value.content.value
    ensures forall name :: name !in names ==> (name in out <==> name in dir) && (name in dir ==> out[name] == dir[name])
    ensures forall k :: 0 <= k < |files| && |files[k].0| < 512 && 92 !in files[k].0 ==> names[k] == files[k].0
  {
    ghost var refs, s := StagedOf(files), w.suite;
    names := seq(|files|, k requires 0 <= k < |files| => refs[k].arcname);
    AddFiles(w, files);
    r, out := WriteAndExtract(w, calls, nonce, secret, dir);
    hide *;
    FilesFound(s, files, calls, names, dir, out);
  }

  lemma FilesFound(s: Suite, files: seq<(bytes, int)>, calls: seq<Call>, names: seq<bytes>, dir: map<bytes, bytes>,
                   out: map<bytes, bytes>)
    requires Covered(s, StagedOf(files), calls) && |names| == |files|
    requires forall k :: 0 <= k < |files| ==> names[k] == StagedOf(files)[k].arcname
    requires forall name :: Delivered(Contents(s, StagedOf(files), calls), dir, out, name)
    ensures forall k :: 0 <= k < |files| ==> KeptUnder(names[k], files[k].0)
    ensures forall k :: 0 <= k < |files| ==> Latest(calls, k).Some?
    ensures forall k :: 0 <= k < |files| && (forall j :: k < j < |files| ==> names[j] != names[k]) ==>
              names[k] in out && out[names[k]] == Latest(calls, k).value.content.value
    ensures forall name :: name !in names ==> (name in out <==> name in dir) && (name in dir ==> out[name] == dir[name])
    ensures forall k :: 0 <= k < |files| && |files[k].0| < 512 && 92 !in files[k].0 ==> names[k] == files[k].0
  {
    var refs, got := StagedOf(files), Contents(s, StagedOf(files), calls);
    ContentsAt(s, refs, calls);
    forall k | 0 <= k < |files|
      ensures KeptUnder(names[k], files[k].0) && (|files[k].0| < 512 && 92 !in files[k].0 ==> names[k] == files[k].0)
    {
      KeptIs(names[k], names[k], files[k].0);
    }
    hide *;
    forall k | 0 <= k < |files| && (forall j :: k < j < |files| ==> names[j] != names[k])
      ensures names[k] in out && out[names[k]] == Latest(calls, k).value.content.value
    {
      DeliveredAt(got, dir, out, names[k], k);
    }
    forall name | name !in names
      ensures (name in out <==> name in dir) && (name in dir ==> out[name] == dir[name])
    {
      DeliveredAt(got, dir, out, name, 0);
    }
  }

  lemma ContentsAt(s: Suite, staged: seq<Staged>, calls: seq<Call>)
    requires Covered(s, staged, calls)
    ensures forall k :: 0 <= k < |staged| ==>
              && Latest(calls, k).Some?
              && Contents(s, staged, calls)[k] == (staged[k].arcname, Latest(calls, k).value.content.value)
  {
    forall k | 0 <= k < |staged|
      ensures Latest(calls, k).Some?
    {
      assert CoveredAt(s, staged[k], Latest(calls, k));
    }
    hide Latest;
  }
}
