/** The .kyz container's fixed-size records (include/archive.h, src/archive.c): header and file table. */
module ArchiveFormat {
  import opened Bytes

  const NAME_SIZE: nat := 512
  const NONCE_SIZE: nat := 12
  const TAG_SIZE: nat := 16
  const ENTRY_SIZE: nat := 565
  const HEADER_SIZE: nat := 33
  const U64: nat := 0x1_0000_0000_0000_0000
  const U32: nat := 0x1_0000_0000

  /** KyberFileEntry. */
  datatype Entry = Entry(
    name: bytes,
    originalSize: nat,
    compressedSize: nat,
    dataOffset: nat,
    nonce: bytes,
    tag: bytes,
    compression: byte)

  /** What the C struct can hold, with the name's last byte zero. */
  predicate EntryOk(e: Entry) {
    && |e.name| == NAME_SIZE && e.name[NAME_SIZE - 1] == 0
    && e.originalSize < U64 && e.compressedSize < U64 && e.dataOffset < U64
    && |e.nonce| == NONCE_SIZE && |e.tag| == TAG_SIZE
  }

  function Zeros(n: nat): (z: bytes)
    ensures |z| == n && forall i :: 0 <= i < n ==> z[i] == 0
  {
    seq(n, _ => 0)
  }

  /** An entry as calloc leaves it. */
  function BlankEntry(): (e: Entry)
    ensures EntryOk(e)
  {
    Entry(Zeros(NAME_SIZE), 0, 0, 0, Zeros(NONCE_SIZE), Zeros(TAG_SIZE), 0)
  }

  function SerializeEntry(e: Entry): (b: bytes)
    ensures EntryOk(e) ==> |b| == ENTRY_SIZE
  {
    e.name + Le(e.originalSize, 8) + Le(e.compressedSize, 8) + Le(e.dataOffset, 8)
    + e.nonce + e.tag + [e.compression]
  }

  function DeserializeEntry(b: bytes): Entry
    requires |b| == ENTRY_SIZE
  {
    Entry(b[..511] + [0], FromLe(b[512..520]), FromLe(b[520..528]), FromLe(b[528..536]),
          b[536..548], b[548..564], b[564])
  }

  lemma FieldsApart(a: bytes, b: bytes, c: bytes, d: bytes, e: bytes, f: bytes, g: bytes)
    requires |a| == 512 && |b| == |c| == |d| == 8 && |e| == 12 && |f| == 16 && |g| == 1
    ensures var s := a + b + c + d + e + f + g;
            && |s| == 565 && s[..511] == a[..511]
            && s[512..520] == b && s[520..528] == c && s[528..536] == d
            && s[536..548] == e && s[548..564] == f && s[564..] == g && s[564] == g[0]
  {
  }

  lemma Le64(n: nat)
    requires n < U64
    ensures FromLe(Le(n, 8)) == n
  {
    WidthIs64();
    FromLeOfLe(n, 8);
  }

  lemma WidthIs64()
    ensures Pow256(8) == U64 && Pow256(4) == U32
  {
    assert Pow256(4) == U32;
  }

  /** An entry survives the table. */
  lemma EntryRoundTrip(e: Entry)
    requires EntryOk(e)
    ensures |SerializeEntry(e)| == ENTRY_SIZE && DeserializeEntry(SerializeEntry(e)) == e
  {
    hide Le;
    hide FromLe;
    Le64(e.originalSize);
    Le64(e.compressedSize);
    Le64(e.dataOffset);
    FieldsApart(e.name, Le(e.originalSize, 8), Le(e.compressedSize, 8), Le(e.dataOffset, 8), e.nonce, e.tag, [e.compression]);
    assert e.name == e.name[..511] + [e.name[511]];
  }

  /** Where the documented fields of a table entry stand, numbers least significant byte first. */
  lemma EntryLayout(e: Entry)
    requires EntryOk(e)
    ensures var b := SerializeEntry(e);
            && |b| == 565 && b[..512] == e.name && FromLe(b[512..520]) == e.originalSize
            && FromLe(b[520..528]) == e.compressedSize && FromLe(b[528..536]) == e.dataOffset
            && b[536..548] == e.nonce && b[548..564] == e.tag && b[564] == e.compression
  {
    hide Le;
    hide FromLe;
    Le64(e.originalSize);
    Le64(e.compressedSize);
    Le64(e.dataOffset);
    FieldsApart(e.name, Le(e.originalSize, 8), Le(e.compressedSize, 8), Le(e.dataOffset, 8), e.nonce, e.tag, [e.compression]);
  }

  /** The plaintext table: entry i at offset i times the entry size. */
  function Table(es: seq<Entry>): bytes {
    if es == [] then [] else Table(es[..|es| - 1]) + SerializeEntry(es[|es| - 1])
  }

  lemma {:induction false} TableAt(es: seq<Entry>, i: nat)
    requires forall j :: 0 <= j < |es| ==> EntryOk(es[j])
    ensures |Table(es)| == ENTRY_SIZE * |es|
    ensures i < |es| ==> Table(es)[ENTRY_SIZE * i..ENTRY_SIZE * i + ENTRY_SIZE] == SerializeEntry(es[i])
  {
    hide SerializeEntry;
    if es != [] {
      var init, l := es[..|es| - 1], es[|es| - 1];
      TableAt(init, i);
      assert |SerializeEntry(l)| == ENTRY_SIZE;
      if i < |init| {
        assert init[i] == es[i];
        assert Table(es)[..|Table(init)|] == Table(init);
        assert Table(es)[ENTRY_SIZE * i..ENTRY_SIZE * i + ENTRY_SIZE]
               == Table(init)[ENTRY_SIZE * i..ENTRY_SIZE * i + ENTRY_SIZE];
      }
    }
  }

  /** unlock's loop over the decrypted table. */
  function ReadTable(t: bytes, n: nat): (es: seq<Entry>)
    requires ENTRY_SIZE * n <= |t|
    ensures |es| == n
  {
    seq(n, i requires 0 <= i < n => DeserializeEntry(t[ENTRY_SIZE * i..ENTRY_SIZE * i + ENTRY_SIZE]))
  }

  lemma TableRoundTrip(es: seq<Entry>)
    requires forall j :: 0 <= j < |es| ==> EntryOk(es[j])
    ensures |Table(es)| == ENTRY_SIZE * |es| && ReadTable(Table(es), |es|) == es
  {
    hide DeserializeEntry;
    hide SerializeEntry;
    hide Table;
    TableAt(es, 0);
    var r := ReadTable(Table(es), |es|);
    forall i | 0 <= i < |es|
      ensures r[i] == es[i]
    {
      TableAt(es, i);
      EntryRoundTrip(es[i]);
    }
  }

  datatype Header = Header(param: byte, kemLength: nat, tableLength: nat, fileCount: nat)

  predicate HeaderOk(h: Header) {
    h.kemLength < 0x1_0000 && h.tableLength < U32 && h.fileCount < U32
  }

  const MAGIC: bytes := [75, 89, 90, 2]

  /** write_header: magic, version 0.1, parameter set, three lengths, sixteen reserved bytes. */
  function WriteHeader(h: Header): (b: bytes)
    ensures |b| == HEADER_SIZE
  {
    MAGIC + [0, 1] + [h.param] + Le(h.kemLength, 2) + Le(h.tableLength, 4) + Le(h.fileCount, 4) + Zeros(16)
  }

  /** read_header on at least a header's worth of bytes; the version bytes are not looked at. */
  function ReadHeader(b: bytes): Option<Header>
    requires |b| >= HEADER_SIZE
  {
    if b[..3] != MAGIC[..3] || (b[3] != 1 && b[3] != 2) then None
    else Some(Header(b[6], FromLe(b[7..9]), FromLe(b[9..13]), FromLe(b[13..17])))
  }

  lemma HeaderRoundTrip(h: Header, rest: bytes)
    requires HeaderOk(h)
    ensures ReadHeader(WriteHeader(h) + rest) == Some(h)
  {
    WidthIs64();
    assert Pow256(2) == 0x1_0000;
    FromLeOfLe(h.kemLength, 2);
    FromLeOfLe(h.tableLength, 4);
    FromLeOfLe(h.fileCount, 4);
    hide Le;
    hide FromLe;
    hide Pow256;
    var s := WriteHeader(h) + rest;
    assert s[..3] == MAGIC[..3] && s[3] == 2 && s[6] == h.param;
    assert s[7..9] == Le(h.kemLength, 2);
    assert s[9..13] == Le(h.tableLength, 4);
    assert s[13..17] == Le(h.fileCount, 4);
  }

  /** Where the documented fields of the header stand. */
  lemma HeaderLayout(h: Header)
    requires HeaderOk(h)
    ensures var b := WriteHeader(h);
            && |b| == 33 && b[..4] == [75, 89, 90, 2] && b[6] == h.param
            && FromLe(b[7..9]) == h.kemLength && FromLe(b[9..13]) == h.tableLength && FromLe(b[13..17]) == h.fileCount
            && forall i :: 17 <= i < 33 ==> b[i] == 0
  {
    HeaderRoundTrip(h, []);
    hide Le;
    hide FromLe;
    var b := WriteHeader(h);
    assert b + [] == b;
  }

  /** `s` with `p` written over it at `off`. */
  function Splice(s: bytes, off: nat, p: bytes): (r: bytes)
    requires off + |p| <= |s|
    ensures |r| == |s|
  {
    s[..off] + p + s[off + |p|..]
  }

  lemma SpliceTwice(s: bytes, off: nat, p: bytes, q: bytes)
    requires off + |p| + |q| <= |s|
    ensures Splice(Splice(s, off, p), off + |p|, q) == Splice(s, off, p + q)
  {
    var r, n := Splice(s, off, p), off + |p|;
    assert r[..n] == s[..off] + p;
    assert r[n + |q|..] == s[n + |q|..];
    assert s[..off] + p + q + s[n + |q|..] == s[..off] + (p + q) + s[n + |q|..];
  }

  lemma SpliceByte(s: bytes, off: nat, b: byte)
    requires off < |s|
    ensures Splice(s, off, [b]) == s[off := b]
  {
  }

  lemma SpliceNone(s: bytes, off: nat)
    requires off <= |s|
    ensures Splice(s, off, []) == s
  {
  }

  /** memcpy into a buffer. */
  method CopyIn(dst: array<byte>, off: nat, src: bytes)
    requires off + |src| <= dst.Length
    modifies dst
    ensures dst[..] == Splice(old(dst[..]), off, src)
  {
    hide Splice;
    ghost var was: bytes := dst[..];
    SpliceNone(was, off);
    assert src[..0] == [];
    for i := 0 to |src|
      invariant dst[..] == Splice(was, off, src[..i])
    {
      assert src[..i + 1] == src[..i] + [src[i]];
      SpliceTwice(was, off, src[..i], [src[i]]);
      SpliceByte(dst[..], off + i, src[i]);
      dst[off + i] := src[i];
    }
    assert src[..|src|] == src;
  }

  method WriteLe64(dst: array<byte>, off: nat, val: nat)
    requires off + 8 <= dst.Length
    modifies dst
    ensures dst[..] == Splice(old(dst[..]), off, Le(val, 8))
  {
    hide *;
    ghost var was: bytes, written: bytes := dst[..], [];
    SpliceNone(was, off);
    var v, i := val, 0;
    while i < 8
      invariant i <= 8 && |written| == i && written + Le(v, 8 - i) == Le(val, 8)
      invariant dst[..] == Splice(was, off, written)
    {
      LeUnfold(v, 8 - i);
      SpliceTwice(was, off, written, [v % 256]);
      SpliceByte(dst[..], off + i, v % 256);
      dst[off + i] := v % 256;
      written := written + [v % 256];
      v := v / 256;
      i := i + 1;
    }
    assert written + Le(v, 0) == written;
  }

  lemma LeUnfold(n: nat, k: nat)
    requires k > 0
    ensures Le(n, k) == [n % 256] + Le(n / 256, k - 1)
  {
  }

  method ReadLe64(src: array<byte>, off: nat) returns (val: nat)
    requires off + 8 <= src.Length
    ensures val == FromLe(src[off..off + 8])
  {
    val := 0;
    var i := 7;
    while i >= 0
      invariant -1 <= i <= 7
      invariant val == FromLe(src[off + (i + 1)..off + 8])
    {
      ghost var s := src[off + i..off + 8];
      assert s[0] == src[off + i] && s[1..] == src[off + (i + 1)..off + 8];
      FromLeUnfold(s);
      val := val * 256 + src[off + i];
      i := i - 1;
    }
  }

  lemma FromLeUnfold(s: bytes)
    requires s != []
    ensures FromLe(s) == s[0] as int + 256 * FromLe(s[1..])
  {
  }

  /** serialize_entry: the fields at moving offsets of the table buffer, nothing outside them. */
  method SerializeInto(dst: array<byte>, base: nat, e: Entry)
    requires EntryOk(e) && base + ENTRY_SIZE <= dst.Length
    modifies dst
    ensures dst[..] == Splice(old(dst[..]), base, SerializeEntry(e))
  {
    hide Le;
    hide Splice;
    ghost var was: bytes := dst[..];
    ghost var got := e.name;
    var off := base;
    CopyIn(dst, off, e.name);
    off := off + NAME_SIZE;
    WriteLe64(dst, off, e.originalSize);
    SpliceTwice(was, base, got, Le(e.originalSize, 8));
    got := got + Le(e.originalSize, 8);
    off := off + 8;
    WriteLe64(dst, off, e.compressedSize);
    SpliceTwice(was, base, got, Le(e.compressedSize, 8));
    got := got + Le(e.compressedSize, 8);
    off := off + 8;
    WriteLe64(dst, off, e.dataOffset);
    SpliceTwice(was, base, got, Le(e.dataOffset, 8));
    got := got + Le(e.dataOffset, 8);
    off := off + 8;
    CopyIn(dst, off, e.nonce);
    SpliceTwice(was, base, got, e.nonce);
    got := got + e.nonce;
    off := off + NONCE_SIZE;
    CopyIn(dst, off, e.tag);
    SpliceTwice(was, base, got, e.tag);
    got := got + e.tag;
    off := off + TAG_SIZE;
    SpliceTwice(was, base, got, [e.compression]);
    SpliceByte(dst[..], off, e.compression);
    dst[off] := e.compression;
  }
}
