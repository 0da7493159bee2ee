/**
 Sending and receiving one message (web/accounts_handlers.go): name framing, deflate, chunked sealing
 into the inbox, and back. Deflate is an abstract self-delimiting code and its inverse.
 */
module Pipeline {
  import opened Bytes
  import opened Stream
  import opened StreamIO

  /**
   `inflate` applied to the bytes seen so far: nothing until the whole code word is there. `sofar` is what
   the inflater has handed out by then.
   */
  datatype Zip = Zip(deflate: bytes -> bytes, inflate: bytes -> Option<bytes>, sofar: bytes -> bytes)

  ghost predicate Inverse(zip: Zip) {
    && (forall x: bytes :: zip.inflate(zip.deflate(x)) == Some(x))
    && (forall x: bytes, q: bytes :: q < zip.deflate(x) ==> zip.inflate(q) == None)
    && (forall x: bytes :: zip.sofar(zip.deflate(x)) == x)
    && (forall p: bytes, q: bytes :: p <= q ==> zip.sofar(p) <= zip.sofar(q))
  }

  lemma InflateDecides(zip: Zip, x: bytes, q: bytes)
    requires Inverse(zip) && q <= zip.deflate(x)
    ensures zip.inflate(q) == if q == zip.deflate(x) then Some(x) else None
    ensures zip.sofar(q) <= x && (q == zip.deflate(x) ==> zip.sofar(q) == x)
  {
    assert q == zip.deflate(x) || q < zip.deflate(x);
    assert zip.sofar(q) <= zip.sofar(zip.deflate(x));
  }

  /** The logical plaintext: the name behind its 16-bit little-endian length, then the data. */
  function Payload(name: bytes, data: bytes): bytes {
    Le(|name|, 2) + name + data
  }

  /** readFilename's answer on a payload, with what it leaves unread. */
  function ParsePayload(p: bytes): Option<(bytes, bytes)> {
    if |p| < 2 then None
    else
      var n := FromLe(p[..2]);
      if |p| < 2 + n then None else Some((p[2..2 + n], p[2 + n..]))
  }

  /** The length is cast to uint16 before it is written; the field keeps the same bytes. */
  lemma LowBytes(n: nat)
    ensures Le(n % 65536, 2) == Le(n, 2)
  {
    assert Le(n, 2) == [n % 256, n / 256 % 256];
    assert Le(n % 65536, 2) == [n % 65536 % 256, n % 65536 / 256 % 256];
    ModSplit(n, 256);
  }

  lemma NameLengthField(n: nat)
    ensures FromLe(Le(n, 2)) == n % 65536
  {
    LowBytes(n);
    assert Pow256(2) == 65536;
    FromLeOfLe(n % 65536, 2);
  }

  /** The framing is undone exactly when the name's length fits the 16-bit field. */
  lemma FramingExact(name: bytes, data: bytes)
    ensures ParsePayload(Payload(name, data)) == Some((name, data)) <==> |name| < 65536
    ensures var n := |name| % 65536;
            ParsePayload(Payload(name, data)) == Some((name[..n], name[n..] + data))
  {
    NameLengthField(|name|);
    var p, n := Payload(name, data), |name| % 65536;
    hide Le;
    hide FromLe;
    assert p[..2] == Le(|name|, 2);
    assert p[2..] == name + data;
    assert p[2..2 + n] == p[2..][..n] == name[..n];
    assert p[2 + n..] == p[2..][n..] == name[n..] + data;
    if |name| < 65536 {
      assert name[..n] == name && name[n..] + data == data;
    } else {
      assert |name[..n]| < |name|;
    }
  }

  /** A payload cut short, but not within its name, has the name and a part of the data. */
  lemma ParseCut(p: bytes, q: bytes)
    requires q <= p && ParsePayload(q).Some?
    ensures ParsePayload(p).Some? && ParsePayload(q).value.0 == ParsePayload(p).value.0
    ensures ParsePayload(q).value.1 <= ParsePayload(p).value.1
  {
    assert q[..2] == p[..2];
    var n := FromLe(q[..2]);
    hide FromLe;
    assert q[2..2 + n] == p[2..2 + n];
    assert p[2 + n..][..|q| - 2 - n] == q[2 + n..];
  }

  /** A source that hands out its bytes in order; `n` is countingReader's tally. */
  class ByteSource {
    const data: bytes
    var pos: nat
    var n: nat

    ghost predicate Valid()
      reads this
    {
      pos <= |data| && n == pos
    }

    constructor (data: bytes)
      ensures Valid() && this.data == data && pos == 0
    {
      this.data, pos, n := data, 0, 0;
    }

    /** countingReader.Read with a buffer of `size` bytes; nothing read means end of file. */
    method Read(size: nat) returns (p: bytes)
      requires Valid()
      modifies this
      ensures Valid() && pos == old(pos) + |p| && p == data[old(pos)..pos]
      ensures size > 0 && old(pos) < |data| ==> p != []
      ensures |p| <= size
    {
      var k := if size < |data| - pos then size else |data| - pos;
      p := data[pos..pos + k];
      pos := pos + k;
      n := n + k;
    }

    /** io.ReadFull: all of `size` bytes, or a short read that fails. */
    method ReadFull(size: nat) returns (p: Option<bytes>)
      requires Valid()
      modifies this
      ensures Valid()
      ensures p == (if old(pos) + size <= |data| then Some(data[old(pos)..old(pos) + size]) else None)
      ensures p.Some? ==> pos == old(pos) + size
    {
      var q: bytes := [];
      while |q| < size && pos < |data|
        invariant Valid() && |q| <= size
        invariant pos == old(pos) + |q| && q == data[old(pos)..pos]
        decreases size - |q|
      {
        var more := Read(size - |q|);
        q := q + more;
      }
      p := if |q| == size then Some(q) else None;
    }
  }

  method ReadFilename(r: ByteSource) returns (name: Option<bytes>)
    requires r.Valid() && r.pos == 0
    modifies r
    ensures r.Valid()
    ensures name == (match ParsePayload(r.data) case None => None case Some(x) => Some(x.0))
    ensures name.Some? ==> r.data[r.pos..] == ParsePayload(r.data).value.1
  {
    var nl := r.ReadFull(2);
    if nl.None? {
      return None;
    }
    var n := FromLe(nl.value);
    hide FromLe;
    assert r.data[..2] == nl.value;
    if n == 0 {
      assert r.data[2..2 + n] == [];
      return Some([]);
    }
    name := r.ReadFull(n);
  }

  /** io.Copy through the counting reader, in buffers of `size` bytes. */
  method CopyCounted(r: ByteSource, size: nat) returns (out: bytes)
    requires r.Valid() && r.pos == 0 && size > 0
    modifies r
    ensures out == r.data && r.n == |r.data|
  {
    out := [];
    while r.pos < |r.data|
      invariant r.Valid() && out == r.data[..r.pos]
      decreases |r.data| - r.pos
    {
      var p := r.Read(size);
      out := out + p;
    }
  }

  datatype Message = Message(blob: bytes, sealed: Ledger, format: Format, size: nat)

  datatype SendError = NoSuchUser | TooLarge

  /** What the recipient gets: nothing, the whole file, or a body that stopped midway. */
  datatype Reception = NotFound | Delivered(name: bytes, data: bytes) | Cut(name: bytes, sent: bytes)

  /** One recipient's inbox: the stored blobs and their metadata. */
  class Inbox {
    var messages: map<nat, Message>

    constructor ()
      ensures messages == map[]
    {
      messages := map[];
    }

    /**
     encryptAndStoreStream. `cut` is how the compressor hands its output to the sealing writer; it
     leaves no trace in what is stored.
     */
    method Send(zip: Zip, format: Format, cut: bytes -> seq<bytes>, id: nat, known: bool,
                name: bytes, data: bytes, maxFileBytes: nat)
      returns (e: Option<SendError>)
      requires format.Ok() && forall x: bytes :: Flatten(cut(x)) == x
      requires id !in messages
      modifies this
      ensures e == if !known then Some(NoSuchUser) else if |data| > maxFileBytes then Some(TooLarge) else None
      ensures e.Some? ==> messages == old(messages)
      ensures e.None? ==>
                var packed := zip.deflate(Payload(name, data));
                messages == old(messages)[id := Message(Blob(format, packed), LedgerOf(format, packed), format, |data|)]
    {
      if !known {
        return Some(NoSuchUser);
      }
      var nl := Le(|name| % 65536, 2);
      LowBytes(|name|);
      var src := new ByteSource(data);
      var body := CopyCounted(src, 32768);
      var packed := zip.deflate(nl + name + body);
      var blob, sealed := SealParts(format, cut(packed));
      messages := messages[id := Message(blob, sealed, format, src.n)];
      if src.n > maxFileBytes {
        messages := messages - {id};
        return Some(TooLarge);
      }
      e := None;
    }

    /**
     writeDecrypted, for a message whose ledger records the sealing of some payload but whose stored
     blob may be anything. Whatever reached the recipient is genuine: all of the data, or the name and a
     prefix of it; an intact blob is delivered whole; only a message delivered whole is deleted.
     */
    method Receive(zip: Zip, id: nat, bufSize: nat, ghost payload: bytes) returns (r: Reception)
      requires Inverse(zip) && bufSize > 0
      requires id in messages ==>
                 var m := messages[id];
                 && m.format.Ok()
                 && m.sealed == LedgerOf(m.format, zip.deflate(payload))
                 && Countable(m.format, zip.deflate(payload))
      modifies this
      ensures r.Delivered? ==> ParsePayload(payload) == Some((r.name, r.data))
      ensures r.Cut? ==> && ParsePayload(payload).Some?
                         && r.name == ParsePayload(payload).value.0 && r.sent <= ParsePayload(payload).value.1
      ensures id in old(messages) && old(messages)[id].blob == Blob(old(messages)[id].format, zip.deflate(payload))
              ==> !r.Cut? && (r.NotFound? <==> ParsePayload(payload).None?)
      ensures messages == if r.Delivered? then old(messages) - {id} else old(messages)
    {
      if id !in messages {
        return NotFound;
      }
      var m := messages[id];
      var plain, whole := OpenAndInflate(zip, m, bufSize, payload);
      var src := new ByteSource(plain);
      var name := ReadFilename(src);
      if name.None? {
        return NotFound;
      }
      ParseCut(payload, plain);
      var body := src.data[src.pos..];
      if !whole {
        return Cut(name.value, body);
      }
      messages := messages - {id};
      return Delivered(name.value, body);
    }
  }

  lemma BlobVersion(f: Format, p: bytes)
    requires f.chunk >= 1
    ensures |Blob(f, p)| > 0 && Blob(f, p)[0] == VERSION
  {
    hide Frame;
    hide Split;
  }

  /**
   The inflater pulls from the stream reader until its code word is complete or the stream fails. What it
   has handed out by then is a prefix of the payload, and all of it when the word was complete.
   */
  method OpenAndInflate(zip: Zip, m: Message, bufSize: nat, ghost payload: bytes) returns (plain: bytes, whole: bool)
    requires Inverse(zip) && bufSize > 0 && m.format.Ok()
    requires m.sealed == LedgerOf(m.format, zip.deflate(payload))
    requires Countable(m.format, zip.deflate(payload))
    ensures plain <= payload && (whole ==> plain == payload)
    ensures m.blob == Blob(m.format, zip.deflate(payload)) ==> whole
  {
    ghost var packed := zip.deflate(payload);
    BlobVersion(m.format, packed);
    hide Blob;
    hide LedgerOf;
    hide Flatten;
    hide Inverse;
    hide Countable;
    hide StreamReader.Valid;
    hide StreamReader.Honest;
    hide StreamReader.Plaintext;
    var r := NewStreamReader(m.format, m.sealed, m.blob, packed);
    if r == null {
      return [], false;
    }
    var seen: bytes := [];
    while zip.inflate(seen).None?
      invariant fresh(r) && r.Valid() && seen == r.delivered && seen <= packed
      invariant r.Plaintext() == packed
      invariant r.Honest() <==> m.blob == Blob(m.format, packed)
      decreases |packed| - |seen|
    {
      var p, e := r.Read(bufSize);
      if !e.Ok? {
        assert e.Eof? ==> seen == packed;
        InflateDecides(zip, payload, packed);
        InflateDecides(zip, payload, seen);
        return zip.sofar(seen), false;
      }
      seen := seen + p;
    }
    InflateDecides(zip, payload, seen);
    return zip.inflate(seen).value, true;
  }

  /** A message sent and fetched: name and data come back exactly when the name fits its length field. */
  method SendThenReceive(zip: Zip, format: Format, cut: bytes -> seq<bytes>, name: bytes, data: bytes,
                         maxFileBytes: nat, bufSize: nat)
    returns (sent: bool, r: Reception)
    requires format.Ok() && Inverse(zip) && bufSize > 0
    requires forall x: bytes :: Flatten(cut(x)) == x
    requires Countable(format, zip.deflate(Payload(name, data)))
    ensures sent <==> |data| <= maxFileBytes
    ensures sent ==> (r == Delivered(name, data) <==> |name| < 65536)
  {
    hide Blob;
    hide LedgerOf;
    var inbox := new Inbox();
    var e := inbox.Send(zip, format, cut, 0, true, name, data, maxFileBytes);
    sent := e.None?;
    r := NotFound;
    if sent {
      r := inbox.Receive(zip, 0, bufSize, Payload(name, data));
      FramingExact(name, data);
    }
  }
}
