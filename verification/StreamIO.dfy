/** The incremental writer and reader of web/stream.go, proved against the canonical blob. */
module StreamIO {
  import opened Bytes
  import opened Stream

  /**
   sealWriter. `dst` is the io.Writer's content so far and `sealed` the ledger of the key;
   `written` and `full` are what has been written and the chunks already flushed.
   */
  class SealWriter {
    const format: Format
    var counter: nat
    var buf: bytes
    var wroteVersion: bool
    var dst: bytes
    var sealed: Ledger

    ghost var full: seq<bytes>
    ghost var written: bytes
    ghost var closed: bool

    /** Consistent between flushes, where the buffer may be full. */
    ghost predicate Buffering()
      reads this
    {
      && format.Ok()
      && !closed
      && |buf| <= format.chunk
      && (forall i :: 0 <= i < |full| ==> |full[i]| == format.chunk)
      && counter == |full| % COUNTERS
      && written == Flatten(full) + buf
      && (!wroteVersion ==> full == [])
      && dst == (if wroteVersion then [VERSION] else []) + FullFrames(format, full)
      && sealed == SealedFull(format, full)
    }

    ghost predicate Open()
      reads this
    {
      Buffering() && |buf| < format.chunk
    }

    constructor (format: Format)
      requires format.Ok()
      ensures Open() && this.format == format
      ensures written == [] && dst == []
    {
      this.format := format;
      counter, buf, wroteVersion, dst, sealed := 0, [], false, [], map[];
      full, written, closed := [], [], false;
    }

    method WriteVersion()
      requires Buffering()
      modifies this
      ensures Buffering() && wroteVersion
      ensures buf == old(buf) && full == old(full) && written == old(written)
    {
      if wroteVersion {
        return;
      }
      dst := dst + [VERSION];
      wroteVersion := true;
    }

    /** One frame: length prefix, then the ciphertext under the next counter's nonce. */
    method Emit(last: bool)
      requires format.Ok() && counter == |full| % COUNTERS
      modifies `dst, `sealed, `counter
      ensures dst == old(dst) + Frame(format, |full|, last, buf)
      ensures sealed == old(sealed)[(StreamNonce(|full|, last), Sealed1(format, |full|, last, buf)) := buf]
      ensures counter == (|full| + 1) % COUNTERS
    {
      hide StreamNonce;
      NonceInjective(counter, last, |full|, last);
      var nonce := StreamNonce(counter, last);
      var ct := format.cipher(nonce, buf);
      sealed := sealed[(nonce, ct) := buf];
      dst := dst + Be(|ct|, 4);
      dst := dst + ct;
      counter := (counter + 1) % COUNTERS;
    }

    /** Seals the buffer as the next frame. A final frame completes the canonical blob. */
    method Flush(last: bool)
      requires Buffering() && wroteVersion
      requires last ==> |buf| < format.chunk
      requires !last ==> |buf| == format.chunk
      modifies this
      ensures written == old(written)
      ensures !last ==> Open() && wroteVersion && buf == []
      ensures last ==> dst == Blob(format, written) && sealed == LedgerOf(format, written) && closed
    {
      hide StreamNonce;
      hide Sealed1;
      Emit(last);
      if last {
        SplitUnique(format.chunk, full, buf);
        closed := true;
      } else {
        FlattenSnoc(full, buf);
        assert (full + [buf])[..|full|] == full;
        full := full + [buf];
      }
      buf := [];
    }

    method Write(p: bytes) returns (n: nat)
      requires Open()
      modifies this
      ensures Open() && wroteVersion
      ensures written == old(written) + p
      ensures n == |p|
    {
      hide FullFrames;
      hide SealedFull;
      hide Flatten;
      WriteVersion();
      n := |p|;
      var rest := p;
      while |rest| > 0
        invariant Open() && wroteVersion
        invariant written + rest == old(written) + p
        decreases |rest|
      {
        var space := format.chunk - |buf|;
        var take := if |rest| < space then |rest| else space;
        assert written + rest == (written + rest[..take]) + rest[take..];
        buf := buf + rest[..take];
        written := written + rest[..take];
        rest := rest[take..];
        if |buf| == format.chunk {
          Flush(false);
        }
      }
    }

    method Close()
      requires Open()
      modifies this
      ensures closed && written == old(written)
      ensures dst == Blob(format, written)
      ensures sealed == LedgerOf(format, written)
    {
      WriteVersion();
      Flush(true);
    }
  }

  datatype ReadError = Ok | Eof | BadStream | Truncated

  /**
   streamReader over the bytes `src`, of which `pos` are consumed. `sealed` is the ledger of the key,
   `full` and `rest` the chunks of the one message sealed under it.
   */
  class StreamReader {
    const format: Format
    const src: bytes
    const sealed: Ledger
    var pos: nat
    var counter: nat
    var buf: bytes
    var done: bool

    ghost const full: seq<bytes>
    ghost const rest: bytes
    ghost var count: nat
    ghost var delivered: bytes
    ghost var failed: bool

    ghost function Plaintext(): bytes {
      Flatten(full) + rest
    }

    ghost predicate Honest() {
      src == ChunkedBlob(format, full, rest)
    }

    /** What every sequence of calls keeps, whatever the input and whatever errors came before. */
    ghost predicate Valid()
      reads this
    {
      && format.Ok()
      && |full| < COUNTERS
      && (forall i :: 0 <= i < |full| ==> |full[i]| == format.chunk)
      && |rest| < format.chunk
      && sealed == ChunkedLedger(format, full, rest)
      && Progress(format, full, rest, src, pos, count, failed)
      && count <= |full| + 1
      && pos <= |src|
      && counter == count % COUNTERS
      && (done <==> count == |full| + 1)
      && delivered + buf == OpenedText(full, rest, count)
    }

    constructor Init(format: Format, sealed: Ledger, src: bytes, pos: nat, ghost full: seq<bytes>, ghost rest: bytes)
      requires format.Ok()
      requires |full| < COUNTERS
      requires forall i :: 0 <= i < |full| ==> |full[i]| == format.chunk
      requires |rest| < format.chunk
      requires sealed == ChunkedLedger(format, full, rest)
      requires pos == 1 <= |src| && src[0] == VERSION
      ensures Valid() && delivered == [] && !failed
      ensures this.format == format && this.src == src && this.full == full && this.rest == rest
    {
      this.format, this.sealed, this.src, this.pos := format, sealed, src, pos;
      this.full, this.rest := full, rest;
      counter, buf, done := 0, [], false;
      count, delivered, failed := 0, [], false;
    }

    method Next() returns (e: ReadError)
      requires Valid() && !done && buf == []
      modifies this
      ensures Valid() && delivered == old(delivered)
      ensures e.Ok? || e.BadStream? || e.Truncated?
      ensures e.Ok? ==> count == old(count) + 1 && pos >= old(pos) + 4 && failed == old(failed)
      ensures e.Ok? ==> buf == if old(count) == |full| then rest else full[old(count)]
      ensures !e.Ok? ==> failed && count == old(count) && buf == []
      ensures Honest() ==> e.Ok?
    {
      hide StreamNonce;
      hide Progress;
      hide ChunkedBlob;
      hide OpenedText;
      hide ChunkedLedger;
      hide Sealed1;
      if Honest() {
        HonestClean();
        HonestFrame(format, full, rest, src, pos, count);
      }
      if |src| - pos < 4 {
        Fail(|src|);
        return Truncated;
      }
      var clen := FromBe(src[pos..pos + 4]);
      if clen < format.tag || clen > format.chunk + format.tag {
        Fail(pos + 4);
        return BadStream;
      }
      if |src| - (pos + 4) < clen {
        Fail(|src|);
        return Truncated;
      }
      var ct := src[pos + 4..pos + 4 + clen];
      var last := pos + 4 + clen == |src|;
      var nonce := StreamNonce(counter, last);
      LedgerExact(format, full, rest, count, last, ct);
      if (nonce, ct) !in sealed {
        Fail(pos + 4 + clen);
        return BadStream;
      }
      Accept(clen, sealed[(nonce, ct)]);
      if last {
        done := true;
      }
      e := Ok;
    }

    /** The frame opened to `plain`: take it, leaving only the end-of-stream flag to set. */
    method Accept(clen: nat, plain: bytes)
      requires Valid() && !done && buf == []
      requires pos + 4 + clen <= |src|
      requires FromBe(src[pos..pos + 4]) == clen
      requires src[pos + 4..pos + 4 + clen] == SealedAt(format, full, rest, count)
      requires pos + 4 + clen == |src| <==> count == |full|
      requires plain == if count == |full| then rest else full[count]
      modifies `pos, `counter, `count, `buf
      ensures pos == old(pos) + 4 + clen && count == old(count) + 1
      ensures Progress(format, full, rest, src, pos, count, failed)
      ensures counter == count % COUNTERS && buf == plain
      ensures delivered + buf == OpenedText(full, rest, count)
    {
      hide Progress;
      hide ChunkedBlob;
      hide OpenedText;
      hide ChunkedLedger;
      hide Sealed1;
      AcceptFrame(format, full, rest, src, pos, count, failed, clen);
      OpenedNext(full, rest, count);
      pos := pos + 4 + clen;
      counter := (counter + 1) % COUNTERS;
      count := count + 1;
      buf := plain;
    }

    lemma OpenedIsPrefix()
      requires Valid()
      ensures delivered <= Plaintext()
    {
      if count <= |full| {
        OpenedNext(full, rest, count);
      }
    }

    lemma DoneMeansAll()
      requires Valid() && done && buf == []
      ensures delivered == Plaintext() && (!failed ==> Honest())
    {
    }

    lemma HonestClean()
      requires Valid()
      ensures Honest() ==> !failed
    {
    }

    /** An error leaves the source past whatever was read and opens nothing. */
    method Fail(at: nat)
      requires Valid() && !Honest() && !done
      requires pos <= at <= |src|
      modifies `pos, `failed
      ensures Valid() && failed && pos == at
    {
      pos, failed := at, true;
    }

    /**
     Copies up to `size` bytes. Whatever the input, what has been delivered so far is a prefix of the
     plaintext, and end of file without an earlier error happens only on the writer's exact blob.
     */
    method Read(size: nat) returns (p: bytes, e: ReadError)
      requires Valid()
      modifies this
      ensures Valid()
      ensures delivered == old(delivered) + p && delivered <= Plaintext()
      ensures |p| <= size && (e.Ok? && size > 0 ==> |p| > 0) && (!e.Ok? ==> p == [])
      ensures e.Eof? ==> p == [] && delivered == Plaintext() && failed == old(failed)
      ensures e.Eof? && !failed ==> Honest()
      ensures e.BadStream? || e.Truncated? ==> failed
      ensures e.Ok? ==> failed == old(failed)
      ensures Honest() ==> e.Ok? || e.Eof?
    {
      hide Progress;
      while |buf| == 0
        invariant Valid() && delivered == old(delivered) && failed == old(failed)
        decreases |src| - pos
      {
        if done {
          DoneMeansAll();
          return [], Eof;
        }
        var err := Next();
        if !err.Ok? {
          OpenedIsPrefix();
          return [], err;
        }
      }
      var n := if size < |buf| then size else |buf|;
      p := buf[..n];
      assert delivered + buf == (delivered + p) + buf[n..];
      delivered := delivered + p;
      buf := buf[n..];
      OpenedIsPrefix();
      e := Ok;
    }
  }

  /** newStreamReader: the version byte must be there and be 2. */
  method NewStreamReader(format: Format, sealed: Ledger, src: bytes, ghost plaintext: bytes)
    returns (r: StreamReader?)
    requires format.Ok()
    requires sealed == LedgerOf(format, plaintext)
    requires Countable(format, plaintext)
    ensures r == null <==> src == [] || src[0] != VERSION
    ensures r != null ==>
              && fresh(r) && r.Valid() && r.delivered == [] && !r.failed
              && r.src == src
              && r.Plaintext() == plaintext
              && (r.Honest() <==> src == Blob(format, plaintext))
  {
    if src == [] || src[0] != VERSION {
      return null;
    }
    ghost var (full, rest) := Split(format.chunk, plaintext);
    SplitCount(format.chunk, plaintext);
    hide Split;
    hide Flatten;
    hide ChunkedBlob;
    hide ChunkedLedger;
    r := new StreamReader.Init(format, sealed, src, 1, full, rest);
  }

  /** Seals a plaintext written in pieces of any size: the pieces do not show in the result. */
  method SealParts(format: Format, parts: seq<bytes>) returns (blob: bytes, sealed: Ledger)
    requires format.Ok()
    ensures blob == Blob(format, Flatten(parts))
    ensures sealed == LedgerOf(format, Flatten(parts))
  {
    var w := new SealWriter(format);
    for i := 0 to |parts|
      invariant w.Open() && w.format == format
      invariant w.written == Flatten(parts[..i])
    {
      FlattenTake(parts, i);
      var _ := w.Write(parts[i]);
    }
    assert parts[..|parts|] == parts;
    w.Close();
    blob, sealed := w.dst, w.sealed;
  }

  /**
   Reads any input with buffers of the given sizes, stopping at end of file or the first error.
   Only the blob itself reaches end of file; on the blob, positive sizes deliver all of it.
   */
  method ReadSizes(format: Format, sealed: Ledger, src: bytes, sizes: seq<nat>, ghost plaintext: bytes)
    returns (data: bytes, e: ReadError)
    requires format.Ok()
    requires sealed == LedgerOf(format, plaintext)
    requires Countable(format, plaintext)
    ensures data <= plaintext
    ensures e.Eof? ==> src == Blob(format, plaintext) && data == plaintext
    ensures src == Blob(format, plaintext) ==> e.Ok? || e.Eof?
    ensures e.Ok? && (forall i :: 0 <= i < |sizes| ==> sizes[i] > 0) ==> |data| >= |sizes|
    ensures (&& src == Blob(format, plaintext)
             && |sizes| > |plaintext|
             && (forall i :: 0 <= i < |sizes| ==> sizes[i] > 0)) ==> e.Eof?
  {
    var r := NewStreamReader(format, sealed, src, plaintext);
    if r == null {
      return [], BadStream;
    }
    data, e := [], Ok;
    var i := 0;
    while i < |sizes| && e.Ok?
      invariant i <= |sizes|
      invariant fresh(r) && r.Valid() && data == r.delivered && data <= plaintext
      invariant r.src == src && r.Plaintext() == plaintext
      invariant r.Honest() <==> src == Blob(format, plaintext)
      invariant e.Ok? ==> !r.failed
      invariant e.Eof? ==> src == Blob(format, plaintext) && data == plaintext
      invariant r.Honest() ==> e.Ok? || e.Eof?
      invariant e.Ok? && (forall j :: 0 <= j < |sizes| ==> sizes[j] > 0) ==> |data| >= i
      decreases |sizes| - i
    {
      var p;
      p, e := r.Read(sizes[i]);
      data := data + p;
      i := i + 1;
    }
  }
}
