/**
 The chunked stream format of web/stream.go as values: nonces, frames, the canonical blob of a
 plaintext and the ledger of what was sealed while writing it.

 AES-GCM is idealised. Sealing is any function whose ciphertext is the plaintext's length plus the
 tag; opening succeeds exactly on the (nonce, ciphertext) pairs in the ledger of the message's key.
 */
module Stream {
  import opened Bytes

  const VERSION: byte := 2
  const COUNTERS: nat := 0x1_0000_0000_0000_0000

  type Ledger = map<(bytes, bytes), bytes>

  /** The chunk and tag sizes, and the cipher under the message's key. */
  datatype Format = Format(chunk: nat, tag: nat, cipher: (bytes, bytes) -> bytes) {
    ghost predicate Ok() {
      && chunk >= 1
      && chunk + tag < 0x1_0000_0000
      && forall n: bytes, p: bytes :: |cipher(n, p)| == |p| + tag
    }
  }

  function StreamNonce(counter: nat, last: bool): (n: bytes)
    ensures |n| == 12
  {
    [0, 0, 0] + Be(counter, 8) + [if last then 1 else 0]
  }

  lemma CounterWidth()
    ensures Pow256(4) == 0x1_0000_0000 && Pow256(8) == COUNTERS
  {
    assert Pow256(4) == 256 * 256 * 256 * 256;
  }

  /** Two chunks share a nonce exactly when their counters agree modulo 2^64 and their flags agree. */
  lemma NonceInjective(c1: nat, last1: bool, c2: nat, last2: bool)
    ensures StreamNonce(c1, last1) == StreamNonce(c2, last2)
            <==> c1 % COUNTERS == c2 % COUNTERS && last1 == last2
  {
    CounterWidth();
    var n1, n2 := StreamNonce(c1, last1), StreamNonce(c2, last2);
    if n1 == n2 {
      assert n1[3..11] == Be(c1, 8) && n2[3..11] == Be(c2, 8);
      BeInjective(c1, c2, 8);
      assert n1[11] == n2[11];
    }
    if c1 % COUNTERS == c2 % COUNTERS {
      BeKeepsModulo(c1, 8);
      BeKeepsModulo(c2, 8);
    }
  }

  /** Three zero bytes, the counter in eight big-endian bytes, and the flag. */
  lemma NonceLayout(counter: nat, last: bool)
    ensures var n := StreamNonce(counter, last);
            && |n| == 12 && n[0] == n[1] == n[2] == 0 && n[11] == (if last then 1 else 0)
            && FromBe(n[3..11]) == counter % COUNTERS
  {
    CounterWidth();
    BeKeepsModulo(counter, 8);
    FromBeOfBe(counter % COUNTERS, 8);
    assert StreamNonce(counter, last)[3..11] == Be(counter, 8);
    hide Be;
    hide FromBe;
  }

  /** The nonce of frame i in a stream of n frames, the last of which is flagged. */
  function FrameNonce(n: nat, i: nat): bytes {
    StreamNonce(i, i == n - 1)
  }

  ghost predicate NoncesDistinct(n: nat) {
    forall i: nat, j: nat :: i < j < n ==> FrameNonce(n, i) != FrameNonce(n, j)
  }

  /** Nonces repeat only once two unflagged frames are 2^64 apart, so one frame later than the wrap. */
  lemma NoncesDistinctExactly(n: nat)
    ensures NoncesDistinct(n) <==> n <= COUNTERS + 1
  {
    hide StreamNonce;
    forall i: nat, j: nat | i < j < n
      ensures FrameNonce(n, i) == FrameNonce(n, j)
              <==> i % COUNTERS == j % COUNTERS && (i == n - 1 <==> j == n - 1)
    {
      NonceInjective(i, i == n - 1, j, j == n - 1);
    }
    if n > COUNTERS + 1 {
      var i: nat, j: nat := 0, COUNTERS;
      assert i < j < n && FrameNonce(n, i) == FrameNonce(n, j);
    }
  }

  function Sealed1(f: Format, i: nat, last: bool, p: bytes): bytes {
    f.cipher(StreamNonce(i, last), p)
  }

  function Frame(f: Format, i: nat, last: bool, p: bytes): bytes {
    Be(|Sealed1(f, i, last, p)|, 4) + Sealed1(f, i, last, p)
  }

  /** A frame is the ciphertext's length in four big-endian bytes, and the ciphertext. */
  lemma FrameLayout(f: Format, i: nat, last: bool, p: bytes)
    requires f.Ok() && |p| <= f.chunk
    ensures var b := Frame(f, i, last, p);
            |b| == 4 + |p| + f.tag && FromBe(b[..4]) == |p| + f.tag && b[4..] == f.cipher(StreamNonce(i, last), p)
  {
    CounterWidth();
    FromBeOfBe(|p| + f.tag, 4);
    var b := Frame(f, i, last, p);
    assert b[..4] == Be(|p| + f.tag, 4);
    hide Be;
    hide FromBe;
  }

  /** The frames of the first chunks, none of them final. */
  function FullFrames(f: Format, full: seq<bytes>): bytes {
    if full == [] then []
    else
      var i := |full| - 1;
      FullFrames(f, full[..i]) + Frame(f, i, false, full[i])
  }

  /** Everything from frame i to the end of the stream. */
  function TailFrames(f: Format, full: seq<bytes>, rest: bytes, i: nat): bytes
    requires i <= |full|
    decreases |full| - i
  {
    if i == |full| then Frame(f, i, true, rest)
    else Frame(f, i, false, full[i]) + TailFrames(f, full, rest, i + 1)
  }

  function ChunkedBlob(f: Format, full: seq<bytes>, rest: bytes): bytes {
    [VERSION] + FullFrames(f, full) + Frame(f, |full|, true, rest)
  }

  function SealedFull(f: Format, full: seq<bytes>): Ledger {
    if full == [] then map[]
    else
      var i := |full| - 1;
      SealedFull(f, full[..i])[(StreamNonce(i, false), Sealed1(f, i, false, full[i])) := full[i]]
  }

  function ChunkedLedger(f: Format, full: seq<bytes>, rest: bytes): Ledger {
    SealedFull(f, full)[(StreamNonce(|full|, true), Sealed1(f, |full|, true, rest)) := rest]
  }

  /** All full chunks in order, then what is left: empty on an exact multiple. */
  function Split(chunk: nat, p: bytes): (r: (seq<bytes>, bytes))
    requires chunk >= 1
    ensures Flatten(r.0) + r.1 == p
    ensures forall i :: 0 <= i < |r.0| ==> |r.0[i]| == chunk
    ensures |r.1| < chunk
  {
    if |p| < chunk then ([], p)
    else
      var (full, rest) := Split(chunk, p[chunk..]);
      FlattenConcat([p[..chunk]], full);
      assert Flatten([p[..chunk]]) == p[..chunk];
      ([p[..chunk]] + full, rest)
  }

  function Blob(f: Format, p: bytes): bytes
    requires f.chunk >= 1
  {
    var (full, rest) := Split(f.chunk, p);
    ChunkedBlob(f, full, rest)
  }

  /** Few enough frames that the 64-bit counter does not wrap within the message. */
  ghost predicate Countable(f: Format, p: bytes)
    requires f.chunk >= 1
  {
    |p| / f.chunk < COUNTERS
  }

  function LedgerOf(f: Format, p: bytes): Ledger
    requires f.chunk >= 1
  {
    var (full, rest) := Split(f.chunk, p);
    ChunkedLedger(f, full, rest)
  }

  /** A plaintext has only one decomposition into full chunks and a shorter rest. */
  lemma {:induction false} SplitUnique(chunk: nat, full: seq<bytes>, rest: bytes)
    requires chunk >= 1
    requires forall i :: 0 <= i < |full| ==> |full[i]| == chunk
    requires |rest| < chunk
    ensures Split(chunk, Flatten(full) + rest) == (full, rest)
  {
    var p := Flatten(full) + rest;
    if full == [] {
      assert p == rest;
    } else {
      FlattenConcat(full[..1], full[1..]);
      assert full[..1] + full[1..] == full && Flatten(full[..1]) == full[0];
      assert p == full[0] + (Flatten(full[1..]) + rest);
      assert p[chunk..] == Flatten(full[1..]) + rest && p[..chunk] == full[0];
      SplitUnique(chunk, full[1..], rest);
      assert full == [full[0]] + full[1..];
    }
  }

  lemma FlattenLength(chunk: nat, full: seq<bytes>)
    requires forall i :: 0 <= i < |full| ==> |full[i]| == chunk
    ensures |Flatten(full)| == |full| * chunk
  {
    if full != [] {
      FlattenLength(chunk, full[..|full| - 1]);
      assert |full| * chunk == (|full| - 1) * chunk + chunk;
    }
  }

  lemma {:induction false} FullFramesLength(f: Format, full: seq<bytes>)
    requires f.Ok()
    ensures |FullFrames(f, full)| == |full| * (4 + f.tag) + |Flatten(full)|
  {
    if full != [] {
      FullFramesLength(f, full[..|full| - 1]);
      assert |full| * (4 + f.tag) == (|full| - 1) * (4 + f.tag) + (4 + f.tag);
    }
  }

  lemma SplitCount(chunk: nat, p: bytes)
    requires chunk >= 1
    ensures |Split(chunk, p).0| == |p| / chunk
  {
    var (full, rest) := Split(chunk, p);
    FlattenLength(chunk, full);
    assert |p| == chunk * |full| + |rest|;
    DivModUnique(|p|, chunk, |full|, |rest|);
  }

  /** The exact size of a sealed message: a version byte, one frame header per chunk, the plaintext. */
  lemma BlobLength(f: Format, p: bytes)
    requires f.Ok()
    ensures |Blob(f, p)| == 1 + (|p| / f.chunk + 1) * (4 + f.tag) + |p|
  {
    var (full, rest) := Split(f.chunk, p);
    FullFramesLength(f, full);
    SplitCount(f.chunk, p);
    assert (|full| + 1) * (4 + f.tag) == |full| * (4 + f.tag) + (4 + f.tag);
  }

  /** Cutting the stream at any frame boundary. */
  lemma {:induction false} StreamFrom(f: Format, full: seq<bytes>, rest: bytes, i: nat)
    requires i <= |full|
    ensures FullFrames(f, full) + Frame(f, |full|, true, rest)
            == FullFrames(f, full[..i]) + TailFrames(f, full, rest, i)
    decreases |full| - i
  {
    hide Frame;
    if i == |full| {
      assert full[..i] == full;
    } else {
      StreamFrom(f, full, rest, i + 1);
      assert full[..i + 1][..i] == full[..i];
      var a, b, c := FullFrames(f, full[..i]), Frame(f, i, false, full[i]), TailFrames(f, full, rest, i + 1);
      assert FullFrames(f, full[..i + 1]) == a + b;
      assert (a + b) + c == a + (b + c);
    }
  }

  lemma FramesNonempty(f: Format, full: seq<bytes>, rest: bytes, i: nat)
    requires i <= |full|
    ensures |TailFrames(f, full, rest, i)| >= 4
  {
  }

  lemma {:induction false} SealedFullExact(f: Format, full: seq<bytes>, c: nat, last: bool, ct: bytes)
    requires |full| <= COUNTERS && c < COUNTERS
    ensures (StreamNonce(c, last), ct) in SealedFull(f, full)
            <==> !last && c < |full| && ct == Sealed1(f, c, false, full[c])
    ensures (StreamNonce(c, last), ct) in SealedFull(f, full) ==>
              SealedFull(f, full)[(StreamNonce(c, last), ct)] == full[c]
  {
    hide StreamNonce;
    if full != [] {
      var i := |full| - 1;
      SealedFullExact(f, full[..i], c, last, ct);
      NonceInjective(c, last, i, false);
    }
  }

  /**
   Under the nonce for position c, the ledger opens one ciphertext only: the one sealed there, and
   only with the flag it was sealed with.
   */
  lemma LedgerExact(f: Format, full: seq<bytes>, rest: bytes, c: nat, last: bool, ct: bytes)
    requires |full| < COUNTERS && c < COUNTERS
    ensures var key := (StreamNonce(c, last), ct);
            var ledger := ChunkedLedger(f, full, rest);
            && (key in ledger <==>
                  || (!last && c < |full| && ct == Sealed1(f, c, false, full[c]))
                  || (last && c == |full| && ct == Sealed1(f, c, true, rest)))
            && (key in ledger ==> ledger[key] == if last then rest else full[c])
  {
    hide StreamNonce;
    SealedFullExact(f, full, c, last, ct);
    NonceInjective(c, last, |full|, true);
  }

  /**
   How far a reader has got: it opened `count` frames and consumed `pos` bytes. Until its first error
   the consumed bytes are the blob's own; having opened the final frame it is at the blob's end.
   */
  ghost predicate Progress(f: Format, full: seq<bytes>, rest: bytes, src: bytes, pos: nat, count: nat, failed: bool) {
    && pos <= |src|
    && count <= |full| + 1
    && (!failed && count <= |full| ==> src[..pos] == [VERSION] + FullFrames(f, full[..count]))
    && (!failed && count == |full| + 1 ==> src == ChunkedBlob(f, full, rest) && pos == |src|)
    && (src == ChunkedBlob(f, full, rest) ==> !failed)
  }

  function SealedAt(f: Format, full: seq<bytes>, rest: bytes, count: nat): bytes
    requires count <= |full|
  {
    if count == |full| then Sealed1(f, count, true, rest) else Sealed1(f, count, false, full[count])
  }

  /** On the blob itself, what is left to read is the frames from `count` on. */
  lemma HonestRemainder(f: Format, full: seq<bytes>, rest: bytes, src: bytes, pos: nat, count: nat)
    requires count <= |full| && Progress(f, full, rest, src, pos, count, false)
    requires src == ChunkedBlob(f, full, rest)
    ensures src[pos..] == TailFrames(f, full, rest, count)
  {
    hide StreamNonce;
    hide Frame;
    StreamFrom(f, full, rest, count);
    var head, tail := [VERSION] + FullFrames(f, full[..count]), TailFrames(f, full, rest, count);
    var body := FullFrames(f, full) + Frame(f, |full|, true, rest);
    assert src == [VERSION] + body;
    assert src == head + tail;
    assert |src[..pos]| == |head|;
  }

  /** On the blob itself, the next header and ciphertext are the sealed ones, with bytes after them
      exactly when the frame is not the final one. */
  lemma HonestFrame(f: Format, full: seq<bytes>, rest: bytes, src: bytes, pos: nat, count: nat)
    requires f.Ok()
    requires count <= |full| && Progress(f, full, rest, src, pos, count, false)
    requires src == ChunkedBlob(f, full, rest)
    requires forall i :: 0 <= i < |full| ==> |full[i]| == f.chunk
    requires |rest| < f.chunk
    ensures var ct := SealedAt(f, full, rest, count);
            && pos + 4 + |ct| <= |src|
            && FromBe(src[pos..pos + 4]) == |ct|
            && src[pos + 4..pos + 4 + |ct|] == ct
            && (pos + 4 + |ct| == |src| <==> count == |full|)
            && f.tag <= |ct| <= f.chunk + f.tag
  {
    hide StreamNonce;
    HonestRemainder(f, full, rest, src, pos, count);
    FrameAtHead(f, full, rest, count);
    assert pos <= |src|;
    hide *;
    TailSlices(src, pos, |SealedAt(f, full, rest, count)|);
  }

  lemma TailSlices(src: bytes, pos: nat, n: nat)
    requires pos + 4 + n <= |src|
    ensures src[pos..][..4] == src[pos..pos + 4] && src[pos..][4..4 + n] == src[pos + 4..pos + 4 + n]
  {
  }

  lemma FrameAtHead(f: Format, full: seq<bytes>, rest: bytes, count: nat)
    requires f.Ok() && count <= |full|
    requires forall i :: 0 <= i < |full| ==> |full[i]| == f.chunk
    requires |rest| < f.chunk
    ensures var tail, ct := TailFrames(f, full, rest, count), SealedAt(f, full, rest, count);
            && 4 + |ct| <= |tail|
            && FromBe(tail[..4]) == |ct|
            && tail[4..4 + |ct|] == ct
            && (4 + |ct| == |tail| <==> count == |full|)
            && f.tag <= |ct| <= f.chunk + f.tag
  {
    hide StreamNonce;
    var tail, ct := TailFrames(f, full, rest, count), SealedAt(f, full, rest, count);
    assert |ct| <= f.chunk + f.tag;
    if count < |full| {
      FramesNonempty(f, full, rest, count + 1);
    }
    assert tail[..4 + |ct|] == Be(|ct|, 4) + ct;
    assert tail[..4] == tail[..4 + |ct|][..4] && tail[4..4 + |ct|] == tail[..4 + |ct|][4..];
    HeaderDecodes(|ct|);
  }

  lemma HeaderDecodes(n: nat)
    requires n < 0x1_0000_0000
    ensures FromBe(Be(n, 4)) == n
  {
    CounterWidth();
    FromBeOfBe(n, 4);
  }

  /** Opening the frame sealed at `count` makes progress: its bytes were the writer's own. */
  lemma AcceptFrame(f: Format, full: seq<bytes>, rest: bytes, src: bytes, pos: nat, count: nat, failed: bool, clen: nat)
    requires count <= |full| && Progress(f, full, rest, src, pos, count, failed)
    requires pos + 4 + clen <= |src|
    requires FromBe(src[pos..pos + 4]) == clen
    requires src[pos + 4..pos + 4 + clen] == SealedAt(f, full, rest, count)
    requires pos + 4 + clen == |src| <==> count == |full|
    ensures Progress(f, full, rest, src, pos + 4 + clen, count + 1, failed)
  {
    hide StreamNonce;
    hide Frame;
    var end, ct := pos + 4 + clen, SealedAt(f, full, rest, count);
    BeOfFromBe(src[pos..pos + 4]);
    ThreeParts(src, pos, clen);
    FrameIs(f, full, rest, count);
    if count == |full| {
      assert full[..count] == full;
      assert src[..end] == src;
    } else {
      NextFrame(f, full, count);
    }
    hide FullFrames;
    hide SealedAt;
    Joined(src[..pos], src[pos..pos + 4], ct);
    if !failed && count < |full| {
      Joined([VERSION], FullFrames(f, full[..count]), Frame(f, count, false, full[count]));
    }
    if !failed && count == |full| {
      Joined([VERSION], FullFrames(f, full), Frame(f, count, true, rest));
    }
  }

  lemma ThreeParts(src: bytes, pos: nat, n: nat)
    requires pos + 4 + n <= |src|
    ensures src[..pos + 4 + n] == src[..pos] + src[pos..pos + 4] + src[pos + 4..pos + 4 + n]
  {
  }

  lemma Joined(a: bytes, b: bytes, c: bytes)
    ensures a + b + c == a + (b + c)
  {
  }

  lemma FrameIs(f: Format, full: seq<bytes>, rest: bytes, count: nat)
    requires count <= |full|
    ensures var ct := SealedAt(f, full, rest, count);
            Be(|ct|, 4) + ct == if count == |full| then Frame(f, count, true, rest) else Frame(f, count, false, full[count])
  {
    hide StreamNonce;
    hide Be;
  }

  lemma NextFrame(f: Format, full: seq<bytes>, count: nat)
    requires count < |full|
    ensures FullFrames(f, full[..count + 1]) == FullFrames(f, full[..count]) + Frame(f, count, false, full[count])
  {
    hide Frame;
    assert full[..count + 1][..count] == full[..count];
  }

  /** The plaintext of the first `count` frames. */
  ghost function OpenedText(full: seq<bytes>, rest: bytes, count: nat): bytes
    requires count <= |full| + 1
  {
    if count <= |full| then Flatten(full[..count]) else Flatten(full) + rest
  }

  lemma OpenedNext(full: seq<bytes>, rest: bytes, count: nat)
    requires count <= |full|
    ensures OpenedText(full, rest, count + 1)
            == OpenedText(full, rest, count) + (if count == |full| then rest else full[count])
    ensures OpenedText(full, rest, count) <= Flatten(full) + rest
  {
    FlattenPrefix(full, count);
    if count == |full| {
      assert full[..count] == full;
    } else {
      FlattenTake(full, count);
    }
  }
}
