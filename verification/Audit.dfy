/**
 The hash-chained audit log (web/audit.go). Files are values: the log is its lines, each blank, an encoded
 entry or garbage. Encoding writes a byte that is not UTF-8 as an escaped replacement character, which is
 read back as that character and would be encoded as itself. The chain hash is an abstract function of the
 encoded entry with its own hash cleared; tamper evidence assumes it injective.
 */
module Audit {
  import opened Bytes

  type Rune = int

  const REPLACEMENT: Rune := 0xFFFD

  /** What a request can put in a string: characters, and bytes that are none. */
  datatype Unit = Rune(r: Rune) | Bad(b: int)

  type Text = seq<Unit>

  /** What an encoded string holds; Escape is the replacement character written as an escape. */
  datatype Token = Plain(r: Rune) | Escape

  function Encode(t: Text): seq<Token> {
    seq(|t|, i requires 0 <= i < |t| => match t[i] case Rune(r) => Plain(r) case Bad(_) => Escape)
  }

  function Decode(w: seq<Token>): Text {
    seq(|w|, i requires 0 <= i < |w| => Rune(match w[i] case Plain(r) => r case Escape => REPLACEMENT))
  }

  predicate Clean(t: Text) {
    forall i :: 0 <= i < |t| ==> t[i].Rune?
  }

  /** Text comes back from its encoding exactly when it is clean; what comes back is clean. */
  lemma DecodeEncode(t: Text)
    ensures Decode(Encode(t)) == t <==> Clean(t)
    ensures Clean(Decode(Encode(t)))
  {
    if Decode(Encode(t)) == t {
      forall i | 0 <= i < |t|
        ensures t[i].Rune?
      {
        assert t[i] == Decode(Encode(t))[i];
      }
    }
  }

  /** Clean text shares its encoding with no other text. */
  lemma EncodeClean(a: Text, b: Text)
    requires Clean(a) && Encode(a) == Encode(b)
    ensures a == b
  {
    assert |a| == |Encode(a)| == |b|;
    forall i | 0 <= i < |a|
      ensures a[i] == b[i]
    {
      assert Encode(a)[i] == Encode(b)[i];
    }
  }

  lemma DecodeClean(w: seq<Token>)
    ensures Clean(Decode(w))
  {
  }

  datatype Fields = Fields(time: string, event: string, user: Text, ip: Text, detail: Text)

  datatype Entry = Entry(seqNo: int, prev: string, fields: Fields, hash: string)

  /** An encoded entry. */
  datatype Wire = Wire(
    seqNo: int, prev: string, time: string, event: string,
    user: seq<Token>, ip: seq<Token>, detail: seq<Token>, hash: string)

  function Marshal(e: Entry): Wire {
    var f := e.fields;
    Wire(e.seqNo, e.prev, f.time, f.event, Encode(f.user), Encode(f.ip), Encode(f.detail), e.hash)
  }

  function Unmarshal(w: Wire): Entry {
    Entry(w.seqNo, w.prev, Fields(w.time, w.event, Decode(w.user), Decode(w.ip), Decode(w.detail)), w.hash)
  }

  predicate CleanFields(f: Fields) {
    Clean(f.user) && Clean(f.ip) && Clean(f.detail)
  }

  /** What is read back of fields once written. */
  function Reread(f: Fields): Fields {
    Fields(f.time, f.event, Decode(Encode(f.user)), Decode(Encode(f.ip)), Decode(Encode(f.detail)))
  }

  lemma RereadClean(f: Fields)
    ensures Reread(f) == f <==> CleanFields(f)
    ensures CleanFields(Reread(f))
  {
    DecodeEncode(f.user);
    DecodeEncode(f.ip);
    DecodeEncode(f.detail);
    hide Decode;
    hide Encode;
    hide Clean;
  }

  /** Entries with clean fields share their encoding with no other entry. */
  lemma MarshalClean(a: Entry, b: Entry)
    requires CleanFields(a.fields) && Marshal(a) == Marshal(b)
    ensures a == b
  {
    EncodeClean(a.fields.user, b.fields.user);
    EncodeClean(a.fields.ip, b.fields.ip);
    EncodeClean(a.fields.detail, b.fields.detail);
    hide Encode;
    hide Clean;
  }

  lemma UnmarshalClean(w: Wire)
    ensures CleanFields(Unmarshal(w).fields)
  {
    DecodeClean(w.user);
    DecodeClean(w.ip);
    DecodeClean(w.detail);
    hide Decode;
    hide Clean;
  }

  type Hasher = Wire -> string

  function ChainHash(h: Hasher, e: Entry): string {
    h(Marshal(e.(hash := "")))
  }

  ghost predicate Injective(h: Hasher) {
    forall a: Wire, b: Wire :: a.hash == "" && b.hash == "" && h(a) == h(b) ==> a == b
  }

  /** An entry read from a file shares its hash with no other entry. */
  lemma HashClean(h: Hasher, a: Entry, b: Entry)
    requires Injective(h) && CleanFields(a.fields) && ChainHash(h, a) == ChainHash(h, b)
    ensures a.(hash := "") == b.(hash := "")
  {
    var x, y := Marshal(a.(hash := "")), Marshal(b.(hash := ""));
    assert x.hash == "" && y.hash == "" && h(x) == h(y);
    MarshalClean(a.(hash := ""), b.(hash := ""));
    hide Marshal;
    hide CleanFields;
  }

  datatype Line = Blank | Garbage | Record(w: Wire)

  datatype HeadFile = NoHead | BadHead | Head(seqNo: int, hash: string)

  /** The two files; the log may not exist yet. */
  datatype Disk = Disk(log: Option<seq<Line>>, head: HeadFile)

  /** The parsed entries, or None when a line does not parse. */
  function Records(lines: seq<Line>): Option<seq<Entry>> {
    if lines == [] then Some([])
    else
      var init, l := Records(lines[..|lines| - 1]), lines[|lines| - 1];
      match l
      case Blank => init
      case Garbage => None
      case Record(w) => if init.None? then None else Some(init.value + [Unmarshal(w)])
  }

  function LastSeq(es: seq<Entry>): int {
    if es == [] then 0 else es[|es| - 1].seqNo
  }

  function LastHash(es: seq<Entry>): string {
    if es == [] then "" else es[|es| - 1].hash
  }

  /** Numbered from 1, each carrying its predecessor's hash and its own. */
  ghost predicate Chained(h: Hasher, es: seq<Entry>) {
    forall i :: 0 <= i < |es| ==> LinkAt(h, es, i)
  }

  ghost predicate LinkAt(h: Hasher, es: seq<Entry>, i: nat)
    requires i < |es|
  {
    && es[i].seqNo == i + 1
    && es[i].prev == (if i == 0 then "" else es[i - 1].hash)
    && es[i].hash == ChainHash(h, es[i])
  }

  lemma ChainedSnoc(h: Hasher, es: seq<Entry>, e: Entry)
    ensures Chained(h, es + [e])
            <==> Chained(h, es) && e.seqNo == |es| + 1 && e.prev == LastHash(es) && e.hash == ChainHash(h, e)
    ensures LastSeq(es + [e]) == e.seqNo && LastHash(es + [e]) == e.hash
    ensures Chained(h, es) ==> LastSeq(es) == |es|
  {
    var all := es + [e];
    if Chained(h, all) {
      assert LinkAt(h, all, |es|);
      forall i | 0 <= i < |es|
        ensures LinkAt(h, es, i)
      {
        assert LinkAt(h, all, i);
      }
    }
    if Chained(h, es) {
      forall i | 0 <= i < |es|
        ensures LinkAt(h, all, i)
      {
        assert LinkAt(h, es, i);
      }
      assert es != [] ==> LinkAt(h, es, |es| - 1);
    }
  }

  predicate HeadMatches(head: HeadFile, es: seq<Entry>) {
    head.Head? ==> head.seqNo == LastSeq(es) && head.hash == LastHash(es)
  }

  /** What verify accepts. */
  ghost predicate Accepts(h: Hasher, d: Disk) {
    d.log.None?
    || (var es := Records(d.log.value);
        es.Some? && Chained(h, es.value) && HeadMatches(d.head, es.value))
  }

  lemma {:induction false} RecordsSplit(a: seq<Line>, b: seq<Line>)
    ensures Records(a + b) ==
            if Records(a).None? || Records(b).None? then None
            else Some(Records(a).value + Records(b).value)
  {
    if b == [] {
      assert a + b == a;
      if Records(a).Some? {
        assert Records(a).value + [] == Records(a).value;
      }
    } else {
      RecordsSplit(a, b[..|b| - 1]);
      assert (a + b)[..|a + b| - 1] == a + b[..|b| - 1];
      assert (a + b)[|a + b| - 1] == b[|b| - 1];
      if b[|b| - 1].Record? && Records(a).Some? && Records(b).Some? {
        var ra, rb, e := Records(a).value, Records(b[..|b| - 1]).value, Unmarshal(b[|b| - 1].w);
        assert ra + (rb + [e]) == (ra + rb) + [e];
      }
    }
  }

  lemma ChainedLength(h: Hasher, es: seq<Entry>)
    requires Chained(h, es)
    ensures LastSeq(es) == |es|
  {
    assert es != [] ==> LinkAt(h, es, |es| - 1);
  }

  ghost predicate AsRead(es: seq<Entry>) {
    forall i :: 0 <= i < |es| ==> CleanFields(es[i].fields)
  }

  lemma {:induction false} RecordsAsRead(lines: seq<Line>)
    requires Records(lines).Some?
    ensures AsRead(Records(lines).value)
  {
    if lines != [] {
      RecordsAsRead(lines[..|lines| - 1]);
      var l := lines[|lines| - 1];
      if l.Record? {
        UnmarshalClean(l.w);
      }
      hide CleanFields;
      hide Unmarshal;
    }
  }

  /** Two chains of one length that end in the same hash are the same chain, when one of them was read from a file. */
  lemma {:induction false} ChainUnique(h: Hasher, a: seq<Entry>, b: seq<Entry>)
    requires Injective(h) && Chained(h, a) && Chained(h, b) && AsRead(a)
    requires |a| == |b| && LastHash(a) == LastHash(b)
    ensures a == b
  {
    if a != [] {
      var n := |a| - 1;
      var a', b', x, y := a[..n], b[..n], a[n], b[n];
      assert a == a' + [x] && b == b' + [y];
      ChainedSnoc(h, a', x);
      ChainedSnoc(h, b', y);
      HashClean(h, x, y);
      hide ChainHash;
      hide Injective;
      ChainUnique(h, a', b');
    }
  }

  /**
   Tamper evidence. Against the head of an honest, non-empty log, a log file is accepted exactly when it
   is missing or holds the honest entries, all of them, in order and unchanged.
   */
  lemma TamperEvident(h: Hasher, honest: seq<Entry>, log: Option<seq<Line>>)
    requires Injective(h) && Chained(h, honest) && honest != []
    ensures Accepts(h, Disk(log, Head(LastSeq(honest), LastHash(honest))))
            <==> log.None? || Records(log.value) == Some(honest)
  {
    if log.Some? && Accepts(h, Disk(log, Head(LastSeq(honest), LastHash(honest)))) {
      var es := Records(log.value).value;
      ChainedLength(h, es);
      ChainedLength(h, honest);
      RecordsAsRead(log.value);
      ChainUnique(h, es, honest);
    }
  }

  /** A line that does not parse is never repaired by what is appended after it. */
  lemma GarbageStays(h: Hasher, a: seq<Line>, b: seq<Line>, head: HeadFile)
    requires Garbage in a
    ensures !Accepts(h, Disk(Some(a + b), head))
  {
    GarbageRecords(a);
    RecordsSplit(a, b);
  }

  lemma GarbageRecords(a: seq<Line>)
    requires Garbage in a
    ensures Records(a).None?
  {
    var n := |a| - 1;
    if a[n] != Garbage {
      assert a == a[..n] + [a[n]];
      GarbageRecords(a[..n]);
    }
  }

  /** The last non-blank line, which is where resume looks. */
  function LastRecord(lines: seq<Line>): Option<Entry> {
    if lines == [] then None
    else
      match lines[|lines| - 1]
      case Blank => LastRecord(lines[..|lines| - 1])
      case Garbage => None
      case Record(w) => Some(Unmarshal(w))
  }

  lemma {:induction false} LastRecordIsLast(lines: seq<Line>)
    requires Records(lines).Some?
    ensures var es := Records(lines).value;
            LastRecord(lines) == if es == [] then None else Some(es[|es| - 1])
  {
    if lines != [] && lines[|lines| - 1].Blank? {
      LastRecordIsLast(lines[..|lines| - 1]);
    }
  }

  datatype Verdict =
    | Intact
    | Unparseable(at: nat)
    | SequenceGap(at: nat)
    | BrokenChain(at: nat)
    | HashMismatch(at: nat)
    | HeadMismatch

  /** The verdict names the first line that breaks the chain, and how it does. */
  ghost predicate FirstBreak(h: Hasher, lines: seq<Line>, v: Verdict) {
    && !v.Intact? && !v.HeadMismatch?
    && v.at < |lines|
    && Records(lines[..v.at]).Some?
    && (var es, l := Records(lines[..v.at]).value, lines[v.at];
        && Chained(h, es)
        && (v.Unparseable? ==> l.Garbage?)
        && (!v.Unparseable? ==> l.Record? && BreaksAt(h, es, Unmarshal(l.w), v)))
  }

  predicate BreaksAt(h: Hasher, es: seq<Entry>, e: Entry, v: Verdict) {
    && (v.SequenceGap? ==> e.seqNo != |es| + 1)
    && (v.BrokenChain? ==> e.seqNo == |es| + 1 && e.prev != LastHash(es))
    && (v.HashMismatch? ==> e.seqNo == |es| + 1 && e.prev == LastHash(es) && e.hash != ChainHash(h, e))
  }

  /** auditor: the chain's position in memory, and the two files. */
  class Auditor {
    const h: Hasher
    var seqNo: int
    var lastHash: string
    var disk: Disk

    constructor (h: Hasher, disk: Disk)
      ensures this.h == h && this.disk == disk
      ensures (seqNo, lastHash) == Resumed(disk)
    {
      this.h, this.disk := h, disk;
      seqNo, lastHash := 0, "";
      new;
      Resume();
    }

    method Resume()
      requires seqNo == 0 && lastHash == ""
      modifies `seqNo, `lastHash
      ensures (seqNo, lastHash) == Resumed(disk)
    {
      if disk.log.None? {
        return;
      }
      var lines := disk.log.value;
      var i := |lines|;
      assert lines[..i] == lines;
      while i > 0
        invariant 0 <= i <= |lines|
        invariant LastRecord(lines) == LastRecord(lines[..i])
        invariant seqNo == 0 && lastHash == ""
      {
        i := i - 1;
        assert lines[..i + 1][..i] == lines[..i];
        if lines[i].Blank? {
          continue;
        }
        if lines[i].Record? {
          var e := Unmarshal(lines[i].w);
          seqNo, lastHash := e.seqNo, e.hash;
        }
        return;
      }
    }

    /** One event. `stopped` is a process that ends after the append and before the head is written. */
    method Log(f: Fields, stopped: bool)
      modifies this
      ensures disk == Logged(h, old(disk), old(seqNo), old(lastHash), f, stopped)
      ensures !stopped ==> disk.head == Head(seqNo, lastHash)
    {
      var e := Entry(seqNo + 1, lastHash, f, "");
      e := e.(hash := ChainHash(h, e));
      var before := if disk.log.Some? then disk.log.value else [];
      disk := disk.(log := Some(before + [Record(Marshal(e))]));
      if stopped {
        return;
      }
      seqNo, lastHash := e.seqNo, e.hash;
      WriteHead();
    }

    method WriteHead()
      modifies `disk
      ensures disk == old(disk).(head := Head(seqNo, lastHash))
    {
      disk := disk.(head := Head(seqNo, lastHash));
    }

    method Verify() returns (v: Verdict)
      ensures v.Intact? <==> Accepts(h, disk)
      ensures v.HeadMismatch? ==> disk.log.Some? && Records(disk.log.value).Some? && Chained(h, Records(disk.log.value).value)
      ensures !v.Intact? && !v.HeadMismatch? ==> disk.log.Some? && FirstBreak(h, disk.log.value, v)
    {
      if disk.log.None? {
        return Intact;
      }
      var lines := disk.log.value;
      var prev, last := "", 0;
      ghost var es: seq<Entry> := [];
      for i := 0 to |lines|
        invariant Records(lines[..i]) == Some(es)
        invariant Chained(h, es) && last == |es| == LastSeq(es) && prev == LastHash(es)
      {
        assert lines[..i + 1][..i] == lines[..i];
        var l := lines[i];
        if l.Blank? {
          continue;
        }
        if l.Garbage? {
          BreakStays(h, lines, Unparseable(i), disk.head);
          return Unparseable(i);
        }
        var e := Unmarshal(l.w);
        if e.seqNo != last + 1 {
          BreakStays(h, lines, SequenceGap(i), disk.head);
          return SequenceGap(i);
        }
        if e.prev != prev {
          BreakStays(h, lines, BrokenChain(i), disk.head);
          return BrokenChain(i);
        }
        if e.hash != ChainHash(h, e) {
          BreakStays(h, lines, HashMismatch(i), disk.head);
          return HashMismatch(i);
        }
        ChainedSnoc(h, es, e);
        prev, last := e.hash, e.seqNo;
        es := es + [e];
      }
      assert lines[..|lines|] == lines;
      if disk.head.Head? && (disk.head.seqNo != last || disk.head.hash != prev) {
        return HeadMismatch;
      }
      v := Intact;
    }

    /** Up to `limit` of the user's events, newest first; `at` is where in the log they stand. */
    method RecentForUser(user: Text, limit: nat) returns (out: seq<Entry>, ghost at: seq<nat>)
      ensures disk.log.None? ==> out == []
      ensures disk.log.Some? ==> Newest(disk.log.value, user, limit, out, at)
    {
      if disk.log.None? {
        return [], [];
      }
      var lines := disk.log.value;
      var mine: seq<Entry> := [];
      ghost var places: seq<nat> := [];
      for i := 0 to |lines|
        invariant Collected(lines, user, i, mine, places)
      {
        CollectMore(lines, user, i, mine, places);
        hide Collected;
        if lines[i].Record? {
          var e := Unmarshal(lines[i].w);
          if e.fields.user == user {
            mine := mine + [e];
            places := places + [i];
          }
        }
      }
      var a := new Entry[|mine|](i requires 0 <= i < |mine| => mine[i]);
      ReverseInPlace(a);
      out := if a.Length > limit then a[..limit] else a[..];
      at := seq(|out|, k requires 0 <= k < |out| => places[|mine| - 1 - k]);
      NewestFrom(lines, user, limit, mine, places, out, at);
    }
  }

  /** The user's entries among the first n lines, and where they stand. */
  ghost predicate Collected(lines: seq<Line>, user: Text, n: nat, mine: seq<Entry>, places: seq<nat>) {
    && n <= |lines| && |mine| == |places|
    && (forall k :: 0 <= k < |mine| ==> places[k] < n && UsersLine(lines, user, places[k])
                                        && mine[k] == Unmarshal(lines[places[k]].w))
    && (forall j, k :: 0 <= j < k < |places| ==> places[j] < places[k])
    && (forall p :: 0 <= p < n && UsersLine(lines, user, p) ==> p in places)
  }

  lemma CollectMore(lines: seq<Line>, user: Text, i: nat, mine: seq<Entry>, places: seq<nat>)
    requires Collected(lines, user, i, mine, places) && i < |lines|
    ensures if UsersLine(lines, user, i) then Collected(lines, user, i + 1, mine + [Unmarshal(lines[i].w)], places + [i])
            else Collected(lines, user, i + 1, mine, places)
  {
    hide Unmarshal;
    var longer := places + [i];
    assert longer[|places|] == i;
    forall p | p in places
      ensures p in longer
    {
    }
  }

  lemma NewestFrom(lines: seq<Line>, user: Text, limit: nat, mine: seq<Entry>, places: seq<nat>, out: seq<Entry>, at: seq<nat>)
    requires Collected(lines, user, |lines|, mine, places)
    requires |out| == |at| == if |mine| < limit then |mine| else limit
    requires forall k :: 0 <= k < |out| ==> out[k] == mine[|mine| - 1 - k] && at[k] == places[|mine| - 1 - k]
    ensures Newest(lines, user, limit, out, at)
  {
    hide Unmarshal;
    forall p | 0 <= p < |lines| && UsersLine(lines, user, p) && (|out| < limit || (limit > 0 && p > at[limit - 1]))
      ensures p in at
    {
      var k :| 0 <= k < |places| && places[k] == p;
      assert |mine| - 1 - k < |out|;
      assert at[|mine| - 1 - k] == p;
    }
  }

  predicate UsersLine(lines: seq<Line>, user: Text, i: nat)
    requires i < |lines|
  {
    lines[i].Record? && Unmarshal(lines[i].w).fields.user == user
  }

  /**
   The user's newest entries: each stands on a line of theirs, later lines first, no more than the limit, and no
   line of theirs is passed over.
   */
  ghost predicate Newest(lines: seq<Line>, user: Text, limit: nat, out: seq<Entry>, at: seq<nat>) {
    && |out| == |at| <= limit
    && (forall k :: 0 <= k < |out| ==> at[k] < |lines| && lines[at[k]].Record?)
    && (forall k :: 0 <= k < |out| ==> out[k] == Unmarshal(lines[at[k]].w) && out[k].fields.user == user)
    && (forall j, k :: 0 <= j < k < |at| ==> at[j] > at[k])
    && (forall p ::
          0 <= p < |lines| && UsersLine(lines, user, p) && (|out| < limit || (limit > 0 && p > at[limit - 1])) ==> p in at)
  }

  /** A line that breaks the chain so far breaks it whatever follows. */
  lemma BreakStays(h: Hasher, lines: seq<Line>, v: Verdict, head: HeadFile)
    requires FirstBreak(h, lines, v)
    ensures !Accepts(h, Disk(Some(lines), head))
  {
    var i, es := v.at, Records(lines[..v.at]).value;
    if v.Unparseable? {
      GarbageRecords(lines);
    } else {
      var e := Unmarshal(lines[i].w);
      assert lines == lines[..i + 1] + lines[i + 1..];
      RecordsSplit(lines[..i + 1], lines[i + 1..]);
      assert lines[..i + 1][..i] == lines[..i];
      if Records(lines).Some? {
        var all := Records(lines).value;
        assert all[|es|] == e;
        assert es != [] ==> all[|es| - 1] == es[|es| - 1];
        assert !LinkAt(h, all, |es|);
      }
    }
  }

  method ReverseInPlace(a: array<Entry>)
    modifies a
    ensures forall k :: 0 <= k < a.Length ==> a[k] == old(a[a.Length - 1 - k])
  {
    var i, j := 0, a.Length - 1;
    while i < j
      invariant 0 <= i <= j + 1 && i + j == a.Length - 1
      invariant forall k :: 0 <= k < i ==> a[k] == old(a[a.Length - 1 - k]) && a[a.Length - 1 - k] == old(a[k])
      invariant forall k :: i <= k <= j ==> a[k] == old(a[k])
    {
      a[i], a[j] := a[j], a[i];
      i, j := i + 1, j - 1;
    }
  }

  /** What a restart recovers: the last entry's number and hash, or the start of a chain. */
  function Resumed(d: Disk): (int, string) {
    if d.log.None? then (0, "")
    else match LastRecord(d.log.value) case None => (0, "") case Some(e) => (e.seqNo, e.hash)
  }

  function NextEntry(h: Hasher, n: int, prev: string, f: Fields): Entry {
    var e := Entry(n + 1, prev, f, "");
    e.(hash := ChainHash(h, e))
  }

  function Logged(h: Hasher, d: Disk, n: int, prev: string, f: Fields, stopped: bool): Disk {
    var e := NextEntry(h, n, prev, f);
    Disk(
      Some((if d.log.Some? then d.log.value else []) + [Record(Marshal(e))]),
      if stopped then d.head else Head(e.seqNo, e.hash))
  }

  /** What can happen to the log: an event recorded, an event cut off before the head, a restart. */
  datatype Action = Recorded(f: Fields) | CutOff(f: Fields) | Restart

  datatype Running = Running(disk: Disk, seqNo: int, lastHash: string)

  function Act(h: Hasher, r: Running, a: Action): Running {
    match a
    case Recorded(f) =>
      var d := Logged(h, r.disk, r.seqNo, r.lastHash, f, false);
      Running(d, d.head.seqNo, d.head.hash)
    case CutOff(f) =>
      var d := Logged(h, r.disk, r.seqNo, r.lastHash, f, true);
      Running(d, Resumed(d).0, Resumed(d).1)
    case Restart => Running(r.disk, Resumed(r.disk).0, Resumed(r.disk).1)
  }

  function RunActions(h: Hasher, actions: seq<Action>): Running {
    if actions == [] then Running(Disk(None, NoHead), 0, "")
    else Act(h, RunActions(h, actions[..|actions| - 1]), actions[|actions| - 1])
  }

  /** The events of a run, in order. */
  function Events(actions: seq<Action>): seq<Fields> {
    if actions == [] then []
    else
      var init, a := Events(actions[..|actions| - 1]), actions[|actions| - 1];
      if a.Restart? then init else init + [a.f]
  }

  /** How many events the head file knows of. */
  function HeadCount(actions: seq<Action>): (n: nat)
    ensures n <= |Events(actions)|
  {
    if actions == [] then 0
    else if actions[|actions| - 1].Recorded? then |Events(actions)|
    else HeadCount(actions[..|actions| - 1])
  }

  ghost function Entries(d: Disk): seq<Entry> {
    if d.log.Some? && Records(d.log.value).Some? then Records(d.log.value).value else []
  }

  /** What is read back of a log to which these events were written in turn. */
  ghost predicate Written(h: Hasher, es: seq<Entry>, fields: seq<Fields>) {
    |es| == |fields| && forall i :: 0 <= i < |es| ==> WrittenAt(h, es, fields[i], i)
  }

  ghost predicate WrittenAt(h: Hasher, es: seq<Entry>, f: Fields, i: nat)
    requires i < |es|
  {
    var e := NextEntry(h, i, if i == 0 then "" else es[i - 1].hash, f);
    es[i] == e.(fields := Reread(f))
  }

  ghost predicate AllClean(fields: seq<Fields>) {
    forall i :: 0 <= i < |fields| ==> CleanFields(fields[i])
  }

  lemma RereadIs(h: Hasher, n: int, prev: string, f: Fields)
    ensures var e := NextEntry(h, n, prev, f);
            Unmarshal(Marshal(e)) == e.(fields := Reread(f))
  {
    hide Encode;
    hide Decode;
    hide ChainHash;
  }

  /** At one place the hash on file is the hash of what is read back exactly when the fields were clean. */
  lemma HashOnFile(h: Hasher, n: int, prev: string, f: Fields)
    ensures var (e, r) := (NextEntry(h, n, prev, f), NextEntry(h, n, prev, f).(fields := Reread(f)));
            && (CleanFields(f) ==> r.hash == ChainHash(h, r))
            && (Injective(h) && r.hash == ChainHash(h, r) ==> CleanFields(f))
  {
    var e := NextEntry(h, n, prev, f);
    var r := e.(fields := Reread(f));
    RereadClean(f);
    assert e.(hash := "") == Entry(n + 1, prev, f, "");
    if Injective(h) && r.hash == ChainHash(h, r) {
      HashClean(h, r, e);
    }
    hide Injective;
    hide CleanFields;
    hide Reread;
    hide Marshal;
  }

  /** So the log reads as a chain exactly when every event's fields were clean. */
  lemma WrittenChained(h: Hasher, es: seq<Entry>, fields: seq<Fields>)
    requires Written(h, es, fields)
    ensures AllClean(fields) ==> Chained(h, es)
    ensures Injective(h) && Chained(h, es) ==> AllClean(fields)
  {
    forall i | 0 <= i < |es|
      ensures CleanFields(fields[i]) ==> LinkAt(h, es, i)
      ensures Injective(h) && LinkAt(h, es, i) ==> CleanFields(fields[i])
    {
      assert WrittenAt(h, es, fields[i], i);
      HashOnFile(h, i, if i == 0 then "" else es[i - 1].hash, fields[i]);
      hide CleanFields;
      hide Reread;
      hide ChainHash;
      hide Injective;
    }
    hide LinkAt;
    hide CleanFields;
    hide Injective;
    hide Written;
  }

  lemma WrittenSnoc(h: Hasher, es: seq<Entry>, fields: seq<Fields>, f: Fields)
    requires Written(h, es, fields)
    ensures var e := NextEntry(h, |es|, LastHash(es), f).(fields := Reread(f));
            Written(h, es + [e], fields + [f])
  {
    var e := NextEntry(h, |es|, LastHash(es), f).(fields := Reread(f));
    var all := es + [e];
    forall i | 0 <= i < |all|
      ensures WrittenAt(h, all, (fields + [f])[i], i)
    {
      if i < |es| {
        assert WrittenAt(h, es, fields[i], i);
        assert all[i] == es[i] && (i > 0 ==> all[i - 1] == es[i - 1]);
      }
    }
  }

  lemma WrittenLast(h: Hasher, es: seq<Entry>, fields: seq<Fields>)
    requires Written(h, es, fields)
    ensures LastSeq(es) == |es|
  {
    assert es != [] ==> WrittenAt(h, es, fields[|es| - 1], |es| - 1);
    hide Reread;
    hide ChainHash;
  }

  /** The log holds what the events leave when read back. */
  ghost predicate Sound(h: Hasher, d: Disk, es: seq<Entry>, fields: seq<Fields>) {
    && (d.log.Some? ==> Records(d.log.value) == Some(es))
    && (d.log.None? ==> es == [])
    && Written(h, es, fields)
  }

  lemma RecordsSnoc(lines: seq<Line>, w: Wire)
    ensures Records(lines + [Record(w)])
            == if Records(lines).None? then None else Some(Records(lines).value + [Unmarshal(w)])
    ensures LastRecord(lines + [Record(w)]) == Some(Unmarshal(w))
  {
    assert (lines + [Record(w)])[..|lines|] == lines;
    hide Unmarshal;
  }

  lemma LoggedIsWritten(h: Hasher, d: Disk, es: seq<Entry>, fields: seq<Fields>, f: Fields, stopped: bool)
    requires Sound(h, d, es, fields)
    ensures var e := NextEntry(h, |es|, LastHash(es), f);
            var d' := Logged(h, d, |es|, LastHash(es), f, stopped);
            Sound(h, d', es + [e.(fields := Reread(f))], fields + [f]) && Resumed(d') == (|es| + 1, e.hash)
  {
    var e := NextEntry(h, |es|, LastHash(es), f);
    var before := if d.log.Some? then d.log.value else [];
    assert Records(before) == Some(es);
    RecordsSnoc(before, Marshal(e));
    RereadIs(h, |es|, LastHash(es), f);
    WrittenSnoc(h, es, fields, f);
    hide Written;
    hide Records;
    hide LastRecord;
    hide Marshal;
    hide Unmarshal;
    hide Reread;
    hide ChainHash;
  }

  /**
   Where a run has got: the log is its events, numbered and chained as they were written, memory is at the
   end, the head n entries in.
   */
  ghost predicate Reached(h: Hasher, r: Running, fields: seq<Fields>, n: nat) {
    var es := Entries(r.disk);
    && Sound(h, r.disk, es, fields)
    && n <= |es|
    && (r.disk.log.Some? <==> es != [])
    && r.seqNo == LastSeq(es) == |es| && r.lastHash == LastHash(es)
    && r.disk.head == (if n == 0 then NoHead else Head(n, es[n - 1].hash))
  }

  lemma LoggedReaches(h: Hasher, r: Running, fields: seq<Fields>, n: nat, a: Action)
    requires Reached(h, r, fields, n) && !a.Restart?
    ensures Reached(h, Act(h, r, a), fields + [a.f], if a.Recorded? then |fields| + 1 else n)
  {
    var es, f := Entries(r.disk), a.f;
    assert |es| == |fields|;
    var e := NextEntry(h, |es|, LastHash(es), f).(fields := Reread(f));
    LoggedIsWritten(h, r.disk, es, fields, f, a.CutOff?);
    hide Written;
    hide Records;
    hide LastRecord;
    hide ChainHash;
    hide LastSeq;
    hide LastHash;
    hide Marshal;
    hide Reread;
    EndIs(es, e);
    assert Entries(Act(h, r, a).disk) == es + [e];
  }

  lemma EndIs(es: seq<Entry>, e: Entry)
    ensures LastSeq(es + [e]) == e.seqNo && LastHash(es + [e]) == e.hash
  {
  }

  lemma RestartReaches(h: Hasher, r: Running, fields: seq<Fields>, n: nat)
    requires Reached(h, r, fields, n)
    ensures Reached(h, Act(h, r, Restart), fields, n)
  {
    if r.disk.log.Some? {
      LastRecordIsLast(r.disk.log.value);
    }
    hide Written;
    hide Records;
    hide LastRecord;
  }

  lemma NothingReached(h: Hasher)
    ensures Reached(h, RunActions(h, []), [], 0)
  {
  }

  /** Every event of a run is in the log, in order, chained as it was written, and memory is at the end, across restarts. */
  lemma {:induction false} RunIsChained(h: Hasher, actions: seq<Action>)
    ensures Reached(h, RunActions(h, actions), Events(actions), HeadCount(actions))
  {
    if actions == [] {
      NothingReached(h);
    } else {
      var init, a := actions[..|actions| - 1], actions[|actions| - 1];
      RunIsChained(h, init);
      var r := RunActions(h, init);
      if a.Restart? {
        RestartReaches(h, r, Events(init), HeadCount(init));
      } else {
        LoggedReaches(h, r, Events(init), HeadCount(init), a);
      }
      hide Reached;
      hide Act;
    }
  }

  /**
   Over every run of events, cut-off events and restarts, verify accepts exactly when every event's fields
   are clean and the head is missing (nothing has completed yet) or knows of every event. So one failed login
   under a name with a byte that is not UTF-8 makes every later verification report tampering; a cut-off
   event after a completed one is reported, and the next completed event clears it.
   */
  lemma RunVerifies(h: Hasher, actions: seq<Action>)
    requires Injective(h)
    ensures Accepts(h, RunActions(h, actions).disk)
            <==> AllClean(Events(actions)) && (HeadCount(actions) == 0 || HeadCount(actions) == |Events(actions)|)
  {
    RunIsChained(h, actions);
    var d := RunActions(h, actions).disk;
    WrittenChained(h, Entries(d), Events(actions));
    HeadReached(h, RunActions(h, actions), Events(actions), HeadCount(actions));
    hide Written;
    hide Records;
    hide Chained;
    hide HeadMatches;
    hide RunActions;
    hide Events;
    hide HeadCount;
    hide CleanFields;
  }

  /** Of clean events that is so whatever the hash. */
  lemma CleanRunVerifies(h: Hasher, actions: seq<Action>)
    requires AllClean(Events(actions))
    ensures Accepts(h, RunActions(h, actions).disk) <==> HeadCount(actions) == 0 || HeadCount(actions) == |Events(actions)|
  {
    RunIsChained(h, actions);
    var d := RunActions(h, actions).disk;
    WrittenChained(h, Entries(d), Events(actions));
    HeadReached(h, RunActions(h, actions), Events(actions), HeadCount(actions));
    hide Written;
    hide Records;
    hide Chained;
    hide HeadMatches;
    hide RunActions;
    hide Events;
    hide HeadCount;
    hide CleanFields;
  }

  /** The log of a run is one record line for each event. */
  lemma {:induction false} RunLines(h: Hasher, actions: seq<Action>)
    ensures var (d, fields) := (RunActions(h, actions).disk, Events(actions));
            && (d.log.None? ==> fields == [])
            && (d.log.Some? ==> |d.log.value| == |fields|
                                && forall i :: 0 <= i < |fields| ==> d.log.value[i].Record?
                                                                     && Unmarshal(d.log.value[i].w).fields == Reread(fields[i]))
  {
    if actions != [] {
      var init, a := actions[..|actions| - 1], actions[|actions| - 1];
      RunLines(h, init);
      var r := RunActions(h, init);
      if !a.Restart? {
        RereadIs(h, r.seqNo, r.lastHash, a.f);
      }
      hide Marshal;
      hide Unmarshal;
      hide Reread;
      hide ChainHash;
      hide LastRecord;
    }
  }

  predicate UsersEvent(fields: seq<Fields>, user: Text, i: nat)
    requires i < |fields|
  {
    Reread(fields[i]).user == user
  }

  /**
   After any run, a user is answered with the newest events logged under what reads back as their name, as they
   read back, and with nobody else's.
   */
  lemma RunRecent(h: Hasher, actions: seq<Action>, user: Text, limit: nat, out: seq<Entry>, at: seq<nat>)
    requires RunActions(h, actions).disk.log.Some?
    requires Newest(RunActions(h, actions).disk.log.value, user, limit, out, at)
    ensures var fields := Events(actions);
            && |out| == |at| <= limit
            && (forall k :: 0 <= k < |out| ==> at[k] < |fields| && UsersEvent(fields, user, at[k])
                                               && out[k].fields == Reread(fields[at[k]]))
            && (forall j, k :: 0 <= j < k < |at| ==> at[j] > at[k])
            && (forall p ::
                  0 <= p < |fields| && UsersEvent(fields, user, p) && (|out| < limit || (limit > 0 && p > at[limit - 1])) ==>
                    p in at)
  {
    RunLines(h, actions);
    var lines, fields := RunActions(h, actions).disk.log.value, Events(actions);
    hide RunActions;
    hide Events;
    hide Reread;
    hide Unmarshal;
    forall p | 0 <= p < |fields| && UsersEvent(fields, user, p)
      ensures UsersLine(lines, user, p)
    {
    }
  }

  lemma HeadReached(h: Hasher, r: Running, fields: seq<Fields>, n: nat)
    requires Reached(h, r, fields, n)
    ensures HeadMatches(r.disk.head, Entries(r.disk)) <==> n == 0 || n == |fields|
    ensures r.disk.log.None? ==> fields == [] && n == 0
  {
    WrittenLast(h, Entries(r.disk), fields);
    hide Records;
    hide WrittenAt;
  }

  /** A cut-off event is reported once an event had completed, and the next completed event clears it. */
  lemma CutOffThenCleared(h: Hasher, actions: seq<Action>, f: Fields, g: Fields)
    requires AllClean(Events(actions)) && CleanFields(f) && CleanFields(g)
    ensures Accepts(h, RunActions(h, actions + [CutOff(f)]).disk) <==> HeadCount(actions) == 0
    ensures Accepts(h, RunActions(h, actions + [CutOff(f), Restart, Recorded(g)]).disk)
  {
    var a1 := actions + [CutOff(f)];
    var a2 := a1 + [Restart];
    var a3 := a2 + [Recorded(g)];
    assert actions + [CutOff(f), Restart, Recorded(g)] == a3;
    hide *;
    EventsMore(actions, CutOff(f));
    EventsMore(a1, Restart);
    EventsMore(a2, Recorded(g));
    CleanMore(Events(actions), f);
    CleanMore(Events(a1), g);
    CleanRunVerifies(h, a1);
    CleanRunVerifies(h, a3);
  }

  lemma CleanMore(fields: seq<Fields>, f: Fields)
    requires AllClean(fields) && CleanFields(f)
    ensures AllClean(fields + [f])
  {
    hide CleanFields;
  }

  lemma EventsMore(actions: seq<Action>, a: Action)
    ensures var (before, longer) := (Events(actions), actions + [a]);
            && Events(longer) == (if a.Restart? then before else before + [a.f])
            && HeadCount(longer) == if a.Recorded? then |Events(longer)| else HeadCount(actions)
  {
    assert (actions + [a])[..|actions|] == actions;
  }

  /** Once a byte that is not UTF-8 is logged, no verification accepts again, whatever follows. */
  lemma BadByteStays(h: Hasher, a: seq<Action>, f: Fields, b: seq<Action>)
    requires Injective(h) && !CleanFields(f)
    ensures !Accepts(h, RunActions(h, a + [Recorded(f)] + b).disk)
  {
    RunVerifies(h, a + [Recorded(f)] + b);
    EventsHold(a, Recorded(f), b);
    hide RunActions;
    hide Events;
    hide CleanFields;
  }

  lemma {:induction false} EventsHold(a: seq<Action>, x: Action, b: seq<Action>)
    requires !x.Restart?
    ensures exists i :: 0 <= i < |Events(a + [x] + b)| && Events(a + [x] + b)[i] == x.f
  {
    var all := a + [x] + b;
    if b == [] {
      assert all[..|all| - 1] == a && all[|all| - 1] == x;
      assert Events(all)[|Events(a)|] == x.f;
    } else {
      var b' := b[..|b| - 1];
      EventsHold(a, x, b');
      assert all[..|all| - 1] == a + [x] + b';
      var i :| 0 <= i < |Events(a + [x] + b')| && Events(a + [x] + b')[i] == x.f;
      assert Events(all)[i] == x.f;
    }
  }
}
