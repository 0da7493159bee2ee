/**
 The receiver's bookkeeping (cli_recv_watch in src/cli.c): which codes have been handled, in memory and,
 through the log it writes and reads back, across restarts.
 */
module Receiver {
  import opened Bytes
  import opened JsonLog
  import Relay

  const ROOM: nat := 64    // the buffer a code is extracted into
  const ITEM: nat := 40    // the buffer a handled code is kept in
  const LINE: nat := 2048  // the buffer lines are read into

  /** A code as codeset_add keeps it. */
  function Stored(c: string): string {
    if |c| < ITEM then c else c[..ITEM - 1]
  }

  function Add(items: seq<string>, c: string): seq<string> {
    if c in items then items else items + [Stored(c)]
  }

  /** CodeSet: a grown array searched from the front. */
  class CodeSet {
    var items: array<string>
    var count: nat

    ghost predicate Valid()
      reads this
    {
      count <= items.Length
    }

    ghost function Items(): seq<string>
      requires Valid()
      reads this, items
    {
      items[..count]
    }

    constructor ()
      ensures Valid() && Items() == [] && fresh(items)
    {
      items, count := new string[0], 0;
    }

    method Has(c: string) returns (found: bool)
      requires Valid()
      ensures found <==> c in Items()
    {
      for i := 0 to count
        invariant c !in items[..i]
      {
        if items[i] == c {
          assert items[..count][i] == c;
          return true;
        }
      }
      found := false;
    }

    method AddCode(c: string)
      requires Valid()
      modifies this, items
      ensures Valid() && (items == old(items) || fresh(items))
      ensures Items() == Add(old(Items()), c)
    {
      var found := Has(c);
      if found {
        return;
      }
      if count >= items.Length {
        Grow();
      }
      items[count] := if |c| < ITEM then c else c[..ITEM - 1];
      assert items[..count + 1] == items[..count] + [Stored(c)];
      count := count + 1;
    }

    method Grow()
      requires Valid() && count == items.Length
      modifies `items
      ensures Valid() && fresh(items) && count < items.Length
      ensures Items() == old(Items())
    {
      var cap := if items.Length > 0 then items.Length * 2 else 64;
      var bigger := new string[cap];
      for i := 0 to count
        invariant items == old(items) && count == old(count) && items[..] == old(items[..])
        invariant bigger[..i] == items[..i]
      {
        bigger[i] := items[i];
        assert bigger[..i + 1] == bigger[..i] + [bigger[i]] && items[..i + 1] == items[..i] + [items[i]];
      }
      items := bigger;
    }
  }

  datatype Outcome = Received | Gone | Retry

  /** One line of the codes file handled, with the download's outcome; or the process started again. */
  datatype Event = Line(chunk: string, outcome: Outcome, ts: string) | Restart

  datatype Watcher = Watcher(log: string, processed: seq<string>)

  function Status(o: Outcome): string {
    if o == Received then "received" else "failed"
  }

  /** The handled codes a start reads back from the log's lines. */
  function Seed(lines: seq<string>): seq<string> {
    if lines == [] then []
    else
      var init, c := Seed(lines[..|lines| - 1]), Extract(lines[|lines| - 1], ROOM);
      if c.Some? then Add(init, c.value) else init
  }

  /** The line leads to a record: it holds a code not handled yet, and the outcome is final. */
  predicate Writes(w: Watcher, e: Event) {
    && e.Line? && e.outcome != Retry
    && Extract(e.chunk, ROOM).Some?
    && Extract(e.chunk, ROOM).value !in w.processed
  }

  function Step(w: Watcher, e: Event, erelay: string): Watcher {
    if e.Restart? then w.(processed := Seed(Fgets(w.log, LINE)))
    else if !Writes(w, e) then w
    else
      var c := Extract(e.chunk, ROOM).value;
      Watcher(w.log + RecvLine(e.ts, c, Status(e.outcome), erelay), Add(w.processed, c))
  }

  /** A line is passed over when it holds no code or one handled already, or when the network failed. */
  predicate Passed(w: Watcher, chunk: string, outcome: Outcome) {
    Extract(chunk, ROOM).None? || Extract(chunk, ROOM).value in w.processed || outcome == Retry
  }

  /** Otherwise one record with the code and its fate is appended and the code joins the handled ones. */
  lemma StepOutright(w: Watcher, chunk: string, outcome: Outcome, ts: string, erelay: string)
    ensures var w' := Step(w, Line(chunk, outcome, ts), erelay);
            if Passed(w, chunk, outcome) then w' == w
            else
              var c := Extract(chunk, ROOM).value;
              && w'.log == w.log + RecvLine(ts, c, if outcome == Received then "received" else "failed", erelay)
              && w'.processed == w.processed + [if |c| < 40 then c else c[..39]]
    ensures Step(w, Restart, erelay).log == w.log
  {
    hide Extract;
    hide RecvLine;
  }

  function Run(events: seq<Event>, erelay: string): Watcher {
    if events == [] then Watcher("", [])
    else Step(Run(events[..|events| - 1], erelay), events[|events| - 1], erelay)
  }

  /** How many records a run writes for a code. */
  function Records(events: seq<Event>, erelay: string, c: string): nat {
    if events == [] then 0
    else
      var init, e := events[..|events| - 1], events[|events| - 1];
      Records(init, erelay, c)
      + if Writes(Run(init, erelay), e) && Extract(e.chunk, ROOM) == Some(c) then 1 else 0
  }

  /** A piece as fgets returns it. */
  predicate Piece(chunk: string) {
    chunk == "" || '\n' !in chunk[..|chunk| - 1]
  }

  ghost predicate Proper(events: seq<Event>) {
    forall i :: 0 <= i < |events| && events[i].Line? ==> Piece(events[i].chunk) && Stamp(events[i].ts)
  }

  /** The relay's name as it comes out of its 640-byte escape buffer. */
  predicate RelayText(erelay: string) {
    |erelay| < 640 && '\n' !in erelay
  }

  lemma ExtractOneLine(chunk: string)
    requires Piece(chunk) && Extract(chunk, ROOM).Some?
    ensures var c := Extract(chunk, ROOM).value;
            '\n' !in c && c != "" && |c| < ROOM
  {
    hide FindFrom;
    hide FindChar;
    hide SkipBlank;
    hide Token;
    if FindFrom(chunk, KEY, 0).Some? {
      var q1 := FindChar(chunk, '"', FindChar(chunk, ':', FindFrom(chunk, KEY, 0).value).value).value;
      var q2 := FindChar(chunk, '"', q1 + 1).value;
      assert chunk[q1 + 1..q2] == chunk[..|chunk| - 1][q1 + 1..q2];
    } else {
      TokenOneLine(SkipBlank(chunk));
    }
  }

  lemma TokenOneLine(s: string)
    ensures '\n' !in Token(s)
  {
  }

  /** A record is one line that a restart reads in one piece. */
  lemma RecordIsLine(ts: string, c: string, o: Outcome, erelay: string)
    requires Stamp(ts) && RelayText(erelay) && '\n' !in c && |c| < ROOM
    ensures var line := RecvLine(ts, c, Status(o), erelay);
            line != "" && line[|line| - 1] == '\n' && '\n' !in line[..|line| - 1] && |line| < LINE
  {
    var head := TIME + ts + "\"," + KEY + ":\"" + c + "\"";
    HeadIsClean(ts, c);
    TailIsLine(Status(o), erelay);
    hide RecvTail;
    JoinIsLine(head, RecvTail(Status(o), erelay));
  }

  lemma HeadIsClean(ts: string, c: string)
    requires Stamp(ts) && '\n' !in c
    ensures var head := TIME + ts + "\"," + KEY + ":\"" + c + "\"";
            '\n' !in head && |head| == 20 + |ts| + |c|
  {
  }

  lemma TailIsLine(status: string, erelay: string)
    requires '\n' !in status && '\n' !in erelay
    ensures var t := RecvTail(status, erelay);
            t[|t| - 1] == '\n' && '\n' !in t[..|t| - 1] && |t| == 25 + |status| + |erelay|
  {
    var body := ",\"status\":\"" + status + "\",\"relay\":\"" + erelay + "\"}";
    var t := RecvTail(status, erelay);
    assert t == body + "\n" && t[..|t| - 1] == body;
  }

  lemma JoinIsLine(head: string, t: string)
    requires '\n' !in head && t != "" && t[|t| - 1] == '\n' && '\n' !in t[..|t| - 1]
    ensures var line := head + t;
            line != "" && line[|line| - 1] == '\n' && '\n' !in line[..|line| - 1]
  {
    assert (head + t)[..|head + t| - 1] == head + t[..|t| - 1];
  }

  lemma SeedSnoc(lines: seq<string>, line: string)
    ensures Seed(lines + [line]) ==
            if Extract(line, ROOM).Some? then Add(Seed(lines), Extract(line, ROOM).value) else Seed(lines)
  {
    assert (lines + [line])[..|lines|] == lines;
  }

  lemma SeedNone()
    ensures Seed([]) == []
  {
  }

  /** What a run keeps for a code that fits its buffer and holds no quote. */
  ghost predicate Remembers(w: Watcher, n: nat, c: string) {
    && (w.log == "" || w.log[|w.log| - 1] == '\n')
    && n <= 1
    && (n == 1 ==> c in w.processed && c in Seed(Fgets(w.log, LINE)))
  }

  lemma StepRemembers(w: Watcher, n: nat, e: Event, erelay: string, c: string)
    requires Remembers(w, n, c) && RelayText(erelay) && |c| < ITEM && '"' !in c
    requires e.Line? ==> Piece(e.chunk) && Stamp(e.ts)
    ensures Remembers(Step(w, e, erelay), n + if Writes(w, e) && Extract(e.chunk, ROOM) == Some(c) then 1 else 0, c)
  {
    hide Extract;
    hide Fgets;
    hide Seed;
    if Writes(w, e) {
      var d := Extract(e.chunk, ROOM).value;
      ExtractOneLine(e.chunk);
      var line := RecvLine(e.ts, d, Status(e.outcome), erelay);
      RecordIsLine(e.ts, d, e.outcome, erelay);
      FgetsAppend(w.log, line, LINE);
      SeedSnoc(Fgets(w.log, LINE), line);
      RecvRoundTrip(e.ts, d, Status(e.outcome), erelay, ROOM);
      hide RecvLine;
    }
  }

  lemma {:induction false} RunRemembers(events: seq<Event>, erelay: string, c: string)
    requires Proper(events) && RelayText(erelay) && |c| < ITEM && '"' !in c
    ensures Remembers(Run(events, erelay), Records(events, erelay, c), c)
  {
    if events != [] {
      var init, e := events[..|events| - 1], events[|events| - 1];
      RunRemembers(init, erelay, c);
      hide Step;
      hide Writes;
      StepRemembers(Run(init, erelay), Records(init, erelay, c), e, erelay, c);
    }
  }

  /** The shortest run that records an unfit code twice. */
  function TwiceRun(chunk: string, c: string, ts: string): seq<Event> {
    var again := Line(chunk, Gone, ts);
    if |c| >= ITEM then [again, again] else [again, Restart, again]
  }

  lemma RunSnoc(events: seq<Event>, e: Event, erelay: string, c: string)
    ensures Run(events + [e], erelay) == Step(Run(events, erelay), e, erelay)
    ensures Records(events + [e], erelay, c) == Records(events, erelay, c)
            + if Writes(Run(events, erelay), e) && Extract(e.chunk, ROOM) == Some(c) then 1 else 0
  {
    assert (events + [e])[..|events|] == events;
  }

  lemma FirstRecord(chunk: string, c: string, ts: string, erelay: string)
    requires Extract(chunk, ROOM) == Some(c)
    ensures var again := Line(chunk, Gone, ts);
            && Run([again], erelay) == Watcher(RecvLine(ts, c, "failed", erelay), [Stored(c)])
            && Records([again], erelay, c) == 1
  {
    hide Extract;
    hide RecvLine;
    var again := Line(chunk, Gone, ts);
    RunSnoc([], again, erelay, c);
    assert [] + [again] == [again];
    assert "" + RecvLine(ts, c, "failed", erelay) == RecvLine(ts, c, "failed", erelay);
  }

  /** The next look at the same line records it again when it is not among the handled codes. */
  lemma RecordsAgain(events: seq<Event>, chunk: string, c: string, ts: string, erelay: string)
    requires Extract(chunk, ROOM) == Some(c) && c !in Run(events, erelay).processed
    ensures Records(events + [Line(chunk, Gone, ts)], erelay, c) == Records(events, erelay, c) + 1
  {
    hide Extract;
    RunSnoc(events, Line(chunk, Gone, ts), erelay, c);
  }

  /** What a restart reads back from one record. */
  lemma {:induction false} ReadBack(chunk: string, c: string, ts: string, erelay: string)
    requires Piece(chunk) && Extract(chunk, ROOM) == Some(c) && Stamp(ts) && RelayText(erelay)
    ensures Seed(Fgets(RecvLine(ts, c, "failed", erelay), LINE))
            == if BeforeQuote(c) == "" then [] else [Stored(BeforeQuote(c))]
  {
    hide Extract;
    hide Fgets;
    hide Seed;
    hide BeforeQuote;
    var line := RecvLine(ts, c, "failed", erelay);
    ExtractOneLine(chunk);
    RecordIsLine(ts, c, Gone, erelay);
    FgetsAppend("", line, LINE);
    FgetsNone(LINE);
    SeedSnoc([], line);
    SeedNone();
    RecvRoundTrip(ts, c, "failed", erelay, ROOM);
    hide RecvLine;
    assert "" + line == line && [] + [line] == [line];
  }

  /** Read back, the record of a code with a quote yields a shorter code. */
  lemma {:induction false} RestartForgets(chunk: string, c: string, ts: string, erelay: string)
    requires Piece(chunk) && Extract(chunk, ROOM) == Some(c) && Stamp(ts) && RelayText(erelay) && '"' in c
    ensures c !in Seed(Fgets(RecvLine(ts, c, "failed", erelay), LINE))
  {
    ReadBack(chunk, c, ts, erelay);
    QuoteShortens(c);
    hide Extract;
    hide Fgets;
    hide Seed;
    hide RecvLine;
    assert '"' !in BeforeQuote(c);
  }

  lemma RecordedTwice(chunk: string, c: string, ts: string, erelay: string)
    requires Piece(chunk) && Extract(chunk, ROOM) == Some(c) && Stamp(ts) && RelayText(erelay)
    requires |c| >= ITEM || '"' in c
    ensures Proper(TwiceRun(chunk, c, ts)) && Records(TwiceRun(chunk, c, ts), erelay, c) == 2
  {
    hide Extract;
    hide Records;
    hide RecvLine;
    var again := Line(chunk, Gone, ts);
    FirstRecord(chunk, c, ts, erelay);
    if |c| >= ITEM {
      RecordsAgain([again], chunk, c, ts, erelay);
      assert [again] + [again] == [again, again];
    } else {
      RestartForgets(chunk, c, ts, erelay);
      RunSnoc([again], Restart, erelay, c);
      assert [again] + [Restart] == [again, Restart] && [again, Restart] + [again] == [again, Restart, again];
      hide Run;
      hide Fgets;
      hide Seed;
      RecordsAgain([again, Restart], chunk, c, ts, erelay);
    }
  }

  /**
   At most one record per code, over every run with restarts, exactly for the codes that fit the 40-byte
   buffer and hold no quote; the relay's 26-character codes are among them.
   */
  lemma RecordedOnceExactly(chunk: string, c: string, erelay: string)
    requires Piece(chunk) && Extract(chunk, ROOM) == Some(c) && RelayText(erelay)
    ensures (forall events :: Proper(events) ==> Records(events, erelay, c) <= 1)
            <==> |c| < ITEM && '"' !in c
  {
    if |c| < ITEM && '"' !in c {
      forall events | Proper(events)
        ensures Records(events, erelay, c) <= 1
      {
        RunRemembers(events, erelay, c);
      }
    } else {
      RecordedTwice(chunk, c, "2024-01-01T00:00:00", erelay);
    }
  }

  /** A code the log and the set keep as it is. */
  predicate Plain(c: string) {
    |c| < ITEM && '"' !in c
  }

  ghost predicate PlainLines(events: seq<Event>) {
    forall i :: 0 <= i < |events| && events[i].Line? && Extract(events[i].chunk, ROOM).Some? ==>
      Plain(Extract(events[i].chunk, ROOM).value)
  }

  /** What counts as handled, in memory and in what a restart would read back, is what has a record. */
  ghost predicate HandledIs(w: Watcher, c: string, n: nat) {
    && (w.log == "" || w.log[|w.log| - 1] == '\n')
    && (c in w.processed <==> n >= 1)
    && (c in Seed(Fgets(w.log, LINE)) <==> n >= 1)
  }

  lemma {:induction false} StepHandles(w: Watcher, n: nat, e: Event, erelay: string, c: string)
    requires HandledIs(w, c, n) && RelayText(erelay)
    requires e.Line? ==> Piece(e.chunk) && Stamp(e.ts)
    requires e.Line? && Extract(e.chunk, ROOM).Some? ==> Plain(Extract(e.chunk, ROOM).value)
    ensures HandledIs(Step(w, e, erelay), c, n + if Writes(w, e) && Extract(e.chunk, ROOM) == Some(c) then 1 else 0)
  {
    hide Extract;
    hide Fgets;
    hide Seed;
    if Writes(w, e) {
      var d := Extract(e.chunk, ROOM).value;
      ExtractOneLine(e.chunk);
      var line := RecvLine(e.ts, d, Status(e.outcome), erelay);
      RecordIsLine(e.ts, d, e.outcome, erelay);
      FgetsAppend(w.log, line, LINE);
      SeedSnoc(Fgets(w.log, LINE), line);
      RecvRoundTrip(e.ts, d, Status(e.outcome), erelay, ROOM);
      hide RecvLine;
    }
  }

  /**
   No code is skipped by mistake: over every run whose codes fit the set's items and hold no quote, a code
   counts as handled exactly when it has a record.
   */
  lemma {:induction false} HandledIffRecorded(events: seq<Event>, erelay: string, c: string)
    requires Proper(events) && RelayText(erelay) && PlainLines(events)
    ensures c in Run(events, erelay).processed <==> Records(events, erelay, c) >= 1
    ensures HandledIs(Run(events, erelay), c, Records(events, erelay, c))
  {
    hide Extract;
    hide Step;
    hide Writes;
    if events == [] {
      NothingHandled(c);
    } else {
      var init, e := events[..|events| - 1], events[|events| - 1];
      HandledIffRecorded(init, erelay, c);
      StepHandles(Run(init, erelay), Records(init, erelay, c), e, erelay, c);
    }
  }

  lemma NothingHandled(c: string)
    ensures HandledIs(Watcher("", []), c, 0)
  {
    FgetsNone(LINE);
  }

  ghost predicate OnlyLine(events: seq<Event>, chunk: string) {
    forall i :: 0 <= i < |events| && events[i].Line? ==> events[i].chunk == chunk
  }

  /** Some code other than the line's own counts as handled, without a record. */
  ghost predicate Skips(events: seq<Event>, erelay: string, d: string, c: string) {
    c != d && c in Run(events, erelay).processed && Records(events, erelay, c) == 0
  }

  ghost predicate OnlyHolds(w: Watcher, d: string) {
    && (w.log == "" || w.log[|w.log| - 1] == '\n')
    && (forall c :: c in w.processed ==> c == d)
    && (forall c :: c in Seed(Fgets(w.log, LINE)) ==> c == d)
  }

  lemma {:induction false} OnlyStep(w: Watcher, e: Event, erelay: string, d: string)
    requires OnlyHolds(w, d) && RelayText(erelay) && |d| < ITEM && ('"' !in d || d[0] == '"')
    requires e.Line? ==> Piece(e.chunk) && Stamp(e.ts) && Extract(e.chunk, ROOM) == Some(d)
    ensures OnlyHolds(Step(w, e, erelay), d)
  {
    hide Extract;
    hide Fgets;
    hide Seed;
    if Writes(w, e) {
      ExtractOneLine(e.chunk);
      var line := RecvLine(e.ts, d, Status(e.outcome), erelay);
      RecordIsLine(e.ts, d, e.outcome, erelay);
      FgetsAppend(w.log, line, LINE);
      SeedSnoc(Fgets(w.log, LINE), line);
      RecvRoundTrip(e.ts, d, Status(e.outcome), erelay, ROOM);
      assert d[0] == '"' ==> BeforeQuote(d) == "";
      hide RecvLine;
    }
  }

  lemma {:induction false} OnlyRun(events: seq<Event>, chunk: string, erelay: string, d: string)
    requires Proper(events) && OnlyLine(events, chunk) && Extract(chunk, ROOM) == Some(d)
    requires RelayText(erelay) && |d| < ITEM && ('"' !in d || d[0] == '"')
    ensures OnlyHolds(Run(events, erelay), d)
  {
    hide Extract;
    hide Step;
    if events == [] {
      FgetsNone(LINE);
    } else {
      var init, e := events[..|events| - 1], events[|events| - 1];
      OnlyRun(init, chunk, erelay, d);
      OnlyStep(Run(init, erelay), e, erelay, d);
    }
  }

  /** A first record, then a restart that reads it back. */
  lemma {:induction false} CutReadsBack(chunk: string, d: string, ts: string, erelay: string)
    requires Piece(chunk) && Extract(chunk, ROOM) == Some(d) && Stamp(ts) && RelayText(erelay)
    requires |d| < ITEM && '"' in d && d[0] != '"'
    ensures var events := [Line(chunk, Gone, ts), Restart];
            BeforeQuote(d) in Run(events, erelay).processed && Records(events, erelay, BeforeQuote(d)) == 0
  {
    var first, c := Line(chunk, Gone, ts), BeforeQuote(d);
    assert c != "" && |c| < |d| && Stored(c) == c by {
      QuoteShortens(d);
    }
    hide *;
    RestartAfterFirst(chunk, d, ts, erelay, c);
    ReadBack(chunk, d, ts, erelay);
  }

  /** One record and a restart: what is handled is what was read back, and nothing else has a record. */
  lemma {:induction false} RestartAfterFirst(chunk: string, d: string, ts: string, erelay: string, c: string)
    requires Extract(chunk, ROOM) == Some(d)
    ensures var events := [Line(chunk, Gone, ts), Restart];
            && Run(events, erelay).processed == Seed(Fgets(RecvLine(ts, d, "failed", erelay), LINE))
            && (c != d ==> Records(events, erelay, c) == 0)
  {
    hide *;
    var first := Line(chunk, Gone, ts);
    FirstRecord(chunk, d, ts, erelay);
    RestartStep(Run([first], erelay), erelay);
    RunSnoc([], first, erelay, c);
    RunSnoc([first], Restart, erelay, c);
    OneByOne(first, Restart);
    NoRecords(first, erelay, c);
  }

  lemma RestartStep(w: Watcher, erelay: string)
    ensures Step(w, Restart, erelay).processed == Seed(Fgets(w.log, LINE)) && !Writes(w, Restart)
  {
    hide Seed;
    hide Fgets;
  }

  lemma OneByOne(a: Event, b: Event)
    ensures [] + [a] == [a] && [a] + [b] == [a, b]
  {
  }

  lemma NoRecords(e: Event, erelay: string, c: string)
    ensures Records([], erelay, c) == 0
    ensures Writes(Run([], erelay), e) ==> e.Line? && Extract(e.chunk, ROOM).Some?
  {
    hide Extract;
  }

  /**
   Which lines make a code count as handled that was never fetched: exactly those whose code is cut by the
   set's 40-byte items, or by a quote it does not start with. Then what is left of it is skipped.
   */
  lemma {:induction false} FalseSkipExactly(chunk: string, d: string, erelay: string)
    requires Piece(chunk) && Extract(chunk, ROOM) == Some(d) && RelayText(erelay)
    ensures (exists events, c :: Proper(events) && OnlyLine(events, chunk) && Skips(events, erelay, d, c))
            <==> |d| >= ITEM || ('"' in d && d[0] != '"')
  {
    var ts := "2024-01-01T00:00:00";
    if |d| >= ITEM {
      LongSkips(chunk, d, ts, erelay);
    } else if '"' in d && d[0] != '"' {
      QuotedSkips(chunk, d, ts, erelay);
    } else {
      forall events, c | Proper(events) && OnlyLine(events, chunk)
        ensures !Skips(events, erelay, d, c)
      {
        OnlyRun(events, chunk, erelay, d);
        hide *;
        OnlySkips(events, erelay, d, c);
      }
    }
    hide *;
  }

  lemma OnlySkips(events: seq<Event>, erelay: string, d: string, c: string)
    requires OnlyHolds(Run(events, erelay), d)
    ensures !Skips(events, erelay, d, c)
  {
    hide Run;
    hide Records;
  }

  lemma {:induction false} LongSkips(chunk: string, d: string, ts: string, erelay: string)
    requires Extract(chunk, ROOM) == Some(d) && Stamp(ts) && Piece(chunk) && |d| >= ITEM
    ensures exists events, c :: Proper(events) && OnlyLine(events, chunk) && Skips(events, erelay, d, c)
  {
    hide Extract;
    var first := Line(chunk, Gone, ts);
    FirstRecord(chunk, d, ts, erelay);
    RunSnoc([], first, erelay, Stored(d));
    assert [] + [first] == [first];
    hide Run;
    hide RecvLine;
    assert Skips([first], erelay, d, Stored(d));
    assert Proper([first]) && OnlyLine([first], chunk);
  }

  lemma {:induction false} QuotedSkips(chunk: string, d: string, ts: string, erelay: string)
    requires Piece(chunk) && Extract(chunk, ROOM) == Some(d) && Stamp(ts) && RelayText(erelay)
    requires |d| < ITEM && '"' in d && d[0] != '"'
    ensures exists events, c :: Proper(events) && OnlyLine(events, chunk) && Skips(events, erelay, d, c)
  {
    var events := [Line(chunk, Gone, ts), Restart];
    CutReadsBack(chunk, d, ts, erelay);
    QuoteShortens(d);
    hide *;
    SkipIs(events, erelay, d, BeforeQuote(d));
    ProperTwo(chunk, ts);
  }

  lemma ProperTwo(chunk: string, ts: string)
    requires Piece(chunk) && Stamp(ts)
    ensures var events := [Line(chunk, Gone, ts), Restart];
            Proper(events) && OnlyLine(events, chunk)
  {
  }

  lemma SkipIs(events: seq<Event>, erelay: string, d: string, c: string)
    requires c != d && c in Run(events, erelay).processed && Records(events, erelay, c) == 0
    ensures Skips(events, erelay, d, c)
  {
  }

  /** The relay's claim codes are of the kind that is recorded once. */
  lemma RelayCodesFit(c: string)
    requires Relay.ValidCode(c)
    ensures |c| < ITEM && '"' !in c && c != "" && c != "code"
  {
  }

  /** The watch loop's state: the log file and the set of handled codes. */
  class WatchLoop {
    var log: string
    var handled: CodeSet
    const erelay: string

    ghost predicate Valid()
      reads this, handled
    {
      handled.Valid()
    }

    ghost function State(): Watcher
      requires Valid()
      reads this, handled, handled.items
    {
      Watcher(log, handled.Items())
    }

    /** A start: the handled codes are read back from the log. */
    constructor (log: string, erelay: string)
      ensures Valid() && fresh(handled) && fresh(handled.items)
      ensures this.erelay == erelay
      ensures State() == Watcher(log, Seed(Fgets(log, LINE)))
    {
      hide Extract;
      hide Fgets;
      hide Seed;
      hide Add;
      this.log, this.erelay := log, erelay;
      handled := new CodeSet();
      new;
      SeedNone();
      var lines := Fgets(log, LINE);
      for i := 0 to |lines|
        invariant Valid() && this.log == log && this.erelay == erelay
        invariant fresh(handled) && fresh(handled.items)
        invariant handled.Items() == Seed(lines[..i])
      {
        assert lines[..i + 1] == lines[..i] + [lines[i]];
        SeedSnoc(lines[..i], lines[i]);
        var c := ExtractCodeFromLine(lines[i], ROOM);
        if c.Some? {
          handled.AddCode(c.value);
        }
      }
      assert lines[..|lines|] == lines;
    }

    /** One line of one pass: skip, or download and record. */
    method HandleLine(chunk: string, outcome: Outcome, ts: string)
      requires Valid()
      modifies this, handled, handled.items
      ensures Valid() && handled == old(handled)
      ensures handled.items == old(handled.items) || fresh(handled.items)
      ensures State() == Step(old(State()), Line(chunk, outcome, ts), erelay)
      ensures old(Passed(State(), chunk, outcome)) ==> State() == old(State())
      ensures !old(Passed(State(), chunk, outcome)) ==>
                var c := Extract(chunk, ROOM).value;
                && log == old(log) + RecvLine(ts, c, if outcome == Received then "received" else "failed", erelay)
                && handled.Items() == old(handled.Items()) + [if |c| < 40 then c else c[..39]]
    {
      var c := ExtractCodeFromLine(chunk, ROOM);
      if c.None? {
        return;
      }
      var done := handled.Has(c.value);
      if done || outcome == Retry {
        return;
      }
      log := log + RecvLine(ts, c.value, if outcome == Received then "received" else "failed", erelay);
      handled.AddCode(c.value);
    }
  }
}
