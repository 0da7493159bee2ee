/**
 The log lines of src/cli.c: escaping, the two printers, the line reader and the parser that reads codes
 back. Strings are C strings without their terminating zero, one char a byte.
 */
module JsonLog {
  import opened Bytes

  /** What json_escape writes for one character. */
  function Escaped(c: char): string {
    if c == '"' || c == '\\' then ['\\', c]
    else if c == '\n' then "\\n"
    else if c == '\r' then "\\r"
    else if c == '\t' then "\\t"
    else if c >= ' ' then [c]
    else ""
  }

  /** json_escape into a buffer of `room` bytes of which `used` are written. */
  function EscapeFrom(src: string, used: nat, room: nat): (r: string)
    ensures used < room ==> used + |r| < room
  {
    if src == [] || used + 2 >= room then ""
    else Escaped(src[0]) + EscapeFrom(src[1..], used + |Escaped(src[0])|, room)
  }

  function EscapeAll(src: string): string {
    if src == [] then "" else EscapeAll(src[..|src| - 1]) + Escaped(src[|src| - 1])
  }

  lemma {:induction false} EscapeAllFront(src: string)
    requires src != []
    ensures EscapeAll(src) == Escaped(src[0]) + EscapeAll(src[1..])
  {
    hide Escaped;
    var init, c := src[..|src| - 1], src[|src| - 1];
    if init == [] {
      assert EscapeAll(init) == "" && EscapeAll(src[1..]) == "";
    } else {
      EscapeAllFront(init);
      assert src[1..][..|src| - 2] == init[1..] && src[1..][|src| - 2] == c;
      Regroup(Escaped(src[0]), EscapeAll(init[1..]), Escaped(c));
    }
  }

  lemma Regroup(a: string, b: string, c: string)
    ensures (a + b) + c == a + (b + c)
  {
  }

  /** A buffer of twice the length and two bytes more never truncates. */
  lemma {:induction false} EscapeFits(src: string, used: nat, room: nat)
    requires used + 2 * |src| + 2 <= room
    ensures EscapeFrom(src, used, room) == EscapeAll(src)
  {
    if src != [] {
      EscapeFits(src[1..], used + |Escaped(src[0])|, room);
      EscapeAllFront(src);
    }
  }

  /** In a smaller buffer stands the escaped form of as long a front of the text as leaves room for two bytes more. */
  lemma {:induction false} EscapeCut(src: string, used: nat, room: nat) returns (k: nat)
    ensures k <= |src| && EscapeFrom(src, used, room) == EscapeAll(src[..k])
    ensures k < |src| ==> used + |EscapeAll(src[..k])| + 2 >= room
    ensures forall j :: 0 <= j < k ==> used + |EscapeAll(src[..j])| + 2 < room
    decreases |src|
  {
    if src == "" || used + 2 >= room {
      CutNone(src, used, room);
      return 0;
    }
    EscapeStep(src, used, room);
    hide *;
    var rest, m := src[1..], used + |Escaped(src[0])|;
    var r := EscapeCut(rest, m, room);
    k := r + 1;
    EscapeNone(src);
    FrontTake(src, k);
    forall j | 0 < j < k
      ensures used + |EscapeAll(src[..j])| + 2 < room
    {
      FrontTake(src, j);
      assert m + |EscapeAll(rest[..j - 1])| + 2 < room;
    }
  }

  lemma CutNone(src: string, used: nat, room: nat)
    requires src == "" || used + 2 >= room
    ensures EscapeFrom(src, used, room) == EscapeAll(src[..0]) == ""
  {
  }

  lemma FrontTake(src: string, j: nat)
    requires 0 < j <= |src|
    ensures EscapeAll(src[..j]) == Escaped(src[0]) + EscapeAll(src[1..][..j - 1])
  {
    EscapeAllFront(src[..j]);
    assert src[..j][1..] == src[1..][..j - 1];
    hide EscapeAll;
    hide Escaped;
  }

  lemma EscapeNone(src: string)
    ensures EscapeAll(src[..0]) == ""
  {
  }

  method JsonEscape(src: string, room: nat) returns (dst: string)
    requires room > 0
    ensures dst == EscapeFrom(src, 0, room) && |dst| < room
  {
    hide Escaped;
    dst := "";
    var i := 0;
    assert src[0..] == src;
    while i < |src| && |dst| + 2 < room
      invariant i <= |src| && |dst| < room
      invariant dst + EscapeFrom(src[i..], |dst|, room) == EscapeFrom(src, 0, room)
      decreases |src| - i
    {
      EscapeStep(src[i..], |dst|, room);
      assert src[i..][1..] == src[i + 1..];
      var piece := EscapeOne(src[i]);
      Regroup(dst, piece, EscapeFrom(src[i + 1..], |dst| + |piece|, room));
      dst := dst + piece;
      i := i + 1;
    }
  }

  lemma EscapeStep(src: string, used: nat, room: nat)
    requires src != [] && used + 2 < room
    ensures EscapeFrom(src, used, room)
            == Escaped(src[0]) + EscapeFrom(src[1..], used + |Escaped(src[0])|, room)
    ensures |Escaped(src[0])| <= 2
  {
  }

  method EscapeOne(c: char) returns (piece: string)
    ensures piece == Escaped(c)
  {
    if c == '"' || c == '\\' {
      piece := ['\\', c];
    } else if c == '\n' {
      piece := "\\n";
    } else if c == '\r' {
      piece := "\\r";
    } else if c == '\t' {
      piece := "\\t";
    } else if c >= ' ' {
      piece := [c];
    } else {
      piece := "";
    }
  }

  /** Quotes only ever follow a backslash, and no newline is left. */
  ghost predicate EscapedText(e: string) {
    && '\n' !in e
    && (e != "" ==> e[0] != '"')
    && forall j :: 0 < j < |e| && e[j] == '"' ==> e[j - 1] == '\\'
  }

  lemma {:induction false} EscapeAllText(src: string)
    ensures EscapedText(EscapeAll(src))
  {
    if src != [] {
      EscapeAllText(src[..|src| - 1]);
    }
  }

  lemma {:induction false} EscapeFromNoNewline(src: string, used: nat, room: nat)
    ensures '\n' !in EscapeFrom(src, used, room)
  {
    if src != [] && used + 2 < room {
      EscapeStep(src, used, room);
      NoNewline(src[0]);
      hide *;
      EscapeFromNoNewline(src[1..], used + |Escaped(src[0])|, room);
    }
  }

  lemma NoNewline(c: char)
    ensures '\n' !in Escaped(c)
  {
  }

  /** strchr from position i. */
  function FindChar(s: string, c: char, i: nat): (r: Option<nat>)
    requires i <= |s|
    ensures r.Some? ==> i <= r.value < |s| && s[r.value] == c && c !in s[i..r.value]
    ensures r.None? ==> c !in s[i..]
    decreases |s| - i
  {
    if i == |s| then None
    else if s[i] == c then Some(i)
    else
      var r := FindChar(s, c, i + 1);
      assert s[i..] == [s[i]] + s[i + 1..];
      assert r.Some? ==> s[i..r.value] == [s[i]] + s[i + 1..r.value];
      r
  }

  lemma FoundChar(s: string, c: char, i: nat, j: nat)
    requires i <= j < |s| && s[j] == c && c !in s[i..j]
    ensures FindChar(s, c, i) == Some(j)
    decreases j - i
  {
    if i < j {
      assert s[i..j][0] == s[i];
      assert s[i + 1..j] == s[i..j][1..];
      FoundChar(s, c, i + 1, j);
    }
  }

  predicate At(s: string, p: string, i: nat) {
    i + |p| <= |s| && s[i..i + |p|] == p
  }

  /** strstr from position i. */
  function FindFrom(s: string, p: string, i: nat): (r: Option<nat>)
    requires i <= |s|
    ensures r.Some? ==> i <= r.value && At(s, p, r.value) && forall j :: i <= j < r.value ==> !At(s, p, j)
    ensures r.None? ==> forall j :: i <= j <= |s| ==> !At(s, p, j)
    decreases |s| - i
  {
    if At(s, p, i) then Some(i)
    else if i == |s| then None
    else FindFrom(s, p, i + 1)
  }

  lemma FoundAt(s: string, p: string, i: nat)
    requires At(s, p, i) && forall j :: 0 <= j < i ==> !At(s, p, j)
    ensures FindFrom(s, p, 0) == Some(i)
  {
  }

  const KEY := "\"code\""

  predicate Blank(c: char) {
    c == ' ' || c == '\t' || c == '\r' || c == '\n'
  }

  function SkipBlank(s: string): string {
    if s != [] && Blank(s[0]) then SkipBlank(s[1..]) else s
  }

  function Token(s: string): (r: string)
    ensures r <= s && forall i :: 0 <= i < |r| ==> !Blank(r[i])
  {
    if s == [] || Blank(s[0]) then "" else [s[0]] + Token(s[1..])
  }

  function Sized(code: string, room: nat): Option<string> {
    if code == "" || |code| >= room then None else Some(code)
  }

  /** extract_code_from_line: the quoted value after the first "code" key, else the first bare token. */
  function Extract(line: string, room: nat): Option<string> {
    match FindFrom(line, KEY, 0)
    case Some(k) =>
      (match FindChar(line, ':', k)
       case None => None
       case Some(colon) =>
         match FindChar(line, '"', colon)
         case None => None
         case Some(q1) =>
           match FindChar(line, '"', q1 + 1)
           case None => None
           case Some(q2) => Sized(line[q1 + 1..q2], room))
    case None => BareCode(line, room)
  }

  method ExtractCodeFromLine(line: string, room: nat) returns (code: Option<string>)
    ensures code == Extract(line, room)
  {
    hide FindFrom;
    hide FindChar;
    hide BareCode;
    var k := FindFrom(line, KEY, 0);
    if k.Some? {
      var colon := FindChar(line, ':', k.value);
      if colon.None? {
        return None;
      }
      var q1 := FindChar(line, '"', colon.value);
      if q1.None? {
        return None;
      }
      var q2 := FindChar(line, '"', q1.value + 1);
      if q2.None? {
        return None;
      }
      var n := q2.value - (q1.value + 1);
      if n == 0 || n >= room {
        return None;
      }
      return Some(line[q1.value + 1..q2.value]);
    }
    code := BareToken(line, room);
  }

  function BareCode(line: string, room: nat): Option<string> {
    var rest := SkipBlank(line);
    if rest == "" || rest[0] == '#' then None else Sized(Token(rest), room)
  }

  method BareToken(line: string, room: nat) returns (code: Option<string>)
    ensures code == BareCode(line, room)
  {
    var start := 0;
    assert line[0..] == line;
    while start < |line| && Blank(line[start])
      invariant start <= |line| && SkipBlank(line[start..]) == SkipBlank(line)
    {
      assert line[start..][1..] == line[start + 1..];
      start := start + 1;
    }
    var rest := line[start..];
    assert rest == SkipBlank(line);
    if rest == "" || rest[0] == '#' {
      return None;
    }
    var n := TokenLength(rest);
    if n == 0 || n >= room {
      return None;
    }
    code := Some(rest[..n]);
  }

  /**
   A line without the key: what stands first behind the blanks, up to a blank or the end, is its code when it
   does not start with the comment sign and fits the buffer.
   */
  lemma {:induction false} BareAt(blanks: string, token: string, rest: string, room: nat)
    requires forall i :: 0 <= i < |blanks| ==> Blank(blanks[i])
    requires token != "" && token[0] != '#' && forall i :: 0 <= i < |token| ==> !Blank(token[i])
    requires rest == "" || Blank(rest[0])
    requires forall j :: 0 <= j <= |blanks + token + rest| ==> !At(blanks + token + rest, KEY, j)
    ensures Extract(blanks + token + rest, room) == if |token| < room then Some(token) else None
  {
    SkipAt(blanks, token + rest);
    TokenAt(token, rest);
    assert blanks + token + rest == blanks + (token + rest) && (token + rest)[0] == token[0];
    hide SkipBlank;
    hide Token;
    hide FindFrom;
  }

  /** Blank lines and comments hold none. */
  lemma {:induction false} NothingBare(blanks: string, rest: string, room: nat)
    requires forall i :: 0 <= i < |blanks| ==> Blank(blanks[i])
    requires rest == "" || rest[0] == '#'
    requires forall j :: 0 <= j <= |blanks + rest| ==> !At(blanks + rest, KEY, j)
    ensures Extract(blanks + rest, room) == None
  {
    SkipAt(blanks, rest);
    hide SkipBlank;
    hide Token;
    hide FindFrom;
  }

  lemma {:induction false} SkipAt(blanks: string, rest: string)
    requires forall i :: 0 <= i < |blanks| ==> Blank(blanks[i])
    requires rest == "" || !Blank(rest[0])
    ensures SkipBlank(blanks + rest) == rest
  {
    if blanks == "" {
      assert blanks + rest == rest;
    } else {
      assert (blanks + rest)[1..] == blanks[1..] + rest;
      SkipAt(blanks[1..], rest);
    }
  }

  lemma {:induction false} TokenAt(token: string, rest: string)
    requires forall i :: 0 <= i < |token| ==> !Blank(token[i])
    requires rest == "" || Blank(rest[0])
    ensures Token(token + rest) == token
  {
    if token == "" {
      assert token + rest == rest;
    } else {
      assert (token + rest)[1..] == token[1..] + rest;
      TokenAt(token[1..], rest);
    }
  }

  method TokenLength(s: string) returns (n: nat)
    ensures n <= |s| && Token(s) == s[..n]
  {
    n := 0;
    assert s[0..] == s;
    while n < |s| && !Blank(s[n])
      invariant n <= |s| && Token(s) == s[..n] + Token(s[n..])
    {
      assert s[n..][1..] == s[n + 1..] && s[..n + 1] == s[..n] + [s[n]];
      Regroup(s[..n], [s[n]], Token(s[n + 1..]));
      n := n + 1;
    }
  }

  /** A time stamp as strftime prints it: nothing the parser could take for a key. */
  predicate Stamp(ts: string) {
    |ts| < 32 && '"' !in ts && '\n' !in ts && ts != "code"
  }

  const TIME := "{\"time\":\""

  /** append_recv_log's record; `status` is one of its two fixed words. */
  function RecvLine(ts: string, code: string, status: string, erelay: string): string {
    TIME + ts + "\"," + KEY + ":\"" + code + "\"" + RecvTail(status, erelay)
  }

  function RecvTail(status: string, erelay: string): string {
    ",\"status\":\"" + status + "\",\"relay\":\"" + erelay + "\"}\n"
  }

  /** append_log's record. */
  function SendLine(ts: string, ename: string, size: string, code: string, erelay: string): string {
    "{\"time\":\"" + ts + "\",\"file\":\"" + ename + "\",\"size\":" + size
    + ",\"code\":\"" + code + "\",\"relay\":\"" + erelay + "\"}\n"
  }

  function BeforeQuote(v: string): (r: string)
    ensures r <= v && '"' !in r && (|r| < |v| ==> v[|r|] == '"')
    ensures '"' !in v ==> r == v
  {
    if v == "" || v[0] == '"' then "" else [v[0]] + BeforeQuote(v[1..])
  }

  /** The value after a key: its text up to the first quote. */
  lemma {:induction false} ExtractAt(line: string, k: nat, value: string, tail: string, room: nat)
    requires k <= |line| && line[..k] + KEY + ":\"" + value + "\"" + tail == line
    requires forall j :: 0 <= j < k ==> !At(line, KEY, j)
    ensures Extract(line, room) == Sized(BeforeQuote(value), room)
  {
    assert At(line, KEY, k);
    FoundAt(line, KEY, k);
    var colon, q1 := k + 6, k + 7;
    assert line[k..colon] == KEY && ':' !in KEY;
    FoundChar(line, ':', k, colon);
    assert line[colon..q1] == ":";
    FoundChar(line, '"', colon, q1);
    var body, text := value + "\"" + tail, BeforeQuote(value);
    assert line[q1 + 1..] == body;
    var q2 := q1 + 1 + |text|;
    assert line[q1 + 1..q2] == body[..|text|] == text;
    assert line[q2] == body[|text|] == '"';
    FoundChar(line, '"', q1 + 1, q2);
  }

  /**
   Wherever the marks stand: the value is what the first two quotes after the first colon after the first key
   enclose. Without one of the marks there is none.
   */
  lemma {:induction false} ExtractMarks(line: string, k: nat, colon: nat, q1: nat, q2: nat, room: nat)
    requires At(line, KEY, k) && forall j :: 0 <= j < k ==> !At(line, KEY, j)
    requires k <= colon <= |line| && ':' !in line[k..colon] && (colon < |line| ==> line[colon] == ':')
    requires colon <= q1 <= |line| && '"' !in line[colon..q1] && (q1 < |line| ==> line[q1] == '"')
    requires q1 <= q2 <= |line| && (q1 < |line| ==> q1 < q2 && '"' !in line[q1 + 1..q2]) && (q2 < |line| ==> line[q2] == '"')
    ensures Extract(line, room)
            == if q2 == |line| || q2 == q1 + 1 || q2 - q1 - 1 >= room then None else Some(line[q1 + 1..q2])
  {
    hide *;
    FoundAt(line, KEY, k);
    ExtractKeyed(line, k, room);
    SizedIs(if q1 < q2 then line[q1 + 1..q2] else "", room);
    if colon == |line| {
      MissedChar(line, ':', k);
    } else {
      FoundChar(line, ':', k, colon);
      if q1 == |line| {
        MissedChar(line, '"', colon);
      } else {
        FoundChar(line, '"', colon, q1);
        if q2 == |line| {
          MissedChar(line, '"', q1 + 1);
        } else {
          FoundChar(line, '"', q1 + 1, q2);
        }
      }
    }
  }

  /** What is looked for behind the first key. */
  lemma ExtractKeyed(line: string, k: nat, room: nat)
    requires FindFrom(line, KEY, 0) == Some(k) && k <= |line|
    ensures Extract(line, room)
            == match FindChar(line, ':', k)
               case None => None
               case Some(colon) =>
                 match FindChar(line, '"', colon)
                 case None => None
                 case Some(q1) =>
                   match FindChar(line, '"', q1 + 1)
                   case None => None
                   case Some(q2) => Sized(line[q1 + 1..q2], room)
  {
    hide FindFrom;
    hide FindChar;
    hide BareCode;
    hide Sized;
    hide At;
  }

  lemma {:induction false} MissedChar(s: string, c: char, i: nat)
    requires i <= |s| && c !in s[i..|s|]
    ensures FindChar(s, c, i) == None
    decreases |s| - i
  {
    if i < |s| {
      assert s[i..|s|] == [s[i]] + s[i + 1..|s|];
      MissedChar(s, c, i + 1);
    }
  }

  /** The key needs a quote, `code` and a quote, in that order. */
  lemma KeyChars(s: string, j: nat)
    ensures At(s, KEY, j) <==>
            && j + 6 <= |s|
            && s[j] == '"' && s[j + 1] == 'c' && s[j + 2] == 'o' && s[j + 3] == 'd' && s[j + 4] == 'e' && s[j + 5] == '"'
  {
    if j + 6 <= |s| {
      assert s[j..j + 6] == [s[j], s[j + 1], s[j + 2], s[j + 3], s[j + 4], s[j + 5]];
      assert KEY == ['"', 'c', 'o', 'd', 'e', '"'];
    }
  }

  /** Nothing up to the quote that closes the time stamp looks like the key. */
  lemma StampHides(line: string, ts: string, next: char, j: nat)
    requires Stamp(ts) && |line| > 10 + |ts|
    requires line[..9] == TIME && line[9..9 + |ts|] == ts && line[9 + |ts|] == '"' && line[10 + |ts|] == next
    requires next != 'c' && j <= 9 + |ts|
    ensures !At(line, KEY, j)
  {
    KeyChars(line, j);
    assert TIME == ['{', '"', 't', 'i', 'm', 'e', '"', ':', '"'];
    assert line[..9] == [line[0], line[1], line[2], line[3], line[4], line[5], line[6], line[7], line[8]];
    assert forall i :: 0 <= i < |ts| ==> line[9 + i] == line[9..9 + |ts|][i] == ts[i];
    assert |ts| == 4 ==> ts == [ts[0], ts[1], ts[2], ts[3]];
    assert "code" == ['c', 'o', 'd', 'e'];
  }

  /**
   The receive log's printer does not escape the code, so the parser reads back its text up to a quote; the
   two are inverse exactly on the codes that fit the parser's buffer and hold none.
   */
  lemma {:induction false} RecvRoundTrip(ts: string, code: string, status: string, erelay: string, room: nat)
    requires Stamp(ts)
    ensures Extract(RecvLine(ts, code, status, erelay), room) == Sized(BeforeQuote(code), room)
    ensures Extract(RecvLine(ts, code, status, erelay), room) == Some(code)
            <==> code != "" && |code| < room && '"' !in code
  {
    var line := RecvLine(ts, code, status, erelay);
    var k, tail := 11 + |ts|, RecvTail(status, erelay);
    RecvParts(ts, code, status, erelay);
    QuoteShortens(code);
    hide *;
    forall j | 0 <= j < k
      ensures !At(line, KEY, j)
    {
      if j <= 9 + |ts| {
        StampHides(line, ts, ',', j);
      } else {
        KeyChars(line, j);
      }
    }
    ExtractAt(line, k, code, tail, room);
    SizedIs(BeforeQuote(code), room);
  }

  lemma QuoteShortens(code: string)
    ensures BeforeQuote(code) == code <==> '"' !in code
  {
  }

  lemma SizedIs(code: string, room: nat)
    ensures Sized(code, room) == if code == "" || |code| >= room then None else Some(code)
  {
  }

  lemma RecvParts(ts: string, code: string, status: string, erelay: string)
    ensures var line, k := RecvLine(ts, code, status, erelay), 11 + |ts|;
            && k < |line| && line[..k] + KEY + ":\"" + code + "\"" + RecvTail(status, erelay) == line
            && line[..9] == TIME && line[9..9 + |ts|] == ts && line[9 + |ts|] == '"' && line[10 + |ts|] == ','
  {
    var head := TIME + ts + "\",";
    HeadParts(ts);
    hide RecvTail;
    SameHead(RecvLine(ts, code, status, erelay), head, KEY, ":\"", code, "\"", RecvTail(status, erelay));
  }

  lemma HeadParts(ts: string)
    ensures var head := TIME + ts + "\",";
            && |head| == 11 + |ts| && head[..9] == TIME && head[9..9 + |ts|] == ts
            && head[9 + |ts|] == '"' && head[10 + |ts|] == ','
  {
  }

  lemma SameHead(line: string, head: string, a: string, b: string, c: string, d: string, e: string)
    requires line == head + a + b + c + d + e && a != ""
    ensures |line| > |head| && line[..|head|] == head
    ensures forall i, j :: 0 <= i <= j <= |head| ==> line[i..j] == head[i..j]
    ensures forall i :: 0 <= i < |head| ==> line[i] == head[i]
  {
    forall i, j | 0 <= i <= j <= |head|
      ensures line[i..j] == head[i..j]
    {
      assert line[..|head|] == head;
      assert line[i..j] == line[..|head|][i..j];
    }
  }

  /** fgets with a buffer of n bytes: pieces that end at a newline or when n - 1 bytes are read. */
  function Fgets(s: string, n: nat): seq<string>
    requires n >= 2
  {
    if s == "" then []
    else
      var k := LineEnd(s, n - 1);
      [s[..k]] + Fgets(s[k..], n)
  }

  /** Where the first piece ends. */
  function LineEnd(s: string, max: nat): (k: nat)
    requires s != "" && max >= 1
    ensures 0 < k <= |s| && k <= max && '\n' !in s[..k - 1]
    ensures k < |s| && k < max ==> s[k - 1] == '\n'
  {
    if s[0] == '\n' || |s| == 1 || max == 1 then 1
    else
      var k := 1 + LineEnd(s[1..], max - 1);
      assert s[..k - 1] == [s[0]] + s[1..][..k - 2];
      k
  }

  lemma {:induction false} LineEndAppend(s: string, t: string, max: nat)
    requires s != "" && s[|s| - 1] == '\n' && max >= 1
    ensures LineEnd(s + t, max) == LineEnd(s, max)
  {
    if s[0] != '\n' && max > 1 {
      assert (s + t)[1..] == s[1..] + t;
      LineEndAppend(s[1..], t, max - 1);
    }
  }

  lemma FgetsStep(s: string, n: nat, k: nat)
    requires n >= 2 && s != "" && k == LineEnd(s, n - 1)
    ensures Fgets(s, n) == [s[..k]] + Fgets(s[k..], n)
  {
    hide LineEnd;
  }

  /** A log of whole lines: appending one more short line appends one more piece. */
  lemma {:induction false} FgetsAppend(s: string, line: string, n: nat)
    requires n >= 2 && (s == "" || s[|s| - 1] == '\n')
    requires line != "" && line[|line| - 1] == '\n' && '\n' !in line[..|line| - 1] && |line| < n
    ensures Fgets(s + line, n) == Fgets(s, n) + [line]
    decreases |s|
  {
    hide Fgets;
    hide LineEnd;
    if s == "" {
      WholeLine(line, n - 1);
      assert s + line == line && line[|line|..] == "" && line[..|line|] == line;
      FgetsStep(line, n, |line|);
      FgetsNone(n);
    } else {
      var k := LineEnd(s, n - 1);
      LineEndAppend(s, line, n - 1);
      assert (s + line)[..k] == s[..k] && (s + line)[k..] == s[k..] + line;
      FgetsStep(s, n, k);
      FgetsStep(s + line, n, k);
      FgetsAppend(s[k..], line, n);
    }
  }

  /** A piece has a newline at most at its end; it ends there, or is full, or is the last. */
  predicate ReadPiece(p: string, n: nat, last: bool) {
    0 < |p| < n && '\n' !in p[..|p| - 1] && (p[|p| - 1] == '\n' || |p| == n - 1 || last)
  }

  ghost predicate ReadPieces(ps: seq<string>, n: nat) {
    forall i :: 0 <= i < |ps| ==> ReadPiece(ps[i], n, i == |ps| - 1)
  }

  lemma PiecesCons(p: string, rest: seq<string>, n: nat)
    requires ReadPiece(p, n, rest == []) && ReadPieces(rest, n)
    ensures ReadPieces([p] + rest, n)
  {
    hide ReadPiece;
    var all := [p] + rest;
    forall i | 0 <= i < |all|
      ensures ReadPiece(all[i], n, i == |all| - 1)
    {
      if i > 0 {
        assert all[i] == rest[i - 1];
      }
    }
  }

  /** Whatever the text: the pieces are all of it in order, each as long as it may be. */
  lemma {:induction false} FgetsPieces(s: string, n: nat)
    requires n >= 2
    ensures Flatten(Fgets(s, n)) == s && ReadPieces(Fgets(s, n), n)
    decreases |s|
  {
    if s == "" {
      FgetsNone(n);
    } else {
      var k := LineEnd(s, n - 1);
      FirstPiece(s, n, k);
      hide *;
      FgetsPieces(s[k..], n);
      FgetsStep(s, n, k);
      FgetsSome(s[k..], n);
      PiecesCons(s[..k], Fgets(s[k..], n), n);
      FlattenCons(s[..k], Fgets(s[k..], n));
      CutJoins(s, k);
    }
  }

  lemma FirstPiece(s: string, n: nat, k: nat)
    requires n >= 2 && s != "" && k == LineEnd(s, n - 1)
    ensures 0 < k <= |s| && (k == |s| <==> s[k..] == "") && ReadPiece(s[..k], n, k == |s|)
  {
    hide LineEnd;
    assert s[..k][..k - 1] == s[..k - 1];
  }

  lemma CutJoins(s: string, k: nat)
    requires k <= |s|
    ensures s[..k] + s[k..] == s
  {
  }

  lemma FlattenCons(p: string, rest: seq<string>)
    ensures Flatten([p] + rest) == p + Flatten(rest)
  {
    assert [p] == [p];
    FlattenConcat([p], rest);
    assert [p][..0] == [] && "" + p == p;
  }

  lemma FgetsSome(s: string, n: nat)
    requires n >= 2
    ensures Fgets(s, n) == [] <==> s == ""
  {
  }

  lemma FgetsNone(n: nat)
    requires n >= 2
    ensures Fgets("", n) == []
  {
  }

  lemma {:induction false} WholeLine(line: string, max: nat)
    requires line != "" && line[|line| - 1] == '\n' && '\n' !in line[..|line| - 1] && |line| <= max
    ensures LineEnd(line, max) == |line|
  {
    if |line| > 1 {
      assert line[0] == line[..|line| - 1][0];
      assert line[1..][..|line| - 2] == line[..|line| - 1][1..];
      WholeLine(line[1..], max - 1);
    }
  }
}
