/** Reading claim codes back from the send log (src/cli.c): which file names get in the parser's way. */
module SendLog {
  import opened Bytes
  import opened JsonLog

  /** Control characters other than newline, return and tab are dropped by the escaping. */
  predicate Printed(c: char) {
    c >= ' ' || c == '\n' || c == '\r' || c == '\t'
  }

  function Printable(s: string): (r: string)
    ensures forall i :: 0 <= i < |r| ==> Printed(r[i])
    ensures |r| <= |s|
  {
    if s == "" then ""
    else
      var init, c := Printable(s[..|s| - 1]), s[|s| - 1];
      if Printed(c) then init + [c] else init
  }

  lemma {:induction false} EscapePrintable(s: string)
    ensures EscapeAll(s) == EscapeAll(Printable(s))
  {
    if s != "" {
      var init, c := s[..|s| - 1], s[|s| - 1];
      EscapePrintable(init);
      if Printed(c) {
        assert (Printable(init) + [c])[..|Printable(init)|] == Printable(init);
      } else {
        assert EscapeAll(init) + "" == EscapeAll(init);
      }
    }
  }

  /** Escaped text read by JSON's rules. */
  function Unescape(e: string): string {
    if e == "" then ""
    else if e[0] == '\\' && |e| > 1 then
      [if e[1] == 'n' then '\n' else if e[1] == 'r' then '\r' else if e[1] == 't' then '\t' else e[1]] + Unescape(e[2..])
    else [e[0]] + Unescape(e[1..])
  }

  /** Reading undoes escaping, but for the control characters that were dropped. */
  lemma {:induction false} UnescapeEscaped(s: string)
    ensures Unescape(EscapeAll(s)) == Printable(s)
    decreases |s|
  {
    if s != "" {
      UnescapeEscaped(s[1..]);
      EscapeAllFront(s);
      PrintableFront(s);
      hide Printable;
      hide EscapeAll;
      UnescapeOne(s[0], EscapeAll(s[1..]));
    } else {
      assert EscapeAll(s) == "";
    }
  }

  lemma UnescapeOne(c: char, rest: string)
    ensures Unescape(Escaped(c) + rest) == (if Printed(c) then [c] else "") + Unescape(rest)
  {
    var e := Escaped(c) + rest;
    assert |Escaped(c)| == 2 ==> e[0] == Escaped(c)[0] && e[1] == Escaped(c)[1] && e[2..] == rest;
    assert |Escaped(c)| == 1 ==> e[0] == Escaped(c)[0] && e[1..] == rest;
    assert |Escaped(c)| == 0 ==> e == rest;
  }

  lemma {:induction false} PrintableFront(s: string)
    requires s != ""
    ensures Printable(s) == (if Printed(s[0]) then [s[0]] else "") + Printable(s[1..])
  {
    var init, c := s[..|s| - 1], s[|s| - 1];
    if init == "" {
      assert Printable(init) == "" && Printable(s[1..]) == "";
    } else {
      PrintableFront(init);
      assert s[1..][..|s| - 2] == init[1..] && s[1..][|s| - 2] == c;
    }
  }

  predicate Ends(s: string, c: char) {
    s != "" && s[|s| - 1] == c
  }

  function Butlast(s: string): string {
    if s == "" then "" else s[..|s| - 1]
  }

  predicate KeyChar(c: char) {
    c == 'c' || c == 'o' || c == 'd' || c == 'e' || c == '"'
  }

  lemma EscapedLast(l: char, c: char)
    requires Printed(l) && KeyChar(c)
    ensures Escaped(l) != "" && (Escaped(l)[|Escaped(l)| - 1] == c <==> l == c)
    ensures l == c && c != '"' ==> Escaped(l) == [c]
  {
  }

  /** The last character of escaped text, for the characters of the key. */
  lemma Peel(f: string, c: char)
    requires forall i :: 0 <= i < |f| ==> Printed(f[i])
    requires KeyChar(c)
    ensures Ends(EscapeAll(f), c) <==> Ends(f, c)
    ensures Ends(f, c) && c != '"' ==> Butlast(EscapeAll(f)) == EscapeAll(Butlast(f))
    ensures EscapeAll(f) == "" <==> f == ""
  {
    if f != "" {
      var l := f[|f| - 1];
      EscapedLast(l, c);
      hide Escaped;
      hide KeyChar;
      hide Printed;
      var a, b := EscapeAll(f[..|f| - 1]), Escaped(l);
      assert EscapeAll(f) == a + b && (a + b)[|a + b| - 1] == b[|b| - 1];
      assert |b| == 1 ==> (a + b)[..|a|] == a;
    }
  }

  predicate EndsInCode(s: string) {
    |s| >= 4 && s[|s| - 4..] == "code"
  }

  predicate EndsInQuotedCode(s: string) {
    |s| >= 5 && s[|s| - 5..] == "\"code"
  }

  /** The text without its last four characters, when they spell the word. */
  function Stem(s: string): string {
    Butlast(Butlast(Butlast(Butlast(s))))
  }

  lemma EndsLetters(s: string)
    ensures EndsInCode(s) <==>
            && Ends(s, 'e') && Ends(Butlast(s), 'd')
            && Ends(Butlast(Butlast(s)), 'o') && Ends(Butlast(Butlast(Butlast(s))), 'c')
  {
    var n := |s|;
    if n >= 4 {
      Butlasts(s);
      assert s[n - 4..] == [s[n - 4], s[n - 3], s[n - 2], s[n - 1]];
      assert "code" == ['c', 'o', 'd', 'e'];
    }
  }

  lemma Butlasts(s: string)
    requires |s| >= 4
    ensures var n := |s|;
            && Butlast(s) == s[..n - 1] && Butlast(Butlast(s)) == s[..n - 2]
            && Butlast(Butlast(Butlast(s))) == s[..n - 3] && Stem(s) == s[..n - 4]
  {
    var n := |s|;
    assert s[..n - 1][..n - 2] == s[..n - 2] && s[..n - 2][..n - 3] == s[..n - 3] && s[..n - 3][..n - 4] == s[..n - 4];
  }

  lemma EndsStem(s: string)
    ensures s == "code" <==> EndsInCode(s) && Stem(s) == ""
    ensures EndsInQuotedCode(s) <==> EndsInCode(s) && Ends(Stem(s), '"')
  {
    var n := |s|;
    if n >= 4 {
      Butlasts(s);
      hide Stem;
      hide Butlast;
      assert s == s[..n - 4] + s[n - 4..];
      if n >= 5 {
        assert s[n - 5..] == [s[n - 5]] + s[n - 4..];
        assert "\"code" == ['"'] + "code";
        assert s[n - 5..][1..] == s[n - 4..] && "\"code"[1..] == "code";
        assert s[..n - 4][n - 5] == s[n - 5];
      }
    }
  }

  /** A name that reads as a key once it stands between the printer's quotes. */
  predicate LooksLikeKey(name: string) {
    Printable(name) == "code" || EndsInQuotedCode(Printable(name))
  }

  lemma EscapedLooks(name: string)
    ensures EscapeAll(name) == "code" <==> Printable(name) == "code"
    ensures EndsInQuotedCode(EscapeAll(name)) <==> EndsInQuotedCode(Printable(name))
  {
    var f := Printable(name);
    EscapePrintable(name);
    EscapedEnds(f);
  }

  lemma EscapedEnds(f: string)
    requires forall i :: 0 <= i < |f| ==> Printed(f[i])
    ensures EscapeAll(f) == "code" <==> f == "code"
    ensures EndsInQuotedCode(EscapeAll(f)) <==> EndsInQuotedCode(f)
  {
    hide *;
    var e := EscapeAll(f);
    EndsLetters(e);
    EndsLetters(f);
    EndsStem(e);
    EndsStem(f);
    PeelWord(f);
  }

  lemma PeelWord(f: string)
    requires forall i :: 0 <= i < |f| ==> Printed(f[i])
    ensures EndsInCode(EscapeAll(f)) <==> EndsInCode(f)
    ensures EndsInCode(f) ==>
              && (Stem(EscapeAll(f)) == "" <==> Stem(f) == "")
              && (Ends(Stem(EscapeAll(f)), '"') <==> Ends(Stem(f), '"'))
  {
    var e := EscapeAll(f);
    EndsLetters(e);
    EndsLetters(f);
    hide EscapeAll;
    hide EndsInCode;
    hide Printed;
    hide Escaped;
    var f1, f2, f3, f4 := Butlast(f), Butlast(Butlast(f)), Butlast(Butlast(Butlast(f))), Stem(f);
    Peel(f, 'e');
    Peel(f1, 'd');
    Peel(f2, 'o');
    Peel(f3, 'c');
    Peel(f4, '"');
  }

  /** The text before the escaped file name, of which the name's opening quote is the last character. */
  function Head(ts: string): string {
    TIME + ts + "\",\"file\":\""
  }

  /** From the file name's closing quote to the code's key. */
  function Middle(size: string): string {
    "\",\"size\":" + size + ","
  }

  lemma {:induction false} SendParts(ts: string, e: string, size: string, code: string, erelay: string)
    ensures var line := SendLine(ts, e, size, code, erelay);
            var k := |Head(ts)| + |e| + |Middle(size)|;
            && line == Head(ts) + e + Middle(size) + KEY + ":\"" + code + "\"" + (",\"relay\":\"" + erelay + "\"}\n")
            && k < |line| && line[..k] == Head(ts) + e + Middle(size)
  {
    var line := SendLine(ts, e, size, code, erelay);
    var front := Head(ts) + e + Middle(size);
    var back := KEY + ":\"" + code + "\"" + (",\"relay\":\"" + erelay + "\"}\n");
    assert line == front + back;
  }

  /** Where the line can be mistaken for its key before it: at the file name's end, and nowhere else. */
  lemma {:induction false} OnlyTheName(line: string, ts: string, e: string, size: string, j: nat)
    requires Stamp(ts) && '"' !in size && EscapedText(e)
    requires var k := |Head(ts)| + |e| + |Middle(size)|;
             && k + 6 <= |line| && line[..k] == Head(ts) + e + Middle(size) && line[k..k + 6] == KEY
             && j < k
    ensures At(line, KEY, j) <==>
            || (e == "code" && j == |Head(ts)| - 1)
            || (EndsInQuotedCode(e) && j == |Head(ts)| + |e| - 5)
  {
    var h, n := |Head(ts)|, |e|;
    HeadChars(line, ts, e, size);
    hide Head;
    hide Middle;
    if j < h - 1 {
      if j <= 9 + |ts| {
        StampHides(line, ts, ',', j);
      } else {
        KeyChars(line, j);
      }
    } else {
      Around(line, h, e, Middle(size));
      NameChars(line, h, e, size, j);
    }
  }

  /** The line's characters up to the name, and the pieces after it, by position. */
  lemma HeadChars(line: string, ts: string, e: string, size: string)
    requires var k := |Head(ts)| + |e| + |Middle(size)|;
             k <= |line| && line[..k] == Head(ts) + e + Middle(size)
    ensures var h := |Head(ts)|;
            && h == 19 + |ts|
            && line[..9] == TIME && line[9..9 + |ts|] == ts && line[9 + |ts|] == '"' && line[10 + |ts|] == ','
            && line[11 + |ts|] == '"' && line[12 + |ts|] == 'f' && line[16 + |ts|] == '"' && line[17 + |ts|] == ':'
            && line[13 + |ts|] == 'i' && line[14 + |ts|] == 'l' && line[15 + |ts|] == 'e'
            && line[h - 1] == '"'
            && line[h..h + |e|] == e
            && line[h + |e|..h + |e| + |Middle(size)|] == Middle(size)
  {
    var h, k := |Head(ts)|, |Head(ts)| + |e| + |Middle(size)|;
    var front := line[..k];
    assert front == Head(ts) + (e + Middle(size));
    assert front[..h] == Head(ts);
    assert front[h..] == e + Middle(size);
    assert front[h..][..|e|] == e && front[h..][|e|..] == Middle(size);
    assert line[h..h + |e|] == front[h..][..|e|];
    assert line[h + |e|..k] == front[h..][|e|..];
    FileKey(ts);
    assert line[..9] == Head(ts)[..9] && line[9..9 + |ts|] == Head(ts)[9..9 + |ts|];
    assert forall i :: 0 <= i < h ==> line[i] == Head(ts)[i];
  }

  lemma FileKey(ts: string)
    ensures var s, m := Head(ts), |ts|;
            && |s| == 19 + m && s[..9] == TIME && s[9..9 + m] == ts && s[9 + m] == '"' && s[10 + m] == ','
            && s[11 + m] == '"' && s[12 + m] == 'f' && s[13 + m] == 'i' && s[14 + m] == 'l' && s[15 + m] == 'e'
            && s[16 + m] == '"' && s[17 + m] == ':' && s[18 + m] == '"'
  {
    assert "\",\"file\":\"" == ['"', ',', '"', 'f', 'i', 'l', 'e', '"', ':', '"'];
    var tail := Head(ts)[9 + |ts|..];
    assert tail == "\",\"file\":\"";
    assert forall i :: 0 <= i < |tail| ==> tail[i] == Head(ts)[9 + |ts| + i];
  }

  lemma MiddleChars(size: string)
    requires '"' !in size
    ensures var m := Middle(size);
            && |m| == 10 + |size|
            && m[0] == '"' && m[1] == ',' && m[2] == '"' && m[3] == 's' && m[7] == '"' && m[8] == ':' && m[9 + |size|] == ','
            && m[4] == 'i' && m[5] == 'z' && m[6] == 'e'
            && forall i :: 9 <= i < |m| ==> m[i] != '"'
  {
    var m := Middle(size);
    assert "\",\"size\":" == ['"', ',', '"', 's', 'i', 'z', 'e', '"', ':'];
    assert m[..9] == "\",\"size\":" && m[9..9 + |size|] == size;
    assert forall i :: 0 <= i < 9 ==> m[i] == m[..9][i];
    assert forall i :: 0 <= i < |size| ==> m[9 + i] == m[9..9 + |size|][i] == size[i];
  }

  /** The line around the name, by position. */
  ghost predicate AroundName(line: string, h: nat, e: string, m: string) {
    && h >= 1 && h + |e| + |m| + 6 <= |line|
    && line[h - 1] == '"'
    && (forall i :: 0 <= i < |e| ==> line[h + i] == e[i])
    && (forall i :: 0 <= i < |m| ==> line[h + |e| + i] == m[i])
    && At(line, KEY, h + |e| + |m|)
  }

  lemma Around(line: string, h: nat, e: string, m: string)
    requires h >= 1 && h + |e| + |m| + 6 <= |line| && line[h - 1] == '"'
    requires line[h..h + |e|] == e && line[h + |e|..h + |e| + |m|] == m
    requires line[h + |e| + |m|..h + |e| + |m| + 6] == KEY
    ensures AroundName(line, h, e, m)
  {
    var a, b := line[h..h + |e|], line[h + |e|..h + |e| + |m|];
    assert forall i :: 0 <= i < |a| ==> a[i] == line[h + i];
    assert forall i :: 0 <= i < |b| ==> b[i] == line[h + |e| + i];
  }

  lemma NameAt(line: string, h: nat, e: string, m: string, i: nat)
    requires AroundName(line, h, e, m) && h + i < |line|
    ensures i < |e| ==> line[h + i] == e[i]
  {
  }

  lemma NameChars(line: string, h: nat, e: string, size: string, j: nat)
    requires '"' !in size && EscapedText(e) && AroundName(line, h, e, Middle(size))
    requires h - 1 <= j < h + |e| + |Middle(size)|
    ensures At(line, KEY, j) <==>
            (e == "code" && j == h - 1) || (EndsInQuotedCode(e) && j == h + |e| - 5)
  {
    MiddleChars(size);
    EndsChars(e);
    if j == h - 1 {
      AtOpening(line, h, e, Middle(size));
    } else if j < h + |e| {
      InName(line, h, e, Middle(size), j);
    } else {
      PastName(line, h, e, size, j);
    }
  }

  /** From the opening quote the key matches exactly when the name is the bare word. */
  lemma AtOpening(line: string, h: nat, e: string, m: string)
    requires EscapedText(e) && AroundName(line, h, e, m) && |m| >= 10 && m[0] == '"' && m[1] == ','
    ensures At(line, KEY, h - 1) <==> e == "code"
    ensures !(EndsInQuotedCode(e) && h - 1 == h + |e| - 5)
  {
    var n := |e|;
    KeyChars(line, h - 1);
    EndsChars(e);
    hide EndsInQuotedCode;
    assert m[0] == line[h + n + 0] && m[1] == line[h + n + 1];
    assert n > 4 ==> line[h + 4] == e[4] && line[h + 3] == e[3];
    assert n > 3 ==> line[h + 3] == e[3] && line[h + 2] == e[2] && line[h + 1] == e[1] && line[h + 0] == e[0];
    assert 0 < n <= 3 ==> line[h + n + 0] == '"';
  }

  /** Within the name a quote follows a backslash, so a match must run up to the closing quote. */
  lemma InName(line: string, h: nat, e: string, m: string, j: nat)
    requires EscapedText(e) && AroundName(line, h, e, m) && |m| >= 10 && m[0] == '"' && m[1] == ','
    requires h <= j < h + |e|
    ensures At(line, KEY, j) <==> EndsInQuotedCode(e) && j == h + |e| - 5
  {
    var n, i := |e|, j - h;
    KeyChars(line, j);
    EndsChars(e);
    hide EndsInQuotedCode;
    assert line[h + n + 0] == m[0] && line[h + n + 1] == m[1];
    NameAt(line, h, e, m, i);
    NameAt(line, h, e, m, i + 1);
    NameAt(line, h, e, m, i + 2);
    NameAt(line, h, e, m, i + 3);
    NameAt(line, h, e, m, i + 4);
    NameAt(line, h, e, m, i + 5);
    hide AroundName;
    assert i + 5 < n && e[i + 5] == '"' ==> e[i + 4] == '\\';
    assert n - i < 5 ==> line[j + (n - i)] == '"';
  }

  lemma PastName(line: string, h: nat, e: string, size: string, j: nat)
    requires '"' !in size && AroundName(line, h, e, Middle(size))
    requires h + |e| <= j < h + |e| + |Middle(size)|
    ensures !At(line, KEY, j)
  {
    var n, m, i := |e|, Middle(size), j - (h + |e|);
    MiddleChars(size);
    KeyChars(line, j);
    assert line[h + n + i] == m[i] && (i + 1 < |m| ==> line[h + n + (i + 1)] == m[i + 1]);
  }

  lemma EndsChars(e: string)
    ensures EndsInQuotedCode(e) <==>
            var n := |e|;
            n >= 5 && e[n - 5] == '"' && e[n - 4] == 'c' && e[n - 3] == 'o' && e[n - 2] == 'd' && e[n - 1] == 'e'
    ensures e == "code" <==> |e| == 4 && e[0] == 'c' && e[1] == 'o' && e[2] == 'd' && e[3] == 'e'
  {
    if |e| >= 5 {
      var n := |e|;
      assert e[n - 5..] == [e[n - 5], e[n - 4], e[n - 3], e[n - 2], e[n - 1]];
      assert "\"code" == ['"', 'c', 'o', 'd', 'e'];
    }
    if |e| == 4 {
      assert e == [e[0], e[1], e[2], e[3]];
      assert "code" == ['c', 'o', 'd', 'e'];
    }
  }

  /** strchr over text that is known piece by piece. */
  lemma {:induction false} FindIn(line: string, i: nat, mid: string, suffix: string)
    requires i <= |line| && line[i..] == mid + suffix && suffix != "" && suffix[0] !in mid
    ensures FindChar(line, suffix[0], i) == Some(i + |mid|)
    ensures i + |mid| < |line| && line[i + |mid|..] == suffix && line[i + |mid| + 1..] == suffix[1..]
    ensures line[i..i + |mid|] == mid
  {
    var j := i + |mid|;
    assert line[i..][..|mid|] == line[i..j];
    assert line[i..][|mid|] == line[j];
    assert line[j..] == line[i..][|mid|..];
    FoundChar(line, suffix[0], i, j);
  }

  lemma {:induction false} ExtractFrom(line: string, k: nat, colon: nat, q1: nat, q2: nat, room: nat)
    requires FindFrom(line, KEY, 0) == Some(k) && k <= colon < |line| && q1 < |line|
    requires FindChar(line, ':', k) == Some(colon) && FindChar(line, '"', colon) == Some(q1)
    requires FindChar(line, '"', q1 + 1) == Some(q2)
    ensures q1 + 1 <= q2 <= |line| && Extract(line, room) == Sized(line[q1 + 1..q2], room)
  {
    hide FindFrom;
    hide FindChar;
    hide Sized;
  }

  /** The value's own search, once the colon and the opening quote are found. */
  lemma {:induction false} ExtractValue(line: string, k: nat, colon: nat, q1: nat, value: string, s3: string, room: nat)
    requires FindFrom(line, KEY, 0) == Some(k) && k <= colon < |line| && q1 < |line|
    requires FindChar(line, ':', k) == Some(colon) && FindChar(line, '"', colon) == Some(q1)
    requires line[q1 + 1..] == value + s3 && s3 != "" && s3[0] == '"' && '"' !in value
    ensures Extract(line, room) == Sized(value, room)
  {
    hide *;
    var q2 := q1 + 1 + |value|;
    assert FindChar(line, '"', q1 + 1) == Some(q2) && line[q1 + 1..q2] == value by {
      FindIn(line, q1 + 1, value, s3);
    }
    ExtractFrom(line, k, colon, q1, q2, room);
  }

  /** The parser's searches after the key: colon, quote, quote. */
  lemma {:induction false} ExtractSteps(line: string, k: nat, a: string, s1: string, b: string, s2: string,
                                        value: string, s3: string, room: nat)
    requires k <= |line| && FindFrom(line, KEY, 0) == Some(k)
    requires line[k..] == a + s1 && s1 != "" && s1[0] == ':' && ':' !in a
    requires s1 == b + s2 && s2 != "" && s2[0] == '"' && '"' !in b
    requires s2[1..] == value + s3 && s3 != "" && s3[0] == '"' && '"' !in value
    ensures Extract(line, room) == Sized(value, room)
  {
    hide *;
    var colon := k + |a|;
    var q1 := colon + |b|;
    assert FindChar(line, ':', k) == Some(colon) && colon < |line| && line[colon..] == s1 by {
      FindIn(line, k, a, s1);
    }
    assert FindChar(line, '"', colon) == Some(q1) && q1 < |line| && line[q1 + 1..] == s2[1..] by {
      FindIn(line, colon, b, s2);
    }
    ExtractValue(line, k, colon, q1, value, s3, room);
  }

  /**
   A code is read back from the send log exactly when the file's name does not look like the key: once
   control characters are dropped, it is neither the word itself nor ends in a quote and the word.
   Names come from a 260-byte buffer, so the printer's 1024-byte buffer never truncates them.
   */
  lemma SendRoundTrip(ts: string, name: string, size: string, code: string, relay: string, room: nat)
    requires Stamp(ts) && |name| < 260 && '"' !in size && ':' !in size
    requires code != "" && code != "code" && |code| < room && '"' !in code
    ensures Extract(SendLine(ts, EscapeFrom(name, 0, 1024), size, code, EscapeFrom(relay, 0, 640)), room) == Some(code)
            <==> !LooksLikeKey(name)
  {
    EscapeFits(name, 0, 1024);
    EscapeAllText(name);
    EscapedLooks(name);
    var e, erelay := EscapeAll(name), EscapeFrom(relay, 0, 640);
    var line := SendLine(ts, e, size, code, erelay);
    hide *;
    if e == "code" || EndsInQuotedCode(e) {
      LooksMisread(ts, e, size, code, erelay, room);
    } else {
      PlainRead(ts, e, size, code, erelay, room);
    }
    Looks(name);
  }

  lemma Looks(name: string)
    ensures LooksLikeKey(name) <==> Printable(name) == "code" || EndsInQuotedCode(Printable(name))
  {
    hide Printable;
    hide EndsInQuotedCode;
  }

  lemma {:induction false} PlainRead(ts: string, e: string, size: string, code: string, erelay: string, room: nat)
    requires Stamp(ts) && '"' !in size && EscapedText(e)
    requires e != "code" && !EndsInQuotedCode(e)
    requires code != "" && |code| < room && '"' !in code
    ensures Extract(SendLine(ts, e, size, code, erelay), room) == Some(code)
  {
    var line := SendLine(ts, e, size, code, erelay);
    var k := |Head(ts)| + |e| + |Middle(size)|;
    var tail := ",\"relay\":\"" + erelay + "\"}\n";
    SendParts(ts, e, size, code, erelay);
    QuoteShortens(code);
    SizedIs(code, room);
    hide *;
    Regrouped(line, line[..k], code, tail);
    KeyAt(line, k, ":\"" + code + "\"" + tail);
    forall j | 0 <= j < k
      ensures !At(line, KEY, j)
    {
      OnlyTheName(line, ts, e, size, j);
    }
    ExtractAt(line, k, code, tail, room);
  }

  lemma Regrouped(line: string, front: string, code: string, tail: string)
    requires line == front + KEY + ":\"" + code + "\"" + tail
    ensures line == front + (KEY + (":\"" + code + "\"" + tail))
  {
  }

  lemma {:induction false} KeyAt(line: string, k: nat, back: string)
    requires k <= |line| && line == line[..k] + (KEY + back)
    ensures k + 6 <= |line| && line[k..k + 6] == KEY && line[k..] == KEY + back
  {
    assert line[k..] == KEY + back;
    assert line[k..k + 6] == line[k..][..6];
  }

  lemma {:induction false} LooksMisread(ts: string, e: string, size: string, code: string, erelay: string, room: nat)
    requires Stamp(ts) && '"' !in size && ':' !in size && EscapedText(e)
    requires e == "code" || EndsInQuotedCode(e)
    requires code != "code"
    ensures Extract(SendLine(ts, e, size, code, erelay), room) != Some(code)
  {
    var line := SendLine(ts, e, size, code, erelay);
    var front := Head(ts) + e + Middle(size);
    var k := |front|;
    SendParts(ts, e, size, code, erelay);
    var back := ":\"" + code + "\"" + (",\"relay\":\"" + erelay + "\"}\n");
    var at := if e == "code" then |Head(ts)| - 1 else |Head(ts)| + |e| - 5;
    MisreadTail(ts, e, size, at);
    assert line == front + (KEY + back);
    hide SendLine;
    KeyAt(line, k, back);
    EndsChars(e);
    assert k == |Head(ts)| + |e| + |Middle(size)| && at < k;
    OnlyAt(line, ts, e, size, at);
    FoundAt(line, KEY, at);
    var s1, s2, s3 := ":" + size + "," + (KEY + back), KEY + back, "\"" + back;
    Pieces(line, front, at, size, back, s1, s2, s3);
    hide *;
    ExtractSteps(line, at, "\"code\",\"size\"", s1, ":" + size + ",", s2, "code", s3, room);
    NotTheWord(code, room);
  }

  lemma NotTheWord(code: string, room: nat)
    requires code != "code"
    ensures Sized("code", room) != Some(code)
  {
  }

  lemma {:induction false} Pieces(line: string, front: string, at: nat, size: string, back: string, s1: string, s2: string, s3: string)
    requires at <= |front| && line == front + (KEY + back)
    requires front[at..] == "\"code\",\"size\"" + ":" + (size + ",") && '"' !in size
    requires s1 == ":" + size + "," + (KEY + back) && s2 == KEY + back && s3 == "\"" + back
    ensures line[at..] == "\"code\",\"size\"" + s1 && s1[0] == ':' && ':' !in "\"code\",\"size\""
    ensures s1 == (":" + size + ",") + s2 && s2 != "" && s2[0] == '"' && '"' !in ":" + size + ","
    ensures s2[1..] == "code" + s3 && s3[0] == '"' && '"' !in "code"
  {
    assert KEY == "\"" + "code" + "\"";
    assert s2[1..] == KEY[1..] + back && KEY[1..] == "code" + "\"";
    assert line[at..] == front[at..] + (KEY + back);
  }

  lemma {:induction false} OnlyAt(line: string, ts: string, e: string, size: string, at: nat)
    requires Stamp(ts) && '"' !in size && EscapedText(e)
    requires var k := |Head(ts)| + |e| + |Middle(size)|;
             && k + 6 <= |line| && line[..k] == Head(ts) + e + Middle(size) && line[k..k + 6] == KEY
             && at < k
    requires (e == "code" && at == |Head(ts)| - 1) || (EndsInQuotedCode(e) && at == |Head(ts)| + |e| - 5)
    ensures At(line, KEY, at) && forall j :: 0 <= j < at ==> !At(line, KEY, j)
  {
    EndsChars(e);
    var k := |Head(ts)| + |e| + |Middle(size)|;
    hide Head;
    hide Middle;
    hide EndsInQuotedCode;
    hide EscapedText;
    forall j | 0 <= j < k
      ensures At(line, KEY, j) <==> j == at
    {
      OnlyTheName(line, ts, e, size, j);
    }
  }

  /** From the false key on, the line runs through the size field. */
  lemma {:induction false} MisreadTail(ts: string, e: string, size: string, at: nat)
    requires e == "code" || EndsInQuotedCode(e)
    requires at == if e == "code" then |Head(ts)| - 1 else |Head(ts)| + |e| - 5
    ensures at <= |Head(ts) + e + Middle(size)|
    ensures (Head(ts) + e + Middle(size))[at..] == "\"code\",\"size\"" + ":" + (size + ",")
  {
    var h := |Head(ts)|;
    FileKey(ts);
    var front := Head(ts) + e;
    assert front[at..] == "\"code" by {
      if e == "code" {
        assert front[at..] == [Head(ts)[h - 1]] + e;
      } else {
        assert front[at..] == e[|e| - 5..];
      }
    }
    assert (front + Middle(size))[at..] == front[at..] + Middle(size);
    assert "\"code" + Middle(size) == "\"code\",\"size\"" + ":" + (size + ",");
  }
}
