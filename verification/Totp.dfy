/** TOTP codes and recovery-code spelling (web/totp.go). HMAC-SHA1 and SHA-256 are abstract functions. */
module Totp {
  import opened Base32
  import opened Bytes

  const DIGITS := 6
  const PERIOD := 30
  const UINT64 := 0x1_0000_0000_0000_0000

  type Mac = (bytes, bytes) -> bytes

  ghost predicate Mac20(mac: Mac) {
    forall k: bytes, m: bytes :: |mac(k, m)| == 20
  }

  /** The low k decimal digits of n, zero-padded. */
  function Decimal(n: nat, k: nat): (s: string)
    ensures |s| == k && forall i :: 0 <= i < k ==> '0' <= s[i] <= '9'
  {
    if k == 0 then [] else Decimal(n / 10, k - 1) + ['0' + (n % 10) as char]
  }

  function NumberOf(s: string): nat
    requires forall i :: 0 <= i < |s| ==> '0' <= s[i] <= '9'
  {
    if s == [] then 0 else 10 * NumberOf(s[..|s| - 1]) + (s[|s| - 1] - '0') as nat
  }

  function Pow10(k: nat): (r: nat)
    ensures r >= 1
  {
    if k == 0 then 1 else 10 * Pow10(k - 1)
  }

  /** A code is the number it was printed from: padding loses nothing. */
  lemma {:induction false} DecimalReads(n: nat, k: nat)
    requires n < Pow10(k)
    ensures NumberOf(Decimal(n, k)) == n
  {
    if k > 0 {
      DecimalReads(n / 10, k - 1);
      assert Decimal(n, k)[..k - 1] == Decimal(n / 10, k - 1);
    }
  }

  /** Dynamic truncation, section 5.3 of RFC 4226: the low 31 bits of the four bytes at the offset. */
  function Truncated(sum: bytes): nat
    requires |sum| == 20
  {
    FromBe(sum[sum[19] % 16..sum[19] % 16 + 4]) % 0x8000_0000
  }

  function CodeAt(mac: Mac, secret: bytes, counter: int): (code: string)
    requires Mac20(mac)
    ensures |code| == DIGITS && forall i :: 0 <= i < DIGITS ==> '0' <= code[i] <= '9'
  {
    Decimal(Truncated(mac(secret, Be(counter % UINT64, 8))) % 1_000_000, DIGITS)
  }

  /** Masking the top byte to seven bits and joining by shifts is truncation to 31 bits. */
  lemma MaskAndShift(w: bytes)
    requires |w| == 4
    ensures (w[0] as int % 128) * 0x100_0000 + w[1] as int * 0x1_0000 + w[2] as int * 0x100 + w[3] as int == FromBe(w) % 0x8000_0000
  {
    assert w[..3][..2][..1] == [w[0]] && w[..3][..2] == [w[0], w[1]] && w[..3] == [w[0], w[1], w[2]];
    assert FromBe([w[0]]) == w[0];
    assert FromBe([w[0], w[1]]) == w[0] as int * 0x100 + w[1] as int;
    assert FromBe(w[..3]) == w[0] as int * 0x1_0000 + w[1] as int * 0x100 + w[2] as int;
    assert FromBe(w) == w[0] as int * 0x100_0000 + w[1] as int * 0x1_0000 + w[2] as int * 0x100 + w[3] as int;
    var low := (w[0] as int % 128) * 0x100_0000 + w[1] as int * 0x1_0000 + w[2] as int * 0x100 + w[3] as int;
    assert FromBe(w) == 0x8000_0000 * (w[0] as int / 128) + low;
  }

  /** A digest cut at the four bytes that stand where the low four bits of its last byte say. */
  ghost predicate Parts(sum: bytes, a: bytes, w: bytes, b: bytes) {
    sum == a + w + b && |sum| == 20 && |w| == 4 && |a| == sum[|sum| - 1] % 16
  }

  lemma TruncatedParts(sum: bytes, a: bytes, w: bytes, b: bytes)
    requires Parts(sum, a, w, b)
    ensures Truncated(sum) == FromBe(w) % 0x8000_0000
  {
    assert sum[|a|..|a| + 4] == w;
  }

  /** Nothing else of a digest matters: the same last byte and the same four bytes give the same code. */
  lemma SameParts(d: bytes, e: bytes, a: bytes, w: bytes, b: bytes, x: bytes, y: bytes)
    requires Parts(d, a, w, b) && Parts(e, x, w, y)
    ensures Truncated(d) == Truncated(e)
  {
    TruncatedParts(d, a, w, b);
    TruncatedParts(e, x, w, y);
    hide Truncated;
  }

  /**
   The code printed for a counter reads as those four bytes of the MAC of the counter's eight big-endian bytes,
   without their top bit, modulo a million.
   */
  lemma CodeReads(mac: Mac, secret: bytes, counter: int, m: bytes, a: bytes, w: bytes, b: bytes)
    requires Mac20(mac) && |m| == 8 && FromBe(m) == counter % UINT64 && Parts(mac(secret, m), a, w, b)
    ensures NumberOf(CodeAt(mac, secret, counter)) == FromBe(w) % 0x8000_0000 % 1_000_000
  {
    BeOfFromBe(m);
    TruncatedParts(mac(secret, m), a, w, b);
    var v := FromBe(w) % 0x8000_0000 % 1_000_000;
    assert Pow10(6) == 1_000_000;
    DecimalReads(v, DIGITS);
    hide Truncated;
    hide FromBe;
    hide Decimal;
    hide NumberOf;
  }

  method TotpCodeAt(mac: Mac, secret: bytes, counter: int) returns (code: string)
    requires Mac20(mac)
    ensures code == CodeAt(mac, secret, counter)
    ensures |code| == 6 && forall i :: 0 <= i < 6 ==> '0' <= code[i] <= '9'
    ensures forall m: bytes, a, w, b :: |m| == 8 && FromBe(m) == counter % UINT64 && Parts(mac(secret, m), a, w, b) ==>
              NumberOf(code) == FromBe(w) % 0x8000_0000 % 1_000_000
  {
    forall m: bytes, a, w, b | |m| == 8 && FromBe(m) == counter % UINT64 && Parts(mac(secret, m), a, w, b)
      ensures NumberOf(CodeAt(mac, secret, counter)) == FromBe(w) % 0x8000_0000 % 1_000_000
    {
      CodeReads(mac, secret, counter, m, a, w, b);
    }
    hide NumberOf;
    hide Parts;
    hide FromBe;
    hide Decimal;
    hide Be;
    var sum := mac(secret, Be(counter % UINT64, 8));
    var off := sum[19] % 16;
    var v := (sum[off] as int % 128) * 0x100_0000 + sum[off + 1] as int * 0x1_0000 + sum[off + 2] as int * 0x100 + sum[off + 3] as int;
    MaskAndShift(sum[off..off + 4]);
    var mod: int := 1;
    for i := 0 to DIGITS
      invariant mod == Pow10(i)
    {
      mod := mod * 10;
    }
    assert Pow10(6) == 1_000_000;
    code := Decimal(v % mod, DIGITS);
  }

  function DigitValue(c: char): nat
    requires '0' <= c <= '9'
  {
    (c - '0') as nat
  }

  lemma DecimalMore(n: nat, q: nat, k: nat, c: char)
    requires '0' <= c <= '9' && n == 10 * q + DigitValue(c)
    ensures Decimal(n, k + 1) == Decimal(q, k) + [c]
  {
    assert n / 10 == q && n % 10 == DigitValue(c);
    assert '0' + (n % 10) as char == c;
  }

  /** The printed form of six digits' number is those digits. */
  lemma SixDigits(v: nat, code: string)
    requires |code| == 6 && forall i :: 0 <= i < 6 ==> '0' <= code[i] <= '9'
    requires v == 10 * (10 * (10 * (10 * (10 * DigitValue(code[0]) + DigitValue(code[1])) + DigitValue(code[2]))
                              + DigitValue(code[3])) + DigitValue(code[4])) + DigitValue(code[5])
    ensures Decimal(v, 6) == code
  {
    var a := DigitValue(code[0]);
    var b := 10 * a + DigitValue(code[1]);
    var c := 10 * b + DigitValue(code[2]);
    var d := 10 * c + DigitValue(code[3]);
    var e := 10 * d + DigitValue(code[4]);
    assert Decimal(0, 0) == [];
    hide Decimal;
    DecimalMore(a, 0, 0, code[0]);
    DecimalMore(b, a, 1, code[1]);
    DecimalMore(c, b, 2, code[2]);
    DecimalMore(d, c, 3, code[3]);
    DecimalMore(e, d, 4, code[4]);
    DecimalMore(v, e, 5, code[5]);
    hide DigitValue;
    assert code == [] + [code[0]] + [code[1]] + [code[2]] + [code[3]] + [code[4]] + [code[5]];
  }

  lemma VectorCode(mac: Mac, secret: bytes, counter: nat, off: nat, v: nat, code: string)
    requires Mac20(mac) && counter < UINT64 && |code| == 6 && forall i :: 0 <= i < 6 ==> '0' <= code[i] <= '9'
    requires var d := mac(secret, Be(counter, 8));
             && off == d[19] % 16
             && v == (d[off] as int % 128) * 0x100_0000 + d[off + 1] as int * 0x1_0000 + d[off + 2] as int * 0x100
                     + d[off + 3] as int
    requires v % 1_000_000 == 10 * (10 * (10 * (10 * (10 * DigitValue(code[0]) + DigitValue(code[1])) + DigitValue(code[2]))
                                          + DigitValue(code[3])) + DigitValue(code[4])) + DigitValue(code[5])
    ensures CodeAt(mac, secret, counter) == code
  {
    var d := mac(secret, Be(counter, 8));
    assert counter % UINT64 == counter;
    TruncatedIs(d, off, v);
    SixDigits(v % 1_000_000, code);
    hide *;
    CodeAtIs(mac, secret, counter);
  }

  lemma TruncatedIs(d: bytes, off: nat, v: nat)
    requires |d| == 20 && off == d[19] % 16
    requires v == (d[off] as int % 128) * 0x100_0000 + d[off + 1] as int * 0x1_0000 + d[off + 2] as int * 0x100
                  + d[off + 3] as int
    ensures Truncated(d) == v
  {
    MaskAndShift(d[off..off + 4]);
    hide FromBe;
  }

  lemma CodeAtIs(mac: Mac, secret: bytes, counter: int)
    requires Mac20(mac)
    ensures CodeAt(mac, secret, counter) == Decimal(Truncated(mac(secret, Be(counter % UINT64, 8))) % 1_000_000, 6)
  {
    hide Decimal;
    hide Truncated;
    hide Be;
  }

  // Appendix D of RFC 4226: the digests of its ten counters, and their codes.

  lemma Vector0(mac: Mac, secret: bytes)
    requires Mac20(mac) && mac(secret, Be(0, 8))
             == [204, 147, 207, 24, 80, 141, 148, 147, 76, 100, 182, 93, 139, 167, 102, 127, 183, 205, 228, 176]
    ensures CodeAt(mac, secret, 0) == "755224"
  {
    VectorCode(mac, secret, 0, 0, 1284755224, "755224");
  }

  lemma Vector1(mac: Mac, secret: bytes)
    requires Mac20(mac) && mac(secret, Be(1, 8))
             == [117, 164, 138, 25, 212, 203, 225, 0, 100, 78, 138, 193, 57, 126, 234, 116, 122, 45, 51, 171]
    ensures CodeAt(mac, secret, 1) == "287082"
  {
    VectorCode(mac, secret, 1, 11, 1094287082, "287082");
  }

  lemma Vector2(mac: Mac, secret: bytes)
    requires Mac20(mac) && mac(secret, Be(2, 8))
             == [11, 172, 183, 250, 8, 47, 239, 48, 120, 34, 17, 147, 139, 193, 197, 231, 4, 22, 255, 68]
    ensures CodeAt(mac, secret, 2) == "359152"
  {
    VectorCode(mac, secret, 2, 4, 137359152, "359152");
  }

  lemma Vector3(mac: Mac, secret: bytes)
    requires Mac20(mac) && mac(secret, Be(3, 8))
             == [102, 194, 130, 39, 208, 58, 45, 85, 41, 38, 47, 240, 22, 161, 230, 239, 118, 85, 126, 206]
    ensures CodeAt(mac, secret, 3) == "969429"
  {
    VectorCode(mac, secret, 3, 14, 1726969429, "969429");
  }

  lemma Vector4(mac: Mac, secret: bytes)
    requires Mac20(mac) && mac(secret, Be(4, 8))
             == [169, 4, 201, 0, 166, 75, 53, 144, 152, 116, 179, 62, 97, 197, 147, 138, 142, 21, 237, 28]
    ensures CodeAt(mac, secret, 4) == "338314"
  {
    VectorCode(mac, secret, 4, 12, 1640338314, "338314");
  }

  lemma Vector5(mac: Mac, secret: bytes)
    requires Mac20(mac) && mac(secret, Be(5, 8))
             == [163, 126, 120, 61, 123, 114, 51, 192, 131, 212, 246, 41, 38, 199, 162, 95, 35, 141, 3, 22]
    ensures CodeAt(mac, secret, 5) == "254676"
  {
    VectorCode(mac, secret, 5, 6, 868254676, "254676");
  }

  lemma Vector6(mac: Mac, secret: bytes)
    requires Mac20(mac) && mac(secret, Be(6, 8))
             == [188, 156, 210, 133, 97, 4, 44, 131, 242, 25, 50, 77, 60, 96, 114, 86, 192, 50, 114, 174]
    ensures CodeAt(mac, secret, 6) == "287922"
  {
    VectorCode(mac, secret, 6, 14, 1918287922, "287922");
  }

  lemma Vector7(mac: Mac, secret: bytes)
    requires Mac20(mac) && mac(secret, Be(7, 8))
             == [164, 251, 150, 12, 11, 192, 110, 30, 171, 184, 4, 229, 179, 151, 205, 196, 180, 85, 150, 250]
    ensures CodeAt(mac, secret, 7) == "162583"
  {
    VectorCode(mac, secret, 7, 10, 82162583, "162583");
  }

  lemma Vector8(mac: Mac, secret: bytes)
    requires Mac20(mac) && mac(secret, Be(8, 8))
             == [27, 60, 137, 246, 94, 108, 158, 136, 48, 18, 5, 40, 35, 68, 63, 4, 139, 67, 50, 219]
    ensures CodeAt(mac, secret, 8) == "399871"
  {
    VectorCode(mac, secret, 8, 11, 673399871, "399871");
  }

  lemma Vector9(mac: Mac, secret: bytes)
    requires Mac20(mac) && mac(secret, Be(9, 8))
             == [22, 55, 64, 152, 9, 166, 121, 220, 105, 130, 7, 49, 12, 140, 127, 192, 114, 144, 217, 229]
    ensures CodeAt(mac, secret, 9) == "520489"
  {
    VectorCode(mac, secret, 9, 5, 645520489, "520489");
  }

  /** strings.TrimSpace on ASCII. */
  predicate Space(c: char) {
    c == ' ' || '\t' <= c <= '\r'
  }

  function TrimLeft(s: string): string {
    if s != [] && Space(s[0]) then TrimLeft(s[1..]) else s
  }

  function Trim(s: string): string {
    var t := TrimLeft(s);
    TrimRight(t)
  }

  function TrimRight(s: string): string {
    if s != [] && Space(s[|s| - 1]) then TrimRight(s[..|s| - 1]) else s
  }

  /** Only the space around goes. */
  lemma {:induction false} TrimAround(a: string, t: string, b: string)
    requires forall i :: 0 <= i < |a| ==> Space(a[i])
    requires forall i :: 0 <= i < |b| ==> Space(b[i])
    requires t == "" || (!Space(t[0]) && !Space(t[|t| - 1]))
    ensures Trim(a + t + b) == t
  {
    var s := a + t + b;
    if a != "" {
      assert s[0] == a[0] && s[1..] == a[1..] + t + b;
      TrimAround(a[1..], t, b);
    } else if t == "" {
      assert s == b;
      AllSpace(b);
    } else {
      assert s == t + b && s[0] == t[0];
      TrimBehind(t, b);
    }
  }

  lemma {:induction false} AllSpace(b: string)
    requires forall i :: 0 <= i < |b| ==> Space(b[i])
    ensures TrimLeft(b) == ""
  {
    if b != "" {
      AllSpace(b[1..]);
    }
  }

  lemma {:induction false} TrimBehind(t: string, b: string)
    requires t != "" && !Space(t[|t| - 1]) && forall i :: 0 <= i < |b| ==> Space(b[i])
    ensures TrimRight(t + b) == t
  {
    if b == "" {
      assert t + b == t;
    } else {
      assert (t + b)[|t + b| - 1] == b[|b| - 1] && (t + b)[..|t + b| - 1] == t + b[..|b| - 1];
      TrimBehind(t, b[..|b| - 1]);
    }
  }

  /** The verifier's answer: the earliest of the three steps around c whose code this is. */
  ghost predicate Verifies(mac: Mac, secret: bytes, code: string, c: int, r: Option<int>)
    requires Mac20(mac)
  {
    match r
    case None => |Trim(code)| != DIGITS || forall j :: c - 1 <= j <= c + 1 ==> CodeAt(mac, secret, j) != Trim(code)
    case Some(k) =>
      && c - 1 <= k <= c + 1
      && CodeAt(mac, secret, k) == Trim(code)
      && forall j :: c - 1 <= j < k ==> CodeAt(mac, secret, j) != Trim(code)
  }

  method TotpVerify(mac: Mac, secret: bytes, code: string, now: nat) returns (r: Option<int>)
    requires Mac20(mac)
    ensures Verifies(mac, secret, code, now / PERIOD, r)
    ensures r.Some? ==> now / 30 - 1 <= r.value <= now / 30 + 1 && CodeAt(mac, secret, r.value) == Trim(code)
    ensures forall j :: now / 30 - 1 <= j <= now / 30 + 1 && CodeAt(mac, secret, j) == Trim(code) ==> r.Some? && r.value <= j
  {
    hide CodeAt;
    hide Trim;
    var trimmed := Trim(code);
    if |trimmed| != DIGITS {
      return None;
    }
    var c := now / PERIOD;
    var d := -1;
    while d <= 1
      invariant -1 <= d <= 2
      invariant forall j :: c - 1 <= j < c + d ==> CodeAt(mac, secret, j) != trimmed
    {
      var want := TotpCodeAt(mac, secret, c + d);
      if want == trimmed {
        return Some(c + d);
      }
      d := d + 1;
    }
    r := None;
  }

  /** The verifier's answer is determined by what it promises. */
  lemma FirstMatchUnique(mac: Mac, key: bytes, code: string, c: int, a: Option<int>, b: Option<int>)
    requires Mac20(mac) && Verifies(mac, key, code, c, a) && Verifies(mac, key, code, c, b)
    ensures a == b
  {
    hide Trim;
    hide CodeAt;
  }

  function Lower(c: char): char {
    if 'A' <= c <= 'Z' then c + ' ' else c
  }

  predicate Kept(c: char) {
    'a' <= c <= 'z' || '0' <= c <= '9'
  }

  /** normalizeRecovery on ASCII: lower-case, then letters and digits only. */
  function Normalize(s: string): string {
    if s == [] then []
    else
      var init, c := Normalize(s[..|s| - 1]), Lower(s[|s| - 1]);
      if Kept(c) then init + [c] else init
  }

  /** What is kept of one character: with NormalizeConcat, of any text. */
  lemma NormalizeChar(c: char)
    ensures Normalize([c]) == if 'A' <= c <= 'Z' then ["abcdefghijklmnopqrstuvwxyz"[c as int - 65]]
                              else if 'a' <= c <= 'z' || '0' <= c <= '9' then [c] else ""
  {
    assert [c][..0] == [];
    assert "abcdefghijklmnopqrstuvwxyz" == ['a', 'b', 'c', 'd', 'e', 'f', 'g', 'h', 'i', 'j', 'k', 'l', 'm', 'n', 'o', 'p',
                                            'q', 'r', 's', 't', 'u', 'v', 'w', 'x', 'y', 'z'];
  }

  method NormalizeRecovery(s: string) returns (r: string)
    ensures r == Normalize(s)
  {
    r := [];
    for i := 0 to |s|
      invariant r == Normalize(s[..i])
    {
      assert s[..i + 1][..i] == s[..i];
      var c := Lower(s[i]);
      if Kept(c) {
        r := r + [c];
      }
    }
    assert s[..|s|] == s;
  }

  lemma {:induction false} NormalizeConcat(a: string, b: string)
    ensures Normalize(a + b) == Normalize(a) + Normalize(b)
  {
    if b == [] {
      assert a + b == a;
    } else {
      var b', c := b[..|b| - 1], Lower(b[|b| - 1]);
      NormalizeConcat(a, b');
      assert (a + b)[..|a + b| - 1] == a + b' && (a + b)[|a + b| - 1] == b[|b| - 1];
    }
  }

  lemma {:induction false} NormalizeKeeps(s: string)
    requires forall i :: 0 <= i < |s| ==> Kept(s[i])
    ensures Normalize(s) == s
  {
    if s != [] {
      NormalizeKeeps(s[..|s| - 1]);
      assert s == s[..|s| - 1] + [s[|s| - 1]];
    }
  }

  function LowerAll(s: string): (r: string)
    ensures |r| == |s| && forall i :: 0 <= i < |s| ==> r[i] == Lower(s[i])
  {
    if s == [] then [] else LowerAll(s[..|s| - 1]) + [Lower(s[|s| - 1])]
  }

  type Sha = string -> string

  function HashRecovery(sha: Sha, s: string): string {
    sha(Normalize(s))
  }

  /** The eight characters of a recovery code, and how it is shown. */
  function CodeChars(random: bytes): (s: string)
    ensures |s| == 8 && forall i :: 0 <= i < 8 ==> Kept(s[i])
  {
    LowerAll(Encode(FromBe(random), 8))
  }

  /** Different random bytes make different codes. */
  lemma CodesDiffer(a: bytes, b: bytes)
    requires |a| == |b| == 5 && CodeChars(a) == CodeChars(b)
    ensures a == b
  {
    var x, y := Encode(FromBe(a), 8), Encode(FromBe(b), 8);
    forall i | 0 <= i < 8
      ensures x[i] == y[i]
    {
      assert Lower(x[i]) == CodeChars(a)[i] == CodeChars(b)[i] == Lower(y[i]);
    }
    assert x == y;
    assert Pow256(5) == 0x100_0000_0000 && Pow32(8) == 0x100_0000_0000;
    hide Encode;
    hide FromBe;
    hide Pow32;
    hide Pow256;
    EncodeInjective(FromBe(a), FromBe(b), 8);
    BeOfFromBe(a);
    BeOfFromBe(b);
  }

  function Display(s: string): string
    requires |s| == 8
  {
    s[..4] + "-" + s[4..]
  }

  lemma {:induction false} NormalizeFolds(s: string)
    requires forall i :: 0 <= i < |s| ==> Kept(Lower(s[i]))
    ensures Normalize(s) == LowerAll(s)
  {
    if s != [] {
      NormalizeFolds(s[..|s| - 1]);
    }
  }

  /**
   A shown code typed back in any mixture of case, with anything that is neither letter nor digit
   before, between or after its halves, normalizes to the code that was hashed.
   */
  lemma TypedBack(random: bytes, a: string, left: string, b: string, right: string, c: string)
    requires LowerAll(left) == CodeChars(random)[..4] && LowerAll(right) == CodeChars(random)[4..]
    requires Normalize(a) == "" && Normalize(b) == "" && Normalize(c) == ""
    ensures Normalize(a + left + b + right + c) == CodeChars(random)
  {
    hide *;
    var s := CodeChars(random);
    FoldHalf(left, s[..4]);
    FoldHalf(right, s[4..]);
    NormalizeConcat(a + left + b + right, c);
    NormalizeConcat(a + left + b, right);
    NormalizeConcat(a + left, b);
    NormalizeConcat(a, left);
    assert s == s[..4] + s[4..];
    assert "" + s[..4] + "" + s[4..] + "" == s;
  }

  lemma FoldHalf(typed: string, half: string)
    requires LowerAll(typed) == half && forall i :: 0 <= i < |half| ==> Kept(half[i])
    ensures Normalize(typed) == half
  {
    NormalizeFolds(typed);
  }

  /** As shown: the two halves with a dash. */
  lemma DisplayNormalizes(random: bytes)
    ensures Normalize(Display(CodeChars(random))) == CodeChars(random)
    ensures Normalize(CodeChars(random)) == CodeChars(random)
  {
    var s := CodeChars(random);
    hide CodeChars;
    LowerKept(s[..4]);
    LowerKept(s[4..]);
    NormalizeKeeps(s);
    assert Normalize("-") == "" by {
      assert "-"[..0] == "";
    }
    TypedBack(random, "", s[..4], "-", s[4..], "");
    assert "" + s[..4] + "-" + s[4..] + "" == Display(s);
  }

  lemma {:induction false} LowerKept(s: string)
    requires forall i :: 0 <= i < |s| ==> Kept(s[i])
    ensures LowerAll(s) == s
  {
  }

  method NewRecoveryCodes(sha: Sha, random: seq<bytes>) returns (display: seq<string>, hashes: seq<string>)
    ensures |display| == |hashes| == |random|
    ensures forall i :: 0 <= i < |random| ==>
              && display[i] == Display(CodeChars(random[i]))
              && hashes[i] == sha(CodeChars(random[i]))
              && hashes[i] == HashRecovery(sha, display[i])
  {
    hide CodeChars;
    display, hashes := [], [];
    for i := 0 to |random|
      invariant |display| == |hashes| == i
      invariant forall j :: 0 <= j < i ==>
                  && display[j] == Display(CodeChars(random[j]))
                  && hashes[j] == sha(CodeChars(random[j]))
                  && hashes[j] == HashRecovery(sha, display[j])
    {
      var s := CodeChars(random[i]);
      DisplayNormalizes(random[i]);
      display := display + [Display(s)];
      hashes := hashes + [HashRecovery(sha, s)];
    }
  }
}
