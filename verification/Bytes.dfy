/** Bytes, fixed-width integer encodings and flattening: what the binary formats are built from. */
module Bytes {
  type byte = x: int | 0 <= x < 256

  type bytes = seq<byte>

  datatype Option<+T> = None | Some(value: T)

  function Pow256(k: nat): (r: nat)
    ensures r >= 1
  {
    if k == 0 then 1 else 256 * Pow256(k - 1)
  }

  /** The low k bytes of n, least significant first. */
  function Le(n: nat, k: nat): (s: bytes)
    ensures |s| == k
  {
    if k == 0 then [] else [n % 256] + Le(n / 256, k - 1)
  }

  function FromLe(s: bytes): (n: nat)
    ensures n < Pow256(|s|)
  {
    if s == [] then 0 else s[0] + 256 * FromLe(s[1..])
  }

  /** The low k bytes of n, most significant first. */
  function Be(n: nat, k: nat): (s: bytes)
    ensures |s| == k
  {
    if k == 0 then [] else Be(n / 256, k - 1) + [n % 256]
  }

  function FromBe(s: bytes): (n: nat)
    ensures n < Pow256(|s|)
  {
    if s == [] then 0 else 256 * FromBe(s[..|s| - 1]) + s[|s| - 1]
  }

  lemma {:induction false} FromLeOfLe(n: nat, k: nat)
    requires n < Pow256(k)
    ensures FromLe(Le(n, k)) == n
  {
    if k > 0 {
      FromLeOfLe(n / 256, k - 1);
      assert Le(n, k)[1..] == Le(n / 256, k - 1);
    }
  }

  lemma {:induction false} FromBeOfBe(n: nat, k: nat)
    requires n < Pow256(k)
    ensures FromBe(Be(n, k)) == n
  {
    if k > 0 {
      FromBeOfBe(n / 256, k - 1);
      assert Be(n, k)[..k - 1] == Be(n / 256, k - 1);
    }
  }

  lemma {:induction false} BeOfFromBe(s: bytes)
    ensures Be(FromBe(s), |s|) == s
  {
    if s != [] {
      BeOfFromBe(s[..|s| - 1]);
      DivModUnique(FromBe(s), 256, FromBe(s[..|s| - 1]), s[|s| - 1]);
      assert s == s[..|s| - 1] + [s[|s| - 1]];
    }
  }

  lemma {:induction false} LeOfFromLe(s: bytes)
    ensures Le(FromLe(s), |s|) == s
  {
    if s != [] {
      LeOfFromLe(s[1..]);
      DivModUnique(FromLe(s), 256, FromLe(s[1..]), s[0]);
      assert s == [s[0]] + s[1..];
    }
  }

  /** A width of k bytes keeps a number modulo 256^k and nothing more. */
  lemma {:induction false} BeKeepsModulo(n: nat, k: nat)
    ensures Be(n, k) == Be(n % Pow256(k), k)
  {
    if k > 0 {
      var q := Pow256(k - 1);
      BeKeepsModulo(n / 256, k - 1);
      ModSplit(n, q);
    }
  }

  lemma ModSplit(n: nat, q: nat)
    requires q >= 1
    ensures n % (256 * q) / 256 == (n / 256) % q
    ensures n % (256 * q) % 256 == n % 256
  {
    var a, r := n / 256, n % 256;
    var b, t := a / q, a % q;
    assert n == (256 * q) * b + (256 * t + r) by {
      assert a == q * b + t;
      assert 256 * (q * b) == (256 * q) * b;
    }
    DivModUnique(n, 256 * q, b, 256 * t + r);
  }

  lemma DivModUnique(n: nat, d: nat, q: nat, r: nat)
    requires d >= 1 && n == d * q + r && r < d
    ensures n / d == q && n % d == r
  {
    QuotientAtMost(n, d, q, r, n / d, n % d);
    QuotientAtMost(n, d, n / d, n % d, q, r);
  }

  lemma QuotientAtMost(n: nat, d: nat, q: nat, r: nat, q': nat, r': nat)
    requires n == d * q + r && n == d * q' + r' && r < d && r' < d
    ensures q' <= q
  {
    if q < q' {
      MulStep(d, q, q');
    }
  }

  lemma MulStep(d: nat, q: nat, q': nat)
    requires q < q'
    ensures d * q' >= d * q + d
  {
    var e := q' - q - 1;
    assert d * q' == d * q + d + d * e;
  }

  lemma BeInjective(m: nat, n: nat, k: nat)
    requires Be(m, k) == Be(n, k)
    ensures m % Pow256(k) == n % Pow256(k)
  {
    BeKeepsModulo(m, k);
    BeKeepsModulo(n, k);
    FromBeOfBe(m % Pow256(k), k);
    FromBeOfBe(n % Pow256(k), k);
  }

  function Flatten<T>(parts: seq<seq<T>>): seq<T> {
    if parts == [] then [] else Flatten(parts[..|parts| - 1]) + parts[|parts| - 1]
  }

  lemma FlattenSnoc<T>(parts: seq<seq<T>>, p: seq<T>)
    ensures Flatten(parts + [p]) == Flatten(parts) + p
  {
    assert (parts + [p])[..|parts|] == parts;
  }

  lemma {:induction false} FlattenConcat<T>(a: seq<seq<T>>, b: seq<seq<T>>)
    ensures Flatten(a + b) == Flatten(a) + Flatten(b)
  {
    if b == [] {
      assert a + b == a;
    } else {
      var b' := b[..|b| - 1];
      FlattenConcat(a, b');
      assert (a + b)[..|a + b| - 1] == a + b';
    }
  }

  lemma FlattenTake<T>(parts: seq<seq<T>>, i: nat)
    requires i < |parts|
    ensures Flatten(parts[..i + 1]) == Flatten(parts[..i]) + parts[i]
  {
    assert parts[..i + 1] == parts[..i] + [parts[i]];
    FlattenSnoc(parts[..i], parts[i]);
  }

  lemma FlattenPrefix<T>(parts: seq<seq<T>>, i: nat)
    requires i <= |parts|
    ensures Flatten(parts[..i]) <= Flatten(parts)
  {
    FlattenConcat(parts[..i], parts[i..]);
    assert parts[..i] + parts[i..] == parts;
  }
}
