/** Base32 without padding, RFC 4648 section 6: claim codes and recovery codes are written in it. */
module Base32 {
  predicate Alphabet(c: char) {
    'A' <= c <= 'Z' || '2' <= c <= '7'
  }

  function Pow32(k: nat): (r: nat)
    ensures r >= 1
  {
    if k == 0 then 1 else 32 * Pow32(k - 1)
  }

  /** One base32 digit, RFC 4648 section 6. */
  function Digit(d: nat): char
    requires d < 32
  {
    if d < 26 then 'A' + d as char else '2' + (d - 26) as char
  }

  /** The low k base32 digits of n, most significant first. */
  function Encode(n: nat, k: nat): (s: string)
    ensures |s| == k && forall i :: 0 <= i < k ==> Alphabet(s[i])
  {
    if k == 0 then [] else Encode(n / 32, k - 1) + [Digit(n % 32)]
  }

  lemma {:induction false} EncodeInjective(m: nat, n: nat, k: nat)
    requires m < Pow32(k) && n < Pow32(k) && Encode(m, k) == Encode(n, k)
    ensures m == n
  {
    if k > 0 {
      var a, b := Encode(m, k), Encode(n, k);
      assert a[..k - 1] == Encode(m / 32, k - 1) && b[..k - 1] == Encode(n / 32, k - 1);
      EncodeInjective(m / 32, n / 32, k - 1);
      assert a[k - 1] == b[k - 1];
    }
  }
}
