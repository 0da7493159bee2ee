/**
 User names as they are typed, and the accounts they lead to: the account store keeps a record in the file
 named by the last element of the name's path (web/accounts.go).
 */
module Names {
  type Name = string

  /** Where a name leads. */
  type Accounts = Name -> Name

  function TrimSlashes(s: string): string {
    if s != "" && s[|s| - 1] == '/' then TrimSlashes(s[..|s| - 1]) else s
  }

  function LastElement(s: string): string {
    if s == "" || s[|s| - 1] == '/' then "" else LastElement(s[..|s| - 1]) + [s[|s| - 1]]
  }

  /** filepath.Base, on slashes. */
  function Base(name: string): string {
    if name == "" then "."
    else
      var t := TrimSlashes(name);
      if t == "" then "/" else LastElement(t)
  }

  /** The names an account can be registered under. */
  predicate ValidName(n: string) {
    3 <= |n| <= 32 && forall i :: 0 <= i < |n| ==> 'a' <= n[i] <= 'z' || '0' <= n[i] <= '9' || n[i] == '_' || n[i] == '-'
  }

  lemma {:induction false} LastElementOf(d: string, n: string)
    requires '/' !in n && (d == "" || d[|d| - 1] == '/')
    ensures LastElement(d + n) == n
  {
    if n == "" {
      assert d + n == d;
    } else {
      var n', c := n[..|n| - 1], n[|n| - 1];
      assert n == n' + [c] && (d + n)[..|d + n| - 1] == d + n';
      LastElementOf(d, n');
    }
  }

  lemma {:induction false} TrimBehind(s: string, slashes: string)
    requires forall i :: 0 <= i < |slashes| ==> slashes[i] == '/'
    requires s == "" || s[|s| - 1] != '/'
    ensures TrimSlashes(s + slashes) == s
  {
    if slashes == "" {
      assert s + slashes == s;
    } else {
      var all, rest := s + slashes, slashes[..|slashes| - 1];
      assert all[|all| - 1] == '/' && all[..|all| - 1] == s + rest;
      TrimBehind(s, rest);
    }
  }

  /**
   The last element of a path is what stands behind its last slash, slashes at the end not counted; of a path of
   nothing but slashes it is a slash, and of nothing a dot.
   */
  lemma BaseIs(d: string, n: string, slashes: string)
    requires forall i :: 0 <= i < |slashes| ==> slashes[i] == '/'
    requires '/' !in n && (d == "" || d[|d| - 1] == '/')
    ensures n != "" ==> Base(d + n + slashes) == n
    ensures slashes != "" ==> Base(slashes) == "/"
    ensures Base("") == "."
  {
    if n != "" {
      assert n[|n| - 1] in n && (d + n)[|d + n| - 1] == n[|n| - 1];
      TrimBehind(d + n, slashes);
      LastElementOf(d, n);
    }
    TrimBehind("", slashes);
    assert "" + slashes == slashes;
  }

  /** A registered name is its own account, and so is that name behind any directory. */
  lemma BaseOf(d: string, n: string)
    requires ValidName(n)
    ensures Base(n) == n && Base(d + "/" + n) == n
  {
    var s := d + "/" + n;
    assert n[|n| - 1] != '/' && '/' !in n;
    assert s[|s| - 1] == n[|n| - 1];
    LastElementOf("", n);
    assert "" + n == n;
    LastElementOf(d + "/", n);
  }

  /** No two of the names lead to one account. */
  ghost predicate OneSpelling(acct: Accounts, names: iset<Name>) {
    forall m, n :: m in names && n in names && acct(m) == acct(n) ==> m == n
  }

  /** Every registered name has other spellings; the names that can be registered are no two of them one account's. */
  lemma Spellings(d: string, n: string)
    requires ValidName(n)
    ensures !OneSpelling(Base, iset{n, d + "/" + n})
    ensures OneSpelling(Base, iset m: string | ValidName(m))
  {
    BaseOf(d, n);
    assert n != d + "/" + n;
    forall m: string | ValidName(m)
      ensures Base(m) == m
    {
      BaseOf(d, m);
    }
    hide Base;
    hide ValidName;
  }
}
