/** Go slices of times: a length over a backing array that filtering and appending reuse in place. */
module Slices {
  datatype Slice = Slice(arr: array<int>, len: nat)

  /** The times strictly after the cutoff, in order. */
  function Newer(ts: seq<int>, cutoff: int): (r: seq<int>)
    ensures |r| <= |ts|
  {
    if ts == [] then []
    else
      var init, t := ts[..|ts| - 1], ts[|ts| - 1];
      if t > cutoff then Newer(init, cutoff) + [t] else Newer(init, cutoff)
  }

  lemma {:induction false} NewerTwice(ts: seq<int>, c: int, d: int)
    requires c <= d
    ensures Newer(Newer(ts, c), d) == Newer(ts, d)
  {
    if ts != [] {
      var init, t := ts[..|ts| - 1], ts[|ts| - 1];
      NewerTwice(init, c, d);
      assert (Newer(init, c) + [t])[..|Newer(init, c)|] == Newer(init, c);
    }
  }

  lemma NewerSnoc(ts: seq<int>, t: int, c: int)
    ensures Newer(ts + [t], c) == if t > c then Newer(ts, c) + [t] else Newer(ts, c)
  {
    assert (ts + [t])[..|ts|] == ts;
  }

  lemma {:induction false} NewerNonempty(ts: seq<int>, c: int)
    ensures Newer(ts, c) != [] <==> exists i :: 0 <= i < |ts| && ts[i] > c
  {
    if ts != [] {
      NewerNonempty(ts[..|ts| - 1], c);
    }
  }

  /** kept := s[:0]; append each newer time. The filter writes over the array it reads. */
  method FilterNewer(s: Slice, cutoff: int) returns (kept: Slice)
    requires s.len <= s.arr.Length
    modifies s.arr
    ensures kept.arr == s.arr && kept.len <= s.len
    ensures kept.arr[..kept.len] == Newer(old(s.arr[..s.len]), cutoff)
  {
    var a, n := s.arr, 0;
    ghost var was := a[..];
    for i := 0 to s.len
      invariant n <= i
      invariant a[..n] == Newer(was[..i], cutoff)
      invariant a[i..] == was[i..]
    {
      assert was[..i + 1][..i] == was[..i];
      assert a[i] == a[i..][0] == was[i];
      if a[i] > cutoff {
        a[n] := a[i];
        n := n + 1;
        assert a[..n] == a[..n - 1] + [was[i]];
      }
      assert a[i + 1..] == was[i..][1..];
    }
    assert was[..s.len] == old(s.arr[..s.len]);
    kept := Slice(a, n);
  }

  /** append: in place while there is capacity, otherwise into a new array. */
  method Append(s: Slice, t: int) returns (r: Slice)
    requires s.len <= s.arr.Length
    modifies s.arr
    ensures r.arr == s.arr || fresh(r.arr)
    ensures r.len == s.len + 1 <= r.arr.Length
    ensures r.arr[..r.len] == old(s.arr[..s.len]) + [t]
  {
    var a := s.arr;
    if s.len == a.Length {
      a := new int[2 * s.len + 1];
      for i := 0 to s.len
        invariant a[..i] == s.arr[..i]
        invariant s.arr[..] == old(s.arr[..])
      {
        a[i] := s.arr[i];
        assert a[..i + 1] == a[..i] + [a[i]] && s.arr[..i + 1] == s.arr[..i] + [s.arr[i]];
      }
    }
    a[s.len] := t;
    assert a[..s.len + 1] == a[..s.len] + [t];
    r := Slice(a, s.len + 1);
  }

  method AnyNewer(s: Slice, cutoff: int) returns (found: bool)
    requires s.len <= s.arr.Length
    ensures found <==> Newer(s.arr[..s.len], cutoff) != []
  {
    NewerNonempty(s.arr[..s.len], cutoff);
    for i := 0 to s.len
      invariant forall j :: 0 <= j < i ==> s.arr[j] <= cutoff
    {
      if s.arr[i] > cutoff {
        assert s.arr[..s.len][i] > cutoff;
        return true;
      }
    }
    found := false;
  }

  /** Slices kept in a map never share a backing array. */
  ghost predicate Separate(m: map<string, Slice>) {
    forall k1, k2 :: k1 in m && k2 in m && m[k1].arr == m[k2].arr ==> k1 == k2
  }

  ghost function Arrays(m: map<string, Slice>): set<array<int>> {
    set k | k in m :: m[k].arr
  }

  ghost predicate WellFormed(m: map<string, Slice>) {
    Separate(m) && forall k :: k in m ==> m[k].len <= m[k].arr.Length
  }

  /** What the slices hold. */
  ghost function Times(m: map<string, Slice>): map<string, seq<int>>
    requires WellFormed(m)
    reads Arrays(m)
  {
    map k | k in m :: m[k].arr[..m[k].len]
  }

  ghost predicate Submap(m': map<string, Slice>, m: map<string, Slice>) {
    forall k :: k in m' ==> k in m && m'[k] == m[k]
  }

  lemma SubmapWellFormed(m': map<string, Slice>, m: map<string, Slice>)
    requires WellFormed(m) && Submap(m', m)
    ensures WellFormed(m') && Arrays(m') <= Arrays(m)
    ensures Times(m') == map k | k in m' :: Times(m)[k]
  {
  }

  lemma SubmapSelf(m: map<string, Slice>)
    ensures Submap(m, m)
  {
  }

  lemma SubmapDelete(m': map<string, Slice>, m: map<string, Slice>, k: string)
    requires Submap(m', m)
    ensures Submap(m' - {k}, m)
  {
  }

  lemma EachTime(m: map<string, Slice>)
    requires WellFormed(m)
    ensures Times(m).Keys == m.Keys
    ensures forall k :: k in m ==> m[k].len <= m[k].arr.Length && Times(m)[k] == m[k].arr[..m[k].len]
  {
  }

  function At(m: map<string, seq<int>>, k: string): seq<int> {
    if k in m then m[k] else []
  }

  /** m[key]: the key's slice, or an empty one of its own. */
  method SliceAt(m: map<string, Slice>, key: string) returns (s: Slice)
    requires WellFormed(m)
    ensures s.len <= s.arr.Length && s.arr[..s.len] == At(Times(m), key)
    ensures if key in m then s == m[key] else fresh(s.arr)
  {
    if key in m {
      s := m[key];
    } else {
      var none := new int[0];
      s := Slice(none, 0);
    }
  }

  /** m[key] = s, after only the key's own array has been written. */
  lemma StoreTimes(m: map<string, Slice>, g: map<string, seq<int>>, key: string, s: Slice)
    requires WellFormed(m) && s.len <= s.arr.Length && Others(m, g, key, s)
    ensures WellFormed(m[key := s]) && Times(m[key := s]) == g[key := s.arr[..s.len]]
    ensures Arrays(m[key := s]) <= Arrays(m) + {s.arr}
  {
  }

  /** The key's slice filtered in place; every other key's times are as they were. */
  method FilterKey(m: map<string, Slice>, key: string, cutoff: int) returns (kept: Slice)
    requires WellFormed(m)
    modifies Arrays(m)
    ensures kept.len <= kept.arr.Length && kept.arr[..kept.len] == Newer(At(old(Times(m)), key), cutoff)
    ensures fresh(kept.arr) || kept.arr in Arrays(m)
    ensures Others(m, old(Times(m)), key, kept)
  {
    hide Newer;
    EachTime(m);
    var s := SliceAt(m, key);
    kept := FilterNewer(s, cutoff);
  }

  /** Only `s`, if any, shares the key's array, and every other key of m still holds its times. */
  ghost predicate Others(m: map<string, Slice>, g: map<string, seq<int>>, key: string, s: Slice)
    reads Arrays(m)
  {
    g.Keys == m.Keys
    && forall k :: k in m && k != key ==>
         m[k].arr != s.arr && m[k].len <= m[k].arr.Length && m[k].arr[..m[k].len] == g[k]
  }

  /** append to the key's slice, with the other keys still as they were. */
  method AppendKey(m: map<string, Slice>, ghost g: map<string, seq<int>>, key: string, s: Slice, t: int)
    returns (r: Slice)
    requires s.len <= s.arr.Length && Others(m, g, key, s)
    modifies s.arr
    ensures r.len <= r.arr.Length && r.arr[..r.len] == old(s.arr[..s.len]) + [t]
    ensures r.arr == s.arr || fresh(r.arr)
    ensures Others(m, g, key, r)
  {
    r := Append(s, t);
  }

  lemma SelfOthers(m: map<string, Slice>, key: string)
    requires WellFormed(m) && key in m
    ensures Others(m, Times(m), key, m[key])
  {
    EachTime(m);
  }
}
