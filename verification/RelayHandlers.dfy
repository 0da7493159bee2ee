/** The relay's handlers as written, one at a time over the directory, and where claim codes come from. */
module RelayHandlers {
  import opened Base32
  import opened Bytes
  import opened Relay
  import opened RelayOnce

  /** newCode: 128 random bits, padded with two zero bits to 26 digits of 5. */
  function NewCode(random: bytes): string
    requires |random| == 16
  {
    Encode(4 * FromBe(random), CODE_LENGTH)
  }

  /** Every code is valid for the download path, and different random bytes give different codes. */
  lemma NewCodeValid(a: bytes, b: bytes)
    requires |a| == 16 && |b| == 16
    ensures ValidCode(NewCode(a))
    ensures NewCode(a) == NewCode(b) ==> a == b
  {
    CodesAt(a, b, CODE_LENGTH);
    hide *;
    NewCodeIs(a);
    NewCodeIs(b);
  }

  lemma NewCodeIs(a: bytes)
    requires |a| == 16
    ensures NewCode(a) == Encode(4 * FromBe(a), CODE_LENGTH)
  {
    hide Encode;
    hide FromBe;
  }

  lemma CodesAt(a: bytes, b: bytes, k: nat)
    requires |a| == 16 && |b| == 16 && k == CODE_LENGTH
    ensures ValidCode(Encode(4 * FromBe(a), k))
    ensures Encode(4 * FromBe(a), k) == Encode(4 * FromBe(b), k) ==> a == b
  {
    hide FromBe;
    hide Be;
    hide Encode;
    hide Pow32;
    hide Pow256;
    CodeFits(a);
    CodeFits(b);
    if Encode(4 * FromBe(a), k) == Encode(4 * FromBe(b), k) {
      EncodeInjective(4 * FromBe(a), 4 * FromBe(b), k);
      BeOfFromBe(a);
      BeOfFromBe(b);
    }
  }

  lemma CodeFits(a: bytes)
    requires |a| == 16
    ensures 4 * FromBe(a) < Pow32(CODE_LENGTH)
  {
    hide FromBe;
    hide Pow256;
    hide Pow32;
    CounterPowers();
  }

  lemma CounterPowers()
    ensures 4 * Pow256(16) == Pow32(CODE_LENGTH)
  {
    assert Pow256(4) == 0x1_0000_0000;
    assert Pow256(8) == 0x1_0000_0000_0000_0000;
    assert Pow256(12) == 0x1_0000_0000_0000_0000_0000_0000;
    assert Pow256(16) == 0x1_0000_0000_0000_0000_0000_0000_0000_0000;
    assert Pow32(6) == 0x4000_0000;
    assert Pow32(12) == 0x1000_0000_0000_0000;
    assert Pow32(18) == 0x400_0000_0000_0000_0000_0000;
    assert Pow32(24) == 0x100_0000_0000_0000_0000_0000_0000_0000;
  }

  datatype Blob = Blob(content: bytes, mtime: int)

  class RelayServer {
    var dir: map<string, Blob>
    const maxBytes: nat
    const ttl: nat

    constructor (maxBytes: nat, ttl: nat)
      ensures dir == map[] && this.maxBytes == maxBytes && this.ttl == ttl
    {
      this.maxBytes, this.ttl, dir := maxBytes, ttl, map[];
    }

    /** handleUpload, with the names it draws: the blob appears under its code only when complete. */
    method HandleUpload(body: bytes, code: string, tmp: string, now: int) returns (r: Option<string>)
      requires ValidCode(code) && TempName(tmp) && tmp !in dir
      modifies this
      ensures r == if |body| <= maxBytes then Some(code) else None
      ensures dir == if |body| <= maxBytes then old(dir)[code := Blob(body, now)] else old(dir)
    {
      NamesDisjoint(tmp, code);
      dir := dir[tmp := Blob([], now)];
      var n := 0;
      while n < |body| && n < maxBytes
        invariant n <= |body| && n <= maxBytes
        invariant dir == old(dir)[tmp := Blob(body[..n], now)]
        decreases |body| - n
      {
        dir := dir[tmp := Blob(dir[tmp].content + [body[n]], now)];
        n := n + 1;
        assert body[..n] == body[..n - 1] + [body[n - 1]];
      }
      if n < |body| {
        dir := dir - {tmp};
        return None;
      }
      assert body[..n] == body;
      dir := dir[code := dir[tmp]] - {tmp};
      r := Some(code);
    }

    /** handleDownload: rename away, serve, remove. Anything but a stored code leaves the directory alone. */
    method HandleDownload(code: string) returns (r: Option<bytes>)
      modifies this
      ensures r == if ValidCode(code) && code in old(dir) then Some(old(dir)[code].content) else None
      ensures dir == if r.Some? then old(dir) - {code, ClaimedName(code)} else old(dir)
    {
      if !ValidCode(code) || code !in dir {
        return None;
      }
      NamesDisjoint("", code);
      var claimed := ClaimedName(code);
      dir := dir[claimed := dir[code]] - {code};
      r := Some(dir[claimed].content);
      dir := dir - {claimed};
    }

    /** sweepOnce: exactly the entries older than the time to live go. */
    method SweepOnce(now: int)
      modifies this
      ensures dir == map n | n in old(dir) && old(dir)[n].mtime >= now - ttl :: old(dir)[n]
    {
      var entries := dir.Keys;
      var cutoff := now - ttl;
      while entries != {}
        invariant entries <= dir.Keys <= old(dir).Keys
        invariant forall n :: n in dir ==> dir[n] == old(dir)[n]
        invariant forall n :: n in old(dir) && n !in entries ==> (n in dir <==> old(dir)[n].mtime >= cutoff)
        decreases entries
      {
        var n :| n in entries;
        if dir[n].mtime < cutoff {
          dir := dir - {n};
        }
        entries := entries - {n};
      }
    }
  }

  /** Uploaded once, fetched once: the first download gets the body, the next finds nothing. */
  method UploadFetchFetch(body: bytes, random: bytes, tmp: string, maxBytes: nat)
    returns (first: Option<bytes>, second: Option<bytes>)
    requires |random| == 16 && TempName(tmp)
    ensures first == (if |body| <= maxBytes then Some(body) else None) && second == None
  {
    var code := NewCode(random);
    NewCodeValid(random, random);
    var server := new RelayServer(maxBytes, 0);
    var r := server.HandleUpload(body, code, tmp, 0);
    first := server.HandleDownload(code);
    second := server.HandleDownload(code);
  }
}
