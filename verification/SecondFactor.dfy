/**
 Single-use second factors (web/accounts.go, web/twofa_handlers.go): the closures that change a user's record,
 run one after another. SecondFactorRuns says when interleaved calls come to that.
 */
module SecondFactor {
  import opened Bytes
  import opened Totp

  datatype Record = Record(enabled: bool, hasSecret: bool, lastUsed: int, codes: seq<string>)

  /**
   The closures that take effect. A login with a code was verified outside the lock at time `at` and
   matched time step `counter`; enabling and disabling carry whether their code check passed. A new
   password, a plan or a team link changes other fields.
   */
  datatype Event =
    | UseTotp(at: nat, counter: int)
    | UseRecovery(hash: string)
    | Setup
    | Enable(valid: bool, hashes: seq<string>)
    | Regenerate(hashes: seq<string>)
    | Disable(valid: bool)
    | Other

  function WithoutFirst(codes: seq<string>, h: string): seq<string> {
    if codes == [] then []
    else if codes[0] == h then codes[1..]
    else [codes[0]] + WithoutFirst(codes[1..], h)
  }

  function Step(u: Record, e: Event): (Record, bool) {
    match e
    case UseTotp(_, counter) => if counter <= u.lastUsed then (u, false) else (u.(lastUsed := counter), true)
    case UseRecovery(h) => if h in u.codes then (u.(codes := WithoutFirst(u.codes, h)), true) else (u, false)
    case Setup => (u.(hasSecret := true, enabled := false, lastUsed := 0), true)
    case Enable(valid, hashes) =>
      if u.hasSecret && valid then (u.(enabled := true, codes := hashes), true) else (u, false)
    case Regenerate(hashes) => if u.enabled then (u.(codes := hashes), true) else (u, false)
    case Disable(valid) => if u.enabled && !valid then (u, false) else (Record(false, false, 0, []), true)
    case Other => (u, true)
  }

  function Run(u: Record, events: seq<Event>): Record {
    if events == [] then u else Step(Run(u, events[..|events| - 1]), events[|events| - 1]).0
  }

  /** The event resets the replay guard. */
  predicate Resets(u: Record, e: Event) {
    e.Setup? || (e.Disable? && Step(u, e).1)
  }

  /** The time steps accepted since the last reset. */
  function Accepted(u: Record, events: seq<Event>): seq<int> {
    if events == [] then []
    else
      var init, e := events[..|events| - 1], events[|events| - 1];
      var before := Run(u, init);
      if Resets(before, e) then []
      else if e.UseTotp? && Step(before, e).1 then Accepted(u, init) + [e.counter]
      else Accepted(u, init)
  }

  ghost predicate Increasing(s: seq<int>) {
    forall i, j :: 0 <= i < j < |s| ==> s[i] < s[j]
  }

  /** Accepting a step later than the last one used keeps the accepted steps increasing. */
  ghost predicate Guarded(u: Record, accepted: seq<int>) {
    Increasing(accepted) && (accepted != [] ==> u.lastUsed == accepted[|accepted| - 1])
  }

  lemma GuardedStep(u: Record, e: Event, accepted: seq<int>)
    requires Guarded(u, accepted)
    ensures Guarded(Step(u, e).0, if Resets(u, e) then []
                                  else if e.UseTotp? && Step(u, e).1 then accepted + [e.counter] else accepted)
  {
    hide WithoutFirst;
    var longer := accepted + if e.UseTotp? then [e.counter] else [];
    assert e.UseTotp? && Step(u, e).1 ==> Increasing(longer);
  }

  /** Between resets no time step is accepted twice, nor one before another accepted earlier. */
  lemma {:induction false} AcceptedIncrease(u: Record, events: seq<Event>)
    ensures Increasing(Accepted(u, events))
    ensures Accepted(u, events) != [] ==>
              Run(u, events).lastUsed == Accepted(u, events)[|Accepted(u, events)| - 1]
  {
    AcceptedGuarded(u, events);
    hide Increasing;
    hide Run;
    hide Accepted;
  }

  lemma {:induction false} AcceptedGuarded(u: Record, events: seq<Event>)
    ensures Guarded(Run(u, events), Accepted(u, events))
  {
    if events != [] {
      var init, e := events[..|events| - 1], events[|events| - 1];
      AcceptedGuarded(u, init);
      GuardedStep(Run(u, init), e, Accepted(u, init));
      hide Guarded;
      hide Step;
    }
  }

  /** The verifier checked each code within one step of the clock. */
  ghost predicate CheckedWithin(events: seq<Event>, t0: nat, t1: nat) {
    forall i :: 0 <= i < |events| && events[i].UseTotp? ==>
      && t0 <= events[i].at <= t1
      && events[i].at / PERIOD - 1 <= events[i].counter <= events[i].at / PERIOD + 1
  }

  lemma {:induction false} AcceptedInRange(u: Record, events: seq<Event>, t0: nat, t1: nat)
    requires CheckedWithin(events, t0, t1)
    ensures forall i :: 0 <= i < |Accepted(u, events)| ==>
              t0 / PERIOD - 1 <= Accepted(u, events)[i] <= t1 / PERIOD + 1
  {
    if events != [] {
      var e := events[|events| - 1];
      AcceptedInRange(u, events[..|events| - 1], t0, t1);
      if e.UseTotp? {
        assert t0 / PERIOD <= e.at / PERIOD <= t1 / PERIOD;
      }
    }
  }

  lemma {:induction false} IncreasingBound(s: seq<int>, lo: int, hi: int)
    requires Increasing(s) && forall i :: 0 <= i < |s| ==> lo <= s[i] <= hi
    ensures s != [] ==> |s| <= hi - lo + 1 && s[|s| - 1] >= lo + |s| - 1
  {
    if |s| > 1 {
      var init := s[..|s| - 1];
      IncreasingBound(init, lo, hi);
      assert init[|init| - 1] == s[|s| - 2] < s[|s| - 1];
    }
  }

  /**
   However many logins there are, codes checked between t0 and t1 are accepted at most once per time step
   in reach: t1/30 - t0/30 + 3 times between resets.
   */
  lemma TotpAcceptances(u: Record, events: seq<Event>, t0: nat, t1: nat)
    requires CheckedWithin(events, t0, t1) && t0 <= t1
    ensures |Accepted(u, events)| <= t1 / PERIOD - t0 / PERIOD + 3
  {
    AcceptedIncrease(u, events);
    AcceptedInRange(u, events, t0, t1);
    assert t0 / PERIOD <= t1 / PERIOD;
    IncreasingBound(Accepted(u, events), t0 / PERIOD - 1, t1 / PERIOD + 1);
  }

  function Count(codes: seq<string>, h: string): nat {
    multiset(codes)[h]
  }

  /** Dropping every copy of h. */
  function Others(codes: seq<string>, h: string): seq<string> {
    if codes == [] then []
    else if codes[0] == h then Others(codes[1..], h)
    else [codes[0]] + Others(codes[1..], h)
  }

  /** Using a code takes exactly one copy of it and leaves the rest in order. */
  lemma {:induction false} UseTakesOne(codes: seq<string>, h: string)
    requires h in codes
    ensures multiset(WithoutFirst(codes, h)) == multiset(codes) - multiset{h}
    ensures |WithoutFirst(codes, h)| == |codes| - 1
    ensures Others(WithoutFirst(codes, h), h) == Others(codes, h)
  {
    assert codes == [codes[0]] + codes[1..];
    if codes[0] != h {
      UseTakesOne(codes[1..], h);
      assert ([codes[0]] + WithoutFirst(codes[1..], h))[1..] == WithoutFirst(codes[1..], h);
    }
  }

  predicate Issues(e: Event) {
    e.Enable? || e.Regenerate? || e.Disable?
  }

  function UsedNow(e: Event, ok: bool, h: string): nat {
    if e.UseRecovery? && ok && e.hash == h then 1 else 0
  }

  /** The codes issued last. */
  function Issued(u: Record, events: seq<Event>): seq<string> {
    if events == [] then u.codes
    else
      var init, e := events[..|events| - 1], events[|events| - 1];
      var (after, ok) := Step(Run(u, init), e);
      if Issues(e) && ok then after.codes else Issued(u, init)
  }

  /** How often h has been accepted since. */
  function Uses(u: Record, events: seq<Event>, h: string): nat {
    if events == [] then 0
    else
      var init, e := events[..|events| - 1], events[|events| - 1];
      var ok := Step(Run(u, init), e).1;
      if Issues(e) && ok then 0 else Uses(u, init, h) + UsedNow(e, ok, h)
  }

  /** Keeping a subsequence: what remains is what was issued, minus used codes, in the issued order. */
  ghost predicate InOrder(rest: seq<string>, all: seq<string>)
    decreases |all|
  {
    if rest == [] then true
    else all != [] && ((rest[0] == all[0] && InOrder(rest[1..], all[1..])) || InOrder(rest, all[1..]))
  }

  lemma {:induction false} InOrderSelf(s: seq<string>)
    ensures InOrder(s, s)
  {
    if s != [] {
      InOrderSelf(s[1..]);
    }
  }

  lemma {:induction false} InOrderTail(rest: seq<string>, all: seq<string>)
    requires rest != [] && InOrder(rest, all)
    ensures InOrder(rest[1..], all)
    decreases |all|
  {
    if rest[0] == all[0] && InOrder(rest[1..], all[1..]) {
      assert InOrder(rest[1..], all) by {
        if rest[1..] != [] {
          assert InOrder(rest[1..], all[1..]);
        }
      }
    } else {
      InOrderTail(rest, all[1..]);
    }
  }

  lemma {:induction false} InOrderUse(rest: seq<string>, all: seq<string>, h: string)
    requires InOrder(rest, all) && h in rest
    ensures InOrder(WithoutFirst(rest, h), all)
    decreases |all|
  {
    if rest[0] == h {
      InOrderTail(rest, all);
    } else if rest[0] == all[0] && InOrder(rest[1..], all[1..]) {
      InOrderUse(rest[1..], all[1..], h);
      var w := WithoutFirst(rest, h);
      assert w[1..] == WithoutFirst(rest[1..], h);
    } else {
      InOrderUse(rest, all[1..], h);
    }
  }

  /**
   Over every sequence of closures: of each code, the successful uses since it was last issued and the copies
   still stored add up to the copies issued; and what is stored is in the order it was issued.
   */
  lemma {:induction false} CodesConserved(u: Record, events: seq<Event>, h: string)
    ensures Uses(u, events, h) + Count(Run(u, events).codes, h) == Count(Issued(u, events), h)
    ensures InOrder(Run(u, events).codes, Issued(u, events))
  {
    if events == [] {
      InOrderSelf(u.codes);
    } else {
      var init, e := events[..|events| - 1], events[|events| - 1];
      CodesConserved(u, init, h);
      CodesLast(u, events, h);
      CodesStep(Run(u, init), Issued(u, init), e, h);
      hide *;
    }
  }

  /** What the last event of a run does to the stored codes, the codes issued and the use count. */
  lemma CodesLast(u: Record, events: seq<Event>, h: string)
    requires events != []
    ensures var init, e := events[..|events| - 1], events[|events| - 1];
            var (after, ok) := Step(Run(u, init), e);
            && Run(u, events) == after
            && Issued(u, events) == (if Issues(e) && ok then after.codes else Issued(u, init))
            && Uses(u, events, h) == if Issues(e) && ok then 0 else Uses(u, init, h) + UsedNow(e, ok, h)
  {
    hide Step;
  }

  lemma CodesStep(before: Record, issued: seq<string>, e: Event, h: string)
    requires InOrder(before.codes, issued)
    ensures var (after, ok) := Step(before, e);
            && (Issues(e) && ok ==> InOrder(after.codes, after.codes))
            && (!(Issues(e) && ok) ==>
                  InOrder(after.codes, issued) && UsedNow(e, ok, h) + Count(after.codes, h) == Count(before.codes, h))
  {
    hide InOrder;
    hide WithoutFirst;
    InOrderSelf(Step(before, e).0.codes);
    if e.UseRecovery? && e.hash in before.codes {
      hide Others;
      UseTakesOne(before.codes, e.hash);
      InOrderUse(before.codes, issued, e.hash);
      assert multiset(before.codes)[e.hash] > 0;
    }
  }

  /** A code issued once is accepted at most once until codes are issued again. */
  lemma RecoveryOnce(u: Record, events: seq<Event>, h: string)
    requires Count(Issued(u, events), h) <= 1
    ensures Uses(u, events, h) <= 1
  {
    CodesConserved(u, events, h);
  }

  // Turning the factor on and off.

  /** The closure may turn the factor off: a new secret, or a disable whose code verified. */
  predicate MayTurnOff(e: Event) {
    e.Setup? || (e.Disable? && e.valid)
  }

  /** What a step does to the factor itself. */
  lemma FactorStep(u: Record, e: Event)
    ensures var (after, ok) := Step(u, e);
            && (u.enabled && !after.enabled ==> MayTurnOff(e))
            && (!u.enabled && after.enabled ==> e.Enable? && e.valid && u.hasSecret)
            && (u.hasSecret && !after.hasSecret ==> e.Disable? && (e.valid || !u.enabled))
            && (!u.hasSecret && after.hasSecret ==> e.Setup?)
            && (u.enabled && e.Disable? && !e.valid ==> after == u && !ok)
            && (e.Enable? && !(e.valid && u.hasSecret) ==> after == u && !ok)
            && (e.Regenerate? && !u.enabled ==> after == u && !ok)
            && (e.UseTotp? ==> ok == (e.counter > u.lastUsed) && after == u.(lastUsed := if ok then e.counter else u.lastUsed))
            && (e.UseRecovery? ==> ok == (e.hash in u.codes) && after == u.(codes := after.codes))
            && (e.Setup? ==> ok && after == Record(false, true, 0, u.codes))
  {
    hide WithoutFirst;
  }

  lemma RunNext(u: Record, events: seq<Event>, k: nat)
    requires k < |events|
    ensures Run(u, events[..k + 1]) == Step(Run(u, events[..k]), events[k]).0
  {
    assert events[..k + 1][..k] == events[..k];
    hide Step;
  }

  /** A factor that was on and is off was turned off at some closure that may do that. */
  lemma {:induction false} TurnedOff(u: Record, events: seq<Event>) returns (k: nat)
    requires u.enabled && !Run(u, events).enabled
    ensures k < |events| && MayTurnOff(events[k]) && Run(u, events[..k]).enabled && !Run(u, events[..k + 1]).enabled
  {
    k := |events| - 1;
    FactorStep(Run(u, events[..k]), events[k]);
    assert events[..k + 1] == events;
    if !Run(u, events[..k]).enabled {
      var init := events[..k];
      k := TurnedOff(u, init);
      assert init[..k] == events[..k] && init[..k + 1] == events[..k + 1];
    }
    hide Step;
  }

  /** A factor that is on and was off was turned on by an enable with a stored secret and a code that verified. */
  lemma {:induction false} TurnedOn(u: Record, events: seq<Event>) returns (k: nat)
    requires !u.enabled && Run(u, events).enabled
    ensures k < |events| && events[k].Enable? && events[k].valid && Run(u, events[..k]).hasSecret
    ensures forall j :: k < j <= |events| ==> Run(u, events[..j]).enabled
  {
    k := |events| - 1;
    FactorStep(Run(u, events[..k]), events[k]);
    assert events[..k + 1] == events;
    if Run(u, events[..k]).enabled {
      var init := events[..k];
      k := TurnedOn(u, init);
      forall j | k < j <= |events|
        ensures Run(u, events[..j]).enabled
      {
        if j < |events| {
          assert init[..j] == events[..j];
        } else {
          assert events[..j] == events;
        }
      }
      assert init[..k] == events[..k];
    }
    hide Step;
  }

  /** A stored secret came from a setup. */
  lemma {:induction false} SecretFrom(u: Record, events: seq<Event>) returns (k: nat)
    requires !u.hasSecret && Run(u, events).hasSecret
    ensures k < |events| && events[k].Setup?
    ensures forall j :: k < j <= |events| ==> Run(u, events[..j]).hasSecret
  {
    k := |events| - 1;
    FactorStep(Run(u, events[..k]), events[k]);
    assert events[..k + 1] == events;
    if Run(u, events[..k]).hasSecret {
      var init := events[..k];
      k := SecretFrom(u, init);
      forall j | k < j <= |events|
        ensures Run(u, events[..j]).hasSecret
      {
        if j < |events| {
          assert init[..j] == events[..j];
        } else {
          assert events[..j] == events;
        }
      }
    }
    hide Step;
  }

  lemma EnableIs(u: Record)
    ensures forall valid, hashes :: Step(u, Enable(valid, hashes))
                                    == if u.hasSecret && valid then (u.(enabled := true, codes := hashes), true) else (u, false)
  {
  }

  /** The user's record as the closures change it; recovery codes are a slice shifted in place. */
  class UserRecord {
    var enabled: bool
    var secret: Option<bytes>
    var lastUsed: int
    var codes: array<string>
    var count: nat

    ghost predicate Valid()
      reads this
    {
      count <= codes.Length
    }

    ghost function State(): Record
      requires Valid()
      reads this, codes
    {
      Record(enabled, secret.Some?, lastUsed, codes[..count])
    }

    constructor ()
      ensures Valid() && State() == Record(false, false, 0, []) && fresh(codes)
    {
      enabled, secret, lastUsed, count := false, None, 0, 0;
      codes := new string[0];
    }

    /** consumeTOTP: verify, then check and record the time step under the lock. */
    method ConsumeTOTP(mac: Mac, key: bytes, code: string, now: nat) returns (ok: bool, ghost c: Option<int>)
      requires Valid() && Mac20(mac)
      modifies this
      ensures Valid() && codes == old(codes)
      ensures Verifies(mac, key, code, now / PERIOD, c)
      ensures (State(), ok) == if c.Some? then Step(old(State()), UseTotp(now, c.value)) else (old(State()), false)
      ensures ok <==> c.Some? && c.value > old(lastUsed)
      ensures ok ==> now / 30 - 1 <= lastUsed <= now / 30 + 1 && CodeAt(mac, key, lastUsed) == Trim(code)
      ensures State() == old(State()).(lastUsed := if ok then c.value else old(lastUsed))
    {
      hide CodeAt;
      var r := TotpVerify(mac, key, code, now);
      c := r;
      if r.None? || r.value <= lastUsed {
        ok := false;
        return;
      }
      lastUsed := r.value;
      ok := true;
    }

    /** consumeRecovery: find the hash and shift the later ones down over it. */
    method ConsumeRecovery(sha: Sha, code: string) returns (ok: bool)
      requires Valid()
      modifies `count, codes
      ensures Valid() && codes == old(codes)
      ensures (State(), ok) == if Normalize(code) == "" then (old(State()), false)
                               else Step(old(State()), UseRecovery(HashRecovery(sha, code)))
      ensures ok <==> Normalize(code) != "" && sha(Normalize(code)) in old(codes[..count])
      ensures !ok ==> codes[..count] == old(codes[..count])
    {
      var norm := NormalizeRecovery(code);
      if norm == "" {
        return false;
      }
      var h := sha(norm);
      ghost var was := codes[..count];
      var i := 0;
      while i < count && codes[i] != h
        invariant i <= count
        invariant h !in was[..i]
      {
        i := i + 1;
      }
      if i == count {
        assert was[..i] == was;
        return false;
      }
      WithoutFirstAt(was, h, i);
      assert codes[..i] == was[..i] && codes[i + 1..count] == was[i + 1..];
      ShiftDown(i);
      assert codes[..count] == WithoutFirst(was, h);
      ok := true;
    }

    /** append(codes[:i], codes[i+1:]...) */
    method ShiftDown(i: nat)
      requires Valid() && i < count
      modifies `count, codes
      ensures Valid() && codes == old(codes)
      ensures codes[..count] == old(codes[..i] + codes[i + 1..count])
    {
      ghost var was := codes[..];
      var j := i + 1;
      while j < count
        invariant i < j <= count == old(count)
        invariant codes[..i] == was[..i]
        invariant codes[i..j - 1] == was[i + 1..j]
        invariant codes[j..] == was[j..]
      {
        assert codes[j] == codes[j..][0] == was[j];
        codes[j - 1] := codes[j];
        assert codes[i..j] == codes[i..j - 1] + [was[j]];
        assert codes[j + 1..] == was[j..][1..];
        j := j + 1;
      }
      count := count - 1;
      assert codes[..count] == codes[..i] + codes[i..count];
    }

    method StoreCodes(hashes: seq<string>)
      modifies `codes, `count
      ensures Valid() && fresh(codes) && codes[..count] == hashes
    {
      var a := new string[|hashes|](i requires 0 <= i < |hashes| => hashes[i]);
      codes, count := a, |hashes|;
    }

    method SetupSecret(wrapped: bytes)
      requires Valid()
      modifies this
      ensures Valid() && codes == old(codes) && State() == Step(old(State()), Setup).0
      ensures secret == Some(wrapped) && !enabled && lastUsed == 0 && count == old(count)
      ensures codes[..count] == old(codes[..count])
    {
      secret, enabled, lastUsed := Some(wrapped), false, 0;
    }

    /**
     The enable closure: the stored secret, unwrapped to `key` (None if that fails), must verify the code;
     then the factor is on with fresh recovery codes.
     */
    method EnableWith(mac: Mac, key: Option<bytes>, code: string, now: nat, sha: Sha, random: seq<bytes>)
      returns (ok: bool, display: seq<string>, ghost c: Option<int>)
      requires Valid() && Mac20(mac)
      modifies this
      ensures Valid() && (codes == old(codes) || fresh(codes))
      ensures key.Some? ==> Verifies(mac, key.value, code, now / PERIOD, c)
      ensures (State(), ok) == Step(old(State()), Enable(key.Some? && c.Some?, if ok then codes[..count] else []))
      ensures ok <==> old(secret).Some? && key.Some? && c.Some?
      ensures secret == old(secret) && lastUsed == old(lastUsed) && enabled == (ok || old(enabled))
      ensures !ok ==> State() == old(State())
      ensures ok ==> |display| == count == |random|
      ensures ok ==> forall i :: 0 <= i < count ==> codes[i] == HashRecovery(sha, display[i])
      ensures !ok ==> display == []
    {
      EnableIs(State());
      hide CodeAt;
      hide Step;
      hide Verifies;
      hide Display;
      hide CodeChars;
      hide HashRecovery;
      c := None;
      if key.Some? {
        c := Checked(mac, key.value, code, now);
      }
      display := [];
      if secret.None? {
        return false, [], c;
      }
      if key.None? {
        return false, [], c;
      }
      var r := TotpVerify(mac, key.value, code, now);
      FirstMatchUnique(mac, key.value, code, now / PERIOD, c, r);
      if r.None? {
        return false, [], c;
      }
      enabled := true;
      var hashes;
      display, hashes := NewRecoveryCodes(sha, random);
      StoreCodes(hashes);
      ok := true;
    }

    /** What the verifier answers, as a value. */
    static ghost method Checked(mac: Mac, key: bytes, code: string, now: nat) returns (c: Option<int>)
      requires Mac20(mac)
      ensures Verifies(mac, key, code, now / PERIOD, c)
    {
      hide CodeAt;
      hide Trim;
      var n, t := now / PERIOD, Trim(code);
      c := if |t| != DIGITS then None
      else if CodeAt(mac, key, n - 1) == t then Some(n - 1)
      else if CodeAt(mac, key, n) == t then Some(n)
      else if CodeAt(mac, key, n + 1) == t then Some(n + 1)
      else None;
    }

    method RegenerateWith(hashes: seq<string>) returns (ok: bool)
      requires Valid()
      modifies this
      ensures Valid() && (codes == old(codes) || fresh(codes))
      ensures (State(), ok) == Step(old(State()), Regenerate(hashes))
      ensures ok <==> old(enabled)
      ensures State() == old(State()).(codes := if ok then hashes else old(State()).codes)
    {
      if !enabled {
        return false;
      }
      StoreCodes(hashes);
      ok := true;
    }

    /** The disable closure: while the factor is on, the unwrapped secret must verify the code. */
    method DisableWith(mac: Mac, key: Option<bytes>, code: string, now: nat) returns (ok: bool, ghost c: Option<int>)
      requires Valid() && Mac20(mac)
      modifies this
      ensures Valid() && (codes == old(codes) || fresh(codes))
      ensures key.Some? ==> Verifies(mac, key.value, code, now / PERIOD, c)
      ensures (State(), ok) == Step(old(State()), Disable(key.Some? && c.Some?))
      ensures ok <==> !old(enabled) || (key.Some? && c.Some?)
      ensures ok ==> !enabled && secret == None && lastUsed == 0 && count == 0
      ensures !ok ==> State() == old(State()) && secret == old(secret)
    {
      hide CodeAt;
      c := None;
      if key.Some? {
        c := Checked(mac, key.value, code, now);
      }
      if enabled {
        if key.None? {
          return false, c;
        }
        var r := TotpVerify(mac, key.value, code, now);
        FirstMatchUnique(mac, key.value, code, now / PERIOD, c, r);
        if r.None? {
          return false, c;
        }
      }
      enabled, secret, lastUsed := false, None, 0;
      StoreCodes([]);
      ok := true;
    }
  }

  lemma {:induction false} WithoutFirstAt(codes: seq<string>, h: string, i: nat)
    requires i < |codes| && codes[i] == h && h !in codes[..i]
    ensures h in codes && WithoutFirst(codes, h) == codes[..i] + codes[i + 1..]
  {
    if i > 0 {
      assert codes[0] == codes[..i][0];
      assert codes[1..][..i - 1] == codes[..i][1..];
      WithoutFirstAt(codes[1..], h, i - 1);
    }
  }
}
