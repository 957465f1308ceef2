/**
 * The signing-key cache (auth/jwks.go): keys expire after a time to live, and an unknown key
 * identifier may trigger an earlier refetch. Each call is atomic, as its lock makes it; the clock
 * and the endpoint answer as an adversary would.
 */
module Jwks {
  import opened Sequences

  type Time = int

  const MINUTE: Time := 60_000_000_000
  const HOUR: Time := 3_600_000_000_000

  type Key = string

  /** An entry of the document; key is None for unsupported or malformed entries. */
  datatype Jwk = Jwk(kid: string, purpose: string, key: Option<Key>)

  datatype Response = Unreachable | BadStatus(code: int) | BadDocument | Document(entries: seq<Jwk>)

  type KeySet = map<string, Key>

  predicate IsSigningKey(e: Jwk) { (e.purpose == "" || e.purpose == "sig") && e.key.Some? }

  /** A repeated identifier takes the later key. */
  function KeysOf(entries: seq<Jwk>): KeySet {
    if entries == [] then map[]
    else
      var n := |entries| - 1;
      if IsSigningKey(entries[n]) then KeysOf(entries[..n])[entries[n].kid := entries[n].key.value]
      else KeysOf(entries[..n])
  }

  /** A fetch succeeds only with a readable document holding at least one signing key. */
  function UsableKeys(r: Response): Option<KeySet> {
    if r.Document? && |KeysOf(r.entries)| > 0 then Some(KeysOf(r.entries)) else None
  }

  /** The n-th clock reading and the answer to the n-th request. */
  datatype Env = Env(clock: nat -> Time, respond: nat -> Response) {
    ghost predicate Monotone() { forall i: nat, j: nat :: i <= j ==> clock(i) <= clock(j) }
  }

  /** asked is the reading that caused the request, None when there were no keys at all. */
  datatype Fetch = Fetch(request: nat, asked: Option<Time>, ok: bool, when: Time)

  datatype State = State(keys: Option<KeySet>, fetched: Time, readings: nat, requests: nat, log: seq<Fetch>)

  const EMPTY: State := State(None, 0, 0, 0, [])

  function EffectiveTtl(ttl: Time): (r: Time)
    ensures r > 0
  {
    if ttl <= 0 then HOUR else ttl
  }

  /** Failure keeps the keys and their age. */
  function Refetch(env: Env, s: State, asked: Option<Time>): State {
    match UsableKeys(env.respond(s.requests))
    case None => s.(requests := s.requests + 1, log := s.log + [Fetch(s.requests, asked, false, 0)])
    case Some(keys) =>
      var at := env.clock(s.readings);
      State(Some(keys), at, s.readings + 1, s.requests + 1, s.log + [Fetch(s.requests, asked, true, at)])
  }

  predicate Fetched(before: State, after: State) {
    |after.log| > |before.log| && after.log[|after.log| - 1].ok
  }

  function Lookup(keys: Option<KeySet>, kid: string): Option<Key> {
    if keys.None? then None
    else if kid != "" then if kid in keys.value then Some(keys.value[kid]) else None
    else if |keys.value| == 1 then Some(SoleKey(keys.value))
    else None
  }

  lemma Singleton(kids: set<string>, kid: string)
    requires |kids| == 1 && kid in kids
    ensures kids == {kid}
  {
    assert |kids - {kid}| == 0;
  }

  function SoleKey(keys: KeySet): Key
    requires |keys| == 1
  {
    assert keys != map[];
    assert forall a, b :: a in keys && b in keys ==> a == b by {
      forall a, b | a in keys && b in keys
        ensures a == b
      {
        Singleton(keys.Keys, a);
      }
    }
    var k :| k in keys;
    keys[k]
  }

  /** The first check: no keys, or keys older than the time to live. */
  function Refresh(env: Env, ttl: Time, s: State): State {
    if s.keys.None? then Refetch(env, s, None)
    else
      var now := env.clock(s.readings);
      var s1 := s.(readings := s.readings + 1);
      if now - s.fetched > ttl then Refetch(env, s1, Some(now)) else s1
  }

  /** Whether the first check asked the endpoint and was refused. */
  predicate Refused(before: State, after: State) {
    |after.log| > |before.log| && !after.log[|after.log| - 1].ok
  }

  /** The second chance for an identifier the keys do not have. */
  function Rotate(env: Env, s: State): State {
    var now := env.clock(s.readings);
    var s1 := s.(readings := s.readings + 1);
    if now - s.fetched > MINUTE then Refetch(env, s1, Some(now)) else s1
  }

  function Call(env: Env, ttl: Time, s: State, kid: string): (State, Option<Key>) {
    var s1 := Refresh(env, ttl, s);
    if Refused(s, s1) then (s1, None)
    else if Lookup(s1.keys, kid).Some? then (s1, Lookup(s1.keys, kid))
    else
      var s2 := Rotate(env, s1);
      if Fetched(s1, s2) then (s2, Lookup(s2.keys, kid)) else (s2, None)
  }

  function Calls(env: Env, ttl: Time, kids: seq<string>): State {
    if kids == [] then EMPTY else Call(env, ttl, Calls(env, ttl, kids[..|kids| - 1]), kids[|kids| - 1]).0
  }

  // ----- the cache as the program keeps it

  class JwksCache {
    const ttl: Time
    var keys: Option<KeySet>
    var fetched: Time
    var readings: nat
    var requests: nat
    ghost var log: seq<Fetch>

    ghost function Snapshot(): State
      reads this
    {
      State(keys, fetched, readings, requests, log)
    }

    constructor (ttl: Time)
      ensures this.ttl == EffectiveTtl(ttl) && Snapshot() == EMPTY
      ensures this.ttl == if ttl > 0 then ttl else 60 * 60 * 1_000_000_000
    {
      this.ttl := if ttl <= 0 then HOUR else ttl;
      keys, fetched, readings, requests, log := None, 0, 0, 0, [];
    }

    method Now(env: Env) returns (t: Time)
      modifies this`readings
      ensures t == env.clock(old(readings)) && readings == old(readings) + 1
    {
      t := env.clock(readings);
      readings := readings + 1;
    }

    method FetchLocked(env: Env, ghost asked: Option<Time>) returns (ok: bool)
      modifies this
      ensures Snapshot() == Refetch(env, old(Snapshot()), asked)
      ensures ok == UsableKeys(env.respond(old(requests))).Some?
    {
      var r := env.respond(requests);
      ghost var request := requests;
      requests := requests + 1;
      log := log + [Fetch(request, asked, false, 0)];
      if !r.Document? {
        return false;
      }
      var found: KeySet := map[];
      for i := 0 to |r.entries|
        invariant found == KeysOf(r.entries[..i])
      {
        assert r.entries[..i + 1][..i] == r.entries[..i];
        var e := r.entries[i];
        if (e.purpose == "" || e.purpose == "sig") && e.key.Some? {
          found := found[e.kid := e.key.value];
        }
      }
      assert r.entries[..|r.entries|] == r.entries;
      if |found| == 0 {
        return false;
      }
      keys := Some(found);
      fetched := Now(env);
      log := log[..|log| - 1] + [Fetch(request, asked, true, fetched)];
      return true;
    }

    method GetKey(env: Env, kid: string) returns (k: Option<Key>)
      modifies this
      ensures (Snapshot(), k) == Call(env, ttl, old(Snapshot()), kid)
    {
      hide UsableKeys, Lookup;
      ghost var start := Snapshot();
      var stale := keys.None?;
      ghost var asked: Option<Time> := None;
      if !stale {
        var now := Now(env);
        asked := Some(now);
        stale := now - fetched > ttl;
      }
      if stale {
        var ok := FetchLocked(env, asked);
        if !ok {
          return None;
        }
      }
      k := Lookup(keys, kid);
      if k.Some? {
        return;
      }
      var now := Now(env);
      if now - fetched > MINUTE {
        var ok := FetchLocked(env, Some(now));
        if ok {
          k := Lookup(keys, kid);
        }
      }
    }
  }

  // ----- what one call does

  /** An empty identifier is answered only from a set of exactly one key. */
  lemma EmptyKidNeedsOneKey(keys: Option<KeySet>)
    ensures Lookup(keys, "").Some? <==> keys.Some? && |keys.value| == 1
    ensures Lookup(keys, "").Some? ==> exists k :: k in keys.value && keys.value[k] == Lookup(keys, "").value
  {
  }

  function Gap(ttl: Time): Time { if ttl < MINUTE then ttl else MINUTE }

  /** The last successful fetch of a log, by position. */
  function LastOk(log: seq<Fetch>): Option<Fetch> {
    if log == [] then None
    else if log[|log| - 1].ok then Some(log[|log| - 1])
    else LastOk(log[..|log| - 1])
  }

  /** No request is made sooner than the gap after the last successful one. */
  ghost predicate WellSpaced(ttl: Time, log: seq<Fetch>) {
    forall j :: 0 <= j < |log| && LastOk(log[..j]).Some? ==>
      log[j].asked.Some? && log[j].asked.value - LastOk(log[..j]).value.when > Gap(ttl)
      && (log[j].ok ==> log[j].when >= log[j].asked.value)
  }

  /** The keys and timestamp are those of the last successful fetch, and nothing is from the future. */
  ghost predicate Good(env: Env, ttl: Time, s: State) {
    && WellSpaced(ttl, s.log)
    && (s.keys.Some? <==> LastOk(s.log).Some?)
    && (s.keys.Some? ==>
          var last := LastOk(s.log).value;
          s.fetched == last.when && s.keys == UsableKeys(env.respond(last.request)) && s.readings > 0
          && s.fetched <= env.clock(s.readings - 1))
  }

  lemma RefetchKeepsGood(env: Env, ttl: Time, s: State, asked: Option<Time>)
    requires env.Monotone() && Good(env, ttl, s)
    requires s.keys.Some? ==>
               s.readings > 0 && asked == Some(env.clock(s.readings - 1)) && asked.value - s.fetched > Gap(ttl)
    ensures Good(env, ttl, Refetch(env, s, asked))
  {
    hide UsableKeys, WellSpaced, LastOk;
    if UsableKeys(env.respond(s.requests)).None? {
      SpacingGrows(ttl, s.log, Fetch(s.requests, asked, false, 0));
    } else {
      var when := env.clock(s.readings);
      if s.readings > 0 {
        assert env.clock(s.readings - 1) <= when;
      }
      SpacingGrows(ttl, s.log, Fetch(s.requests, asked, true, when));
    }
  }

  lemma SpacingGrows(ttl: Time, log: seq<Fetch>, entry: Fetch)
    requires WellSpaced(ttl, log)
    requires LastOk(log).Some? ==>
               entry.asked.Some? && entry.asked.value - LastOk(log).value.when > Gap(ttl)
               && (entry.ok ==> entry.when >= entry.asked.value)
    ensures WellSpaced(ttl, log + [entry])
    ensures LastOk(log + [entry]) == if entry.ok then Some(entry) else LastOk(log)
  {
    var all := log + [entry];
    assert all[..|log|] == log;
    forall j | 0 <= j < |log|
      ensures all[..j] == log[..j]
    {
    }
  }

  lemma ReadKeepsGood(env: Env, ttl: Time, s: State)
    requires env.Monotone() && Good(env, ttl, s)
    ensures Good(env, ttl, s.(readings := s.readings + 1))
  {
    hide UsableKeys, WellSpaced;
    if s.readings > 0 {
      assert env.clock(s.readings - 1) <= env.clock(s.readings);
    }
  }

  lemma RefreshKeepsGood(env: Env, ttl: Time, s: State)
    requires env.Monotone() && Good(env, ttl, s)
    ensures Good(env, ttl, Refresh(env, ttl, s))
  {
    hide Refetch;
    if s.keys.None? {
      RefetchKeepsGood(env, ttl, s, None);
    } else {
      ReadKeepsGood(env, ttl, s);
      var s1 := s.(readings := s.readings + 1);
      if env.clock(s.readings) - s.fetched > ttl {
        RefetchKeepsGood(env, ttl, s1, Some(env.clock(s.readings)));
      }
    }
  }

  lemma RotateKeepsGood(env: Env, ttl: Time, s: State)
    requires env.Monotone() && Good(env, ttl, s)
    requires s.keys.Some?
    ensures Good(env, ttl, Rotate(env, s))
  {
    hide Refetch;
    ReadKeepsGood(env, ttl, s);
    var s1 := s.(readings := s.readings + 1);
    if env.clock(s.readings) - s.fetched > MINUTE {
      RefetchKeepsGood(env, ttl, s1, Some(env.clock(s.readings)));
    }
  }

  lemma CallKeepsGood(env: Env, ttl: Time, s: State, kid: string)
    requires env.Monotone() && Good(env, ttl, s)
    ensures Good(env, ttl, Call(env, ttl, s, kid).0)
  {
    RefreshKeepsGood(env, ttl, s);
    var s1 := Refresh(env, ttl, s);
    if !Refused(s, s1) && Lookup(s1.keys, kid).None? {
      assert s1.keys.Some?;
      hide Rotate, Good, Refresh;
      RotateKeepsGood(env, ttl, s1);
    }
  }

  // ----- what every sequence of calls keeps

  lemma {:induction false} CallsKeepGood(env: Env, ttl: Time, kids: seq<string>)
    requires env.Monotone()
    ensures Good(env, ttl, Calls(env, ttl, kids))
  {
    if kids != [] {
      hide Call, Good;
      CallsKeepGood(env, ttl, kids[..|kids| - 1]);
      CallKeepsGood(env, ttl, Calls(env, ttl, kids[..|kids| - 1]), kids[|kids| - 1]);
    }
  }

  lemma {:induction false} LastOkIsLatest(ttl: Time, log: seq<Fetch>, i: nat)
    requires i < |log| && log[i].ok && WellSpaced(ttl, log) && ttl > 0
    ensures LastOk(log).Some? && LastOk(log).value.when >= log[i].when
  {
    var n := |log| - 1;
    if i < n {
      assert forall j :: 0 <= j < n ==> log[..n][..j] == log[..j];
      assert WellSpaced(ttl, log[..n]);
      LastOkIsLatest(ttl, log[..n], i);
    }
  }

  /** Over any calls, two successful fetches are further apart than the smaller of ttl and a minute. */
  lemma SuccessesAreSpaced(env: Env, ttl: Time, kids: seq<string>, i: nat, j: nat)
    requires env.Monotone() && ttl > 0
    requires var log := Calls(env, ttl, kids).log; i < j < |log| && log[i].ok && log[j].ok
    ensures var log := Calls(env, ttl, kids).log; log[j].when - log[i].when > Gap(ttl)
  {
    hide Call, Calls;
    CallsKeepGood(env, ttl, kids);
    var log := Calls(env, ttl, kids).log;
    assert forall k :: 0 <= k < j ==> log[..j][..k] == log[..k];
    assert WellSpaced(ttl, log[..j]);
    LastOkIsLatest(ttl, log[..j], i);
  }

  /** After any calls, a key handed out is from the latest successful fetch and not past its time. */
  lemma KeysAreCurrent(env: Env, ttl: Time, kids: seq<string>, kid: string)
    requires env.Monotone() && ttl > 0
    ensures var (s, k) := Call(env, ttl, Calls(env, ttl, kids), kid);
            k.Some? ==>
              && s.keys.Some? && LastOk(s.log).Some? && s.fetched == LastOk(s.log).value.when
              && s.keys == UsableKeys(env.respond(LastOk(s.log).value.request))
              && k == Lookup(s.keys, kid) && (kid == "" ==> |s.keys.value| == 1)
              && s.readings > 0 && env.clock(s.readings - 1) - s.fetched <= ttl
  {
    hide Calls, UsableKeys, Lookup, WellSpaced, LastOk;
    var s0 := Calls(env, ttl, kids);
    EmptyKidNeedsOneKey(Call(env, ttl, s0, kid).0.keys);
    CallsKeepGood(env, ttl, kids);
    CallKeepsGood(env, ttl, s0, kid);
  }

  // ----- what an identifier is answered with

  /** The i-th entry is the last signing key of that identifier. */
  predicate LastSigning(entries: seq<Jwk>, kid: string, i: nat) {
    && i < |entries| && Signs(entries[i], kid)
    && forall j :: i < j < |entries| ==> !Signs(entries[j], kid)
  }

  /** A usable key of that identifier whose purpose, if any, is to sign. */
  predicate Signs(e: Jwk, kid: string) { e.kid == kid && (e.purpose == "" || e.purpose == "sig") && e.key.Some? }

  /** A document with at least one usable signing key. */
  ghost predicate Publishes(r: Response) { r.Document? && exists e :: e in r.entries && Signs(e, e.kid) }

  lemma {:induction false} LastSigningFound(entries: seq<Jwk>, kid: string, k: nat) returns (i: nat)
    requires k < |entries| && Signs(entries[k], kid)
    ensures LastSigning(entries, kid, i)
  {
    var n := |entries| - 1;
    if Signs(entries[n], kid) {
      i := n;
    } else {
      i := LastSigningFound(entries[..n], kid, k);
      assert forall j :: 0 <= j < n ==> entries[..n][j] == entries[j];
    }
  }

  lemma SigningKeys(entries: seq<Jwk>, kid: string)
    ensures kid in KeysOf(entries) <==> exists i: nat :: LastSigning(entries, kid, i)
    ensures forall i: nat :: LastSigning(entries, kid, i) ==>
              kid in KeysOf(entries) && Some(KeysOf(entries)[kid]) == entries[i].key
    ensures kid in KeysOf(entries) <==> exists e :: e in entries && Signs(e, kid)
  {
    hide KeysOf;
    KeysOfMeaning(entries, kid);
    assert forall i :: 0 <= i < |entries| ==>
                         (Signs(entries[i], kid) <==> IsSigningKey(entries[i]) && entries[i].kid == kid);
    if k: nat :| k < |entries| && Signs(entries[k], kid) {
      var i := LastSigningFound(entries, kid, k);
    }
  }

  lemma PublishedKeys(r: Response)
    ensures UsableKeys(r).Some? <==> Publishes(r)
    ensures UsableKeys(r).Some? ==> UsableKeys(r).value == KeysOf(r.entries)
  {
    if r.Document? {
      if e :| e in r.entries && Signs(e, e.kid) {
        SigningKeys(r.entries, e.kid);
        assert e.kid in KeysOf(r.entries);
      } else {
        forall kid
          ensures kid !in KeysOf(r.entries)
        {
          SigningKeys(r.entries, kid);
        }
        assert KeysOf(r.entries) == map[];
      }
    }
  }

  /** The document of the latest successful fetch. */
  function LatestDocument(env: Env, log: seq<Fetch>): Option<seq<Jwk>> {
    if LastOk(log).None? then None
    else match env.respond(LastOk(log).value.request) case Document(entries) => Some(entries) case _ => None
  }

  lemma GoodKeys(env: Env, ttl: Time, s: State)
    requires Good(env, ttl, s)
    ensures s.keys.Some? <==> LatestDocument(env, s.log).Some?
    ensures s.keys.Some? ==> s.keys.value == KeysOf(LatestDocument(env, s.log).value)
  {
  }

  /**
   * After any calls, an identifier is answered with the key of the last signing entry that has it in
   * the document of the latest successful fetch; with none where there is no such entry; and with none
   * otherwise only because this call's request was refused.
   */
  lemma AnswersIff(env: Env, ttl: Time, kids: seq<string>, kid: string)
    requires env.Monotone() && kid != ""
    ensures var before := Calls(env, ttl, kids);
            var (s, k) := Call(env, ttl, before, kid);
            var document := LatestDocument(env, s.log);
            && (k.Some? ==> document.Some? && exists i: nat :: LastSigning(document.value, kid, i)
                                                               && k == document.value[i].key)
            && (k.None? ==> (document.Some? ==> forall e :: e in document.value ==> !Signs(e, kid))
                            || (|s.log| > |before.log| && !s.log[|s.log| - 1].ok))
  {
    hide Calls, Good, LatestDocument, WellSpaced, LastOk, KeysOf, LastSigning, Signs;
    var before := Calls(env, ttl, kids);
    CallsKeepGood(env, ttl, kids);
    CallKeepsGood(env, ttl, before, kid);
    var s := Call(env, ttl, before, kid).0;
    GoodKeys(env, ttl, s);
    CallAnswers(env, ttl, before, kid);
    if s.keys.Some? {
      SigningKeys(LatestDocument(env, s.log).value, kid);
    }
  }

  lemma CallAnswers(env: Env, ttl: Time, before: State, kid: string)
    requires kid != ""
    ensures var (s, k) := Call(env, ttl, before, kid);
            && (k.Some? ==> s.keys.Some? && kid in s.keys.value && k.value == s.keys.value[kid])
            && (k.None? ==> (s.keys.Some? ==> kid !in s.keys.value)
                            || (|s.log| > |before.log| && !s.log[|s.log| - 1].ok))
  {
    hide UsableKeys;
  }

  /** The empty identifier is answered exactly from a set of one key. */
  lemma EmptyAnswers(env: Env, ttl: Time, before: State)
    ensures var (s, k) := Call(env, ttl, before, "");
            && (k.Some? ==> s.keys.Some? && |s.keys.value| == 1
                            && forall kid :: kid in s.keys.value ==> k.value == s.keys.value[kid])
            && (k.None? ==> (s.keys.Some? ==> |s.keys.value| != 1)
                            || (|s.log| > |before.log| && !s.log[|s.log| - 1].ok))
  {
    hide UsableKeys;
    var s := Call(env, ttl, before, "").0;
    if s.keys.Some? && |s.keys.value| == 1 {
      forall kid | kid in s.keys.value
        ensures SoleKey(s.keys.value) == s.keys.value[kid]
      {
        SoleIs(s.keys.value, kid);
      }
    }
  }

  lemma SoleIs(keys: KeySet, kid: string)
    requires |keys| == 1 && kid in keys
    ensures SoleKey(keys) == keys[kid]
  {
    assert |keys.Keys| == 1;
    Singleton(keys.Keys, kid);
  }

  /** An identifier the latest document does not have always costs a request once the keys are over a minute old. */
  lemma UnknownKidAsks(env: Env, ttl: Time, kids: seq<string>, kid: string)
    requires env.Monotone() && kid != ""
    requires var s := Calls(env, ttl, kids);
             && LatestDocument(env, s.log).Some?
             && (forall e :: e in LatestDocument(env, s.log).value ==> !Signs(e, kid))
             && env.clock(s.readings + 1) - s.fetched > 60 * 1_000_000_000
    ensures Call(env, ttl, Calls(env, ttl, kids), kid).0.requests > Calls(env, ttl, kids).requests
  {
    var s := Calls(env, ttl, kids);
    CallsKeepGood(env, ttl, kids);
    GoodKeys(env, ttl, s);
    SigningKeys(LatestDocument(env, s.log).value, kid);
    hide Calls, Call, Good, KeysOf, Signs, LastSigning, LatestDocument;
    AsksIff(env, ttl, s, kid);
  }

  // ----- when the endpoint is asked

  /** Without keys always; with keys when they have expired, or lack the key and are over a minute old. */
  predicate Asks(env: Env, ttl: Time, s: State, kid: string) {
    || s.keys.None?
    || env.clock(s.readings) - s.fetched > ttl
    || (Lookup(s.keys, kid).None? && env.clock(s.readings + 1) - s.fetched > MINUTE)
  }

  /** The exact guard of a request. */
  lemma AsksIff(env: Env, ttl: Time, s: State, kid: string)
    ensures Call(env, ttl, s, kid).0.requests > s.requests <==> Asks(env, ttl, s, kid)
  {
    hide UsableKeys, Lookup;
  }

  /** Every request after a successful one, however many lie between, comes later than the gap. */
  lemma RequestsAreSpacedAfterSuccess(env: Env, ttl: Time, kids: seq<string>, i: nat, j: nat)
    requires env.Monotone() && ttl > 0
    requires var log := Calls(env, ttl, kids).log; i < j < |log| && log[i].ok
    ensures var log := Calls(env, ttl, kids).log;
            log[j].asked.Some? && log[j].asked.value - log[i].when > Gap(ttl)
  {
    hide Call, Calls;
    CallsKeepGood(env, ttl, kids);
    var log := Calls(env, ttl, kids).log;
    assert forall k :: 0 <= k < j ==> log[..j][..k] == log[..k];
    assert WellSpaced(ttl, log[..j]);
    LastOkIsLatest(ttl, log[..j], i);
  }

  /** The time of a request, where the clock was read for it. */
  function AskedAt(f: Fetch): Option<Time> { if f.ok then Some(f.when) else f.asked }

  /** Every two requests are further apart than the gap. */
  ghost predicate Limited(ttl: Time, log: seq<Fetch>) {
    forall i, j :: 0 <= i < j < |log| ==> Later(ttl, log[i], log[j])
  }

  /** A request made later than the gap after another one. */
  predicate Later(ttl: Time, f: Fetch, g: Fetch) {
    g.asked.Some? && AskedAt(f).Some? && g.asked.value - AskedAt(f).value > Gap(ttl)
  }

  predicate AllOk(log: seq<Fetch>) { forall i :: 0 <= i < |log| ==> log[i].ok }

  /** An endpoint that never refuses. */
  ghost predicate Reliable(respond: nat -> Response) { forall i: nat :: UsableKeys(respond(i)).Some? }

  /**
   * Every run, at every pace of the clock, keeps requests further apart than the gap exactly when the
   * endpoint refuses none of them.
   */
  lemma LimitHoldsIff(ttl: Time, respond: nat -> Response)
    requires ttl > 0
    ensures Reliable(respond) <==>
            forall clock: nat -> Time, kids: seq<string> :: Env(clock, respond).Monotone() ==>
              Limited(ttl, Calls(Env(clock, respond), ttl, kids).log)
  {
    if Reliable(respond) {
      forall clock: nat -> Time, kids: seq<string> | Env(clock, respond).Monotone()
        ensures Limited(ttl, Calls(Env(clock, respond), ttl, kids).log)
      {
        ReliableIsLimited(Env(clock, respond), ttl, kids);
      }
    } else {
      var i: nat :| UsableKeys(respond(i)).None?;
      var clock, kids := RefusalBreaksLimit(ttl, respond, i);
      assert !Limited(ttl, Calls(Env(clock, respond), ttl, kids).log);
    }
  }

  lemma ReliableIsLimited(env: Env, ttl: Time, kids: seq<string>)
    requires ttl > 0 && env.Monotone() && Reliable(env.respond)
    ensures Limited(ttl, Calls(env, ttl, kids).log)
  {
    hide Calls, Call, UsableKeys;
    ReliableIsOk(env, ttl, kids);
    var log := Calls(env, ttl, kids).log;
    forall i, j | 0 <= i < j < |log|
      ensures Later(ttl, log[i], log[j])
    {
      RequestsAreSpacedAfterSuccess(env, ttl, kids, i, j);
    }
  }

  lemma {:induction false} ReliableIsOk(env: Env, ttl: Time, kids: seq<string>)
    requires Reliable(env.respond)
    ensures AllOk(Calls(env, ttl, kids).log)
  {
    hide UsableKeys, Lookup;
    if kids != [] {
      ReliableIsOk(env, ttl, kids[..|kids| - 1]);
    }
  }

  /** A call depends on the readings it makes and on no later ones. */
  lemma CallAgrees(e: Env, f: Env, ttl: Time, s: State, kid: string)
    requires e.respond == f.respond
    requires forall i: nat :: i < Call(e, ttl, s, kid).0.readings ==> e.clock(i) == f.clock(i)
    ensures Call(e, ttl, s, kid) == Call(f, ttl, s, kid)
  {
    hide UsableKeys, Lookup;
  }

  lemma CallReads(e: Env, ttl: Time, s: State, kid: string)
    ensures Call(e, ttl, s, kid).0.readings >= s.readings
  {
    hide UsableKeys, Lookup;
  }

  lemma {:induction false} CallsAgree(e: Env, f: Env, ttl: Time, kids: seq<string>)
    requires e.respond == f.respond
    requires forall i: nat :: i < Calls(e, ttl, kids).readings ==> e.clock(i) == f.clock(i)
    ensures Calls(e, ttl, kids) == Calls(f, ttl, kids)
  {
    if kids != [] {
      hide Call;
      var n := |kids| - 1;
      CallReads(e, ttl, Calls(e, ttl, kids[..n]), kids[n]);
      CallsAgree(e, f, ttl, kids[..n]);
      CallAgrees(e, f, ttl, Calls(e, ttl, kids[..n]), kids[n]);
    }
  }

  lemma CallsSnoc(env: Env, ttl: Time, kids: seq<string>, kid: string)
    ensures Calls(env, ttl, kids + [kid]) == Call(env, ttl, Calls(env, ttl, kids), kid).0
  {
    assert (kids + [kid])[..|kids|] == kids;
  }

  /** A run in which a refused request is repeated at once. */
  lemma RefusalBreaksLimit(ttl: Time, respond: nat -> Response, i: nat) returns (clock: nat -> Time, kids: seq<string>)
    requires ttl > 0 && UsableKeys(respond(i)).None?
    ensures Env(clock, respond).Monotone() && !Limited(ttl, Calls(Env(clock, respond), ttl, kids).log)
  {
    hide UsableKeys, Lookup;
    clock := (n: nat) => 0;
    var env := Env(clock, respond);
    CallsSnoc(env, ttl, [], "");
    CallsSnoc(env, ttl, [""], "");
    if UsableKeys(respond(0)).None? {
      kids := [""] + [""];
      assert [] + [""] == [""];
      var log := Calls(env, ttl, kids).log;
      assert !Later(ttl, log[0], log[1]);
    } else {
      assert [] + [""] == [""];
      clock, kids := RunToRefusal(env, ttl, [""], i);
    }
  }

  /** The clock as it was, standing still from some reading on. */
  function Stopped(clock: nat -> Time, readings: nat, now: Time): nat -> Time {
    (n: nat) => if n < readings then clock(n) else now
  }

  /** Where a run with keys goes on until its keys have expired, and the endpoint is asked at a stopped clock. */
  lemma ExpiredCall(env: Env, ttl: Time, s: State, kid: string, now: Time)
    requires ttl > 0 && s.keys.Some? && now - s.fetched > ttl
    requires forall i: nat :: s.readings <= i ==> env.clock(i) == now
    ensures var t := Call(env, ttl, s, kid).0;
            if UsableKeys(env.respond(s.requests)).None?
            then t == s.(readings := s.readings + 1, requests := s.requests + 1,
                         log := s.log + [Fetch(s.requests, Some(now), false, 0)])
            else t.keys.Some? && t.requests == s.requests + 1
  {
    hide UsableKeys, Lookup;
  }

  lemma {:induction false} RunToRefusal(env: Env, ttl: Time, kids: seq<string>, i: nat)
    returns (clock: nat -> Time, kids': seq<string>)
    requires ttl > 0 && env.Monotone() && UsableKeys(env.respond(i)).None?
    requires var s := Calls(env, ttl, kids); s.keys.Some? && s.requests <= i
    ensures Env(clock, env.respond).Monotone()
    ensures !Limited(ttl, Calls(Env(clock, env.respond), ttl, kids').log)
    decreases i - Calls(env, ttl, kids).requests
  {
    hide UsableKeys, Call, Calls;
    var s := Calls(env, ttl, kids);
    CallsKeepGood(env, ttl, kids);
    var now := env.clock(s.readings - 1) + ttl + 1;
    clock := Stopped(env.clock, s.readings, now);
    var stopped := Env(clock, env.respond);
    assert stopped.Monotone() by { StoppedIsMonotone(env, s.readings, now); }
    CallsAgree(env, stopped, ttl, kids);
    kids' := kids + [""];
    CallsSnoc(stopped, ttl, kids, "");
    ExpiredCall(stopped, ttl, s, "", now);
    if UsableKeys(env.respond(s.requests)).None? {
      CallsSnoc(stopped, ttl, kids', "");
      kids' := kids' + [""];
      RepeatedAtOnce(stopped, ttl, s, now);
    } else {
      clock, kids' := RunToRefusal(stopped, ttl, kids', i);
    }
  }

  lemma StoppedIsMonotone(env: Env, readings: nat, now: Time)
    requires env.Monotone() && readings > 0 && env.clock(readings - 1) <= now
    ensures Env(Stopped(env.clock, readings, now), env.respond).Monotone()
  {
  }

  lemma RepeatedAtOnce(env: Env, ttl: Time, s: State, now: Time)
    requires ttl > 0 && s.keys.Some? && now - s.fetched > ttl
    requires forall i: nat :: s.readings <= i ==> env.clock(i) == now
    requires UsableKeys(env.respond(s.requests)).None?
    ensures !Limited(ttl, Call(env, ttl, Call(env, ttl, s, "").0, "").0.log)
  {
    hide UsableKeys, Lookup;
    var t := Call(env, ttl, s, "").0;
    var log := Call(env, ttl, t, "").0.log;
    var j := |s.log| + 1;
    assert log[j - 1] == Fetch(s.requests, Some(now), false, 0);
    assert log[j].asked == Some(now) && !Later(ttl, log[j - 1], log[j]);
  }

  // ----- outages

  /** From here on the clock stands still and the endpoint refuses every request. */
  ghost predicate Outage(env: Env, s: State, now: Time) {
    && (forall i: nat :: s.readings <= i ==> env.clock(i) == now)
    && (forall i: nat :: s.requests <= i ==> UsableKeys(env.respond(i)).None?)
  }

  function Repeat(env: Env, ttl: Time, s: State, kid: string, n: nat): State
    decreases n
  {
    if n == 0 then s else Repeat(env, ttl, Call(env, ttl, s, kid).0, kid, n - 1)
  }

  /**
   * While the endpoint refuses, n calls at one instant cost n requests exactly when the first one
   * asks: no keys yet, expired keys, or an unknown identifier after a minute. Otherwise they cost
   * none. The keys stay as they are.
   */
  lemma {:induction false} RefusedFetchesAreNotLimited(env: Env, ttl: Time, s: State, kid: string, now: Time, n: nat)
    requires Outage(env, s, now)
    ensures var t := Repeat(env, ttl, s, kid, n);
            && t.requests == s.requests + (if Asks(env, ttl, s, kid) then n else 0)
            && t.keys == s.keys && t.fetched == s.fetched
    decreases n
  {
    hide UsableKeys, Lookup;
    if n > 0 {
      var t := Call(env, ttl, s, kid).0;
      assert UsableKeys(env.respond(s.requests)).None?;
      assert t.requests == s.requests + (if Asks(env, ttl, s, kid) then 1 else 0);
      RefusedFetchesAreNotLimited(env, ttl, t, kid, now, n - 1);
    }
  }

  /** The keys of a document: every signing entry's identifier, with the last such entry's key. */
  lemma {:induction false} KeysOfMeaning(entries: seq<Jwk>, kid: string)
    ensures kid in KeysOf(entries) <==>
            exists i :: 0 <= i < |entries| && IsSigningKey(entries[i]) && entries[i].kid == kid
    ensures forall i :: 0 <= i < |entries| && IsSigningKey(entries[i]) && entries[i].kid == kid
                        && (forall j :: i < j < |entries| ==> !(IsSigningKey(entries[j]) && entries[j].kid == kid)) ==>
              kid in KeysOf(entries) && KeysOf(entries)[kid] == entries[i].key.value
  {
    if entries != [] {
      var n := |entries| - 1;
      KeysOfMeaning(entries[..n], kid);
      assert forall i :: 0 <= i < n ==> entries[..n][i] == entries[i];
    }
  }
}
