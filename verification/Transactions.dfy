/**
 * The transaction runner (pgexec/tx.go): bounded retry of a whole transaction, with the request
 * identity applied inside it. The database answers as an adversary would; a request's answer may
 * depend on how many requests came before it.
 */
module Transactions {
  import opened Sequences
  import opened Strings

  // ----- errors

  datatype Err = Plain(text: string) | Pg(code: string) | Wrap(context: string, inner: Err) | Joined(errs: seq<Err>)

  /** The database codes inside an error, depth first. */
  function Codes(e: Err): seq<string>
    decreases e, 0
  {
    match e
    case Plain(_) => []
    case Pg(code) => [code]
    case Wrap(_, inner) => Codes(inner)
    case Joined(errs) => CodesIn(errs)
  }

  function CodesIn(errs: seq<Err>): seq<string>
    decreases errs, 1
  {
    if errs == [] then [] else Codes(errs[0]) + CodesIn(errs[1..])
  }

  /** errors.As: the first database error found, depth first. */
  function FirstPg(e: Err): Option<string>
    decreases e, 0
  {
    match e
    case Plain(_) => None
    case Pg(code) => Some(code)
    case Wrap(_, inner) => FirstPg(inner)
    case Joined(errs) => FirstPgIn(errs)
  }

  function FirstPgIn(errs: seq<Err>): Option<string>
    decreases errs, 1
  {
    if errs == [] then None
    else if FirstPg(errs[0]).Some? then FirstPg(errs[0])
    else FirstPgIn(errs[1..])
  }

  predicate Retryable(code: string) { code == "40001" || code == "40P01" }

  predicate IsSerializationFailure(e: Err) { FirstPg(e).Some? && Retryable(FirstPg(e).value) }

  function Head(codes: seq<string>): Option<string> { if codes == [] then None else Some(codes[0]) }

  lemma {:induction false} FirstPgIsHead(e: Err)
    ensures FirstPg(e) == Head(Codes(e))
    decreases e, 0
  {
    match e
    case Plain(_) =>
    case Pg(_) =>
    case Wrap(_, inner) => FirstPgIsHead(inner);
    case Joined(errs) => FirstPgInIsHead(errs);
  }

  lemma {:induction false} FirstPgInIsHead(errs: seq<Err>)
    ensures FirstPgIn(errs) == Head(CodesIn(errs))
    decreases errs, 1
  {
    if errs != [] {
      FirstPgIsHead(errs[0]);
      FirstPgInIsHead(errs[1..]);
    }
  }

  /** Some database error inside carries a retryable code. */
  ghost predicate CarriesRetryable(e: Err) { exists code :: code in Codes(e) && Retryable(code) }

  /**
   * Only the first database error is tested, so a retryable code further in is missed exactly when
   * a different database error comes before it.
   */
  lemma SerializationFailureIff(e: Err)
    ensures IsSerializationFailure(e) ==> CarriesRetryable(e)
    ensures (CarriesRetryable(e) ==> IsSerializationFailure(e)) <==>
            (Codes(e) == [] || Retryable(Codes(e)[0]) || forall code :: code in Codes(e) ==> !Retryable(code))
  {
    FirstPgIsHead(e);
    if Codes(e) != [] {
      assert Codes(e)[0] in Codes(e);
    }
  }

  predicate Chain(e: Err) {
    match e
    case Joined(_) => false
    case Wrap(_, inner) => Chain(inner)
    case _ => true
  }

  /** On plain wrap chains the test and its description coincide. */
  lemma {:induction false} ChainsHideNothing(e: Err)
    requires Chain(e)
    ensures |Codes(e)| <= 1
    ensures IsSerializationFailure(e) <==> CarriesRetryable(e)
  {
    if e.Wrap? {
      ChainsHideNothing(e.inner);
      assert Codes(e) == Codes(e.inner);
    } else if e.Pg? {
      assert Codes(e) == [e.code] && e.code in Codes(e);
    }
  }

  lemma JoinedErrorsHideRetries()
    ensures var e := Joined([Pg("23505"), Pg("40001")]);
            CarriesRetryable(e) && !IsSerializationFailure(e)
  {
    var e := Joined([Pg("23505"), Pg("40001")]);
    assert [Pg("23505"), Pg("40001")][1..] == [Pg("40001")] && [Pg("40001")][1..] == [];
    assert CodesIn([Pg("40001")]) == ["40001"];
    assert Codes(e) == ["23505", "40001"];
    assert "40001" in Codes(e);
  }

  // ----- sessions and transactions

  /** What row-level security policies can see: the role and the settings, by lower-case name. */
  datatype Settings = Settings(role: string, config: map<string, string>)

  datatype World<D> = World(data: D, session: Settings)

  /** session holds what outlives a commit; localRole and localConfig do not. */
  datatype Tx<D> = Tx(data: D, session: Settings, localRole: Option<string>, localConfig: map<string, string>) {
    function Effective(): Settings {
      Settings(if localRole.Some? then localRole.value else session.role, session.config + localConfig)
    }
  }

  function Open<D>(w: World<D>): Tx<D> { Tx(w.data, w.session, None, map[]) }

  datatype Statement = SetLocalRole(role: string) | SetLocalConfig(name: string, value: string)

  function Execute<D>(tx: Tx<D>, s: Statement): Tx<D> {
    match s
    case SetLocalRole(role) => tx.(localRole := Some(role))
    case SetLocalConfig(name, value) => tx.(localConfig := tx.localConfig[ToLower(name) := value])
  }

  /** A string claim is used as it is; anything else by its JSON text, if it has one. */
  datatype Claim = Text(text: string) | Encoded(json: Option<string>)

  datatype Identity = Identity(role: string, claims: map<string, Claim>, claimsPrefix: string)

  datatype Options = Options(maxRetries: int, rls: bool)

  /**
   * The surroundings: answers to the n-th request, whether the context is cancelled after it, the
   * order in which the n-th attempt meets the claims, and the callback.
   */
  datatype Env<!D> = Env(beginFails: nat -> Option<Err>, execFails: nat -> Option<Err>, commitFails: nat -> Option<Err>,
                         cancelled: nat -> bool, order: nat -> seq<string>,
                         fn: (nat, Tx<D>) -> (Tx<D>, Option<Err>))

  // ----- the identity

  predicate SimpleChar(c: char) { c == '_' || 'a' <= c <= 'z' || 'A' <= c <= 'Z' || '0' <= c <= '9' }

  predicate SimpleIdent(s: string) { s != "" && forall i :: 0 <= i < |s| ==> SimpleChar(s[i]) }

  function ClaimValue(c: Claim): Option<string> {
    match c case Text(text) => Some(text) case Encoded(json) => json
  }

  /** Claims with an unsafe key or no JSON form are skipped. */
  predicate Usable(id: Identity, key: string) {
    key in id.claims && SimpleIdent(key) && ClaimValue(id.claims[key]).Some?
  }

  const DEFAULT_CLAIMS_PREFIX := "pdbq.claims"

  function ClaimName(id: Identity, key: string): string {
    (if id.claimsPrefix == "" then DEFAULT_CLAIMS_PREFIX else id.claimsPrefix) + "." + key
  }

  function ClaimStatement(id: Identity, key: string): Statement
    requires Usable(id, key)
  {
    SetLocalConfig(ClaimName(id, key), ClaimValue(id.claims[key]).value)
  }

  datatype Step<D> = Step(tx: Tx<D>, tick: nat, err: Option<Err>)

  function ApplyClaims<D>(env: Env<D>, id: Identity, keys: seq<string>, tick: nat, tx: Tx<D>): Step<D> {
    if keys == [] then Step(tx, tick, None)
    else if !Usable(id, keys[0]) then ApplyClaims(env, id, keys[1..], tick, tx)
    else if env.execFails(tick).Some? then
      Step(tx, tick + 1, Some(Wrap("set claim " + keys[0], env.execFails(tick).value)))
    else ApplyClaims(env, id, keys[1..], tick + 1, Execute(tx, ClaimStatement(id, keys[0])))
  }

  /** The role is switched first, then the claims are set one by one; the first failure ends it. */
  function Identify<D>(env: Env<D>, id: Identity, keys: seq<string>, tick: nat, tx: Tx<D>): Step<D> {
    if id.role == "" then ApplyClaims(env, id, keys, tick, tx)
    else if !SimpleIdent(id.role) then Step(tx, tick, Some(Plain("invalid role")))
    else if env.execFails(tick).Some? then Step(tx, tick + 1, Some(Wrap("set role", env.execFails(tick).value)))
    else ApplyClaims(env, id, keys, tick + 1, Execute(tx, SetLocalRole(id.role)))
  }

  // ----- attempts and runs

  /** seen is what the callback saw when it ran, if it ran. */
  datatype Attempt<D> = Attempt(world: World<D>, tick: nat, err: Option<Err>, seen: Option<Settings>, committed: bool)

  function Abandon<D>(w: World<D>, tick: nat, err: Err, seen: Option<Settings>): Attempt<D> {
    Attempt(w, tick, Some(err), seen, false)
  }

  /** Everything but a commit leaves the world as it was. */
  function AttemptOnce<D>(env: Env<D>, opts: Options, id: Identity, n: nat, tick: nat, w: World<D>): Attempt<D> {
    if env.beginFails(tick).Some? then Abandon(w, tick + 1, env.beginFails(tick).value, None)
    else
      var s := if opts.rls then Identify(env, id, env.order(n), tick + 1, Open(w)) else Step(Open(w), tick + 1, None);
      if s.err.Some? then Abandon(w, s.tick, s.err.value, None)
      else
        var (tx, err) := env.fn(s.tick, s.tx);
        if err.Some? then Abandon(w, s.tick + 1, err.value, Some(s.tx.Effective()))
        else if env.commitFails(s.tick + 1).Some? then
          Abandon(w, s.tick + 2, env.commitFails(s.tick + 1).value, Some(s.tx.Effective()))
        else Attempt(World(tx.data, tx.session), s.tick + 2, None, Some(s.tx.Effective()), true)
  }

  datatype Run<D> = Run(world: World<D>, attempts: seq<Attempt<D>>, err: Option<Err>)

  function Budget(opts: Options, n: nat): nat { if opts.maxRetries > n then opts.maxRetries - n else 0 }

  predicate Stops<D>(env: Env<D>, opts: Options, n: nat, a: Attempt<D>) {
    a.err.None? || n >= opts.maxRetries || !IsSerializationFailure(a.err.value) || env.cancelled(a.tick)
  }

  function RunFrom<D>(env: Env<D>, opts: Options, id: Identity, n: nat, tick: nat, w: World<D>): Run<D>
    decreases Budget(opts, n)
  {
    var a := AttemptOnce(env, opts, id, n, tick, w);
    if Stops(env, opts, n, a) then Run(a.world, [a], a.err)
    else
      var r := RunFrom(env, opts, id, n + 1, a.tick, a.world);
      r.(attempts := [a] + r.attempts)
  }

  // ----- the runner as the program runs it

  class Connection<D> {
    var world: World<D>
    var tick: nat
    var open: Option<Tx<D>>

    constructor (w: World<D>)
      ensures world == w && tick == 0 && open == None
    {
      world, tick, open := w, 0, None;
    }

    method BeginTx(env: Env<D>) returns (err: Option<Err>)
      requires open.None?
      modifies this
      ensures world == old(world) && tick == old(tick) + 1 && err == env.beginFails(old(tick))
      ensures open == if err.Some? then None else Some(Open(world))
    {
      err := env.beginFails(tick);
      if err.None? {
        open := Some(Open(world));
      }
      tick := tick + 1;
    }

    method Exec(env: Env<D>, s: Statement) returns (err: Option<Err>)
      requires open.Some?
      modifies this
      ensures world == old(world) && tick == old(tick) + 1 && err == env.execFails(old(tick))
      ensures open == if err.Some? then old(open) else Some(Execute(old(open).value, s))
    {
      err := env.execFails(tick);
      if err.None? {
        open := Some(Execute(open.value, s));
      }
      tick := tick + 1;
    }

    /** A failed commit commits nothing and leaves the transaction to be rolled back. */
    method Commit(env: Env<D>) returns (err: Option<Err>)
      requires open.Some?
      modifies this
      ensures tick == old(tick) + 1 && err == env.commitFails(old(tick))
      ensures if err.Some? then world == old(world) && open == old(open)
              else world == World(old(open).value.data, old(open).value.session) && open == None
    {
      err := env.commitFails(tick);
      if err.None? {
        world, open := World(open.value.data, open.value.session), None;
      }
      tick := tick + 1;
    }

    /** A no-op after a commit. */
    method Rollback()
      modifies this`open
      ensures open == None
    {
      open := None;
    }

    method ApplyIdentity(env: Env<D>, id: Identity, keys: seq<string>) returns (err: Option<Err>)
      requires open.Some?
      modifies this
      ensures world == old(world) && open.Some?
      ensures Step(open.value, tick, err) == Identify(env, id, keys, old(tick), old(open).value)
    {
      if id.role != "" {
        if !SimpleIdent(id.role) {
          return Some(Plain("invalid role"));
        }
        err := Exec(env, SetLocalRole(id.role));
        if err.Some? {
          return Some(Wrap("set role", err.value));
        }
      }
      ghost var start, startTick := open.value, tick;
      for i := 0 to |keys|
        invariant world == old(world) && open.Some?
        invariant ApplyClaims(env, id, keys, startTick, start) == ApplyClaims(env, id, keys[i..], tick, open.value)
      {
        assert keys[i..][1..] == keys[i + 1..];
        var k := keys[i];
        if Usable(id, k) {
          err := Exec(env, ClaimStatement(id, k));
          if err.Some? {
            return Some(Wrap("set claim " + k, err.value));
          }
        }
      }
      err := None;
    }

    /** The deferred rollback runs on every path out; every opened transaction ends closed. */
    method RunOnce(env: Env<D>, opts: Options, id: Identity, ghost n: nat, keys: seq<string>)
      returns (err: Option<Err>, ghost a: Attempt<D>)
      requires open.None? && keys == env.order(n)
      modifies this
      ensures open.None? && a == AttemptOnce(env, opts, id, n, old(tick), old(world))
      ensures world == a.world && tick == a.tick && err == a.err
    {
      a := AttemptOnce(env, opts, id, n, tick, world);
      err := BeginTx(env);
      if err.Some? {
        return;
      }
      if opts.rls {
        err := ApplyIdentity(env, id, keys);
        if err.Some? {
          Rollback();
          return;
        }
      }
      var (tx, failure) := env.fn(tick, open.value);
      open, tick := Some(tx), tick + 1;
      if failure.Some? {
        Rollback();
        err := failure;
        return;
      }
      err := Commit(env);
      Rollback();
    }

    method RunTx(env: Env<D>, opts: Options, id: Identity) returns (err: Option<Err>, ghost run: Run<D>)
      requires open.None?
      modifies this
      ensures open.None? && run == RunFrom(env, opts, id, 0, old(tick), old(world))
      ensures world == run.world && err == run.err
    {
      hide AttemptOnce, IsSerializationFailure, RunFrom;
      run := RunFrom(env, opts, id, 0, tick, world);
      var n := 0;
      ghost var done: seq<Attempt<D>> := [];
      while true
        invariant open.None? && n == |done|
        invariant var rest := RunFrom(env, opts, id, n, tick, world);
                  run == rest.(attempts := done + rest.attempts)
        decreases Budget(opts, n)
      {
        ghost var a;
        UnfoldRun(env, opts, id, n, tick, world);
        err, a := RunOnce(env, opts, id, n, env.order(n));
        if err.None? || n >= opts.maxRetries || !IsSerializationFailure(err.value) || env.cancelled(tick) {
          return;
        }
        n := n + 1;
        done := done + [a];
      }
    }
  }

  lemma UnfoldRun<D>(env: Env<D>, opts: Options, id: Identity, n: nat, tick: nat, w: World<D>)
    ensures var a, r := AttemptOnce(env, opts, id, n, tick, w), RunFrom(env, opts, id, n, tick, w);
            if Stops(env, opts, n, a) then r == Run(a.world, [a], a.err)
            else
              var rest := RunFrom(env, opts, id, n + 1, a.tick, a.world);
              r == rest.(attempts := [a] + rest.attempts)
  {
    hide AttemptOnce, IsSerializationFailure;
  }

  // ----- what a run guarantees

  /** The last attempt decides; earlier ones failed retryably, committed nothing and changed nothing. */
  lemma {:induction false} RunShape<D>(env: Env<D>, opts: Options, id: Identity, n: nat, tick: nat, w: World<D>)
    ensures var r := RunFrom(env, opts, id, n, tick, w);
            && 1 <= |r.attempts| <= Budget(opts, n) + 1
            && r.err == r.attempts[|r.attempts| - 1].err && r.world == r.attempts[|r.attempts| - 1].world
            && (forall k :: 0 <= k < |r.attempts| - 1 ==>
                  r.attempts[k].err.Some? && IsSerializationFailure(r.attempts[k].err.value)
                  && !r.attempts[k].committed && r.attempts[k].world == w
                  && !env.cancelled(r.attempts[k].tick))
    decreases Budget(opts, n)
  {
    hide Identify, IsSerializationFailure;
    var a := AttemptOnce(env, opts, id, n, tick, w);
    if !Stops(env, opts, n, a) {
      RunShape(env, opts, id, n + 1, a.tick, a.world);
    }
  }

  /** Success means exactly one commit, the last attempt's; failure means nothing changed. */
  lemma {:induction false} AllOrNothing<D>(env: Env<D>, opts: Options, id: Identity, n: nat, tick: nat, w: World<D>)
    ensures var r := RunFrom(env, opts, id, n, tick, w);
            && 1 <= |r.attempts|
            && (r.err.None? <==> r.attempts[|r.attempts| - 1].committed)
            && (r.err.Some? ==> r.world == w)
    decreases Budget(opts, n)
  {
    hide Identify, IsSerializationFailure;
    var a := AttemptOnce(env, opts, id, n, tick, w);
    if !Stops(env, opts, n, a) {
      AllOrNothing(env, opts, id, n + 1, a.tick, a.world);
    }
  }

  /** A serialization failure is returned only when the budget ran out or the context was cancelled. */
  lemma {:induction false} RetriesAreUsed<D>(env: Env<D>, opts: Options, id: Identity, n: nat, tick: nat, w: World<D>)
    ensures var r := RunFrom(env, opts, id, n, tick, w);
            r.err.Some? && IsSerializationFailure(r.err.value) ==>
              |r.attempts| == Budget(opts, n) + 1 || env.cancelled(r.attempts[|r.attempts| - 1].tick)
    decreases Budget(opts, n)
  {
    hide AttemptOnce, IsSerializationFailure;
    var a := AttemptOnce(env, opts, id, n, tick, w);
    if !Stops(env, opts, n, a) {
      RunShape(env, opts, id, n + 1, a.tick, a.world);
      RetriesAreUsed(env, opts, id, n + 1, a.tick, a.world);
    }
  }

  /** The first database code inside an error calls for a retry: a serialization failure or a deadlock. */
  predicate LeadsWithRetry(e: Err) { Codes(e) != [] && (Codes(e)[0] == "40001" || Codes(e)[0] == "40P01") }

  lemma FailureLeads(e: Err)
    ensures IsSerializationFailure(e) <==> LeadsWithRetry(e)
  {
    FirstPgIsHead(e);
  }

  /**
   * An attempt is followed by another exactly when it is under the budget, it failed, its error leads
   * with 40001 or 40P01, and the context is not cancelled.
   */
  lemma {:induction false} RunContinuesIff<D>(env: Env<D>, opts: Options, id: Identity, n: nat, tick: nat, w: World<D>,
                                              k: nat)
    requires k < |RunFrom(env, opts, id, n, tick, w).attempts|
    ensures var run := RunFrom(env, opts, id, n, tick, w).attempts;
            k + 1 < |run| <==>
              n + k < opts.maxRetries && run[k].err.Some? && LeadsWithRetry(run[k].err.value)
              && !env.cancelled(run[k].tick)
    decreases Budget(opts, n)
  {
    hide AttemptOnce, IsSerializationFailure, LeadsWithRetry;
    var a := AttemptOnce(env, opts, id, n, tick, w);
    if a.err.Some? {
      FailureLeads(a.err.value);
    }
    if !Stops(env, opts, n, a) {
      var rest := RunFrom(env, opts, id, n + 1, a.tick, a.world);
      RunShape(env, opts, id, n + 1, a.tick, a.world);
      if k > 0 {
        RunContinuesIff(env, opts, id, n + 1, a.tick, a.world, k - 1);
      }
    }
  }

  /** Each attempt starts where the one before it ended, from the world as it was. */
  lemma {:induction false} RunAttempts<D(!new)>(env: Env<D>, opts: Options, id: Identity, n: nat, tick: nat,
                                               w: World<D>, k: nat)
    requires k < |RunFrom(env, opts, id, n, tick, w).attempts|
    ensures var run := RunFrom(env, opts, id, n, tick, w).attempts;
            AttemptReport(env, opts, id, n + k, if k == 0 then tick else run[k - 1].tick, w, run[k])
    decreases Budget(opts, n)
  {
    hide AttemptOnce, IsSerializationFailure, AttemptReport;
    var a := AttemptOnce(env, opts, id, n, tick, w);
    AttemptReports(env, opts, id, n, tick, w);
    if k > 0 {
      FailedAttempt(env, opts, id, n, tick, w);
      RunAttempts(env, opts, id, n + 1, a.tick, a.world, k - 1);
    }
  }

  /**
   * How an attempt ends, request by request: the begin error as it is; an error while the identity is
   * applied, still carrying its codes, or an unsafe role; the callback's error as it is; the commit
   * error as it is; or a commit.
   */
  ghost predicate AttemptReport<D(!new)>(env: Env<D>, opts: Options, id: Identity, n: nat, tick: nat, w: World<D>,
                                        a: Attempt<D>)
  {
    if env.beginFails(tick).Some? then
      a == Attempt(w, tick + 1, env.beginFails(tick), None, false)
    else if a.seen.None? then
      && opts.rls && a.err.Some? && !a.committed && a.world == w
      && (|| (a.tick > tick + 1 && env.execFails(a.tick - 1).Some?
              && Codes(a.err.value) == Codes(env.execFails(a.tick - 1).value))
          || (!SimpleIdent(id.role) && id.role != "" && Codes(a.err.value) == []))
    else
      exists tx: Tx<D>, at: nat ::
        && tick < at && a.seen == Some(tx.Effective()) && tx.data == w.data
        && var (after, failure) := env.fn(at, tx);
           if failure.Some? then a == Attempt(w, at + 1, failure, a.seen, false)
           else if env.commitFails(at + 1).Some? then a == Attempt(w, at + 2, env.commitFails(at + 1), a.seen, false)
           else a == Attempt(World(after.data, after.session), at + 2, None, a.seen, true)
  }

  lemma {:induction false} ClaimsReport<D>(env: Env<D>, id: Identity, keys: seq<string>, tick: nat, tx: Tx<D>)
    ensures var s := ApplyClaims(env, id, keys, tick, tx);
            && s.tick >= tick && s.tx.data == tx.data
            && (s.err.Some? ==> s.tick > tick && env.execFails(s.tick - 1).Some?
                                && Codes(s.err.value) == Codes(env.execFails(s.tick - 1).value))
  {
    if keys != [] {
      hide ClaimName, SimpleIdent, ClaimValue;
      if !Usable(id, keys[0]) {
        ClaimsReport(env, id, keys[1..], tick, tx);
      } else if env.execFails(tick).None? {
        ClaimsReport(env, id, keys[1..], tick + 1, Execute(tx, ClaimStatement(id, keys[0])));
      }
    }
  }

  lemma AttemptReports<D(!new)>(env: Env<D>, opts: Options, id: Identity, n: nat, tick: nat, w: World<D>)
    ensures AttemptReport(env, opts, id, n, tick, w, AttemptOnce(env, opts, id, n, tick, w))
  {
    hide ApplyClaims, SimpleIdent, Usable;
    ClaimsReport(env, id, env.order(n), tick + 1, Open(w));
    ClaimsReport(env, id, env.order(n), tick + 2, Execute(Open(w), SetLocalRole(id.role)));
    var s := if opts.rls then Identify(env, id, env.order(n), tick + 1, Open(w)) else Step(Open(w), tick + 1, None);
    assert s.tick > tick && s.tx.data == w.data;
  }

  // ----- what the callback sees

  /** The settings a list of claims leaves behind. */
  function ClaimConfig(id: Identity, keys: seq<string>): map<string, string> {
    if keys == [] then map[]
    else
      var n := |keys| - 1;
      var before := ClaimConfig(id, keys[..n]);
      if Usable(id, keys[n]) then before[ToLower(ClaimName(id, keys[n])) := ClaimValue(id.claims[keys[n]]).value]
      else before
  }

  lemma {:induction false} ClaimConfigCons(id: Identity, k: string, keys: seq<string>)
    ensures ClaimConfig(id, [k] + keys) == ClaimConfig(id, [k]) + ClaimConfig(id, keys)
  {
    if keys == [] {
      assert [k] + keys == [k];
    } else {
      var n := |keys| - 1;
      assert ([k] + keys)[..n + 1] == [k] + keys[..n];
      ClaimConfigCons(id, k, keys[..n]);
    }
  }

  lemma {:induction false} ClaimsApplied<D>(env: Env<D>, id: Identity, keys: seq<string>, tick: nat, tx: Tx<D>)
    ensures var s := ApplyClaims(env, id, keys, tick, tx);
            s.err.None? ==> s.tx == tx.(localConfig := tx.localConfig + ClaimConfig(id, keys))
  {
    if keys == [] {
    } else {
      hide ClaimName, ToLower;
      ClaimConfigCons(id, keys[0], keys[1..]);
      assert keys == [keys[0]] + keys[1..] && [keys[0]][..0] == [];
      if Usable(id, keys[0]) {
        if env.execFails(tick).None? {
          var next := Execute(tx, ClaimStatement(id, keys[0]));
          ClaimsApplied(env, id, keys[1..], tick + 1, next);
          assert next.localConfig == tx.localConfig + ClaimConfig(id, [keys[0]]);
        }
      } else {
        ClaimsApplied(env, id, keys[1..], tick, tx);
      }
    }
  }

  function IdentifiedSettings(session: Settings, id: Identity, keys: seq<string>): Settings {
    Settings(if id.role == "" then session.role else id.role, session.config + ClaimConfig(id, keys))
  }

  /**
   * With row-level security on, the callback runs only under the full identity: the role has been
   * switched and every usable claim is set. With it off, it sees the session as it was.
   */
  lemma CallbackSeesIdentity<D>(env: Env<D>, opts: Options, id: Identity, n: nat, tick: nat, w: World<D>)
    ensures var a := AttemptOnce(env, opts, id, n, tick, w);
            a.seen.Some? ==>
              a.seen.value == if opts.rls then IdentifiedSettings(w.session, id, env.order(n)) else w.session
    ensures opts.rls && id.role != "" && !SimpleIdent(id.role) ==> AttemptOnce(env, opts, id, n, tick, w).seen.None?
  {
    var keys := env.order(n);
    ClaimsApplied(env, id, keys, tick + 1, Open(w));
    ClaimsApplied(env, id, keys, tick + 2, Execute(Open(w), SetLocalRole(id.role)));
    hide ApplyClaims, ClaimConfig, SimpleIdent;
    assert w.session.config + map[] == w.session.config;
    assert map[] + ClaimConfig(id, keys) == ClaimConfig(id, keys);
  }

  /** So it is in every attempt of a run, whatever failed before. */
  lemma {:induction false} RunSeesIdentity<D>(env: Env<D>, opts: Options, id: Identity, n: nat, tick: nat, w: World<D>,
                                              k: nat)
    requires k < |RunFrom(env, opts, id, n, tick, w).attempts|
    ensures var a := RunFrom(env, opts, id, n, tick, w).attempts[k];
            a.seen.Some? ==>
              a.seen.value == if opts.rls then IdentifiedSettings(w.session, id, env.order(n + k)) else w.session
    decreases Budget(opts, n)
  {
    hide AttemptOnce, IsSerializationFailure, IdentifiedSettings;
    var a := AttemptOnce(env, opts, id, n, tick, w);
    CallbackSeesIdentity(env, opts, id, n, tick, w);
    if k > 0 {
      FailedAttempt(env, opts, id, n, tick, w);
      RunSeesIdentity(env, opts, id, n + 1, a.tick, a.world, k - 1);
    }
  }

  lemma FailedAttempt<D>(env: Env<D>, opts: Options, id: Identity, n: nat, tick: nat, w: World<D>)
    ensures AttemptOnce(env, opts, id, n, tick, w).err.Some? ==> AttemptOnce(env, opts, id, n, tick, w).world == w
  {
    hide Identify;
  }

  /** Usable claims whose names differ only in letter case have the same value. */
  predicate ClaimsConsistent(id: Identity) {
    forall j, k :: j in id.claims && k in id.claims && Usable(id, j) && Usable(id, k)
                   && ToLower(ClaimName(id, j)) == ToLower(ClaimName(id, k)) ==>
                   ClaimValue(id.claims[j]) == ClaimValue(id.claims[k])
  }

  /** An order in which a map with these keys may be iterated. */
  ghost predicate OrderOf(id: Identity, keys: seq<string>) {
    (forall k :: k in keys <==> k in id.claims) && forall i, j :: 0 <= i < j < |keys| ==> keys[i] != keys[j]
  }

  /** Exactly the usable claims are set, each to its value. */
  lemma {:induction false} ClaimConfigMeaning(id: Identity, keys: seq<string>, name: string)
    requires ClaimsConsistent(id)
    ensures name in ClaimConfig(id, keys) <==>
            exists k :: k in keys && Usable(id, k) && ToLower(ClaimName(id, k)) == name
    ensures forall k :: k in keys && Usable(id, k) && ToLower(ClaimName(id, k)) == name ==>
              name in ClaimConfig(id, keys) && Some(ClaimConfig(id, keys)[name]) == ClaimValue(id.claims[k])
  {
    hide ClaimName, ToLower, SimpleIdent, ClaimValue;
    if keys != [] {
      var n := |keys| - 1;
      ClaimConfigMeaning(id, keys[..n], name);
      assert forall k :: k in keys <==> k in keys[..n] || k == keys[n];
    }
  }

  /** A setting the callback may read under this name: the claim's value, or else the session's. */
  ghost predicate SeesClaim(id: Identity, session: Settings, seen: Settings, name: string) {
    && (forall k :: k in id.claims && Usable(id, k) && ToLower(ClaimName(id, k)) == name ==>
          name in seen.config && Some(seen.config[name]) == ClaimValue(id.claims[k]))
    && ((forall k :: k in id.claims && Usable(id, k) ==> ToLower(ClaimName(id, k)) != name) ==>
          (name in seen.config <==> name in session.config)
          && (name in session.config ==> seen.config[name] == session.config[name]))
  }

  /** The codes of the digits, the upper-case letters, the underscore and the lower-case letters. */
  predicate PlainChar(c: char) {
    var code := c as int;
    48 <= code < 58 || 65 <= code < 91 || code == 95 || 97 <= code < 123
  }

  /**
   * In plain terms: a claim whose key is made of letters, digits and underscores is set under its
   * prefix, pdbq.claims where none is given, to its text or its JSON; no other claim is.
   */
  lemma ClaimMeaning(id: Identity, key: string)
    ensures Usable(id, key) <==>
            && key in id.claims && key != "" && (forall c :: c in key ==> PlainChar(c))
            && (id.claims[key].Encoded? ==> id.claims[key].json.Some?)
    ensures Usable(id, key) ==>
              ClaimValue(id.claims[key]).value
              == if id.claims[key].Text? then id.claims[key].text else id.claims[key].json.value
    ensures id.claimsPrefix == "" ==> ClaimName(id, key) == "pdbq.claims." + key
    ensures id.claimsPrefix != "" ==> ClaimName(id, key) == id.claimsPrefix + "." + key
  {
    assert forall c: char :: SimpleChar(c) <==> PlainChar(c);
    assert forall c :: c in key <==> exists i :: 0 <= i < |key| && key[i] == c;
    assert "pdbq.claims" + "." + key == "pdbq.claims." + key;
  }

  /** In every attempt of a run the callback sees each usable claim, and otherwise the session's settings. */
  lemma RunSeesClaims<D>(env: Env<D>, opts: Options, id: Identity, n: nat, tick: nat, w: World<D>, k: nat, name: string)
    requires opts.rls && ClaimsConsistent(id) && k < |RunFrom(env, opts, id, n, tick, w).attempts|
    requires OrderOf(id, env.order(n + k))
    ensures var a := RunFrom(env, opts, id, n, tick, w).attempts[k];
            a.seen.Some? ==>
              SeesClaim(id, w.session, a.seen.value, name)
              && a.seen.value.role == if id.role != "" then id.role else w.session.role
  {
    hide RunFrom, ClaimName, ToLower, SimpleIdent, ClaimValue, ClaimConfig, ClaimsConsistent;
    RunSeesIdentity(env, opts, id, n, tick, w, k);
    ClaimConfigMeaning(id, env.order(n + k), name);
  }

  lemma ConsistentOrders(id: Identity, xs: seq<string>, ys: seq<string>)
    requires ClaimsConsistent(id) && OrderOf(id, xs) && OrderOf(id, ys)
    ensures ClaimConfig(id, xs) == ClaimConfig(id, ys)
  {
    hide ClaimName, ToLower, SimpleIdent, ClaimValue, ClaimConfig, ClaimsConsistent;
    var a, b := ClaimConfig(id, xs), ClaimConfig(id, ys);
    forall name
      ensures name in a <==> name in b
      ensures name in a ==> a[name] == b[name]
    {
      ClaimConfigMeaning(id, xs, name);
      ClaimConfigMeaning(id, ys, name);
    }
    assert a.Keys == b.Keys;
  }

  lemma LastClaimWins(id: Identity, k: string) returns (keys: seq<string>)
    requires Usable(id, k)
    ensures OrderOf(id, keys)
    ensures ToLower(ClaimName(id, k)) in ClaimConfig(id, keys)
    ensures Some(ClaimConfig(id, keys)[ToLower(ClaimName(id, k))]) == ClaimValue(id.claims[k])
  {
    hide ClaimName, ToLower, SimpleIdent;
    var rest := Listing(id.claims.Keys - {k});
    keys := rest + [k];
    assert keys[..|keys| - 1] == rest;
  }

  /** What the callback sees is independent of map iteration order exactly when claims are consistent. */
  lemma OrderIrrelevantIff(id: Identity)
    ensures ClaimsConsistent(id) <==>
            forall xs, ys :: OrderOf(id, xs) && OrderOf(id, ys) ==> ClaimConfig(id, xs) == ClaimConfig(id, ys)
  {
    hide ClaimName, ToLower, SimpleIdent, ClaimConfig, ClaimValue;
    if ClaimsConsistent(id) {
      forall xs, ys | OrderOf(id, xs) && OrderOf(id, ys)
        ensures ClaimConfig(id, xs) == ClaimConfig(id, ys)
      {
        ConsistentOrders(id, xs, ys);
      }
    } else {
      var j, k :| j in id.claims && k in id.claims && Usable(id, j) && Usable(id, k)
                  && ToLower(ClaimName(id, j)) == ToLower(ClaimName(id, k))
                  && ClaimValue(id.claims[j]) != ClaimValue(id.claims[k]);
      var xs := LastClaimWins(id, j);
      var ys := LastClaimWins(id, k);
      assert ClaimConfig(id, xs) != ClaimConfig(id, ys);
    }
  }

  /** The callback never changes session-level settings. */
  ghost predicate LocalOnly<D(!new)>(env: Env<D>) {
    forall tick, tx :: env.fn(tick, tx).0.session == tx.session
  }

  lemma {:induction false} ClaimsAreLocal<D>(env: Env<D>, id: Identity, keys: seq<string>, tick: nat, tx: Tx<D>)
    ensures ApplyClaims(env, id, keys, tick, tx).tx.session == tx.session
  {
    if keys != [] {
      hide ClaimName, ToLower, SimpleIdent, ClaimValue;
      if !Usable(id, keys[0]) {
        ClaimsAreLocal(env, id, keys[1..], tick, tx);
      } else if env.execFails(tick).None? {
        ClaimsAreLocal(env, id, keys[1..], tick + 1, Execute(tx, ClaimStatement(id, keys[0])));
      }
    }
  }

  lemma AttemptRestoresSession<D(!new)>(env: Env<D>, opts: Options, id: Identity, n: nat, tick: nat, w: World<D>)
    requires LocalOnly(env)
    ensures AttemptOnce(env, opts, id, n, tick, w).world.session == w.session
  {
    hide ApplyClaims, SimpleIdent;
    ClaimsAreLocal(env, id, env.order(n), tick + 1, Open(w));
    ClaimsAreLocal(env, id, env.order(n), tick + 2, Execute(Open(w), SetLocalRole(id.role)));
  }

  /** However a run ends, the connection goes back with the role and settings it came with. */
  lemma {:induction false} NoIdentityLeaks<D(!new)>(env: Env<D>, opts: Options, id: Identity, n: nat, tick: nat,
                                                    w: World<D>)
    requires LocalOnly(env)
    ensures RunFrom(env, opts, id, n, tick, w).world.session == w.session
    decreases Budget(opts, n)
  {
    hide AttemptOnce, IsSerializationFailure;
    var a := AttemptOnce(env, opts, id, n, tick, w);
    AttemptRestoresSession(env, opts, id, n, tick, w);
    if !Stops(env, opts, n, a) {
      NoIdentityLeaks(env, opts, id, n + 1, a.tick, a.world);
    }
  }
}
