/** The sponsor canister as a sequence of calls. `Step` applies one call the
    way the host does: a successful update commits its new state, a trapped
    update rolls back to the state before the call, and a query leaves the
    state alone. `Run` folds `Step` over a trace, and the lemmas below state
    what no trace can break. */
module SponsorCalls {

  import opened Wrappers
  import opened Ints
  import StableMap
  import opened Sponsor

  /** One endpoint invocation with its arguments. */
  datatype Request =
    | GetParamReq(key: string)
    | WhitelistParamReq(key: string, value: Param)
    | IsManagerCanisterReq(principal: string)
    | LogParamUsageReq(key: string)
    | IsControllerReq
    | SetTimerLimitReq(limit: u64)
    | EditManagerCanisterReq(principal: string, enabled: bool)
    | IsParamWhitelistedReq(key: string)
    | IsParamTimeAvailableReq(key: string)
  {
    /** The endpoints that trap with "Access denied" for a non-controller. */
    predicate ControllerOnly() {
      WhitelistParamReq? || SetTimerLimitReq? || EditManagerCanisterReq?
    }

    predicate IsQuery() {
      GetParamReq? || IsManagerCanisterReq? || IsControllerReq? || IsParamWhitelistedReq? || IsParamTimeAvailableReq?
    }
  }

  datatype Call = Call(env: Env, req: Request)

  datatype Reply = ParamReply(param: Option<Param>) | BoolReply(b: bool) | UnitReply

  datatype Outcome = Replied(reply: Reply) | Trapped(error: Error)

  datatype Response = Response(state: State, outcome: Outcome)

  /** The machine-integer guards the model places on a call: a manager's
      log must not overflow the `u32` count and the time query must not
      underflow. A stranger's log is refused before any arithmetic, so it
      is never excluded. */
  predicate InRange(s: State, c: Call) {
    match c.req
    case LogParamUsageReq(key) =>
      IsManagerCanister(s, c.env.caller) && key in s.params ==> s.params[key].count < U32_MAX
    case IsParamTimeAvailableReq(key) => key in s.params ==> c.env.now >= s.params[key].lastUse
    case _ => true
  }

  function Commit<T>(s: State, r: Result<(State, T), Error>, reply: T -> Reply): Response {
    match r
    case Success((s', out)) => Response(s', Replied(reply(out)))
    case Failure(e) => Response(s, Trapped(e))
  }

  /** Apply one call. A trap keeps the state of before the call. */
  function Step(s: State, c: Call): (r: Response)
    requires InRange(s, c)
    ensures r.outcome.Trapped? ==> r.state == s
    ensures c.req.IsQuery() ==> r.state == s && r.outcome.Replied?
    ensures r.outcome.Trapped? && Message(r.outcome.error) == "Access denied" <==>
              || (c.req.ControllerOnly() && !IsController(c.env))
              || (c.req.LogParamUsageReq? && !IsManagerCanister(s, c.env.caller))
    ensures r.outcome.Trapped? && Message(r.outcome.error) == "Param is not defined" <==>
              c.req.LogParamUsageReq? && IsManagerCanister(s, c.env.caller) && c.req.key !in s.params
  {
    match c.req
    case GetParamReq(key) => Response(s, Replied(ParamReply(GetParam(s, key))))
    case IsManagerCanisterReq(p) => Response(s, Replied(BoolReply(IsManagerCanister(s, p))))
    case IsControllerReq => Response(s, Replied(BoolReply(IsController(c.env))))
    case IsParamWhitelistedReq(key) => Response(s, Replied(BoolReply(IsParamWhitelisted(s, key))))
    case IsParamTimeAvailableReq(key) => Response(s, Replied(BoolReply(IsParamTimeAvailable(s, c.env, key))))
    case WhitelistParamReq(key, value) => Commit(s, WhitelistParam(s, c.env, key, value), p => ParamReply(p))
    case LogParamUsageReq(key) => Commit(s, LogParamUsage(s, c.env, key), p => ParamReply(p))
    case SetTimerLimitReq(limit) => Commit(s, SetTimerLimit(s, c.env, limit), (_: ()) => UnitReply)
    case EditManagerCanisterReq(p, b) => Commit(s, EditManagerCanister(s, c.env, p, b), (_: ()) => UnitReply)
  }

  /** Every call of `calls` is within the modelled integer ranges at the
      state it reaches. */
  predicate Admissible(s: State, calls: seq<Call>)
    decreases |calls|
  {
    |calls| == 0 || (InRange(s, calls[0]) && Admissible(Step(s, calls[0]).state, calls[1..]))
  }

  function Run(s: State, calls: seq<Call>): State
    requires Admissible(s, calls)
    decreases |calls|
  {
    if |calls| == 0 then s else Run(Step(s, calls[0]).state, calls[1..])
  }

  // ---------------------------------------------------------------- one step

  /** A step keeps every stored key within the storage bound, never removes
      a param or a manager entry, and never touches `maxCallPerUser`. */
  lemma StepInvariants(s: State, c: Call)
    requires InRange(s, c)
    ensures Valid(s) ==> Valid(Step(s, c).state)
    ensures s.params.Keys <= Step(s, c).state.params.Keys
    ensures s.canister.managers.Keys <= Step(s, c).state.canister.managers.Keys
    ensures Step(s, c).state.canister.maxCallPerUser == s.canister.maxCallPerUser
  {
    var s' := Step(s, c).state;
    if Valid(s) {
      forall k | k in s'.params ensures StableMap.KeyFits(k) {
        if k !in s.params {
          assert GetParam(s', k).Some?;
        }
      }
    }
    forall k | k in s.params ensures k in s'.params {
      assert GetParam(s, k).Some?;
    }
  }

  /** A call by a non-controller leaves the administrative state and the set
      of param keys as they were, and the flags of every record too. */
  lemma StepWithoutController(s: State, c: Call)
    requires InRange(s, c)
    requires !IsController(c.env)
    ensures Step(s, c).state.canister == s.canister
    ensures Step(s, c).state.params.Keys == s.params.Keys
    ensures forall k :: k in s.params ==>
              && Step(s, c).state.params[k].isWhitelisted == s.params[k].isWhitelisted
              && Step(s, c).state.params[k].isPrincipal == s.params[k].isPrincipal
    ensures forall k :: k in s.params ==>
              || Step(s, c).state.params[k] == s.params[k]
              || (&& Step(s, c).state.params[k].count == s.params[k].count + 1
                  && Step(s, c).state.params[k].lastUse == c.env.now)
  {
    var s' := Step(s, c).state;
    forall k | k in s.params ensures k in s'.params {
      assert GetParam(s, k).Some?;
    }
    forall k | k in s'.params ensures k in s.params {
      assert GetParam(s', k).Some?;
    }
  }

  // ---------------------------------------------------------------- traces

  /** The storage bound on keys holds after any trace from a valid state. */
  lemma {:induction false} RunPreservesValid(s: State, calls: seq<Call>)
    requires Admissible(s, calls)
    requires Valid(s)
    ensures Valid(Run(s, calls))
    decreases |calls|
  {
    if |calls| > 0 {
      StepInvariants(s, calls[0]);
      RunPreservesValid(Step(s, calls[0]).state, calls[1..]);
    }
  }

  /** No trace removes a param or a manager entry (revoking a manager sets
      its entry to `false`), and none changes `maxCallPerUser`. */
  lemma {:induction false} RunOnlyGrows(s: State, calls: seq<Call>)
    requires Admissible(s, calls)
    ensures s.params.Keys <= Run(s, calls).params.Keys
    ensures s.canister.managers.Keys <= Run(s, calls).canister.managers.Keys
    ensures Run(s, calls).canister.maxCallPerUser == s.canister.maxCallPerUser
    decreases |calls|
  {
    if |calls| > 0 {
      StepInvariants(s, calls[0]);
      RunOnlyGrows(Step(s, calls[0]).state, calls[1..]);
    }
  }

  /** Without a controller among the callers, the manager set, the cooldown
      and the set of params are fixed, and no record's flags change: only
      the usage counters and timestamps can move. */
  lemma {:induction false} RunWithoutController(s: State, calls: seq<Call>)
    requires Admissible(s, calls)
    requires forall i :: 0 <= i < |calls| ==> !IsController(calls[i].env)
    ensures Run(s, calls).canister == s.canister
    ensures Run(s, calls).params.Keys == s.params.Keys
    ensures forall k :: k in s.params ==>
              && Run(s, calls).params[k].isWhitelisted == s.params[k].isWhitelisted
              && Run(s, calls).params[k].isPrincipal == s.params[k].isPrincipal
    decreases |calls|
  {
    if |calls| > 0 {
      StepWithoutController(s, calls[0]);
      RunWithoutController(Step(s, calls[0]).state, calls[1..]);
    }
  }

  /** Callers that are neither controllers nor managers cannot change
      anything at all. */
  lemma {:induction false} StrangersChangeNothing(s: State, calls: seq<Call>)
    requires Admissible(s, calls)
    requires forall i :: 0 <= i < |calls| ==>
               !IsController(calls[i].env) && !IsManagerCanister(s, calls[i].env.caller)
    ensures Run(s, calls) == s
    decreases |calls|
  {
    if |calls| > 0 {
      var c := calls[0];
      assert !IsController(c.env) && !IsManagerCanister(s, c.env.caller);
      assert Step(s, c).state == s;
      StrangersChangeNothing(s, calls[1..]);
    }
  }

  /** A stranger's log is refused with "Access denied" and changes nothing
      even for a record whose count is at the `u32` maximum: the manager
      check comes before the increment. */
  lemma StrangerLogAtCountLimit(s: State, env: Env, key: string)
    requires !IsManagerCanister(s, env.caller)
    requires key in s.params && s.params[key].count == U32_MAX
    ensures Admissible(s, [Call(env, LogParamUsageReq(key))])
    ensures Step(s, Call(env, LogParamUsageReq(key))) == Response(s, Trapped(AccessDenied))
  {
  }

  /** The calls by which `caller` logs a use of `key` at each time of `times`. */
  function Logs(caller: string, controllers: set<string>, key: string, times: seq<u64>): (calls: seq<Call>)
    ensures |calls| == |times|
    ensures forall i :: 0 <= i < |times| ==>
              calls[i] == Call(Env(caller, controllers, times[i]), LogParamUsageReq(key))
  {
    seq(|times|, i requires 0 <= i < |times| => Call(Env(caller, controllers, times[i]), LogParamUsageReq(key)))
  }

  /** A manager logging a stored key `n` times raises its count by exactly
      `n` and leaves the time of the last call as its last use, without any
      cooldown refusing a call. */
  lemma {:induction false} RepeatedLogs(s: State, caller: string, controllers: set<string>, key: string, times: seq<u64>)
    requires Valid(s)
    requires IsManagerCanister(s, caller)
    requires key in s.params
    requires s.params[key].count + |times| <= U32_MAX
    ensures Admissible(s, Logs(caller, controllers, key, times))
    ensures var s' := Run(s, Logs(caller, controllers, key, times));
      && key in s'.params
      && s'.params[key].count == s.params[key].count + |times|
      && (|times| > 0 ==> s'.params[key].lastUse == times[|times| - 1])
      && (|times| == 0 ==> s'.params[key].lastUse == s.params[key].lastUse)
      && s'.params[key].isWhitelisted == s.params[key].isWhitelisted
      && s'.params[key].isPrincipal == s.params[key].isPrincipal
      && s'.canister == s.canister
    decreases |times|
  {
    var calls := Logs(caller, controllers, key, times);
    if |times| > 0 {
      var c := calls[0];
      LogIgnoresWhitelistAndCooldown(s, c.env, key);
      var s1 := Step(s, c).state;
      assert s1 == LogParamUsage(s, c.env, key).value.0;
      assert GetParam(s1, key).Some?;
      StepInvariants(s, c);
      assert Logs(caller, controllers, key, times[1..]) == calls[1..];
      RepeatedLogs(s1, caller, controllers, key, times[1..]);
      if |times| > 1 {
        assert times[1..][|times[1..]| - 1] == times[|times| - 1];
      }
    }
  }

  /** Whether some controller call of `calls` asks to whitelist `key`. */
  predicate WhitelistsKey(calls: seq<Call>, key: string) {
    exists i :: 0 <= i < |calls| && calls[i].req.WhitelistParamReq? && calls[i].req.key == key && IsController(calls[i].env)
  }

  /** A record exists only if a controller whitelisted its key: a key
      absent at the start stays absent through any trace in which no
      controller asks to whitelist it (a refused request from anyone else
      creates nothing), so from the installed state it is neither found nor
      whitelisted. */
  lemma {:induction false} NeverWhitelistedIsAbsent(s: State, calls: seq<Call>, key: string)
    requires Admissible(s, calls)
    requires key !in s.params
    requires !WhitelistsKey(calls, key)
    ensures GetParam(Run(s, calls), key) == None
    ensures !IsParamWhitelisted(Run(s, calls), key)
    decreases |calls|
  {
    if |calls| > 0 {
      var c := calls[0];
      assert !(c.req.WhitelistParamReq? && c.req.key == key && IsController(c.env));
      var s1 := Step(s, c).state;
      assert GetParam(s1, key) == GetParam(s, key);
      assert !WhitelistsKey(calls[1..], key) by {
        forall i | 0 <= i < |calls[1..]| ensures !(calls[1..][i].req.WhitelistParamReq? && calls[1..][i].req.key == key && IsController(calls[1..][i].env)) {
          assert calls[1..][i] == calls[i + 1];
        }
      }
      NeverWhitelistedIsAbsent(s1, calls[1..], key);
    }
  }

  /** Running `c` before `rest` is stepping `c`, then running `rest`. */
  lemma RunCons(s: State, c: Call, rest: seq<Call>)
    requires InRange(s, c)
    requires Admissible(Step(s, c).state, rest)
    ensures Admissible(s, [c] + rest)
    ensures Run(s, [c] + rest) == Run(Step(s, c).state, rest)
  {
    assert ([c] + rest)[1..] == rest;
  }

  /** Without controller calls, a record's count never decreases, and its
      last use stays at or above any floor that it and every call's clock
      reading respect. */
  lemma {:induction false} UsageMonotone(s: State, calls: seq<Call>, key: string, floor: int)
    requires Admissible(s, calls)
    requires key in s.params
    requires s.params[key].lastUse >= floor
    requires forall i :: 0 <= i < |calls| ==> !IsController(calls[i].env)
    requires forall i :: 0 <= i < |calls| ==> calls[i].env.now >= floor
    ensures key in Run(s, calls).params
    ensures Run(s, calls).params[key].count >= s.params[key].count
    ensures Run(s, calls).params[key].lastUse >= floor
    decreases |calls|
  {
    if |calls| > 0 {
      var s1 := Step(s, calls[0]).state;
      StepWithoutController(s, calls[0]);
      UsageMonotone(s1, calls[1..], key, floor);
    }
  }

  /** The end-to-end scenario: a controller whitelists "gpu-quota" with a
      fresh record and registers "svc-A" as a manager; "svc-A" then logs
      three uses at times 10, 20 and 30. */
  function WhitelistQuota(admin: string): Call {
    Call(Env(admin, {admin}, 1), WhitelistParamReq("gpu-quota", Param(true, false, 0, 0)))
  }

  function RegisterService(admin: string): Call {
    Call(Env(admin, {admin}, 2), EditManagerCanisterReq("svc-A", true))
  }

  function QuotaLogs(admin: string): seq<Call> {
    Logs("svc-A", {admin}, "gpu-quota", [10, 20, 30])
  }

  function QuotaCalls(admin: string): seq<Call> {
    [WhitelistQuota(admin)] + ([RegisterService(admin)] + QuotaLogs(admin))
  }

  lemma GpuQuotaFits()
    ensures StableMap.KeyFits("gpu-quota")
  {
    var key := "gpu-quota";
    assert forall i :: 0 <= i < |key| ==> key[i] as int < 0x80;
  }

  /** After the two controller calls, "gpu-quota" holds the fresh record
      and "svc-A" is a manager. */
  lemma QuotaSetup(admin: string)
    ensures InRange(Init, WhitelistQuota(admin))
    ensures var s1 := Step(Init, WhitelistQuota(admin)).state;
      && InRange(s1, RegisterService(admin))
      && var s2 := Step(s1, RegisterService(admin)).state;
      && Valid(s2)
      && IsManagerCanister(s2, "svc-A")
      && s2.params == map["gpu-quota" := Param(true, false, 0, 0)]
  {
    GpuQuotaFits();
    var s1 := Step(Init, WhitelistQuota(admin)).state;
    assert s1.params == map["gpu-quota" := Param(true, false, 0, 0)];
  }

  /** The scenario ends with count 3 and last use 30, and the param is not
      time available at time 30. */
  lemma QuotaScenario(admin: string)
    ensures Admissible(Init, QuotaCalls(admin))
    ensures GetParam(Run(Init, QuotaCalls(admin)), "gpu-quota") == Some(Param(true, false, 30, 3))
    ensures !IsParamTimeAvailable(Run(Init, QuotaCalls(admin)), Env("svc-A", {admin}, 30), "gpu-quota")
  {
    QuotaSetup(admin);
    var s1 := Step(Init, WhitelistQuota(admin)).state;
    var s2 := Step(s1, RegisterService(admin)).state;
    RepeatedLogs(s2, "svc-A", {admin}, "gpu-quota", [10, 20, 30]);
    var final := Run(s2, QuotaLogs(admin));
    var p := final.params["gpu-quota"];
    assert p.count == 3 && p.lastUse == 30 && p.isWhitelisted && !p.isPrincipal;
    RunCons(s1, RegisterService(admin), QuotaLogs(admin));
    RunCons(Init, WhitelistQuota(admin), [RegisterService(admin)] + QuotaLogs(admin));
    assert Run(Init, QuotaCalls(admin)) == final;
  }
}
