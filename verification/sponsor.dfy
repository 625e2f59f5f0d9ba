/** The sponsor canister: a registry of whitelisted params plus the
    administrative state that says who may log their use.

    Two trust tiers guard the writes. The controller tier belongs to whoever
    the host reports as a controller of the canister; it may whitelist params,
    set the cooldown and edit the manager delegations. The manager tier
    belongs to any caller the canister state maps to `true`; it may log a use
    of an existing param. Queries need no tier.

    The host inputs of a call (its caller, the controller oracle, the clock)
    are the `Env` argument. Every update returns `Result`: a trap carries no
    state because the host rolls the whole call back. */
module Sponsor {

  import opened Wrappers
  import opened Ints
  import StableMap

  datatype Param = Param(isWhitelisted: bool, isPrincipal: bool, lastUse: u64, count: u32)

  /** Administrative state. `managers` is the field the canister calls
      `controllers`; it holds manager delegations, not the host's controllers.
      `maxCallPerUser` is stored but no operation reads it. */
  datatype CanisterState = CanisterState(managers: map<string, bool>, maxCallPerUser: u16, timerLimit: u64)

  datatype State = State(params: map<string, Param>, canister: CanisterState)

  /** What the host supplies with a call: the caller's principal in text
      form, the set of principals it reports as controllers, and the time. */
  datatype Env = Env(caller: string, controllers: set<string>, now: u64)

  datatype Error = AccessDenied | ParamNotDefined | StoreFailed(cause: StableMap.StoreError)

  /** The state at installation: no params, no managers, zero limits. */
  const Init: State := State(map[], CanisterState(map[], 0, 0))

  /** The reason string a trap carries back to the caller. The storage
      layer's own panic text is not part of this model. */
  function Message(e: Error): string {
    match e
    case AccessDenied => "Access denied"
    case ParamNotDefined => "Param is not defined"
    case StoreFailed(_) => "key exceeds the storage bound"
  }

  /** Every stored param key respects the storage bound. */
  predicate Valid(s: State) {
    StableMap.AllKeysFit(s.params)
  }

  // ---------------------------------------------------------------- queries

  /** `getParam`: raw lookup of a param's record; an unknown key reads as
      `None` rather than trapping. */
  function GetParam(s: State, key: string): (r: Option<Param>)
    ensures r.Some? <==> key in s.params
    ensures r.Some? ==> r.value == s.params[key]
  {
    StableMap.Get(s.params, key)
  }

  /** `isController`: whether the caller itself holds the controller tier. */
  predicate IsController(env: Env) {
    env.caller in env.controllers
  }

  /** `isManagerCanister`: an absent principal and one mapped to `false` are
      both refused; only a principal mapped to `true` is a manager. */
  function IsManagerCanister(s: State, principal: string): (r: bool)
    ensures r <==> principal in s.canister.managers && s.canister.managers[principal]
    ensures principal !in s.canister.managers ==> !r
  {
    if principal in s.canister.managers then s.canister.managers[principal] else false
  }

  /** `isParamWhitelisted`: false for an unknown key, otherwise the record's flag. */
  function IsParamWhitelisted(s: State, key: string): (r: bool)
    ensures r <==> GetParam(s, key).Some? && GetParam(s, key).value.isWhitelisted
  {
    if key in s.params then s.params[key].isWhitelisted else false
  }

  /** `isParamTimeAvailable`: false for an unknown key, otherwise whether
      strictly more than `timerLimit` has passed since the last use. The
      subtraction is on unsigned 64-bit values, so the clock must not be
      behind the stored time. */
  function IsParamTimeAvailable(s: State, env: Env, key: string): (r: bool)
    requires key in s.params ==> env.now >= s.params[key].lastUse
    ensures GetParam(s, key).None? ==> !r
    ensures r ==> env.now > s.params[key].lastUse + s.canister.timerLimit
    ensures key in s.params && env.now > s.params[key].lastUse + s.canister.timerLimit ==> r
  {
    if key in s.params then env.now - s.params[key].lastUse > s.canister.timerLimit else false
  }

  // ---------------------------------------------------------------- updates

  /** `whitelistParam`: a controller stores `value` under `key` and gets back
      the record it replaced; anyone else is refused. */
  function WhitelistParam(s: State, env: Env, key: string, value: Param): (r: Result<(State, Option<Param>), Error>)
    ensures !IsController(env) ==> r == Failure(AccessDenied)
    ensures IsController(env) ==> (r.Success? <==> StableMap.KeyFits(key))
    ensures r.Failure? && IsController(env) ==> r.error.StoreFailed?
    ensures r.Success? ==> r.value.1 == GetParam(s, key)
    ensures r.Success? ==> GetParam(r.value.0, key) == Some(value)
    ensures r.Success? ==> forall k :: k != key ==> GetParam(r.value.0, k) == GetParam(s, k)
    ensures r.Success? ==> r.value.0.canister == s.canister
  {
    if !IsController(env) then Failure(AccessDenied)
    else
      match StableMap.Insert(s.params, key, value)
      case Failure(e) => Failure(StoreFailed(e))
      case Success((params', previous)) => Success((s.(params := params'), previous))
  }

  /** `setTimerLimit`: a controller replaces the cooldown; nothing else moves. */
  function SetTimerLimit(s: State, env: Env, limit: u64): (r: Result<(State, ()), Error>)
    ensures r.Success? <==> IsController(env)
    ensures r.Failure? ==> r.error == AccessDenied
    ensures r.Success? ==> r.value.0.canister.timerLimit == limit
    ensures r.Success? ==> r.value.0.canister.managers == s.canister.managers
    ensures r.Success? ==> r.value.0.canister.maxCallPerUser == s.canister.maxCallPerUser
    ensures r.Success? ==> r.value.0.params == s.params
  {
    if !IsController(env) then Failure(AccessDenied)
    else Success((s.(canister := s.canister.(timerLimit := limit)), ()))
  }

  /** `editManagerCanister`: a controller grants (`true`) or revokes
      (`false`) the manager tier of `principal`. An entry is inserted or
      overwritten, never removed. */
  function EditManagerCanister(s: State, env: Env, principal: string, enabled: bool): (r: Result<(State, ()), Error>)
    ensures r.Success? <==> IsController(env)
    ensures r.Failure? ==> r.error == AccessDenied
    ensures r.Success? ==> IsManagerCanister(r.value.0, principal) == enabled
    ensures r.Success? ==> forall p :: p != principal ==> IsManagerCanister(r.value.0, p) == IsManagerCanister(s, p)
    ensures r.Success? ==> r.value.0.canister.managers.Keys == s.canister.managers.Keys + {principal}
    ensures r.Success? ==> r.value.0.canister.timerLimit == s.canister.timerLimit
    ensures r.Success? ==> r.value.0.canister.maxCallPerUser == s.canister.maxCallPerUser
    ensures r.Success? ==> r.value.0.params == s.params
  {
    if !IsController(env) then Failure(AccessDenied)
    else Success((s.(canister := s.canister.(managers := s.canister.managers[principal := enabled])), ()))
  }

  /** `logParamUsage`: a manager records a use of an existing param. The
      manager check comes first, so a stranger is refused even for unknown
      keys. Neither the whitelist flag nor the cooldown is consulted. The
      record's count is a `u32`; a manager's log must not take it past its
      maximum. */
  function LogParamUsage(s: State, env: Env, key: string): (r: Result<(State, Option<Param>), Error>)
    requires IsManagerCanister(s, env.caller) && key in s.params ==> s.params[key].count < U32_MAX
    ensures !IsManagerCanister(s, env.caller) ==> r == Failure(AccessDenied)
    ensures IsManagerCanister(s, env.caller) && key !in s.params ==> r == Failure(ParamNotDefined)
    ensures IsManagerCanister(s, env.caller) && key in s.params && StableMap.KeyFits(key) ==> r.Success?
    ensures r.Success? ==> key in s.params && r.value.1.Some?
    ensures r.Success? ==> r.value.1.value.lastUse == env.now
    ensures r.Success? ==> r.value.1.value.count == s.params[key].count + 1
    ensures r.Success? ==> r.value.1.value.isWhitelisted == s.params[key].isWhitelisted
    ensures r.Success? ==> r.value.1.value.isPrincipal == s.params[key].isPrincipal
    ensures r.Success? ==> GetParam(r.value.0, key) == r.value.1
    ensures r.Success? ==> forall k :: k != key ==> GetParam(r.value.0, k) == GetParam(s, k)
    ensures r.Success? ==> r.value.0.canister == s.canister
  {
    if !IsManagerCanister(s, env.caller) then Failure(AccessDenied)
    else
      match StableMap.Get(s.params, key)
      case None => Failure(ParamNotDefined)
      case Some(param) =>
        var used := param.(lastUse := env.now, count := param.count + 1);
        match StableMap.Insert(s.params, key, used)
        case Failure(e) => Failure(StoreFailed(e))
        case Success((params', _)) => Success((s.(params := params'), Some(used)))
  }

  // ---------------------------------------------------------------- properties

  /** In a valid state a manager's log of a stored key always succeeds, even
      when the param is not whitelisted and its cooldown has not elapsed. */
  lemma LogIgnoresWhitelistAndCooldown(s: State, env: Env, key: string)
    requires Valid(s)
    requires IsManagerCanister(s, env.caller)
    requires key in s.params && s.params[key].count < U32_MAX
    ensures LogParamUsage(s, env, key).Success?
  {
    assert StableMap.KeyFits(key);
  }

  /** Queried at the moment of a successful log, the param is never time
      available, whatever the cooldown is set to, zero included. */
  lemma NotAvailableRightAfterLog(s: State, env: Env, key: string, limit: u64)
    requires IsManagerCanister(s, env.caller) && key in s.params ==> s.params[key].count < U32_MAX
    requires LogParamUsage(s, env, key).Success?
    ensures
      var s' := LogParamUsage(s, env, key).value.0;
      !IsParamTimeAvailable(s'.(canister := s'.canister.(timerLimit := limit)), env, key)
  {
  }

  /** After a log at time `t`, a later query at `t'` reports the param
      available exactly when more than `timerLimit` has passed. */
  lemma AvailableAfterCooldown(s: State, env: Env, key: string, later: Env)
    requires IsManagerCanister(s, env.caller) && key in s.params ==> s.params[key].count < U32_MAX
    requires LogParamUsage(s, env, key).Success?
    requires later.now >= env.now
    ensures IsParamTimeAvailable(LogParamUsage(s, env, key).value.0, later, key)
            <==> later.now - env.now > s.canister.timerLimit
  {
  }

  /** Once a controller sets the cooldown, every stored param's
      availability is judged against the new limit. */
  lemma TimerLimitGovernsAvailability(s: State, admin: Env, limit: u64, env: Env, key: string)
    requires IsController(admin)
    requires key in s.params && env.now >= s.params[key].lastUse
    ensures var s' := SetTimerLimit(s, admin, limit).value.0;
      IsParamTimeAvailable(s', env, key) <==> env.now - s.params[key].lastUse > limit
  {
  }

  /** The `isController` query answers exactly the question the
      controller-only updates gate on: a caller it reports true for passes
      `setTimerLimit`, `editManagerCanister` and `whitelistParam`'s gate, and
      one it reports false for is refused by each with "Access denied". */
  lemma ControllerQueryIsAdminGate(s: State, env: Env, limit: u64, principal: string, enabled: bool, key: string, value: Param)
    ensures IsController(env) <==> SetTimerLimit(s, env, limit).Success?
    ensures IsController(env) <==> EditManagerCanister(s, env, principal, enabled).Success?
    ensures !IsController(env) <==> WhitelistParam(s, env, key, value) == Failure(AccessDenied)
    ensures !IsController(env) ==> Message(WhitelistParam(s, env, key, value).error) == "Access denied"
  {
  }

  /** A whitelist by a controller is visible to every query on that key. */
  lemma WhitelistThenQuery(s: State, env: Env, key: string, value: Param)
    requires WhitelistParam(s, env, key, value).Success?
    ensures var s' := WhitelistParam(s, env, key, value).value.0;
      && GetParam(s', key) == Some(value)
      && IsParamWhitelisted(s', key) == value.isWhitelisted
  {
  }

  /** In the installed state nothing is whitelisted and nobody is a manager. */
  lemma InitIsEmpty(key: string, principal: string)
    ensures GetParam(Init, key) == None
    ensures !IsParamWhitelisted(Init, key)
    ensures !IsManagerCanister(Init, principal)
    ensures Valid(Init)
  {
  }
}
