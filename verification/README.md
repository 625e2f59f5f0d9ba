# Sponsor canister: access control and usage metering

This project models the sponsor canister of the sponsorship canister manager
in Dafny. The canister keeps a registry of named params. Each param has a
whitelist flag, a principal flag, a last-use timestamp and a use count. The
canister also records which principals are trusted managers and a cooldown
(`timer_limit`).

Access is split into two tiers:

- **Controller tier.** The host decides who is a controller. A controller may
  whitelist a param, set the cooldown and grant or revoke the manager tier.
- **Manager tier.** A manager is any principal that the canister maps to
  `true`. A manager may log a use of an existing param.

Queries need no tier.

The model is functional. The state is an immutable datatype. Each endpoint is
a pure function that returns either `Success((new state, reply))` or
`Failure(error)`. A failure is a trap, and the host rolls back the whole call,
so it carries no state. The dispatcher `SponsorCalls.Step` makes the rollback
explicit: on a trap it returns the state from before the call. `Run` applies a
trace of calls, and the trace lemmas state what no sequence of calls can break.

The three inputs from the host become an `Env` argument to every call:

- the caller's principal as text;
- the set of principals the host reports as controllers;
- the current time.

`Sponsor.IsController` is the `isController` query over that `Env`.

The earlier, ungated iteration of the registry is the module `Registry`. It
is a plain key-to-`{last_use, count}` map with `get` and an `insert` that
returns the previous value. `Contrast` shows that a controller's
`whitelistParam` acts on the usage part of the store exactly like that
`insert`, for every key, and returns the same previous usage. Whitelisting
also writes the two flags, which the registry does not store. Anyone else is
refused by the gated version, while the open one accepts every caller.

Both canisters store their records in the same kind of stable B-tree map.
`StableMap` models it once:

- lookup;
- insert, which overwrites and returns the prior value;
- the 100-byte bound on the UTF-8 form of a key. Inserting a longer key traps.

Files:

- `wrappers.dfy`: `Option` and `Result`.
- `ints.dfy`: the `u16`, `u32` and `u64` ranges.
- `stable_map.dfy`: the storage map.
- `sponsor.dfy`: state, endpoints, and per-call properties.
- `sponsor_calls.dfy`: dispatcher, traces, and trace lemmas.
- `registry.dfy`: the early registry.
- `contrast.dfy`: the early registry compared with the gated one.

Behaviour of the source worth knowing, kept as written:

- Manager check first. A caller that is not a manager gets "Access denied"
  from `logParamUsage` even for a key with no record
  (src/sponsor/src/lib.rs:119, 129-131). Only a manager gets "Param is not
  defined" (src/sponsor/src/lib.rs:126-128).
- Strict comparison. `isParamTimeAvailable` compares with `>`
  (src/sponsor/src/lib.rs:193), so queried at the time of a log it is false
  for every `timer_limit`, including 0.
- Clock readings. `last_use` is simply set to the current time
  (src/sponsor/src/lib.rs:121). It is monotone only if the clock readings are.
  `SponsorCalls.UsageMonotone` states it under that assumption.

## Model

| member | source | states |
|---|---|---|
| Sponsor.GetParam | src/sponsor/src/lib.rs:76-79 | returns a record exactly when the key is stored, and then the stored record; an unknown key reads as None, never a trap |
| Sponsor.ControllerQueryIsAdminGate | src/sponsor/src/lib.rs:135-141 | `isController` is true exactly when the caller passes the controller gate of `setTimerLimit`, `editManagerCanister` and `whitelistParam`, and false exactly when those are refused with "Access denied" |
| Registry.Get | sponsor/src/lib.rs:76-79 | returns a record exactly when the key is stored, and then the stored record |
| StableMap.Utf8Size | src/sponsor/src/lib.rs:48-51 | a key's stored size is its UTF-8 byte length: one to four bytes per character, exactly one per ASCII character |
| StableMap.Insert | src/sponsor/src/lib.rs:57-60 | insert succeeds exactly when the key is within 100 bytes; it returns the previous value, the key then maps to the new value, every other key keeps its value, and no key disappears |
| Sponsor.WhitelistParam | src/sponsor/src/lib.rs:81-91 | a non-controller is refused with AccessDenied; for a controller the call succeeds exactly when the key fits, returns the previous record (or None), makes `getParam(key)` return the new value, and leaves other keys and the canister state unchanged |
| Sponsor.IsManagerCanister | src/sponsor/src/lib.rs:93-104 | true exactly when the principal is present and mapped to true; false both for an absent principal and for one mapped to false |
| Sponsor.LogParamUsage | src/sponsor/src/lib.rs:106-133 | a non-manager gets AccessDenied for every key; a manager gets ParamNotDefined for a key with no record; otherwise the returned record has `last_use = now`, `count + 1`, unchanged flags, is what `getParam` then returns, and other keys and the canister state are unchanged |
| Sponsor.LogIgnoresWhitelistAndCooldown | src/sponsor/src/lib.rs:119-125 | a manager's log of a stored key succeeds even when the param is not whitelisted and its cooldown has not elapsed |
| Sponsor.SetTimerLimit | src/sponsor/src/lib.rs:143-157 | succeeds exactly for a controller; the cooldown becomes the given limit while params, managers and `max_call_per_user` are unchanged; otherwise AccessDenied |
| Sponsor.EditManagerCanister | src/sponsor/src/lib.rs:159-173 | succeeds exactly for a controller; afterwards `isManagerCanister(id)` equals the given flag, every other principal's answer is unchanged, entries are only added or overwritten, and cooldown and params are unchanged; otherwise AccessDenied |
| Sponsor.IsParamWhitelisted | src/sponsor/src/lib.rs:175-184 | false for an absent key, otherwise the record's whitelist flag |
| Sponsor.IsParamTimeAvailable | src/sponsor/src/lib.rs:186-199 | false for an absent key; otherwise true exactly when strictly more than `timer_limit` has passed since `last_use` |
| Sponsor.NotAvailableRightAfterLog | src/sponsor/src/lib.rs:193 | queried at the time of a successful log, the param is not time available for any `timer_limit`, zero included |
| Sponsor.AvailableAfterCooldown | src/sponsor/src/lib.rs:121 | after a log at time t, a query at a later time t' is true exactly when t' - t exceeds the cooldown |
| Sponsor.TimerLimitGovernsAvailability | src/sponsor/src/lib.rs:154 | after a controller sets the cooldown, every stored param's availability is judged against the new limit |
| Sponsor.WhitelistThenQuery | src/sponsor/src/lib.rs:76-91 | after a controller's whitelist, `getParam` returns the stored value and `isParamWhitelisted` returns its flag |
| Sponsor.InitIsEmpty | src/sponsor/src/lib.rs:63-74 | in the installed state no key has a record or is whitelisted, no principal is a manager, and the key bound holds |
| SponsorCalls.Step | src/sponsor/src/lib.rs:76-199 | a trapped call leaves the state exactly as before; a query never changes the state and never traps; a call traps with "Access denied" exactly when a non-controller calls a controller-only update or a non-manager logs usage, and with "Param is not defined" exactly when a manager logs an unknown key |
| SponsorCalls.StrangerLogAtCountLimit | src/sponsor/src/lib.rs:129-131 | a non-manager's log of a record whose count is at the u32 maximum is within the model and is refused with "Access denied", leaving the state unchanged |
| SponsorCalls.StepInvariants | src/sponsor/src/lib.rs:76-199 | one call keeps every key within the storage bound, removes no param and no manager entry, and never changes `max_call_per_user` |
| SponsorCalls.StepWithoutController | src/sponsor/src/lib.rs:143-173 | a call by a non-controller leaves the canister state, the set of params and every record's flags unchanged; a record either stays the same or gains one use at the call's time |
| SponsorCalls.RunPreservesValid | src/sponsor/src/lib.rs:57-60 | every trace from a valid state ends in a state whose keys all fit the storage bound |
| SponsorCalls.RunOnlyGrows | src/sponsor/src/lib.rs:167-171 | no trace removes a param or a manager entry, and none changes `max_call_per_user` |
| SponsorCalls.RunWithoutController | src/sponsor/src/lib.rs:81-91 | in a trace with no controller calls, managers, cooldown, the set of params and all flags stay fixed |
| SponsorCalls.StrangersChangeNothing | src/sponsor/src/lib.rs:129-131 | a trace whose callers are neither controllers nor managers leaves the state exactly as it was |
| SponsorCalls.NeverWhitelistedIsAbsent | src/sponsor/src/lib.rs:81-91 | a key absent at the start stays absent, and not whitelisted, through any trace in which no controller asks to whitelist it; requests from non-controllers create no record |
| SponsorCalls.UsageMonotone | src/sponsor/src/lib.rs:121-122 | without controller calls, a record's count never decreases, and its last use stays above any floor that every clock reading respects |
| SponsorCalls.RepeatedLogs | src/sponsor/src/lib.rs:119-125 | n logs of a stored key by a manager all succeed, raise the count by exactly n, leave the last clock reading as `last_use`, and keep the flags and the canister state |
| SponsorCalls.QuotaScenario | src/sponsor/src/lib.rs:81-173 | whitelisting "gpu-quota", registering "svc-A" and three logs at 10, 20 and 30 end with count 3 and last use 30, and the param is then not time available |
| Registry.Insert | sponsor/src/lib.rs:81-85 | `insert` fails only for a key over the bound, whoever calls it; it returns the previous value, the key then maps to the new value, and every other key is unchanged |
| Registry.UntouchedKey | sponsor/src/lib.rs:84 | a sequence of inserts that never names a key leaves that key's value unchanged |
| Registry.NeverInsertedIsNone | sponsor/src/lib.rs:76-79 | from the empty store, `get` of a key no insert named is None |
| Registry.LastInsertWins | sponsor/src/lib.rs:76-85 | after any inserts, a final insert of a fitting key makes `get` return that value |
| Contrast.WhitelistRefinesInsert | src/sponsor/src/lib.rs:81-91 | for a controller and any key, including one over the bound, the gated whitelist succeeds exactly when the open insert does, returns the same previous usage and leaves the same usage store; for anyone else it is AccessDenied |

## Left out

- Sponsor.LogParamUsage: requires the stored `count` to be below 2^32-1 when the caller is a manager and the key is stored, the only case that reaches the increment. It does not model what the source's `count += 1` does at the `u32` maximum, which is a wrap or a panic depending on build settings.
- Sponsor.IsParamTimeAvailable: requires `now >= last_use`. It does not model the source's `u64` subtraction underflow when the clock reads earlier than the stored time.
- SponsorCalls.Step: requires the same two integer guards (`InRange`), and traces must meet them at every step (`Admissible`).
- Candid encoding and the `Storable` implementations are left out because they are serialisation inside foreign libraries. The 100-byte bound on values is also left out, because a four-field `Param` always encodes well below it. Only the key bound is kept, measured as UTF-8 length.
- The text of the storage library's panic is not known. `Sponsor.Message` gives a placeholder for that one error.
- The storage plumbing is replaced by a Dafny map plus a state record. This covers the memory manager, the thread-local cells and the stable B-tree. Canister upgrades are not modelled. In the source the administrative state lives in ordinary heap memory, so it would not survive an upgrade, while the params map would.
- The host calls `caller()`, `is_controller()` and `time()` become the `Env` fields `caller`, `controllers` and `now`.
- Diagnostic `println!` output and `ManualReply` wrapping are left out because they are I/O only.
- `max_call_per_user` is never read by any endpoint, so no enforcement is modelled. `SponsorCalls.RunOnlyGrows` shows that no call changes it.
- `get_self` in both canisters only echoes the caller, so it is not modelled. `greet` in the test canister is a format string, so it is not modelled either.
- The cross-canister relay that calls `isController` and `logParamUsage` remotely is not part of this model. It involves asynchronous inter-canister calls.
