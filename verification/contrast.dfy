/** How the gated whitelist relates to the earlier open registry: for a
    controller, `whitelistParam` acts on the stored records exactly as the
    registry's `insert` acts on their usage part; for anyone else it is
    refused, where the registry would have accepted. */
module Contrast {

  import opened Wrappers
  import StableMap
  import Sponsor
  import Registry

  /** The usage part of a gated record, as the earlier registry stores it. */
  function Usage(p: Sponsor.Param): Registry.Param {
    Registry.Param(p.lastUse, p.count)
  }

  function PreviousUsage(prev: Option<Sponsor.Param>): Option<Registry.Param> {
    match prev
    case None => None
    case Some(p) => Some(Usage(p))
  }

  function UsageStore(params: map<string, Sponsor.Param>): Registry.Store {
    map k | k in params :: Usage(params[k])
  }

  /** For every key, including one over the storage bound: a controller's
      whitelist succeeds exactly when the open insert does, both hand back
      the same previous usage, and both leave the same usage store. Anyone
      else is refused before the store is touched. */
  lemma WhitelistRefinesInsert(s: Sponsor.State, env: Sponsor.Env, key: string, value: Sponsor.Param)
    ensures Sponsor.IsController(env) ==>
              (Sponsor.WhitelistParam(s, env, key, value).Success?
               <==> Registry.Insert(UsageStore(s.params), key, Usage(value)).Success?)
    ensures Sponsor.IsController(env) && Sponsor.WhitelistParam(s, env, key, value).Success? ==>
              && UsageStore(Sponsor.WhitelistParam(s, env, key, value).value.0.params)
                 == Registry.Insert(UsageStore(s.params), key, Usage(value)).value.0
              && PreviousUsage(Sponsor.WhitelistParam(s, env, key, value).value.1)
                 == Registry.Insert(UsageStore(s.params), key, Usage(value)).value.1
    ensures !Sponsor.IsController(env) ==>
              Sponsor.WhitelistParam(s, env, key, value) == Failure(Sponsor.AccessDenied)
  {
    if Sponsor.IsController(env) && Sponsor.WhitelistParam(s, env, key, value).Success? {
      var s' := Sponsor.WhitelistParam(s, env, key, value).value.0;
      assert s'.params == s.params[key := value];
    }
  }
}
