/**
  `InjectionToken<T>` (src/lib/di/injection-token.ts): a described key for
  the service cache, with an optional factory. The only factory in the
  library is `CANCEL_MANAGER`'s `() => new CancelManager()`
  (src/lib/algorithms/services/cancel-manager.ts), so factories are
  enumerated rather than modelled as closures.
 */
module InjectionTokens {
  import opened Wrappers
  import CancelManagers

  datatype Factory = NoFactory | NewCancelManager

  datatype InjectionToken = InjectionToken(desc: Option<string>, factory: Factory) {

    /** `create()`: a fresh `CancelManager` on every call when the token has
        the factory, `undefined` without one. */
    method Create() returns (r: Option<CancelManagers.CancelManager>)
      ensures r.None? <==> factory.NoFactory?
      ensures r.Some? ==> fresh(r.value) && !r.value.IsCancelling()
    {
      if factory.NewCancelManager? {
        var m := new CancelManagers.CancelManager();
        r := Some(m);
      } else {
        r := None;
      }
    }

    /** The text a template literal gives `desc`: `undefined` when absent. */
    function Description(): (s: string)
      ensures desc.Some? ==> s == desc.value
      ensures desc.None? ==> s == "undefined"
    {
      if desc.Some? then desc.value else "undefined"
    }

    /** `toString()`: `InjectionToken ` followed by the description. */
    function ToString(): (s: string)
      ensures |s| == 15 + |Description()|
      ensures s[..15] == "InjectionToken " && s[15..] == Description()
    {
      "InjectionToken " + Description()
    }
  }

  /** `CANCEL_MANAGER` (cancel-manager.ts, line 10). */
  const CancelManagerToken: InjectionToken := InjectionToken(Some("CANCEL_MANAGER"), NewCancelManager)

  /** Two tokens print alike exactly when their descriptions read alike. */
  lemma {:induction false} ToStringInjective(a: InjectionToken, b: InjectionToken)
    ensures a.ToString() == b.ToString() <==> a.Description() == b.Description()
  {
    if a.ToString() == b.ToString() {
      assert a.Description() == a.ToString()[15..] == b.ToString()[15..] == b.Description();
    }
  }
}
