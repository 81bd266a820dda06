/** The hook registry built by `init` (src/package/init.ts): for each
    lifecycle phase, the modules that contribute a hook for it, in module
    order. A module's hook is identified by the module's index. */
module Hooks {

  datatype Phase = Create | Update | Remove | Destroy | Pre | Post

  /** The phase list `hooks`, in its declared order. */
  const Phases: seq<Phase> := [Create, Update, Remove, Destroy, Pre, Post]

  /** A module: which phases it contributes a hook for. `removeSync` says
      whether its `remove` hook calls the continuation `rm` before returning
      (the hook bodies themselves are foreign code). */
  datatype Module = Module(
    create: bool, update: bool, remove: bool, destroy: bool, pre: bool, post: bool,
    removeSync: bool)

  predicate Has(m: Module, ph: Phase)
  {
    match ph
    case Create => m.create
    case Update => m.update
    case Remove => m.remove
    case Destroy => m.destroy
    case Pre => m.pre
    case Post => m.post
  }

  /** `cbs`: the hooks registered per phase. */
  type Registry = map<Phase, seq<nat>>

  /** The indices among the first `n` modules that define a hook for `ph`, in order. */
  function DefinedUpTo(modules: seq<Module>, ph: Phase, n: nat): seq<nat>
    requires n <= |modules|
  {
    if n == 0 then []
    else DefinedUpTo(modules, ph, n - 1) + (if Has(modules[n - 1], ph) then [n - 1] else [])
  }

  function Defined(modules: seq<Module>, ph: Phase): seq<nat>
  {
    DefinedUpTo(modules, ph, |modules|)
  }

  /** The registry of every phase. */
  predicate IsRegistry(modules: seq<Module>, cbs: Registry)
  {
    forall ph :: ph in cbs && cbs[ph] == Defined(modules, ph)
  }

  lemma {:induction false} DefinedUpToSpec(modules: seq<Module>, ph: Phase, n: nat)
    requires n <= |modules|
    ensures forall j :: j in DefinedUpTo(modules, ph, n) <==> 0 <= j < n && Has(modules[j], ph)
    ensures forall a, b :: 0 <= a < b < |DefinedUpTo(modules, ph, n)| ==>
              DefinedUpTo(modules, ph, n)[a] < DefinedUpTo(modules, ph, n)[b]
    ensures forall a :: 0 <= a < |DefinedUpTo(modules, ph, n)| ==> DefinedUpTo(modules, ph, n)[a] < n
  {
    if n > 0 {
      DefinedUpToSpec(modules, ph, n - 1);
    }
  }

  /** `cbs[ph]` holds exactly the modules that define a hook for `ph`,
      each once, in module (registration) order. */
  lemma DefinedSpec(modules: seq<Module>, ph: Phase)
    ensures forall j :: j in Defined(modules, ph) <==> 0 <= j < |modules| && Has(modules[j], ph)
    ensures forall a, b :: 0 <= a < b < |Defined(modules, ph)| ==> Defined(modules, ph)[a] < Defined(modules, ph)[b]
  {
    DefinedUpToSpec(modules, ph, |modules|);
  }

  /** Every phase is in the list `hooks`. */
  lemma PhaseListed(ph: Phase)
    ensures ph in Phases
  {
    match ph
    case Create => assert Phases[0] == ph;
    case Update => assert Phases[1] == ph;
    case Remove => assert Phases[2] == ph;
    case Destroy => assert Phases[3] == ph;
    case Pre => assert Phases[4] == ph;
    case Post => assert Phases[5] == ph;
  }

  /** Having registered every listed phase is having registered every phase. */
  lemma RegistryComplete(modules: seq<Module>, cbs: Registry)
    requires forall ph :: ph in cbs
    requires forall k :: 0 <= k < |Phases| ==> cbs[Phases[k]] == Defined(modules, Phases[k])
    ensures IsRegistry(modules, cbs)
  {
    forall ph ensures cbs[ph] == Defined(modules, ph) {
      PhaseListed(ph);
      var k :| 0 <= k < |Phases| && Phases[k] == ph;
    }
  }

  /** The registration loop of `init`: for every phase, start from an empty
      list and push the hook of every module that defines one. */
  method Register(modules: seq<Module>) returns (cbs: Registry)
    ensures IsRegistry(modules, cbs)
  {
    cbs := map ph: Phase | ph in Phases :: [];
    forall ph ensures ph in cbs {
      PhaseListed(ph);
    }
    var i := 0;
    while i < |Phases|
      invariant 0 <= i <= |Phases|
      invariant forall ph :: ph in cbs
      invariant forall k :: 0 <= k < i ==> cbs[Phases[k]] == Defined(modules, Phases[k])
    {
      var ph := Phases[i];
      cbs := cbs[ph := []];
      var j := 0;
      while j < |modules|
        invariant 0 <= j <= |modules|
        invariant forall ph' :: ph' in cbs
        invariant cbs[ph] == DefinedUpTo(modules, ph, j)
        invariant forall k :: 0 <= k < i ==> cbs[Phases[k]] == Defined(modules, Phases[k])
      {
        if Has(modules[j], ph) {
          cbs := cbs[ph := cbs[ph] + [j]];
        }
        j := j + 1;
      }
      i := i + 1;
    }
    RegistryComplete(modules, cbs);
  }
}
