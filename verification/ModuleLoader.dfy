/** The recursive module loader: requirements first, three activation stages, and no cycles. */
module ModuleLoader {
  import opened Common

  type Name = string
  type Server = string

  datatype Stage = Options | Init | Provides
  datatype Reason =
    | NotAllowed
    | Circular(cycle: seq<Name>)
    | Requirements(notAllowed: set<Name>, failed: set<Name>)
    | StageFailed(stage: Stage)

  /** An importable plugin: its REQUIRES, and the first stage that raises, if any does. */
  datatype Plugin = Plugin(needs: seq<Name>, fault: Option<Stage>)
  type Catalog = map<Name, Plugin>

  // Which modules should be active -------------------------------------------------------

  predicate Eligible(catalog: Catalog, allowed: set<Name>, n: Name) {
    n in allowed && n in catalog && catalog[n].fault.None?
  }

  ghost predicate Satisfied(catalog: Catalog, n: Name, s: set<Name>)
    requires n in catalog
  {
    forall r :: r in catalog[n].needs ==> r in s
  }

  /** An order of activation in which every module comes after all it requires. */
  ghost predicate Derivation(catalog: Catalog, allowed: set<Name>, d: seq<Name>) {
    forall i :: 0 <= i < |d| ==>
      Eligible(catalog, allowed, d[i]) && forall r :: r in catalog[d[i]].needs ==> r in d[..i]
  }

  ghost predicate Loadable(catalog: Catalog, allowed: set<Name>, n: Name) {
    exists d :: Derivation(catalog, allowed, d) && n in d
  }

  /** What a reason says: that the module is not allowed; that it requires itself along a chain; which of
      its requirements are not allowed and which cannot be loaded; or at which stage it fails, though it
      is allowed and has all that it requires. */
  ghost predicate True(catalog: Catalog, allowed: set<Name>, n: Name, reason: Reason) {
    match reason
    case NotAllowed => n !in allowed
    case Circular(cycle) =>
      cycle != [] && cycle[|cycle| - 1] == n && n in cycle[..|cycle| - 1] && Chain(catalog, cycle)
    case Requirements(notAllowed, failed) =>
      && n in catalog && n in allowed && notAllowed + failed != {}
      && (forall r :: r in notAllowed <==> r in catalog[n].needs && r !in allowed)
      && (forall r :: r in failed <==> r in catalog[n].needs && r in allowed && !Loadable(catalog, allowed, r))
    case StageFailed(stage) =>
      && n in catalog && n in allowed && catalog[n].fault == Some(stage)
      && forall r :: r in catalog[n].needs ==> Loadable(catalog, allowed, r)
  }

  ghost predicate AllTrue(catalog: Catalog, allowed: set<Name>, errors: map<Name, Reason>) {
    forall n :: n in errors ==> True(catalog, allowed, n, errors[n])
  }

  // What is tried ------------------------------------------------------------------------

  /** A chain of requirements of allowed modules that import, away from some modules. */
  ghost predicate Path(catalog: Catalog, allowed: set<Name>, avoid: set<Name>, path: seq<Name>) {
    && path != [] && (forall i :: 0 <= i < |path| ==> path[i] !in avoid)
    && forall i :: 0 <= i < |path| - 1 ==>
         path[i] in allowed && path[i] in catalog && path[i + 1] in catalog[path[i]].needs
  }

  ghost predicate Reaches(catalog: Catalog, allowed: set<Name>, avoid: set<Name>, from: Name, to: Name) {
    exists path :: Path(catalog, allowed, avoid, path) && path[0] == from && path[|path| - 1] == to
  }

  /** The loadable modules that trying some modules comes to. */
  ghost predicate Due(catalog: Catalog, allowed: set<Name>, avoid: set<Name>, roots: seq<Name>, n: Name) {
    Loadable(catalog, allowed, n) && exists r :: r in roots && Reaches(catalog, allowed, avoid, r, n)
  }

  ghost predicate Gained(catalog: Catalog, allowed: set<Name>, avoid: set<Name>, roots: seq<Name>,
                         before: seq<Name>, after: seq<Name>) {
    forall n :: n in after <==> n in before || Due(catalog, allowed, avoid, roots, n)
  }

  /** Modules are tried in turn: what the first ones come to is active before what only the others do. */
  ghost predicate InTurn(catalog: Catalog, allowed: set<Name>, avoid: set<Name>, roots: seq<Name>,
                         before: seq<Name>, after: seq<Name>) {
    forall i :: 0 <= i <= |roots| ==>
      exists k: nat :: k <= |after| && Gained(catalog, allowed, avoid, roots[..i], before, after[..k])
  }

  // The registry and the loader ------------------------------------------------------------

  function Added(active: seq<Name>, name: Name): seq<Name> {
    if name in active then active else active + [name]
  }

  class Registry {
    const catalog: Catalog
    var imported: set<Name>
    var importErrors: set<Name>
    var active: map<Server, seq<Name>>  // in order of activation
    var activationErrors: map<Server, map<Name, Reason>>
    var activated: set<Name>

    constructor (catalog: Catalog)
      ensures this.catalog == catalog && Cached()
    {
      this.catalog := catalog;
      imported, importErrors, active, activationErrors, activated := {}, {}, map[], map[], {};
    }

    /** The import cache never contradicts what an import would do. */
    ghost predicate Cached()
      reads this
    {
      imported <= catalog.Keys && importErrors !! catalog.Keys
    }

    method ImportPlugin(name: Name) returns (plugin: Option<Plugin>)
      requires Cached()
      modifies this`imported, this`importErrors
      ensures Cached() && old(importErrors) <= importErrors
      ensures plugin == if name in catalog then Some(catalog[name]) else None
      ensures plugin.None? ==> name in importErrors
    {
      if name in imported {
        return Some(catalog[name]);
      }
      if name in importErrors {
        return None;
      }
      if name in catalog {
        imported := imported + {name};
        return Some(catalog[name]);
      }
      importErrors := importErrors + {name};
      return None;
    }

    function ActiveModules(server: Server): seq<Name>
      reads this
    {
      if server in active then active[server] else []
    }

    function ErrorsOf(server: Server): map<Name, Reason>
      reads this
    {
      if server in activationErrors then activationErrors[server] else map[]
    }

    method ClearServer(server: Server)
      modifies this`active, this`activationErrors
      ensures active == old(active)[server := []]
      ensures activationErrors == old(activationErrors)[server := map[]]
    {
      active := active[server := []];
      activationErrors := activationErrors[server := map[]];
    }

    /** A module that is active already keeps its place. */
    method Activate(server: Server, name: Name)
      modifies this`active, this`activated
      ensures active == old(active)[server := Added(old(ActiveModules(server)), name)]
      ensures activated == old(activated) + {name}
    {
      active := active[server := Added(ActiveModules(server), name)];
      activated := activated + {name};
    }

    /** The first reason recorded for a name is kept. */
    method RecordActivationError(server: Server, name: Name, reason: Reason)
      modifies this`activationErrors
      ensures activationErrors == old(activationErrors)[server :=
        if name in old(ErrorsOf(server)) then old(ErrorsOf(server)) else old(ErrorsOf(server))[name := reason]]
    {
      var errors := ErrorsOf(server);
      activationErrors := activationErrors[server := if name in errors then errors else errors[name := reason]];
    }
  }

  /** `parents` is the chain of modules being loaded: each requires the next. */
  ghost predicate Chain(catalog: Catalog, path: seq<Name>) {
    forall i :: 0 <= i < |path| - 1 ==> path[i] in catalog && path[i + 1] in catalog[path[i]].needs
  }

  ghost predicate Distinct(path: seq<Name>) {
    forall i, j :: 0 <= i < j < |path| ==> path[i] != path[j]
  }

  ghost function Names(path: seq<Name>): set<Name> {
    set n | n in path
  }

  class Loader {
    const server: Server
    const registry: Registry
    var allowed: set<Name>

    constructor (server: Server, registry: Registry)
      ensures this.server == server && this.registry == registry
    {
      this.server, this.registry := server, registry;
      allowed := {};
    }

    /** The active modules are in an order of activation, and every error that is recorded is true. */
    ghost predicate Valid()
      reads this, registry
    {
      && registry.Cached()
      && Derivation(registry.catalog, allowed, registry.ActiveModules(server))
      && Distinct(registry.ActiveModules(server))
      && AllTrue(registry.catalog, allowed, registry.ErrorsOf(server))
    }

    /** What one load may change: this server's modules and errors, growing both. */
    twostate predicate Grown()
      reads this, registry
    {
      && old(registry.ActiveModules(server)) <= registry.ActiveModules(server)
      && old(registry.ErrorsOf(server)).Keys <= registry.ErrorsOf(server).Keys
      && old(registry.importErrors) <= registry.importErrors
      && (forall other :: other != server ==> registry.ActiveModules(other) == old(registry.ActiveModules(other)))
      && (forall other :: other != server ==> registry.ErrorsOf(other) == old(registry.ErrorsOf(other)))
    }

    ghost predicate HasError(name: Name)
      reads this, registry
    {
      name in registry.importErrors || name in registry.ErrorsOf(server)
    }

    /** A full reload: afterwards exactly the loadable modules are active, whatever the order of
        configuration, and every allowed module that is not active has an error recorded, which is true. */
    method Reload(configured: seq<Name>, denied: set<Name>)
      requires registry.Cached()
      modifies this, registry
      ensures Valid() && allowed == Names(configured) - denied
      ensures forall n :: n in registry.ActiveModules(server) <==> Loadable(registry.catalog, allowed, n)
      ensures forall n :: n in allowed ==> (n in registry.ActiveModules(server) <==> !HasError(n))
      ensures AllTrue(registry.catalog, allowed, registry.ErrorsOf(server))
      ensures InTurn(registry.catalog, allowed, {}, configured, [], registry.ActiveModules(server))
      ensures forall other :: other != server ==>
        registry.ActiveModules(other) == old(registry.ActiveModules(other)) &&
        registry.ErrorsOf(other) == old(registry.ErrorsOf(other))
    {
      hide Chain, Loadable, AllTrue, Derivation, InTurn, Gained, Distinct;
      NoErrors(registry.catalog);
      registry.ClearServer(server);
      allowed := (set n | n in configured) - denied;
      NoTurns(registry.catalog, allowed, {}, configured[..0], []);
      for i := 0 to |configured|
        invariant Valid() && allowed == Names(configured) - denied
        invariant forall j :: 0 <= j < i && configured[j] in allowed ==>
          configured[j] in registry.ActiveModules(server) || HasError(configured[j])
        invariant InTurn(registry.catalog, allowed, {}, configured[..i], [], registry.ActiveModules(server))
        invariant Gained(registry.catalog, allowed, {}, configured[..i], [], registry.ActiveModules(server))
        invariant forall other :: other != server ==>
          registry.ActiveModules(other) == old(registry.ActiveModules(other)) &&
          registry.ErrorsOf(other) == old(registry.ErrorsOf(other))
      {
        var name := configured[i];
        ghost var before := registry.ActiveModules(server);
        assert configured[..i + 1] == configured[..i] + [name];
        if name in allowed {
          ChainOfOne(registry.catalog, name);
          var ok := LoadModule(name, []);
        } else {
          NothingTried(registry.catalog, allowed, {}, name, before);
        }
        NextTurn(registry.catalog, allowed, {}, configured[..i], name, [], before, registry.ActiveModules(server));
      }
      assert configured[..|configured|] == configured;
      forall n
        ensures n in registry.ActiveModules(server) <==> Loadable(registry.catalog, allowed, n)
        ensures n in registry.ActiveModules(server) ==> !HasError(n)
      {
        Settled(configured, n);
      }
    }

    /** Once all that is configured has been tried. */
    lemma Settled(configured: seq<Name>, n: Name)
      requires Valid() && allowed <= Names(configured)
      requires Gained(registry.catalog, allowed, {}, configured, [], registry.ActiveModules(server))
      ensures n in registry.ActiveModules(server) <==> Loadable(registry.catalog, allowed, n)
      ensures n in registry.ActiveModules(server) ==> !HasError(n)
    {
      if n in registry.ActiveModules(server) {
        ActiveLoadable(n);
      }
      LoadableAllowed(registry.catalog, allowed, n);
      if n in configured {
        DueItself(registry.catalog, allowed, configured, n, registry.ActiveModules(server));
      }
      if n in registry.ErrorsOf(server) {
        ErrorsAreOfUnloadable(n);
      }
      hide Loadable, Derivation, Distinct, AllTrue, Gained;
    }

    lemma ActiveLoadable(name: Name)
      requires Valid() && name in registry.ActiveModules(server)
      ensures name in allowed && Loadable(registry.catalog, allowed, name)
    {
    }

    method Import(name: Name) returns (plugin: Option<Plugin>)
      requires Valid()
      modifies registry`imported, registry`importErrors
      ensures Valid() && Grown() && registry.ActiveModules(server) == old(registry.ActiveModules(server))
      ensures plugin == if name in registry.catalog then Some(registry.catalog[name]) else None
      ensures plugin.None? ==> HasError(name)
    {
      hide AllTrue, Derivation, Loadable;
      plugin := registry.ImportPlugin(name);
    }

    method Refuse(name: Name, reason: Reason)
      requires Valid() && True(registry.catalog, allowed, name, reason)
      modifies registry`activationErrors
      ensures Valid() && Grown() && HasError(name) && !Loadable(registry.catalog, allowed, name)
      ensures registry.ActiveModules(server) == old(registry.ActiveModules(server))
    {
      TrueIsUnloadable(registry.catalog, allowed, name, reason);
      hide Loadable, Derivation, True;
      assert AllTrue(registry.catalog, allowed, registry.ErrorsOf(server)[name := reason]);
      registry.RecordActivationError(server, name, reason);
    }

    method Admit(name: Name)
      requires Valid() && Eligible(registry.catalog, allowed, name)
      requires forall r :: r in registry.catalog[name].needs ==> r in registry.ActiveModules(server)
      modifies registry`active, registry`activated
      ensures Valid() && Grown() && Loadable(registry.catalog, allowed, name)
      ensures registry.ActiveModules(server) == Added(old(registry.ActiveModules(server)), name)
    {
      hide Loadable, Derivation, AllTrue;
      ActivateKeeps(registry.catalog, allowed, registry.ActiveModules(server), name);
      registry.Activate(server, name);
    }

    /** Loads one module: it succeeds exactly for the loadable ones, whatever chain of modules it
        is loaded for. */
    method LoadModule(name: Name, parents: seq<Name>) returns (ok: bool)
      requires Valid()
      requires Chain(registry.catalog, parents + [name]) && Distinct(parents) && Names(parents) <= allowed
      modifies registry
      ensures Valid() && Grown()
      ensures ok <==> Loadable(registry.catalog, allowed, name)
      ensures ok ==> name in registry.ActiveModules(server)
      ensures !ok ==> HasError(name)
      ensures Gained(registry.catalog, allowed, Names(parents), [name],
                     old(registry.ActiveModules(server)), registry.ActiveModules(server))
      ensures Tried(name, parents, old(registry.ActiveModules(server)))
      decreases allowed - Names(parents), 0
    {
      hide Derivation, Loadable, Chain, Distinct, Valid, True, Gained, InTurn;
      ghost var before := registry.ActiveModules(server);
      if name in registry.ActiveModules(server) {
        ActiveLoadable(name);
        ActiveTried(name, Names(parents));
        return true;
      }
      if name !in allowed || name in parents || name !in registry.catalog {
        NothingTried(registry.catalog, allowed, Names(parents), name, before);
      }
      if name !in allowed {
        NotAllowedIsTrue(registry.catalog, allowed, name);
        Refuse(name, Reason.NotAllowed);
        return false;
      }
      if name in parents {
        CircularIsTrue(registry.catalog, allowed, parents, name);
        Refuse(name, Circular(parents + [name]));
        return false;
      }
      var plugin := Import(name);
      if plugin.None? {
        NotEligible(registry.catalog, allowed, name);
        return false;
      }
      OnChain(parents, name);
      var notAllowed, failed := LoadRequirements(name, plugin.value, parents + [name]);
      ghost var mid := registry.ActiveModules(server);
      ok := Conclude(name, plugin.value, notAllowed, failed);
      ModuleTried(registry.catalog, allowed, Names(parents), name, before, mid, registry.ActiveModules(server), ok);
    }

    /** A module that was not active yet comes right behind what its requirements, in turn, came to. */
    ghost predicate Tried(name: Name, parents: seq<Name>, before: seq<Name>)
      reads this, registry
    {
      name in allowed && name in registry.catalog && name !in parents && name !in before ==>
        var after := registry.ActiveModules(server);
        var mid := if name in after && after != [] then after[..|after| - 1] else after;
        && (name in after ==> after == mid + [name])
        && InTurn(registry.catalog, allowed, Names(parents) + {name}, registry.catalog[name].needs, before, mid)
    }

    lemma ActiveTried(name: Name, avoid: set<Name>)
      requires Valid() && name in registry.ActiveModules(server)
      ensures Gained(registry.catalog, allowed, avoid, [name],
                     registry.ActiveModules(server), registry.ActiveModules(server))
    {
      var d := registry.ActiveModules(server);
      forall n | Due(registry.catalog, allowed, avoid, [name], n) ensures n in d {
        ActiveReaches(registry.catalog, allowed, avoid, d, name, n);
      }
    }

    /** The rest of a load, once the requirements have been tried. */
    method Conclude(name: Name, plugin: Plugin, notAllowed: set<Name>, failed: set<Name>) returns (ok: bool)
      requires Valid() && name in allowed && name in registry.catalog && plugin == registry.catalog[name]
      requires forall r :: r in notAllowed <==> r in plugin.needs && r !in allowed
      requires forall r :: r in failed <==> r in plugin.needs && r in allowed && !Loadable(registry.catalog, allowed, r)
      requires notAllowed + failed == {} ==> forall r :: r in plugin.needs ==> r in registry.ActiveModules(server)
      modifies registry`active, registry`activated, registry`activationErrors
      ensures Valid() && Grown()
      ensures ok <==> Loadable(registry.catalog, allowed, name)
      ensures registry.ActiveModules(server) ==
        if ok then Added(old(registry.ActiveModules(server)), name) else old(registry.ActiveModules(server))
      ensures !ok ==> HasError(name)
    {
      hide Derivation, Loadable, Distinct, Valid;
      if notAllowed != {} || failed != {} {
        Refuse(name, Requirements(notAllowed, failed));
        return false;
      }
      if plugin.fault.Some? {
        forall r | r in plugin.needs ensures Loadable(registry.catalog, allowed, r) {
          ActiveLoadable(r);
        }
        Refuse(name, StageFailed(plugin.fault.value));
        return false;
      }
      Admit(name);
      return true;
    }

    /** An error that is recorded is of a module that cannot be loaded. */
    lemma ErrorsAreOfUnloadable(name: Name)
      requires Valid() && name in registry.ErrorsOf(server)
      ensures !Loadable(registry.catalog, allowed, name)
    {
      TrueIsUnloadable(registry.catalog, allowed, name, registry.ErrorsOf(server)[name]);
      hide Loadable, Derivation;
    }

    /** Loads what a module requires, going on after a failure. It reports exactly the
        requirements that are not allowed and those that are allowed but cannot be loaded. */
    method LoadRequirements(name: Name, plugin: Plugin, parents: seq<Name>)
      returns (notAllowed: set<Name>, failed: set<Name>)
      requires Valid()
      requires Chain(registry.catalog, parents) && Distinct(parents) && Names(parents) <= allowed
      requires parents != [] && parents[|parents| - 1] == name
      requires name in registry.catalog && plugin == registry.catalog[name]
      modifies registry
      ensures Valid() && Grown()
      ensures forall r :: r in notAllowed <==> r in plugin.needs && r !in allowed
      ensures forall r :: r in failed <==> r in plugin.needs && r in allowed && !Loadable(registry.catalog, allowed, r)
      ensures notAllowed + failed == {} ==>
        forall r :: r in plugin.needs ==> r in registry.ActiveModules(server)
      ensures InTurn(registry.catalog, allowed, Names(parents), plugin.needs,
                     old(registry.ActiveModules(server)), registry.ActiveModules(server))
      ensures Gained(registry.catalog, allowed, Names(parents), plugin.needs,
                     old(registry.ActiveModules(server)), registry.ActiveModules(server))
      decreases allowed - Names(parents), 1
    {
      hide Loadable, Valid, Distinct, InTurn, Gained, Derivation;
      notAllowed, failed := {}, {};
      ghost var first := registry.ActiveModules(server);
      NoTurns(registry.catalog, allowed, Names(parents), plugin.needs[..0], first);
      for i := 0 to |plugin.needs|
        invariant Valid() && Grown()
        invariant forall r :: r in notAllowed <==> r in plugin.needs[..i] && r !in allowed
        invariant forall r :: r in failed <==>
          r in plugin.needs[..i] && r in allowed && !Loadable(registry.catalog, allowed, r)
        invariant forall r :: r in plugin.needs[..i] && r !in notAllowed + failed ==>
          r in registry.ActiveModules(server)
        invariant InTurn(registry.catalog, allowed, Names(parents), plugin.needs[..i],
                         first, registry.ActiveModules(server))
        invariant Gained(registry.catalog, allowed, Names(parents), plugin.needs[..i],
                         first, registry.ActiveModules(server))
      {
        var requirement := plugin.needs[i];
        ghost var before := registry.ActiveModules(server);
        assert plugin.needs[..i + 1] == plugin.needs[..i] + [requirement];
        if requirement in registry.ActiveModules(server) {
          ActiveLoadable(requirement);
          ActiveTried(requirement, Names(parents));
          NextTurn(registry.catalog, allowed, Names(parents), plugin.needs[..i], requirement, first, before, before);
          continue;
        }
        if requirement !in allowed {
          NothingTried(registry.catalog, allowed, Names(parents), requirement, before);
          NextTurn(registry.catalog, allowed, Names(parents), plugin.needs[..i], requirement, first, before, before);
          notAllowed := notAllowed + {requirement};
          continue;
        }
        var ok := LoadModule(requirement, parents);
        NextTurn(registry.catalog, allowed, Names(parents), plugin.needs[..i], requirement, first, before,
                 registry.ActiveModules(server));
        if !ok {
          failed := failed + {requirement};
        }
      }
      assert plugin.needs[..|plugin.needs|] == plugin.needs;
    }
  }

  // Properties of activation orders ---------------------------------------------------------

  lemma LoadableAllowed(catalog: Catalog, allowed: set<Name>, n: Name)
    ensures Loadable(catalog, allowed, n) ==> n in allowed && n in catalog
  {
  }

  lemma NoErrors(catalog: Catalog)
    ensures forall allowed :: AllTrue(catalog, allowed, map[]) && Derivation(catalog, allowed, [])
    ensures Distinct([]) && Names([]) == {}
  {
  }

  lemma ChainOfOne(catalog: Catalog, name: Name)
    ensures Chain(catalog, [] + [name])
  {
  }

  lemma NotEligible(catalog: Catalog, allowed: set<Name>, n: Name)
    requires !Eligible(catalog, allowed, n)
    ensures !Loadable(catalog, allowed, n)
  {
  }

  lemma UnmetRequirement(catalog: Catalog, allowed: set<Name>, n: Name, unmet: set<Name>)
    requires n in catalog && unmet != {}
    requires forall r :: r in unmet ==> r in catalog[n].needs && (r !in allowed || !Loadable(catalog, allowed, r))
    ensures !Loadable(catalog, allowed, n)
  {
    var r :| r in unmet;
    NeedsLoadable(catalog, allowed, n, r);
  }

  lemma NeedsLoadable(catalog: Catalog, allowed: set<Name>, n: Name, r: Name)
    requires n in catalog && r in catalog[n].needs
    ensures Loadable(catalog, allowed, n) ==> r in allowed && Loadable(catalog, allowed, r)
  {
  }

  lemma ActivateKeeps(catalog: Catalog, allowed: set<Name>, d: seq<Name>, n: Name)
    requires Derivation(catalog, allowed, d) && Eligible(catalog, allowed, n)
    requires forall r :: r in catalog[n].needs ==> r in d
    ensures Derivation(catalog, allowed, Added(d, n)) && Loadable(catalog, allowed, n)
  {
    var more := Added(d, n);
    assert forall i :: 0 <= i < |d| ==> more[..i] == d[..i];
    assert Derivation(catalog, allowed, more);
  }

  lemma OnChain(parents: seq<Name>, name: Name)
    requires Distinct(parents) && name !in parents
    ensures Distinct(parents + [name]) && Names(parents + [name]) == Names(parents) + {name}
  {
  }

  /** Along a chain of requirements, positions in an activation order go strictly down. */
  lemma {:induction false} ChainDescends(catalog: Catalog, allowed: set<Name>, d: seq<Name>, path: seq<Name>, at: nat)
    returns (k: nat)
    requires Derivation(catalog, allowed, d) && Chain(catalog, path) && path != []
    requires at < |d| && d[at] == path[0]
    ensures k + |path| - 1 <= at && d[k] == path[|path| - 1]
  {
    if |path| == 1 {
      k := at;
    } else {
      assert path[1] in catalog[path[0]].needs;
      var next: nat :| next < at && d[next] == path[1];
      k := ChainDescends(catalog, allowed, d, path[1..], next);
    }
  }

  /** Nothing on a cycle, or above one, can be loaded. */
  lemma NoCycles(catalog: Catalog, allowed: set<Name>, path: seq<Name>, i: nat, j: nat)
    requires Chain(catalog, path) && i < j < |path| && path[i] == path[j]
    ensures !Loadable(catalog, allowed, path[0])
  {
    forall d | Derivation(catalog, allowed, d) && path[0] in d ensures false {
      var at: nat :| at < |d| && d[at] == path[0];
      var start := ChainDescends(catalog, allowed, d, path[..i + 1], at);
      assert path[..i + 1][i] == path[i];
      NoLoop(catalog, allowed, d, path[i..j + 1], start);
    }
  }

  lemma {:induction false} NoLoop(catalog: Catalog, allowed: set<Name>, d: seq<Name>, loop: seq<Name>, at: nat)
    requires Derivation(catalog, allowed, d) && Chain(catalog, loop) && |loop| >= 2
    requires loop[|loop| - 1] == loop[0] && at < |d| && d[at] == loop[0]
    ensures false
    decreases at
  {
    var lower := ChainDescends(catalog, allowed, d, loop, at);
    NoLoop(catalog, allowed, d, loop, lower);
  }

  lemma CycleOnChain(catalog: Catalog, allowed: set<Name>, parents: seq<Name>, name: Name)
    requires Chain(catalog, parents + [name]) && name in parents
    ensures !Loadable(catalog, allowed, name)
  {
    var i: nat :| i < |parents| && parents[i] == name;
    var path := (parents + [name])[i..];
    NoCycles(catalog, allowed, path, 0, |path| - 1);
  }

  lemma NotAllowedIsTrue(catalog: Catalog, allowed: set<Name>, n: Name)
    requires n !in allowed
    ensures True(catalog, allowed, n, Reason.NotAllowed)
  {
  }

  lemma CircularIsTrue(catalog: Catalog, allowed: set<Name>, parents: seq<Name>, n: Name)
    requires Chain(catalog, parents + [n]) && n in parents
    ensures True(catalog, allowed, n, Circular(parents + [n]))
  {
    hide Chain;
    var cycle := parents + [n];
    assert cycle[..|cycle| - 1] == parents;
  }

  lemma TrueIsUnloadable(catalog: Catalog, allowed: set<Name>, n: Name, reason: Reason)
    requires True(catalog, allowed, n, reason)
    ensures !Loadable(catalog, allowed, n)
  {
    hide Loadable, Chain;
    match reason
    case NotAllowed => NotEligible(catalog, allowed, n);
    case Circular(cycle) =>
      assert cycle == cycle[..|cycle| - 1] + [n];
      CycleOnChain(catalog, allowed, cycle[..|cycle| - 1], n);
    case Requirements(notAllowed, failed) => UnmetRequirement(catalog, allowed, n, notAllowed + failed);
    case StageFailed(stage) => NotEligible(catalog, allowed, n);
  }

  // What is tried in turn --------------------------------------------------------------------

  /** Nothing has been tried. */
  lemma NoTurns(catalog: Catalog, allowed: set<Name>, avoid: set<Name>, none: seq<Name>, before: seq<Name>)
    requires none == []
    ensures InTurn(catalog, allowed, avoid, none, before, before)
    ensures Gained(catalog, allowed, avoid, none, before, before)
  {
    hide Loadable, Reaches;
    assert before[..|before|] == before && none[..0] == none;
  }

  /** One more module has been tried. */
  lemma NextTurn(catalog: Catalog, allowed: set<Name>, avoid: set<Name>, roots: seq<Name>, root: Name,
                 first: seq<Name>, before: seq<Name>, after: seq<Name>)
    requires InTurn(catalog, allowed, avoid, roots, first, before)
    requires Gained(catalog, allowed, avoid, roots, first, before)
    requires Gained(catalog, allowed, avoid, [root], before, after) && before <= after
    ensures InTurn(catalog, allowed, avoid, roots + [root], first, after)
    ensures Gained(catalog, allowed, avoid, roots + [root], first, after)
  {
    hide Loadable, Reaches;
    var more := roots + [root];
    assert Gained(catalog, allowed, avoid, more, first, after) by {
      forall n ensures Due(catalog, allowed, avoid, more, n) <==>
        Due(catalog, allowed, avoid, roots, n) || Due(catalog, allowed, avoid, [root], n) {
      }
      hide Due;
    }
    hide Gained;
    forall i | 0 <= i <= |more|
      ensures exists k: nat :: k <= |after| && Gained(catalog, allowed, avoid, more[..i], first, after[..k])
    {
      if i <= |roots| {
        assert more[..i] == roots[..i];
        var k: nat :| k <= |before| && Gained(catalog, allowed, avoid, roots[..i], first, before[..k]);
        assert after[..k] == before[..k];
      } else {
        assert more[..i] == more && after[..|after|] == after;
      }
    }
  }

  lemma DueItself(catalog: Catalog, allowed: set<Name>, roots: seq<Name>, n: Name, after: seq<Name>)
    requires Gained(catalog, allowed, {}, roots, [], after) && n in roots
    ensures Loadable(catalog, allowed, n) ==> n in after
  {
    hide Loadable;
    assert Path(catalog, allowed, {}, [n]);
    assert Reaches(catalog, allowed, {}, n, n);
  }

  /** A module that is not allowed, is being loaded already, or does not import, comes to nothing. */
  lemma NothingTried(catalog: Catalog, allowed: set<Name>, avoid: set<Name>, name: Name, before: seq<Name>)
    requires name !in allowed || name !in catalog || name in avoid
    ensures Gained(catalog, allowed, avoid, [name], before, before)
  {
    forall n ensures !Due(catalog, allowed, avoid, [name], n) {
      LoadableAllowed(catalog, allowed, n);
      hide Loadable;
      if path :| Path(catalog, allowed, avoid, path) && path[0] == name && path[|path| - 1] == n {
        assert |path| == 1;
      }
    }
    hide Due;
  }

  /** What is reached from an active module is active. */
  lemma ActiveReaches(catalog: Catalog, allowed: set<Name>, avoid: set<Name>, d: seq<Name>, from: Name, to: Name)
    requires Derivation(catalog, allowed, d) && from in d
    requires Reaches(catalog, allowed, avoid, from, to)
    ensures to in d
  {
    var path :| Path(catalog, allowed, avoid, path) && path[0] == from && path[|path| - 1] == to;
    ActivePath(catalog, allowed, avoid, d, path);
  }

  lemma {:induction false} ActivePath(catalog: Catalog, allowed: set<Name>, avoid: set<Name>, d: seq<Name>,
                                      path: seq<Name>)
    requires Derivation(catalog, allowed, d) && Path(catalog, allowed, avoid, path) && path[0] in d
    ensures path[|path| - 1] in d
  {
    if |path| > 1 {
      var i :| 0 <= i < |d| && d[i] == path[0];
      assert path[1] in d[..i];
      ActivePath(catalog, allowed, avoid, d, path[1..]);
    }
  }

  /** A module that is tried comes to itself and to what its requirements come to, away from it. */
  lemma ReachesOn(catalog: Catalog, allowed: set<Name>, avoid: set<Name>, name: Name, to: Name)
    requires name in allowed && name in catalog && name !in avoid
    ensures Reaches(catalog, allowed, avoid, name, to) <==>
      to == name || exists r :: r in catalog[name].needs && Reaches(catalog, allowed, avoid + {name}, r, to)
  {
    if to == name {
      assert Path(catalog, allowed, avoid, [name]);
    }
    if r :| r in catalog[name].needs && Reaches(catalog, allowed, avoid + {name}, r, to) {
      var path :| Path(catalog, allowed, avoid + {name}, path) && path[0] == r && path[|path| - 1] == to;
      var more := [name] + path;
      assert Path(catalog, allowed, avoid, more) && more[|more| - 1] == to;
    }
    if Reaches(catalog, allowed, avoid, name, to) && to != name {
      var path :| Path(catalog, allowed, avoid, path) && path[0] == name && path[|path| - 1] == to;
      var rest := BehindLast(catalog, allowed, avoid, name, path);
    }
  }

  /** The rest of a path behind the last place where it comes through a module. */
  lemma {:induction false} BehindLast(catalog: Catalog, allowed: set<Name>, avoid: set<Name>, name: Name,
                                      path: seq<Name>) returns (rest: seq<Name>)
    requires Path(catalog, allowed, avoid, path) && name in path && path[|path| - 1] != name
    requires name in allowed && name in catalog
    ensures Path(catalog, allowed, avoid + {name}, rest) && rest[|rest| - 1] == path[|path| - 1]
    ensures rest[0] in catalog[name].needs
  {
    var tail := path[1..];
    assert Path(catalog, allowed, avoid, tail);
    if name in tail {
      rest := BehindLast(catalog, allowed, avoid, name, tail);
    } else {
      rest := tail;
      assert path[0] == name;
    }
  }

  lemma ModuleTried(catalog: Catalog, allowed: set<Name>, avoid: set<Name>, name: Name,
                    before: seq<Name>, mid: seq<Name>, after: seq<Name>, ok: bool)
    requires name in allowed && name in catalog && name !in avoid && name !in before
    requires Gained(catalog, allowed, avoid + {name}, catalog[name].needs, before, mid)
    requires ok <==> Loadable(catalog, allowed, name)
    requires after == if ok then Added(mid, name) else mid
    ensures Gained(catalog, allowed, avoid, [name], before, after)
    ensures name !in mid
  {
    hide Loadable;
    forall n ensures Due(catalog, allowed, avoid, [name], n) <==>
      (n == name && ok) || Due(catalog, allowed, avoid + {name}, catalog[name].needs, n)
    {
      ReachesOn(catalog, allowed, avoid, name, n);
      hide Reaches;
    }
    assert !Due(catalog, allowed, avoid + {name}, catalog[name].needs, name) by {
      assert forall r :: !Reaches(catalog, allowed, avoid + {name}, r, name);
    }
    hide Due;
  }

  // The active set is a least fixed point --------------------------------------------------

  lemma {:induction false} DerivationForAll(catalog: Catalog, allowed: set<Name>, needs: seq<Name>)
    returns (d: seq<Name>)
    requires forall r :: r in needs ==> Loadable(catalog, allowed, r)
    ensures Derivation(catalog, allowed, d) && forall r :: r in needs ==> r in d
  {
    if needs == [] {
      d := [];
    } else {
      var rest := DerivationForAll(catalog, allowed, needs[1..]);
      assert Loadable(catalog, allowed, needs[0]);
      var first :| Derivation(catalog, allowed, first) && needs[0] in first;
      d := first + rest;
      forall i | 0 <= i < |d|
        ensures Eligible(catalog, allowed, d[i]) && forall r :: r in catalog[d[i]].needs ==> r in d[..i]
      {
        if i < |first| {
          assert d[..i] == first[..i];
        } else {
          assert d[..i] == first + rest[..i - |first|] && d[i] == rest[i - |first|];
        }
      }
    }
  }

  /** A module is loadable exactly when it is allowed, imports, passes its stages, and all it
      requires is loadable. */
  lemma LoadableIsFixpoint(catalog: Catalog, allowed: set<Name>, n: Name)
    ensures Loadable(catalog, allowed, n) <==>
      Eligible(catalog, allowed, n) && forall r :: r in catalog[n].needs ==> Loadable(catalog, allowed, r)
  {
    if Eligible(catalog, allowed, n) && forall r :: r in catalog[n].needs ==> Loadable(catalog, allowed, r) {
      var d := DerivationForAll(catalog, allowed, catalog[n].needs);
      ActivateKeeps(catalog, allowed, d, n);
    }
  }

  /** And no smaller set is closed under that rule. */
  lemma LoadableIsLeast(catalog: Catalog, allowed: set<Name>, closed: set<Name>, n: Name)
    requires forall m :: Eligible(catalog, allowed, m) && Satisfied(catalog, m, closed) ==> m in closed
    requires Loadable(catalog, allowed, n)
    ensures n in closed
  {
    var d :| Derivation(catalog, allowed, d) && n in d;
    DerivationWithin(catalog, allowed, closed, d);
  }

  lemma {:induction false} DerivationWithin(catalog: Catalog, allowed: set<Name>, closed: set<Name>, d: seq<Name>)
    requires forall m :: Eligible(catalog, allowed, m) && Satisfied(catalog, m, closed) ==> m in closed
    requires Derivation(catalog, allowed, d)
    ensures forall m :: m in d ==> m in closed
  {
    if d != [] {
      var before := d[..|d| - 1];
      assert forall i :: 0 <= i < |before| ==> before[..i] == d[..i];
      DerivationWithin(catalog, allowed, closed, before);
    }
  }
}
