/**
  Peer routing by name (internal/config/peer.go:42-121, internal/router/peer.go:48-192): the resolver that
  scans the configured peers, the table the router builds once, and when the two agree.
  Peer and model names may both contain slashes.
 */
module PeerRoutes {
  import opened Basics

  /** The models of each peer. */
  type Peers = map<string, seq<string>>

  datatype Target = Target(peer: string, model: string)

  /** PeerModelFQN */
  function Fqn(t: Target): string {
    t.peer + "/" + t.model
  }

  predicate IsTarget(peers: Peers, t: Target) {
    t.peer in peers && t.model in peers[t.peer]
  }

  /** t answers to `search`, by its model name alone or by its full name. */
  predicate Match(peers: Peers, search: string, bare: bool, t: Target) {
    IsTarget(peers, t) && (if bare then t.model else Fqn(t)) == search
  }

  ghost predicate Any(peers: Peers, search: string, bare: bool) {
    exists t :: Match(peers, search, bare, t)
  }

  /** The one target that answers, if exactly one does. */
  ghost function TheOne(peers: Peers, search: string, bare: bool): Option<Target> {
    if exists t :: IsTheOne(peers, search, bare, t) then
      var t :| IsTheOne(peers, search, bare, t);
      Some(t)
    else None
  }

  ghost predicate IsTheOne(peers: Peers, search: string, bare: bool, t: Target) {
    Match(peers, search, bare, t) && forall u :: Match(peers, search, bare, u) ==> u == t
  }

  lemma TheOneIs(peers: Peers, search: string, bare: bool, t: Target)
    requires IsTheOne(peers, search, bare, t)
    ensures TheOne(peers, search, bare) == Some(t)
  {
  }

  /** A full name first, then a model name only one peer has. */
  ghost function Resolve(peers: Peers, search: string): Option<Target> {
    if Any(peers, search, false) then TheOne(peers, search, false) else TheOne(peers, search, true)
  }

  /** No two targets share a full name. */
  ghost predicate Unambiguous(peers: Peers) {
    forall t, u :: IsTarget(peers, t) && IsTarget(peers, u) && Fqn(t) == Fqn(u) ==> t == u
  }

  /** Another target has the same name, full or bare. */
  ghost predicate Rivalled(peers: Peers, t: Target, bare: bool) {
    exists u: Target :: u.peer in peers && u.model in peers[u.peer] && u != t
      && if bare then u.model == t.model else u.peer + "/" + u.model == t.peer + "/" + t.model
  }

  /** Some target is called peer/model by this name. */
  ghost predicate IsFullName(peers: Peers, name: string) {
    exists u: Target :: u.peer in peers && u.model in peers[u.peer] && u.peer + "/" + u.model == name
  }

  /** "peer/model" resolves to that model of that peer exactly when no other target has the same full name. */
  lemma FullNameResolves(peers: Peers, t: Target)
    requires t.peer in peers && t.model in peers[t.peer]
    ensures Resolve(peers, t.peer + "/" + t.model) == Some(t) <==> !Rivalled(peers, t, false)
  {
    var name := t.peer + "/" + t.model;
    assert Match(peers, name, false, t);
    if !Rivalled(peers, t, false) {
      forall u | Match(peers, name, false, u)
        ensures u == t
      {
        assert u.peer in peers && u.model in peers[u.peer] && u.peer + "/" + u.model == name;
      }
      TheOneIs(peers, name, false, t);
    } else {
      var u: Target :| u.peer in peers && u.model in peers[u.peer] && u != t && u.peer + "/" + u.model == name;
      assert Match(peers, name, false, u);
    }
  }

  /** A bare "model" that is nobody's full name resolves to t exactly when no other peer has that model. */
  lemma BareNameResolves(peers: Peers, t: Target)
    requires t.peer in peers && t.model in peers[t.peer] && !IsFullName(peers, t.model)
    ensures Resolve(peers, t.model) == Some(t) <==> !Rivalled(peers, t, true)
  {
    assert Match(peers, t.model, true, t);
    assert forall u: Target :: u.peer in peers && u.model in peers[u.peer] ==> u.peer + "/" + u.model != t.model;
    if !Rivalled(peers, t, true) {
      forall u | Match(peers, t.model, true, u)
        ensures u == t
      {
        assert u.peer in peers && u.model in peers[u.peer] && u.model == t.model;
      }
      TheOneIs(peers, t.model, true, t);
    } else {
      var u: Target :| u.peer in peers && u.model in peers[u.peer] && u != t && u.model == t.model;
      assert Match(peers, t.model, true, u);
    }
  }

  // ----- The resolver -----

  /** The part of a scan for one peer.  Repeated models of a peer are looked at once. */
  method ScanPeer(peers: Peers, id: string, search: string, bare: bool, before: Option<Target>)
    returns (found: Option<Target>, ambiguous: bool)
    requires id in peers && (before.Some? ==> Match(peers, search, bare, before.value))
    ensures ambiguous ==> exists t, u :: Match(peers, search, bare, t) && Match(peers, search, bare, u) && t != u
    ensures before.Some? ==> found == before || ambiguous
    ensures found.Some? ==> Match(peers, search, bare, found.value) && (before.Some? || found.value.peer == id)
    ensures !ambiguous ==> forall m :: Match(peers, search, bare, Target(id, m)) ==> found == Some(Target(id, m))
  {
    found, ambiguous := before, false;
    var models, seen := peers[id], {};
    for i := 0 to |models|
      invariant seen == set m | m in models[..i]
      invariant before.Some? ==> found == before
      invariant found.Some? ==> Match(peers, search, bare, found.value) && (before.Some? || found.value.peer == id)
      invariant forall m <- seen :: Match(peers, search, bare, Target(id, m)) ==> found == Some(Target(id, m))
    {
      var model := models[i];
      assert models[..i + 1] == models[..i] + [model];
      if model in seen {
        continue;
      }
      seen := seen + {model};
      var t := Target(id, model);
      if (if bare then model else Fqn(t)) != search {
        continue;
      }
      if found.Some? && found != Some(t) {
        assert Match(peers, search, bare, found.value) && Match(peers, search, bare, t);
        return None, true;
      }
      found := Some(t);
    }
    assert models[..|models|] == models;
  }

  /** One scan over the peers, in any order. */
  method Scan(peers: Peers, search: string, bare: bool) returns (found: Option<Target>, ambiguous: bool)
    ensures ambiguous ==> Any(peers, search, bare) && TheOne(peers, search, bare) == None
    ensures !ambiguous ==> found == TheOne(peers, search, bare) && (found.Some? <==> Any(peers, search, bare))
  {
    found, ambiguous := None, false;
    var todo := peers.Keys;
    while todo != {}
      invariant todo <= peers.Keys
      invariant found.Some? ==> Match(peers, search, bare, found.value)
      invariant forall t :: Match(peers, search, bare, t) && t.peer !in todo ==> found == Some(t)
      decreases |todo|
    {
      var id := AnyOf(todo);
      todo := todo - {id};
      found, ambiguous := ScanPeer(peers, id, search, bare, found);
      if ambiguous {
        return None, true;
      }
      forall t | Match(peers, search, bare, t) && t.peer == id
        ensures found == Some(t)
      {
        assert t == Target(id, t.model);
      }
    }
    if found.Some? {
      TheOneIs(peers, search, bare, found.value);
    }
  }

  /** ResolvePeerModel */
  method ResolvePeerModel(peers: Peers, search: string) returns (found: Option<Target>)
    ensures found == Resolve(peers, search)
  {
    var ambiguous;
    found, ambiguous := Scan(peers, search, false);
    if ambiguous {
      return None;
    }
    if found.Some? {
      return found;
    }
    found, ambiguous := Scan(peers, search, true);
    if ambiguous {
      return None;
    }
  }

  // ----- The table -----

  type Table = map<string, Target>

  /** What the table may say: for a full name some target of that name, and for any other name the one
      target whose model has it. */
  ghost predicate Routes(peers: Peers, table: Table) {
    forall search ::
      if Any(peers, search, false) then search in table && Match(peers, search, false, table[search])
      else (if search in table then Some(table[search]) else None) == TheOne(peers, search, true)
  }

  ghost predicate Agree(peers: Peers, table: Table, search: string) {
    (if search in table then Some(table[search]) else None) == Resolve(peers, search)
  }

  /** The table answers every name as the resolver does if and only if no two targets share a full name. */
  lemma AgreeExactly(peers: Peers, table: Table)
    requires Routes(peers, table)
    ensures (forall search :: Agree(peers, table, search)) <==> Unambiguous(peers)
  {
    if Unambiguous(peers) {
      forall search
        ensures Agree(peers, table, search)
      {
        if Any(peers, search, false) {
          TheOneIs(peers, search, false, table[search]);
        }
      }
    } else {
      var t, u :| IsTarget(peers, t) && IsTarget(peers, u) && Fqn(t) == Fqn(u) && t != u;
      assert Match(peers, Fqn(t), false, t) && Match(peers, Fqn(t), false, u);
      assert !Agree(peers, table, Fqn(t));
    }
  }

  /** The two maps being built from the targets done so far. */
  ghost predicate Indexed(done: set<Target>, modelMap: Table, bareRoutes: map<string, seq<Target>>) {
    && (forall t <- done :: Fqn(t) in modelMap && t.model in bareRoutes && t in bareRoutes[t.model])
    && (forall s <- modelMap :: modelMap[s] in done && Fqn(modelMap[s]) == s)
    && (forall m <- bareRoutes :: bareRoutes[m] != [])
    && (forall m <- bareRoutes, t <- bareRoutes[m] :: t in done && t.model == m)
    && (forall m <- bareRoutes, i, j :: 0 <= i < j < |bareRoutes[m]| ==> bareRoutes[m][i] != bareRoutes[m][j])
  }

  function WithRoute(bareRoutes: map<string, seq<Target>>, t: Target): map<string, seq<Target>> {
    bareRoutes[t.model := (if t.model in bareRoutes then bareRoutes[t.model] else []) + [t]]
  }

  lemma IndexMore(done: set<Target>, modelMap: Table, bareRoutes: map<string, seq<Target>>, t: Target)
    requires Indexed(done, modelMap, bareRoutes) && t !in done
    ensures Indexed(done + {t}, modelMap[Fqn(t) := t], WithRoute(bareRoutes, t))
  {
  }

  /** The targets of the first n peers. */
  ghost function TargetsOf(peers: Peers, ids: seq<string>, n: nat): set<Target>
    requires n <= |ids| && forall id <- ids :: id in peers
  {
    if n == 0 then {} else TargetsOf(peers, ids, n - 1) + TargetsIn(ids[n - 1], peers[ids[n - 1]])
  }

  ghost function TargetsIn(id: string, models: seq<string>): set<Target> {
    set m | m in models :: Target(id, m)
  }

  lemma {:induction false} TargetsAre(peers: Peers, ids: seq<string>, n: nat)
    requires n <= |ids| && forall id <- ids :: id in peers
    ensures forall t :: t in TargetsOf(peers, ids, n) <==> IsTarget(peers, t) && t.peer in ids[..n]
  {
    if n > 0 {
      TargetsAre(peers, ids, n - 1);
      assert ids[..n] == ids[..n - 1] + [ids[n - 1]];
    }
  }

  /** The order the peers are taken in: each once. */
  ghost predicate Lists(ids: seq<string>, peers: Peers) {
    && (forall id <- ids :: id in peers)
    && (forall id <- peers :: id in ids)
    && (forall i, j :: 0 <= i < j < |ids| ==> ids[i] != ids[j])
  }

  /** The routes of one peer go into both maps. */
  method AddPeer(id: string, models: seq<string>, ghost done: set<Target>, modelMap: Table,
                 bareRoutes: map<string, seq<Target>>)
    returns (modelMap': Table, bareRoutes': map<string, seq<Target>>)
    requires Indexed(done, modelMap, bareRoutes) && forall t <- done :: t.peer != id
    ensures Indexed(done + TargetsIn(id, models), modelMap', bareRoutes')
  {
    modelMap', bareRoutes' := modelMap, bareRoutes;
    var seen := {};
    assert done + TargetsIn(id, models[..0]) == done;
    for j := 0 to |models|
      invariant seen == set m | m in models[..j]
      invariant Indexed(done + TargetsIn(id, models[..j]), modelMap', bareRoutes')
    {
      hide Indexed;
      var modelID := models[j];
      assert models[..j + 1] == models[..j] + [modelID];
      if modelID in seen {
        assert TargetsIn(id, models[..j + 1]) == TargetsIn(id, models[..j]);
        continue;
      }
      seen := seen + {modelID};
      var route := Target(id, modelID);
      IndexMore(done + TargetsIn(id, models[..j]), modelMap', bareRoutes', route);
      assert done + TargetsIn(id, models[..j + 1]) == done + TargetsIn(id, models[..j]) + {route};
      modelMap' := modelMap'[Fqn(route) := route];
      bareRoutes' := WithRoute(bareRoutes', route);
    }
    assert models[..|models|] == models;
  }

  /** The loop of NewPeer that fills both maps, and the one that adds the model names only one peer has. */
  method BuildTable(peers: Peers, ids: seq<string>) returns (table: Table)
    requires Lists(ids, peers)
    ensures Routes(peers, table)
  {
    table := map[];
    var bareRoutes: map<string, seq<Target>> := map[];
    for i := 0 to |ids|
      invariant Indexed(TargetsOf(peers, ids, i), table, bareRoutes)
    {
      hide Indexed;
      TargetsAre(peers, ids, i);
      table, bareRoutes := AddPeer(ids[i], peers[ids[i]], TargetsOf(peers, ids, i), table, bareRoutes);
    }
    ghost var done, full := TargetsOf(peers, ids, |ids|), table;
    TargetsAre(peers, ids, |ids|);
    assert ids[..|ids|] == ids;
    table := AddBareNames(table, bareRoutes);
    BuiltRight(peers, done, full, bareRoutes, table);
  }

  /** A name of its own: one target has it as its model name, and it is nobody's full name. */
  predicate Lone(modelMap: Table, bareRoutes: map<string, seq<Target>>, m: string) {
    m in bareRoutes && |bareRoutes[m]| == 1 && m !in modelMap
  }

  /** The full names, and every lone name not still to do. */
  ghost predicate WithBareNames(modelMap: Table, bareRoutes: map<string, seq<Target>>, todo: set<string>,
                                table: Table) {
    forall s ::
      if s in modelMap then s in table && table[s] == modelMap[s]
      else if s !in todo && Lone(modelMap, bareRoutes, s) then s in table && table[s] == bareRoutes[s][0]
      else s !in table
  }

  method AddBareNames(modelMap: Table, bareRoutes: map<string, seq<Target>>) returns (table: Table)
    ensures WithBareNames(modelMap, bareRoutes, {}, table)
  {
    table := modelMap;
    var todo := bareRoutes.Keys;
    while todo != {}
      invariant todo <= bareRoutes.Keys
      invariant WithBareNames(modelMap, bareRoutes, todo, table)
      decreases |todo|
    {
      var modelID := AnyOf(todo);
      todo := todo - {modelID};
      if |bareRoutes[modelID]| != 1 {
        continue;
      }
      if modelID in table {
        continue;
      }
      table := table[modelID := bareRoutes[modelID][0]];
    }
  }

  lemma BuiltRight(peers: Peers, done: set<Target>, modelMap: Table, bareRoutes: map<string, seq<Target>>, table: Table)
    requires Indexed(done, modelMap, bareRoutes)
    requires forall t :: t in done <==> IsTarget(peers, t)
    requires WithBareNames(modelMap, bareRoutes, {}, table)
    ensures Routes(peers, table)
  {
    forall search
      ensures if Any(peers, search, false) then search in table && Match(peers, search, false, table[search])
              else (if search in table then Some(table[search]) else None) == TheOne(peers, search, true)
    {
      if Any(peers, search, false) {
        var t :| Match(peers, search, false, t);
        assert t in done;
      } else {
        assert search !in modelMap by {
          if search in modelMap {
            assert Match(peers, search, false, modelMap[search]);
          }
        }
        BareRight(peers, done, modelMap, bareRoutes, search);
      }
    }
  }

  lemma BareRight(peers: Peers, done: set<Target>, modelMap: Table, bareRoutes: map<string, seq<Target>>, m: string)
    requires Indexed(done, modelMap, bareRoutes)
    requires forall t :: t in done <==> IsTarget(peers, t)
    ensures TheOne(peers, m, true) == if m in bareRoutes && |bareRoutes[m]| == 1 then Some(bareRoutes[m][0]) else None
  {
    if m in bareRoutes && |bareRoutes[m]| == 1 {
      var t := bareRoutes[m][0];
      assert t in bareRoutes[m];
      assert IsTheOne(peers, m, true, t);
      TheOneIs(peers, m, true, t);
    } else if m in bareRoutes {
      var t, u := bareRoutes[m][0], bareRoutes[m][1];
      assert t in bareRoutes[m] && u in bareRoutes[m] && t != u;
      assert Match(peers, m, true, t) && Match(peers, m, true, u);
    }
  }

  // ----- Validation -----

  /** The names the local configuration uses: its models with their aliases, the alias index, the
      selectors, and the pins of each profile. */
  datatype Local = Local(models: map<string, seq<string>>, aliases: set<string>, selectors: set<string>,
                         profiles: map<string, set<string>>)

  ghost predicate Taken(local: Local, name: string) {
    || name in local.models
    || (exists m :: m in local.models && name in local.models[m])
    || name in local.aliases || name in local.selectors
    || (exists p :: p in local.profiles && name in local.profiles[p])
  }

  /** Full names are unambiguous, and none is taken locally. */
  ghost predicate ValidNamespace(peers: Peers, local: Local) {
    Unambiguous(peers) && forall t :: IsTarget(peers, t) ==> !Taken(local, Fqn(t))
  }

  /** A namespace is valid exactly when each target's "peer/model" is its alone, and is no local model, alias,
      selector or pin. */
  lemma NamespaceMeans(peers: Peers, local: Local)
    ensures ValidNamespace(peers, local) <==>
              forall t: Target :: t.peer in peers && t.model in peers[t.peer] ==>
                var name := t.peer + "/" + t.model;
                && !Rivalled(peers, t, false)
                && name !in local.models.Keys + local.aliases + local.selectors
                && (forall aliases <- local.models.Values :: name !in aliases)
                && (forall pins <- local.profiles.Values :: name !in pins)
  {
    forall t: Target | t.peer in peers && t.model in peers[t.peer]
      ensures Taken(local, Fqn(t)) <==>
                var name := t.peer + "/" + t.model;
                !(&& name !in local.models.Keys + local.aliases + local.selectors
                  && (forall aliases <- local.models.Values :: name !in aliases)
                  && (forall pins <- local.profiles.Values :: name !in pins))
    {
      TakenMeans(local, t.peer + "/" + t.model);
    }
    forall t: Target | t.peer in peers && t.model in peers[t.peer]
      ensures Rivalled(peers, t, false) <==> exists u :: IsTarget(peers, u) && u != t && Fqn(u) == Fqn(t)
    {
      forall u: Target
        ensures IsTarget(peers, u) <==> u.peer in peers && u.model in peers[u.peer]
      {
      }
    }
  }

  lemma TakenMeans(local: Local, name: string)
    ensures Taken(local, name) <==>
              || name in local.models.Keys + local.aliases + local.selectors
              || (exists aliases <- local.models.Values :: name in aliases)
              || (exists pins <- local.profiles.Values :: name in pins)
  {
    if exists aliases <- local.models.Values :: name in aliases {
      var aliases :| aliases in local.models.Values && name in aliases;
      var m :| m in local.models && local.models[m] == aliases;
    }
    if exists pins <- local.profiles.Values :: name in pins {
      var pins :| pins in local.profiles.Values && name in pins;
      var p :| p in local.profiles && local.profiles[p] == pins;
    }
  }

  /** ValidatePeerNamespace */
  method ValidatePeerNamespace(peers: Peers, ids: seq<string>, local: Local) returns (ok: bool)
    requires Lists(ids, peers)
    ensures ok <==> ValidNamespace(peers, local)
  {
    hide Taken;
    var fqnTargets: Table := map[];
    for i := 0 to |ids|
      invariant NamesApart(TargetsOf(peers, ids, i), fqnTargets)
    {
      TargetsAre(peers, ids, i);
      fqnTargets, ok := CheckPeer(peers, ids[i], TargetsOf(peers, ids, i), fqnTargets);
      if !ok {
        return false;
      }
    }
    TargetsAre(peers, ids, |ids|);
    assert ids[..|ids|] == ids;
    var reserved := fqnTargets.Keys;
    while reserved != {}
      invariant reserved <= fqnTargets.Keys
      invariant forall fqn :: fqn in fqnTargets && fqn !in reserved ==> !Taken(local, fqn)
      decreases |reserved|
    {
      var fqn := AnyOf(reserved);
      reserved := reserved - {fqn};
      var taken := IsTaken(local, fqn);
      if taken {
        assert IsTarget(peers, fqnTargets[fqn]);
        return false;
      }
    }
    return true;
  }

  /** The checks of one full name against the local configuration. */
  method IsTaken(local: Local, fqn: string) returns (taken: bool)
    ensures taken <==> Taken(local, fqn)
  {
    if fqn in local.models {
      return true;
    }
    var models := local.models.Keys;
    while models != {}
      invariant models <= local.models.Keys
      invariant forall m :: m in local.models && m !in models ==> fqn !in local.models[m]
      decreases |models|
    {
      var m := AnyOf(models);
      models := models - {m};
      if fqn in local.models[m] {
        return true;
      }
    }
    if fqn in local.aliases || fqn in local.selectors {
      return true;
    }
    var profiles := local.profiles.Keys;
    while profiles != {}
      invariant profiles <= local.profiles.Keys
      invariant forall p :: p in local.profiles && p !in profiles ==> fqn !in local.profiles[p]
      decreases |profiles|
    {
      var p := AnyOf(profiles);
      profiles := profiles - {p};
      if fqn in local.profiles[p] {
        return true;
      }
    }
    return false;
  }

  /** The full names of the targets done so far, no two alike. */
  ghost predicate NamesApart(done: set<Target>, fqnTargets: Table) {
    && (forall t <- done :: Fqn(t) in fqnTargets && fqnTargets[Fqn(t)] == t)
    && (forall s <- fqnTargets :: fqnTargets[s] in done && Fqn(fqnTargets[s]) == s)
  }

  method CheckPeer(peers: Peers, id: string, ghost done: set<Target>, fqnTargets: Table)
    returns (fqnTargets': Table, ok: bool)
    requires id in peers && NamesApart(done, fqnTargets) && forall t <- done :: IsTarget(peers, t) && t.peer != id
    ensures ok ==> NamesApart(done + TargetsIn(id, peers[id]), fqnTargets')
    ensures !ok ==> !Unambiguous(peers)
  {
    fqnTargets' := fqnTargets;
    var models, seen := peers[id], {};
    assert done + TargetsIn(id, models[..0]) == done;
    for j := 0 to |models|
      invariant seen == set m | m in models[..j]
      invariant NamesApart(done + TargetsIn(id, models[..j]), fqnTargets')
    {
      var modelID := models[j];
      assert models[..j + 1] == models[..j] + [modelID];
      if modelID in seen {
        assert TargetsIn(id, models[..j + 1]) == TargetsIn(id, models[..j]);
        continue;
      }
      seen := seen + {modelID};
      var t := Target(id, modelID);
      var fqn := Fqn(t);
      if fqn in fqnTargets' {
        assert IsTarget(peers, fqnTargets'[fqn]) && IsTarget(peers, t) && fqnTargets'[fqn] != t;
        return fqnTargets', false;
      }
      assert done + TargetsIn(id, models[..j + 1]) == done + TargetsIn(id, models[..j]) + {t};
      fqnTargets' := fqnTargets'[fqn := t];
    }
    assert models[..|models|] == models;
    ok := true;
  }

  /** NewPeer: refuses a namespace that is not valid; otherwise its table answers every name as the
      resolver does, whatever order the maps are iterated in. */
  method NewPeer(peers: Peers, ids: seq<string>, local: Local) returns (table: Option<Table>)
    requires Lists(ids, peers)
    ensures table.Some? <==> ValidNamespace(peers, local)
    ensures table.Some? ==> forall search :: Agree(peers, table.value, search)
  {
    var ok := ValidatePeerNamespace(peers, ids, local);
    if !ok {
      return None;
    }
    var routes := BuildTable(peers, ids);
    AgreeExactly(peers, routes);
    return Some(routes);
  }

  /** Handles: the router takes a name exactly when the resolver knows it. */
  method Handles(peers: Peers, table: Table, model: string) returns (ok: bool)
    requires Agree(peers, table, model)
    ensures ok <==> Resolve(peers, model).Some?
  {
    return model in table;
  }

  /** Names with slashes do collide. */
  lemma SlashesCollide()
    ensures !Unambiguous(map["a" := ["b/c"], "a/b" := ["c"]])
  {
    var peers: Peers := map["a" := ["b/c"], "a/b" := ["c"]];
    var t, u := Target("a", "b/c"), Target("a/b", "c");
    assert peers["a"][0] == "b/c" && peers["a/b"][0] == "c";
    assert IsTarget(peers, t) && IsTarget(peers, u);
    assert "a" + "/" + "b/c" == "a/b/c" == "a/b" + "/" + "c";
  }
}
