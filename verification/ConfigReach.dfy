/**
 Which configuration files count as reachable (`_reachable_typescript_config_paths` in
 analyzers/typescript.py). Path keys, file contents and candidate names are oracles; the lookup of
 candidates in the inventory and the worklist are the program's.
 */
module ConfigReach {
  import opened Collections
  import opened Ordering
  import opened Wrappers

  datatype Tree = Tree(
    key: string -> Option<string>,                 // normalised key of an inventory path, if it has one
    canonical: string -> string,                   // identity, or lower case on case-insensitive systems
    isRootName: string -> bool,
    parents: string -> seq<string>,                // `extends` values read from a config, none if unreadable
    isRelative: string -> bool,
    candidates: (string, string) -> seq<string>,   // names a relative value may stand for, seen from a config
    groups: string -> Option<seq<seq<string>>>)    // names a package value may stand for, by package

  type Index = map<string, string>

  // ------------------------------------------------------------------ scanning the inventory

  predicate IsRoot(t: Tree, path: string) {
    t.isRootName(path) && t.key(path).Some?
  }

  ghost predicate IsRootKey(t: Tree, scanned: seq<string>, k: string) {
    exists i :: 0 <= i < |scanned| && IsRoot(t, scanned[i]) && k == t.canonical(t.key(scanned[i]).value)
  }

  /** The first scanned path of every canonical key. */
  ghost predicate IsIndex(t: Tree, scanned: seq<string>, index: Index) {
    && (forall k :: k in index ==> Registers(t, index[k], k))
    && (forall k :: k in index ==> exists i ::
        0 <= i < |scanned| && FirstWithKey(t, scanned, i, k) && scanned[i] == index[k])
    && (forall i :: 0 <= i < |scanned| && t.key(scanned[i]).Some? ==> t.canonical(t.key(scanned[i]).value) in index)
  }

  predicate Registers(t: Tree, path: string, k: string) {
    t.key(path).Some? && t.canonical(t.key(path).value) == k
  }

  ghost predicate FirstWithKey(t: Tree, scanned: seq<string>, i: nat, k: string) {
    i < |scanned| && Registers(t, scanned[i], k) && forall j :: 0 <= j < i ==> !Registers(t, scanned[j], k)
  }

  function Scanned(inventory: seq<string>, limit: nat): seq<string> {
    Take(limit, inventory)
  }

  method ScanRoots(t: Tree, scanned: seq<string>) returns (roots: seq<string>)
    ensures forall k :: (exists i :: 0 <= i < |roots| && t.canonical(roots[i]) == k) <==> IsRootKey(t, scanned, k)
    ensures AllListed(t, scanned, roots)
  {
    roots := [];
    ghost var sources: seq<nat> := [];
    for n := 0 to |scanned|
      invariant |sources| == |roots|
      invariant forall i :: 0 <= i < |roots| ==>
        sources[i] < n && IsRoot(t, scanned[sources[i]]) && t.key(scanned[sources[i]]).value == roots[i]
      invariant forall i :: 0 <= i < n && IsRoot(t, scanned[i]) ==> t.key(scanned[i]).value in roots
    {
      if IsRoot(t, scanned[n]) {
        roots, sources := roots + [t.key(scanned[n]).value], sources + [n];
      }
    }
    forall k | IsRootKey(t, scanned, k) ensures exists i :: 0 <= i < |roots| && t.canonical(roots[i]) == k {
      var i :| 0 <= i < |scanned| && IsRoot(t, scanned[i]) && k == t.canonical(t.key(scanned[i]).value);
      assert t.key(scanned[i]).value in roots;
    }
  }

  method ScanIndex(t: Tree, scanned: seq<string>) returns (index: Index)
    ensures IsIndex(t, scanned, index)
  {
    index := map[];
    for n := 0 to |scanned|
      invariant forall k :: k in index ==> Registers(t, index[k], k)
      invariant forall k :: k in index ==> exists i ::
        0 <= i < n && FirstWithKey(t, scanned, i, k) && scanned[i] == index[k]
      invariant forall i :: 0 <= i < n && t.key(scanned[i]).Some? ==> t.canonical(t.key(scanned[i]).value) in index
    {
      var key := t.key(scanned[n]);
      if key.Some? && t.canonical(key.value) !in index {
        assert FirstWithKey(t, scanned, n, t.canonical(key.value));
        index := index[t.canonical(key.value) := scanned[n]];
      }
    }
  }

  // ------------------------------------------------------------------ following one value

  /** First candidate the inventory holds, as its registered path's key. */
  function Lookup(t: Tree, index: Index, candidates: seq<string>): Option<string> {
    if candidates == [] then None
    else if t.canonical(candidates[0]) in index then t.key(index[t.canonical(candidates[0])])
    else Lookup(t, index, candidates[1..])
  }

  function PackagePaths(t: Tree, index: Index, groups: seq<seq<string>>): seq<string> {
    if groups == [] then []
    else
      var init, found := PackagePaths(t, index, groups[..|groups| - 1]), Lookup(t, index, groups[|groups| - 1]);
      if found.Some? && found.value !in init then init + [found.value] else init
  }

  /** The configs an `extends` value of `config` leads to. */
  function Resolve(t: Tree, index: Index, config: string, value: string): seq<string> {
    if t.isRelative(value) then
      match Lookup(t, index, t.candidates(config, value))
      case None => []
      case Some(path) => [path]
    else
      match t.groups(value)
      case None => []
      case Some(groups) => StableSort(LexLe, PackagePaths(t, index, groups))
  }

  // ------------------------------------------------------------------ reachability

  ghost predicate Leads(t: Tree, index: Index, config: string, target: string) {
    t.canonical(config) in index
    && exists i, j :: 0 <= i < |t.parents(index[t.canonical(config)])|
         && 0 <= j < |Resolve(t, index, config, t.parents(index[t.canonical(config)])[i])|
         && t.canonical(Resolve(t, index, config, t.parents(index[t.canonical(config)])[i])[j]) == target
  }

  /** The path of a scanned config, as the inventory spells it. */
  ghost predicate Listed(t: Tree, scanned: seq<string>, config: string) {
    exists i :: 0 <= i < |scanned| && t.key(scanned[i]) == Some(config)
  }

  ghost predicate AllListed(t: Tree, scanned: seq<string>, configs: seq<string>) {
    forall i :: 0 <= i < |configs| ==> Listed(t, scanned, configs[i])
  }

  /** Every spelling of a config in the inventory. */
  ghost function Spellings(t: Tree, scanned: seq<string>): set<string> {
    set i | 0 <= i < |scanned| && t.key(scanned[i]).Some? :: t.key(scanned[i]).value
  }

  /** `from` extends `to`, both canonical keys, in one of these spellings. */
  ghost predicate Edge(t: Tree, index: Index, spellings: set<string>, from: string, to: string) {
    exists config :: config in spellings && t.canonical(config) == from && Leads(t, index, config, to)
  }

  ghost predicate Closed(t: Tree, index: Index, spellings: set<string>, keys: set<string>) {
    forall from, to :: from in keys && Edge(t, index, spellings, from, to) ==> to in keys
  }

  /** The smallest set with every root that is closed under the edges of these spellings. */
  ghost predicate IsLeast(t: Tree, index: Index, scanned: seq<string>, spellings: set<string>, keys: set<string>) {
    && (forall k :: IsRootKey(t, scanned, k) ==> k in keys)
    && Closed(t, index, spellings, keys)
    && NoLarger(t, index, scanned, spellings, keys)
  }

  ghost predicate NoLarger(t: Tree, index: Index, scanned: seq<string>, spellings: set<string>, keys: set<string>) {
    forall other: set<string> :: Closed(t, index, spellings, other) && HoldsRoots(t, scanned, other) ==> keys <= other
  }

  /** One of these spellings is of this key. */
  ghost predicate Spelled(t: Tree, spellings: set<string>, k: string) {
    exists config :: config in spellings && t.canonical(config) == k
  }

  ghost predicate HoldsRoots(t: Tree, scanned: seq<string>, keys: set<string>) {
    forall k :: IsRootKey(t, scanned, k) ==> k in keys
  }

  /** How the inventory spells a config's own path does not matter for what its values lead to. */
  ghost predicate SpellingIrrelevant(t: Tree, scanned: seq<string>) {
    forall a, b, value :: Listed(t, scanned, a) && Listed(t, scanned, b) && t.canonical(a) == t.canonical(b) ==>
      SameNames(t, t.candidates(a, value), t.candidates(b, value))
  }

  ghost predicate SameNames(t: Tree, a: seq<string>, b: seq<string>) {
    |a| == |b| && forall i :: 0 <= i < |a| ==> t.canonical(a[i]) == t.canonical(b[i])
  }

  lemma SameNamesRefl(t: Tree, a: seq<string>)
    ensures SameNames(t, a, a)
  {
  }

  /** Always so where the inventory spells every config one way, as where keys are case-sensitive. */
  lemma OneSpelling(t: Tree, scanned: seq<string>)
    requires (forall k :: t.canonical(k) == k)
             || forall a, b :: Listed(t, scanned, a) && Listed(t, scanned, b) && t.canonical(a) == t.canonical(b) ==>
                  a == b
    ensures SpellingIrrelevant(t, scanned)
  {
    forall a, b, value | Listed(t, scanned, a) && Listed(t, scanned, b) && t.canonical(a) == t.canonical(b)
      ensures SameNames(t, t.candidates(a, value), t.candidates(b, value))
    {
      assert a == b;
      SameNamesRefl(t, t.candidates(a, value));
    }
  }

  /** The index names scanned paths under their keys. */
  ghost predicate IndexKeys(t: Tree, scanned: seq<string>, index: Index) {
    forall k :: k in index ==> Registers(t, index[k], k) && index[k] in scanned
  }

  lemma {:induction false} LookupFinds(t: Tree, scanned: seq<string>, index: Index, candidates: seq<string>)
    requires IndexKeys(t, scanned, index)
    ensures var found := Lookup(t, index, candidates);
            found.Some? ==> t.canonical(found.value) in index && Listed(t, scanned, found.value)
    decreases |candidates|
  {
    if candidates != [] {
      var k := t.canonical(candidates[0]);
      if k in index {
        var i :| 0 <= i < |scanned| && scanned[i] == index[k];
      }
      LookupFinds(t, scanned, index, candidates[1..]);
    }
  }

  /** A candidate of the inventory with none before it. */
  ghost predicate FirstHeld(t: Tree, index: Index, candidates: seq<string>, i: nat) {
    && i < |candidates| && t.canonical(candidates[i]) in index
    && forall j :: 0 <= j < i ==> t.canonical(candidates[j]) !in index
  }

  /** The lookup finds the first candidate the inventory holds, and nothing only if it holds none. */
  lemma {:induction false} LookupMeaning(t: Tree, scanned: seq<string>, index: Index, candidates: seq<string>)
    requires IndexKeys(t, scanned, index)
    ensures Lookup(t, index, candidates).None? <==>
      forall i :: 0 <= i < |candidates| ==> t.canonical(candidates[i]) !in index
    ensures forall i: nat :: FirstHeld(t, index, candidates, i) ==>
      Lookup(t, index, candidates) == t.key(index[t.canonical(candidates[i])])
    decreases |candidates|
  {
    if candidates != [] {
      var rest := candidates[1..];
      LookupMeaning(t, scanned, index, rest);
      assert forall i :: 0 < i < |candidates| ==> candidates[i] == rest[i - 1];
      forall i: nat | FirstHeld(t, index, candidates, i)
        ensures Lookup(t, index, candidates) == t.key(index[t.canonical(candidates[i])])
      {
        if i > 0 {
          assert t.canonical(candidates[0]) !in index;
          assert forall j :: 0 <= j < i - 1 ==> rest[j] == candidates[j + 1];
          assert FirstHeld(t, index, rest, i - 1);
        }
      }
    }
  }

  /** A package value stands for what each group of names finds, each path once. */
  lemma {:induction false} PackagePathsMeaning(t: Tree, index: Index, groups: seq<seq<string>>)
    ensures forall p :: p in PackagePaths(t, index, groups) <==>
      exists i :: 0 <= i < |groups| && Lookup(t, index, groups[i]) == Some(p)
    ensures forall i, j :: 0 <= i < j < |PackagePaths(t, index, groups)| ==>
      PackagePaths(t, index, groups)[i] != PackagePaths(t, index, groups)[j]
    decreases |groups|
  {
    if groups != [] {
      var init, last := groups[..|groups| - 1], groups[|groups| - 1];
      PackagePathsMeaning(t, index, init);
      assert groups == init + [last];
      forall p ensures p in PackagePaths(t, index, groups) <==>
        exists i :: 0 <= i < |groups| && Lookup(t, index, groups[i]) == Some(p)
      {
        if p in PackagePaths(t, index, init) {
          var i :| 0 <= i < |init| && Lookup(t, index, init[i]) == Some(p);
          assert groups[i] == init[i];
        }
        assert groups[|init|] == last;
      }
    }
  }

  /** A value leads exactly to the first candidate held, or to what the groups of a package find, in order. */
  lemma ResolveMeaning(t: Tree, index: Index, config: string, value: string)
    ensures t.isRelative(value) ==>
      forall p :: p in Resolve(t, index, config, value) <==> Lookup(t, index, t.candidates(config, value)) == Some(p)
    ensures !t.isRelative(value) ==>
      && Sorted(LexLe, Resolve(t, index, config, value))
      && forall p :: p in Resolve(t, index, config, value) <==>
           t.groups(value).Some? && exists i :: 0 <= i < |t.groups(value).value|
                                      && Lookup(t, index, t.groups(value).value[i]) == Some(p)
  {
    if !t.isRelative(value) && t.groups(value).Some? {
      var paths := PackagePaths(t, index, t.groups(value).value);
      PackagePathsMeaning(t, index, t.groups(value).value);
      LexOrder();
      SortProperties(LexLe, paths);
      var sorted := StableSort(LexLe, paths);
      forall p ensures p in sorted <==> p in paths {
        assert p in multiset(sorted) <==> p in multiset(paths);
      }
    }
  }

  /** The config that a relative value of an expanded config names is reachable. */
  lemma ExtendedIsReached(t: Tree, scanned: seq<string>, index: Index, expanded: set<string>, reachable: set<string>,
                          config: string, value: string, i: nat)
    requires IsIndex(t, scanned, index) && ReachedBy(t, index, scanned, expanded, reachable)
    requires config in expanded && t.canonical(config) in reachable && t.canonical(config) in index
    requires value in t.parents(index[t.canonical(config)]) && t.isRelative(value)
    requires FirstHeld(t, index, t.candidates(config, value), i)
    ensures t.canonical(t.candidates(config, value)[i]) in reachable
  {
    var found := index[t.canonical(t.candidates(config, value)[i])];
    LookupMeaning(t, scanned, index, t.candidates(config, value));
    assert Resolve(t, index, config, value) == [t.key(found).value];
    assert Resolve(t, index, config, value)[0] == t.key(found).value;
    assert Edge(t, index, expanded, t.canonical(config), t.canonical(t.key(found).value));
  }

  lemma {:induction false} LookupSame(t: Tree, index: Index, a: seq<string>, b: seq<string>)
    requires SameNames(t, a, b)
    ensures Lookup(t, index, a) == Lookup(t, index, b)
    decreases |a|
  {
    if a != [] { LookupSame(t, index, a[1..], b[1..]); }
  }

  lemma {:induction false} PackagePathsListed(t: Tree, scanned: seq<string>, index: Index, groups: seq<seq<string>>)
    requires IndexKeys(t, scanned, index)
    ensures forall p :: p in PackagePaths(t, index, groups) ==> t.canonical(p) in index && Listed(t, scanned, p)
    decreases |groups|
  {
    if groups != [] {
      PackagePathsListed(t, scanned, index, groups[..|groups| - 1]);
      LookupFinds(t, scanned, index, groups[|groups| - 1]);
    }
  }

  /** Everything a value leads to is in the inventory. */
  lemma ResolveListed(t: Tree, scanned: seq<string>, index: Index, config: string, value: string)
    requires IndexKeys(t, scanned, index)
    ensures forall i :: 0 <= i < |Resolve(t, index, config, value)| ==>
      t.canonical(Resolve(t, index, config, value)[i]) in index
    ensures AllListed(t, scanned, Resolve(t, index, config, value))
  {
    LookupFinds(t, scanned, index, t.candidates(config, value));
    if !t.isRelative(value) && t.groups(value).Some? {
      var paths := PackagePaths(t, index, t.groups(value).value);
      PackagePathsListed(t, scanned, index, t.groups(value).value);
      LexOrder();
      SortProperties(LexLe, paths);
      var sorted := StableSort(LexLe, paths);
      forall i | 0 <= i < |sorted| ensures t.canonical(sorted[i]) in index && Listed(t, scanned, sorted[i]) {
        assert sorted[i] in multiset(sorted) && sorted[i] in multiset(paths);
      }
    }
  }

  lemma SameLeads(t: Tree, scanned: seq<string>, index: Index, a: string, b: string, target: string)
    requires SpellingIrrelevant(t, scanned) && Listed(t, scanned, a) && Listed(t, scanned, b)
    requires t.canonical(a) == t.canonical(b) && Leads(t, index, a, target)
    ensures Leads(t, index, b, target)
  {
    var values := t.parents(index[t.canonical(a)]);
    forall i | 0 <= i < |values| ensures Resolve(t, index, a, values[i]) == Resolve(t, index, b, values[i]) {
      LookupSame(t, index, t.candidates(a, values[i]), t.candidates(b, values[i]));
    }
    var i, j :| 0 <= i < |values| && 0 <= j < |Resolve(t, index, a, values[i])|
                && t.canonical(Resolve(t, index, a, values[i])[j]) == target;
    assert 0 <= j < |Resolve(t, index, b, values[i])| && t.canonical(Resolve(t, index, b, values[i])[j]) == target;
  }

  // ------------------------------------------------------------------ the worklist

  /** The config was expanded: all it leads to is in `keys`. */
  ghost predicate Expanded(t: Tree, index: Index, config: string, keys: set<string>) {
    forall target :: Leads(t, index, config, target) ==> target in keys
  }

  ghost predicate Waiting(t: Tree, pending: seq<string>, k: string) {
    exists i :: 0 <= i < |pending| && t.canonical(pending[i]) == k
  }

  lemma WaitingSnoc(t: Tree, pending: seq<string>, path: string)
    ensures forall k :: Waiting(t, pending + [path], k) <==> Waiting(t, pending, k) || t.canonical(path) == k
  {
    forall k ensures Waiting(t, pending + [path], k) <==> Waiting(t, pending, k) || t.canonical(path) == k {
      if Waiting(t, pending, k) {
        var i :| 0 <= i < |pending| && t.canonical(pending[i]) == k;
        assert (pending + [path])[i] == pending[i];
      }
      assert (pending + [path])[|pending|] == path;
    }
  }

  ghost function KeysOf(t: Tree, paths: seq<string>): set<string> {
    set i | 0 <= i < |paths| :: t.canonical(paths[i])
  }

  lemma KeysOfSnoc(t: Tree, paths: seq<string>, n: nat)
    requires n < |paths|
    ensures KeysOf(t, paths[..n + 1]) == KeysOf(t, paths[..n]) + {t.canonical(paths[n])}
  {
    assert paths[..n + 1] == paths[..n] + [paths[n]];
    forall k | k in KeysOf(t, paths[..n]) ensures k in KeysOf(t, paths[..n + 1]) {
      var i :| 0 <= i < n && t.canonical(paths[..n][i]) == k;
      assert paths[..n + 1][i] == paths[i];
    }
    assert paths[..n + 1][n] == paths[n];
  }

  /** What adding keys to a worklist does to it. */
  ghost predicate Queued(t: Tree, pending: seq<string>, reachable: set<string>, next: seq<string>, keys: set<string>) {
    && reachable <= keys && |next| - |pending| == |keys| - |reachable|
    && forall k :: Waiting(t, next, k) <==> Waiting(t, pending, k) || k in keys - reachable
  }

  lemma QueuedSnoc(t: Tree, pending: seq<string>, reachable: set<string>, next: seq<string>, keys: set<string>,
                   path: string)
    requires Queued(t, pending, reachable, next, keys) && t.canonical(path) !in keys
    ensures Queued(t, pending, reachable, next + [path], keys + {t.canonical(path)})
  {
    WaitingSnoc(t, next, path);
  }

  lemma QueuedTransitive(t: Tree, a: seq<string>, ka: set<string>, b: seq<string>, kb: set<string>, c: seq<string>,
                         kc: set<string>)
    requires Queued(t, a, ka, b, kb) && Queued(t, b, kb, c, kc)
    ensures Queued(t, a, ka, c, kc)
  {
  }

  ghost predicate ComesFrom(all: seq<string>, a: seq<string>, b: seq<string>) {
    forall i :: 0 <= i < |all| ==> all[i] in a || all[i] in b
  }

  lemma ListedTogether(t: Tree, scanned: seq<string>, all: seq<string>, a: seq<string>, b: seq<string>)
    requires ComesFrom(all, a, b) && AllListed(t, scanned, a) && AllListed(t, scanned, b)
    ensures AllListed(t, scanned, all)
  {
  }

  /** Adds the configs one value leads to. New keys wait; those known are skipped. */
  method AddPaths(t: Tree, pending: seq<string>, reachable: set<string>, paths: seq<string>)
    returns (next: seq<string>, keys: set<string>)
    ensures keys == reachable + KeysOf(t, paths) && Queued(t, pending, reachable, next, keys)
    ensures ComesFrom(next, pending, paths)
  {
    next, keys := pending, reachable;
    for i := 0 to |paths|
      invariant keys == reachable + KeysOf(t, paths[..i]) && Queued(t, pending, reachable, next, keys)
      invariant ComesFrom(next, pending, paths)
    {
      var key := t.canonical(paths[i]);
      KeysOfSnoc(t, paths, i);
      if key in keys {
        continue;
      }
      QueuedSnoc(t, pending, reachable, next, keys, paths[i]);
      keys := keys + {key};
      next := next + [paths[i]];
    }
    assert paths[..|paths|] == paths;
  }

  /** All that the first `n` values of a config lead to is in `keys`. */
  ghost predicate Followed(t: Tree, index: Index, config: string, values: seq<string>, n: nat, keys: set<string>)
    requires n <= |values|
  {
    forall i, j :: 0 <= i < n && 0 <= j < |Resolve(t, index, config, values[i])| ==>
      t.canonical(Resolve(t, index, config, values[i])[j]) in keys
  }

  ghost predicate LedTo(t: Tree, index: Index, config: string, keys: set<string>) {
    forall k :: k in keys ==> Leads(t, index, config, k) && k in index
  }

  /** Follows one value of a config. */
  method FollowValue(t: Tree, ghost scanned: seq<string>, index: Index, config: string, ghost values: seq<string>,
                     ghost n: nat, value: string, pending: seq<string>, reachable: set<string>)
    returns (next: seq<string>, keys: set<string>)
    requires IndexKeys(t, scanned, index) && AllListed(t, scanned, pending) && t.canonical(config) in index
    requires values == t.parents(index[t.canonical(config)]) && n < |values| && values[n] == value
    requires Followed(t, index, config, values, n, reachable)
    ensures Followed(t, index, config, values, n + 1, keys) && reachable <= keys
    ensures LedTo(t, index, config, keys - reachable)
    ensures Queued(t, pending, reachable, next, keys) && AllListed(t, scanned, next)
  {
    var paths := Resolve(t, index, config, value);
    ResolveListed(t, scanned, index, config, value);
    next, keys := AddPaths(t, pending, reachable, paths);
    ListedTogether(t, scanned, next, pending, paths);
  }

  /** Expands one config. */
  method Expand(t: Tree, ghost scanned: seq<string>, index: Index, pending: seq<string>, reachable: set<string>,
                config: string)
    returns (next: seq<string>, keys: set<string>)
    requires IndexKeys(t, scanned, index) && AllListed(t, scanned, pending)
    ensures reachable <= keys && Expanded(t, index, config, keys)
    ensures LedTo(t, index, config, keys - reachable)
    ensures Queued(t, pending, reachable, next, keys) && AllListed(t, scanned, next)
  {
    next, keys := pending, reachable;
    var configKey := t.canonical(config);
    if configKey !in index {
      return;
    }
    var values := t.parents(index[configKey]);
    for i := 0 to |values|
      invariant reachable <= keys && Followed(t, index, config, values, i, keys)
      invariant LedTo(t, index, config, keys - reachable)
      invariant Queued(t, pending, reachable, next, keys) && AllListed(t, scanned, next)
    {
      ghost var before, known := next, keys;
      next, keys := FollowValue(t, scanned, index, config, values, i, values[i], next, keys);
      QueuedTransitive(t, pending, reachable, before, known, next, keys);
    }
  }

  ghost predicate Known(t: Tree, pending: seq<string>, reachable: set<string>) {
    forall i :: 0 <= i < |pending| ==> t.canonical(pending[i]) in reachable
  }

  lemma StillKnown(t: Tree, pending: seq<string>, reachable: set<string>, next: seq<string>, keys: set<string>)
    requires Queued(t, pending, reachable, next, keys) && Known(t, pending, reachable)
    ensures Known(t, next, keys)
  {
    forall i | 0 <= i < |next| ensures t.canonical(next[i]) in keys {
      assert Waiting(t, next, t.canonical(next[i]));
    }
  }

  /** Where the worklist stands when the configs in `expanded` have been expanded. */
  ghost predicate Inv(t: Tree, index: Index, scanned: seq<string>, pending: seq<string>, expanded: set<string>,
                      reachable: set<string>) {
    && HoldsRoots(t, scanned, reachable) && NoLarger(t, index, scanned, expanded, reachable)
    && AllListed(t, scanned, pending) && Known(t, pending, reachable) && expanded <= Spellings(t, scanned)
    && (forall config :: config in expanded ==> Expanded(t, index, config, reachable))
    && (forall k :: k in reachable ==> Waiting(t, pending, k) || Spelled(t, expanded, k))
  }

  /** More spellings have all the edges of fewer. */
  lemma ClosedFewer(t: Tree, index: Index, fewer: set<string>, more: set<string>, keys: set<string>)
    requires fewer <= more && Closed(t, index, more, keys)
    ensures Closed(t, index, fewer, keys)
  {
    forall from, to | from in keys && Edge(t, index, fewer, from, to) ensures to in keys {
      assert Edge(t, index, more, from, to);
    }
  }

  lemma NoLargerStep(t: Tree, index: Index, scanned: seq<string>, expanded: set<string>, reachable: set<string>,
                     config: string, keys: set<string>)
    requires NoLarger(t, index, scanned, expanded, reachable) && t.canonical(config) in reachable
    requires LedTo(t, index, config, keys - reachable)
    ensures NoLarger(t, index, scanned, expanded + {config}, keys)
  {
    forall other: set<string> | Closed(t, index, expanded + {config}, other) && HoldsRoots(t, scanned, other)
      ensures keys <= other
    {
      ClosedFewer(t, index, expanded, expanded + {config}, other);
      forall k | k in keys ensures k in other {
        if k !in reachable { assert Edge(t, index, expanded + {config}, t.canonical(config), k); }
      }
    }
  }

  lemma InvStep(t: Tree, index: Index, scanned: seq<string>, pending: seq<string>, config: string,
                expanded: set<string>, reachable: set<string>, next: seq<string>, keys: set<string>)
    requires Inv(t, index, scanned, pending + [config], expanded, reachable)
    requires reachable <= keys && Expanded(t, index, config, keys)
    requires LedTo(t, index, config, keys - reachable)
    requires Queued(t, pending, reachable, next, keys) && AllListed(t, scanned, next)
    ensures Inv(t, index, scanned, next, expanded + {config}, keys)
  {
    var was := pending + [config];
    assert was[|pending|] == config && forall i :: 0 <= i < |pending| ==> was[i] == pending[i];
    StillKnown(t, pending, reachable, next, keys);
    NoLargerStep(t, index, scanned, expanded, reachable, config, keys);
    WaitingSnoc(t, pending, config);
    forall done | done in expanded ensures Expanded(t, index, done, keys) {
      assert Expanded(t, index, done, reachable);
    }
    forall k | k in keys ensures Waiting(t, next, k) || Spelled(t, expanded + {config}, k) {
      if k in reachable && !Waiting(t, pending, k) {
        if t.canonical(config) == k {
          assert config in expanded + {config};
        } else {
          var done :| done in expanded && t.canonical(done) == k;
          assert done in expanded + {config};
        }
      }
    }
  }

  /** With nothing left to expand the set is closed under the edges of what was expanded. */
  lemma InvDone(t: Tree, index: Index, scanned: seq<string>, expanded: set<string>, reachable: set<string>)
    requires Inv(t, index, scanned, [], expanded, reachable)
    ensures IsLeast(t, index, scanned, expanded, reachable)
  {
    forall from, to | from in reachable && Edge(t, index, expanded, from, to) ensures to in reachable {
      var config :| config in expanded && t.canonical(config) == from && Leads(t, index, config, to);
      assert Expanded(t, index, config, reachable);
    }
  }

  /** Where spellings do not matter, one for each key reached has all the edges that matter. */
  lemma LeastForAll(t: Tree, index: Index, scanned: seq<string>, expanded: set<string>, reachable: set<string>)
    requires IsLeast(t, index, scanned, expanded, reachable) && SpellingIrrelevant(t, scanned)
    requires expanded <= Spellings(t, scanned) && forall k :: k in reachable ==> Spelled(t, expanded, k)
    ensures IsLeast(t, index, scanned, Spellings(t, scanned), reachable)
  {
    var all := Spellings(t, scanned);
    forall from, to | from in reachable && Edge(t, index, all, from, to) ensures to in reachable {
      assert Spelled(t, expanded, from);
      var done :| done in expanded && t.canonical(done) == from;
      var config :| config in all && t.canonical(config) == from && Leads(t, index, config, to);
      SpellingListed(t, scanned, done);
      SpellingListed(t, scanned, config);
      SameLeads(t, scanned, index, config, done, to);
      assert Edge(t, index, expanded, from, to);
    }
    forall other: set<string> | Closed(t, index, all, other) && HoldsRoots(t, scanned, other)
      ensures reachable <= other
    {
      ClosedFewer(t, index, expanded, all, other);
    }
  }

  lemma SpellingListed(t: Tree, scanned: seq<string>, config: string)
    ensures config in Spellings(t, scanned) <==> Listed(t, scanned, config)
  {
    if Listed(t, scanned, config) {
      var i :| 0 <= i < |scanned| && t.key(scanned[i]) == Some(config);
      assert t.key(scanned[i]).value in Spellings(t, scanned);
    }
  }

  lemma InvStart(t: Tree, index: Index, scanned: seq<string>, roots: seq<string>)
    requires forall k :: (exists i :: 0 <= i < |roots| && t.canonical(roots[i]) == k) <==> IsRootKey(t, scanned, k)
    requires AllListed(t, scanned, roots)
    ensures Inv(t, index, scanned, roots, {}, KeysOf(t, roots))
  {
    forall k | k in KeysOf(t, roots) ensures Waiting(t, roots, k) && IsRootKey(t, scanned, k) {
      var i :| 0 <= i < |roots| && t.canonical(roots[i]) == k;
    }
  }

  /** Expands what is pending until nothing is. */
  method Drain(t: Tree, index: Index, ghost scanned: seq<string>, roots: seq<string>)
    returns (reachable: set<string>, ghost expanded: set<string>)
    requires IndexKeys(t, scanned, index)
    requires Inv(t, index, scanned, roots, {}, KeysOf(t, roots))
    ensures Inv(t, index, scanned, [], expanded, reachable)
  {
    reachable, expanded := set i | 0 <= i < |roots| :: t.canonical(roots[i]), {};
    var pending := roots;
    ghost var universe := reachable + index.Keys;
    while pending != []
      invariant Inv(t, index, scanned, pending, expanded, reachable) && reachable <= universe
      decreases |universe - reachable|, |pending|
    {
      var config := pending[|pending| - 1];
      var rest := pending[..|pending| - 1];
      LastApart(pending);
      var next, keys := Expand(t, scanned, index, rest, reachable, config);
      InvStep(t, index, scanned, rest, config, expanded, reachable, next, keys);
      Shrinks(universe, reachable, keys);
      pending, reachable, expanded := next, keys, expanded + {config};
    }
  }

  /** There is one index of the scanned paths. */
  lemma IndexUnique(t: Tree, scanned: seq<string>, a: Index, b: Index)
    requires IsIndex(t, scanned, a) && IsIndex(t, scanned, b)
    ensures a == b
  {
    IndexIn(t, scanned, a, b);
    IndexIn(t, scanned, b, a);
  }

  lemma IndexIn(t: Tree, scanned: seq<string>, a: Index, b: Index)
    requires IsIndex(t, scanned, a) && IsIndex(t, scanned, b)
    ensures forall k :: k in a ==> k in b && b[k] == a[k]
  {
    forall k | k in a ensures k in b && b[k] == a[k] {
      var i :| 0 <= i < |scanned| && FirstWithKey(t, scanned, i, k) && scanned[i] == a[k];
      var j :| 0 <= j < |scanned| && FirstWithKey(t, scanned, j, k) && scanned[j] == b[k];
      assert i == j;
    }
  }

  /** The smallest set with the roots that is closed under the `extends` edges of some spellings, one at
      least for each key in it; under those of all spellings where they do not lead elsewhere. */
  ghost predicate Reached(t: Tree, index: Index, scanned: seq<string>, reachable: set<string>) {
    && (exists expanded :: ReachedBy(t, index, scanned, expanded, reachable))
    && (SpellingIrrelevant(t, scanned) ==> IsLeast(t, index, scanned, Spellings(t, scanned), reachable))
  }

  ghost predicate ReachedBy(t: Tree, index: Index, scanned: seq<string>, expanded: set<string>,
                            reachable: set<string>) {
    && expanded <= Spellings(t, scanned) && (forall k :: k in reachable ==> Spelled(t, expanded, k))
    && IsLeast(t, index, scanned, expanded, reachable)
  }

  /** Terminates with the keys of the configs reached from the roots within the scan limit. */
  method ReachableConfigs(t: Tree, inventory: seq<string>, scanLimit: nat) returns (reachable: set<string>)
    ensures exists index ::
      IsIndex(t, Scanned(inventory, scanLimit), index) && Reached(t, index, Scanned(inventory, scanLimit), reachable)
    ensures forall i ::
      0 <= i < |inventory| && i < scanLimit && t.isRootName(inventory[i]) && t.key(inventory[i]).Some?
      ==> t.canonical(t.key(inventory[i]).value) in reachable
  {
    var scanned := Scanned(inventory, scanLimit);
    var roots := ScanRoots(t, scanned);
    var byPath := ScanIndex(t, scanned);
    InvStart(t, byPath, scanned, roots);
    ghost var expanded;
    reachable, expanded := Drain(t, byPath, scanned, roots);
    InvDone(t, byPath, scanned, expanded, reachable);
    forall k | k in reachable ensures Spelled(t, expanded, k) {
      assert !Waiting(t, [], k);
    }
    assert ReachedBy(t, byPath, scanned, expanded, reachable);
    if SpellingIrrelevant(t, scanned) {
      LeastForAll(t, byPath, scanned, expanded, reachable);
    }
    assert Reached(t, byPath, scanned, reachable);
    forall i | 0 <= i < |inventory| && i < scanLimit && t.isRootName(inventory[i]) && t.key(inventory[i]).Some?
      ensures t.canonical(t.key(inventory[i]).value) in reachable
    {
      assert scanned[i] == inventory[i] && IsRoot(t, scanned[i]);
      assert IsRootKey(t, scanned, t.canonical(t.key(inventory[i]).value));
    }
  }

  lemma Shrinks(universe: set<string>, reachable: set<string>, keys: set<string>)
    requires reachable <= keys <= universe
    ensures keys == reachable || |universe - keys| < |universe - reachable|
  {
    assert universe - reachable == (universe - keys) + (keys - reachable);
  }
}
