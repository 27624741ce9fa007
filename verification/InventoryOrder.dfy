/**
 Ordering and deduplication of an inventory (`_ordered_typescript_inventory` in
 analyzers/typescript.py). An inventory already in order is returned as it is, or with adjacent
 duplicates dropped; otherwise it is sorted and deduplicated. Paths are their POSIX strings; paths
 without a usable key are skipped by every consumer.
 */
module InventoryOrder {
  import opened Ordering
  import opened Wrappers

  /** Which paths have a key, and their canonical key (the path itself or its lower-case form). */
  datatype Keys = Keys(valid: string -> bool, canon: string -> string)

  ghost predicate CanonSorted(canon: string -> string, s: seq<string>) {
    forall i, j :: 0 <= i < j < |s| ==> LexLe(canon(s[i]), canon(s[j]))
  }

  ghost predicate UniqueKeys(canon: string -> string, s: seq<string>) {
    forall i, j :: 0 <= i < j < |s| ==> canon(s[i]) != canon(s[j])
  }

  ghost predicate HasKey(canon: string -> string, s: seq<string>, key: string) {
    exists i :: 0 <= i < |s| && canon(s[i]) == key
  }

  /** First path of each canonical key. */
  ghost function Dedupe(canon: string -> string, s: seq<string>): seq<string> {
    if s == [] then []
    else
      var init, last := s[..|s| - 1], s[|s| - 1];
      if HasKey(canon, init, canon(last)) then Dedupe(canon, init) else Dedupe(canon, init) + [last]
  }

  /** Sort, then deduplicate, on the paths that have a key. */
  ghost function SortedDeduped(keys: Keys, inventory: seq<string>): seq<string> {
    Dedupe(keys.canon, Filter(keys.valid, StableSort(LexLe, inventory)))
  }

  lemma HasKeySnoc(canon: string -> string, v: seq<string>, p: string)
    ensures forall key :: HasKey(canon, v + [p], key) <==> HasKey(canon, v, key) || key == canon(p)
  {
    forall key ensures HasKey(canon, v + [p], key) <==> HasKey(canon, v, key) || key == canon(p) {
      if HasKey(canon, v, key) {
        var i :| 0 <= i < |v| && canon(v[i]) == key;
        assert canon((v + [p])[i]) == key;
      }
      assert canon((v + [p])[|v|]) == canon(p);
    }
  }

  lemma DedupeSnoc(canon: string -> string, v: seq<string>, p: string)
    ensures Dedupe(canon, v + [p]) == if HasKey(canon, v, canon(p)) then Dedupe(canon, v) else Dedupe(canon, v) + [p]
  {
    assert (v + [p])[..|v|] == v;
  }

  /** The canonical form has the inventory's keys, each once, each by its first path. */
  lemma {:induction false} DedupeMeaning(canon: string -> string, s: seq<string>)
    ensures UniqueKeys(canon, Dedupe(canon, s))
    ensures forall key :: HasKey(canon, s, key) <==> HasKey(canon, Dedupe(canon, s), key)
    decreases |s|
  {
    if s != [] {
      var init, last := s[..|s| - 1], s[|s| - 1];
      DedupeMeaning(canon, init);
      assert s == init + [last];
      HasKeySnoc(canon, init, last);
      HasKeySnoc(canon, Dedupe(canon, init), last);
      assert HasKey(canon, init, canon(last)) <==> HasKey(canon, Dedupe(canon, init), canon(last));
      assert !HasKey(canon, Dedupe(canon, init), canon(last)) ==> UniqueKeys(canon, Dedupe(canon, init) + [last]);
    }
  }

  /** Every path kept is the first of its key; on a sorted inventory that is the least one. */
  lemma {:induction false} DedupeKeepsFirst(canon: string -> string, s: seq<string>)
    ensures forall p :: p in Dedupe(canon, s) ==>
      exists i :: 0 <= i < |s| && s[i] == p && !HasKey(canon, s[..i], canon(p))
    decreases |s|
  {
    if s != [] {
      var n := |s| - 1;
      DedupeKeepsFirst(canon, s[..n]);
      forall p | p in Dedupe(canon, s)
        ensures exists i :: 0 <= i < |s| && s[i] == p && !HasKey(canon, s[..i], canon(p))
      {
        if p in Dedupe(canon, s[..n]) {
          var i :| 0 <= i < n && s[..n][i] == p && !HasKey(canon, s[..n][..i], canon(p));
          assert s[..n][..i] == s[..i];
        } else {
          assert p == s[n];
        }
      }
    }
  }

  lemma {:induction false} DedupeUnique(canon: string -> string, s: seq<string>)
    requires UniqueKeys(canon, s)
    ensures Dedupe(canon, s) == s
    decreases |s|
  {
    if s != [] {
      DedupeUnique(canon, s[..|s| - 1]);
      assert s == s[..|s| - 1] + [s[|s| - 1]];
    }
  }

  /** Among canonically sorted paths a key can only repeat the previous one. */
  lemma RepeatsPrevious(canon: string -> string, s: seq<string>)
    requires s != [] && CanonSorted(canon, s)
    ensures HasKey(canon, s[..|s| - 1], canon(s[|s| - 1])) <==> |s| > 1 && canon(s[|s| - 2]) == canon(s[|s| - 1])
  {
    var n := |s| - 1;
    if HasKey(canon, s[..n], canon(s[n])) {
      var i :| 0 <= i < n && canon(s[i]) == canon(s[n]);
      if i < n - 1 {
        LexTotal(canon(s[i]), canon(s[n - 1]));
      }
    }
    if n > 0 && canon(s[n - 1]) == canon(s[n]) {
      assert canon(s[..n][n - 1]) == canon(s[n]);
    }
  }

  ghost predicate AdjacentDuplicate(canon: string -> string, s: seq<string>) {
    exists i :: 0 < i < |s| && canon(s[i - 1]) == canon(s[i])
  }

  lemma NoAdjacentDuplicate(canon: string -> string, s: seq<string>)
    requires CanonSorted(canon, s) && !AdjacentDuplicate(canon, s)
    ensures UniqueKeys(canon, s)
  {
    forall i, j | 0 <= i < j < |s| ensures canon(s[i]) != canon(s[j]) {
      if canon(s[i]) == canon(s[j]) && i < j - 1 {
        LexTotal(canon(s[j - 1]), canon(s[j]));
      }
      assert j > 0 && (canon(s[j - 1]) != canon(s[j]));
    }
  }

  /** Sorting does nothing to paths already in order, whatever keyless paths lie between them. */
  lemma AlreadySorted(keys: Keys, inventory: seq<string>)
    requires Sorted(LexLe, Filter(keys.valid, inventory))
    ensures Filter(keys.valid, StableSort(LexLe, inventory)) == Filter(keys.valid, inventory)
  {
    LexOrder();
    var v := Filter(keys.valid, inventory);
    FilterOfSort(LexLe, keys.valid, inventory);
    SortProperties(LexLe, v);
    SortedUnique(LexLe, StableSort(LexLe, v), v);
  }

  lemma FilterSnoc(keys: Keys, s: seq<string>, i: nat)
    requires i < |s|
    ensures Filter(keys.valid, s[..i + 1]) ==
      if keys.valid(s[i]) then Filter(keys.valid, s[..i]) + [s[i]] else Filter(keys.valid, s[..i])
  {
    assert s[..i + 1][..i] == s[..i];
  }

  lemma {:induction false} FilterAll(valid: string -> bool, s: seq<string>)
    requires forall p :: p in s ==> valid(p)
    ensures Filter(valid, s) == s
    decreases |s|
  {
    if s != [] {
      FilterAll(valid, s[..|s| - 1]);
      assert s == s[..|s| - 1] + [s[|s| - 1]];
    }
  }

  lemma {:induction false} DedupeSorted(canon: string -> string, s: seq<string>)
    requires Sorted(LexLe, s)
    ensures Sorted(LexLe, Dedupe(canon, s))
    decreases |s|
  {
    if s != [] {
      BelowLast(LexLe, s);
      DedupeSorted(canon, s[..|s| - 1]);
      DedupeKeepsFirst(canon, s[..|s| - 1]);
      SortedAppend(LexLe, Dedupe(canon, s[..|s| - 1]), s[|s| - 1]);
    }
  }

  lemma KeysPresent(keys: Keys, inventory: seq<string>)
    requires forall p :: p in StableSort(LexLe, inventory) <==> p in inventory
    ensures forall p :: p in inventory && keys.valid(p) ==>
      HasKey(keys.canon, SortedDeduped(keys, inventory), keys.canon(p))
  {
    var v := Filter(keys.valid, StableSort(LexLe, inventory));
    FilterMembers(keys.valid, StableSort(LexLe, inventory));
    DedupeMeaning(keys.canon, v);
    forall p | p in inventory && keys.valid(p)
      ensures HasKey(keys.canon, SortedDeduped(keys, inventory), keys.canon(p))
    {
      var i :| 0 <= i < |v| && v[i] == p;
      assert HasKey(keys.canon, v, keys.canon(p));
    }
  }

  /** The canonical form has only paths with keys, and each key once. */
  lemma SortedDedupedKeys(keys: Keys, inventory: seq<string>)
    ensures Filter(keys.valid, SortedDeduped(keys, inventory)) == SortedDeduped(keys, inventory)
    ensures UniqueKeys(keys.canon, SortedDeduped(keys, inventory))
    ensures Sorted(LexLe, SortedDeduped(keys, inventory))
    ensures forall p :: p in SortedDeduped(keys, inventory) ==> p in inventory
    ensures forall p :: p in inventory && keys.valid(p) ==>
      HasKey(keys.canon, SortedDeduped(keys, inventory), keys.canon(p))
  {
    LexOrder();
    SortProperties(LexLe, inventory);
    FilterSorted(LexLe, keys.valid, StableSort(LexLe, inventory));
    DedupeSorted(keys.canon, Filter(keys.valid, StableSort(LexLe, inventory)));
    forall p ensures p in StableSort(LexLe, inventory) <==> p in inventory {
      assert p in multiset(StableSort(LexLe, inventory)) <==> p in multiset(inventory);
    }
    KeysPresent(keys, inventory);
    var v := Filter(keys.valid, StableSort(LexLe, inventory));
    DedupeMeaning(keys.canon, v);
    DedupeKeepsFirst(keys.canon, v);
    FilterMembers(keys.valid, StableSort(LexLe, inventory));
    FilterAll(keys.valid, Dedupe(keys.canon, v));
  }

  /** Whatever branch is taken, consumers see the sorted and deduplicated inventory. */
  method OrderedInventory(keys: Keys, inventory: seq<string>) returns (ordered: seq<string>)
    ensures Filter(keys.valid, ordered) == SortedDeduped(keys, inventory)
    ensures UniqueKeys(keys.canon, Filter(keys.valid, ordered))
  {
    DedupeMeaning(keys.canon, Filter(keys.valid, StableSort(LexLe, inventory)));
    var previous: Option<string> := None;
    var adjacentDuplicates := false;
    ghost var v: seq<string> := [];
    for i := 0 to |inventory|
      invariant v == Filter(keys.valid, inventory[..i])
      invariant InOrder(keys, v, previous, adjacentDuplicates)
    {
      var path := inventory[i];
      FilterSnoc(keys, inventory, i);
      if !keys.valid(path) {
        continue;
      }
      var key := keys.canon(path);
      if previous.Some? && (!LexLe(previous.value, path) || !LexLe(keys.canon(previous.value), key)) {
        ordered := SortAndDedupe(keys, inventory);
        return;
      }
      InOrderStep(keys, v, previous, adjacentDuplicates, path);
      adjacentDuplicates := adjacentDuplicates || (previous.Some? && key == keys.canon(previous.value));
      previous := Some(path);
      v := v + [path];
    }
    assert inventory[..|inventory|] == inventory;
    AlreadySorted(keys, inventory);
    if adjacentDuplicates {
      ordered := DropAdjacentDuplicates(keys, inventory);
    } else {
      NoAdjacentDuplicate(keys.canon, v);
      DedupeUnique(keys.canon, v);
      ordered := inventory;
    }
  }

  /** The keyed paths seen so far are in order; the last one and whether a key was repeated are known. */
  ghost predicate InOrder(keys: Keys, v: seq<string>, previous: Option<string>, adjacentDuplicates: bool) {
    && Sorted(LexLe, v) && CanonSorted(keys.canon, v)
    && previous == (if v == [] then None else Some(v[|v| - 1]))
    && (adjacentDuplicates <==> AdjacentDuplicate(keys.canon, v))
  }

  lemma InOrderStep(keys: Keys, v: seq<string>, previous: Option<string>, adjacentDuplicates: bool, path: string)
    requires InOrder(keys, v, previous, adjacentDuplicates)
    requires previous.Some? ==> LexLe(previous.value, path) && LexLe(keys.canon(previous.value), keys.canon(path))
    ensures InOrder(keys, v + [path], Some(path),
                    adjacentDuplicates || (previous.Some? && keys.canon(path) == keys.canon(previous.value)))
  {
    if previous.Some? {
      Extends(keys.canon, v, path);
      AdjacentSnoc(keys.canon, v, path);
    }
  }

  lemma Extends(canon: string -> string, v: seq<string>, path: string)
    requires v != [] && Sorted(LexLe, v) && CanonSorted(canon, v)
    requires LexLe(v[|v| - 1], path) && LexLe(canon(v[|v| - 1]), canon(path))
    ensures Sorted(LexLe, v + [path]) && CanonSorted(canon, v + [path])
  {
    forall i | 0 <= i < |v| ensures LexLe(v[i], path) && LexLe(canon(v[i]), canon(path)) {
      if i < |v| - 1 {
        LexTransitive(v[i], v[|v| - 1], path);
        LexTransitive(canon(v[i]), canon(v[|v| - 1]), canon(path));
      }
    }
  }

  lemma AdjacentSnoc(canon: string -> string, v: seq<string>, path: string)
    requires v != []
    ensures AdjacentDuplicate(canon, v + [path]) <==> AdjacentDuplicate(canon, v) || canon(v[|v| - 1]) == canon(path)
  {
    var w := v + [path];
    assert forall i :: 0 < i < |v| ==> (canon(w[i - 1]) == canon(w[i]) <==> canon(v[i - 1]) == canon(v[i]));
    assert w[|v| - 1] == v[|v| - 1] && w[|v|] == path;
  }

  method SortAndDedupe(keys: Keys, inventory: seq<string>) returns (deduplicated: seq<string>)
    ensures deduplicated == Filter(keys.valid, deduplicated) == SortedDeduped(keys, inventory)
  {
    var sorted := StableSort(LexLe, inventory);
    var seen: set<string> := {};
    deduplicated := [];
    for i := 0 to |sorted|
      invariant deduplicated == Dedupe(keys.canon, Filter(keys.valid, sorted[..i]))
      invariant SeenKeys(keys.canon, Filter(keys.valid, sorted[..i]), seen)
      invariant forall p :: p in deduplicated ==> keys.valid(p)
    {
      ghost var v := Filter(keys.valid, sorted[..i]);
      FilterSnoc(keys, sorted, i);
      if !keys.valid(sorted[i]) {
        continue;
      }
      var key := keys.canon(sorted[i]);
      SeenStep(keys.canon, v, seen, sorted[i]);
      if key in seen {
        continue;
      }
      seen := seen + {key};
      deduplicated := deduplicated + [sorted[i]];
    }
    assert sorted[..|sorted|] == sorted;
    FilterAll(keys.valid, deduplicated);
  }

  ghost predicate SeenKeys(canon: string -> string, v: seq<string>, seen: set<string>) {
    forall key :: key in seen <==> HasKey(canon, v, key)
  }

  lemma SeenStep(canon: string -> string, v: seq<string>, seen: set<string>, p: string)
    requires SeenKeys(canon, v, seen)
    ensures SeenKeys(canon, v + [p], seen + {canon(p)})
    ensures Dedupe(canon, v + [p]) == if canon(p) in seen then Dedupe(canon, v) else Dedupe(canon, v) + [p]
    ensures canon(p) in seen ==> seen + {canon(p)} == seen
  {
    DedupeSnoc(canon, v, p);
    HasKeySnoc(canon, v, p);
  }

  /** One step of adjacent deduplication: comparing with the previous key is enough. */
  lemma DropStep(keys: Keys, inventory: seq<string>, i: nat)
    requires i < |inventory| && CanonSorted(keys.canon, Filter(keys.valid, inventory)) && keys.valid(inventory[i])
    ensures var v := Filter(keys.valid, inventory[..i]);
            && Filter(keys.valid, inventory[..i + 1]) == v + [inventory[i]]
            && Dedupe(keys.canon, v + [inventory[i]]) ==
                 if v != [] && keys.canon(v[|v| - 1]) == keys.canon(inventory[i]) then Dedupe(keys.canon, v)
                 else Dedupe(keys.canon, v) + [inventory[i]]
  {
    var v := Filter(keys.valid, inventory[..i]);
    var w := v + [inventory[i]];
    FilterSnoc(keys, inventory, i);
    FilterPrefix(keys, inventory, i + 1);
    DedupeSnoc(keys.canon, v, inventory[i]);
    RepeatsPrevious(keys.canon, w);
    assert w[..|w| - 1] == v && w[|w| - 1] == inventory[i] && (v != [] ==> w[|w| - 2] == v[|v| - 1]);
  }

  /** What adjacent deduplication has after the first `i` paths: `v` are those with a key. */
  ghost predicate Dropping(keys: Keys, inventory: seq<string>, i: nat, v: seq<string>, deduplicated: seq<string>,
                           previous: Option<string>)
    requires i <= |inventory|
  {
    && v == Filter(keys.valid, inventory[..i]) && deduplicated == Dedupe(keys.canon, v)
    && previous == (if v == [] then None else Some(keys.canon(v[|v| - 1])))
    && forall p :: p in deduplicated ==> keys.valid(p)
  }

  lemma PassOver(keys: Keys, inventory: seq<string>, i: nat, v: seq<string>, deduplicated: seq<string>,
                 previous: Option<string>)
    requires i < |inventory| && Dropping(keys, inventory, i, v, deduplicated, previous) && !keys.valid(inventory[i])
    ensures Dropping(keys, inventory, i + 1, v, deduplicated, previous)
  {
    FilterSnoc(keys, inventory, i);
  }

  lemma DroppingStep(keys: Keys, inventory: seq<string>, i: nat, v: seq<string>, deduplicated: seq<string>,
                     previous: Option<string>, w: seq<string>)
    requires i < |inventory| && CanonSorted(keys.canon, Filter(keys.valid, inventory)) && keys.valid(inventory[i])
    requires Dropping(keys, inventory, i, v, deduplicated, previous) && w == v + [inventory[i]]
    ensures previous == Some(keys.canon(inventory[i])) ==> Dropping(keys, inventory, i + 1, w, deduplicated, previous)
    ensures previous != Some(keys.canon(inventory[i])) ==>
      Dropping(keys, inventory, i + 1, w, deduplicated + [inventory[i]], Some(keys.canon(inventory[i])))
  {
    DropStep(keys, inventory, i);
    assert w[|w| - 1] == inventory[i];
  }

  method DropAdjacentDuplicates(keys: Keys, inventory: seq<string>) returns (deduplicated: seq<string>)
    requires CanonSorted(keys.canon, Filter(keys.valid, inventory))
    ensures deduplicated == Filter(keys.valid, deduplicated) == Dedupe(keys.canon, Filter(keys.valid, inventory))
  {
    deduplicated := [];
    var previous: Option<string> := None;
    ghost var v: seq<string> := [];
    for i := 0 to |inventory|
      invariant Dropping(keys, inventory, i, v, deduplicated, previous)
    {
      if !keys.valid(inventory[i]) {
        PassOver(keys, inventory, i, v, deduplicated, previous);
        continue;
      }
      var key := keys.canon(inventory[i]);
      DroppingStep(keys, inventory, i, v, deduplicated, previous, v + [inventory[i]]);
      v := v + [inventory[i]];
      if previous == Some(key) {
        continue;
      }
      deduplicated := deduplicated + [inventory[i]];
      previous := Some(key);
    }
    assert inventory[..|inventory|] == inventory;
    FilterAll(keys.valid, deduplicated);
  }

  lemma {:induction false} FilterPrefix(keys: Keys, s: seq<string>, i: nat)
    requires i <= |s| && CanonSorted(keys.canon, Filter(keys.valid, s))
    ensures CanonSorted(keys.canon, Filter(keys.valid, s[..i]))
    decreases |s|
  {
    if i < |s| {
      var init := s[..|s| - 1];
      assert init[..i] == s[..i];
      var f := Filter(keys.valid, init);
      assert forall j :: 0 <= j < |f| ==> Filter(keys.valid, s)[j] == f[j];
      FilterPrefix(keys, s[..|s| - 1], i);
    } else {
      assert s[..i] == s;
    }
  }
}
