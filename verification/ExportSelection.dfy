/** The targets a package exports under a subpath (`_package_export_targets` in analyzers/typescript.py). */
module ExportSelection {
  import opened ExportTexts
  import opened ExportTraversal
  import opened Wrappers

  ghost predicate WellFormed(exports: Json) {
    exports.Obj? ==>
      |exports.keys| == |exports.values| && forall i, j ::
        0 <= i < j < |exports.keys| ==> exports.keys[i] != exports.keys[j]
  }

  predicate Dotted(key: Text) {
    key != [] && key[0] == DOT
  }

  predicate HasSubpaths(keys: seq<Text>) {
    exists i :: 0 <= i < |keys| && Dotted(keys[i])
  }

  function ExportKey(subpath: Text): Text {
    if subpath == [] then [DOT] else [DOT, SLASH] + subpath
  }

  /** Targets of the patterns among the first `n` keys, in order. */
  ghost function PatternTargets(keys: seq<Text>, values: seq<Json>, exportKey: Text, n: nat): seq<Text>
    requires n <= |keys| == |values|
  {
    if n == 0 then []
    else
      var init := PatternTargets(keys, values, exportKey, n - 1);
      match MatchPattern(keys[n - 1], exportKey)
      case None => init
      case Some(w) => init + ExpandedAll(Strings(values[n - 1]), Some(w))
  }

  /** What a package exports under a subpath, without limits. */
  ghost function Selected(exports: Json, subpath: Text): seq<Text>
    requires WellFormed(exports)
  {
    match exports
    case Scalar => []
    case Obj(keys, values) =>
      if !HasSubpaths(keys) then (if subpath == [] then Strings(exports) else [])
      else if KeyIndex(keys, ExportKey(subpath)).Some? then Strings(values[KeyIndex(keys, ExportKey(subpath)).value])
      else PatternTargets(keys, values, ExportKey(subpath), |keys|)
    case _ => if subpath == [] then Strings(exports) else []
  }

  /** A subpath is looked up under `./`, and the package itself under `.`. */
  lemma ExactExport(subpath: Text, main: Text, other: Text)
    requires subpath != []
    ensures Selected(Obj([[46], [46, 47] + subpath], [Str(main), Str(other)]), []) == [main]
    ensures Selected(Obj([[46], [46, 47] + subpath], [Str(main), Str(other)]), subpath) == [other]
  {
    var keys: seq<Text> := [[46], [46, 47] + subpath];
    assert Dotted(keys[0]) && HasSubpaths(keys);
    assert keys[0] == [46] && keys[1] == [46, 47] + subpath && |keys[0]| != |keys[1]|;
  }

  /** A key with one wildcard and a target with one: the target takes over what the wildcard stands for. */
  lemma WildcardExport(prefix: Text, suffix: Text, before: Text, after: Text, wildcard: Text, subpath: Text)
    requires STAR !in prefix && STAR !in before && STAR !in after && Dotted(prefix)
    requires ExportKey(subpath) == prefix + wildcard + suffix
    ensures Selected(Obj([prefix + [STAR] + suffix], [Str(before + [STAR] + after)]), subpath)
         == [before + wildcard + after]
  {
    var pattern, target, key := prefix + [STAR] + suffix, before + [STAR] + after, ExportKey(subpath);
    assert pattern[0] == prefix[0] && HasSubpaths([pattern]) by { assert Dotted([pattern][0]); }
    if KeyIndex([pattern], key).Some? {
      assert pattern == key;
      assert wildcard == [STAR] by {
        assert |wildcard| == 1 && pattern[|prefix|] == STAR && key[|prefix|] == wildcard[0];
      }
    } else {
      MatchPatternFinds(prefix, suffix, wildcard);
      SubstituteParts(before, after, wildcard);
      assert PatternTargets([pattern], [Str(target)], key, 0) == [];
      assert PatternTargets([pattern], [Str(target)], key, 1) == ExpandedAll([target], Some(wildcard));
    }
  }

  lemma ExpandedMembers(items: seq<Text>, wildcard: Option<Text>, x: Text)
    ensures x in ExpandedAll(items, wildcard) <==> exists item :: item in items && x == Expanded(item, wildcard)
  {
    var all := ExpandedAll(items, wildcard);
    if x in all {
      var i :| 0 <= i < |all| && all[i] == x;
      assert items[i] in items;
    }
    if item :| item in items && x == Expanded(item, wildcard) {
      var i :| 0 <= i < |items| && items[i] == item;
      assert all[i] == x;
    }
  }

  /** The targets of patterns are exactly the strings of their values with the wildcard put in. */
  lemma {:induction false} PatternTargetsMembers(keys: seq<Text>, values: seq<Json>, exportKey: Text, n: nat, x: Text)
    requires n <= |keys| == |values|
    ensures x in PatternTargets(keys, values, exportKey, n) <==>
      exists k :: 0 <= k < n && IsPatternTarget(keys[k], values[k], exportKey, x)
  {
    if n > 0 {
      PatternTargetsMembers(keys, values, exportKey, n - 1, x);
      PatternTargetsLast(keys, values, exportKey, n - 1, x);
    }
  }

  lemma PatternTargetsLast(keys: seq<Text>, values: seq<Json>, exportKey: Text, n: nat, x: Text)
    requires n < |keys| == |values|
    ensures x in PatternTargets(keys, values, exportKey, n + 1) <==>
      x in PatternTargets(keys, values, exportKey, n) || IsPatternTarget(keys[n], values[n], exportKey, x)
  {
    ExpandedMembers(Strings(values[n]), MatchPattern(keys[n], exportKey), x);
  }

  ghost predicate IsPatternTarget(pattern: Text, value: Json, exportKey: Text, x: Text) {
    var wildcard := MatchPattern(pattern, exportKey);
    wildcard.Some? && exists item :: item in Strings(value) && x == Substitute(item, wildcard.value)
  }

  /** How many keys are looked at until one starts with a dot. */
  ghost function Scanned(keys: seq<Text>): nat {
    if keys == [] then 0
    else if HasSubpaths(keys[..|keys| - 1]) then Scanned(keys[..|keys| - 1])
    else |keys|
  }

  /** Entries in the values of the patterns among the first `n` keys. */
  ghost function PatternNodes(keys: seq<Text>, values: seq<Json>, exportKey: Text, n: nat): nat
    requires n <= |keys| == |values|
  {
    if n == 0 then 0
    else PatternNodes(keys, values, exportKey, n - 1)
         + if MatchPattern(keys[n - 1], exportKey).Some? then Nodes(values[n - 1]) else 0
  }

  /** The keys, the values of the matching patterns and their targets fit the limits together. */
  ghost predicate PatternsFit(keys: seq<Text>, values: seq<Json>, exportKey: Text, start: nat, n: nat)
    requires n <= |keys| == |values|
  {
    && start + n + PatternNodes(keys, values, exportKey, n) <= ENTRY_LIMIT
    && PatternsAcceptable(keys, values, exportKey, n)
    && Retainable(PatternTargets(keys, values, exportKey, n))
  }

  ghost predicate PatternsAcceptable(keys: seq<Text>, values: seq<Json>, exportKey: Text, n: nat)
    requires n <= |keys| == |values|
  {
    forall k :: 0 <= k < n ==> PatternAcceptable(keys[k], values[k], exportKey)
  }

  ghost predicate PatternAcceptable(pattern: Text, value: Json, exportKey: Text) {
    var wildcard := MatchPattern(pattern, exportKey);
    wildcard.Some? ==> AllAcceptable(value, wildcard)
  }

  /** All that selecting and flattening under a subpath looks at and returns fits the limits. */
  ghost predicate SelectionFits(exports: Json, subpath: Text)
    requires WellFormed(exports)
  {
    match exports
    case Scalar => true
    case Obj(keys, values) =>
      var key := ExportKey(subpath);
      && Scanned(keys) <= ENTRY_LIMIT
      && (if !HasSubpaths(keys) then subpath == [] ==> Fits(Scanned(keys), [], exports, None)
          else if KeyIndex(keys, key).Some? then Fits(Scanned(keys), [], values[KeyIndex(keys, key).value], None)
          else PatternsFit(keys, values, key, Scanned(keys), |keys|))
    case _ => subpath == [] ==> Fits(0, [], exports, None)
  }

  lemma {:induction false} PatternNodesGrow(keys: seq<Text>, values: seq<Json>, exportKey: Text, n: nat, m: nat)
    requires n <= m <= |keys| == |values|
    ensures PatternNodes(keys, values, exportKey, n) <= PatternNodes(keys, values, exportKey, m)
    ensures PatternTargets(keys, values, exportKey, n) <= PatternTargets(keys, values, exportKey, m)
    decreases m
  {
    if n < m { PatternNodesGrow(keys, values, exportKey, n, m - 1); }
  }

  /** Fewer patterns fit if more do. */
  lemma PatternsFitPrefix(keys: seq<Text>, values: seq<Json>, exportKey: Text, start: nat, n: nat, m: nat)
    requires n <= m <= |keys| == |values| && PatternsFit(keys, values, exportKey, start, m)
    ensures PatternsFit(keys, values, exportKey, start, n)
  {
    PatternNodesGrow(keys, values, exportKey, n, m);
    RetainablePrefix(PatternTargets(keys, values, exportKey, n), PatternTargets(keys, values, exportKey, m));
  }

  lemma PatternsAcceptableStep(keys: seq<Text>, values: seq<Json>, exportKey: Text, n: nat)
    requires n < |keys| == |values|
    ensures PatternsAcceptable(keys, values, exportKey, n + 1) <==>
      PatternsAcceptable(keys, values, exportKey, n) && PatternAcceptable(keys[n], values[n], exportKey)
  {
  }

  lemma UnmatchedPattern(keys: seq<Text>, values: seq<Json>, exportKey: Text, start: nat, n: nat)
    requires n < |keys| == |values| && PatternsFit(keys, values, exportKey, start, n)
    requires MatchPattern(keys[n], exportKey).None?
    ensures PatternsFit(keys, values, exportKey, start, n + 1) <==>
      start + n + PatternNodes(keys, values, exportKey, n) + 1 <= ENTRY_LIMIT
  {
    PatternsAcceptableStep(keys, values, exportKey, n);
  }

  /** What one more matching pattern adds. */
  lemma MatchedStep(keys: seq<Text>, values: seq<Json>, exportKey: Text, n: nat, wildcard: Option<Text>)
    requires n < |keys| == |values| && wildcard == MatchPattern(keys[n], exportKey) && wildcard.Some?
    ensures PatternTargets(keys, values, exportKey, n + 1)
         == PatternTargets(keys, values, exportKey, n) + ExpandedAll(Strings(values[n]), wildcard)
    ensures PatternNodes(keys, values, exportKey, n + 1) == PatternNodes(keys, values, exportKey, n) + Nodes(values[n])
    ensures PatternsAcceptable(keys, values, exportKey, n + 1) <==>
      PatternsAcceptable(keys, values, exportKey, n) && AllAcceptable(values[n], wildcard)
  {
    PatternsAcceptableStep(keys, values, exportKey, n);
  }

  ghost predicate AllAcceptable(value: Json, wildcard: Option<Text>) {
    forall i :: 0 <= i < |Strings(value)| ==> Acceptable(Strings(value)[i], wildcard)
  }

  lemma MatchedPattern(keys: seq<Text>, values: seq<Json>, exportKey: Text, start: nat, n: nat, wildcard: Option<Text>,
                       before: seq<Text>)
    requires n < |keys| == |values| && PatternsFit(keys, values, exportKey, start, n)
    requires wildcard == MatchPattern(keys[n], exportKey) && wildcard.Some?
    requires before == PatternTargets(keys, values, exportKey, n)
    ensures PatternsFit(keys, values, exportKey, start, n + 1) <==>
      Fits(start + n + PatternNodes(keys, values, exportKey, n) + 1, before, values[n], wildcard)
  {
    MatchedStep(keys, values, exportKey, n, wildcard);
  }

  /** Looks for a key that starts with a dot, one entry for each key looked at. */
  method ScanKeys(traversal: PackageExportTraversal, keys: seq<Text>) returns (ok: bool, subpaths: bool)
    requires traversal.Valid()
    modifies traversal
    ensures traversal.Valid() && traversal.offered == old(traversal.offered)
    ensures ok <==> old(traversal.entries) + Scanned(keys) <= ENTRY_LIMIT
    ensures ok ==> subpaths == HasSubpaths(keys) && traversal.truncated == old(traversal.truncated)
    ensures ok ==> traversal.entries == old(traversal.entries) + Scanned(keys)
    ensures !ok ==> traversal.truncated
  {
    subpaths := false;
    for i := 0 to |keys|
      invariant traversal.Valid() && traversal.offered == old(traversal.offered)
      invariant traversal.truncated == old(traversal.truncated)
      invariant !subpaths && !HasSubpaths(keys[..i])
      invariant traversal.entries == old(traversal.entries) + i
    {
      ScannedAt(keys, i);
      ok := traversal.Visit();
      if !ok {
        return;
      }
      if Dotted(keys[i]) {
        return true, true;
      }
      assert keys[..i + 1] == keys[..i] + [keys[i]];
    }
    assert keys[..|keys|] == keys;
    assert keys != [] ==> !HasSubpaths(keys[..|keys| - 1]);
    ok := true;
  }

  /** No key before `i` starts with a dot: key `i` is looked at, and is the last if it does. */
  lemma {:induction false} ScannedAt(keys: seq<Text>, i: nat)
    requires i < |keys| && !HasSubpaths(keys[..i])
    ensures Scanned(keys) >= i + 1
    ensures Dotted(keys[i]) ==> Scanned(keys) == i + 1
    decreases |keys|
  {
    var init := keys[..|keys| - 1];
    if i < |init| {
      assert init[..i] == keys[..i];
      ScannedAt(init, i);
      assert Dotted(keys[i]) ==> Dotted(init[i]);
    }
  }

  /** Where the pattern loop stands after `n` keys. */
  ghost predicate PatternsSoFar(keys: seq<Text>, values: seq<Json>, exportKey: Text, start: nat, n: nat,
                                truncated: bool, entries: nat, offered: seq<Text>)
    requires n <= |keys| == |values|
  {
    && (forall x :: x in offered ==> x in PatternTargets(keys, values, exportKey, n))
    && (truncated ==> !PatternsFit(keys, values, exportKey, start, |keys|))
    && (!truncated ==>
          && PatternsFit(keys, values, exportKey, start, n)
          && entries == start + n + PatternNodes(keys, values, exportKey, n)
          && offered == PatternTargets(keys, values, exportKey, n))
  }

  /** No entry was left for the next key. */
  lemma PatternsStopped(keys: seq<Text>, values: seq<Json>, exportKey: Text, start: nat, n: nat, truncated: bool,
                        entries: nat, offered: seq<Text>)
    requires n < |keys| == |values| && entries >= ENTRY_LIMIT
    requires PatternsSoFar(keys, values, exportKey, start, n, truncated, entries, offered)
    ensures PatternsSoFar(keys, values, exportKey, start, |keys|, true, entries, offered)
  {
    PatternNodesGrow(keys, values, exportKey, n, |keys|);
  }

  /** The next key was visited and does not match. */
  lemma PatternPassed(keys: seq<Text>, values: seq<Json>, exportKey: Text, start: nat, n: nat, truncated: bool,
                      entries: nat, offered: seq<Text>)
    requires n < |keys| == |values| && 0 < entries <= ENTRY_LIMIT && MatchPattern(keys[n], exportKey).None?
    requires PatternsSoFar(keys, values, exportKey, start, n, truncated, entries - 1, offered)
    ensures PatternsSoFar(keys, values, exportKey, start, n + 1, truncated, entries, offered)
  {
    if !truncated { UnmatchedPattern(keys, values, exportKey, start, n); }
  }

  /** The next key was visited and its value offered. */
  lemma PatternOffered(keys: seq<Text>, values: seq<Json>, exportKey: Text, start: nat, n: nat, truncated: bool,
                       wildcard: Option<Text>, entries: nat, offered: seq<Text>, finished: bool, after: nat,
                       more: seq<Text>)
    requires n < |keys| == |values| && 0 < entries <= ENTRY_LIMIT
    requires wildcard == MatchPattern(keys[n], exportKey) && wildcard.Some?
    requires PatternsSoFar(keys, values, exportKey, start, n, truncated, entries - 1, offered)
    requires IsOffer(values[n], wildcard, entries, offered, finished, after, more)
    ensures PatternsSoFar(keys, values, exportKey, start, n + 1, truncated || !finished, after, more)
  {
    PrefixMembers(offered, more, ExpandedAll(Strings(values[n]), wildcard));
    if !truncated {
      MatchedPattern(keys, values, exportKey, start, n, wildcard, offered);
      if !finished && PatternsFit(keys, values, exportKey, start, |keys|) {
        PatternsFitPrefix(keys, values, exportKey, start, n + 1, |keys|);
      }
    }
  }

  /** Visits one key, and its value if it matches. */
  method MatchKey(traversal: PackageExportTraversal, keys: seq<Text>, values: seq<Json>, exportKey: Text,
                  ghost start: nat, i: nat)
    returns (visited: bool)
    requires traversal.Valid() && i < |keys| == |values|
    requires PatternsSoFar(keys, values, exportKey, start, i, traversal.truncated, traversal.entries, traversal.offered)
    modifies traversal
    ensures traversal.Valid()
    ensures PatternsSoFar(keys, values, exportKey, start, if visited then i + 1 else |keys|, traversal.truncated,
                          traversal.entries, traversal.offered)
  {
    ghost var was := traversal.truncated;
    visited := traversal.Visit();
    if !visited {
      PatternsStopped(keys, values, exportKey, start, i, was, traversal.entries, traversal.offered);
      return;
    }
    var wildcard := MatchPattern(keys[i], exportKey);
    if wildcard.None? {
      PatternPassed(keys, values, exportKey, start, i, was, traversal.entries, traversal.offered);
      return;
    }
    ghost var entries, before := traversal.entries, traversal.offered;
    var _, finished := traversal.IterStrings(values[i], wildcard);
    PatternOffered(keys, values, exportKey, start, i, was, wildcard, entries, before, finished, traversal.entries,
                   traversal.offered);
  }

  /** The patterns of an exports object, each visited once. */
  method MatchKeys(traversal: PackageExportTraversal, keys: seq<Text>, values: seq<Json>, exportKey: Text)
    requires traversal.Valid() && |keys| == |values| && traversal.offered == [] && !traversal.truncated
    modifies traversal
    ensures traversal.Valid()
    ensures PatternsSoFar(keys, values, exportKey, old(traversal.entries), |keys|, traversal.truncated,
                          traversal.entries, traversal.offered)
  {
    ghost var start := traversal.entries;
    for i := 0 to |keys|
      invariant traversal.Valid()
      invariant PatternsSoFar(keys, values, exportKey, start, i, traversal.truncated, traversal.entries,
                              traversal.offered)
    {
      var visited := MatchKey(traversal, keys, values, exportKey, start, i);
      if !visited {
        return;
      }
    }
  }

  lemma PrefixMembers(before: seq<Text>, offered: seq<Text>, more: seq<Text>)
    requires before <= offered <= before + more
    ensures forall x :: x in offered ==> x in before || x in more
  {
    forall x | x in offered ensures x in before || x in more {
      assert x in before + more;
    }
  }

  /** A limit is reported exactly when the selection does not fit; otherwise the targets are the first
      occurrences of what the recursive flatten of the selected values gives. Whatever was reported, the
      limits hold and nothing else is returned. */
  method PackageExportTargets(exports: Json, subpath: Text) returns (targets: seq<Text>, limited: bool)
    requires WellFormed(exports)
    ensures limited <==> !SelectionFits(exports, subpath)
    ensures !limited ==> targets == FirstOccurrences(Selected(exports, subpath))
    ensures forall x :: x in targets ==> x in Selected(exports, subpath)
    ensures |targets| <= TARGET_LIMIT && TotalBytes(targets) <= TARGET_BYTES_LIMIT
    ensures EachSmall(targets)
  {
    var traversal := new PackageExportTraversal();
    var exportKey := ExportKey(subpath);
    match exports {
      case Scalar =>
      case Obj(keys, values) =>
        var ok, subpaths := ScanKeys(traversal, keys);
        if ok {
          var at := KeyIndex(keys, exportKey);
          if !subpaths {
            if subpath == [] {
              Collect(traversal, exports);
            }
          } else if at.Some? {
            Collect(traversal, values[at.value]);
          } else {
            MatchKeys(traversal, keys, values, exportKey);
          }
        }
      case _ =>
        if subpath == [] {
          Collect(traversal, exports);
        }
    }
    FirstOccurrencesMeaning(traversal.offered);
    targets, limited := traversal.targets, traversal.truncated;
  }

  method Collect(traversal: PackageExportTraversal, value: Json)
    requires traversal.Valid() && traversal.offered == [] && !traversal.truncated
    modifies traversal
    ensures traversal.Valid()
    ensures !traversal.truncated <==> Fits(old(traversal.entries), [], value, None)
    ensures !traversal.truncated ==> traversal.offered == Strings(value)
    ensures forall x :: x in traversal.offered ==> x in Strings(value)
  {
    var _, _ := traversal.IterStrings(value, None);
    assert ExpandedAll(Strings(value), None) == Strings(value);
    PrefixMembers([], traversal.offered, Strings(value));
  }
}
