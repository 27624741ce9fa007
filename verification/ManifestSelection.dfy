/**
 Choosing the entries of one manifest section under an entry limit and under a byte limit
 (`_plan_typescript_file_manifest` and `_limit_typescript_manifest_section_keys_by_bytes` in
 analyzers/typescript.py). Both choose critical paths first; the stream later emits the chosen
 ones in inventory order.
 */
module ManifestSelection {
  import opened Collections
  import opened InventoryOrder
  import opened InventoryPaths
  import opened Ordering
  import opened Wrappers

  /** Everything the manifest code reads off paths. `encode` is the JSON text of a path, one ASCII
      character a byte; `reachable` holds the canonical keys of the reachable configs. */
  datatype View = View(keys: Keys, facts: PathFacts<string>, encode: string -> string, reachable: set<string>)

  predicate InSection(v: View, section: Section, path: string) {
    && v.keys.valid(path)
    && match section
       case Files => v.facts.sourceSuffix(path)
       case PackageFiles => v.facts.packageJson(path)
       case ConfigFiles => v.facts.configSuffix(path) || v.keys.canon(path) in v.reachable
  }

  predicate CriticalIn(v: View, section: Section, path: string) {
    match section
    case Files => v.keys.canon(path) in v.reachable
    case PackageFiles => true
    case ConfigFiles => v.facts.Critical(path, false) || v.keys.canon(path) in v.reachable
  }

  /** The paths a section iterates over, in inventory order. */
  function Candidates(v: View, section: Section, inventory: seq<string>): seq<string> {
    Filter(p => InSection(v, section, p), inventory)
  }

  function OfClass(v: View, section: Section, critical: bool, paths: seq<string>): seq<string> {
    if paths == [] then []
    else
      var init, last := OfClass(v, section, critical, paths[..|paths| - 1]), paths[|paths| - 1];
      if CriticalIn(v, section, last) == critical then init + [last] else init
  }

  /** The order in which entries are considered for selection. */
  function CriticalFirst(v: View, section: Section, paths: seq<string>): seq<string> {
    OfClass(v, section, true, paths) + OfClass(v, section, false, paths)
  }

  ghost function KeysOf(v: View, paths: seq<string>): set<string> {
    set p | p in paths :: v.keys.canon(p)
  }

  /** The paths that are emitted for a selection; `None` selects all. */
  function KeptOf(v: View, paths: seq<string>, selected: Option<set<string>>): seq<string> {
    if paths == [] then []
    else
      var init, last := KeptOf(v, paths[..|paths| - 1], selected), paths[|paths| - 1];
      if selected.None? || v.keys.canon(last) in selected.value then init + [last] else init
  }

  /** Bytes of the comma-separated encoded paths. */
  function ListSize(v: View, paths: seq<string>): nat {
    if paths == [] then 0
    else ListSize(v, paths[..|paths| - 1]) + |v.encode(paths[|paths| - 1])| + if |paths| > 1 then 1 else 0
  }

  /** Distinct paths with distinct keys. */
  ghost predicate Keyed(v: View, paths: seq<string>) {
    UniqueKeys(v.keys.canon, paths)
  }

  // ------------------------------------------------------------------ selections as sets of paths

  lemma {:induction false} OfClassMembers(v: View, section: Section, critical: bool, paths: seq<string>)
    requires Keyed(v, paths)
    ensures Keyed(v, OfClass(v, section, critical, paths))
    ensures forall p ::
      p in OfClass(v, section, critical, paths) <==> p in paths && CriticalIn(v, section, p) == critical
    decreases |paths|
  {
    if paths != [] {
      OfClassMembers(v, section, critical, paths[..|paths| - 1]);
      assert paths == paths[..|paths| - 1] + [paths[|paths| - 1]];
      Separate(v, paths[..|paths| - 1], paths[|paths| - 1]);
    }
  }

  /** The last key of keyed paths occurs nowhere before. */
  lemma Separate(v: View, init: seq<string>, last: string)
    requires Keyed(v, init + [last])
    ensures Keyed(v, init) && forall p :: p in init ==> v.keys.canon(p) != v.keys.canon(last)
  {
    var s := init + [last];
    forall p | p in init ensures v.keys.canon(p) != v.keys.canon(last) {
      var i :| 0 <= i < |init| && init[i] == p;
      assert s[i] == p && s[|init|] == last;
    }
    assert forall i :: 0 <= i < |init| ==> s[i] == init[i];
  }

  lemma CriticalFirstMembers(v: View, section: Section, paths: seq<string>)
    requires Keyed(v, paths)
    ensures Keyed(v, CriticalFirst(v, section, paths))
    ensures forall p :: p in CriticalFirst(v, section, paths) <==> p in paths
  {
    OfClassMembers(v, section, true, paths);
    OfClassMembers(v, section, false, paths);
    var a, b := OfClass(v, section, true, paths), OfClass(v, section, false, paths);
    forall i, j | 0 <= i < |a| && 0 <= j < |b| ensures v.keys.canon(a[i]) != v.keys.canon(b[j]) {
      assert a[i] in paths && b[j] in paths;
      SameKeySamePath(v, paths, a[i], b[j]);
    }
  }

  lemma SameKeySamePath(v: View, paths: seq<string>, p: string, q: string)
    requires Keyed(v, paths) && p in paths && q in paths
    ensures v.keys.canon(p) == v.keys.canon(q) ==> p == q
  {
  }

  lemma {:induction false} KeptMembers(v: View, paths: seq<string>, selected: Option<set<string>>)
    requires Keyed(v, paths)
    ensures Keyed(v, KeptOf(v, paths, selected))
    ensures forall p :: p in KeptOf(v, paths, selected) <==>
      p in paths && (selected.None? || v.keys.canon(p) in selected.value)
    ensures |KeptOf(v, paths, selected)| <= |paths|
    ensures selected.None? ==> KeptOf(v, paths, selected) == paths
    decreases |paths|
  {
    if paths != [] {
      KeptMembers(v, paths[..|paths| - 1], selected);
      assert paths == paths[..|paths| - 1] + [paths[|paths| - 1]];
      Separate(v, paths[..|paths| - 1], paths[|paths| - 1]);
    }
  }

  lemma {:induction false} KeysCount(v: View, paths: seq<string>)
    requires Keyed(v, paths)
    ensures |KeysOf(v, paths)| == |paths|
    decreases |paths|
  {
    if paths != [] {
      var init, last := paths[..|paths| - 1], paths[|paths| - 1];
      assert paths == init + [last];
      Separate(v, init, last);
      KeysCount(v, init);
      assert KeysOf(v, paths) == KeysOf(v, init) + {v.keys.canon(last)};
    }
  }

  // ------------------------------------------------------------------ sizes do not depend on order

  ghost function EncodedSize(v: View, paths: seq<string>): nat {
    if paths == [] then 0 else EncodedSize(v, paths[..|paths| - 1]) + |v.encode(paths[|paths| - 1])|
  }

  lemma {:induction false} ListSizeParts(v: View, paths: seq<string>)
    ensures ListSize(v, paths) == EncodedSize(v, paths) + if paths == [] then 0 else |paths| - 1
    decreases |paths|
  {
    if paths != [] { ListSizeParts(v, paths[..|paths| - 1]); }
  }

  lemma {:induction false} EncodedSizeWithout(v: View, paths: seq<string>, i: nat)
    requires i < |paths|
    ensures EncodedSize(v, paths[..i] + paths[i + 1..]) == EncodedSize(v, paths) - |v.encode(paths[i])|
    decreases |paths|
  {
    var n := |paths| - 1;
    if i < n {
      EncodedSizeWithout(v, paths[..n], i);
      assert (paths[..i] + paths[i + 1..])[..n - 1] == paths[..n][..i] + paths[..n][i + 1..];
    } else {
      assert paths[..i] + paths[i + 1..] == paths[..n];
    }
  }

  lemma {:induction false} SameMembersSameSize(v: View, a: seq<string>, b: seq<string>)
    requires Keyed(v, a) && Keyed(v, b) && forall p :: p in a <==> p in b
    ensures ListSize(v, a) == ListSize(v, b) && |a| == |b|
  {
    SameMembersSameEncodedSize(v, a, b);
    ListSizeParts(v, a);
    ListSizeParts(v, b);
  }

  lemma {:induction false} SameMembersSameEncodedSize(v: View, a: seq<string>, b: seq<string>)
    requires Keyed(v, a) && Keyed(v, b) && forall p :: p in a <==> p in b
    ensures EncodedSize(v, a) == EncodedSize(v, b) && |a| == |b|
    decreases |a|
  {
    if a == [] {
      assert forall i :: 0 <= i < |b| ==> b[i] in b;
    } else {
      var init, last := a[..|a| - 1], a[|a| - 1];
      assert a == init + [last];
      Separate(v, init, last);
      assert last in a;
      var i :| 0 <= i < |b| && b[i] == last;
      var rest := b[..i] + b[i + 1..];
      WithoutMembers(v, b, i);
      assert forall p :: p in init <==> p in a && p != last;
      assert forall p :: p in init <==> p in rest;
      SameMembersSameEncodedSize(v, init, rest);
      EncodedSizeWithout(v, b, i);
    }
  }

  lemma WithoutMembers(v: View, b: seq<string>, i: nat)
    requires Keyed(v, b) && i < |b|
    ensures Keyed(v, b[..i] + b[i + 1..])
    ensures forall p :: p in b[..i] + b[i + 1..] <==> p in b && p != b[i]
  {
    var rest := b[..i] + b[i + 1..];
    assert forall j :: 0 <= j < |rest| ==> rest[j] == b[if j < i then j else j + 1];
    forall p | p in b && p != b[i] ensures p in rest {
      var j :| 0 <= j < |b| && b[j] == p;
      assert rest[if j < i then j else j - 1] == p;
    }
  }

  /** Emitting a selection in inventory order takes the bytes that were added up in selection order. */
  lemma EmittedSize(v: View, paths: seq<string>, chosen: seq<string>)
    requires Keyed(v, paths) && Keyed(v, chosen) && forall p :: p in chosen ==> p in paths
    ensures ListSize(v, KeptOf(v, paths, Some(KeysOf(v, chosen)))) == ListSize(v, chosen)
    ensures |KeptOf(v, paths, Some(KeysOf(v, chosen)))| == |chosen|
    ensures forall p :: p in KeptOf(v, paths, Some(KeysOf(v, chosen))) <==> p in chosen
  {
    var kept := KeptOf(v, paths, Some(KeysOf(v, chosen)));
    KeptMembers(v, paths, Some(KeysOf(v, chosen)));
    forall p | p in kept ensures p in chosen {
      var q :| q in chosen && v.keys.canon(q) == v.keys.canon(p);
      SameKeySamePath(v, paths, p, q);
    }
    SameMembersSameSize(v, kept, chosen);
  }

  // ------------------------------------------------------------------ the entry limit

  method SelectEntries(v: View, section: Section, paths: seq<string>, limit: nat) returns (selected: set<string>)
    requires Keyed(v, paths)
    ensures selected == KeysOf(v, Take(limit, CriticalFirst(v, section, paths)))
  {
    CriticalFirstMembers(v, section, paths);
    OfClassMembers(v, section, true, paths);
    assert [] + OfClass(v, section, true, paths) == OfClass(v, section, true, paths);
    assert KeysOf(v, Take(limit, [])) == {};
    selected := SelectEntryPass(v, section, paths, limit, true, {}, []);
    selected := SelectEntryPass(v, section, paths, limit, false, selected, OfClass(v, section, true, paths));
  }

  /** Adds paths of one class until the limit is reached, after those of `before`. */
  method SelectEntryPass(v: View, section: Section, paths: seq<string>, limit: nat, critical: bool,
                         start: set<string>, ghost before: seq<string>)
    returns (selected: set<string>)
    requires start == KeysOf(v, Take(limit, before))
    requires Keyed(v, before + OfClass(v, section, critical, paths))
    ensures selected == KeysOf(v, Take(limit, before + OfClass(v, section, critical, paths)))
  {
    selected := start;
    assert before + OfClass(v, section, critical, []) == before;
    for i := 0 to |paths|
      invariant selected == KeysOf(v, Take(limit, before + OfClass(v, section, critical, paths[..i])))
    {
      EntriesFull(v, section, critical, paths, before, limit, i);
      if |selected| >= limit {
        return;
      }
      EntryAdded(v, section, critical, paths, before, limit, i);
      if CriticalIn(v, section, paths[i]) != critical {
        continue;
      }
      selected := selected + {v.keys.canon(paths[i])};
    }
    assert paths[..|paths|] == paths;
  }

  lemma TakePrefix(limit: nat, a: seq<string>, b: seq<string>)
    requires a <= b && |a| >= limit
    ensures Take(limit, a) == Take(limit, b)
  {
  }

  /** At the limit the choice is final. */
  lemma EntriesFull(v: View, section: Section, critical: bool, paths: seq<string>, before: seq<string>, limit: nat,
                    i: nat)
    requires i <= |paths| && Keyed(v, before + OfClass(v, section, critical, paths))
    ensures var soFar := before + OfClass(v, section, critical, paths[..i]);
            var all := before + OfClass(v, section, critical, paths);
            && |KeysOf(v, Take(limit, soFar))| == |Take(limit, soFar)|
            && (|soFar| >= limit ==> Take(limit, soFar) == Take(limit, all))
  {
    var soFar, all := before + OfClass(v, section, critical, paths[..i]), before + OfClass(v, section, critical, paths);
    OfClassPrefix(v, section, critical, paths, i);
    assert soFar <= all;
    KeysCount(v, Take(limit, soFar));
    if |soFar| >= limit { TakePrefix(limit, soFar, all); }
  }

  /** Below it, one more path of the class adds its key. */
  lemma EntryAdded(v: View, section: Section, critical: bool, paths: seq<string>, before: seq<string>, limit: nat,
                   i: nat)
    requires i < |paths| && |before + OfClass(v, section, critical, paths[..i])| < limit
    ensures var soFar := before + OfClass(v, section, critical, paths[..i]);
            var next := before + OfClass(v, section, critical, paths[..i + 1]);
            KeysOf(v, Take(limit, next)) ==
              if CriticalIn(v, section, paths[i]) == critical
                then KeysOf(v, Take(limit, soFar)) + {v.keys.canon(paths[i])}
              else KeysOf(v, Take(limit, soFar))
  {
    var soFar := before + OfClass(v, section, critical, paths[..i]);
    assert paths[..i + 1][..i] == paths[..i];
    if CriticalIn(v, section, paths[i]) == critical {
      assert before + OfClass(v, section, critical, paths[..i + 1]) == soFar + [paths[i]];
      KeysSnoc(v, soFar, paths[i]);
    }
  }

  lemma KeysSnoc(v: View, paths: seq<string>, p: string)
    ensures KeysOf(v, paths + [p]) == KeysOf(v, paths) + {v.keys.canon(p)}
  {
  }

  lemma {:induction false} OfClassPrefix(v: View, section: Section, critical: bool, paths: seq<string>, i: nat)
    requires i <= |paths|
    ensures OfClass(v, section, critical, paths[..i]) <= OfClass(v, section, critical, paths)
    decreases |paths|
  {
    if i < |paths| {
      assert paths[..|paths| - 1][..i] == paths[..i];
      OfClassPrefix(v, section, critical, paths[..|paths| - 1], i);
    } else {
      assert paths[..i] == paths;
    }
  }

  // ------------------------------------------------------------------ the byte limit

  /** Greedy choice in order: every path that still fits is taken, larger ones are passed over. */
  function Pick(v: View, paths: seq<string>, limit: nat): seq<string> {
    if paths == [] then []
    else
      var chosen, last := Pick(v, paths[..|paths| - 1], limit), paths[|paths| - 1];
      if ListSize(v, chosen + [last]) <= limit then chosen + [last] else chosen
  }

  lemma {:induction false} PickMembers(v: View, paths: seq<string>, limit: nat)
    requires Keyed(v, paths)
    ensures Keyed(v, Pick(v, paths, limit)) && ListSize(v, Pick(v, paths, limit)) <= limit
    ensures forall p :: p in Pick(v, paths, limit) ==> p in paths
    decreases |paths|
  {
    if paths != [] {
      var init, last := paths[..|paths| - 1], paths[|paths| - 1];
      PickMembers(v, init, limit);
      assert paths == init + [last];
      Separate(v, init, last);
      KeyedSnoc(v, Pick(v, init, limit), last);
    }
  }

  lemma KeyedSnoc(v: View, s: seq<string>, p: string)
    requires Keyed(v, s) && forall q :: q in s ==> v.keys.canon(q) != v.keys.canon(p)
    ensures Keyed(v, s + [p])
  {
    assert forall i :: 0 <= i < |s| ==> s[i] in s;
  }

  /** What considering one more path does to the greedy choice. */
  lemma PickStep(v: View, all: seq<string>, path: string, limit: nat)
    ensures var chosen := Pick(v, all, limit);
            var size := ListSize(v, chosen) + |v.encode(path)| + if chosen != [] then 1 else 0;
            && ListSize(v, chosen + [path]) == size
            && Pick(v, all + [path], limit) == if size <= limit then chosen + [path] else chosen
  {
    var chosen := Pick(v, all, limit);
    assert (all + [path])[..|all|] == all && (chosen + [path])[..|chosen|] == chosen;
  }

  lemma ConsiderStep(v: View, section: Section, critical: bool, paths: seq<string>, candidates: Option<set<string>>,
                     i: nat)
    requires i < |paths|
    ensures var before := OfClass(v, section, critical, KeptOf(v, paths[..i], candidates));
            OfClass(v, section, critical, KeptOf(v, paths[..i + 1], candidates)) ==
              if (candidates.None? || v.keys.canon(paths[i]) in candidates.value)
                 && CriticalIn(v, section, paths[i]) == critical
              then before + [paths[i]] else before
  {
    assert paths[..i + 1][..i] == paths[..i];
    var kept := KeptOf(v, paths[..i], candidates);
    assert (kept + [paths[i]])[..|kept|] == kept;
  }

  method SelectByBytes(v: View, section: Section, paths: seq<string>, candidates: Option<set<string>>, limit: nat)
    returns (selected: set<string>)
    requires Keyed(v, paths)
    ensures selected == KeysOf(v, Pick(v, CriticalFirst(v, section, KeptOf(v, paths, candidates)), limit))
    ensures ListSize(v, KeptOf(v, paths, Some(selected))) <= limit
    ensures forall p :: p in KeptOf(v, paths, Some(selected)) ==> p in KeptOf(v, paths, candidates)
  {
    var bytes := 0;
    ghost var kept := KeptOf(v, paths, candidates);
    selected, bytes := SelectBytePass(v, section, paths, candidates, limit, true, {}, 0, []);
    assert [] + OfClass(v, section, true, kept) == OfClass(v, section, true, kept);
    selected, bytes := SelectBytePass(v, section, paths, candidates, limit, false, selected, bytes,
                                      OfClass(v, section, true, kept));
    ghost var chosen := Pick(v, CriticalFirst(v, section, kept), limit);
    KeptMembers(v, paths, candidates);
    CriticalFirstMembers(v, section, kept);
    PickMembers(v, CriticalFirst(v, section, kept), limit);
    EmittedSize(v, paths, chosen);
  }

  method SelectBytePass(v: View, section: Section, paths: seq<string>, candidates: Option<set<string>>, limit: nat,
                        critical: bool, start: set<string>, startBytes: nat, ghost before: seq<string>)
    returns (selected: set<string>, bytes: nat)
    requires start == KeysOf(v, Pick(v, before, limit)) && startBytes == ListSize(v, Pick(v, before, limit))
    ensures var all := before + OfClass(v, section, critical, KeptOf(v, paths, candidates));
            selected == KeysOf(v, Pick(v, all, limit)) && bytes == ListSize(v, Pick(v, all, limit))
  {
    selected, bytes := start, startBytes;
    ghost var chosen := Pick(v, before, limit);
    assert before + OfClass(v, section, critical, KeptOf(v, [], candidates)) == before;
    for i := 0 to |paths|
      invariant chosen == Pick(v, before + OfClass(v, section, critical, KeptOf(v, paths[..i], candidates)), limit)
      invariant selected == KeysOf(v, chosen) && bytes == ListSize(v, chosen)
    {
      var path := paths[i];
      var key := v.keys.canon(path);
      ConsiderStep(v, section, critical, paths, candidates, i);
      ByteStep(v, before, OfClass(v, section, critical, KeptOf(v, paths[..i], candidates)), path, limit);
      if (candidates.None? || key in candidates.value) && CriticalIn(v, section, path) == critical {
        NonemptyKeys(v, chosen);
        var additional := |v.encode(path)| + if selected != {} then 1 else 0;
        if bytes + additional <= limit {
          KeysSnoc(v, chosen, path);
          chosen := chosen + [path];
          selected := selected + {key};
          bytes := bytes + additional;
        }
      }
    }
    assert paths[..|paths|] == paths;
  }

  lemma ByteStep(v: View, before: seq<string>, considered: seq<string>, path: string, limit: nat)
    ensures var chosen := Pick(v, before + considered, limit);
            var size := ListSize(v, chosen) + |v.encode(path)| + if chosen != [] then 1 else 0;
            && ListSize(v, chosen + [path]) == size
            && Pick(v, before + (considered + [path]), limit) == if size <= limit then chosen + [path] else chosen
  {
    PickStep(v, before + considered, path, limit);
    assert before + considered + [path] == before + (considered + [path]);
  }

  lemma NonemptyKeys(v: View, paths: seq<string>)
    ensures KeysOf(v, paths) == {} <==> paths == []
  {
    if paths != [] { assert v.keys.canon(paths[0]) in KeysOf(v, paths); }
  }

  // ------------------------------------------------------------------ what is considered before what

  /** The `i`-th path is considered before the `j`-th: critical ones first, each class in inventory order. */
  ghost predicate Ahead(v: View, section: Section, paths: seq<string>, i: nat, j: nat) {
    && i < |paths| && j < |paths|
    && if CriticalIn(v, section, paths[i]) == CriticalIn(v, section, paths[j]) then i < j
       else CriticalIn(v, section, paths[i])
  }

  ghost function ClassIndex(v: View, section: Section, critical: bool, paths: seq<string>, i: nat): nat
    requires i <= |paths|
  {
    |OfClass(v, section, critical, paths[..i])|
  }

  /** Where the `i`-th path comes in the order of selection. */
  ghost function Rank(v: View, section: Section, paths: seq<string>, i: nat): nat
    requires i < |paths|
  {
    if CriticalIn(v, section, paths[i]) then ClassIndex(v, section, true, paths, i)
    else |OfClass(v, section, true, paths)| + ClassIndex(v, section, false, paths, i)
  }

  lemma ClassAt(v: View, section: Section, paths: seq<string>, i: nat)
    requires i < |paths|
    ensures var critical := CriticalIn(v, section, paths[i]);
            && ClassIndex(v, section, critical, paths, i) < |OfClass(v, section, critical, paths)|
            && OfClass(v, section, critical, paths)[ClassIndex(v, section, critical, paths, i)] == paths[i]
            && ClassIndex(v, section, critical, paths, i) < ClassIndex(v, section, critical, paths, i + 1)
  {
    var critical := CriticalIn(v, section, paths[i]);
    assert paths[..i + 1][..i] == paths[..i];
    assert OfClass(v, section, critical, paths[..i + 1]) == OfClass(v, section, critical, paths[..i]) + [paths[i]];
    OfClassPrefix(v, section, critical, paths, i + 1);
  }

  lemma ClassIndexGrows(v: View, section: Section, critical: bool, paths: seq<string>, i: nat, j: nat)
    requires i <= j <= |paths|
    ensures ClassIndex(v, section, critical, paths, i) <= ClassIndex(v, section, critical, paths, j)
  {
    assert paths[..j][..i] == paths[..i];
    OfClassPrefix(v, section, critical, paths[..j], i);
  }

  lemma RankAt(v: View, section: Section, paths: seq<string>, i: nat)
    requires i < |paths|
    ensures Rank(v, section, paths, i) < |CriticalFirst(v, section, paths)|
    ensures CriticalFirst(v, section, paths)[Rank(v, section, paths, i)] == paths[i]
  {
    ClassAt(v, section, paths, i);
  }

  lemma RankOrder(v: View, section: Section, paths: seq<string>, i: nat, j: nat)
    requires Ahead(v, section, paths, i, j)
    ensures Rank(v, section, paths, i) < Rank(v, section, paths, j)
  {
    ClassAt(v, section, paths, i);
    if CriticalIn(v, section, paths[i]) == CriticalIn(v, section, paths[j]) {
      ClassIndexGrows(v, section, CriticalIn(v, section, paths[i]), paths, i + 1, j);
    }
  }

  /** Of keyed paths a rank names one. */
  lemma RankUnique(v: View, section: Section, paths: seq<string>, i: nat, k: nat)
    requires Keyed(v, paths) && i < |paths|
    requires k < |CriticalFirst(v, section, paths)| && CriticalFirst(v, section, paths)[k] == paths[i]
    ensures k == Rank(v, section, paths, i)
  {
    CriticalFirstMembers(v, section, paths);
    RankAt(v, section, paths, i);
  }

  /** Under the entry limit a path is chosen exactly when its rank is below the limit. */
  lemma ChosenByRank(v: View, section: Section, paths: seq<string>, limit: nat, i: nat)
    requires Keyed(v, paths) && i < |paths|
    ensures paths[i] in Take(limit, CriticalFirst(v, section, paths)) <==> Rank(v, section, paths, i) < limit
  {
    var order := CriticalFirst(v, section, paths);
    RankAt(v, section, paths, i);
    if Rank(v, section, paths, i) < limit {
      assert Take(limit, order)[Rank(v, section, paths, i)] == paths[i];
    }
    if paths[i] in Take(limit, order) {
      var k :| 0 <= k < |Take(limit, order)| && Take(limit, order)[k] == paths[i];
      RankUnique(v, section, paths, i, k);
    }
  }

  // ------------------------------------------------------------------ what the byte limit leaves out

  /** The greedy choice from the first paths is what it takes of them in the end. */
  lemma {:induction false} PickOfPrefix(v: View, paths: seq<string>, limit: nat, k: nat)
    requires Keyed(v, paths) && k <= |paths|
    ensures forall p :: p in Pick(v, paths[..k], limit) <==> p in Pick(v, paths, limit) && p in paths[..k]
    decreases |paths|
  {
    if k < |paths| {
      var init, last := paths[..|paths| - 1], paths[|paths| - 1];
      assert paths == init + [last] && init[..k] == paths[..k];
      Separate(v, init, last);
      PickOfPrefix(v, init, limit, k);
      assert forall p :: p in paths[..k] ==> p in init;
    } else {
      assert paths[..k] == paths;
      PickMembers(v, paths, limit);
    }
  }

  /** What is passed over does not fit beside what was chosen before it. */
  lemma {:induction false} PassedOver(v: View, paths: seq<string>, limit: nat, k: nat)
    requires Keyed(v, paths) && k < |paths| && paths[k] !in Pick(v, paths, limit)
    ensures ListSize(v, Pick(v, paths[..k], limit) + [paths[k]]) > limit
    decreases |paths|
  {
    var init, last := paths[..|paths| - 1], paths[|paths| - 1];
    assert paths == init + [last];
    Separate(v, init, last);
    if k < |init| {
      assert init[..k] == paths[..k];
      PassedOver(v, init, limit, k);
    }
  }

  /** Of the first `n` paths those chosen that were considered before the `j`-th. */
  ghost function ChosenBefore(v: View, section: Section, paths: seq<string>, chosen: seq<string>, j: nat,
                              n: nat): seq<string>
    requires n <= |paths|
  {
    if n == 0 then []
    else
      var init := ChosenBefore(v, section, paths, chosen, j, n - 1);
      if paths[n - 1] in chosen && Ahead(v, section, paths, n - 1, j) then init + [paths[n - 1]] else init
  }

  lemma {:induction false} ChosenBeforeMembers(v: View, section: Section, paths: seq<string>, chosen: seq<string>,
                                               j: nat, n: nat)
    requires Keyed(v, paths) && n <= |paths|
    ensures Keyed(v, ChosenBefore(v, section, paths, chosen, j, n))
    ensures forall p :: p in ChosenBefore(v, section, paths, chosen, j, n) <==>
      p in chosen && exists i :: 0 <= i < n && paths[i] == p && Ahead(v, section, paths, i, j)
    decreases n
  {
    if n > 0 {
      ChosenBeforeMembers(v, section, paths, chosen, j, n - 1);
      var init := ChosenBefore(v, section, paths, chosen, j, n - 1);
      forall q | q in init ensures v.keys.canon(q) != v.keys.canon(paths[n - 1]) {
        var i :| 0 <= i < n - 1 && paths[i] == q;
      }
      KeyedSnoc(v, init, paths[n - 1]);
    }
  }

  lemma {:induction false} SameChosenBefore(v: View, section: Section, paths: seq<string>, a: seq<string>,
                                            b: seq<string>, j: nat, n: nat)
    requires n <= |paths| && forall p :: p in a <==> p in b
    ensures ChosenBefore(v, section, paths, a, j, n) == ChosenBefore(v, section, paths, b, j, n)
    decreases n
  {
    if n > 0 { SameChosenBefore(v, section, paths, a, b, j, n - 1); }
  }

  /** A path the byte limit leaves out does not fit beside those chosen that were considered before it. */
  lemma LeftOutByBytes(v: View, section: Section, paths: seq<string>, limit: nat, j: nat)
    requires Keyed(v, paths) && j < |paths|
    requires paths[j] !in Pick(v, CriticalFirst(v, section, paths), limit)
    ensures var chosen := Pick(v, CriticalFirst(v, section, paths), limit);
            ListSize(v, ChosenBefore(v, section, paths, chosen, j, |paths|) + [paths[j]]) > limit
  {
    var order, k := CriticalFirst(v, section, paths), Rank(v, section, paths, j);
    var chosen := Pick(v, order, limit);
    RankAt(v, section, paths, j);
    var before, picked := ChosenBefore(v, section, paths, chosen, j, |paths|), Pick(v, order[..k], limit);
    CriticalFirstMembers(v, section, paths);
    PassedOver(v, order, limit, k);
    PickOfPrefix(v, order, limit, k);
    ChosenBeforeMembers(v, section, paths, chosen, j, |paths|);
    PickMembers(v, order, limit);
    RankedBefore(v, section, paths, chosen, j, k, before, picked);
    KeyedPrefix(v, order, k);
    PickMembers(v, order[..k], limit);
    forall q | q in picked ensures v.keys.canon(q) != v.keys.canon(paths[j]) {
      SeparateAt(v, order, k, q);
    }
    KeyedSnoc(v, picked, paths[j]);
    KeyedSnoc(v, before, paths[j]);
    SameMembersSameSize(v, picked + [paths[j]], before + [paths[j]]);
  }

  lemma KeyedPrefix(v: View, s: seq<string>, k: nat)
    requires Keyed(v, s) && k <= |s|
    ensures Keyed(v, s[..k])
  {
  }

  lemma SeparateAt(v: View, s: seq<string>, k: nat, q: string)
    requires Keyed(v, s) && k < |s| && q in s[..k]
    ensures v.keys.canon(q) != v.keys.canon(s[k])
  {
    var i :| 0 <= i < k && s[..k][i] == q;
    assert s[i] == q;
  }

  /** Considered before means of smaller rank. */
  lemma RankedBefore(v: View, section: Section, paths: seq<string>, chosen: seq<string>, j: nat, k: nat,
                     before: seq<string>, picked: seq<string>)
    requires Keyed(v, paths) && j < |paths|
    requires k == Rank(v, section, paths, j) && k < |CriticalFirst(v, section, paths)|
    requires forall p :: p in chosen ==> p in paths
    requires forall p :: p in before <==>
      p in chosen && exists i :: 0 <= i < |paths| && paths[i] == p && Ahead(v, section, paths, i, j)
    requires forall p :: p in picked <==>
      p in chosen && p in CriticalFirst(v, section, paths)[..k]
    ensures forall p :: p in picked <==> p in before
  {
    var order := CriticalFirst(v, section, paths);
    forall p | p in chosen ensures p in picked <==> p in before {
      var i :| 0 <= i < |paths| && paths[i] == p;
      RankAt(v, section, paths, i);
      if p in before {
        RankOrder(v, section, paths, i, j);
        assert order[..k][Rank(v, section, paths, i)] == p;
      }
      if p in picked {
        var r :| 0 <= r < k && order[..k][r] == p;
        RankUnique(v, section, paths, i, r);
        if Ahead(v, section, paths, j, i) { RankOrder(v, section, paths, j, i); }
      }
    }
  }

  // ------------------------------------------------------------------ critical entries come first

  /** Under the byte limit the critical entries chosen are those chosen if no other entry existed. */
  lemma CriticalUnaffectedByBytes(v: View, section: Section, paths: seq<string>, limit: nat)
    requires Keyed(v, paths)
    ensures OfClass(v, section, true, Pick(v, CriticalFirst(v, section, paths), limit))
         == Pick(v, OfClass(v, section, true, paths), limit)
  {
    OfClassMembers(v, section, true, paths);
    OfClassMembers(v, section, false, paths);
    PickMembers(v, OfClass(v, section, true, paths), limit);
    PickThenOthers(v, section, OfClass(v, section, true, paths), OfClass(v, section, false, paths), limit);
  }

  /** Likewise under the entry limit. */
  lemma CriticalUnaffectedByEntries(v: View, section: Section, paths: seq<string>, limit: nat)
    requires Keyed(v, paths)
    ensures OfClass(v, section, true, Take(limit, CriticalFirst(v, section, paths)))
         == Take(limit, OfClass(v, section, true, paths))
  {
    var a, b := OfClass(v, section, true, paths), OfClass(v, section, false, paths);
    OfClassMembers(v, section, true, paths);
    OfClassMembers(v, section, false, paths);
    TakeThenOthers(v, section, a, b, limit);
  }

  lemma TakeThenOthers(v: View, section: Section, a: seq<string>, b: seq<string>, limit: nat)
    requires forall p :: p in a ==> CriticalIn(v, section, p)
    requires forall p :: p in b ==> !CriticalIn(v, section, p)
    ensures OfClass(v, section, true, Take(limit, a + b)) == Take(limit, a)
  {
    if |a| <= limit {
      var k := if |a| + |b| <= limit then |b| else limit - |a|;
      assert Take(limit, a + b) == a + b[..k];
      ClassThenOthers(v, section, a, b[..k]);
    } else {
      assert Take(limit, a + b) == a[..limit] + [];
      ClassThenOthers(v, section, a[..limit], []);
    }
  }

  lemma {:induction false} ClassThenOthers(v: View, section: Section, a: seq<string>, b: seq<string>)
    requires forall p :: p in a ==> CriticalIn(v, section, p)
    requires forall p :: p in b ==> !CriticalIn(v, section, p)
    ensures OfClass(v, section, true, a + b) == a
    decreases |a| + |b|
  {
    if b != [] {
      assert (a + b)[..|a + b| - 1] == a + b[..|b| - 1] && (a + b)[|a + b| - 1] == b[|b| - 1];
      ClassThenOthers(v, section, a, b[..|b| - 1]);
    } else if a != [] {
      assert a + b == a && a[..|a| - 1] + [] == a[..|a| - 1];
      ClassThenOthers(v, section, a[..|a| - 1], []);
      assert a == a[..|a| - 1] + [a[|a| - 1]];
    }
  }

  lemma {:induction false} PickThenOthers(v: View, section: Section, a: seq<string>, b: seq<string>, limit: nat)
    requires forall p :: p in a ==> CriticalIn(v, section, p)
    requires forall p :: p in Pick(v, a, limit) ==> p in a
    requires forall p :: p in b ==> !CriticalIn(v, section, p)
    ensures OfClass(v, section, true, Pick(v, a + b, limit)) == Pick(v, a, limit)
    decreases |b|
  {
    if b == [] {
      assert a + b == a && Pick(v, a, limit) + [] == Pick(v, a, limit);
      ClassThenOthers(v, section, Pick(v, a, limit), []);
    } else {
      var n := |b| - 1;
      assert (a + b)[..|a + b| - 1] == a + b[..n] && (a + b)[|a + b| - 1] == b[n];
      PickThenOthers(v, section, a, b[..n], limit);
      var chosen := Pick(v, a + b[..n], limit);
      assert (chosen + [b[n]])[..|chosen|] == chosen;
    }
  }
}
