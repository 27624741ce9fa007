/**
 Sharing a byte budget between the sections of the file manifest
 (`_allocate_typescript_manifest_section_bytes` in analyzers/typescript.py).
 */
module ManifestBudget {
  import opened Collections
  import opened InventoryPaths

  /** One value per manifest section. */
  datatype PerSection<T> = PerSection(files: T, packageFiles: T, configFiles: T)
  {
    function Of(s: Section): T {
      match s
      case Files => files
      case PackageFiles => packageFiles
      case ConfigFiles => configFiles
    }

    function With(s: Section, value: T): (r: PerSection<T>)
      ensures r.Of(s) == value && forall t :: t != s ==> r.Of(t) == Of(t)
    {
      match s
      case Files => this.(files := value)
      case PackageFiles => this.(packageFiles := value)
      case ConfigFiles => this.(configFiles := value)
    }
  }

  const SECTIONS: seq<Section> := [Files, PackageFiles, ConfigFiles]

  function Sum(p: PerSection<nat>): nat {
    p.files + p.packageFiles + p.configFiles
  }

  function Pool(available: int): nat {
    if available > 0 then available else 0
  }

  function NonemptyCount(desired: PerSection<nat>): nat {
    (if desired.files > 0 then 1 else 0) + (if desired.packageFiles > 0 then 1 else 0)
    + (if desired.configFiles > 0 then 1 else 0)
  }

  /** No section gets more than it asks for, nothing that could be used is left over, and every
      non-empty section gets its equal share or all it asks for. */
  ghost predicate IsFair(desired: PerSection<nat>, available: int, given: PerSection<nat>) {
    && (forall s: Section :: given.Of(s) <= desired.Of(s))
    && Sum(given) == Min(Pool(available), Sum(desired))
    && (forall s: Section :: desired.Of(s) > 0 ==>
          given.Of(s) >= Min(desired.Of(s), Pool(available) / NonemptyCount(desired)))
    && (NonemptyCount(desired) > 0 ==> SharedInTurn(desired, Pool(available), given))
  }

  /** Package files get an equal share, config files half of the rest, and the files what is left. Only what a
      later section leaves over goes to the others, to the config files first. */
  ghost predicate SharedInTurn(desired: PerSection<nat>, pool: nat, given: PerSection<nat>)
    requires NonemptyCount(desired) > 0
  {
    var p := Min(desired.packageFiles, pool / NonemptyCount(desired));
    var c := Min(desired.configFiles, (pool - p) / 2);
    && given.packageFiles >= p && given.configFiles >= c
    && (given.configFiles < desired.configFiles || given.files < desired.files ==> given.packageFiles == p)
    && (given.files < desired.files ==> given.configFiles == c)
  }

  lemma FairTotal(desired: PerSection<nat>, available: int, given: PerSection<nat>)
    requires IsFair(desired, available, given)
    ensures available >= 0 ==> Sum(given) == Min(available, Sum(desired))
    ensures available < 0 ==> given == PerSection(0, 0, 0)
  {
    assert given.Of(Files) == given.files && given.Of(PackageFiles) == given.packageFiles
           && given.Of(ConfigFiles) == given.configFiles;
  }

  /** The rules leave no choice. */
  lemma FairUnique(desired: PerSection<nat>, available: int, a: PerSection<nat>, b: PerSection<nat>)
    requires IsFair(desired, available, a) && IsFair(desired, available, b)
    ensures a == b
  {
    BelowDesired(desired, available, a);
    BelowDesired(desired, available, b);
  }

  lemma BelowDesired(desired: PerSection<nat>, available: int, given: PerSection<nat>)
    requires IsFair(desired, available, given)
    ensures given.files <= desired.files && given.packageFiles <= desired.packageFiles
    ensures given.configFiles <= desired.configFiles
  {
    assert given.Of(Files) <= desired.Of(Files) && given.Of(PackageFiles) <= desired.Of(PackageFiles)
           && given.Of(ConfigFiles) <= desired.Of(ConfigFiles);
  }

  /** Handing out at most the current share never lowers the share of those still waiting. */
  lemma ShareKept(remaining: nat, waiting: nat, allocation: nat)
    requires 2 <= waiting <= 3 && allocation <= remaining / waiting
    ensures (remaining - allocation) / (waiting - 1) >= remaining / waiting
  {
    if waiting == 2 {
      assert remaining - allocation >= remaining / 2;
    } else {
      assert remaining - allocation >= 2 * (remaining / 3);
    }
  }

  function NonemptySections(desired: PerSection<nat>): (r: seq<Section>)
    ensures |r| == NonemptyCount(desired)
    ensures forall s: Section :: s in r <==> desired.Of(s) > 0
    ensures forall j, k :: 0 <= j < k < |r| ==> r[j] != r[k]
  {
    (if desired.packageFiles > 0 then [PackageFiles] else []) +
    (if desired.configFiles > 0 then [ConfigFiles] else []) +
    (if desired.files > 0 then [Files] else [])
  }

  method AllocateSectionBytes(desired: PerSection<nat>, available: int) returns (allocations: PerSection<nat>)
    ensures IsFair(desired, available, allocations)
  {
    var nonempty := NonemptySections(desired);
    var remaining;
    ghost var left;
    allocations, remaining, left := ShareEqually(desired, Pool(available), nonempty);
    ghost var shared := allocations;
    allocations := Redistribute(desired, allocations, remaining);
    Fair(desired, available, nonempty, left, shared, allocations);
  }

  /** What handing out the slack, first to the config files and then to the package files, keeps and changes. */
  ghost predicate Redistributed(desired: PerSection<nat>, given: PerSection<nat>, slack: nat,
                                allocations: PerSection<nat>) {
    && (forall s: Section :: given.Of(s) <= allocations.Of(s) <= desired.Of(s))
    && Sum(allocations) == Min(Sum(given) + slack, Sum(desired))
    && (allocations.configFiles < desired.configFiles || allocations.files < desired.files ==>
          allocations.packageFiles == given.packageFiles)
    && (allocations.files < desired.files ==> allocations.configFiles == given.configFiles)
  }

  lemma EqualShare(desired: PerSection<nat>, pool: nat, order: seq<Section>, left: seq<nat>, given: PerSection<nat>,
                   s: Section)
    requires order == NonemptySections(desired) && IsSharing(desired, pool, order, left, given, |order|)
    requires desired.Of(s) > 0
    ensures given.Of(s) >= Min(desired.Of(s), pool / NonemptyCount(desired))
  {
    var j :| 0 <= j < |order| && order[j] == s;
    ShareGrows(desired, pool, order, left, given, j);
  }

  lemma EqualShares(desired: PerSection<nat>, pool: nat, order: seq<Section>, left: seq<nat>, given: PerSection<nat>,
                    allocations: PerSection<nat>)
    requires order == NonemptySections(desired) && IsSharing(desired, pool, order, left, given, |order|)
    requires forall s: Section :: given.Of(s) <= allocations.Of(s)
    ensures forall s: Section :: desired.Of(s) > 0 ==>
      allocations.Of(s) >= Min(desired.Of(s), pool / NonemptyCount(desired))
  {
    forall s: Section | desired.Of(s) > 0
      ensures allocations.Of(s) >= Min(desired.Of(s), pool / NonemptyCount(desired))
    {
      EqualShare(desired, pool, order, left, given, s);
    }
  }

  lemma TakenInTurn(desired: PerSection<nat>, pool: nat, order: seq<Section>, left: seq<nat>, given: PerSection<nat>,
                    slack: nat, allocations: PerSection<nat>)
    requires order == NonemptySections(desired) && IsSharing(desired, pool, order, left, given, |order|)
    requires Redistributed(desired, given, slack, allocations)
    ensures NonemptyCount(desired) > 0 ==> SharedInTurn(desired, pool, allocations)
  {
    assert given.Of(Files) <= allocations.Of(Files) <= desired.Of(Files)
           && given.Of(PackageFiles) <= allocations.Of(PackageFiles) <= desired.Of(PackageFiles)
           && given.Of(ConfigFiles) <= allocations.Of(ConfigFiles) <= desired.Of(ConfigFiles);
    SharesInOrder(desired, pool, order, left, given);
  }

  lemma Fair(desired: PerSection<nat>, available: int, order: seq<Section>, left: seq<nat>, given: PerSection<nat>,
             allocations: PerSection<nat>)
    requires order == NonemptySections(desired)
    requires SharedSoFar(desired, Pool(available), order, left, given, |order|)
    requires Redistributed(desired, given, left[|order|], allocations)
    ensures IsFair(desired, available, allocations)
  {
    EqualShares(desired, Pool(available), order, left, given, allocations);
    TakenInTurn(desired, Pool(available), order, left, given, left[|order|], allocations);
  }

  lemma {:induction false} TimesGrows(q: nat, n: nat)
    requires n > 0
    ensures q * n >= q
    decreases n
  {
    if n > 1 {
      TimesGrows(q, n - 1);
      assert q * n == q * (n - 1) + q;
    }
  }

  function FairShare(remaining: nat, waiting: nat): (r: nat)
    requires waiting > 0
    ensures r <= remaining
  {
    var r := remaining / waiting;
    TimesGrows(r, waiting);
    assert remaining == r * waiting + remaining % waiting;
    r
  }

  /** Each section takes what it asks for, but no more than an equal part of what is left. */
  ghost predicate IsSharing(desired: PerSection<nat>, pool: nat, order: seq<Section>, left: seq<nat>,
                            given: PerSection<nat>, n: nat)
    requires n <= |order|
  {
    && |left| == n + 1 && left[0] == pool
    && forall j :: 0 <= j < n ==>
         && given.Of(order[j]) == Min(desired.Of(order[j]), FairShare(left[j], |order| - j))
         && left[j + 1] == left[j] - given.Of(order[j])
  }

  ghost predicate SharedSoFar(desired: PerSection<nat>, pool: nat, order: seq<Section>, left: seq<nat>,
                              given: PerSection<nat>, n: nat)
    requires n <= |order|
  {
    && IsSharing(desired, pool, order, left, given, n)
    && left[n] + Sum(given) == pool
    && (forall s: Section :: given.Of(s) <= desired.Of(s))
    && forall j :: n <= j < |order| ==> given.Of(order[j]) == 0
  }

  lemma FirstShare(desired: PerSection<nat>, pool: nat, order: seq<Section>, left: seq<nat>, given: PerSection<nat>)
    requires order == NonemptySections(desired) && IsSharing(desired, pool, order, left, given, |order|)
    requires desired.packageFiles > 0
    ensures given.packageFiles == Min(desired.packageFiles, pool / NonemptyCount(desired))
    ensures left[1] == pool - given.packageFiles
  {
    assert order[0] == PackageFiles;
  }

  lemma NextShare(desired: PerSection<nat>, pool: nat, order: seq<Section>, left: seq<nat>, given: PerSection<nat>,
                  p: nat)
    requires order == NonemptySections(desired) && IsSharing(desired, pool, order, left, given, |order|)
    requires desired.configFiles > 0
    requires if desired.packageFiles > 0 then p == given.packageFiles else p == 0
    ensures p <= pool
    ensures given.configFiles == Min(desired.configFiles, (pool - p) / if desired.files > 0 then 2 else 1)
  {
    if desired.packageFiles > 0 {
      FirstShare(desired, pool, order, left, given);
      assert order[1] == ConfigFiles;
    } else {
      assert order[0] == ConfigFiles;
    }
  }

  lemma SharesInOrder(desired: PerSection<nat>, pool: nat, order: seq<Section>, left: seq<nat>, given: PerSection<nat>)
    requires order == NonemptySections(desired) && IsSharing(desired, pool, order, left, given, |order|)
    requires given.packageFiles <= desired.packageFiles && given.configFiles <= desired.configFiles
    ensures NonemptyCount(desired) > 0 ==>
      var p := Min(desired.packageFiles, pool / NonemptyCount(desired));
      && given.packageFiles == p && given.configFiles >= Min(desired.configFiles, (pool - p) / 2)
      && (desired.files > 0 ==> given.configFiles == Min(desired.configFiles, (pool - p) / 2))
  {
    if desired.packageFiles > 0 {
      FirstShare(desired, pool, order, left, given);
    }
    if desired.configFiles > 0 {
      NextShare(desired, pool, order, left, given, given.packageFiles);
    }
  }

  lemma {:induction false} ShareGrows(desired: PerSection<nat>, pool: nat, order: seq<Section>, left: seq<nat>,
                                      given: PerSection<nat>, j: nat)
    requires IsSharing(desired, pool, order, left, given, |order|) && j < |order| <= 3
    ensures left[j] / (|order| - j) >= pool / |order|
    decreases j
  {
    if j > 0 {
      ShareGrows(desired, pool, order, left, given, j - 1);
      ShareKept(left[j - 1], |order| - j + 1, given.Of(order[j - 1]));
    }
  }

  lemma SharingStep(desired: PerSection<nat>, pool: nat, order: seq<Section>, left: seq<nat>, given: PerSection<nat>,
                    i: nat, allocation: nat)
    requires i < |order| && SharedSoFar(desired, pool, order, left, given, i)
    requires forall j, k :: 0 <= j < k < |order| ==> order[j] != order[k]
    requires allocation == Min(desired.Of(order[i]), FairShare(left[i], |order| - i)) && allocation <= left[i]
    ensures SharedSoFar(desired, pool, order, left + [left[i] - allocation], given.With(order[i], allocation), i + 1)
  {
    var more, after := left + [left[i] - allocation], given.With(order[i], allocation);
    SumWith(given, order[i], allocation);
    forall j | 0 <= j < i + 1
      ensures after.Of(order[j]) == Min(desired.Of(order[j]), FairShare(more[j], |order| - j))
              && more[j + 1] == more[j] - after.Of(order[j])
    {
      if j < i {
        assert order[j] != order[i];
        assert more[j] == left[j] && more[j + 1] == left[j + 1];
      }
    }
  }

  method ShareEqually(desired: PerSection<nat>, pool: nat, nonempty: seq<Section>)
    returns (allocations: PerSection<nat>, remaining: nat, ghost left: seq<nat>)
    requires forall j, k :: 0 <= j < k < |nonempty| ==> nonempty[j] != nonempty[k]
    ensures SharedSoFar(desired, pool, nonempty, left, allocations, |nonempty|) && remaining == left[|nonempty|]
  {
    allocations, remaining := PerSection(0, 0, 0), pool;
    left := [pool];
    for i := 0 to |nonempty|
      invariant SharedSoFar(desired, pool, nonempty, left, allocations, i) && left[i] == remaining
    {
      var section := nonempty[i];
      var allocation := Min(desired.Of(section), FairShare(remaining, |nonempty| - i));
      SharingStep(desired, pool, nonempty, left, allocations, i, allocation);
      allocations := allocations.With(section, allocation);
      remaining := remaining - allocation;
      left := left + [remaining];
    }
  }

  lemma SumWith(p: PerSection<nat>, s: Section, x: nat)
    ensures Sum(p.With(s, x)) == Sum(p) - p.Of(s) + x
  {
  }

  method Redistribute(desired: PerSection<nat>, given: PerSection<nat>, slack: nat)
    returns (allocations: PerSection<nat>)
    requires forall s: Section :: given.Of(s) <= desired.Of(s)
    ensures Redistributed(desired, given, slack, allocations)
  {
    allocations := given;
    var remaining := slack;
    var order := [Files, ConfigFiles, PackageFiles];
    for i := 0 to |order|
      invariant remaining >= 0 && remaining + Sum(allocations) == Sum(given) + slack
      invariant forall s: Section :: given.Of(s) <= allocations.Of(s) <= desired.Of(s)
      invariant remaining > 0 ==> forall j :: 0 <= j < i ==> allocations.Of(order[j]) == desired.Of(order[j])
      invariant forall j, k :: 0 <= j < k < |order| && allocations.Of(order[k]) != given.Of(order[k]) ==>
        allocations.Of(order[j]) == desired.Of(order[j])
      invariant forall k :: i <= k < |order| ==> allocations.Of(order[k]) == given.Of(order[k])
    {
      if remaining <= 0 {
        break;
      }
      var deficit := desired.Of(order[i]) - allocations.Of(order[i]);
      var extra := Min(deficit, remaining);
      SumWith(allocations, order[i], allocations.Of(order[i]) + extra);
      allocations := allocations.With(order[i], allocations.Of(order[i]) + extra);
      remaining := remaining - extra;
    }
    assert order[0] == Files && order[1] == ConfigFiles && order[2] == PackageFiles;
    assert allocations.Of(Files) <= desired.Of(Files) && allocations.Of(ConfigFiles) <= desired.Of(ConfigFiles)
           && allocations.Of(PackageFiles) <= desired.Of(PackageFiles);
    if remaining > 0 {
      assert allocations.Of(order[0]) == desired.Of(order[0]) && allocations.Of(order[1]) == desired.Of(order[1])
             && allocations.Of(order[2]) == desired.Of(order[2]);
      assert Sum(allocations) == Sum(desired);
    }
  }
}
