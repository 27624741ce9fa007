/**
 The TypeScript file manifest: a planner predicts the byte size of a JSON document and selects its
 entries; a second pass streams exactly that document (`_plan_typescript_file_manifest`,
 `_stream_typescript_file_manifest` and `_write_typescript_file_manifest` in analyzers/typescript.py).
 One ASCII character stands for one byte.
 */
module Manifest {
  import opened Collections
  import opened InventoryOrder
  import opened InventoryPaths
  import opened ManifestBudget
  import opened ManifestSelection
  import opened Ordering
  import opened Wrappers

  datatype Limits = Limits(entries: nat, bytes: nat)

  // ------------------------------------------------------------------ texts

  const HEADER := "{\"version\":2"
  const PARTIAL_PREFIX := ",\"partial_reason\":"
  const PARTIAL_SUFFIX := "; repository context is partial."

  function SectionOpen(s: Section): string {
    match s
    case Files => ",\"files\":["
    case PackageFiles => ",\"package_files\":["
    case ConfigFiles => ",\"config_files\":["
  }

  function Decimal(n: nat): string {
    if n < 10 then ["0123456789"[n]] else Decimal(n / 10) + ["0123456789"[n % 10]]
  }

  function ValueOf(digits: string): int {
    if digits == "" then 0 else ValueOf(digits[..|digits| - 1]) * 10 + (digits[|digits| - 1] as int - '0' as int)
  }

  /** The digits stand for the number. */
  lemma {:induction false} DecimalMeaning(n: nat)
    ensures ValueOf(Decimal(n)) == n && Decimal(n) != ""
    decreases n
  {
    var digit := "0123456789"[n % 10];
    assert digit as int - '0' as int == n % 10;
    if n >= 10 {
      DecimalMeaning(n / 10);
      assert Decimal(n)[..|Decimal(n)| - 1] == Decimal(n / 10);
    } else {
      assert Decimal(n) == [digit] && [digit][..0] == [];
      assert ValueOf([]) == 0;
    }
  }

  function PartialReason(limits: Limits, entryLimited: bool, byteLimited: bool): (r: Option<string>)
    ensures r.Some? <==> entryLimited || byteLimited
    ensures r.Some? ==> r.value != ""
  {
    if !entryLimited && !byteLimited then None
    else
      var limit :=
        if entryLimited && byteLimited then
          Decimal(limits.entries) + "-entry and " + Decimal(limits.bytes) + "-byte safety limits"
        else if entryLimited then Decimal(limits.entries) + "-entry safety limit"
        else Decimal(limits.bytes) + "-byte safety limit";
      Some("TypeScript file manifest producer reached the " + limit + PARTIAL_SUFFIX)
  }

  /** Non-empty reasons, repeats dropped, joined by a space. */
  function Combine(a: Option<string>, b: Option<string>): (r: Option<string>)
    ensures r.None? <==> (a.None? || a.value == "") && (b.None? || b.value == "")
  {
    if a.None? || a.value == "" then (if b.None? || b.value == "" then None else b)
    else if b.None? || b.value == "" || b == a then a
    else Some(a.value + " " + b.value)
  }

  /** No reason is lost, none is repeated, and they stay in order. */
  lemma CombineMeaning(a: string, b: string)
    ensures Combine(Some(a), None) == Combine(None, Some(a)) == Combine(Some(a), Some(a))
         == if a == "" then None else Some(a)
    ensures a != "" && b != "" && a != b ==> Combine(Some(a), Some(b)) == Some(a + " " + b)
  {
  }

  // ------------------------------------------------------------------ the document

  /** `jsonText` is the JSON text of a reason. */
  datatype Writer = Writer(view: View, jsonText: string -> string)

  datatype Plan = Plan(partialReason: Option<string>, byteLimited: bool, selected: PerSection<Option<set<string>>>)

  function ListText(v: View, paths: seq<string>): string {
    if paths == [] then ""
    else ListText(v, paths[..|paths| - 1]) + (if |paths| > 1 then "," else "") + v.encode(paths[|paths| - 1])
  }

  lemma ListSnoc(v: View, paths: seq<string>, p: string)
    ensures ListText(v, paths + [p]) == ListText(v, paths) + (if paths != [] then "," else "") + v.encode(p)
    ensures ListSize(v, paths + [p]) == ListSize(v, paths) + |v.encode(p)| + if paths != [] then 1 else 0
  {
    assert (paths + [p])[..|paths|] == paths;
  }

  lemma ListOne(v: View, p: string)
    ensures ListText(v, [p]) == v.encode(p)
  {
    assert [p][..0] == [];
    assert ListText(v, []) == "";
  }

  lemma TextsAssociate(x: string, y: string, z: string)
    ensures x + "," + y + "," + z == x + "," + (y + "," + z)
  {
  }

  /** The paths are listed in order, one comma between two of them. */
  lemma {:induction false} ListConcat(v: View, a: seq<string>, b: seq<string>)
    requires a != [] && b != []
    ensures ListText(v, a + b) == ListText(v, a) + "," + ListText(v, b)
    decreases |b|
  {
    var init, last := b[..|b| - 1], b[|b| - 1];
    LastApart(b);
    if init == [] {
      assert a + b == a + [last];
      ListSnoc(v, a, last);
      ListOne(v, last);
    } else {
      assert a + b == (a + init) + [last];
      ListSnoc(v, a + init, last);
      ListSnoc(v, init, last);
      ListConcat(v, a, init);
      TextsAssociate(ListText(v, a), ListText(v, init), v.encode(last));
    }
  }

  lemma KeptSnoc(v: View, paths: seq<string>, selected: Option<set<string>>, i: nat)
    requires i < |paths|
    ensures KeptOf(v, paths[..i + 1], selected) ==
      if selected.None? || v.keys.canon(paths[i]) in selected.value then KeptOf(v, paths[..i], selected) + [paths[i]]
      else KeptOf(v, paths[..i], selected)
  {
    assert paths[..i + 1][..i] == paths[..i];
  }

  lemma {:induction false} ListTextSize(v: View, paths: seq<string>)
    ensures |ListText(v, paths)| == ListSize(v, paths)
    decreases |paths|
  {
    if paths != [] { ListTextSize(v, paths[..|paths| - 1]); }
  }

  function PartialText(w: Writer, reason: Option<string>): string {
    if reason.Some? then PARTIAL_PREFIX + w.jsonText(reason.value) else ""
  }

  /** The entries a plan emits in one section. */
  function Emitted(w: Writer, inventory: seq<string>, selected: PerSection<Option<set<string>>>,
                   s: Section): seq<string> {
    KeptOf(w.view, Candidates(w.view, s, inventory), selected.Of(s))
  }

  function SectionText(w: Writer, inventory: seq<string>, selected: PerSection<Option<set<string>>>,
                       s: Section): string {
    SectionOpen(s) + ListText(w.view, Emitted(w, inventory, selected, s)) + "]"
  }

  function Document(w: Writer, inventory: seq<string>, plan: Plan): string {
    HEADER
    + SectionText(w, inventory, plan.selected, Files)
    + SectionText(w, inventory, plan.selected, PackageFiles)
    + SectionText(w, inventory, plan.selected, ConfigFiles)
    + PartialText(w, plan.partialReason) + "}"
  }

  function BaseSize(w: Writer, reason: Option<string>): nat {
    |HEADER| + 1
    + (|SectionOpen(Files)| + 1) + (|SectionOpen(PackageFiles)| + 1) + (|SectionOpen(ConfigFiles)| + 1)
    + (if reason.Some? then |PARTIAL_PREFIX| + |w.jsonText(reason.value)| else 0)
  }

  function SectionSizes(w: Writer, inventory: seq<string>, selected: PerSection<Option<set<string>>>): PerSection<nat> {
    PerSection(ListSize(w.view, Emitted(w, inventory, selected, Files)),
               ListSize(w.view, Emitted(w, inventory, selected, PackageFiles)),
               ListSize(w.view, Emitted(w, inventory, selected, ConfigFiles)))
  }

  /** The size the planner adds up is the size of the document. */
  lemma DocumentSize(w: Writer, inventory: seq<string>, plan: Plan)
    ensures |Document(w, inventory, plan)|
         == BaseSize(w, plan.partialReason) + Sum(SectionSizes(w, inventory, plan.selected))
  {
    ListTextSize(w.view, Emitted(w, inventory, plan.selected, Files));
    ListTextSize(w.view, Emitted(w, inventory, plan.selected, PackageFiles));
    ListTextSize(w.view, Emitted(w, inventory, plan.selected, ConfigFiles));
  }

  // ------------------------------------------------------------------ the planner

  ghost predicate KeyedInventory(w: Writer, inventory: seq<string>) {
    Keyed(w.view, Filter(w.view.keys.valid, inventory))
  }

  lemma {:induction false} KeyedCandidates(w: Writer, s: Section, inventory: seq<string>)
    requires KeyedInventory(w, inventory)
    ensures Keyed(w.view, Candidates(w.view, s, inventory))
    ensures forall p :: p in Candidates(w.view, s, inventory) ==> p in Filter(w.view.keys.valid, inventory)
    decreases |inventory|
  {
    if inventory != [] {
      var init, last := inventory[..|inventory| - 1], inventory[|inventory| - 1];
      var f := Filter(w.view.keys.valid, init);
      if w.view.keys.valid(last) {
        Separate(w.view, f, last);
      }
      KeyedCandidates(w, s, init);
      assert Candidates(w.view, s, inventory) ==
        if InSection(w.view, s, last) then Candidates(w.view, s, init) + [last] else Candidates(w.view, s, init);
      if InSection(w.view, s, last) {
        KeyedSnoc(w.view, Candidates(w.view, s, init), last);
      }
    }
  }

  /** The selection after the entry limit alone: everything, or the first `entries` with critical ones first. */
  ghost function EntryKeys(v: View, limits: Limits, s: Section, inventory: seq<string>): Option<set<string>> {
    var paths := Candidates(v, s, inventory);
    if |paths| <= limits.entries then None
    else Some(KeysOf(v, Take(limits.entries, CriticalFirst(v, s, paths))))
  }

  ghost function AllEntryKeys(w: Writer, limits: Limits, inventory: seq<string>): PerSection<Option<set<string>>> {
    PerSection(EntryKeys(w.view, limits, Files, inventory), EntryKeys(w.view, limits, PackageFiles, inventory),
               EntryKeys(w.view, limits, ConfigFiles, inventory))
  }

  ghost predicate EntryLimited(w: Writer, limits: Limits, inventory: seq<string>) {
    exists s: Section :: |Candidates(w.view, s, inventory)| > limits.entries
  }

  /** Size of the document with the entry limit applied and no byte limit. */
  ghost function CandidateSize(w: Writer, limits: Limits, inventory: seq<string>, given: Option<string>): nat {
    BaseSize(w, Combine(given, PartialReason(limits, EntryLimited(w, limits, inventory), false)))
    + Sum(SectionSizes(w, inventory, AllEntryKeys(w, limits, inventory)))
  }

  ghost function FinalReason(w: Writer, limits: Limits, inventory: seq<string>, given: Option<string>): Option<string> {
    Combine(given, PartialReason(limits, EntryLimited(w, limits, inventory),
                                 CandidateSize(w, limits, inventory, given) > limits.bytes))
  }

  /** The byte-limited selection of a section within its allocation. */
  ghost function ByteKeys(v: View, s: Section, inventory: seq<string>, entryKeys: Option<set<string>>,
                          limit: nat): set<string> {
    KeysOf(v, Pick(v, CriticalFirst(v, s, KeptOf(v, Candidates(v, s, inventory), entryKeys)), limit))
  }

  /** What the planner returns: when the full selection fits it is kept; otherwise each section gets
      a fair share of the bytes left beside the marker and fills it greedily. */
  ghost predicate IsPlan(w: Writer, limits: Limits, inventory: seq<string>, given: Option<string>, plan: Plan) {
    && plan.partialReason == FinalReason(w, limits, inventory, given)
    && plan.byteLimited == (CandidateSize(w, limits, inventory, given) > limits.bytes)
    && var entryKeys := AllEntryKeys(w, limits, inventory);
       if !plan.byteLimited then plan.selected == entryKeys
       else exists share :: IsFair(SectionSizes(w, inventory, entryKeys),
                                   limits.bytes - BaseSize(w, plan.partialReason), share)
                            && IsByteSelection(w, inventory, entryKeys, share, plan.selected)
  }

  ghost predicate IsByteKeys(w: Writer, inventory: seq<string>, s: Section, entryKeys: Option<set<string>>, limit: nat,
                             selected: Option<set<string>>) {
    selected == Some(ByteKeys(w.view, s, inventory, entryKeys, limit))
  }

  ghost predicate IsByteSelection(w: Writer, inventory: seq<string>, entryKeys: PerSection<Option<set<string>>>,
                                  share: PerSection<nat>, selected: PerSection<Option<set<string>>>) {
    forall s: Section :: IsByteKeys(w, inventory, s, entryKeys.Of(s), share.Of(s), selected.Of(s))
  }

  method PlanSection(w: Writer, limits: Limits, s: Section, inventory: seq<string>)
    returns (selected: Option<set<string>>, size: nat, limited: bool)
    requires KeyedInventory(w, inventory)
    ensures selected == EntryKeys(w.view, limits, s, inventory)
    ensures size == ListSize(w.view, KeptOf(w.view, Candidates(w.view, s, inventory), selected))
    ensures limited <==> |Candidates(w.view, s, inventory)| > limits.entries
  {
    var v, paths := w.view, Candidates(w.view, s, inventory);
    KeyedCandidates(w, s, inventory);
    KeptMembers(v, paths, None);
    size := SizeOf(v, paths, None);
    if |paths| <= limits.entries {
      return None, size, false;
    }
    var keys := SelectEntries(v, s, paths, limits.entries);
    size := SizeOf(v, paths, Some(keys));
    return Some(keys), size, true;
  }

  /** Adds up the encoded paths of a selection and the commas between them. */
  method SizeOf(v: View, paths: seq<string>, selected: Option<set<string>>) returns (size: nat)
    ensures size == ListSize(v, KeptOf(v, paths, selected))
  {
    size := 0;
    var emittedCount := 0;
    for i := 0 to |paths|
      invariant size == ListSize(v, KeptOf(v, paths[..i], selected))
      invariant emittedCount == |KeptOf(v, paths[..i], selected)|
    {
      KeptSnoc(v, paths, selected, i);
      if selected.None? || v.keys.canon(paths[i]) in selected.value {
        ListSnoc(v, KeptOf(v, paths[..i], selected), paths[i]);
        size := size + |v.encode(paths[i])| + if emittedCount > 0 then 1 else 0;
        emittedCount := emittedCount + 1;
      }
    }
    assert paths[..|paths|] == paths;
  }

  /** The first `n` sections have been planned. */
  ghost predicate PlannedBelow(w: Writer, limits: Limits, inventory: seq<string>, n: nat,
                               selected: PerSection<Option<set<string>>>, sizes: PerSection<nat>, entryLimited: bool)
    requires n <= |SECTIONS|
  {
    && (forall j :: 0 <= j < n ==>
          && selected.Of(SECTIONS[j]) == EntryKeys(w.view, limits, SECTIONS[j], inventory)
          && sizes.Of(SECTIONS[j]) ==
               ListSize(w.view, KeptOf(w.view, Candidates(w.view, SECTIONS[j], inventory), selected.Of(SECTIONS[j]))))
    && (entryLimited <==> exists j :: 0 <= j < n && |Candidates(w.view, SECTIONS[j], inventory)| > limits.entries)
  }

  method PlanSections(w: Writer, limits: Limits, inventory: seq<string>)
    returns (selected: PerSection<Option<set<string>>>, sizes: PerSection<nat>, entryLimited: bool)
    requires KeyedInventory(w, inventory)
    ensures selected == AllEntryKeys(w, limits, inventory) && sizes == SectionSizes(w, inventory, selected)
    ensures entryLimited <==> EntryLimited(w, limits, inventory)
  {
    selected, sizes, entryLimited := PerSection(None, None, None), PerSection(0, 0, 0), false;
    for i := 0 to |SECTIONS|
      invariant PlannedBelow(w, limits, inventory, i, selected, sizes, entryLimited)
    {
      var keys, size, limited := PlanSection(w, limits, SECTIONS[i], inventory);
      selected := selected.With(SECTIONS[i], keys);
      sizes := sizes.With(SECTIONS[i], size);
      entryLimited := entryLimited || limited;
      assert forall j :: 0 <= j < i ==> SECTIONS[j] != SECTIONS[i];
    }
    AllSections(w, limits, inventory, selected, sizes, entryLimited);
  }

  datatype PlanResult = Planned(plan: Plan) | MarkerTooBig

  method PlanManifest(w: Writer, limits: Limits, inventory: seq<string>, given: Option<string>) returns (r: PlanResult)
    requires KeyedInventory(w, inventory)
    ensures r.MarkerTooBig? <==> BaseSize(w, FinalReason(w, limits, inventory, given)) > limits.bytes
    ensures r.Planned? ==> IsPlan(w, limits, inventory, given, r.plan)
  {
    var selected, sizes, entryLimited := PlanSections(w, limits, inventory);
    var candidateReason := Combine(given, PartialReason(limits, entryLimited, false));
    var candidateSize := BaseSize(w, candidateReason) + Sum(sizes);
    var byteLimited := candidateSize > limits.bytes;
    var partialReason := Combine(given, PartialReason(limits, entryLimited, byteLimited));
    if BaseSize(w, partialReason) > limits.bytes {
      return MarkerTooBig;
    }
    if byteLimited {
      var share := AllocateSectionBytes(sizes, limits.bytes - BaseSize(w, partialReason));
      selected := LimitByBytes(w, inventory, selected, share);
    }
    return Planned(Plan(partialReason, byteLimited, selected));
  }

  lemma AllSections(w: Writer, limits: Limits, inventory: seq<string>, selected: PerSection<Option<set<string>>>,
                    sizes: PerSection<nat>, entryLimited: bool)
    requires PlannedBelow(w, limits, inventory, |SECTIONS|, selected, sizes, entryLimited)
    ensures selected == AllEntryKeys(w, limits, inventory)
    ensures sizes == SectionSizes(w, inventory, selected)
    ensures entryLimited <==> EntryLimited(w, limits, inventory)
  {
    assert SECTIONS[0] == Files && SECTIONS[1] == PackageFiles && SECTIONS[2] == ConfigFiles;
    if s: Section :| |Candidates(w.view, s, inventory)| > limits.entries {
      var j := if s == Files then 0 else if s == PackageFiles then 1 else 2;
      assert SECTIONS[j] == s;
    }
  }

  method LimitByBytes(w: Writer, inventory: seq<string>, entryKeys: PerSection<Option<set<string>>>,
                      share: PerSection<nat>)
    returns (selected: PerSection<Option<set<string>>>)
    requires KeyedInventory(w, inventory)
    ensures IsByteSelection(w, inventory, entryKeys, share, selected)
  {
    var files := LimitSection(w, inventory, Files, entryKeys.files, share.files);
    var packages := LimitSection(w, inventory, PackageFiles, entryKeys.packageFiles, share.packageFiles);
    var configs := LimitSection(w, inventory, ConfigFiles, entryKeys.configFiles, share.configFiles);
    selected := PerSection(Some(files), Some(packages), Some(configs));
    forall s: Section ensures IsByteKeys(w, inventory, s, entryKeys.Of(s), share.Of(s), selected.Of(s)) {
      match s
      case Files =>
      case PackageFiles =>
      case ConfigFiles =>
    }
  }

  method LimitSection(w: Writer, inventory: seq<string>, s: Section, entryKeys: Option<set<string>>, limit: nat)
    returns (keys: set<string>)
    requires KeyedInventory(w, inventory)
    ensures IsByteKeys(w, inventory, s, entryKeys, limit, Some(keys))
  {
    KeyedCandidates(w, s, inventory);
    keys := SelectByBytes(w.view, s, Candidates(w.view, s, inventory), entryKeys, limit);
  }

  // ------------------------------------------------------------------ what a plan guarantees

  /** A plan's document never exceeds the byte limit. */
  lemma PlanFits(w: Writer, limits: Limits, inventory: seq<string>, given: Option<string>, plan: Plan)
    requires KeyedInventory(w, inventory) && IsPlan(w, limits, inventory, given, plan)
    requires BaseSize(w, plan.partialReason) <= limits.bytes
    ensures |Document(w, inventory, plan)| <= limits.bytes
    ensures !plan.byteLimited ==> |Document(w, inventory, plan)| == CandidateSize(w, limits, inventory, given)
  {
    DocumentSize(w, inventory, plan);
    if plan.byteLimited {
      var entryKeys := AllEntryKeys(w, limits, inventory);
      var share :| IsFair(SectionSizes(w, inventory, entryKeys), limits.bytes - BaseSize(w, plan.partialReason), share)
                   && IsByteSelection(w, inventory, entryKeys, share, plan.selected);
      ByteSelectionFits(w, inventory, entryKeys, SectionSizes(w, inventory, entryKeys),
                        limits.bytes - BaseSize(w, plan.partialReason), share, plan.selected);
    }
  }

  lemma ByteSelectionFits(w: Writer, inventory: seq<string>, entryKeys: PerSection<Option<set<string>>>,
                          desired: PerSection<nat>, room: nat, share: PerSection<nat>,
                          selected: PerSection<Option<set<string>>>)
    requires KeyedInventory(w, inventory) && IsByteSelection(w, inventory, entryKeys, share, selected)
    requires IsFair(desired, room, share)
    ensures Sum(SectionSizes(w, inventory, selected)) <= room
  {
    FairTotal(desired, room, share);
    ByteSelectionTotal(w, inventory, entryKeys, share, selected);
  }

  lemma ByteSelectionTotal(w: Writer, inventory: seq<string>, entryKeys: PerSection<Option<set<string>>>,
                           share: PerSection<nat>, selected: PerSection<Option<set<string>>>)
    requires KeyedInventory(w, inventory) && IsByteSelection(w, inventory, entryKeys, share, selected)
    ensures Sum(SectionSizes(w, inventory, selected)) <= Sum(share)
  {
    ByteSelectionSize(w, inventory, entryKeys, share, selected, Files);
    ByteSelectionSize(w, inventory, entryKeys, share, selected, PackageFiles);
    ByteSelectionSize(w, inventory, entryKeys, share, selected, ConfigFiles);
  }

  lemma ByteSelectionSize(w: Writer, inventory: seq<string>, entryKeys: PerSection<Option<set<string>>>,
                          share: PerSection<nat>, selected: PerSection<Option<set<string>>>, s: Section)
    requires KeyedInventory(w, inventory) && IsByteSelection(w, inventory, entryKeys, share, selected)
    ensures ListSize(w.view, Emitted(w, inventory, selected, s)) <= share.Of(s)
    ensures forall p :: p in Emitted(w, inventory, selected, s) ==> p in Emitted(w, inventory, entryKeys, s)
    ensures |Emitted(w, inventory, selected, s)| <= |Emitted(w, inventory, entryKeys, s)|
  {
    var v, paths := w.view, Candidates(w.view, s, inventory);
    KeyedCandidates(w, s, inventory);
    var kept := KeptOf(v, paths, entryKeys.Of(s));
    KeptMembers(v, paths, entryKeys.Of(s));
    CriticalFirstMembers(v, s, kept);
    var chosen := Pick(v, CriticalFirst(v, s, kept), share.Of(s));
    PickMembers(v, CriticalFirst(v, s, kept), share.Of(s));
    EmittedSize(v, paths, chosen);
    PickShorter(v, CriticalFirst(v, s, kept), share.Of(s));
    SameMembersSameSize(v, CriticalFirst(v, s, kept), kept);
  }

  lemma {:induction false} PickShorter(v: View, paths: seq<string>, limit: nat)
    ensures |Pick(v, paths, limit)| <= |paths|
    decreases |paths|
  {
    if paths != [] { PickShorter(v, paths[..|paths| - 1], limit); }
  }

  /** Nothing chosen was considered after something left out. */
  ghost predicate InTurn(v: View, s: Section, paths: seq<string>, chosen: seq<string>) {
    forall i, j :: 0 <= i < |paths| && 0 <= j < |paths| && Ahead(v, s, paths, i, j) && paths[j] in chosen ==>
      paths[i] in chosen
  }

  /** The entry limit leaves as many candidates as it allows: critical ones first, each class in inventory order. */
  lemma EntryChoice(v: View, limits: Limits, s: Section, inventory: seq<string>, kept: seq<string>)
    requires Keyed(v, Candidates(v, s, inventory))
    requires kept == KeptOf(v, Candidates(v, s, inventory), EntryKeys(v, limits, s, inventory))
    ensures |kept| == Min(limits.entries, |Candidates(v, s, inventory)|)
    ensures InTurn(v, s, Candidates(v, s, inventory), kept)
  {
    var paths := Candidates(v, s, inventory);
    KeptMembers(v, paths, EntryKeys(v, limits, s, inventory));
    if |paths| > limits.entries {
      CriticalFirstMembers(v, s, paths);
      var chosen := Take(limits.entries, CriticalFirst(v, s, paths));
      SameMembersSameSize(v, CriticalFirst(v, s, paths), paths);
      EmittedSize(v, paths, chosen);
      forall i, j | 0 <= i < |paths| && 0 <= j < |paths| && Ahead(v, s, paths, i, j) && paths[j] in kept
        ensures paths[i] in kept
      {
        ChosenByRank(v, s, paths, limits.entries, i);
        ChosenByRank(v, s, paths, limits.entries, j);
        RankOrder(v, s, paths, i, j);
      }
    }
  }

  /** None of the paths of a section that is left out would fit beside those emitted that come before it. */
  ghost predicate LeftOutTooBig(w: Writer, s: Section, paths: seq<string>, emitted: seq<string>, limit: nat) {
    forall j :: 0 <= j < |paths| && paths[j] !in emitted ==>
      ListSize(w.view, ChosenBefore(w.view, s, paths, emitted, j, |paths|) + [paths[j]]) > limit
  }

  lemma ByteChoice(w: Writer, inventory: seq<string>, entryKeys: PerSection<Option<set<string>>>,
                   share: PerSection<nat>, selected: PerSection<Option<set<string>>>, s: Section)
    requires KeyedInventory(w, inventory) && IsByteSelection(w, inventory, entryKeys, share, selected)
    ensures LeftOutTooBig(w, s, Emitted(w, inventory, entryKeys, s), Emitted(w, inventory, selected, s), share.Of(s))
  {
    var v, paths := w.view, Candidates(w.view, s, inventory);
    KeyedCandidates(w, s, inventory);
    var kept, emitted := Emitted(w, inventory, entryKeys, s), Emitted(w, inventory, selected, s);
    KeptMembers(v, paths, entryKeys.Of(s));
    CriticalFirstMembers(v, s, kept);
    var chosen := Pick(v, CriticalFirst(v, s, kept), share.Of(s));
    PickMembers(v, CriticalFirst(v, s, kept), share.Of(s));
    assert IsByteKeys(w, inventory, s, entryKeys.Of(s), share.Of(s), selected.Of(s));
    EmittedSize(v, paths, chosen);
    forall j | 0 <= j < |kept| && kept[j] !in emitted
      ensures ListSize(v, ChosenBefore(v, s, kept, emitted, j, |kept|) + [kept[j]]) > share.Of(s)
    {
      LeftOutByBytes(v, s, kept, share.Of(s), j);
      SameChosenBefore(v, s, kept, emitted, chosen, j, |kept|);
    }
  }

  /** As many candidates as the entry limit allows, those that come first. */
  ghost predicate FillsEntries(w: Writer, limits: Limits, inventory: seq<string>,
                               selected: PerSection<Option<set<string>>>, s: Section) {
    && |Emitted(w, inventory, selected, s)| == Min(limits.entries, |Candidates(w.view, s, inventory)|)
    && InTurn(w.view, s, Candidates(w.view, s, inventory), Emitted(w, inventory, selected, s))
  }

  ghost predicate FillsShare(w: Writer, inventory: seq<string>, entered: PerSection<Option<set<string>>>,
                             selected: PerSection<Option<set<string>>>, s: Section, limit: nat) {
    LeftOutTooBig(w, s, Emitted(w, inventory, entered, s), Emitted(w, inventory, selected, s), limit)
  }

  ghost predicate FillsShares(w: Writer, inventory: seq<string>, entered: PerSection<Option<set<string>>>,
                              share: PerSection<nat>, selected: PerSection<Option<set<string>>>) {
    forall s: Section :: FillsShare(w, inventory, entered, selected, s, share.Of(s))
  }

  lemma SharesFilled(w: Writer, inventory: seq<string>, entered: PerSection<Option<set<string>>>,
                     share: PerSection<nat>, selected: PerSection<Option<set<string>>>)
    requires KeyedInventory(w, inventory) && IsByteSelection(w, inventory, entered, share, selected)
    ensures FillsShares(w, inventory, entered, share, selected)
  {
    forall s: Section ensures FillsShare(w, inventory, entered, selected, s, share.Of(s)) {
      ByteChoice(w, inventory, entered, share, selected, s);
    }
  }

  lemma EntriesFilled(w: Writer, limits: Limits, inventory: seq<string>, s: Section)
    requires KeyedInventory(w, inventory)
    ensures FillsEntries(w, limits, inventory, AllEntryKeys(w, limits, inventory), s)
  {
    KeyedCandidates(w, s, inventory);
    EntryChoice(w.view, limits, s, inventory, Emitted(w, inventory, AllEntryKeys(w, limits, inventory), s));
  }

  lemma EnteredWithinLimit(w: Writer, limits: Limits, inventory: seq<string>, s: Section)
    requires KeyedInventory(w, inventory)
    ensures var emitted := Emitted(w, inventory, AllEntryKeys(w, limits, inventory), s);
            |emitted| <= limits.entries && forall p :: p in emitted ==> p in Candidates(w.view, s, inventory)
  {
    EntriesFilled(w, limits, inventory, s);
    KeyedCandidates(w, s, inventory);
    KeptMembers(w.view, Candidates(w.view, s, inventory), EntryKeys(w.view, limits, s, inventory));
  }

  /** No section emits more entries than the limit, and only its own candidates. */
  lemma PlanWithinEntryLimit(w: Writer, limits: Limits, inventory: seq<string>, given: Option<string>, plan: Plan,
                             s: Section)
    requires KeyedInventory(w, inventory) && IsPlan(w, limits, inventory, given, plan)
    ensures |Emitted(w, inventory, plan.selected, s)| <= limits.entries
    ensures forall p :: p in Emitted(w, inventory, plan.selected, s) ==> p in Candidates(w.view, s, inventory)
  {
    var entryKeys := AllEntryKeys(w, limits, inventory);
    EnteredWithinLimit(w, limits, inventory, s);
    if plan.byteLimited {
      var share :| IsFair(SectionSizes(w, inventory, entryKeys), limits.bytes - BaseSize(w, plan.partialReason), share)
                   && IsByteSelection(w, inventory, entryKeys, share, plan.selected);
      ByteSelectionSize(w, inventory, entryKeys, share, plan.selected, s);
    }
  }

  /** Unless the bytes run out a section emits as many of its candidates as the entry limit allows, and none
      before one that comes first: critical ones do, and each class comes in inventory order. */
  lemma PlanFillsEntries(w: Writer, limits: Limits, inventory: seq<string>, given: Option<string>, plan: Plan,
                         s: Section)
    requires KeyedInventory(w, inventory) && IsPlan(w, limits, inventory, given, plan) && !plan.byteLimited
    ensures FillsEntries(w, limits, inventory, plan.selected, s)
  {
    EntriesFilled(w, limits, inventory, s);
  }

  /** When the bytes run out, the entry limit has left the candidates it would leave without them, and whatever
      the bytes leave out of these would exceed the section's fair share beside what comes before it. */
  lemma PlanFillsBytes(w: Writer, limits: Limits, inventory: seq<string>, given: Option<string>, plan: Plan)
    requires KeyedInventory(w, inventory) && IsPlan(w, limits, inventory, given, plan) && plan.byteLimited
    ensures var entered := AllEntryKeys(w, limits, inventory);
            && (forall s: Section :: FillsEntries(w, limits, inventory, entered, s))
            && exists share :: IsFair(SectionSizes(w, inventory, entered),
                                      limits.bytes - BaseSize(w, plan.partialReason), share)
                               && FillsShares(w, inventory, entered, share, plan.selected)
  {
    var entered := AllEntryKeys(w, limits, inventory);
    forall s: Section ensures FillsEntries(w, limits, inventory, entered, s) {
      EntriesFilled(w, limits, inventory, s);
    }
    var share :| IsFair(SectionSizes(w, inventory, entered), limits.bytes - BaseSize(w, plan.partialReason), share)
                 && IsByteSelection(w, inventory, entered, share, plan.selected);
    SharesFilled(w, inventory, entered, share, plan.selected);
  }

  lemma RankedIsKept(v: View, limits: Limits, s: Section, inventory: seq<string>, i: nat)
    requires Keyed(v, Candidates(v, s, inventory)) && i < |Candidates(v, s, inventory)|
    requires Rank(v, s, Candidates(v, s, inventory), i) < limits.entries
    ensures Candidates(v, s, inventory)[i] in KeptOf(v, Candidates(v, s, inventory), EntryKeys(v, limits, s, inventory))
  {
    var paths := Candidates(v, s, inventory);
    KeptMembers(v, paths, EntryKeys(v, limits, s, inventory));
    if |paths| > limits.entries {
      ChosenByRank(v, s, paths, limits.entries, i);
    }
  }

  /** Unless the bytes run out, a reachable config of the inventory is emitted as a config file if the critical
      ones fit the entry limit. */
  lemma ReachableConfigEmitted(w: Writer, limits: Limits, inventory: seq<string>, given: Option<string>, plan: Plan,
                               path: string)
    requires KeyedInventory(w, inventory) && IsPlan(w, limits, inventory, given, plan) && !plan.byteLimited
    requires path in inventory && w.view.keys.valid(path) && w.view.keys.canon(path) in w.view.reachable
    requires |OfClass(w.view, ConfigFiles, true, Candidates(w.view, ConfigFiles, inventory))| <= limits.entries
    ensures path in Emitted(w, inventory, plan.selected, ConfigFiles)
  {
    KeyedCandidates(w, ConfigFiles, inventory);
    FilterMembers(p => InSection(w.view, ConfigFiles, p), inventory);
    var paths := Candidates(w.view, ConfigFiles, inventory);
    var i :| 0 <= i < |paths| && paths[i] == path;
    ClassAt(w.view, ConfigFiles, paths, i);
    RankedIsKept(w.view, limits, ConfigFiles, inventory, i);
  }

  /** The bytes run out exactly when the document with all entries the entry limit lets in, and no mention of a byte
      limit, is larger than allowed. */
  lemma CutWhenTooBig(w: Writer, limits: Limits, inventory: seq<string>, given: Option<string>, plan: Plan,
                      whole: Plan)
    requires IsPlan(w, limits, inventory, given, plan)
    requires whole == Plan(Combine(given, PartialReason(limits, EntryLimited(w, limits, inventory), false)), false,
                           AllEntryKeys(w, limits, inventory))
    ensures plan.byteLimited <==> |Document(w, inventory, whole)| > limits.bytes
    ensures !plan.byteLimited ==> plan == whole
  {
    DocumentSize(w, inventory, whole);
  }

  /** What kinds of paths a section is for. */
  ghost predicate BelongsTo(v: View, s: Section, path: string) {
    && v.keys.valid(path)
    && (s == Files ==> v.facts.sourceSuffix(path))
    && (s == PackageFiles ==> v.facts.packageJson(path))
    && (s == ConfigFiles ==> v.facts.configSuffix(path) || v.keys.canon(path) in v.reachable)
  }

  lemma InItsSection(v: View, s: Section, inventory: seq<string>, path: string)
    ensures path in Candidates(v, s, inventory) <==> path in inventory && BelongsTo(v, s, path)
    ensures |Candidates(v, s, inventory)| <= |inventory|
  {
    FilterMembers(p => InSection(v, s, p), inventory);
  }

  lemma AllEmitted(w: Writer, limits: Limits, inventory: seq<string>, given: Option<string>, plan: Plan, s: Section)
    requires KeyedInventory(w, inventory) && IsPlan(w, limits, inventory, given, plan) && !plan.byteLimited
    requires |Candidates(w.view, s, inventory)| <= limits.entries
    ensures Emitted(w, inventory, plan.selected, s) == Candidates(w.view, s, inventory)
  {
    KeyedCandidates(w, s, inventory);
    KeptMembers(w.view, Candidates(w.view, s, inventory), None);
  }

  /** A section that holds no more than the entry limit emits exactly the paths of its kind, if the bytes
      suffice. */
  lemma SmallSectionEmitted(w: Writer, limits: Limits, inventory: seq<string>, given: Option<string>, plan: Plan,
                            s: Section, path: string)
    requires KeyedInventory(w, inventory) && IsPlan(w, limits, inventory, given, plan) && !plan.byteLimited
    requires |inventory| <= limits.entries
    ensures path in Emitted(w, inventory, plan.selected, s) <==> path in inventory && BelongsTo(w.view, s, path)
  {
    InItsSection(w.view, s, inventory, path);
    AllEmitted(w, limits, inventory, given, plan, s);
  }

  /** Unless the bytes run out, whenever a section emits a path, it emits those that matter more: reachable configs
      among the sources, and root configs and reachable ones among the config files. */
  lemma ImportantFirst(w: Writer, limits: Limits, inventory: seq<string>, given: Option<string>, plan: Plan, s: Section,
                       path: string, other: string)
    requires KeyedInventory(w, inventory) && IsPlan(w, limits, inventory, given, plan) && !plan.byteLimited
    requires path in inventory && BelongsTo(w.view, s, path) && other in Emitted(w, inventory, plan.selected, s)
    requires s != PackageFiles && w.view.keys.canon(other) !in w.view.reachable
    requires s == ConfigFiles ==> !w.view.facts.configRoot(other) && !w.view.facts.packageJson(other)
    requires w.view.keys.canon(path) in w.view.reachable || (s == ConfigFiles && w.view.facts.configRoot(path))
    ensures path in Emitted(w, inventory, plan.selected, s)
  {
    var v, paths := w.view, Candidates(w.view, s, inventory);
    EntriesFilled(w, limits, inventory, s);
    KeyedCandidates(w, s, inventory);
    InItsSection(v, s, inventory, path);
    KeptMembers(v, paths, EntryKeys(v, limits, s, inventory));
    var i :| 0 <= i < |paths| && paths[i] == path;
    var j :| 0 <= j < |paths| && paths[j] == other;
    assert Ahead(v, s, paths, i, j);
  }

  /** No partial reason means that every candidate of every section is emitted. */
  lemma CompleteWithoutReason(w: Writer, limits: Limits, inventory: seq<string>, given: Option<string>, plan: Plan,
                              s: Section)
    requires KeyedInventory(w, inventory) && IsPlan(w, limits, inventory, given, plan)
    requires plan.partialReason.None?
    ensures Emitted(w, inventory, plan.selected, s) == Candidates(w.view, s, inventory)
  {
    assert !EntryLimited(w, limits, inventory) && !plan.byteLimited;
    assert |Candidates(w.view, s, inventory)| <= limits.entries;
    KeyedCandidates(w, s, inventory);
    KeptMembers(w.view, Candidates(w.view, s, inventory), None);
  }

  // ------------------------------------------------------------------ the streamer

  class BinaryStream {
    var written: string

    constructor ()
      ensures written == ""
    {
      written := "";
    }

    method Write(data: string)
      modifies this
      ensures written == old(written) + data
    {
      written := written + data;
    }
  }

  datatype StreamResult = Streamed | PlanMismatch | LimitExceeded

  method WriteEntry(stream: BinaryStream, separate: bool, encoded: string)
    modifies stream
    ensures stream.written == old(stream.written) + ((if separate then "," else "") + encoded)
  {
    var start := stream.written;
    if separate {
      stream.Write(",");
    }
    stream.Write(encoded);
    assert stream.written == start + ((if separate then "," else "") + encoded);
  }

  lemma AssociatesRight(a: string, b: string, c: string, d: string)
    ensures a + b + (c + d) == a + (b + c + d)
  {
  }

  /** One more entry is written behind what is there. */
  lemma EntryWritten(v: View, paths: seq<string>, selectedKeys: Option<set<string>>, i: nat, start: string,
                     kept: seq<string>, written: string)
    requires i < |paths| && kept == KeptOf(v, paths[..i], selectedKeys)
    requires selectedKeys.None? || v.keys.canon(paths[i]) in selectedKeys.value
    requires written == start + ListText(v, kept)
    ensures var next := KeptOf(v, paths[..i + 1], selectedKeys);
            && |next| == |kept| + 1
            && start + ListText(v, next) == written + ((if kept != [] then "," else "") + v.encode(paths[i]))
            && ListSize(v, next) == ListSize(v, kept) + |v.encode(paths[i])| + if kept != [] then 1 else 0
  {
    KeptSnoc(v, paths, selectedKeys, i);
    ListSnoc(v, kept, paths[i]);
    AssociatesRight(start, ListText(v, kept), if kept != [] then "," else "", v.encode(paths[i]));
  }

  method StreamEntries(stream: BinaryStream, v: View, paths: seq<string>, selectedKeys: Option<set<string>>)
    returns (size: nat)
    modifies stream
    ensures stream.written == old(stream.written) + ListText(v, KeptOf(v, paths, selectedKeys))
    ensures size == ListSize(v, KeptOf(v, paths, selectedKeys))
  {
    ghost var start := stream.written;
    var emittedCount := 0;
    size := 0;
    assert start + ListText(v, []) == start;
    for i := 0 to |paths|
      invariant stream.written == start + ListText(v, KeptOf(v, paths[..i], selectedKeys))
      invariant size == ListSize(v, KeptOf(v, paths[..i], selectedKeys))
      invariant emittedCount == |KeptOf(v, paths[..i], selectedKeys)|
    {
      KeptSnoc(v, paths, selectedKeys, i);
      if selectedKeys.None? || v.keys.canon(paths[i]) in selectedKeys.value {
        var encoded := v.encode(paths[i]);
        EntryWritten(v, paths, selectedKeys, i, start, KeptOf(v, paths[..i], selectedKeys), stream.written);
        WriteEntry(stream, emittedCount > 0, encoded);
        size := size + |encoded| + if emittedCount > 0 then 1 else 0;
        emittedCount := emittedCount + 1;
      }
    }
    assert paths[..|paths|] == paths;
  }

  method StreamSection(stream: BinaryStream, w: Writer, inventory: seq<string>, plan: Plan, s: Section)
    returns (size: nat)
    modifies stream
    ensures stream.written == old(stream.written) + SectionText(w, inventory, plan.selected, s)
    ensures size == ListSize(w.view, Emitted(w, inventory, plan.selected, s))
  {
    ghost var start := stream.written;
    stream.Write(SectionOpen(s));
    size := StreamEntries(stream, w.view, Candidates(w.view, s, inventory), plan.selected.Of(s));
    stream.Write("]");
    AssociatesRight(start, SectionOpen(s), ListText(w.view, Emitted(w, inventory, plan.selected, s)), "]");
  }

  method StreamSections(stream: BinaryStream, w: Writer, inventory: seq<string>, plan: Plan) returns (size: nat)
    modifies stream
    ensures stream.written == old(stream.written)
      + SectionText(w, inventory, plan.selected, Files)
      + SectionText(w, inventory, plan.selected, PackageFiles)
      + SectionText(w, inventory, plan.selected, ConfigFiles)
    ensures size == Sum(SectionSizes(w, inventory, plan.selected))
  {
    var files := StreamSection(stream, w, inventory, plan, Files);
    var packages := StreamSection(stream, w, inventory, plan, PackageFiles);
    var configs := StreamSection(stream, w, inventory, plan, ConfigFiles);
    size := files + packages + configs;
  }

  method StreamPartial(stream: BinaryStream, w: Writer, reason: Option<string>)
    modifies stream
    ensures stream.written == old(stream.written) + PartialText(w, reason)
  {
    if reason.Some? {
      var start := stream.written;
      stream.Write(PARTIAL_PREFIX);
      stream.Write(w.jsonText(reason.value));
      assert stream.written == start + (PARTIAL_PREFIX + w.jsonText(reason.value));
    }
  }

  /** Streams any plan; the size added up while writing always matches what was written. */
  method StreamManifest(stream: BinaryStream, w: Writer, limits: Limits, inventory: seq<string>, plan: Plan)
    returns (r: StreamResult)
    requires stream.written == ""
    modifies stream
    ensures stream.written == Document(w, inventory, plan)
    ensures r == if |Document(w, inventory, plan)| > limits.bytes then LimitExceeded else Streamed
  {
    stream.Write(HEADER);
    assert stream.written == HEADER;
    var plannedSize := BaseSize(w, plan.partialReason);
    var size := StreamSections(stream, w, inventory, plan);
    plannedSize := plannedSize + size;
    StreamPartial(stream, w, plan.partialReason);
    stream.Write("}");
    DocumentSize(w, inventory, plan);
    var actualSize := |stream.written|;
    if actualSize != plannedSize {
      return PlanMismatch;
    }
    if actualSize > limits.bytes {
      return LimitExceeded;
    }
    return Streamed;
  }

  // ------------------------------------------------------------------ the whole writer

  lemma {:induction false} CandidatesOfValid(w: Writer, s: Section, inventory: seq<string>)
    ensures Candidates(w.view, s, inventory) == Candidates(w.view, s, Filter(w.view.keys.valid, inventory))
    decreases |inventory|
  {
    if inventory != [] {
      var init, last := inventory[..|inventory| - 1], inventory[|inventory| - 1];
      CandidatesOfValid(w, s, init);
      var f := Filter(w.view.keys.valid, init);
      assert (f + [last])[..|f|] == f;
      assert Candidates(w.view, s, inventory) ==
        if InSection(w.view, s, last) then Candidates(w.view, s, init) + [last] else Candidates(w.view, s, init);
      assert Candidates(w.view, s, f + [last]) ==
        if InSection(w.view, s, last) then Candidates(w.view, s, f) + [last] else Candidates(w.view, s, f);
    }
  }

  datatype WriteResult = Written(plan: Plan) | Failed

  /** Order, plan and stream any inventory. The write fails only when even the partial marker does
      not fit; otherwise the stream holds the plan's document, within the byte limit, and without a
      partial reason every candidate of the sorted and deduplicated inventory is in it. */
  method WriteManifest(stream: BinaryStream, w: Writer, limits: Limits, paths: seq<string>, given: Option<string>)
    returns (r: WriteResult)
    requires stream.written == ""
    modifies stream
    ensures r.Failed? <==>
      BaseSize(w, FinalReason(w, limits, SortedDeduped(w.view.keys, paths), given)) > limits.bytes
    ensures r.Failed? ==> stream.written == ""
    ensures r.Written? ==>
      var inventory := SortedDeduped(w.view.keys, paths);
      && IsPlan(w, limits, inventory, given, r.plan)
      && stream.written == Document(w, inventory, r.plan) && |stream.written| <= limits.bytes
      && (r.plan.partialReason.None? ==>
            forall s: Section :: Emitted(w, inventory, r.plan.selected, s) == Candidates(w.view, s, inventory))
  {
    var ordered := OrderedInventory(w.view.keys, paths);
    ghost var inventory := SortedDeduped(w.view.keys, paths);
    forall s: Section ensures Candidates(w.view, s, ordered) == Candidates(w.view, s, inventory) {
      CandidatesOfValid(w, s, ordered);
    }
    SameSections(w, limits, ordered, inventory, given);
    SortedDedupedKeys(w.view.keys, paths);
    var planned := PlanManifest(w, limits, ordered, given);
    if planned.MarkerTooBig? {
      return Failed;
    }
    var plan := planned.plan;
    SameSectionsPlan(w, limits, ordered, inventory, given, plan);
    PlanFits(w, limits, inventory, given, plan);
    if plan.partialReason.None? {
      forall s: Section { CompleteWithoutReason(w, limits, inventory, given, plan, s); }
    }
    var streamed := StreamManifest(stream, w, limits, ordered, plan);
    assert streamed == Streamed;
    return Written(plan);
  }

  /** Planning and streaming look at an inventory only through its sections. */
  lemma SameSections(w: Writer, limits: Limits, a: seq<string>, b: seq<string>, given: Option<string>)
    requires forall s: Section :: Candidates(w.view, s, a) == Candidates(w.view, s, b)
    ensures AllEntryKeys(w, limits, a) == AllEntryKeys(w, limits, b)
    ensures EntryLimited(w, limits, a) <==> EntryLimited(w, limits, b)
    ensures forall selected :: SectionSizes(w, a, selected) == SectionSizes(w, b, selected)
    ensures CandidateSize(w, limits, a, given) == CandidateSize(w, limits, b, given)
    ensures FinalReason(w, limits, a, given) == FinalReason(w, limits, b, given)
  {
  }

  lemma SameSectionsPlan(w: Writer, limits: Limits, a: seq<string>, b: seq<string>, given: Option<string>, plan: Plan)
    requires forall s: Section :: Candidates(w.view, s, a) == Candidates(w.view, s, b)
    ensures IsPlan(w, limits, a, given, plan) <==> IsPlan(w, limits, b, given, plan)
    ensures Document(w, a, plan) == Document(w, b, plan)
  {
    SameSections(w, limits, a, b, given);
    var entryKeys := AllEntryKeys(w, limits, a);
    forall share ensures IsByteSelection(w, a, entryKeys, share, plan.selected)
                    <==> IsByteSelection(w, b, entryKeys, share, plan.selected) {
    }
  }
}
