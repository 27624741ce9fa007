/**
 Bounded retention of inventory paths (`_TypescriptInventoryRetention` in analyzers/typescript.py).

 Paths are offered one at a time. Pure source paths live in a list with a lazily built reverse
 index; metadata paths live in an insertion-ordered dictionary. Five running counters, three size
 limits, priority eviction and quarter reserves decide what stays.
 */
module InventoryRetention {
  import opened InventoryPaths
  import opened Wrappers

  datatype Retained<P> = Retained(path: P, sections: set<Section>, pathBytes: nat, critical: bool)

  datatype Reason = Given(text: string) | EntryLimited(limit: nat, relevant: bool) | ByteLimited

  datatype SectionCounts = SectionCounts(files: int, packageFiles: int, configFiles: int)
  {
    function Of(s: Section): int {
      match s
      case Files => files
      case PackageFiles => packageFiles
      case ConfigFiles => configFiles
    }

    function Saturated(sections: set<Section>, limit: nat): (r: set<Section>)
      ensures forall s :: s in r <==> s in sections && Of(s) >= limit
    {
      set s | s in sections && Of(s) >= limit
    }

    function Bump(sections: set<Section>, delta: int): SectionCounts {
      SectionCounts(files + if Files in sections then delta else 0,
                    packageFiles + if PackageFiles in sections then delta else 0,
                    configFiles + if ConfigFiles in sections then delta else 0)
    }
  }

  datatype Limits = Limits(entries: nat, pathBytes: nat, sectionEntries: nat)

  // ------------------------------------------------------------------ what one record costs

  /** The quantities the running counters stand for. */
  datatype Measure = Bytes | SourceBytes | OrdinaryBytes | OrdinaryCount | InSection(section: Section)

  datatype Counts = Counts(bytes: int, sourceBytes: int, ordinaryBytes: int, ordinaryCount: int,
                           sections: SectionCounts)
  {
    function At(k: Measure): int {
      match k
      case Bytes => bytes
      case SourceBytes => sourceBytes
      case OrdinaryBytes => ordinaryBytes
      case OrdinaryCount => ordinaryCount
      case InSection(s) => sections.Of(s)
    }
  }

  ghost predicate IsSource<P>(r: Retained<P>) {
    PackageFiles !in r.sections && ConfigFiles !in r.sections
  }

  ghost function Cost<P>(r: Retained<P>, k: Measure): nat {
    match k
    case Bytes => r.pathBytes
    case SourceBytes => if IsSource(r) then r.pathBytes else 0
    case OrdinaryBytes => if !IsSource(r) && !r.critical then r.pathBytes else 0
    case OrdinaryCount => if !IsSource(r) && !r.critical then 1 else 0
    case InSection(s) => if s in r.sections then 1 else 0
  }

  ghost function Sum<P>(records: seq<Retained<P>>, k: Measure, n: nat): nat
    requires n <= |records|
  {
    if n == 0 then 0 else Sum(records, k, n - 1) + Cost(records[n - 1], k)
  }

  ghost function Total<P>(records: seq<Retained<P>>, k: Measure): nat {
    Sum(records, k, |records|)
  }

  lemma {:induction false} SumAgrees<P>(a: seq<Retained<P>>, b: seq<Retained<P>>, k: Measure, n: nat)
    requires n <= |a| && n <= |b| && forall j :: 0 <= j < n ==> a[j] == b[j]
    ensures Sum(a, k, n) == Sum(b, k, n)
  {
    if n > 0 { SumAgrees(a, b, k, n - 1); }
  }

  lemma {:induction false} SumWithout<P>(a: seq<Retained<P>>, b: seq<Retained<P>>, k: Measure, i: nat, n: nat)
    requires i < n <= |a| && n - 1 <= |b|
    requires forall j :: 0 <= j < i ==> b[j] == a[j]
    requires forall j :: i <= j < n - 1 ==> b[j] == a[j + 1]
    ensures Sum(b, k, n - 1) == Sum(a, k, n) - Cost(a[i], k)
  {
    if i < n - 1 {
      SumWithout(a, b, k, i, n - 1);
    } else {
      SumAgrees(a, b, k, i);
    }
  }

  lemma {:induction false} SumReplaced<P>(a: seq<Retained<P>>, b: seq<Retained<P>>, k: Measure, i: nat, n: nat)
    requires i < n <= |a| && n <= |b|
    requires forall j :: 0 <= j < n && j != i ==> b[j] == a[j]
    ensures Sum(b, k, n) == Sum(a, k, n) - Cost(a[i], k) + Cost(b[i], k)
  {
    if i < n - 1 {
      SumReplaced(a, b, k, i, n - 1);
    } else {
      SumAgrees(a, b, k, i);
    }
  }

  lemma TotalAppend<P>(records: seq<Retained<P>>, r: Retained<P>, k: Measure)
    ensures Total(records + [r], k) == Total(records, k) + Cost(r, k)
  {
    SumAgrees(records, records + [r], k, |records|);
  }

  lemma TotalRemove<P>(records: seq<Retained<P>>, i: nat, k: Measure)
    requires i < |records|
    ensures Total(RemoveAt(records, i), k) == Total(records, k) - Cost(records[i], k)
  {
    SumWithout(records, RemoveAt(records, i), k, i, |records|);
  }

  lemma TotalSwapRemove<P>(records: seq<Retained<P>>, i: nat, k: Measure)
    requires i < |records|
    ensures Total(SwapRemove(records, i), k) == Total(records, k) - Cost(records[i], k)
  {
    var n, after := |records| - 1, SwapRemove(records, i);
    if i < n {
      SumReplaced(records, after, k, i, n);
    } else {
      SumAgrees(records, after, k, n);
    }
  }

  function RemoveAt<T>(s: seq<T>, i: nat): seq<T>
    requires i < |s|
  {
    s[..i] + s[i + 1..]
  }

  /** Removal that moves the last element into the hole. */
  function SwapRemove<T>(s: seq<T>, i: nat): seq<T>
    requires i < |s|
  {
    var n := |s| - 1;
    if i < n then s[..n][i := s[n]] else s[..n]
  }

  // ------------------------------------------------------------------ what is held

  /** Source list, metadata dictionary in insertion order, and the running counters. */
  datatype Held<P> = Held(sources: seq<P>, metadata: seq<Retained<P>>, counts: Counts)
  {
    function Count(): nat {
      |sources| + |metadata|
    }

    ghost predicate Holds(p: P) {
      p in sources || exists i :: 0 <= i < |metadata| && metadata[i].path == p
    }
  }

  ghost predicate Distinct<T>(s: seq<T>) {
    forall i, j :: 0 <= i < j < |s| ==> s[i] != s[j]
  }

  ghost predicate DistinctPaths<P>(records: seq<Retained<P>>) {
    forall i, j :: 0 <= i < j < |records| ==> records[i].path != records[j].path
  }

  ghost predicate Apart<P>(sources: seq<P>, records: seq<Retained<P>>) {
    forall r :: r in records ==> r.path !in sources
  }

  ghost predicate SourcesOk<P>(facts: PathFacts<P>, sources: seq<P>) {
    forall p :: p in sources ==> facts.hasKey(p) && facts.PureSource(p, false)
  }

  ghost predicate RecordOk<P>(facts: PathFacts<P>, r: Retained<P>) {
    && facts.hasKey(r.path) && r.pathBytes == facts.PathBytes(r.path)
    && (r.sections == facts.Sections(r.path, false) || (r.critical && r.sections == facts.Sections(r.path, true)))
    && (PackageFiles in r.sections || ConfigFiles in r.sections)
    && (facts.Critical(r.path, false) ==> r.critical)
  }

  ghost predicate RecordsOk<P>(facts: PathFacts<P>, records: seq<Retained<P>>) {
    forall r :: r in records ==> RecordOk(facts, r)
  }

  ghost predicate Structure<P>(facts: PathFacts<P>, h: Held<P>) {
    && Distinct(h.sources) && DistinctPaths(h.metadata) && Apart(h.sources, h.metadata)
    && SourcesOk(facts, h.sources) && RecordsOk(facts, h.metadata)
  }

  /** All counters are the sums over what is held. */
  ghost predicate Counted<P>(facts: PathFacts<P>, h: Held<P>) {
    forall k: Measure :: h.counts.At(k) == Total(SourceRecords(facts, h.sources), k) + Total(h.metadata, k)
  }

  ghost predicate Core<P>(facts: PathFacts<P>, h: Held<P>) {
    Structure(facts, h) && Counted(facts, h)
  }

  ghost predicate WithinLimits<P>(limits: Limits, enforce: bool, h: Held<P>) {
    && h.Count() <= limits.entries
    && h.counts.bytes <= limits.pathBytes
    && (enforce ==> forall s: Section :: h.counts.sections.Of(s) <= limits.sectionEntries)
  }

  ghost function SourceRecord<P>(facts: PathFacts<P>, p: P): Retained<P> {
    Retained(p, {Files}, facts.PathBytes(p), false)
  }

  ghost function SourceRecords<P>(facts: PathFacts<P>, sources: seq<P>): (rs: seq<Retained<P>>)
    ensures |rs| == |sources|
    ensures forall i :: 0 <= i < |rs| ==> rs[i] == SourceRecord(facts, sources[i])
  {
    seq(|sources|, i requires 0 <= i < |sources| => SourceRecord(facts, sources[i]))
  }

  // ------------------------------------------------------------------ the reverse index

  /** The index maps exactly the listed paths to their positions. */
  ghost predicate InverseOf<P>(index: map<P, nat>, sources: seq<P>) {
    && (forall i :: 0 <= i < |sources| ==> sources[i] in index && index[sources[i]] == i)
    && (forall p :: p in index ==> index[p] < |sources| && sources[index[p]] == p)
  }

  ghost predicate IndexOk<P>(index: Option<map<P, nat>>, sources: seq<P>) {
    index.Some? ==> InverseOf(index.value, sources)
  }

  /** The index after `p` was appended. */
  function Indexed<P>(index: Option<map<P, nat>>, sources: seq<P>, p: P): Option<map<P, nat>> {
    if index.Some? then Some(index.value[p := |sources|]) else None
  }

  /** The index after the `i`-th path was removed by swapping with the last. */
  function Unindexed<P(==)>(index: map<P, nat>, sources: seq<P>, i: nat): map<P, nat>
    requires i < |sources|
  {
    var rest, last := index - {sources[i]}, sources[|sources| - 1];
    if i < |sources| - 1 then rest[last := i] else rest
  }

  ghost function PositionOf<T>(s: seq<T>, x: T): (i: nat)
    requires x in s
    ensures i < |s| && s[i] == x
  {
    var i :| 0 <= i < |s| && s[i] == x;
    i
  }

  /** A duplicate in the source list has no exact inverse: this is why a pure source path may be
      offered only while it is not retained. */
  lemma DuplicateHasNoInverse<P>(sources: seq<P>, p: P)
    requires Distinct(sources)
    ensures (exists index :: InverseOf(index, sources + [p])) <==> p !in sources
  {
    if p in sources {
      var i :| 0 <= i < |sources| && sources[i] == p;
      assert (sources + [p])[i] == p && (sources + [p])[|sources|] == p;
    } else {
      var index := map q | q in sources + [p] :: PositionOf(sources + [p], q);
      assert Distinct(sources + [p]);
      assert InverseOf(index, sources + [p]);
    }
  }

  /** Append `p` to a list with an exact index and drop it again: some path is left that the index does not
      know, so that dropping it would fail, if and only if `p` was in the list before. */
  lemma DroppedDuplicateIsLost<P>(index: map<P, nat>, sources: seq<P>, p: P)
    requires InverseOf(index, sources)
    ensures var appended := Indexed(Some(index), sources, p).value;
            var after := SwapRemove(sources + [p], appended[p]);
            (exists q :: q in after && q !in Unindexed(appended, sources + [p], appended[p])) <==> p in sources
  {
    var appended := index[p := |sources|];
    assert SwapRemove(sources + [p], |sources|) == sources;
    assert Unindexed(appended, sources + [p], |sources|) == appended - {p};
    if p in sources {
      assert p !in appended - {p};
    }
  }

  // ------------------------------------------------------------------ steps on what is held

  /** The counters after `r` comes (`sign` 1) or goes (`sign` -1). */
  ghost function Adjust<P>(c: Counts, r: Retained<P>, sign: int): (c': Counts)
    requires sign == 1 || sign == -1
    ensures forall k: Measure ::
      if sign == 1 then c'.At(k) == c.At(k) + Cost(r, k) else c'.At(k) == c.At(k) - Cost(r, k)
  {
    Counts(c.bytes + sign * Cost(r, Bytes), c.sourceBytes + sign * Cost(r, SourceBytes),
           c.ordinaryBytes + sign * Cost(r, OrdinaryBytes), c.ordinaryCount + sign * Cost(r, OrdinaryCount),
           c.sections.Bump(r.sections, sign))
  }

  ghost function WithoutMetadata<P>(h: Held<P>, i: nat): Held<P>
    requires i < |h.metadata|
  {
    h.(metadata := RemoveAt(h.metadata, i), counts := Adjust(h.counts, h.metadata[i], -1))
  }

  ghost function WithoutSource<P>(facts: PathFacts<P>, h: Held<P>, i: nat): Held<P>
    requires i < |h.sources|
  {
    h.(sources := SwapRemove(h.sources, i), counts := Adjust(h.counts, SourceRecord(facts, h.sources[i]), -1))
  }

  ghost function WithMetadata<P>(h: Held<P>, r: Retained<P>): Held<P> {
    h.(metadata := h.metadata + [r], counts := Adjust(h.counts, r, 1))
  }

  ghost function WithSource<P>(facts: PathFacts<P>, h: Held<P>, p: P): Held<P> {
    h.(sources := h.sources + [p], counts := Adjust(h.counts, SourceRecord(facts, p), 1))
  }

  lemma RemoveAtMembers<P>(records: seq<Retained<P>>, i: nat)
    requires i < |records| && DistinctPaths(records)
    ensures DistinctPaths(RemoveAt(records, i))
    ensures forall r :: r in RemoveAt(records, i) <==> r in records && r.path != records[i].path
  {
    var after := RemoveAt(records, i);
    assert forall j :: 0 <= j < |after| ==> after[j] == records[if j < i then j else j + 1];
    forall r | r in records && r.path != records[i].path ensures r in after {
      var j :| 0 <= j < |records| && records[j] == r;
      assert after[if j < i then j else j - 1] == r;
    }
  }

  lemma SwapRemoveMembers<T>(s: seq<T>, i: nat)
    requires i < |s| && Distinct(s)
    ensures Distinct(SwapRemove(s, i))
    ensures forall x :: x in SwapRemove(s, i) <==> x in s && x != s[i]
  {
    var n, after := |s| - 1, SwapRemove(s, i);
    assert forall j :: 0 <= j < n ==> after[j] == if j == i then s[n] else s[j];
    forall x | x in s && x != s[i] ensures x in after {
      var j :| 0 <= j < |s| && s[j] == x;
      assert after[if j == n then i else j] == x;
    }
  }

  lemma WithoutMetadataCore<P>(facts: PathFacts<P>, h: Held<P>, i: nat)
    requires Core(facts, h) && i < |h.metadata|
    ensures Core(facts, WithoutMetadata(h, i))
    ensures forall r :: r in WithoutMetadata(h, i).metadata <==> r in h.metadata && r.path != h.metadata[i].path
  {
    RemoveAtMembers(h.metadata, i);
    forall k: Measure { TotalRemove(h.metadata, i, k); }
  }

  lemma WithoutSourceCore<P>(facts: PathFacts<P>, h: Held<P>, i: nat)
    requires Core(facts, h) && i < |h.sources|
    ensures Core(facts, WithoutSource(facts, h, i))
    ensures forall p :: p in WithoutSource(facts, h, i).sources <==> p in h.sources && p != h.sources[i]
  {
    SwapRemoveMembers(h.sources, i);
    forall k: Measure { TotalSwapRemove(SourceRecords(facts, h.sources), i, k); }
    assert SourceRecords(facts, SwapRemove(h.sources, i)) == SwapRemove(SourceRecords(facts, h.sources), i);
  }

  lemma WithMetadataCore<P>(facts: PathFacts<P>, h: Held<P>, r: Retained<P>)
    requires Core(facts, h) && RecordOk(facts, r) && !h.Holds(r.path)
    ensures Core(facts, WithMetadata(h, r))
  {
    forall k: Measure { TotalAppend(h.metadata, r, k); }
  }

  lemma WithSourceCore<P>(facts: PathFacts<P>, h: Held<P>, p: P)
    requires Core(facts, h) && facts.hasKey(p) && facts.PureSource(p, false) && !h.Holds(p)
    ensures Core(facts, WithSource(facts, h, p))
  {
    forall k: Measure { TotalAppend(SourceRecords(facts, h.sources), SourceRecord(facts, p), k); }
    assert SourceRecords(facts, h.sources + [p]) == SourceRecords(facts, h.sources) + [SourceRecord(facts, p)];
    assert forall r :: r in h.metadata ==> r.path != p;
  }

  // ------------------------------------------------------------------ eviction

  /** `h'` is `h` after some evictions: nothing new, nothing critical or protected gone. */
  ghost predicate Evicts<P>(h: Held<P>, h': Held<P>, protected: Option<P>) {
    && (forall p :: p in h'.sources ==> p in h.sources)
    && (forall r :: r in h'.metadata ==> r in h.metadata)
    && (forall r :: r in h.metadata && (r.critical || Some(r.path) == protected) ==> r in h'.metadata)
    && h'.Count() <= h.Count() && h'.counts.bytes <= h.counts.bytes
    && (forall s: Section :: h'.counts.sections.Of(s) <= h.counts.sections.Of(s))
  }

  lemma EvictsTransitive<P>(h0: Held<P>, h1: Held<P>, h2: Held<P>, protected: Option<P>)
    requires Evicts(h0, h1, protected) && Evicts(h1, h2, protected)
    ensures Evicts(h0, h2, protected)
  {
  }

  lemma EvictsWithinLimits<P>(limits: Limits, enforce: bool, h: Held<P>, h': Held<P>, protected: Option<P>)
    requires Evicts(h, h', protected) && WithinLimits(limits, enforce, h)
    ensures WithinLimits(limits, enforce, h')
  {
    forall s: Section ensures h'.counts.sections.Of(s) <= h.counts.sections.Of(s) {}
  }

  function FindRecord<P(==)>(records: seq<Retained<P>>, p: P, n: nat := |records|): (r: Option<nat>)
    requires n <= |records|
    ensures r.Some? ==> r.value < n && records[r.value].path == p
    ensures r.None? ==> forall i :: 0 <= i < n ==> records[i].path != p
  {
    if n == 0 then None
    else if records[n - 1].path == p then Some(n - 1)
    else FindRecord(records, p, n - 1)
  }

  /** Dropping the holder of `p`, wherever it is. */
  ghost function Without<P>(facts: PathFacts<P>, h: Held<P>, p: P): Held<P>
    requires h.Holds(p)
  {
    match FindRecord(h.metadata, p)
    case Some(i) => WithoutMetadata(h, i)
    case None => WithoutSource(facts, h, PositionOf(h.sources, p))
  }

  lemma WithoutMetadataEvicts<P>(facts: PathFacts<P>, h: Held<P>, i: nat, protected: Option<P>)
    requires Core(facts, h) && i < |h.metadata| && Some(h.metadata[i].path) != protected && !h.metadata[i].critical
    ensures Core(facts, WithoutMetadata(h, i))
    ensures Evicts(h, WithoutMetadata(h, i), protected)
    ensures !WithoutMetadata(h, i).Holds(h.metadata[i].path)
  {
    WithoutMetadataCore(facts, h, i);
    assert h.metadata[i] in h.metadata;
    forall r | r in h.metadata && (r.critical || Some(r.path) == protected)
      ensures r in WithoutMetadata(h, i).metadata
    {
      var j :| 0 <= j < |h.metadata| && h.metadata[j] == r;
    }
  }

  lemma WithoutSourceEvicts<P>(facts: PathFacts<P>, h: Held<P>, i: nat, protected: Option<P>)
    requires Core(facts, h) && i < |h.sources|
    ensures Core(facts, WithoutSource(facts, h, i))
    ensures Evicts(h, WithoutSource(facts, h, i), protected)
    ensures !WithoutSource(facts, h, i).Holds(h.sources[i])
  {
    WithoutSourceCore(facts, h, i);
    assert forall r :: r in h.metadata ==> r.path !in h.sources;
  }

  lemma WithoutEvicts<P>(facts: PathFacts<P>, h: Held<P>, p: P, protected: Option<P>)
    requires Core(facts, h) && h.Holds(p) && Some(p) != protected
    requires var i := FindRecord(h.metadata, p); i.Some? ==> !h.metadata[i.value].critical
    ensures Core(facts, Without(facts, h, p))
    ensures Evicts(h, Without(facts, h, p), protected)
    ensures Without(facts, h, p).Count() == h.Count() - 1
  {
    match FindRecord(h.metadata, p)
    case Some(i) => WithoutMetadataEvicts(facts, h, i, protected);
    case None => WithoutSourceEvicts(facts, h, PositionOf(h.sources, p), protected);
  }

  predicate Evictable<P(==)>(r: Retained<P>, sections: set<Section>, protected: Option<P>) {
    Some(r.path) != protected && !r.critical && r.sections * sections != {}
  }

  function LatestEvictable<P(==)>(records: seq<Retained<P>>, sections: set<Section>, protected: Option<P>, n: nat)
    : (r: Option<nat>)
    requires n <= |records|
    ensures r.Some? ==> r.value < n && Evictable(records[r.value], sections, protected)
    ensures forall i :: (if r.Some? then r.value + 1 else 0) <= i < n ==> !Evictable(records[i], sections, protected)
  {
    if n == 0 then None
    else if Evictable(records[n - 1], sections, protected) then Some(n - 1)
    else LatestEvictable(records, sections, protected, n - 1)
  }

  function LatestOther<P(==)>(sources: seq<P>, protected: Option<P>, n: nat): (r: Option<nat>)
    requires n <= |sources|
    ensures r.Some? ==> r.value < n && Some(sources[r.value]) != protected
    ensures forall i :: (if r.Some? then r.value + 1 else 0) <= i < n ==> Some(sources[i]) == protected
  {
    if n == 0 then None
    else if Some(sources[n - 1]) != protected then Some(n - 1)
    else LatestOther(sources, protected, n - 1)
  }

  /** The latest eligible metadata path, else (for the files section) the latest eligible source path. */
  function Candidate<P(==)>(h: Held<P>, sections: set<Section>, protected: Option<P>): Option<P> {
    match LatestEvictable(h.metadata, sections, protected, |h.metadata|)
    case Some(i) => Some(h.metadata[i].path)
    case None =>
      if Files !in sections then None
      else match LatestOther(h.sources, protected, |h.sources|)
           case Some(i) => Some(h.sources[i])
           case None => None
  }

  /** Whatever the candidate search names can be dropped; sources are named only for the files section. */
  lemma CandidateEvictable<P>(facts: PathFacts<P>, h: Held<P>, sections: set<Section>, protected: Option<P>, key: P)
    requires Core(facts, h) && Candidate(h, sections, protected) == Some(key)
    ensures h.Holds(key) && Some(key) != protected
    ensures var i := FindRecord(h.metadata, key);
            if i.Some? then !h.metadata[i.value].critical else Files in sections
  {
    match LatestEvictable(h.metadata, sections, protected, |h.metadata|)
    case Some(i) => assert h.metadata[i] in h.metadata;
    case None =>
      assert key in h.sources;
      assert forall r :: r in h.metadata ==> r.path != key;
  }

  /** One step of an eviction loop that started from `h0`. */
  lemma EvictStep<P>(facts: PathFacts<P>, h0: Held<P>, h: Held<P>, sections: set<Section>, protected: Option<P>, key: P)
    requires Core(facts, h) && Evicts(h0, h, protected) && Candidate(h, sections, protected) == Some(key)
    ensures h.Holds(key) && Core(facts, Without(facts, h, key)) && Evicts(h0, Without(facts, h, key), protected)
    ensures Without(facts, h, key).Count() == h.Count() - 1
    ensures Files !in sections ==> FindRecord(h.metadata, key).Some?
  {
    CandidateEvictable(facts, h, sections, protected, key);
    WithoutEvicts(facts, h, key, protected);
    EvictsTransitive(h0, h, Without(facts, h, key), protected);
  }

  // ------------------------------------------------------------------ when there is nothing left to evict

  /** Everything held in the section is critical or protected. */
  ghost predicate FullOfCritical<P>(h: Held<P>, s: Section, protected: Option<P>) {
    && (forall r :: r in h.metadata && s in r.sections ==> r.critical || Some(r.path) == protected)
    && (s == Files ==> forall q :: q in h.sources ==> Some(q) == protected)
  }

  /** One of the sections is full; for a critical offer, of critical paths and the path itself. */
  ghost predicate SectionRefused<P>(limits: Limits, enforce: bool, h: Held<P>, sections: set<Section>, critical: bool,
                                    protected: Option<P>) {
    enforce && exists s :: s in sections && h.counts.sections.Of(s) >= limits.sectionEntries
                           && (critical ==> FullOfCritical(h, s, protected))
  }

  lemma NoCandidate<P>(h: Held<P>, sections: set<Section>, protected: Option<P>)
    requires Candidate(h, sections, protected).None?
    ensures forall s :: s in sections ==> FullOfCritical(h, s, protected)
  {
    forall s | s in sections ensures FullOfCritical(h, s, protected) {
      forall r | r in h.metadata && s in r.sections ensures r.critical || Some(r.path) == protected {
        var i :| 0 <= i < |h.metadata| && h.metadata[i] == r;
        assert !Evictable(h.metadata[i], sections, protected);
        assert s in r.sections * sections;
      }
    }
  }

  ghost predicate NothingOrdinary<P>(h: Held<P>) {
    h.sources == [] && forall r :: r in h.metadata ==> r.critical
  }

  lemma OnlyCritical<P>(facts: PathFacts<P>, h: Held<P>)
    requires Core(facts, h) && Candidate(h, {Files, PackageFiles, ConfigFiles}, None).None?
    ensures NothingOrdinary(h)
  {
    NoCandidate(h, {Files, PackageFiles, ConfigFiles}, None);
    assert FullOfCritical(h, Files, None);
    forall r | r in h.metadata ensures r.critical {
      assert RecordOk(facts, r);
    }
  }

  /** The class that an arrival may push back has nothing to give: it is empty, or would fall below a quarter of
      a limit under pressure. */
  ghost predicate ReserveReached<P>(facts: PathFacts<P>, limits: Limits, h: Held<P>, incomingIsMetadata: bool,
                                    entryPressure: bool, bytePressure: bool) {
    || (entryPressure && OtherCount(h, incomingIsMetadata) - 1 < limits.entries / 4)
    || (if incomingIsMetadata then
          h.sources == []
          || (bytePressure
              && h.counts.sourceBytes - facts.PathBytes(h.sources[|h.sources| - 1]) < limits.pathBytes / 4)
        else
          match LatestOrdinary(h.metadata, |h.metadata|)
          case None => true
          case Some(i) => bytePressure && h.counts.ordinaryBytes - h.metadata[i].pathBytes < limits.pathBytes / 4)
  }

  /** Nothing may be evicted for this arrival. */
  ghost predicate Stuck<P>(facts: PathFacts<P>, limits: Limits, h: Held<P>, critical: bool, incomingIsMetadata: bool,
                           pathBytes: nat) {
    if critical then NothingOrdinary(h)
    else ReserveReached(facts, limits, h, incomingIsMetadata, h.Count() >= limits.entries,
                        h.counts.bytes + pathBytes > limits.pathBytes)
  }

  ghost predicate UnderPressure<P>(limits: Limits, h: Held<P>, pathBytes: nat) {
    h.Count() >= limits.entries || h.counts.bytes + pathBytes > limits.pathBytes
  }

  // ------------------------------------------------------------------ metadata goes before sources

  ghost predicate OrdinaryFilesGone<P>(h: Held<P>, protected: Option<P>) {
    forall r :: r in h.metadata && Files in r.sections ==> r.critical || Some(r.path) == protected
  }

  /** A source was evicted only when no ordinary record in the files section was left. */
  ghost predicate SourcesLast<P>(h: Held<P>, h': Held<P>, protected: Option<P>) {
    || (forall q :: q in h.sources ==> q in h'.sources || Some(q) == protected)
    || OrdinaryFilesGone(h', protected)
  }

  lemma SourcesLastTransitive<P>(h0: Held<P>, h1: Held<P>, h2: Held<P>, protected: Option<P>)
    requires SourcesLast(h0, h1, protected) && SourcesLast(h1, h2, protected) && Evicts(h1, h2, protected)
    ensures SourcesLast(h0, h2, protected)
  {
  }

  lemma SourcesLastStep<P>(facts: PathFacts<P>, h: Held<P>, sections: set<Section>, protected: Option<P>, key: P)
    requires Core(facts, h) && Candidate(h, sections, protected) == Some(key) && h.Holds(key)
    ensures SourcesLast(h, Without(facts, h, key), protected)
  {
    CandidateEvictable(facts, h, sections, protected, key);
    match FindRecord(h.metadata, key)
    case Some(i) =>
    case None =>
      assert LatestEvictable(h.metadata, sections, protected, |h.metadata|).None?;
      assert Files in sections;
      forall r | r in h.metadata && Files in r.sections ensures r.critical || Some(r.path) == protected {
        var i :| 0 <= i < |h.metadata| && h.metadata[i] == r;
        assert !Evictable(h.metadata[i], sections, protected);
        assert Files in r.sections * sections;
      }
  }

  lemma WithoutEvicted<P>(facts: PathFacts<P>, h0: Held<P>, h: Held<P>, sections: set<Section>, protected: Option<P>,
                          key: P)
    requires Core(facts, h) && Candidate(h, sections, protected) == Some(key) && SourcesLast(h0, h, protected)
    requires h.Holds(key)
    ensures SourcesLast(h0, Without(facts, h, key), protected)
  {
    CandidateEvictable(facts, h, sections, protected, key);
    WithoutEvicts(facts, h, key, protected);
    SourcesLastStep(facts, h, sections, protected, key);
    SourcesLastTransitive(h0, h, Without(facts, h, key), protected);
  }

  // ------------------------------------------------------------------ what an offer achieves

  /** `p` is held with at least these sections, and as critical if asked. */
  ghost predicate Has<P>(h: Held<P>, p: P, sections: set<Section>, critical: bool) {
    || (exists r :: r in h.metadata && r.path == p && sections <= r.sections && (critical ==> r.critical))
    || (p in h.sources && sections <= {Files} && !critical)
  }

  ghost predicate Keeps<P>(facts: PathFacts<P>, h: Held<P>, p: P, forceConfig: bool) {
    Has(h, p, facts.Sections(p, forceConfig), facts.Critical(p, forceConfig))
  }

  /** Everything held is still held with all its sections. */
  ghost predicate Preserves<P(!new)>(h: Held<P>, h': Held<P>) {
    forall p, sections, critical :: Has(h, p, sections, critical) ==> Has(h', p, sections, critical)
  }

  /** Everything critical is still held, as critical, with all its sections. */
  ghost predicate CriticalKept<P>(h: Held<P>, h': Held<P>) {
    forall r :: r in h.metadata && r.critical ==> Has(h', r.path, r.sections, true)
  }

  ghost predicate OnlyAdds<P>(h: Held<P>, h': Held<P>, p: P) {
    && (forall q :: q in h'.sources ==> q in h.sources || q == p)
    && (forall r :: r in h'.metadata ==> r in h.metadata || r.path == p)
  }

  /** The class that an incoming path of the other class may push back, in paths and in bytes. */
  ghost function OtherCount<P>(h: Held<P>, incomingIsMetadata: bool): int {
    if incomingIsMetadata then |h.sources| else h.counts.ordinaryCount
  }

  ghost function OtherBytes<P>(h: Held<P>, incomingIsMetadata: bool): int {
    if incomingIsMetadata then h.counts.sourceBytes else h.counts.ordinaryBytes
  }

  /** What a non-critical arrival of `pathBytes` bytes may have done: it evicted only under pressure and
      only from the other class, and never below a quarter of the limit in a dimension that was under
      pressure. The entry limit can be under pressure only before the first eviction; where it was not,
      and for every further eviction, the bytes were. */
  ghost predicate ReserveKept<P>(limits: Limits, h: Held<P>, h': Held<P>, incomingIsMetadata: bool, pathBytes: nat) {
    && (if incomingIsMetadata then h'.metadata == h.metadata else h'.sources == h.sources)
    && (h' != h ==>
          && (h.Count() >= limits.entries || h.counts.bytes + pathBytes > limits.pathBytes)
          && (h.Count() >= limits.entries ==> OtherCount(h, incomingIsMetadata) - 1 >= limits.entries / 4)
          && (h.counts.bytes + pathBytes > limits.pathBytes || h'.Count() < h.Count() - 1 ==>
                OtherBytes(h', incomingIsMetadata) >= limits.pathBytes / 4))
  }

  /** What the evictions under pressure have done since `start`. */
  ghost predicate Relieving<P>(limits: Limits, start: Held<P>, h: Held<P>, critical: bool, incomingIsMetadata: bool,
                               pathBytes: nat) {
    && Evicts(start, h, None) && start.Count() <= limits.entries && (h == start || h.Count() < limits.entries)
    && if critical then SourcesLast(start, h, None)
       else ReserveKept(limits, start, h, incomingIsMetadata, pathBytes)
  }

  lemma EvictsKeepsCritical<P>(h: Held<P>, h': Held<P>, protected: Option<P>)
    requires Evicts(h, h', protected)
    ensures CriticalKept(h, h')
  {
  }

  // ------------------------------------------------------------------ upgrading what is held

  ghost function UpgradedRecord<P>(facts: PathFacts<P>, existing: Retained<P>, forceConfig: bool): Retained<P> {
    existing.(sections := existing.sections + facts.Sections(existing.path, forceConfig),
              critical := existing.critical || facts.Critical(existing.path, forceConfig))
  }

  /** What an upgrade from `h` to `h'` does: the invariant is kept, no bytes and no entry are spent,
      and nothing is lost. */
  ghost predicate UpgradeOk<P(!new)>(facts: PathFacts<P>, h: Held<P>, h': Held<P>, p: P, forceConfig: bool) {
    && Core(facts, h') && h'.Count() == h.Count() && h'.counts.bytes == h.counts.bytes
    && Keeps(facts, h', p, forceConfig) && Preserves(h, h') && OnlyAdds(h, h', p)
    && (forall q :: q in h'.sources ==> q in h.sources)
    && (forall q :: q in h.sources ==> q in h'.sources || q == p)
  }

  lemma UpgradedMetadataCore<P>(facts: PathFacts<P>, h: Held<P>, i: nat, forceConfig: bool)
    requires Core(facts, h) && i < |h.metadata|
    ensures var h' := WithMetadata(WithoutMetadata(h, i), UpgradedRecord(facts, h.metadata[i], forceConfig));
            Core(facts, h') && h'.Count() == h.Count() && h'.counts.bytes == h.counts.bytes
  {
    assert h.metadata[i] in h.metadata && RecordOk(facts, h.metadata[i]);
    WithoutMetadataCore(facts, h, i);
    WithMetadataCore(facts, WithoutMetadata(h, i), UpgradedRecord(facts, h.metadata[i], forceConfig));
  }

  lemma UpgradeMetadataEffect<P(!new)>(facts: PathFacts<P>, h: Held<P>, i: nat, forceConfig: bool)
    requires Core(facts, h) && i < |h.metadata|
    ensures UpgradeOk(facts, h,
                      WithMetadata(WithoutMetadata(h, i), UpgradedRecord(facts, h.metadata[i], forceConfig)),
                      h.metadata[i].path, forceConfig)
  {
    var r, h1 := UpgradedRecord(facts, h.metadata[i], forceConfig), WithoutMetadata(h, i);
    UpgradedMetadataCore(facts, h, i, forceConfig);
    RemoveAtMembers(h.metadata, i);
    assert r in WithMetadata(h1, r).metadata;
    forall k | k in h.metadata && k.path == r.path ensures k == h.metadata[i] {
      var j :| 0 <= j < |h.metadata| && h.metadata[j] == k;
    }
    UpgradePreserves(h, h1, r.path, r);
  }

  /** The counters after a metadata record was replaced by a wider one. */
  ghost function UpgradedCounts<P>(c: Counts, existing: Retained<P>, upgraded: Retained<P>): Counts {
    var sections := c.sections.Bump(upgraded.sections - existing.sections, 1);
    if !existing.critical && upgraded.critical then
      Counts(c.bytes, c.sourceBytes, c.ordinaryBytes - existing.pathBytes, c.ordinaryCount - 1, sections)
    else
      Counts(c.bytes, c.sourceBytes, c.ordinaryBytes, c.ordinaryCount, sections)
  }

  /** They are those after taking the record out and putting the wider one in. */
  lemma UpgradedIsReplaced<P>(h: Held<P>, h': Held<P>, i: nat, upgraded: Retained<P>)
    requires i < |h.metadata|
    requires h.metadata[i].sections <= upgraded.sections && upgraded.pathBytes == h.metadata[i].pathBytes
    requires h.metadata[i].critical ==> upgraded.critical
    requires !IsSource(h.metadata[i]) && !IsSource(upgraded)
    requires h' == Held(h.sources, RemoveAt(h.metadata, i) + [upgraded],
                        UpgradedCounts(h.counts, h.metadata[i], upgraded))
    ensures h' == WithMetadata(WithoutMetadata(h, i), upgraded)
    ensures Bumped(h, h', upgraded.sections - h.metadata[i].sections)
  {
  }

  /** A source is upgraded only by a forced offer. */
  lemma UpgradeSourceEffect<P(!new)>(facts: PathFacts<P>, h: Held<P>, i: nat)
    requires Core(facts, h) && i < |h.sources|
    ensures UpgradeOk(facts, h,
                      WithMetadata(WithoutSource(facts, h, i),
                                   UpgradedRecord(facts, SourceRecord(facts, h.sources[i]), true)),
                      h.sources[i], true)
  {
    var p := h.sources[i];
    var r, h1 := UpgradedRecord(facts, SourceRecord(facts, p), true), WithoutSource(facts, h, i);
    WithoutSourceCore(facts, h, i);
    assert facts.PureSource(p, false) && Files in facts.Sections(p, false);
    assert PackageFiles !in facts.Sections(p, false) && ConfigFiles !in facts.Sections(p, false);
    WithMetadataCore(facts, h1, r);
    assert r in WithMetadata(h1, r).metadata;
    UpgradePreserves(h, h1, p, r);
  }

  lemma RecordFound<P>(records: seq<Retained<P>>, r: Retained<P>)
    requires DistinctPaths(records) && r in records
    ensures var i := FindRecord(records, r.path); i.Some? && records[i.value] == r
  {
    var j :| 0 <= j < |records| && records[j] == r;
  }

  /** Each of the sections gained one entry; the others are as they were. */
  ghost predicate Bumped<P>(h: Held<P>, h': Held<P>, sections: set<Section>) {
    forall s: Section :: h'.counts.sections.Of(s) == h.counts.sections.Of(s) + (if s in sections then 1 else 0)
  }

  ghost predicate HasRoom<P>(limits: Limits, enforce: bool, h: Held<P>, sections: set<Section>) {
    enforce ==> forall s :: s in sections ==> h.counts.sections.Of(s) < limits.sectionEntries
  }

  /** Evictions followed by an upgrade. */
  lemma EvictThenUpgrade<P(!new)>(facts: PathFacts<P>, h0: Held<P>, h1: Held<P>, h2: Held<P>, p: P, forceConfig: bool)
    requires Evicts(h0, h1, Some(p)) && UpgradeOk(facts, h1, h2, p, forceConfig)
    ensures CriticalKept(h0, h2) && OnlyAdds(h0, h2, p)
    ensures h0 == h1 ==> Preserves(h0, h2)
    ensures forall q :: q in h2.sources ==> q in h0.sources
  {
    forall r | r in h0.metadata && r.critical ensures Has(h2, r.path, r.sections, true) {
      assert Has(h1, r.path, r.sections, true);
    }
  }

  /** What the record of a held path says about an offer of that path. */
  lemma HeldSections<P>(facts: PathFacts<P>, h: Held<P>, p: P, forceConfig: bool, existing: Retained<P>)
    requires Core(facts, h) && existing.path == p
    requires existing in h.metadata || (p in h.sources && existing == SourceRecord(facts, p))
    ensures facts.Sections(p, forceConfig) - existing.sections <= {ConfigFiles}
    ensures !forceConfig ==> facts.Sections(p, forceConfig) <= existing.sections
    ensures existing in h.metadata && !forceConfig && facts.Critical(p, forceConfig) ==> existing.critical
    ensures p in h.sources && facts.Critical(p, forceConfig) ==> forceConfig && ConfigFiles !in existing.sections
  {
  }

  lemma UpgradePreserves<P(!new)>(h: Held<P>, h1: Held<P>, p: P, r: Retained<P>)
    requires r.path == p
    requires forall k :: k in h.metadata ==>
      k in h1.metadata || (k.path == p && k.sections <= r.sections && (k.critical ==> r.critical))
    requires forall q :: q in h.sources ==> q in h1.sources || (q == p && Files in r.sections)
    ensures Preserves(h, WithMetadata(h1, r))
  {
    var h2 := WithMetadata(h1, r);
    assert r in h2.metadata && forall k :: k in h1.metadata ==> k in h2.metadata;
  }

  lemma ReserveStep<P>(limits: Limits, start: Held<P>, h: Held<P>, h': Held<P>, isMetadata: bool,
                       pathBytes: nat, entryPressure: bool, bytePressure: bool)
    requires ReserveKept(limits, start, h, isMetadata, pathBytes) && Evicts(start, h, None)
    requires start.Count() <= limits.entries && (h == start || h.Count() < limits.entries)
    requires entryPressure <==> h.Count() >= limits.entries
    requires bytePressure <==> h.counts.bytes + pathBytes > limits.pathBytes
    requires entryPressure || bytePressure
    requires h'.Count() == h.Count() - 1
    requires if isMetadata then h'.metadata == h.metadata else h'.sources == h.sources
    requires OtherCount(h', isMetadata) == OtherCount(h, isMetadata) - 1
    requires entryPressure ==> OtherCount(h', isMetadata) >= limits.entries / 4
    requires bytePressure ==> OtherBytes(h', isMetadata) >= limits.pathBytes / 4
    ensures ReserveKept(limits, start, h', isMetadata, pathBytes)
  {
  }

  // ------------------------------------------------------------------ admitting what is not held

  ghost function Admitted<P>(facts: PathFacts<P>, h: Held<P>, p: P, forceConfig: bool): Held<P> {
    if facts.PureSource(p, forceConfig) then WithSource(facts, h, p)
    else WithMetadata(h, Retained(p, facts.Sections(p, forceConfig), facts.PathBytes(p),
                                  facts.Critical(p, forceConfig)))
  }

  lemma AdmittedCore<P>(facts: PathFacts<P>, h: Held<P>, p: P, forceConfig: bool)
    requires Core(facts, h) && facts.Relevant(p, forceConfig) && !h.Holds(p)
    ensures Core(facts, Admitted(facts, h, p, forceConfig))
    ensures facts.PureSource(p, forceConfig) <==>
      PackageFiles !in facts.Sections(p, forceConfig) && ConfigFiles !in facts.Sections(p, forceConfig)
  {
    if facts.PureSource(p, forceConfig) {
      WithSourceCore(facts, h, p);
    } else {
      var r := Retained(p, facts.Sections(p, forceConfig), facts.PathBytes(p), facts.Critical(p, forceConfig));
      assert PackageFiles !in r.sections && ConfigFiles !in r.sections ==> r.sections <= {Files};
      WithMetadataCore(facts, h, r);
    }
  }

  lemma NotHeldAfter<P>(h: Held<P>, h': Held<P>, p: P)
    requires Evicts(h, h', None) && !h.Holds(p)
    ensures !h'.Holds(p)
  {
    forall i | 0 <= i < |h'.metadata| ensures h'.metadata[i].path != p {
      assert h'.metadata[i] in h.metadata;
    }
  }

  function LatestOrdinary<P>(records: seq<Retained<P>>, n: nat): (r: Option<nat>)
    requires n <= |records|
    ensures r.Some? ==> r.value < n && !records[r.value].critical
    ensures forall i :: (if r.Some? then r.value + 1 else 0) <= i < n ==> records[i].critical
  {
    if n == 0 then None
    else if !records[n - 1].critical then Some(n - 1)
    else LatestOrdinary(records, n - 1)
  }

  // ------------------------------------------------------------------ one offer, end to end

  /** Every relevant path offered so far is held with all its sections, critical ones as critical. */
  ghost predicate AllKept<P(!new)>(facts: PathFacts<P>, h: Held<P>, offered: set<(P, bool)>) {
    forall p, forced :: (p, forced) in offered && facts.Relevant(p, forced) ==> Keeps(facts, h, p, forced)
  }

  lemma NothingHeld<P(!new)>(facts: PathFacts<P>, limits: Limits, enforce: bool, h: Held<P>)
    requires |h.sources| == |h.metadata| == 0 && forall k: Measure :: h.counts.At(k) == 0
    ensures Core(facts, h) && WithinLimits(limits, enforce, h) && AllKept(facts, h, {})
  {
    assert h.counts.At(Bytes) == 0;
    forall s: Section ensures h.counts.sections.Of(s) == h.counts.At(InSection(s)) == 0 {}
  }

  /** What an offer of `p` may do to what is held, whatever it returns. */
  ghost predicate OfferEffect<P>(facts: PathFacts<P>, limits: Limits, enforce: bool,
                                 h: Held<P>, h': Held<P>, p: P, forceConfig: bool) {
    && WithinLimits(limits, enforce, h')
    && CriticalKept(h, h') && OnlyAdds(h, h', p)
    && (p in h'.sources ==> p in h.sources || facts.PureSource(p, forceConfig))
  }

  /** The offer has room where it needs it. */
  ghost predicate RoomFor<P>(facts: PathFacts<P>, limits: Limits, enforce: bool, h: Held<P>, p: P, forceConfig: bool) {
    && HasRoom(limits, enforce, h, facts.Sections(p, forceConfig))
    && (h.Holds(p) || !UnderPressure(limits, h, facts.PathBytes(p)))
  }

  /** Why a relevant offer is refused: a section is full, or there is pressure and nothing that may be evicted. */
  ghost predicate Refused<P>(facts: PathFacts<P>, limits: Limits, enforce: bool, h: Held<P>, p: P, forceConfig: bool) {
    || SectionRefused(limits, enforce, h, facts.Sections(p, forceConfig), facts.Critical(p, forceConfig), Some(p))
    || (UnderPressure(limits, h, facts.PathBytes(p))
        && Stuck(facts, limits, h, facts.Critical(p, forceConfig), !facts.PureSource(p, forceConfig),
                 facts.PathBytes(p)))
  }

  /** What decides about an offer of a relevant path: it is refused only for want of something to evict; with room
      it is accepted and nothing is evicted; and a critical one evicts metadata before sources. */
  ghost predicate Decided<P(!new)>(facts: PathFacts<P>, limits: Limits, enforce: bool, h: Held<P>, h': Held<P>, p: P,
                                   forceConfig: bool, ok: bool, unremarked: bool) {
    && (!ok ==> Refused(facts, limits, enforce, h', p, forceConfig))
    && (RoomFor(facts, limits, enforce, h, p, forceConfig) ==> ok && Preserves(h, h') && unremarked)
    && (facts.Critical(p, forceConfig) ==> SourcesLast(h, h', Some(p)))
  }

  lemma SectionsRefusedMore<P>(limits: Limits, enforce: bool, h: Held<P>, fewer: set<Section>, more: set<Section>,
                               critical: bool, protected: Option<P>, p: P)
    requires SectionRefused(limits, enforce, h, fewer, critical, protected) && fewer <= more
    requires protected.None? || protected == Some(p)
    ensures SectionRefused(limits, enforce, h, more, critical, Some(p))
  {
    var s :| s in fewer && h.counts.sections.Of(s) >= limits.sectionEntries
             && (critical ==> FullOfCritical(h, s, protected));
    assert critical ==> FullOfCritical(h, s, Some(p));
  }

  /** What a new path is admitted after. */
  lemma AdmitDecided<P(!new)>(facts: PathFacts<P>, limits: Limits, enforce: bool, h: Held<P>, mid: Held<P>, h': Held<P>,
                              p: P, forceConfig: bool, ok: bool, unremarked: bool)
    requires facts.Relevant(p, forceConfig) && !h.Holds(p)
    requires h' == if ok then Admitted(facts, mid, p, forceConfig) else mid
    requires !ok ==> Refused(facts, limits, enforce, mid, p, forceConfig)
    requires RoomFor(facts, limits, enforce, h, p, forceConfig) ==> ok && mid == h && unremarked
    requires facts.Critical(p, forceConfig) ==> SourcesLast(h, mid, None)
    ensures Decided(facts, limits, enforce, h, h', p, forceConfig, ok, unremarked)
  {
    if ok { AdmittedKeeps(facts, mid, p, forceConfig); }
    if facts.Critical(p, forceConfig) && ok { AdmittedSourcesLast(facts, h, mid, p, forceConfig); }
  }

  lemma AdmittedSourcesLast<P>(facts: PathFacts<P>, h: Held<P>, mid: Held<P>, p: P, forceConfig: bool)
    requires SourcesLast(h, mid, None)
    ensures SourcesLast(h, Admitted(facts, mid, p, forceConfig), Some(p))
  {
    var h' := Admitted(facts, mid, p, forceConfig);
    assert forall q :: q in mid.sources ==> q in h'.sources;
    assert forall r :: r in h'.metadata ==> r in mid.metadata || r.path == p;
  }

  /** What a held path is upgraded after. */
  lemma UpgradeDecided<P(!new)>(facts: PathFacts<P>, limits: Limits, enforce: bool, h: Held<P>, mid: Held<P>,
                                h': Held<P>, p: P, forceConfig: bool, added: set<Section>, ok: bool, unremarked: bool)
    requires h.Holds(p) && added <= facts.Sections(p, forceConfig)
    requires if ok then h' == mid || UpgradeOk(facts, mid, h', p, forceConfig) else h' == mid
    requires !ok ==> SectionRefused(limits, enforce, mid, added, facts.Critical(p, forceConfig), Some(p))
    requires HasRoom(limits, enforce, h, added) ==> ok && mid == h && unremarked
    requires SourcesLast(h, mid, Some(p))
    ensures Decided(facts, limits, enforce, h, h', p, forceConfig, ok, unremarked)
  {
    if !ok {
      SectionsRefusedMore(limits, enforce, mid, added, facts.Sections(p, forceConfig),
                          facts.Critical(p, forceConfig), Some(p), p);
    }
    if h' != mid { UpgradedSourcesLast(facts, h, mid, h', p, forceConfig); }
  }

  lemma UpgradedSourcesLast<P(!new)>(facts: PathFacts<P>, h: Held<P>, mid: Held<P>, h': Held<P>, p: P,
                                     forceConfig: bool)
    requires SourcesLast(h, mid, Some(p)) && UpgradeOk(facts, mid, h', p, forceConfig)
    ensures SourcesLast(h, h', Some(p))
  {
  }

  lemma EvictOnlyEffect<P(!new)>(facts: PathFacts<P>, limits: Limits, enforce: bool,
                                 h: Held<P>, h': Held<P>, p: P, forceConfig: bool, protected: Option<P>)
    requires WithinLimits(limits, enforce, h) && Evicts(h, h', protected)
    ensures OfferEffect(facts, limits, enforce, h, h', p, forceConfig)
  {
    EvictsWithinLimits(limits, enforce, h, h', protected);
    EvictsKeepsCritical(h, h', protected);
  }

  lemma UpgradeOfferEffect<P(!new)>(facts: PathFacts<P>, limits: Limits, enforce: bool,
                                    h: Held<P>, mid: Held<P>, h': Held<P>, p: P, forceConfig: bool, added: set<Section>)
    requires WithinLimits(limits, enforce, h) && Evicts(h, mid, Some(p)) && UpgradeOk(facts, mid, h', p, forceConfig)
    requires HasRoom(limits, enforce, mid, added) && Bumped(mid, h', added)
    ensures OfferEffect(facts, limits, enforce, h, h', p, forceConfig)
    ensures h == mid ==> Preserves(h, h')
  {
    EvictsWithinLimits(limits, enforce, h, mid, Some(p));
    EvictThenUpgrade(facts, h, mid, h', p, forceConfig);
    forall s: Section | enforce ensures h'.counts.sections.Of(s) <= limits.sectionEntries {
      assert mid.counts.sections.Of(s) <= limits.sectionEntries;
    }
  }

  lemma AdmittedCounts<P>(facts: PathFacts<P>, h: Held<P>, p: P, forceConfig: bool, s: Section)
    requires facts.Relevant(p, forceConfig)
    ensures var h' := Admitted(facts, h, p, forceConfig);
            && h'.Count() == h.Count() + 1 && h'.counts.bytes == h.counts.bytes + facts.PathBytes(p)
            && h'.counts.sections.Of(s) ==
               h.counts.sections.Of(s) + if s in facts.Sections(p, forceConfig) then 1 else 0
  {
  }

  lemma AdmittedWithinLimits<P>(facts: PathFacts<P>, limits: Limits, enforce: bool, h: Held<P>, p: P, forceConfig: bool)
    requires WithinLimits(limits, enforce, h) && facts.Relevant(p, forceConfig)
    requires HasRoom(limits, enforce, h, facts.Sections(p, forceConfig))
    requires h.Count() < limits.entries && h.counts.bytes + facts.PathBytes(p) <= limits.pathBytes
    ensures WithinLimits(limits, enforce, Admitted(facts, h, p, forceConfig))
  {
    AdmittedCounts(facts, h, p, forceConfig, Files);
    forall s: Section | enforce
      ensures Admitted(facts, h, p, forceConfig).counts.sections.Of(s) <= limits.sectionEntries
    {
      AdmittedCounts(facts, h, p, forceConfig, s);
      assert h.counts.sections.Of(s) <= limits.sectionEntries;
    }
  }

  lemma AdmitOfferEffect<P(!new)>(facts: PathFacts<P>, limits: Limits, enforce: bool,
                                  h: Held<P>, mid: Held<P>, p: P, forceConfig: bool)
    requires WithinLimits(limits, enforce, h) && Evicts(h, mid, None) && facts.Relevant(p, forceConfig)
    requires HasRoom(limits, enforce, mid, facts.Sections(p, forceConfig))
    requires mid.Count() < limits.entries && mid.counts.bytes + facts.PathBytes(p) <= limits.pathBytes
    ensures OfferEffect(facts, limits, enforce, h, Admitted(facts, mid, p, forceConfig), p, forceConfig)
    ensures Keeps(facts, Admitted(facts, mid, p, forceConfig), p, forceConfig)
    ensures Preserves(mid, Admitted(facts, mid, p, forceConfig))
  {
    EvictsWithinLimits(limits, enforce, h, mid, None);
    AdmittedWithinLimits(facts, limits, enforce, mid, p, forceConfig);
    AdmittedKeeps(facts, mid, p, forceConfig);
    forall r | r in h.metadata && r.critical
      ensures Has(Admitted(facts, mid, p, forceConfig), r.path, r.sections, true)
    {
      assert Has(mid, r.path, r.sections, true);
    }
  }

  lemma AdmittedKeeps<P(!new)>(facts: PathFacts<P>, h: Held<P>, p: P, forceConfig: bool)
    requires facts.Relevant(p, forceConfig)
    ensures Keeps(facts, Admitted(facts, h, p, forceConfig), p, forceConfig)
    ensures Preserves(h, Admitted(facts, h, p, forceConfig))
    ensures OnlyAdds(h, Admitted(facts, h, p, forceConfig), p)
  {
    var h' := Admitted(facts, h, p, forceConfig);
    if facts.PureSource(p, forceConfig) {
      assert p in h'.sources;
      assert ConfigFiles !in facts.Sections(p, forceConfig) && PackageFiles !in facts.Sections(p, forceConfig);
    } else {
      assert h'.metadata[|h.metadata|] in h'.metadata;
    }
  }

  /** A held source is only reached by a critical offer, or by one the caller must not make. */
  lemma NotHeld<P>(facts: PathFacts<P>, h: Held<P>, p: P, forceConfig: bool)
    requires Core(facts, h) && facts.Relevant(p, forceConfig)
    requires FindRecord(h.metadata, p).None?
    requires facts.PureSource(p, forceConfig) || facts.Critical(p, forceConfig) ==> p !in h.sources
    ensures !h.Holds(p)
  {
    assert p in h.sources ==> facts.PureSource(p, false);
  }

  lemma KeptSoFar<P(!new)>(facts: PathFacts<P>, h: Held<P>, h': Held<P>, offered: set<(P, bool)>, p: P,
                    forceConfig: bool)
    requires AllKept(facts, h, offered) && Preserves(h, h')
    requires facts.Relevant(p, forceConfig) ==> Keeps(facts, h', p, forceConfig)
    ensures AllKept(facts, h', offered + {(p, forceConfig)})
  {
  }

  // ------------------------------------------------------------------ the retention object

  class Retention<P(==, !new)> {
    const facts: PathFacts<P>
    const limits: Limits
    const enforceSectionEntryLimits: bool
    var reasons: seq<Reason>
    var sourcePaths: seq<P>
    var sourceIndex: Option<map<P, nat>>
    var metadataPaths: seq<Retained<P>>
    var sectionCounts: SectionCounts
    var retainedPathBytes: int
    var sourcePathBytes: int
    var ordinaryMetadataPathBytes: int
    var ordinaryMetadataCount: int
    ghost var offered: set<(P, bool)>

    ghost function Now(): Held<P>
      reads this`sourcePaths, this`metadataPaths, this`sectionCounts, this`retainedPathBytes,
            this`sourcePathBytes, this`ordinaryMetadataPathBytes, this`ordinaryMetadataCount
    {
      Held(sourcePaths, metadataPaths,
           Counts(retainedPathBytes, sourcePathBytes, ordinaryMetadataPathBytes, ordinaryMetadataCount, sectionCounts))
    }

    ghost predicate Ready()
      reads this`sourcePaths, this`metadataPaths, this`sectionCounts, this`retainedPathBytes,
            this`sourcePathBytes, this`ordinaryMetadataPathBytes, this`ordinaryMetadataCount, this`sourceIndex
    {
      Core(facts, Now()) && IndexOk(sourceIndex, sourcePaths)
    }

    ghost predicate Valid()
      reads this
    {
      && Ready() && WithinLimits(limits, enforceSectionEntryLimits, Now())
      && (reasons == [] ==> AllKept(facts, Now(), offered))
    }

    constructor (facts: PathFacts<P>, limits: Limits, enforceSectionEntryLimits: bool, given: Option<string>)
      ensures Valid() && sourcePaths == [] && metadataPaths == [] && offered == {}
      ensures this.facts == facts && this.limits == limits
      ensures this.enforceSectionEntryLimits == enforceSectionEntryLimits
    {
      this.facts := facts;
      this.limits := limits;
      this.enforceSectionEntryLimits := enforceSectionEntryLimits;
      reasons := if given.Some? then [Given(given.value)] else [];
      sourcePaths := [];
      sourceIndex := None;
      metadataPaths := [];
      sectionCounts := SectionCounts(0, 0, 0);
      retainedPathBytes, sourcePathBytes := 0, 0;
      ordinaryMetadataPathBytes, ordinaryMetadataCount := 0, 0;
      offered := {};
      new;
      NothingHeld(facts, limits, enforceSectionEntryLimits, Now());
    }

    /** Reasons are combined with a repeat of the whole text suppressed. */
    method AddReason(reason: Reason)
      modifies this`reasons
      ensures reasons == if old(reasons) == [reason] then old(reasons) else old(reasons) + [reason]
    {
      if reasons != [reason] {
        reasons := reasons + [reason];
      }
    }

    method EnsureSourceIndex()
      requires Distinct(sourcePaths) && IndexOk(sourceIndex, sourcePaths)
      modifies this`sourceIndex
      ensures sourceIndex.Some? && IndexOk(sourceIndex, sourcePaths)
    {
      if sourceIndex.Some? {
        return;
      }
      var index: map<P, nat> := map[];
      for i := 0 to |sourcePaths|
        invariant InverseOf(index, sourcePaths[..i])
      {
        index := index[sourcePaths[i] := i];
        assert sourcePaths[..i + 1][..i] == sourcePaths[..i];
      }
      assert sourcePaths[..|sourcePaths|] == sourcePaths;
      sourceIndex := Some(index);
    }

    /** Swap-with-last removal; a built index stays the exact inverse of the list. */
    method DetachSourcePath(i: nat)
      requires Distinct(sourcePaths) && IndexOk(sourceIndex, sourcePaths) && i < |sourcePaths|
      modifies this`sourcePaths, this`sourceIndex
      ensures IndexOk(sourceIndex, sourcePaths) && sourcePaths == SwapRemove(old(sourcePaths), i)
      ensures old(sourceIndex).Some? ==>
        sourceIndex == Some(Unindexed(old(sourceIndex).value, old(sourcePaths), i))
    {
      var removed, last := sourcePaths[i], sourcePaths[|sourcePaths| - 1];
      sourcePaths := sourcePaths[..|sourcePaths| - 1];
      if i < |sourcePaths| {
        sourcePaths := sourcePaths[i := last];
      }
      if sourceIndex.Some? {
        var index := sourceIndex.value - {removed};
        if i < |sourcePaths| {
          index := index[last := i];
        }
        sourceIndex := Some(index);
      }
    }

    method DropRetainedPath(p: P)
      requires Distinct(sourcePaths) && IndexOk(sourceIndex, sourcePaths) && RecordsOk(facts, metadataPaths)
      requires Now().Holds(p)
      modifies this`sourcePaths, this`sourceIndex, this`metadataPaths, this`sectionCounts, this`retainedPathBytes,
               this`sourcePathBytes, this`ordinaryMetadataPathBytes, this`ordinaryMetadataCount
      ensures Now() == Without(facts, old(Now()), p) && IndexOk(sourceIndex, sourcePaths)
      ensures FindRecord(old(metadataPaths), p).Some? ==> sourceIndex == old(sourceIndex)
    {
      var found := FindRecord(metadataPaths, p);
      var retained: Retained<P>;
      if found.Some? {
        retained := metadataPaths[found.value];
        assert RecordOk(facts, retained);
        metadataPaths := RemoveAt(metadataPaths, found.value);
      } else {
        EnsureSourceIndex();
        var i := sourceIndex.value[p];
        assert i == PositionOf(sourcePaths, p);
        retained := Retained(sourcePaths[i], {Files}, facts.PathBytes(sourcePaths[i]), false);
        DetachSourcePath(i);
      }
      retainedPathBytes := retainedPathBytes - retained.pathBytes;
      if found.Some? && !retained.critical {
        ordinaryMetadataPathBytes := ordinaryMetadataPathBytes - retained.pathBytes;
        ordinaryMetadataCount := ordinaryMetadataCount - 1;
      } else if found.None? {
        sourcePathBytes := sourcePathBytes - retained.pathBytes;
      }
      sectionCounts := sectionCounts.Bump(retained.sections, -1);
    }

    method FindNoncriticalCandidate(sections: set<Section>, protected: Option<P>) returns (key: Option<P>)
      ensures key == Candidate(Now(), sections, protected)
    {
      for i := |metadataPaths| downto 0
        invariant LatestEvictable(metadataPaths, sections, protected, |metadataPaths|)
               == LatestEvictable(metadataPaths, sections, protected, i)
      {
        if Evictable(metadataPaths[i], sections, protected) {
          return Some(metadataPaths[i].path);
        }
      }
      if Files !in sections {
        return None;
      }
      for i := |sourcePaths| downto 0
        invariant LatestOther(sourcePaths, protected, |sourcePaths|) == LatestOther(sourcePaths, protected, i)
      {
        if Some(sourcePaths[i]) != protected {
          return Some(sourcePaths[i]);
        }
      }
      return None;
    }

    /** Drops what the candidate search named, as a step of an eviction that started from `start`. */
    method DropCandidate(p: P, ghost start: Held<P>, ghost sections: set<Section>, ghost protected: Option<P>)
      requires Ready() && Evicts(start, Now(), protected) && Candidate(Now(), sections, protected) == Some(p)
      modifies this`sourcePaths, this`sourceIndex, this`metadataPaths, this`sectionCounts, this`retainedPathBytes,
               this`sourcePathBytes, this`ordinaryMetadataPathBytes, this`ordinaryMetadataCount
      ensures Ready() && Evicts(start, Now(), protected) && Now().Count() == old(Now()).Count() - 1
      ensures Now() == Without(facts, old(Now()), p)
      ensures old(SourcesLast(start, Now(), protected)) ==> SourcesLast(start, Now(), protected)
      ensures Files !in sections ==> sourcePaths == old(sourcePaths) && sourceIndex == old(sourceIndex)
    {
      EvictStep(facts, start, Now(), sections, protected, p);
      if SourcesLast(start, Now(), protected) {
        WithoutEvicted(facts, start, Now(), sections, protected, p);
      }
      DropRetainedPath(p);
    }

    method MakeRoomForSections(sections: set<Section>, critical: bool, protected: Option<P>) returns (ok: bool)
      requires Ready()
      modifies this`sourcePaths, this`sourceIndex, this`metadataPaths, this`sectionCounts, this`retainedPathBytes,
               this`sourcePathBytes, this`ordinaryMetadataPathBytes, this`ordinaryMetadataCount, this`reasons
      ensures Ready() && Evicts(old(Now()), Now(), protected)
      ensures ok ==> HasRoom(limits, enforceSectionEntryLimits, Now(), sections)
      ensures Files !in sections ==> sourcePaths == old(sourcePaths) && sourceIndex == old(sourceIndex)
      ensures reasons == [] || !critical ==> reasons == old(reasons) && Now() == old(Now())
      ensures !ok ==> SectionRefused(limits, enforceSectionEntryLimits, Now(), sections, critical, protected)
      ensures HasRoom(limits, enforceSectionEntryLimits, old(Now()), sections) ==>
        ok && reasons == old(reasons) && Now() == old(Now())
      ensures SourcesLast(old(Now()), Now(), protected)
    {
      if !enforceSectionEntryLimits {
        return true;
      }
      while true
        invariant Ready() && Evicts(old(Now()), Now(), protected)
        invariant Files !in sections ==> sourcePaths == old(sourcePaths) && sourceIndex == old(sourceIndex)
        invariant reasons == [] || !critical ==> reasons == old(reasons) && Now() == old(Now())
        invariant HasRoom(limits, enforceSectionEntryLimits, old(Now()), sections) ==>
          reasons == old(reasons) && Now() == old(Now())
        invariant SourcesLast(old(Now()), Now(), protected)
        decreases Now().Count()
      {
        var saturated := sectionCounts.Saturated(sections, limits.sectionEntries);
        if saturated == {} {
          return true;
        }
        ghost var full: Section :| full in saturated;
        if !critical {
          return false;
        }
        var candidate := FindNoncriticalCandidate(saturated, protected);
        if candidate.None? {
          NoCandidate(Now(), saturated, protected);
          return false;
        }
        AddReason(EntryLimited(limits.sectionEntries, true));
        DropCandidate(candidate.value, old(Now()), saturated, protected);
      }
    }

    /** Evicts one path to relieve the pressure, or changes nothing. */
    method DropCapacityCandidate(critical: bool, incomingIsMetadata: bool, entryPressure: bool, bytePressure: bool)
      returns (ok: bool)
      requires Ready()
      modifies this`sourcePaths, this`sourceIndex, this`metadataPaths, this`sectionCounts, this`retainedPathBytes,
               this`sourcePathBytes, this`ordinaryMetadataPathBytes, this`ordinaryMetadataCount
      ensures Ready()
      ensures !ok ==> Now() == old(Now())
      ensures !ok ==> if critical then NothingOrdinary(Now())
                      else ReserveReached(facts, limits, Now(), incomingIsMetadata, entryPressure, bytePressure)
      ensures critical ==> SourcesLast(old(Now()), Now(), None)
      ensures ok ==> Evicts(old(Now()), Now(), None) && Now().Count() == old(Now()).Count() - 1
      ensures !critical && ok ==>
        && (if incomingIsMetadata then metadataPaths == old(metadataPaths) else sourcePaths == old(sourcePaths))
        && OtherCount(Now(), incomingIsMetadata) == OtherCount(old(Now()), incomingIsMetadata) - 1
        && (entryPressure ==> OtherCount(Now(), incomingIsMetadata) >= limits.entries / 4)
        && (bytePressure ==> OtherBytes(Now(), incomingIsMetadata) >= limits.pathBytes / 4)
    {
      if critical {
        var all := {Files, PackageFiles, ConfigFiles};
        var candidate := FindNoncriticalCandidate(all, None);
        if candidate.Some? {
          DropCandidate(candidate.value, Now(), all, None);
          return true;
        }
        OnlyCritical(facts, Now());
        return false;
      }
      var reserveCount, reserveBytes := limits.entries / 4, limits.pathBytes / 4;
      if incomingIsMetadata {
        if sourcePaths == [] {
          return false;
        }
        var p := sourcePaths[|sourcePaths| - 1];
        if entryPressure && |sourcePaths| - 1 < reserveCount {
          return false;
        }
        if bytePressure && sourcePathBytes - facts.PathBytes(p) < reserveBytes {
          return false;
        }
        DropLastSource();
      } else {
        var candidate := LatestOrdinary(metadataPaths, |metadataPaths|);
        if candidate.None? {
          return false;
        }
        if entryPressure && ordinaryMetadataCount - 1 < reserveCount {
          return false;
        }
        if bytePressure && ordinaryMetadataPathBytes - metadataPaths[candidate.value].pathBytes < reserveBytes {
          return false;
        }
        DropOrdinaryMetadata(candidate.value);
      }
      return true;
    }

    method DropLastSource()
      requires Ready() && sourcePaths != []
      modifies this`sourcePaths, this`sourceIndex, this`metadataPaths, this`sectionCounts, this`retainedPathBytes,
               this`sourcePathBytes, this`ordinaryMetadataPathBytes, this`ordinaryMetadataCount
      ensures Ready() && Evicts(old(Now()), Now(), None)
      ensures Now() == WithoutSource(facts, old(Now()), |old(sourcePaths)| - 1)
    {
      var p := sourcePaths[|sourcePaths| - 1];
      assert p in sourcePaths && PositionOf(sourcePaths, p) == |sourcePaths| - 1;
      assert FindRecord(metadataPaths, p).None? by {
        assert forall r :: r in metadataPaths ==> r.path != p;
      }
      WithoutSourceEvicts(facts, Now(), |sourcePaths| - 1, None);
      DropRetainedPath(p);
    }

    method DropOrdinaryMetadata(i: nat)
      requires Ready() && i < |metadataPaths| && !metadataPaths[i].critical
      modifies this`sourcePaths, this`sourceIndex, this`metadataPaths, this`sectionCounts, this`retainedPathBytes,
               this`sourcePathBytes, this`ordinaryMetadataPathBytes, this`ordinaryMetadataCount
      ensures Ready() && Evicts(old(Now()), Now(), None)
      ensures Now() == WithoutMetadata(old(Now()), i)
      ensures Now().counts.ordinaryCount == old(Now()).counts.ordinaryCount - 1
      ensures Now().counts.ordinaryBytes == old(Now()).counts.ordinaryBytes - old(metadataPaths)[i].pathBytes
    {
      assert FindRecord(metadataPaths, metadataPaths[i].path) == Some(i);
      assert RecordOk(facts, metadataPaths[i]);
      WithoutMetadataEvicts(facts, Now(), i, None);
      DropRetainedPath(metadataPaths[i].path);
    }

    method UpgradeMetadata(i: nat, forceConfig: bool)
      requires i < |metadataPaths|
        && (PackageFiles in metadataPaths[i].sections || ConfigFiles in metadataPaths[i].sections)
      modifies this`metadataPaths, this`sectionCounts, this`ordinaryMetadataPathBytes, this`ordinaryMetadataCount
      ensures Now() == WithMetadata(WithoutMetadata(old(Now()), i),
                                    UpgradedRecord(facts, old(metadataPaths)[i], forceConfig))
      ensures Bumped(old(Now()), Now(),
                     facts.Sections(old(metadataPaths)[i].path, forceConfig) - old(metadataPaths)[i].sections)
    {
      var existing := metadataPaths[i];
      var sections := facts.Sections(existing.path, forceConfig);
      var upgraded := Retained(existing.path, existing.sections + sections, existing.pathBytes,
                               facts.Critical(existing.path, forceConfig) || existing.critical);
      metadataPaths := RemoveAt(metadataPaths, i) + [upgraded];
      if !existing.critical && upgraded.critical {
        ordinaryMetadataPathBytes := ordinaryMetadataPathBytes - existing.pathBytes;
        ordinaryMetadataCount := ordinaryMetadataCount - 1;
      }
      sectionCounts := sectionCounts.Bump(sections - existing.sections, 1);
      assert upgraded.sections - existing.sections == sections - existing.sections;
      UpgradedIsReplaced(old(Now()), Now(), i, upgraded);
    }

    method UpgradeSource(i: nat, forceConfig: bool)
      requires Distinct(sourcePaths) && IndexOk(sourceIndex, sourcePaths) && i < |sourcePaths|
      requires facts.Sections(sourcePaths[i], forceConfig) == {Files, ConfigFiles}
      requires facts.Critical(sourcePaths[i], forceConfig)
      modifies this`sourcePaths, this`sourceIndex, this`metadataPaths, this`sectionCounts, this`sourcePathBytes
      ensures IndexOk(sourceIndex, sourcePaths)
      ensures Now() == WithMetadata(WithoutSource(facts, old(Now()), i),
                                    UpgradedRecord(facts, SourceRecord(facts, old(sourcePaths)[i]), forceConfig))
      ensures Bumped(old(Now()), Now(), {ConfigFiles})
    {
      var p := sourcePaths[i];
      var upgraded := Retained(p, {Files} + facts.Sections(p, forceConfig), facts.PathBytes(p), true);
      assert upgraded == UpgradedRecord(facts, SourceRecord(facts, p), forceConfig);
      DetachSourcePath(i);
      sourcePathBytes := sourcePathBytes - facts.PathBytes(p);
      metadataPaths := metadataPaths + [upgraded];
      sectionCounts := sectionCounts.Bump({ConfigFiles}, 1);
    }

    method ApplyUpgrade(p: P, forceConfig: bool, existing: Retained<P>, sourceAt: Option<nat>)
      requires Ready()
      requires match sourceAt
               case Some(i) => i < |sourcePaths| && sourcePaths[i] == p && existing == SourceRecord(facts, p)
                               && facts.Critical(p, forceConfig)
               case None => existing in metadataPaths && existing.path == p
      modifies this`sourcePaths, this`sourceIndex, this`metadataPaths, this`sectionCounts,
               this`sourcePathBytes, this`ordinaryMetadataPathBytes, this`ordinaryMetadataCount
      ensures Ready() && UpgradeOk(facts, old(Now()), Now(), p, forceConfig)
      ensures Bumped(old(Now()), Now(), facts.Sections(p, forceConfig) - existing.sections)
    {
      ghost var h := Now();
      HeldSections(facts, h, p, forceConfig, existing);
      if sourceAt.Some? {
        assert p in sourcePaths;
        UpgradeSourceEffect(facts, h, sourceAt.value);
        UpgradeSource(sourceAt.value, forceConfig);
      } else {
        RecordFound(h.metadata, existing);
        var i := FindRecord(metadataPaths, p);
        UpgradeMetadataEffect(facts, h, i.value, forceConfig);
        UpgradeMetadata(i.value, forceConfig);
      }
    }

    /** The offer names a path that is already held: merge sections and criticality, after evicting
        to `mid`. The position `sourceAt` was read before room was made; it stays valid because a held
        source gains only the config section, and making room there never touches the source list. */
    method UpgradeExisting(p: P, forceConfig: bool, existing: Retained<P>, sourceAt: Option<nat>)
      returns (ok: bool, ghost mid: Held<P>)
      requires Ready()
      requires match sourceAt
               case Some(i) => i < |sourcePaths| && sourcePaths[i] == p && existing == SourceRecord(facts, p)
                               && facts.Critical(p, forceConfig)
               case None => existing in metadataPaths && existing.path == p
      modifies this`sourcePaths, this`sourceIndex, this`metadataPaths, this`sectionCounts, this`retainedPathBytes,
               this`sourcePathBytes, this`ordinaryMetadataPathBytes, this`ordinaryMetadataCount, this`reasons
      ensures Ready() && Evicts(old(Now()), mid, Some(p))
      ensures reasons == [] ==> old(reasons) == [] && mid == old(Now())
      ensures !ok ==> reasons != [] && Now() == mid
      ensures !facts.Critical(p, forceConfig) ==> ok && Now() == old(Now())
      ensures !ok ==> SectionRefused(limits, enforceSectionEntryLimits, mid,
                                     facts.Sections(p, forceConfig) - existing.sections, true, Some(p))
      ensures HasRoom(limits, enforceSectionEntryLimits, old(Now()),
                      facts.Sections(p, forceConfig) - existing.sections) ==>
        ok && mid == old(Now()) && reasons == old(reasons)
      ensures SourcesLast(old(Now()), mid, Some(p))
      ensures ok ==>
        || (Now() == mid == old(Now()) && existing in metadataPaths
            && facts.Sections(p, forceConfig) <= existing.sections
            && (facts.Critical(p, forceConfig) ==> existing.critical))
        || (UpgradeOk(facts, mid, Now(), p, forceConfig)
            && HasRoom(limits, enforceSectionEntryLimits, mid, facts.Sections(p, forceConfig) - existing.sections)
            && Bumped(mid, Now(), facts.Sections(p, forceConfig) - existing.sections))
    {
      HeldSections(facts, Now(), p, forceConfig, existing);
      var critical := facts.Critical(p, forceConfig);
      var added := facts.Sections(p, forceConfig) - existing.sections;
      if added == {} && (!critical || existing.critical) {
        assert existing in metadataPaths;
        return true, Now();
      }
      var room := MakeRoomForSections(added, critical || existing.critical, Some(p));
      mid := Now();
      if !room {
        AddReason(EntryLimited(limits.sectionEntries, true));
        return false, mid;
      }
      ApplyUpgrade(p, forceConfig, existing, sourceAt);
      return true, mid;
    }

    function RetainedCount(): nat
      reads this`sourcePaths, this`metadataPaths
    {
      |sourcePaths| + |metadataPaths|
    }

    /** Evicts one path under pressure, or finds that nothing may be evicted. */
    method RelieveOnce(critical: bool, incomingIsMetadata: bool, pathBytes: nat, ghost start: Held<P>)
      returns (ok: bool)
      requires Ready() && UnderPressure(limits, Now(), pathBytes)
      requires Relieving(limits, start, Now(), critical, incomingIsMetadata, pathBytes)
      modifies this`sourcePaths, this`sourceIndex, this`metadataPaths, this`sectionCounts, this`retainedPathBytes,
               this`sourcePathBytes, this`ordinaryMetadataPathBytes, this`ordinaryMetadataCount, this`reasons
      ensures Ready() && Relieving(limits, start, Now(), critical, incomingIsMetadata, pathBytes) && reasons != []
      ensures ok ==> Now().Count() < old(Now()).Count()
      ensures !ok ==> Now() == old(Now()) && Stuck(facts, limits, Now(), critical, incomingIsMetadata, pathBytes)
    {
      var entryPressure := RetainedCount() >= limits.entries;
      var bytePressure := retainedPathBytes + pathBytes > limits.pathBytes;
      if entryPressure {
        AddReason(EntryLimited(limits.entries, false));
      }
      if bytePressure {
        AddReason(ByteLimited);
      }
      ghost var before := Now();
      ok := DropCapacityCandidate(critical, incomingIsMetadata, entryPressure, bytePressure);
      if ok {
        EvictsTransitive(start, before, Now(), None);
        if critical {
          SourcesLastTransitive(start, before, Now(), None);
        } else {
          ReserveStep(limits, start, before, Now(), incomingIsMetadata, pathBytes, entryPressure, bytePressure);
        }
      }
    }

    method RelievePressure(critical: bool, incomingIsMetadata: bool, pathBytes: nat)
      requires Ready() && RetainedCount() <= limits.entries
      modifies this`sourcePaths, this`sourceIndex, this`metadataPaths, this`sectionCounts, this`retainedPathBytes,
               this`sourcePathBytes, this`ordinaryMetadataPathBytes, this`ordinaryMetadataCount, this`reasons
      ensures Ready() && Relieving(limits, old(Now()), Now(), critical, incomingIsMetadata, pathBytes)
      ensures reasons == [] ==> old(reasons) == [] && Now() == old(Now())
      ensures UnderPressure(limits, Now(), pathBytes) ==>
        Stuck(facts, limits, Now(), critical, incomingIsMetadata, pathBytes)
      ensures !UnderPressure(limits, old(Now()), pathBytes) ==> reasons == old(reasons) && Now() == old(Now())
    {
      ghost var start := Now();
      while RetainedCount() >= limits.entries || retainedPathBytes + pathBytes > limits.pathBytes
        invariant Ready() && Relieving(limits, start, Now(), critical, incomingIsMetadata, pathBytes)
        invariant reasons == [] ==> old(reasons) == [] && Now() == start
        invariant !UnderPressure(limits, start, pathBytes) ==> reasons == old(reasons) && Now() == start
        decreases Now().Count()
      {
        var dropped := RelieveOnce(critical, incomingIsMetadata, pathBytes, start);
        if !dropped {
          break;
        }
      }
    }

    method Retain(p: P, forceConfig: bool)
      requires facts.PureSource(p, forceConfig) <==>
        PackageFiles !in facts.Sections(p, forceConfig) && ConfigFiles !in facts.Sections(p, forceConfig)
      modifies this`sourcePaths, this`sourceIndex, this`metadataPaths, this`sectionCounts, this`retainedPathBytes,
               this`sourcePathBytes, this`ordinaryMetadataPathBytes, this`ordinaryMetadataCount
      ensures Now() == Admitted(facts, old(Now()), p, forceConfig)
      ensures sourceIndex == if facts.PureSource(p, forceConfig) then Indexed(old(sourceIndex), old(sourcePaths), p)
                             else old(sourceIndex)
      ensures old(IndexOk(sourceIndex, sourcePaths)) && p !in old(sourcePaths) ==> IndexOk(sourceIndex, sourcePaths)
    {
      var sections, critical := facts.Sections(p, forceConfig), facts.Critical(p, forceConfig);
      var isMetadata, pathBytes := sections != {Files}, facts.PathBytes(p);
      if isMetadata {
        metadataPaths := metadataPaths + [Retained(p, sections, pathBytes, critical)];
      } else {
        if sourceIndex.Some? {
          sourceIndex := Some(sourceIndex.value[p := |sourcePaths|]);
        }
        sourcePaths := sourcePaths + [p];
      }
      retainedPathBytes := retainedPathBytes + pathBytes;
      if isMetadata && !critical {
        ordinaryMetadataPathBytes := ordinaryMetadataPathBytes + pathBytes;
        ordinaryMetadataCount := ordinaryMetadataCount + 1;
      } else if !isMetadata {
        sourcePathBytes := sourcePathBytes + pathBytes;
      }
      sectionCounts := sectionCounts.Bump(sections, 1);
    }

    /** Makes room in the path's sections and within the limits, or refuses the path. */
    method MakeRoomFor(p: P, forceConfig: bool) returns (ok: bool)
      requires Ready() && RetainedCount() <= limits.entries
      modifies this`sourcePaths, this`sourceIndex, this`metadataPaths, this`sectionCounts, this`retainedPathBytes,
               this`sourcePathBytes, this`ordinaryMetadataPathBytes, this`ordinaryMetadataCount, this`reasons
      ensures Ready() && Evicts(old(Now()), Now(), None)
      ensures reasons == [] ==> old(reasons) == [] && Now() == old(Now())
      ensures !ok ==> reasons != []
      ensures !ok ==> Refused(facts, limits, enforceSectionEntryLimits, Now(), p, forceConfig)
      ensures HasRoom(limits, enforceSectionEntryLimits, old(Now()), facts.Sections(p, forceConfig))
              && !UnderPressure(limits, old(Now()), facts.PathBytes(p)) ==>
        ok && Now() == old(Now()) && reasons == old(reasons)
      ensures facts.Critical(p, forceConfig) ==> SourcesLast(old(Now()), Now(), None)
      ensures ok ==>
        && HasRoom(limits, enforceSectionEntryLimits, Now(), facts.Sections(p, forceConfig))
        && RetainedCount() < limits.entries && retainedPathBytes + facts.PathBytes(p) <= limits.pathBytes
      ensures !facts.Critical(p, forceConfig) ==>
        ReserveKept(limits, old(Now()), Now(), facts.Sections(p, forceConfig) != {Files}, facts.PathBytes(p))
    {
      var sections := facts.Sections(p, forceConfig);
      var critical, isMetadata := facts.Critical(p, forceConfig), sections != {Files};
      var room := MakeRoomForSections(sections, critical, None);
      ghost var mid := Now();
      if !room {
        SectionsRefusedMore(limits, enforceSectionEntryLimits, mid, sections, sections, critical, None, p);
        AddReason(EntryLimited(limits.sectionEntries, true));
        return false;
      }
      var pathBytes := facts.PathBytes(p);
      RelievePressure(critical, isMetadata, pathBytes);
      EvictsTransitive(old(Now()), mid, Now(), None);
      if critical {
        SourcesLastTransitive(old(Now()), mid, Now(), None);
      }
      if RetainedCount() >= limits.entries {
        AddReason(EntryLimited(limits.entries, false));
        return false;
      }
      if retainedPathBytes + pathBytes > limits.pathBytes {
        AddReason(ByteLimited);
        return false;
      }
      return true;
    }

    /** The offer names a path that is not held: after evicting to `mid`, admit it or refuse it. */
    method AdmitNew(p: P, forceConfig: bool) returns (ok: bool, ghost mid: Held<P>)
      requires Ready() && WithinLimits(limits, enforceSectionEntryLimits, Now())
      requires facts.Relevant(p, forceConfig) && !Now().Holds(p)
      modifies this`sourcePaths, this`sourceIndex, this`metadataPaths, this`sectionCounts, this`retainedPathBytes,
               this`sourcePathBytes, this`ordinaryMetadataPathBytes, this`ordinaryMetadataCount, this`reasons
      ensures Ready() && Evicts(old(Now()), mid, None)
      ensures reasons == [] ==> old(reasons) == [] && mid == old(Now())
      ensures !ok ==> reasons != [] && Now() == mid
      ensures !ok ==> Refused(facts, limits, enforceSectionEntryLimits, mid, p, forceConfig)
      ensures RoomFor(facts, limits, enforceSectionEntryLimits, old(Now()), p, forceConfig) ==>
        ok && mid == old(Now()) && reasons == old(reasons)
      ensures facts.Critical(p, forceConfig) ==> SourcesLast(old(Now()), mid, None)
      ensures ok ==>
        && Now() == Admitted(facts, mid, p, forceConfig)
        && HasRoom(limits, enforceSectionEntryLimits, mid, facts.Sections(p, forceConfig))
        && mid.Count() < limits.entries && mid.counts.bytes + facts.PathBytes(p) <= limits.pathBytes
      ensures !facts.Critical(p, forceConfig) ==>
        ReserveKept(limits, old(Now()), mid, !facts.PureSource(p, forceConfig), facts.PathBytes(p))
    {
      ok := MakeRoomFor(p, forceConfig);
      mid := Now();
      if !ok {
        return;
      }
      NotHeldAfter(old(Now()), mid, p);
      AdmittedCore(facts, mid, p, forceConfig);
      Retain(p, forceConfig);
    }

    method Upgrade(p: P, forceConfig: bool, existing: Retained<P>, sourceAt: Option<nat>) returns (ok: bool)
      requires Ready() && WithinLimits(limits, enforceSectionEntryLimits, Now()) && facts.Relevant(p, forceConfig)
      requires match sourceAt
               case Some(i) => i < |sourcePaths| && sourcePaths[i] == p && existing == SourceRecord(facts, p)
                               && facts.Critical(p, forceConfig)
               case None => existing in metadataPaths && existing.path == p
      modifies this`sourcePaths, this`sourceIndex, this`metadataPaths, this`sectionCounts, this`retainedPathBytes,
               this`sourcePathBytes, this`ordinaryMetadataPathBytes, this`ordinaryMetadataCount, this`reasons
      ensures Ready() && OfferEffect(facts, limits, enforceSectionEntryLimits, old(Now()), Now(), p, forceConfig)
      ensures if ok then Keeps(facts, Now(), p, forceConfig) else reasons != []
      ensures Decided(facts, limits, enforceSectionEntryLimits, old(Now()), Now(), p, forceConfig, ok,
                      reasons == old(reasons))
      ensures reasons == [] ==> old(reasons) == [] && Preserves(old(Now()), Now())
      ensures !facts.Critical(p, forceConfig) ==> Now() == old(Now())
    {
      ghost var mid;
      HeldSections(facts, Now(), p, forceConfig, existing);
      ok, mid := UpgradeExisting(p, forceConfig, existing, sourceAt);
      if Now() == mid {
        EvictOnlyEffect(facts, limits, enforceSectionEntryLimits, old(Now()), Now(), p, forceConfig, Some(p));
      } else {
        UpgradeOfferEffect(facts, limits, enforceSectionEntryLimits, old(Now()), mid, Now(), p, forceConfig,
                           facts.Sections(p, forceConfig) - existing.sections);
      }
      UpgradeDecided(facts, limits, enforceSectionEntryLimits, old(Now()), mid, Now(), p, forceConfig,
                     facts.Sections(p, forceConfig) - existing.sections, ok, reasons == old(reasons));
    }

    method Admit(p: P, forceConfig: bool) returns (ok: bool, ghost mid: Held<P>)
      requires Ready() && WithinLimits(limits, enforceSectionEntryLimits, Now())
      requires facts.Relevant(p, forceConfig) && !Now().Holds(p)
      modifies this`sourcePaths, this`sourceIndex, this`metadataPaths, this`sectionCounts, this`retainedPathBytes,
               this`sourcePathBytes, this`ordinaryMetadataPathBytes, this`ordinaryMetadataCount, this`reasons
      ensures Ready() && OfferEffect(facts, limits, enforceSectionEntryLimits, old(Now()), Now(), p, forceConfig)
      ensures if ok then Keeps(facts, Now(), p, forceConfig) else reasons != []
      ensures Decided(facts, limits, enforceSectionEntryLimits, old(Now()), Now(), p, forceConfig, ok,
                      reasons == old(reasons))
      ensures reasons == [] ==> old(reasons) == [] && Preserves(old(Now()), Now())
      ensures if ok then Now() == Admitted(facts, mid, p, forceConfig) else Now() == mid
      ensures !facts.Critical(p, forceConfig) ==>
        ReserveKept(limits, old(Now()), mid, !facts.PureSource(p, forceConfig), facts.PathBytes(p))
    {
      ok, mid := AdmitNew(p, forceConfig);
      if ok {
        AdmitOfferEffect(facts, limits, enforceSectionEntryLimits, old(Now()), mid, p, forceConfig);
      } else {
        EvictOnlyEffect(facts, limits, enforceSectionEntryLimits, old(Now()), Now(), p, forceConfig, None);
      }
      AdmitDecided(facts, limits, enforceSectionEntryLimits, old(Now()), mid, Now(), p, forceConfig, ok,
                   reasons == old(reasons));
    }

    /** The metadata record of `p` or, for a critical offer only, its place in the source list. */
    method FindExisting(p: P, critical: bool) returns (existing: Option<Retained<P>>, sourceAt: Option<nat>)
      requires Distinct(sourcePaths) && IndexOk(sourceIndex, sourcePaths)
      modifies this`sourceIndex
      ensures IndexOk(sourceIndex, sourcePaths)
      ensures existing.Some? ==>
        match sourceAt
        case Some(i) => i < |sourcePaths| && sourcePaths[i] == p && existing.value == SourceRecord(facts, p) && critical
        case None => existing.value in metadataPaths && existing.value.path == p
      ensures existing.None? ==> FindRecord(metadataPaths, p).None? && (critical ==> p !in sourcePaths)
    {
      var found := FindRecord(metadataPaths, p);
      if found.Some? {
        return Some(metadataPaths[found.value]), None;
      }
      if critical {
        EnsureSourceIndex();
        if p in sourceIndex.value {
          return Some(Retained(p, {Files}, facts.PathBytes(p), false)), Some(sourceIndex.value[p]);
        }
      }
      return None, None;
    }

    method Place(p: P, forceConfig: bool) returns (ok: bool, ghost mid: Held<P>)
      requires Ready() && WithinLimits(limits, enforceSectionEntryLimits, Now()) && facts.Relevant(p, forceConfig)
      requires facts.PureSource(p, forceConfig) ==> p !in sourcePaths
      modifies this`sourcePaths, this`sourceIndex, this`metadataPaths, this`sectionCounts, this`retainedPathBytes,
               this`sourcePathBytes, this`ordinaryMetadataPathBytes, this`ordinaryMetadataCount, this`reasons
      ensures Ready() && OfferEffect(facts, limits, enforceSectionEntryLimits, old(Now()), Now(), p, forceConfig)
      ensures if ok then Keeps(facts, Now(), p, forceConfig) else reasons != []
      ensures Decided(facts, limits, enforceSectionEntryLimits, old(Now()), Now(), p, forceConfig, ok,
                      reasons == old(reasons))
      ensures reasons == [] ==> old(reasons) == [] && Preserves(old(Now()), Now())
      ensures !facts.Critical(p, forceConfig) ==>
        && ReserveKept(limits, old(Now()), mid, !facts.PureSource(p, forceConfig), facts.PathBytes(p))
        && (Now() == mid || Now() == Admitted(facts, mid, p, forceConfig))
    {
      var existing, existingSourceIndex := FindExisting(p, facts.Critical(p, forceConfig));
      mid := Now();
      if existing.Some? {
        ok := Upgrade(p, forceConfig, existing.value, existingSourceIndex);
      } else {
        NotHeld(facts, mid, p, forceConfig);
        ok, mid := Admit(p, forceConfig);
      }
    }

    /** Offers one path. A pure source path is appended without a lookup, so it must not be held.
        A non-critical offer first evicts to `mid`, within the reserves, and then at most adds itself. */
    method Add(p: P, forceConfig: bool) returns (ok: bool, ghost mid: Held<P>)
      requires Valid()
      requires facts.hasKey(p) && facts.PureSource(p, forceConfig) ==> p !in sourcePaths
      modifies this
      ensures Valid() && offered == old(offered) + {(p, forceConfig)}
      ensures OfferEffect(facts, limits, enforceSectionEntryLimits, old(Now()), Now(), p, forceConfig)
      ensures ok ==> facts.Relevant(p, forceConfig) && Keeps(facts, Now(), p, forceConfig)
      ensures !ok && facts.Relevant(p, forceConfig) ==> reasons != []
      ensures facts.Relevant(p, forceConfig) ==>
        Decided(facts, limits, enforceSectionEntryLimits, old(Now()), Now(), p, forceConfig, ok,
                reasons == old(reasons))
      ensures !facts.Relevant(p, forceConfig) ==> Now() == old(Now()) && reasons == old(reasons)
      ensures reasons == [] ==> old(reasons) == []
      ensures !facts.Critical(p, forceConfig) ==>
        && ReserveKept(limits, old(Now()), mid, !facts.PureSource(p, forceConfig), facts.PathBytes(p))
        && (Now() == mid || Now() == Admitted(facts, mid, p, forceConfig))
    {
      ghost var h := Now();
      offered := offered + {(p, forceConfig)};
      if !facts.hasKey(p) || facts.Sections(p, forceConfig) == {} {
        EvictOnlyEffect(facts, limits, enforceSectionEntryLimits, h, h, p, forceConfig, None);
        return false, h;
      }
      ok, mid := Place(p, forceConfig);
      if reasons == [] {
        KeptSoFar(facts, h, Now(), old(offered), p, forceConfig);
      }
    }

    /** The same offer, as far as a sequence of offers needs it. */
    method Offer(p: P, forceConfig: bool) returns (ok: bool)
      requires Valid()
      requires facts.hasKey(p) && facts.PureSource(p, forceConfig) ==> p !in sourcePaths
      modifies this
      ensures Valid() && offered == old(offered) + {(p, forceConfig)}
      ensures CriticalKept(old(Now()), Now()) && (reasons == [] ==> old(reasons) == [])
      ensures AnsweredOne(facts, Now(), reasons == [], (p, forceConfig), ok)
      ensures forall q :: q in sourcePaths ==> q in old(sourcePaths) || (q == p && facts.PureSource(p, forceConfig))
    {
      ghost var mid;
      ok, mid := Add(p, forceConfig);
    }
  }

  /** No pure source path is offered twice. */
  ghost predicate SourcesOfferedOnce<P>(facts: PathFacts<P>, offers: seq<(P, bool)>) {
    forall i, j :: 0 <= i < j < |offers| && facts.PureSource(offers[i].0, offers[i].1) ==> offers[i] != offers[j]
  }

  /** Of the offers answered so far only relevant ones were accepted, the accepted critical ones are held, as
      critical, with all their sections, and no relevant one was refused if no reason was left. */
  ghost predicate Answered<P>(facts: PathFacts<P>, h: Held<P>, silent: bool, offers: seq<(P, bool)>,
                              accepted: seq<bool>) {
    && |accepted| <= |offers|
    && (forall i :: 0 <= i < |accepted| ==> AnsweredOne(facts, h, silent, offers[i], accepted[i]))
  }

  ghost predicate AnsweredOne<P>(facts: PathFacts<P>, h: Held<P>, silent: bool, offer: (P, bool), ok: bool) {
    && (ok ==> facts.Relevant(offer.0, offer.1))
    && (ok && facts.Critical(offer.0, offer.1) ==> Keeps(facts, h, offer.0, offer.1))
    && (!ok && facts.Relevant(offer.0, offer.1) ==> !silent)
  }

  /** Whatever later offers evict, an accepted critical path stays. */
  lemma AnsweredNext<P>(facts: PathFacts<P>, h: Held<P>, h': Held<P>, silent: bool, silent': bool,
                        offers: seq<(P, bool)>, accepted: seq<bool>, ok: bool)
    requires Answered(facts, h, silent, offers, accepted) && CriticalKept(h, h') && |accepted| < |offers|
    requires (silent' ==> silent) && AnsweredOne(facts, h', silent', offers[|accepted|], ok)
    ensures Answered(facts, h', silent', offers, accepted + [ok])
  {
    forall i | 0 <= i < |accepted| ensures AnsweredOne(facts, h', silent', offers[i], accepted[i]) {
      assert AnsweredOne(facts, h, silent, offers[i], accepted[i]);
    }
  }

  ghost predicate HeldAsCritical<P>(facts: PathFacts<P>, r: Retained<P>, forced: bool) {
    && r.critical && (facts.packageJson(r.path) ==> PackageFiles in r.sections)
    && (forced || facts.configRoot(r.path) || facts.configSuffix(r.path) ==> ConfigFiles in r.sections)
    && (facts.sourceSuffix(r.path) ==> Files in r.sections)
  }

  /** A root config, a package manifest or a config the program asked for, once accepted, is held at the end as
      critical and under every section it belongs to. */
  lemma CriticalPathsHeld<P>(facts: PathFacts<P>, h: Held<P>, silent: bool, offers: seq<(P, bool)>,
                             accepted: seq<bool>, i: nat)
    requires Answered(facts, h, silent, offers, accepted) && i < |accepted| && accepted[i]
    requires offers[i].1 || facts.configRoot(offers[i].0) || facts.packageJson(offers[i].0)
    ensures exists r :: r in h.metadata && r.path == offers[i].0 && HeldAsCritical(facts, r, offers[i].1)
  {
    var p, forced := offers[i].0, offers[i].1;
    assert AnsweredOne(facts, h, silent, offers[i], accepted[i]);
    var r :| r in h.metadata && r.path == p && facts.Sections(p, forced) <= r.sections && r.critical;
  }

  ghost function KeyBytes<P>(facts: PathFacts<P>, records: seq<Retained<P>>, n: nat): nat
    requires n <= |records|
  {
    if n == 0 then 0 else KeyBytes(facts, records, n - 1) + facts.keyBytes(records[n - 1].path)
  }

  lemma {:induction false} RecordBytes<P>(facts: PathFacts<P>, records: seq<Retained<P>>, n: nat)
    requires n <= |records| && forall i :: 0 <= i < n ==> records[i].pathBytes == facts.keyBytes(records[i].path) + 1
    ensures Sum(records, Bytes, n) == KeyBytes(facts, records, n) + n
  {
    if n > 0 { RecordBytes(facts, records, n - 1); }
  }

  /** The byte limit holds for the keys of everything held, with one separator for each. */
  lemma HeldBytes<P>(facts: PathFacts<P>, limits: Limits, enforce: bool, h: Held<P>)
    requires Core(facts, h) && WithinLimits(limits, enforce, h)
    ensures KeyBytes(facts, SourceRecords(facts, h.sources), |h.sources|) + KeyBytes(facts, h.metadata, |h.metadata|)
            + |h.sources| + |h.metadata| <= limits.pathBytes
  {
    RecordBytes(facts, SourceRecords(facts, h.sources), |h.sources|);
    forall i | 0 <= i < |h.metadata| ensures h.metadata[i].pathBytes == facts.keyBytes(h.metadata[i].path) + 1 {
      assert h.metadata[i] in h.metadata;
      assert RecordOk(facts, h.metadata[i]);
    }
    RecordBytes(facts, h.metadata, |h.metadata|);
    assert h.counts.At(Bytes) == Total(SourceRecords(facts, h.sources), Bytes) + Total(h.metadata, Bytes);
  }

  /** Every sequence of offers: the counters are exact, the limits hold, every critical path that was
      accepted is still held with its sections, and every refusal of a relevant path left a reason. If no
      reason was recorded then every relevant path ever offered is held with all its sections. */
  method RetainAll<P(==, !new)>(facts: PathFacts<P>, limits: Limits, enforce: bool, given: Option<string>,
                                offers: seq<(P, bool)>)
    returns (retention: Retention<P>, accepted: seq<bool>)
    requires SourcesOfferedOnce(facts, offers)
    ensures retention.Valid() && retention.facts == facts && retention.limits == limits
    ensures retention.enforceSectionEntryLimits == enforce
    ensures |accepted| == |offers| && Answered(facts, retention.Now(), retention.reasons == [], offers, accepted)
    ensures retention.reasons == [] ==>
      forall i :: 0 <= i < |offers| && facts.Relevant(offers[i].0, offers[i].1) ==>
        Keeps(facts, retention.Now(), offers[i].0, offers[i].1)
  {
    retention := new Retention(facts, limits, enforce, given);
    accepted := [];
    for i := 0 to |offers|
      invariant fresh(retention) && retention.Valid()
      invariant retention.facts == facts && retention.limits == limits
      invariant retention.enforceSectionEntryLimits == enforce
      invariant retention.offered == set j | 0 <= j < i :: offers[j]
      invariant forall p :: p in retention.sourcePaths ==> (p, false) in offers[..i]
      invariant |accepted| == i && Answered(facts, retention.Now(), retention.reasons == [], offers, accepted)
    {
      var (p, forced) := offers[i];
      if facts.PureSource(p, forced) {
        assert !forced by { assert forced ==> ConfigFiles in facts.Sections(p, forced); }
        assert forall j :: 0 <= j < i ==> offers[j] != offers[i];
      }
      ghost var h, silent := retention.Now(), retention.reasons == [];
      var ok := retention.Offer(p, forced);
      AnsweredNext(facts, h, retention.Now(), silent, retention.reasons == [], offers, accepted, ok);
      accepted := accepted + [ok];
      assert offers[..i + 1] == offers[..i] + [offers[i]];
    }
  }
}
