/**
 Fitting a context pack into its character budget (`_enforce_char_budget` and what it calls in
 context/budget.py). The size estimate is any function of the pack. Code is kept as its lines, since
 joining consecutive lines and splitting again gives the same lines.
 */
module ContextBudget {
  import opened Collections
  import opened Ordering
  import opened Wrappers

  datatype Label = Changed | Reference | Callee | Contract | Metadata | RelatedTest

  datatype Snippet = Snippet(file: string, start: int, end: int, lines: seq<string>)

  type Groups = m: map<Label, seq<Snippet>> | forall l: Label :: l in m
    witness map l: Label :: []

  datatype Edges = Edges(references: seq<string>, callees: seq<string>, contracts: seq<string>, metadata: seq<string>)

  datatype Symbol = Symbol(name: string, edges: Edges)

  datatype Graph = Graph(edges: Edges, symbol: Option<Symbol>, symbols: seq<Symbol>)

  /** A memory card, and the omission recorded for it when it is dropped. */
  type Card = string

  datatype Content = Content(snippets: Groups, memory: seq<Card>, omissions: seq<Card>, graph: Graph)

  datatype Note = Truncated(group: Label) | Dropped(group: Label) | DroppedMemory | Compacted | StillOver

  const KEEP_CHARS := 128

  // ------------------------------------------------------------------ truncating one snippet

  function Chars(lines: seq<string>): nat {
    if lines == [] then 0 else Chars(lines[..|lines| - 1]) + |lines[|lines| - 1]|
  }

  /** Groups whose middle is kept; of the others the beginning is. */
  predicate Centered(l: Label) {
    l in {Reference, Callee, Contract, Metadata}
  }

  /** `count` lines from `offset` on, under their own numbers. */
  function Window(s: Snippet, offset: nat, count: nat): Snippet
    requires offset + count <= |s.lines|
  {
    s.(start := s.start + offset, end := s.start + offset + count - 1, lines := s.lines[offset..offset + count])
  }

  function Beginning(s: Snippet, n: nat): Snippet
    requires |s.lines| == 1 && n <= |s.lines[0]|
  {
    s.(lines := [s.lines[0][..n]])
  }

  function Half(n: nat): (h: nat)
    ensures 2 * h <= n <= 2 * h + 1
  {
    n / 2
  }

  function Truncate(l: Label, s: Snippet): Snippet
    requires Chars(s.lines) > KEEP_CHARS
  {
    if |s.lines| > 1 then
      var count := Half(|s.lines|);
      Window(s, if Centered(l) then Half(|s.lines| - count) else 0, count)
    else
      OneLine(s.lines);
      var half := Half(|s.lines[0]|);
      Beginning(s, if half > KEEP_CHARS then half else KEEP_CHARS)
  }

  /** `s` is what may be left of `o`: consecutive lines under their own numbers, or the beginning of one
      line. Only centred groups may lose lines at the front. */
  ghost predicate Derived(l: Label, o: Snippet, s: Snippet) {
    var offset := s.start - o.start;
    && s.file == o.file && 0 <= offset <= offset + |s.lines| <= |o.lines|
    && (offset > 0 ==> Centered(l))
    && (|s.lines| != 1 ==> forall k :: 0 <= k < |s.lines| ==> s.lines[k] == o.lines[offset + k])
    && (|s.lines| == 1 ==> s.lines[0] <= o.lines[offset])
    && s.end == (if |s.lines| < |o.lines| then s.start + |s.lines| - 1 else o.end)
  }

  lemma DerivedRefl(l: Label, s: Snippet)
    ensures Derived(l, s, s)
  {
  }

  lemma DerivedTransitive(l: Label, a: Snippet, b: Snippet, c: Snippet)
    requires Derived(l, a, b) && Derived(l, b, c)
    ensures Derived(l, a, c)
  {
    var i, j := b.start - a.start, c.start - b.start;
    if |c.lines| == 1 {
      assert c.lines[0] <= b.lines[j] <= a.lines[i + j];
    } else {
      forall k | 0 <= k < |c.lines| ensures c.lines[k] == a.lines[i + j + k] {
        assert c.lines[k] == b.lines[j + k];
      }
    }
  }

  lemma {:induction false} CharsSlice(lines: seq<string>, from: nat, to: nat)
    requires from <= to <= |lines|
    ensures Chars(lines[from..to]) <= Chars(lines)
    decreases |lines|
  {
    if to < |lines| {
      CharsSlice(lines[..|lines| - 1], from, to);
      assert lines[..|lines| - 1][from..to] == lines[from..to];
    } else if from < to {
      var slice := lines[from..to];
      CharsSlice(lines[..|lines| - 1], from, to - 1);
      assert slice[..|slice| - 1] == lines[..|lines| - 1][from..to - 1];
    }
  }

  lemma OneLine(lines: seq<string>)
    requires |lines| <= 1
    ensures Chars(lines) == if lines == [] then 0 else |lines[0]|
  {
    if lines != [] { assert lines[..0] == []; }
  }

  function Size(s: Snippet): nat {
    1 + |s.lines| + Chars(s.lines)
  }

  /** `s` is a part of `o`, less of it, and not nothing. */
  ghost predicate Smaller(l: Label, o: Snippet, s: Snippet) {
    Derived(l, o, s) && Size(s) < Size(o) && s.lines != []
  }

  lemma WindowDerived(l: Label, s: Snippet, offset: nat, count: nat)
    requires 0 < count < |s.lines| && offset + count <= |s.lines| && (offset > 0 ==> Centered(l))
    ensures Smaller(l, s, Window(s, offset, count))
  {
    CharsSlice(s.lines, offset, offset + count);
  }

  lemma BeginningDerived(l: Label, s: Snippet, n: nat)
    requires |s.lines| == 1 && n < |s.lines[0]|
    ensures Smaller(l, s, Beginning(s, n))
  {
    OneLine(s.lines);
    OneLine([s.lines[0][..n]]);
  }

  /** Truncating leaves a part of the snippet, and always less of it. */
  lemma TruncateDerived(l: Label, s: Snippet)
    requires Chars(s.lines) > KEEP_CHARS
    ensures Smaller(l, s, Truncate(l, s))
  {
    if |s.lines| > 1 {
      var count := Half(|s.lines|);
      var offset := if Centered(l) then Half(|s.lines| - count) else 0;
      WindowDerived(l, s, offset, count);
      assert Truncate(l, s) == Window(s, offset, count);
    } else {
      OneLine(s.lines);
      var half := Half(|s.lines[0]|);
      BeginningDerived(l, s, if half > KEEP_CHARS then half else KEEP_CHARS);
    }
  }

  /** How much is kept: half of the lines, rounded down, from the middle of references, callees, contracts and
      metadata and from the beginning of the others; of a single line half of it, but at least 128
      characters. */
  lemma TruncateMeaning(l: Label, s: Snippet)
    requires Chars(s.lines) > KEEP_CHARS
    ensures var t := Truncate(l, s);
            var front, back := t.start - s.start, |s.lines| - |t.lines| - (t.start - s.start);
            if |s.lines| > 1 then
              && 2 * |t.lines| <= |s.lines| <= 2 * |t.lines| + 1
              && 0 <= front <= front + |t.lines| <= |s.lines| && t.lines == s.lines[front..front + |t.lines|]
              && (l in {Changed, RelatedTest} ==> front == 0)
              && (l in {Reference, Callee, Contract, Metadata} ==> front <= back <= front + 1)
            else
              && |s.lines| == |t.lines| == 1 && front == 0 && t.lines[0] <= s.lines[0]
              && (|s.lines[0]| >= 256 ==> 2 * |t.lines[0]| <= |s.lines[0]| <= 2 * |t.lines[0]| + 1)
              && (|s.lines[0]| < 256 ==> |t.lines[0]| == 128)
  {
    if |s.lines| <= 1 { OneLine(s.lines); }
  }

  lemma DerivedChars(l: Label, o: Snippet, s: Snippet)
    requires Derived(l, o, s)
    ensures Chars(s.lines) <= Chars(o.lines)
  {
    var offset := s.start - o.start;
    CharsSlice(o.lines, offset, offset + |s.lines|);
    if |s.lines| != 1 {
      assert s.lines == o.lines[offset..offset + |s.lines|];
    } else {
      OneLine(o.lines[offset..offset + 1]);
      OneLine(s.lines);
    }
  }

  // ------------------------------------------------------------------ the longest snippet

  predicate Candidate(groups: Groups, allowed: set<Label>, l: Label, i: nat) {
    l in allowed && i < |groups[l]| && Chars(groups[l][i].lines) > KEEP_CHARS
  }

  /** Position of the label's text in alphabetical order. */
  function Alphabetical(l: Label): nat {
    match l
    case Callee => 0
    case Changed => 1
    case Contract => 2
    case Metadata => 3
    case Reference => 4
    case RelatedTest => 5
  }

  function LabelText(l: Label): string {
    match l
    case Callee => "callee snippet"
    case Changed => "changed snippet"
    case Contract => "contract snippet"
    case Metadata => "metadata snippet"
    case Reference => "reference snippet"
    case RelatedTest => "related test snippet"
  }

  /** Enough of the label's text to tell it from the others. */
  function LabelStart(l: Label): string {
    match l
    case Callee => "cal"
    case Changed => "cha"
    case Contract => "con"
    case Metadata => "met"
    case Reference => "ref"
    case RelatedTest => "rel"
  }

  lemma StartsLabel(l: Label)
    ensures |LabelText(l)| > 3 && LabelText(l)[..3] == LabelStart(l)
  {
  }

  lemma StartsDiffer(l: Label, m: Label) returns (k: nat)
    requires Alphabetical(l) < Alphabetical(m)
    ensures k < 3 && LabelStart(l)[..k] == LabelStart(m)[..k] && LabelStart(l)[k] < LabelStart(m)[k]
  {
    var a, b := LabelStart(l), LabelStart(m);
    if a[0] != b[0] {
      k := 0;
    } else if a[1] != b[1] {
      k := 1;
    } else {
      k := 2;
    }
  }

  lemma TextsInOrder(l: Label, m: Label, a: string, b: string)
    requires Alphabetical(l) < Alphabetical(m) && a == LabelText(l) && b == LabelText(m)
    ensures LexLe(a, b) && !LexLe(b, a)
  {
    StartsLabel(l);
    StartsLabel(m);
    var k := StartsDiffer(l, m);
    assert a[..k] == a[..3][..k] && b[..k] == b[..3][..k] && a[k] == a[..3][k] && b[k] == b[..3][k];
    LexDecided(a, b, k);
  }

  /** The positions are those of the labels as texts. */
  lemma AlphabeticalMeaning(l: Label, m: Label)
    ensures Alphabetical(l) <= Alphabetical(m) <==> LexLe(LabelText(l), LabelText(m))
  {
    if Alphabetical(l) < Alphabetical(m) {
      TextsInOrder(l, m, LabelText(l), LabelText(m));
    } else if Alphabetical(m) < Alphabetical(l) {
      TextsInOrder(m, l, LabelText(m), LabelText(l));
    } else {
      assert l == m;
      LexTotal(LabelText(l), LabelText(m));
    }
  }

  predicate NotAfter(groups: Groups, l: Label, i: nat, m: Label, j: nat)
    requires i < |groups[l]| && j < |groups[m]|
  {
    var a, b := Chars(groups[l][i].lines), Chars(groups[m][j].lines);
    a > b || (a == b && (Alphabetical(l) > Alphabetical(m) || (l == m && i >= j)))
  }

  ghost predicate IsLongest(groups: Groups, allowed: set<Label>, l: Label, i: nat) {
    && Candidate(groups, allowed, l, i)
    && forall m, j :: Candidate(groups, allowed, m, j) ==> NotAfter(groups, l, i, m, j)
  }

  ghost predicate AllShort(snippets: seq<Snippet>) {
    forall i :: 0 <= i < |snippets| ==> Chars(snippets[i].lines) <= KEEP_CHARS
  }

  /** The groups in the order they are looked at. */
  function GroupAt(k: nat): Label
    requires k < 6
  {
    match k
    case 0 => Changed
    case 1 => Reference
    case 2 => Callee
    case 3 => Contract
    case 4 => Metadata
    case _ => RelatedTest
  }

  function Position(l: Label): (k: nat)
    ensures k < 6 && GroupAt(k) == l
  {
    match l
    case Changed => 0
    case Reference => 1
    case Callee => 2
    case Contract => 3
    case Metadata => 4
    case RelatedTest => 5
  }

  ghost predicate LastLongest(snippets: seq<Snippet>, i: nat) {
    && i < |snippets| && Chars(snippets[i].lines) > KEEP_CHARS
    && (forall j :: 0 <= j <= i ==> Chars(snippets[j].lines) <= Chars(snippets[i].lines))
    && (forall j :: i < j < |snippets| ==> Chars(snippets[j].lines) < Chars(snippets[i].lines))
  }

  method LongestIn(snippets: seq<Snippet>) returns (best: Option<nat>)
    ensures best.None? <==> AllShort(snippets)
    ensures best.Some? ==> LastLongest(snippets, best.value)
  {
    best := None;
    for i := 0 to |snippets|
      invariant best.None? ==> forall j :: 0 <= j < i ==> Chars(snippets[j].lines) <= KEEP_CHARS
      invariant best.Some? ==> best.value < i && Chars(snippets[best.value].lines) > KEEP_CHARS
      invariant best.Some? ==> forall j ::
        0 <= j <= best.value ==> Chars(snippets[j].lines) <= Chars(snippets[best.value].lines)
      invariant best.Some? ==> forall j ::
        best.value < j < i ==> Chars(snippets[j].lines) < Chars(snippets[best.value].lines)
    {
      if Chars(snippets[i].lines) > KEEP_CHARS {
        if best.None? || Chars(snippets[i].lines) >= Chars(snippets[best.value].lines) {
          best := Some(i);
        }
      }
    }
  }

  /** Beats every candidate of the first `n` groups. */
  ghost predicate LongestOf(groups: Groups, allowed: set<Label>, n: nat, l: Label, i: nat) {
    && Candidate(groups, allowed, l, i) && Position(l) < n
    && forall m, j :: Candidate(groups, allowed, m, j) && Position(m) < n ==> NotAfter(groups, l, i, m, j)
  }

  /** The longest snippet of the next group against the best so far. */
  lemma NextLongest(groups: Groups, allowed: set<Label>, n: nat, found: bool, m: Label, j: nat, l: Label, i: nat)
    requires found ==> LongestOf(groups, allowed, n, m, j)
    requires !found ==> forall l' :: l' in allowed && Position(l') < n ==> AllShort(groups[l'])
    requires l in allowed && Position(l) == n && LastLongest(groups[l], i)
    ensures if !found || NotAfter(groups, l, i, m, j) then LongestOf(groups, allowed, n + 1, l, i)
            else LongestOf(groups, allowed, n + 1, m, j)
  {
    assert forall k :: Candidate(groups, allowed, l, k) ==> NotAfter(groups, l, i, l, k);
  }

  method FindLongest(groups: Groups, allowed: set<Label>) returns (found: bool, group: Label, index: nat)
    ensures found ==> IsLongest(groups, allowed, group, index)
    ensures !found ==> forall l :: l in allowed ==> AllShort(groups[l])
  {
    found, group, index := false, Changed, 0;
    for k := 0 to 6
      invariant found ==> LongestOf(groups, allowed, k, group, index)
      invariant !found ==> forall l :: l in allowed && Position(l) < k ==> AllShort(groups[l])
    {
      var l := GroupAt(k);
      if l in allowed {
        var best := LongestIn(groups[l]);
        if best.Some? {
          NextLongest(groups, allowed, k, found, group, index, l, best.value);
          if !found || NotAfter(groups, l, best.value, group, index) {
            found, group, index := true, l, best.value;
          }
        }
      }
    }
  }

  // ------------------------------------------------------------------ what a step keeps

  function Count(notes: seq<Note>, n: Note): nat {
    if notes == [] then 0 else Count(notes[..|notes| - 1], n) + if notes[|notes| - 1] == n then 1 else 0
  }

  lemma {:induction false} CountConcat(a: seq<Note>, b: seq<Note>, n: Note)
    ensures Count(a + b, n) == Count(a, n) + Count(b, n)
    decreases |b|
  {
    if b == [] {
      assert a + b == a;
    } else {
      WithoutLast(a, b);
      CountConcat(a, b[..|b| - 1], n);
    }
  }

  lemma CountOne(m: Note, n: Note)
    ensures Count([m], n) == if m == n then 1 else 0
  {
    assert [m][..0] == [];
  }

  function Reversed(s: seq<Card>): seq<Card> {
    if s == [] then [] else [s[|s| - 1]] + Reversed(s[..|s| - 1])
  }

  lemma {:induction false} ReversedConcat(a: seq<Card>, b: seq<Card>)
    ensures Reversed(a + b) == Reversed(b) + Reversed(a)
    decreases |b|
  {
    if b == [] {
      assert a + b == a;
    } else {
      WithoutLast(a, b);
      ReversedConcat(a, b[..|b| - 1]);
      Associative([b[|b| - 1]], Reversed(b[..|b| - 1]), Reversed(a));
    }
  }

  /** Snippets go from the end; those that stay are parts of what they were. */
  ghost predicate Shrunk(l: Label, before: seq<Snippet>, after: seq<Snippet>) {
    |after| <= |before| && forall i {:trigger Derived(l, before[i], after[i])} ::
      0 <= i < |after| ==> Derived(l, before[i], after[i])
  }

  lemma ShrunkTransitive(l: Label, a: seq<Snippet>, b: seq<Snippet>, c: seq<Snippet>)
    requires Shrunk(l, a, b) && Shrunk(l, b, c)
    ensures Shrunk(l, a, c)
  {
    forall i | 0 <= i < |c| ensures Derived(l, a[i], c[i]) {
      DerivedTransitive(l, a[i], b[i], c[i]);
    }
  }

  lemma ShrunkRefl(l: Label, s: seq<Snippet>)
    ensures Shrunk(l, s, s)
  {
    forall i | 0 <= i < |s| ensures Derived(l, s[i], s[i]) {
      DerivedRefl(l, s[i]);
    }
  }

  ghost predicate GroupKept(l: Label, before: seq<Snippet>, after: seq<Snippet>, added: seq<Note>) {
    Shrunk(l, before, after) && |before| == |after| + Count(added, Dropped(l))
  }

  /** Cards are dropped from the end, each with an omission. */
  ghost predicate MemoryKept(before: Content, after: Content, added: seq<Note>) {
    && after.memory <= before.memory && |before.memory| == |after.memory| + Count(added, DroppedMemory)
    && after.omissions == before.omissions + Reversed(before.memory[|after.memory|..])
  }

  ghost predicate GraphKept(before: Graph, after: Graph) {
    after == before || after == CompactGraph(before)
  }

  /** Nothing leaves the pack but what the notes say, and what stays is a part of what was there. */
  ghost predicate Kept(before: Content, after: Content, added: seq<Note>) {
    && (forall l {:trigger GroupKept(l, before.snippets[l], after.snippets[l], added)} ::
          GroupKept(l, before.snippets[l], after.snippets[l], added))
    && MemoryKept(before, after, added) && GraphKept(before.graph, after.graph)
  }

  lemma KeptRefl(c: Content)
    ensures Kept(c, c, [])
  {
    forall l ensures GroupKept(l, c.snippets[l], c.snippets[l], []) {
      ShrunkRefl(l, c.snippets[l]);
    }
    assert c.memory[|c.memory|..] == [] && c.omissions + Reversed([]) == c.omissions;
  }

  lemma MemoryKeptTransitive(a: Content, b: Content, c: Content, x: seq<Note>, y: seq<Note>)
    requires MemoryKept(a, b, x) && MemoryKept(b, c, y)
    ensures MemoryKept(a, c, x + y)
  {
    CountConcat(x, y, DroppedMemory);
    assert a.memory[|c.memory|..] == b.memory[|c.memory|..] + a.memory[|b.memory|..];
    ReversedConcat(b.memory[|c.memory|..], a.memory[|b.memory|..]);
  }

  lemma KeptTransitive(a: Content, b: Content, c: Content, x: seq<Note>, y: seq<Note>)
    requires Kept(a, b, x) && Kept(b, c, y)
    ensures Kept(a, c, x + y)
  {
    forall l ensures GroupKept(l, a.snippets[l], c.snippets[l], x + y) {
      assert GroupKept(l, a.snippets[l], b.snippets[l], x) && GroupKept(l, b.snippets[l], c.snippets[l], y);
      ShrunkTransitive(l, a.snippets[l], b.snippets[l], c.snippets[l]);
      CountConcat(x, y, Dropped(l));
    }
    MemoryKeptTransitive(a, b, c, x, y);
    CompactTwice(a.graph);
  }

  // ------------------------------------------------------------------ the analyzer graph

  const NO_EDGES := Edges([], [], [], [])

  predicate HasEdges(e: Edges) {
    e.references != [] || e.callees != [] || e.contracts != [] || e.metadata != []
  }

  function CompactSymbol(s: Symbol): Symbol {
    s.(edges := NO_EDGES)
  }

  /** The graph without any edges. */
  ghost function CompactGraph(g: Graph): Graph {
    Graph(NO_EDGES,
          match g.symbol case None => None case Some(s) => Some(CompactSymbol(s)),
          seq(|g.symbols|, i requires 0 <= i < |g.symbols| => CompactSymbol(g.symbols[i])))
  }

  ghost predicate IsCompact(g: Graph) {
    && !HasEdges(g.edges) && (g.symbol.Some? ==> !HasEdges(g.symbol.value.edges))
    && forall i :: 0 <= i < |g.symbols| ==> !HasEdges(g.symbols[i].edges)
  }

  lemma CompactTwice(g: Graph)
    ensures IsCompact(CompactGraph(g)) && CompactGraph(CompactGraph(g)) == CompactGraph(g)
    ensures IsCompact(g) <==> CompactGraph(g) == g
  {
    if CompactGraph(g) == g {
      assert forall i :: 0 <= i < |g.symbols| ==> CompactGraph(g).symbols[i] == g.symbols[i];
    }
    assert CompactGraph(CompactGraph(g)).symbols == CompactGraph(g).symbols;
    if IsCompact(g) {
      assert CompactGraph(g).symbols == g.symbols;
    }
  }

  // ------------------------------------------------------------------ stages

  /** The stage a note belongs to. */
  function Stage(n: Note): nat {
    match n
    case Truncated(RelatedTest) => 0
    case Dropped(RelatedTest) => 0
    case Truncated(Reference) => 1
    case Dropped(Reference) => 1
    case Truncated(Callee) => 2
    case Dropped(Callee) => 2
    case DroppedMemory => 3
    case Truncated(Contract) => 4
    case Truncated(Metadata) => 4
    case Dropped(Contract) => 5
    case Dropped(Metadata) => 6
    case Compacted => 7
    case Truncated(Changed) => 8
    case Dropped(Changed) => 8
    case StillOver => 9
  }

  /** Nothing is left to do in the stages before `k`. */
  ghost predicate Exhausted(c: Content, k: nat) {
    && (k > 0 ==> c.snippets[RelatedTest] == [])
    && (k > 1 ==> c.snippets[Reference] == [])
    && (k > 2 ==> c.snippets[Callee] == [])
    && (k > 3 ==> c.memory == [])
    && (k > 4 ==> AllShort(c.snippets[Contract]) && AllShort(c.snippets[Metadata]))
    && (k > 5 ==> c.snippets[Contract] == [])
    && (k > 6 ==> c.snippets[Metadata] == [])
    && (k > 7 ==> IsCompact(c.graph))
  }

  lemma ShrunkShort(l: Label, before: seq<Snippet>, after: seq<Snippet>)
    requires Shrunk(l, before, after) && AllShort(before)
    ensures AllShort(after)
  {
    forall i | 0 <= i < |after| ensures Chars(after[i].lines) <= KEEP_CHARS {
      DerivedChars(l, before[i], after[i]);
    }
  }

  /** What is exhausted stays so. */
  lemma ExhaustedKept(before: Content, after: Content, added: seq<Note>, k: nat)
    requires Kept(before, after, added) && Exhausted(before, k)
    ensures Exhausted(after, k)
  {
    assert forall l :: GroupKept(l, before.snippets[l], after.snippets[l], added);
    if k > 4 {
      ShrunkShort(Contract, before.snippets[Contract], after.snippets[Contract]);
      ShrunkShort(Metadata, before.snippets[Metadata], after.snippets[Metadata]);
    }
    CompactTwice(before.graph);
  }

  // ------------------------------------------------------------------ sizes for termination

  function GroupSize(snippets: seq<Snippet>): nat {
    if snippets == [] then 0 else GroupSize(snippets[..|snippets| - 1]) + Size(snippets[|snippets| - 1])
  }

  lemma {:induction false} GroupSizeUpdate(snippets: seq<Snippet>, i: nat, s: Snippet)
    requires i < |snippets|
    ensures GroupSize(snippets[i := s]) == GroupSize(snippets) - Size(snippets[i]) + Size(s)
    decreases |snippets|
  {
    var n := |snippets| - 1;
    if i < n {
      GroupSizeUpdate(snippets[..n], i, s);
      assert snippets[i := s][..n] == snippets[..n][i := s];
    } else {
      assert snippets[i := s][..n] == snippets[..n];
    }
  }

  // ------------------------------------------------------------------ single steps

  function WithGroup(c: Content, l: Label, snippets: seq<Snippet>): Content {
    c.(snippets := c.snippets[l := snippets])
  }

  lemma GroupChanged(c: Content, l: Label, snippets: seq<Snippet>, n: Note)
    requires n.Truncated? || n.Dropped?
    requires Shrunk(l, c.snippets[l], snippets) && |c.snippets[l]| == |snippets| + if n == Dropped(l) then 1 else 0
    requires n.Dropped? ==> n.group == l
    ensures Kept(c, WithGroup(c, l, snippets), [n])
  {
    var after := WithGroup(c, l, snippets);
    forall m ensures GroupKept(m, c.snippets[m], after.snippets[m], [n]) {
      CountOne(n, Dropped(m));
      ShrunkRefl(m, c.snippets[m]);
    }
    CountOne(n, DroppedMemory);
    assert c.memory[|c.memory|..] == [] && c.omissions + Reversed([]) == c.omissions;
  }

  lemma TruncationStep(c: Content, l: Label, i: nat)
    requires i < |c.snippets[l]| && Chars(c.snippets[l][i].lines) > KEEP_CHARS
    ensures var snippets := c.snippets[l][i := Truncate(l, c.snippets[l][i])];
            && Kept(c, WithGroup(c, l, snippets), [Truncated(l)])
            && GroupSize(snippets) < GroupSize(c.snippets[l])
  {
    var was, s := c.snippets[l], Truncate(l, c.snippets[l][i]);
    TruncateDerived(l, was[i]);
    GroupSizeUpdate(was, i, s);
    forall j | 0 <= j < |was| ensures Derived(l, was[j], was[i := s][j]) {
      if j != i { DerivedRefl(l, was[j]); }
    }
    GroupChanged(c, l, was[i := s], Truncated(l));
  }

  lemma DropStep(c: Content, l: Label)
    requires c.snippets[l] != []
    ensures var snippets := c.snippets[l][..|c.snippets[l]| - 1];
            && Kept(c, WithGroup(c, l, snippets), [Dropped(l)])
            && GroupSize(snippets) < GroupSize(c.snippets[l])
  {
    var was := c.snippets[l];
    forall j | 0 <= j < |was| - 1 ensures Derived(l, was[j], was[..|was| - 1][j]) {
      DerivedRefl(l, was[j]);
    }
    GroupChanged(c, l, was[..|was| - 1], Dropped(l));
  }

  function WithoutLastCard(c: Content): Content
    requires c.memory != []
  {
    c.(memory := c.memory[..|c.memory| - 1], omissions := c.omissions + [c.memory[|c.memory| - 1]])
  }

  lemma MemoryStep(c: Content)
    requires c.memory != []
    ensures Kept(c, WithoutLastCard(c), [DroppedMemory])
  {
    var after := WithoutLastCard(c);
    forall m ensures GroupKept(m, c.snippets[m], after.snippets[m], [DroppedMemory]) {
      CountOne(DroppedMemory, Dropped(m));
      ShrunkRefl(m, c.snippets[m]);
    }
    CountOne(DroppedMemory, DroppedMemory);
    var last := c.memory[|c.memory| - 1..];
    assert last == [c.memory[|c.memory| - 1]] && last[..0] == [];
    assert Reversed(last) == last;
  }

  lemma CompactionStep(c: Content)
    ensures Kept(c, c.(graph := CompactGraph(c.graph)), [Compacted])
  {
    var after := c.(graph := CompactGraph(c.graph));
    forall m ensures GroupKept(m, c.snippets[m], after.snippets[m], [Compacted]) {
      CountOne(Compacted, Dropped(m));
      ShrunkRefl(m, c.snippets[m]);
    }
    CountOne(Compacted, DroppedMemory);
    assert c.memory[|c.memory|..] == [] && c.omissions + Reversed([]) == c.omissions;
  }

  // ------------------------------------------------------------------ runs

  /** The groups that are searched together with `l` for the longest snippet. */
  function SearchedWith(l: Label): set<Label> {
    match l
    case Changed => {Changed, Reference, Callee, Contract, Metadata, RelatedTest}
    case Contract => {Contract, Metadata}
    case Metadata => {Contract, Metadata}
    case _ => {l}
  }

  ghost predicate Truncates(c: Content, l: Label, i: nat, d: Content) {
    && IsLongest(c.snippets, SearchedWith(l), l, i)
    && d == WithGroup(c, l, c.snippets[l][i := Truncate(l, c.snippets[l][i])])
  }

  /** What the step noted as `n` makes of the pack, and what it needs: only short snippets are dropped. */
  ghost predicate Effect(c: Content, n: Note, d: Content) {
    match n
    case Truncated(l) => exists i :: Truncates(c, l, i, d)
    case Dropped(l) =>
      && l != Changed && c.snippets[l] != [] && AllShort(c.snippets[l])
      && d == WithGroup(c, l, c.snippets[l][..|c.snippets[l]| - 1])
    case DroppedMemory => c.memory != [] && d == WithoutLastCard(c)
    case Compacted => !IsCompact(c.graph) && d == c.(graph := CompactGraph(c.graph))
    case StillOver => false
  }

  /** A step is taken only over budget, and only when nothing is left to do in the stages before its own. */
  ghost predicate Step(c: Content, n: Note, d: Content, estimate: Content -> nat, maxChars: nat) {
    estimate(c) > maxChars && Exhausted(c, Stage(n)) && Effect(c, n, d)
  }

  /** The packs a run went through, and the note of each step. `base` is what had been noted before. */
  datatype Trail = Trail(base: seq<Note>, states: seq<Content>, steps: seq<Note>)

  ghost predicate StepAt(t: Trail, i: nat, estimate: Content -> nat, maxChars: nat)
    requires i < |t.steps| && i + 1 < |t.states|
  {
    Step(t.states[i], t.steps[i], t.states[i + 1], estimate, maxChars)
  }

  ghost predicate IsRun(t: Trail, estimate: Content -> nat, maxChars: nat) {
    |t.states| == |t.steps| + 1 && forall i :: 0 <= i < |t.steps| ==> StepAt(t, i, estimate, maxChars)
  }

  function Last(t: Trail): Content
    requires |t.states| == |t.steps| + 1
  {
    t.states[|t.steps|]
  }

  lemma EffectKept(c: Content, n: Note, d: Content)
    requires Effect(c, n, d)
    ensures Kept(c, d, [n])
  {
    match n
    case Truncated(l) =>
      var i :| Truncates(c, l, i, d);
      TruncationStep(c, l, i);
    case Dropped(l) => DropStep(c, l);
    case DroppedMemory => MemoryStep(c);
    case Compacted => CompactionStep(c);
  }

  /** What goes before what: related tests, references, callees, memory, then contracts and metadata are
      shortened, contracts go before metadata, the graph is compacted, and changed code is shortened last. */
  lemma OrderOfLosses(t: Trail, i: nat, estimate: Content -> nat, maxChars: nat)
    requires IsRun(t, estimate, maxChars) && i < |t.steps|
    ensures var c, n := t.states[i], t.steps[i];
            && (n in {Truncated(Reference), Dropped(Reference)} ==> c.snippets[RelatedTest] == [])
            && (n in {Truncated(Callee), Dropped(Callee)} ==>
                  c.snippets[RelatedTest] == c.snippets[Reference] == [])
            && (n == DroppedMemory ==> c.snippets[RelatedTest] == c.snippets[Reference] == c.snippets[Callee] == [])
            && (n == Truncated(Contract) || n == Truncated(Metadata) ==>
                  c.memory == [] && c.snippets[RelatedTest] == c.snippets[Reference] == c.snippets[Callee] == [])
            && (n == Dropped(Contract) ==> AllShort(c.snippets[Metadata]) && c.memory == [])
            && (n == Dropped(Metadata) ==> c.snippets[Contract] == [] && c.memory == [])
            && (n == Compacted ==> c.snippets[Contract] == c.snippets[Metadata] == [] && c.memory == [])
            && (n == Truncated(Changed) ==> IsCompact(c.graph) && c.memory == []
                                            && c.snippets[Contract] == c.snippets[Metadata] == [])
            && n != Dropped(Changed)
  {
    assert StepAt(t, i, estimate, maxChars);
  }

  /** A step has something to do in its own stage. */
  lemma EffectOpen(c: Content, n: Note, d: Content)
    requires Effect(c, n, d) && Stage(n) < 8
    ensures !Exhausted(c, Stage(n) + 1)
  {
  }

  lemma StepKept(t: Trail, i: nat, estimate: Content -> nat, maxChars: nat)
    requires IsRun(t, estimate, maxChars) && i < |t.steps|
    ensures Kept(t.states[i], t.states[i + 1], [t.steps[i]])
  {
    assert StepAt(t, i, estimate, maxChars);
    EffectKept(t.states[i], t.steps[i], t.states[i + 1]);
  }

  lemma SliceSnoc<T>(s: seq<T>, i: nat, j: nat)
    requires i < j <= |s|
    ensures s[i..j] == s[i..j - 1] + [s[j - 1]]
  {
  }

  /** What happens from the `i`-th pack of a run to its `j`-th is what the notes in between say. */
  lemma {:induction false} RunKept(t: Trail, i: nat, j: nat, estimate: Content -> nat, maxChars: nat)
    requires IsRun(t, estimate, maxChars) && i <= j <= |t.steps|
    ensures Kept(t.states[i], t.states[j], t.steps[i..j])
    decreases j
  {
    if i == j {
      KeptRefl(t.states[i]);
    } else {
      RunKept(t, i, j - 1, estimate, maxChars);
      StepKept(t, j - 1, estimate, maxChars);
      SliceSnoc(t.steps, i, j);
      KeptTransitive(t.states[i], t.states[j - 1], t.states[j], t.steps[i..j - 1], [t.steps[j - 1]]);
    }
  }

  /** A run never goes back to an earlier stage. */
  lemma StagesInOrder(t: Trail, i: nat, j: nat, estimate: Content -> nat, maxChars: nat)
    requires IsRun(t, estimate, maxChars) && i < j < |t.steps|
    ensures Stage(t.steps[i]) <= Stage(t.steps[j])
  {
    var k := Stage(t.steps[i]);
    assert StepAt(t, i, estimate, maxChars);
    RunKept(t, i, j, estimate, maxChars);
    ExhaustedKept(t.states[i], t.states[j], t.steps[i..j], k);
    assert StepAt(t, j, estimate, maxChars);
    if Stage(t.steps[j]) < k {
      EffectOpen(t.states[j], t.steps[j], t.states[j + 1]);
    }
  }

  /** Once a snippet of a group was dropped none of that group is truncated any more. */
  lemma TruncatedBeforeDropped(t: Trail, i: nat, j: nat, l: Label, estimate: Content -> nat, maxChars: nat)
    requires IsRun(t, estimate, maxChars) && i < |t.steps| && j < |t.steps|
    requires t.steps[i] == Dropped(l) && t.steps[j] == Truncated(l)
    ensures j < i
  {
    assert StepAt(t, i, estimate, maxChars);
    assert StepAt(t, j, estimate, maxChars);
    if i < j {
      RunKept(t, i, j, estimate, maxChars);
      assert GroupKept(l, t.states[i].snippets[l], t.states[j].snippets[l], t.steps[i..j]);
      ShrunkShort(l, t.states[i].snippets[l], t.states[j].snippets[l]);
    }
  }

  /** One step takes at most one snippet off a group, and only the step noted as such does. */
  lemma EffectOnGroup(c: Content, n: Note, d: Content, l: Label)
    requires Effect(c, n, d)
    ensures |c.snippets[l]| == |d.snippets[l]| + if n == Dropped(l) then 1 else 0
  {
    EffectKept(c, n, d);
    assert GroupKept(l, c.snippets[l], d.snippets[l], [n]);
    CountOne(n, Dropped(l));
  }

  /** The step by which the `p`-th snippet of a group was dropped. */
  lemma {:induction false} DropOf(t: Trail, j: nat, l: Label, p: nat, estimate: Content -> nat, maxChars: nat)
    returns (i: nat)
    requires IsRun(t, estimate, maxChars) && j <= |t.steps|
    requires |t.states[j].snippets[l]| <= p < |t.states[0].snippets[l]|
    ensures i < j && t.steps[i] == Dropped(l) && |t.states[i].snippets[l]| == p + 1
    decreases j
  {
    assert StepAt(t, j - 1, estimate, maxChars);
    EffectOnGroup(t.states[j - 1], t.steps[j - 1], t.states[j], l);
    if p < |t.states[j - 1].snippets[l]| {
      i := j - 1;
    } else {
      i := DropOf(t, j - 1, l, p, estimate, maxChars);
    }
  }

  /** A snippet that is gone at the end of a run was the last of its group when it was dropped. At that
      moment the pack was over budget, no snippet of the group was over the length that is always kept,
      nothing was left to do in earlier stages, and what was dropped was a part of the original. */
  lemma DroppedLate(t: Trail, l: Label, p: nat, estimate: Content -> nat, maxChars: nat) returns (i: nat)
    requires IsRun(t, estimate, maxChars)
    requires |Last(t).snippets[l]| <= p < |t.states[0].snippets[l]|
    ensures l != Changed && i < |t.steps| && t.steps[i] == Dropped(l)
    ensures estimate(t.states[i]) > maxChars && Exhausted(t.states[i], Stage(Dropped(l)))
    ensures |t.states[i].snippets[l]| == p + 1 && AllShort(t.states[i].snippets[l])
    ensures Derived(l, t.states[0].snippets[l][p], t.states[i].snippets[l][p])
  {
    i := DropOf(t, |t.steps|, l, p, estimate, maxChars);
    assert StepAt(t, i, estimate, maxChars);
    RunKept(t, 0, i, estimate, maxChars);
    assert GroupKept(l, t.states[0].snippets[l], t.states[i].snippets[l], t.steps[0..i]);
  }

  /** A contract snippet is dropped only at a moment when no related-test, reference, callee or memory item
      is left and no contract or metadata snippet is over the length that is always kept. */
  lemma ContractsDroppedLate(t: Trail, p: nat, estimate: Content -> nat, maxChars: nat) returns (i: nat)
    requires IsRun(t, estimate, maxChars)
    requires |Last(t).snippets[Contract]| <= p < |t.states[0].snippets[Contract]|
    ensures i < |t.steps| && t.steps[i] == Dropped(Contract) && |t.states[i].snippets[Contract]| == p + 1
    ensures estimate(t.states[i]) > maxChars
    ensures t.states[i].snippets[RelatedTest] == [] && t.states[i].snippets[Reference] == []
    ensures t.states[i].snippets[Callee] == [] && t.states[i].memory == []
    ensures AllShort(t.states[i].snippets[Contract]) && AllShort(t.states[i].snippets[Metadata])
    ensures Derived(Contract, t.states[0].snippets[Contract][p], t.states[i].snippets[Contract][p])
  {
    i := DroppedLate(t, Contract, p, estimate, maxChars);
  }

  lemma LongestUnique(groups: Groups, allowed: set<Label>, l: Label, i: nat, m: Label, j: nat)
    requires IsLongest(groups, allowed, l, i) && IsLongest(groups, allowed, m, j)
    ensures l == m && i == j
  {
  }

  /** There is never a choice between two steps. */
  lemma StepDetermined(c: Content, n: Note, d: Content, m: Note, e: Content, estimate: Content -> nat, maxChars: nat)
    requires Step(c, n, d, estimate, maxChars) && Step(c, m, e, estimate, maxChars)
    ensures n == m && d == e
  {
    if Stage(n) < 8 { EffectOpen(c, n, d); }
    if Stage(m) < 8 { EffectOpen(c, m, e); }
    assert Stage(n) == Stage(m);
    if n.Truncated? && m.Truncated? {
      var i :| Truncates(c, n.group, i, d);
      var j :| Truncates(c, m.group, j, e);
      LongestUnique(c.snippets, SearchedWith(n.group), n.group, i, m.group, j);
    }
  }

  /** Two runs from one pack take the same steps, as far as both go. */
  lemma {:induction false} RunsAgree(t: Trail, u: Trail, k: nat, estimate: Content -> nat, maxChars: nat)
    requires IsRun(t, estimate, maxChars) && IsRun(u, estimate, maxChars) && t.states[0] == u.states[0]
    requires k <= |t.steps| && k <= |u.steps|
    ensures t.steps[..k] == u.steps[..k] && t.states[k] == u.states[k]
    decreases k
  {
    if k > 0 {
      RunsAgree(t, u, k - 1, estimate, maxChars);
      assert StepAt(t, k - 1, estimate, maxChars) && StepAt(u, k - 1, estimate, maxChars);
      StepDetermined(t.states[k - 1], t.steps[k - 1], t.states[k], u.steps[k - 1], u.states[k], estimate, maxChars);
      SliceSnoc(t.steps, 0, k);
      SliceSnoc(u.steps, 0, k);
    }
  }

  // ------------------------------------------------------------------ making a run

  ghost predicate AllBelow(steps: seq<Note>, k: nat) {
    forall i :: 0 <= i < |steps| ==> Stage(steps[i]) < k
  }

  /** A run to the pack `c` with steps of stages before `k`. If it is over budget the stages before `done`
      are exhausted. */
  ghost predicate Reached(t: Trail, c: Content, k: nat, done: nat, estimate: Content -> nat, maxChars: nat) {
    && IsRun(t, estimate, maxChars) && Last(t) == c && AllBelow(t.steps, k)
    && (estimate(c) > maxChars ==> Exhausted(c, done))
  }

  ghost predicate Grows(t: Trail, u: Trail) {
    u.base == t.base && t.states <= u.states && t.steps <= u.steps
  }

  /** `u` goes on from `t` with steps of stage `k`. */
  ghost predicate Follows(t: Trail, u: Trail, k: nat) {
    Grows(t, u) && forall i :: |t.steps| <= i < |u.steps| ==> Stage(u.steps[i]) == k
  }

  function Extend(t: Trail, n: Note, c: Content): Trail {
    Trail(t.base, t.states + [c], t.steps + [n])
  }

  lemma RunExtended(t: Trail, c: Content, n: Note, d: Content, k: nat, estimate: Content -> nat, maxChars: nat)
    requires Reached(t, c, k + 1, k, estimate, maxChars)
    requires estimate(c) > maxChars && Effect(c, n, d) && Stage(n) == k
    ensures Reached(Extend(t, n, d), d, k + 1, k, estimate, maxChars)
  {
    EffectKept(c, n, d);
    ExhaustedKept(c, d, [n], k);
    var u := Extend(t, n, d);
    forall i | 0 <= i < |u.steps| ensures StepAt(u, i, estimate, maxChars) {
      if i < |t.steps| { assert StepAt(t, i, estimate, maxChars); }
    }
  }

  /** One more step of stage `k` after those from `s` to `t`. */
  lemma OneMoreStep(s: Trail, t: Trail, c: Content, n: Note, d: Content, k: nat, estimate: Content -> nat,
                    maxChars: nat)
    requires Reached(t, c, k + 1, k, estimate, maxChars) && Follows(s, t, k)
    requires estimate(c) > maxChars && Effect(c, n, d) && Stage(n) == k
    ensures var u := Extend(t, n, d);
            && Reached(u, d, k + 1, k, estimate, maxChars) && Follows(s, u, k)
            && u.base + u.steps == (t.base + t.steps) + [n]
  {
    RunExtended(t, c, n, d, k, estimate, maxChars);
  }

  lemma ReachedStart(t: Trail, estimate: Content -> nat, maxChars: nat)
    requires |t.states| == 1 && t.steps == []
    ensures Reached(t, t.states[0], 0, 0, estimate, maxChars)
  {
  }

  lemma {:induction false} CountAbsent(notes: seq<Note>, n: Note)
    requires AllBelow(notes, Stage(n))
    ensures Count(notes, n) == 0
    decreases |notes|
  {
    if notes != [] { CountAbsent(notes[..|notes| - 1], n); }
  }

  lemma OneMore(notes: seq<Note>, m: Note, n: Note)
    ensures Count(notes + [m], n) == Count(notes, n) + if m == n then 1 else 0
  {
    CountConcat(notes, [m], n);
    CountOne(m, n);
  }

  // ------------------------------------------------------------------ the pack

  class ContextPack {
    var snippets: Groups
    var memory: seq<Card>
    var omissions: seq<Card>
    var graph: Graph
    /** What was done to fit the budget. */
    var notes: seq<Note>

    constructor (content: Content)
      ensures Current() == content && notes == []
    {
      snippets, memory, omissions, graph := content.snippets, content.memory, content.omissions, content.graph;
      notes := [];
    }

    function Current(): Content
      reads this
    {
      Content(snippets, memory, omissions, graph)
    }

    /** The run `t` led here, through stages before `k`, and its notes are those of the pack. */
    ghost predicate At(t: Trail, k: nat, done: nat, estimate: Content -> nat, maxChars: nat)
      reads this
    {
      notes == t.base + t.steps && Reached(t, Current(), k, done, estimate, maxChars)
    }

    /** Truncates the longest allowed snippet over the length that is always kept, if there is one. */
    method TruncateLongest(allowed: set<Label>) returns (ok: bool, ghost l: Label, ghost i: nat)
      modifies `snippets, `notes
      ensures !ok ==> Current() == old(Current()) && notes == old(notes)
      ensures !ok ==> forall m :: m in allowed ==> AllShort(snippets[m])
      ensures ok ==> IsLongest(old(snippets), allowed, l, i) && notes == old(notes) + [Truncated(l)]
      ensures ok ==> snippets == old(snippets)[l := old(snippets)[l][i := Truncate(l, old(snippets)[l][i])]]
      ensures ok ==> GroupSize(snippets[l]) < GroupSize(old(snippets)[l])
    {
      var found, group, index := FindLongest(snippets, allowed);
      ok, l, i := found, group, index;
      if found {
        TruncationStep(Current(), group, index);
        snippets := snippets[group := snippets[group][index := Truncate(group, snippets[group][index])]];
        notes := notes + [Truncated(group)];
      }
    }

    method DropLast(l: Label)
      requires snippets[l] != [] && AllShort(snippets[l]) && l != Changed
      modifies `snippets, `notes
      ensures Effect(old(Current()), Dropped(l), Current()) && notes == old(notes) + [Dropped(l)]
      ensures GroupSize(snippets[l]) < GroupSize(old(snippets)[l])
    {
      DropStep(Current(), l);
      snippets := snippets[l := snippets[l][..|snippets[l]| - 1]];
      notes := notes + [Dropped(l)];
    }

    /** Truncates the longest snippet of a group, or drops its last one when all are short. */
    method TruncateOrDrop(l: Label) returns (ghost note: Note)
      requires l in {RelatedTest, Reference, Callee} && snippets[l] != []
      modifies `snippets, `notes
      ensures note == if AllShort(old(snippets)[l]) then Dropped(l) else Truncated(l)
      ensures Effect(old(Current()), note, Current()) && notes == old(notes) + [note]
      ensures GroupSize(snippets[l]) < GroupSize(old(snippets)[l])
    {
      ghost var before := Current();
      var ok, _, i := TruncateLongest({l});
      if ok {
        note := Truncated(l);
        assert Truncates(before, l, i, Current());
      } else {
        assert AllShort(snippets[l]);
        DropLast(l);
        note := Dropped(l);
      }
    }

    /** Truncates and then drops the snippets of one group while the pack is over budget. */
    method FitGroup(l: Label, estimate: Content -> nat, maxChars: nat, ghost t: Trail) returns (ghost u: Trail)
      requires l in {RelatedTest, Reference, Callee}
      requires At(t, Stage(Dropped(l)), Stage(Dropped(l)), estimate, maxChars)
      modifies `snippets, `notes
      ensures At(u, Stage(Dropped(l)) + 1, Stage(Dropped(l)) + 1, estimate, maxChars)
        && Follows(t, u, Stage(Dropped(l)))
    {
      u := t;
      ghost var k := Stage(Dropped(l));
      while snippets[l] != [] && estimate(Current()) > maxChars
        invariant At(u, k + 1, k, estimate, maxChars) && Follows(t, u, k)
        decreases GroupSize(snippets[l])
      {
        ghost var before := Current();
        ghost var note := TruncateOrDrop(l);
        OneMoreStep(t, u, before, note, Current(), k, estimate, maxChars);
        u := Extend(u, note, Current());
      }
    }

    /** Drops the snippets of one group while the pack is over budget. */
    method DropGroup(l: Label, estimate: Content -> nat, maxChars: nat, ghost t: Trail) returns (ghost u: Trail)
      requires l in {Contract, Metadata}
      requires At(t, Stage(Dropped(l)), Stage(Dropped(l)), estimate, maxChars)
      modifies `snippets, `notes
      ensures At(u, Stage(Dropped(l)) + 1, Stage(Dropped(l)) + 1, estimate, maxChars)
        && Follows(t, u, Stage(Dropped(l)))
    {
      u := t;
      ghost var k := Stage(Dropped(l));
      while snippets[l] != [] && estimate(Current()) > maxChars
        invariant At(u, k + 1, k, estimate, maxChars) && Follows(t, u, k)
        decreases GroupSize(snippets[l])
      {
        ghost var before := Current();
        DropLast(l);
        OneMoreStep(t, u, before, Dropped(l), Current(), k, estimate, maxChars);
        u := Extend(u, Dropped(l), Current());
      }
    }

    /** Drops memory cards from the end while the pack is over budget. */
    method DropMemory(estimate: Content -> nat, maxChars: nat, ghost t: Trail) returns (ghost u: Trail)
      requires At(t, 3, 3, estimate, maxChars)
      modifies `memory, `omissions, `notes
      ensures At(u, 4, 4, estimate, maxChars) && Follows(t, u, 3)
    {
      u := t;
      while memory != [] && estimate(Current()) > maxChars
        invariant At(u, 4, 3, estimate, maxChars) && Follows(t, u, 3)
        decreases |memory|
      {
        ghost var before := Current();
        var dropped := memory[|memory| - 1];
        memory := memory[..|memory| - 1];
        omissions := omissions + [dropped];
        notes := notes + [DroppedMemory];
        OneMoreStep(t, u, before, DroppedMemory, Current(), 3, estimate, maxChars);
        u := Extend(u, DroppedMemory, Current());
      }
    }

    /** Truncates contract and metadata snippets while the pack is over budget. */
    method TruncateContracts(estimate: Content -> nat, maxChars: nat, ghost t: Trail) returns (ghost u: Trail)
      requires At(t, 4, 4, estimate, maxChars)
      modifies `snippets, `notes
      ensures At(u, 5, 5, estimate, maxChars) && Follows(t, u, 4)
    {
      u := t;
      while estimate(Current()) > maxChars
        invariant At(u, 5, 4, estimate, maxChars) && Follows(t, u, 4)
        decreases GroupSize(snippets[Contract]) + GroupSize(snippets[Metadata])
      {
        ghost var before := Current();
        var ok, l, i := TruncateLongest({Contract, Metadata});
        if !ok {
          break;
        }
        assert Truncates(before, l, i, Current());
        OneMoreStep(t, u, before, Truncated(l), Current(), 4, estimate, maxChars);
        u := Extend(u, Truncated(l), Current());
      }
    }

    /** Clears the edges of the graph; says whether there were any. */
    method CompactAnalyzerGraph() returns (changed: bool)
      modifies `graph, `notes
      ensures graph == CompactGraph(old(graph)) && (changed <==> !IsCompact(old(graph)))
      ensures notes == if changed then old(notes) + [Compacted] else old(notes)
    {
      CompactTwice(graph);
      changed := HasEdges(graph.edges);
      var symbol := graph.symbol;
      if symbol.Some? && HasEdges(symbol.value.edges) {
        symbol := Some(CompactSymbol(symbol.value));
        changed := true;
      }
      var compacted: seq<Symbol> := [];
      for k := 0 to |graph.symbols|
        invariant |compacted| == k && forall j :: 0 <= j < k ==> compacted[j] == CompactSymbol(graph.symbols[j])
        invariant changed <==> HasEdges(graph.edges) || (graph.symbol.Some? && HasEdges(graph.symbol.value.edges)) ||
                               exists j :: 0 <= j < k && HasEdges(graph.symbols[j].edges)
        invariant graph == old(graph) && notes == old(notes)
      {
        if HasEdges(graph.symbols[k].edges) {
          compacted := compacted + [CompactSymbol(graph.symbols[k])];
          changed := true;
        } else {
          compacted := compacted + [graph.symbols[k]];
        }
      }
      assert compacted == CompactGraph(old(graph)).symbols;
      if changed {
        graph := Graph(NO_EDGES, symbol, compacted);
        notes := notes + [Compacted];
      }
    }

    /** Clears the edges of the graph if the pack is over budget. */
    method CompactIfOver(estimate: Content -> nat, maxChars: nat, ghost t: Trail) returns (ghost u: Trail)
      requires At(t, 7, 7, estimate, maxChars)
      modifies `graph, `notes
      ensures At(u, 8, 8, estimate, maxChars) && Follows(t, u, 7)
    {
      u := t;
      if estimate(Current()) > maxChars {
        ghost var before := Current();
        CompactTwice(graph);
        var changed := CompactAnalyzerGraph();
        if changed {
          OneMoreStep(t, u, before, Compacted, Current(), 7, estimate, maxChars);
          u := Extend(u, Compacted, Current());
        }
      }
    }

    /** Truncates whatever is longest, at most 65 times. */
    method TruncateAny(estimate: Content -> nat, maxChars: nat, ghost t: Trail) returns (ghost u: Trail)
      requires At(t, 8, 8, estimate, maxChars)
      modifies `snippets, `notes
      ensures At(u, 9, 8, estimate, maxChars) && Follows(t, u, 8)
      ensures Count(u.steps, Truncated(Changed)) <= 65
      ensures estimate(Current()) > maxChars ==>
        AllShort(snippets[Changed]) || Count(u.steps, Truncated(Changed)) == 65
    {
      u := t;
      CountAbsent(t.steps, Truncated(Changed));
      var iterations := 0;
      while estimate(Current()) > maxChars
        invariant At(u, 9, 8, estimate, maxChars) && Follows(t, u, 8)
        invariant iterations == Count(u.steps, Truncated(Changed)) <= 64
        decreases 64 - iterations
      {
        ghost var before := Current();
        var ok, l, i := TruncateLongest(SearchedWith(Changed));
        if !ok {
          break;
        }
        assert l == Changed && Truncates(before, l, i, Current());
        OneMoreStep(t, u, before, Truncated(l), Current(), 8, estimate, maxChars);
        OneMore(u.steps, Truncated(l), Truncated(Changed));
        u := Extend(u, Truncated(l), Current());
        iterations := iterations + 1;
        if iterations > 64 {
          break;
        }
      }
    }

    method DropContext(estimate: Content -> nat, maxChars: nat, ghost t: Trail) returns (ghost u: Trail)
      requires At(t, 0, 0, estimate, maxChars)
      modifies this
      ensures At(u, 4, 4, estimate, maxChars) && Grows(t, u)
    {
      ghost var tests := FitGroup(RelatedTest, estimate, maxChars, t);
      ghost var references := FitGroup(Reference, estimate, maxChars, tests);
      ghost var callees := FitGroup(Callee, estimate, maxChars, references);
      u := DropMemory(estimate, maxChars, callees);
    }

    method DropContracts(estimate: Content -> nat, maxChars: nat, ghost t: Trail) returns (ghost u: Trail)
      requires At(t, 4, 4, estimate, maxChars)
      modifies this
      ensures At(u, 8, 8, estimate, maxChars) && Grows(t, u)
    {
      ghost var truncated := TruncateContracts(estimate, maxChars, t);
      ghost var contracts := DropGroup(Contract, estimate, maxChars, truncated);
      ghost var metadata := DropGroup(Metadata, estimate, maxChars, contracts);
      u := CompactIfOver(estimate, maxChars, metadata);
    }

    /** Fits the pack into its budget by a run of steps, each taken over budget and in its stage. A pack still
        over budget has been stripped to its changed snippets. */
    method EnforceCharBudget(estimate: Content -> nat, maxChars: nat) returns (ghost t: Trail)
      modifies this
      ensures IsRun(t, estimate, maxChars) && t.states[0] == old(Current()) && Last(t) == Current()
      ensures notes == old(notes) + t.steps + if estimate(Current()) > maxChars then [StillOver] else []
      ensures Kept(old(Current()), Current(), t.steps)
      ensures estimate(Current()) > maxChars ==> Exhausted(Current(), 8)
      ensures estimate(Current()) > maxChars ==>
        AllShort(snippets[Changed]) || Count(t.steps, Truncated(Changed)) == 65
    {
      ghost var start := Trail(notes, [Current()], []);
      t := start;
      KeptRefl(Current());
      if estimate(Current()) <= maxChars {
        return;
      }
      ReachedStart(start, estimate, maxChars);
      ghost var context := DropContext(estimate, maxChars, start);
      ghost var contracts := DropContracts(estimate, maxChars, context);
      t := TruncateAny(estimate, maxChars, contracts);
      RunKept(t, 0, |t.steps|, estimate, maxChars);
      assert t.steps[0..|t.steps|] == t.steps;
      if estimate(Current()) > maxChars {
        notes := notes + [StillOver];
      }
    }
  }
}
