/**
 A value of which the runtime's traversal loses a target without noting its limit.
 */
module UnnoticedCut {
  import opened BoundedExpansion
  import opened BoundedWalk
  import opened Collections
  import opened ExportOrder
  import opened ExportSelection
  import opened ExportTexts
  import opened ExportTraversal
  import opened RuntimeExports
  import opened Wrappers

  // ------------------------------------------------------------------ a string lost without a note

  function Copies(x: Json, n: nat): (r: seq<Json>)
    ensures |r| == n && forall i :: 0 <= i < n ==> r[i] == x
  {
    seq(n, i => x)
  }

  /** Many equal strings and then an object with a preferred and another condition. */
  function TwoConditionsLast(n: nat): Json {
    Arr(Copies(Str(FromString("a")), n) +
        [Obj([FromString("types"), FromString("custom")], [Str(FromString("a")), Str(FromString("b"))])])
  }

  lemma StringOff(rest: seq<Json>, x: Json, preferred: seq<Text>, room: nat)
    requires x.Str?
    ensures Walk(rest + [x], preferred, room) == [x] + Walk(rest, preferred, room)
    ensures Noted(rest + [x], preferred, room) <==> Noted(rest, preferred, room)
  {
    var pending := rest + [x];
    assert pending[..|pending| - 1] == rest && rest + Backwards([]) == rest;
    WalkStep(pending, preferred, room, rest, room);
    NotedStep(pending, preferred, room, rest, room);
  }

  lemma OneMoreCopy(rest: seq<Json>, x: Json, n: nat)
    requires n > 0
    ensures rest + Copies(x, n) == (rest + Copies(x, n - 1)) + [x]
    ensures Copies(x, n) + rest == [x] + (Copies(x, n - 1) + rest)
  {
  }

  /** Strings come off the stack one by one. */
  lemma {:induction false} WalkCopies(rest: seq<Json>, x: Json, n: nat, preferred: seq<Text>, room: nat)
    requires x.Str?
    ensures Walk(rest + Copies(x, n), preferred, room) == Copies(x, n) + Walk(rest, preferred, room)
    ensures Noted(rest + Copies(x, n), preferred, room) <==> Noted(rest, preferred, room)
    decreases n
  {
    if n == 0 {
      assert rest + Copies(x, 0) == rest && Copies(x, 0) + Walk(rest, preferred, room) == Walk(rest, preferred, room);
    } else {
      OneMoreCopy(rest, x, n);
      StringOff(rest + Copies(x, n - 1), x, preferred, room);
      WalkCopies(rest, x, n - 1, preferred, room);
      OneMoreCopy(Walk(rest, preferred, room), x, n);
    }
  }

  const A := FromString("a")
  const B := FromString("b")

  const TWO_CONDITIONS := Obj([FromString("types"), FromString("custom")], [Str(A), Str(B)])

  /** The first key is preferred, the second is not. */
  lemma TwoKeys(keys: seq<Text>)
    requires keys == [FromString("types"), FromString("custom")]
    ensures keys[0] == PREFERRED[0] && keys[1] !in PREFERRED && KeyIndex(keys, PREFERRED[0]) == Some(0)
    ensures forall n :: 1 <= n < 6 ==> KeyIndex(keys, PREFERRED[n]) == None
  {
    var types, custom := keys[0], keys[1];
    assert types[0] == 116 && custom[0] == 99;
    assert |PREFERRED[1]| == 7 && PREFERRED[2][0] == 105 && PREFERRED[3][0] == 100 && PREFERRED[4][0] == 114
      && PREFERRED[5][0] == 110;
    assert forall n :: 1 <= n < 6 ==> PREFERRED[n] !in keys;
  }

  lemma TwoConditions(values: seq<Json>)
    requires |values| == 2
    ensures var keys := [FromString("types"), FromString("custom")];
            && FirstChildren(keys, values, PREFERRED, |PREFERRED|) == [values[0]]
            && OtherChildren(keys, values, PREFERRED, |keys|) == [values[1]]
  {
    var keys := [FromString("types"), FromString("custom")];
    TwoKeys(keys);
    assert keys[0] in PREFERRED;
    assert FirstChildren(keys, values, PREFERRED, 1) == [] + [values[0]];
    assert FirstChildren(keys, values, PREFERRED, 3) == [values[0]];
    assert FirstChildren(keys, values, PREFERRED, 5) == [values[0]];
    assert OtherChildren(keys, values, PREFERRED, 1) == [];
  }

  lemma TwoProper()
    ensures Proper(TWO_CONDITIONS)
  {
    assert TWO_CONDITIONS.keys[0][0] != TWO_CONDITIONS.keys[1][0];
  }

  lemma TwoChildren()
    ensures OrderedChildren(TWO_CONDITIONS, PREFERRED) == [Str(A), Str(B)]
    ensures Pushed(TWO_CONDITIONS, PREFERRED, 1) == [Str(A)] && !NotedAt(TWO_CONDITIONS, PREFERRED, 1)
  {
    TwoConditions([Str(A), Str(B)]);
    assert [Str(A)] + [Str(B)] == [Str(A), Str(B)];
    assert [Str(A), Str(B)][..1] == [Str(A)];
  }

  lemma OneString()
    ensures Walk([Str(A)], PREFERRED, 0) == [Str(A)] && !Noted([Str(A)], PREFERRED, 0)
  {
    assert [] + [Str(A)] == [Str(A)];
    StringOff([], Str(A), PREFERRED, 0);
    assert [Str(A)] + [] == [Str(A)];
  }

  /** With room for one child only the preferred one is visited, and no limit is noted. */
  lemma TwoConditionsCut()
    ensures Walk([TWO_CONDITIONS], PREFERRED, 1) == [TWO_CONDITIONS, Str(A)] && !Noted([TWO_CONDITIONS], PREFERRED, 1)
  {
    var stack, next := [TWO_CONDITIONS], [Str(A)];
    TwoChildren();
    assert stack[..0] + Backwards(next) == next;
    WalkStep(stack, PREFERRED, 1, next, 0);
    NotedStep(stack, PREFERRED, 1, next, 0);
    OneString();
    assert [TWO_CONDITIONS] + next == [TWO_CONDITIONS, Str(A)];
  }

  lemma ValueCut(n: nat)
    ensures var value := TwoConditionsLast(n);
            && Visited(value, PREFERRED, n + 3) == [value] + (Copies(Str(A), n) + [TWO_CONDITIONS, Str(A)])
            && !VisitNoted(value, PREFERRED, n + 3)
  {
    var value := TwoConditionsLast(n);
    var next := [TWO_CONDITIONS] + Copies(Str(A), n);
    assert Backwards(value.items) == next && [value][..0] + next == next;
    assert Pushed(value, PREFERRED, n + 2) == value.items;
    WalkStep([value], PREFERRED, n + 2, next, 1);
    NotedStep([value], PREFERRED, n + 2, next, 1);
    WalkCopies([TWO_CONDITIONS], Str(A), n, PREFERRED, 1);
    TwoConditionsCut();
  }

  lemma {:induction false} OnlyA(vs: seq<Json>)
    requires forall i :: 0 <= i < |vs| && vs[i].Str? ==> vs[i] == Str(A)
    ensures forall i :: 0 <= i < |Texts(vs)| ==> Texts(vs)[i] == A
    decreases |vs|
  {
    if vs != [] { OnlyA(vs[..|vs| - 1]); }
  }

  lemma {:induction false} FirstOfSame(s: seq<Text>, x: Text)
    requires s != [] && forall i :: 0 <= i < |s| ==> s[i] == x
    ensures FirstOccurrences(s) == [x]
    decreases |s|
  {
    if |s| > 1 {
      FirstOfSame(s[..|s| - 1], x);
      assert s[|s| - 1] == s[..|s| - 1][0];
    } else {
      assert s[..0] == [];
    }
  }

  /** What is visited of the value holds no string but "a". */
  lemma CutTargets(n: nat)
    ensures var targets := BoundedTargets([Selected(TwoConditionsLast(n), None)], 1, n + 3);
            && targets != [] && (forall i :: 0 <= i < |targets| ==> targets[i] == A)
            && !BoundedNoted([Selected(TwoConditionsLast(n), None)], 1, n + 3)
  {
    var value := TwoConditionsLast(n);
    var selected := [Selected(value, None)];
    ValueCut(n);
    var visited := [value] + (Copies(Str(A), n) + [TWO_CONDITIONS, Str(A)]);
    assert RoomAfter(selected, 0, n + 3) == n + 3 && VisitedAt(selected, 0, n + 3) == visited;
    OnlyA(visited);
    TextsMembers(visited);
    assert visited[|visited| - 1] == Str(A);
    assert BoundedTargets(selected, 1, n + 3) == [] + Targets(visited, None);
    assert A in Texts(visited);
  }

  lemma OtherVisited(n: nat)
    ensures Str(B) in Visits(TwoConditionsLast(n), PREFERRED)
  {
    TwoChildren();
    VisitsOf(TwoConditionsLast(n), PREFERRED);
    ListVisitsSnoc(Copies(Str(A), n), TWO_CONDITIONS, PREFERRED);
    VisitsOf(TWO_CONDITIONS, PREFERRED);
    assert [Str(A)] + [Str(B)] == [Str(A), Str(B)];
    ListVisitsSnoc([Str(A)], Str(B), PREFERRED);
    assert Str(B) in Visits(Str(B), PREFERRED);
  }

  /** The string of the other condition is a target all the same. */
  lemma LostTarget(n: nat)
    ensures B in AllTargets([Selected(TwoConditionsLast(n), None)], 1) && Proper(TwoConditionsLast(n))
  {
    var visits := Visits(TwoConditionsLast(n), PREFERRED);
    TwoProper();
    OtherVisited(n);
    TextsMembers(visits);
    assert AllTargets([Selected(TwoConditionsLast(n), None)], 1) == [] + Targets(visits, None);
    var i :| 0 <= i < |Texts(visits)| && Texts(visits)[i] == B;
    assert Targets(visits, None)[i] == B;
  }

  lemma AllSame(results: seq<Text>, targets: seq<Text>)
    requires AllFrom(results, targets) && forall i :: 0 <= i < |targets| ==> targets[i] == A
    ensures forall i :: 0 <= i < |results| ==> results[i] == A
    ensures |results| > 1 ==> results[0] == results[1]
  {
  }

  lemma OnlyOne(results: seq<Text>, targets: seq<Text>)
    requires AllFrom(results, targets) && forall i :: 0 <= i < |targets| ==> targets[i] == A
    requires forall i, j :: 0 <= i < j < |results| ==> results[i] != results[j]
    ensures |results| <= 1 && Lengths(results) <= 1 && ByteLength(A) == 1
  {
    AllSame(results, targets);
    assert A == [97] && A[..0] == [];
    if |results| == 1 { assert results[..0] == []; }
  }

  lemma OutcomeOfSame(selected: seq<Selected>, room: nat, targets: seq<Text>, results: seq<Text>, refused: bool,
                      left: Allowance, limited: bool)
    requires Outcome(selected, room, results, refused, left, false, limited)
    requires targets == BoundedTargets(selected, |selected|, room) && !BoundedNoted(selected, |selected|, room)
    requires targets != [] && forall i :: 0 <= i < |targets| ==> targets[i] == A
    requires left == Allowance(512 - |results|, 65536, 4194304 - Lengths(results))
    ensures results == [A] && !limited
  {
    OnlyOne(results, targets);
    FirstOfSame(targets, A);
  }

  lemma CutOutcome(n: nat, selected: seq<Selected>, results: seq<Text>, refused: bool, left: Allowance, limited: bool)
    requires selected == [Selected(TwoConditionsLast(n), None)]
    requires Outcome(selected, n + 3, results, refused, left, false, limited)
    requires left == Allowance(512 - |results|, 65536, 4194304 - Lengths(results))
    ensures results == [A] && !limited
  {
    CutTargets(n);
    OutcomeOfSame(selected, n + 3, BoundedTargets(selected, 1, n + 3), results, refused, left, limited);
  }

  /** Whatever the traversal limit is, some value under "." loses a target and no limit is noted. The
      program's own limits are these, with 4096 entries. */
  method OthersLeftOutUnnoticed(maxTraversalEntries: nat) returns (value: Json, results: seq<Text>, limited: bool)
    requires maxTraversalEntries >= 3
    ensures Proper(value) && B in AllTargets(Selection(value, [DOT]), |Selection(value, [DOT])|)
    ensures results == [A] && !limited
  {
    var budget := new Budget(512, 65536, 4194304, maxTraversalEntries);
    value := TwoConditionsLast(maxTraversalEntries - 3);
    LostTarget(maxTraversalEntries - 3);
    assert Selection(value, [DOT]) == [Selected(value, None)];
    ghost var refused;
    results, refused := PackageExportTargetsForKey(value, [DOT], budget);
    limited := budget.limited;
    CutOutcome(maxTraversalEntries - 3, [Selected(value, None)], results, refused, budget.Left(), limited);
  }
}
