/**
 The analyzer runtime's own traversal of package `exports` (package-info.ts) under an expansion budget.
 */
module RuntimeExports {
  import opened BoundedExpansion
  import opened BoundedWalk
  import opened Collections
  import opened ExportOrder
  import opened ExportSelection
  import opened ExportTexts
  import opened ExportTraversal
  import opened Wrappers

  // ------------------------------------------------------------------ collecting the children of a value

  function Room(budget: Budget): int
    reads budget
  {
    budget.maxTraversalEntries - budget.traversedEntries
  }

  method CollectItems(items: seq<Json>, budget: Budget) returns (children: seq<Json>)
    requires budget.Valid()
    modifies budget`traversedEntries, budget`limited
    ensures budget.Valid()
    ensures var room := budget.maxTraversalEntries - old(budget.traversedEntries);
            && children == items[..Min(room, |items|)]
            && budget.traversedEntries == old(budget.traversedEntries) + |children|
            && budget.limited == (old(budget.limited) || room < |items|)
  {
    children := [];
    for i := 0 to |items|
      invariant budget.Valid() && children == items[..i]
      invariant budget.traversedEntries == old(budget.traversedEntries) + i && budget.limited == old(budget.limited)
    {
      var ok := budget.ReserveTraversal();
      if !ok {
        return;
      }
      children := children + [items[i]];
    }
  }

  lemma {:induction false} FirstChildrenGrow(keys: seq<Text>, values: seq<Json>, preferred: seq<Text>, n: nat, m: nat)
    requires |keys| == |values| && n <= m <= |preferred|
    ensures FirstChildren(keys, values, preferred, n) <= FirstChildren(keys, values, preferred, m)
    decreases m
  {
    if n < m { FirstChildrenGrow(keys, values, preferred, n, m - 1); }
  }

  lemma {:induction false} OtherChildrenGrow(keys: seq<Text>, values: seq<Json>, preferred: seq<Text>, n: nat, m: nat)
    requires n <= m <= |keys| == |values|
    ensures OtherChildren(keys, values, preferred, n) <= OtherChildren(keys, values, preferred, m)
    decreases m
  {
    if n < m { OtherChildrenGrow(keys, values, preferred, n, m - 1); }
  }

  method CollectFirst(keys: seq<Text>, values: seq<Json>, preferred: seq<Text>, budget: Budget)
    returns (children: seq<Json>)
    requires budget.Valid() && |keys| == |values|
    modifies budget`traversedEntries, budget`limited
    ensures budget.Valid()
    ensures var all, room := FirstChildren(keys, values, preferred, |preferred|),
      budget.maxTraversalEntries - old(budget.traversedEntries);
            && children == all[..Min(room, |all|)]
            && budget.traversedEntries == old(budget.traversedEntries) + |children|
            && budget.limited == (old(budget.limited) || room < |all|)
  {
    children := [];
    for n := 0 to |preferred|
      invariant budget.Valid() && children == FirstChildren(keys, values, preferred, n)
      invariant budget.traversedEntries == old(budget.traversedEntries) + |children|
        && budget.limited == old(budget.limited)
    {
      FirstChildrenGrow(keys, values, preferred, n + 1, |preferred|);
      var at := KeyIndex(keys, preferred[n]);
      if at.None? {
        continue;
      }
      var ok := budget.ReserveTraversal();
      if !ok {
        return;
      }
      children := children + [values[at.value]];
    }
  }

  method CollectOthers(keys: seq<Text>, values: seq<Json>, preferred: seq<Text>, budget: Budget)
    returns (children: seq<Json>)
    requires budget.Valid() && |keys| == |values|
    modifies budget`traversedEntries, budget`limited
    ensures budget.Valid()
    ensures var all, room := OtherChildren(keys, values, preferred, |keys|),
      budget.maxTraversalEntries - old(budget.traversedEntries);
            && children == all[..Min(room, |all|)]
            && budget.traversedEntries == old(budget.traversedEntries) + |children|
            && budget.limited == (old(budget.limited) || room < |all|)
  {
    children := [];
    for n := 0 to |keys|
      invariant budget.Valid() && children == OtherChildren(keys, values, preferred, n)
      invariant budget.traversedEntries == old(budget.traversedEntries) + |children|
        && budget.limited == old(budget.limited)
    {
      OtherChildrenGrow(keys, values, preferred, n + 1, |keys|);
      if keys[n] in preferred {
        continue;
      }
      var ok := budget.ReserveTraversal();
      if !ok {
        return;
      }
      children := children + [values[n]];
    }
  }

  /** As many children as there is room for, preferred keys first. The limit is noted when they do not all
      fit, unless the preferred ones use up the room exactly: then the others are left out unnoticed. */
  method CollectMembers(keys: seq<Text>, values: seq<Json>, preferred: seq<Text>, budget: Budget)
    returns (children: seq<Json>)
    requires budget.Valid() && |keys| == |values|
    modifies budget`traversedEntries, budget`limited
    ensures budget.Valid()
    ensures var all, room := OrderedChildren(Obj(keys, values), preferred),
      budget.maxTraversalEntries - old(budget.traversedEntries);
            && children == all[..Min(room, |all|)]
            && budget.traversedEntries == old(budget.traversedEntries) + |children|
            && budget.limited == (old(budget.limited)
                                  || (room < |all| && room != |FirstChildren(keys, values, preferred, |preferred|)|))
  {
    children := CollectFirst(keys, values, preferred, budget);
    if budget.traversedEntries < budget.maxTraversalEntries {
      var others := CollectOthers(keys, values, preferred, budget);
      children := children + others;
    }
  }

  // ------------------------------------------------------------------ retaining targets

  function Lengths(targets: seq<Text>): nat {
    if targets == [] then 0 else Lengths(targets[..|targets| - 1]) + ByteLength(targets[|targets| - 1])
  }

  ghost predicate Knows(known: set<Text>, offered: seq<Text>) {
    forall x :: x in known <==> x in FirstOccurrences(offered)
  }

  /** The results are the new targets of what was offered since. */
  ghost predicate Added(offered: seq<Text>, now: seq<Text>, known: set<Text>, results: seq<Text>) {
    Knows(known, now) && FirstOccurrences(now) == FirstOccurrences(offered) + results
  }

  lemma AddedSnoc(offered: seq<Text>, now: seq<Text>, known: set<Text>, results: seq<Text>, target: Text)
    requires Added(offered, now, known, results)
    ensures target in known ==> Added(offered, now + [target], known, results)
    ensures target !in known ==> Added(offered, now + [target], known + {target}, results + [target])
    ensures Lengths(results + [target]) == Lengths(results) + ByteLength(target)
  {
    FirstOccurrencesSnoc(now, target);
    assert (results + [target])[..|results|] == results;
  }

  predicate Turned(target: Text, wildcard: Option<Text>, known: set<Text>, left: Allowance) {
    !left.Takes(ByteLength(target)) && (wildcard.None? ==> target !in known)
  }

  /** One of the targets was refused, and there is still no room for it. */
  ghost predicate SomeRefused(targets: seq<Text>, wildcard: Option<Text>, known: set<Text>, left: Allowance) {
    exists i :: 0 <= i < |targets| && Turned(targets[i], wildcard, known, left)
  }

  /** One string: its target is kept when it is new and fits, and charged its length; a new one that does
      not fit is refused. */
  ghost predicate OfferOutcome(target: Text, wildcard: Option<Text>, known: set<Text>, results: seq<Text>,
                               left: Allowance,
                               nextKnown: set<Text>, nextResults: seq<Text>, nextLeft: Allowance, refused: bool) {
    var size := ByteLength(target);
    if target !in known && left.Takes(size) then
      && nextKnown == known + {target} && nextResults == results + [target] && !refused
      && nextLeft == Allowance(left.results - 1, left.each, left.bytes - size)
    else
      && nextKnown == known && nextResults == results && nextLeft == left
      && (target !in known ==> refused) && (refused ==> Turned(target, wildcard, known, left))
  }

  method OfferText(text: Text, wildcard: Option<Text>, budget: Budget, known: set<Text>, results: seq<Text>)
    returns (nextKnown: set<Text>, nextResults: seq<Text>, ghost refused: bool)
    requires budget.Valid()
    modifies budget`retainedResults, budget`retainedBytes, budget`limited
    ensures budget.Valid() && budget.limited == (old(budget.limited) || refused)
    ensures OfferOutcome(Expanded(text, wildcard), wildcard, known, results, old(budget.Left()),
                         nextKnown, nextResults, budget.Left(), refused)
  {
    nextKnown, nextResults, refused := known, results, false;
    if wildcard.None? {
      if text !in known {
        var ok := budget.ReserveResult(ByteLength(text));
        if ok {
          nextKnown, nextResults := known + {text}, results + [text];
        }
        refused := !ok;
      }
    } else {
      ghost var target := Expanded(text, wildcard);
      var expanded := budget.WildcardSubstitution(text, wildcard.value, known);
      if expanded.Some? {
        nextKnown, nextResults := known + {expanded.value}, results + [expanded.value];
      }
      refused := expanded.None? && (target !in known || ByteLength(target) > budget.maxResultBytes);
    }
  }

  ghost predicate AllFrom(results: seq<Text>, targets: seq<Text>) {
    forall i :: 0 <= i < |results| ==> results[i] in targets
  }

  /** What has been retained of `targets`; `now` is everything accepted so far. */
  ghost predicate Working(offered: seq<Text>, wildcard: Option<Text>, targets: seq<Text>, now: seq<Text>,
                          known: set<Text>, results: seq<Text>, refused: bool, left: Allowance) {
    && Added(offered, now, known, results) && AllFrom(results, targets)
    && (!refused ==> now == offered + targets)
    && (refused ==> SomeRefused(targets, wildcard, known, left))
  }

  lemma NothingVisited(offered: seq<Text>, wildcard: Option<Text>, seen: set<Text>, left: Allowance)
    requires Knows(seen, offered)
    ensures Working(offered, wildcard, Targets([], wildcard), offered, seen, [], false, left)
  {
    assert FirstOccurrences(offered) + [] == FirstOccurrences(offered);
    assert offered + [] == offered;
  }

  ghost function NowAfter(target: Text, now: seq<Text>, nextKnown: set<Text>): seq<Text> {
    if target in nextKnown then now + [target] else now
  }

  lemma MoreTargets(results: seq<Text>, targets: seq<Text>, target: Text)
    requires AllFrom(results, targets)
    ensures AllFrom(results, targets + [target]) && AllFrom(results + [target], targets + [target])
  {
    assert (targets + [target])[|targets|] == target;
    assert forall i :: 0 <= i < |targets| ==> (targets + [target])[i] == targets[i];
  }

  lemma StillRefused(targets: seq<Text>, wildcard: Option<Text>, known: set<Text>, results: seq<Text>, left: Allowance,
                     target: Text, nextKnown: set<Text>, nextResults: seq<Text>, nextLeft: Allowance, refusedHere: bool)
    requires OfferOutcome(target, wildcard, known, results, left, nextKnown, nextResults, nextLeft, refusedHere)
    ensures SomeRefused(targets, wildcard, known, left) || refusedHere ==>
      SomeRefused(targets + [target], wildcard, nextKnown, nextLeft)
  {
    var after := targets + [target];
    if SomeRefused(targets, wildcard, known, left) {
      var i :| 0 <= i < |targets| && Turned(targets[i], wildcard, known, left);
      assert Turned(after[i], wildcard, nextKnown, nextLeft);
    } else if refusedHere {
      assert Turned(after[|targets|], wildcard, nextKnown, nextLeft);
    }
  }

  lemma VisitedText(offered: seq<Text>, wildcard: Option<Text>, targets: seq<Text>, now: seq<Text>, known: set<Text>,
                    results: seq<Text>, refused: bool, left: Allowance, target: Text,
                    nextKnown: set<Text>, nextResults: seq<Text>, nextLeft: Allowance, refusedHere: bool)
    requires Working(offered, wildcard, targets, now, known, results, refused, left)
    requires OfferOutcome(target, wildcard, known, results, left, nextKnown, nextResults, nextLeft, refusedHere)
    ensures Working(offered, wildcard, targets + [target], NowAfter(target, now, nextKnown), nextKnown, nextResults,
                    refused || refusedHere, nextLeft)
    ensures Lengths(nextResults) - Lengths(results) == left.bytes - nextLeft.bytes
    ensures |nextResults| - |results| == left.results - nextLeft.results
  {
    AddedSnoc(offered, now, known, results, target);
    MoreTargets(results, targets, target);
    StillRefused(targets, wildcard, known, results, left, target, nextKnown, nextResults, nextLeft, refusedHere);
    assert (offered + targets) + [target] == offered + (targets + [target]);
  }

  // ------------------------------------------------------------------ the whole traversal

  method CollectChildren(v: Json, preferred: seq<Text>, budget: Budget) returns (children: seq<Json>)
    requires budget.Valid() && Proper(v)
    modifies budget`traversedEntries, budget`limited
    ensures budget.Valid() && children == Pushed(v, preferred, old(Room(budget)))
    ensures budget.traversedEntries == old(budget.traversedEntries) + |children|
    ensures budget.limited == (old(budget.limited) || NotedAt(v, preferred, old(Room(budget))))
  {
    match v {
      case Arr(items) =>
        children := CollectItems(items, budget);
      case Obj(keys, values) =>
        children := CollectMembers(keys, values, preferred, budget);
      case _ =>
        children := [];
    }
  }

  /** The targets after visiting one more value. */
  ghost function NextTargets(targets: seq<Text>, v: Json, wildcard: Option<Text>): seq<Text> {
    if v.Str? then targets + [Expanded(v.text, wildcard)] else targets
  }

  /** Visits a string. */
  method VisitText(text: Text, wildcard: Option<Text>, budget: Budget, known: set<Text>, results: seq<Text>,
                   ghost offered: seq<Text>, ghost targets: seq<Text>, ghost now: seq<Text>, ghost refused: bool)
    returns (nextKnown: set<Text>, nextResults: seq<Text>, ghost next: seq<Text>, ghost nextRefused: bool)
    requires budget.Valid() && (refused ==> budget.limited)
    requires Working(offered, wildcard, targets, now, known, results, refused, budget.Left())
    modifies budget`retainedResults, budget`retainedBytes, budget`limited
    ensures budget.Valid() && budget.limited == (old(budget.limited) || nextRefused) && (refused ==> nextRefused)
    ensures Working(offered, wildcard, targets + [Expanded(text, wildcard)], next, nextKnown, nextResults, nextRefused,
                    budget.Left())
    ensures budget.retainedResults - old(budget.retainedResults) == |nextResults| - |results|
    ensures budget.retainedBytes - old(budget.retainedBytes) == Lengths(nextResults) - Lengths(results)
  {
    ghost var left, refusedHere := budget.Left(), false;
    nextKnown, nextResults, refusedHere := OfferText(text, wildcard, budget, known, results);
    VisitedText(offered, wildcard, targets, now, known, results, refused, left, Expanded(text, wildcard),
                nextKnown, nextResults, budget.Left(), refusedHere);
    next, nextRefused := NowAfter(Expanded(text, wildcard), now, nextKnown), refused || refusedHere;
  }

  /** Visits one value and stacks its children, the last one first. */
  method VisitNext(rest: seq<Json>, current: Json, wildcard: Option<Text>, preferred: seq<Text>, budget: Budget,
                   known: set<Text>, results: seq<Text>,
                   ghost offered: seq<Text>, ghost targets: seq<Text>, ghost now: seq<Text>, ghost refused: bool)
    returns (pending: seq<Json>, nextKnown: set<Text>, nextResults: seq<Text>, ghost next: seq<Text>,
             ghost nextRefused: bool)
    requires budget.Valid() && AllProper(rest) && Proper(current) && (refused ==> budget.limited)
    requires Working(offered, wildcard, targets, now, known, results, refused, budget.Left())
    modifies budget
    ensures budget.Valid() && AllProper(pending) && (refused ==> nextRefused)
    ensures Working(offered, wildcard, NextTargets(targets, current, wildcard), next, nextKnown, nextResults,
                    nextRefused,
                    budget.Left())
    ensures pending == rest + Backwards(Pushed(current, preferred, old(Room(budget))))
    ensures budget.traversedEntries == old(budget.traversedEntries) + |pending| - |rest|
    ensures budget.limited == (old(budget.limited) || NotedAt(current, preferred, old(Room(budget))) || nextRefused)
    ensures budget.retainedResults - old(budget.retainedResults) == |nextResults| - |results|
    ensures budget.retainedBytes - old(budget.retainedBytes) == Lengths(nextResults) - Lengths(results)
  {
    if current.Str? {
      nextKnown, nextResults, next, nextRefused :=
        VisitText(current.text, wildcard, budget, known, results, offered, targets, now, refused);
      pending := rest;
      assert rest + Backwards([]) == rest;
    } else {
      nextKnown, nextResults, next, nextRefused := known, results, now, refused;
      var children := CollectChildren(current, preferred, budget);
      PushProper(rest, current, children, preferred);
      pending := rest + Backwards(children);
    }
  }

  /** Where the traversal of `stack` stands after visiting `done`. */
  ghost predicate OnCourse(stack: seq<Json>, preferred: seq<Text>, start: nat, done: seq<Json>, pending: seq<Json>,
                           room: nat, noted: bool) {
    && done + Walk(pending, preferred, room) == Walk(stack, preferred, start)
    && (noted || Noted(pending, preferred, room) <==> Noted(stack, preferred, start))
    && start - room == |done| + |pending| - |stack|
  }

  lemma OneVisit(stack: seq<Json>, preferred: seq<Text>, start: nat, done: seq<Json>, pending: seq<Json>, room: nat,
                 noted: bool, next: seq<Json>, left: nat)
    requires OnCourse(stack, preferred, start, done, pending, room, noted) && pending != []
    requires Steps(pending, preferred, room, next, left)
    ensures OnCourse(stack, preferred, start, done + [pending[|pending| - 1]], next, left,
                     noted || NotedAt(pending[|pending| - 1], preferred, room))
  {
    WalkStep(pending, preferred, room, next, left);
    NotedStep(pending, preferred, room, next, left);
    Associative(done, [pending[|pending| - 1]], Walk(next, preferred, left));
  }

  lemma CourseStarts(stack: seq<Json>, preferred: seq<Text>, room: nat)
    ensures OnCourse(stack, preferred, room, [], stack, room, false)
  {
    assert [] + Walk(stack, preferred, room) == Walk(stack, preferred, room);
  }

  lemma CourseEnds(stack: seq<Json>, preferred: seq<Text>, start: nat, done: seq<Json>, room: nat, noted: bool)
    requires OnCourse(stack, preferred, start, done, [], room, noted)
    ensures done == Walk(stack, preferred, start) && noted == Noted(stack, preferred, start)
    ensures start - room == |done| - |stack|
  {
    assert done + [] == done;
  }

  /** The loop of the traversal, with the values visited. */
  method Drain(wildcard: Option<Text>, preferred: seq<Text>, budget: Budget, stack: seq<Json>, seen: set<Text>,
               ghost offered: seq<Text>)
    returns (results: seq<Text>, known: set<Text>, ghost now: seq<Text>, ghost refused: bool, ghost targets: seq<Text>,
             ghost done: seq<Json>, ghost noted: bool)
    requires budget.Valid() && Knows(seen, offered) && AllProper(stack)
    modifies budget
    ensures budget.Valid() && OnCourse(stack, preferred, old(Room(budget)), done, [], Room(budget), noted)
    ensures targets == Targets(done, wildcard)
    ensures Working(offered, wildcard, targets, now, known, results, refused, budget.Left())
    ensures budget.limited == (old(budget.limited) || noted || refused)
    ensures budget.retainedResults - old(budget.retainedResults) == |results|
    ensures budget.retainedBytes - old(budget.retainedBytes) == Lengths(results)
  {
    results, known, now, refused, targets, done, noted := [], seen, offered, false, [], [], false;
    var pending := stack;
    NothingVisited(offered, wildcard, seen, budget.Left());
    CourseStarts(stack, preferred, Room(budget));
    while pending != []
      invariant budget.Valid() && AllProper(pending)
      invariant OnCourse(stack, preferred, old(Room(budget)), done, pending, Room(budget), noted)
      invariant targets == Targets(done, wildcard)
      invariant Working(offered, wildcard, targets, now, known, results, refused, budget.Left())
      invariant budget.limited == (old(budget.limited) || noted || refused)
      invariant budget.retainedResults - old(budget.retainedResults) == |results|
      invariant budget.retainedBytes - old(budget.retainedBytes) == Lengths(results)
      decreases Room(budget) + |pending|
    {
      var current := pending[|pending| - 1];
      var rest := pending[..|pending| - 1];
      TopProper(pending);
      TargetsSnoc(done, current, wildcard);
      ghost var room, before := Room(budget), pending;
      pending, known, results, now, refused :=
        VisitNext(rest, current, wildcard, preferred, budget, known, results, offered, targets, now, refused);
      OneVisit(stack, preferred, old(Room(budget)), done, before, room, noted, pending, Room(budget));
      noted := noted || NotedAt(current, preferred, room);
      targets := NextTargets(targets, current, wildcard);
      done := done + [current];
    }
  }

  lemma TopProper(pending: seq<Json>)
    requires AllProper(pending) && pending != []
    ensures AllProper(pending[..|pending| - 1]) && Proper(pending[|pending| - 1])
  {
  }

  /** Visits what fits, in traversal order, and retains the targets that fit. The limit is noted when the
      bounded walk says so or when a target is refused. */
  method FlattenExportTargets(value: Json, wildcard: Option<Text>, preferred: seq<Text>, budget: Budget,
                              seen: set<Text>, ghost offered: seq<Text>)
    returns (results: seq<Text>, known: set<Text>, ghost now: seq<Text>, ghost refused: bool)
    requires budget.Valid() && Knows(seen, offered) && Proper(value)
    modifies budget
    ensures budget.Valid()
    ensures var visited := Visited(value, preferred, old(Room(budget)));
            && Working(offered, wildcard, Targets(visited, wildcard), now, known, results, refused, budget.Left())
            && budget.traversedEntries == old(budget.traversedEntries) + |visited|
    ensures budget.limited == (old(budget.limited) || VisitNoted(value, preferred, old(Room(budget))) || refused)
    ensures budget.retainedResults - old(budget.retainedResults) == |results|
    ensures budget.retainedBytes - old(budget.retainedBytes) == Lengths(results)
  {
    ghost var room: nat := Room(budget);
    var reserved := budget.ReserveTraversal();
    if !reserved {
      NothingVisited(offered, wildcard, seen, budget.Left());
      assert Visited(value, preferred, room) == [];
      return [], seen, offered, false;
    }
    var stack := [value];
    ghost var start: nat := Room(budget);
    assert Visited(value, preferred, room) == Walk(stack, preferred, start);
    assert VisitNoted(value, preferred, room) == Noted(stack, preferred, start);
    ghost var targets, done, noted;
    results, known, now, refused, targets, done, noted := Drain(wildcard, preferred, budget, stack, seen, offered);
    CourseEnds(stack, preferred, start, done, Room(budget), noted);
  }

  // ------------------------------------------------------------------ the targets of a key

  ghost predicate NoRoomFor(targets: seq<Text>, left: Allowance) {
    exists i :: 0 <= i < |targets| && !left.Takes(ByteLength(targets[i]))
  }

  lemma {:induction false} MatchedProper(keys: seq<Text>, values: seq<Json>, key: Text, n: nat)
    requires n <= |keys| == |values| && AllProper(values)
    ensures forall i :: 0 <= i < |MatchedOf(keys, values, key, n)| ==> Proper(MatchedOf(keys, values, key, n)[i].target)
    decreases n
  {
    if n > 0 { MatchedProper(keys, values, key, n - 1); }
  }

  method MatchPatterns(keys: seq<Text>, values: seq<Json>, key: Text, budget: Budget)
    returns (ok: bool, hasSubpathKeys: bool, matched: seq<Selected>)
    requires budget.Valid() && |keys| == |values|
    modifies budget`traversedEntries, budget`limited
    ensures budget.Valid()
    ensures ok <==> old(budget.traversedEntries) + |keys| <= budget.maxTraversalEntries
    ensures ok ==> hasSubpathKeys == HasSubpaths(keys) && matched == MatchedOf(keys, values, key, |keys|)
    ensures ok ==> budget.traversedEntries == old(budget.traversedEntries) + |keys|
    ensures ok ==> budget.limited == old(budget.limited)
    ensures !ok ==> budget.limited
    ensures budget.retainedResults == old(budget.retainedResults) && budget.retainedBytes == old(budget.retainedBytes)
  {
    hasSubpathKeys, matched := false, [];
    for i := 0 to |keys|
      invariant budget.Valid() && budget.limited == old(budget.limited)
      invariant budget.traversedEntries == old(budget.traversedEntries) + i
      invariant hasSubpathKeys == HasSubpaths(keys[..i]) && matched == MatchedOf(keys, values, key, i)
    {
      ok := budget.ReserveTraversal();
      if !ok {
        return;
      }
      assert keys[..i + 1] == keys[..i] + [keys[i]];
      assert HasSubpaths(keys[..i + 1]) <==> HasSubpaths(keys[..i]) || Dotted(keys[i]) by {
        assert keys[..i + 1][i] == keys[i];
        if j :| 0 <= j < i && Dotted(keys[..i][j]) {
          assert Dotted(keys[..i + 1][j]);
        }
      }
      if Dotted(keys[i]) {
        hasSubpathKeys := true;
      }
      var wildcardValue := MatchPattern(keys[i], key);
      if wildcardValue.Some? {
        matched := matched + [Selected(values[i], wildcardValue)];
      }
    }
    assert keys[..|keys|] == keys;
    ok := true;
  }

  lemma {:induction false} LengthsConcat(a: seq<Text>, b: seq<Text>)
    ensures Lengths(a + b) == Lengths(a) + Lengths(b)
    decreases |b|
  {
    if b == [] {
      assert a + b == a;
    } else {
      WithoutLast(a, b);
      LengthsConcat(a, b[..|b| - 1]);
    }
  }

  /** What the loop over the selected values keeps. */
  ghost predicate Flattened(targets: seq<Text>, now: seq<Text>, known: set<Text>, results: seq<Text>, refused: bool,
                            left: Allowance) {
    && Knows(known, now) && FirstOccurrences(now) == results && AllFrom(results, targets)
    && (!refused ==> now == targets)
    && (refused ==> NoRoomFor(targets, left))
  }

  lemma FlattenedNext(targets: seq<Text>, now: seq<Text>, known: set<Text>, results: seq<Text>, refused: bool,
                      left: Allowance,
                      wildcard: Option<Text>, more: seq<Text>, next: seq<Text>, nextKnown: set<Text>, added: seq<Text>,
                      refusedHere: bool, nextLeft: Allowance)
    requires Flattened(targets, now, known, results, refused, left)
    requires Working(now, wildcard, more, next, nextKnown, added, refusedHere, nextLeft)
    requires nextLeft.results <= left.results && nextLeft.each == left.each && nextLeft.bytes <= left.bytes
    ensures Flattened(targets + more, next, nextKnown, results + added, refused || refusedHere, nextLeft)
  {
    var all := targets + more;
    assert forall i :: 0 <= i < |targets| ==> all[i] == targets[i];
    assert forall i :: 0 <= i < |more| ==> all[|targets| + i] == more[i];
    if refused {
      var i :| 0 <= i < |targets| && !left.Takes(ByteLength(targets[i]));
      assert !nextLeft.Takes(ByteLength(all[i]));
    } else if refusedHere {
      var i :| 0 <= i < |more| && Turned(more[i], wildcard, nextKnown, nextLeft);
      assert !nextLeft.Takes(ByteLength(all[|targets| + i]));
    }
  }

  /** With `room` entries: the first occurrences among the targets of the values visited, unless a limit on
      results refused one. The limit is noted when the bounded walks say so or a target was refused. */
  ghost predicate Outcome(selected: seq<Selected>, room: nat, results: seq<Text>, refused: bool, left: Allowance,
                          wasLimited: bool, limited: bool) {
    var targets := BoundedTargets(selected, |selected|, room);
    && (!refused ==> results == FirstOccurrences(targets))
    && AllFrom(results, targets) && (forall i, j :: 0 <= i < j < |results| ==> results[i] != results[j])
    && (refused ==> NoRoomFor(targets, left))
    && limited == (wasLimited || BoundedNoted(selected, |selected|, room) || refused)
  }

  /** Flattens one more of the selected values. */
  method FlattenNext(selected: seq<Selected>, i: nat, budget: Budget, results: seq<Text>, known: set<Text>,
                     ghost now: seq<Text>, ghost refused: bool, ghost room: nat)
    returns (nextResults: seq<Text>, nextKnown: set<Text>, ghost next: seq<Text>, ghost nextRefused: bool)
    requires budget.Valid() && i < |selected| && Proper(selected[i].target)
    requires Room(budget) == RoomAfter(selected, i, room) && (refused ==> budget.limited)
    requires Flattened(BoundedTargets(selected, i, room), now, known, results, refused, budget.Left())
    modifies budget
    ensures budget.Valid() && Room(budget) == RoomAfter(selected, i + 1, room) && (refused ==> nextRefused)
    ensures Flattened(BoundedTargets(selected, i + 1, room), next, nextKnown, nextResults, nextRefused, budget.Left())
    ensures budget.limited == (old(budget.limited) || NotedIn(selected, i, room) || nextRefused)
    ensures budget.retainedResults - old(budget.retainedResults) == |nextResults| - |results|
    ensures budget.retainedBytes - old(budget.retainedBytes) == Lengths(nextResults) - Lengths(results)
  {
    ghost var left, here: nat := budget.Left(), Room(budget);
    var wildcard := selected[i].wildcard;
    ghost var visited := VisitedAt(selected, i, room);
    assert visited == Visited(selected[i].target, PREFERRED, here);
    assert NotedIn(selected, i, room) == VisitNoted(selected[i].target, PREFERRED, here);
    ghost var refusedHere;
    var more;
    more, nextKnown, next, refusedHere :=
      FlattenExportTargets(selected[i].target, wildcard, PREFERRED, budget, known, now);
    FlattenedNext(BoundedTargets(selected, i, room), now, known, results, refused, left, wildcard,
                  Targets(visited, wildcard), next, nextKnown, more, refusedHere, budget.Left());
    LengthsConcat(results, more);
    nextResults, nextRefused := results + more, refused || refusedHere;
  }

  /** Flattens the values one after the other, each target once. */
  method FlattenSelected(selected: seq<Selected>, budget: Budget) returns (results: seq<Text>, ghost refused: bool)
    requires budget.Valid() && forall i :: 0 <= i < |selected| ==> Proper(selected[i].target)
    modifies budget
    ensures budget.Valid()
    ensures Outcome(selected, old(Room(budget)), results, refused, budget.Left(), old(budget.limited), budget.limited)
    ensures budget.retainedResults - old(budget.retainedResults) == |results|
    ensures budget.retainedBytes - old(budget.retainedBytes) == Lengths(results)
  {
    results, refused := [], false;
    var known: set<Text> := {};
    ghost var now: seq<Text>, room: nat := [], Room(budget);
    for i := 0 to |selected|
      invariant budget.Valid() && Room(budget) == RoomAfter(selected, i, room)
      invariant Flattened(BoundedTargets(selected, i, room), now, known, results, refused, budget.Left())
      invariant budget.limited == (old(budget.limited) || BoundedNoted(selected, i, room) || refused)
      invariant budget.retainedResults - old(budget.retainedResults) == |results|
      invariant budget.retainedBytes - old(budget.retainedBytes) == Lengths(results)
    {
      results, known, now, refused := FlattenNext(selected, i, budget, results, known, now, refused, room);
    }
    FirstOccurrencesMeaning(now);
  }

  /** No key of the object is the one asked for: patterns, or the object itself if it has no subpaths. */
  method SelectPatterns(keys: seq<Text>, values: seq<Json>, key: Text, budget: Budget)
    returns (ok: bool, selected: seq<Selected>)
    requires budget.Valid() && Proper(Obj(keys, values)) && KeyIndex(keys, key).None?
    modifies budget`traversedEntries, budget`limited
    ensures budget.Valid() && (ok <==> |keys| <= old(Room(budget)))
    ensures ok ==> selected == Selection(Obj(keys, values), key) && forall i ::
      0 <= i < |selected| ==> Proper(selected[i].target)
    ensures ok ==> Room(budget) == old(Room(budget)) - |keys| && budget.limited == old(budget.limited)
    ensures !ok ==> budget.limited
  {
    var hasSubpathKeys;
    ok, hasSubpathKeys, selected := MatchPatterns(keys, values, key, budget);
    MatchedProper(keys, values, key, |keys|);
    if ok && !hasSubpathKeys {
      selected := if key == [DOT] then [Selected(Obj(keys, values), None)] else [];
    }
  }

  /** The values exported under a key. */
  method SelectTargets(exports: Json, key: Text, budget: Budget) returns (ok: bool, selected: seq<Selected>)
    requires budget.Valid() && Proper(exports)
    modifies budget`traversedEntries, budget`limited
    ensures budget.Valid() && (ok <==> KeysCompared(exports, key) <= old(Room(budget)))
    ensures ok ==> selected == Selection(exports, key) && forall i :: 0 <= i < |selected| ==> Proper(selected[i].target)
    ensures ok ==> Room(budget) == old(Room(budget)) - KeysCompared(exports, key)
    ensures ok ==> budget.limited == old(budget.limited)
    ensures !ok ==> budget.limited
  {
    ok, selected := true, [];
    if exports.Scalar? {
      return;
    }
    if !exports.Obj? {
      if key == [DOT] {
        selected := [Selected(exports, None)];
      }
      return;
    }
    var at := KeyIndex(exports.keys, key);
    if at.Some? {
      selected := [Selected(exports.values[at.value], None)];
      return;
    }
    ok, selected := SelectPatterns(exports.keys, exports.values, key, budget);
  }

  /** The targets of a key, after an entry for each key compared. The budget is charged for exactly the
      results. */
  method PackageExportTargetsForKey(exports: Json, key: Text, budget: Budget)
    returns (results: seq<Text>, ghost refused: bool)
    requires budget.Valid() && Proper(exports)
    modifies budget
    ensures budget.Valid()
    ensures var selected, room := Selection(exports, key), old(Room(budget)) - KeysCompared(exports, key);
            if room < 0 then results == [] && budget.limited
            else Outcome(selected, room, results, refused, budget.Left(), old(budget.limited), budget.limited)
    ensures budget.retainedResults - old(budget.retainedResults) == |results|
    ensures budget.retainedBytes - old(budget.retainedBytes) == Lengths(results)
  {
    results, refused := [], false;
    var ok, selected := SelectTargets(exports, key, budget);
    if ok {
      results, refused := FlattenSelected(selected, budget);
    }
  }
}
