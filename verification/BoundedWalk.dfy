/**
 What a traversal of `exports` visits when only so many entries fit (package-info.ts), and when the limit
 is noted.
 */
module BoundedWalk {
  import opened Collections
  import opened ExportOrder
  import opened ExportSelection
  import opened ExportTexts
  import opened ExportTraversal
  import opened Wrappers

  // ------------------------------------------------------------------ what a bounded traversal visits

  /** The children that get on the stack with room for `room` of them. */
  function Pushed(v: Json, preferred: seq<Text>, room: nat): seq<Json> {
    Take(room, OrderedChildren(v, preferred))
  }

  predicate IsObject(v: Json) {
    v.Obj? && |v.keys| == |v.values|
  }

  /** Whether the limit is noted at a value: some children do not fit, and it is not an object whose
      preferred keys use up the room exactly. */
  predicate NotedAt(v: Json, preferred: seq<Text>, room: nat) {
    room < |OrderedChildren(v, preferred)|
      && !(IsObject(v) && room == |FirstChildren(v.keys, v.values, preferred, |preferred|)|)
  }

  /** The values visited from a stack, the next one last, with room for `room` more entries. */
  ghost function Walk(pending: seq<Json>, preferred: seq<Text>, room: nat): seq<Json>
    decreases room + |pending|
  {
    if pending == [] then []
    else
      var rest, v := pending[..|pending| - 1], pending[|pending| - 1];
      var pushed := Pushed(v, preferred, room);
      [v] + Walk(rest + Backwards(pushed), preferred, room - |pushed|)
  }

  /** Whether the limit is noted anywhere on the way. */
  ghost predicate Noted(pending: seq<Json>, preferred: seq<Text>, room: nat)
    decreases room + |pending|
  {
    pending != [] &&
    var rest, v := pending[..|pending| - 1], pending[|pending| - 1];
    var pushed := Pushed(v, preferred, room);
    NotedAt(v, preferred, room) || Noted(rest + Backwards(pushed), preferred, room - |pushed|)
  }

  /** `next` is the stack after the next value was taken off and as many children pushed as fit. */
  ghost predicate Steps(pending: seq<Json>, preferred: seq<Text>, room: nat, next: seq<Json>, left: nat)
    requires pending != []
  {
    var pushed := Pushed(pending[|pending| - 1], preferred, room);
    next == pending[..|pending| - 1] + Backwards(pushed) && left == room - |pushed|
  }

  lemma WalkStep(pending: seq<Json>, preferred: seq<Text>, room: nat, next: seq<Json>, left: nat)
    requires pending != [] && Steps(pending, preferred, room, next, left)
    ensures Walk(pending, preferred, room) == [pending[|pending| - 1]] + Walk(next, preferred, left)
  {
  }

  lemma NotedStep(pending: seq<Json>, preferred: seq<Text>, room: nat, next: seq<Json>, left: nat)
    requires pending != [] && Steps(pending, preferred, room, next, left)
    ensures Noted(pending, preferred, room)
            <==> NotedAt(pending[|pending| - 1], preferred, room) || Noted(next, preferred, left)
  {
    var rest, v := pending[..|pending| - 1], pending[|pending| - 1];
    var pushed := Pushed(v, preferred, room);
    if !NotedAt(v, preferred, room) {
      assert Noted(pending, preferred, room) == Noted(rest + Backwards(pushed), preferred, room - |pushed|);
    }
  }

  /** One value off the stack: how much is left to visit. */
  lemma VisitsLeft(pending: seq<Json>, preferred: seq<Text>)
    requires pending != []
    ensures var rest, v := pending[..|pending| - 1], pending[|pending| - 1];
            && StackVisits(pending, preferred) ==
                 [v] + StackVisits(rest + Backwards(OrderedChildren(v, preferred)), preferred)
            && |StackVisits(pending, preferred)| >= |pending| + |OrderedChildren(v, preferred)|
  {
    var rest, v := pending[..|pending| - 1], pending[|pending| - 1];
    LastApart(pending);
    StackTop(rest, v, preferred);
    VisitsOf(v, preferred);
    PushedBackwards(rest, OrderedChildren(v, preferred), preferred);
    AtLeastOneEach(OrderedChildren(v, preferred), preferred);
    AtLeastOneEach(Backwards(rest), preferred);
    assert ([v] + ListVisits(OrderedChildren(v, preferred), preferred)) + StackVisits(rest, preferred)
        == [v] + (ListVisits(OrderedChildren(v, preferred), preferred) + StackVisits(rest, preferred));
  }

  lemma StackedOnce(pending: seq<Json>, preferred: seq<Text>)
    ensures |StackVisits(pending, preferred)| >= |pending|
  {
    AtLeastOneEach(Backwards(pending), preferred);
  }

  /** As many values are visited as there are or as fit. */
  lemma {:induction false} WalkLength(pending: seq<Json>, preferred: seq<Text>, room: nat)
    ensures |Walk(pending, preferred, room)| == Min(|StackVisits(pending, preferred)|, room + |pending|)
    decreases room + |pending|
  {
    if pending == [] {
      assert Backwards(pending) == [];
    } else {
      var v := pending[|pending| - 1];
      var pushed := Pushed(v, preferred, room);
      var next := pending[..|pending| - 1] + Backwards(pushed);
      WalkStep(pending, preferred, room, next, room - |pushed|);
      WalkLength(next, preferred, room - |pushed|);
      VisitsLeft(pending, preferred);
      StackedOnce(next, preferred);
    }
  }

  /** A stack whose entries fit is visited whole, and no limit is noted. */
  lemma {:induction false} WalkWhole(pending: seq<Json>, preferred: seq<Text>, room: nat)
    requires |StackVisits(pending, preferred)| <= room + |pending|
    ensures Walk(pending, preferred, room) == StackVisits(pending, preferred) && !Noted(pending, preferred, room)
    decreases room + |pending|
  {
    if pending == [] {
      assert Backwards(pending) == [];
    } else {
      var children := OrderedChildren(pending[|pending| - 1], preferred);
      var next := pending[..|pending| - 1] + Backwards(children);
      VisitsLeft(pending, preferred);
      WalkWhole(next, preferred, room - |children|);
      WalkStep(pending, preferred, room, next, room - |children|);
      NotedStep(pending, preferred, room, next, room - |children|);
    }
  }

  /** With no room left such a value passes without a note. */
  predicate Quiet(v: Json, preferred: seq<Text>) {
    match v
    case Arr(items) => items == []
    case Obj(keys, values) => |keys| == |values| ==> FirstChildren(keys, values, preferred, |preferred|) == []
    case _ => true
  }

  predicate AllQuiet(vs: seq<Json>, preferred: seq<Text>) {
    forall i :: 0 <= i < |vs| ==> Quiet(vs[i], preferred)
  }

  /** Where a traversal is cut without a note: at the first value whose children do not fit. It is an object
      whose preferred keys use up the room exactly, and whatever is on the stack then is quiet. */
  ghost predicate CutUnnoticed(pending: seq<Json>, preferred: seq<Text>, room: nat)
    decreases room + |pending|
  {
    pending != [] &&
    var rest, v := pending[..|pending| - 1], pending[|pending| - 1];
    var children := OrderedChildren(v, preferred);
    if |children| <= room then
      CutUnnoticed(rest + Backwards(children), preferred, room - |children|)
    else
      IsObject(v) &&
      var first := FirstChildren(v.keys, v.values, preferred, |preferred|);
      room == |first| && AllQuiet(rest, preferred) && AllQuiet(first, preferred)
  }

  /** With no room left the limit is noted exactly at a value that is not quiet. */
  lemma {:induction false} NotedWithoutRoom(pending: seq<Json>, preferred: seq<Text>)
    ensures Noted(pending, preferred, 0) <==> !AllQuiet(pending, preferred)
    decreases |pending|
  {
    if pending != [] {
      var rest, v := pending[..|pending| - 1], pending[|pending| - 1];
      assert rest + Backwards(Pushed(v, preferred, 0)) == rest;
      NotedWithoutRoom(rest, preferred);
      NotedAtWithoutRoom(v, preferred);
      LastApart(pending);
    }
  }

  lemma NotedAtWithoutRoom(v: Json, preferred: seq<Text>)
    ensures NotedAt(v, preferred, 0) <==> !Quiet(v, preferred)
  {
  }

  lemma CutHere(pending: seq<Json>, preferred: seq<Text>, room: nat)
    requires pending != [] && room < |OrderedChildren(pending[|pending| - 1], preferred)|
    ensures !Noted(pending, preferred, room) <==> CutUnnoticed(pending, preferred, room)
  {
    var rest, v := pending[..|pending| - 1], pending[|pending| - 1];
    var pushed := Pushed(v, preferred, room);
    NotedStep(pending, preferred, room, rest + Backwards(pushed), 0);
    NotedWithoutRoom(rest + Backwards(pushed), preferred);
    if !NotedAt(v, preferred, room) {
      var first := FirstChildren(v.keys, v.values, preferred, |preferred|);
      assert pushed == first;
      QuietBackwards(rest, first, preferred);
    }
  }

  /** A traversal leaves something out without a note if and only if it is cut in that way. */
  lemma {:induction false} UnnoticedExactly(pending: seq<Json>, preferred: seq<Text>, room: nat)
    ensures |StackVisits(pending, preferred)| > room + |pending| && !Noted(pending, preferred, room)
            <==> CutUnnoticed(pending, preferred, room)
    decreases room + |pending|
  {
    if pending == [] {
      assert Backwards(pending) == [];
    } else {
      var v := pending[|pending| - 1];
      var children := OrderedChildren(v, preferred);
      VisitsLeft(pending, preferred);
      if |children| <= room {
        var next := pending[..|pending| - 1] + Backwards(children);
        UnnoticedExactly(next, preferred, room - |children|);
        NotedStep(pending, preferred, room, next, room - |children|);
      } else {
        CutHere(pending, preferred, room);
      }
    }
  }

  lemma QuietBackwards(rest: seq<Json>, children: seq<Json>, preferred: seq<Text>)
    ensures AllQuiet(rest + Backwards(children), preferred)
      <==> AllQuiet(rest, preferred) && AllQuiet(children, preferred)
  {
    var all := rest + Backwards(children);
    if AllQuiet(all, preferred) {
      forall i | 0 <= i < |children| ensures Quiet(children[i], preferred) {
        assert all[|rest| + |children| - 1 - i] == children[i];
      }
      forall i | 0 <= i < |rest| ensures Quiet(rest[i], preferred) {
        assert all[i] == rest[i];
      }
    }
  }

  // ------------------------------------------------------------------ one value

  /** What the traversal of one value visits with `room` entries left. */
  ghost function Visited(value: Json, preferred: seq<Text>, room: nat): seq<Json> {
    if room == 0 then [] else Walk([value], preferred, room - 1)
  }

  ghost predicate VisitNoted(value: Json, preferred: seq<Text>, room: nat) {
    room == 0 || Noted([value], preferred, room - 1)
  }

  /** A value is left out in part without a note. */
  ghost predicate ValueCutUnnoticed(value: Json, preferred: seq<Text>, room: nat) {
    room > 0 && CutUnnoticed([value], preferred, room - 1)
  }

  lemma OnlyValue(value: Json, preferred: seq<Text>)
    ensures StackVisits([value], preferred) == Visits(value, preferred) && |Visits(value, preferred)| > 0
  {
    assert [] + [value] == [value] && Backwards([]) == [];
    StackTop([], value, preferred);
    VisitsOf(value, preferred);
  }

  lemma WalkValue(value: Json, stack: seq<Json>, preferred: seq<Text>, room: nat)
    requires stack == [value] && room > 0
    ensures Visited(value, preferred, room) == Walk(stack, preferred, room - 1)
    ensures Visits(value, preferred) == StackVisits(stack, preferred)
  {
    OnlyValue(value, preferred);
  }

  lemma NotedValue(value: Json, stack: seq<Json>, preferred: seq<Text>, room: nat)
    requires stack == [value] && room > 0
    ensures VisitNoted(value, preferred, room) == Noted(stack, preferred, room - 1)
    ensures ValueCutUnnoticed(value, preferred, room) == CutUnnoticed(stack, preferred, room - 1)
  {
  }

  lemma VisitedCount(value: Json, preferred: seq<Text>, room: nat)
    ensures |Visited(value, preferred, room)| == Min(|Visits(value, preferred)|, room)
  {
    if room > 0 {
      CountFrom(value, [value], Visited(value, preferred, room), Visits(value, preferred), preferred, room);
    }
  }

  lemma CountFrom(value: Json, stack: seq<Json>, visited: seq<Json>, visits: seq<Json>, preferred: seq<Text>, room: nat)
    requires room > 0 && stack == [value]
    requires visited == Visited(value, preferred, room) && visits == Visits(value, preferred)
    ensures |visited| == Min(|visits|, room)
  {
    WalkValue(value, stack, preferred, room);
    WalkLength(stack, preferred, room - 1);
  }

  lemma VisitedAll(value: Json, preferred: seq<Text>, room: nat)
    requires |Visits(value, preferred)| <= room
    ensures Visited(value, preferred, room) == Visits(value, preferred) && !VisitNoted(value, preferred, room)
  {
    var stack := [value];
    OnlyValue(value, preferred);
    WalkValue(value, stack, preferred, room);
    NotedValue(value, stack, preferred, room);
    WalkWhole(stack, preferred, room - 1);
  }

  /** All of a value is visited if and only if its entries fit the room; then no limit is noted. */
  lemma VisitedWhole(value: Json, preferred: seq<Text>, room: nat)
    ensures |Visits(value, preferred)| <= room <==> Visited(value, preferred, room) == Visits(value, preferred)
    ensures |Visits(value, preferred)| <= room ==> !VisitNoted(value, preferred, room)
    ensures |Visited(value, preferred, room)| == Min(|Visits(value, preferred)|, room)
  {
    VisitedCount(value, preferred, room);
    if |Visits(value, preferred)| <= room { VisitedAll(value, preferred, room); }
  }

  /** A value is visited in part and no limit noted if and only if the traversal is cut where the preferred
      keys of an object use up the room, and all that is on the stack then is quiet. */
  lemma LeftOutUnnoticed(value: Json, preferred: seq<Text>, room: nat)
    ensures |Visits(value, preferred)| > room && !VisitNoted(value, preferred, room)
            <==> ValueCutUnnoticed(value, preferred, room)
  {
    if room > 0 {
      var stack := [value];
      WalkValue(value, stack, preferred, room);
      NotedValue(value, stack, preferred, room);
      UnnoticedExactly(stack, preferred, room - 1);
    }
  }

  /** The targets of the strings among the values visited. */
  ghost function Targets(visited: seq<Json>, wildcard: Option<Text>): seq<Text> {
    ExpandedAll(Texts(visited), wildcard)
  }

  lemma TargetsSnoc(visited: seq<Json>, v: Json, wildcard: Option<Text>)
    ensures Targets(visited + [v], wildcard) ==
            if v.Str? then Targets(visited, wildcard) + [Expanded(v.text, wildcard)] else Targets(visited, wildcard)
  {
    assert (visited + [v])[..|visited|] == visited;
  }

  // ------------------------------------------------------------------ selecting the values of a key

  /** A value to flatten, and what its wildcards stand for. */
  datatype Selected = Selected(target: Json, wildcard: Option<Text>)

  /** Patterns among the first `n` keys that match. */
  function MatchedOf(keys: seq<Text>, values: seq<Json>, key: Text, n: nat): seq<Selected>
    requires n <= |keys| == |values|
  {
    if n == 0 then []
    else
      var init := MatchedOf(keys, values, key, n - 1);
      match MatchPattern(keys[n - 1], key)
      case None => init
      case Some(w) => init + [Selected(values[n - 1], Some(w))]
  }

  /** What is exported under a key. */
  ghost function Selection(exports: Json, key: Text): seq<Selected> {
    if exports.Scalar? then []
    else if !IsObject(exports) then (if key == [DOT] then [Selected(exports, None)] else [])
    else
      match KeyIndex(exports.keys, key)
      case Some(i) => [Selected(exports.values[i], None)]
      case None =>
        if HasSubpaths(exports.keys) then MatchedOf(exports.keys, exports.values, key, |exports.keys|)
        else if key == [DOT] then [Selected(exports, None)] else []
  }

  /** How many keys are compared with the key for that; each takes an entry of the budget. */
  ghost function KeysCompared(exports: Json, key: Text): nat {
    if IsObject(exports) && KeyIndex(exports.keys, key).None? then |exports.keys| else 0
  }

  /** The targets of the first `n` values, without limits, and the entries they take. */
  ghost function AllTargets(selected: seq<Selected>, n: nat): seq<Text>
    requires n <= |selected|
  {
    if n == 0 then []
    else AllTargets(selected, n - 1) + Targets(Visits(selected[n - 1].target, PREFERRED), selected[n - 1].wildcard)
  }

  ghost function Entries(selected: seq<Selected>, n: nat): nat
    requires n <= |selected|
  {
    if n == 0 then 0 else Entries(selected, n - 1) + |Visits(selected[n - 1].target, PREFERRED)|
  }

  /** The same with `room` entries: the room left, the targets of the values visited, and whether the limit
      is noted. */
  ghost function RoomAfter(selected: seq<Selected>, n: nat, room: nat): int
    requires n <= |selected|
    decreases n, 0
  {
    if n == 0 then room else RoomAfter(selected, n - 1, room) - |VisitedAt(selected, n - 1, room)|
  }

  ghost function VisitedAt(selected: seq<Selected>, i: nat, room: nat): seq<Json>
    requires i < |selected|
    decreases i, 1
  {
    var left := RoomAfter(selected, i, room);
    Visited(selected[i].target, PREFERRED, if left > 0 then left else 0)
  }

  ghost predicate NotedIn(selected: seq<Selected>, i: nat, room: nat)
    requires i < |selected|
  {
    var left := RoomAfter(selected, i, room);
    VisitNoted(selected[i].target, PREFERRED, if left > 0 then left else 0)
  }

  ghost function BoundedTargets(selected: seq<Selected>, n: nat, room: nat): seq<Text>
    requires n <= |selected|
  {
    if n == 0 then []
    else BoundedTargets(selected, n - 1, room) + Targets(VisitedAt(selected, n - 1, room), selected[n - 1].wildcard)
  }

  ghost predicate BoundedNoted(selected: seq<Selected>, n: nat, room: nat)
    requires n <= |selected|
  {
    n > 0 && (BoundedNoted(selected, n - 1, room) || NotedIn(selected, n - 1, room))
  }

  /** Entries that fit are all visited and no limit is noted; otherwise the room is used up. */
  lemma {:induction false} BoundedWhole(selected: seq<Selected>, n: nat, room: nat)
    requires n <= |selected|
    ensures RoomAfter(selected, n, room) == if Entries(selected, n) <= room then room - Entries(selected, n) else 0
    ensures Entries(selected, n) <= room ==>
      BoundedTargets(selected, n, room) == AllTargets(selected, n) && !BoundedNoted(selected, n, room)
    decreases n
  {
    if n > 0 {
      BoundedWhole(selected, n - 1, room);
      VisitedWhole(selected[n - 1].target, PREFERRED, RoomAfter(selected, n - 1, room));
    }
  }

  /** Something is left out and no limit noted if and only if the last value is the first that does not fit,
      and is cut unnoticed. */
  lemma {:induction false} SelectionCutUnnoticed(selected: seq<Selected>, n: nat, room: nat)
    requires n <= |selected|
    ensures Entries(selected, n) > room && !BoundedNoted(selected, n, room)
            <==> n > 0 && Entries(selected, n - 1) <= room
                 && ValueCutUnnoticed(selected[n - 1].target, PREFERRED, room - Entries(selected, n - 1))
    decreases n
  {
    if n > 0 {
      BoundedWhole(selected, n - 1, room);
      LeftOutUnnoticed(selected[n - 1].target, PREFERRED, RoomAfter(selected, n - 1, room));
    }
  }
}
