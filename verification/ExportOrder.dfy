/**
 The order in which the analyzer runtime visits a package's `exports` (package-info.ts): conditions in a
 preferred order, an explicit stack.
 */
module ExportOrder {
  import opened Collections
  import opened ExportTexts
  import opened ExportTraversal
  import opened Wrappers

  // ------------------------------------------------------------------ the order of the traversal

  /** Every value in the order of the traversal, the value itself first. */
  ghost function Visits(v: Json, preferred: seq<Text>): seq<Json>
    decreases v, 0
  {
    match v
    case Arr(items) => [v] + ItemVisits(items, preferred)
    case Obj(keys, values) =>
      if |keys| == |values| then
        [v] + (FirstVisits(keys, values, preferred, |preferred|) + OtherVisits(keys, values, preferred, |values|))
      else [v]
    case _ => [v]
  }

  ghost function ItemVisits(items: seq<Json>, preferred: seq<Text>): seq<Json>
    decreases items, 0
  {
    if items == [] then [] else Visits(items[0], preferred) + ItemVisits(items[1..], preferred)
  }

  /** Below the first `n` preferred keys that are present, in preferred order. */
  ghost function FirstVisits(keys: seq<Text>, values: seq<Json>, preferred: seq<Text>, n: nat): seq<Json>
    requires |keys| == |values| && n <= |preferred|
    decreases values, 1, n
  {
    if n == 0 then []
    else
      var init := FirstVisits(keys, values, preferred, n - 1);
      match KeyIndex(keys, preferred[n - 1])
      case None => init
      case Some(i) => init + Visits(values[i], preferred)
  }

  /** Below the other keys among the first `n`, in their own order. */
  ghost function OtherVisits(keys: seq<Text>, values: seq<Json>, preferred: seq<Text>, n: nat): seq<Json>
    requires n <= |keys| == |values|
    decreases values, 1, n
  {
    if n == 0 then []
    else
      var init := OtherVisits(keys, values, preferred, n - 1);
      if keys[n - 1] in preferred then init else init + Visits(values[n - 1], preferred)
  }

  /** The strings among some values. */
  function Texts(vs: seq<Json>): seq<Text> {
    if vs == [] then []
    else if vs[|vs| - 1].Str? then Texts(vs[..|vs| - 1]) + [vs[|vs| - 1].text]
    else Texts(vs[..|vs| - 1])
  }

  lemma {:induction false} TextsMembers(vs: seq<Json>)
    ensures forall x :: x in Texts(vs) <==> Str(x) in vs
    decreases |vs|
  {
    if vs != [] {
      TextsMembers(vs[..|vs| - 1]);
      assert vs == vs[..|vs| - 1] + [vs[|vs| - 1]];
    }
  }

  /** All objects in the value have as many keys as values, and no key twice. */
  predicate Proper(v: Json)
    decreases v
  {
    match v
    case Arr(items) => forall i :: 0 <= i < |items| ==> Proper(items[i])
    case Obj(keys, values) =>
      && |keys| == |values|
      && (forall i, j :: 0 <= i < j < |keys| ==> keys[i] != keys[j])
      && forall i :: 0 <= i < |values| ==> Proper(values[i])
    case _ => true
  }

  /** Preferring some keys reorders the strings of a value; it neither loses nor adds one. */
  lemma SameStrings(v: Json, preferred: seq<Text>)
    requires Proper(v)
    ensures forall x :: x in Texts(Visits(v, preferred)) <==> x in Strings(v)
  {
    TextsMembers(Visits(v, preferred));
    forall x ensures Str(x) in Visits(v, preferred) <==> x in Strings(v) {
      VisitMembers(v, preferred, x);
    }
  }

  lemma {:induction false} VisitMembers(v: Json, preferred: seq<Text>, x: Text)
    requires Proper(v)
    ensures Str(x) in Visits(v, preferred) <==> x in Strings(v)
    decreases v, 1
  {
    match v
    case Arr(items) => ItemMembers(items, preferred, x);
    case Obj(keys, values) => ObjectMembers(keys, values, preferred, x);
    case _ =>
  }

  lemma {:induction false} ItemMembers(items: seq<Json>, preferred: seq<Text>, x: Text)
    requires forall i :: 0 <= i < |items| ==> Proper(items[i])
    ensures Str(x) in ItemVisits(items, preferred) <==> x in StringsOf(items)
    ensures x in StringsOf(items) <==> exists i :: 0 <= i < |items| && Str(x) in Visits(items[i], preferred)
    decreases items, 0
  {
    if items != [] {
      VisitMembers(items[0], preferred, x);
      ItemMembers(items[1..], preferred, x);
      assert forall i :: 0 <= i < |items| - 1 ==> items[1..][i] == items[i + 1];
      assert (exists i :: 0 <= i < |items| && Str(x) in Visits(items[i], preferred)) <==>
             Str(x) in Visits(items[0], preferred) || exists i ::
               0 <= i < |items[1..]| && Str(x) in Visits(items[1..][i], preferred) by {
        if i :| 0 <= i < |items| && Str(x) in Visits(items[i], preferred) {
          assert i > 0 ==> Str(x) in Visits(items[1..][i - 1], preferred);
        }
      }
    }
  }

  lemma ObjectMembers(keys: seq<Text>, values: seq<Json>, preferred: seq<Text>, x: Text)
    requires |keys| == |values| && (forall i, j :: 0 <= i < j < |keys| ==> keys[i] != keys[j])
    requires forall i :: 0 <= i < |values| ==> Proper(values[i])
    ensures Str(x) in FirstVisits(keys, values, preferred, |preferred|) + OtherVisits(keys, values, preferred, |values|)
            <==> x in StringsOf(values)
    decreases values, 1
  {
    ItemMembers(values, preferred, x);
    FirstMembers(keys, values, preferred, Str(x), |preferred|);
    OtherMembers(keys, values, preferred, Str(x), |values|);
    if i :| 0 <= i < |values| && Str(x) in Visits(values[i], preferred) {
      KeySomewhere(keys, values, preferred, Str(x), i);
    }
  }

  /** Every value of an object is below a preferred key or below another one. */
  lemma KeySomewhere(keys: seq<Text>, values: seq<Json>, preferred: seq<Text>, x: Json, i: nat)
    requires i < |keys| == |values| && x in Visits(values[i], preferred)
    requires forall i, j :: 0 <= i < j < |keys| ==> keys[i] != keys[j]
    ensures x in FirstVisits(keys, values, preferred, |preferred|)
      || x in OtherVisits(keys, values, preferred, |values|)
  {
    if keys[i] in preferred {
      var n :| 0 <= n < |preferred| && preferred[n] == keys[i];
      assert KeyIndex(keys, preferred[n]).Some? && KeyIndex(keys, preferred[n]).value == i;
      FirstMembers(keys, values, preferred, x, |preferred|);
    } else {
      OtherMembers(keys, values, preferred, x, |values|);
    }
  }

  lemma {:induction false} FirstMembers(keys: seq<Text>, values: seq<Json>, preferred: seq<Text>, x: Json, n: nat)
    requires |keys| == |values| && n <= |preferred|
    ensures x in FirstVisits(keys, values, preferred, n) <==>
      exists k :: 0 <= k < n && KeyIndex(keys, preferred[k]).Some?
        && x in Visits(values[KeyIndex(keys, preferred[k]).value], preferred)
    decreases n
  {
    if n > 0 { FirstMembers(keys, values, preferred, x, n - 1); }
  }

  lemma {:induction false} OtherMembers(keys: seq<Text>, values: seq<Json>, preferred: seq<Text>, x: Json, n: nat)
    requires n <= |keys| == |values|
    ensures x in OtherVisits(keys, values, preferred, n) <==>
      exists i :: 0 <= i < n && keys[i] !in preferred && x in Visits(values[i], preferred)
    decreases n
  {
    if n > 0 { OtherMembers(keys, values, preferred, x, n - 1); }
  }

  // ------------------------------------------------------------------ children and the stack

  /** Values of the first `n` preferred keys that are present. */
  function FirstChildren(keys: seq<Text>, values: seq<Json>, preferred: seq<Text>, n: nat): seq<Json>
    requires |keys| == |values| && n <= |preferred|
  {
    if n == 0 then []
    else
      var init := FirstChildren(keys, values, preferred, n - 1);
      match KeyIndex(keys, preferred[n - 1])
      case None => init
      case Some(i) => init + [values[i]]
  }

  /** Values of the other keys among the first `n`. */
  function OtherChildren(keys: seq<Text>, values: seq<Json>, preferred: seq<Text>, n: nat): seq<Json>
    requires n <= |keys| == |values|
  {
    if n == 0 then []
    else
      var init := OtherChildren(keys, values, preferred, n - 1);
      if keys[n - 1] in preferred then init else init + [values[n - 1]]
  }

  function OrderedChildren(v: Json, preferred: seq<Text>): seq<Json> {
    match v
    case Arr(items) => items
    case Obj(keys, values) =>
      if |keys| == |values|
      then FirstChildren(keys, values, preferred, |preferred|) + OtherChildren(keys, values, preferred, |values|)
      else []
    case _ => []
  }

  ghost function ListVisits(vs: seq<Json>, preferred: seq<Text>): seq<Json> {
    if vs == [] then [] else ListVisits(vs[..|vs| - 1], preferred) + Visits(vs[|vs| - 1], preferred)
  }

  lemma ListVisitsSnoc(vs: seq<Json>, v: Json, preferred: seq<Text>)
    ensures ListVisits(vs + [v], preferred) == ListVisits(vs, preferred) + Visits(v, preferred)
  {
    assert (vs + [v])[..|vs|] == vs;
  }

  lemma {:induction false} ListVisitsConcat(a: seq<Json>, b: seq<Json>, preferred: seq<Text>)
    ensures ListVisits(a + b, preferred) == ListVisits(a, preferred) + ListVisits(b, preferred)
    decreases |b|
  {
    if b == [] {
      assert a + b == a;
    } else {
      WithoutLast(a, b);
      ListVisitsConcat(a, b[..|b| - 1], preferred);
      Associative(ListVisits(a, preferred), ListVisits(b[..|b| - 1], preferred), Visits(b[|b| - 1], preferred));
    }
  }

  lemma {:induction false} FirstList(keys: seq<Text>, values: seq<Json>, preferred: seq<Text>, n: nat)
    requires |keys| == |values| && n <= |preferred|
    ensures ListVisits(FirstChildren(keys, values, preferred, n), preferred) == FirstVisits(keys, values, preferred, n)
    decreases n
  {
    if n > 0 {
      FirstList(keys, values, preferred, n - 1);
      match KeyIndex(keys, preferred[n - 1])
      case None =>
      case Some(i) => ListVisitsSnoc(FirstChildren(keys, values, preferred, n - 1), values[i], preferred);
    }
  }

  lemma {:induction false} OtherList(keys: seq<Text>, values: seq<Json>, preferred: seq<Text>, n: nat)
    requires n <= |keys| == |values|
    ensures ListVisits(OtherChildren(keys, values, preferred, n), preferred) == OtherVisits(keys, values, preferred, n)
    decreases n
  {
    if n > 0 {
      OtherList(keys, values, preferred, n - 1);
      ListVisitsSnoc(OtherChildren(keys, values, preferred, n - 1), values[n - 1], preferred);
    }
  }

  lemma {:induction false} ItemList(items: seq<Json>, preferred: seq<Text>)
    ensures ListVisits(items, preferred) == ItemVisits(items, preferred)
    decreases |items|
  {
    if items != [] {
      ItemList(items[1..], preferred);
      ListVisitsConcat([items[0]], items[1..], preferred);
      assert items == [items[0]] + items[1..] && [items[0]][..0] == [];
    }
  }

  /** A value is visited, then its children one after the other. */
  lemma VisitsOf(v: Json, preferred: seq<Text>)
    ensures Visits(v, preferred) == [v] + ListVisits(OrderedChildren(v, preferred), preferred)
  {
    match v
    case Arr(items) => ItemList(items, preferred);
    case Obj(keys, values) =>
      if |keys| == |values| {
        FirstList(keys, values, preferred, |preferred|);
        OtherList(keys, values, preferred, |values|);
        ListVisitsConcat(FirstChildren(keys, values, preferred, |preferred|),
                         OtherChildren(keys, values, preferred, |values|), preferred);
      }
    case _ =>
  }

  function Backwards(vs: seq<Json>): (r: seq<Json>)
    ensures |r| == |vs| && forall i :: 0 <= i < |r| ==> r[i] == vs[|vs| - 1 - i]
  {
    seq(|vs|, i requires 0 <= i < |vs| => vs[|vs| - 1 - i])
  }

  /** What is left to visit with these values on the stack, the next one last. */
  ghost function StackVisits(pending: seq<Json>, preferred: seq<Text>): seq<Json> {
    ListVisits(Backwards(pending), preferred)
  }

  lemma StackTop(rest: seq<Json>, v: Json, preferred: seq<Text>)
    ensures StackVisits(rest + [v], preferred) == Visits(v, preferred) + StackVisits(rest, preferred)
  {
    assert Backwards(rest + [v]) == [v] + Backwards(rest);
    ListVisitsConcat([v], Backwards(rest), preferred);
    assert [v][..0] == [];
  }

  /** Pushed last child first, the children come off in order. */
  lemma PushedBackwards(rest: seq<Json>, children: seq<Json>, preferred: seq<Text>)
    ensures StackVisits(rest + Backwards(children), preferred) ==
      ListVisits(children, preferred) + StackVisits(rest, preferred)
  {
    assert Backwards(rest + Backwards(children)) == children + Backwards(rest);
    ListVisitsConcat(children, Backwards(rest), preferred);
  }

  lemma {:induction false} AtLeastOneEach(vs: seq<Json>, preferred: seq<Text>)
    ensures |ListVisits(vs, preferred)| >= |vs|
    decreases |vs|
  {
    if vs != [] {
      AtLeastOneEach(vs[..|vs| - 1], preferred);
      VisitsOf(vs[|vs| - 1], preferred);
    }
  }

  predicate AllProper(vs: seq<Json>) {
    forall i :: 0 <= i < |vs| ==> Proper(vs[i])
  }

  lemma {:induction false} FirstProper(keys: seq<Text>, values: seq<Json>, preferred: seq<Text>, n: nat)
    requires |keys| == |values| && n <= |preferred| && AllProper(values)
    ensures AllProper(FirstChildren(keys, values, preferred, n))
    decreases n
  {
    if n > 0 { FirstProper(keys, values, preferred, n - 1); }
  }

  lemma {:induction false} OtherProper(keys: seq<Text>, values: seq<Json>, preferred: seq<Text>, n: nat)
    requires n <= |keys| == |values| && AllProper(values)
    ensures AllProper(OtherChildren(keys, values, preferred, n))
    decreases n
  {
    if n > 0 { OtherProper(keys, values, preferred, n - 1); }
  }

  lemma PushProper(rest: seq<Json>, v: Json, children: seq<Json>, preferred: seq<Text>)
    requires AllProper(rest) && Proper(v) && children <= OrderedChildren(v, preferred)
    ensures AllProper(rest + Backwards(children))
  {
    if v.Obj? {
      FirstProper(v.keys, v.values, preferred, |preferred|);
      OtherProper(v.keys, v.values, preferred, |v.values|);
    }
    assert AllProper(OrderedChildren(v, preferred));
    assert forall i :: 0 <= i < |children| ==> children[i] == OrderedChildren(v, preferred)[i];
  }

  function FromString(s: string): Text {
    seq(|s|, i requires 0 <= i < |s| => s[i] as int as CodePoint)
  }

  const PREFERRED: seq<Text> := [FromString("types"), FromString("typings"), FromString("import"),
                                 FromString("default"), FromString("require"), FromString("node")]
}
