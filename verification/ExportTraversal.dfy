/**
 Traversal of the `exports` value of a package manifest under limits (`_PackageExportTraversal` and
 `_iter_package_export_strings` in analyzers/typescript.py). Deadline checks do nothing in the model.
 */
module ExportTraversal {
  import opened ExportTexts
  import opened Wrappers

  datatype Json = Str(text: Text) | Arr(items: seq<Json>) | Obj(keys: seq<Text>, values: seq<Json>) | Scalar

  const ENTRY_LIMIT: nat := 4_096
  const TARGET_LIMIT: nat := 256
  const SINGLE_TARGET_BYTE_LIMIT: nat := 64 * 1024
  const TARGET_BYTES_LIMIT: nat := 1024 * 1024

  /** The distinct targets fit the limits on their number and total size. */
  predicate Retainable(offered: seq<Text>) {
    |FirstOccurrences(offered)| <= TARGET_LIMIT && TotalBytes(FirstOccurrences(offered)) <= TARGET_BYTES_LIMIT
  }

  lemma RetainablePrefix(a: seq<Text>, b: seq<Text>)
    requires a <= b && Retainable(b)
    ensures Retainable(a)
  {
    assert b == a + b[|a|..];
    FirstOccurrencesGrow(a, b[|a|..]);
    TotalBytesGrow(FirstOccurrences(a), FirstOccurrences(b));
  }

  // ------------------------------------------------------------------ the recursive flatten

  function Strings(v: Json): seq<Text>
    decreases v
  {
    match v
    case Str(text) => [text]
    case Arr(items) => StringsOf(items)
    case Obj(_, values) => StringsOf(values)
    case Scalar => []
  }

  /** Left to right. */
  function StringsOf(vs: seq<Json>): seq<Text>
    decreases vs
  {
    if vs == [] then [] else Strings(vs[0]) + StringsOf(vs[1..])
  }

  function Nodes(v: Json): nat
    decreases v
  {
    match v
    case Arr(items) => 1 + NodesOf(items)
    case Obj(_, values) => 1 + NodesOf(values)
    case _ => 1
  }

  function NodesOf(vs: seq<Json>): nat
    decreases vs
  {
    if vs == [] then 0 else Nodes(vs[0]) + NodesOf(vs[1..])
  }

  function Expanded(item: Text, wildcard: Option<Text>): Text {
    if wildcard.Some? then Substitute(item, wildcard.value) else item
  }

  function ExpandedAll(items: seq<Text>, wildcard: Option<Text>): (r: seq<Text>)
    ensures |r| == |items| && forall i :: 0 <= i < |r| ==> r[i] == Expanded(items[i], wildcard)
  {
    seq(|items|, i requires 0 <= i < |items| => Expanded(items[i], wildcard))
  }

  /** The target of an item can be measured and is small enough by itself. */
  predicate Acceptable(item: Text, wildcard: Option<Text>) {
    && SafeSize(item).Some? && (wildcard.Some? ==> SafeSize(wildcard.value).Some?)
    && SafeSize(Expanded(item, wildcard)).Some?
    && SafeSize(Expanded(item, wildcard)).value <= SINGLE_TARGET_BYTE_LIMIT
  }

  /** The whole value fits what is left of every limit. */
  /** The target of an item is acceptable by itself, and the distinct targets fit with it. */
  ghost predicate TargetFits(offered: seq<Text>, item: Text, wildcard: Option<Text>) {
    Acceptable(item, wildcard) && Retainable(offered + [Expanded(item, wildcard)])
  }

  ghost predicate Fits(entries: nat, offered: seq<Text>, v: Json, wildcard: Option<Text>) {
    && entries + Nodes(v) <= ENTRY_LIMIT
    && (forall i :: 0 <= i < |Strings(v)| ==> Acceptable(Strings(v)[i], wildcard))
    && Retainable(offered + ExpandedAll(Strings(v), wildcard))
  }

  /** What offering the strings of a value comes to: the value fits or a prefix is offered. */
  ghost predicate IsOffer(v: Json, wildcard: Option<Text>, entries: nat, offered: seq<Text>, finished: bool,
                          after: nat, more: seq<Text>) {
    && (finished <==> Fits(entries, offered, v, wildcard))
    && (finished ==> after == entries + Nodes(v) && more == offered + ExpandedAll(Strings(v), wildcard))
    && offered <= more <= offered + ExpandedAll(Strings(v), wildcard)
  }

  /** Iterators still open, innermost last. */
  ghost function StackStrings(stack: seq<seq<Json>>): seq<Text> {
    if stack == [] then [] else StringsOf(stack[|stack| - 1]) + StackStrings(stack[..|stack| - 1])
  }

  ghost function StackNodes(stack: seq<seq<Json>>): nat {
    if stack == [] then 0 else NodesOf(stack[|stack| - 1]) + StackNodes(stack[..|stack| - 1])
  }

  /** The innermost iterator one item further. */
  function Advanced(stack: seq<seq<Json>>): seq<seq<Json>>
    requires stack != [] && stack[|stack| - 1] != []
  {
    stack[..|stack| - 1] + [stack[|stack| - 1][1..]]
  }

  /** Taking the next item off the innermost iterator. */
  lemma NextItem(stack: seq<seq<Json>>)
    requires stack != [] && stack[|stack| - 1] != []
    ensures var item, rest := stack[|stack| - 1][0], Advanced(stack);
            && StackStrings(stack) == Strings(item) + StackStrings(rest)
            && StackNodes(stack) == Nodes(item) + StackNodes(rest)
  {
    var top, below := stack[|stack| - 1], stack[..|stack| - 1];
    assert Advanced(stack)[..|below|] == below;
    assert Strings(top[0]) + StringsOf(top[1..]) + StackStrings(below)
        == Strings(top[0]) + (StringsOf(top[1..]) + StackStrings(below));
  }

  lemma Opened(stack: seq<seq<Json>>, items: seq<Json>)
    ensures StackStrings(stack + [items]) == StringsOf(items) + StackStrings(stack)
    ensures StackNodes(stack + [items]) == NodesOf(items) + StackNodes(stack)
  {
    assert (stack + [items])[..|stack|] == stack;
  }

  // ------------------------------------------------------------------ the bounded traversal

  ghost predicate EachSmall(targets: seq<Text>) {
    forall i :: 0 <= i < |targets| ==> Small(targets[i])
  }

  ghost predicate Small(target: Text) {
    SafeSize(target).Some? && SafeSize(target).value <= SINGLE_TARGET_BYTE_LIMIT
  }

  class PackageExportTraversal {
    var entries: nat
    var targets: seq<Text>
    var targetBytes: nat
    var truncated: bool
    /** How often the limit callback ran. */
    var reports: nat
    /** Every target offered and accepted, repeats included. */
    ghost var offered: seq<Text>

    /** The limits hold, the counters are exact, and the limit is reported once. */
    ghost predicate Valid()
      reads this
    {
      && entries <= ENTRY_LIMIT
      && targets == FirstOccurrences(offered) && targetBytes == TotalBytes(targets) && Retainable(offered)
      && EachSmall(targets) && reports == if truncated then 1 else 0
    }

    constructor ()
      ensures Valid() && entries == 0 && targets == [] && offered == [] && !truncated
    {
      entries, targets, targetBytes, truncated, reports, offered := 0, [], 0, false, 0, [];
    }

    method MarkTruncated()
      requires Valid()
      modifies `truncated, `reports
      ensures Valid() && truncated
    {
      if truncated {
        return;
      }
      truncated := true;
      reports := reports + 1;
    }

    method Visit() returns (ok: bool)
      requires Valid()
      modifies `entries, `truncated, `reports
      ensures Valid() && ok == (old(entries) < ENTRY_LIMIT)
      ensures ok ==> entries == old(entries) + 1 && truncated == old(truncated)
      ensures !ok ==> entries == old(entries) && truncated
    {
      if entries >= ENTRY_LIMIT {
        MarkTruncated();
        return false;
      }
      entries := entries + 1;
      return true;
    }

    /** Keeps a new target if its size and the distinct targets with it fit. */
    method Retain(target: Text, size: nat) returns (ok: bool)
      requires Valid() && target !in targets && SafeSize(target) == Some(size)
      modifies `targets, `targetBytes, `truncated, `reports, `offered
      ensures Valid()
      ensures ok <==> size <= SINGLE_TARGET_BYTE_LIMIT && Retainable(old(offered) + [target])
      ensures ok <==> size <= SINGLE_TARGET_BYTE_LIMIT && |old(targets)| < TARGET_LIMIT
                      && size <= TARGET_BYTES_LIMIT - old(targetBytes)
      ensures ok ==> offered == old(offered) + [target] && truncated == old(truncated)
      ensures !ok ==> offered == old(offered) && truncated
    {
      NewTarget(offered, targets, targetBytes, target, size);
      if |targets| >= TARGET_LIMIT || size > SINGLE_TARGET_BYTE_LIMIT || size > TARGET_BYTES_LIMIT - targetBytes {
        MarkTruncated();
        return false;
      }
      targets := targets + [target];
      targetBytes := targetBytes + size;
      offered := offered + [target];
      return true;
    }

    /** A target that is held already is accepted again and changes nothing. */
    ghost method Repeat(target: Text)
      requires Valid() && target in targets
      modifies `offered
      ensures Valid() && offered == old(offered) + [target] && Retainable(old(offered) + [target])
      ensures SafeSize(target).Some? && SafeSize(target).value <= SINGLE_TARGET_BYTE_LIMIT
    {
      OneMore(offered, target);
      OneMoreRetainable(offered, target);
      offered := offered + [target];
    }

    /** Accepts the target of `item` exactly when it is acceptable by itself and the distinct targets
        still fit with it. */
    method AddTarget(item: Text, wildcard: Option<Text>) returns (ok: bool)
      requires Valid()
      modifies `targets, `targetBytes, `truncated, `reports, `offered
      ensures Valid()
      ensures ok <==> TargetFits(old(offered), item, wildcard)
      ensures var target := Expanded(item, wildcard);
              ok <==> SafeSize(item).Some? && (wildcard.Some? ==> SafeSize(wildcard.value).Some?)
                      && SafeSize(target).Some? && SafeSize(target).value <= SINGLE_TARGET_BYTE_LIMIT
                      && (target in old(targets)
                          || (|old(targets)| < TARGET_LIMIT
                              && SafeSize(target).value <= TARGET_BYTES_LIMIT - old(targetBytes)))
      ensures ok ==> offered == old(offered) + [Expanded(item, wildcard)] && truncated == old(truncated)
      ensures !ok ==> offered == old(offered) && truncated
    {
      if wildcard.None? {
        if item in targets {
          Repeat(item);
          return true;
        }
        if SafeSize(item).None? {
          MarkTruncated();
          return false;
        }
        ok := Retain(item, SafeSize(item).value);
      } else {
        if SafeSize(item).None? || SafeSize(wildcard.value).None? {
          MarkTruncated();
          return false;
        }
        var size := PredictedSize(item, wildcard.value);
        SubstitutionSize(item, wildcard.value);
        if size > SINGLE_TARGET_BYTE_LIMIT {
          MarkTruncated();
          return false;
        }
        var target := Substitute(item, wildcard.value);
        if target in targets {
          Repeat(target);
          return true;
        }
        ok := Retain(target, size);
      }
    }

    /** Offers the string just visited. */
    method OfferString(ghost value: Json, wildcard: Option<Text>, ghost before: seq<Text>, ghost start: nat,
                       ghost iterators: seq<seq<Json>>, text: Text, ghost done: nat)
      returns (ok: bool, ghost nextDone: nat)
      requires Valid() && entries > 0 && iterators != [] && iterators[|iterators| - 1] != []
      requires iterators[|iterators| - 1][0] == Str(text)
      requires InProgress(value, wildcard, before, start, iterators, entries - 1, offered, done)
      modifies `targets, `targetBytes, `truncated, `reports, `offered
      ensures Valid()
      ensures ok ==> truncated == old(truncated)
      ensures Stepped(value, wildcard, before, start, iterators, Advanced(iterators), entries, offered, nextDone, ok)
      ensures !ok ==> truncated && offered == old(offered)
    {
      nextDone := done + 1;
      ghost var was := offered;
      ok := AddTarget(text, wildcard);
      StringOffered(value, wildcard, before, start, iterators, text, entries - 1, was, done, ok, offered);
    }

    /** Visits the next item of the innermost iterator. */
    method VisitItem(ghost value: Json, wildcard: Option<Text>, ghost before: seq<Text>, ghost start: nat,
                     iterators: seq<seq<Json>>, ghost done: nat)
      returns (ok: bool, next: seq<seq<Json>>, ghost nextDone: nat)
      requires Valid() && iterators != [] && iterators[|iterators| - 1] != []
      requires InProgress(value, wildcard, before, start, iterators, entries, offered, done)
      modifies this
      ensures Valid()
      ensures ok ==> InProgress(value, wildcard, before, start, next, entries, offered, nextDone)
                     && StackNodes(next) < StackNodes(iterators) && truncated == old(truncated)
      ensures !ok ==> !Fits(start, before, value, wildcard) && truncated && offered == old(offered)
    {
      var top := iterators[|iterators| - 1];
      var item := top[0];
      var rest := Advanced(iterators);
      nextDone := done;
      ok := Visit();
      if !ok {
        StoppedByEntries(value, wildcard, before, start, iterators, offered, done);
        return ok, iterators, done;
      }
      match item {
        case Str(text) =>
          next := rest;
          ok, nextDone := OfferString(value, wildcard, before, start, iterators, text, done);
        case Arr(items) =>
          next := rest + [items];
          NextContainer(value, wildcard, before, start, iterators, entries - 1, offered, done);
        case Obj(_, values) =>
          next := rest + [values];
          NextContainer(value, wildcard, before, start, iterators, entries - 1, offered, done);
        case Scalar =>
          next := rest;
          NextItem(iterators);
      }
    }

    /** Visits a value with a stack of iterators. It finishes exactly when the whole value fits, and then
        offers what the recursive flatten lists; otherwise it offers a prefix of that and is truncated. */
    method IterStrings(value: Json, wildcard: Option<Text>) returns (added: seq<Text>, ghost finished: bool)
      requires Valid()
      modifies this
      ensures Valid() && targets == old(targets) + added
      ensures IsOffer(value, wildcard, old(entries), old(offered), finished, entries, offered)
      ensures truncated == (old(truncated) || !finished)
    {
      var startingTargets := |targets|;
      ghost var before, start := offered, entries;
      ghost var done := 0;
      var iterators: seq<seq<Json>> := [[value]];
      finished := true;
      StartStack(value);
      while iterators != []
        invariant Valid() && finished && truncated == old(truncated)
        invariant InProgress(value, wildcard, before, start, iterators, entries, offered, done)
        decreases StackNodes(iterators), |iterators|
      {
        if iterators[|iterators| - 1] == [] {
          iterators := iterators[..|iterators| - 1];
          continue;
        }
        var ok, next, nextDone := VisitItem(value, wildcard, before, start, iterators, done);
        if !ok {
          finished := false;
          break;
        }
        iterators, done := next, nextDone;
      }
      if finished {
        AllVisited(value, wildcard, before, start, entries, offered, done);
      } else {
        OfferedPrefix(before, Strings(value), wildcard, done);
      }
      OfferedGrows(before, offered);
      added := targets[startingTargets..];
    }
  }

  lemma NewSize(targets: seq<Text>, target: Text, size: nat)
    requires SafeSize(target) == Some(size)
    ensures TotalBytes(targets + [target]) == TotalBytes(targets) + size
  {
    var more := targets + [target];
    assert more[..|more| - 1] == targets && more[|more| - 1] == target;
  }

  lemma RetainableCounts(offered: seq<Text>, targets: seq<Text>, bytes: nat)
    requires targets == FirstOccurrences(offered) && bytes == TotalBytes(targets)
    ensures Retainable(offered) <==> |targets| <= TARGET_LIMIT && bytes <= TARGET_BYTES_LIMIT
  {
  }

  /** A target not held yet. */
  lemma NewTarget(offered: seq<Text>, targets: seq<Text>, targetBytes: nat, target: Text, size: nat)
    requires targets == FirstOccurrences(offered) && targetBytes == TotalBytes(targets)
    requires target !in targets && SafeSize(target) == Some(size)
    ensures FirstOccurrences(offered + [target]) == targets + [target]
    ensures TotalBytes(targets + [target]) == targetBytes + size
    ensures Retainable(offered + [target]) <==>
      |targets| < TARGET_LIMIT && size <= TARGET_BYTES_LIMIT - targetBytes
  {
    FirstOccurrencesSnoc(offered, target);
    NewSize(targets, target, size);
    RetainableCounts(offered + [target], targets + [target], targetBytes + size);
  }

  // ------------------------------------------------------------------ where the loop stands

  /** `before` and the targets of the first `n` strings. */
  ghost function OfferedUpTo(before: seq<Text>, all: seq<Text>, wildcard: Option<Text>, n: nat): seq<Text>
    requires n <= |all|
  {
    if n == 0 then before else OfferedUpTo(before, all, wildcard, n - 1) + [Expanded(all[n - 1], wildcard)]
  }

  ghost predicate AcceptableUpTo(all: seq<Text>, wildcard: Option<Text>, n: nat) {
    n <= |all| && forall i :: 0 <= i < n ==> Acceptable(all[i], wildcard)
  }

  ghost predicate InProgress(value: Json, wildcard: Option<Text>, before: seq<Text>, start: nat,
                             iterators: seq<seq<Json>>, entries: nat, offered: seq<Text>, done: nat) {
    && AcceptableUpTo(Strings(value), wildcard, done)
    && Strings(value)[done..] == StackStrings(iterators)
    && offered == OfferedUpTo(before, Strings(value), wildcard, done)
    && entries + StackNodes(iterators) == start + Nodes(value)
  }

  lemma {:induction false} OfferedIsConcat(before: seq<Text>, all: seq<Text>, wildcard: Option<Text>, n: nat)
    requires n <= |all|
    ensures OfferedUpTo(before, all, wildcard, n) == before + ExpandedAll(all, wildcard)[..n]
    decreases n
  {
    if n > 0 {
      OfferedIsConcat(before, all, wildcard, n - 1);
      TakeSnoc(ExpandedAll(all, wildcard), n);
    }
  }

  lemma TakeSnoc(s: seq<Text>, n: nat)
    requires 0 < n <= |s|
    ensures s[..n] == s[..n - 1] + [s[n - 1]]
  {
  }

  lemma OfferedPrefix(before: seq<Text>, all: seq<Text>, wildcard: Option<Text>, n: nat)
    requires n <= |all|
    ensures before <= OfferedUpTo(before, all, wildcard, n) <= before + ExpandedAll(all, wildcard)
  {
    OfferedIsConcat(before, all, wildcard, n);
  }

  lemma OfferedGrows(before: seq<Text>, offered: seq<Text>)
    requires before <= offered
    ensures |FirstOccurrences(before)| <= |FirstOccurrences(offered)|
    ensures FirstOccurrences(offered) ==
      FirstOccurrences(before) + FirstOccurrences(offered)[|FirstOccurrences(before)|..]
  {
    Continues(before, offered);
    FirstOccurrencesGrow(before, offered[|before|..]);
    Continues(FirstOccurrences(before), FirstOccurrences(offered));
  }

  lemma Continues(a: seq<Text>, b: seq<Text>)
    requires a <= b
    ensures b == a + b[|a|..]
  {
  }

  /** The next string is the one the iterators give. */
  lemma NextString(value: Json, wildcard: Option<Text>, before: seq<Text>, start: nat, iterators: seq<seq<Json>>,
                   entries: nat, offered: seq<Text>, done: nat)
    requires InProgress(value, wildcard, before, start, iterators, entries, offered, done)
    requires iterators != [] && iterators[|iterators| - 1] != [] && iterators[|iterators| - 1][0].Str?
    ensures var top := iterators[|iterators| - 1];
            var rest := Advanced(iterators);
            && done < |Strings(value)| && Strings(value)[done] == top[0].text
            && StackNodes(rest) < StackNodes(iterators)
            && (Acceptable(top[0].text, wildcard) ==>
                  InProgress(value, wildcard, before, start, rest, entries + 1,
                             offered + [Expanded(top[0].text, wildcard)], done + 1))
  {
    NextItem(iterators);
    var all := Strings(value);
    var top := iterators[|iterators| - 1];
    var rest := Advanced(iterators);
    assert all[done..] == [top[0].text] + StackStrings(rest);
    assert all[done] == all[done..][0];
    assert all[done + 1..] == all[done..][1..];
  }

  /** An item further, or at the end because the value does not fit. */
  ghost predicate Stepped(value: Json, wildcard: Option<Text>, before: seq<Text>, start: nat,
                          iterators: seq<seq<Json>>, rest: seq<seq<Json>>, entries: nat, offered: seq<Text>,
                          done: nat, ok: bool) {
    && StackNodes(rest) < StackNodes(iterators)
    && (if ok then InProgress(value, wildcard, before, start, rest, entries, offered, done)
        else !Fits(start, before, value, wildcard))
  }

  /** The outcome of offering the next string. */
  lemma StringOffered(value: Json, wildcard: Option<Text>, before: seq<Text>, start: nat, iterators: seq<seq<Json>>,
                      text: Text, entries: nat, offered: seq<Text>, done: nat, ok: bool, after: seq<Text>)
    requires InProgress(value, wildcard, before, start, iterators, entries, offered, done)
    requires iterators != [] && iterators[|iterators| - 1] != [] && iterators[|iterators| - 1][0] == Str(text)
    requires ok <==> TargetFits(offered, text, wildcard)
    requires after == if ok then offered + [Expanded(text, wildcard)] else offered
    ensures Stepped(value, wildcard, before, start, iterators, Advanced(iterators), entries + 1, after, done + 1, ok)
  {
    NextString(value, wildcard, before, start, iterators, entries, offered, done);
    if !ok {
      StoppedByTarget(value, wildcard, before, done, start, offered);
    }
  }

  function Children(item: Json): seq<Json> {
    match item
    case Arr(items) => items
    case Obj(_, values) => values
    case _ => []
  }

  lemma NextContainer(value: Json, wildcard: Option<Text>, before: seq<Text>, start: nat, iterators: seq<seq<Json>>,
                      entries: nat, offered: seq<Text>, done: nat)
    requires InProgress(value, wildcard, before, start, iterators, entries, offered, done)
    requires iterators != [] && iterators[|iterators| - 1] != []
    requires iterators[|iterators| - 1][0].Arr? || iterators[|iterators| - 1][0].Obj?
    ensures var top := iterators[|iterators| - 1];
            var next := Advanced(iterators) + [Children(top[0])];
            && StackNodes(next) < StackNodes(iterators)
            && InProgress(value, wildcard, before, start, next, entries + 1, offered, done)
  {
    NextItem(iterators);
    var top := iterators[|iterators| - 1];
    Opened(Advanced(iterators), Children(top[0]));
  }

  lemma StoppedByEntries(value: Json, wildcard: Option<Text>, before: seq<Text>, start: nat, iterators: seq<seq<Json>>,
                         offered: seq<Text>, done: nat)
    requires InProgress(value, wildcard, before, start, iterators, ENTRY_LIMIT, offered, done)
    requires iterators != [] && iterators[|iterators| - 1] != []
    ensures !Fits(start, before, value, wildcard)
  {
    NextItem(iterators);
  }

  /** If the next string's target is refused, the whole value does not fit. */
  lemma StoppedByTarget(value: Json, wildcard: Option<Text>, before: seq<Text>, done: nat, start: nat,
                        offered: seq<Text>)
    requires done < |Strings(value)| && offered == OfferedUpTo(before, Strings(value), wildcard, done)
    requires !(Acceptable(Strings(value)[done], wildcard)
               && Retainable(offered + [Expanded(Strings(value)[done], wildcard)]))
    ensures !Fits(start, before, value, wildcard)
  {
    var all := Strings(value);
    OfferedPrefix(before, all, wildcard, done + 1);
    if Fits(start, before, value, wildcard) {
      RetainablePrefix(OfferedUpTo(before, all, wildcard, done + 1), before + ExpandedAll(all, wildcard));
    }
  }

  lemma AllVisited(value: Json, wildcard: Option<Text>, before: seq<Text>, start: nat, entries: nat,
                   offered: seq<Text>, done: nat)
    requires InProgress(value, wildcard, before, start, [], entries, offered, done)
    requires entries <= ENTRY_LIMIT && Retainable(offered)
    ensures Fits(start, before, value, wildcard)
    ensures offered == before + ExpandedAll(Strings(value), wildcard) && before <= offered
    ensures entries == start + Nodes(value)
  {
    var all := Strings(value);
    assert |all[done..]| == 0;
    OfferedIsConcat(before, all, wildcard, done);
    assert ExpandedAll(all, wildcard)[..done] == ExpandedAll(all, wildcard);
  }

  lemma OneMore(offered: seq<Text>, target: Text)
    ensures FirstOccurrences(offered + [target]) ==
            if target in FirstOccurrences(offered) then FirstOccurrences(offered)
              else FirstOccurrences(offered) + [target]
    ensures TotalBytes(FirstOccurrences(offered) + [target]) ==
            TotalBytes(FirstOccurrences(offered)) + (match SafeSize(target) case Some(n) => n case None => 0)
  {
    FirstOccurrencesSnoc(offered, target);
    var s := FirstOccurrences(offered);
    assert (s + [target])[..|s|] == s;
  }

  lemma OneMoreRetainable(offered: seq<Text>, target: Text)
    requires Retainable(offered)
    ensures target in FirstOccurrences(offered) ==> Retainable(offered + [target])
    ensures target !in FirstOccurrences(offered) && SafeSize(target).Some? ==>
      (Retainable(offered + [target]) <==>
         |FirstOccurrences(offered)| < TARGET_LIMIT
         && SafeSize(target).value <= TARGET_BYTES_LIMIT - TotalBytes(FirstOccurrences(offered)))
  {
    OneMore(offered, target);
  }

  lemma StartStack(value: Json)
    ensures StackStrings([[value]]) == Strings(value) && StackNodes([[value]]) == Nodes(value)
  {
    assert [[value]][..0] == [] && [value][1..] == [];
    Opened([], [value]);
    assert [] + [[value]] == [[value]];
  }
}
