/**
 The expansion budget of the analyzer runtime (bounded-expansion.ts): entries visited, results and bytes
 retained. Strings are code points, so a lone surrogate never joins another on substitution.
 */
module BoundedExpansion {
  import opened ExportTexts
  import opened Wrappers

  // ------------------------------------------------------------------ byte lengths

  /** Bytes of one code point; a lone surrogate is written as the replacement character. */
  function Bytes(c: CodePoint): nat {
    if c < 0x80 then 1 else if c < 0x800 then 2 else if c < 0x1_0000 then 3 else 4
  }

  /** They are the bytes of UTF-8, and three where that has none. */
  lemma BytesMeaning(c: CodePoint)
    ensures !(0xD800 <= c <= 0xDFFF) ==> Encoded(c).Some? && Bytes(c) == |Encoded(c).value|
    ensures 0xD800 <= c <= 0xDFFF ==> Bytes(c) == 3
  {
  }

  function ByteLength(s: Text): nat {
    if s == [] then 0 else ByteLength(s[..|s| - 1]) + Bytes(s[|s| - 1])
  }

  lemma {:induction false} ByteLengthConcat(a: Text, b: Text)
    ensures ByteLength(a + b) == ByteLength(a) + ByteLength(b)
    decreases |b|
  {
    if b == [] {
      assert a + b == a;
    } else {
      ByteLengthConcat(a, b[..|b| - 1]);
      assert (a + b)[..|a + b| - 1] == a + b[..|b| - 1];
    }
  }

  /** What the budget charges for a substitution. */
  function ResultBytes(target: Text, wildcard: Text): int {
    ByteLength(target) - Stars(target) + Stars(target) * ByteLength(wildcard)
  }

  lemma OneMoreTime(k: nat, n: nat)
    ensures (k + 1) * n == k * n + n
  {
  }

  /** The charge is the length of the substitution. */
  lemma {:induction false} ChargeIsLength(target: Text, wildcard: Text)
    ensures ByteLength(Substitute(target, wildcard)) == ResultBytes(target, wildcard)
    ensures Stars(target) <= ByteLength(target)
    decreases |target|
  {
    if target != [] {
      var init, last := target[..|target| - 1], target[|target| - 1];
      ChargeIsLength(init, wildcard);
      OneMoreTime(Stars(init), ByteLength(wildcard));
      ByteLengthConcat(Substitute(init, wildcard), if last == STAR then wildcard else [last]);
      assert ByteLength([last]) == Bytes(last) by { assert [last][..0] == []; }
    }
  }

  lemma Scaled(count: nat, a: nat, b: nat)
    requires a <= b
    ensures count * a <= count * b
  {
    assert count * b == count * a + count * (b - a);
  }

  /** The division guard is the comparison it stands for. */
  lemma DivisionGuard(room: nat, count: nat, each: nat)
    requires count > 0
    ensures each > room / count <==> count * each > room
  {
    var q := room / count;
    assert count * q <= room < count * (q + 1);
    if each > q { Scaled(count, q + 1, each); } else { Scaled(count, each, q); }
  }

  // ------------------------------------------------------------------ the budget

  /** What the two guards before substituting say about the length of the substitution. */
  lemma GuardMeaning(target: Text, wildcard: Text, max: nat)
    ensures Stars(target) <= ByteLength(target)
    ensures var count, length := Stars(target), ByteLength(Substitute(target, wildcard));
            var fixed := ByteLength(target) - count;
            && (fixed > max ==> length > max)
            && (fixed <= max && count > 0 ==> (ByteLength(wildcard) > (max - fixed) / count <==> length > max))
            && (fixed <= max && count == 0 ==> length <= max)
  {
    ChargeIsLength(target, wildcard);
    var count := Stars(target);
    var fixed := ByteLength(target) - count;
    if fixed <= max && count > 0 { DivisionGuard(max - fixed, count, ByteLength(wildcard)); }
  }

  const MAX_SAFE_INTEGER: int := 0x1F_FFFF_FFFF_FFFF

  /** What the budget can still retain: results, bytes of each and bytes in all. */
  datatype Allowance = Allowance(results: int, each: nat, bytes: int)
  {
    predicate Takes(size: nat) {
      results > 0 && size <= each && size <= bytes
    }
  }

  class Budget {
    const maxResults: nat
    const maxResultBytes: nat
    const maxTotalBytes: nat
    const maxTraversalEntries: nat
    var retainedResults: nat
    var retainedBytes: nat
    var traversedEntries: nat
    var limited: bool

    ghost predicate Valid()
      reads this
    {
      retainedResults <= maxResults && retainedBytes <= maxTotalBytes && traversedEntries <= maxTraversalEntries
    }

    constructor (maxResults: nat, maxResultBytes: nat, maxTotalBytes: nat, maxTraversalEntries: nat)
      ensures Valid() && !limited && retainedResults == retainedBytes == traversedEntries == 0
      ensures this.maxResults == maxResults && this.maxResultBytes == maxResultBytes
      ensures this.maxTotalBytes == maxTotalBytes && this.maxTraversalEntries == maxTraversalEntries
    {
      this.maxResults, this.maxResultBytes := maxResults, maxResultBytes;
      this.maxTotalBytes, this.maxTraversalEntries := maxTotalBytes, maxTraversalEntries;
      retainedResults, retainedBytes, traversedEntries, limited := 0, 0, 0, false;
    }

    /** Reserves `count` entries, all or none. */
    method ReserveTraversal(count: int := 1) returns (ok: bool)
      requires Valid()
      modifies `traversedEntries, `limited
      ensures Valid()
      ensures ok <==> 0 <= count <= MAX_SAFE_INTEGER && old(traversedEntries) + count <= maxTraversalEntries
      ensures traversedEntries == old(traversedEntries) + if ok then count else 0
      ensures limited == (old(limited) || !ok)
    {
      if count < 0 || count > MAX_SAFE_INTEGER || count > maxTraversalEntries - traversedEntries {
        limited := true;
        return false;
      }
      traversedEntries := traversedEntries + count;
      return true;
    }

    function Left(): Allowance
      reads this
    {
      Allowance(maxResults - retainedResults, maxResultBytes, maxTotalBytes - retainedBytes)
    }

    method ReserveResult(resultBytes: nat) returns (ok: bool)
      requires Valid()
      modifies `retainedResults, `retainedBytes, `limited
      ensures Valid() && (ok <==> old(Left()).Takes(resultBytes))
      ensures ok <==> old(retainedResults) < maxResults && resultBytes <= maxResultBytes
                      && old(retainedBytes) + resultBytes <= maxTotalBytes
      ensures retainedResults == old(retainedResults) + if ok then 1 else 0
      ensures retainedBytes == old(retainedBytes) + if ok then resultBytes else 0
      ensures limited == (old(limited) || !ok)
    {
      if retainedResults >= maxResults || resultBytes > maxResultBytes || resultBytes > maxTotalBytes - retainedBytes {
        limited := true;
        return false;
      }
      retainedResults := retainedResults + 1;
      retainedBytes := retainedBytes + resultBytes;
      return true;
    }

    /** The substitution, unless it is known already or does not fit; the budget is charged its true length. */
    method WildcardSubstitution(target: Text, wildcard: Text, seen: set<Text>) returns (result: Option<Text>)
      requires Valid()
      modifies `retainedResults, `retainedBytes, `limited
      ensures Valid()
      ensures var expanded := Substitute(target, wildcard);
              && result == (if expanded !in seen && old(Left()).Takes(ByteLength(expanded)) then Some(expanded)
                            else None)
              && retainedResults == old(retainedResults) + (if result.Some? then 1 else 0)
              && retainedBytes == old(retainedBytes) + (if result.Some? then ByteLength(expanded) else 0)
              && limited == (old(limited)
                             || (result.None? && (expanded !in seen || ByteLength(expanded) > maxResultBytes)))
    {
      var count := Stars(target);
      ChargeIsLength(target, wildcard);
      GuardMeaning(target, wildcard, maxResultBytes);
      var staticBytes: nat := ByteLength(target) - count;
      var resultBytes := staticBytes + count * ByteLength(wildcard);
      if staticBytes > maxResultBytes {
        limited := true;
        return None;
      }
      if count > 0 {
        if ByteLength(wildcard) > (maxResultBytes - staticBytes) / count {
          limited := true;
          return None;
        }
      }
      var expanded := Substitute(target, wildcard);
      if expanded in seen {
        return None;
      }
      var ok := ReserveResult(resultBytes);
      if !ok {
        return None;
      }
      return Some(expanded);
    }
  }
}
