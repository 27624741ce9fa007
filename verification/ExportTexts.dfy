/**
 Texts of package exports: their sizes as file names, putting a wildcard into a target, and taking it out of
 a key (`_PackageExportTraversal` and `_match_package_export_pattern` in analyzers/typescript.py).
 */
module ExportTexts {
  import opened Wrappers

  /** Python strings: sequences of code points, lone surrogates included. */
  newtype CodePoint = x: int | 0 <= x < 0x11_0000
  type Text = seq<CodePoint>

  const STAR: CodePoint := 42
  const DOT: CodePoint := 46
  const SLASH: CodePoint := 47

  // ------------------------------------------------------------------ sizes

  /** Bytes of one code point as a file name; only escaped bytes may be surrogates. */
  function Width(c: CodePoint): Option<nat> {
    if c < 0x80 then Some(1)
    else if c < 0x800 then Some(2)
    else if 0xDC80 <= c <= 0xDCFF then Some(1)
    else if 0xD800 <= c <= 0xDFFF then None
    else if c < 0x1_0000 then Some(3)
    else Some(4)
  }

  /** The bytes of a code point in UTF-8; an escaped byte is that byte, and other surrogates have none. */
  function Encoded(c: CodePoint): Option<seq<int>> {
    var x := c as int;
    if x < 0x80 then Some([x])
    else if x < 0x800 then Some([0xC0 + x / 0x40, 0x80 + x % 0x40])
    else if 0xDC80 <= x <= 0xDCFF then Some([x - 0xDC00])
    else if 0xD800 <= x <= 0xDFFF then None
    else if x < 0x1_0000 then Some([0xE0 + x / 0x40 / 0x40, 0x80 + x / 0x40 % 0x40, 0x80 + x % 0x40])
    else
      Some([0xF0 + x / 0x40 / 0x40 / 0x40, 0x80 + x / 0x40 / 0x40 % 0x40, 0x80 + x / 0x40 % 0x40, 0x80 + x % 0x40])
  }

  /** The code point that such bytes stand for. */
  function Decoded(bytes: seq<int>): int {
    if |bytes| == 1 then (if bytes[0] < 0x80 then bytes[0] else bytes[0] + 0xDC00)
    else if |bytes| == 2 then (bytes[0] - 0xC0) * 0x40 + bytes[1] - 0x80
    else if |bytes| == 3 then ((bytes[0] - 0xE0) * 0x40 + bytes[1] - 0x80) * 0x40 + bytes[2] - 0x80
    else if |bytes| == 4 then
      (((bytes[0] - 0xF0) * 0x40 + bytes[1] - 0x80) * 0x40 + bytes[2] - 0x80) * 0x40 + bytes[3] - 0x80
    else -1
  }

  lemma SixBits(x: nat)
    ensures x == x / 0x40 * 0x40 + x % 0x40 && 0 <= x % 0x40 < 0x40
  {
  }

  lemma SixBitsBelow(x: nat, limit: nat)
    requires x < limit * 0x40
    ensures x / 0x40 < limit
  {
  }

  predicate Bytes(s: seq<int>) {
    forall i :: 0 <= i < |s| ==> 0 <= s[i] < 0x100
  }

  lemma EncodedThree(c: CodePoint)
    requires 0x800 <= c < 0x1_0000 && !(0xD800 <= c <= 0xDFFF)
    ensures Encoded(c).Some? && |Encoded(c).value| == 3 && Bytes(Encoded(c).value)
    ensures Decoded(Encoded(c).value) == c as int
  {
    var x := c as int;
    SixBits(x);
    SixBits(x / 0x40);
    SixBitsBelow(x, 0x400);
    SixBitsBelow(x / 0x40, 0x10);
  }

  lemma EncodedFour(c: CodePoint)
    requires 0x1_0000 <= c
    ensures Encoded(c).Some? && |Encoded(c).value| == 4 && Bytes(Encoded(c).value)
    ensures Decoded(Encoded(c).value) == c as int
  {
    var x := c as int;
    SixBits(x);
    SixBits(x / 0x40);
    SixBits(x / 0x40 / 0x40);
    SixBitsBelow(x, 0x4400);
    SixBitsBelow(x / 0x40, 0x110);
    SixBitsBelow(x / 0x40 / 0x40, 5);
  }

  /** The width is the number of bytes of an encoding that can be read back. */
  lemma WidthIsEncoded(c: CodePoint)
    ensures Width(c).Some? <==> Encoded(c).Some?
    ensures Encoded(c).Some? ==> Width(c).value == |Encoded(c).value| && Decoded(Encoded(c).value) == c as int
    ensures Encoded(c).Some? ==> Bytes(Encoded(c).value)
  {
    if 0x800 <= c < 0x1_0000 {
      if !(0xD800 <= c <= 0xDFFF) {
        EncodedThree(c);
      }
    } else if c >= 0x1_0000 {
      EncodedFour(c);
    } else {
      SixBits(c as int);
      SixBitsBelow(c as int, 0x20);
    }
  }

  function SafeSize(s: Text): Option<nat> {
    if s == [] then Some(0)
    else
      var init, last := SafeSize(s[..|s| - 1]), Width(s[|s| - 1]);
      if init.Some? && last.Some? then Some(init.value + last.value) else None
  }

  function Stars(s: Text): nat {
    if s == [] then 0 else Stars(s[..|s| - 1]) + if s[|s| - 1] == STAR then 1 else 0
  }

  /** Every wildcard replaced by `w`. */
  function Substitute(s: Text, w: Text): Text {
    if s == [] then []
    else if s[|s| - 1] == STAR then Substitute(s[..|s| - 1], w) + w
    else Substitute(s[..|s| - 1], w) + [s[|s| - 1]]
  }

  /** Each part of a target is substituted by itself, a wildcard by `w` and all else by itself. */
  lemma {:induction false} SubstituteConcat(a: Text, b: Text, w: Text)
    ensures Substitute(a + b, w) == Substitute(a, w) + Substitute(b, w)
    decreases |b|
  {
    if b == [] {
      assert a + b == a;
    } else {
      var init, last := b[..|b| - 1], b[|b| - 1];
      assert (a + b)[..|a + b| - 1] == a + init && (a + b)[|a + b| - 1] == last;
      SubstituteConcat(a, init, w);
      var tail := if last == STAR then w else [last];
      assert Substitute(a + b, w) == Substitute(a + init, w) + tail;
      assert Substitute(b, w) == Substitute(init, w) + tail;
    }
  }

  lemma SubstituteOne(c: CodePoint, w: Text)
    ensures Substitute([c], w) == if c == STAR then w else [c]
  {
    assert [c][..0] == [];
    assert [] + w == w;
  }

  lemma {:induction false} NothingToSubstitute(s: Text, w: Text)
    requires STAR !in s
    ensures Substitute(s, w) == s
    decreases |s|
  {
    if s != [] {
      NothingToSubstitute(s[..|s| - 1], w);
      assert s == s[..|s| - 1] + [s[|s| - 1]];
    }
  }

  /** A target with one wildcard: what stands before and after it stays where it is. */
  lemma SubstituteParts(before: Text, after: Text, w: Text)
    requires STAR !in before && STAR !in after
    ensures Substitute(before + [STAR] + after, w) == before + w + after
  {
    SubstituteConcat(before + [STAR], after, w);
    SubstituteConcat(before, [STAR], w);
    SubstituteOne(STAR, w);
    NothingToSubstitute(before, w);
    NothingToSubstitute(after, w);
  }

  /** Any function that substitutes part by part, and single code points as it should, is this one. */
  lemma {:induction false} SubstitutionDetermined(f: (Text, Text) -> Text, s: Text, w: Text)
    requires f([], w) == [] && forall c :: f([c], w) == if c == STAR then w else [c]
    requires forall a, b :: f(a + b, w) == f(a, w) + f(b, w)
    ensures f(s, w) == Substitute(s, w)
    decreases |s|
  {
    if s != [] {
      var init, last := s[..|s| - 1], s[|s| - 1];
      SubstitutionDetermined(f, init, w);
      assert s == init + [last];
      assert f(s, w) == f(init, w) + f([last], w);
    }
  }

  lemma {:induction false} SizeConcat(a: Text, b: Text)
    ensures SafeSize(a + b) == if SafeSize(a).Some? && SafeSize(b).Some?
      then Some(SafeSize(a).value + SafeSize(b).value) else None
    decreases |b|
  {
    if b == [] {
      assert a + b == a;
    } else {
      SizeConcat(a, b[..|b| - 1]);
      assert (a + b)[..|a + b| - 1] == a + b[..|b| - 1];
    }
  }

  lemma OneMoreStar(k: nat, n: int)
    ensures (k + 1) * n == k * n + n
  {
  }

  /** The size the traversal computes before it substitutes. */
  function PredictedSize(s: Text, w: Text): int
    requires SafeSize(s).Some? && SafeSize(w).Some?
  {
    SafeSize(s).value + Stars(s) * (SafeSize(w).value - 1)
  }

  lemma PredictedSnoc(s: Text, w: Text)
    requires s != [] && SafeSize(s).Some? && SafeSize(w).Some?
    ensures SafeSize(s[..|s| - 1]).Some? && Width(s[|s| - 1]).Some?
    ensures PredictedSize(s, w) ==
            PredictedSize(s[..|s| - 1], w) + if s[|s| - 1] == STAR then SafeSize(w).value else Width(s[|s| - 1]).value
  {
    OneMoreStar(Stars(s[..|s| - 1]), SafeSize(w).value - 1);
  }

  /** It is the size of the substitution. */
  lemma {:induction false} SubstitutionSize(s: Text, w: Text)
    requires SafeSize(s).Some? && SafeSize(w).Some?
    ensures SafeSize(Substitute(s, w)).Some? && SafeSize(Substitute(s, w)).value == PredictedSize(s, w)
    decreases |s|
  {
    if s != [] {
      var init, last := s[..|s| - 1], s[|s| - 1];
      PredictedSnoc(s, w);
      SubstitutionSize(init, w);
      SizeConcat(Substitute(init, w), if last == STAR then w else [last]);
      assert SafeSize([last]) == Width(last) by { assert [last][..0] == []; }
    }
  }

  // ------------------------------------------------------------------ keeping first occurrences

  function FirstOccurrences(s: seq<Text>): seq<Text> {
    if s == [] then []
    else if s[|s| - 1] in s[..|s| - 1] then FirstOccurrences(s[..|s| - 1])
    else FirstOccurrences(s[..|s| - 1]) + [s[|s| - 1]]
  }

  lemma {:induction false} FirstOccurrencesMeaning(s: seq<Text>)
    ensures forall x :: x in FirstOccurrences(s) <==> x in s
    ensures forall i, j :: 0 <= i < j < |FirstOccurrences(s)| ==> FirstOccurrences(s)[i] != FirstOccurrences(s)[j]
    decreases |s|
  {
    if s != [] {
      FirstOccurrencesMeaning(s[..|s| - 1]);
      assert s == s[..|s| - 1] + [s[|s| - 1]];
    }
  }

  lemma FirstOccurrencesSnoc(s: seq<Text>, x: Text)
    ensures FirstOccurrences(s + [x]) == if x in FirstOccurrences(s) then FirstOccurrences(s)
      else FirstOccurrences(s) + [x]
  {
    assert (s + [x])[..|s|] == s;
    FirstOccurrencesMeaning(s);
  }

  lemma {:induction false} FirstOccurrencesGrow(a: seq<Text>, b: seq<Text>)
    ensures FirstOccurrences(a) <= FirstOccurrences(a + b)
    decreases |b|
  {
    if b == [] {
      assert a + b == a;
    } else {
      FirstOccurrencesGrow(a, b[..|b| - 1]);
      assert (a + b)[..|a + b| - 1] == a + b[..|b| - 1];
    }
  }

  function TotalBytes(s: seq<Text>): nat {
    if s == [] then 0
    else TotalBytes(s[..|s| - 1]) + (match SafeSize(s[|s| - 1]) case Some(n) => n case None => 0)
  }

  lemma {:induction false} TotalBytesGrow(a: seq<Text>, b: seq<Text>)
    requires a <= b
    ensures TotalBytes(a) <= TotalBytes(b)
    decreases |b|
  {
    if |a| < |b| {
      TotalBytesGrow(a, b[..|b| - 1]);
    } else {
      assert a == b;
    }
  }

  // ------------------------------------------------------------------ keys with a wildcard

  function FirstStar(s: Text): Option<nat>
    ensures FirstStar(s).Some? ==>
      FirstStar(s).value < |s| && s[FirstStar(s).value] == STAR && STAR !in s[..FirstStar(s).value]
    ensures FirstStar(s).None? ==> STAR !in s
  {
    if s == [] then None
    else
      var init := FirstStar(s[..|s| - 1]);
      assert s == s[..|s| - 1] + [s[|s| - 1]];
      if init.Some? then
        assert s[..init.value] == s[..|s| - 1][..init.value];
        init
      else if s[|s| - 1] == STAR then Some(|s| - 1) else None
  }

  predicate EndsWith(s: Text, suffix: Text) {
    |suffix| <= |s| && s[|s| - |suffix|..] == suffix
  }

  /** What the wildcard of `pattern` stands for in `key`. */
  function MatchPattern(pattern: Text, key: Text): Option<Text> {
    match FirstStar(pattern)
    case None => None
    case Some(at) =>
      var prefix, suffix := pattern[..at], pattern[at + 1..];
      if !(prefix <= key) || !EndsWith(key, suffix) then None else Some(Middle(prefix, suffix, key))
  }

  function Middle(prefix: Text, suffix: Text, key: Text): Text
    requires prefix <= key && EndsWith(key, suffix)
  {
    var end := if suffix != [] then |key| - |suffix| else |key|;
    key[|prefix|..(if |prefix| >= end then |prefix| else end)]
  }

  lemma StarBefore(s: Text, i: nat, n: nat)
    requires i < |s| && n <= |s| && s[i] == STAR
    ensures i < n ==> STAR in s[..n]
  {
    if i < n { assert s[..n][i] == STAR; }
  }

  lemma FirstStarAt(prefix: Text, suffix: Text)
    requires STAR !in prefix
    ensures FirstStar(prefix + [STAR] + suffix) == Some(|prefix|)
  {
    var pattern := prefix + [STAR] + suffix;
    assert pattern[|prefix|] == STAR && pattern[..|prefix|] == prefix;
    var at := FirstStar(pattern).value;
    StarBefore(pattern, at, |prefix|);
    StarBefore(pattern, |prefix|, at);
  }

  /** Whatever stands for the wildcard in a key is found. */
  lemma MatchPatternFinds(prefix: Text, suffix: Text, wildcard: Text)
    requires STAR !in prefix
    ensures MatchPattern(prefix + [STAR] + suffix, prefix + wildcard + suffix) == Some(wildcard)
  {
    var pattern, key := prefix + [STAR] + suffix, prefix + wildcard + suffix;
    FirstStarAt(prefix, suffix);
    assert pattern[..|prefix|] == prefix && pattern[|prefix| + 1..] == suffix;
    assert prefix <= key && key[|key| - |suffix|..] == suffix;
    assert key[|prefix|..|prefix| + |wildcard|] == wildcard;
  }

  lemma MiddleExact(prefix: Text, suffix: Text, key: Text)
    requires prefix <= key && EndsWith(key, suffix) && |prefix| + |suffix| <= |key|
    ensures prefix + key[|prefix|..|key| - |suffix|] + suffix == key
  {
    assert key == key[..|prefix|] + key[|prefix|..|key| - |suffix|] + key[|key| - |suffix|..];
  }

  lemma MiddleMeaning(prefix: Text, suffix: Text, key: Text)
    requires prefix <= key && EndsWith(key, suffix)
    ensures prefix + Middle(prefix, suffix, key) + suffix == key <==> |prefix| + |suffix| <= |key|
    ensures |prefix| + |suffix| > |key| ==> Middle(prefix, suffix, key) == []
  {
    if |prefix| + |suffix| <= |key| {
      MiddleExact(prefix, suffix, key);
    } else {
      assert |prefix + Middle(prefix, suffix, key) + suffix| > |key|;
    }
  }

  lemma PartsMeaning(pattern: Text, at: nat, key: Text)
    requires at < |pattern| && pattern[..at] <= key && EndsWith(key, pattern[at + 1..])
    ensures var w := Middle(pattern[..at], pattern[at + 1..], key);
            && (pattern[..at] + w + pattern[at + 1..] == key <==> |pattern| - 1 <= |key|)
            && (|pattern| - 1 > |key| ==> w == [])
  {
    MiddleMeaning(pattern[..at], pattern[at + 1..], key);
  }

  /** Putting the wildcard back gives the key, unless prefix and suffix overlap in it; then it stands for
      nothing. */
  lemma MatchPatternExact(pattern: Text, key: Text, at: nat, wildcard: Text)
    requires FirstStar(pattern) == Some(at) && MatchPattern(pattern, key) == Some(wildcard)
    ensures pattern[..at] + wildcard + pattern[at + 1..] == key <==> |pattern| - 1 <= |key|
    ensures |pattern| - 1 > |key| ==> wildcard == []
  {
    PartsMeaning(pattern, at, key);
    assert wildcard == Middle(pattern[..at], pattern[at + 1..], key);
  }

  /** "./a*a" matches "./a": its prefix and suffix overlap there. */
  lemma OverlapMatches()
    ensures var pattern, key: Text := [DOT, SLASH, 97, STAR, 97], [DOT, SLASH, 97];
            MatchPattern(pattern, key) == Some([]) && |pattern| - 1 > |key|
  {
    var pattern, key: Text := [DOT, SLASH, 97, STAR, 97], [DOT, SLASH, 97];
    assert pattern[..3] == key && pattern[4..] == [97] && key[2..] == [97];
    assert pattern[..4][3] == STAR && FirstStar(pattern) == Some(3) && key[3..3] == [];
  }

  function KeyIndex(keys: seq<Text>, key: Text): (r: Option<nat>)
    ensures r.Some? ==> r.value < |keys| && keys[r.value] == key
    ensures r.None? ==> key !in keys
  {
    if keys == [] then None
    else
      var init := KeyIndex(keys[..|keys| - 1], key);
      assert keys == keys[..|keys| - 1] + [keys[|keys| - 1]];
      if init.Some? then init
      else if keys[|keys| - 1] == key then Some(|keys| - 1) else None
  }
}
