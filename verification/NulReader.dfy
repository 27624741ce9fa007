/**
 Reading NUL-separated output of Git in chunks (`read_git_nul_output` in git.py). Decoding is a
 bijection on bytes and is left out; so are the process, its timeout and read errors.
 */
module NulReader {
  newtype byte = x: int | 0 <= x < 256

  const NUL: byte := 0

  datatype Output = Entries(entries: seq<seq<byte>>) | ByteLimitExceeded | EntryLimitExceeded

  function Flatten(chunks: seq<seq<byte>>): seq<byte> {
    if chunks == [] then [] else Flatten(chunks[..|chunks| - 1]) + chunks[|chunks| - 1]
  }

  // ------------------------------------------------------------------ the fields of a byte string

  /** The non-empty fields that end in a NUL, and the bytes after the last NUL. */
  ghost function Split(s: seq<byte>): (seq<seq<byte>>, seq<byte>) {
    if s == [] then ([], [])
    else
      var (done, tail) := Split(s[..|s| - 1]);
      if s[|s| - 1] != NUL then (done, tail + [s[|s| - 1]])
      else if tail == [] then (done, [])
      else (done + [tail], [])
  }

  /** The non-empty fields between NULs, in order. */
  ghost function Fields(s: seq<byte>): seq<seq<byte>> {
    if Split(s).1 == [] then Split(s).0 else Split(s).0 + [Split(s).1]
  }

  ghost predicate IsField(s: seq<byte>) {
    s != [] && NUL !in s
  }

  lemma {:induction false} SplitPlain(a: seq<byte>, word: seq<byte>)
    requires NUL !in word
    ensures Split(a + word) == (Split(a).0, Split(a).1 + word)
    decreases |word|
  {
    if word == [] {
      assert a + word == a && Split(a).1 + word == Split(a).1;
    } else {
      var init, last := word[..|word| - 1], word[|word| - 1];
      SplitPlain(a, init);
      assert (a + word)[..|a + word| - 1] == a + init;
      assert word == init + [last];
      assert (Split(a).1 + init) + [last] == Split(a).1 + word;
    }
  }

  lemma SplitSeparator(a: seq<byte>)
    ensures Split(a + [NUL]) == (Fields(a), [])
  {
    assert (a + [NUL])[..|a|] == a;
  }

  lemma {:induction false} SplitAfter(a: seq<byte>, b: seq<byte>)
    requires Split(a).1 == []
    ensures Split(a + b) == (Split(a).0 + Split(b).0, Split(b).1)
    decreases |b|
  {
    if b == [] {
      assert a + b == a && Split(a).0 + [] == Split(a).0;
    } else {
      SplitAfter(a, b[..|b| - 1]);
      assert (a + b)[..|a + b| - 1] == a + b[..|b| - 1];
      var (done, tail) := Split(b[..|b| - 1]);
      assert Split(a).0 + (done + [tail]) == (Split(a).0 + done) + [tail];
    }
  }

  /** A NUL separates: the fields of two pieces are the fields of one, then those of the other. */
  lemma FieldsSeparate(a: seq<byte>, b: seq<byte>)
    ensures Fields(a + [NUL] + b) == Fields(a) + Fields(b)
  {
    SplitSeparator(a);
    SplitAfter(a + [NUL], b);
  }

  /** Without a NUL there is at most the one field. */
  lemma FieldsOfPlain(word: seq<byte>)
    requires NUL !in word
    ensures Fields(word) == if word == [] then [] else [word]
  {
    SplitPlain([], word);
    assert [] + word == word;
  }

  /** The two facts above determine the fields of every byte string. */
  lemma {:induction false} FieldsDetermined(f: seq<byte> -> seq<seq<byte>>, s: seq<byte>)
    requires forall a: seq<byte>, b: seq<byte> :: f(a + [NUL] + b) == f(a) + f(b)
    requires forall word: seq<byte> :: NUL !in word ==> f(word) == if word == [] then [] else [word]
    ensures f(s) == Fields(s)
    decreases |s|
  {
    if NUL in s {
      var i :| 0 <= i < |s| && s[i] == NUL;
      var a, b := s[..i], s[i + 1..];
      assert s == a + [NUL] + b;
      FieldsDetermined(f, a);
      FieldsDetermined(f, b);
      FieldsSeparate(a, b);
    } else {
      FieldsOfPlain(s);
    }
  }

  function Terminated(fields: seq<seq<byte>>): seq<byte> {
    if fields == [] then [] else Terminated(fields[..|fields| - 1]) + fields[|fields| - 1] + [NUL]
  }

  /** Writing fields with a terminator each and reading them back gives the same fields. */
  lemma {:induction false} FieldsRoundTrip(fields: seq<seq<byte>>)
    requires forall i :: 0 <= i < |fields| ==> IsField(fields[i])
    ensures Split(Terminated(fields)) == (fields, []) && Fields(Terminated(fields)) == fields
    decreases |fields|
  {
    if fields != [] {
      var init, last := fields[..|fields| - 1], fields[|fields| - 1];
      FieldsRoundTrip(init);
      SplitPlain(Terminated(init), last);
      SplitSeparator(Terminated(init) + last);
      assert [] + last == last && fields == init + [last];
    }
  }

  /** No field is empty or holds a NUL. */
  lemma {:induction false} FieldsAreFields(s: seq<byte>)
    ensures forall w :: w in Fields(s) ==> IsField(w)
    ensures NUL !in Split(s).1 && forall w :: w in Split(s).0 ==> IsField(w)
    decreases |s|
  {
    if s != [] { FieldsAreFields(s[..|s| - 1]); }
  }

  /** Fields already complete stay, whatever follows. */
  lemma {:induction false} SplitGrows(a: seq<byte>, b: seq<byte>)
    ensures Split(a).0 <= Split(a + b).0 <= Fields(a + b)
    decreases |b|
  {
    if b == [] {
      assert a + b == a;
    } else {
      SplitGrows(a, b[..|b| - 1]);
      assert (a + b)[..|a + b| - 1] == a + b[..|b| - 1];
    }
  }

  // ------------------------------------------------------------------ the reader

  /** First NUL at or after `from`. */
  method Find(s: seq<byte>, from: nat) returns (found: bool, at: nat)
    requires from <= |s|
    ensures found ==> from <= at < |s| && s[at] == NUL && NUL !in s[from..at]
    ensures !found ==> NUL !in s[from..]
  {
    at := from;
    while at < |s|
      invariant from <= at <= |s| && NUL !in s[from..at]
    {
      if s[at] == NUL {
        return true, at;
      }
      assert s[from..at + 1] == s[from..at] + [s[at]];
      at := at + 1;
    }
    assert s[from..at] == s[from..];
    return false, at;
  }

  lemma {:induction false} FlattenGrows(chunks: seq<seq<byte>>, n: nat)
    requires n <= |chunks|
    ensures Flatten(chunks[..n]) <= Flatten(chunks)
    decreases |chunks|
  {
    if n < |chunks| {
      var init := chunks[..|chunks| - 1];
      FlattenGrows(init, n);
      assert init[..n] == chunks[..n];
    } else {
      assert chunks[..n] == chunks;
    }
  }

  /** Too many fields in a part are too many in the whole. */
  lemma TooManyFields(part: seq<byte>, whole: seq<byte>, max: nat)
    requires part <= whole && |Split(part).0| > max
    ensures |Fields(whole)| > max
  {
    assert whole == part + whole[|part|..];
    SplitGrows(part, whole[|part|..]);
  }

  lemma SplitField(a: seq<byte>, word: seq<byte>)
    requires Split(a).1 == [] && NUL !in word
    ensures Split(a + word + [NUL]) == (if word == [] then Split(a).0 else Split(a).0 + [word], [])
  {
    SplitPlain(a, word);
    SplitSeparator(a + word);
    assert [] + word == word;
  }

  lemma PastField(done: seq<byte>, pending: seq<byte>, consumed: nat, separator: nat)
    requires consumed <= separator < |pending| && pending[separator] == NUL
    ensures done + pending[consumed..separator] + [NUL] + pending[separator + 1..] == done + pending[consumed..]
  {
    assert pending[consumed..] == pending[consumed..separator] + [NUL] + pending[separator + 1..];
  }

  /** Takes the complete fields off `pending`; `before` is everything read earlier. */
  method TakeFields(ghost before: seq<byte>, entries: seq<seq<byte>>, pending: seq<byte>, maxEntries: nat)
    returns (ok: bool, taken: seq<seq<byte>>, rest: seq<byte>, ghost done: seq<byte>)
    requires Split(before) == (entries, []) && |entries| <= maxEntries
    ensures ok ==> done + rest == before + pending && Split(done) == (taken, [])
    ensures ok ==> NUL !in rest && |taken| <= maxEntries
    ensures !ok ==> |Split(before + pending).0| > maxEntries
  {
    taken, done, rest := entries, before, pending;
    var consumed := 0;
    ok := true;
    while ok
      invariant consumed <= |pending| && done + pending[consumed..] == before + pending
      invariant Split(done).1 == [] && |taken| <= maxEntries
      invariant if ok then Split(done).0 == taken else |Split(done).0| > maxEntries
      decreases |pending| - consumed
    {
      var found, separator := Find(pending, consumed);
      if !found {
        break;
      }
      var entry := pending[consumed..separator];
      SplitField(done, entry);
      PastField(done, pending, consumed, separator);
      done := done + entry + [NUL];
      consumed := separator + 1;
      if entry != [] {
        if |taken| >= maxEntries {
          ok := false;
        } else {
          taken := taken + [entry];
        }
      }
    }
    rest := pending[consumed..];
    if !ok {
      SplitGrows(done, rest);
    }
  }

  /** However the output is cut into chunks, the reader returns its fields, and it returns normally
      exactly when the bytes and the fields are within the limits. */
  method ReadNulOutput(chunks: seq<seq<byte>>, maxOutputBytes: nat, maxEntries: nat) returns (r: Output)
    ensures r.Entries? <==> |Flatten(chunks)| <= maxOutputBytes && |Fields(Flatten(chunks))| <= maxEntries
    ensures r.Entries? ==> r.entries == Fields(Flatten(chunks)) && forall w :: w in r.entries ==> IsField(w)
    ensures r.ByteLimitExceeded? ==> |Flatten(chunks)| > maxOutputBytes
    ensures r.EntryLimitExceeded? ==> |Fields(Flatten(chunks))| > maxEntries
  {
    var entries: seq<seq<byte>> := [];
    var pending: seq<byte> := [];
    var outputBytes := 0;
    ghost var before: seq<byte> := [];
    for i := 0 to |chunks|
      invariant outputBytes == |Flatten(chunks[..i])| <= maxOutputBytes
      invariant before + pending == Flatten(chunks[..i])
      invariant Split(before) == (entries, []) && NUL !in pending && |entries| <= maxEntries
    {
      assert chunks[..i + 1][..i] == chunks[..i];
      ghost var soFar := Flatten(chunks[..i + 1]);
      FlattenGrows(chunks, i + 1);
      outputBytes := outputBytes + |chunks[i]|;
      if outputBytes > maxOutputBytes {
        return ByteLimitExceeded;
      }
      pending := pending + chunks[i];
      assert before + pending == soFar;
      var ok, taken, rest, done := TakeFields(before, entries, pending, maxEntries);
      if !ok {
        TooManyFields(soFar, Flatten(chunks), maxEntries);
        return EntryLimitExceeded;
      }
      before, entries, pending := done, taken, rest;
    }
    assert chunks[..|chunks|] == chunks;
    SplitPlain(before, pending);
    FieldsAreFields(Flatten(chunks));
    assert [] + pending == pending;
    if pending != [] {
      if |entries| >= maxEntries {
        return EntryLimitExceeded;
      }
      entries := entries + [pending];
    }
    return Entries(entries);
  }
}
