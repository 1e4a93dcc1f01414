/** The write-keyword gate in front of read-only Cypher queries (crates/ox-api/src/mcp.rs). */
module KeywordScan {
  import opened Prelude
  import opened Utf8

  function Ascii(t: string): (r: seq<Byte>)
    requires forall i :: 0 <= i < |t| ==> t[i] as int < 0x80
    ensures |r| == |t| && forall i :: 0 <= i < |t| ==> r[i] == t[i] as int
  {
    seq(|t|, i requires 0 <= i < |t| => t[i] as int)
  }

  const WRITE_KEYWORDS: seq<seq<Byte>> :=
    [Ascii("CREATE"), Ascii("MERGE"), Ascii("DELETE"), Ascii("SET"),
     Ascii("REMOVE"), Ascii("DROP"), Ascii("FOREACH"), Ascii("LOAD")]

  predicate IsWordByte(b: Byte) {
    0x30 <= b <= 0x39 || 0x41 <= b <= 0x5A || 0x61 <= b <= 0x7A || b == 0x5F
  }

  predicate OccursAt(s: seq<Byte>, kw: seq<Byte>, i: nat) {
    i + |kw| <= |s| && s[i..i + |kw|] == kw
  }

  // An occurrence that no word byte touches on either side.
  predicate BoundedAt(s: seq<Byte>, kw: seq<Byte>, i: nat) {
    OccursAt(s, kw, i) && (i == 0 || !IsWordByte(s[i - 1])) && (i + |kw| == |s| || !IsWordByte(s[i + |kw|]))
  }

  ghost predicate HasBounded(s: seq<Byte>, kw: seq<Byte>) {
    exists i: nat :: BoundedAt(s, kw, i)
  }

  // The first occurrence at or after `start`, if there is one.
  ghost predicate IsFirstFrom(s: seq<Byte>, kw: seq<Byte>, start: nat, pos: Option<nat>) {
    && (pos.Some? ==> pos.value >= start && OccursAt(s, kw, pos.value))
    && forall i: nat :: i >= start && (pos.Some? ==> i < pos.value) ==> !OccursAt(s, kw, i)
  }

  method Find(s: seq<Byte>, kw: seq<Byte>, start: nat) returns (pos: Option<nat>)
    requires start <= |s|
    ensures IsFirstFrom(s, kw, start, pos)
  {
    var i := start;
    while i + |kw| <= |s|
      invariant start <= i
      invariant forall j: nat :: start <= j < i ==> !OccursAt(s, kw, j)
    {
      if s[i..i + |kw|] == kw {
        return Some(i);
      }
      i := i + 1;
    }
    return None;
  }

  lemma KeywordsAreWords()
    ensures forall k :: 0 <= k < |WRITE_KEYWORDS| ==> WRITE_KEYWORDS[k] != []
    ensures forall k, j :: 0 <= k < |WRITE_KEYWORDS| && 0 <= j < |WRITE_KEYWORDS[k]| ==>
      IsWordByte(WRITE_KEYWORDS[k][j])
  {
  }

  // No bounded occurrence before `pos`, or anywhere when there is no `pos`.
  ghost predicate NoneBefore(s: seq<Byte>, kw: seq<Byte>, pos: Option<nat>) {
    forall i: nat :: (pos.Some? ==> i < pos.value) ==> !BoundedAt(s, kw, i)
  }

  lemma SkipOccurrence(s: seq<Byte>, kw: seq<Byte>, at: nat, next: Option<nat>)
    requires NoneBefore(s, kw, Some(at)) && !BoundedAt(s, kw, at) && IsFirstFrom(s, kw, at + 1, next)
    ensures NoneBefore(s, kw, next)
  {
  }

  lemma OccurrenceStart(text: seq<Scalar>, kw: seq<Byte>, at: nat)
    requires kw != [] && kw[0] < 0x80 && OccursAt(Encode(text), kw, at)
    ensures at + 1 <= |Encode(text)| && Boundary(Encode(text), at + 1)
  {
    assert Encode(text)[at..at + |kw|][0] == kw[0];
    BoundaryAfterAscii(text, at);
  }

  // Every occurrence is tried, overlapping ones included. Every offset the scan slices at is a
  // character boundary of the text.
  method ScanFor(ghost text: seq<Scalar>, upper: seq<Byte>, kw: seq<Byte>) returns (found: bool)
    requires upper == Encode(text) && kw != [] && kw[0] < 0x80
    ensures found <==> HasBounded(upper, kw)
  {
    var start := 0;
    assert Boundary(upper, start) by { PrefixIsBoundary(text, 0); }
    var pos := Find(upper, kw, start);
    while pos.Some?
      invariant start <= |upper| && Boundary(upper, start)
      invariant pos.Some? ==> start <= pos.value && OccursAt(upper, kw, pos.value)
      invariant NoneBefore(upper, kw, pos)
      decreases |upper| - start, pos.Some?
    {
      var abs := pos.value;
      var beforeOk := abs == 0 || !IsWordByte(upper[abs - 1]);
      var afterIdx := abs + |kw|;
      var afterOk := afterIdx >= |upper| || !IsWordByte(upper[afterIdx]);
      if beforeOk && afterOk {
        assert BoundedAt(upper, kw, abs);
        return true;
      }
      start := abs + 1;
      OccurrenceStart(text, kw, abs);
      pos := Find(upper, kw, start);
      SkipOccurrence(upper, kw, abs, pos);
    }
    return false;
  }

  // Upper-casing maps each character by a table; some become several.
  function Uppercase(table: Scalar -> seq<Scalar>, text: seq<Scalar>): seq<Scalar> {
    if text == [] then [] else table(text[0]) + Uppercase(table, text[1..])
  }

  /** The first keyword, in list order, with a bounded occurrence anywhere in the upper-cased query;
      none iff no keyword has one. */
  method ForbiddenKeyword(table: Scalar -> seq<Scalar>, q: seq<Scalar>) returns (r: Option<nat>)
    ensures var upper := Encode(Uppercase(table, q));
      match r
      case None => forall k :: 0 <= k < |WRITE_KEYWORDS| ==> !HasBounded(upper, WRITE_KEYWORDS[k])
      case Some(n) =>
        && n < |WRITE_KEYWORDS| && HasBounded(upper, WRITE_KEYWORDS[n])
        && forall k :: 0 <= k < n ==> !HasBounded(upper, WRITE_KEYWORDS[k])
    ensures r.None? <==> ReadsOnly(Encode(Uppercase(table, q)))
  {
    KeywordsDecide(Encode(Uppercase(table, q)));
    var upper := Encode(Uppercase(table, q));
    KeywordsAreWords();
    for k := 0 to |WRITE_KEYWORDS|
      invariant forall j :: 0 <= j < k ==> !HasBounded(upper, WRITE_KEYWORDS[j])
    {
      var found := ScanFor(Uppercase(table, q), upper, WRITE_KEYWORDS[k]);
      if found {
        return Some(k);
      }
    }
    return None;
  }

  // ------------------------------------------------------------------
  // Letter case
  // ------------------------------------------------------------------

  function AsciiUpper(c: Scalar): Scalar { if 0x61 <= c <= 0x7A then c - 0x20 else c }

  // What Unicode's table does with ASCII.
  ghost predicate UpperOnAscii(table: Scalar -> seq<Scalar>) {
    forall c: Scalar :: c < 0x80 ==> table(c) == [AsciiUpper(c)]
  }

  // The texts differ at most in the case of ASCII letters.
  ghost predicate SameButCase(a: seq<Scalar>, b: seq<Scalar>) {
    |a| == |b| && forall i :: 0 <= i < |a| ==>
      a[i] == b[i] || (a[i] < 0x80 && b[i] < 0x80 && AsciiUpper(a[i]) == AsciiUpper(b[i]))
  }

  /** The scan is case-insensitive: queries that differ only in the case of ASCII letters are
      upper-cased to one text, and so get one answer. */
  lemma {:induction false} CaseInsensitive(table: Scalar -> seq<Scalar>, a: seq<Scalar>, b: seq<Scalar>)
    requires UpperOnAscii(table) && SameButCase(a, b)
    ensures Uppercase(table, a) == Uppercase(table, b)
  {
    if a != [] {
      CaseInsensitive(table, a[1..], b[1..]);
    }
  }

  /** In an ASCII query the bytes scanned are its letters in upper case, one for one. */
  lemma {:induction false} AsciiScanned(table: Scalar -> seq<Scalar>, q: seq<Scalar>)
    requires UpperOnAscii(table) && forall i :: 0 <= i < |q| ==> q[i] < 0x80
    ensures var upper := Encode(Uppercase(table, q));
      |upper| == |q| && forall i :: 0 <= i < |q| ==> upper[i] == AsciiUpper(q[i])
  {
    if q != [] {
      AsciiScanned(table, q[1..]);
      EncodeConcat(table(q[0]), Uppercase(table, q[1..]));
      assert Encode([AsciiUpper(q[0])]) == EncodeOne(AsciiUpper(q[0])) + Encode([]);
    }
  }

  // ------------------------------------------------------------------
  // The reference definition: keywords among the words of the text
  // ------------------------------------------------------------------

  function WordLength(s: seq<Byte>): (n: nat)
    ensures n <= |s| && (forall i :: 0 <= i < n ==> IsWordByte(s[i])) && (n < |s| ==> !IsWordByte(s[n]))
  {
    if s == [] || !IsWordByte(s[0]) then 0 else 1 + WordLength(s[1..])
  }

  // The maximal runs of word bytes.
  function Words(s: seq<Byte>): seq<seq<Byte>> {
    if s == [] then []
    else if WordLength(s) == 0 then Words(s[1..])
    else [s[..WordLength(s)]] + Words(s[WordLength(s)..])
  }

  ghost predicate IsWord(kw: seq<Byte>) {
    kw != [] && forall j :: 0 <= j < |kw| ==> IsWordByte(kw[j])
  }

  lemma BoundedShift(s: seq<Byte>, kw: seq<Byte>, n: nat, i: nat)
    requires n <= i <= |s| && IsWord(kw) && (i == n ==> n > 0 ==> !IsWordByte(s[n - 1]))
    ensures BoundedAt(s, kw, i) <==> BoundedAt(s[n..], kw, i - n)
  {
    if i + |kw| <= |s| {
      assert s[i..i + |kw|] == s[n..][i - n..i - n + |kw|];
    }
  }

  lemma {:induction false} BoundedInWords(s: seq<Byte>, kw: seq<Byte>, i: nat)
    requires IsWord(kw) && BoundedAt(s, kw, i)
    ensures kw in Words(s)
    decreases |s|
  {
    var n := WordLength(s);
    assert forall j :: 0 <= j < |kw| ==> s[i + j] == kw[j];
    assert s[i + 0] == kw[0];
    if n == 0 {
      BoundedShift(s, kw, 1, i);
      BoundedInWords(s[1..], kw, i - 1);
    } else if i == 0 {
      assert forall j :: 0 <= j < |kw| ==> s[j] == kw[j] && IsWordByte(s[j]);
      assert n == |kw|;
      assert Words(s)[0] == kw;
    } else {
      BoundedShift(s, kw, n, i);
      BoundedInWords(s[n..], kw, i - n);
    }
  }

  lemma {:induction false} WordsAreBounded(s: seq<Byte>, kw: seq<Byte>) returns (i: nat)
    requires IsWord(kw) && kw in Words(s)
    ensures BoundedAt(s, kw, i)
    decreases |s|
  {
    var n := WordLength(s);
    if n == 0 {
      var j := WordsAreBounded(s[1..], kw);
      i := j + 1;
      BoundedShift(s, kw, 1, i);
    } else if kw == s[..n] {
      i := 0;
    } else {
      var j := WordsAreBounded(s[n..], kw);
      i := j + n;
      assert s[n..][j..j + |kw|][0] == kw[0];
      assert j > 0;
      BoundedShift(s, kw, n, i);
    }
  }

  /** A keyword has a bounded occurrence, after however many unbounded or overlapping ones, iff
      it is one of the words of the text. */
  lemma BoundedIffWord(s: seq<Byte>, kw: seq<Byte>)
    requires IsWord(kw)
    ensures HasBounded(s, kw) <==> kw in Words(s)
  {
    if HasBounded(s, kw) {
      var i: nat :| BoundedAt(s, kw, i);
      BoundedInWords(s, kw, i);
    }
    if kw in Words(s) {
      var i := WordsAreBounded(s, kw);
    }
  }

  // ------------------------------------------------------------------
  // Comments
  // ------------------------------------------------------------------

  lemma {:induction false} UppercaseConcat(table: Scalar -> seq<Scalar>, a: seq<Scalar>, b: seq<Scalar>)
    ensures Uppercase(table, a + b) == Uppercase(table, a) + Uppercase(table, b)
  {
    if a == [] {
      assert a + b == b;
    } else {
      UppercaseConcat(table, a[1..], b);
      assert (a + b)[1..] == a[1..] + b;
      var first, rest, tail := table(a[0]), Uppercase(table, a[1..]), Uppercase(table, b);
      assert Uppercase(table, a + b) == first + (rest + tail);
    }
  }

  // A line comment that holds the keyword and nothing else.
  function Comment(k: nat): seq<Scalar>
    requires k < |WRITE_KEYWORDS|
  {
    var kw := WRITE_KEYWORDS[k];
    [0x2F, 0x2F, 0x20] + seq(|kw|, i requires 0 <= i < |kw| => kw[i]) + [0x0A]
  }

  lemma CommentScanned(table: Scalar -> seq<Scalar>, k: nat)
    requires UpperOnAscii(table) && k < |WRITE_KEYWORDS|
    ensures Encode(Uppercase(table, Comment(k))) == [0x2F, 0x2F, 0x20] + WRITE_KEYWORDS[k] + [0x0A]
  {
    KeywordsAreWords();
    KeywordsAreUpper();
    AsciiScanned(table, Comment(k));
  }

  lemma KeywordsAreUpper()
    ensures forall k, j :: 0 <= k < |WRITE_KEYWORDS| && 0 <= j < |WRITE_KEYWORDS[k]| ==>
      0x41 <= WRITE_KEYWORDS[k][j] <= 0x5A
  {
  }

  lemma BetweenBlanks(head: seq<Byte>, kw: seq<Byte>, tail: seq<Byte>)
    ensures BoundedAt(head + ([0x2F, 0x2F, 0x20] + kw + [0x0A]) + tail, kw, |head| + 3)
  {
    var s := head + ([0x2F, 0x2F, 0x20] + kw + [0x0A]) + tail;
    assert s[|head| + 3..|head| + 3 + |kw|] == kw;
    assert s[|head| + 2] == 0x20 && s[|head| + 3 + |kw|] == 0x0A;
  }

  /** A keyword in a comment trips the gate, wherever the comment stands. */
  lemma CommentsTrip(table: Scalar -> seq<Scalar>, before: seq<Scalar>, k: nat, after: seq<Scalar>)
    requires UpperOnAscii(table) && k < |WRITE_KEYWORDS|
    ensures HasBounded(Encode(Uppercase(table, before + Comment(k) + after)), WRITE_KEYWORDS[k])
  {
    UppercaseConcat(table, before + Comment(k), after);
    UppercaseConcat(table, before, Comment(k));
    EncodeConcat(Uppercase(table, before + Comment(k)), Uppercase(table, after));
    EncodeConcat(Uppercase(table, before), Uppercase(table, Comment(k)));
    CommentScanned(table, k);
    BetweenBlanks(Encode(Uppercase(table, before)), WRITE_KEYWORDS[k], Encode(Uppercase(table, after)));
  }

  // ------------------------------------------------------------------
  // The keywords and the words, by their letters
  // ------------------------------------------------------------------

  // None of the words of the text writes.
  ghost predicate ReadsOnly(upper: seq<Byte>) {
    var words := Words(upper);
    && Ascii("CREATE") !in words && Ascii("MERGE") !in words && Ascii("DELETE") !in words && Ascii("SET") !in words
    && Ascii("REMOVE") !in words && Ascii("DROP") !in words && Ascii("FOREACH") !in words && Ascii("LOAD") !in words
  }

  lemma KeywordsDecide(upper: seq<Byte>)
    ensures (forall k :: 0 <= k < |WRITE_KEYWORDS| ==> !HasBounded(upper, WRITE_KEYWORDS[k])) <==> ReadsOnly(upper)
  {
    KeywordsAreWords();
    forall k | 0 <= k < |WRITE_KEYWORDS|
      ensures HasBounded(upper, WRITE_KEYWORDS[k]) <==> WRITE_KEYWORDS[k] in Words(upper)
    {
      BoundedIffWord(upper, WRITE_KEYWORDS[k]);
    }
    assert WRITE_KEYWORDS[0] == Ascii("CREATE") && WRITE_KEYWORDS[1] == Ascii("MERGE");
    assert WRITE_KEYWORDS[2] == Ascii("DELETE") && WRITE_KEYWORDS[3] == Ascii("SET");
    assert WRITE_KEYWORDS[4] == Ascii("REMOVE") && WRITE_KEYWORDS[5] == Ascii("DROP");
    assert WRITE_KEYWORDS[6] == Ascii("FOREACH") && WRITE_KEYWORDS[7] == Ascii("LOAD");
  }

  /** A keyword is part of a longer word exactly beside a letter, a digit or an underscore; beside anything
      else, bytes of characters outside ASCII included, it stands by itself. */
  lemma IdentifiersPass(kw: seq<Byte>, b: Byte)
    requires IsWord(kw)
    ensures HasBounded(kw + [b], kw) <==>
      !('a' as int <= b <= 'z' as int || 'A' as int <= b <= 'Z' as int || '0' as int <= b <= '9' as int ||
        b == '_' as int)
    ensures HasBounded([b] + kw, kw) <==> HasBounded(kw + [b], kw)
  {
    BesideEither(kw, b);
    assert BoundedAt(kw + [b], kw, 0) <==> !IsWordByte(b);
    assert BoundedAt([b] + kw, kw, 1) <==> !IsWordByte(b);
  }

  // With a word byte beside it a keyword is bounded nowhere.
  lemma BesideEither(kw: seq<Byte>, b: Byte)
    requires IsWord(kw)
    ensures (kw + [b])[..|kw|] == kw && ([b] + kw)[1..] == kw
    ensures IsWordByte(b) ==> !HasBounded(kw + [b], kw) && !HasBounded([b] + kw, kw)
  {
    var after, before := kw + [b], [b] + kw;
    if IsWordByte(b) {
      forall i: nat ensures !BoundedAt(after, kw, i) && !BoundedAt(before, kw, i) {
        assert i == 1 && OccursAt(after, kw, i) ==> IsWordByte(after[0]);
      }
    }
  }
}
