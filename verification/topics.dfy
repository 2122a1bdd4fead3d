/** Topic validation and wildcard topic matching (util.go).

    Go strings are modelled as sequences of runes. Every rune that is not ASCII is
    rejected by `ValidTopic`, and the three separators are ASCII, so splitting a
    sequence of runes gives the same segments as splitting the UTF-8 bytes. */
module Topics {
  import opened Results

  /** The two errors `ValidTopic` can return. */
  datatype TopicError = EmptyTopic | InvalidTopic

  // ---------------------------------------------------------------------------
  // Characters
  // ---------------------------------------------------------------------------

  /** The rune test of `ValidTopic`, written with the code points the source uses:
      digits (48..57), upper case (65..90), lower case (97..122), '-' (45),
      '.' (46) and '/' (47). */
  predicate IsTopicChar(c: char) {
    var n := c as int;
    (47 < n < 58) || (64 < n < 91) || (96 < n < 123) || n == 45 || n == 46 || n == 47
  }

  /** The three characters the source splits topics and patterns on. */
  predicate IsSeparator(c: char) {
    c == '/' || c == '.' || c == '-'
  }

  /** ASCII letters and digits, written with character literals. */
  predicate IsAsciiAlphanumeric(c: char) {
    ('0' <= c <= '9') || ('A' <= c <= 'Z') || ('a' <= c <= 'z')
  }

  /** The numeric rune test accepts exactly the ASCII alphanumerics and the separators. */
  lemma TopicCharIsAlphanumericOrSeparator(c: char)
    ensures IsTopicChar(c) <==> IsAsciiAlphanumeric(c) || IsSeparator(c)
  {
  }

  // ---------------------------------------------------------------------------
  // ValidTopic
  // ---------------------------------------------------------------------------

  /** A string `ValidTopic` accepts: non-empty and made only of topic characters. */
  predicate IsTopic(s: string) {
    |s| > 0 && forall i :: 0 <= i < |s| ==> IsTopicChar(s[i])
  }

  /** `ValidTopic`: the emptiness check comes first, then the runes are scanned. */
  function ValidTopic(topic: string): (r: Outcome<TopicError>)
    ensures r == Fail(EmptyTopic) <==> |topic| == 0
    ensures r == Fail(InvalidTopic) <==>
              |topic| > 0 && exists i :: 0 <= i < |topic| && !IsTopicChar(topic[i])
    ensures r == Pass <==> IsTopic(topic)
  {
    if |topic| == 0 then Fail(EmptyTopic) else ScanRunes(topic, 0)
  }

  /** The `for _, c := range topic` loop of `ValidTopic`, from rune `i` on. */
  function ScanRunes(topic: string, i: nat): (r: Outcome<TopicError>)
    requires i <= |topic|
    ensures r == Pass || r == Fail(InvalidTopic)
    ensures r == Pass <==> forall j :: i <= j < |topic| ==> IsTopicChar(topic[j])
    decreases |topic| - i
  {
    if i == |topic| then Pass
    else if IsTopicChar(topic[i]) then ScanRunes(topic, i + 1)
    else Fail(InvalidTopic)
  }

  /** The cases of util_test.go's `TestValidTopic`. */
  lemma ValidTopicExamples()
    ensures ValidTopic("a.b.c") == Pass
    ensures ValidTopic("foo") == Pass
    ensures ValidTopic("a.b-c/d") == Pass
    ensures ValidTopic("") == Fail(EmptyTopic)
    ensures ValidTopic("a?b") == Fail(InvalidTopic)
    ensures ValidTopic("©∂ç") == Fail(InvalidTopic)
    ensures ValidTopic(" foo") == Fail(InvalidTopic)
  {
    assert !IsTopicChar("a?b"[1]);
    assert !IsTopicChar("©∂ç"[0]);
    assert !IsTopicChar(" foo"[0]);
  }

  // ---------------------------------------------------------------------------
  // Splitting on separators
  // ---------------------------------------------------------------------------

  /** A segment: no separator inside. */
  predicate NoSeparator(w: string) {
    forall i :: 0 <= i < |w| ==> !IsSeparator(w[i])
  }

  /** The separator characters of `s`, in order. */
  function Separators(s: string): (seps: seq<char>)
    ensures forall i :: 0 <= i < |seps| ==> IsSeparator(seps[i])
    ensures |seps| <= |s|
  {
    if |s| == 0 then []
    else if IsSeparator(s[0]) then [s[0]] + Separators(s[1..])
    else Separators(s[1..])
  }

  /** `separatorsRegex.Split(s, -1)`: the maximal separator-free pieces of `s`, empty
      pieces included; one more piece than there are separators. */
  function Split(s: string): (segs: seq<string>)
    ensures |segs| == |Separators(s)| + 1
    ensures forall k :: 0 <= k < |segs| ==> NoSeparator(segs[k])
  {
    if |s| == 0 then [""]
    else
      var rest := Split(s[1..]);
      if IsSeparator(s[0]) then [""] + rest
      else [[s[0]] + rest[0]] + rest[1..]
  }

  /** Puts `segs` back together with `seps` between consecutive segments. */
  function Join(segs: seq<string>, seps: seq<char>): string
    requires |segs| == |seps| + 1
    decreases |seps|
  {
    if |seps| == 0 then segs[0]
    else segs[0] + [seps[0]] + Join(segs[1..], seps[1..])
  }

  /** The number of separators is the number of '/', '.' and '-' characters. */
  lemma {:induction false} SeparatorCount(s: string)
    ensures |Separators(s)| == multiset(s)['/'] + multiset(s)['.'] + multiset(s)['-']
  {
    if |s| > 0 {
      SeparatorCount(s[1..]);
      assert s == [s[0]] + s[1..];
      assert multiset(s) == multiset([s[0]]) + multiset(s[1..]);
    }
  }

  /** Joining a separator-free prefix onto the first segment. */
  lemma {:induction false} JoinPrependFirst(c: char, segs: seq<string>, seps: seq<char>)
    requires |segs| == |seps| + 1
    ensures Join(segs[0 := [c] + segs[0]], seps) == [c] + Join(segs, seps)
  {
    if |seps| > 0 {
      var segs' := segs[0 := [c] + segs[0]];
      assert segs'[1..] == segs[1..];
    }
  }

  /** Splitting loses nothing: the segments and separators give back the string. */
  lemma {:induction false} JoinSplit(s: string)
    ensures Join(Split(s), Separators(s)) == s
  {
    if |s| > 0 {
      var tail := s[1..];
      var rest := Split(tail);
      var seps := Separators(tail);
      JoinSplit(tail);
      assert s == [s[0]] + tail;
      if IsSeparator(s[0]) {
        assert Split(s) == [""] + rest;
        assert Separators(s) == [s[0]] + seps;
        assert ([""] + rest)[1..] == rest;
        assert ([s[0]] + seps)[1..] == seps;
      } else {
        assert Split(s) == rest[0 := [s[0]] + rest[0]];
        assert Separators(s) == seps;
        JoinPrependFirst(s[0], rest, seps);
      }
    }
  }

  /** Splitting a separator-free word followed by `x`. */
  lemma {:induction false} SplitAfterSegment(w: string, x: string)
    requires NoSeparator(w)
    ensures Split(w + x) == [w + Split(x)[0]] + Split(x)[1..]
    ensures Separators(w + x) == Separators(x)
  {
    var sx := Split(x);
    if |w| > 0 {
      assert (w + x)[0] == w[0] && (w + x)[1..] == w[1..] + x;
      SplitAfterSegment(w[1..], x);
      var rest := Split(w[1..] + x);
      assert rest == [w[1..] + sx[0]] + sx[1..];
      assert Split(w + x) == [[w[0]] + rest[0]] + rest[1..];
      assert [w[0]] + (w[1..] + sx[0]) == w + sx[0];
    } else {
      assert w + x == x;
      assert w + sx[0] == sx[0];
      assert sx == [sx[0]] + sx[1..];
    }
  }

  /** Splitting inverts joining well-formed segments and separators. */
  lemma {:induction false} SplitJoin(segs: seq<string>, seps: seq<char>)
    requires |segs| == |seps| + 1
    requires forall k :: 0 <= k < |segs| ==> NoSeparator(segs[k])
    requires forall k :: 0 <= k < |seps| ==> IsSeparator(seps[k])
    ensures Split(Join(segs, seps)) == segs
    ensures Separators(Join(segs, seps)) == seps
  {
    if |seps| == 0 {
      SplitAfterSegment(segs[0], "");
      assert segs[0] + "" == segs[0];
      assert segs == [segs[0]];
    } else {
      var tail := Join(segs[1..], seps[1..]);
      SplitJoin(segs[1..], seps[1..]);
      var x := [seps[0]] + tail;
      assert x[1..] == tail;
      assert Split(x) == [""] + segs[1..];
      assert Separators(x) == [seps[0]] + seps[1..];
      assert Join(segs, seps) == segs[0] + x;
      SplitAfterSegment(segs[0], x);
      assert segs[0] + "" == segs[0];
      assert segs == [segs[0]] + segs[1..];
      assert seps == [seps[0]] + seps[1..];
    }
  }

  /** `s` and `s'` have separators at the same positions and agree everywhere else. */
  predicate SameUpToSeparators(s: string, s': string) {
    && |s| == |s'|
    && forall i :: 0 <= i < |s| ==>
         if IsSeparator(s[i]) then IsSeparator(s'[i]) else s'[i] == s[i]
  }

  /** Which of the three separators is used does not change the segments. */
  lemma {:induction false} SplitIgnoresSeparatorKind(s: string, s': string)
    requires SameUpToSeparators(s, s')
    ensures Split(s) == Split(s')
    ensures |Separators(s)| == |Separators(s')|
  {
    if |s| > 0 {
      assert SameUpToSeparators(s[1..], s'[1..]);
      SplitIgnoresSeparatorKind(s[1..], s'[1..]);
    }
  }

  /** Strings with the same segments and the same number of separators are equal up to
      the choice of separators. */
  lemma {:induction false} SameSegmentsSameShape(s: string, s': string)
    requires Split(s) == Split(s')
    requires |Separators(s)| == |Separators(s')|
    ensures SameUpToSeparators(s, s')
  {
    JoinSplit(s);
    JoinSplit(s');
    JoinSameSegments(Split(s), Separators(s), Separators(s'));
  }

  lemma {:induction false} JoinSameSegments(segs: seq<string>, seps: seq<char>, seps': seq<char>)
    requires |segs| == |seps| + 1 && |seps'| == |seps|
    requires forall k :: 0 <= k < |segs| ==> NoSeparator(segs[k])
    requires forall k :: 0 <= k < |seps| ==> IsSeparator(seps[k]) && IsSeparator(seps'[k])
    ensures SameUpToSeparators(Join(segs, seps), Join(segs, seps'))
    decreases |seps|
  {
    if |seps| > 0 {
      JoinSameSegments(segs[1..], seps[1..], seps'[1..]);
      var a := Join(segs, seps);
      var b := Join(segs, seps');
      var n := |segs[0]|;
      assert a == segs[0] + ([seps[0]] + Join(segs[1..], seps[1..]));
      assert b == segs[0] + ([seps'[0]] + Join(segs[1..], seps'[1..]));
      forall i | 0 <= i < |a|
        ensures if IsSeparator(a[i]) then IsSeparator(b[i]) else b[i] == a[i]
      {
        if i < n {
          assert a[i] == segs[0][i] == b[i];
        } else if i == n {
          assert a[i] == seps[0] && b[i] == seps'[0];
        } else {
          assert a[i] == Join(segs[1..], seps[1..])[i - n - 1];
          assert b[i] == Join(segs[1..], seps'[1..])[i - n - 1];
        }
      }
    }
  }

  // ---------------------------------------------------------------------------
  // MatchTopic
  // ---------------------------------------------------------------------------

  /** The wildcard segment. */
  const Wildcard: string := "*"

  /** One pattern segment matches one topic segment. */
  predicate SegmentMatches(patternSegment: string, topicSegment: string) {
    patternSegment == Wildcard || patternSegment == topicSegment
  }

  /** Declarative reading of a match on already split strings. */
  predicate SegmentwiseMatch(topicSegs: seq<string>, patternSegs: seq<string>) {
    && |topicSegs| == |patternSegs|
    && forall i :: 0 <= i < |patternSegs| ==> SegmentMatches(patternSegs[i], topicSegs[i])
  }

  /** The `for i, s := range splitPattern` loop of `MatchTopic`, from index `i` on;
      it stops at the first segment that is neither `*` nor equal. */
  function MatchSegmentsFrom(topicSegs: seq<string>, patternSegs: seq<string>, i: nat): (ok: bool)
    requires |topicSegs| == |patternSegs| && i <= |patternSegs|
    ensures ok <==> forall j :: i <= j < |patternSegs| ==> SegmentMatches(patternSegs[j], topicSegs[j])
    decreases |patternSegs| - i
  {
    if i == |patternSegs| then true
    else if !SegmentMatches(patternSegs[i], topicSegs[i]) then false
    else MatchSegmentsFrom(topicSegs, patternSegs, i + 1)
  }

  /** `MatchTopic(topic, pattern)`: split both, compare the segment counts, then compare
      segment by segment. */
  function MatchTopic(topic: string, pattern: string): (matched: bool)
    ensures matched <==> SegmentwiseMatch(Split(topic), Split(pattern))
    ensures topic == pattern ==> matched
  {
    var splitTopic := Split(topic);
    var splitPattern := Split(pattern);
    if |splitPattern| != |splitTopic| then false
    else MatchSegmentsFrom(splitTopic, splitPattern, 0)
  }

  /** Strings with different numbers of separators never match, whatever the segments. */
  lemma MatchNeedsSameSeparatorCount(topic: string, pattern: string)
    ensures |Separators(topic)| != |Separators(pattern)| ==> !MatchTopic(topic, pattern)
  {
  }

  /** The pattern of `n + 1` wildcards, separated by '.'. */
  function AllWildcards(n: nat): (pattern: string)
    ensures Split(pattern) == seq(n + 1, _ => Wildcard)
    ensures |Separators(pattern)| == n
  {
    var segs := seq(n + 1, _ => Wildcard);
    var seps := seq(n, _ => '.');
    SplitJoin(segs, seps);
    Join(segs, seps)
  }

  /** A pattern of wildcards only matches every topic with as many segments. */
  lemma AllWildcardsMatch(topic: string)
    ensures MatchTopic(topic, AllWildcards(|Separators(topic)|))
  {
  }

  /** Only segment contents are compared: a topic may be re-written with other separators
      at the same positions, and so may the pattern. */
  lemma MatchIgnoresSeparatorKind(topic: string, topic': string, pattern: string, pattern': string)
    requires SameUpToSeparators(topic, topic')
    requires SameUpToSeparators(pattern, pattern')
    ensures MatchTopic(topic, pattern) <==> MatchTopic(topic', pattern')
  {
    SplitIgnoresSeparatorKind(topic, topic');
    SplitIgnoresSeparatorKind(pattern, pattern');
  }

  /** A pattern without '*' matches exactly the strings that equal it up to the choice
      of separators. */
  lemma LiteralPatternMatch(topic: string, pattern: string)
    requires forall i :: 0 <= i < |pattern| ==> pattern[i] != '*'
    ensures MatchTopic(topic, pattern) <==> SameUpToSeparators(pattern, topic)
  {
    if MatchTopic(topic, pattern) {
      var ts, ps := Split(topic), Split(pattern);
      assert |Wildcard| == 1 && Wildcard[0] == '*';
      forall k | 0 <= k < |ps| ensures ps[k] != Wildcard {
        JoinSplit(pattern);
        SegmentInJoin(ps, Separators(pattern), k);
      }
      assert ps == ts;
      SameSegmentsSameShape(pattern, topic);
    }
    if SameUpToSeparators(pattern, topic) {
      SplitIgnoresSeparatorKind(pattern, topic);
    }
  }

  /** Every character of every segment occurs in the joined string. */
  lemma {:induction false} SegmentInJoin(segs: seq<string>, seps: seq<char>, k: nat)
    requires |segs| == |seps| + 1 && k < |segs|
    ensures forall i :: 0 <= i < |segs[k]| ==> segs[k][i] in Join(segs, seps)
    decreases |seps|
  {
    if |seps| > 0 {
      var tail := Join(segs[1..], seps[1..]);
      assert Join(segs, seps) == segs[0] + [seps[0]] + tail;
      if k > 0 {
        SegmentInJoin(segs[1..], seps[1..], k - 1);
        assert segs[k] == segs[1..][k - 1];
      }
    }
  }

  /** A string spelled out as segments joined by separators splits into those segments. */
  lemma SplitsTo(s: string, segs: seq<string>, seps: seq<char>)
    requires |segs| == |seps| + 1 && s == Join(segs, seps)
    requires forall k :: 0 <= k < |segs| ==> NoSeparator(segs[k])
    requires forall k :: 0 <= k < |seps| ==> IsSeparator(seps[k])
    ensures Split(s) == segs
  {
    SplitJoin(segs, seps);
  }

  /** The splits of the strings in the wildcard cases of util_test.go's `TestMatchTopic`. */
  lemma SplitExamples()
    ensures Split("a.b.c") == ["a", "b", "c"]
    ensures Split("a.*.c") == ["a", "*", "c"]
    ensures Split("a.*.*") == ["a", "*", "*"]
  {
    assert "a.b.c" == Join(["a", "b", "c"], ['.', '.']);
    SplitsTo("a.b.c", ["a", "b", "c"], ['.', '.']);
    assert "a.*.c" == Join(["a", "*", "c"], ['.', '.']);
    SplitsTo("a.*.c", ["a", "*", "c"], ['.', '.']);
    assert "a.*.*" == Join(["a", "*", "*"], ['.', '.']);
    SplitsTo("a.*.*", ["a", "*", "*"], ['.', '.']);
  }

  /** The wildcard cases of util_test.go's `TestMatchTopic`. */
  lemma MatchTopicWildcardExamples()
    ensures MatchTopic("a.b.c", "a.*.c")
    ensures MatchTopic("a.b.c", "a.*.*")
  {
    SplitExamples();
  }

  /** A topic matches itself (first case of util_test.go's `TestMatchTopic`). */
  lemma MatchTopicSameSegmentsExamples()
    ensures MatchTopic("a.b.c", "a.b.c")
  {
  }

  /** The separators of `separatorsRegex` are interchangeable: `"a-b"` matches `"a.b"`. */
  lemma MatchTopicSeparatorKindExample()
    ensures MatchTopic("a.b", "a-b")
  {
    MatchIgnoresSeparatorKind("a.b", "a.b", "a.b", "a-b");
  }

  /** Different first segments (case of util_test.go's `TestMatchTopic`). */
  lemma MatchTopicMismatchExample()
    ensures !MatchTopic("a.b.c", "c.b.a")
  {
    LiteralPatternMatch("a.b.c", "c.b.a");
    assert "a.b.c"[0] != "c.b.a"[0];
  }

  /** Separator counts of the strings in util_test.go's `TestMatchTopic`. */
  lemma SeparatorCountExamples()
    ensures |Separators("a.*")| == 1
    ensures |Separators("a.b.c")| == 2
    ensures |Separators("a.b.c.d")| == 3
  {
    assert Separators("d") == [];
    assert Separators("c") == [];
    assert Separators("*") == [];
  }

  /** A wildcard cannot stand for two segments, and neither string may have extra segments
      (cases of util_test.go's `TestMatchTopic`). */
  lemma MatchTopicCountExamples()
    ensures !MatchTopic("a.b.c", "a.*")
    ensures !MatchTopic("a.b.c.d", "a.b.c")
    ensures !MatchTopic("a.b.c", "a.b.c.d")
  {
    SeparatorCountExamples();
    MatchNeedsSameSeparatorCount("a.b.c", "a.*");
    MatchNeedsSameSeparatorCount("a.b.c.d", "a.b.c");
    MatchNeedsSameSeparatorCount("a.b.c", "a.b.c.d");
  }
}
