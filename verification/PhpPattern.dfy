/** What the array walk of internal/dbmig/cmsconfig.go matches, told by the text alone: the expression for a key and
    its opener, string literals, the leftmost match, and the steps of the walk. */
module PhpPattern {
  import opened Text
  import opened PhpArrays

  ghost predicate Spaces(s: string, a: int, b: int) { 0 <= a <= b <= |s| && forall x :: a <= x < b ==> IsRegexSpace(s[x]) }

  // White space of the expression: the codes 9, 10, 12, 13 and 32.
  lemma SpacesAre(c: char)
    ensures IsRegexSpace(c) <==> c as int in {9, 10, 12, 13, 32}
  {
  }

  // The word stands at `i`.
  ghost predicate Word(s: string, i: int, w: string) { 0 <= i && i + |w| <= |s| && s[i..i + |w|] == w }

  // ['"]key['"]\s*=>\s*(?:\[|array\s*\() from `i` to `end`, the arrow at `a` and the array's first byte at `v`.
  ghost predicate Matches(s: string, i: nat, key: string, a: int, v: int, end: int) {
    var q := i + 1 + |key|;
    && q < |s| && IsQuote(s[i]) && Word(s, i + 1, key) && IsQuote(s[q])
    && Spaces(s, q + 1, a) && Word(s, a, "=>") && Spaces(s, a + 2, v)
    && ((Word(s, v, "[") && end == v + 1)
        || (Word(s, v, "array") && v + 5 < end <= |s| && Spaces(s, v + 5, end - 1) && s[end - 1] == '('))
  }

  lemma {:induction false} SpaceEnds(s: string, i: nat, e: nat)
    requires i <= e <= |s| && Spaces(s, i, e) && (e < |s| ==> !IsRegexSpace(s[e]))
    ensures SkipSpace(s, i) == e
    decreases e - i
  {
    if i < e {
      SpaceEnds(s, i + 1, e);
    }
  }

  lemma WordStarts(s: string, i: nat, w: string)
    ensures At(s, i, w) <==> Word(s, i, w)
    ensures Word(s, i, w) && w != "" ==> i < |s| && s[i] == w[0]
  {
  }

  // The parts of the match, as they are looked for one after the other.
  lemma MatchParts(s: string, i: nat, key: string, a: nat, v: nat, end: nat)
    requires Matches(s, i, key, a, v, end)
    ensures var q := i + 1 + |key|;
            && q < |s| && IsQuote(s[i]) && At(s, i + 1, key) && IsQuote(s[q]) && a + 2 <= |s|
            && SkipSpace(s, q + 1) == a && At(s, a, "=>") && SkipSpace(s, a + 2) == v
  {
    assert !IsRegexSpace('=') && !IsRegexSpace('[') && !IsRegexSpace('a');
    hide SkipSpace, At, IsRegexSpace;
    WordStarts(s, i + 1, key);
    WordStarts(s, a, "=>");
    WordStarts(s, v, "[");
    WordStarts(s, v, "array");
    SpaceEnds(s, i + 2 + |key|, a);
    SpaceEnds(s, a + 2, v);
  }

  lemma MatchOpens(s: string, i: nat, key: string, a: nat, v: nat, end: nat)
    requires Matches(s, i, key, a, v, end)
    ensures (At(s, v, "[") && end == v + 1)
         || (!At(s, v, "[") && At(s, v, "array") && v + 5 < end <= |s| && SkipSpace(s, v + 5) == end - 1 && At(s, end - 1, "("))
  {
    assert !IsRegexSpace('(');
    hide SkipSpace, At, IsRegexSpace;
    WordStarts(s, v, "[");
    WordStarts(s, v, "array");
    if !Word(s, v, "[") {
      SpaceEnds(s, v + 5, end - 1);
      assert s[end - 1..end] == [s[end - 1]];
      WordStarts(s, end - 1, "(");
    }
  }

  // The anchored match is exactly a text of that shape.
  lemma MatchIsRead(s: string, i: nat, key: string, a: nat, v: nat, end: nat)
    requires Matches(s, i, key, a, v, end)
    ensures KeyOpen(s, i, key) == Some(end)
  {
    hide SkipSpace, At, IsRegexSpace, Matches, IsQuote;
    MatchParts(s, i, key, a, v, end);
    MatchOpens(s, i, key, a, v, end);
  }

  lemma ReadIsMatch(s: string, i: nat, key: string) returns (a: nat, v: nat)
    requires KeyOpen(s, i, key).Some?
    ensures Matches(s, i, key, a, v, KeyOpen(s, i, key).value)
  {
    hide SkipSpace, IsRegexSpace;
    a := SkipSpace(s, i + 2 + |key|);
    v := SkipSpace(s, a + 2);
    SpacesOnly(s, i + 2 + |key|);
    SpacesOnly(s, a + 2);
    if !At(s, v, "[") {
      SpacesOnly(s, v + 5);
      assert s[SkipSpace(s, v + 5)..SkipSpace(s, v + 5) + 1] == [s[SkipSpace(s, v + 5)]];
    }
  }

  ghost predicate LeftmostAt(s: string, i: nat, key: string, p: nat) {
    i <= p && KeyOpen(s, p, key).Some? && forall x: nat :: i <= x < p ==> KeyOpen(s, x, key).None?
  }

  // The search finds none only where there is none.
  lemma {:induction false} NoMatch(s: string, i: nat, key: string)
    requires i <= |s|
    ensures FirstKeyOpen(s, i, key).None? <==> forall x: nat :: i <= x ==> KeyOpen(s, x, key).None?
    decreases |s| - i
  {
    hide KeyOpen, IsQuote;
    if i < |s| && KeyOpen(s, i, key).None? {
      NoMatch(s, i + 1, key);
    }
  }

  // What it finds is the leftmost match.
  lemma {:induction false} LeftmostMatch(s: string, i: nat, key: string) returns (p: nat)
    requires i <= |s| && FirstKeyOpen(s, i, key).Some?
    ensures LeftmostAt(s, i, key, p) && KeyOpen(s, p, key) == FirstKeyOpen(s, i, key)
    decreases |s| - i
  {
    hide KeyOpen, IsQuote;
    p := i;
    if KeyOpen(s, i, key).None? {
      p := LeftmostMatch(s, i + 1, key);
    }
  }

  // A literal ends at the first byte that is its quote and not hidden by a backslash; without one, with the text.
  lemma {:induction false} LiteralEndIs(s: string, j: nat, q: char, e: nat)
    requires j <= |s| && e < |s| && IsQuote(q) && j <= e && s[e] == q && Escaped(s[j..e], q)
    ensures LiteralEnd(s, j, q) == e
    decreases |s| - j
  {
    if j < e {
      assert s[j..e][0] == s[j];
      var n := if s[j] == '\\' then 2 else 1;
      assert s[j..e][n..] == s[j + n..e];
      LiteralEndIs(s, j + n, q, e);
    }
  }

  lemma {:induction false} LiteralEndHides(s: string, j: nat, q: char)
    requires j < |s| && IsQuote(q)
    ensures var e := LiteralEnd(s, j, q);
            (j <= e && s[e] == q && Escaped(s[j..e], q)) || (e == |s| - 1 && Open(s[j..], q))
    decreases |s| - j
  {
    if s[j] == q {
      assert s[j..j] == "";
    } else {
      var n := if s[j] == '\\' then 2 else 1;
      if j + n < |s| {
        LiteralEndHides(s, j + n, q);
        var e := LiteralEnd(s, j, q);
        assert s[j..][n..] == s[j + n..] && s[j..][0] == s[j];
        if j + n <= e && s[e] == q && Escaped(s[j + n..e], q) {
          assert s[j..e][n..] == s[j + n..e] && s[j..e][0] == s[j];
        }
      } else {
        assert s[j..][0] == s[j] && |s[j..]| <= n;
      }
    }
  }

  // No byte of the text closes a literal.
  predicate Open(b: string, q: char) {
    b == "" || (if b[0] == '\\' then |b| == 1 || Open(b[2..], q) else b[0] != q && Open(b[1..], q))
  }

  // The spans of a walk: the first key's body, and below each the body of the next key's child. A walk exists
  // exactly if such spans do, and then it is those.
  ghost predicate Steps(s: string, keys: seq<string>, spans: seq<Span>) {
    && |spans| == |keys| && Bodies(s, spans)
    && (keys != [] ==> FirstKeyOpen(s, 0, keys[0]) == Some(spans[0].start))
    && forall k :: 0 < k < |spans| ==> ChildFrom(s, spans[k - 1].start, spans[k - 1].end, 0, keys[k]) == Some(spans[k].start)
  }

  lemma WalkSteps(s: string, keys: seq<string>)
    requires keys != [] && Walk(s, keys).Some?
    ensures Steps(s, keys, Walk(s, keys).value)
  {
    hide FirstKeyOpen, ChildFrom;
    WalkNests(s, keys);
    DescendSteps(s, BodyAt(s, FirstKeyOpen(s, 0, keys[0]).value).value, keys[1..]);
  }

  lemma {:induction false} DescendSteps(s: string, block: Span, keys: seq<string>)
    requires block.start <= block.end <= |s| && Descend(s, block, keys).Some?
    ensures var spans := Descend(s, block, keys).value;
            forall k :: 0 < k < |spans| ==> ChildFrom(s, spans[k - 1].start, spans[k - 1].end, 0, keys[k - 1]) == Some(spans[k].start)
    decreases |keys|
  {
    hide ChildFrom, BodyAt;
    if keys != [] {
      var body := DescendParts(s, block, keys);
      DescendSteps(s, body, keys[1..]);
      var rest := Descend(s, body, keys[1..]).value;
      assert forall k :: 0 < k < |rest| ==> keys[1..][k - 1] == keys[k];
    }
  }

  lemma StepsAreWalked(s: string, keys: seq<string>, spans: seq<Span>)
    requires keys != [] && Steps(s, keys, spans)
    ensures Walk(s, keys) == Some(spans)
  {
    hide FirstKeyOpen, ChildFrom;
    StepsDescend(s, keys, spans, 0);
    assert spans[0..] == spans;
  }

  lemma {:induction false} StepsDescend(s: string, keys: seq<string>, spans: seq<Span>, k: nat)
    requires k < |keys| && Steps(s, keys, spans)
    ensures spans[k].start <= spans[k].end <= |s| && Descend(s, spans[k], keys[k + 1..]) == Some(spans[k..])
    decreases |keys| - k
  {
    hide ChildFrom, FirstKeyOpen, BodyAt;
    if k + 1 < |keys| {
      StepsDescend(s, keys, spans, k + 1);
      assert keys[k + 1..][0] == keys[k + 1] && keys[k + 1..][1..] == keys[k + 2..];
      assert spans[k..] == [spans[k]] + spans[k + 1..];
      DescendJoins(s, spans[k], spans[k + 1], keys[k + 1..]);
    } else {
      assert keys[k + 1..] == [] && spans[k..] == [spans[k]];
      DescendEnds(s, spans[k]);
    }
  }
}
