/** What the `.env` tokenizer of internal/dbmig/cmsconfig.go reads, told by the text alone: the shape of one
    assignment, where its value ends, and how the lines of a text are read one after another. */
module DotEnvGrammar {
  import opened Text
  import opened DotEnvScanner
  import opened DotEnvRewrite

  // The bytes from `a` to `b` are of the class.
  ghost predicate Run(s: string, a: int, b: int, k: Class) { 0 <= a <= b <= |s| && forall x :: a <= x < b ==> Is(s[x], k) }

  // Blanks are the codes 9 and 32; a key is made of letters, digits, dots and underscores; a line holds all but code 10.
  lemma ClassesAre(c: char)
    ensures Is(c, Blank) <==> c as int == 9 || c as int == 32
    ensures Is(c, KeyChar) <==> 48 <= c as int <= 57 || 65 <= c as int <= 90 || 97 <= c as int <= 122 || c as int == 46 || c as int == 95
    ensures Is(c, InLine) <==> c as int != 10
  {
  }

  // The word and a blank stand at `j`.
  predicate ExportAt(s: string, j: nat) { j + 6 < |s| && s[j..j + 6] == "export" && Is(s[j + 6], Blank) }

  // From the line's start at `i`: blanks; the word `export` and blanks, if it is there; the key; blanks; `=`.
  ghost predicate Assigns(s: string, i: nat, b: nat, keyStart: nat, keyEnd: nat, eq: nat) {
    && Run(s, i, b, Blank) && b <= keyStart
    && (if ExportAt(s, b) then b + 6 < keyStart && Run(s, b + 6, keyStart, Blank) else keyStart == b)
    && keyStart < keyEnd && Run(s, keyStart, keyEnd, KeyChar) && Run(s, keyEnd, eq, Blank) && eq < |s| && s[eq] == '='
  }

  // A line of that shape is read as an assignment of the key, from its value on; and no other line is.
  lemma ShapeIsRead(s: string, i: nat, b: nat, keyStart: nat, keyEnd: nat, eq: nat)
    requires i < |s| && Assigns(s, i, b, keyStart, keyEnd, eq)
    ensures ScanLine(s, i) ==
            match ValueEnd(s, eq + 1)
            case None => Malformed
            case Some(e) => Bound(Assign(s[keyStart..keyEnd], Trim(s[eq + 1..e]), eq + 1, e), NextLine(s, e))
  {
    hide Skip, Trim, ValueEnd, NextLine;
    ShapeRuns(s, i, b, keyStart, keyEnd, eq);
  }

  lemma ShapeRuns(s: string, i: nat, b: nat, keyStart: nat, keyEnd: nat, eq: nat)
    requires i < |s| && Assigns(s, i, b, keyStart, keyEnd, eq)
    ensures b < |s| && Skip(s, i, Blank) == b && s[b] != '\n' && s[b] != '#' && AfterExport(s, b) == keyStart
    ensures Skip(s, keyStart, KeyChar) == keyEnd && Skip(s, keyEnd, Blank) == eq
  {
    hide Skip;
    assert ExportAt(s, b) ==> s[b] == s[b..b + 6][0];
    SkipIs(s, i, Blank, b);
    if ExportAt(s, b) {
      SkipIs(s, b + 6, Blank, keyStart);
    }
    SkipIs(s, keyStart, KeyChar, keyEnd);
    SkipIs(s, keyEnd, Blank, eq);
  }

  lemma ReadHasShape(s: string, i: nat) returns (b: nat, keyStart: nat, keyEnd: nat, eq: nat)
    requires i < |s| && !ScanLine(s, i).Other?
    ensures Assigns(s, i, b, keyStart, keyEnd, eq)
    ensures ScanLine(s, i).Bound? ==> ScanLine(s, i).assign.key == s[keyStart..keyEnd] && ScanLine(s, i).assign.valStart == eq + 1
  {
    hide Trim, ValueEnd, NextLine;
    b := Skip(s, i, Blank);
    keyStart := AfterExport(s, b);
    keyEnd := Skip(s, keyStart, KeyChar);
    eq := Skip(s, keyEnd, Blank);
  }

  // ---------------------------------------------------------------- where a value and a line end

  // Between the quotes: after a backslash in double quotes any byte; never the quote itself; no line end in single ones.
  predicate Inside(b: string, quote: char) {
    b == "" ||
    if quote == '"' && b[0] == '\\' then |b| > 1 && Inside(b[2..], quote)
    else b[0] != quote && (quote == '"' || b[0] != '\n') && Inside(b[1..], quote)
  }

  // A quoted value ends just past its quote exactly there.
  lemma {:induction false} QuoteEndIs(s: string, q: nat, quote: char, e: nat)
    requires q <= |s| && IsQuote(quote)
    ensures QuoteEnd(s, q, quote) == Some(e) <==> q < e <= |s| && s[e - 1] == quote && Inside(s[q..e - 1], quote)
    decreases |s| - q
  {
    if q < |s| {
      var n := if quote == '"' && s[q] == '\\' then 2 else 1;
      if q + n <= |s| {
        QuoteEndIs(s, q + n, quote, e);
      }
      if q + n < e <= |s| {
        assert s[q..e - 1][0] == s[q] && s[q..e - 1][n..] == s[q + n..e - 1];
      } else if q < e <= |s| {
        assert e - 1 - q < n;
        assert e - 1 > q ==> s[q..e - 1][0] == s[q];
      }
    }
  }

  lemma QuotedValueEnds(s: string, v: nat, p: nat, e: nat)
    requires Run(s, v, p, Blank) && p < |s| && IsQuote(s[p])
    ensures ValueEnd(s, v) == Some(e) <==> p + 1 < e <= |s| && s[e - 1] == s[p] && Inside(s[p + 1..e - 1], s[p])
  {
    hide Inside, Skip, QuoteEnd;
    SkipIs(s, v, Blank, p);
    QuoteEndIs(s, p + 1, s[p], e);
  }

  // Any other value takes the rest of its line.
  lemma UnquotedValueEnds(s: string, v: nat, p: nat, e: nat)
    requires Run(s, v, p, Blank) && (p < |s| ==> !Is(s[p], Blank) && !IsQuote(s[p]))
    ensures ValueEnd(s, v) == Some(e) <==> Run(s, v, e, InLine) && (e < |s| ==> s[e] == '\n')
  {
    hide Skip;
    SkipIs(s, v, Blank, p);
    EndOfRun(s, v, InLine, e);
  }

  lemma EndOfRun(s: string, i: nat, k: Class, e: nat)
    requires i <= |s|
    ensures Skip(s, i, k) == e <==> Run(s, i, e, k) && (e < |s| ==> !Is(s[e], k))
  {
    if Run(s, i, e, k) && (e < |s| ==> !Is(s[e], k)) {
      SkipIs(s, i, k, e);
    }
  }

  // The next line starts just past the first line end, or where the text ends.
  lemma NextLineIs(s: string, i: nat, next: nat)
    requires i <= |s|
    ensures NextLine(s, i) == next <==>
      (Run(s, i, next, InLine) && next == |s|) || (i < next && Run(s, i, next - 1, InLine) && next <= |s| && s[next - 1] == '\n')
  {
    hide Skip;
    EndOfRun(s, i, InLine, Skip(s, i, InLine));
    if i < next <= |s| && Run(s, i, next - 1, InLine) && s[next - 1] == '\n' {
      EndOfRun(s, i, InLine, next - 1);
    }
    if Run(s, i, next, InLine) && next == |s| {
      EndOfRun(s, i, InLine, next);
    }
  }

  // A line that is no assignment is skipped as a whole.
  lemma OtherLineEnds(s: string, i: nat)
    requires i < |s| && ScanLine(s, i).Other?
    ensures ScanLine(s, i).next == NextLine(s, i)
  {
    hide Trim, LineHead, ValueEnd;
    var j := Skip(s, i, Blank);
    SkipIs(s, i, InLine, Skip(s, j, InLine));
  }

  // ---------------------------------------------------------------- one text after another

  function Shifted(assigns: seq<Assign>, n: nat): (r: seq<Assign>)
    ensures |r| == |assigns| && forall k :: 0 <= k < |r| ==> r[k] == Moved(assigns[k], 0, n)
  {
    seq(|assigns|, k requires 0 <= k < |assigns| => Moved(assigns[k], 0, n))
  }

  lemma {:induction false} ScanMoves(s: string, i: nat, t: string, n: nat)
    requires SameRest(s, i, t, i + n)
    ensures ScanFrom(t, i + n) == Scanned(Shifted(ScanFrom(s, i).assigns, n), ScanFrom(s, i).ok)
    decreases |s| - i
  {
    hide ScanLine, Shifted;
    if i < |s| {
      LineShift(s, i, t, i + n);
      match ScanLine(s, i)
      case Malformed => assert Shifted([], n) == [];
      case Other(next) => ScanMoves(s, next, t, n);
      case Bound(a, next) =>
        ScanMoves(s, next, t, n);
        var rest := ScanFrom(s, next).assigns;
        assert Shifted([a] + rest, n) == [Moved(a, 0, n)] + Shifted(rest, n);
    } else {
      assert Shifted([], n) == [];
    }
  }

  // Where whole lines are followed by more text, the assignments of both are read, one after the other.
  lemma {:induction false} LinesThenText(a: string, b: string, i: nat)
    requires i <= |a| && ScanFrom(a, i).ok && (i < |a| ==> a[|a| - 1] == '\n')
    ensures ScanFrom(a + b, i) == Scanned(ScanFrom(a, i).assigns + Shifted(Scan(b).assigns, |a|), Scan(b).ok)
    decreases |a| - i
  {
    hide ScanLine, Shifted;
    var s := a + b;
    if i == |a| {
      ScanMoves(b, 0, s, |a|);
      assert [] + Shifted(Scan(b).assigns, |a|) == Shifted(Scan(b).assigns, |a|);
    } else {
      LineIsWhole(a, i);
      WholeLineAgree(a, s, |a|, i);
      match ScanLine(a, i)
      case Other(next) => LinesThenText(a, b, next);
      case Bound(x, next) =>
        LinesThenText(a, b, next);
        assert [x] + (ScanFrom(a, next).assigns + Shifted(Scan(b).assigns, |a|))
            == ([x] + ScanFrom(a, next).assigns) + Shifted(Scan(b).assigns, |a|);
    }
  }

  lemma LineIsWhole(a: string, i: nat)
    requires i < |a| && a[|a| - 1] == '\n' && !ScanLine(a, i).Malformed?
    ensures a[ScanLine(a, i).next - 1] == '\n'
  {
    hide ScanLine;
    if ScanLine(a, i).next < |a| {
      LineEndsLine(a, i);
    }
  }
}
