/** The in-place `.env` editor of internal/dbmig/cmsrewrite.go, and what reading back gives. */
module DotEnvRewrite {
  import opened Text
  import opened DotEnvScanner

  // dotEnvQuote
  function Quoted(value: string): string {
    if '\'' !in value then "'" + value + "'"
    else if !ContainsAny(value, "$\\\"\n\r") then "\"" + value + "\""
    else "'" + value + "'"
  }

  predicate ContainsAny(s: string, chars: string) {
    exists c :: c in chars && c in s
  }

  // The key is assigned in a well-formed file, so there is a value to replace.
  predicate Assigned(content: string, key: string) {
    Scan(content).ok && LastOf(Scan(content).assigns, key).Some?
  }

  // `s` with the value of one assignment replaced by the literal `lit`.
  function Spliced(s: string, a: Assign, lit: string): string
    requires a.valStart <= a.valEnd <= |s|
  {
    s[..a.valStart] + lit + s[a.valEnd..]
  }

  // setDotEnv
  function SetValue(content: string, key: string, value: string): string {
    if !Assigned(content, key) then content
    else
      var n := LastOf(Scan(content).assigns, key).value;
      var a := Scan(content).assigns[n];
      AssignSpan(content, 0, n);
      Spliced(content, a, Quoted(value))
  }

  method SetDotEnv(content: string, key: string, value: string) returns (out: string)
    ensures out == SetValue(content, key, value)
  {
    hide ScanFrom, Quoted;
    var assigns, ok := DotEnvScan(content);
    if !ok {
      return content;
    }
    var idx: int := -1;
    for i := 0 to |assigns|
      invariant -1 <= idx < i
      invariant LastOf(assigns[..i], key) == if idx < 0 then None else Some(idx)
    {
      assert assigns[..i + 1][..i] == assigns[..i];
      if assigns[i].key == key {
        idx := i;
      }
    }
    assert assigns[..|assigns|] == assigns;
    if idx < 0 {
      return content;
    }
    var a := assigns[idx];
    AssignSpan(content, 0, idx);
    return content[..a.valStart] + Quoted(value) + content[a.valEnd..];
  }

  datatype Creds = Creds(name: string, user: string, password: string, host: string)

  // parseDotEnv
  function Parse(content: string): Creds {
    Creds(Value(content, "DB_DATABASE"), Value(content, "DB_USERNAME"), Value(content, "DB_PASSWORD"),
          Value(content, "DB_HOST"))
  }

  function SetUnlessEmpty(content: string, key: string, value: string): string {
    if value != "" then SetValue(content, key, value) else content
  }

  // rewriteDotEnv
  function Rewrite(content: string, name: string, user: string, password: string): string {
    SetUnlessEmpty(SetUnlessEmpty(SetUnlessEmpty(content, "DB_DATABASE", name), "DB_USERNAME", user), "DB_PASSWORD", password)
  }

  method RewriteDotEnv(content: string, name: string, user: string, password: string) returns (out: string)
    ensures out == Rewrite(content, name, user, password)
  {
    hide SetValue;
    out := content;
    if name != "" {
      out := SetDotEnv(out, "DB_DATABASE", name);
    }
    if user != "" {
      out := SetDotEnv(out, "DB_USERNAME", user);
    }
    if password != "" {
      out := SetDotEnv(out, "DB_PASSWORD", password);
    }
  }

  // ---------------------------------------------------------------- spans

  lemma {:induction false} AssignSpan(s: string, i: nat, n: nat)
    requires i <= |s| && n < |ScanFrom(s, i).assigns|
    ensures var a := ScanFrom(s, i).assigns[n]; i < a.valStart <= a.valEnd <= |s|
    decreases |s| - i
  {
    hide ScanLine;
    match ScanLine(s, i)
    case Other(next) => AssignSpan(s, next, n);
    case Bound(a, next) => if n > 0 { AssignSpan(s, next, n - 1); }
  }

  // The key token of an assignment: at `at`, nothing but blanks between it and the '=' before the value.
  ghost predicate KeyTokenAt(s: string, a: Assign, at: nat) {
    && 0 < |a.key| && at + |a.key| < a.valStart <= |s|
    && s[at..at + |a.key|] == a.key && s[a.valStart - 1] == '='
    && (forall j :: at + |a.key| <= j < a.valStart - 1 ==> Is(s[j], Blank))
  }

  lemma BoundLineKey(s: string, i: nat) returns (at: nat)
    requires i < |s| && ScanLine(s, i).Bound?
    ensures i <= at && KeyTokenAt(s, ScanLine(s, i).assign, at)
  {
    hide Trim, Skip, AfterExport, ValueEnd, NextLine;
    at := AfterExport(s, Skip(s, i, Blank));
  }

  lemma {:induction false} KeyToken(s: string, i: nat, n: nat) returns (at: nat)
    requires i <= |s| && n < |ScanFrom(s, i).assigns|
    ensures i <= at && KeyTokenAt(s, ScanFrom(s, i).assigns[n], at)
    decreases |s| - i
  {
    hide ScanLine, KeyTokenAt;
    match ScanLine(s, i)
    case Other(next) => at := KeyToken(s, next, n);
    case Bound(a, next) =>
      if n == 0 {
        at := BoundLineKey(s, i);
      } else {
        at := KeyToken(s, next, n - 1);
      }
  }

  // Value spans come in order and are disjoint: every assignment's key token starts on a line after
  // the end of the value before it, so no key is ever found inside a value.
  lemma {:induction false} SpansOrdered(s: string, i: nat, n: nat) returns (at: nat)
    requires i <= |s| && n < |ScanFrom(s, i).assigns|
    ensures i <= at && KeyTokenAt(s, ScanFrom(s, i).assigns[n], at)
    ensures n > 0 ==> exists j :: ScanFrom(s, i).assigns[n - 1].valEnd <= j < at && s[j] == '\n'
    decreases |s| - i
  {
    hide ScanLine, KeyTokenAt;
    match ScanLine(s, i)
    case Other(next) => at := SpansOrdered(s, next, n);
    case Bound(a, next) =>
      if n == 0 {
        at := BoundLineKey(s, i);
      } else if n == 1 {
        at := KeyToken(s, next, 0);
        NewlineBefore(s, i);
        assert a.valEnd <= next - 1 < at && s[next - 1] == '\n';
      } else {
        at := SpansOrdered(s, next, n - 1);
      }
  }

  lemma NewlineBefore(s: string, i: nat)
    requires i < |s| && ScanLine(s, i).Bound?
    ensures var r := ScanLine(s, i); r.next < |s| ==> r.assign.valEnd < r.next && s[r.next - 1] == '\n'
  {
    hide Trim, AfterExport, ValueEnd;
  }

  // ---------------------------------------------------------------- equal prefixes scan alike

  lemma SkipAgree(s: string, t: string, e: nat, i: nat, k: Class)
    requires Agree(s, t, e) && i <= e && Skip(s, i, k) < e
    ensures Skip(t, i, k) == Skip(s, i, k)
  {
  }

  lemma {:induction false} QuoteAgree(s: string, t: string, e: nat, q: nat, quote: char)
    requires Agree(s, t, e) && QuoteEnd(s, q, quote).Some? && QuoteEnd(s, q, quote).value <= e
    ensures QuoteEnd(t, q, quote) == QuoteEnd(s, q, quote)
    decreases |s| - q
  {
    if quote == '"' && s[q] == '\\' && q + 1 < |s| {
      QuoteAgree(s, t, e, q + 2, quote);
    } else if s[q] != quote {
      QuoteAgree(s, t, e, q + 1, quote);
    }
  }

  // A byte that is neither a blank nor a letter of "export" bounds the look-ahead for the prefix.
  lemma ExportAgree(s: string, t: string, e: nat, j: nat, l: nat)
    requires Agree(s, t, e) && j <= l < e && s[l] in {'\n', '='}
    ensures AfterExport(t, j) == AfterExport(s, j) <= l
  {
    if j + 6 < |t| && t[j..j + 6] == "export" {
      ExportLetters(t, j, l);
      assert s[j..j + 6] == t[j..j + 6];
    }
    if j + 6 < |s| && s[j..j + 6] == "export" {
      ExportLetters(s, j, l);
      assert t[j..j + 6] == s[j..j + 6];
      if Is(s[j + 6], Blank) {
        SkipAgree(s, t, e, j + 6, Blank);
      }
    }
  }

  lemma ExportLetters(s: string, j: nat, l: nat)
    requires j + 6 <= |s| && s[j..j + 6] == "export" && j <= l < |s| && s[l] in {'\n', '='}
    ensures j + 6 <= l
  {
    assert forall x :: j <= x < j + 6 ==> s[x] == s[j..j + 6][x - j];
  }

  // `l` is a line end, or the '=' of the assignment.
  lemma HeadAgree(s: string, t: string, e: nat, j: nat, l: nat)
    requires Agree(s, t, e) && j <= l < e
    requires s[l] == '\n' || (LineHead(s, j).Some? && LineHead(s, j).value.valStart == l + 1)
    ensures LineHead(t, j) == LineHead(s, j)
    ensures LineHead(s, j).Some? ==> LineHead(s, j).value.valStart <= l + 1
  {
    hide Skip, AfterExport;
    ExportAgree(s, t, e, j, l);
  }

  lemma ValueAgree(s: string, t: string, e: nat, v: nat)
    requires v <= e && Agree(s, t, e) && ValueEnd(s, v).Some? && ValueEnd(s, v).value < e
    requires Skip(s, v, Blank) < e
    ensures ValueEnd(t, v) == ValueEnd(s, v)
  {
    hide Skip, QuoteEnd;
    var p := Skip(s, v, Blank);
    if IsQuote(s[p]) {
      QuoteAgree(s, t, e, p + 1, s[p]);
    }
  }

  // The line of an assignment, from its head on.
  function TailLine(s: string, h: Head): Line
    requires h.keyStart <= h.keyEnd <= |s| && h.valStart <= |s|
  {
    match ValueEnd(s, h.valStart)
    case None => Malformed
    case Some(e) => Bound(Assign(s[h.keyStart..h.keyEnd], Trim(s[h.valStart..e]), h.valStart, e), NextLine(s, e))
  }

  // A line, once its leading blanks are skipped.
  function FromText(s: string, k: nat): Line
    requires k <= |s|
  {
    if k == |s| || s[k] == '\n' || s[k] == '#' || LineHead(s, k).None? then Other(NextLine(s, k)) else TailLine(s, LineHead(s, k).value)
  }

  lemma LineFrom(s: string, i: nat)
    requires i < |s|
    ensures ScanLine(s, i) == FromText(s, Skip(s, i, Blank))
  {
    hide Trim, Skip, LineHead, ValueEnd, NextLine;
  }

  // A line that ends within the common prefix reads the same.
  lemma LineAgree(s: string, t: string, e: nat, i: nat)
    requires Agree(s, t, e) && i < e && !ScanLine(s, i).Malformed?
    requires ScanLine(s, i).next <= e && ScanLine(s, i).next < |s|
    ensures ScanLine(t, i) == ScanLine(s, i)
  {
    hide ScanLine, Agree;
    LineEndsLine(s, i);
    WholeLineAgree(s, t, e, i);
  }

  lemma LineEndsLine(s: string, i: nat)
    requires i < |s| && !ScanLine(s, i).Malformed? && ScanLine(s, i).next < |s|
    ensures s[ScanLine(s, i).next - 1] == '\n'
  {
    hide Trim, Skip, LineHead, ValueEnd, NextLine;
  }

  lemma WholeLineAgree(s: string, t: string, e: nat, i: nat)
    requires Agree(s, t, e) && i < e && !ScanLine(s, i).Malformed?
    requires ScanLine(s, i).next <= e && s[ScanLine(s, i).next - 1] == '\n'
    ensures ScanLine(t, i) == ScanLine(s, i)
  {
    hide Trim, Skip, LineHead, ValueEnd, NextLine, FromText, Agree;
    assert Skip(s, i, Blank) < ScanLine(s, i).next by { NextIsLater(s, i); }
    SkipAgree(s, t, e, i, Blank);
    assert i < |t| by { Shorter(s, t, e); }
    LineFrom(s, i);
    LineFrom(t, i);
    FromAgree(s, t, e, Skip(s, i, Blank));
  }

  lemma Shorter(s: string, t: string, e: nat)
    requires Agree(s, t, e)
    ensures e <= |s| && e <= |t|
  {
  }

  lemma NextIsLater(s: string, i: nat)
    requires i < |s| && !ScanLine(s, i).Malformed? && s[ScanLine(s, i).next - 1] == '\n'
    ensures Skip(s, i, Blank) < ScanLine(s, i).next
  {
    hide Trim, Skip, ValueEnd;
  }

  lemma FromAgree(s: string, t: string, e: nat, j: nat)
    requires Agree(s, t, e) && j < e && !FromText(s, j).Malformed?
    requires j < FromText(s, j).next <= e && s[FromText(s, j).next - 1] == '\n'
    ensures FromText(t, j) == FromText(s, j)
  {
    hide Trim, Skip, LineHead, ValueEnd;
    var l := FromText(s, j).next - 1;
    if s[j] == '\n' || s[j] == '#' || LineHead(s, j).None? {
      assert Skip(s, j, InLine) == l;
      SkipAgree(s, t, e, j, InLine);
      if s[j] != '\n' && s[j] != '#' {
        HeadAgree(s, t, e, j, l);
      }
    } else {
      var h := LineHead(s, j).value;
      HeadAgree(s, t, e, j, h.valStart - 1);
      TailAgree(s, t, e, h);
    }
  }

  lemma TailAgree(s: string, t: string, e: nat, h: Head)
    requires Agree(s, t, e) && h.keyStart <= h.keyEnd <= h.valStart <= |s| && TailLine(s, h).Bound?
    requires 0 < h.valStart && s[h.valStart - 1] != '\n'
    requires 0 < TailLine(s, h).next <= e && s[TailLine(s, h).next - 1] == '\n'
    ensures h.valStart <= |t| && TailLine(t, h) == TailLine(s, h)
  {
    hide Trim, Skip, ValueEnd;
    var a, l := TailLine(s, h).assign, TailLine(s, h).next - 1;
    ValueOnLine(s, h.valStart);
    assert Skip(s, a.valEnd, InLine) == l;
    SkipAgree(s, t, e, a.valEnd, InLine);
    assert Skip(s, h.valStart, Blank) <= l by { BlanksEnd(s, h.valStart); }
    ValueAgree(s, t, e, h.valStart);
    assert s[h.keyStart..h.keyEnd] == t[h.keyStart..h.keyEnd] && s[h.valStart..a.valEnd] == t[h.valStart..a.valEnd];
  }

  // No value ends in a line end.
  lemma ValueOnLine(s: string, v: nat)
    requires v <= |s| && ValueEnd(s, v).Some? && 0 < v && s[v - 1] != '\n'
    ensures s[ValueEnd(s, v).value - 1] != '\n'
  {
    hide QuoteEnd;
  }

  // The blanks before a value do not reach over its line.
  lemma BlanksEnd(s: string, v: nat)
    requires v <= |s| && ValueEnd(s, v).Some?
    ensures Skip(s, v, Blank) <= Skip(s, ValueEnd(s, v).value, InLine)
  {
    hide QuoteEnd;
  }

  // ---------------------------------------------------------------- equal suffixes scan alike

  lemma SkipShift(s: string, i: nat, t: string, j: nat, k: Class)
    requires SameRest(s, i, t, j)
    ensures Skip(t, j, k) - j == Skip(s, i, k) - i
  {
    var r := Skip(s, i, k) - i;
    forall x | j <= x < j + r ensures Is(t[x], k) {
      assert t[x] == s[i + (x - j)];
    }
  }

  lemma SliceOf(s: string, i: nat, t: string, j: nat, a: nat, b: nat)
    requires i + a <= i + b <= |s| && SameRest(s, i, t, j)
    ensures j + b <= |t| && s[i + a..i + b] == t[j + a..j + b]
  {
    assert forall x :: i + a <= x < i + b ==> s[x] == t[x - i + j];
  }

  lemma {:induction false} QuoteShift(s: string, i: nat, t: string, j: nat, quote: char)
    requires SameRest(s, i, t, j)
    ensures var a, b := QuoteEnd(s, i, quote), QuoteEnd(t, j, quote);
            a.Some? == b.Some? && (a.Some? ==> b.value - j == a.value - i)
    decreases |s| - i
  {
    if i < |s| {
      if quote == '"' && s[i] == '\\' && i + 1 < |s| {
        QuoteShift(s, i + 2, t, j + 2, quote);
      } else if s[i] != quote && (quote == '"' || s[i] != '\n') {
        QuoteShift(s, i + 1, t, j + 1, quote);
      }
    }
  }

  lemma ExportShift(s: string, i: nat, t: string, j: nat)
    requires SameRest(s, i, t, j)
    ensures AfterExport(t, j) - j == AfterExport(s, i) - i
  {
    hide Skip;
    if i + 6 < |s| {
      SkipShift(s, i + 6, t, j + 6, Blank);
    }
  }

  lemma HeadShift(s: string, i: nat, t: string, j: nat)
    requires SameRest(s, i, t, j)
    ensures var a, b := LineHead(s, i), LineHead(t, j);
            && a.Some? == b.Some?
            && (a.Some? ==> b.value == Head(a.value.keyStart - i + j, a.value.keyEnd - i + j, a.value.valStart - i + j))
  {
    hide Skip, AfterExport;
    var k := AfterExport(s, i) - i;
    ExportShift(s, i, t, j);
    var m := RunShift(s, i, t, j, k, KeyChar);
    var eq := RunShift(s, i, t, j, m, Blank);
  }

  // A run that starts `n` further on: it ends at the same distance, before the same byte.
  lemma RunShift(s: string, i: nat, t: string, j: nat, n: nat, k: Class) returns (m: nat)
    requires i + n <= |s| && SameRest(s, i, t, j)
    ensures j + n <= |t| && i + m == Skip(s, i + n, k) && j + m == Skip(t, j + n, k)
    ensures |s| - i == |t| - j && (i + m < |s| ==> s[i + m] == t[j + m])
  {
    hide Skip;
    SkipShift(s, i + n, t, j + n, k);
    m := Skip(s, i + n, k) - i;
  }

  lemma ValueShift(s: string, i: nat, t: string, j: nat)
    requires SameRest(s, i, t, j)
    ensures var a, b := ValueEnd(s, i), ValueEnd(t, j);
            a.Some? == b.Some? && (a.Some? ==> b.value - j == a.value - i)
  {
    hide Skip, QuoteEnd;
    SkipShift(s, i, t, j, Blank);
    SkipShift(s, i, t, j, InLine);
    var p := Skip(s, i, Blank) - i;
    if i + p < |s| {
      QuoteShift(s, i + p + 1, t, j + p + 1, s[i + p]);
    }
  }

  function Moved(a: Assign, i: nat, j: nat): Assign
    requires i <= a.valStart && i <= a.valEnd
  {
    a.(valStart := a.valStart - i + j, valEnd := a.valEnd - i + j)
  }

  lemma NextLineShift(s: string, i: nat, t: string, j: nat)
    requires SameRest(s, i, t, j)
    ensures NextLine(t, j) - j == NextLine(s, i) - i
  {
    hide Skip;
    SkipShift(s, i, t, j, InLine);
  }

  // A line read from `i` moved to `j`.
  predicate MovedLine(a: Line, b: Line, i: nat, j: nat) {
    match a
    case Other(n) => i <= n && b == Other(n - i + j)
    case Malformed => b == Malformed
    case Bound(x, n) => i <= x.valStart && i <= x.valEnd && i <= n && b == Bound(Moved(x, i, j), n - i + j)
  }

  // Where a value ends, and where its line does, move along.
  lemma TailShift(s: string, i: nat, t: string, j: nat, v: nat)
    requires i <= v <= |s| && SameRest(s, i, t, j)
    ensures v - i + j <= |t|
    ensures match ValueEnd(s, v)
            case None => ValueEnd(t, v - i + j).None?
            case Some(e) => ValueEnd(t, v - i + j) == Some(e - i + j) && e - i + j <= |t| && NextLine(t, e - i + j) - j == NextLine(s, e) - i
  {
    hide Skip, ValueEnd, NextLine;
    ValueShift(s, v, t, v - i + j);
    if ValueEnd(s, v).Some? {
      var e := ValueEnd(s, v).value;
      NextLineShift(s, e, t, e - i + j);
    }
  }

  lemma TailLineShift(s: string, i: nat, t: string, j: nat, h: Head)
    requires i < |s| && SameRest(s, i, t, j)
    requires i <= h.keyStart < h.keyEnd < h.valStart <= |s|
    ensures h.valStart - i + j <= |t| && h.keyEnd - i + j <= |t|
    ensures MovedLine(TailLine(s, h), TailLine(t, Head(h.keyStart - i + j, h.keyEnd - i + j, h.valStart - i + j)), i, j)
  {
    hide Trim, ValueEnd, NextLine;
    TailShift(s, i, t, j, h.valStart);
    SliceOf(s, i, t, j, h.keyStart - i, h.keyEnd - i);
    if ValueEnd(s, h.valStart).Some? {
      SliceOf(s, i, t, j, h.valStart - i, ValueEnd(s, h.valStart).value - i);
    }
  }

  lemma LineShift(s: string, i: nat, t: string, j: nat)
    requires i < |s| && SameRest(s, i, t, j)
    ensures MovedLine(ScanLine(s, i), ScanLine(t, j), i, j)
  {
    hide Trim, Skip, LineHead, ValueEnd, NextLine, Moved, MovedLine;
    SkipShift(s, i, t, j, Blank);
    LineFrom(s, i);
    LineFrom(t, j);
    FromShift(s, i, t, j, Skip(s, i, Blank));
  }

  lemma FromShift(s: string, i: nat, t: string, j: nat, k: nat)
    requires i <= k <= |s| && i < |s| && SameRest(s, i, t, j)
    ensures k - i + j <= |t| && MovedLine(FromText(s, k), FromText(t, k - i + j), i, j)
  {
    hide Trim, LineHead, NextLine, TailLine, Moved;
    NextLineShift(s, k, t, k - i + j);
    HeadShift(s, k, t, k - i + j);
    if LineHead(s, k).Some? {
      TailLineShift(s, i, t, j, LineHead(s, k).value);
    }
  }

  // Same keys bound to the same raw values, in the same order.
  ghost predicate SameBindings(a: Scanned, b: Scanned) {
    && a.ok == b.ok && |a.assigns| == |b.assigns|
    && forall k :: 0 <= k < |a.assigns| ==>
         b.assigns[k].key == a.assigns[k].key && b.assigns[k].rawValue == a.assigns[k].rawValue
  }

  lemma {:induction false} ScanShift(s: string, i: nat, t: string, j: nat)
    requires SameRest(s, i, t, j)
    ensures SameBindings(ScanFrom(s, i), ScanFrom(t, j))
    decreases |s| - i
  {
    hide ScanLine;
    if i < |s| {
      LineShift(s, i, t, j);
      match ScanLine(s, i)
      case Malformed =>
      case Other(n) =>
        ScanShift(s, n, t, n - i + j);
      case Bound(a, n) =>
        ScanShift(s, n, t, n - i + j);
    }
  }

  // ---------------------------------------------------------------- replacing one value

  lemma SplicedParts(s: string, a: Assign, lit: string, c: nat)
    requires a.valStart <= a.valEnd <= |s| && c <= |lit|
    ensures var t := Spliced(s, a, lit);
            && Agree(s, t, a.valStart) && |t| == a.valStart + |lit| + |s| - a.valEnd
            && t[a.valStart..a.valStart + c] == lit[..c]
            && SameRest(s, a.valEnd, t, a.valStart + |lit|)
            && (forall x :: 0 <= x < |lit| ==> t[a.valStart + x] == lit[x])
  {
  }

  // An assignment's head is read the same in every text that agrees up to its value.
  lemma HeadKept(s: string, t: string, i: nat) returns (h: Head)
    requires i < |s| && ScanLine(s, i).Bound? && Agree(s, t, ScanLine(s, i).assign.valStart)
    ensures i < h.valStart == ScanLine(s, i).assign.valStart <= |t| && h.keyStart < h.keyEnd < h.valStart
    ensures ScanLine(s, i) == TailLine(s, h) && ScanLine(t, i) == TailLine(t, h) && s[h.keyStart..h.keyEnd] == t[h.keyStart..h.keyEnd]
  {
    hide Trim, Skip, LineHead, ValueEnd, NextLine;
    var v, j := ScanLine(s, i).assign.valStart, Skip(s, i, Blank);
    HeadAgree(s, t, v, j, v - 1);
    h := LineHead(s, j).value;
  }

  // The line that holds the replaced value: same key, and the rest of its line still to be skipped.
  lemma EditLine(s: string, i: nat, lit: string, c: nat)
    requires i < |s| && ScanLine(s, i).Bound? && c <= |lit| && '\n' !in lit[c..]
    requires var a := ScanLine(s, i).assign;
             ValueEnd(Spliced(s, a, lit), a.valStart) == Some(a.valStart + c)
    ensures var a, n := ScanLine(s, i).assign, ScanLine(s, i).next;
            var t, m := Spliced(s, a, lit), n - a.valEnd + a.valStart + |lit|;
            && i < |t| && m <= |t|
            && ScanLine(t, i) == Bound(Assign(a.key, Trim(lit[..c]), a.valStart, a.valStart + c), m)
            && SameRest(s, n, t, m)
  {
    hide Trim, ScanLine, ValueEnd, Spliced, NextLine;
    var a := ScanLine(s, i).assign;
    SplicedParts(s, a, lit, c);
    var h := HeadKept(s, Spliced(s, a, lit), i);
    RestOfLine(s, a, lit, c);
  }

  // What is left of the literal past the end of the value is skipped with the rest of the line.
  lemma RestOfLine(s: string, a: Assign, lit: string, c: nat)
    requires a.valStart <= a.valEnd <= |s| && c <= |lit| && '\n' !in lit[c..]
    ensures var t, v := Spliced(s, a, lit), a.valStart;
            && v + |lit| <= |t| && NextLine(t, v + c) - (v + |lit|) == NextLine(s, a.valEnd) - a.valEnd
  {
    hide Skip, Spliced;
    var v, t := a.valStart, Spliced(s, a, lit);
    SplicedParts(s, a, lit, c);
    forall x | v + c <= x < v + |lit| ensures Is(t[x], InLine) {
      assert lit[c..][x - v - c] == t[v + (x - v)];
    }
    NextLineShift(s, a.valEnd, t, v + |lit|);
  }

  lemma EditLineMalformed(s: string, i: nat, lit: string)
    requires i < |s| && ScanLine(s, i).Bound?
    requires var a := ScanLine(s, i).assign; ValueEnd(Spliced(s, a, lit), a.valStart) == None
    ensures ScanLine(s, i).assign.valStart > i && i < |Spliced(s, ScanLine(s, i).assign, lit)|
    ensures ScanLine(Spliced(s, ScanLine(s, i).assign, lit), i) == Malformed
  {
    hide Trim, ScanLine, ValueEnd, Spliced;
    var a := ScanLine(s, i).assign;
    SplicedParts(s, a, lit, 0);
    var h := HeadKept(s, Spliced(s, a, lit), i);
  }

  // The bindings of `t` are those of `s`, except that the n-th has the raw value `raw`.
  ghost predicate BindingsBut(s: Scanned, t: Scanned, n: nat, raw: string) {
    && t.ok == s.ok && |t.assigns| == |s.assigns| && n < |s.assigns|
    && t.assigns[n].rawValue == raw
    && forall k :: 0 <= k < |s.assigns| ==>
         t.assigns[k].key == s.assigns[k].key && (k != n ==> t.assigns[k].rawValue == s.assigns[k].rawValue)
  }

  lemma {:induction false} EditScan(s: string, i: nat, n: nat, lit: string, c: nat)
    requires i <= |s| && n < |ScanFrom(s, i).assigns| && c <= |lit| && '\n' !in lit[c..]
    requires var a := ScanFrom(s, i).assigns[n];
             && a.valStart <= a.valEnd <= |s|
             && ValueEnd(Spliced(s, a, lit), a.valStart) == Some(a.valStart + c)
    ensures var t := Spliced(s, ScanFrom(s, i).assigns[n], lit);
            i <= |t| && BindingsBut(ScanFrom(s, i), ScanFrom(t, i), n, Trim(lit[..c]))
    decreases |s| - i
  {
    hide ScanLine, Trim, ValueEnd, Spliced, Agree, SameRest;
    var a := ScanFrom(s, i).assigns[n];
    var t := Spliced(s, a, lit);
    AssignSpan(s, i, n);
    SplicedParts(s, a, lit, c);
    match ScanLine(s, i)
    case Other(next) =>
      AssignSpan(s, next, n);
      LineAgree(s, t, a.valStart, i);
      EditScan(s, next, n, lit, c);
    case Bound(b, next) =>
      if n == 0 {
        EditLine(s, i, lit, c);
        ScanShift(s, next, t, next - b.valEnd + b.valStart + |lit|);
      } else {
        AssignSpan(s, next, n - 1);
        LineAgree(s, t, a.valStart, i);
        EditScan(s, next, n - 1, lit, c);
      }
  }

  lemma {:induction false} EditMalformed(s: string, i: nat, n: nat, lit: string)
    requires i <= |s| && n < |ScanFrom(s, i).assigns|
    requires var a := ScanFrom(s, i).assigns[n];
             a.valStart <= a.valEnd <= |s| && ValueEnd(Spliced(s, a, lit), a.valStart) == None
    ensures var t := Spliced(s, ScanFrom(s, i).assigns[n], lit); i <= |t| && !ScanFrom(t, i).ok
    decreases |s| - i
  {
    hide ScanLine, ValueEnd, Spliced;
    var a := ScanFrom(s, i).assigns[n];
    var t := Spliced(s, a, lit);
    AssignSpan(s, i, n);
    SplicedParts(s, a, lit, 0);
    match ScanLine(s, i)
    case Other(next) =>
      AssignSpan(s, next, n);
      LineAgree(s, t, a.valStart, i);
      EditMalformed(s, next, n, lit);
    case Bound(b, next) =>
      if n == 0 {
        EditLineMalformed(s, i, lit);
      } else {
        AssignSpan(s, next, n - 1);
        LineAgree(s, t, a.valStart, i);
        EditMalformed(s, next, n - 1, lit);
      }
  }

  // ---------------------------------------------------------------- the written literal

  // A value the writer has a faithful form for.
  predicate Representable(value: string) {
    if '\'' !in value then '\n' !in value else !ContainsAny(value, "$\\\"\n\r")
  }

  lemma {:induction false} QuoteBroken(t: string, q: nat, n: nat)
    requires q + n < |t| && t[q + n] == '\n'
    requires forall x :: q <= x < q + n ==> t[x] != '\''
    ensures QuoteEnd(t, q, '\'') == None
    decreases n
  {
    if n > 0 && t[q] != '\n' {
      QuoteBroken(t, q + 1, n - 1);
    }
  }

  lemma {:induction false} UnquotePlain(v: string)
    requires forall x :: 0 <= x < |v| ==> Plain(v[x], '"')
    ensures UnquoteDouble(v + "\"") == v
  {
    if v == "" {
      assert UnquoteDouble("\"") == "";
    } else {
      assert Plain(v[0], '"');
      assert (v + "\"")[1..] == v[1..] + "\"";
      UnquotePlain(v[1..]);
    }
  }

  // What the decoder makes of the literal written for `value`, and where the scanner closes it.
  function ReadBack(value: string): string {
    if Representable(value) then value else Before(value, {'\''})
  }

  function ClosedAt(value: string): (c: nat)
    requires Representable(value) || '\'' in value
    ensures 2 <= c <= |Quoted(value)|
  {
    if Representable(value) then |Quoted(value)| else |Before(value, {'\''})| + 2
  }

  function Literal(quote: char, body: string): string {
    [quote] + body + [quote]
  }

  ghost predicate AllPlain(body: string, quote: char) {
    forall x :: 0 <= x < |body| ==> Plain(body[x], quote)
  }

  lemma LiteralScans(t: string, v: nat, quote: char, body: string)
    requires IsQuote(quote) && AllPlain(body, quote)
    requires v + |body| + 2 <= |t| && t[v..v + |body| + 2] == Literal(quote, body)
    ensures ValueEnd(t, v) == Some(v + |body| + 2)
  {
    hide Skip, QuoteEnd;
    var lit := Literal(quote, body);
    assert forall x :: 0 <= x < |lit| ==> t[v + x] == t[v..v + |lit|][x] == lit[x];
    SkipIs(t, v, Blank, v);
    forall x | v + 1 <= x < v + 1 + |body| ensures Plain(t[x], quote) {
      assert t[x] == lit[x - v] == body[x - v - 1];
    }
    QuoteRun(t, v + 1, |body|, quote);
  }

  lemma LiteralDecodes(quote: char, body: string)
    requires IsQuote(quote) && AllPlain(body, quote)
    ensures Unquote(Trim(Trim(Literal(quote, body)))) == body
  {
    hide Trim, UnquoteDouble, Before;
    var lit := Literal(quote, body);
    assert lit[1..] == body + [quote];
    if quote == '"' {
      UnquotePlain(body);
    } else {
      assert forall x :: 0 <= x < |body| ==> Plain(body[x], quote);
    }
  }

  // The quote the writer chooses.
  function QuoteFor(value: string): char { if '\'' in value && Representable(value) then '"' else '\'' }

  // Nothing that is read back needs escaping between those quotes.
  lemma ReadBackIsPlain(value: string)
    requires Representable(value) || ('\'' in value && '\n' !in value)
    ensures AllPlain(ReadBack(value), QuoteFor(value)) && ReadBack(value) <= value
  {
    hide Before;
    var body, quote := ReadBack(value), QuoteFor(value);
    forall x | 0 <= x < |body| ensures Plain(body[x], quote) {
      assert body[x] == value[x] && body[x] in body && body[x] in value;
    }
  }

  lemma LiteralOpens(value: string)
    ensures Quoted(value) == [QuoteFor(value)] + value + [QuoteFor(value)] || (!Representable(value) && '\'' !in value)
  {
  }

  // A representable value is closed at the end of its literal; any other at its first single quote.
  lemma LiteralShape(value: string) returns (quote: char)
    requires Representable(value) || ('\'' in value && '\n' !in value)
    ensures var c := ClosedAt(value);
            && IsQuote(quote) && AllPlain(ReadBack(value), quote) && |ReadBack(value)| + 2 == c
            && Quoted(value)[..c] == Literal(quote, ReadBack(value)) && '\n' !in Quoted(value)[c..]
  {
    hide Before, Quoted, Representable, AllPlain;
    quote := QuoteFor(value);
    ReadBackIsPlain(value);
    LiteralOpens(value);
    var body, c, lit := ReadBack(value), ClosedAt(value), Quoted(value);
    assert lit[|body| + 1] == quote;
    assert lit[..c] == [quote] + body + [quote];
    if !Representable(value) {
      assert lit[c..] == value[|body| + 1..] + [quote];
    }
  }

  lemma LiteralCloses(t: string, v: nat, value: string)
    requires Representable(value) || ('\'' in value && '\n' !in value)
    requires v + |Quoted(value)| <= |t| && t[v..v + |Quoted(value)|] == Quoted(value)
    ensures var c := ClosedAt(value);
            && ValueEnd(t, v) == Some(v + c) && '\n' !in Quoted(value)[c..]
            && Unquote(Trim(Trim(Quoted(value)[..c]))) == ReadBack(value)
  {
    hide Quoted, ReadBack, Representable, ClosedAt, ValueEnd, Unquote, Trim, Literal, AllPlain, Before, Skip, ContainsAny;
    var quote := LiteralShape(value);
    var c := ClosedAt(value);
    assert t[v..v + c] == t[v..v + |Quoted(value)|][..c] == Literal(quote, ReadBack(value));
    assert v + c == v + |ReadBack(value)| + 2;
    LiteralScans(t, v, quote, ReadBack(value));
    LiteralDecodes(quote, ReadBack(value));
  }

  // A line break comes before every single quote of the value.
  predicate BreaksFirst(value: string) { IndexOf(value, '\n') < IndexOf(value, '\'') }

  // Such a value is written between single quotes.
  lemma BreaksAreSingleQuoted(value: string)
    requires BreaksFirst(value)
    ensures Quoted(value) == "'" + value + "'" && !Representable(value) && '\n' in value
  {
    hide IndexOf;
    assert '\n' in value && '\n' in "$\\\"\n\r";
  }

  lemma MultilineBreaks(t: string, v: nat, value: string)
    requires BreaksFirst(value)
    requires v + |Quoted(value)| <= |t| && t[v..v + |Quoted(value)|] == Quoted(value)
    ensures ValueEnd(t, v) == None
  {
    BreaksAreSingleQuoted(value);
    hide Skip, QuoteEnd, Quoted, IndexOf;
    var lit := Quoted(value);
    assert forall x :: 0 <= x < |lit| ==> t[v + x] == t[v..v + |lit|][x] == lit[x];
    SkipIs(t, v, Blank, v);
    var n := IndexOf(value, '\n');
    forall x | v + 1 <= x < v + 1 + n ensures t[x] != '\'' {
      assert t[x] == lit[x - v] == value[..IndexOf(value, '\'')][x - v - 1];
    }
    QuoteBroken(t, v + 1, n);
  }

  // ---------------------------------------------------------------- reading back what was written

  lemma SpliceText(s: string, a: Assign, lit: string)
    requires a.valStart <= a.valEnd <= |s|
    ensures var t := Spliced(s, a, lit);
            a.valStart + |lit| <= |t| && t[a.valStart..a.valStart + |lit|] == lit
  {
  }

  // Setting a value that holds no line break rebinds its key, and leaves every other binding as it was.
  lemma SetBindings(content: string, key: string, value: string, other: string)
    requires Assigned(content, key) && (Representable(value) || '\n' !in value)
    ensures var t := SetValue(content, key, value);
            && Value(t, key) == ReadBack(value)
            && (other != key ==> Value(t, other) == Value(content, other))
            && (Assigned(t, other) <==> Assigned(content, other))
  {
    hide ScanFrom, Quoted, ReadBack, Representable, ClosedAt, ValueEnd, Unquote, Trim, Spliced, LastOf;
    var n := LastOf(Scan(content).assigns, key).value;
    var a := Scan(content).assigns[n];
    var t := SetValue(content, key, value);
    AssignSpan(content, 0, n);
    SpliceText(content, a, Quoted(value));
    NeitherBranch(value);
    LiteralCloses(t, a.valStart, value);
    EditScan(content, 0, n, Quoted(value), ClosedAt(value));
  }

  lemma NeitherBranch(value: string)
    requires Representable(value) || '\n' !in value
    ensures Representable(value) || ('\'' in value && '\n' !in value)
  {
  }

  // A value with a line break before any single quote makes the file malformed, and reads as absent.
  lemma SetMultiline(content: string, key: string, value: string)
    requires Assigned(content, key) && BreaksFirst(value)
    ensures Value(SetValue(content, key, value), key) == ""
  {
    hide ScanFrom, Quoted, ValueEnd, Unquote, Trim, Spliced, LastOf;
    var n := LastOf(Scan(content).assigns, key).value;
    AssignSpan(content, 0, n);
    SpliceText(content, Scan(content).assigns[n], Quoted(value));
    MultilineBreaks(SetValue(content, key, value), Scan(content).assigns[n].valStart, value);
    EditMalformed(content, 0, n, Quoted(value));
  }

  // What is read back after a set is the value that was set exactly when the value is representable.
  lemma SetThenValue(content: string, key: string, value: string)
    requires Assigned(content, key) && ('\n' !in value || BreaksFirst(value))
    ensures Value(SetValue(content, key, value), key) == value <==> Representable(value)
  {
    hide Value, SetValue, BreaksFirst;
    if '\n' in value {
      BreaksAreSingleQuoted(value);
      SetMultiline(content, key, value);
    } else {
      SetBindings(content, key, value, key);
    }
  }

  // Only the bound value's span is edited.
  lemma SetOutsideSpan(content: string, key: string, value: string)
    requires Assigned(content, key)
    ensures var a := Scan(content).assigns[LastOf(Scan(content).assigns, key).value];
            var t := SetValue(content, key, value);
            var shift := |t| - |content|;
            && a.valStart <= a.valEnd <= |content| && 0 <= a.valEnd + shift <= |t|
            && t[..a.valStart] == content[..a.valStart] && t[a.valEnd + shift..] == content[a.valEnd..]
  {
    hide ScanFrom, Quoted, LastOf;
    AssignSpan(content, 0, LastOf(Scan(content).assigns, key).value);
  }

  // After rewriting, each credential reads back as given - or as it was, if none was given - exactly when
  // it is representable, and the host is untouched.
  lemma RewriteThenParse(content: string, name: string, user: string, password: string)
    requires Assigned(content, "DB_DATABASE") && Assigned(content, "DB_USERNAME") && Assigned(content, "DB_PASSWORD")
    requires '\n' !in name && '\n' !in user && '\n' !in password
    ensures var was, now := Parse(content), Parse(Rewrite(content, name, user, password));
            && now.host == was.host
            && (if name == "" then now.name == was.name else now.name == name <==> Representable(name))
            && (if user == "" then now.user == was.user else now.user == user <==> Representable(user))
            && (if password == "" then now.password == was.password else now.password == password <==> Representable(password))
  {
    hide Value, SetValue, Assigned, Representable;
    var c1 := SetUnlessEmpty(content, "DB_DATABASE", name);
    var c2 := SetUnlessEmpty(c1, "DB_USERNAME", user);
    Step(content, "DB_DATABASE", name);
    Step(c1, "DB_USERNAME", user);
    Step(c2, "DB_PASSWORD", password);
  }

  lemma Step(content: string, key: string, value: string)
    requires Assigned(content, key) && '\n' !in value
    ensures var t := SetUnlessEmpty(content, key, value);
            && (forall k :: Assigned(content, k) ==> Assigned(t, k))
            && (forall k :: k != key ==> Value(t, k) == Value(content, k))
            && (if value == "" then Value(t, key) == Value(content, key) else Value(t, key) == value <==> Representable(value))
  {
    hide Value, SetValue, Assigned, Representable;
    if value != "" {
      SetThenValue(content, key, value);
      forall k ensures Assigned(content, k) ==> Assigned(SetValue(content, key, value), k)
               ensures k != key ==> Value(SetValue(content, key, value), k) == Value(content, k)
      {
        SetBindings(content, key, value, k);
      }
    }
  }
}
