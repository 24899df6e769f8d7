/** The `.env` tokenizer of internal/dbmig/cmsconfig.go: locating assignments and decoding values. */
module DotEnvScanner {
  import opened Text

  datatype Assign = Assign(key: string, rawValue: string, valStart: nat, valEnd: nat)

  datatype Scanned = Scanned(assigns: seq<Assign>, ok: bool)

  // What one line of the file turns out to be; `next` is where the next line starts.
  datatype Line = Other(next: nat) | Malformed | Bound(assign: Assign, next: nat)

  // ---------------------------------------------------------------- runs of characters

  datatype Class = Blank | KeyChar | InLine

  predicate Is(c: char, k: Class) {
    match k
    case Blank => c == ' ' || c == '\t'
    case KeyChar => c == '_' || c == '.' || 'A' <= c <= 'Z' || 'a' <= c <= 'z' || '0' <= c <= '9'
    case InLine => c != '\n'
  }

  // The end of the run of class `k` that starts at `i`.
  function Skip(s: string, i: nat, k: Class): (r: nat)
    requires i <= |s|
    ensures i <= r <= |s|
    ensures forall j :: i <= j < r ==> Is(s[j], k)
    ensures r < |s| ==> !Is(s[r], k)
    decreases |s| - i
  {
    if i < |s| && Is(s[i], k) then Skip(s, i + 1, k) else i
  }

  lemma SkipIs(s: string, i: nat, k: Class, r: nat)
    requires i <= r <= |s| && (forall j :: i <= j < r ==> Is(s[j], k)) && (r < |s| ==> !Is(s[r], k))
    ensures Skip(s, i, k) == r
    decreases r - i
  {
  }

  function NextLine(s: string, i: nat): (r: nat)
    requires i <= |s|
    ensures i <= r <= |s| && (i < |s| ==> i < r)
    ensures r < |s| ==> s[r - 1] == '\n'
  {
    var e := Skip(s, i, InLine);
    if e < |s| then e + 1 else e
  }

  // ---------------------------------------------------------------- one line

  function AfterExport(s: string, j: nat): (r: nat)
    requires j <= |s|
    ensures j <= r <= |s|
  {
    if j + 6 < |s| && s[j..j + 6] == "export" && Is(s[j + 6], Blank) then Skip(s, j + 6, Blank) else j
  }

  // Just past the quote that closes a value whose body starts at `q`, if there is one.
  function QuoteEnd(s: string, q: nat, quote: char): (r: Option<nat>)
    ensures r.Some? ==> q < r.value <= |s| && s[r.value - 1] == quote
    decreases |s| - q
  {
    if q >= |s| then None
    else if quote == '"' && s[q] == '\\' && q + 1 < |s| then QuoteEnd(s, q + 2, quote)
    else if quote != '"' && s[q] == '\n' then None
    else if s[q] == quote then Some(q + 1)
    else QuoteEnd(s, q + 1, quote)
  }

  function ValueEnd(s: string, v: nat): (r: Option<nat>)
    requires v <= |s|
    ensures r.Some? ==> v <= r.value <= |s|
  {
    var p := Skip(s, v, Blank);
    if p < |s| && IsQuote(s[p]) then QuoteEnd(s, p + 1, s[p]) else Some(Skip(s, v, InLine))
  }

  // Where the key of an assignment lies and its value starts, on a line whose text starts at `j`.
  datatype Head = Head(keyStart: nat, keyEnd: nat, valStart: nat)

  function LineHead(s: string, j: nat): (r: Option<Head>)
    requires j <= |s|
    ensures r.Some? ==> j <= r.value.keyStart < r.value.keyEnd < r.value.valStart <= |s| && s[r.value.valStart - 1] == '='
  {
    var keyStart := AfterExport(s, j);
    var keyEnd := Skip(s, keyStart, KeyChar);
    var eq := Skip(s, keyEnd, Blank);
    if keyStart == keyEnd || eq == |s| || s[eq] != '=' then None else Some(Head(keyStart, keyEnd, eq + 1))
  }

  function ScanLine(s: string, i: nat): (r: Line)
    requires i < |s|
    ensures r.Other? ==> i < r.next <= |s|
    ensures r.Bound? ==> i < r.assign.valStart <= r.assign.valEnd <= r.next <= |s|
  {
    var j := Skip(s, i, Blank);
    if j == |s| || s[j] == '\n' || s[j] == '#' then Other(NextLine(s, j))
    else
      match LineHead(s, j)
      case None => Other(NextLine(s, j))
      case Some(h) =>
        match ValueEnd(s, h.valStart)
        case None => Malformed
        case Some(e) =>
          Bound(Assign(s[h.keyStart..h.keyEnd], Trim(s[h.valStart..e]), h.valStart, e), NextLine(s, e))
  }

  // dotEnvScan, from the line that starts at `i`.
  function ScanFrom(s: string, i: nat): Scanned
    requires i <= |s|
    decreases |s| - i
  {
    if i == |s| then Scanned([], true)
    else
      match ScanLine(s, i)
      case Other(next) => ScanFrom(s, next)
      case Malformed => Scanned([], false)
      case Bound(a, next) =>
        var rest := ScanFrom(s, next);
        Scanned([a] + rest.assigns, rest.ok)
  }

  function Scan(s: string): Scanned { ScanFrom(s, 0) }

  method DotEnvScan(content: string) returns (assigns: seq<Assign>, ok: bool)
    ensures Scanned(assigns, ok) == Scan(content)
  {
    hide ScanLine;
    assigns := [];
    var i := 0;
    while i < |content|
      invariant 0 <= i <= |content|
      invariant Scan(content) == Scanned(assigns + ScanFrom(content, i).assigns, ScanFrom(content, i).ok)
    {
      var line := LocateAssignment(content, i);
      match line
      case Other(next) =>
        i := next;
      case Malformed =>
        return assigns, false;
      case Bound(a, next) =>
        assert (assigns + [a]) + ScanFrom(content, next).assigns == assigns + ([a] + ScanFrom(content, next).assigns);
        assigns := assigns + [a];
        i := next;
    }
    return assigns, true;
  }

  // One turn of the scanner's loop.
  method LocateAssignment(content: string, i: nat) returns (line: Line)
    requires i < |content|
    ensures line == ScanLine(content, i)
  {
    hide Trim, AfterExport, ValueEnd, NextLine, Skip;
    var n := |content|;
    var j := SkipLoop(content, i, Blank);
    if j >= n || content[j] == '\n' || content[j] == '#' {
      var next := NextLineLoop(content, j);
      return Other(next);
    }
    var ks := ExportLoop(content, j);
    var k := SkipLoop(content, ks, KeyChar);
    var m := SkipLoop(content, k, Blank);
    if ks == k || m >= n || content[m] != '=' {
      var next := NextLineLoop(content, j);
      return Other(next);
    }
    m := m + 1;
    var valEnd, closed := ValueLoop(content, m);
    if !closed {
      return Malformed;
    }
    var next := NextLineLoop(content, valEnd);
    return Bound(Assign(content[ks..k], Trim(content[m..valEnd]), m, valEnd), next);
  }

  method ExportLoop(content: string, j: nat) returns (k: nat)
    requires j <= |content|
    ensures k == AfterExport(content, j)
  {
    k := j;
    if k + 6 < |content| && content[k..k + 6] == "export" && Is(content[k + 6], Blank) {
      k := SkipLoop(content, k + 6, Blank);
    }
  }

  method ValueLoop(content: string, m: nat) returns (valEnd: nat, closed: bool)
    requires m <= |content|
    ensures ValueEnd(content, m) == if closed then Some(valEnd) else None
  {
    var p := SkipLoop(content, m, Blank);
    if p < |content| && IsQuote(content[p]) {
      valEnd, closed := QuoteLoop(content, p + 1, content[p]);
    } else {
      valEnd := SkipLoop(content, m, InLine);
      closed := true;
    }
  }

  method SkipLoop(s: string, start: nat, k: Class) returns (i: nat)
    requires start <= |s|
    ensures i == Skip(s, start, k)
  {
    i := start;
    while i < |s| && Is(s[i], k)
      invariant start <= i <= |s|
      invariant Skip(s, start, k) == Skip(s, i, k)
    {
      i := i + 1;
    }
  }

  method NextLineLoop(s: string, start: nat) returns (p: nat)
    requires start <= |s|
    ensures p == NextLine(s, start)
  {
    p := SkipLoop(s, start, InLine);
    if p < |s| {
      p := p + 1;
    }
  }

  method QuoteLoop(s: string, start: nat, quote: char) returns (q: nat, closed: bool)
    requires start <= |s|
    ensures QuoteEnd(s, start, quote) == if closed then Some(q) else None
  {
    q, closed := start, false;
    while q < |s|
      invariant q <= |s|
      invariant QuoteEnd(s, start, quote) == QuoteEnd(s, q, quote)
    {
      var c := s[q];
      if quote == '"' {
        if c == '\\' && q + 1 < |s| {
          q := q + 2;
          continue;
        }
      } else if c == '\n' {
        return;
      }
      if c == quote {
        return q + 1, true;
      }
      q := q + 1;
    }
  }

  // ---------------------------------------------------------------- decoding

  // dotEnvUnquoteDouble: the decoded text of a body that starts just past a double quote.
  function UnquoteDouble(s: string): string {
    if s == [] then []
    else if s[0] == '\\' && |s| > 1 && (s[1] == '"' || s[1] == '\\') then [s[1]] + UnquoteDouble(s[2..])
    else if s[0] == '"' then []
    else [s[0]] + UnquoteDouble(s[1..])
  }

  method DotEnvUnquoteDouble(s: string) returns (b: string)
    ensures b == UnquoteDouble(s)
  {
    hide UnquoteDouble;
    b := [];
    var i := 0;
    while i < |s|
      invariant 0 <= i <= |s|
      invariant UnquoteDouble(s) == b + UnquoteDouble(s[i..])
    {
      UnquoteStep(s, i);
      if s[i] == '\\' && i + 1 < |s| && (s[i + 1] == '"' || s[i + 1] == '\\') {
        b := b + [s[i + 1]];
        i := i + 2;
        continue;
      }
      if s[i] == '"' {
        return;
      }
      b := b + [s[i]];
      i := i + 1;
    }
    UnquoteEnd(s);
  }

  lemma UnquoteStep(s: string, i: nat)
    requires i < |s|
    ensures UnquoteDouble(s[i..]) ==
            if s[i] == '\\' && i + 1 < |s| && (s[i + 1] == '"' || s[i + 1] == '\\') then [s[i + 1]] + UnquoteDouble(s[i + 2..])
            else if s[i] == '"' then []
            else [s[i]] + UnquoteDouble(s[i + 1..])
  {
    assert s[i..][1..] == s[i + 1..];
    assert i + 1 < |s| ==> s[i..][2..] == s[i + 2..];
  }

  lemma UnquoteEnd(s: string)
    ensures UnquoteDouble(s[|s|..]) == []
  {
  }

  // The text before the first character of `stop`, or all of it.
  function Before(s: string, stop: set<char>): (r: string)
    ensures r <= s && (forall c :: c in r ==> c !in stop) && (|r| < |s| ==> s[|r|] in stop)
  {
    if s == [] || s[0] in stop then [] else [s[0]] + Before(s[1..], stop)
  }

  function Unquote(raw: string): string {
    if raw == "" then ""
    else if raw[0] == '\'' then Before(raw[1..], {'\''})
    else if raw[0] == '"' then UnquoteDouble(raw[1..])
    else Before(raw, {' ', '\t', '#'})
  }

  // The assignment a key is bound by: its last one.
  function LastOf(assigns: seq<Assign>, key: string): (r: Option<nat>)
    ensures r.Some? ==> r.value < |assigns| && assigns[r.value].key == key
    ensures r.Some? ==> forall k :: r.value < k < |assigns| ==> assigns[k].key != key
    ensures r.None? ==> forall k :: 0 <= k < |assigns| ==> assigns[k].key != key
  {
    if assigns == [] then None
    else if assigns[|assigns| - 1].key == key then Some(|assigns| - 1)
    else LastOf(assigns[..|assigns| - 1], key)
  }

  // dotEnvValue
  function Value(content: string, key: string): string {
    var r := Scan(content);
    if !r.ok then ""
    else
      match LastOf(r.assigns, key)
      case None => ""
      case Some(n) => Unquote(Trim(r.assigns[n].rawValue))
  }

  method DotEnvValue(content: string, key: string) returns (v: string)
    ensures v == Value(content, key)
  {
    var assigns, ok := DotEnvScan(content);
    if !ok {
      return "";
    }
    var raw, found := "", false;
    for i := 0 to |assigns|
      invariant found == LastOf(assigns[..i], key).Some?
      invariant found ==> raw == assigns[LastOf(assigns[..i], key).value].rawValue
    {
      assert assigns[..i + 1][..i] == assigns[..i];
      if assigns[i].key == key {
        raw, found := assigns[i].rawValue, true;
      }
    }
    assert assigns[..|assigns|] == assigns;
    return if found then Unquote(Trim(raw)) else "";
  }

  // ---------------------------------------------------------------- scanner and decoder agree

  // The offset in `s` of the quote the decoder stops at, or |s|.
  function DecoderStop(s: string): (r: nat)
    ensures r <= |s|
  {
    if s == [] then 0
    else if s[0] == '\\' && |s| > 1 && (s[1] == '"' || s[1] == '\\') then 2 + DecoderStop(s[2..])
    else if s[0] == '"' then 0
    else 1 + DecoderStop(s[1..])
  }

  // The decoder reads exactly the text before its stop: nothing past it can change the result.
  lemma {:induction false} DecoderReadsToStop(s: string, t: string)
    requires DecoderStop(s) < |s|
    ensures UnquoteDouble(s) == UnquoteDouble(s[..DecoderStop(s) + 1] + t)
  {
    var n := DecoderStop(s);
    var u := s[..n + 1] + t;
    assert s[0] == '"' ==> UnquoteDouble(s) == UnquoteDouble(u) == "";
    hide UnquoteDouble;
    if s[0] == '\\' && |s| > 1 && (s[1] == '"' || s[1] == '\\') {
      var rest := s[2..];
      var cut := rest[..DecoderStop(rest) + 1] + t;
      DecoderReadsToStop(rest, t);
      assert s == ['\\', s[1]] + rest && u == ['\\', s[1]] + cut;
      HiddenDecodes(s[1], rest);
      HiddenDecodes(s[1], cut);
    } else if s[0] != '"' {
      var rest := s[1..];
      var cut := rest[..DecoderStop(rest) + 1] + t;
      DecoderReadsToStop(rest, t);
      assert s == [s[0]] + rest && u == [s[0]] + cut;
      ItselfDecodes(s[0], rest);
      ItselfDecodes(s[0], cut);
    }
  }

  // The two escape rules differ - the scanner lets a backslash hide any byte, the decoder only
  // a quote or a backslash - yet both stop at the same quote.
  lemma {:induction false} DecoderStopsWhereScannerCloses(s: string, q: nat)
    requires q <= |s| && QuoteEnd(s, q, '"').Some?
    ensures DecoderStop(s[q..QuoteEnd(s, q, '"').value]) == QuoteEnd(s, q, '"').value - 1 - q
    decreases |s| - q
  {
    var e := QuoteEnd(s, q, '"').value;
    var body := s[q..e];
    if s[q] == '\\' && q + 1 < |s| {
      DecoderStopsWhereScannerCloses(s, q + 2);
      assert body[2..] == s[q + 2..e];
      if body[1] != '"' && body[1] != '\\' {
        assert body[1..][1..] == body[2..];
        assert DecoderStop(body[1..]) == 1 + DecoderStop(body[2..]);
      }
    } else if s[q] != '"' {
      DecoderStopsWhereScannerCloses(s, q + 1);
      assert body[1..] == s[q + 1..e];
    }
  }

  lemma {:induction false} SingleQuoteEnd(s: string, q: nat)
    requires q <= |s| && QuoteEnd(s, q, '\'').Some?
    ensures var e := QuoteEnd(s, q, '\'').value;
            Before(s[q..e], {'\''}) == s[q..e][..e - q - 1] && '\n' !in s[q..e]
    decreases |s| - q
  {
    var e := QuoteEnd(s, q, '\'').value;
    if s[q] == '\'' {
      assert s[q..e] == ['\''];
    } else {
      SingleQuoteEnd(s, q + 1);
      assert s[q..e] == [s[q]] + s[q + 1..e];
      assert s[q..e][1..] == s[q + 1..e];
      assert s[q..e - 1] == [s[q]] + s[q + 1..e - 1];
    }
  }

  // A byte that needs no escaping between such quotes and does not end the value.
  predicate Plain(c: char, quote: char) {
    c != quote && c != (if quote == '"' then '\\' else '\n')
  }

  lemma {:induction false} QuoteRun(t: string, q: nat, n: nat, quote: char)
    requires q + n < |t| && t[q + n] == quote && IsQuote(quote)
    requires forall x :: q <= x < q + n ==> Plain(t[x], quote)
    ensures QuoteEnd(t, q, quote) == Some(q + n + 1)
    decreases n
  {
    if n > 0 {
      assert Plain(t[q], quote);
      QuoteRun(t, q + 1, n - 1, quote);
    }
  }

  // Text that the decoder reads to its last byte, a double quote, is closed there by the scanner.
  lemma {:induction false} ScannerClosesWhereDecoderStops(s: string, q: nat)
    requires q < |s| && s[|s| - 1] == '"' && DecoderStop(s[q..]) == |s| - 1 - q
    ensures QuoteEnd(s, q, '"') == Some(|s|)
    decreases |s| - q
  {
    assert s[q..][1..] == s[q + 1..];
    if s[q] == '\\' {
      assert s[q..][2..] == s[q + 2..] && s[q + 1..][1..] == s[q + 2..];
      ScannerClosesWhereDecoderStops(s, q + 2);
    } else if s[q] != '"' {
      ScannerClosesWhereDecoderStops(s, q + 1);
    }
  }

  // The scanner saw a quote at the start of the value.
  predicate ScannedAsQuoted(s: string, a: Assign)
    requires a.valStart <= |s|
  {
    var p := Skip(s, a.valStart, Blank);
    p < |s| && IsQuote(s[p])
  }

  // The raw value runs from its opening quote to the closing one the scanner found, and the
  // decoder consumes it up to that very quote.
  ghost predicate DecodedToItsClosingQuote(a: Assign) {
    var raw := a.rawValue;
    && |raw| >= 2 && IsQuote(raw[0]) && raw[|raw| - 1] == raw[0]
    && (raw[0] == '"' ==> DecoderStop(raw[1..]) == |raw| - 2)
    && (raw[0] == '\'' ==> Unquote(raw) == raw[1..|raw| - 1])
  }

  lemma QuotedValue(s: string, v: nat)
    requires v <= |s| && ValueEnd(s, v).Some?
    requires var p := Skip(s, v, Blank); p < |s| && IsQuote(s[p])
    ensures DecodedToItsClosingQuote(Assign("", Trim(s[v..ValueEnd(s, v).value]), 0, 0))
  {
    RawIsLiteral(s, v);
    LiteralDecoded(s, Skip(s, v, Blank), ValueEnd(s, v).value);
  }

  lemma LiteralDecoded(s: string, p: nat, e: nat)
    requires p < |s| && IsQuote(s[p]) && QuoteEnd(s, p + 1, s[p]) == Some(e)
    ensures DecodedToItsClosingQuote(Assign("", s[p..e], 0, 0))
  {
    hide *;
    BodyOf(s, p + 1, s[p]);
    DecodedFrom(s[p], s[p + 1..e]);
    FirstOf(s, p, e);
  }

  lemma FirstOf(s: string, p: nat, e: nat)
    requires p < e <= |s|
    ensures s[p..e] == [s[p]] + s[p + 1..e]
  {
  }

  // The decoder reads the body of a literal to its last byte, the closing quote.
  ghost predicate BodyEnds(quote: char, body: string) {
    && body != "" && body[|body| - 1] == quote
    && if quote == '"' then DecoderStop(body) == |body| - 1 else Before(body, {'\''}) == body[..|body| - 1]
  }

  lemma BodyOf(s: string, q: nat, quote: char)
    requires q <= |s| && IsQuote(quote) && QuoteEnd(s, q, quote).Some?
    ensures BodyEnds(quote, s[q..QuoteEnd(s, q, quote).value])
  {
    hide DecoderStop, Before, QuoteEnd;
    if quote == '"' {
      DecoderStopsWhereScannerCloses(s, q);
    } else {
      SingleQuoteEnd(s, q);
    }
  }

  lemma DecodedFrom(quote: char, body: string)
    requires IsQuote(quote) && BodyEnds(quote, body)
    ensures DecodedToItsClosingQuote(Assign("", [quote] + body, 0, 0))
  {
    hide DecoderStop, Before, UnquoteDouble;
    var raw := [quote] + body;
    assert raw[1..] == body && raw[1..|raw| - 1] == body[..|body| - 1];
  }

  // The raw value of a quoted assignment is its literal.
  lemma RawIsLiteral(s: string, v: nat)
    requires v <= |s| && ValueEnd(s, v).Some?
    requires var p := Skip(s, v, Blank); p < |s| && IsQuote(s[p])
    ensures var p, e := Skip(s, v, Blank), ValueEnd(s, v).value;
            p + 1 < e && s[e - 1] == s[p] && QuoteEnd(s, p + 1, s[p]) == Some(e) && Trim(s[v..e]) == s[p..e]
  {
    hide Trim;
    var p, e := Skip(s, v, Blank), ValueEnd(s, v).value;
    hide Skip, QuoteEnd;
    assert s[v..e] == s[v..p] + s[p..e];
    TrimLeading(s[v..p], s[p..e]);
  }

  lemma BoundLineValue(s: string, i: nat)
    requires i < |s| && ScanLine(s, i).Bound?
    ensures var a := ScanLine(s, i).assign;
            ValueEnd(s, a.valStart) == Some(a.valEnd) && a.rawValue == Trim(s[a.valStart..a.valEnd])
  {
    hide Trim, Skip, LineHead, ValueEnd, NextLine;
  }

  // Read from its first byte, the scanner would close the raw value at its last.
  predicate ClosesAtItsEnd(raw: string) {
    raw != "" && IsQuote(raw[0]) && QuoteEnd(raw, 1, raw[0]) == Some(|raw|)
  }

  lemma ClosedIsDecoded(a: Assign)
    requires Tight(a.rawValue) && ('\n' !in a.rawValue || a.rawValue[0] != '\'')
    ensures DecodedToItsClosingQuote(a) <==> ClosesAtItsEnd(a.rawValue)
  {
    hide Trim, Before, UnquoteDouble;
    var raw := a.rawValue;
    if ClosesAtItsEnd(raw) {
      assert raw[0..|raw|] == raw;
      QuotedValue(raw, 0);
    } else if DecodedToItsClosingQuote(a) && raw[0] == '"' {
      ScannerClosesWhereDecoderStops(raw, 1);
    } else if DecodedToItsClosingQuote(a) {
      forall x | 1 <= x < |raw| - 1 ensures Plain(raw[x], '\'') {
        assert raw[x] == raw[1..|raw| - 1][x - 1];
        assert raw[x] in raw && raw[x] in Before(raw[1..], {'\''});
      }
      QuoteRun(raw, 1, |raw| - 2, '\'');
    }
  }

  // The raw value of a line that starts with a single quote is on that line.
  lemma RawOnOneLine(s: string, v: nat)
    requires v <= |s| && ValueEnd(s, v).Some?
    ensures var raw := Trim(s[v..ValueEnd(s, v).value]); raw != "" && raw[0] == '\'' ==> '\n' !in raw
  {
    hide Trim, Skip, QuoteEnd;
    var p, e := Skip(s, v, Blank), ValueEnd(s, v).value;
    TrimTakesNone(s[v..e]);
    if p < |s| && IsQuote(s[p]) {
      RawIsLiteral(s, v);
      if s[p] == '\'' {
        SingleQuoteEnd(s, p + 1);
        assert s[p..e] == ['\''] + s[p + 1..e];
      }
    }
  }

  // A quoted value is decoded to its closing quote; and that is exactly what happens to the values the scanner
  // would close at their last byte, were it to read them from their first.
  lemma {:induction false} ScannerAndDecoderAgree(s: string, i: nat, n: nat)
    requires i <= |s| && n < |ScanFrom(s, i).assigns|
    ensures var a := ScanFrom(s, i).assigns[n];
            && a.valStart <= |s| && (ScannedAsQuoted(s, a) ==> DecodedToItsClosingQuote(a))
            && (DecodedToItsClosingQuote(a) <==> ClosesAtItsEnd(a.rawValue))
    decreases |s| - i
  {
    hide ScanLine, Skip, DecoderStop, Unquote, Trim;
    match ScanLine(s, i)
    case Other(next) => ScannerAndDecoderAgree(s, next, n);
    case Bound(a, next) =>
      if n == 0 {
        BoundLineValue(s, i);
        RawOnOneLine(s, a.valStart);
        ClosedIsDecoded(a);
        if ScannedAsQuoted(s, a) {
          QuotedValue(s, a.valStart);
        }
      } else {
        ScannerAndDecoderAgree(s, next, n - 1);
      }
  }

  // What the scanner does not see as quoted can still look quoted to the decoder: the scanner skips
  // blanks only, while the raw value has all its white space trimmed.
  lemma CarriageReturnHidesAQuote()
    ensures var a := Assign("K", "'a'b", 2, 7);
            Scan("K=\r'a'b") == Scanned([a], true) && !ScannedAsQuoted("K=\r'a'b", a) && Unquote(a.rawValue) == "a"
  {
    hide ScanLine, Skip;
    var s := "K=\r'a'b";
    CarriageReturnLine();
    SkipIs(s, 2, Blank, 2);
    assert "'a'b"[1..] == "a'b";
    assert Before("a'b", {'\''}) == "a" by { assert "a'b"[1..] == "'b"; }
  }

  lemma CarriageReturnLine()
    ensures ScanLine("K=\r'a'b", 0) == Bound(Assign("K", "'a'b", 2, 7), 7)
  {
    hide Skip, Trim, AfterExport, NextLine;
    var s := "K=\r'a'b";
    SkipIs(s, 0, Blank, 0);
    SkipIs(s, 1, Blank, 1);
    SkipIs(s, 0, KeyChar, 1);
    SkipIs(s, 2, Blank, 2);
    SkipIs(s, 2, InLine, 7);
    assert AfterExport(s, 0) == 0 by { NoExport(s); }
    assert s[2..7] == ['\r'] + "'a'b" && s[0..1] == "K";
    TrimLeading(['\r'], "'a'b");
  }

  lemma NoExport(s: string)
    requires s != [] && s[0] != 'e'
    ensures AfterExport(s, 0) == 0
  {
    assert |s| >= 6 ==> s[0..6][0] == s[0];
  }

  // ---------------------------------------------------------------- what a value decodes to

  lemma {:induction false} RawIsTight(s: string, i: nat)
    requires i <= |s|
    ensures forall a :: a in ScanFrom(s, i).assigns ==> Tight(a.rawValue)
    decreases |s| - i
  {
    hide ScanLine;
    if i < |s| {
      match ScanLine(s, i)
      case Malformed =>
      case Other(next) => RawIsTight(s, next);
      case Bound(a, next) =>
        BoundLineValue(s, i);
        RawIsTight(s, next);
    }
  }

  // The raw value that the key is bound to in a well-formed text.
  predicate BoundTo(content: string, key: string, raw: string) {
    var r := Scan(content);
    r.ok && LastOf(r.assigns, key).Some? && r.assigns[LastOf(r.assigns, key).value].rawValue == raw
  }

  lemma ValueOf(content: string, key: string, raw: string)
    requires BoundTo(content, key, raw)
    ensures Value(content, key) == Unquote(raw) && Tight(raw)
  {
    hide ScanFrom, LastOf, Unquote, Trim;
    RawIsTight(content, 0);
  }

  // An unquoted value is read up to the first blank, tab or number sign, or whole.
  lemma UnquotedValue(content: string, key: string, raw: string)
    requires BoundTo(content, key, raw) && (raw == "" || !IsQuote(raw[0]))
    ensures var v := Value(content, key);
            && v <= raw && (forall c :: c in v ==> c != ' ' && c != '\t' && c != '#')
            && (v == raw || raw[|v|] == ' ' || raw[|v|] == '\t' || raw[|v|] == '#')
  {
    hide BoundTo, Value, Before;
    ValueOf(content, key, raw);
  }

  // A value between single quotes is read up to the next single quote, or to the end of the line.
  lemma SingleQuotedValue(content: string, key: string, raw: string)
    requires BoundTo(content, key, raw) && raw != "" && raw[0] == '\''
    ensures var v := Value(content, key);
            v <= raw[1..] && '\'' !in v && (v == raw[1..] || raw[1 + |v|] == '\'')
  {
    hide BoundTo, Value, Before;
    ValueOf(content, key, raw);
  }

  // A reading of double-quoted text: bytes that stand for themselves, and quotes or backslashes after a backslash.
  datatype Part = Itself(c: char) | Hidden(c: char)

  function PartsText(ps: seq<Part>): string {
    if ps == [] then "" else (match ps[0] case Itself(c) => [c] case Hidden(c) => ['\\', c]) + PartsText(ps[1..])
  }

  function PartsMean(ps: seq<Part>): string {
    if ps == [] then "" else [ps[0].c] + PartsMean(ps[1..])
  }

  // The parts are read off the text up to an unhidden quote or the end of the text, `rest` being what follows.
  ghost predicate Reads(ps: seq<Part>, rest: string) {
    if ps == [] then rest == "" || rest[0] == '"'
    else
      var next := PartsText(ps[1..]) + rest;
      && Reads(ps[1..], rest)
      && match ps[0]
         case Hidden(c) => c == '"' || c == '\\'
         case Itself(c) => c != '"' && (c == '\\' ==> next == "" || (next[0] != '"' && next[0] != '\\'))
  }

  lemma {:induction false} PartsDecode(ps: seq<Part>, rest: string)
    requires Reads(ps, rest)
    ensures UnquoteDouble(PartsText(ps) + rest) == PartsMean(ps)
  {
    assert rest == "" || rest[0] == '"' ==> UnquoteDouble(rest) == "";
    hide UnquoteDouble;
    if ps == [] {
      assert PartsText(ps) + rest == rest;
    } else {
      PartsDecode(ps[1..], rest);
      var next := PartsText(ps[1..]) + rest;
      match ps[0]
      case Itself(c) =>
        assert PartsText(ps) + rest == [c] + next;
        ItselfDecodes(c, next);
      case Hidden(c) =>
        assert PartsText(ps) + rest == ['\\', c] + next;
        HiddenDecodes(c, next);
    }
  }

  lemma ItselfDecodes(c: char, next: string)
    requires c != '"' && (c == '\\' ==> next == "" || (next[0] != '"' && next[0] != '\\'))
    ensures UnquoteDouble([c] + next) == [c] + UnquoteDouble(next)
  {
    assert ([c] + next)[1..] == next;
  }

  lemma HiddenDecodes(c: char, next: string)
    requires c == '"' || c == '\\'
    ensures UnquoteDouble(['\\', c] + next) == [c] + UnquoteDouble(next)
  {
    assert (['\\', c] + next)[2..] == next;
  }

  lemma {:induction false} PartsExist(s: string) returns (ps: seq<Part>, rest: string)
    ensures s == PartsText(ps) + rest && Reads(ps, rest)
    decreases |s|
  {
    if s == "" || s[0] == '"' {
      ps, rest := [], s;
      assert s == "" + s;
    } else {
      var n := if s[0] == '\\' && |s| > 1 && (s[1] == '"' || s[1] == '\\') then 2 else 1;
      var more;
      more, rest := PartsExist(s[n..]);
      var head := if n == 2 then Hidden(s[1]) else Itself(s[0]);
      ps := [head] + more;
      assert ps[1..] == more;
      assert PartsText(ps) + rest == s[..n] + (PartsText(more) + rest);
      assert s == s[..n] + s[n..];
    }
  }

  // A value between double quotes is what the parts of its text mean.
  lemma DoubleQuotedValue(content: string, key: string, raw: string) returns (ps: seq<Part>, rest: string)
    requires BoundTo(content, key, raw) && raw != "" && raw[0] == '"'
    ensures raw[1..] == PartsText(ps) + rest && Reads(ps, rest) && Value(content, key) == PartsMean(ps)
  {
    hide BoundTo, Value, Reads, PartsText, PartsMean, UnquoteDouble;
    ValueOf(content, key, raw);
    ps, rest := PartsExist(raw[1..]);
    PartsDecode(ps, rest);
  }

  // A key that no line binds, and every key of a malformed text, reads as absent.
  lemma AbsentValue(content: string, key: string)
    requires !Scan(content).ok || forall k :: 0 <= k < |Scan(content).assigns| ==> Scan(content).assigns[k].key != key
    ensures Value(content, key) == ""
  {
    hide ScanFrom, LastOf;
  }
}
