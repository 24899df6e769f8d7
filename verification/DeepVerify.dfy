/** Row counts and their correlation with table names: internal/dbmig/deepverify.go. The two replies of the
    database server are parameters. */
module DeepVerify {
  import opened Text
  import opened Sorting
  import opened DnsNames
  import opened WireCodecs

  const MAX_INT: int := 0x7FFF_FFFF_FFFF_FFFF

  datatype Parsed = Number(n: int) | OutOfRange(n: int) | NotANumber

  // strconv.ParseInt in base 10 with 64 bits; out of range, it yields the nearest bound.
  function ParseSigned(s: string): Parsed {
    var negative := s != "" && s[0] == '-';
    var digits := if s != "" && (s[0] == '-' || s[0] == '+') then s[1..] else s;
    if digits == "" || ParseInt(digits).None? then NotANumber
    else
      var n: int := if negative then -(ParseInt(digits).value as int) else ParseInt(digits).value;
      if n > MAX_INT then OutOfRange(MAX_INT) else if n < -MAX_INT - 1 then OutOfRange(-MAX_INT - 1) else Number(n)
  }

  // strings.TrimRight(line, "\r")
  function TrimReturns(s: string): string {
    if s == "" || s[|s| - 1] != '\r' then s else TrimReturns(s[..|s| - 1])
  }

  // ---------------------------------------------------------------- row counts

  function LastTab(s: string): (r: int)
    ensures -1 <= r < |s| && (r >= 0 ==> s[r] == '\t')
  {
    if s == "" then -1 else if s[|s| - 1] == '\t' then |s| - 1 else LastTab(s[..|s| - 1])
  }

  // One line of the reply: a label and a count.
  function RowLine(line: string): Option<(string, int)> {
    var t := TrimReturns(line);
    var i := LastTab(t);
    if i < 0 then None
    else match ParseSigned(Trim(t[i + 1..])) case Number(n) => Some((t[..i], n)) case _ => None
  }

  function RowCounts(lines: seq<string>): map<string, int> {
    if lines == [] then map[]
    else
      var before := RowCounts(lines[..|lines| - 1]);
      match RowLine(lines[|lines| - 1]) case None => before case Some(p) => before[p.0 := p.1]
  }

  method ParseRowCounts(out: string) returns (m: map<string, int>)
    ensures m == RowCounts(Split(out, '\n'))
  {
    hide RowLine;
    m := map[];
    var lines := Split(out, '\n');
    for i := 0 to |lines|
      invariant m == RowCounts(lines[..i])
    {
      assert lines[..i + 1][..i] == lines[..i];
      var p := RowLine(lines[i]);
      if p.Some? {
        m := m[p.value.0 := p.value.1];
      }
    }
    assert lines[..|lines|] == lines;
  }

  // ---------------------------------------------------------------- version, names and counters

  datatype MetaLine = Version(text: string) | Table(name: string, autoIncr: int) | BadTable | Other

  function ReadMetaLine(line: string): MetaLine {
    var f := Split(TrimReturns(line), '\t');
    if f[0] == "V" && |f| >= 2 then Version(f[1])
    else if f[0] == "A" && |f| >= 3 then
      match DecodeHex(f[1])
      case None => BadTable
      case Some(name) => Table(name, match ParseSigned(Trim(f[2])) case NotANumber => 0 case p => p.n)
    else Other
  }

  datatype Meta = Meta(version: string, autoIncr: map<string, int>, names: seq<string>, sawVersion: bool, hexFailed: bool)

  const NO_META := Meta("", map[], [], false, false)

  function Noted(m: Meta, l: MetaLine): Meta {
    match l
    case Version(v) => m.(version := v, sawVersion := true)
    case Table(name, ai) => m.(autoIncr := m.autoIncr[name := ai], names := m.names + [name])
    case BadTable => m.(hexFailed := true)
    case Other => m
  }

  function MetaOf(lines: seq<string>): Meta {
    if lines == [] then NO_META else Noted(MetaOf(lines[..|lines| - 1]), ReadMetaLine(lines[|lines| - 1]))
  }

  method ParseMeta(out: string) returns (version: string, autoIncr: map<string, int>, names: seq<string>, ok: bool)
    ensures var m := MetaOf(Split(out, '\n'));
            version == m.version && autoIncr == m.autoIncr && names == SortStrings(m.names) && ok == (m.sawVersion && !m.hexFailed)
  {
    hide ReadMetaLine;
    version, autoIncr, names := "", map[], [];
    var sawVersion, hexFailed := false, false;
    var lines := Split(out, '\n');
    for i := 0 to |lines|
      invariant MetaOf(lines[..i]) == Meta(version, autoIncr, names, sawVersion, hexFailed)
    {
      assert lines[..i + 1][..i] == lines[..i];
      match ReadMetaLine(lines[i])
      case Version(v) => version, sawVersion := v, true;
      case Table(name, ai) =>
        autoIncr := autoIncr[name := ai];
        names := names + [name];
      case BadTable => hexFailed := true;
      case Other =>
    }
    assert lines[..|lines|] == lines;
    names := SortStrings(names);
    ok := sawVersion && !hexFailed;
  }

  // The verdict looks at which lines there are, not at their order: some version line, and no table line whose
  // name does not decode.
  lemma {:induction false} MetaVerdict(lines: seq<string>)
    ensures MetaOf(lines).sawVersion <==> exists l :: l in lines && ReadMetaLine(l).Version?
    ensures MetaOf(lines).hexFailed <==> exists l :: l in lines && ReadMetaLine(l).BadTable?
  {
    hide ReadMetaLine;
    if lines != [] {
      var n := |lines| - 1;
      MetaVerdict(lines[..n]);
      assert lines == lines[..n] + [lines[n]];
    }
  }

  lemma VerdictIgnoresOrder(a: seq<string>, b: seq<string>)
    requires multiset(a) == multiset(b)
    ensures MetaOf(a).sawVersion == MetaOf(b).sawVersion && MetaOf(a).hexFailed == MetaOf(b).hexFailed
  {
    hide MetaOf, ReadMetaLine;
    MetaVerdict(a);
    MetaVerdict(b);
    forall l ensures l in a <==> l in b {
      assert l in a <==> l in multiset(a);
      assert l in b <==> l in multiset(b);
    }
  }

  // ---------------------------------------------------------------- correlation

  // The labels that name one of the tables.
  function Matched(names: seq<string>, counts: map<string, int>): set<string> {
    set l | l in counts && DecodeHex(l).Some? && DecodeHex(l).value in names
  }

  // Some label in `from` names the table and carries the count.
  ghost predicate CountedBy(n: string, c: int, counts: map<string, int>, from: set<string>) {
    exists l :: l in from && l in counts && DecodeHex(l) == Some(n) && counts[l] == c
  }

  ghost predicate Uncounted(n: string, from: set<string>) { forall l :: l in from ==> DecodeHex(l) != Some(n) }

  // Every table has the count of one of the labels met so far, or none of them names it and it has zero.
  ghost predicate Placed(names: seq<string>, tables: map<string, int>, counts: map<string, int>, met: set<string>) {
    tables.Keys == (set n | n in names) &&
    forall n :: n in names ==> CountedBy(n, tables[n], counts, met) || (tables[n] == 0 && Uncounted(n, met))
  }

  // The loop over the reply's labels and its guard. The labels are walked in no particular order.
  method Correlate(names: seq<string>, counts: map<string, int>) returns (r: Option<map<string, int>>)
    ensures r.Some? <==> |Matched(names, counts)| == |names|
    ensures r.Some? ==> Placed(names, r.value, counts, Matched(names, counts))
  {
    hide DecodeHex, Placed;
    var tables := map n | n in names :: 0;
    var matched := 0;
    var todo := counts.Keys;
    ghost var met: set<string> := {};
    NothingPlaced(names, tables, counts);
    while todo != {}
      invariant todo <= counts.Keys && met == Matched(names, counts) - todo && matched == |met|
      invariant Placed(names, tables, counts, met)
      decreases todo
    {
      var l :| l in todo;
      todo := todo - {l};
      var n := DecodeHex(l);
      PlacedKeys(names, tables, counts, met);
      if n.Some? && n.value in tables {
        PlacedStep(names, tables, counts, met, l);
        tables := tables[n.value := counts[l]];
        matched := matched + 1;
        met := met + {l};
      } else {
        assert l !in Matched(names, counts);
      }
    }
    assert met == Matched(names, counts);
    r := if matched == |names| then Some(tables) else None;
  }

  lemma NothingPlaced(names: seq<string>, tables: map<string, int>, counts: map<string, int>)
    requires tables == map n | n in names :: 0
    ensures Placed(names, tables, counts, {})
  {
  }

  lemma PlacedKeys(names: seq<string>, tables: map<string, int>, counts: map<string, int>, met: set<string>)
    requires Placed(names, tables, counts, met)
    ensures forall n :: n in tables <==> n in names
  {
    forall n ensures n in tables <==> n in names {
      assert n in tables.Keys <==> n in (set m | m in names);
    }
  }

  lemma PlacedStep(names: seq<string>, tables: map<string, int>, counts: map<string, int>, met: set<string>, l: string)
    requires Placed(names, tables, counts, met) && l in counts && DecodeHex(l).Some? && DecodeHex(l).value in names
    ensures Placed(names, tables[DecodeHex(l).value := counts[l]], counts, met + {l})
  {
    hide DecodeHex;
    var n := DecodeHex(l).value;
    var after := tables[n := counts[l]];
    assert after.Keys == tables.Keys;
    forall k | k in names ensures CountedBy(k, after[k], counts, met + {l}) || (after[k] == 0 && Uncounted(k, met + {l})) {
      assert k == n ==> l in met + {l} && counts[l] == after[k];
    }
  }

  // A label as the query asks for it: upper-case hex and nothing else.
  predicate AsAsked(l: string) { Upper(Trim(l)) == l }

  ghost predicate Distinct(names: seq<string>) { forall i, j :: 0 <= i < j < |names| ==> names[i] != names[j] }

  lemma AskedLabel(l: string, n: string)
    requires AsAsked(l) && Bytes(n)
    ensures DecodeHex(l) == Some(n) <==> l == EncodeHex(n)
  {
    hide Trim, Upper, DecodePairs;
    HexRoundTrip(n);
    if DecodeHex(l).Some? {
      DecodedForm(l);
    }
  }

  lemma {:induction false} NameCount(names: seq<string>)
    ensures |set n | n in names| <= |names|
    ensures |set n | n in names| == |names| <==> Distinct(names)
  {
    if names != [] {
      var k := |names| - 1;
      var front, last := names[..k], names[k];
      NameCount(front);
      assert (set n | n in names) == (set n | n in front) + {last};
      if last in front {
        assert (set n | n in names) == (set n | n in front);
        var i :| 0 <= i < k && front[i] == last;
        assert names[i] == names[k];
      } else if Distinct(front) {
        assert forall i :: 0 <= i < k ==> front[i] == names[i] && names[i] in front;
      } else {
        var i, j :| 0 <= i < j < k && front[i] == front[j];
        assert names[i] == names[j];
      }
    }
  }

  function Decoded(labels: set<string>): set<string> {
    set l | l in labels && DecodeHex(l).Some? :: DecodeHex(l).value
  }

  // No two of the labels are spellings of one name.
  ghost predicate OneSpelling(labels: set<string>) {
    forall a, b :: a in labels && b in labels && DecodeHex(a) == DecodeHex(b) ==> a == b
  }

  lemma {:induction false} DecodedCount(labels: set<string>)
    requires forall l :: l in labels ==> DecodeHex(l).Some?
    ensures |Decoded(labels)| <= |labels|
    ensures |Decoded(labels)| == |labels| <==> OneSpelling(labels)
  {
    hide DecodeHex;
    if labels != {} {
      var l :| l in labels;
      var rest := labels - {l};
      DecodedCount(rest);
      assert Decoded(labels) == Decoded(rest) + {DecodeHex(l).value};
      if DecodeHex(l).value in Decoded(rest) {
        assert Decoded(labels) == Decoded(rest);
        var k :| k in rest && DecodeHex(k) == DecodeHex(l);
        assert !OneSpelling(labels);
      } else {
        assert forall k :: k in rest ==> DecodeHex(k).value in Decoded(rest);
        assert OneSpelling(rest) ==> OneSpelling(labels);
      }
    }
  }

  // What the guard's comparison of two numbers decides. Where no table has two labels it passes exactly when no
  // table is listed twice and every one has a label. Where no table is listed twice and it passes, every table
  // has a label exactly when none has two.
  lemma GuardIsExact(names: seq<string>, counts: map<string, int>)
    ensures var matched := Matched(names, counts);
            var all := forall n :: n in names ==> !Uncounted(n, matched);
            && (OneSpelling(matched) ==> (|matched| == |names| <==> Distinct(names) && all))
            && (Distinct(names) && |matched| == |names| ==> (all <==> OneSpelling(matched)))
  {
    hide DecodeHex, Distinct, OneSpelling;
    var matched, listed := Matched(names, counts), set n | n in names;
    DecodedCount(matched);
    NameCount(names);
    assert Decoded(matched) <= listed;
    assert listed == Decoded(matched) + (listed - Decoded(matched));
    forall n | n in names ensures n in Decoded(matched) <==> !Uncounted(n, matched) {
      if n in Decoded(matched) {
        var l :| l in matched && DecodeHex(l) == Some(n);
      }
    }
    if forall n :: n in names ==> !Uncounted(n, matched) {
      assert Decoded(matched) == listed;
    }
    if |Decoded(matched)| == |listed| {
      SubsetOfSameSize(Decoded(matched), listed);
      assert forall n :: n in names ==> n in listed;
    }
  }

  // With labels as asked for, the guard passes exactly when no table is listed twice and every one has its
  // label, and then every table gets the count of its own label.
  lemma AskedLabelsCorrelate(names: seq<string>, counts: map<string, int>)
    requires (forall n :: n in names ==> Bytes(n)) && forall l :: l in counts && DecodeHex(l).Some? ==> AsAsked(l)
    ensures |Matched(names, counts)| == |names| <==> Distinct(names) && forall n :: n in names ==> EncodeHex(n) in counts
    ensures forall n, c :: n in names && CountedBy(n, c, counts, Matched(names, counts)) ==>
              EncodeHex(n) in counts && counts[EncodeHex(n)] == c
    ensures forall n :: n in names && Uncounted(n, Matched(names, counts)) ==> EncodeHex(n) !in counts
  {
    hide DecodeHex, EncodeHex, AsAsked, Distinct;
    var matched := Matched(names, counts);
    forall l, n | l in matched && n in names ensures DecodeHex(l) == Some(n) <==> l == EncodeHex(n) {
      AskedLabel(l, n);
    }
    forall n | n in names ensures DecodeHex(EncodeHex(n)) == Some(n) {
      HexRoundTrip(n);
    }
    assert OneSpelling(matched);
    GuardIsExact(names, counts);
    assert forall n :: n in names && EncodeHex(n) in counts ==> EncodeHex(n) in matched;
  }

  // With a label in both cases the guard can pass although a table has no count: "k" would be certified with
  // zero rows.
  lemma MixedCaseLabelsMislead()
    ensures var names, counts := ["j", "k"], map["6A" := 1, "6a" := 2];
            |Matched(names, counts)| == |names| && Uncounted("k", Matched(names, counts))
  {
    hide DecodeHex;
    var names, counts := ["j", "k"], map["6A" := 1, "6a" := 2];
    LabelOfJ("6A");
    LabelOfJ("6a");
    assert Matched(names, counts) == {"6A", "6a"};
  }

  lemma LabelOfJ(l: string)
    requires l == "6A" || l == "6a"
    ensures DecodeHex(l) == Some("j")
  {
    hide Trim, DecodePairs;
    OnePair(l);
  }

  lemma OnePair(h: string)
    requires |h| == 2 && IsHex(h[0]) && IsHex(h[1])
    ensures DecodePairs(h) == Some([(16 * HexValue(h[0]) + HexValue(h[1])) as char])
  {
    hide HexValue;
    assert h[2..] == "";
    var c := (16 * HexValue(h[0]) + HexValue(h[1])) as char;
    assert [c] + "" == [c];
  }

  // ---------------------------------------------------------------- the deep fingerprint

  datatype DeepTable = DeepTable(rows: int, autoIncr: int)

  datatype DeepInfo = DeepInfo(version: string, tables: map<string, DeepTable>)

  lemma {:induction false} NamesAreBytes(lines: seq<string>)
    ensures forall n :: n in MetaOf(lines).names ==> Bytes(n) && n in MetaOf(lines).autoIncr
  {
    hide DecodeHex, Split, TrimReturns, ParseSigned, Trim;
    if lines != [] {
      var n := |lines| - 1;
      NamesAreBytes(lines[..n]);
      var f := Split(TrimReturns(lines[n]), '\t');
      if ReadMetaLine(lines[n]).Table? {
        DecodedForm(f[1]);
      }
    }
  }

  lemma SortedNames(names: seq<string>)
    ensures forall n :: n in SortStrings(names) <==> n in names
  {
    hide SortStrings;
    forall n ensures n in SortStrings(names) <==> n in names {
      assert n in SortStrings(names) <==> n in multiset(SortStrings(names));
    }
  }

  predicate LabelsAsAsked(counts: map<string, int>) { forall l :: l in counts && DecodeHex(l).Some? ==> AsAsked(l) }

  // DeepTables, on the two replies. Where the labels come back as asked for, it gives every table the count the
  // server reported for it, or fails.
  method DeepTables(metaOut: string, rowsOut: string) returns (r: Option<DeepInfo>)
    ensures var m, counts := MetaOf(Split(metaOut, '\n')), RowCounts(Split(rowsOut, '\n'));
            var names := SortStrings(m.names);
            && (r.Some? <==> m.sawVersion && !m.hexFailed && (names == [] || |Matched(names, counts)| == |names|))
            && (r.Some? ==> r.value.version == m.version && forall n :: n in r.value.tables <==> n in m.names)
            && (r.Some? ==> forall n :: n in m.names ==> n in m.autoIncr && r.value.tables[n].autoIncr == m.autoIncr[n])
            && (r.Some? && LabelsAsAsked(counts) ==> forall n :: n in m.names ==>
                  Bytes(n) && EncodeHex(n) in counts && r.value.tables[n].rows == counts[EncodeHex(n)])
  {
    hide Split, RowCounts, MetaOf, SortStrings, Matched, DecodeHex, Placed;
    var version, autoIncr, names, ok := ParseMeta(metaOut);
    ghost var m := MetaOf(Split(metaOut, '\n'));
    NamesAreBytes(Split(metaOut, '\n'));
    SortedNames(m.names);
    if !ok {
      return None;
    }
    if |names| == 0 {
      assert forall n :: n !in m.names;
      return Some(DeepInfo(version, map[]));
    }
    var counts := ParseRowCounts(rowsOut);
    var rows := Correlate(names, counts);
    if rows.None? {
      return None;
    }
    PlacedKeys(names, rows.value, counts, Matched(names, counts));
    var tables := map n | n in names :: DeepTable(rows.value[n], autoIncr[n]);
    if LabelsAsAsked(counts) {
      OwnCounts(names, rows.value, counts);
    }
    r := Some(DeepInfo(version, tables));
  }

  lemma OwnCounts(names: seq<string>, rows: map<string, int>, counts: map<string, int>)
    requires (forall n :: n in names ==> Bytes(n)) && LabelsAsAsked(counts)
    requires |Matched(names, counts)| == |names| && Placed(names, rows, counts, Matched(names, counts))
    ensures forall n :: n in names ==> n in rows && EncodeHex(n) in counts && rows[n] == counts[EncodeHex(n)]
  {
    hide DecodeHex, EncodeHex, Matched, CountedBy, Uncounted, AsAsked, Distinct;
    AskedLabelsCorrelate(names, counts);
  }

  // ---------------------------------------------------------------- an honest server

  datatype Reported = Reported(name: string, autoIncr: nat, rows: nat)

  // A list of tables as a server reports it.
  ghost predicate Reportable(ts: seq<Reported>) {
    && (forall t :: t in ts ==> Bytes(t.name) && t.autoIncr <= MAX_INT && t.rows <= MAX_INT)
    && forall i, j :: 0 <= i < j < |ts| ==> ts[i].name != ts[j].name
  }

  function RowText(t: Reported): string
    requires Bytes(t.name)
  {
    EncodeHex(t.name) + "\t" + Itoa(t.rows)
  }

  function MetaText(t: Reported): string
    requires Bytes(t.name)
  {
    "A\t" + EncodeHex(t.name) + "\t" + Itoa(t.autoIncr)
  }

  lemma NumberReads(n: nat)
    requires n <= MAX_INT
    ensures ParseSigned(Trim(Itoa(n))) == Number(n) && Trim(Itoa(n)) == Itoa(n)
  {
    hide Itoa, ParseInt, Trim;
    ParseItoa(n);
  }

  lemma NoReturn(s: string)
    requires s != "" && s[|s| - 1] != '\r'
    ensures TrimReturns(s) == s
  {
  }

  lemma {:induction false} LastTabAt(a: string, b: string)
    requires '\t' !in b
    ensures LastTab(a + "\t" + b) == |a|
  {
    var s := a + "\t" + b;
    if b != "" {
      assert s[..|s| - 1] == a + "\t" + b[..|b| - 1];
      LastTabAt(a, b[..|b| - 1]);
    }
  }

  lemma RowLineReads(t: Reported)
    requires Bytes(t.name) && t.rows <= MAX_INT
    ensures RowLine(RowText(t)) == Some((EncodeHex(t.name), t.rows)) && '\n' !in RowText(t)
  {
    hide EncodeHex, Itoa, ParseSigned, Trim, LastTab, TrimReturns;
    var a, b, s := EncodeHex(t.name), Itoa(t.rows), RowText(t);
    NumberReads(t.rows);
    NoReturn(s);
    LastTabAt(a, b);
    assert s[|a| + 1..] == b && s[..|a|] == a;
  }

  function RowTexts(ts: seq<Reported>): (r: seq<string>)
    requires forall t :: t in ts ==> Bytes(t.name)
    ensures |r| == |ts| && forall i :: 0 <= i < |r| ==> r[i] == RowText(ts[i])
  {
    seq(|ts|, i requires 0 <= i < |ts| => RowText(ts[i]))
  }

  function MetaTexts(ts: seq<Reported>): (r: seq<string>)
    requires forall t :: t in ts ==> Bytes(t.name)
    ensures |r| == |ts| && forall i :: 0 <= i < |r| ==> r[i] == MetaText(ts[i])
  {
    seq(|ts|, i requires 0 <= i < |ts| => MetaText(ts[i]))
  }

  // What is parsed from the reply is what was reported.
  ghost predicate CountsAre(counts: map<string, int>, ts: seq<Reported>)
    requires Reportable(ts)
  {
    && (forall i :: 0 <= i < |ts| ==> Bytes(ts[i].name) && EncodeHex(ts[i].name) in counts && counts[EncodeHex(ts[i].name)] == ts[i].rows)
    && forall l :: l in counts ==> LabelOf(l, ts)
  }

  ghost predicate LabelOf(l: string, ts: seq<Reported>) {
    exists i :: 0 <= i < |ts| && Bytes(ts[i].name) && EncodeHex(ts[i].name) == l
  }

  lemma HexDistinct(a: string, b: string)
    requires Bytes(a) && Bytes(b) && a != b
    ensures EncodeHex(a) != EncodeHex(b)
  {
    hide EncodeHex, DecodeHex;
    HexRoundTrip(a);
    HexRoundTrip(b);
  }

  // One more table and its line.
  lemma CountsGrow(counts: map<string, int>, ts: seq<Reported>)
    requires ts != [] && Reportable(ts) && Reportable(ts[..|ts| - 1]) && CountsAre(counts, ts[..|ts| - 1]) && Bytes(ts[|ts| - 1].name)
    ensures CountsAre(counts[EncodeHex(ts[|ts| - 1].name) := ts[|ts| - 1].rows], ts)
  {
    hide EncodeHex;
    var n, front := |ts| - 1, ts[..|ts| - 1];
    var tag := EncodeHex(ts[n].name);
    var after := counts[tag := ts[n].rows];
    forall i | 0 <= i < |ts| ensures Bytes(ts[i].name) && EncodeHex(ts[i].name) in after && after[EncodeHex(ts[i].name)] == ts[i].rows {
      if i < n {
        assert front[i] == ts[i];
        HexDistinct(ts[i].name, ts[n].name);
      }
    }
    forall l | l in after ensures LabelOf(l, ts) {
      if l == tag {
        assert EncodeHex(ts[n].name) == l;
      } else {
        assert LabelOf(l, front);
        var i :| 0 <= i < |front| && Bytes(front[i].name) && EncodeHex(front[i].name) == l;
        assert front[i] == ts[i];
      }
    }
  }

  lemma RowCountsStep(lines: seq<string>, line: string, tag: string, c: int)
    requires RowLine(line) == Some((tag, c))
    ensures RowCounts(lines + [line]) == RowCounts(lines)[tag := c]
  {
    hide RowLine;
    assert (lines + [line])[..|lines|] == lines;
  }

  lemma FrontReportable(ts: seq<Reported>)
    requires ts != [] && Reportable(ts)
    ensures var n := |ts| - 1;
            Reportable(ts[..n]) && Bytes(ts[n].name) && ts[n].rows <= MAX_INT && RowTexts(ts) == RowTexts(ts[..n]) + [RowText(ts[n])]
  {
    hide RowText;
    var n := |ts| - 1;
    assert ts == ts[..n] + [ts[n]] && ts[n] in ts;
    assert forall i :: 0 <= i < n ==> ts[..n][i] == ts[i];
  }

  lemma {:induction false} RowTextsRead(ts: seq<Reported>)
    requires Reportable(ts)
    ensures CountsAre(RowCounts(RowTexts(ts)), ts)
  {
    hide RowLine, EncodeHex, RowText, CountsAre, RowTexts, RowCounts;
    if ts == [] {
      NoCounts();
    } else {
      var n := |ts| - 1;
      FrontReportable(ts);
      RowTextsRead(ts[..n]);
      RowLineReads(ts[n]);
      RowCountsStep(RowTexts(ts[..n]), RowText(ts[n]), EncodeHex(ts[n].name), ts[n].rows);
      CountsGrow(RowCounts(RowTexts(ts[..n])), ts);
    }
  }

  lemma NoCounts()
    ensures CountsAre(RowCounts(RowTexts([])), [])
  {
  }

  lemma EmptyRowLine(lines: seq<string>)
    ensures RowCounts(lines + [""]) == RowCounts(lines)
  {
    assert (lines + [""])[..|lines|] == lines;
  }

  lemma MetaLineReads(t: Reported)
    requires Bytes(t.name) && t.autoIncr <= MAX_INT
    ensures ReadMetaLine(MetaText(t)) == Table(t.name, t.autoIncr) && '\n' !in MetaText(t)
  {
    hide EncodeHex, Itoa, ParseSigned, Trim, TrimReturns, DecodeHex, IndexOf, Split;
    var a, b, s := EncodeHex(t.name), Itoa(t.autoIncr), MetaText(t);
    NumberReads(t.autoIncr);
    HexRoundTrip(t.name);
    assert s[|s| - 1] == b[|b| - 1];
    NoReturn(s);
    SplitThree("A", a, b);
    assert s == "A" + ['\t'] + (a + ['\t'] + b);
  }

  lemma SplitThree(x: string, y: string, z: string)
    requires '\t' !in x && '\t' !in y && '\t' !in z
    ensures Split(x + ['\t'] + (y + ['\t'] + z), '\t') == [x, y, z]
  {
    hide IndexOf, Split;
    SplitOne(x, y + ['\t'] + z);
    SplitOne(y, z);
    NoneThere(z);
  }

  lemma SplitOne(x: string, rest: string)
    requires '\t' !in x
    ensures Split(x + ['\t'] + rest, '\t') == [x] + Split(rest, '\t')
  {
    hide IndexOf;
    IndexAt(x, '\t', rest);
    assert (x + ['\t'] + rest)[|x| + 1..] == rest && (x + ['\t'] + rest)[..|x|] == x;
  }

  lemma NoneThere(z: string)
    requires '\t' !in z
    ensures Split(z, '\t') == [z]
  {
    hide IndexOf;
    assert IndexOf(z, '\t') == |z|;
  }

  // The names in reported order, with their counters.
  ghost predicate MetaIs(m: Meta, version: string, ts: seq<Reported>) {
    && m.version == version && m.sawVersion && !m.hexFailed && |m.names| == |ts|
    && forall i :: 0 <= i < |ts| ==> m.names[i] == ts[i].name && ts[i].name in m.autoIncr && m.autoIncr[ts[i].name] == ts[i].autoIncr
  }

  lemma VersionLineReads(version: string)
    requires forall c :: c in version ==> c !in "\t\n\r"
    ensures ReadMetaLine("V\t" + version) == Version(version) && '\n' !in "V\t" + version
  {
    hide TrimReturns, Split, DecodeHex;
    var s := "V\t" + version;
    assert version != "" ==> version[|version| - 1] in version && s[|s| - 1] == version[|version| - 1];
    NoReturn(s);
    SplitOne("V", version);
    NoneThere(version);
    assert s == "V" + ['\t'] + version;
  }

  lemma {:induction false} MetaTextsRead(version: string, ts: seq<Reported>)
    requires Reportable(ts) && forall c :: c in version ==> c !in "\t\n\r"
    ensures MetaIs(MetaOf(["V\t" + version] + MetaTexts(ts)), version, ts)
  {
    hide ReadMetaLine, MetaText, MetaTexts, MetaOf, MetaIs;
    var first := ["V\t" + version];
    if ts == [] {
      VersionLineReads(version);
      assert first + MetaTexts(ts) == first;
      OneVersionLine(version);
    } else {
      var n := |ts| - 1;
      MetaTextsRead(version, ts[..n]);
      MetaLineReads(ts[n]);
      var before := first + MetaTexts(ts[..n]);
      assert first + MetaTexts(ts) == before + [MetaText(ts[n])];
      MetaGrows(before, version, ts);
    }
  }

  lemma OneVersionLine(version: string)
    requires ReadMetaLine("V\t" + version) == Version(version)
    ensures MetaIs(MetaOf(["V\t" + version]), version, [])
  {
    hide ReadMetaLine;
    var lines := ["V\t" + version];
    assert lines[..0] == [];
  }

  // One more table line.
  lemma MetaGrows(lines: seq<string>, version: string, ts: seq<Reported>)
    requires ts != [] && Reportable(ts) && MetaIs(MetaOf(lines), version, ts[..|ts| - 1])
    requires Bytes(ts[|ts| - 1].name) && ReadMetaLine(MetaText(ts[|ts| - 1])) == Table(ts[|ts| - 1].name, ts[|ts| - 1].autoIncr)
    ensures MetaIs(MetaOf(lines + [MetaText(ts[|ts| - 1])]), version, ts)
  {
    hide ReadMetaLine, MetaText;
    var n := |ts| - 1;
    assert (lines + [MetaText(ts[n])])[..|lines|] == lines;
    assert forall i :: 0 <= i < n ==> ts[..n][i] == ts[i];
  }

  lemma EmptyMetaLine(lines: seq<string>)
    ensures MetaOf(lines + [""]) == MetaOf(lines)
  {
    hide IndexOf;
    assert (lines + [""])[..|lines|] == lines;
    assert Split("", '\t') == [""];
  }

  function MetaReply(version: string, ts: seq<Reported>): string
    requires forall t :: t in ts ==> Bytes(t.name)
  {
    Lines(["V\t" + version] + MetaTexts(ts), '\n')
  }

  function RowsReply(ts: seq<Reported>): string
    requires forall t :: t in ts ==> Bytes(t.name)
  {
    Lines(RowTexts(ts), '\n')
  }

  // From the replies of a server that reports some tables, each once, their names made of any bytes, exactly
  // those tables are read, each with its own counter and count.
  method ReadHonestServer(version: string, ts: seq<Reported>) returns (r: Option<DeepInfo>)
    requires Reportable(ts) && forall c :: c in version ==> c !in "\t\n\r"
    ensures r.Some? && r.value.version == version && forall n :: n in r.value.tables <==> exists i :: 0 <= i < |ts| && ts[i].name == n
    ensures forall i :: 0 <= i < |ts| ==> r.value.tables[ts[i].name] == DeepTable(ts[i].rows, ts[i].autoIncr)
  {
    hide Split, RowCounts, MetaOf, SortStrings, Matched, DecodeHex, EncodeHex, Lines, RowTexts, MetaTexts;
    ghost var m, counts := HonestReplies(version, ts);
    r := DeepTables(MetaReply(version, ts), RowsReply(ts));
  }

  lemma HonestReplies(version: string, ts: seq<Reported>) returns (m: Meta, counts: map<string, int>)
    requires Reportable(ts) && forall c :: c in version ==> c !in "\t\n\r"
    ensures m == MetaOf(Split(MetaReply(version, ts), '\n')) && MetaIs(m, version, ts)
    ensures counts == RowCounts(Split(RowsReply(ts), '\n')) && CountsAre(counts, ts) && LabelsAsAsked(counts)
    ensures |Matched(SortStrings(m.names), counts)| == |SortStrings(m.names)|
    ensures forall n :: n in m.names <==> exists i :: 0 <= i < |ts| && ts[i].name == n
  {
    hide Split, RowCounts, MetaOf, SortStrings, Matched, DecodeHex, EncodeHex, Lines, MetaText, RowText, AsAsked;
    var metaLines, rowLines := ["V\t" + version] + MetaTexts(ts), RowTexts(ts);
    VersionLineReads(version);
    forall i | 0 <= i < |ts| ensures '\n' !in MetaTexts(ts)[i] && '\n' !in rowLines[i] {
      assert ts[i] in ts;
      MetaLineReads(ts[i]);
      RowLineReads(ts[i]);
    }
    SplitLines(metaLines, '\n');
    SplitLines(rowLines, '\n');
    EmptyMetaLine(metaLines);
    EmptyRowLine(rowLines);
    MetaTextsRead(version, ts);
    RowTextsRead(ts);
    m, counts := MetaOf(metaLines), RowCounts(rowLines);
    HonestLabels(counts, ts);
    SortedNames(m.names);
    HonestMatches(m, version, counts, ts);
  }

  lemma HonestLabels(counts: map<string, int>, ts: seq<Reported>)
    requires Reportable(ts) && CountsAre(counts, ts)
    ensures LabelsAsAsked(counts)
  {
    hide EncodeHex;
    forall l | l in counts ensures AsAsked(l) {
      var i :| 0 <= i < |ts| && Bytes(ts[i].name) && EncodeHex(ts[i].name) == l;
      HexRoundTrip(ts[i].name);
      DecodedForm(l);
    }
  }

  lemma HonestMatches(m: Meta, version: string, counts: map<string, int>, ts: seq<Reported>)
    requires Reportable(ts) && MetaIs(m, version, ts) && CountsAre(counts, ts) && LabelsAsAsked(counts)
    ensures |Matched(SortStrings(m.names), counts)| == |SortStrings(m.names)|
  {
    hide EncodeHex, DecodeHex, SortStrings, Matched, CountedBy, Uncounted, AsAsked;
    var names := SortStrings(m.names);
    SortedNames(m.names);
    assert Distinct(m.names);
    NameCount(m.names);
    NameCount(names);
    assert (set n | n in names) == (set n | n in m.names);
    forall n | n in names ensures Bytes(n) && EncodeHex(n) in counts {
      var i :| 0 <= i < |m.names| && m.names[i] == n;
      assert ts[i] in ts;
    }
    AskedLabelsCorrelate(names, counts);
  }
}
