/** The text encodings the tool sends values through: UAPI arguments (internal/cpanel/api.go), and quoted and
    hex-encoded table names (internal/dbmig/deepverify.go, dbmig.go). A byte is a `char` below 256. */
module WireCodecs {
  import opened Text

  predicate Bytes(s: string) { forall i :: 0 <= i < |s| ==> s[i] as int < 256 }

  // ---------------------------------------------------------------- hexadecimal digits

  predicate IsHex(c: char) { '0' <= c <= '9' || 'A' <= c <= 'F' || 'a' <= c <= 'f' }

  function HexValue(c: char): (n: nat)
    requires IsHex(c)
    ensures n < 16
  {
    if c <= '9' then c as int - '0' as int else if c <= 'F' then c as int - 'A' as int + 10 else c as int - 'a' as int + 10
  }

  function HexDigit(n: nat): (c: char)
    requires n < 16
    ensures IsHex(c) && HexValue(c) == n && !IsSpace(c) && c !in "\t\n\r'"
  {
    if n < 10 then ('0' as int + n) as char else ('A' as int + n - 10) as char
  }

  // ---------------------------------------------------------------- UAPI arguments

  // encodeUAPIArgValue
  function EncodeArg(v: string): string {
    if '%' !in v && '+' !in v then v else ReplaceAll(ReplaceAll(v, '%', "%25"), '+', "%2B")
  }

  // Form decoding, section 8.2.1 of RFC 1866: a plus is a space, and % with two hexadecimal digits a byte.
  function FormDecode(s: string): string {
    if s == "" then ""
    else if s[0] == '+' then " " + FormDecode(s[1..])
    else if s[0] == '%' && |s| >= 3 && IsHex(s[1]) && IsHex(s[2]) then
      [(16 * HexValue(s[1]) + HexValue(s[2])) as char] + FormDecode(s[3..])
    else [s[0]] + FormDecode(s[1..])
  }

  lemma {:induction false} ReplaceConcat(a: string, b: string, c: char, to: string)
    ensures ReplaceAll(a + b, c, to) == ReplaceAll(a, c, to) + ReplaceAll(b, c, to)
  {
    if a == "" {
      assert a + b == b;
    } else {
      assert (a + b)[1..] == a[1..] + b;
      ReplaceConcat(a[1..], b, c, to);
    }
  }

  lemma {:induction false} ReplaceAbsent(s: string, c: char, to: string)
    requires c !in s
    ensures ReplaceAll(s, c, to) == s
  {
    if s != "" {
      ReplaceAbsent(s[1..], c, to);
    }
  }

  // The two replacements together act on each byte for itself: the second never sees what the first put in.
  lemma EncodeStep(v: string)
    requires v != ""
    ensures ReplaceAll(ReplaceAll(v, '%', "%25"), '+', "%2B") ==
            (if v[0] == '%' then "%25" else if v[0] == '+' then "%2B" else [v[0]]) +
            ReplaceAll(ReplaceAll(v[1..], '%', "%25"), '+', "%2B")
  {
    var head := if v[0] == '%' then "%25" else [v[0]];
    ReplaceConcat(head, ReplaceAll(v[1..], '%', "%25"), '+', "%2B");
    if v[0] == '+' {
      assert ReplaceAll("+", '+', "%2B") == "%2B" + ReplaceAll("", '+', "%2B");
    } else {
      ReplaceAbsent(head, '+', "%2B");
    }
  }

  lemma {:induction false} DecodesReplaced(v: string)
    ensures FormDecode(ReplaceAll(ReplaceAll(v, '%', "%25"), '+', "%2B")) == v
  {
    if v != "" {
      EncodeStep(v);
      DecodesReplaced(v[1..]);
      var rest := ReplaceAll(ReplaceAll(v[1..], '%', "%25"), '+', "%2B");
      if v[0] == '%' {
        DecodeEscape('2', '5', rest);
      } else if v[0] == '+' {
        DecodeEscape('2', 'B', rest);
      } else {
        assert ([v[0]] + rest)[1..] == rest;
      }
    }
  }

  lemma DecodeEscape(a: char, b: char, rest: string)
    requires IsHex(a) && IsHex(b)
    ensures FormDecode(['%', a, b] + rest) == [(16 * HexValue(a) + HexValue(b)) as char] + FormDecode(rest)
  {
    assert (['%', a, b] + rest)[3..] == rest;
  }

  // Whatever the value, the server decodes the encoded argument to it; so no two values are sent alike.
  lemma ArgRoundTrip(v: string)
    ensures FormDecode(EncodeArg(v)) == v
  {
    if '%' !in v && '+' !in v {
      ReplaceAbsent(v, '%', "%25");
      ReplaceAbsent(v, '+', "%2B");
    }
    DecodesReplaced(v);
  }

  // Sent as it is, a value arrives unchanged exactly when it holds no plus and no % that starts an escape.
  predicate Escapes(v: string, i: nat) { i + 2 < |v| && v[i] == '%' && IsHex(v[i + 1]) && IsHex(v[i + 2]) }

  lemma {:induction false} DecodeShrinks(v: string)
    ensures |FormDecode(v)| <= |v|
  {
    if v != "" {
      if v[0] == '%' && |v| >= 3 && IsHex(v[1]) && IsHex(v[2]) {
        DecodeShrinks(v[3..]);
      } else {
        DecodeShrinks(v[1..]);
      }
    }
  }

  lemma {:induction false} RawArgArrives(v: string)
    ensures FormDecode(v) == v <==> '+' !in v && forall i :: 0 <= i < |v| ==> !Escapes(v, i)
  {
    if v != "" {
      if v[0] == '%' && |v| >= 3 && IsHex(v[1]) && IsHex(v[2]) {
        DecodeShrinks(v[3..]);
        assert Escapes(v, 0);
      } else {
        RawArgArrives(v[1..]);
        assert v == [v[0]] + v[1..];
        assert !Escapes(v, 0);
        assert forall i :: 0 <= i < |v[1..]| ==> (Escapes(v[1..], i) <==> Escapes(v, i + 1));
        if forall i :: 0 <= i < |v[1..]| ==> !Escapes(v[1..], i) {
          forall i | 0 <= i < |v| ensures !Escapes(v, i) {
            assert i > 0 ==> Escapes(v[1..], i - 1) == Escapes(v, i);
          }
        }
        if v[0] != '+' {
          assert FormDecode(v)[1..] == FormDecode(v[1..]);
        }
      }
    }
  }

  // ---------------------------------------------------------------- quoted identifiers

  // quoteIdent
  function QuoteIdent(name: string): string { "`" + ReplaceAll(name, '`', "``") + "`" }

  // The inside of a backtick-quoted identifier: the name up to the closing backtick, and what follows it.
  function LexBody(s: string): Option<(string, string)> {
    if s == "" then None
    else if s[0] != '`' then
      match LexBody(s[1..]) case None => None case Some(p) => Some(([s[0]] + p.0, p.1))
    else if |s| >= 2 && s[1] == '`' then
      match LexBody(s[2..]) case None => None case Some(p) => Some(("`" + p.0, p.1))
    else Some(("", s[1..]))
  }

  function LexIdent(s: string): Option<(string, string)> {
    if s != "" && s[0] == '`' then LexBody(s[1..]) else None
  }

  lemma {:induction false} LexQuoted(name: string, rest: string)
    requires rest == "" || rest[0] != '`'
    ensures LexBody(ReplaceAll(name, '`', "``") + "`" + rest) == Some((name, rest))
  {
    var body := ReplaceAll(name, '`', "``") + "`" + rest;
    if name == "" {
      assert body == "`" + rest;
    } else {
      LexQuoted(name[1..], rest);
      var tail := ReplaceAll(name[1..], '`', "``") + "`" + rest;
      if name[0] == '`' {
        assert body == "``" + tail && body[2..] == tail;
      } else {
        assert body == [name[0]] + tail && body[1..] == tail;
      }
      assert [name[0]] + name[1..] == name;
    }
  }

  // The server reads a quoted name back, whatever the name, and stops right after it.
  lemma QuotedNameReadsBack(name: string, rest: string)
    requires rest == "" || rest[0] != '`'
    ensures LexIdent(QuoteIdent(name) + rest) == Some((name, rest))
  {
    LexQuoted(name, rest);
    assert (QuoteIdent(name) + rest)[1..] == ReplaceAll(name, '`', "``") + "`" + rest;
  }

  // ---------------------------------------------------------------- hex names

  // encodeHexName
  function EncodeHex(s: string): (r: string)
    requires Bytes(s)
    ensures |r| == 2 * |s| && forall i :: 0 <= i < |r| ==> IsHex(r[i]) && !IsSpace(r[i]) && r[i] !in "\t\n\r'"
  {
    if s == "" then ""
    else
      var b := s[0] as int;
      [HexDigit(b / 16), HexDigit(b % 16)] + EncodeHex(s[1..])
  }

  // hex.DecodeString
  function DecodePairs(s: string): Option<string> {
    if s == "" then Some("")
    else if |s| == 1 || !IsHex(s[0]) || !IsHex(s[1]) then None
    else
      match DecodePairs(s[2..])
      case None => None
      case Some(rest) => Some([(16 * HexValue(s[0]) + HexValue(s[1])) as char] + rest)
  }

  // decodeHexName
  function DecodeHex(s: string): Option<string> { DecodePairs(Trim(s)) }

  lemma {:induction false} PairsOfEncoded(s: string)
    requires Bytes(s)
    ensures DecodePairs(EncodeHex(s)) == Some(s)
  {
    if s != "" {
      PairsOfEncoded(s[1..]);
      assert EncodeHex(s)[2..] == EncodeHex(s[1..]);
      var b := s[0] as int;
      assert 16 * (b / 16) + b % 16 == b;
      assert [s[0]] + s[1..] == s;
    }
  }

  // A name comes back from its hex form, and a decodable form is the hex form of its name up to case and
  // surrounding white space.
  lemma HexRoundTrip(s: string)
    requires Bytes(s)
    ensures DecodeHex(EncodeHex(s)) == Some(s)
  {
    PairsOfEncoded(s);
  }

  lemma {:induction false} DecodedPairs(h: string)
    requires DecodePairs(h).Some?
    ensures Bytes(DecodePairs(h).value) && EncodeHex(DecodePairs(h).value) == Upper(h)
  {
    hide HexDigit, HexValue, Upper, IsHex;
    if h != "" {
      DecodedPairs(h[2..]);
      var a, b := HexValue(h[0]), HexValue(h[1]);
      var name := DecodePairs(h).value;
      assert name == [(16 * a + b) as char] + name[1..] && name[1..] == DecodePairs(h[2..]).value;
      assert Upper(h)[2..] == Upper(h[2..]);
      assert Upper(h) == [Upper(h)[0], Upper(h)[1]] + Upper(h)[2..];
      PairSplits(a, b);
      HexUpper(h[0]);
      HexUpper(h[1]);
    }
  }

  lemma PairSplits(a: nat, b: nat)
    requires a < 16 && b < 16
    ensures (16 * a + b) / 16 == a && (16 * a + b) % 16 == b
  {
  }

  lemma HexUpper(c: char)
    requires IsHex(c)
    ensures HexDigit(HexValue(c)) == if 'a' <= c <= 'z' then c - 'a' + 'A' else c
  {
  }

  lemma DecodedForm(h: string)
    requires DecodeHex(h).Some?
    ensures Bytes(DecodeHex(h).value) && EncodeHex(DecodeHex(h).value) == Upper(Trim(h))
  {
    DecodedPairs(Trim(h));
  }

  // ---------------------------------------------------------------- whole statements

  function After(s: string, lead: string): Option<string> {
    if |lead| <= |s| && s[..|lead|] == lead then Some(s[|lead|..]) else None
  }

  lemma AfterLead(lead: string, rest: string)
    ensures After(lead + rest, lead) == Some(rest)
  {
  }

  const SELECT := "SELECT '"
  const COUNT_FROM := "' AS n, COUNT(*) AS c FROM "
  const UNION_ALL := " UNION ALL "

  function CountPart(name: string): string
    requires Bytes(name)
  {
    SELECT + EncodeHex(name) + COUNT_FROM + QuoteIdent(name)
  }

  function CountParts(names: seq<string>): (r: seq<string>)
    requires forall n :: n in names ==> Bytes(n)
    ensures |r| == |names| && forall i :: 0 <= i < |r| ==> r[i] == CountPart(names[i])
  {
    seq(|names|, i requires 0 <= i < |names| => CountPart(names[i]))
  }

  // rowCountSQL
  method RowCountSQL(names: seq<string>) returns (sql: string)
    requires forall n :: n in names ==> Bytes(n)
    ensures sql == JoinWith(CountParts(names), UNION_ALL)
  {
    hide CountPart;
    if |names| == 0 {
      return "";
    }
    var parts := [];
    for i := 0 to |names|
      invariant |parts| == i && forall j :: 0 <= j < i ==> parts[j] == CountPart(names[j])
    {
      assert names[i] in names;
      parts := parts + [CountPart(names[i])];
    }
    assert parts == CountParts(names);
    sql := JoinWith(parts, UNION_ALL);
  }

  // Reading one part: its label, its table and what follows.
  function ReadPart(s: string, lead: string, middle: string): Option<(string, string, string)> {
    match After(s, lead)
    case None => None
    case Some(a) =>
      var i := IndexOf(a, '\'');
      match After(a[i..], middle)
      case None => None
      case Some(b) => match LexIdent(b) case None => None case Some(p) => Some((a[..i], p.0, p.1))
  }

  // Reading such a statement: the label and the table of every part.
  function ReadRowCountSQL(s: string): Option<seq<(string, string)>>
    decreases |s|
  {
    match ReadPart(s, SELECT, COUNT_FROM)
    case None => None
    case Some(p) =>
      if p.2 == "" then Some([(p.0, p.1)])
      else
        match After(p.2, UNION_ALL)
        case None => None
        case Some(rest) =>
          if |rest| >= |s| then None
          else match ReadRowCountSQL(rest) case None => None case Some(more) => Some([(p.0, p.1)] + more)
  }

  lemma PartReadsBack(lead: string, tag: string, middle: string, name: string, more: string)
    requires middle != "" && middle[0] == '\'' && (more == "" || more[0] != '`') && '\'' !in tag
    ensures ReadPart(lead + tag + middle + QuoteIdent(name) + more, lead, middle) == Some((tag, name, more))
  {
    hide LexIdent, QuoteIdent, IndexOf, After;
    var source := QuoteIdent(name) + more;
    var tail := middle + source;
    assert lead + tag + middle + QuoteIdent(name) + more == lead + (tag + tail);
    AfterLead(lead, tag + tail);
    LabelEnds(tag, tail);
    AfterLead(middle, source);
    QuotedNameReadsBack(name, more);
  }

  function Labelled(names: seq<string>): (r: seq<(string, string)>)
    requires forall n :: n in names ==> Bytes(n)
    ensures |r| == |names| && forall i :: 0 <= i < |r| ==> r[i] == (EncodeHex(names[i]), names[i])
  {
    seq(|names|, i requires 0 <= i < |names| => (EncodeHex(names[i]), names[i]))
  }

  // Every part of the statement counts the table it is labelled with, whatever bytes the names are made of.
  lemma {:induction false} RowCountReadsBack(names: seq<string>)
    requires names != [] && forall n :: n in names ==> Bytes(n)
    ensures ReadRowCountSQL(JoinWith(CountParts(names), UNION_ALL)) == Some(Labelled(names))
  {
    hide EncodeHex, QuoteIdent, ReadPart, After;
    var parts, name := CountParts(names), names[0];
    assert name in names;
    assert parts[1..] == CountParts(names[1..]);
    var rest := JoinWith(parts[1..], UNION_ALL);
    var more := if |names| == 1 then "" else UNION_ALL + rest;
    assert JoinWith(parts, UNION_ALL) == SELECT + EncodeHex(name) + COUNT_FROM + QuoteIdent(name) + more;
    PartReadsBack(SELECT, EncodeHex(name), COUNT_FROM, name, more);
    assert Labelled(names) == [(EncodeHex(name), name)] + Labelled(names[1..]);
    if |names| > 1 {
      AfterLead(UNION_ALL, rest);
      RowCountReadsBack(names[1..]);
      assert more != "";
    } else {
      assert Labelled(names) == [(EncodeHex(name), name)];
    }
  }

  lemma LabelEnds(tag: string, tail: string)
    requires tail != "" && tail[0] == '\'' && '\'' !in tag
    ensures var i := IndexOf(tag + tail, '\''); i == |tag| && (tag + tail)[..i] == tag && (tag + tail)[i..] == tail
  {
    hide IndexOf;
    assert tail == ['\''] + tail[1..];
    assert tag + tail == tag + ['\''] + tail[1..];
    IndexAt(tag, '\'', tail[1..]);
  }
}
