/** What the two replies of internal/dbmig/deepverify.go say, read as texts: numbers with a sign, lines of fields between
    tabs, and which of several lines counts. */
module DeepGrammar {
  import opened Text
  import opened DnsNames
  import opened WireCodecs
  import opened DeepVerify

  // ---------------------------------------------------------------- numbers

  function Power(n: nat): nat { if n == 0 then 1 else 10 * Power(n - 1) }

  predicate Digits(s: string) { forall c :: c in s ==> IsDigit(c) }

  function Weight(c: char): nat
    requires IsDigit(c)
  {
    c as int - '0' as int
  }

  // The most significant digit first.
  function Worth(s: string): nat
    requires Digits(s)
  {
    if s == "" then 0 else Weight(s[0]) * Power(|s| - 1) + Worth(s[1..])
  }

  lemma {:induction false} WorthAppended(s: string, c: char)
    requires Digits(s) && IsDigit(c)
    ensures Digits(s + [c]) && Worth(s + [c]) == 10 * Worth(s) + Weight(c)
  {
    var t := s + [c];
    assert Digits(t);
    if s != "" {
      assert t[1..] == s[1..] + [c];
      WorthAppended(s[1..], c);
      TenTimes(Weight(s[0]), Power(|s| - 1));
    } else {
      assert t[1..] == "";
      assert Power(0) == 1;
    }
  }

  lemma TenTimes(a: int, b: int)
    ensures a * (10 * b) == 10 * (a * b)
  {
  }

  lemma {:induction false} DigitsMean(s: string)
    ensures ParseInt(s) == if Digits(s) then Some(Worth(s)) else None
  {
    if s != "" {
      var n := |s| - 1;
      assert s == s[..n] + [s[n]];
      DigitsMean(s[..n]);
      if Digits(s) {
        WorthAppended(s[..n], s[n]);
      }
    }
  }

  predicate Signed(s: string, sign: string, digits: string) {
    s == sign + digits && (sign == "" || sign == "+" || sign == "-") && digits != "" && Digits(digits)
  }

  // A number of 64 bits, or the nearest one.
  function Bounded(n: int): Parsed {
    if -0x8000_0000_0000_0000 <= n < 0x8000_0000_0000_0000 then Number(n)
    else OutOfRange(if n < 0 then -0x8000_0000_0000_0000 else 0x7FFF_FFFF_FFFF_FFFF)
  }

  // A sign, or none, and digits are a number.
  lemma SignedIs(s: string, sign: string, digits: string)
    requires Signed(s, sign, digits)
    ensures ParseSigned(s) == Bounded(if sign == "-" then -(Worth(digits) as int) else Worth(digits))
  {
    hide Worth, ParseInt;
    DigitsMean(digits);
    if sign != "" {
      assert s[0] == sign[0] && s[1..] == digits;
    } else {
      assert s == digits && s[0] in digits && IsDigit(s[0]);
    }
  }

  // Nothing else is.
  lemma NumberIsSigned(s: string) returns (sign: string, digits: string)
    requires !ParseSigned(s).NotANumber?
    ensures Signed(s, sign, digits)
  {
    hide Worth, ParseInt;
    sign := if s[0] == '-' || s[0] == '+' then [s[0]] else "";
    digits := s[|sign|..];
    DigitsMean(digits);
  }

  // ---------------------------------------------------------------- lines

  // The line without the carriage returns at its end.
  ghost predicate Bare(line: string, t: string) {
    t <= line && (forall c :: c in line[|t|..] ==> c == '\r') && (t != "" ==> t[|t| - 1] != '\r')
  }

  lemma {:induction false} ReturnsTrimmed(line: string, t: string)
    ensures TrimReturns(line) == t <==> Bare(line, t)
  {
    if line != "" {
      if line[|line| - 1] == '\r' {
        ReturnsTrimmed(line[..|line| - 1], t);
        BareStep(line, t);
      } else {
        BareWhole(line, t);
      }
    }
  }

  lemma BareStep(line: string, t: string)
    requires line != "" && line[|line| - 1] == '\r'
    ensures Bare(line, t) <==> Bare(line[..|line| - 1], t)
  {
    var n := |line| - 1;
    assert t <= line[..n] <==> t <= line && |t| <= n;
    if t <= line && |t| <= n {
      var blank := line[..n][|t|..];
      assert line[|t|..] == blank + [line[n]];
      assert forall c :: c in line[|t|..] <==> c in blank || c == '\r';
    }
  }

  lemma BareWhole(line: string, t: string)
    requires line != "" && line[|line| - 1] != '\r'
    ensures Bare(line, t) <==> t == line
  {
    if t <= line && |t| < |line| {
      assert line[|t|..][|line| - 1 - |t|] == line[|line| - 1];
      assert line[|line| - 1] in line[|t|..];
    }
  }

  // A row is a label, the last tab of the line, and a number of 64 bits.
  ghost predicate IsRow(line: string, name: string, text: string) {
    Bare(line, name + "\t" + text) && '\t' !in text
  }

  lemma RowIsRead(line: string, name: string, text: string)
    requires IsRow(line, name, text)
    ensures RowLine(line) == match ParseSigned(Trim(text)) case Number(n) => Some((name, n)) case _ => None
  {
    hide ParseSigned, Trim;
    var t := name + "\t" + text;
    ReturnsTrimmed(line, t);
    LastTabAt(name, text);
    assert t[..|name|] == name && t[|name| + 1..] == text;
  }

  lemma ReadIsRow(line: string) returns (text: string)
    requires RowLine(line).Some?
    ensures IsRow(line, RowLine(line).value.0, text) && ParseSigned(Trim(text)) == Number(RowLine(line).value.1)
  {
    hide ParseSigned, Trim;
    var t := TrimReturns(line);
    var i := LastTab(t);
    text := t[i + 1..];
    ReturnsTrimmed(line, t);
    LastTabIsLast(t);
    assert t == t[..i] + "\t" + text;
  }

  lemma {:induction false} LastTabIsLast(s: string)
    ensures forall k :: LastTab(s) < k < |s| ==> s[k] != '\t'
  {
    if s != "" && s[|s| - 1] != '\t' {
      LastTabIsLast(s[..|s| - 1]);
      assert forall k :: 0 <= k < |s| - 1 ==> s[k] == s[..|s| - 1][k];
    }
  }

  // ---------------------------------------------------------------- fields

  function Joined(fields: seq<string>, c: char): string {
    if fields == [] then "" else if |fields| == 1 then fields[0] else fields[0] + [c] + Joined(fields[1..], c)
  }

  // The text is these fields, one or more, with the separator between them and in none of them.
  ghost predicate FieldsOf(s: string, c: char, fields: seq<string>) {
    fields != [] && s == Joined(fields, c) && forall f :: f in fields ==> c !in f
  }

  lemma {:induction false} SplitIs(s: string, c: char, fields: seq<string>)
    requires FieldsOf(s, c, fields)
    ensures Split(s, c) == fields
    decreases |fields|
  {
    assert fields[0] in fields;
    if |fields| > 1 {
      var rest := Joined(fields[1..], c);
      IndexAt(fields[0], c, rest);
      assert s[..|fields[0]|] == fields[0] && s[|fields[0]| + 1..] == rest;
      SplitIs(rest, c, fields[1..]);
    } else {
      NotIn(s, c);
    }
  }

  lemma {:induction false} SplitHas(s: string, c: char)
    ensures FieldsOf(s, c, Split(s, c))
    decreases |s|
  {
    var i := IndexOf(s, c);
    if i < |s| {
      SplitHas(s[i + 1..], c);
      assert s == s[..i] + [c] + s[i + 1..];
      assert Split(s, c)[1..] == Split(s[i + 1..], c);
    }
  }

  lemma {:induction false} NotIn(s: string, c: char)
    requires c !in s
    ensures IndexOf(s, c) == |s|
  {
  }

  // A line of the first reply: what it notes, by its fields.
  lemma MetaLineMeans(line: string, t: string, f: seq<string>)
    requires Bare(line, t) && FieldsOf(t, '\t', f)
    ensures forall v :: ReadMetaLine(line) == Version(v) <==> |f| >= 2 && f[0] == "V" && f[1] == v
    ensures ReadMetaLine(line) == BadTable <==> |f| >= 3 && f[0] == "A" && DecodeHex(f[1]).None?
    ensures forall name, n :: ReadMetaLine(line) == Table(name, n) <==>
              (|f| >= 3 && f[0] == "A" && DecodeHex(f[1]) == Some(name) &&
               ((ParseSigned(Trim(f[2])).NotANumber? && n == 0) || ParseSigned(Trim(f[2])) in {Number(n), OutOfRange(n)}))
  {
    hide ParseSigned, Trim, DecodeHex, Split, Joined, TrimReturns;
    ReturnsTrimmed(line, t);
    SplitIs(t, '\t', f);
  }

  ghost predicate LastVersion(lines: seq<string>, i: int) {
    0 <= i < |lines| && ReadMetaLine(lines[i]).Version? && forall j :: i < j < |lines| ==> !ReadMetaLine(lines[j]).Version?
  }

  // The version is the one given last, and nothing where none is given.
  lemma {:induction false} VersionIsLast(lines: seq<string>)
    ensures MetaOf(lines).sawVersion <==> exists i :: LastVersion(lines, i)
    ensures forall i :: LastVersion(lines, i) ==> ReadMetaLine(lines[i]) == Version(MetaOf(lines).version)
    ensures !MetaOf(lines).sawVersion ==> MetaOf(lines).version == ""
  {
    hide ReadMetaLine;
    if lines != [] {
      var n := |lines| - 1;
      VersionIsLast(lines[..n]);
      forall i ensures LastVersion(lines, i) <==>
                       if i == n then ReadMetaLine(lines[n]).Version? else LastVersion(lines[..n], i) && !ReadMetaLine(lines[n]).Version? {
        LastVersionStep(lines, i);
      }
      assert LastVersion(lines, n) <==> ReadMetaLine(lines[n]).Version?;
    }
  }

  lemma LastVersionStep(lines: seq<string>, i: int)
    requires lines != []
    ensures var n := |lines| - 1;
            LastVersion(lines, i) <==>
            if i == n then ReadMetaLine(lines[n]).Version? else LastVersion(lines[..n], i) && !ReadMetaLine(lines[n]).Version?
  {
    hide ReadMetaLine;
    var n := |lines| - 1;
    if LastVersion(lines[..n], i) && !ReadMetaLine(lines[n]).Version? {
      forall j | i < j < |lines| ensures !ReadMetaLine(lines[j]).Version? {
        if j < n { assert lines[..n][j] == lines[j]; }
      }
    }
  }
}
