/** Options, and the byte-string and set helpers every other module uses.
    A `string` stands for a Go byte string: each `char` is one byte. Case folding and
    white space are the ASCII ones. */
module Text {

  datatype Option<+T> = None | Some(value: T)

  predicate IsSpace(c: char) {
    c == ' ' || c == '\t' || c == '\n' || c == '\r' || c == '\U{0B}' || c == '\U{0C}'
  }

  // The ASCII codes 9 to 13 and 32.
  lemma SpacesAre(c: char)
    ensures IsSpace(c) <==> c as int == 32 || 9 <= c as int <= 13
  {
  }

  function TrimLeft(s: string): (r: string)
    ensures |r| <= |s| && (r != [] ==> !IsSpace(r[0]))
  {
    if s == [] || !IsSpace(s[0]) then s else TrimLeft(s[1..])
  }

  function TrimRight(s: string): (r: string)
    ensures |r| <= |s| && (r != [] ==> r[0] == s[0] && !IsSpace(r[|r| - 1]))
  {
    if s == [] || !IsSpace(s[|s| - 1]) then s else TrimRight(s[..|s| - 1])
  }

  // The text neither starts nor ends with white space.
  predicate Tight(s: string) { s != [] ==> !IsSpace(s[0]) && !IsSpace(s[|s| - 1]) }

  // strings.TrimSpace
  function Trim(s: string): (r: string)
    ensures Tight(r) && (Tight(s) ==> r == s)
  {
    TrimRight(TrimLeft(s))
  }

  lemma TrimShortens(s: string)
    requires !Tight(s)
    ensures |Trim(s)| < |s|
  {
    if !IsSpace(s[0]) {
      assert TrimLeft(s) == s;
    }
  }

  // A leading run of white space before such text is all that is removed.
  lemma {:induction false} TrimLeading(blank: string, s: string)
    requires (forall c :: c in blank ==> IsSpace(c)) && s != [] && Tight(s)
    ensures Trim(blank + s) == s
  {
    if blank == [] {
      assert blank + s == s;
    } else {
      assert (blank + s)[1..] == blank[1..] + s;
      TrimLeading(blank[1..], s);
      assert TrimLeft(blank + s) == TrimLeft(blank[1..] + s);
    }
  }

  // Trimming adds no byte.
  lemma TrimTakesNone(s: string)
    ensures forall c :: c in Trim(s) ==> c in s
  {
    forall c | c in Trim(s) ensures c in s {
      RightTakesNone(TrimLeft(s), c);
      LeftTakesNone(s, c);
    }
  }

  lemma LeftTakesNone(s: string, c: char)
    requires c in TrimLeft(s)
    ensures c in s
  {
  }

  lemma RightTakesNone(s: string, c: char)
    requires c in TrimRight(s)
    ensures c in s
  {
  }

  predicate IsQuote(c: char) { c == '\'' || c == '"' }

  // The two texts start with the same `e` bytes.
  ghost predicate Agree(s: string, t: string, e: nat) {
    e <= |s| && e <= |t| && forall j :: 0 <= j < e ==> s[j] == t[j]
  }

  // From `i` and `j` on the two texts are the same.
  ghost predicate SameRest(s: string, i: nat, t: string, j: nat) {
    i <= |s| && j <= |t| && |s| - i == |t| - j && forall x :: i <= x < |s| ==> s[x] == t[x - i + j]
  }

  function LowerChar(c: char): char {
    if 'A' <= c <= 'Z' then c - 'A' + 'a' else c
  }

  // strings.ToLower on ASCII
  function Lower(s: string): (r: string)
    ensures |r| == |s| && forall i :: 0 <= i < |s| ==> r[i] == LowerChar(s[i])
  {
    seq(|s|, i requires 0 <= i < |s| => LowerChar(s[i]))
  }

  // Only the 26 letters change, each to the one 32 codes on.
  lemma LowersLetters(c: char)
    ensures LowerChar(c) as int == if 65 <= c as int <= 90 then c as int + 32 else c as int
  {
  }

  lemma LowerIdempotent(s: string)
    ensures Lower(Lower(s)) == Lower(s)
  {
  }

  lemma LowerConcat(s: string, t: string)
    ensures Lower(s + t) == Lower(s) + Lower(t)
  {
  }

  // strings.ToUpper on ASCII
  function Upper(s: string): (r: string)
    ensures |r| == |s| && forall i :: 0 <= i < |s| ==> r[i] == if 'a' <= s[i] <= 'z' then s[i] - 'a' + 'A' else s[i]
  {
    seq(|s|, i requires 0 <= i < |s| => if 'a' <= s[i] <= 'z' then s[i] - 'a' + 'A' else s[i])
  }

  lemma CaseFolds(s: string, t: string)
    ensures Upper(s) == Upper(t) <==> Lower(s) == Lower(t)
  {
    if Upper(s) == Upper(t) {
      forall i | 0 <= i < |s| ensures Lower(s)[i] == Lower(t)[i] {
        assert Upper(s)[i] == Upper(t)[i];
      }
    }
    if Lower(s) == Lower(t) {
      forall i | 0 <= i < |s| ensures Upper(s)[i] == Upper(t)[i] {
        assert Lower(s)[i] == Lower(t)[i];
      }
    }
  }

  function IndexOf(s: string, c: char): (i: nat)
    ensures i <= |s| && c !in s[..i] && (i < |s| ==> s[i] == c)
  {
    if s == "" || s[0] == c then 0
    else
      var i := IndexOf(s[1..], c);
      assert s[..i + 1] == [s[0]] + s[1..][..i];
      i + 1
  }

  predicate StartsWith(s: string, p: string) { |p| <= |s| && s[..|p|] == p }

  lemma {:induction false} IndexIn(a: string, c: char, rest: string)
    ensures IndexOf(a + [c] + rest, c) == IndexOf(a, c)
  {
    if a != "" && a[0] != c {
      assert (a + [c] + rest)[1..] == a[1..] + [c] + rest;
      IndexIn(a[1..], c, rest);
    }
  }

  // strings.Split on one character
  function Split(s: string, c: char): (r: seq<string>)
    ensures r != []
    decreases |s|
  {
    var i := IndexOf(s, c);
    if i == |s| then [s] else [s[..i]] + Split(s[i + 1..], c)
  }

  // The text of some lines, each ended by `c`.
  function Lines(lines: seq<string>, c: char): string {
    if lines == [] then "" else lines[0] + [c] + Lines(lines[1..], c)
  }

  lemma IndexAt(a: string, c: char, rest: string)
    requires c !in a
    ensures IndexOf(a + [c] + rest, c) == |a|
  {
    hide IndexOf;
    IndexIn(a, c, rest);
    assert forall i :: 0 <= i < |a| ==> a[i] != c;
  }

  // Splitting undoes putting lines together, up to the empty text after the last one.
  lemma {:induction false} SplitLines(lines: seq<string>, c: char)
    requires forall l :: l in lines ==> c !in l
    ensures Split(Lines(lines, c), c) == lines + [""]
  {
    hide IndexOf;
    if lines != [] {
      var rest := Lines(lines[1..], c);
      assert lines[0] in lines;
      IndexAt(lines[0], c, rest);
      SplitLines(lines[1..], c);
      assert Lines(lines, c)[|lines[0]| + 1..] == rest;
      assert Lines(lines, c)[..|lines[0]|] == lines[0];
    }
  }

  // strings.ReplaceAll of one character
  function ReplaceAll(s: string, c: char, to: string): string {
    if s == "" then "" else (if s[0] == c then to else [s[0]]) + ReplaceAll(s[1..], c, to)
  }

  // strings.Join
  function JoinWith(parts: seq<string>, sep: string): string {
    if parts == [] then "" else if |parts| == 1 then parts[0] else parts[0] + sep + JoinWith(parts[1..], sep)
  }

  lemma SubsetOfSameSize<T>(a: set<T>, b: set<T>)
    requires a <= b && |a| == |b|
    ensures a == b
  {
    assert |b - a| == |b| - |a|;
    assert b == a + (b - a);
  }
}
