/** TXT data in internal/accountinventory/dnsplan.go: splitting it into segments and substituting
    mapped addresses in it. A byte is a `char` below 256. */
module DnsText {
  import opened Text

  // ---------------------------------------------------------------- UTF-8, section 4 of RFC 3629

  predicate InRange(c: char, lo: int, hi: int) { lo <= c as int <= hi }

  predicate IsTail(c: char) { InRange(c, 0x80, 0xBF) }

  // utf8.RuneStart
  predicate RuneStart(c: char) { !IsTail(c) }

  predicate Tails(s: string, n: nat) {
    n <= |s| && forall i :: 1 <= i < n ==> IsTail(s[i])
  }

  // The length of the well-formed byte sequence `s` starts with, or 0.
  function RuneLen(s: string): (n: nat)
    requires s != ""
    ensures n <= 4 && n <= |s| && (n > 0 ==> RuneStart(s[0]) && Tails(s, n))
  {
    var b := s[0];
    if InRange(b, 0x00, 0x7F) then 1
    else if InRange(b, 0xC2, 0xDF) then if Tails(s, 2) then 2 else 0
    else if InRange(b, 0xE0, 0xEF) then
      if Tails(s, 3) && (b as int == 0xE0 ==> InRange(s[1], 0xA0, 0xBF)) && (b as int == 0xED ==> InRange(s[1], 0x80, 0x9F))
      then 3 else 0
    else if InRange(b, 0xF0, 0xF4) then
      if Tails(s, 4) && (b as int == 0xF0 ==> InRange(s[1], 0x90, 0xBF)) && (b as int == 0xF4 ==> InRange(s[1], 0x80, 0x8F))
      then 4 else 0
    else 0
  }

  // utf8.ValidString
  predicate ValidUtf8(s: string) {
    s == "" || (RuneLen(s) > 0 && ValidUtf8(s[RuneLen(s)..]))
  }

  lemma RuneLenPrefix(s: string, i: nat)
    requires s != "" && RuneLen(s) > 0 && RuneLen(s) <= i <= |s|
    ensures RuneLen(s[..i]) == RuneLen(s)
  {
    var n := RuneLen(s);
    assert forall k :: 0 <= k < n ==> s[..i][k] == s[k];
    assert Tails(s[..i], n);
  }

  // A cut before the start of a rune splits valid text into valid texts.
  lemma {:induction false} CutAtRuneStart(s: string, i: nat)
    requires ValidUtf8(s) && i <= |s| && (i < |s| ==> RuneStart(s[i]))
    ensures ValidUtf8(s[..i]) && ValidUtf8(s[i..])
    decreases |s|
  {
    if i == 0 {
      assert s[..0] == "" && s[0..] == s;
    } else {
      var n := RuneLen(s);
      assert Tails(s, n);
      CutAtRuneStart(s[n..], i - n);
      assert s[n..][..i - n] == s[..i][n..];
      assert s[n..][i - n..] == s[i..];
      RuneLenPrefix(s, i);
    }
  }

  // Any four consecutive bytes of valid text hold the start of a rune.
  lemma {:induction false} RuneStartInFour(s: string, p: nat)
    requires ValidUtf8(s) && p + 3 < |s|
    ensures exists k :: p <= k <= p + 3 && RuneStart(s[k])
    decreases |s|
  {
    var n := RuneLen(s);
    if p == 0 {
      assert RuneStart(s[0]);
    } else if p < n {
      assert n < |s| && RuneLen(s[n..]) > 0;
      assert RuneStart(s[n..][0]) && s[n..][0] == s[n];
    } else {
      RuneStartInFour(s[n..], p - n);
      var k :| p - n <= k <= p - n + 3 && RuneStart(s[n..][k]);
      assert s[n..][k] == s[k + n];
    }
  }

  // ---------------------------------------------------------------- segments, section 3.3 of RFC 1035

  const SEGMENT: nat := 255

  // The last rune start at or below `cut`, or 0.
  function Back(s: string, cut: nat): (r: nat)
    requires cut < |s|
    ensures r <= cut && (r > 0 ==> RuneStart(s[r]))
    ensures forall k :: r < k <= cut ==> !RuneStart(s[k])
  {
    if cut > 0 && !RuneStart(s[cut]) then Back(s, cut - 1) else cut
  }

  function Cut(s: string): (r: nat)
    requires SEGMENT < |s|
    ensures 0 < r <= SEGMENT
  {
    if Back(s, SEGMENT) == 0 then SEGMENT else Back(s, SEGMENT)
  }

  // splitTXTSegments
  function Segments(s: string): (r: seq<string>)
    ensures r != []
    decreases |s|
  {
    if |s| > SEGMENT then [s[..Cut(s)]] + Segments(s[Cut(s)..]) else [s]
  }

  method SplitTXTSegments(s: string) returns (out: seq<string>)
    ensures out == Segments(s)
  {
    if s == "" {
      return [""];
    }
    out := [];
    var rest := s;
    while |rest| > SEGMENT
      invariant Segments(s) == out + Segments(rest)
      decreases |rest|
    {
      var cut: nat := SEGMENT;
      while cut > 0 && !RuneStart(rest[cut])
        invariant cut <= SEGMENT && Back(rest, SEGMENT) == Back(rest, cut)
      {
        cut := cut - 1;
      }
      if cut == 0 {
        cut := SEGMENT;
      }
      out := out + [rest[..cut]];
      rest := rest[cut..];
    }
    out := out + [rest];
  }

  // strings.Join with an empty separator
  function Join(parts: seq<string>): string {
    if parts == [] then "" else parts[0] + Join(parts[1..])
  }

  lemma {:induction false} SegmentsRejoin(s: string)
    ensures Join(Segments(s)) == s
    ensures forall k :: 0 <= k < |Segments(s)| ==> |Segments(s)[k]| <= SEGMENT
    decreases |s|
  {
    if |s| > SEGMENT {
      SegmentsRejoin(s[Cut(s)..]);
      assert Segments(s)[1..] == Segments(s[Cut(s)..]);
      assert s == s[..Cut(s)] + s[Cut(s)..];
    } else {
      assert Join([s]) == s + Join([]);
    }
  }

  // Valid text is cut between runes only, so every segment is valid and none but the last is cut short
  // by more than three bytes.
  lemma {:induction false} SegmentsOfValidText(s: string)
    requires ValidUtf8(s)
    ensures forall k :: 0 <= k < |Segments(s)| ==> ValidUtf8(Segments(s)[k])
    ensures forall k :: 0 <= k < |Segments(s)| - 1 ==> SEGMENT - 3 <= |Segments(s)[k]|
    decreases |s|
  {
    hide ValidUtf8;
    if |s| > SEGMENT {
      RuneStartInFour(s, SEGMENT - 3);
      assert Cut(s) >= SEGMENT - 3 && RuneStart(s[Cut(s)]);
      CutAtRuneStart(s, Cut(s));
      SegmentsOfValidText(s[Cut(s)..]);
      var rest := Segments(s[Cut(s)..]);
      forall k | 0 <= k < |Segments(s)|
        ensures ValidUtf8(Segments(s)[k]) && (k < |Segments(s)| - 1 ==> SEGMENT - 3 <= |Segments(s)[k]|)
      {
        assert Segments(s)[k] == if k == 0 then s[..Cut(s)] else rest[k - 1];
      }
    }
  }

  // ---------------------------------------------------------------- substitution

  // The length of the longest key, up to `n` bytes, that `s` starts with; 0 if there is none.
  function LongestKey(s: string, keys: set<string>, n: nat): (r: nat)
    requires n <= |s|
    ensures r <= n && (r > 0 ==> s[..r] in keys) && forall k :: r < k <= n ==> s[..k] !in keys
  {
    if n == 0 || s[..n] in keys then n else LongestKey(s, keys, n - 1)
  }

  // Every mapped address replaced once, left to right, the longest first; the output is not read again.
  function Substituted(s: string, ipMap: map<string, string>): string {
    if s == "" then ""
    else
      var n := LongestKey(s, ipMap.Keys, |s|);
      if n > 0 then ipMap[s[..n]] + Substituted(s[n..], ipMap) else [s[0]] + Substituted(s[1..], ipMap)
  }

  predicate HasPrefix(s: string, p: string) { p <= s }

  // substituteOnce: `froms` are the mapped addresses, longest first. Without an empty one it terminates.
  method SubstituteOnce(s: string, froms: seq<string>, ipMap: map<string, string>) returns (b: string)
    requires (set f | f in froms) == ipMap.Keys && "" !in ipMap
    requires forall i, j :: 0 <= i < j < |froms| ==> |froms[i]| >= |froms[j]|
    ensures b == Substituted(s, ipMap)
  {
    hide SubstitutedFrom;
    b := "";
    var i := 0;
    SubstitutedEnds(s, ipMap);
    while i < |s|
      invariant i <= |s|
      invariant Substituted(s, ipMap) == b + SubstitutedFrom(s, i, ipMap)
    {
      var n := MatchAt(s[i..], froms, ipMap.Keys);
      SubstituteAt(s, i, ipMap);
      if n > 0 {
        Regroup(b, ipMap[s[i..i + n]], SubstitutedFrom(s, i + n, ipMap));
        b := b + ipMap[s[i..i + n]];
        i := i + n;
      } else {
        Regroup(b, [s[i]], SubstitutedFrom(s, i + 1, ipMap));
        b := b + [s[i]];
        i := i + 1;
      }
    }
  }

  function SubstitutedFrom(s: string, i: nat, ipMap: map<string, string>): string
    requires i <= |s|
  {
    Substituted(s[i..], ipMap)
  }

  lemma SubstitutedEnds(s: string, ipMap: map<string, string>)
    ensures SubstitutedFrom(s, 0, ipMap) == Substituted(s, ipMap) && SubstitutedFrom(s, |s|, ipMap) == ""
  {
    assert s[0..] == s && s[|s|..] == "";
  }

  lemma Regroup(a: string, b: string, c: string)
    ensures a + (b + c) == a + b + c
  {
  }

  lemma SubstituteAt(s: string, i: nat, ipMap: map<string, string>)
    requires i < |s|
    ensures var n := LongestKey(s[i..], ipMap.Keys, |s[i..]|);
            && i + n <= |s| && (n > 0 ==> s[i..i + n] in ipMap)
            && SubstitutedFrom(s, i, ipMap) ==
               (if n > 0 then ipMap[s[i..i + n]] + SubstitutedFrom(s, i + n, ipMap) else [s[i]] + SubstitutedFrom(s, i + 1, ipMap))
  {
    hide LongestKey;
    var n := LongestKey(s[i..], ipMap.Keys, |s[i..]|);
    assert s[i..][n..] == s[i + n..] && s[i..][..n] == s[i..i + n] && s[i..][1..] == s[i + 1..];
  }

  // The inner loop: the first of `froms` that `rest` starts with, as its length; 0 if there is none.
  method MatchAt(rest: string, froms: seq<string>, ghost keys: set<string>) returns (n: nat)
    requires (set f | f in froms) == keys && "" !in keys
    requires forall i, j :: 0 <= i < j < |froms| ==> |froms[i]| >= |froms[j]|
    ensures n == LongestKey(rest, keys, |rest|)
  {
    for k := 0 to |froms|
      invariant forall x :: 0 <= x < k ==> !HasPrefix(rest, froms[x])
    {
      if HasPrefix(rest, froms[k]) {
        LongestIsFirst(rest, froms, keys, k);
        return |froms[k]|;
      }
    }
    return 0;
  }

  lemma LongestIsFirst(s: string, froms: seq<string>, keys: set<string>, k: nat)
    requires (set f | f in froms) == keys && k < |froms| && HasPrefix(s, froms[k])
    requires forall i, j :: 0 <= i < j < |froms| ==> |froms[i]| >= |froms[j]|
    requires forall x :: 0 <= x < k ==> !HasPrefix(s, froms[x])
    ensures LongestKey(s, keys, |s|) == |froms[k]|
  {
    var n := LongestKey(s, keys, |s|);
    assert froms[k] == s[..|froms[k]|] && froms[k] in keys;
    if n > 0 {
      assert s[..n] in froms;
      var j :| 0 <= j < |froms| && froms[j] == s[..n];
      assert HasPrefix(s, froms[j]);
      assert j >= k;
    }
  }

  // A reading of a text as kept bytes and matched addresses.
  datatype Piece = Kept(c: char) | Hit(from: string)

  function Source(pieces: seq<Piece>): string {
    if pieces == [] then ""
    else (match pieces[0] case Kept(c) => [c] case Hit(f) => f) + Source(pieces[1..])
  }

  function Image(pieces: seq<Piece>, ipMap: map<string, string>): string
    requires forall p :: p in pieces && p.Hit? ==> p.from in ipMap
  {
    if pieces == [] then ""
    else (match pieces[0] case Kept(c) => [c] case Hit(f) => ipMap[f]) + Image(pieces[1..], ipMap)
  }

  // A byte is kept only where no address starts, and of the addresses that start somewhere the longest is hit.
  ghost predicate LeftmostLongest(pieces: seq<Piece>, keys: set<string>) {
    pieces == [] ||
    (&& (match pieces[0]
         case Kept(_) => forall k :: k in keys ==> !HasPrefix(Source(pieces), k)
         case Hit(f) => f in keys && f != "" && forall k :: k in keys && HasPrefix(Source(pieces), k) ==> |k| <= |f|)
     && LeftmostLongest(pieces[1..], keys))
  }

  // The substitution is the image of the only such reading.
  lemma {:induction false} SubstitutionIsSimultaneous(pieces: seq<Piece>, ipMap: map<string, string>)
    requires LeftmostLongest(pieces, ipMap.Keys)
    ensures forall p :: p in pieces && p.Hit? ==> p.from in ipMap
    ensures Substituted(Source(pieces), ipMap) == Image(pieces, ipMap)
  {
    if pieces != [] {
      SubstitutionIsSimultaneous(pieces[1..], ipMap);
      var s := Source(pieces);
      var n := LongestKey(s, ipMap.Keys, |s|);
      assert n > 0 ==> HasPrefix(s, s[..n]);
      match pieces[0]
      case Kept(c) =>
        assert s[1..] == Source(pieces[1..]);
      case Hit(f) =>
        assert HasPrefix(s, f) && s[..|f|] == f;
        assert s[|f|..] == Source(pieces[1..]);
    }
  }

  lemma {:induction false} ReadingExists(s: string, keys: set<string>) returns (pieces: seq<Piece>)
    requires "" !in keys
    ensures Source(pieces) == s && LeftmostLongest(pieces, keys)
    decreases |s|
  {
    if s == "" {
      pieces := [];
    } else {
      var n := LongestKey(s, keys, |s|);
      var step := if n > 0 then n else 1;
      var rest := ReadingExists(s[step..], keys);
      var head := if n > 0 then Hit(s[..n]) else Kept(s[0]);
      pieces := [head] + rest;
      assert pieces[1..] == rest;
      assert Source(pieces) == s;
      forall k | k in keys && HasPrefix(s, k) ensures |k| <= n {
        assert s[..|k|] == k;
      }
    }
  }

  lemma {:induction false} ReadingIsUnique(a: seq<Piece>, b: seq<Piece>, keys: set<string>)
    requires LeftmostLongest(a, keys) && LeftmostLongest(b, keys) && Source(a) == Source(b)
    ensures a == b
  {
    if a != [] && b != [] {
      assert a[0] == b[0] by { HeadIs(a, keys); HeadIs(b, keys); }
      var n := match a[0] case Kept(_) => 1 case Hit(f) => |f|;
      assert Source(a)[n..] == Source(a[1..]) && Source(b)[n..] == Source(b[1..]);
      ReadingIsUnique(a[1..], b[1..], keys);
      assert a == [a[0]] + a[1..] && b == [b[0]] + b[1..];
    }
  }

  // The first piece of a reading is told by the longest address its text starts with.
  lemma HeadIs(a: seq<Piece>, keys: set<string>)
    requires a != [] && LeftmostLongest(a, keys)
    ensures var s := Source(a);
            var n := LongestKey(s, keys, |s|);
            s != "" && a[0] == if n > 0 then Hit(s[..n]) else Kept(s[0])
  {
    var s := Source(a);
    var n := LongestKey(s, keys, |s|);
    assert n > 0 ==> HasPrefix(s, s[..n]);
    if a[0].Hit? {
      assert s[..|a[0].from|] == a[0].from;
    }
  }

  ghost predicate HoldsAt(s: string, k: string, i: int) { 0 <= i && i + |k| <= |s| && s[i..i + |k|] == k }

  ghost predicate Holds(s: string, k: string) { exists i :: HoldsAt(s, k, i) }

  // Mapping every address to itself changes nothing, and neither does a text that holds no address.
  lemma {:induction false} SubstitutionIdentity(s: string, ipMap: map<string, string>)
    requires forall k :: k in ipMap && Holds(s, k) ==> k == "" || ipMap[k] == k
    ensures Substituted(s, ipMap) == s
    decreases |s|
  {
    hide Holds;
    if s != "" {
      var n := LongestKey(s, ipMap.Keys, |s|);
      var step := if n > 0 then n else 1;
      HoldsParts(s, step);
      SubstitutionIdentity(s[step..], ipMap);
      assert s == s[..step] + s[step..];
    }
  }

  lemma HoldsParts(s: string, n: nat)
    requires n <= |s|
    ensures Holds(s, s[..n]) && forall k :: Holds(s[n..], k) ==> Holds(s, k)
  {
    assert HoldsAt(s, s[..n], 0);
    forall k | Holds(s[n..], k) ensures Holds(s, k) {
      var i :| HoldsAt(s[n..], k, i);
      HoldsLater(s, n, k, i);
    }
  }

  lemma HoldsLater(s: string, n: nat, k: string, i: int)
    requires n <= |s| && HoldsAt(s[n..], k, i)
    ensures HoldsAt(s, k, n + i)
  {
    assert s[n + i..n + i + |k|] == s[n..][i..i + |k|];
  }
}
