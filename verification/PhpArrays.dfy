/** The string-aware bracket matcher and array-block finder of internal/dbmig/cmsconfig.go, on
    comment-free PHP text, and the span-confined edit of internal/dbmig/cmsrewrite.go. */
module PhpArrays {
  import opened Text

  // ---------------------------------------------------------------- string literals

  // The closing quote `q` at or after `j`, or the last byte of the text if there is none.
  function LiteralEnd(s: string, j: nat, q: char): (r: int)
    requires s != []
    ensures r < |s| && (j < |s| ==> j <= r)
    decreases |s| - j
  {
    if j >= |s| then |s| - 1
    else if s[j] == '\\' then LiteralEnd(s, j + 2, q)
    else if s[j] == q then j
    else LiteralEnd(s, j + 1, q)
  }

  // skipPHPStringLiteral
  function SkipLiteral(s: string, i: nat): (r: nat)
    requires i < |s|
    ensures i <= r < |s|
  {
    LiteralEnd(s, i + 1, s[i])
  }

  method SkipPHPStringLiteral(s: string, i: nat) returns (r: nat)
    requires i < |s|
    ensures r == SkipLiteral(s, i)
  {
    var q := s[i];
    var j := i + 1;
    while j < |s|
      invariant i < j
      invariant SkipLiteral(s, i) == LiteralEnd(s, j, q)
    {
      if s[j] == '\\' {
        j := j + 1;
      } else if s[j] == q {
        return j;
      }
      j := j + 1;
    }
    return |s| - 1;
  }

  // ---------------------------------------------------------------- tokens

  // Where the token at `i` ends: a whole string literal, or one byte.
  function TokenEnd(s: string, i: nat): (r: nat)
    requires i < |s|
    ensures i < r <= |s|
  {
    if IsQuote(s[i]) then SkipLiteral(s, i) + 1 else i + 1
  }

  // `to` is a token boundary of the text read from `from`: not inside a string literal.
  predicate Boundary(s: string, from: nat, to: nat)
    requires from <= |s|
    decreases |s| - from
  {
    from == to || (from < to && from < |s| && Boundary(s, TokenEnd(s, from), to))
  }

  // What a token that starts with `c` adds to the number of open brackets of one family.
  function Step(c: char, opener: char, closer: char): int {
    if IsQuote(c) then 0 else if c == opener then 1 else if c == closer then -1 else 0
  }

  // Openers minus closers of one family over the tokens from `from` to `to`.
  function Depth(s: string, from: nat, to: nat, opener: char, closer: char): int
    requires from <= |s| && to <= |s|
    decreases |s| - from
  {
    if from >= to then 0
    else Step(s[from], opener, closer) + Depth(s, TokenEnd(s, from), to, opener, closer)
  }

  // matchingArrayClose, from `i` with `depth` brackets open.
  function CloseFrom(s: string, i: nat, depth: nat, opener: char, closer: char): (r: Option<nat>)
    requires i <= |s| && depth > 0
    ensures r.Some? ==> i <= r.value < |s| && s[r.value] == closer
    decreases |s| - i
  {
    if i == |s| then None
    else if IsQuote(s[i]) then CloseFrom(s, TokenEnd(s, i), depth, opener, closer)
    else if s[i] == opener then CloseFrom(s, i + 1, depth + 1, opener, closer)
    else if s[i] == closer then
      if depth == 1 then Some(i) else CloseFrom(s, i + 1, depth - 1, opener, closer)
    else CloseFrom(s, i + 1, depth, opener, closer)
  }

  function ArrayClose(s: string, body: nat, opener: char, closer: char): (r: Option<nat>)
    requires body <= |s|
    ensures r.Some? ==> body <= r.value < |s| && s[r.value] == closer
  {
    CloseFrom(s, body, 1, opener, closer)
  }

  method MatchingArrayClose(s: string, body: nat, opener: char, closer: char) returns (r: int)
    requires body <= |s|
    ensures r == match ArrayClose(s, body, opener, closer) case Some(c) => c case None => -1
  {
    var depth, i := 1, body;
    while i < |s|
      invariant body <= i <= |s| && depth > 0
      invariant ArrayClose(s, body, opener, closer) == CloseFrom(s, i, depth, opener, closer)
    {
      if IsQuote(s[i]) {
        i := SkipPHPStringLiteral(s, i);
      } else if s[i] == opener {
        depth := depth + 1;
      } else if s[i] == closer {
        depth := depth - 1;
        if depth == 0 {
          return i;
        }
      }
      i := i + 1;
    }
    return -1;
  }

  ghost predicate Family(opener: char, closer: char) {
    opener != closer && !IsQuote(opener) && !IsQuote(closer)
  }

  // `c` balances a block whose body starts at `body`: a closer outside every string literal that brings
  // the depth to zero for the first time.
  ghost predicate Balances(s: string, body: nat, c: nat, depth: nat, opener: char, closer: char)
    requires body <= |s|
  {
    && c < |s| && Boundary(s, body, c) && s[c] == closer
    && depth + Depth(s, body, c, opener, closer) == 1
    && forall x :: body <= x <= c && Boundary(s, body, x) ==> depth + Depth(s, body, x, opener, closer) >= 1
  }

  lemma {:induction false} BoundaryOrder(s: string, from: nat, to: nat)
    requires from <= |s| && Boundary(s, from, to)
    ensures from <= to <= |s|
    decreases |s| - from
  {
    if from != to {
      BoundaryOrder(s, TokenEnd(s, from), to);
    }
  }

  lemma {:induction false} CloserBalances(s: string, body: nat, c: nat, depth: nat, opener: char, closer: char)
    requires body <= |s| && depth > 0 && Family(opener, closer)
    ensures CloseFrom(s, body, depth, opener, closer) == Some(c) <==> Balances(s, body, c, depth, opener, closer)
    decreases |s| - body
  {
    if body < |s| {
      var next := TokenEnd(s, body);
      var step := Step(s[body], opener, closer);
      assert Boundary(s, body, body) && Depth(s, body, body, opener, closer) == 0;
      if depth + step > 0 {
        CloserBalances(s, next, c, depth + step, opener, closer);
        forall x | next <= x <= |s|
          ensures Boundary(s, body, x) <==> Boundary(s, next, x)
          ensures Depth(s, body, x, opener, closer) == step + Depth(s, next, x, opener, closer)
        {
        }
        if Balances(s, body, c, depth, opener, closer) {
          assert c != body;
          BoundaryOrder(s, body, c);
          BoundaryOrder(s, next, c);
          assert Balances(s, next, c, depth + step, opener, closer);
        }
        if Balances(s, next, c, depth + step, opener, closer) {
          BoundaryOrder(s, next, c);
          assert Balances(s, body, c, depth, opener, closer);
        }
      } else {
        assert Boundary(s, body, next) && Boundary(s, next, next);
        assert Depth(s, body, next, opener, closer) == step;
        if c != body && Boundary(s, body, c) {
          BoundaryOrder(s, next, c);
        }
      }
    }
  }

  // ---------------------------------------------------------------- replacing a literal

  // A body that holds no unescaped `q` and no dangling backslash.
  predicate Escaped(b: string, q: char) {
    b == "" || (if b[0] == '\\' then |b| > 1 && Escaped(b[2..], q) else b[0] != q && Escaped(b[1..], q))
  }

  lemma {:induction false} LiteralEndsAfter(s: string, j: nat, b: string, q: char)
    requires Escaped(b, q) && IsQuote(q)
    requires j + |b| < |s| && s[j..j + |b|] == b && s[j + |b|] == q
    ensures LiteralEnd(s, j, q) == j + |b|
    decreases |b|
  {
    if b != "" {
      assert b[0] == s[j];
      var n := if b[0] == '\\' then 2 else 1;
      assert s[j + n..j + |b|] == b[n..];
      LiteralEndsAfter(s, j + n, b[n..], q);
    }
  }

  // `s` with the body of the string literal at `at`, `size` bytes long, replaced.
  function Replaced(s: string, at: nat, size: nat, b: string): (t: string)
    requires at + 1 + size <= |s|
    ensures |t| == |s| - size + |b|
  {
    s[..at + 1] + b + s[at + 1 + size..]
  }

  // A properly escaped literal at `at` and a properly escaped replacement for its body.
  ghost predicate Replacement(s: string, at: nat, size: nat, b: string) {
    && at + 1 + size < |s| && IsQuote(s[at]) && s[at + 1 + size] == s[at]
    && Escaped(s[at + 1..at + 1 + size], s[at]) && Escaped(b, s[at])
  }

  lemma {:induction false} LiteralEndAgree(s: string, t: string, e: nat, j: nat, q: char)
    requires Agree(s, t, e) && 0 < e && e < |s| && LiteralEnd(s, j, q) < e
    ensures LiteralEnd(t, j, q) == LiteralEnd(s, j, q)
    decreases |s| - j
  {
    if j < |s| && s[j] == '\\' {
      LiteralEndAgree(s, t, e, j + 2, q);
    } else if j < |s| && s[j] != q {
      LiteralEndAgree(s, t, e, j + 1, q);
    }
  }

  lemma TokenAgree(s: string, t: string, e: nat, i: nat)
    requires Agree(s, t, e) && e < |s| && i < e && TokenEnd(s, i) <= e
    ensures TokenEnd(t, i) == TokenEnd(s, i) && t[i] == s[i]
  {
    if IsQuote(s[i]) {
      LiteralEndAgree(s, t, e, i + 1, s[i]);
    }
  }

  lemma {:induction false} LiteralEndShift(s: string, i: nat, t: string, j: nat, q: char)
    requires SameRest(s, i, t, j) && s != [] && t != []
    ensures LiteralEnd(s, i, q) - i == LiteralEnd(t, j, q) - j
    decreases |s| - i
  {
    if i < |s| {
      LiteralEndShift(s, i + 1, t, j + 1, q);
      if i + 1 < |s| {
        LiteralEndShift(s, i + 2, t, j + 2, q);
      }
    }
  }

  lemma TokenShift(s: string, i: nat, t: string, j: nat)
    requires i < |s| && SameRest(s, i, t, j)
    ensures TokenEnd(s, i) - i == TokenEnd(t, j) - j && s[i] == t[j]
    ensures SameRest(s, TokenEnd(s, i), t, TokenEnd(t, j))
  {
    LiteralEndShift(s, i + 1, t, j + 1, s[i]);
  }

  lemma {:induction false} CloseShift(s: string, i: nat, t: string, j: nat, depth: nat, opener: char, closer: char)
    requires SameRest(s, i, t, j) && depth > 0
    ensures var a, b := CloseFrom(s, i, depth, opener, closer), CloseFrom(t, j, depth, opener, closer);
            a.Some? == b.Some? && (a.Some? ==> b.value - j == a.value - i)
    decreases |s| - i
  {
    assert |s| - i == |t| - j;
    assert i == |s| ==> CloseFrom(s, i, depth, opener, closer) == CloseFrom(t, j, depth, opener, closer) == None;
    hide TokenEnd, Step, CloseFrom;
    if i < |s| {
      TokenShift(s, i, t, j);
      CloseStep(s, i, depth, opener, closer);
      CloseStep(t, j, depth, opener, closer);
      var step := Step(s[i], opener, closer);
      if depth + step > 0 {
        CloseShift(s, TokenEnd(s, i), t, TokenEnd(t, j), depth + step, opener, closer);
      }
    }
  }

  lemma CloseStep(s: string, i: nat, depth: nat, opener: char, closer: char)
    requires i < |s| && depth > 0
    ensures var next := depth + Step(s[i], opener, closer);
            CloseFrom(s, i, depth, opener, closer) ==
            if next == 0 then Some(i) else CloseFrom(s, TokenEnd(s, i), next, opener, closer)
  {
    hide LiteralEnd;
  }

  lemma OneByte(s: string, i: nat)
    requires i < |s|
    ensures !IsQuote(s[i]) ==> TokenEnd(s, i) == i + 1
  {
  }

  // Where a position at or after the replaced body has moved to.
  function MovedBy(c: nat, at: nat, size: nat, b: string): int {
    if c <= at then c else c - size + |b|
  }

  // Before and after the replacement the block is closed, or not closed, at corresponding places.
  ghost predicate CloserMoved(x: Option<nat>, y: Option<nat>, at: nat, size: nat, b: string) {
    && x.Some? == y.Some?
    && (x.Some? ==> y.value == MovedBy(x.value, at, size, b) && !(at <= x.value <= at + 1 + size))
  }

  // The closer of every block whose body reaches the literal moves by exactly the difference in
  // length, and the closer of a block that ends before it stays put.
  lemma {:induction false} ReplacingKeepsCloser(s: string, i: nat, depth: nat, at: nat, size: nat, b: string, opener: char, closer: char)
    requires Replacement(s, at, size, b) && i <= at && Boundary(s, i, at) && depth > 0
    ensures CloserMoved(CloseFrom(s, i, depth, opener, closer), CloseFrom(Replaced(s, at, size, b), i, depth, opener, closer), at, size, b)
    decreases at - i
  {
    assert at + 1 + size < |s|;
    var t := Replaced(s, at, size, b);
    if i == at {
      CloserPastLiteral(s, depth, at, size, b, opener, closer);
    } else {
      BoundaryOrder(s, TokenEnd(s, i), at);
      BeforeLiteral(s, at, size, b);
      TokenAgree(s, t, at, i);
      CloseStep(s, i, depth, opener, closer);
      CloseStep(t, i, depth, opener, closer);
      hide TokenEnd, Replacement, Replaced, CloseFrom, Step, Agree, Boundary;
      if depth + Step(s[i], opener, closer) > 0 {
        ReplacingKeepsCloser(s, TokenEnd(s, i), depth + Step(s[i], opener, closer), at, size, b, opener, closer);
      }
    }
  }

  lemma CloserPastLiteral(s: string, depth: nat, at: nat, size: nat, b: string, opener: char, closer: char)
    requires Replacement(s, at, size, b) && depth > 0
    ensures CloserMoved(CloseFrom(s, at, depth, opener, closer), CloseFrom(Replaced(s, at, size, b), at, depth, opener, closer), at, size, b)
  {
    hide TokenEnd, CloseFrom, Escaped, SameRest, Agree;
    var t := Replaced(s, at, size, b);
    LiteralTokens(s, at, size, b);
    CloseStep(s, at, depth, opener, closer);
    CloseStep(t, at, depth, opener, closer);
    CloseShift(s, at + size + 2, t, at + |b| + 2, depth, opener, closer);
  }

  lemma BeforeLiteral(s: string, at: nat, size: nat, b: string)
    requires Replacement(s, at, size, b)
    ensures var t := Replaced(s, at, size, b); at < |s| && at < |t| && Agree(s, t, at)
  {
  }

  lemma LiteralTokens(s: string, at: nat, size: nat, b: string)
    requires Replacement(s, at, size, b)
    ensures var t := Replaced(s, at, size, b);
            && IsQuote(s[at]) && Agree(s, t, at + 1) && TokenEnd(s, at) == at + size + 2 && TokenEnd(t, at) == at + |b| + 2
            && SameRest(s, at + size + 2, t, at + |b| + 2)
  {
    var t := Replaced(s, at, size, b);
    LiteralEndsAfter(s, at + 1, s[at + 1..at + 1 + size], s[at]);
    assert t[at + 1..at + 1 + |b|] == b;
    LiteralEndsAfter(t, at + 1, b, s[at]);
  }

  // ---------------------------------------------------------------- key => array

  predicate IsRegexSpace(c: char) { c == ' ' || c == '\t' || c == '\n' || c == '\U{0C}' || c == '\r' }

  function SkipSpace(s: string, i: nat): (r: nat)
    requires i <= |s|
    ensures i <= r <= |s|
    decreases |s| - i
  {
    if i < |s| && IsRegexSpace(s[i]) then SkipSpace(s, i + 1) else i
  }

  predicate At(s: string, i: nat, w: string) {
    i + |w| <= |s| && s[i..i + |w|] == w
  }

  // The expression ['"]key['"]\s*=>\s*(?:\[|array\s*\() anchored at `i`: the index past its opener.
  function KeyOpen(s: string, i: nat, key: string): (r: Option<nat>)
    ensures r.Some? ==> i < r.value <= |s| && s[r.value - 1] in {'[', '('} && IsQuote(s[i])
  {
    var q := i + 1 + |key|;
    if i < |s| && IsQuote(s[i]) && At(s, i + 1, key) && q < |s| && IsQuote(s[q]) then
      var a := SkipSpace(s, q + 1);
      if At(s, a, "=>") then
        var v := SkipSpace(s, a + 2);
        if At(s, v, "[") then Some(v + 1)
        else if At(s, v, "array") then
          var p := SkipSpace(s, v + 5);
          if At(s, p, "(") then Some(p + 1) else None
        else None
      else None
    else None
  }

  // The leftmost match at or after `i`.
  function FirstKeyOpen(s: string, i: nat, key: string): (r: Option<nat>)
    requires i <= |s|
    ensures r.Some? ==> i < r.value <= |s| && s[r.value - 1] in {'[', '('}
    decreases |s| - i
  {
    if i == |s| then None
    else if KeyOpen(s, i, key).Some? then KeyOpen(s, i, key)
    else FirstKeyOpen(s, i + 1, key)
  }

  // childArrayKeyOpen, from `i` with `depth` brackets of either family open.
  function ChildFrom(s: string, i: nat, hi: nat, depth: nat, key: string): (r: Option<nat>)
    requires hi <= |s|
    ensures r.Some? ==> i < r.value <= hi && s[r.value - 1] in {'[', '('}
    decreases hi - i
  {
    if i >= hi then None
    else if s[i] == '[' || s[i] == '(' then ChildFrom(s, i + 1, hi, depth + 1, key)
    else if s[i] == ']' || s[i] == ')' then ChildFrom(s, i + 1, hi, if depth > 0 then depth - 1 else 0, key)
    else if IsQuote(s[i]) then
      if depth == 0 && KeyOpen(s[..hi], i, key).Some? then KeyOpen(s[..hi], i, key)
      else ChildFrom(s, SkipLiteral(s, i) + 1, hi, depth, key)
    else ChildFrom(s, i + 1, hi, depth, key)
  }

  method ChildArrayKeyOpen(s: string, lo: nat, hi: nat, key: string) returns (bodyStart: nat, ok: bool)
    requires lo <= hi <= |s|
    ensures ChildFrom(s, lo, hi, 0, key) == if ok then Some(bodyStart) else None
  {
    hide KeyOpen, SkipLiteral;
    var depth, i := 0, lo;
    while i < hi
      invariant lo <= i && depth >= 0
      invariant ChildFrom(s, lo, hi, 0, key) == ChildFrom(s, i, hi, depth, key)
    {
      if s[i] == '[' || s[i] == '(' {
        depth := depth + 1;
      } else if s[i] == ']' || s[i] == ')' {
        if depth > 0 {
          depth := depth - 1;
        }
      } else if IsQuote(s[i]) {
        if depth == 0 {
          var loc := KeyOpen(s[..hi], i, key);
          if loc.Some? {
            return loc.value, true;
          }
        }
        i := SkipPHPStringLiteral(s, i);
      }
      i := i + 1;
    }
    return 0, false;
  }

  // ---------------------------------------------------------------- the walk down the keys

  datatype Span = Span(start: nat, end: nat)

  function CloserOf(opener: char): char {
    if opener == '(' then ')' else ']'
  }

  // The span of an array body: from just past its opener to its matching closer.
  function BodyAt(s: string, start: nat): (r: Option<Span>)
    requires 0 < start <= |s|
    ensures r.Some? ==> r.value.start == start <= r.value.end < |s| && s[r.value.end] == CloserOf(s[start - 1])
  {
    var opener := s[start - 1];
    match ArrayClose(s, start, opener, CloserOf(opener))
    case None => None
    case Some(end) => Some(Span(start, end))
  }

  // The bodies the walk of arrayBlockBounds goes through below the block `block`.
  function Descend(s: string, block: Span, keys: seq<string>): (r: Option<seq<Span>>)
    requires block.start <= block.end <= |s|
    ensures r.Some? ==> |r.value| == |keys| + 1 && r.value[0] == block
    ensures r.Some? ==> forall k :: 0 <= k < |r.value| ==> r.value[k].start <= r.value[k].end <= |s|
    decreases |keys|
  {
    if keys == [] then Some([block])
    else
      match ChildFrom(s, block.start, block.end, 0, keys[0])
      case None => None
      case Some(start) =>
        match BodyAt(s, start)
        case None => None
        case Some(body) =>
          match Descend(s, body, keys[1..])
          case None => None
          case Some(rest) => Some([block] + rest)
  }

  // Every body of the walk, outermost first.
  function Walk(s: string, keys: seq<string>): (r: Option<seq<Span>>)
    requires keys != []
    ensures r.Some? ==> |r.value| == |keys|
    ensures r.Some? ==> forall k :: 0 <= k < |r.value| ==> r.value[k].start <= r.value[k].end <= |s|
  {
    match FirstKeyOpen(s, 0, keys[0])
    case None => None
    case Some(start) =>
      match BodyAt(s, start)
      case None => None
      case Some(body) => Descend(s, body, keys[1..])
  }

  method ArrayBlockBounds(s: string, keys: seq<string>) returns (start: nat, end: nat, ok: bool)
    ensures keys == [] ==> ok && start == 0 && end == |s|
    ensures keys != [] ==> ok == Walk(s, keys).Some?
    ensures keys != [] && ok ==> Walk(s, keys).value[|keys| - 1] == Span(start, end)
  {
    hide ChildFrom, FirstKeyOpen, ArrayClose;
    var lo: nat, hi: nat := 0, |s|;
    for i := 0 to |keys|
      invariant lo <= hi <= |s|
      invariant i == 0 ==> lo == 0 && hi == |s|
      invariant i > 0 ==> (Walk(s, keys).Some? <==> Descend(s, Span(lo, hi), keys[i..]).Some?)
      invariant i > 0 && Walk(s, keys).Some? ==>
        Walk(s, keys).value[|keys| - 1] == Descend(s, Span(lo, hi), keys[i..]).value[|keys| - i]
    {
      var bodyStart, found;
      if i == 0 {
        bodyStart, found := LeftmostKeyOpen(s, keys[0]);
      } else {
        bodyStart, found := ChildArrayKeyOpen(s, lo, hi, keys[i]);
      }
      if !found {
        return 0, 0, false;
      }
      var opener := s[bodyStart - 1];
      var bodyEnd := MatchingArrayClose(s, bodyStart, opener, CloserOf(opener));
      if bodyEnd < 0 {
        return 0, 0, false;
      }
      assert keys[i..][1..] == keys[i + 1..];
      lo, hi := bodyStart, bodyEnd;
    }
    return lo, hi, true;
  }

  method LeftmostKeyOpen(s: string, key: string) returns (bodyStart: nat, found: bool)
    ensures FirstKeyOpen(s, 0, key) == if found then Some(bodyStart) else None
  {
    var i := 0;
    while i < |s|
      invariant i <= |s|
      invariant FirstKeyOpen(s, 0, key) == FirstKeyOpen(s, i, key)
    {
      var loc := KeyOpen(s, i, key);
      if loc.Some? {
        return loc.value, true;
      }
      i := i + 1;
    }
    return 0, false;
  }

  // ---------------------------------------------------------------- what the walk finds

  // Brackets of either family still open at the token boundary `to`, never counted below zero.
  function Level(s: string, from: nat, to: nat, depth: nat): nat
    requires from <= |s| && to <= |s|
    decreases |s| - from
  {
    if from >= to then depth
    else
      var d := if s[from] in {'[', '('} then depth + 1
               else if s[from] in {']', ')'} && depth > 0 then depth - 1 else depth;
      Level(s, TokenEnd(s, from), to, if IsQuote(s[from]) then depth else d)
  }

  // `p` is a place where a key may introduce a child of the block read from `from`: a string literal
  // that is not nested in any bracket.
  ghost predicate ChildPlace(s: string, from: nat, p: nat, hi: nat, depth: nat)
    requires from <= |s| && hi <= |s|
  {
    from <= p < hi && Boundary(s, from, p) && IsQuote(s[p]) && Level(s, from, p, depth) == 0
  }

  // The search returns the first child place that introduces the key, and fails only if there is none.
  ghost predicate FoundChild(s: string, from: nat, hi: nat, depth: nat, key: string, p: nat)
    requires from <= |s| && hi <= |s|
  {
    && ChildPlace(s, from, p, hi, depth) && KeyOpen(s[..hi], p, key).Some?
    && forall x: nat :: x < p && ChildPlace(s, from, x, hi, depth) ==> KeyOpen(s[..hi], x, key).None?
  }

  lemma StepPlaces(s: string, i: nat, hi: nat, depth: nat, next: nat)
    requires i < hi <= |s|
    requires next == (if IsQuote(s[i]) then depth else if s[i] in {'[', '('} then depth + 1
                      else if s[i] in {']', ')'} && depth > 0 then depth - 1 else depth)
    ensures forall x: nat :: x != i ==> (ChildPlace(s, i, x, hi, depth) <==> ChildPlace(s, TokenEnd(s, i), x, hi, next))
    ensures ChildPlace(s, i, i, hi, depth) <==> IsQuote(s[i]) && depth == 0
  {
    forall x: nat | x != i
      ensures ChildPlace(s, i, x, hi, depth) <==> ChildPlace(s, TokenEnd(s, i), x, hi, next)
    {
      if Boundary(s, i, x) || Boundary(s, TokenEnd(s, i), x) {
        BoundaryOrder(s, TokenEnd(s, i), x);
      }
    }
  }

  lemma {:induction false} ChildFromFinds(s: string, i: nat, hi: nat, depth: nat, key: string) returns (p: nat)
    requires i <= |s| && hi <= |s|
    ensures ChildFrom(s, i, hi, depth, key).Some? ==>
              FoundChild(s, i, hi, depth, key, p) && ChildFrom(s, i, hi, depth, key) == KeyOpen(s[..hi], p, key)
    ensures ChildFrom(s, i, hi, depth, key).None? ==>
              forall x: nat :: ChildPlace(s, i, x, hi, depth) ==> KeyOpen(s[..hi], x, key).None?
    decreases |s| - i
  {
    hide KeyOpen, ChildPlace;
    p := i;
    if i < hi {
      var next := if IsQuote(s[i]) then depth else if s[i] in {'[', '('} then depth + 1
                  else if s[i] in {']', ')'} && depth > 0 then depth - 1 else depth;
      StepPlaces(s, i, hi, depth, next);
      if IsQuote(s[i]) && depth == 0 && KeyOpen(s[..hi], i, key).Some? {
        NoEarlierPlace(s, i, hi, depth);
      } else {
        OneByte(s, i);
        p := ChildFromFinds(s, TokenEnd(s, i), hi, next, key);
        NoEarlierPlace(s, TokenEnd(s, i), hi, next);
      }
    } else {
      NoEarlierPlace(s, i, hi, depth);
    }
  }

  lemma NoEarlierPlace(s: string, i: nat, hi: nat, depth: nat)
    requires i <= |s| && hi <= |s|
    ensures forall x: nat :: ChildPlace(s, i, x, hi, depth) ==> i <= x < hi
  {
  }

  // ---------------------------------------------------------------- nesting

  // A key that needs no escaping in a quoted literal, such as `default`.
  predicate PlainKey(key: string) {
    forall c :: c in key ==> !IsQuote(c) && c != '\\'
  }

  lemma {:induction false} BoundaryTrans(s: string, a: nat, b: nat, c: nat)
    requires a <= |s| && Boundary(s, a, b) && b <= |s| && Boundary(s, b, c)
    ensures Boundary(s, a, c)
    decreases |s| - a
  {
    BoundaryOrder(s, a, b);
    BoundaryOrder(s, b, c);
    if a != b {
      BoundaryTrans(s, TokenEnd(s, a), b, c);
    }
  }

  lemma {:induction false} BoundaryRun(s: string, a: nat, b: nat)
    requires a <= b <= |s| && forall x :: a <= x < b ==> !IsQuote(s[x])
    ensures Boundary(s, a, b)
    decreases b - a
  {
    if a < b {
      BoundaryRun(s, a + 1, b);
    }
  }

  lemma {:induction false} PlainIsEscaped(key: string, q: char)
    requires PlainKey(key) && IsQuote(q)
    ensures Escaped(key, q)
  {
    if key != "" {
      assert key[0] in key;
      PlainIsEscaped(key[1..], q);
    }
  }

  lemma {:induction false} SpacesOnly(s: string, i: nat)
    requires i <= |s|
    ensures forall x :: i <= x < SkipSpace(s, i) ==> IsRegexSpace(s[x])
    decreases |s| - i
  {
    if i < |s| && IsRegexSpace(s[i]) {
      SpacesOnly(s, i + 1);
    }
  }

  ghost predicate Filler(s: string, from: nat, to: nat) {
    to <= |s| && forall x :: from <= x < to ==> !IsQuote(s[x]) && s[x] !in {'[', ']', '(', ')'}
  }

  lemma SpacesFill(s: string, i: nat)
    requires i <= |s|
    ensures Filler(s, i, SkipSpace(s, i))
  {
    SpacesOnly(s, i);
  }

  lemma WordFills(s: string, i: nat, w: string)
    requires At(s, i, w) && Filler(w, 0, |w|)
    ensures Filler(s, i, i + |w|)
  {
    assert forall x :: i <= x < i + |w| ==> s[x] == s[i..i + |w|][x - i];
  }

  // Between the key literal and the opener there is neither a quote nor a bracket.
  lemma KeyOpenText(s: string, i: nat, key: string)
    requires KeyOpen(s, i, key).Some?
    ensures var b, q := KeyOpen(s, i, key).value, i + 1 + |key|;
            q < b - 1 && s[i + 1..q] == key && IsQuote(s[q]) && Filler(s, q + 1, b - 1)
  {
    hide SkipSpace;
    var q := i + 1 + |key|;
    var a := SkipSpace(s, q + 1);
    SpacesFill(s, q + 1);
    WordFills(s, a, "=>");
    SpacesFill(s, a + 2);
    var v := SkipSpace(s, a + 2);
    if !At(s, v, "[") {
      WordFills(s, v, "array");
      SpacesFill(s, v + 5);
    }
  }

  // Wherever the key is found, its literal is read as one token.
  ghost predicate WholeLiterals(s: string, key: string) {
    forall p: nat :: KeyOpen(s, p, key).Some? ==> TokenEnd(s, p) == p + 2 + |key|
  }

  // A plain key is, wherever it is found between two equal quotes.
  lemma PlainKeysAreWhole(s: string, key: string)
    requires PlainKey(key) && forall p: nat :: KeyOpen(s, p, key).Some? ==> s[p + 1 + |key|] == s[p]
    ensures WholeLiterals(s, key)
  {
    hide KeyOpen;
    forall p: nat | KeyOpen(s, p, key).Some? ensures TokenEnd(s, p) == p + 2 + |key| {
      KeyOpenText(s, p, key);
      PlainIsEscaped(key, s[p]);
      LiteralEndsAfter(s, p + 1, key, s[p]);
    }
  }

  // A child found under such a key opens at a token boundary of its parent.
  lemma ChildAtBoundary(s: string, lo: nat, hi: nat, key: string)
    requires lo <= hi <= |s| && WholeLiterals(s, key) && ChildFrom(s, lo, hi, 0, key).Some?
    ensures var b := ChildFrom(s, lo, hi, 0, key).value; Boundary(s, lo, b - 1) && Boundary(s, lo, b)
  {
    hide KeyOpen, ChildFrom, Level;
    var b := ChildFrom(s, lo, hi, 0, key).value;
    var p := ChildFromFinds(s, lo, hi, 0, key);
    KeyOpenAgree(s[..hi], s, b, p, key);
    KeyOpenText(s, p, key);
    BoundaryRun(s, p + 2 + |key|, b - 1);
    assert Boundary(s, b - 1, b);
    BoundaryTrans(s, p, b - 1, b);
    BoundaryTrans(s, lo, p, b - 1);
    BoundaryTrans(s, lo, p, b);
  }

  // The closers still to come after a token that starts with `c`, innermost first, where those in `due` were to
  // come before it; none if `c` is a closer and not the one that is due.
  function After(c: char, due: string): Option<string> {
    if c == '[' || c == '(' then Some([CloserOf(c)] + due)
    else if c == ']' || c == ')' then if due != "" && due[0] == c then Some(due[1..]) else None
    else Some(due)
  }

  // The same over the tokens from `from` to `to`.
  function Due(s: string, from: nat, to: nat, due: string): Option<string>
    requires from <= |s| && to <= |s|
    decreases |s| - from
  {
    if from >= to then Some(due)
    else
      match After(s[from], due)
      case None => None
      case Some(next) => Due(s, TokenEnd(s, from), to, next)
  }

  // Between the two places, outside string literals, the brackets of the two families nest.
  predicate WellNested(s: string, from: nat, to: nat)
    requires from <= |s| && to <= |s|
  {
    Due(s, from, to, "") == Some("")
  }

  lemma {:induction false} DueFrom(s: string, from: nat, m: nat, to: nat, due: string)
    requires from <= |s| && m <= to <= |s| && Boundary(s, from, m) && Due(s, from, to, due).Some?
    ensures Due(s, from, m, due).Some? && Due(s, m, to, Due(s, from, m, due).value) == Due(s, from, to, due)
    decreases |s| - from
  {
    BoundaryOrder(s, from, m);
    if from != m {
      DueFrom(s, TokenEnd(s, from), m, to, After(s[from], due).value);
    }
  }

  // Where a closer is due below some others and all of them come, it comes at the place the matcher finds,
  // and what lies before that place nests.
  lemma {:induction false} DueIsFound(s: string, i: nat, to: nat, inner: string, opener: char, rest: string, depth: nat)
    returns (e: nat)
    requires i <= |s| && to <= |s| && (opener == '[' || opener == '(')
    requires Due(s, i, to, inner + [CloserOf(opener)] + rest) == Some("") && depth == 1 + multiset(inner)[CloserOf(opener)]
    ensures i <= e < to && CloseFrom(s, i, depth, opener, CloserOf(opener)) == Some(e) && Due(s, i, e, inner) == Some("")
    decreases |s| - i
  {
    var closer := CloserOf(opener);
    AfterBelow(s[i], inner, opener, rest);
    CloseStep(s, i, depth, opener, closer);
    hide TokenEnd, CloseFrom, After, Step;
    if inner == "" && s[i] == closer {
      e := i;
    } else {
      e := DueIsFound(s, TokenEnd(s, i), to, After(s[i], inner).value, opener, rest, depth + Step(s[i], opener, closer));
    }
  }

  // What a token does to the closers that are due does not depend on those below a closer that stays due.
  lemma AfterBelow(c: char, inner: string, opener: char, rest: string)
    requires (opener == '[' || opener == '(') && After(c, inner + [CloserOf(opener)] + rest).Some?
    ensures var closer := CloserOf(opener);
            if inner == "" && c == closer then Step(c, opener, closer) == -1
            else
              && After(c, inner).Some? && After(c, inner + [closer] + rest).value == After(c, inner).value + [closer] + rest
              && multiset(After(c, inner).value)[closer] == multiset(inner)[closer] + Step(c, opener, closer)
  {
    var closer, due := CloserOf(opener), inner + [CloserOf(opener)] + rest;
    if c == '[' || c == '(' {
      assert [CloserOf(c)] + due == [CloserOf(c)] + inner + [closer] + rest;
      assert multiset([CloserOf(c)] + inner) == multiset{CloserOf(c)} + multiset(inner);
    } else if (c == ']' || c == ')') && inner != "" {
      assert due[0] == inner[0] && due[1..] == inner[1..] + [closer] + rest;
      assert multiset([inner[0]] + inner[1..]) == multiset{inner[0]} + multiset(inner[1..]);
      assert inner == [inner[0]] + inner[1..];
    }
  }

  // In a well-nested body a child of either family closes strictly inside, and its own body is well nested.
  lemma ChildNests(s: string, lo: nat, hi: nat, key: string)
    requires lo <= hi <= |s| && WellNested(s, lo, hi) && WholeLiterals(s, key) && ChildFrom(s, lo, hi, 0, key).Some?
    ensures var body := BodyAt(s, ChildFrom(s, lo, hi, 0, key).value);
            body.Some? && body.value.end < hi && WellNested(s, body.value.start, body.value.end)
  {
    hide KeyOpen, ChildFrom, CloseFrom, Boundary, WholeLiterals;
    var b := ChildFrom(s, lo, hi, 0, key).value;
    ChildAtBoundary(s, lo, hi, key);
    DueFrom(s, lo, b - 1, hi, "");
    var rest := Due(s, lo, b - 1, "").value;
    assert [CloserOf(s[b - 1])] + rest == "" + [CloserOf(s[b - 1])] + rest;
    var e := DueIsFound(s, b, hi, "", s[b - 1], rest, 1);
  }

  // Every span lies strictly inside every one before it.
  ghost predicate Nested(spans: seq<Span>) {
    forall i, j :: 0 <= i < j < |spans| ==> spans[i].start < spans[j].start && spans[j].end < spans[i].end
  }

  // Each span is an array body, from just past its opener to the closer of that opener, and starts in the one before.
  ghost predicate Bodies(s: string, spans: seq<Span>) {
    && (forall k :: 0 <= k < |spans| ==> 0 < spans[k].start <= |s| && BodyAt(s, spans[k].start) == Some(spans[k]))
    && (forall k :: 0 < k < |spans| ==> spans[k - 1].start < spans[k].start <= spans[k - 1].end)
  }

  lemma {:induction false} DescendNests(s: string, block: Span, keys: seq<string>)
    requires 0 < block.start <= block.end <= |s| && BodyAt(s, block.start) == Some(block) && Descend(s, block, keys).Some?
    ensures Bodies(s, Descend(s, block, keys).value)
    ensures WellNested(s, block.start, block.end) && (forall k :: k in keys ==> WholeLiterals(s, k)) ==>
              Nested(Descend(s, block, keys).value)
    decreases |keys|
  {
    hide ChildFrom, BodyAt, WholeLiterals, WellNested;
    if keys != [] {
      var body := DescendParts(s, block, keys);
      DescendNests(s, body, keys[1..]);
      if WellNested(s, block.start, block.end) && forall k :: k in keys ==> WholeLiterals(s, k) {
        ChildNests(s, block.start, block.end, keys[0]);
      }
    }
  }

  // Every body of a walk ends at the closer of its own opener. If the outermost body is well nested and the
  // keys below it are whole literals, every body lies strictly inside all those around it.
  lemma WalkNests(s: string, keys: seq<string>)
    requires keys != [] && Walk(s, keys).Some?
    ensures var spans := Walk(s, keys).value;
            && Bodies(s, spans)
            && (WellNested(s, spans[0].start, spans[0].end) && (forall k :: k in keys[1..] ==> WholeLiterals(s, k)) ==> Nested(spans))
  {
    hide FirstKeyOpen, WholeLiterals, WellNested, Nested;
    DescendNests(s, BodyAt(s, FirstKeyOpen(s, 0, keys[0]).value).value, keys[1..]);
  }

  lemma {:induction false} CloseAgree(s: string, t: string, i: nat, depth: nat, opener: char, closer: char)
    requires i <= |s| && depth > 0 && CloseFrom(s, i, depth, opener, closer).Some?
    requires Agree(s, t, CloseFrom(s, i, depth, opener, closer).value + 1)
    ensures CloseFrom(t, i, depth, opener, closer) == CloseFrom(s, i, depth, opener, closer)
    decreases |s| - i
  {
    assert i < |s|;
    hide TokenEnd, CloseFrom;
    CloseStep(s, i, depth, opener, closer);
    CloseStep(t, i, depth, opener, closer);
    var step := Step(s[i], opener, closer);
    if depth + step > 0 {
      CloseAgree(s, t, TokenEnd(s, i), depth + step, opener, closer);
      TokenAgree(s, t, CloseFrom(s, i, depth, opener, closer).value, i);
    }
  }

  // The bodies of a walk nest exactly when each closer is already found in the text before the closer around it.
  lemma NestedWhenClosedInside(s: string, keys: seq<string>)
    requires keys != [] && Walk(s, keys).Some?
    ensures Bodies(s, Walk(s, keys).value)
    ensures var spans := Walk(s, keys).value;
            Nested(spans) <==> forall k :: 0 < k < |spans| ==> ClosedBefore(s, spans[k].start, spans[k - 1].end)
  {
    hide Walk, BodyAt, ClosedBefore;
    WalkNests(s, keys);
    var spans := Walk(s, keys).value;
    forall k | 0 < k < |spans| ensures ClosedBefore(s, spans[k].start, spans[k - 1].end) <==> spans[k].end < spans[k - 1].end {
      InsideIsBefore(s, spans[k].start, spans[k - 1].end);
    }
    if forall k :: 0 < k < |spans| ==> ClosedBefore(s, spans[k].start, spans[k - 1].end) {
      StepsNest(spans);
    }
  }

  // The matcher, given only the text before `hi`, finds the closer of the body at `start`.
  predicate ClosedBefore(s: string, start: nat, hi: nat) {
    0 < start <= hi <= |s| && BodyAt(s[..hi], start).Some?
  }

  lemma InsideIsBefore(s: string, start: nat, hi: nat)
    requires 0 < start <= hi <= |s|
    ensures ClosedBefore(s, start, hi) <==> BodyAt(s, start).Some? && BodyAt(s, start).value.end < hi
  {
    hide CloseFrom;
    var opener, closer := s[start - 1], CloserOf(s[start - 1]);
    if BodyAt(s[..hi], start).Some? {
      CloseAgree(s[..hi], s, start, 1, opener, closer);
    }
    if BodyAt(s, start).Some? && BodyAt(s, start).value.end < hi {
      CloseAgree(s, s[..hi], start, 1, opener, closer);
    }
  }

  lemma {:induction false} StepsNest(spans: seq<Span>)
    requires forall k :: 0 < k < |spans| ==> spans[k - 1].start < spans[k].start && spans[k].end < spans[k - 1].end
    ensures Nested(spans)
  {
    if spans != [] {
      var n := |spans| - 1;
      StepsNest(spans[..n]);
      assert forall i :: 0 <= i < n ==> spans[..n][i] == spans[i];
      if n > 0 {
        assert forall i :: 0 <= i < n ==> spans[n - 1].end <= spans[i].end && spans[i].start <= spans[n - 1].start;
      }
    }
  }

  lemma SkipSpaceAgree(s: string, t: string, e: nat, i: nat)
    requires Agree(s, t, e) && i <= |s| && SkipSpace(s, i) < e
    ensures i <= |t| && SkipSpace(t, i) == SkipSpace(s, i)
    decreases |s| - i
  {
    if i < |s| && IsRegexSpace(s[i]) {
      SkipSpaceAgree(s, t, e, i + 1);
    }
  }

  lemma AtAgree(s: string, t: string, e: nat, i: nat, w: string)
    requires Agree(s, t, e) && i + |w| <= e
    ensures At(s, i, w) <==> At(t, i, w)
  {
    assert s[i..i + |w|] == t[i..i + |w|];
  }

  // A match that ends within the common prefix is a match in both texts.
  lemma KeyOpenAgree(s: string, t: string, e: nat, p: nat, key: string)
    requires Agree(s, t, e) && KeyOpen(s, p, key).Some? && KeyOpen(s, p, key).value <= e
    ensures KeyOpen(t, p, key) == KeyOpen(s, p, key)
  {
    hide SkipSpace, At;
    var b, q := KeyOpen(s, p, key).value, p + 1 + |key|;
    AtAgree(s, t, e, p + 1, key);
    SkipSpaceAgree(s, t, e, q + 1);
    var a := SkipSpace(s, q + 1);
    AtAgree(s, t, e, a, "=>");
    SkipSpaceAgree(s, t, e, a + 2);
    var v := SkipSpace(s, a + 2);
    AtAgree(s, t, e, v, "[");
    if !At(s, v, "[") {
      AtAgree(s, t, e, v, "array");
      SkipSpaceAgree(s, t, e, v + 5);
      AtAgree(s, t, e, SkipSpace(s, v + 5), "(");
    }
  }

  lemma CloseRun(s: string, i: nat, j: nat, depth: nat, opener: char, closer: char)
    requires i <= j <= |s| && depth > 0
    requires forall x :: i <= x < j ==> !IsQuote(s[x]) && s[x] != opener && s[x] != closer
    ensures CloseFrom(s, i, depth, opener, closer) == CloseFrom(s, j, depth, opener, closer)
    decreases j - i
  {
    if i < j {
      CloseRun(s, i + 1, j, depth, opener, closer);
    }
  }

  // The walk looks no further than the brackets it asks for, so malformed text can interleave the two
  // families: here the inner array's `)` lies beyond the outer array's `]`.
  lemma MixedFamiliesNeedNotNest()
    ensures Walk(MIXED, ["a", "b"]) == Some([Span(6, 17), Span(17, 19)])
  {
    hide KeyOpen, BodyAt;
    MixedOuter();
    MixedInner();
    assert FirstKeyOpen(MIXED, 0, "a") == Some(6);
    assert ChildFrom(MIXED, 6, 17, 0, "b") == Some(17);
    assert ["a", "b"][1..] == ["b"] && ["b"][1..] == [];
    var outer, inner := Span(6, 17), Span(17, 19);
    assert Descend(MIXED, inner, []) == Some([inner]);
    assert ChildFrom(MIXED, outer.start, outer.end, 0, ["b"][0]) == Some(17);
    assert [outer] + [inner] == [outer, inner];
    assert Descend(MIXED, Span(6, 17), ["b"]) == Some([Span(6, 17), Span(17, 19)]);
  }

  const MIXED := "'a'=>['b'=>array(]x)"

  lemma MixedOuter()
    ensures KeyOpen(MIXED, 0, "a") == Some(6) && BodyAt(MIXED, 6) == Some(Span(6, 17))
  {
    hide CloseFrom, KeyOpen;
    ShortKeyOpens(MIXED, 0, 'a');
    MixedBody();
  }

  lemma MixedBody()
    ensures CloseFrom(MIXED, 6, 1, '[', ']') == Some(17)
  {
    hide TokenEnd;
    assert TokenEnd(MIXED, 6) == 9 by { MixedToken(); }
    CloseRun(MIXED, 9, 17, 1, '[', ']');
  }

  lemma MixedToken()
    ensures TokenEnd(MIXED, 6) == 9
  {
    assert MIXED[7] == 'b' && MIXED[8] == '\'';
  }

  lemma SkipNothing(s: string, i: nat)
    requires i <= |s| && (i < |s| ==> !IsRegexSpace(s[i]))
    ensures SkipSpace(s, i) == i
  {
  }

  lemma MixedInner()
    ensures KeyOpen(MIXED[..17], 6, "b") == Some(17) && BodyAt(MIXED, 17) == Some(Span(17, 19))
  {
    hide KeyOpen, TokenEnd;
    MixedKey();
    KeyOpenAgree(MIXED, MIXED[..17], 17, 6, "b");
    CloseRun(MIXED, 17, 19, 1, '(', ')');
  }

  lemma MixedKey()
    ensures KeyOpen(MIXED, 6, "b") == Some(17)
  {
    hide SkipSpace;
    var s := MIXED;
    SkipNothing(s, 9);
    SkipNothing(s, 11);
    SkipNothing(s, 16);
    assert s[7..8] == [s[7]] && s[9..11] == [s[9], s[10]] && s[11..12] == [s[11]] && s[16..17] == [s[16]];
    assert s[11..16] == [s[11], s[12], s[13], s[14], s[15]];
  }

  // ---------------------------------------------------------------- an edit inside the bound span

  // A key without an opening bracket in it.
  predicate NoOpener(key: string) { '[' !in key && '(' !in key }

  // Such a match cannot run across an opener, so what fails before one keeps failing when the text after
  // that bracket changes.
  lemma KeyOpenNoneKept(s: string, t: string, e: nat, x: nat, key: string, b: nat)
    requires Agree(s, t, e) && NoOpener(key) && x + 1 < b <= e && s[b - 1] in {'[', '('}
    requires KeyOpen(s, x, key).None?
    ensures KeyOpen(t, x, key).None?
  {
    hide KeyOpen;
    if KeyOpen(t, x, key).Some? {
      MatchHoldsNoBracket(t, x, key);
      if KeyOpen(t, x, key).value <= b {
        KeyOpenAgree(t, s, e, x, key);
      }
    }
  }

  lemma MatchHoldsNoBracket(s: string, i: nat, key: string)
    requires NoOpener(key) && KeyOpen(s, i, key).Some?
    ensures forall x :: i <= x < KeyOpen(s, i, key).value - 1 ==> s[x] !in {'[', '('}
  {
    hide KeyOpen;
    KeyOpenText(s, i, key);
    forall x | i < x < i + 1 + |key| ensures s[x] !in {'[', '('} {
      assert s[x] == s[i + 1..i + 1 + |key|][x - i - 1];
      assert s[x] in key;
    }
  }

  lemma {:induction false} FirstKept(s: string, t: string, e: nat, i: nat, key: string)
    requires Agree(s, t, e) && NoOpener(key) && i <= |s|
    requires FirstKeyOpen(s, i, key).Some? && FirstKeyOpen(s, i, key).value <= e
    ensures i <= |t| && FirstKeyOpen(t, i, key) == FirstKeyOpen(s, i, key)
    decreases |s| - i
  {
    hide KeyOpen;
    var b := FirstKeyOpen(s, i, key).value;
    if KeyOpen(s, i, key).Some? {
      KeyOpenAgree(s, t, e, i, key);
    } else {
      KeyOpenNoneKept(s, t, e, i, key, b);
      FirstKept(s, t, e, i + 1, key);
    }
  }

  lemma {:induction false} ChildKept(s: string, t: string, e: nat, i: nat, hi: nat, hi': nat, depth: nat, key: string)
    requires Agree(s, t, e) && NoOpener(key) && hi <= |s| && hi' <= |t| && e < |s| && e <= hi && e <= hi'
    requires ChildFrom(s, i, hi, depth, key).Some? && ChildFrom(s, i, hi, depth, key).value <= e
    ensures ChildFrom(t, i, hi', depth, key) == ChildFrom(s, i, hi, depth, key)
    decreases hi - i
  {
    hide KeyOpen, TokenEnd, SkipLiteral;
    var b := ChildFrom(s, i, hi, depth, key).value;
    assert Agree(s[..hi], t[..hi'], e);
    if IsQuote(s[i]) {
      TokenOfQuote(s, i);
      TokenOfQuote(t, i);
      if depth == 0 && KeyOpen(s[..hi], i, key).Some? {
        KeyOpenAgree(s[..hi], t[..hi'], e, i, key);
      } else {
        TokenAgree(s, t, e, i);
        ChildKept(s, t, e, TokenEnd(s, i), hi, hi', depth, key);
        if depth == 0 {
          KeyOpenNoneKept(s[..hi], t[..hi'], e, i, key, b);
        }
      }
    } else {
      var next := if s[i] in {'[', '('} then depth + 1 else if s[i] in {']', ')'} && depth > 0 then depth - 1 else depth;
      ChildKept(s, t, e, i + 1, hi, hi', next, key);
    }
  }

  lemma TokenOfQuote(s: string, i: nat)
    requires i < |s| && IsQuote(s[i])
    ensures TokenEnd(s, i) == SkipLiteral(s, i) + 1
  {
  }

  function MovedSpan(x: Span, at: nat, size: nat, b: string): Span
    requires x.end <= at || at + 1 + size < x.end
  {
    Span(x.start, MovedBy(x.end, at, size, b))
  }

  // `after` are the spans of `before`, each end moved by the edit.
  ghost predicate AllMoved(before: seq<Span>, after: seq<Span>, at: nat, size: nat, b: string) {
    |after| == |before| && forall k :: 0 <= k < |before| ==>
      && (before[k].end <= at || at + 1 + size < before[k].end)
      && after[k] == MovedSpan(before[k], at, size, b)
  }

  lemma BodyMoved(s: string, x: Span, at: nat, size: nat, b: string)
    requires 0 < x.start <= |s| && BodyAt(s, x.start) == Some(x)
    requires Replacement(s, at, size, b) && Boundary(s, x.start, at)
    ensures x.start <= at && (x.end <= at || at + 1 + size < x.end)
    ensures BodyAt(Replaced(s, at, size, b), x.start) == Some(MovedSpan(x, at, size, b))
  {
    BoundaryOrder(s, x.start, at);
    ReplacingKeepsCloser(s, x.start, 1, at, size, b, s[x.start - 1], CloserOf(s[x.start - 1]));
  }

  // `at` is a token of every one of the bodies, not inside a string literal of any.
  ghost predicate AllReach(s: string, spans: seq<Span>, at: nat) {
    forall k :: 0 <= k < |spans| ==> spans[k].start <= |s| && Boundary(s, spans[k].start, at)
  }

  lemma FirstReaches(s: string, block: Span, rest: seq<Span>, at: nat)
    requires AllReach(s, [block] + rest, at)
    ensures block.start <= |s| && Boundary(s, block.start, at) && AllReach(s, rest, at)
  {
    hide Boundary;
    assert ([block] + rest)[0] == block && forall k :: 0 <= k < |rest| ==> ([block] + rest)[k + 1] == rest[k];
  }

  lemma {:induction false} DescendReaches(s: string, block: Span, keys: seq<string>, at: nat)
    requires block.start <= block.end <= |s| && Descend(s, block, keys).Some?
    requires Boundary(s, Descend(s, block, keys).value[|keys|].start, at) && forall k :: k in keys ==> WholeLiterals(s, k)
    ensures AllReach(s, Descend(s, block, keys).value, at)
    decreases |keys|
  {
    hide ChildFrom, BodyAt, Boundary, WholeLiterals;
    if keys != [] {
      var body := DescendParts(s, block, keys);
      DescendReaches(s, body, keys[1..], at);
      ChildAtBoundary(s, block.start, block.end, keys[0]);
      assert Descend(s, body, keys[1..]).value[0] == body;
      BoundaryTrans(s, block.start, body.start, at);
    }
  }

  // Where the keys below the outermost are whole literals, a token of the innermost body is one of every body.
  lemma WalkReaches(s: string, keys: seq<string>, at: nat)
    requires keys != [] && Walk(s, keys).Some? && Boundary(s, Walk(s, keys).value[|keys| - 1].start, at)
    requires forall k :: k in keys[1..] ==> WholeLiterals(s, k)
    ensures AllReach(s, Walk(s, keys).value, at)
  {
    hide FirstKeyOpen, WholeLiterals, Boundary;
    DescendReaches(s, BodyAt(s, FirstKeyOpen(s, 0, keys[0]).value).value, keys[1..], at);
  }

  lemma {:induction false} DescendKept(s: string, block: Span, keys: seq<string>, at: nat, size: nat, b: string)
    requires 0 < block.start <= block.end <= |s| && BodyAt(s, block.start) == Some(block)
    requires Descend(s, block, keys).Some? && Replacement(s, at, size, b)
    requires AllReach(s, Descend(s, block, keys).value, at) && forall k :: k in keys ==> NoOpener(k)
    ensures Boundary(s, block.start, at) && block.start <= at
    ensures block.end <= at || at + 1 + size < block.end
    ensures var t, moved := Replaced(s, at, size, b), MovedSpan(block, at, size, b);
            && moved.start <= moved.end <= |t| && Descend(t, moved, keys).Some?
            && AllMoved(Descend(s, block, keys).value, Descend(t, moved, keys).value, at, size, b)
    decreases |keys|
  {
    hide ChildFrom, NoOpener, Escaped, BodyAt, Boundary, Replaced, Descend, AllReach;
    var t := Replaced(s, at, size, b);
    if keys == [] {
      DescendEnds(s, block);
      assert [block] + [] == [block];
      FirstReaches(s, block, [], at);
      BodyMoved(s, block, at, size, b);
      DescendEnds(t, MovedSpan(block, at, size, b));
    } else {
      var body := DescendParts(s, block, keys);
      FirstReaches(s, block, Descend(s, body, keys[1..]).value, at);
      DescendKept(s, body, keys[1..], at, size, b);
      BodyMoved(s, block, at, size, b);
      BodyMoved(s, body, at, size, b);
      ChildMoved(s, block, keys[0], at, size, b);
      DescendJoins(t, MovedSpan(block, at, size, b), MovedSpan(body, at, size, b), keys);
    }
  }

  lemma DescendEnds(s: string, block: Span)
    requires block.start <= block.end <= |s|
    ensures Descend(s, block, []) == Some([block])
  {
  }

  // The first step of a walk, and the rest of it.
  lemma DescendParts(s: string, block: Span, keys: seq<string>) returns (body: Span)
    requires block.start <= block.end <= |s| && keys != [] && Descend(s, block, keys).Some?
    ensures ChildFrom(s, block.start, block.end, 0, keys[0]) == Some(body.start)
    ensures 0 < body.start <= body.end <= |s| && BodyAt(s, body.start) == Some(body) && Descend(s, body, keys[1..]).Some?
    ensures Descend(s, block, keys).value == [block] + Descend(s, body, keys[1..]).value
  {
    hide ChildFrom, BodyAt;
    body := BodyAt(s, ChildFrom(s, block.start, block.end, 0, keys[0]).value).value;
  }

  lemma DescendJoins(s: string, block: Span, body: Span, keys: seq<string>)
    requires block.start <= block.end <= |s| && keys != [] && 0 < body.start <= body.end <= |s|
    requires ChildFrom(s, block.start, block.end, 0, keys[0]) == Some(body.start) && BodyAt(s, body.start) == Some(body)
    requires Descend(s, body, keys[1..]).Some?
    ensures Descend(s, block, keys) == Some([block] + Descend(s, body, keys[1..]).value)
  {
    hide ChildFrom, BodyAt;
  }

  lemma ChildMoved(s: string, block: Span, key: string, at: nat, size: nat, b: string)
    requires block.start <= block.end <= |s| && at + 1 + size < |s| && NoOpener(key)
    requires ChildFrom(s, block.start, block.end, 0, key).Some? && ChildFrom(s, block.start, block.end, 0, key).value <= at
    requires at + 1 + size < block.end || block.end <= at
    ensures var t, moved := Replaced(s, at, size, b), MovedSpan(block, at, size, b);
            && moved.end <= |t|
            && ChildFrom(t, block.start, moved.end, 0, key) == ChildFrom(s, block.start, block.end, 0, key)
  {
    hide ChildFrom;
    var start := ChildFrom(s, block.start, block.end, 0, key).value;
    assert Agree(s, Replaced(s, at, size, b), start);
    ChildKept(s, Replaced(s, at, size, b), start, block.start, block.end, MovedSpan(block, at, size, b).end, 0, key);
  }

  // Editing a literal that is a token of every block of a walk: the walk goes through the same blocks, each
  // end moved by exactly the difference in length, so the text after every block is untouched.
  lemma EditKeepsWalk(s: string, keys: seq<string>, at: nat, size: nat, b: string)
    requires keys != [] && Walk(s, keys).Some? && Replacement(s, at, size, b)
    requires AllReach(s, Walk(s, keys).value, at) && forall k :: k in keys ==> NoOpener(k)
    ensures var t := Replaced(s, at, size, b);
            Walk(t, keys).Some? && AllMoved(Walk(s, keys).value, Walk(t, keys).value, at, size, b)
  {
    hide FirstKeyOpen, NoOpener, Escaped, Boundary;
    var t := Replaced(s, at, size, b);
    var start := FirstKeyOpen(s, 0, keys[0]).value;
    var body := BodyAt(s, start).value;
    DescendKept(s, body, keys[1..], at, size, b);
    BodyMoved(s, body, at, size, b);
    assert Agree(s, t, start);
    FirstKept(s, t, start, 0, keys[0]);
  }

  // The pattern takes a key between unequal quotes. Here the opening bracket of `b` lies in a literal of the outer
  // array, where the literal `x` is none: a bracket written into it closes the outer array.
  const SKEWED := "'a'=>['b\"=>['x']']"

  lemma SkewedEditMovesTheOuterEnd()
    ensures Walk(SKEWED, ["a", "b"]) == Some([Span(6, 17), Span(12, 15)])
    ensures Replacement(SKEWED, 12, 1, "]") && Boundary(SKEWED, 12, 12) && !Boundary(SKEWED, 6, 12)
    ensures Walk(Replaced(SKEWED, 12, 1, "]"), ["a", "b"]) == Some([Span(6, 13), Span(12, 15)])
  {
    assert SKEWED[12 + 1..12 + 1 + 1] == "x" && Escaped("x", '\'') && Escaped("]", '\'');
    assert Replaced(SKEWED, 12, 1, "]") == "'a'=>['b\"=>[']']']";
    assert TokenEnd(SKEWED, 6) == 13 by { SkewedTokens(SKEWED); }
    if Boundary(SKEWED, 6, 12) {
      BoundaryOrder(SKEWED, 13, 12);
    }
    SkewedWalk(SKEWED, 17);
    SkewedWalk("'a'=>['b\"=>[']']']", 13);
  }

  lemma SkewedTokens(s: string)
    requires s == SKEWED || s == "'a'=>['b\"=>[']']']"
    ensures TokenEnd(s, 6) == 13 && TokenEnd(s, 12) == 15 && TokenEnd(s, 14) == 17
  {
    assert s[6] == '\'' && s[12] == '\'' && s[14] == '\'' && s[16] == '\'';
    assert LiteralEnd(s, 7, '\'') == LiteralEnd(s, 9, '\'') == LiteralEnd(s, 11, '\'') == 12;
    assert LiteralEnd(s, 13, '\'') == LiteralEnd(s, 14, '\'') == 14 && LiteralEnd(s, 15, '\'') == LiteralEnd(s, 16, '\'') == 16;
  }

  lemma SkewedWalk(s: string, end: nat)
    requires (s == SKEWED && end == 17) || (s == "'a'=>['b\"=>[']']']" && end == 13)
    ensures Walk(s, ["a", "b"]) == Some([Span(6, end), Span(12, 15)])
  {
    hide KeyOpen, CloseFrom, TokenEnd;
    SkewedKeys(s);
    SkewedCloses(s, end);
    KeyOpenAgree(s, s[..end], 12, 6, "b");
    assert FirstKeyOpen(s, 0, "a") == Some(6);
    assert ChildFrom(s, 6, end, 0, "b") == Some(12);
    assert ["a", "b"][1..] == ["b"] && ["b"][1..] == [];
    assert Descend(s, Span(12, 15), []) == Some([Span(12, 15)]);
    assert Descend(s, Span(6, end), ["b"]) == Some([Span(6, end)] + [Span(12, 15)]);
    assert [Span(6, end)] + [Span(12, 15)] == [Span(6, end), Span(12, 15)];
  }

  lemma SkewedKeys(s: string)
    requires s == SKEWED || s == "'a'=>['b\"=>[']']']"
    ensures KeyOpen(s, 0, "a") == Some(6) && KeyOpen(s, 6, "b") == Some(12)
  {
    ShortKeyOpens(s, 0, 'a');
    ShortKeyOpens(s, 6, 'b');
  }

  // A key of one byte, its arrow and its opener, with nothing in between.
  lemma ShortKeyOpens(s: string, i: nat, key: char)
    requires i + 6 <= |s| && IsQuote(s[i]) && s[i + 1] == key && IsQuote(s[i + 2])
    requires s[i + 3] == '=' && s[i + 4] == '>' && s[i + 5] == '['
    ensures KeyOpen(s, i, [key]) == Some(i + 6)
  {
    hide SkipSpace;
    SkipNothing(s, i + 3);
    SkipNothing(s, i + 5);
    assert s[i + 1..i + 2] == [s[i + 1]] && s[i + 3..i + 5] == [s[i + 3], s[i + 4]] && s[i + 5..i + 6] == [s[i + 5]];
  }

  lemma SkewedCloses(s: string, end: nat)
    requires (s == SKEWED && end == 17) || (s == "'a'=>['b\"=>[']']']" && end == 13)
    ensures CloseFrom(s, 6, 1, '[', ']') == Some(end) && CloseFrom(s, 12, 1, '[', ']') == Some(15)
  {
    hide TokenEnd;
    SkewedTokens(s);
    OneByte(s, 13);
    assert s[6] == '\'' && s[12] == '\'' && s[14] == '\'' && s[15] == ']' && s[17] == ']';
    assert s[13] == 'x' || s[13] == ']';
    CloseStep(s, 12, 1, '[', ']');
    CloseStep(s, 6, 1, '[', ']');
    CloseStep(s, 13, 1, '[', ']');
    CloseStep(s, 14, 1, '[', ']');
  }
}
