/** Matching planned against live records, and the guard of a replace, in
    cmd/cpanel-self-migration/dns_apply_cmd.go. */
module DnsPrecondition {
  import opened Text
  import opened DnsNames
  import opened DnsText
  import opened DnsZone

  datatype Action = Add | Replace | Skip | Manual | Unknown

  // A planned decision for one rrset; `destValues` are the destination's values at plan time.
  datatype PlanOp = PlanOp(action: Action, typ: string, name: string, records: seq<PlanRecord>, destValues: seq<string>)

  predicate EqualFold(a: string, b: string) { Lower(a) == Lower(b) }

  predicate SameHost(a: string, b: string) {
    TrimSuffix(Lower(a), ".") == TrimSuffix(Lower(b), ".")
  }

  // dnsDataMatch
  predicate DataMatch(planned: PlanRecord, live: Record) {
    if planned.typ == "A" || planned.typ == "AAAA" then |planned.data| >= 1 && EqualFold(planned.data[0], live.address)
    else if planned.typ == "CNAME" then |planned.data| >= 1 && SameHost(planned.data[0], live.target)
    else if planned.typ == "MX" then
      |planned.data| >= 2 && Itoa(live.priority) == planned.data[0] && SameHost(planned.data[1], live.exchange)
    else if planned.typ == "TXT" then Join(planned.data) == live.txt
    else false
  }

  // strings.SplitN(v, "\x00", 2), when it yields two parts
  function SplitNul(v: string): Option<(string, string)> {
    if v == "" then None
    else if v[0] == '\0' then Some(("", v[1..]))
    else
      match SplitNul(v[1..])
      case None => None
      case Some(p) => Some(([v[0]] + p.0, p.1))
  }

  // dnsLiveMatchesCanonValue
  predicate LiveMatchesValue(live: Record, value: string) {
    if live.typ == "A" || live.typ == "AAAA" then EqualFold(live.address, value)
    else if live.typ == "CNAME" then SameHost(live.target, value)
    else if live.typ == "MX" then
      match SplitNul(value)
      case None => false
      case Some(p) => Itoa(live.priority) == p.0 && SameHost(live.exchange, p.1)
    else if live.typ == "TXT" then live.txt == value
    else false
  }

  predicate InSet(live: Record, typ: string, name: string, zone: string) {
    EqualFold(live.typ, typ) && LiveName(live.name, zone) == Lower(name)
  }

  // dnsRecordPresent
  predicate RecordPresent(rec: PlanRecord, live: seq<Live>, zone: string) {
    exists k :: 0 <= k < |live| && InSet(live[k].rec, rec.typ, rec.name, zone) && DataMatch(rec, live[k].rec)
  }

  method DnsRecordPresent(rec: PlanRecord, live: seq<Live>, zone: string) returns (r: bool)
    ensures r == RecordPresent(rec, live, zone)
  {
    for k := 0 to |live|
      invariant forall j :: 0 <= j < k ==> !(InSet(live[j].rec, rec.typ, rec.name, zone) && DataMatch(rec, live[j].rec))
    {
      if EqualFold(live[k].rec.typ, rec.typ) {
        if LiveName(live[k].rec.name, zone) == Lower(rec.name) && DataMatch(rec, live[k].rec) {
          return true;
        }
      }
    }
    return false;
  }

  predicate AllPresent(records: seq<PlanRecord>, live: seq<Live>, zone: string) {
    forall k :: 0 <= k < |records| ==> RecordPresent(records[k], live, zone)
  }

  method DnsAllPresent(records: seq<PlanRecord>, live: seq<Live>, zone: string) returns (r: bool)
    ensures r == AllPresent(records, live, zone)
  {
    for k := 0 to |records|
      invariant forall j :: 0 <= j < k ==> RecordPresent(records[j], live, zone)
    {
      var here := DnsRecordPresent(records[k], live, zone);
      if !here {
        return false;
      }
    }
    return true;
  }

  // ---------------------------------------------------------------- the guard of a replace

  datatype Reason = Missing | NoPlanValues | CountDrift | ValueDrift

  datatype Verdict = AlreadyPresent | Refused(reason: Reason) | Proceed(lines: seq<nat>)

  function Matching(live: seq<Live>, op: PlanOp, zone: string): seq<Live> {
    if live == [] then []
    else
      var last := live[|live| - 1];
      Matching(live[..|live| - 1], op, zone) + (if InSet(last.rec, op.typ, op.name, zone) then [last] else [])
  }

  lemma {:induction false} MatchingHolds(live: seq<Live>, op: PlanOp, zone: string)
    ensures forall f :: f in Matching(live, op, zone) <==> f in live && InSet(f.rec, op.typ, op.name, zone)
  {
    hide InSet;
    if live != [] {
      MatchingHolds(live[..|live| - 1], op, zone);
      assert live == live[..|live| - 1] + [live[|live| - 1]];
    }
  }

  // The first record whose line is not used yet and that has the value.
  function FirstUnused(matching: seq<Live>, value: string, used: set<nat>): (r: Option<nat>)
    ensures r.Some? ==> r.value !in used &&
                        exists k :: 0 <= k < |matching| && matching[k].line == r.value && LiveMatchesValue(matching[k].rec, value)
    ensures r.None? ==> forall k :: 0 <= k < |matching| && matching[k].line !in used ==> !LiveMatchesValue(matching[k].rec, value)
  {
    if matching == [] then None
    else if matching[0].line !in used && LiveMatchesValue(matching[0].rec, value) then Some(matching[0].line)
    else
      var r := FirstUnused(matching[1..], value, used);
      assert r.Some? ==> exists k :: 0 <= k < |matching| && matching[k].line == r.value && LiveMatchesValue(matching[k].rec, value) by {
        if r.Some? {
          var k :| 0 <= k < |matching[1..]| && matching[1..][k].line == r.value && LiveMatchesValue(matching[1..][k].rec, value);
          assert matching[k + 1] == matching[1..][k];
        }
      }
      r
  }

  // A line for every value, each line used once.
  function Assigned(matching: seq<Live>, values: seq<string>, used: set<nat>): Option<seq<nat>> {
    if values == [] then Some([])
    else
      match FirstUnused(matching, values[0], used)
      case None => None
      case Some(line) =>
        match Assigned(matching, values[1..], used + {line})
        case None => None
        case Some(rest) => Some([line] + rest)
  }

  // dnsReplacePrecondition
  function Precondition(op: PlanOp, live: seq<Live>, zone: string): Verdict {
    var matching := Matching(live, op, zone);
    if matching == [] then Refused(Missing)
    else if op.destValues == [] then Refused(NoPlanValues)
    else if |matching| != |op.destValues| then Refused(CountDrift)
    else if AllPresent(op.records, matching, zone) then AlreadyPresent
    else
      match Assigned(matching, op.destValues, {})
      case None => Refused(ValueDrift)
      case Some(lines) => Proceed(lines)
  }

  method DnsReplacePrecondition(op: PlanOp, live: seq<Live>, zone: string) returns (v: Verdict)
    ensures v == Precondition(op, live, zone)
  {
    hide Matching, AllPresent, Assigned;
    var matching := CollectMatching(live, op, zone);
    if |matching| == 0 {
      return Refused(Missing);
    }
    if |op.destValues| == 0 {
      return Refused(NoPlanValues);
    }
    if |matching| != |op.destValues| {
      return Refused(CountDrift);
    }
    var present := DnsAllPresent(op.records, matching, zone);
    if present {
      return AlreadyPresent;
    }
    var lines, found := AssignLines(matching, op.destValues);
    return if found then Proceed(lines) else Refused(ValueDrift);
  }

  method CollectMatching(live: seq<Live>, op: PlanOp, zone: string) returns (matching: seq<Live>)
    ensures matching == Matching(live, op, zone)
  {
    hide InSet;
    matching := [];
    for k := 0 to |live|
      invariant matching == Matching(live[..k], op, zone)
    {
      assert live[..k + 1][..k] == live[..k];
      if InSet(live[k].rec, op.typ, op.name, zone) {
        matching := matching + [live[k]];
      }
    }
    assert live[..|live|] == live;
  }

  // The nested loops that fill `lines` and `usedLines`.
  method AssignLines(matching: seq<Live>, values: seq<string>) returns (lines: seq<nat>, found: bool)
    ensures Assigned(matching, values, {}) == if found then Some(lines) else None
  {
    hide FirstUnused, Assigned;
    lines := [];
    var usedLines := {};
    assert values[0..] == values;
    for d := 0 to |values|
      invariant Assigned(matching, values, {}).Some? == Assigned(matching, values[d..], usedLines).Some?
      invariant Assigned(matching, values, {}).Some? ==>
        Assigned(matching, values, {}).value == lines + Assigned(matching, values[d..], usedLines).value
    {
      var line := FindUnused(matching, values[d], usedLines);
      AssignedStep(matching, values, d, usedLines);
      if line.None? {
        return [], false;
      }
      lines := lines + [line.value];
      usedLines := usedLines + {line.value};
    }
    assert values[|values|..] == [];
    AssignedNothing(matching, usedLines);
    assert lines + [] == lines;
    return lines, true;
  }

  lemma AssignedNothing(matching: seq<Live>, used: set<nat>)
    ensures Assigned(matching, [], used) == Some([])
  {
  }

  lemma AssignedStep(matching: seq<Live>, values: seq<string>, d: nat, used: set<nat>)
    requires d < |values|
    ensures var first, all := FirstUnused(matching, values[d], used), Assigned(matching, values[d..], used);
            && (first.None? ==> all.None?)
            && (first.Some? ==> var rest := Assigned(matching, values[d + 1..], used + {first.value});
                                all.Some? == rest.Some? && (rest.Some? ==> all.value == [first.value] + rest.value))
  {
    hide FirstUnused;
    assert values[d..][1..] == values[d + 1..];
  }

  method FindUnused(matching: seq<Live>, value: string, used: set<nat>) returns (r: Option<nat>)
    ensures r == FirstUnused(matching, value, used)
  {
    hide LiveMatchesValue;
    for k := 0 to |matching|
      invariant FirstUnused(matching, value, used) == FirstUnused(matching[k..], value, used)
    {
      assert matching[k..][0] == matching[k] && matching[k..][1..] == matching[k + 1..];
      if matching[k].line !in used && LiveMatchesValue(matching[k].rec, value) {
        return Some(matching[k].line);
      }
    }
    return None;
  }

  // ---------------------------------------------------------------- what the guard decides

  // What the comparisons look at, once case and trailing dots are gone. `NoForm` equals nothing on the
  // other side.
  datatype Form = Address(s: string) | Host(s: string) | Mail(preference: string, s: string) | Text(s: string) | NoForm(live: bool)

  function HostForm(s: string): string { TrimSuffix(Lower(s), ".") }

  function LiveForm(typ: string, live: Record): Form {
    if typ == "A" || typ == "AAAA" then Address(Lower(live.address))
    else if typ == "CNAME" then Host(HostForm(live.target))
    else if typ == "MX" then Mail(Itoa(live.priority), HostForm(live.exchange))
    else if typ == "TXT" then Text(live.txt)
    else NoForm(true)
  }

  function ValueForm(typ: string, value: string): Form {
    if typ == "A" || typ == "AAAA" then Address(Lower(value))
    else if typ == "CNAME" then Host(HostForm(value))
    else if typ == "MX" then
      match SplitNul(value) case None => NoForm(false) case Some(p) => Mail(p.0, HostForm(p.1))
    else if typ == "TXT" then Text(value)
    else NoForm(false)
  }

  function PlannedForm(p: PlanRecord): Form {
    if p.typ == "A" || p.typ == "AAAA" then if |p.data| < 1 then NoForm(false) else Address(Lower(p.data[0]))
    else if p.typ == "CNAME" then if |p.data| < 1 then NoForm(false) else Host(HostForm(p.data[0]))
    else if p.typ == "MX" then if |p.data| < 2 then NoForm(false) else Mail(p.data[0], HostForm(p.data[1]))
    else if p.typ == "TXT" then Text(Join(p.data))
    else NoForm(false)
  }

  lemma MatchesByForm(live: Record, value: string, planned: PlanRecord)
    ensures LiveMatchesValue(live, value) <==> LiveForm(live.typ, live) == ValueForm(live.typ, value)
    ensures DataMatch(planned, live) <==> PlannedForm(planned) == LiveForm(planned.typ, live)
  {
  }

  // A record type the tool writes, in the case it writes it.
  predicate Writable(typ: string) { typ in {"A", "AAAA", "CNAME", "MX", "TXT"} }

  // A live record whose type is not one of these never matches a value.
  function SetForm(f: Record): Form {
    if Writable(f.typ) then LiveForm(f.typ, f) else NoForm(true)
  }

  ghost predicate DistinctLines(s: seq<Live>) {
    forall j, k :: 0 <= j < k < |s| ==> s[j].line != s[k].line
  }

  function LinesOf(s: seq<Live>): set<nat> { set f | f in s :: f.line }

  // The comparable forms of the records whose lines are still free.
  function FreeForms(matching: seq<Live>, used: set<nat>): multiset<Form> {
    if matching == [] then multiset{}
    else (if matching[0].line in used then multiset{} else multiset{SetForm(matching[0].rec)}) + FreeForms(matching[1..], used)
  }

  function ValueForms(typ: string, values: seq<string>): multiset<Form> {
    if values == [] then multiset{} else multiset{ValueForm(typ, values[0])} + ValueForms(typ, values[1..])
  }

  // All records are of one rrset of a writable type, up to the case of their own type.
  ghost predicate OfType(matching: seq<Live>, typ: string) {
    Writable(typ) && forall k :: 0 <= k < |matching| ==> EqualFold(matching[k].rec.typ, typ)
  }

  lemma MatchesInSet(f: Record, typ: string, value: string)
    requires Writable(typ) && EqualFold(f.typ, typ)
    ensures LiveMatchesValue(f, value) <==> SetForm(f) == ValueForm(typ, value)
  {
  }

  lemma {:induction false} TakeLine(matching: seq<Live>, used: set<nat>, line: nat, k: nat)
    requires DistinctLines(matching) && k < |matching| && matching[k].line == line && line !in used
    ensures FreeForms(matching, used) == FreeForms(matching, used + {line}) + multiset{SetForm(matching[k].rec)}
  {
    if k == 0 {
      SameFree(matching[1..], used, line);
    } else {
      TakeLine(matching[1..], used, line, k - 1);
    }
  }

  lemma {:induction false} SameFree(matching: seq<Live>, used: set<nat>, line: nat)
    requires forall k :: 0 <= k < |matching| ==> matching[k].line != line
    ensures FreeForms(matching, used + {line}) == FreeForms(matching, used)
  {
    if matching != [] {
      SameFree(matching[1..], used, line);
    }
  }

  lemma {:induction false} FreeFormHasLine(matching: seq<Live>, used: set<nat>, form: Form)
    ensures form in FreeForms(matching, used) <==>
      exists k :: 0 <= k < |matching| && matching[k].line !in used && SetForm(matching[k].rec) == form
  {
    if matching != [] {
      FreeFormHasLine(matching[1..], used, form);
      if k :| 0 <= k < |matching| && matching[k].line !in used && SetForm(matching[k].rec) == form {
        if k > 0 {
          assert matching[1..][k - 1] == matching[k];
        }
      }
      if k :| 0 <= k < |matching[1..]| && matching[1..][k].line !in used && SetForm(matching[1..][k].rec) == form {
        assert matching[k + 1] == matching[1..][k];
      }
    }
  }

  // The greedy assignment finds a line for every value exactly when the values' forms are among the free
  // ones, and the lines it returns are free and pairwise distinct.
  lemma {:induction false} AssignedByForms(matching: seq<Live>, values: seq<string>, used: set<nat>, typ: string)
    requires DistinctLines(matching) && OfType(matching, typ)
    ensures Assigned(matching, values, used).Some? <==> ValueForms(typ, values) <= FreeForms(matching, used)
    ensures Assigned(matching, values, used).Some? ==>
              var lines := Assigned(matching, values, used).value;
              && |lines| == |values| && (forall l :: l in lines ==> l in LinesOf(matching) && l !in used)
              && (forall i, j :: 0 <= i < j < |lines| ==> lines[i] != lines[j])
    decreases |values|
  {
    hide LiveMatchesValue, SetForm, ValueForm, Writable, EqualFold, FreeForms, FirstUnused;
    if values != [] {
      var form := ValueForm(typ, values[0]);
      forall k | 0 <= k < |matching| ensures LiveMatchesValue(matching[k].rec, values[0]) <==> SetForm(matching[k].rec) == form {
        MatchesInSet(matching[k].rec, typ, values[0]);
      }
      FreeFormHasLine(matching, used, form);
      var first := FirstUnused(matching, values[0], used);
      if first.Some? {
        var line := first.value;
        var k :| 0 <= k < |matching| && matching[k].line == line && LiveMatchesValue(matching[k].rec, values[0]);
        TakeLine(matching, used, line, k);
        AssignedByForms(matching, values[1..], used + {line}, typ);
        assert matching[k] in matching;
        OneMore(ValueForms(typ, values[1..]), FreeForms(matching, used + {line}), form);
      } else {
        assert form in ValueForms(typ, values);
        assert form !in FreeForms(matching, used);
      }
    }
  }

  lemma OneMore<T>(a: multiset<T>, b: multiset<T>, x: T)
    ensures a + multiset{x} <= b + multiset{x} <==> a <= b
  {
    forall f | a + multiset{x} <= b + multiset{x} ensures a[f] <= b[f] {
      assert (a + multiset{x})[f] <= (b + multiset{x})[f];
    }
  }

  lemma {:induction false} DistinctCount(lines: seq<nat>)
    requires forall i, j :: 0 <= i < j < |lines| ==> lines[i] != lines[j]
    ensures |Indexes(lines)| == |lines|
  {
    if lines != [] {
      var last := lines[|lines| - 1];
      DistinctCount(lines[..|lines| - 1]);
      assert Indexes(lines) == Indexes(lines[..|lines| - 1]) + {last};
    }
  }

  lemma LineCount(s: seq<Live>)
    requires DistinctLines(s)
    ensures |LinesOf(s)| == |s|
  {
    var lines := seq(|s|, i requires 0 <= i < |s| => s[i].line);
    DistinctCount(lines);
    assert Indexes(lines) == LinesOf(s) by {
      forall l | l in lines ensures l in LinesOf(s) {
        var i :| 0 <= i < |lines| && lines[i] == l;
        assert s[i] in s;
      }
      forall f | f in s ensures f.line in Indexes(lines) {
        var i :| 0 <= i < |s| && s[i] == f;
        assert lines[i] == f.line;
      }
    }
  }

  lemma {:induction false} MatchingDistinct(live: seq<Live>, op: PlanOp, zone: string)
    requires DistinctLines(live)
    ensures DistinctLines(Matching(live, op, zone))
  {
    hide InSet;
    if live != [] {
      var rest := live[..|live| - 1];
      MatchingDistinct(rest, op, zone);
      MatchingHolds(rest, op, zone);
      forall f | f in Matching(rest, op, zone) ensures f.line != live[|live| - 1].line {
        var k :| 0 <= k < |rest| && rest[k] == f;
        assert live[k] == f;
      }
    }
  }

  // Nothing outside the writable types is ever matched, whatever the case of the plan's type.
  lemma {:induction false} UnwritableAssignsNothing(matching: seq<Live>, values: seq<string>, used: set<nat>)
    requires values != [] && forall k :: 0 <= k < |matching| ==> !Writable(matching[k].rec.typ)
    ensures Assigned(matching, values, used).None?
  {
    assert forall k :: 0 <= k < |matching| ==> !LiveMatchesValue(matching[k].rec, values[0]);
  }

  // The writable type that `typ` names, if there is one.
  function WritableType(typ: string): (r: Option<string>)
    ensures r.Some? ==> Writable(r.value) && EqualFold(r.value, typ)
    ensures r.None? ==> forall t :: Writable(t) ==> !EqualFold(t, typ)
  {
    if EqualFold("A", typ) then Some("A") else if EqualFold("AAAA", typ) then Some("AAAA")
    else if EqualFold("CNAME", typ) then Some("CNAME") else if EqualFold("MX", typ) then Some("MX")
    else if EqualFold("TXT", typ) then Some("TXT") else None
  }

  // A replace that may proceed removes exactly the lines of the live rrset, each once: as many values as
  // lines, no line twice, so no line is left out.
  lemma ProceedTakesTheWholeSet(op: PlanOp, live: seq<Live>, zone: string)
    requires DistinctLines(live) && Precondition(op, live, zone).Proceed?
    ensures var lines := Precondition(op, live, zone).lines;
            && (forall i, j :: 0 <= i < j < |lines| ==> lines[i] != lines[j])
            && (forall l :: l in lines <==> exists f :: f in live && f.line == l && InSet(f.rec, op.typ, op.name, zone))
            && WritableType(op.typ).Some?
  {
    hide InSet, Matching, Assigned, AllPresent;
    var matching := Matching(live, op, zone);
    var lines := Precondition(op, live, zone).lines;
    MatchingHolds(live, op, zone);
    MatchingDistinct(live, op, zone);
    TypesOfMatching(op, live, zone);
    if WritableType(op.typ).None? {
      UnwritableAssignsNothing(matching, op.destValues, {});
    }
    AssignedByForms(matching, op.destValues, {}, WritableType(op.typ).value);
    DistinctCount(lines);
    LineCount(matching);
    SubsetOfSameSize(Indexes(lines), LinesOf(matching));
    assert forall l :: l in lines <==> l in Indexes(lines);
  }

  lemma TypesOfMatching(op: PlanOp, live: seq<Live>, zone: string)
    ensures var m := Matching(live, op, zone);
            && (WritableType(op.typ).Some? ==> OfType(m, WritableType(op.typ).value))
            && (WritableType(op.typ).None? ==> forall k :: 0 <= k < |m| ==> !Writable(m[k].rec.typ))
  {
    hide Matching, WritableType, Writable;
    var m := Matching(live, op, zone);
    MatchingHolds(live, op, zone);
    forall k | 0 <= k < |m| ensures EqualFold(m[k].rec.typ, op.typ) {
      assert m[k] in m;
    }
  }

  // Once the rrset is there, has the planned number of values and lacks one of the desired records, the
  // guard refuses exactly when live and plan-time values differ as multisets of comparable forms.
  lemma RefusesOnlyOnDrift(op: PlanOp, live: seq<Live>, zone: string)
    requires DistinctLines(live) && WritableType(op.typ).Some?
    requires var m := Matching(live, op, zone); m != [] && |m| == |op.destValues| && !AllPresent(op.records, m, zone)
    ensures Precondition(op, live, zone).Proceed? <==>
      ValueForms(WritableType(op.typ).value, op.destValues) == FreeForms(Matching(live, op, zone), {})
    ensures !Precondition(op, live, zone).Proceed? ==> Precondition(op, live, zone) == Refused(ValueDrift)
  {
    hide InSet, Matching, Assigned, AllPresent, WritableType;
    var m, typ := Matching(live, op, zone), WritableType(op.typ).value;
    MatchingDistinct(live, op, zone);
    TypesOfMatching(op, live, zone);
    AssignedByForms(m, op.destValues, {}, typ);
    ValueFormCount(typ, op.destValues);
    FreeFormCount(m);
    if ValueForms(typ, op.destValues) <= FreeForms(m, {}) {
      assert |FreeForms(m, {}) - ValueForms(typ, op.destValues)| == 0;
    }
  }

  lemma {:induction false} ValueFormCount(typ: string, values: seq<string>)
    ensures |ValueForms(typ, values)| == |values|
  {
    if values != [] {
      ValueFormCount(typ, values[1..]);
    }
  }

  lemma {:induction false} FreeFormCount(m: seq<Live>)
    ensures |FreeForms(m, {})| == |m|
  {
    if m != [] {
      FreeFormCount(m[1..]);
    }
  }

  // Every verdict of the guard, in the order it looks.
  lemma PreconditionMeans(op: PlanOp, live: seq<Live>, zone: string)
    ensures var m, v := Matching(live, op, zone), Precondition(op, live, zone);
            var same := m != [] && op.destValues != [] && |m| == |op.destValues|;
            && (v == Refused(Missing) <==> forall f :: f in live ==> !InSet(f.rec, op.typ, op.name, zone))
            && (v == Refused(NoPlanValues) <==> m != [] && op.destValues == [])
            && (v == Refused(CountDrift) <==> m != [] && op.destValues != [] && |m| != |op.destValues|)
            && (v == AlreadyPresent <==> same && AllPresent(op.records, m, zone))
            && (v == Refused(ValueDrift) || v.Proceed? <==> same && !AllPresent(op.records, m, zone))
  {
    hide InSet, Matching, Assigned, AllPresent;
    MatchingHolds(live, op, zone);
    if Matching(live, op, zone) != [] {
      assert Matching(live, op, zone)[0] in Matching(live, op, zone);
    }
  }

  // "Already present" says that every desired record is live and that the rrset has as many records as at
  // plan time; it does not say that nothing else is live.
  lemma AlreadyPresentIsContainment(op: PlanOp, live: seq<Live>, zone: string)
    requires Precondition(op, live, zone) == AlreadyPresent
    ensures AllPresent(op.records, live, zone) && |Matching(live, op, zone)| == |op.destValues|
  {
    hide DataMatch;
    var m := Matching(live, op, zone);
    MatchingHolds(live, op, zone);
    forall k | 0 <= k < |op.records| ensures RecordPresent(op.records[k], live, zone) {
      var j :| 0 <= j < |m| && InSet(m[j].rec, op.records[k].typ, op.records[k].name, zone) && DataMatch(op.records[k], m[j].rec);
      assert m[j] in live;
    }
  }

  lemma {:induction false} ValueFormsHaveForm(typ: string, values: seq<string>)
    ensures NoForm(true) !in ValueForms(typ, values)
  {
    if values != [] {
      ValueFormsHaveForm(typ, values[1..]);
    }
  }

  // ... and all of them are of one writable type, spelled as the tool writes it.
  lemma ProceedIsWritable(op: PlanOp, live: seq<Live>, zone: string)
    requires DistinctLines(live) && Precondition(op, live, zone).Proceed?
    ensures forall f :: f in Matching(live, op, zone) ==> Writable(f.rec.typ)
    ensures Matching(live, op, zone) != [] && op.records != []
  {
    hide InSet, Matching, Assigned, WritableType, ValueForm;
    var m := Matching(live, op, zone);
    ProceedTakesTheWholeSet(op, live, zone);
    RefusesOnlyOnDrift(op, live, zone);
    ValueFormsHaveForm(WritableType(op.typ).value, op.destValues);
    forall f | f in m ensures Writable(f.rec.typ) {
      FreeFormHasLine(m, {}, SetForm(f.rec));
      var k :| 0 <= k < |m| && m[k] == f;
      assert SetForm(f.rec) in FreeForms(m, {});
    }
  }
}
