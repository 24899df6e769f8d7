/** The offline verifier: internal/accountinventory/dnsverify.go, and what it says of a plan's own
    destination, before and after the plan was applied. */
module DnsVerify {
  import opened Text
  import opened Sorting
  import opened DnsNames
  import opened DnsText
  import opened DnsZone
  import opened DnsPrecondition
  import opened DnsPlan
  import DnsApply

  datatype Verdict = Applied | Unchanged | Pending | Drift | ManualReview | NotChecked

  // The comparable value of a write-shaped record; None if its data is malformed.
  function DesiredValue(r: PlanRecord): Option<string> {
    if r.data == [] then None
    else if r.typ == "MX" then if |r.data| == 2 then Some(r.data[0] + "\0" + r.data[1]) else None
    else if r.typ == "TXT" then Some(Join(r.data))
    else if |r.data| == 1 then Some(r.data[0]) else None
  }

  function DesiredOf(records: seq<PlanRecord>): Option<seq<string>> {
    if records == [] then Some([])
    else
      var n := |records| - 1;
      match DesiredOf(records[..n])
      case None => None
      case Some(vals) =>
        match DesiredValue(records[n])
        case None => None
        case Some(v) => Some(vals + [v])
  }

  // desiredValues
  function DesiredValues(records: seq<PlanRecord>): Option<seq<string>> {
    if records == [] then None
    else
      match DesiredOf(records)
      case None => None
      case Some(vals) => Some(SortStrings(vals))
  }

  method ComputeDesired(records: seq<PlanRecord>) returns (r: Option<seq<string>>)
    ensures r == DesiredValues(records)
  {
    if |records| == 0 {
      return None;
    }
    var vals := [];
    for i := 0 to |records|
      invariant DesiredOf(records[..i]) == Some(vals)
      invariant DesiredOf(records).None? || forall j :: 0 <= j < i ==> DesiredValue(records[j]).Some?
    {
      assert records[..i + 1][..i] == records[..i];
      var v := DesiredValue(records[i]);
      if v.None? {
        BadRecord(records, i);
        return None;
      }
      vals := vals + [v.value];
    }
    assert records[..|records|] == records;
    return Some(SortStrings(vals));
  }

  lemma {:induction false} BadRecord(records: seq<PlanRecord>, i: nat)
    requires i < |records| && DesiredValue(records[i]).None?
    ensures DesiredOf(records).None?
  {
    if i < |records| - 1 {
      BadRecord(records[..|records| - 1], i);
    }
  }

  // verifyOp, on the live rrset under the op's key; an empty group is an absent rrset.
  function VerifyOp(op: PlanOp, group: seq<Record>, c: Context): Verdict {
    var present, observed := group != [], SortedValues(group, c);
    match op.action
    case Manual => ManualReview
    case Skip =>
      if op.typ == "SOA" || IsHostValidation(op.name) then NotChecked
      else if op.destValues == [] then Drift
      else if present && observed == op.destValues then Unchanged
      else Drift
    case Unknown => Drift
    case _ =>
      match DesiredValues(op.records)
      case None => Drift
      case Some(desired) =>
        if present && observed == desired then Applied
        else if op.action == Add && !present then Pending
        else if op.action == Replace && present && observed == op.destValues then Pending
        else Drift
  }

  // ---------------------------------------------------------------- what a verdict means

  // The live rrset holds exactly these values, in whatever order.
  ghost predicate HoldsExactly(group: seq<Record>, values: seq<string>, c: Context) {
    group != [] && multiset(Values(group, c)) == multiset(values)
  }

  // The records of the op are well shaped; what each of them is to say.
  ghost predicate WellShaped(op: PlanOp) {
    op.records != [] && forall i :: 0 <= i < |op.records| ==> DesiredValue(op.records[i]).Some?
  }

  ghost function Desires(op: PlanOp): seq<string>
    requires WellShaped(op)
  {
    seq(|op.records|, i requires 0 <= i < |op.records| => DesiredValue(op.records[i]).value)
  }

  ghost predicate Fulfilled(op: PlanOp, group: seq<Record>, c: Context) {
    WellShaped(op) && HoldsExactly(group, Desires(op), c)
  }

  // The live rrset is what the plan noted: absent for an add, else the noted values, which a plan lists in order.
  ghost predicate AsNoted(op: PlanOp, group: seq<Record>, c: Context) {
    if op.action == Add then group == [] else HoldsExactly(group, op.destValues, c) && SortStrings(op.destValues) == op.destValues
  }

  predicate NeverCompared(op: PlanOp) { op.typ == "SOA" || IsHostValidation(op.name) }

  // Every verdict, whatever has become of the rrset since the plan was made.
  lemma VerdictMeans(op: PlanOp, group: seq<Record>, c: Context)
    ensures var v, write := VerifyOp(op, group, c), op.action == Add || op.action == Replace;
            && (v == ManualReview <==> op.action == Manual)
            && (v == NotChecked <==> op.action == Skip && NeverCompared(op))
            && (v == Applied <==> write && Fulfilled(op, group, c))
            && (v == Pending <==> write && WellShaped(op) && !Fulfilled(op, group, c) && AsNoted(op, group, c))
            && (v == Unchanged <==> op.action == Skip && !NeverCompared(op) && AsNoted(op, group, c))
            && (v == Drift <==>
                  (op.action == Unknown || (op.action == Skip && !NeverCompared(op) && !AsNoted(op, group, c))
                   || (write && !Fulfilled(op, group, c) && !(WellShaped(op) && AsNoted(op, group, c)))))
  {
    hide DesiredValues, WellShaped, Fulfilled, AsNoted, NeverCompared, SortedValues;
    if op.action == Skip && !NeverCompared(op) {
      SkipVerdict(op, group, c);
    } else if op.action == Skip {
      assert VerifyOp(op, group, c) == NotChecked by { NotComparedVerdict(op, group, c); }
    } else if op.action == Add || op.action == Replace {
      WriteVerdict(op, group, c);
    }
  }

  lemma NotComparedVerdict(op: PlanOp, group: seq<Record>, c: Context)
    requires op.action == Skip && NeverCompared(op)
    ensures VerifyOp(op, group, c) == NotChecked
  {
  }

  lemma SkipVerdict(op: PlanOp, group: seq<Record>, c: Context)
    requires op.action == Skip && !NeverCompared(op)
    ensures VerifyOp(op, group, c) == if AsNoted(op, group, c) then Unchanged else Drift
  {
    hide Values, IsHostValidation, SortStrings;
    NotedIs(group, op.destValues, c);
  }

  lemma WriteVerdict(op: PlanOp, group: seq<Record>, c: Context)
    requires op.action == Add || op.action == Replace
    ensures VerifyOp(op, group, c) ==
            if Fulfilled(op, group, c) then Applied else if WellShaped(op) && AsNoted(op, group, c) then Pending else Drift
  {
    hide DesiredValues, Desires, WellShaped, Values, SortStrings;
    DesiredIs(op);
    if WellShaped(op) {
      SortStringsEqual(Values(group, c), Desires(op));
    }
    NotedIs(group, op.destValues, c);
  }

  // Comparing the sorted values of a live rrset with noted ones.
  lemma NotedIs(group: seq<Record>, noted: seq<string>, c: Context)
    ensures group != [] ==> noted == [] ==> SortedValues(group, c) != noted
    ensures group != [] && SortedValues(group, c) == noted <==> HoldsExactly(group, noted, c) && SortStrings(noted) == noted
    ensures group != [] && HoldsExactly(group, noted, c) ==> noted != []
  {
    assert |SortedValues(group, c)| == |group|;
    assert |multiset(Values(group, c))| == |group|;
    hide SortStrings, Values;
    SortStringsEqual(Values(group, c), noted);
    SortStringsEqual(SortStrings(Values(group, c)), Values(group, c));
  }

  lemma DesiredIs(op: PlanOp)
    ensures DesiredValues(op.records).Some? <==> WellShaped(op)
    ensures WellShaped(op) ==> DesiredValues(op.records) == Some(SortStrings(Desires(op)))
  {
    hide DesiredValue, SortStrings;
    if DesiredOf(op.records).Some? {
      DesiredPoints(op.records);
      assert WellShaped(op) ==> DesiredOf(op.records).value == Desires(op);
    } else if WellShaped(op) {
      AllDesired(op.records);
    }
  }

  lemma {:induction false} AllDesired(records: seq<PlanRecord>)
    requires forall i :: 0 <= i < |records| ==> DesiredValue(records[i]).Some?
    ensures DesiredOf(records).Some?
  {
    hide DesiredValue;
    if records != [] {
      AllDesired(records[..|records| - 1]);
    }
  }

  // ---------------------------------------------------------------- the encoding and its inverse

  lemma TranslationInverts(r: Record, typ: string, c: Context)
    requires Writable(typ) && Translate(r, typ, c).Some?
    ensures var t := Translate(r, typ, c).value;
            t.record.typ == typ && DesiredValue(t.record) == Some(t.value)
  {
    hide Segments, Join, PlanName, Itoa, CappedTTL;
    SegmentsRejoin(r.txt);
  }

  lemma {:induction false} DesiredInOrder(ts: seq<Translated>)
    requires forall i :: 0 <= i < |ts| ==> DesiredValue(ts[i].record) == Some(ts[i].value)
    ensures DesiredOf(TranslatedRecords(ts)) == Some(TranslatedValues(ts))
  {
    hide DesiredValue;
    if ts != [] {
      var n := |ts| - 1;
      DesiredInOrder(ts[..n]);
      assert TranslatedRecords(ts)[..n] == TranslatedRecords(ts[..n]);
      assert TranslatedValues(ts) == TranslatedValues(ts[..n]) + [ts[n].value];
    }
  }

  // The desired values depend on the records as a multiset only.
  lemma {:induction false} DesiredPermuted(a: seq<PlanRecord>, b: seq<PlanRecord>)
    requires multiset(a) == multiset(b) && DesiredOf(a).Some?
    ensures DesiredOf(b).Some? && multiset(DesiredOf(b).value) == multiset(DesiredOf(a).value)
    decreases |a|
  {
    hide DesiredOf, DesiredValue;
    if b == [] {
      assert |a| == |multiset(a)| == 0;
      assert b == a;
    } else {
      var i, rest, front := TakeLast(a, b);
      DesiredWithout(a, i);
      assert |a| == |multiset(a)| == |multiset(b)| == |b|;
      DesiredPermuted(rest, front);
      DesiredLast(b, |b| - 1);
    }
  }

  lemma DesiredLast(b: seq<PlanRecord>, n: nat)
    requires |b| == n + 1 && DesiredOf(b[..n]).Some? && DesiredValue(b[n]).Some?
    ensures DesiredOf(b).Some?
    ensures multiset(DesiredOf(b).value) == multiset(DesiredOf(b[..n]).value) + multiset{DesiredValue(b[n]).value}
  {
    hide DesiredValue;
  }

  lemma {:induction false} DesiredConcat(a: seq<PlanRecord>, b: seq<PlanRecord>)
    ensures DesiredOf(a + b).Some? <==> DesiredOf(a).Some? && DesiredOf(b).Some?
    ensures DesiredOf(a + b).Some? ==> DesiredOf(a + b).value == DesiredOf(a).value + DesiredOf(b).value
    decreases |b|
  {
    if b == [] {
      assert a + b == a;
    } else {
      var n := |b| - 1;
      assert (a + b)[..|a| + n] == a + b[..n];
      DesiredConcat(a, b[..n]);
    }
  }

  lemma DesiredWithout(a: seq<PlanRecord>, i: nat)
    requires i < |a| && DesiredOf(a).Some?
    ensures var rest := a[..i] + a[i + 1..];
            && DesiredOf(rest).Some? && DesiredValue(a[i]).Some?
            && multiset(DesiredOf(a).value) == multiset(DesiredOf(rest).value) + multiset{DesiredValue(a[i]).value}
  {
    assert a == (a[..i] + [a[i]]) + a[i + 1..];
    DesiredConcat(a[..i] + [a[i]], a[i + 1..]);
    DesiredConcat(a[..i], [a[i]]);
    DesiredConcat(a[..i], a[i + 1..]);
    assert [a[i]][..0] == [];
    assert DesiredOf([a[i]]).value == [] + [DesiredValue(a[i]).value];
  }

  // Re-deriving the desired values of an op gives back what its records were translated from.
  lemma WrittenOpDesires(k: Key, records: seq<Record>, dest: seq<Record>, conflict: bool, c: Context)
    requires var op := Classify(k, records, dest, conflict, c); op.action == Add || op.action == Replace
    requires records != []
    ensures var op := Classify(k, records, dest, conflict, c);
            && Writable(k.typ) && AllMapped(records, k.typ, c)
            && (op.action == Replace <==> dest != [])
            && op.records == Sort(TranslatedRecords(TranslateAll(records, k.typ, c)), ByData)
            && DesiredValues(op.records) == Some(SortStrings(TranslatedValues(TranslateAll(records, k.typ, c))))
            && (dest != [] ==> DesiredValues(op.records) != Some(SortedValues(dest, c)))
  {
    hide Translate, SortedValues, Mentions, Sort, ByData, SortStrings, SubstitutedValues, DesiredValue, ValidUtf8;
    var ts := TranslateAll(records, k.typ, c);
    var op := Classify(k, records, dest, conflict, c);
    assert AllMapped(records, k.typ, c) && Writable(k.typ);
    forall i | 0 <= i < |ts| ensures DesiredValue(ts[i].record) == Some(ts[i].value) {
      TranslationInverts(records[i], k.typ, c);
    }
    DesiredInOrder(ts);
    DesiredPermuted(TranslatedRecords(ts), op.records);
    SortStringsEqual(DesiredOf(op.records).value, TranslatedValues(ts));
  }

  // ---------------------------------------------------------------- a fresh plan

  // What a fresh plan's op verifies as.
  function FreshVerdict(op: PlanOp): Verdict {
    match op.action
    case Manual => ManualReview
    case Skip => if op.typ == "SOA" || IsHostValidation(op.name) then NotChecked else Unchanged
    case _ => Pending
  }

  // Against the destination it was built from, no op of a plan has drifted and none looks applied.
  lemma FreshOpVerdict(k: Key, records: seq<Record>, dest: seq<Record>, conflict: bool, c: Context)
    requires records != []
    ensures var op := Classify(k, records, dest, conflict, c);
            op.action != Unknown && VerifyOp(op, dest, c) == FreshVerdict(op)
  {
    hide Translate, SortedValues, Mentions, Sort, ByData, SubstitutedValues, DesiredValues, ValidUtf8, AllMapped;
    var op := Classify(k, records, dest, conflict, c);
    if op.action == Add || op.action == Replace {
      WrittenOpDesires(k, records, dest, conflict, c);
    } else if op.action == Skip {
      SortedValuesCount(dest, c);
    }
  }

  lemma SortedValuesCount(records: seq<Record>, c: Context)
    ensures |SortedValues(records, c)| == |records|
  {
  }

  lemma {:induction false} GroupHolds(records: seq<Record>, k: Key, c: Context)
    ensures forall r :: r in Group(records, k, c) <==> r in records && SetKey(r, c) == k
    ensures Group(records, k, c) != [] <==> k in Keys(records, c)
  {
    hide SetKey;
    if records != [] {
      var n := |records| - 1;
      GroupHolds(records[..n], k, c);
      assert records == records[..n] + [records[n]];
    }
  }

  // ---------------------------------------------------------------- a plan that was carried out

  // The records written for an op, as the zone then reports them.
  function WrittenFor(op: PlanOp, zone: string): seq<Record> {
    seq(|op.records|, i requires 0 <= i < |op.records| => Parsed(DnsApply.AddOf(op.records[i], zone)))
  }

  // A written record reads back with the value it stands for.
  lemma WrittenValue(r: Record, typ: string, c: Context)
    requires Sound(c) && Writable(typ) && Translate(r, typ, c).Some?
    ensures var t := Translate(r, typ, c).value;
            PlanValue(Parsed(DnsApply.AddOf(t.record, c.zone)), c) == t.value
  {
    hide Segments, Join, PlanName, Itoa, CappedTTL, ToRelative, ParseInt, LiveName;
    SegmentsRejoin(r.txt);
    PlanNameIsCanonical(r.target, c.zone);
    PlanNameIsCanonical(r.exchange, c.zone);
    ParseItoa(r.priority);
  }

  // Reading values respects permutations.
  lemma ValuesConcat(a: seq<Record>, b: seq<Record>, c: Context)
    ensures Values(a + b, c) == Values(a, c) + Values(b, c)
  {
    hide PlanValue;
  }

  lemma ValuesWithout(a: seq<Record>, i: nat, c: Context)
    requires i < |a|
    ensures multiset(Values(a, c)) == multiset(Values(a[..i] + a[i + 1..], c)) + multiset{PlanValue(a[i], c)}
  {
    hide PlanValue, Values;
    assert a == a[..i] + ([a[i]] + a[i + 1..]);
    ValuesConcat(a[..i], [a[i]] + a[i + 1..], c);
    ValuesConcat([a[i]], a[i + 1..], c);
    ValuesConcat(a[..i], a[i + 1..], c);
    ValuesOne(a[i], c);
  }

  lemma ValuesOne(r: Record, c: Context)
    ensures Values([r], c) == [PlanValue(r, c)]
  {
    hide PlanValue;
  }

  lemma {:induction false} ValuesPermuted(a: seq<Record>, b: seq<Record>, c: Context)
    requires multiset(a) == multiset(b)
    ensures multiset(Values(a, c)) == multiset(Values(b, c))
    decreases |b|
  {
    hide PlanValue, Values;
    if b == [] {
      assert |a| == |multiset(a)| == 0;
      assert a == b;
    } else {
      var i, rest, front := TakeLast(a, b);
      ValuesPermuted(rest, front, c);
      ValuesWithout(a, i, c);
      ValuesWithout(b, |b| - 1, c);
      assert b[..|b| - 1] + b[|b|..] == front;
    }
  }

  // The values read back from what was written for an op are the ones it desires, as multisets.
  lemma WrittenValues(op: PlanOp, records: seq<Record>, live: seq<Record>, c: Context)
    requires Sound(c) && Writable(op.typ) && AllMapped(records, op.typ, c)
    requires op.records == Sort(TranslatedRecords(TranslateAll(records, op.typ, c)), ByData)
    requires DesiredOf(op.records).Some? && multiset(live) == multiset(WrittenFor(op, c.zone))
    ensures multiset(Values(live, c)) == multiset(DesiredOf(op.records).value)
  {
    hide Sort, ByData, Translate, WrittenFor, Values, DesiredOf;
    ValuesPermuted(live, WrittenFor(op, c.zone), c);
    WrittenInOrder(op, records, c);
  }

  // Where the live rrset of an add or replace is what was written for it, the op verifies as applied.
  lemma AppliedOpVerdict(k: Key, records: seq<Record>, dest: seq<Record>, conflict: bool, live: seq<Record>, c: Context)
    requires Sound(c) && records != []
    requires var op := Classify(k, records, dest, conflict, c); op.action == Add || op.action == Replace
    requires multiset(live) == multiset(WrittenFor(Classify(k, records, dest, conflict, c), c.zone))
    ensures VerifyOp(Classify(k, records, dest, conflict, c), live, c) == Applied
  {
    hide Translate, SortedValues, Sort, ByData, DesiredOf, AllMapped, Classify, SortStrings, WrittenFor, Values, Sound,
         TranslateAll, TranslatedRecords, TranslatedValues;
    var op := Classify(k, records, dest, conflict, c);
    WrittenOpDesires(k, records, dest, conflict, c);
    WrittenValues(op, records, live, c);
    SortStringsEqual(Values(live, c), DesiredOf(op.records).value);
    SortedValuesIs(live, c);
    WrittenIsPresent(op, live, c);
  }

  lemma WrittenIsPresent(op: PlanOp, live: seq<Record>, c: Context)
    requires op.records != [] && multiset(live) == multiset(WrittenFor(op, c.zone))
    ensures live != []
  {
    assert |live| == |multiset(live)| == |multiset(WrittenFor(op, c.zone))| == |op.records|;
  }

  lemma SortedValuesIs(records: seq<Record>, c: Context)
    ensures SortedValues(records, c) == SortStrings(Values(records, c))
  {
  }

  // The records of an op, each being the translation of a source record, read back as their desired values.
  lemma WrittenInOrder(op: PlanOp, records: seq<Record>, c: Context)
    requires Sound(c) && Writable(op.typ) && AllMapped(records, op.typ, c)
    requires multiset(op.records) == multiset(TranslatedRecords(TranslateAll(records, op.typ, c)))
    requires DesiredOf(op.records).Some?
    ensures Values(WrittenFor(op, c.zone), c) == DesiredOf(op.records).value
  {
    hide Translate, Parsed, PlanValue, DesiredValue;
    var ts := TranslateAll(records, op.typ, c);
    DesiredPoints(op.records);
    forall i | 0 <= i < |op.records|
      ensures PlanValue(Parsed(DnsApply.AddOf(op.records[i], c.zone)), c) == DesiredOf(op.records).value[i]
    {
      assert op.records[i] in multiset(op.records);
      assert op.records[i] in TranslatedRecords(ts);
      var j :| 0 <= j < |ts| && ts[j].record == op.records[i];
      WrittenValue(records[j], op.typ, c);
      TranslationInverts(records[j], op.typ, c);
    }
  }

  lemma {:induction false} DesiredPoints(records: seq<PlanRecord>)
    requires DesiredOf(records).Some?
    ensures |DesiredOf(records).value| == |records|
    ensures forall i :: 0 <= i < |records| ==> DesiredValue(records[i]) == Some(DesiredOf(records).value[i])
  {
    hide DesiredValue;
    if records != [] {
      DesiredPoints(records[..|records| - 1]);
    }
  }

  // ---------------------------------------------------------------- whole plans

  datatype ZoneReport = ZoneReport(zone: string, available: bool, verdicts: seq<Verdict>, untracked: seq<Info>)

  datatype Summary = Summary(applied: nat, asPlanned: nat, pending: nat, drift: nat, manualReview: nat,
                             notChecked: nat, untracked: nat, unavailable: nat)

  const NOTHING := Summary(0, 0, 0, 0, 0, 0, 0, 0)

  function Bump(s: Summary, v: Verdict): Summary {
    match v
    case Applied => s.(applied := s.applied + 1)
    case Unchanged => s.(asPlanned := s.asPlanned + 1)
    case Pending => s.(pending := s.pending + 1)
    case Drift => s.(drift := s.drift + 1)
    case ManualReview => s.(manualReview := s.manualReview + 1)
    case NotChecked => s.(notChecked := s.notChecked + 1)
  }

  function Tally(s: Summary, verdicts: seq<Verdict>): Summary {
    if verdicts == [] then s else Bump(Tally(s, verdicts[..|verdicts| - 1]), verdicts[|verdicts| - 1])
  }

  function Totals(reports: seq<ZoneReport>): Summary {
    if reports == [] then NOTHING
    else
      var r := reports[|reports| - 1];
      var s := Tally(Totals(reports[..|reports| - 1]), r.verdicts);
      if r.available then s.(untracked := s.untracked + |r.untracked|) else s.(unavailable := s.unavailable + 1)
  }

  // The live rrsets a plan zone knows nothing of.
  function UntrackedKeys(pz: PlanZone, live: seq<Record>, c: Context): set<Key> {
    set k | k in Keys(live, c) - (OpKeys(pz.ops) + InfoKeys(pz.infos)) && Writable(k.typ) && !IsHostValidation(k.name)
  }

  // A live rrset is untracked exactly when it is of a written type, no host validation record, and no op and no
  // informational entry of the zone has its name and type.
  lemma UntrackedMeans(pz: PlanZone, live: seq<Record>, c: Context, k: Key)
    ensures k in UntrackedKeys(pz, live, c) <==>
      && Group(live, k, c) != [] && Writable(k.typ) && !IsHostValidation(k.name)
      && (forall o :: o in pz.ops ==> o.typ != k.typ || o.name != k.name)
      && (forall i :: i in pz.infos ==> i.typ != k.typ || i.name != k.name)
  {
    hide IsHostValidation, Keys, Group;
    GroupHolds(live, k, c);
  }

  function Verdicts(ops: seq<PlanOp>, live: seq<Record>, c: Context): (r: seq<Verdict>)
    ensures |r| == |ops|
  {
    seq(|ops|, i requires 0 <= i < |ops| => VerifyOp(ops[i], Group(live, Key(ops[i].typ, ops[i].name), c), c))
  }

  // What is reported for one zone; `live` maps lower-case zone names to the fetched records, None standing
  // for a zone that could not be read.
  ghost function ReportFor(pz: PlanZone, live: map<string, Option<seq<Record>>>, c: Context): ZoneReport {
    var z := Lower(pz.zone);
    if z !in live || live[z].None? then ZoneReport(pz.zone, false, [], [])
    else
      var here := c.(zone := pz.zone);
      ZoneReport(pz.zone, true, Verdicts(pz.ops, live[z].value, here),
                 Mapped(Ordered(UntrackedKeys(pz, live[z].value, here)), k => InfoFor(k, live[z].value, here)))
  }

  // A zone that could not be read has nothing to report; any other has a verdict for every op, and its untracked
  // rrsets with their values.
  lemma ReportMeans(pz: PlanZone, live: map<string, Option<seq<Record>>>, c: Context)
    ensures var r, z, here := ReportFor(pz, live, c), Lower(pz.zone), c.(zone := pz.zone);
            && r.zone == pz.zone && (r.available <==> z in live && live[z].Some?)
            && (!r.available ==> r.verdicts == [] && r.untracked == [])
            && (r.available ==>
                  && |r.verdicts| == |pz.ops|
                  && (forall i :: 0 <= i < |pz.ops| ==>
                        r.verdicts[i] == VerifyOp(pz.ops[i], Group(live[z].value, Key(pz.ops[i].typ, pz.ops[i].name), here), here))
                  && InfoKeys(r.untracked) == UntrackedKeys(pz, live[z].value, here) && |r.untracked| == |InfoKeys(r.untracked)|
                  && forall u :: u in r.untracked ==> multiset(u.values) == multiset(Values(Group(live[z].value, Key(u.typ, u.name), here), here)))
  {
    var z, here := Lower(pz.zone), c.(zone := pz.zone);
    if z in live && live[z].Some? {
      InfosMean(UntrackedKeys(pz, live[z].value, here), live[z].value, here);
    }
    hide VerifyOp, Group, Ordered, UntrackedKeys, Values, SortStrings, InfoKeys, InfoFor;
  }

  // Informational entries for some keys name those, each once, with what the records hold under them.
  lemma InfosMean(keys: set<Key>, records: seq<Record>, c: Context)
    ensures var infos := Mapped(Ordered(keys), k => InfoFor(k, records, c));
            && InfoKeys(infos) == keys && |infos| == |keys|
            && forall u :: u in infos ==> multiset(u.values) == multiset(Values(Group(records, Key(u.typ, u.name), c), c))
  {
    hide Group, Ordered, Values, SortStrings;
    var infos := Mapped(Ordered(keys), k => InfoFor(k, records, c));
    OrderedHolds(keys);
    forall k | k in keys ensures k in InfoKeys(infos) {
      var i :| 0 <= i < |Ordered(keys)| && Ordered(keys)[i] == k;
      assert infos[i] in infos;
    }
    forall u | u in infos ensures Key(u.typ, u.name) in keys {
      var i :| 0 <= i < |infos| && infos[i] == u;
      assert Ordered(keys)[i] in Ordered(keys);
    }
  }

  // The untracked rrsets are listed by name, then by type.
  lemma UntrackedInOrder(pz: PlanZone, live: map<string, Option<seq<Record>>>, c: Context)
    ensures var u := ReportFor(pz, live, c).untracked;
            forall i, j :: 0 <= i < j < |u| ==> Sequent(u[i].name, u[i].typ, u[j].name, u[j].typ)
  {
    hide VerifyOp, Group, Ordered, UntrackedKeys, Sequent, KeyLe, SortedValues, Verdicts;
    var z, here := Lower(pz.zone), c.(zone := pz.zone);
    if z in live && live[z].Some? {
      var keys := Ordered(UntrackedKeys(pz, live[z].value, here));
      OrderedSorted(UntrackedKeys(pz, live[z].value, here));
      forall i, j | 0 <= i < j < |keys| ensures Sequent(keys[i].name, keys[i].typ, keys[j].name, keys[j].typ) {
        assert LeKey(keys[i], keys[j]);
        KeysSequent(keys[i], keys[j]);
      }
    }
  }

  // VerifyDNSPlan; the report is clean when nothing is pending, drifted, unavailable or left to a human.
  method VerifyDNSPlan(zones: seq<PlanZone>, manualZones: seq<string>, live: map<string, Option<seq<Record>>>, c: Context)
    returns (reports: seq<ZoneReport>, sum: Summary, clean: bool)
    ensures |reports| == |zones| && forall i :: 0 <= i < |zones| ==> reports[i] == ReportFor(zones[i], live, c)
    ensures sum == Totals(reports)
    ensures clean <==>
      manualZones == [] && forall i :: 0 <= i < |zones| ==>
        reports[i].available && Pending !in reports[i].verdicts && Drift !in reports[i].verdicts
  {
    hide ReportFor, Tally;
    reports, sum := [], NOTHING;
    for i := 0 to |zones|
      invariant |reports| == i && forall j :: 0 <= j < i ==> reports[j] == ReportFor(zones[j], live, c)
      invariant sum == Totals(reports)
    {
      ghost var before := reports;
      var report;
      report, sum := VerifyZone(zones[i], live, c, sum);
      reports := reports + [report];
      assert reports[..|reports| - 1] == before;
    }
    CleanMeans(reports, manualZones);
    clean := sum.pending == 0 && sum.drift == 0 && sum.unavailable == 0 && |manualZones| == 0;
  }

  method VerifyZone(pz: PlanZone, live: map<string, Option<seq<Record>>>, c: Context, before: Summary)
    returns (report: ZoneReport, sum: Summary)
    ensures report == ReportFor(pz, live, c)
    ensures var s := Tally(before, report.verdicts);
            sum == if report.available then s.(untracked := s.untracked + |report.untracked|) else s.(unavailable := s.unavailable + 1)
  {
    hide Tally, Keys, Group, Verdicts, UntrackedKeys, InfoFor;
    var z := Lower(pz.zone);
    if z !in live || live[z].None? {
      TallyNothing(before);
      return ZoneReport(pz.zone, false, [], []), before.(unavailable := before.unavailable + 1);
    }
    var here := c.(zone := pz.zone);
    var verdicts;
    verdicts, sum := VerifyOps(pz.ops, live[z].value, here, before);
    var untracked := Untracked(pz, live[z].value, here);
    report := ZoneReport(pz.zone, true, verdicts, untracked);
    sum := sum.(untracked := sum.untracked + |untracked|);
  }

  lemma TallyNothing(s: Summary)
    ensures Tally(s, []) == s
  {
  }

  method VerifyOps(ops: seq<PlanOp>, live: seq<Record>, c: Context, before: Summary)
    returns (verdicts: seq<Verdict>, sum: Summary)
    ensures verdicts == Verdicts(ops, live, c) && sum == Tally(before, verdicts)
  {
    hide VerifyOp, Group;
    verdicts, sum := [], before;
    for i := 0 to |ops|
      invariant |verdicts| == i && sum == Tally(before, verdicts)
      invariant forall j :: 0 <= j < i ==> verdicts[j] == VerifyOp(ops[j], Group(live, Key(ops[j].typ, ops[j].name), c), c)
    {
      var v := VerifyOp(ops[i], Group(live, Key(ops[i].typ, ops[i].name), c), c);
      ghost var seen := verdicts;
      verdicts := verdicts + [v];
      assert verdicts[..i] == seen;
      match v
      case Applied => sum := sum.(applied := sum.applied + 1);
      case Unchanged => sum := sum.(asPlanned := sum.asPlanned + 1);
      case Pending => sum := sum.(pending := sum.pending + 1);
      case Drift => sum := sum.(drift := sum.drift + 1);
      case ManualReview => sum := sum.(manualReview := sum.manualReview + 1);
      case NotChecked => sum := sum.(notChecked := sum.notChecked + 1);
    }
  }

  method Untracked(pz: PlanZone, live: seq<Record>, c: Context) returns (infos: seq<Info>)
    ensures infos == Mapped(Ordered(UntrackedKeys(pz, live, c)), k => InfoFor(k, live, c))
  {
    hide InfoFor, Keys, Ordered, Sort, OpKeys, InfoKeys;
    var keys := UntrackedKeys(pz, live, c);
    ghost var f := k => InfoFor(k, live, c);
    ghost var walked;
    infos, walked := CollectInfos(keys, live, c);
    SortMapped(walked, f, LeInfo);
    InsertKeepsOrder(walked, keys);
    infos := Sort(infos, LeInfo);
  }

  // ---------------------------------------------------------------- what the summary counts

  function AllVerdicts(reports: seq<ZoneReport>): multiset<Verdict> {
    if reports == [] then multiset{} else AllVerdicts(reports[..|reports| - 1]) + multiset(reports[|reports| - 1].verdicts)
  }

  // The untracked rrsets of all zones that were read, one zone after the other.
  function UntrackedOf(reports: seq<ZoneReport>): seq<Info> {
    if reports == [] then []
    else UntrackedOf(reports[..|reports| - 1]) + if reports[|reports| - 1].available then reports[|reports| - 1].untracked else []
  }

  function Unread(reports: seq<ZoneReport>): multiset<bool> {
    if reports == [] then multiset{} else Unread(reports[..|reports| - 1]) + multiset{!reports[|reports| - 1].available}
  }

  ghost predicate Counts(s: Summary, vs: multiset<Verdict>) {
    && s.applied == vs[Applied] && s.asPlanned == vs[Unchanged] && s.pending == vs[Pending] && s.drift == vs[Drift]
    && s.manualReview == vs[ManualReview] && s.notChecked == vs[NotChecked]
  }

  lemma {:induction false} TallyCounts(s: Summary, verdicts: seq<Verdict>, vs: multiset<Verdict>)
    requires Counts(s, vs)
    ensures Counts(Tally(s, verdicts), vs + multiset(verdicts))
    ensures Tally(s, verdicts).untracked == s.untracked && Tally(s, verdicts).unavailable == s.unavailable
  {
    if verdicts != [] {
      var n := |verdicts| - 1;
      TallyCounts(s, verdicts[..n], vs);
      assert verdicts == verdicts[..n] + [verdicts[n]];
    }
  }

  // The summary counts the verdicts of all zones and the zones that could not be read.
  lemma {:induction false} TotalsCount(reports: seq<ZoneReport>)
    ensures Counts(Totals(reports), AllVerdicts(reports)) && Totals(reports).unavailable == Unread(reports)[true]
    ensures Totals(reports).untracked == |UntrackedOf(reports)|
  {
    hide Tally, Counts;
    if reports == [] {
      assert Counts(NOTHING, multiset{}) by { NothingCounted(); }
    } else {
      var n := |reports| - 1;
      TotalsCount(reports[..n]);
      TallyCounts(Totals(reports[..n]), reports[n].verdicts, AllVerdicts(reports[..n]));
      SameCounts(Totals(reports), Tally(Totals(reports[..n]), reports[n].verdicts), AllVerdicts(reports));
    }
  }

  lemma NothingCounted()
    ensures Counts(NOTHING, multiset{})
  {
  }

  lemma SameCounts(s: Summary, t: Summary, vs: multiset<Verdict>)
    requires s == t.(untracked := s.untracked, unavailable := s.unavailable) && Counts(t, vs)
    ensures Counts(s, vs)
  {
  }

  ghost predicate Reported(reports: seq<ZoneReport>, v: Verdict) { exists i :: 0 <= i < |reports| && v in reports[i].verdicts }

  ghost predicate SomeUnread(reports: seq<ZoneReport>) { exists i :: 0 <= i < |reports| && !reports[i].available }

  lemma {:induction false} VerdictHolds(reports: seq<ZoneReport>, v: Verdict)
    ensures AllVerdicts(reports)[v] > 0 <==> Reported(reports, v)
    ensures Unread(reports)[true] > 0 <==> SomeUnread(reports)
  {
    hide Reported, SomeUnread;
    if reports == [] {
      NoReports(v);
    } else {
      VerdictHolds(reports[..|reports| - 1], v);
      ReportedStep(reports, v);
    }
  }

  lemma NoReports(v: Verdict)
    ensures !Reported([], v) && !SomeUnread([])
  {
  }

  lemma ReportedStep(reports: seq<ZoneReport>, v: Verdict)
    requires reports != []
    ensures var n := |reports| - 1;
            && (Reported(reports, v) <==> Reported(reports[..n], v) || v in reports[n].verdicts)
            && (SomeUnread(reports) <==> SomeUnread(reports[..n]) || !reports[n].available)
  {
    var n := |reports| - 1;
    var front := reports[..n];
    assert forall i :: 0 <= i < n ==> front[i] == reports[i];
    if Reported(front, v) {
      var i :| 0 <= i < |front| && v in front[i].verdicts;
      assert v in reports[i].verdicts;
    }
    if SomeUnread(front) {
      var i :| 0 <= i < |front| && !front[i].available;
      assert !reports[i].available;
    }
  }

  // The report is clean exactly when every zone was read, nothing in it is pending or has drifted, and no zone is
  // left to a human.
  lemma CleanMeans(reports: seq<ZoneReport>, manualZones: seq<string>)
    ensures var sum := Totals(reports);
            (sum.pending == 0 && sum.drift == 0 && sum.unavailable == 0 && manualZones == []) <==>
            (manualZones == [] && forall i :: 0 <= i < |reports| ==>
               reports[i].available && Pending !in reports[i].verdicts && Drift !in reports[i].verdicts)
  {
    hide Totals, AllVerdicts, Unread;
    TotalsCount(reports);
    VerdictHolds(reports, Pending);
    VerdictHolds(reports, Drift);
  }

  // ---------------------------------------------------------------- a fresh plan, as a whole

  function CountActions(ops: seq<PlanOp>, action: Action): nat {
    if ops == [] then 0 else CountActions(ops[..|ops| - 1], action) + if ops[|ops| - 1].action == action then 1 else 0
  }

  function CountIn(zones: seq<PlanZone>, action: Action): nat {
    if zones == [] then 0 else CountIn(zones[..|zones| - 1], action) + CountActions(zones[|zones| - 1].ops, action)
  }

  // A zone of the plan was built from some source records and the destination's own.
  ghost predicate BuiltFrom(pz: PlanZone, src: seq<Record>, dest: seq<Record>, c: Context) {
    var here := c.(zone := pz.zone);
    pz.ops == PlannedOps(src, dest, here) && pz.infos == PlannedInfos(src, dest, here)
  }

  lemma FreshVerdicts(src: seq<Record>, dest: seq<Record>, c: Context)
    ensures var ops := PlannedOps(src, dest, c);
            forall i :: 0 <= i < |ops| ==> ops[i].action != Unknown && Verdicts(ops, dest, c)[i] == FreshVerdict(ops[i])
  {
    hide Classify, VerifyOp, FreshVerdict, Group, Keys, Conflict, Ordered;
    var ks := Ordered(Keys(src, c));
    OrderedHolds(Keys(src, c));
    forall i | 0 <= i < |ks| ensures var op := OpFor(ks[i], src, dest, c);
                                     op.action != Unknown && VerifyOp(op, Group(dest, ks[i], c), c) == FreshVerdict(op) {
      assert ks[i] in ks;
      GroupHolds(src, ks[i], c);
      FreshOpVerdict(ks[i], Group(src, ks[i], c), Group(dest, ks[i], c), Conflict(ks[i], Keys(src, c) + Keys(dest, c)), c);
    }
  }

  // What a fresh zone's ops add to a summary.
  predicate FreshSum(s: Summary, t: Summary, ops: seq<PlanOp>) {
    && t == s.(pending := t.pending, asPlanned := t.asPlanned, notChecked := t.notChecked, manualReview := t.manualReview)
    && t.pending == s.pending + CountActions(ops, Add) + CountActions(ops, Replace)
    && t.asPlanned + t.notChecked == s.asPlanned + s.notChecked + CountActions(ops, Skip)
    && t.manualReview == s.manualReview + CountActions(ops, Manual)
  }

  lemma {:induction false} TallyFresh(s: Summary, ops: seq<PlanOp>, verdicts: seq<Verdict>)
    requires |verdicts| == |ops|
    requires forall i :: 0 <= i < |ops| ==> ops[i].action != Unknown && verdicts[i] == FreshVerdict(ops[i])
    ensures FreshSum(s, Tally(s, verdicts), ops)
  {
    if ops != [] {
      TallyFresh(s, ops[..|ops| - 1], verdicts[..|ops| - 1]);
    }
  }

  lemma NothingUntracked(pz: PlanZone, src: seq<Record>, dest: seq<Record>, c: Context)
    requires BuiltFrom(pz, src, dest, c)
    ensures UntrackedKeys(pz, dest, c.(zone := pz.zone)) == {}
  {
    hide PlannedOps, PlannedInfos, Keys, OpKeys, InfoKeys;
    PlannedKeys(src, dest, c.(zone := pz.zone));
  }

  // The zone was planned from some source records and what `live` holds for it.
  ghost predicate BuiltFor(pz: PlanZone, live: map<string, Option<seq<Record>>>, c: Context) {
    && Lower(pz.zone) in live && live[Lower(pz.zone)].Some?
    && exists src :: BuiltFrom(pz, src, live[Lower(pz.zone)].value, c)
  }

  // One zone more: its report adds to the totals what its plan holds.
  lemma FreshZoneTotals(before: Summary, pz: PlanZone, live: map<string, Option<seq<Record>>>, c: Context)
    requires BuiltFor(pz, live, c)
    ensures var r := ReportFor(pz, live, c);
            && r.available && r.untracked == []
            && FreshSum(before, Tally(before, r.verdicts), pz.ops)
  {
    hide Tally, Verdicts, BuiltFrom, UntrackedKeys, FreshVerdict, CountActions, InfoFor, Ordered;
    var dest, here := live[Lower(pz.zone)].value, c.(zone := pz.zone);
    var src :| BuiltFrom(pz, src, dest, c);
    NothingUntracked(pz, src, dest, c);
    OrderedHolds({});
    FreshZone(pz, src, dest, c);
    TallyFresh(before, pz.ops, Verdicts(pz.ops, dest, here));
  }

  lemma {:induction false} FreshZones(zones: seq<PlanZone>, live: map<string, Option<seq<Record>>>, reports: seq<ZoneReport>, c: Context)
    requires |zones| == |reports|
    requires forall i :: 0 <= i < |zones| ==> BuiltFor(zones[i], live, c) && reports[i] == ReportFor(zones[i], live, c)
    ensures FreshTotals(Totals(reports), zones)
  {
    hide Tally, BuiltFor, ReportFor, CountActions;
    if zones != [] {
      var n := |zones| - 1;
      FreshZones(zones[..n], live, reports[..n], c);
      FreshZoneTotals(Totals(reports[..n]), zones[n], live, c);
    }
  }

  // Nothing applied, drifted, untracked or unavailable; every add and replace pending, every skip unchanged
  // or not checked, every manual op up for review.
  predicate FreshTotals(t: Summary, zones: seq<PlanZone>) {
    && t.applied == 0 && t.drift == 0 && t.untracked == 0 && t.unavailable == 0
    && t.pending == CountIn(zones, Add) + CountIn(zones, Replace)
    && t.asPlanned + t.notChecked == CountIn(zones, Skip) && t.manualReview == CountIn(zones, Manual)
  }

  // A plan checked against the very destination it was built from.
  lemma FreshPlanVerifies(src: seq<ZoneResult>, dest: seq<ZoneResult>, c: Context, reports: seq<ZoneReport>)
    requires var zones := Sort(PlannedZones(src, FetchedZones(dest), c), ByZone);
             |reports| == |zones| && forall i :: 0 <= i < |zones| ==> reports[i] == ReportFor(zones[i], FetchedZones(dest), c)
    ensures FreshTotals(Totals(reports), Sort(PlannedZones(src, FetchedZones(dest), c), ByZone))
  {
    hide FetchedZones, Sort, ByZone, FreshTotals, ReportFor, BuiltFor;
    var planned, live := PlannedZones(src, FetchedZones(dest), c), FetchedZones(dest);
    var zones := Sort(planned, ByZone);
    PlannedZonesAreBuilt(src, live, c);
    forall i | 0 <= i < |zones| ensures BuiltFor(zones[i], live, c) {
      assert zones[i] in multiset(zones);
      assert zones[i] in planned;
    }
    FreshZones(zones, live, reports, c);
  }

  lemma {:induction false} PlannedZonesAreBuilt(src: seq<ZoneResult>, live: map<string, Option<seq<Record>>>, c: Context)
    ensures forall pz :: pz in PlannedZones(src, live, c) ==> BuiltFor(pz, live, c)
  {
    hide PlannedOps, PlannedInfos;
    if src != [] {
      var last := src[|src| - 1];
      PlannedZonesAreBuilt(src[..|src| - 1], live, c);
      LowerIdempotent(last.zone);
      if Plannable(last, live) {
        var pz := PlanFor(last, live, c);
        assert BuiltFrom(pz, last.records.value, live[Lower(pz.zone)].value, c);
      }
    }
  }

  lemma FreshZone(pz: PlanZone, src: seq<Record>, dest: seq<Record>, c: Context)
    requires BuiltFrom(pz, src, dest, c)
    ensures var vs := Verdicts(pz.ops, dest, c.(zone := pz.zone));
            forall i :: 0 <= i < |pz.ops| ==> pz.ops[i].action != Unknown && vs[i] == FreshVerdict(pz.ops[i])
  {
    hide Verdicts, PlannedOps, PlannedInfos, FreshVerdict;
    FreshVerdicts(src, dest, c.(zone := pz.zone));
  }
}
