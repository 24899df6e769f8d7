/** The DNS pipeline end to end: a built plan, applied to the zone it was built from, verified and rolled back. */
module DnsConverge {
  import opened Text
  import opened Sorting
  import opened DnsNames
  import opened DnsText
  import opened DnsZone
  import opened DnsPrecondition
  import opened DnsApply
  import opened DnsRestore
  import opened DnsPlan
  import V = DnsVerify

  function RecordsOf(lines: seq<Line>): seq<Record> {
    if lines == [] then [] else (if lines[0].Entry? then [lines[0].rec] else []) + RecordsOf(lines[1..])
  }

  // The two canonical forms of a live name agree: it has no surrounding white space and is not the bare zone.
  ghost predicate NamesAgree(lines: seq<Line>, c: Context) {
    forall l :: l in lines && l.Entry? ==> PlanName(l.rec.name, c.zone) == LiveName(l.rec.name, c.zone)
  }

  // A canonical name comes back from the server as it was sent, however it is read.
  predicate Survives(name: string, c: Context) {
    LiveName(ToRelative(name, c.zone), c.zone) == name && PlanName(ToRelative(name, c.zone), c.zone) == name
  }

  ghost predicate Regular(src: seq<Record>, lines: seq<Line>, c: Context) {
    Sound(c) && NamesAgree(lines, c) && forall r :: r in src ==> Survives(PlanName(r.name, c.zone), c)
  }

  // ---------------------------------------------------------------- keys, in the plan and in the zone

  function Fold(k: Key): Key { Key(Lower(k.typ), k.name) }

  function KeyFor(op: PlanOp): Key { Key(op.typ, op.name) }

  lemma FoldsKey(r: Record, k: Key, c: Context)
    requires PlanName(r.name, c.zone) == LiveName(r.name, c.zone) && Upper(k.typ) == k.typ
    ensures SetKey(r, c) == k <==> KeyOf(r, c.zone) == Fold(k)
  {
    hide PlanName, LiveName, Upper, Lower;
    CaseFolds(r.typ, k.typ);
  }

  lemma {:induction false} GroupConcat(a: seq<Record>, b: seq<Record>, k: Key, c: Context)
    ensures Group(a + b, k, c) == Group(a, k, c) + Group(b, k, c)
    decreases |b|
  {
    hide SetKey;
    if b == [] {
      assert a + b == a;
    } else {
      assert (a + b)[..|a + b| - 1] == a + b[..|b| - 1];
      GroupConcat(a, b[..|b| - 1], k, c);
    }
  }

  lemma GroupOne(r: Record, k: Key, c: Context)
    ensures Group([r], k, c) == if SetKey(r, c) == k then [r] else []
  {
    hide SetKey;
    assert [r][..0] == [];
  }

  lemma {:induction false} RecordsConcat(a: seq<Line>, b: seq<Line>)
    ensures RecordsOf(a + b) == RecordsOf(a) + RecordsOf(b)
  {
    if a == [] {
      assert a + b == b;
    } else {
      assert (a + b)[1..] == a[1..] + b && (a + b)[0] == a[0];
      RecordsConcat(a[1..], b);
      var head := if a[0].Entry? then [a[0].rec] else [];
      assert RecordsOf(a) == head + RecordsOf(a[1..]);
      assert RecordsOf(a + b) == head + (RecordsOf(a[1..]) + RecordsOf(b));
    }
  }

  lemma {:induction false} InRecords(lines: seq<Line>, r: Record)
    ensures r in RecordsOf(lines) <==> Entry(r) in lines
  {
    if lines != [] {
      InRecords(lines[1..], r);
      assert lines == [lines[0]] + lines[1..];
    }
  }

  // Keeping all but some rrsets leaves the others' records as they were.
  lemma {:induction false} KeepGroup(lines: seq<Line>, keys: set<Key>, k: Key, c: Context)
    requires NamesAgree(lines, c) && Upper(k.typ) == k.typ
    ensures Group(RecordsOf(Keep(lines, c.zone, keys)), k, c)
         == if Fold(k) in keys then [] else Group(RecordsOf(lines), k, c)
  {
    hide SetKey, KeyOf, Group, PlanName, LiveName, Upper, Fold;
    if lines == [] {
      EmptyGroup(k, c);
    } else {
      var head, rest := lines[0], lines[1..];
      KeepGroup(rest, keys, k, c);
      if head.Entry? {
        assert head in lines;
        FoldsKey(head.rec, k, c);
        GroupOne(head.rec, k, c);
        GroupConcat([head.rec], RecordsOf(rest), k, c);
        GroupConcat([head.rec], RecordsOf(Keep(rest, c.zone, keys)), k, c);
        assert RecordsOf(lines) == [head.rec] + RecordsOf(rest);
        if At(head, c.zone, keys) {
          assert Keep(lines, c.zone, keys) == Keep(rest, c.zone, keys);
        } else {
          assert Keep(lines, c.zone, keys)[1..] == Keep(rest, c.zone, keys);
          assert RecordsOf(Keep(lines, c.zone, keys)) == [head.rec] + RecordsOf(Keep(rest, c.zone, keys));
        }
      } else {
        assert Keep(lines, c.zone, keys)[1..] == Keep(rest, c.zone, keys);
        assert RecordsOf(lines) == RecordsOf(rest);
        assert RecordsOf(Keep(lines, c.zone, keys)) == RecordsOf(Keep(rest, c.zone, keys));
      }
    }
  }

  lemma EmptyGroup(k: Key, c: Context)
    ensures Group([], k, c) == []
  {
  }

  // ---------------------------------------------------------------- what a plan writes

  // Every record of the op is written under the op's key.
  ghost predicate WritesOwnKey(op: PlanOp, c: Context) {
    forall i :: 0 <= i < |op.records| ==> SetKey(Parsed(AddOf(op.records[i], c.zone)), c) == KeyFor(op)
  }

  lemma {:induction false} EntriesRecords(adds: seq<AddRecord>)
    ensures |RecordsOf(Entries(adds))| == |adds|
    ensures forall i :: 0 <= i < |adds| ==> RecordsOf(Entries(adds))[i] == Parsed(adds[i])
  {
    hide Parsed;
    if adds != [] {
      assert Entries(adds)[1..] == Entries(adds[1..]);
      EntriesRecords(adds[1..]);
    }
  }

  lemma {:induction false} GroupAll(records: seq<Record>, own: Key, k: Key, c: Context)
    requires forall i :: 0 <= i < |records| ==> SetKey(records[i], c) == own
    ensures Group(records, k, c) == if k == own then records else []
  {
    hide SetKey;
    if records != [] {
      GroupAll(records[..|records| - 1], own, k, c);
    }
  }

  lemma OwnGroup(op: PlanOp, k: Key, c: Context)
    requires WritesOwnKey(op, c)
    ensures Group(RecordsOf(Entries(AddsOf(op.records, c.zone))), k, c) == if k == KeyFor(op) then V.WrittenFor(op, c.zone) else []
  {
    hide Parsed, AddOf, SetKey, Group;
    var adds := AddsOf(op.records, c.zone);
    EntriesRecords(adds);
    assert RecordsOf(Entries(adds)) == V.WrittenFor(op, c.zone);
    GroupAll(V.WrittenFor(op, c.zone), KeyFor(op), k, c);
  }

  lemma NothingBatched(live: seq<Live>, c: Context)
    ensures BatchAdds([], Some(live), c.zone) == []
  {
  }

  // Of all the added records, those under an op's key are the ones written for that op.
  lemma {:induction false} AddsGroup(ops: seq<PlanOp>, live: seq<Live>, c: Context, i: nat, n: nat)
    requires i < |ops| && n <= |ops|
    requires forall a, b :: 0 <= a < b < |ops| ==> KeyFor(ops[a]) != KeyFor(ops[b])
    requires forall a :: 0 <= a < |ops| && Decided(ops[a], live, c.zone) ==> WritesOwnKey(ops[a], c)
    ensures Group(RecordsOf(Entries(BatchAdds(ops[..n], Some(live), c.zone))), KeyFor(ops[i]), c)
         == if i < n && Decided(ops[i], live, c.zone) then V.WrittenFor(ops[i], c.zone) else []
  {
    hide WritesOwnKey, Group, RecordsOf, Decided, AddsOf, Entries, V.WrittenFor, KeyFor, BatchAdds;
    var k := KeyFor(ops[i]);
    if n == 0 {
      NothingBatched(live, c);
      EntriesRecords([]);
      EmptyGroup(k, c);
      assert RecordsOf(Entries([])) == [];
    } else {
      var op := ops[n - 1];
      AddsGroup(ops, live, c, i, n - 1);
      assert ops[..n][..n - 1] == ops[..n - 1];
      BatchStep(ops[..n], live, c.zone);
      var before := BatchAdds(ops[..n - 1], Some(live), c.zone);
      if Decided(op, live, c.zone) {
        OwnGroup(op, k, c);
        EntriesConcat(before, AddsOf(op.records, c.zone));
        RecordsConcat(Entries(before), Entries(AddsOf(op.records, c.zone)));
        GroupConcat(RecordsOf(Entries(before)), RecordsOf(Entries(AddsOf(op.records, c.zone))), k, c);
      } else {
        assert before + [] == before;
      }
    }
  }

  // ---------------------------------------------------------------- what a planned op looks like

  lemma Twice(s: seq<Key>, i: nat, j: nat)
    requires i < j < |s| && s[i] == s[j]
    ensures multiset(s)[s[i]] >= 2
  {
    assert s == s[..j] + s[j..];
    assert s[..j][i] in multiset(s[..j]) && s[j..][0] in multiset(s[j..]);
  }

  lemma OrderedDistinct(keys: set<Key>)
    ensures forall i, j :: 0 <= i < j < |Ordered(keys)| ==> Ordered(keys)[i] != Ordered(keys)[j]
  {
    hide Ordered;
    var s := Ordered(keys);
    assert forall k :: multiset(keys)[k] <= 1;
    forall i, j | 0 <= i < j < |s| ensures s[i] != s[j] {
      if s[i] == s[j] {
        Twice(s, i, j);
      }
    }
  }

  lemma PlannedAt(src: seq<Record>, dest: seq<Record>, c: Context, i: nat)
    requires i < |PlannedOps(src, dest, c)|
    ensures var op := PlannedOps(src, dest, c)[i]; KeyFor(op) in Keys(src, c) && op == OpFor(KeyFor(op), src, dest, c)
  {
    hide OpFor, Keys, Ordered;
    OrderedHolds(Keys(src, c));
    assert Ordered(Keys(src, c))[i] in Ordered(Keys(src, c));
  }

  lemma PlannedDistinct(src: seq<Record>, dest: seq<Record>, c: Context)
    ensures var ops := PlannedOps(src, dest, c);
            forall i, j :: 0 <= i < j < |ops| ==> KeyFor(ops[i]) != KeyFor(ops[j])
  {
    hide OpFor, Keys, Ordered;
    OrderedDistinct(Keys(src, c));
  }

  // A key of the plan: its type in upper case, its name canonical, and one that survives being written.
  lemma KeyIsRegular(src: seq<Record>, lines: seq<Line>, c: Context, k: Key)
    requires Regular(src, lines, c) && k in Keys(src, c)
    ensures Upper(k.typ) == k.typ && Canonical(k.name) && Lower(k.name) == k.name && Survives(k.name, c)
    ensures Group(src, k, c) != []
  {
    hide PlanName, Survives, Group;
    var r :| r in src && SetKey(r, c) == k;
    PlanNameIsCanonical(r.name, c.zone);
    V.GroupHolds(src, k, c);
  }

  lemma TranslatedShape(r: Record, k: Key, c: Context)
    requires Writable(k.typ) && Translate(r, k.typ, c).Some? && SetKey(r, c) == k
    ensures var rec := Translate(r, k.typ, c).value.record; rec.typ == k.typ && rec.name == k.name && WellFormedData(rec)
  {
    hide PlanName, CappedTTL, Segments;
  }

  // The records of an op that writes: of its own type and name, and well formed.
  lemma BuiltRecords(k: Key, src: seq<Record>, dest: seq<Record>, c: Context)
    requires k in Keys(src, c)
    requires OpFor(k, src, dest, c).action == Add || OpFor(k, src, dest, c).action == Replace
    ensures var op := OpFor(k, src, dest, c);
            && Writable(op.typ) && op.records != [] && (op.action == Add <==> Group(dest, k, c) == [])
            && forall i :: 0 <= i < |op.records| ==>
                 op.records[i].typ == op.typ && op.records[i].name == op.name && WellFormedData(op.records[i])
  {
    hide Translate, SetKey, Sort, ByData, DnsPlan.Classify, Group, Keys, Conflict, WellFormedData, SortedValues, SortStrings;
    V.GroupHolds(src, k, c);
    var records, op := Group(src, k, c), OpFor(k, src, dest, c);
    V.WrittenOpDesires(k, records, Group(dest, k, c), Conflict(k, Keys(src, c) + Keys(dest, c)), c);
    var ts := TranslateAll(records, k.typ, c);
    forall i | 0 <= i < |op.records|
      ensures op.records[i].typ == op.typ && op.records[i].name == op.name && WellFormedData(op.records[i])
    {
      assert op.records[i] in multiset(TranslatedRecords(ts));
      var j :| 0 <= j < |ts| && ts[j].record == op.records[i];
      assert records[j] in records;
      TranslatedShape(records[j], k, c);
    }
  }

  lemma WritesUnderKey(op: PlanOp, c: Context)
    requires Writable(op.typ) && Survives(op.name, c)
    requires forall i :: 0 <= i < |op.records| ==> op.records[i].typ == op.typ && op.records[i].name == op.name
    ensures WritesOwnKey(op, c)
  {
    hide PlanName, LiveName, ToRelative, Join, ParseInt;
    assert Upper(op.typ) == op.typ;
  }

  // ---------------------------------------------------------------- apply, then verify

  ghost function Plan(src: seq<Record>, lines: seq<Line>, c: Context): seq<PlanOp> {
    PlannedOps(src, RecordsOf(lines), c)
  }

  // What a plan adds is absent from the zone it was built from.
  lemma PlanAddsAbsent(src: seq<Record>, lines: seq<Line>, c: Context)
    requires Regular(src, lines, c)
    ensures AbsentAdds(Plan(src, lines, c), lines, c.zone)
  {
    hide OpFor, Group, SetKey, KeyOf, Keys, Upper, Canonical, Survives, Conflict;
    var ops, dest := Plan(src, lines, c), RecordsOf(lines);
    forall i | 0 <= i < |ops| && ops[i].action == Add
      ensures forall l :: l in lines ==> !At(l, c.zone, {OpKey(ops[i])})
    {
      var k := KeyFor(ops[i]);
      PlannedAt(src, dest, c, i);
      KeyIsRegular(src, lines, c, k);
      BuiltRecords(k, src, dest, c);
      V.GroupHolds(dest, k, c);
      forall l | l in lines ensures !At(l, c.zone, {OpKey(ops[i])}) {
        if l.Entry? {
          InRecords(lines, l.rec);
          FoldsKey(l.rec, k, c);
        }
      }
    }
  }

  lemma PlanWritesOwnKeys(src: seq<Record>, lines: seq<Line>, c: Context, i: nat)
    requires Regular(src, lines, c) && i < |Plan(src, lines, c)|
    ensures var op := Plan(src, lines, c)[i];
            && Upper(op.typ) == op.typ && OpKey(op) == Fold(KeyFor(op)) && (IsWrite(op) ==> WritesOwnKey(op, c))
  {
    hide OpFor, Keys, Upper, Survives, WritesOwnKey, Group, SetKey, Lower, WellFormedData;
    var op := Plan(src, lines, c)[i];
    PlannedAt(src, RecordsOf(lines), c, i);
    KeyIsRegular(src, lines, c, KeyFor(op));
    if IsWrite(op) {
      BuiltRecords(KeyFor(op), src, RecordsOf(lines), c);
      WritesUnderKey(op, c);
    }
  }

  // The rrset under an op's key after the run: what the op wrote, or what was there.
  lemma GroupAfter(src: seq<Record>, lines: seq<Line>, c: Context, i: nat)
    requires Regular(src, lines, c) && i < |Plan(src, lines, c)|
    ensures var ops := Plan(src, lines, c);
            && Group(RecordsOf(AppliedZone(ops, lines, c.zone)), KeyFor(ops[i]), c)
            == if Decided(ops[i], Fetch(lines), c.zone) then V.WrittenFor(ops[i], c.zone)
            else Group(RecordsOf(lines), KeyFor(ops[i]), c)
  {
    hide Group, RecordsOf, AppliedZone, Fetch, Decide, PlannedOps, WritesOwnKey, V.WrittenFor, KeyFor, Upper, Sound, Survives,
         BatchAdds, BatchRemoves, ReplacedKeys, Keep, Entries;
    var ops, live := Plan(src, lines, c), Fetch(lines);
    var k := KeyFor(ops[i]);
    PlannedDistinct(src, RecordsOf(lines), c);
    forall a | 0 <= a < |ops| ensures Decided(ops[a], live, c.zone) ==> WritesOwnKey(ops[a], c) {
      PlanWritesOwnKeys(src, lines, c, a);
      if Decided(ops[a], live, c.zone) {
        DecidedIsWrite(ops[a], live, c.zone);
      }
    }
    AppliedZoneIs(ops, lines, c.zone);
    var kept, added := DnsRestore.Kept(ops, lines, c.zone), Entries(BatchAdds(ops, Some(live), c.zone));
    RecordsConcat(kept, added);
    GroupConcat(RecordsOf(kept), RecordsOf(added), k, c);
    assert ops[..|ops|] == ops;
    AddsGroup(ops, live, c, i, |ops|);
    PlanWritesOwnKeys(src, lines, c, i);
    KeptGroup(src, lines, c, i);
  }

  lemma KeptGroup(src: seq<Record>, lines: seq<Line>, c: Context, i: nat)
    requires Regular(src, lines, c) && i < |Plan(src, lines, c)|
    ensures var ops := Plan(src, lines, c);
            && Group(RecordsOf(DnsRestore.Kept(ops, lines, c.zone)), KeyFor(ops[i]), c)
            == if Decided(ops[i], Fetch(lines), c.zone) then [] else Group(RecordsOf(lines), KeyFor(ops[i]), c)
  {
    hide Group, RecordsOf, Fetch, Decide, PlannedOps, WritesOwnKey, Upper, Sound, Survives, Keep, At;
    var ops, live := Plan(src, lines, c), Fetch(lines);
    var op := ops[i];
    PlanWritesOwnKeys(src, lines, c, i);
    KeepGroup(lines, ReplacedKeys(ops, live, c.zone), KeyFor(op), c);
    if Decided(op, live, c.zone) {
      DecidedIsWrite(op, live, c.zone);
      if op.action == Add {
        PlannedAt(src, RecordsOf(lines), c, i);
        AddedGroupIsEmpty(src, lines, c, i);
      } else {
        assert op in ops;
      }
    } else {
      KeyNotReplaced(src, lines, c, i);
    }
  }

  lemma AddedGroupIsEmpty(src: seq<Record>, lines: seq<Line>, c: Context, i: nat)
    requires i < |Plan(src, lines, c)| && Plan(src, lines, c)[i].action == Add
    ensures Group(RecordsOf(lines), KeyFor(Plan(src, lines, c)[i]), c) == []
  {
    hide OpFor, Group, Keys, PlannedOps, WellFormedData;
    PlannedAt(src, RecordsOf(lines), c, i);
    BuiltRecords(KeyFor(Plan(src, lines, c)[i]), src, RecordsOf(lines), c);
  }

  // Distinct keys of a plan stay distinct once case is folded away.
  lemma FoldDistinct(a: Key, b: Key)
    requires Upper(a.typ) == a.typ && Upper(b.typ) == b.typ && Fold(a) == Fold(b)
    ensures a == b
  {
    CaseFolds(a.typ, b.typ);
  }

  lemma KeyNotReplaced(src: seq<Record>, lines: seq<Line>, c: Context, i: nat)
    requires Regular(src, lines, c) && i < |Plan(src, lines, c)|
    requires !Decided(Plan(src, lines, c)[i], Fetch(lines), c.zone)
    ensures Fold(KeyFor(Plan(src, lines, c)[i])) !in ReplacedKeys(Plan(src, lines, c), Fetch(lines), c.zone)
  {
    hide Fetch, Decide, PlannedOps, WritesOwnKey, Regular, OpKey, Fold, KeyFor, Upper, RecordsOf;
    var ops, live := Plan(src, lines, c), Fetch(lines);
    forall op | op in ops && Decided(op, live, c.zone) ensures OpKey(op) != Fold(KeyFor(ops[i])) {
      var j :| 0 <= j < |ops| && ops[j] == op;
      PlanWritesOwnKeys(src, lines, c, i);
      PlanWritesOwnKeys(src, lines, c, j);
      PlannedDistinct(src, RecordsOf(lines), c);
      if Fold(KeyFor(ops[j])) == Fold(KeyFor(ops[i])) {
        FoldDistinct(KeyFor(ops[j]), KeyFor(ops[i])) by { KeyTypes(ops[i]); KeyTypes(ops[j]); }
      }
    }
  }

  lemma KeyTypes(op: PlanOp)
    ensures KeyFor(op).typ == op.typ
  {
  }

  // After a run on the zone a plan was built from, the plan's ops that were written verify as applied, and
  // every other op verifies as it did before the run: no op has drifted.
  lemma ApplyThenVerify(src: seq<Record>, lines: seq<Line>, c: Context, i: nat)
    requires Regular(src, lines, c) && i < |Plan(src, lines, c)|
    ensures var ops := Plan(src, lines, c);
            && V.VerifyOp(ops[i], Group(RecordsOf(AppliedZone(ops, lines, c.zone)), KeyFor(ops[i]), c), c)
            == if Decided(ops[i], Fetch(lines), c.zone) then V.Verdict.Applied else V.FreshVerdict(ops[i])
  {
    hide Group, RecordsOf, AppliedZone, Fetch, Decide, V.VerifyOp, V.FreshVerdict, PlannedOps, Keys, Conflict, DnsPlan.Classify,
         V.WrittenFor, Survives, NamesAgree, Sound;
    var ops, dest := Plan(src, lines, c), RecordsOf(lines);
    var k := KeyFor(ops[i]);
    var conflict := Conflict(k, Keys(src, c) + Keys(dest, c));
    GroupAfter(src, lines, c, i);
    PlannedAt(src, dest, c, i);
    KeyIsRegular(src, lines, c, k);
    if Decided(ops[i], Fetch(lines), c.zone) {
      DecidedIsWrite(ops[i], Fetch(lines), c.zone);
      V.AppliedOpVerdict(k, Group(src, k, c), Group(dest, k, c), conflict, V.WrittenFor(ops[i], c.zone), c);
    } else {
      V.FreshOpVerdict(k, Group(src, k, c), Group(dest, k, c), conflict, c);
    }
  }

  // ---------------------------------------------------------------- apply, then roll back

  // The desired records of every op that writes are pairwise different.
  ghost predicate DistinctRecords(ops: seq<PlanOp>) {
    forall i :: 0 <= i < |ops| && IsWrite(ops[i]) ==>
      forall j, k :: 0 <= j < k < |ops[i].records| ==> PlannedForm(ops[i].records[j]) != PlannedForm(ops[i].records[k])
  }

  lemma PlanIsWellFormed(src: seq<Record>, lines: seq<Line>, c: Context)
    requires Regular(src, lines, c) && DistinctRecords(Plan(src, lines, c))
    ensures WellFormedPlan(Plan(src, lines, c), c.zone)
  {
    hide OpFor, Keys, PlannedOps, Group, WellFormedData, PlannedForm, WritesOwnKey, Fold, RecordsOf, Sound, NamesAgree;
    var ops, dest := Plan(src, lines, c), RecordsOf(lines);
    forall i | 0 <= i < |ops| && IsWrite(ops[i]) ensures WellFormedOp(ops[i], c.zone) {
      PlannedAt(src, dest, c, i);
      KeyIsRegular(src, lines, c, KeyFor(ops[i]));
      BuiltRecords(KeyFor(ops[i]), src, dest, c);
    }
    PlannedDistinct(src, dest, c);
    forall i, j | 0 <= i < j < |ops| ensures OpKey(ops[i]) != OpKey(ops[j]) {
      PlanWritesOwnKeys(src, lines, c, i);
      PlanWritesOwnKeys(src, lines, c, j);
      if Fold(KeyFor(ops[i])) == Fold(KeyFor(ops[j])) {
        FoldDistinct(KeyFor(ops[i]), KeyFor(ops[j]));
      }
    }
  }

  // No replace that is carried out keeps one of the old values of its rrset.
  ghost predicate ReplacesKeepNothing(ops: seq<PlanOp>, lines: seq<Line>, c: Context) {
    forall i :: 0 <= i < |ops| && Decided(ops[i], Fetch(lines), c.zone) && ops[i].action == Replace ==> NothingKept(ops[i])
  }

  // Planning against a zone, applying to it undisturbed and rolling back: every write is reported applied exactly
  // when no replace keeps an old value, and then the rollback leaves the zone saying what it said, the lines
  // outside the written rrsets in their places.
  lemma PlanApplyRollback(src: seq<Record>, lines: seq<Line>, c: Context)
    requires Regular(src, lines, c) && DistinctRecords(Plan(src, lines, c))
    ensures var ops := Plan(src, lines, c);
            var status := QuietStatuses(ops, lines, c.zone);
            && (AllWritesApplied(ops, Fetch(lines), c.zone, status) <==> ReplacesKeepNothing(ops, lines, c))
            && (ReplacesKeepNothing(ops, lines, c) ==>
                  && View(RolledBack(ops, lines, c.zone, status), c.zone) == View(lines, c.zone)
                  && Keep(lines, c.zone, WrittenKeys(ops, Fetch(lines), c.zone)) <= RolledBack(ops, lines, c.zone, status))
  {
    hide Regular, DistinctRecords, Plan, AllWritesApplied, WellFormedPlan, AbsentAdds, RolledBack, View, Fetch, Keep, WrittenKeys,
         QuietStatuses, NothingKept, Decided;
    var ops := Plan(src, lines, c);
    PlanIsWellFormed(src, lines, c);
    PlanAddsAbsent(src, lines, c);
    forall i | 0 <= i < |ops| && Decided(ops[i], Fetch(lines), c.zone) ensures ops[i].records != [] {
      DecidedIsWrite(ops[i], Fetch(lines), c.zone);
      WritesSomething(src, lines, c, i);
    }
    QuietRunApplies(ops, lines, c.zone);
    if ReplacesKeepNothing(ops, lines, c) {
      ApplyThenRollbackRestores(ops, lines, c.zone, QuietStatuses(ops, lines, c.zone));
    }
  }

  lemma WritesSomething(src: seq<Record>, lines: seq<Line>, c: Context, i: nat)
    requires i < |Plan(src, lines, c)| && IsWrite(Plan(src, lines, c)[i])
    ensures Plan(src, lines, c)[i].records != []
  {
    hide OpFor, Group, Keys, PlannedOps, WellFormedData;
    PlannedAt(src, RecordsOf(lines), c, i);
    BuiltRecords(KeyFor(Plan(src, lines, c)[i]), src, RecordsOf(lines), c);
  }

  // ---------------------------------------------------------------- which replaces are carried out

  // The record is spelled as the plan renders it, up to case and a trailing dot: its type in upper case, its
  // address canonical, its host absolute.
  predicate PlainlySpelled(r: Record, c: Context) {
    && Upper(r.typ) == r.typ
    && (r.typ == "A" || r.typ == "AAAA" ==> Lower(c.ip(r.address)) == Lower(r.address))
    && (r.typ == "CNAME" ==> HostForm(PlanName(r.target, c.zone)) == HostForm(r.target))
    && (r.typ == "MX" ==> HostForm(PlanName(r.exchange, c.zone)) == HostForm(r.exchange))
  }

  lemma {:induction false} SplitAtNul(a: string, b: string)
    requires '\0' !in a
    ensures SplitNul(a + "\0" + b) == Some((a, b))
  {
    if a == "" {
      assert (a + "\0" + b)[1..] == b;
    } else {
      SplitAtNul(a[1..], b);
      assert (a + "\0" + b)[1..] == a[1..] + "\0" + b;
      assert [a[0]] + a[1..] == a;
    }
  }

  // Two records of a type have the same value for the plan exactly when they say the same: the same canonical address,
  // the same canonical host, the same preference and host, or the same text.
  lemma SameValueMeans(a: Record, b: Record, c: Context)
    requires a.typ == b.typ
    ensures PlanValue(a, c) == PlanValue(b, c) <==>
            if a.typ == "A" || a.typ == "AAAA" then c.ip(a.address) == c.ip(b.address)
            else if a.typ == "CNAME" || a.typ == "NS" then PlanName(a.target, c.zone) == PlanName(b.target, c.zone)
            else if a.typ == "MX" then a.priority == b.priority && PlanName(a.exchange, c.zone) == PlanName(b.exchange, c.zone)
            else if a.typ == "TXT" then a.txt == b.txt else a.value == b.value
  {
    hide PlanName, Itoa, ParseInt;
    if a.typ == "MX" {
      SplitAtNul(Itoa(a.priority), PlanName(a.exchange, c.zone));
      SplitAtNul(Itoa(b.priority), PlanName(b.exchange, c.zone));
      ParseItoa(a.priority);
      ParseItoa(b.priority);
    }
  }

  // The guard recognises a live record by the value the plan noted for it exactly when it is plainly spelled.
  lemma PlanValueForm(r: Record, k: Key, c: Context)
    requires SetKey(r, c) == k && Writable(k.typ)
    ensures ValueForm(k.typ, PlanValue(r, c)) == SetForm(r) <==> PlainlySpelled(r, c)
  {
    hide PlanName, HostForm, Itoa, Lower;
    if r.typ == "MX" {
      SplitAtNul(Itoa(r.priority), PlanName(r.exchange, c.zone));
    }
  }

  function Recs(live: seq<Live>): (r: seq<Record>)
    ensures |r| == |live| && forall i :: 0 <= i < |live| ==> r[i] == live[i].rec
  {
    seq(|live|, i requires 0 <= i < |live| => live[i].rec)
  }

  lemma {:induction false} FetchedRecs(lines: seq<Line>, at: nat)
    requires at <= |lines|
    ensures Recs(FetchFrom(lines, at)) == RecordsOf(lines[at..])
    decreases |lines| - at
  {
    if at < |lines| {
      FetchedRecs(lines, at + 1);
      assert lines[at..][1..] == lines[at + 1..];
    }
  }

  lemma {:induction false} MatchingIsGroup(live: seq<Live>, op: PlanOp, c: Context)
    requires forall f :: f in live ==> PlanName(f.rec.name, c.zone) == LiveName(f.rec.name, c.zone)
    requires Upper(op.typ) == op.typ && Lower(op.name) == op.name
    ensures Recs(Matching(live, op, c.zone)) == Group(Recs(live), KeyFor(op), c)
  {
    hide InSet, SetKey, PlanName, LiveName, KeyOf, Upper, Lower;
    if live != [] {
      var n := |live| - 1;
      MatchingIsGroup(live[..n], op, c);
      assert Recs(live)[..n] == Recs(live[..n]);
      FoldsKey(live[n].rec, KeyFor(op), c);
      InSetIsAt(live[n].rec, op, c.zone);
      assert Fold(KeyFor(op)) == OpKey(op);
    }
  }

  lemma {:induction false} FormsOfGroup(m: seq<Live>, k: Key, c: Context)
    requires Writable(k.typ) && forall f :: f in m ==> SetKey(f.rec, c) == k
    ensures (forall f :: f in m ==> PlainlySpelled(f.rec, c)) ==> ValueForms(k.typ, Values(Recs(m), c)) == FreeForms(m, {})
    ensures |m| == 1 && !PlainlySpelled(m[0].rec, c) ==> ValueForms(k.typ, Values(Recs(m), c)) != FreeForms(m, {})
  {
    hide PlainlySpelled, SetKey, PlanValue, SetForm, ValueForm;
    if m != [] {
      FormsOfGroup(m[1..], k, c);
      PlanValueForm(m[0].rec, k, c);
      assert Values(Recs(m), c)[1..] == Values(Recs(m[1..]), c);
      if |m| == 1 {
        assert ValueForms(k.typ, Values(Recs(m), c)) == multiset{ValueForm(k.typ, PlanValue(m[0].rec, c))};
      }
    }
  }

  lemma {:induction false} InsertForms(typ: string, x: string, s: seq<string>)
    ensures ValueForms(typ, Insert(x, s, LeString)) == multiset{ValueForm(typ, x)} + ValueForms(typ, s)
  {
    hide ValueForm, StringLe;
    if s != [] {
      InsertForms(typ, x, s[1..]);
    }
  }

  lemma {:induction false} SortForms(typ: string, s: seq<string>)
    ensures ValueForms(typ, Sort(s, LeString)) == ValueForms(typ, s)
  {
    hide ValueForm, StringLe;
    if s != [] {
      SortForms(typ, s[1..]);
      InsertForms(typ, s[0], Sort(s[1..], LeString));
    }
  }

  // The live records of a planned rrset, as the guard and as the plan collect them.
  lemma LiveSetIsGroup(src: seq<Record>, lines: seq<Line>, c: Context, i: nat)
    requires Regular(src, lines, c) && i < |Plan(src, lines, c)|
    ensures var op := Plan(src, lines, c)[i];
            Recs(Matching(Fetch(lines), op, c.zone)) == Group(RecordsOf(lines), KeyFor(op), c)
  {
    hide PlannedOps, Group, Matching, Keys, OpFor, Survives, LiveName, PlanName, Upper, Sound, Lower;
    var op := Plan(src, lines, c)[i];
    PlannedAt(src, RecordsOf(lines), c, i);
    KeyIsRegular(src, lines, c, KeyFor(op));
    FetchedRecs(lines, 0);
    assert lines[0..] == lines;
    forall f | f in Fetch(lines) ensures PlanName(f.rec.name, c.zone) == LiveName(f.rec.name, c.zone) {
      var n :| 0 <= n < |Fetch(lines)| && Fetch(lines)[n] == f;
      assert lines[f.line] in lines;
    }
    MatchingIsGroup(Fetch(lines), op, c);
  }

  // The live records of the i-th op's rrset are, as a multiset of what the guard compares, those the plan noted.
  ghost predicate Recognised(op: PlanOp, lines: seq<Line>, c: Context) {
    ValueForms(op.typ, op.destValues) == FreeForms(Matching(Fetch(lines), op, c.zone), {})
  }

  // What the guard makes of a planned replace on the unchanged zone: skipped where all desired records are live
  // already, else carried out exactly where it recognises the values the plan noted, else refused as drifted.
  lemma ReplaceProceeds(src: seq<Record>, lines: seq<Line>, c: Context, i: nat)
    requires Regular(src, lines, c) && i < |Plan(src, lines, c)| && Plan(src, lines, c)[i].action == Replace
    ensures var op, live := Plan(src, lines, c)[i], Fetch(lines);
            var present, verdict := AllPresent(op.records, Matching(live, op, c.zone), c.zone), Precondition(op, live, c.zone);
            && (verdict == AlreadyPresent <==> present)
            && (verdict.Proceed? <==> !present && Recognised(op, lines, c))
            && (verdict == Refused(ValueDrift) <==> !present && !Recognised(op, lines, c))
            && (Decided(op, live, c.zone) <==> verdict.Proceed?)
  {
    hide PlannedOps, Group, Matching, Keys, OpFor, Regular, AllPresent, PlainlySpelled, RecordsOf, Fetch, WellFormedData, Sort,
         SortedValues, Values, ValueForms, FreeForms, Assigned;
    var op, live := Plan(src, lines, c)[i], Fetch(lines);
    ReplaceValues(src, lines, c, i);
    FetchDistinct(lines);
    assert WritableType(op.typ) == Some(op.typ) by { WritableNames(op.typ); }
    if !AllPresent(op.records, Matching(live, op, c.zone), c.zone) {
      RefusesOnlyOnDrift(op, live, c.zone);
    }
  }

  lemma WritableNames(typ: string)
    requires Writable(typ)
    ensures WritableType(typ) == Some(typ)
  {
  }

  lemma DestValuesOf(k: Key, src: seq<Record>, dest: seq<Record>, c: Context)
    ensures OpFor(k, src, dest, c).destValues == SortedValues(Group(dest, k, c), c)
  {
    hide Group, Keys, Conflict, SortedValues, AllMapped, Mentions, SubstitutedValues, SortStrings;
  }

  // The plan noted one value for every live record of the rrset; they are recognised if all records are plainly
  // spelled, and a record on its own only if it is.
  lemma ReplaceValues(src: seq<Record>, lines: seq<Line>, c: Context, i: nat)
    requires Regular(src, lines, c) && i < |Plan(src, lines, c)| && Plan(src, lines, c)[i].action == Replace
    ensures var op, m := Plan(src, lines, c)[i], Matching(Fetch(lines), Plan(src, lines, c)[i], c.zone);
            && Writable(op.typ) && m != [] && |m| == |op.destValues|
            && ((forall f :: f in m ==> PlainlySpelled(f.rec, c)) ==> Recognised(op, lines, c))
            && (|m| == 1 && !PlainlySpelled(m[0].rec, c) ==> !Recognised(op, lines, c))
  {
    hide PlannedOps, Group, Matching, Keys, OpFor, Regular, PlainlySpelled, RecordsOf, Fetch, WellFormedData, Sort, SetKey,
         ValueForms, FreeForms, PlanValue;
    var op, dest := Plan(src, lines, c)[i], RecordsOf(lines);
    var m, k := Matching(Fetch(lines), op, c.zone), KeyFor(op);
    PlannedAt(src, dest, c, i);
    LiveSetIsGroup(src, lines, c, i);
    BuiltRecords(k, src, dest, c);
    DestValuesOf(k, src, dest, c);
    V.GroupHolds(dest, k, c);
    forall f | f in m ensures SetKey(f.rec, c) == k {
      var n :| 0 <= n < |m| && m[n] == f;
      assert Recs(m)[n] in Group(dest, k, c);
    }
    FormsOfGroup(m, k, c);
    SortForms(op.typ, Values(Recs(m), c));
  }

  // A host is rendered as it is spelled exactly when it is absolute - or the zone itself - with no white space around.
  lemma AbsoluteHost(host: string, zone: string)
    requires ZoneName(zone)
    ensures HostForm(PlanName(host, zone)) == HostForm(host) <==> Tight(host) && (EndsWith(host, ".") || Lower(host) == zone)
  {
    hide Trim, Lower, PlanName, IsSpace;
    PlanNameCases(host, zone);
    PlanNameIsCanonical(host, zone);
    var p, h := Lower(Trim(host)), Lower(host);
    assert Lower(zone) == zone && TrimSuffix(zone, ".") == zone && TrimSuffix(zone + ".", ".") == zone;
    assert TrimSuffix(p + "." + (zone + "."), ".") == p + "." + zone by { DotDropped(p + "." + zone, p, zone); }
    assert EndsWith(host, ".") <==> EndsWith(h, ".") by { DotLowers(host); }
    if !Tight(host) {
      TrimShortens(host);
      OuterSpace(host, zone);
    }
  }

  lemma DotDropped(s: string, p: string, zone: string)
    requires s == p + "." + zone
    ensures TrimSuffix(p + "." + (zone + "."), ".") == s
  {
    assert p + "." + (zone + ".") == s + ".";
  }

  lemma DotLowers(host: string)
    ensures EndsWith(host, ".") <==> EndsWith(Lower(host), ".")
  {
    if host != "" {
      assert Lower(host)[|host| - 1] == LowerChar(host[|host| - 1]);
    }
  }

  // White space around a host stays in what the guard compares, and is never in what the plan notes.
  lemma OuterSpace(host: string, zone: string)
    requires ZoneName(zone) && !Tight(host)
    ensures HostForm(host) != HostForm(PlanName(host, zone))
  {
    hide Trim, Lower, PlanName;
    var p, h, r := Lower(Trim(host)), Lower(host), PlanName(host, zone);
    PlanNameCases(host, zone);
    PlanNameIsCanonical(host, zone);
    TrimShortens(host);
    assert h[0] == LowerChar(host[0]) && h[|h| - 1] == LowerChar(host[|host| - 1]);
    if !IsSpace(host[0]) {
      assert HostForm(host) == h && !IsSpace(zone[|zone| - 1]);
      if r == zone + "." {
        assert TrimSuffix(r, ".") == zone;
      } else if r == p + "." + (zone + ".") {
        DotDropped(p + "." + zone, p, zone);
        assert (p + "." + zone)[|p + "." + zone| - 1] == zone[|zone| - 1];
      }
    }
  }

  function HostOf(r: Record): string { if r.typ == "CNAME" then r.target else r.exchange }

  // So an rrset of one CNAME or MX record that the server reports with a relative host, such as `www`, is refused as
  // drifted although nothing changed.
  lemma RelativeTargetIsRefused(src: seq<Record>, lines: seq<Line>, c: Context, i: nat, f: Live)
    requires Regular(src, lines, c) && i < |Plan(src, lines, c)| && Plan(src, lines, c)[i].action == Replace
    requires Matching(Fetch(lines), Plan(src, lines, c)[i], c.zone) == [f] && f.rec.typ in {"CNAME", "MX"}
    requires !EndsWith(HostOf(f.rec), ".") && Lower(HostOf(f.rec)) != c.zone
    requires !AllPresent(Plan(src, lines, c)[i].records, [f], c.zone)
    ensures Precondition(Plan(src, lines, c)[i], Fetch(lines), c.zone) == Refused(ValueDrift)
  {
    hide Plan, Recognised, Precondition, AllPresent, Matching, PlanName, HostForm, Lower;
    ReplaceProceeds(src, lines, c, i);
    ReplaceValues(src, lines, c, i);
    AbsoluteHost(HostOf(f.rec), c.zone);
  }

  // A replace that is not carried out is still pending after the run, whichever of the two reasons it has: one
  // that only takes values away is skipped as already present every time.
  lemma ShrinkingReplaceStaysPending(src: seq<Record>, lines: seq<Line>, c: Context, i: nat)
    requires Regular(src, lines, c) && i < |Plan(src, lines, c)| && Plan(src, lines, c)[i].action == Replace
    ensures var ops, op := Plan(src, lines, c), Plan(src, lines, c)[i];
            V.VerifyOp(op, Group(RecordsOf(AppliedZone(ops, lines, c.zone)), KeyFor(op), c), c) == V.Verdict.Pending <==>
            AllPresent(op.records, Matching(Fetch(lines), op, c.zone), c.zone) || !Recognised(op, lines, c)
  {
    hide Plan, Regular, Recognised, AllPresent, Matching, Group, RecordsOf, AppliedZone, V.VerifyOp, Decided, Precondition;
    ReplaceProceeds(src, lines, c, i);
    ApplyThenVerify(src, lines, c, i);
  }
}
