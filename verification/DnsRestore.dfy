/** What a whole `dns apply` run followed by its rollback does to a zone. */
module DnsRestore {
  import opened Text
  import opened DnsNames
  import opened DnsText
  import opened DnsZone
  import opened DnsPrecondition
  import opened DnsApply
  import opened DnsRollback

  // ---------------------------------------------------------------- what a zone says

  datatype Content = Addr(address: string) | Owner(name: string) | Exchanger(priority: nat, exchange: string)
                   | Txt(text: string) | Verbatim(rec: Record)

  // A record up to the spelling of its names.
  datatype Canon = Canon(typ: string, name: string, ttl: int, content: Content)

  function CanonOf(r: Record, zone: string): Canon {
    Canon(r.typ, LiveName(r.name, zone), r.ttl,
          if r.typ == "A" || r.typ == "AAAA" then Addr(r.address)
          else if r.typ == "CNAME" then Owner(LiveName(r.target, zone))
          else if r.typ == "MX" then Exchanger(r.priority, LiveName(r.exchange, zone))
          else if r.typ == "TXT" then Txt(r.txt)
          else Verbatim(r))
  }

  function CanonKey(c: Canon): Key { Key(Lower(c.typ), c.name) }

  function View(lines: seq<Line>, zone: string): multiset<Canon> {
    if lines == [] then multiset{}
    else (if lines[0].Entry? then multiset{CanonOf(lines[0].rec, zone)} else multiset{}) + View(lines[1..], zone)
  }

  function ViewLive(live: seq<Live>, zone: string): multiset<Canon> {
    if live == [] then multiset{}
    else ViewLive(live[..|live| - 1], zone) + multiset{CanonOf(live[|live| - 1].rec, zone)}
  }

  lemma {:induction false} ViewConcat(a: seq<Line>, b: seq<Line>, zone: string)
    ensures View(a + b, zone) == View(a, zone) + View(b, zone)
  {
    if a == [] {
      assert a + b == b;
    } else {
      assert (a + b)[1..] == a[1..] + b;
      ViewConcat(a[1..], b, zone);
    }
  }

  lemma {:induction false} KeepConcat(a: seq<Line>, b: seq<Line>, zone: string, keys: set<Key>)
    ensures Keep(a + b, zone, keys) == Keep(a, zone, keys) + Keep(b, zone, keys)
  {
    if a == [] {
      assert a + b == b;
    } else {
      assert (a + b)[1..] == a[1..] + b;
      KeepConcat(a[1..], b, zone, keys);
    }
  }

  lemma {:induction false} KeepView(lines: seq<Line>, zone: string, keys: set<Key>, c: Canon)
    ensures View(Keep(lines, zone, keys), zone)[c] == if CanonKey(c) in keys then 0 else View(lines, zone)[c]
  {
    if lines != [] {
      KeepView(lines[1..], zone, keys, c);
      var head := if At(lines[0], zone, keys) then [] else [lines[0]];
      ViewConcat(head, Keep(lines[1..], zone, keys), zone);
      assert View([lines[0]], zone) == View([lines[0]], zone) && [lines[0]][1..] == [];
    }
  }

  lemma {:induction false} NoView(lines: seq<Line>, zone: string, c: Canon)
    requires forall l :: l in lines ==> !At(l, zone, {CanonKey(c)})
    ensures View(lines, zone)[c] == 0
  {
    if lines != [] {
      NoView(lines[1..], zone, c);
      assert lines[0] in lines;
    }
  }

  lemma {:induction false} FetchView(lines: seq<Line>, at: nat, zone: string)
    requires at <= |lines|
    ensures ViewLive(FetchFrom(lines, at), zone) == View(lines[at..], zone)
    decreases |lines| - at
  {
    if at < |lines| {
      FetchView(lines, at + 1, zone);
      assert lines[at..][1..] == lines[at + 1..];
      if lines[at].Entry? {
        ViewCons(Live(at, lines[at].rec), FetchFrom(lines, at + 1), zone);
      }
    }
  }

  lemma {:induction false} ViewCons(f: Live, live: seq<Live>, zone: string)
    ensures ViewLive([f] + live, zone) == multiset{CanonOf(f.rec, zone)} + ViewLive(live, zone)
  {
    hide CanonOf;
    if live == [] {
      assert [f] + live == [f] && [f][..0] == [];
    } else {
      var all, front, last := [f] + live, live[..|live| - 1], live[|live| - 1];
      assert all[..|live|] == [f] + front && all[|live|] == last;
      ViewCons(f, front, zone);
      assert ViewLive(all, zone) == ViewLive([f] + front, zone) + multiset{CanonOf(last.rec, zone)};
    }
  }

  // ---------------------------------------------------------------- well-formed plans

  function OpKey(op: PlanOp): Key { Key(Lower(op.typ), Lower(op.name)) }

  ghost predicate WellFormedData(rec: PlanRecord) {
    if rec.typ == "MX" then |rec.data| == 2 && exists p: nat :: rec.data[0] == Itoa(p)
    else if rec.typ == "TXT" then |rec.data| >= 1
    else |rec.data| == 1
  }

  // An op as the planner builds it: one rrset of a type the tool writes, under a name that survives being
  // written, its records pairwise different.
  ghost predicate WellFormedOp(op: PlanOp, zone: string) {
    && Writable(op.typ) && Canonical(op.name) && LiveName(ToRelative(op.name, zone), zone) == op.name
    && (forall k :: 0 <= k < |op.records| ==>
          op.records[k].typ == op.typ && op.records[k].name == op.name && WellFormedData(op.records[k]))
    && (forall j, k :: 0 <= j < k < |op.records| ==> PlannedForm(op.records[j]) != PlannedForm(op.records[k]))
  }

  ghost predicate WellFormedPlan(ops: seq<PlanOp>, zone: string) {
    && (forall i :: 0 <= i < |ops| && IsWrite(ops[i]) ==> WellFormedOp(ops[i], zone))
    && (forall i, j :: 0 <= i < j < |ops| && IsWrite(ops[i]) && IsWrite(ops[j]) ==> OpKey(ops[i]) != OpKey(ops[j]))
  }

  // ---------------------------------------------------------------- what is written

  lemma ParsedAdd(op: PlanOp, k: nat, zone: string)
    requires WellFormedOp(op, zone) && k < |op.records|
    ensures var r := Parsed(AddOf(op.records[k], zone));
            && r.typ == op.typ && KeyOf(r, zone) == OpKey(op) && LiveName(r.name, zone) == op.name
            && LiveForm(op.typ, r) == PlannedForm(op.records[k])
  {
    hide LiveName, ToRelative, Join;
    var rec := op.records[k];
    if rec.typ == "MX" {
      var p: nat :| rec.data[0] == Itoa(p);
      ParseItoa(p);
    }
  }

  // A written line matches a planned record of its op exactly when it was written for that record.
  lemma MatchesOwnRecord(op: PlanOp, j: nat, k: nat, zone: string)
    requires WellFormedOp(op, zone) && j < |op.records| && k < |op.records|
    ensures DataMatch(op.records[j], Parsed(AddOf(op.records[k], zone))) <==> j == k
  {
    hide PlannedForm, LiveForm, DataMatch, Parsed;
    ParsedAdd(op, k, zone);
    MatchesByForm(Parsed(AddOf(op.records[k], zone)), "", op.records[j]);
  }

  lemma Restorable(r: Record, zone: string)
    requires Writable(r.typ) && LiveName(ToRelative(LiveName(r.name, zone), zone), zone) == LiveName(r.name, zone)
    ensures CanonOf(Parsed(AddOf(BackupRecord(r, zone), zone)), zone) == CanonOf(r, zone)
  {
    hide LiveName, ToRelative;
    LiveNameIsCanonical(r.target, zone);
    LiveNameIsCanonical(r.exchange, zone);
    ParseItoa(r.priority);
    assert Join([r.txt]) == r.txt + "" == r.txt;
  }

  // ---------------------------------------------------------------- the batch

  predicate Decided(op: PlanOp, live: seq<Live>, zone: string) {
    Decide(op, Some(live), zone).Write?
  }

  // The rrsets the batch writes, and of those the ones it takes away first.
  function WrittenKeys(ops: seq<PlanOp>, live: seq<Live>, zone: string): set<Key> {
    set op | op in ops && Decided(op, live, zone) :: OpKey(op)
  }

  function ReplacedKeys(ops: seq<PlanOp>, live: seq<Live>, zone: string): set<Key> {
    set op | op in ops && Decided(op, live, zone) && op.action == Replace :: OpKey(op)
  }

  lemma InSetIsAt(r: Record, op: PlanOp, zone: string)
    ensures InSet(r, op.typ, op.name, zone) <==> KeyOf(r, zone) == OpKey(op)
  {
  }

  // The lines the batch removes are exactly those of the replaced rrsets.
  lemma {:induction false} BatchRemovesSets(ops: seq<PlanOp>, live: seq<Live>, zone: string)
    requires DistinctLines(live)
    ensures forall l :: l in BatchRemoves(ops, Some(live), zone) <==>
      exists f :: f in live && f.line == l && KeyOf(f.rec, zone) in ReplacedKeys(ops, live, zone)
  {
    hide Precondition, KeyOf, InSet;
    if ops != [] {
      var n := |ops| - 1;
      var op := ops[n];
      BatchRemovesSets(ops[..n], live, zone);
      assert ops == ops[..n] + [op];
      var here := if Decided(op, live, zone) && op.action == Replace then {OpKey(op)} else {};
      assert ReplacedKeys(ops, live, zone) == ReplacedKeys(ops[..n], live, zone) + here;
      if Decided(op, live, zone) && op.action == Replace {
        ProceedTakesTheWholeSet(op, live, zone);
        forall f | f in live ensures InSet(f.rec, op.typ, op.name, zone) <==> KeyOf(f.rec, zone) in here {
          InSetIsAt(f.rec, op, zone);
        }
      }
    }
  }

  lemma FetchDistinct(lines: seq<Line>)
    ensures DistinctLines(Fetch(lines))
  {
  }

  // Removing the lines at some keys, given by their indexes, keeps the rest in order.
  lemma RemoveKeys(lines: seq<Line>, removes: seq<nat>, zone: string, keys: set<Key>)
    requires forall l :: l in removes <==> exists f :: f in Fetch(lines) && f.line == l && KeyOf(f.rec, zone) in keys
    ensures Without(lines, 0, Indexes(removes)) == Keep(lines, zone, keys)
  {
    hide KeyOf;
    forall i | 0 <= i < |lines| ensures 0 + i in Indexes(removes) <==> At(lines[i], zone, keys) {
      assert lines[i].Entry? ==> Live(i, lines[i].rec) in Fetch(lines);
      if i in removes {
        var f :| f in Fetch(lines) && f.line == i && KeyOf(f.rec, zone) in keys;
        var k :| 0 <= k < |Fetch(lines)| && Fetch(lines)[k] == f;
      }
    }
    WithoutIsKeep(lines, 0, Indexes(removes), zone, keys);
  }

  // Where the k-th record of the i-th op stands among the added records.
  function Pos(ops: seq<PlanOp>, live: seq<Live>, zone: string, i: nat, k: nat): nat
    requires i <= |ops|
  {
    |BatchAdds(ops[..i], Some(live), zone)| + k
  }

  lemma {:induction false} PosContent(ops: seq<PlanOp>, live: seq<Live>, zone: string, i: nat, k: nat)
    requires i < |ops| && Decided(ops[i], live, zone) && k < |ops[i].records|
    ensures Pos(ops, live, zone, i, k) < |BatchAdds(ops, Some(live), zone)|
    ensures BatchAdds(ops, Some(live), zone)[Pos(ops, live, zone, i, k)] == AddOf(ops[i].records[k], zone)
  {
    hide Decided, BatchAdds, AddOf;
    var n := |ops| - 1;
    BatchStep(ops, live, zone);
    if i < n {
      PosContent(ops[..n], live, zone, i, k);
      assert ops[..n][..i] == ops[..i];
    }
  }

  lemma BatchStep(ops: seq<PlanOp>, live: seq<Live>, zone: string)
    requires ops != []
    ensures var last := ops[|ops| - 1];
            BatchAdds(ops, Some(live), zone) ==
            BatchAdds(ops[..|ops| - 1], Some(live), zone) + (if Decided(last, live, zone) then AddsOf(last.records, zone) else [])
  {
    hide Decide;
  }

  // Every added record is the record of some op at its place.
  lemma {:induction false} PosOf(ops: seq<PlanOp>, live: seq<Live>, zone: string, x: nat) returns (i: nat, k: nat)
    requires x < |BatchAdds(ops, Some(live), zone)|
    ensures i < |ops| && Decided(ops[i], live, zone) && k < |ops[i].records| && x == Pos(ops, live, zone, i, k)
  {
    hide Decide;
    var n := |ops| - 1;
    var before := |BatchAdds(ops[..n], Some(live), zone)|;
    if x < before {
      i, k := PosOf(ops[..n], live, zone, x);
      assert ops[..n][..i] == ops[..i];
    } else {
      i, k := n, x - before;
    }
  }

  // ---------------------------------------------------------------- the edited zone

  ghost predicate AbsentAdds(ops: seq<PlanOp>, lines: seq<Line>, zone: string) {
    forall i :: 0 <= i < |ops| && ops[i].action == Add ==> forall l :: l in lines ==> !At(l, zone, {OpKey(ops[i])})
  }

  function Kept(ops: seq<PlanOp>, lines: seq<Line>, zone: string): seq<Line> {
    Keep(lines, zone, ReplacedKeys(ops, Fetch(lines), zone))
  }

  function AppliedZone(ops: seq<PlanOp>, lines: seq<Line>, zone: string): seq<Line> {
    Edited(lines, BatchRemoves(ops, Some(Fetch(lines)), zone), BatchAdds(ops, Some(Fetch(lines)), zone))
  }

  lemma AppliedZoneIs(ops: seq<PlanOp>, lines: seq<Line>, zone: string)
    ensures AppliedZone(ops, lines, zone) == Kept(ops, lines, zone) + Entries(BatchAdds(ops, Some(Fetch(lines)), zone))
  {
    hide BatchRemoves, BatchAdds, Fetch, ReplacedKeys;
    FetchDistinct(lines);
    BatchRemovesSets(ops, Fetch(lines), zone);
    RemoveKeys(lines, BatchRemoves(ops, Some(Fetch(lines)), zone), zone, ReplacedKeys(ops, Fetch(lines), zone));
  }

  lemma KeptHasNoWrittenKey(ops: seq<PlanOp>, lines: seq<Line>, zone: string, l: Line)
    requires AbsentAdds(ops, lines, zone) && l in Kept(ops, lines, zone)
    ensures !At(l, zone, WrittenKeys(ops, Fetch(lines), zone))
  {
    hide Fetch, KeyOf, Precondition;
    if l.Entry? {
      forall op | op in ops && Decided(op, Fetch(lines), zone) ensures OpKey(op) != KeyOf(l.rec, zone) {
        var i :| 0 <= i < |ops| && ops[i] == op;
        if op.action == Replace {
          assert OpKey(op) in ReplacedKeys(ops, Fetch(lines), zone);
        } else {
          assert !At(l, zone, {OpKey(ops[i])});
        }
      }
    }
  }

  // The line of the edited zone that holds the k-th record of the i-th op.
  lemma WrittenAt(ops: seq<PlanOp>, lines: seq<Line>, zone: string, i: nat, k: nat)
    requires i < |ops| && Decided(ops[i], Fetch(lines), zone) && k < |ops[i].records|
    ensures var l, edited := |Kept(ops, lines, zone)| + Pos(ops, Fetch(lines), zone, i, k), AppliedZone(ops, lines, zone);
            l < |edited| && edited[l] == Entry(Parsed(AddOf(ops[i].records[k], zone)))
  {
    hide *;
    AppliedZoneIs(ops, lines, zone);
    PosContent(ops, Fetch(lines), zone, i, k);
  }

  // In the edited zone the planned record is found on the line written for it, and on no other.
  lemma FindsOwnLine(ops: seq<PlanOp>, lines: seq<Line>, zone: string, i: nat, k: nat)
    requires WellFormedPlan(ops, zone) && AbsentAdds(ops, lines, zone)
    requires i < |ops| && Decided(ops[i], Fetch(lines), zone) && k < |ops[i].records|
    ensures FindLine(ops[i].records[k], Fetch(AppliedZone(ops, lines, zone)), zone)
         == Some(|Kept(ops, lines, zone)| + Pos(ops, Fetch(lines), zone, i, k))
  {
    hide FindLine, InSet, DataMatch, Parsed, BatchAdds, WellFormedOp, KeyOf, Kept, AppliedZone, Decide;
    var live, kept, rec := Fetch(lines), Kept(ops, lines, zone), ops[i].records[k];
    var edited := AppliedZone(ops, lines, zone);
    var seen := Fetch(edited);
    var x := Pos(ops, live, zone, i, k);
    WrittenAt(ops, lines, zone, i, k);
    FetchHolds(edited, |kept| + x);
    assert IsWrite(ops[i]) by { DecidedIsWrite(ops[i], live, zone); }
    OwnLineMatches(ops[i], k, zone);
    assert Live(|kept| + x, Parsed(AddOf(rec, zone))) in seen;
    assert RecordPresent(rec, seen, zone);
    var line := FindLine(rec, seen, zone);
    var j :| 0 <= j < |seen| && seen[j].line == line.value && InSet(seen[j].rec, rec.typ, rec.name, zone) && DataMatch(rec, seen[j].rec);
    MatchedLineIsOwn(ops, lines, zone, i, k, seen[j]);
  }

  lemma DecidedIsWrite(op: PlanOp, live: seq<Live>, zone: string)
    requires Decided(op, live, zone)
    ensures IsWrite(op)
  {
  }

  lemma OwnLineMatches(op: PlanOp, k: nat, zone: string)
    requires WellFormedOp(op, zone) && k < |op.records|
    ensures var rec, r := op.records[k], Parsed(AddOf(op.records[k], zone));
            InSet(r, rec.typ, rec.name, zone) && DataMatch(rec, r) && KeyOf(r, zone) == OpKey(op)
  {
    hide Parsed, AddOf, DataMatch, LiveName;
    ParsedAdd(op, k, zone);
    MatchesOwnRecord(op, k, k, zone);
  }

  lemma MatchedLineIsOwn(ops: seq<PlanOp>, lines: seq<Line>, zone: string, i: nat, k: nat, f: Live)
    requires WellFormedPlan(ops, zone) && AbsentAdds(ops, lines, zone)
    requires i < |ops| && Decided(ops[i], Fetch(lines), zone) && k < |ops[i].records|
    requires f in Fetch(AppliedZone(ops, lines, zone))
    requires InSet(f.rec, ops[i].records[k].typ, ops[i].records[k].name, zone) && DataMatch(ops[i].records[k], f.rec)
    ensures f.line == |Kept(ops, lines, zone)| + Pos(ops, Fetch(lines), zone, i, k)
  {
    hide InSet, DataMatch, Parsed, BatchAdds, KeyOf, Kept, AppliedZone, Decide, AddOf;
    var live, kept, rec := Fetch(lines), Kept(ops, lines, zone), ops[i].records[k];
    DecidedIsWrite(ops[i], live, zone);
    assert OpKey(ops[i]) == Key(Lower(rec.typ), Lower(rec.name));
    InSetIsAt(f.rec, PlanOp(Add, rec.typ, rec.name, [], []), zone);
    var j, m := WrittenLine(ops, lines, zone, f);
    DecidedIsWrite(ops[j], live, zone);
    OwnLineMatches(ops[j], m, zone);
    assert i == j;
    MatchesOwnRecord(ops[i], k, m, zone);
  }

  // A line of the edited zone at a written key was added by the batch.
  lemma WrittenLine(ops: seq<PlanOp>, lines: seq<Line>, zone: string, f: Live) returns (j: nat, m: nat)
    requires AbsentAdds(ops, lines, zone) && f in Fetch(AppliedZone(ops, lines, zone))
    requires KeyOf(f.rec, zone) in WrittenKeys(ops, Fetch(lines), zone)
    ensures j < |ops| && Decided(ops[j], Fetch(lines), zone) && m < |ops[j].records|
    ensures f.line == |Kept(ops, lines, zone)| + Pos(ops, Fetch(lines), zone, j, m)
    ensures f.rec == Parsed(AddOf(ops[j].records[m], zone))
  {
    hide Parsed, BatchAdds, KeyOf, Kept, AppliedZone, Decide, AddOf, WrittenKeys;
    var kept, edited := Kept(ops, lines, zone), AppliedZone(ops, lines, zone);
    AppliedZoneIs(ops, lines, zone);
    var n :| 0 <= n < |Fetch(edited)| && Fetch(edited)[n] == f;
    assert edited[f.line] == Entry(f.rec);
    if f.line < |kept| {
      assert kept[f.line] in kept;
      KeptHasNoWrittenKey(ops, lines, zone, kept[f.line]);
    }
    j, m := PosOf(ops, Fetch(lines), zone, f.line - |kept|);
    PosContent(ops, Fetch(lines), zone, j, m);
  }

  // ---------------------------------------------------------------- the rollback of that run

  // Every op decided to be written is reported applied.
  ghost predicate AllWritesApplied(ops: seq<PlanOp>, live: seq<Live>, zone: string, status: seq<Status>) {
    |status| == |ops| &&
    forall i :: 0 <= i < |ops| ==>
      match Decide(ops[i], Some(live), zone) case Done(s) => status[i] == s case Write(_) => status[i] == Applied
  }

  function TargetOf(op: PlanOp, backup: seq<Live>, zone: string): Target {
    Target(op.action, op.records, if op.action == Replace then OldRecords(backup, op, zone) else [])
  }

  // The inverse of one op finds exactly the lines of its records, or has nothing to do.
  lemma {:induction false} FoundLinesAre(ops: seq<PlanOp>, lines: seq<Line>, zone: string, i: nat, m: nat)
    requires WellFormedPlan(ops, zone) && AbsentAdds(ops, lines, zone)
    requires i < |ops| && Decided(ops[i], Fetch(lines), zone) && m <= |ops[i].records|
    ensures var found := FoundLines(ops[i].records[..m], Fetch(AppliedZone(ops, lines, zone)), zone);
            |found| == m && forall k :: 0 <= k < m ==>
              found[k] == |Kept(ops, lines, zone)| + Pos(ops, Fetch(lines), zone, i, k)
  {
    hide *;
    var seen := Fetch(AppliedZone(ops, lines, zone));
    if m == 0 {
      FoundNothing(seen, zone);
    } else {
      FoundLinesAre(ops, lines, zone, i, m - 1);
      FindsOwnLine(ops, lines, zone, i, m - 1);
      FoundStep(ops[i].records, m - 1, seen, zone);
    }
  }

  lemma UndoOf(ops: seq<PlanOp>, lines: seq<Line>, zone: string, i: nat)
    requires WellFormedPlan(ops, zone) && AbsentAdds(ops, lines, zone)
    requires i < |ops| && Decided(ops[i], Fetch(lines), zone)
    ensures var t := TargetOf(ops[i], Fetch(lines), zone);
            var d := DecideUndo(t, Fetch(AppliedZone(ops, lines, zone)), zone);
            var found := FoundLines(ops[i].records, Fetch(AppliedZone(ops, lines, zone)), zone);
            && (if ops[i].records == [] then ops[i].action == Add && d.Done? else d == Write(found))
            && |found| == |ops[i].records|
            && forall k :: 0 <= k < |found| ==> found[k] == |Kept(ops, lines, zone)| + Pos(ops, Fetch(lines), zone, i, k)
  {
    hide FindLine, Fetch, AppliedZone, Kept, WellFormedPlan, AbsentAdds, BatchAdds, Matching, Precondition;
    assert ops[i].records[..|ops[i].records|] == ops[i].records;
    FoundLinesAre(ops, lines, zone, i, |ops[i].records|);
    if ops[i].action == Replace {
      FetchDistinct(lines);
      ProceedIsWritable(ops[i], Fetch(lines), zone);
    }
  }

  // The lines found for an applied op are those of its rrset in the edited zone.
  lemma FoundLinesAreTheSet(ops: seq<PlanOp>, lines: seq<Line>, zone: string, i: nat)
    requires WellFormedPlan(ops, zone) && AbsentAdds(ops, lines, zone)
    requires i < |ops| && Decided(ops[i], Fetch(lines), zone)
    ensures var seen := Fetch(AppliedZone(ops, lines, zone));
            forall l :: l in FoundLines(ops[i].records, seen, zone) <==>
              exists f :: f in seen && f.line == l && KeyOf(f.rec, zone) == OpKey(ops[i])
  {
    hide FindLine, AppliedZone, Kept, BatchAdds, FoundLines, DecideUndo, Pos, KeyOf, Parsed, Decide;
    var live, seen := Fetch(lines), Fetch(AppliedZone(ops, lines, zone));
    var found := FoundLines(ops[i].records, seen, zone);
    UndoOf(ops, lines, zone, i);
    forall l | l in found ensures exists f :: f in seen && f.line == l && KeyOf(f.rec, zone) == OpKey(ops[i]) {
      var k :| 0 <= k < |found| && found[k] == l;
      OwnLineInZone(ops, lines, zone, i, k);
    }
    forall f | f in seen && KeyOf(f.rec, zone) == OpKey(ops[i]) ensures f.line in found {
      var j, m := WrittenLine(ops, lines, zone, f);
      DecidedIsWrite(ops[i], live, zone);
      DecidedIsWrite(ops[j], live, zone);
      OwnLineMatches(ops[j], m, zone);
      assert i == j;
      assert found[m] == f.line;
    }
  }

  lemma WrittenUnderKey(ops: seq<PlanOp>, live: seq<Live>, zone: string, i: nat, k: nat)
    requires WellFormedPlan(ops, zone) && i < |ops| && Decided(ops[i], live, zone) && k < |ops[i].records|
    ensures KeyOf(Parsed(AddOf(ops[i].records[k], zone)), zone) == OpKey(ops[i])
  {
    hide WellFormedOp, Decide, KeyOf, OpKey, Parsed, AddOf, InSet, DataMatch;
    DecidedIsWrite(ops[i], live, zone);
    OwnLineMatches(ops[i], k, zone);
  }

  lemma OwnLineInZone(ops: seq<PlanOp>, lines: seq<Line>, zone: string, i: nat, k: nat)
    requires WellFormedPlan(ops, zone) && AbsentAdds(ops, lines, zone)
    requires i < |ops| && Decided(ops[i], Fetch(lines), zone) && k < |ops[i].records|
    ensures var f := Live(|Kept(ops, lines, zone)| + Pos(ops, Fetch(lines), zone, i, k), Parsed(AddOf(ops[i].records[k], zone)));
            f in Fetch(AppliedZone(ops, lines, zone)) && KeyOf(f.rec, zone) == OpKey(ops[i])
  {
    hide *;
    WrittenUnderKey(ops, Fetch(lines), zone, i, k);
    WrittenAt(ops, lines, zone, i, k);
    FetchHolds(AppliedZone(ops, lines, zone), |Kept(ops, lines, zone)| + Pos(ops, Fetch(lines), zone, i, k));
  }

  lemma TargetsStep(ops: seq<PlanOp>, live: seq<Live>, zone: string, status: seq<Status>, n: nat)
    requires AllWritesApplied(ops, live, zone, status) && n < |ops|
    ensures Targets(ops[..n + 1], status[..n + 1], live, zone) == Targets(ops[..n], status[..n], live, zone) +
            (if Decided(ops[n], live, zone) then [TargetOf(ops[n], live, zone)] else [])
  {
    hide Precondition, OldRecords;
    assert ops[..n + 1][..n] == ops[..n] && status[..n + 1][..n] == status[..n];
  }

  lemma UndoStep(targets: seq<Target>, t: Target, seen: seq<Live>, zone: string)
    ensures UndoRemoves(targets + [t], seen, zone) == UndoRemoves(targets, seen, zone) +
            (match DecideUndo(t, seen, zone) case Done(_) => [] case Write(lines) => lines)
    ensures UndoAdds(targets + [t], seen, zone) == UndoAdds(targets, seen, zone) +
            (if DecideUndo(t, seen, zone).Write? && t.action == Replace then AddsOf(t.former, zone) else [])
  {
    assert (targets + [t])[..|targets|] == targets;
  }

  // The whole rollback removes exactly the lines of the written rrsets.
  lemma {:induction false} UndoRemovesSets(ops: seq<PlanOp>, lines: seq<Line>, zone: string, status: seq<Status>, n: nat)
    requires WellFormedPlan(ops, zone) && AbsentAdds(ops, lines, zone) && n <= |ops|
    requires |status| == |ops| && AllWritesApplied(ops, Fetch(lines), zone, status)
    ensures var live, seen := Fetch(lines), Fetch(AppliedZone(ops, lines, zone));
            forall l :: l in UndoRemoves(Targets(ops[..n], status[..n], live, zone), seen, zone) <==>
              exists f :: f in seen && f.line == l && KeyOf(f.rec, zone) in WrittenKeys(ops[..n], live, zone)
  {
    hide Fetch, AppliedZone, Kept, WellFormedPlan, AbsentAdds, FoundLines, DecideUndo, OldRecords, Targets, UndoRemoves,
         KeyOf, AllWritesApplied, Decide;
    var live, seen := Fetch(lines), Fetch(AppliedZone(ops, lines, zone));
    if n == 0 {
      assert Targets(ops[..0], status[..0], live, zone) == [] && UndoRemoves([], seen, zone) == [] by { NoTargets(live, zone, seen); }
    } else {
      var op := ops[n - 1];
      UndoRemovesSets(ops, lines, zone, status, n - 1);
      TargetsStep(ops, live, zone, status, n - 1);
      var here := if Decided(op, live, zone) then {OpKey(op)} else {};
      assert WrittenKeys(ops[..n], live, zone) == WrittenKeys(ops[..n - 1], live, zone) + here by {
        assert ops[..n] == ops[..n - 1] + [op];
      }
      if Decided(op, live, zone) {
        UndoStep(Targets(ops[..n - 1], status[..n - 1], live, zone), TargetOf(op, live, zone), seen, zone);
        UndoOf(ops, lines, zone, n - 1);
        FoundLinesAreTheSet(ops, lines, zone, n - 1);
      } else {
        assert Targets(ops[..n - 1], status[..n - 1], live, zone) + [] == Targets(ops[..n - 1], status[..n - 1], live, zone);
      }
    }
  }

  lemma NoTargets(live: seq<Live>, zone: string, seen: seq<Live>)
    ensures Targets([], [], live, zone) == [] && UndoRemoves([], seen, zone) == [] && UndoAdds([], seen, zone) == []
  {
  }

  // ---------------------------------------------------------------- what is put back

  lemma {:induction false} SameView(lines: seq<Line>, m: seq<Live>, zone: string)
    requires |lines| == |m|
    requires forall i :: 0 <= i < |m| ==> lines[i].Entry? && CanonOf(lines[i].rec, zone) == CanonOf(m[i].rec, zone)
    ensures View(lines, zone) == ViewLive(m, zone)
  {
    hide CanonOf;
    if m != [] {
      var n := |m| - 1;
      SameView(lines[..n], m[..n], zone);
      ViewConcat(lines[..n], [lines[n]], zone);
      assert lines == lines[..n] + [lines[n]];
      assert [lines[n]][1..] == [];
    }
  }

  lemma {:induction false} MatchingView(live: seq<Live>, op: PlanOp, zone: string, c: Canon)
    ensures ViewLive(Matching(live, op, zone), zone)[c] == if CanonKey(c) == OpKey(op) then ViewLive(live, zone)[c] else 0
  {
    hide InSet;
    if live != [] {
      var n := |live| - 1;
      var last := live[n];
      var rest := Matching(live[..n], op, zone);
      MatchingView(live[..n], op, zone, c);
      InSetIsAt(last.rec, op, zone);
      if InSet(last.rec, op.typ, op.name, zone) {
        assert (rest + [last])[..|rest|] == rest;
      } else {
        assert rest + [] == rest;
      }
    }
  }

  lemma RestoredView(op: PlanOp, live: seq<Live>, zone: string, c: Canon)
    requires DistinctLines(live) && WellFormedOp(op, zone) && op.action == Replace && Decided(op, live, zone)
    ensures View(Entries(AddsOf(OldRecords(live, op, zone), zone)), zone)[c]
         == if CanonKey(c) == OpKey(op) then ViewLive(live, zone)[c] else 0
  {
    hide InSet, CanonOf, Precondition, Matching, Parsed, ToRelative, LiveName, AddOf, BackupRecord;
    var m := Matching(live, op, zone);
    var back := Entries(AddsOf(OldRecords(live, op, zone), zone));
    ProceedIsWritable(op, live, zone);
    MatchingHolds(live, op, zone);
    forall i | 0 <= i < |m| ensures CanonOf(back[i].rec, zone) == CanonOf(m[i].rec, zone) {
      assert m[i] in m;
      assert LiveName(m[i].rec.name, zone) == op.name by { SetName(m[i].rec, op, zone); }
      Restorable(m[i].rec, zone);
    }
    SameView(back, m, zone);
    MatchingView(live, op, zone, c);
  }

  lemma SetName(r: Record, op: PlanOp, zone: string)
    requires InSet(r, op.typ, op.name, zone) && Canonical(op.name)
    ensures LiveName(r.name, zone) == op.name
  {
  }

  lemma EntriesConcat(a: seq<AddRecord>, b: seq<AddRecord>)
    ensures Entries(a + b) == Entries(a) + Entries(b)
  {
  }

  // What the whole rollback puts back is what the replaced rrsets held.
  lemma {:induction false} UndoAddsView(ops: seq<PlanOp>, lines: seq<Line>, zone: string, status: seq<Status>, n: nat, c: Canon)
    requires WellFormedPlan(ops, zone) && AbsentAdds(ops, lines, zone) && n <= |ops|
    requires |status| == |ops| && AllWritesApplied(ops, Fetch(lines), zone, status)
    ensures var live, seen := Fetch(lines), Fetch(AppliedZone(ops, lines, zone));
            var back := Entries(UndoAdds(Targets(ops[..n], status[..n], live, zone), seen, zone));
            View(back, zone)[c] == if CanonKey(c) in ReplacedKeys(ops[..n], live, zone) then ViewLive(live, zone)[c] else 0
  {
    hide Fetch, AppliedZone, Kept, AbsentAdds, FoundLines, DecideUndo, OldRecords, Targets, UndoAdds, Entries, AddsOf,
         KeyOf, AllWritesApplied, Decide, WellFormedOp, View, ViewLive;
    var live, seen := Fetch(lines), Fetch(AppliedZone(ops, lines, zone));
    if n == 0 {
      NoTargets(live, zone, seen);
      EmptyView(zone);
    } else {
      var op := ops[n - 1];
      var targets := Targets(ops[..n - 1], status[..n - 1], live, zone);
      UndoAddsView(ops, lines, zone, status, n - 1, c);
      TargetsStep(ops, live, zone, status, n - 1);
      var here := if Decided(op, live, zone) && op.action == Replace then {OpKey(op)} else {};
      assert ReplacedKeys(ops[..n], live, zone) == ReplacedKeys(ops[..n - 1], live, zone) + here by {
        assert ops[..n] == ops[..n - 1] + [op];
      }
      if Decided(op, live, zone) {
        UndoStep(targets, TargetOf(op, live, zone), seen, zone);
        UndoOf(ops, lines, zone, n - 1);
        var adds := UndoAdds(targets, seen, zone);
        if op.action == Replace {
          FetchDistinct(lines);
          RestoredView(op, live, zone, c);
          var back := AddsOf(OldRecords(live, op, zone), zone);
          EntriesConcat(adds, back);
          ViewConcat(Entries(adds), Entries(back), zone);
        } else {
          assert adds + [] == adds;
        }
      } else {
        assert targets + [] == targets;
      }
    }
  }

  lemma EmptyView(zone: string)
    ensures View(Entries([]), zone) == multiset{}
  {
  }

  // ---------------------------------------------------------------- the theorem

  lemma {:induction false} KeepAll(lines: seq<Line>, zone: string, keys: set<Key>)
    requires forall l :: l in lines ==> !At(l, zone, keys)
    ensures Keep(lines, zone, keys) == lines
  {
    if lines != [] {
      KeepAll(lines[1..], zone, keys);
      assert lines[0] in lines;
    }
  }

  lemma {:induction false} KeepNone(lines: seq<Line>, zone: string, keys: set<Key>)
    requires forall l :: l in lines ==> At(l, zone, keys)
    ensures Keep(lines, zone, keys) == []
  {
    if lines != [] {
      KeepNone(lines[1..], zone, keys);
      assert lines[0] in lines;
    }
  }

  lemma AtMore(l: Line, zone: string, a: set<Key>, b: set<Key>)
    requires a <= b
    ensures At(l, zone, a) ==> At(l, zone, b)
  {
  }

  lemma {:induction false} KeepTwice(lines: seq<Line>, zone: string, a: set<Key>, b: set<Key>)
    requires a <= b
    ensures Keep(Keep(lines, zone, a), zone, b) == Keep(lines, zone, b)
  {
    hide At;
    if lines != [] {
      KeepTwice(lines[1..], zone, a, b);
      AtMore(lines[0], zone, a, b);
      if At(lines[0], zone, a) {
        assert Keep(lines, zone, a) == Keep(lines[1..], zone, a);
      } else {
        assert Keep(lines, zone, a) == [lines[0]] + Keep(lines[1..], zone, a);
        assert Keep(lines, zone, a)[1..] == Keep(lines[1..], zone, a);
      }
    }
  }

  // The zone after a rollback driven by the report's statuses and the backup taken before the write.
  function RolledBack(ops: seq<PlanOp>, lines: seq<Line>, zone: string, status: seq<Status>): seq<Line>
    requires |status| == |ops|
  {
    var edited := AppliedZone(ops, lines, zone);
    var targets := Targets(ops, status, Fetch(lines), zone);
    Edited(edited, UndoRemoves(targets, Fetch(edited), zone), UndoAdds(targets, Fetch(edited), zone))
  }

  function PutBack(ops: seq<PlanOp>, lines: seq<Line>, zone: string, status: seq<Status>): seq<Line>
    requires |status| == |ops|
  {
    Entries(UndoAdds(Targets(ops, status, Fetch(lines), zone), Fetch(AppliedZone(ops, lines, zone)), zone))
  }

  lemma AppliedZoneElsewhere(ops: seq<PlanOp>, lines: seq<Line>, zone: string)
    requires WellFormedPlan(ops, zone)
    ensures var keys := WrittenKeys(ops, Fetch(lines), zone);
            Keep(AppliedZone(ops, lines, zone), zone, keys) == Keep(lines, zone, keys)
  {
    hide Decide, WellFormedPlan, Fetch, At, BatchAdds, AppliedZone, Keep, OpKey;
    var live := Fetch(lines);
    var keys := WrittenKeys(ops, live, zone);
    AppliedZoneIs(ops, lines, zone);
    var added := Entries(BatchAdds(ops, Some(live), zone));
    KeepConcat(Kept(ops, lines, zone), added, zone, keys);
    forall l | l in added ensures At(l, zone, keys) {
      AddedAtWrittenKey(ops, live, zone, l);
    }
    KeepNone(added, zone, keys);
    KeepTwice(lines, zone, ReplacedKeys(ops, live, zone), keys);
  }

  // The lines outside the written rrsets, in their old order, then what the rollback put back.
  lemma RolledBackZoneIs(ops: seq<PlanOp>, lines: seq<Line>, zone: string, status: seq<Status>)
    requires WellFormedPlan(ops, zone) && AbsentAdds(ops, lines, zone)
    requires |status| == |ops| && AllWritesApplied(ops, Fetch(lines), zone, status)
    ensures RolledBack(ops, lines, zone, status)
         == Keep(lines, zone, WrittenKeys(ops, Fetch(lines), zone)) + PutBack(ops, lines, zone, status)
  {
    hide AbsentAdds, Targets, UndoRemoves, UndoAdds, KeyOf, AllWritesApplied, WrittenKeys, WellFormedPlan, Fetch, AppliedZone;
    var edited := AppliedZone(ops, lines, zone);
    assert ops[..|ops|] == ops && status[..|status|] == status;
    UndoRemovesSets(ops, lines, zone, status, |ops|);
    RemoveKeys(edited, UndoRemoves(Targets(ops, status, Fetch(lines), zone), Fetch(edited), zone), zone,
               WrittenKeys(ops, Fetch(lines), zone));
    AppliedZoneElsewhere(ops, lines, zone);
  }

  lemma AddedAtWrittenKey(ops: seq<PlanOp>, live: seq<Live>, zone: string, l: Line)
    requires WellFormedPlan(ops, zone) && l in Entries(BatchAdds(ops, Some(live), zone))
    ensures At(l, zone, WrittenKeys(ops, live, zone))
  {
    hide BatchAdds, Parsed, AddOf, KeyOf, Decide, WellFormedOp;
    var adds := BatchAdds(ops, Some(live), zone);
    var x :| 0 <= x < |adds| && l == Entry(Parsed(adds[x]));
    var i, k := PosOf(ops, live, zone, x);
    PosContent(ops, live, zone, i, k);
    DecidedIsWrite(ops[i], live, zone);
    OwnLineMatches(ops[i], k, zone);
  }

  lemma WholeFetchView(lines: seq<Line>, zone: string)
    ensures ViewLive(Fetch(lines), zone) == View(lines, zone)
  {
    FetchView(lines, 0, zone);
    assert lines[0..] == lines;
  }

  lemma OnlyAddedKey(ops: seq<PlanOp>, lines: seq<Line>, zone: string, c: Canon)
    requires AbsentAdds(ops, lines, zone)
    requires CanonKey(c) in WrittenKeys(ops, Fetch(lines), zone) && CanonKey(c) !in ReplacedKeys(ops, Fetch(lines), zone)
    ensures View(lines, zone)[c] == 0
  {
    hide Fetch, View, Precondition;
    var op :| op in ops && Decided(op, Fetch(lines), zone) && OpKey(op) == CanonKey(c);
    var i :| 0 <= i < |ops| && ops[i] == op;
    NoView(lines, zone, c);
  }

  // With every written op reported applied and no edit in between, apply followed by rollback restores what
  // the zone says, and leaves the lines of untouched rrsets - and every comment - exactly as they were.
  lemma ApplyThenRollbackRestores(ops: seq<PlanOp>, lines: seq<Line>, zone: string, status: seq<Status>)
    requires WellFormedPlan(ops, zone) && AbsentAdds(ops, lines, zone)
    requires |status| == |ops| && AllWritesApplied(ops, Fetch(lines), zone, status)
    ensures View(RolledBack(ops, lines, zone, status), zone) == View(lines, zone)
    ensures Keep(lines, zone, WrittenKeys(ops, Fetch(lines), zone)) <= RolledBack(ops, lines, zone, status)
  {
    hide RolledBack, AllWritesApplied, WellFormedPlan, AbsentAdds, View, Fetch, Keep, WrittenKeys, ReplacedKeys, UndoAdds, Targets;
    var live := Fetch(lines);
    var keys := WrittenKeys(ops, live, zone);
    RolledBackZoneIs(ops, lines, zone, status);
    var kept, back := Keep(lines, zone, keys), PutBack(ops, lines, zone, status);
    ViewConcat(kept, back, zone);
    assert ops[..|ops|] == ops && status[..|status|] == status;
    WholeFetchView(lines, zone);
    forall c ensures View(kept + back, zone)[c] == View(lines, zone)[c] {
      KeepView(lines, zone, keys, c);
      UndoAddsView(ops, lines, zone, status, |ops|, c);
      assert ReplacedKeys(ops, live, zone) <= keys by { ReplacedIsWritten(ops, live, zone); }
      if CanonKey(c) in keys && CanonKey(c) !in ReplacedKeys(ops, live, zone) {
        OnlyAddedKey(ops, lines, zone, c);
      }
    }
    assert View(kept + back, zone) == View(lines, zone);
  }

  lemma ReplacedIsWritten(ops: seq<PlanOp>, live: seq<Live>, zone: string)
    ensures ReplacedKeys(ops, live, zone) <= WrittenKeys(ops, live, zone)
  {
  }

  // ---------------------------------------------------------------- what a quiet run reports

  // No value the op is to take away is, as the comparisons see it, one that it writes.
  ghost predicate NothingKept(op: PlanOp) {
    forall d, k :: 0 <= d < |op.destValues| && 0 <= k < |op.records| ==>
      ValueForm(op.typ, op.destValues[d]) != PlannedForm(op.records[k])
  }

  lemma WrittenMatchesValue(op: PlanOp, k: nat, zone: string, value: string)
    requires WellFormedOp(op, zone) && k < |op.records|
    ensures LiveMatchesValue(Parsed(AddOf(op.records[k], zone)), value) <==> ValueForm(op.typ, value) == PlannedForm(op.records[k])
  {
    hide Parsed, AddOf, LiveMatchesValue, PlannedForm, LiveForm, ValueForm, DataMatch, LiveName, ToRelative;
    ParsedAdd(op, k, zone);
    MatchesByForm(Parsed(AddOf(op.records[k], zone)), value, op.records[k]);
  }

  // In the edited zone all that is left of a written rrset is what was written.
  lemma OldValuesAreWritten(ops: seq<PlanOp>, lines: seq<Line>, zone: string, i: nat)
    requires WellFormedPlan(ops, zone) && AbsentAdds(ops, lines, zone) && i < |ops| && Decided(ops[i], Fetch(lines), zone)
    ensures OldValuesPresent(ops[i], Fetch(AppliedZone(ops, lines, zone)), zone) <==> !NothingKept(ops[i])
    ensures AllPresent(ops[i].records, Fetch(AppliedZone(ops, lines, zone)), zone)
  {
    hide Fetch, AppliedZone, Kept, BatchAdds, Pos, KeyOf, Parsed, Decide, AddOf, InSet, LiveMatchesValue, ValueForm, PlannedForm, DataMatch;
    var op, seen := ops[i], Fetch(AppliedZone(ops, lines, zone));
    DecidedIsWrite(op, Fetch(lines), zone);
    forall k | 0 <= k < |op.records| ensures RecordPresent(op.records[k], seen, zone) {
      FindsOwnLine(ops, lines, zone, i, k);
    }
    if OldValuesPresent(op, seen, zone) {
      var d, k :| 0 <= d < |op.destValues| && 0 <= k < |seen| && InSet(seen[k].rec, op.typ, op.name, zone) &&
                  LiveMatchesValue(seen[k].rec, op.destValues[d]);
      InSetIsAt(seen[k].rec, op, zone);
      var j, m := WrittenLine(ops, lines, zone, seen[k]);
      DecidedIsWrite(ops[j], Fetch(lines), zone);
      OwnLineMatches(ops[j], m, zone);
      assert i == j;
      WrittenMatchesValue(op, m, zone, op.destValues[d]);
    }
    if !NothingKept(op) {
      var d, k :| 0 <= d < |op.destValues| && 0 <= k < |op.records| && ValueForm(op.typ, op.destValues[d]) == PlannedForm(op.records[k]);
      OwnLineInZone(ops, lines, zone, i, k);
      var n :| 0 <= n < |seen| && seen[n].rec == Parsed(AddOf(op.records[k], zone));
      InSetIsAt(seen[n].rec, op, zone);
      WrittenMatchesValue(op, k, zone, op.destValues[d]);
    }
  }

  // The statuses of a run with nothing failing and nobody else editing.
  ghost function QuietStatuses(ops: seq<PlanOp>, lines: seq<Line>, zone: string): (r: seq<Status>)
    ensures |r| == |ops|
  {
    var live := Fetch(lines);
    var sent := BatchAdds(ops, Some(live), zone) != [];
    var seen := Fetch(if sent then AppliedZone(ops, lines, zone) else lines);
    seq(|ops|, i requires 0 <= i < |ops| => StatusOf(ops[i], Some(live), zone, sent, Accepted, Some(seen)))
  }

  // Such a run reports every write applied exactly when no replace it carries out keeps one of the old values.
  lemma QuietRunApplies(ops: seq<PlanOp>, lines: seq<Line>, zone: string)
    requires WellFormedPlan(ops, zone) && AbsentAdds(ops, lines, zone)
    requires forall i :: 0 <= i < |ops| && Decided(ops[i], Fetch(lines), zone) ==> ops[i].records != []
    ensures AllWritesApplied(ops, Fetch(lines), zone, QuietStatuses(ops, lines, zone)) <==>
            forall i :: 0 <= i < |ops| && Decided(ops[i], Fetch(lines), zone) && ops[i].action == Replace ==> NothingKept(ops[i])
  {
    hide Fetch, AppliedZone, BatchAdds, Decide, NothingKept, WellFormedPlan, AbsentAdds, AllPresent, OldValuesPresent;
    var live, status := Fetch(lines), QuietStatuses(ops, lines, zone);
    forall i | 0 <= i < |ops| && Decided(ops[i], live, zone)
      ensures status[i] == Applied <==> (ops[i].action == Replace ==> NothingKept(ops[i]))
    {
      PosContent(ops, live, zone, i, 0);
      OldValuesAreWritten(ops, lines, zone, i);
    }
    assert forall i :: 0 <= i < |ops| && !Decided(ops[i], live, zone) ==> Decide(ops[i], Some(live), zone) == Done(status[i]);
  }

  // ---------------------------------------------------------------- the same, run against a server

  lemma {:induction false} WithoutNothing(lines: seq<Line>, at: nat)
    ensures Without(lines, at, {}) == lines
  {
    if lines != [] {
      WithoutNothing(lines[1..], at + 1);
    }
  }

  lemma EditNothing(lines: seq<Line>)
    ensures Edited(lines, [], []) == lines
  {
    WithoutNothing(lines, 0);
    assert Indexes([]) == {};
  }

  lemma {:induction false} NothingToUndo(targets: seq<Target>, seen: seq<Live>, zone: string)
    requires forall t :: t in targets ==> t.action == Add || t.action == Replace
    requires UndoRemoves(targets, seen, zone) == []
    ensures UndoAdds(targets, seen, zone) == []
  {
    hide FoundLines;
    if targets != [] {
      var n := |targets| - 1;
      assert targets[n] in targets;
      NothingToUndo(targets[..n], seen, zone);
    }
  }

  lemma {:induction false} TargetsWrite(ops: seq<PlanOp>, status: seq<Status>, backup: seq<Live>, zone: string)
    requires |ops| == |status|
    ensures forall t :: t in Targets(ops, status, backup, zone) ==> t.action == Add || t.action == Replace
    ensures (forall i :: 0 <= i < |ops| ==> status[i] != Applied) ==> Targets(ops, status, backup, zone) == []
  {
    hide OldRecords;
    if ops != [] {
      TargetsWrite(ops[..|ops| - 1], status[..|ops| - 1], backup, zone);
    }
  }

  // A fetch, an apply, a fetch and a rollback, nothing failing and nobody else editing: if the report says
  // that every write was applied, the server's zone says what it said before.
  method ApplyAndRollBack(server: Zone, zone: string, ops: seq<PlanOp>) returns (status: seq<Status>, undone: seq<Status>)
    requires WellFormedPlan(ops, zone) && AbsentAdds(ops, server.lines, zone)
    modifies server
    ensures AllWritesApplied(ops, Fetch(old(server.lines)), zone, status) ==>
              && View(server.lines, zone) == View(old(server.lines), zone)
              && Keep(old(server.lines), zone, WrittenKeys(ops, Fetch(old(server.lines)), zone)) <= server.lines
  {
    hide Fetch, WellFormedPlan, AbsentAdds, BatchAdds, BatchRemoves, Edited, UndoRemoves, UndoAdds, Targets, View, StatusOf, UndoStatus;
    ghost var lines := server.lines;
    var live, none, w, again := Fetch(server.lines), Faults(false, false), Accepted, Accepted;
    status, w := ApplyZone(server, zone, ops, Some(live), server.serial, none);
    ghost var applied := server.lines;
    var seen, targets := Fetch(server.lines), Targets(ops, status, live, zone);
    TargetsWrite(ops, status, live, zone);
    undone, again := RollbackZone(server, zone, targets, seen, server.serial, none);
    if AllWritesApplied(ops, live, zone, status) {
      if BatchAdds(ops, Some(live), zone) != [] {
        ApplyThenRollbackRestores(ops, lines, zone, status);
        if UndoRemoves(targets, seen, zone) == [] {
          NothingToUndo(targets, seen, zone);
          EditNothing(applied);
        }
      } else {
        NothingSent(ops, live, zone, status, w, Some(seen));
        NoneDecided(ops, lines, zone, status);
        EditNothing(applied);
        assert UndoRemoves([], seen, zone) == [] by { NoTargets(live, zone, seen); }
      }
    }
  }

  lemma NothingSent(ops: seq<PlanOp>, live: seq<Live>, zone: string, status: seq<Status>, w: Written, seen: Option<seq<Live>>)
    requires |status| == |ops| && forall i :: 0 <= i < |ops| ==> status[i] == StatusOf(ops[i], Some(live), zone, false, w, seen)
    ensures Targets(ops, status, live, zone) == [] && Applied !in status
  {
    hide StatusOf, Targets;
    forall i | 0 <= i < |ops| ensures status[i] != Applied {
      AppliedIsObserved(ops[i], Some(live), zone, false, w, seen);
    }
    TargetsWrite(ops, status, live, zone);
  }

  lemma NoneDecided(ops: seq<PlanOp>, lines: seq<Line>, zone: string, status: seq<Status>)
    requires AllWritesApplied(ops, Fetch(lines), zone, status) && Applied !in status
    ensures Keep(lines, zone, WrittenKeys(ops, Fetch(lines), zone)) == lines
  {
    hide Fetch, Decide;
    forall i | 0 <= i < |ops| ensures !Decided(ops[i], Fetch(lines), zone) {
      assert status[i] in status;
    }
    KeepAll(lines, zone, WrittenKeys(ops, Fetch(lines), zone));
  }
}
