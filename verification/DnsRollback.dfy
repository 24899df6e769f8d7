/** `dns apply --rollback`: cmd/cpanel-self-migration/dns_apply_cmd.go, runDNSRollback with its report. */
module DnsRollback {
  import opened Text
  import opened DnsNames
  import opened DnsZone
  import opened DnsPrecondition
  import opened DnsApply

  // An applied op to undo: the records it wrote, and the backed-up ones to put back.
  datatype Target = Target(action: Action, records: seq<PlanRecord>, former: seq<PlanRecord>)

  // backupEntryToPlanRecord
  function BackupRecord(r: Record, zone: string): PlanRecord {
    PlanRecord(LiveName(r.name, zone), r.typ, r.ttl,
               if r.typ == "A" || r.typ == "AAAA" then [r.address]
               else if r.typ == "CNAME" then [LiveName(r.target, zone)]
               else if r.typ == "MX" then [Itoa(r.priority), LiveName(r.exchange, zone)]
               else if r.typ == "TXT" then [r.txt]
               else [])
  }

  // dnsBackupRecordsForOp: the backup holds the records that were live before the write.
  function OldRecords(backup: seq<Live>, op: PlanOp, zone: string): (r: seq<PlanRecord>) {
    var m := Matching(backup, op, zone);
    seq(|m|, i requires 0 <= i < |m| => BackupRecord(m[i].rec, zone))
  }

  // The ops a report records as applied, in report order.
  function Targets(ops: seq<PlanOp>, status: seq<Status>, backup: seq<Live>, zone: string): seq<Target>
    requires |ops| == |status|
  {
    if ops == [] then []
    else
      var n := |ops| - 1;
      Targets(ops[..n], status[..n], backup, zone) +
      (if status[n] != Applied || !IsWrite(ops[n]) then []
       else [Target(ops[n].action, ops[n].records, if ops[n].action == Replace then OldRecords(backup, ops[n], zone) else [])])
  }

  // The record is the first of the listing that matches the planned one.
  ghost predicate FirstMatch(planned: PlanRecord, live: seq<Live>, zone: string, k: int) {
    && 0 <= k < |live| && InSet(live[k].rec, planned.typ, planned.name, zone) && DataMatch(planned, live[k].rec)
    && forall j :: 0 <= j < k ==> !(InSet(live[j].rec, planned.typ, planned.name, zone) && DataMatch(planned, live[j].rec))
  }

  // findRecordLine
  function FindLine(planned: PlanRecord, live: seq<Live>, zone: string): (r: Option<nat>)
    ensures r.Some? ==> exists k :: 0 <= k < |live| && live[k].line == r.value &&
                                    InSet(live[k].rec, planned.typ, planned.name, zone) && DataMatch(planned, live[k].rec)
    ensures r.None? ==> !RecordPresent(planned, live, zone)
  {
    if live == [] then None
    else if InSet(live[0].rec, planned.typ, planned.name, zone) && DataMatch(planned, live[0].rec) then Some(live[0].line)
    else
      var r := FindLine(planned, live[1..], zone);
      r
  }

  function FoundLines(records: seq<PlanRecord>, live: seq<Live>, zone: string): seq<nat> {
    if records == [] then []
    else
      var n := |records| - 1;
      FoundLines(records[..n], live, zone) +
      (match FindLine(records[n], live, zone) case None => [] case Some(l) => [l])
  }

  function DecideUndo(t: Target, live: seq<Live>, zone: string): Decision {
    var lines := FoundLines(t.records, live, zone);
    if lines == [] && t.action == Add then Done(Skipped)
    else if lines == [] && t.action == Replace then Done(RefusedOp)
    else if t.action == Replace && t.former == [] then Done(RefusedOp)
    else Write(lines)
  }

  function UndoRemoves(targets: seq<Target>, live: seq<Live>, zone: string): seq<nat> {
    if targets == [] then []
    else
      var n := |targets| - 1;
      UndoRemoves(targets[..n], live, zone) +
      (match DecideUndo(targets[n], live, zone) case Done(_) => [] case Write(lines) => lines)
  }

  function UndoAdds(targets: seq<Target>, live: seq<Live>, zone: string): seq<AddRecord> {
    if targets == [] then []
    else
      var n := |targets| - 1;
      UndoAdds(targets[..n], live, zone) +
      (if DecideUndo(targets[n], live, zone).Write? && targets[n].action == Replace then AddsOf(targets[n].former, zone) else [])
  }

  // The verdict of the re-fetch after a rollback.
  function UndoVerified(t: Target, seen: seq<Live>, zone: string): Status {
    if exists k :: 0 <= k < |t.records| && RecordPresent(t.records[k], seen, zone) then Failed
    else if t.action == Replace && !AllPresent(t.former, seen, zone) then Failed
    else Applied
  }

  function UndoStatus(t: Target, live: seq<Live>, zone: string, w: Written, seen: Option<seq<Live>>): Status {
    match DecideUndo(t, live, zone)
    case Done(s) => s
    case Write(_) =>
      match w
      case Error => Failed
      case StaleSerial => RefusedOp
      case Accepted => if seen.None? then Failed else UndoVerified(t, seen.value, zone)
  }

  // One zone of the rollback. `live` and `serial` come from one fetch.
  method RollbackZone(server: Zone, zone: string, targets: seq<Target>, live: seq<Live>, serial: nat, faults: Faults)
    returns (status: seq<Status>, w: Written)
    requires forall t :: t in targets ==> t.action == Add || t.action == Replace
    modifies server
    ensures w == if faults.write then Error else if serial != old(server.serial) then StaleSerial else Accepted
    ensures server.lines == (if UndoRemoves(targets, live, zone) != [] && w == Accepted
                             then Edited(old(server.lines), UndoRemoves(targets, live, zone), UndoAdds(targets, live, zone))
                             else old(server.lines))
    ensures |status| == |targets|
    ensures forall i :: 0 <= i < |targets| ==>
      status[i] == UndoStatus(targets[i], live, zone, w, if faults.refetch then None else Some(Fetch(server.lines)))
  {
    hide Edited, UndoStatus, Fetch, DecideUndo, UndoRemoves, UndoAdds;
    w := if faults.write then Error else if serial != server.serial then StaleSerial else Accepted;
    var removes, adds;
    removes, adds, status := ResolveUndo(targets, live, zone);
    if removes == [] {
      AllDone(targets, live, zone, status, w, if faults.refetch then None else Some(Fetch(server.lines)));
      return;
    }
    if !faults.write {
      var answer := server.MassEditZoneBatch(serial, removes, adds);
    }
    var seen := if faults.refetch then None else Some(Fetch(server.lines));
    status := SettleUndo(targets, live, zone, status, w, seen);
  }

  // What the first pass leaves for an op: its final status, or the placeholder of a write.
  predicate Pending(t: Target, live: seq<Live>, zone: string, s: Status) {
    match DecideUndo(t, live, zone) case Done(d) => s == d && s != Applied case Write(_) => s == Applied
  }

  lemma AllDone(targets: seq<Target>, live: seq<Live>, zone: string, status: seq<Status>, w: Written, seen: Option<seq<Live>>)
    requires |status| == |targets| && forall j :: 0 <= j < |targets| ==> Pending(targets[j], live, zone, status[j])
    requires forall j :: 0 <= j < |targets| ==> DecideUndo(targets[j], live, zone).Done?
    ensures forall j :: 0 <= j < |targets| ==> status[j] == UndoStatus(targets[j], live, zone, w, seen)
  {
    hide DecideUndo, UndoVerified;
  }

  // The first pass: what to remove and to add, and a status for every op.
  method ResolveUndo(targets: seq<Target>, live: seq<Live>, zone: string)
    returns (removes: seq<nat>, adds: seq<AddRecord>, status: seq<Status>)
    requires forall t :: t in targets ==> t.action == Add || t.action == Replace
    ensures removes == UndoRemoves(targets, live, zone) && adds == UndoAdds(targets, live, zone)
    ensures |status| == |targets| && forall j :: 0 <= j < |targets| ==> Pending(targets[j], live, zone, status[j])
    ensures removes == [] ==> forall j :: 0 <= j < |targets| ==> DecideUndo(targets[j], live, zone).Done?
  {
    hide FoundLines, UndoRemoves, UndoAdds;
    removes, adds, status := [], [], [];
    EmptyUndo(live, zone);
    for i := 0 to |targets|
      invariant removes == UndoRemoves(targets[..i], live, zone) && adds == UndoAdds(targets[..i], live, zone)
      invariant |status| == i && forall j :: 0 <= j < i ==> Pending(targets[j], live, zone, status[j])
      invariant removes == [] ==> forall j :: 0 <= j < i ==> DecideUndo(targets[j], live, zone).Done?
    {
      UndoPrefix(targets, i, live, zone);
      var t := targets[i];
      assert t in targets;
      var lines := CollectLines(t.records, live, zone);
      if |lines| == 0 && t.action == Add {
        status := status + [Skipped];
      } else if |lines| == 0 && t.action == Replace {
        status := status + [RefusedOp];
      } else if t.action == Replace && |t.former| == 0 {
        status := status + [RefusedOp];
      } else {
        status := status + [Applied];
        removes := removes + lines;
        if t.action == Replace {
          adds := adds + AddsOf(t.former, zone);
        }
      }
    }
    assert targets[..|targets|] == targets;
  }

  lemma EmptyUndo(live: seq<Live>, zone: string)
    ensures UndoRemoves([], live, zone) == [] && UndoAdds([], live, zone) == []
  {
  }

  lemma UndoPrefix(targets: seq<Target>, i: nat, live: seq<Live>, zone: string)
    requires i < |targets|
    ensures UndoRemoves(targets[..i + 1], live, zone) == UndoRemoves(targets[..i], live, zone) +
            (match DecideUndo(targets[i], live, zone) case Done(_) => [] case Write(lines) => lines)
    ensures UndoAdds(targets[..i + 1], live, zone) == UndoAdds(targets[..i], live, zone) +
            (if DecideUndo(targets[i], live, zone).Write? && targets[i].action == Replace then AddsOf(targets[i].former, zone) else [])
  {
    hide DecideUndo;
    assert targets[..i + 1][..i] == targets[..i];
  }

  // The second pass: every placeholder becomes the outcome of the write and of the re-fetch.
  method SettleUndo(targets: seq<Target>, live: seq<Live>, zone: string, placeholders: seq<Status>, w: Written, seen: Option<seq<Live>>)
    returns (status: seq<Status>)
    requires |placeholders| == |targets| && forall j :: 0 <= j < |targets| ==> Pending(targets[j], live, zone, placeholders[j])
    ensures |status| == |targets| && forall j :: 0 <= j < |targets| ==> status[j] == UndoStatus(targets[j], live, zone, w, seen)
  {
    hide DecideUndo, UndoVerified;
    status := placeholders;
    for i := 0 to |targets|
      invariant |status| == |targets|
      invariant forall j :: 0 <= j < i ==> status[j] == UndoStatus(targets[j], live, zone, w, seen)
      invariant forall j :: i <= j < |targets| ==> status[j] == placeholders[j]
    {
      if status[i] == Applied {
        if w == Error || (w == Accepted && seen.None?) {
          status := status[i := Failed];
        } else if w == StaleSerial {
          status := status[i := RefusedOp];
        } else {
          var verdict := VerifyUndone(targets[i], seen.value, zone);
          status := status[i := verdict];
        }
      }
    }
  }

  lemma FoundNothing(seen: seq<Live>, zone: string)
    ensures FoundLines([], seen, zone) == []
  {
  }

  lemma FoundStep(records: seq<PlanRecord>, m: nat, seen: seq<Live>, zone: string)
    requires m < |records|
    ensures FoundLines(records[..m + 1], seen, zone) ==
            FoundLines(records[..m], seen, zone) + (match FindLine(records[m], seen, zone) case None => [] case Some(l) => [l])
  {
    hide FindLine;
    assert records[..m + 1][..m] == records[..m];
  }

  method CollectLines(records: seq<PlanRecord>, live: seq<Live>, zone: string) returns (lines: seq<nat>)
    ensures lines == FoundLines(records, live, zone)
  {
    hide FoundLines, FindLine;
    lines := [];
    FoundNothing(live, zone);
    for k := 0 to |records|
      invariant lines == FoundLines(records[..k], live, zone)
    {
      FoundStep(records, k, live, zone);
      var line := FindRecordLine(records[k], live, zone);
      if line >= 0 {
        lines := lines + [line];
      }
    }
    assert records[..|records|] == records;
  }

  method FindRecordLine(planned: PlanRecord, live: seq<Live>, zone: string) returns (line: int)
    ensures FindLine(planned, live, zone) == if line >= 0 then Some(line) else None
  {
    hide InSet, DataMatch;
    for k := 0 to |live|
      invariant FindLine(planned, live, zone) == FindLine(planned, live[k..], zone)
    {
      assert live[k..][0] == live[k] && live[k..][1..] == live[k + 1..];
      if InSet(live[k].rec, planned.typ, planned.name, zone) && DataMatch(planned, live[k].rec) {
        return live[k].line;
      }
    }
    return -1;
  }

  method VerifyUndone(t: Target, seen: seq<Live>, zone: string) returns (s: Status)
    ensures s == UndoVerified(t, seen, zone)
  {
    hide RecordPresent;
    for k := 0 to |t.records|
      invariant forall j :: 0 <= j < k ==> !RecordPresent(t.records[j], seen, zone)
    {
      var present := DnsRecordPresent(t.records[k], seen, zone);
      if present {
        return Failed;
      }
    }
    if t.action == Replace && |t.former| > 0 {
      var restored := DnsAllPresent(t.former, seen, zone);
      if !restored {
        return Failed;
      }
    }
    return Applied;
  }

  // ---------------------------------------------------------------- what the lines and statuses mean

  lemma {:induction false} FindsTheFirst(planned: PlanRecord, live: seq<Live>, zone: string) returns (k: int)
    ensures FindLine(planned, live, zone).Some? ==> FirstMatch(planned, live, zone, k) && FindLine(planned, live, zone) == Some(live[k].line)
  {
    hide InSet, DataMatch;
    k := 0;
    if live != [] && !(InSet(live[0].rec, planned.typ, planned.name, zone) && DataMatch(planned, live[0].rec)) {
      var n := FindsTheFirst(planned, live[1..], zone);
      k := n + 1;
      assert forall j :: 1 <= j < |live| ==> live[j] == live[1..][j - 1];
    }
  }

  // The lines of an op are those its records are found on, and there are none exactly when no record is live.
  lemma {:induction false} FoundLinesMean(records: seq<PlanRecord>, live: seq<Live>, zone: string)
    ensures forall l :: l in FoundLines(records, live, zone) <==> exists k :: 0 <= k < |records| && FindLine(records[k], live, zone) == Some(l)
    ensures FoundLines(records, live, zone) == [] <==> forall k :: 0 <= k < |records| ==> !RecordPresent(records[k], live, zone)
  {
    hide FindLine, InSet, DataMatch;
    if records != [] {
      var n := |records| - 1;
      FoundLinesMean(records[..n], live, zone);
      assert forall k :: 0 <= k < n ==> records[..n][k] == records[k];
      PresentIsFound(records[n], live, zone);
    }
  }

  lemma PresentIsFound(planned: PlanRecord, live: seq<Live>, zone: string)
    ensures FindLine(planned, live, zone).Some? <==> RecordPresent(planned, live, zone)
  {
  }

  // What every status of a rollback says: nothing left to undo, nothing to put back or to find, or the outcome of
  // the write: none of the op's records still there and every former one back.
  lemma UndoStatusMeans(t: Target, live: seq<Live>, zone: string, w: Written, seen: Option<seq<Live>>)
    requires t.action == Add || t.action == Replace
    ensures var s := UndoStatus(t, live, zone, w, seen);
            var found := exists k :: 0 <= k < |t.records| && RecordPresent(t.records[k], live, zone);
            var asked := found && (t.action == Replace ==> t.former != []);
            var undone := asked && w == Accepted && seen.Some? && (forall k :: 0 <= k < |t.records| ==> !RecordPresent(t.records[k], seen.value, zone)) &&
                          (t.action == Replace ==> AllPresent(t.former, seen.value, zone));
            && (s == Skipped <==> t.action == Add && !found)
            && (s == RefusedOp <==> (t.action == Replace && !asked) || (asked && w == StaleSerial))
            && (s == Applied <==> undone)
            && (s == Failed <==> asked && w != StaleSerial && !undone)
  {
    hide RecordPresent, AllPresent, FoundLines;
    FoundLinesMean(t.records, live, zone);
  }

  // The batch removes exactly the lines found for the ops that are undone.
  lemma {:induction false} UndoRemovesMean(targets: seq<Target>, live: seq<Live>, zone: string)
    ensures forall l :: l in UndoRemoves(targets, live, zone) <==>
      exists i :: 0 <= i < |targets| && DecideUndo(targets[i], live, zone).Write? && l in FoundLines(targets[i].records, live, zone)
  {
    hide FoundLines;
    if targets != [] {
      var n := |targets| - 1;
      UndoRemovesMean(targets[..n], live, zone);
      assert forall i :: 0 <= i < n ==> targets[..n][i] == targets[i];
    }
  }

  // It adds exactly the former records of the replaces among them.
  lemma {:induction false} UndoAddsMean(targets: seq<Target>, live: seq<Live>, zone: string)
    ensures forall a :: a in UndoAdds(targets, live, zone) <==>
      exists i :: 0 <= i < |targets| && DecideUndo(targets[i], live, zone).Write? && targets[i].action == Replace && a in AddsOf(targets[i].former, zone)
  {
    hide DecideUndo, AddsOf;
    if targets != [] {
      var n := |targets| - 1;
      UndoAddsMean(targets[..n], live, zone);
      assert forall i :: 0 <= i < n ==> targets[..n][i] == targets[i];
    }
  }
}
