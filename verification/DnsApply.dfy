/** The zone loop of `dns apply`: cmd/cpanel-self-migration/dns_apply_cmd.go, runDNSApplyWrites. */
module DnsApply {
  import opened Text
  import opened DnsNames
  import opened DnsZone
  import opened DnsPrecondition

  datatype Status = Applied | Skipped | ManualOp | Failed | RefusedOp

  // What an op comes to before anything is written: a final status, or lines to remove and records to add.
  datatype Decision = Done(status: Status) | Write(removes: seq<nat>)

  function Decide(op: PlanOp, live: Option<seq<Live>>, zone: string): Decision {
    match op.action
    case Skip => Done(Skipped)
    case Manual => Done(ManualOp)
    case Unknown => Done(Failed)
    case Add => if live.None? then Done(Failed) else Write([])
    case Replace =>
      if live.None? then Done(Failed)
      else
        match Precondition(op, live.value, zone)
        case AlreadyPresent => Done(Skipped)
        case Refused(_) => Done(RefusedOp)
        case Proceed(lines) => Write(lines)
  }

  function AddOf(rec: PlanRecord, zone: string): AddRecord {
    AddRecord(ToRelative(rec.name, zone), rec.ttl, rec.typ, rec.data)
  }

  function AddsOf(records: seq<PlanRecord>, zone: string): (r: seq<AddRecord>)
    ensures |r| == |records| && forall i :: 0 <= i < |r| ==> r[i] == AddOf(records[i], zone)
  {
    seq(|records|, i requires 0 <= i < |records| => AddOf(records[i], zone))
  }

  // The batch: what the ops decided to write asks to remove and to add, in plan order.
  function BatchRemoves(ops: seq<PlanOp>, live: Option<seq<Live>>, zone: string): seq<nat> {
    if ops == [] then []
    else
      var last := ops[|ops| - 1];
      BatchRemoves(ops[..|ops| - 1], live, zone) +
      (match Decide(last, live, zone) case Done(_) => [] case Write(lines) => lines)
  }

  function BatchAdds(ops: seq<PlanOp>, live: Option<seq<Live>>, zone: string): seq<AddRecord> {
    if ops == [] then []
    else
      var last := ops[|ops| - 1];
      BatchAdds(ops[..|ops| - 1], live, zone) +
      (match Decide(last, live, zone) case Done(_) => [] case Write(_) => AddsOf(last.records, zone))
  }

  // dnsOldValuesStillPresent
  predicate OldValuesPresent(op: PlanOp, seen: seq<Live>, zone: string) {
    exists d, k :: 0 <= d < |op.destValues| && 0 <= k < |seen| &&
      InSet(seen[k].rec, op.typ, op.name, zone) && LiveMatchesValue(seen[k].rec, op.destValues[d])
  }

  method DnsOldValuesStillPresent(op: PlanOp, seen: seq<Live>, zone: string) returns (r: bool)
    ensures r == OldValuesPresent(op, seen, zone)
  {
    hide InSet, LiveMatchesValue;
    for d := 0 to |op.destValues|
      invariant forall e, k :: 0 <= e < d && 0 <= k < |seen| ==>
        !(InSet(seen[k].rec, op.typ, op.name, zone) && LiveMatchesValue(seen[k].rec, op.destValues[e]))
    {
      for k := 0 to |seen|
        invariant forall j :: 0 <= j < k ==>
          !(InSet(seen[j].rec, op.typ, op.name, zone) && LiveMatchesValue(seen[j].rec, op.destValues[d]))
      {
        if InSet(seen[k].rec, op.typ, op.name, zone) && LiveMatchesValue(seen[k].rec, op.destValues[d]) {
          return true;
        }
      }
    }
    return false;
  }

  // The verdict of the re-fetch on one written op.
  function Verified(op: PlanOp, seen: seq<Live>, zone: string): Status {
    if !AllPresent(op.records, seen, zone) then Failed
    else if op.action == Replace && OldValuesPresent(op, seen, zone) then Failed
    else Applied
  }

  // The status reported for an op, given whether the batch was sent and what came of it.
  function StatusOf(op: PlanOp, live: Option<seq<Live>>, zone: string, sent: bool, w: Written, seen: Option<seq<Live>>): Status {
    match Decide(op, live, zone)
    case Done(s) => s
    case Write(_) =>
      if !sent then Failed
      else
        match w
        case Error => Failed
        case StaleSerial => RefusedOp
        case Accepted => if seen.None? then Failed else Verified(op, seen.value, zone)
  }

  predicate IsWrite(op: PlanOp) { op.action == Add || op.action == Replace }

  // What can go wrong besides a stale serial.
  datatype Faults = Faults(write: bool, refetch: bool)

  // One zone of the plan. `live` and `serial` are what was fetched before the backup was written; the zone
  // may have been edited since.
  method ApplyZone(server: Zone, zone: string, ops: seq<PlanOp>, live: Option<seq<Live>>, serial: nat, faults: Faults)
    returns (status: seq<Status>, w: Written)
    modifies server
    ensures w == if faults.write then Error else if serial != old(server.serial) then StaleSerial else Accepted
    ensures var sent := BatchAdds(ops, live, zone) != [];
            && server.lines == (if sent && w == Accepted
                                then Edited(old(server.lines), BatchRemoves(ops, live, zone), BatchAdds(ops, live, zone))
                                else old(server.lines))
            && |status| == |ops|
            && forall i :: 0 <= i < |ops| ==>
                 status[i] == StatusOf(ops[i], live, zone, sent, w, if faults.refetch then None else Some(Fetch(server.lines)))
  {
    hide BatchRemoves, BatchAdds, Edited, Verified, Fetch;
    w := if faults.write then Error else if serial != server.serial then StaleSerial else Accepted;
    status := Classify(ops);
    var removes, adds, active;
    removes, adds, active, status := Resolve(ops, live, zone, status);
    ghost var resolved := status;
    if adds == [] {
      return;
    }
    if !faults.write {
      var answer := server.MassEditZoneBatch(serial, removes, adds);
    }
    var seen := if faults.refetch then None else Some(Fetch(server.lines));
    ghost var written := server.lines;
    for i := 0 to |ops|
      invariant |status| == |ops| && server.lines == written
      invariant forall j :: 0 <= j < i ==> status[j] == StatusOf(ops[j], live, zone, true, w, seen)
      invariant forall j :: i <= j < |ops| ==> status[j] == resolved[j]
    {
      if active[i] {
        if w == Error {
          status := status[i := Failed];
        } else if w == StaleSerial {
          status := status[i := RefusedOp];
        } else if seen.None? {
          status := status[i := Failed];
        } else {
          var verdict := VerifyAfter(ops[i], seen.value, zone);
          status := status[i := verdict];
        }
      }
    }
  }

  // The first pass: skipped, manual and malformed ops are final, the others get a placeholder.
  method Classify(ops: seq<PlanOp>) returns (status: seq<Status>)
    ensures |status| == |ops|
    ensures forall j :: 0 <= j < |ops| ==>
      status[j] == match ops[j].action case Skip => Skipped case Manual => ManualOp case Unknown => Failed case _ => Applied
  {
    status := [];
    for i := 0 to |ops|
      invariant |status| == i
      invariant forall j :: 0 <= j < i ==>
        status[j] == match ops[j].action case Skip => Skipped case Manual => ManualOp case Unknown => Failed case _ => Applied
    {
      match ops[i].action
      case Skip => status := status + [Skipped];
      case Manual => status := status + [ManualOp];
      case Unknown => status := status + [Failed];
      case _ => status := status + [Applied];
    }
  }

  // What the second pass makes of an op: whether it is to be written, and its status if it is not or has no records.
  predicate Resolved(op: PlanOp, live: Option<seq<Live>>, zone: string, active: bool, status: Status) {
    match Decide(op, live, zone)
    case Done(s) => !active && status == s
    case Write(_) => active && (op.records == [] ==> status == Failed)
  }

  // The second pass: guards, and the batch.
  method Resolve(ops: seq<PlanOp>, live: Option<seq<Live>>, zone: string, placeholders: seq<Status>)
    returns (removes: seq<nat>, adds: seq<AddRecord>, active: seq<bool>, status: seq<Status>)
    requires |placeholders| == |ops|
    requires forall j :: 0 <= j < |ops| && !IsWrite(ops[j]) ==> Decide(ops[j], live, zone) == Done(placeholders[j])
    ensures removes == BatchRemoves(ops, live, zone) && adds == BatchAdds(ops, live, zone)
    ensures |active| == |status| == |ops|
    ensures forall j :: 0 <= j < |ops| ==> Resolved(ops[j], live, zone, active[j], status[j])
    ensures adds == [] ==> forall j :: 0 <= j < |ops| && active[j] ==> ops[j].records == []
  {
    hide Precondition;
    removes, adds, active, status := [], [], [], placeholders;
    for i := 0 to |ops|
      invariant removes == BatchRemoves(ops[..i], live, zone) && adds == BatchAdds(ops[..i], live, zone)
      invariant |active| == i && |status| == |ops|
      invariant forall j :: i <= j < |ops| ==> status[j] == placeholders[j]
      invariant forall j :: 0 <= j < i ==> Resolved(ops[j], live, zone, active[j], status[j])
      invariant adds == [] ==> forall j :: 0 <= j < i && active[j] ==> ops[j].records == []
    {
      assert ops[..i + 1][..i] == ops[..i];
      var writes := IsWrite(ops[i]) && live.Some?;
      if IsWrite(ops[i]) && live.None? {
        status := status[i := Failed];
      }
      if writes && ops[i].action == Replace {
        var verdict := DnsReplacePrecondition(ops[i], live.value, zone);
        match verdict
        case AlreadyPresent =>
          status := status[i := Skipped];
          writes := false;
        case Refused(_) =>
          status := status[i := RefusedOp];
          writes := false;
        case Proceed(lines) =>
          removes := removes + lines;
      }
      if writes {
        adds := adds + AddsOf(ops[i].records, zone);
        if ops[i].records == [] {
          status := status[i := Failed];
        }
      }
      active := active + [writes];
    }
    assert ops[..|ops|] == ops;
  }

  method VerifyAfter(op: PlanOp, seen: seq<Live>, zone: string) returns (s: Status)
    ensures s == Verified(op, seen, zone)
  {
    var present := DnsAllPresent(op.records, seen, zone);
    if !present {
      return Failed;
    }
    if op.action == Replace {
      var stale := DnsOldValuesStillPresent(op, seen, zone);
      if stale {
        return Failed;
      }
    }
    return Applied;
  }

  // ---------------------------------------------------------------- what a report of "applied" means

  // An op reported applied was decided to be written, its batch was sent, accepted and fetched again, all its
  // records were seen then and, for a replace, none of the values it was to take away. No placeholder survives.
  lemma AppliedIsObserved(op: PlanOp, live: Option<seq<Live>>, zone: string, sent: bool, w: Written, seen: Option<seq<Live>>)
    ensures StatusOf(op, live, zone, sent, w, seen) == Applied <==>
      && Decide(op, live, zone).Write? && sent && w == Accepted && seen.Some?
      && AllPresent(op.records, seen.value, zone)
      && (op.action == Replace ==> !OldValuesPresent(op, seen.value, zone))
  {
    hide AllPresent, OldValuesPresent;
  }

  // What every status says: how far the op came, and why no further.
  lemma StatusMeans(op: PlanOp, live: Option<seq<Live>>, zone: string, sent: bool, w: Written, seen: Option<seq<Live>>)
    ensures var s := StatusOf(op, live, zone, sent, w, seen);
            var replace := op.action == Replace && live.Some?;
            var verdict := if replace then Precondition(op, live.value, zone) else Proceed([]);
            var asked := IsWrite(op) && live.Some? && verdict.Proceed?;
            var observed := asked && sent && w == Accepted && seen.Some? && AllPresent(op.records, seen.value, zone) &&
                            (replace ==> !OldValuesPresent(op, seen.value, zone));
            && (s == ManualOp <==> op.action == Manual)
            && (s == Skipped <==> op.action == Skip || (replace && verdict == AlreadyPresent))
            && (s == RefusedOp <==> (replace && verdict.Refused?) || (asked && sent && w == StaleSerial))
            && (s == Applied <==> observed)
            && (s == Failed <==> op.action == Unknown || (IsWrite(op) && live.None?) || (asked && !(sent && w == StaleSerial) && !observed))
  {
    hide AllPresent, OldValuesPresent, Precondition;
  }

  // An add without records is marked failed while the batch is put together, yet ends up reported applied
  // exactly when another op of the zone has something to add and that write is accepted and fetched again.
  lemma RecordlessAddIsReportedApplied(ops: seq<PlanOp>, i: nat, live: seq<Live>, zone: string, w: Written, seen: Option<seq<Live>>)
    requires i < |ops| && ops[i].action == Add && ops[i].records == []
    ensures var sent := BatchAdds(ops, Some(live), zone) != [];
            StatusOf(ops[i], Some(live), zone, sent, w, seen) == Applied <==> sent && w == Accepted && seen.Some?
    ensures BatchAdds(ops, Some(live), zone) != [] <==>
      exists j :: 0 <= j < |ops| && Decide(ops[j], Some(live), zone).Write? && ops[j].records != []
  {
    hide Decide, BatchAdds, AllPresent;
    NothingToSend(ops, live, zone);
    AddIsDecided(ops[i], live, zone);
    assert AllPresent([], if seen.Some? then seen.value else [], zone) by { NothingIsPresent(seen, zone); }
  }

  lemma NothingIsPresent(seen: Option<seq<Live>>, zone: string)
    ensures AllPresent([], if seen.Some? then seen.value else [], zone)
  {
  }

  lemma AddIsDecided(op: PlanOp, live: seq<Live>, zone: string)
    requires op.action == Add
    ensures Decide(op, Some(live), zone) == Write([])
  {
  }

  lemma {:induction false} NothingToSend(ops: seq<PlanOp>, live: seq<Live>, zone: string)
    ensures BatchAdds(ops, Some(live), zone) == [] <==>
      forall j :: 0 <= j < |ops| && Decide(ops[j], Some(live), zone).Write? ==> ops[j].records == []
  {
    hide Decide;
    if ops != [] {
      NothingToSend(ops[..|ops| - 1], live, zone);
    }
  }
}
