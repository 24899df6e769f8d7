/** The report-driven rollback of `email apply`: ComputeEmailRollback in
    internal/accountinventory/emailapply.go and executeEmailRollbackOp in
    cmd/cpanel-self-migration/email_apply_cmd.go. */
module EmailRollback {
  import opened Text
  import opened EmailValues
  import opened EmailState
  import opened EmailApply
  import EmailSafety

  // EmailRollbackOp: what to undo, and the post-apply state it expects.
  datatype Undo = RemoveForward(domain: string, address: string, target: string)
                | RestoreDefault(domain: string, value: string, expected: string)
                | RemoveResponder(domain: string, address: string, content: Content)
                | RemoveFilter(account: string, name: string, rules: Rules)
                | RestoreRoute(domain: string, value: string, expected: string)

  // The inverse of an applied op, or None where the report or the backup does not allow one. The backup holds
  // the listings taken before the first write.
  function UndoFor(op: Op, backup: Live): Option<Undo> {
    if !HasWriter(op) then None
    else
      match op.section
      case Forwarders => Some(RemoveForward(op.domain, op.key, op.forward))
      case DefaultAddress =>
        if backup.noDefaults || DefaultOf(op, backup.mail).None? then None
        else Some(RestoreDefault(op.domain, DefaultOf(op, backup.mail).value, op.value))
      case Autoresponders =>
        if op.content.None? then None else Some(RemoveResponder(op.domain, op.key, op.content.value))
      case EmailFilters =>
        var (account, name) := SplitFilterKey(op.key);
        if op.rules.None? then None else Some(RemoveFilter(account, name, op.rules.value))
      case EmailRouting =>
        if backup.noRoutes || RouteOf(op, backup.mail).None? then None
        else Some(RestoreRoute(op.domain, RouteOf(op, backup.mail).value, op.value))
      case OtherSection => None
  }

  function Undos(ops: seq<Op>, status: seq<Status>, backup: Live): Option<seq<Undo>>
    requires |ops| == |status|
  {
    if ops == [] then Some([])
    else
      var n := |ops| - 1;
      match Undos(ops[..n], status[..n], backup)
      case None => None
      case Some(before) =>
        if status[n] != Applied then Some(before)
        else match UndoFor(ops[n], backup) case None => None case Some(u) => Some(before + [u])
  }

  // ComputeEmailRollback
  method ComputeEmailRollback(ops: seq<Op>, status: seq<Status>, backup: Live) returns (r: Option<seq<Undo>>)
    requires |ops| == |status|
    ensures r == Undos(ops, status, backup)
  {
    hide UndoFor;
    var out := [];
    for i := 0 to |ops|
      invariant Undos(ops[..i], status[..i], backup) == Some(out)
    {
      assert ops[..i + 1][..i] == ops[..i] && status[..i + 1][..i] == status[..i];
      if status[i] == Applied {
        var u := UndoFor(ops[i], backup);
        if u.None? {
          NoInverse(ops, status, backup, i);
          return None;
        }
        out := out + [u.value];
      }
    }
    assert ops[..|ops|] == ops && status[..|ops|] == status;
    return Some(out);
  }

  lemma {:induction false} NoInverse(ops: seq<Op>, status: seq<Status>, backup: Live, i: nat)
    requires |ops| == |status| && i < |ops| && status[i] == Applied && UndoFor(ops[i], backup).None?
    ensures Undos(ops, status, backup).None?
  {
    hide UndoFor;
    var n := |ops| - 1;
    if i < n {
      NoInverse(ops[..n], status[..n], backup, i);
    }
  }

  // ---------------------------------------------------------------- one inverse

  function Current(u: Undo, m: Mail): Option<string> {
    match u
    case RestoreDefault(d, _, _) => Lookup(m.defaults, true, "", d)
    case RestoreRoute(d, _, _) => Lookup(m.routes, true, "", d)
    case _ => None
  }

  predicate SameValue(u: Undo, a: string, b: string, user: string) {
    if u.RestoreDefault? then Equivalent(a, b, user, user) else a == b
  }

  // The pre-check: Write to go ahead, Already when there is nothing to undo, Refuse when people changed the
  // item since.
  function Precheck(u: Undo, seen: Mail, user: string): Decision {
    match u
    case RemoveForward(d, a, t) => if PairIn(seen.forwards, d, a, t) then Write else Already
    case RemoveResponder(d, a, c) =>
      var e := Lookup(seen.responders, true, d, a);
      if e.None? then Already else if e.value.Some? && SameContent(c, e.value.value) then Write else Refuse
    case RemoveFilter(acc, n, rs) =>
      var e := Lookup(seen.filters, false, acc, n);
      if e.None? then Already else if e.value.Some? && SameRules(rs, e.value.value) then Write else Refuse
    case _ =>
      var cur := Current(u, seen);
      if cur.None? then Refuse
      else if SameValue(u, u.value, cur.value, user) then Already
      else if u.expected != "" && !SameValue(u, u.expected, cur.value, user) then Refuse
      else Write
  }

  function UndoWrite(u: Undo, m: Mail, tail: string): Mail {
    match u
    case RemoveForward(d, a, t) => m.(forwards := DeleteForward(m.forwards, d, a, t))
    case RestoreDefault(d, v, _) => SetDefault(m, d, v, tail)
    case RemoveResponder(d, a, _) => m.(responders := Drop(m.responders, true, d, a))
    case RemoveFilter(acc, n, _) => m.(filters := Drop(m.filters, false, acc, n))
    case RestoreRoute(d, v, _) => SetRoute(m, d, v)
  }

  predicate Restored(u: Undo, items: seq<Item<string>>, user: string)
    requires u.RestoreDefault? || u.RestoreRoute?
  {
    exists i :: 0 <= i < |items| && Hits(items[i], true, "", u.domain) && SameValue(u, u.value, items[i].value, user)
  }

  // The verdict of the re-list after the write.
  predicate Undone(u: Undo, seen: Mail, user: string) {
    match u
    case RemoveForward(d, a, t) => !PairIn(seen.forwards, d, a, t)
    case RemoveResponder(d, a, _) => Lookup(seen.responders, true, d, a).None?
    case RemoveFilter(acc, n, _) => Lookup(seen.filters, false, acc, n).None?
    case RestoreDefault(_, _, _) => Restored(u, seen.defaults, user)
    case RestoreRoute(_, _, _) => Restored(u, seen.routes, user)
  }

  function UndoAttempt(u: Undo, m: Mail, user: string, t: Turn): Attempt {
    if t.relistFails then Stopped(Failed)
    else
      match Precheck(u, Seen(m, t.blind), user)
      case Already => Stopped(AlreadyPresent)
      case Refuse => Stopped(Refused)
      case Write => if t.writeFails then Stopped(Failed) else Wrote
  }

  // Pre-check and write, as one step.
  function UndoStep(u: Undo, m: Mail, user: string, t: Turn): Mail {
    if UndoAttempt(u, m, user, t) == Wrote then UndoWrite(u, m, t.tail) else m
  }

  function UndoMail(u: Undo, m: Mail, user: string, t: Turn): Mail {
    t.after(UndoStep(u, t.before(m), user, t))
  }

  function UndoStatus(u: Undo, m: Mail, user: string, t: Turn): Status {
    match UndoAttempt(u, t.before(m), user, t)
    case Stopped(s) => s
    case Wrote =>
      if !t.refetchFails && Undone(u, Seen(UndoMail(u, m, user, t), t.seenBlind), user) then Applied else Failed
  }

  // The account after the first `n` inverses.
  function UndoneAt(undos: seq<Undo>, turns: seq<Turn>, user: string, m: Mail, n: nat): Mail
    requires n <= |undos| <= |turns|
  {
    if n == 0 then m else UndoMail(undos[n - 1], UndoneAt(undos, turns, user, m, n - 1), user, turns[n - 1])
  }

  // The write loop of runEmailRollback.
  method RunEmailRollback(dest: Destination, undos: seq<Undo>, user: string, turns: seq<Turn>) returns (results: seq<Status>)
    requires |turns| == |undos|
    modifies dest
    ensures dest.mail == UndoneAt(undos, turns, user, old(dest.mail), |undos|)
    ensures |results| == |undos| && forall i :: 0 <= i < |undos| ==>
      results[i] == UndoStatus(undos[i], UndoneAt(undos, turns, user, old(dest.mail), i), user, turns[i])
  {
    hide UndoMail, UndoStatus;
    results := [];
    for i := 0 to |undos|
      invariant |results| == i && dest.mail == UndoneAt(undos, turns, user, old(dest.mail), i)
      invariant forall j :: 0 <= j < i ==>
        results[j] == UndoStatus(undos[j], UndoneAt(undos, turns, user, old(dest.mail), j), user, turns[j])
    {
      var res := ExecuteEmailRollbackOp(dest, undos[i], user, turns[i]);
      results := results + [res];
    }
  }

  method ExecuteEmailRollbackOp(dest: Destination, u: Undo, user: string, t: Turn) returns (res: Status)
    modifies dest
    ensures dest.mail == UndoMail(u, old(dest.mail), user, t) && res == UndoStatus(u, old(dest.mail), user, t)
  {
    hide Precheck, UndoWrite, Undone, Seen;
    dest.mail := t.before(dest.mail);
    var decision := if t.relistFails then Refuse else Precheck(u, Seen(dest.mail, t.blind), user);
    if t.relistFails {
      res := Failed;
    } else if decision == Already {
      res := AlreadyPresent;
    } else if decision == Refuse {
      res := Refused;
    } else if t.writeFails {
      res := Failed;
    } else {
      dest.mail := UndoWrite(u, dest.mail, t.tail);
      dest.mail := t.after(dest.mail);
      return if !t.refetchFails && Undone(u, Seen(dest.mail, t.seenBlind), user) then Applied else Failed;
    }
    dest.mail := t.after(dest.mail);
  }

  // ---------------------------------------------------------------- what a rollback reports

  ghost predicate PairListed(m: Mail, domain: string, address: string, target: string) {
    exists f :: f in m.forwards && f.domain == domain && Canon(f.source) == Canon(address) && Canon(f.target) == Canon(target)
  }

  // What a restored value does: an effect for a default address, the mode itself for routing.
  ghost predicate Does(u: Undo, v: string, as_: string) { if u.RestoreDefault? then EffectOf(v) == EffectOf(as_) else v == as_ }

  ghost predicate ValueListed(u: Undo, m: Mail, v: string)
    requires u.RestoreDefault? || u.RestoreRoute?
  {
    if u.RestoreDefault? then ListedAs(m.defaults, true, "", u.domain, v) else ListedAs(m.routes, true, "", u.domain, v)
  }

  // There is nothing to undo: the item is not listed, or the value to put back is there.
  ghost predicate NothingLeft(u: Undo, m: Mail) {
    match u
    case RemoveForward(d, a, x) => !PairListed(m, d, a, x)
    case RemoveResponder(d, a, _) => Unlisted(m.responders, true, d, a)
    case RemoveFilter(acc, n, _) => Unlisted(m.filters, false, acc, n)
    case _ => exists v :: ValueListed(u, m, v) && Does(u, v, u.value)
  }

  // The item is listed as the tool had made it; a restore that expects nothing takes any value for that.
  ghost predicate ToBeUndone(u: Undo, m: Mail) {
    match u
    case RemoveForward(d, a, x) => PairListed(m, d, a, x)
    case RemoveResponder(d, a, c) => exists x :: ListedAs(m.responders, true, d, a, Some(x)) && Normal(x) == Normal(c)
    case RemoveFilter(acc, n, rs) => exists x :: ListedAs(m.filters, false, acc, n, Some(x)) && StoredRules(x) == StoredRules(rs)
    case _ => exists v :: ValueListed(u, m, v) && !Does(u, v, u.value) && (u.expected == "" || Does(u, v, u.expected))
  }

  // What the re-list after the write is to show.
  ghost predicate UndoShown(u: Undo, m: Mail) {
    match u
    case RestoreDefault(d, v, _) => exists it :: it in m.defaults && Hits(it, true, "", d) && EffectOf(it.value) == EffectOf(v)
    case RestoreRoute(d, v, _) => exists it :: it in m.routes && Hits(it, true, "", d) && it.value == v
    case _ => NothingLeft(u, m)
  }

  lemma PrecheckMeans(u: Undo, seen: Mail, user: string)
    ensures Precheck(u, seen, user) == Already <==> NothingLeft(u, seen)
    ensures Precheck(u, seen, user) == Write <==> ToBeUndone(u, seen)
  {
    hide Canon, Lookup, ListedAs, Unlisted, EffectOf, Equivalent, SameContent, SameRules, Normal, StoredRules, SplitFilterKey;
    match u
    case RemoveForward(d, a, x) => PairIsListed(seen, d, a, x);
    case RemoveResponder(d, a, c) =>
      FoundAs(seen.responders, true, d, a);
      if Lookup(seen.responders, true, d, a).Some? && Lookup(seen.responders, true, d, a).value.Some? {
        SameContentIsSameNormal(c, Lookup(seen.responders, true, d, a).value.value);
      }
    case RemoveFilter(acc, n, rs) =>
      FoundAs(seen.filters, false, acc, n);
      if Lookup(seen.filters, false, acc, n).Some? && Lookup(seen.filters, false, acc, n).value.Some? {
        SameRulesIsSameStored(rs, Lookup(seen.filters, false, acc, n).value.value);
      }
    case _ => RestoreMeans(u, seen, user);
  }

  lemma RestoreMeans(u: Undo, seen: Mail, user: string)
    requires u.RestoreDefault? || u.RestoreRoute?
    ensures Precheck(u, seen, user) == Already <==> NothingLeft(u, seen)
    ensures Precheck(u, seen, user) == Write <==> ToBeUndone(u, seen)
  {
    hide ValueListed, Does, SameValue, Current;
    ValueListedIs(u, seen);
    if Current(u, seen).Some? {
      var v := Current(u, seen).value;
      assert ValueListed(u, seen, v);
      SameDoes(u, u.value, v, user);
      SameDoes(u, u.expected, v, user);
    }
  }

  lemma ValueListedIs(u: Undo, m: Mail)
    requires u.RestoreDefault? || u.RestoreRoute?
    ensures forall v :: ValueListed(u, m, v) <==> Current(u, m) == Some(v)
  {
    hide Lookup, ListedAs;
    FoundAs(m.defaults, true, "", u.domain);
    FoundAs(m.routes, true, "", u.domain);
  }

  lemma SameDoes(u: Undo, a: string, b: string, user: string)
    ensures SameValue(u, a, b, user) <==> Does(u, b, a)
  {
    hide EffectOf, Equivalent;
    EquivalentIsSameEffect(a, b, user, user);
  }

  lemma PairIsListed(m: Mail, domain: string, address: string, target: string)
    ensures PairIn(m.forwards, domain, address, target) <==> PairListed(m, domain, address, target)
  {
    hide Canon;
    if PairIn(m.forwards, domain, address, target) {
      var i :| 0 <= i < |m.forwards| && IsPair(m.forwards[i], domain, address, target);
      assert m.forwards[i] in m.forwards;
    }
  }

  lemma UndoneIsShown(u: Undo, seen: Mail, user: string)
    ensures Undone(u, seen, user) <==> UndoShown(u, seen)
  {
    hide Canon, Lookup, Unlisted, EffectOf, Equivalent, SameContent, SameRules, Hits;
    match u
    case RemoveForward(d, a, x) => PairIsListed(seen, d, a, x);
    case RemoveResponder(d, a, c) => FoundAs(seen.responders, true, d, a);
    case RemoveFilter(acc, n, rs) => FoundAs(seen.filters, false, acc, n);
    case RestoreDefault(d, v, _) =>
      forall it | it in seen.defaults ensures Equivalent(v, it.value, user, user) <==> EffectOf(it.value) == EffectOf(v) {
        EquivalentIsSameEffect(v, it.value, user, user);
      }
      RestoredIs(u, seen.defaults, user);
    case RestoreRoute(_, _, _) => RestoredIs(u, seen.routes, user);
  }

  lemma RestoredIs(u: Undo, items: seq<Item<string>>, user: string)
    requires u.RestoreDefault? || u.RestoreRoute?
    ensures Restored(u, items, user) <==> exists it :: it in items && Hits(it, true, "", u.domain) && SameValue(u, u.value, it.value, user)
  {
    hide Hits, SameValue;
    if Restored(u, items, user) {
      var i :| 0 <= i < |items| && Hits(items[i], true, "", u.domain) && SameValue(u, u.value, items[i].value, user);
      assert items[i] in items;
    }
  }

  // Every status of one inverse, for every account and whatever people do before and after the write.
  lemma UndoStatusMeans(u: Undo, m: Mail, user: string, t: Turn)
    ensures var s, before := UndoStatus(u, m, user, t), Seen(t.before(m), t.blind);
            var sent := !t.relistFails && !t.writeFails && ToBeUndone(u, before);
            var shown := sent && !t.refetchFails && UndoShown(u, Seen(t.after(UndoWrite(u, t.before(m), t.tail)), t.seenBlind));
            && (s == Applied <==> shown)
            && (s == AlreadyPresent <==> !t.relistFails && NothingLeft(u, before))
            && (s == Refused <==> !t.relistFails && !NothingLeft(u, before) && !ToBeUndone(u, before))
            && (s == Failed <==> t.relistFails || (ToBeUndone(u, before) && !shown))
  {
    hide Precheck, NothingLeft, ToBeUndone, UndoShown, Undone, UndoWrite, Seen;
    PrecheckMeans(u, Seen(t.before(m), t.blind), user);
    UndoneIsShown(u, Seen(UndoMail(u, m, user, t), t.seenBlind), user);
  }

  // Which ops have an inverse, and what it is: the very item is to be removed, or the value the backup lists first for
  // the domain is to be put back over the one the op had set.
  lemma InverseMeans(op: Op, backup: Live)
    ensures UndoFor(op, backup).Some? <==>
      && HasWriter(op)
      && (op.section == DefaultAddress ==> !backup.noDefaults && !Unlisted(backup.mail.defaults, true, "", op.domain))
      && (op.section == EmailRouting ==> !backup.noRoutes && !Unlisted(backup.mail.routes, true, "", op.domain))
      && (op.section == Autoresponders ==> op.content.Some?) && (op.section == EmailFilters ==> op.rules.Some?)
    ensures UndoFor(op, backup).Some? ==>
              match UndoFor(op, backup).value
              case RemoveForward(d, a, x) => op.section == Forwarders && d == op.domain && a == op.key && x == op.forward
              case RestoreDefault(d, v, was) =>
                op.section == DefaultAddress && d == op.domain && was == op.value && ListedAs(backup.mail.defaults, true, "", d, v)
              case RemoveResponder(d, a, c) => op.section == Autoresponders && d == op.domain && a == op.key && op.content == Some(c)
              case RemoveFilter(acc, n, rs) => op.section == EmailFilters && SplitFilterKey(op.key) == (acc, n) && op.rules == Some(rs)
              case RestoreRoute(d, v, was) =>
                op.section == EmailRouting && d == op.domain && was == op.value && ListedAs(backup.mail.routes, true, "", d, v)
  {
    hide Lookup, ListedAs, Unlisted, SplitFilterKey;
    FoundAs(backup.mail.defaults, true, "", op.domain);
    FoundAs(backup.mail.routes, true, "", op.domain);
  }

  // A report can be rolled back exactly when every applied op has an inverse; then the inverses are those, in order.
  lemma {:induction false} UndosMean(ops: seq<Op>, status: seq<Status>, backup: Live)
    requires |ops| == |status|
    ensures Undos(ops, status, backup).Some? <==> forall i :: 0 <= i < |ops| && status[i] == Applied ==> UndoFor(ops[i], backup).Some?
  {
    hide UndoFor;
    if ops != [] {
      var n := |ops| - 1;
      UndosMean(ops[..n], status[..n], backup);
      assert forall i :: 0 <= i < n ==> ops[..n][i] == ops[i] && status[..n][i] == status[i];
    }
  }

  lemma {:induction false} UndosHold(ops: seq<Op>, status: seq<Status>, backup: Live)
    requires |ops| == |status| && Undos(ops, status, backup).Some?
    ensures multiset(Undos(ops, status, backup).value) == AppliedUndos(ops, status, backup)
  {
    hide UndoFor;
    if ops != [] {
      UndosHold(ops[..|ops| - 1], status[..|ops| - 1], backup);
    }
  }

  lemma {:induction false} UndosInOrder(ops: seq<Op>, status: seq<Status>, backup: Live, k: nat)
    requires |ops| == |status| && k <= |ops| && Undos(ops, status, backup).Some?
    ensures Undos(ops[..k], status[..k], backup).Some?
    ensures Undos(ops[..k], status[..k], backup).value <= Undos(ops, status, backup).value
  {
    hide UndoFor;
    if k == |ops| {
      assert ops[..k] == ops && status[..k] == status;
    } else {
      var n := |ops| - 1;
      UndosInOrder(ops[..n], status[..n], backup, k);
      assert ops[..n][..k] == ops[..k] && status[..n][..k] == status[..k];
    }
  }

  ghost function AppliedUndos(ops: seq<Op>, status: seq<Status>, backup: Live): multiset<Undo>
    requires |ops| == |status|
  {
    if ops == [] then multiset{}
    else
      var n := |ops| - 1;
      AppliedUndos(ops[..n], status[..n], backup) +
      if status[n] == Applied && UndoFor(ops[n], backup).Some? then multiset{UndoFor(ops[n], backup).value} else multiset{}
  }

  // ---------------------------------------------------------------- what a rollback leaves alone

  // The item is still what the tool had made of it.
  predicate StillApplied(u: Undo, m: Mail) {
    match u
    case RemoveForward(d, a, x) => PairIn(m.forwards, d, a, x)
    case RemoveResponder(d, a, c) =>
      var e := Lookup(m.responders, true, d, a);
      e.Some? && e.value.Some? && SameContent(c, e.value.value)
    case RemoveFilter(acc, n, rs) =>
      var e := Lookup(m.filters, false, acc, n);
      e.Some? && e.value.Some? && SameRules(rs, e.value.value)
    case RestoreDefault(d, _, was) =>
      var v := Lookup(m.defaults, true, "", d);
      v.Some? && EffectOf(v.value) == EffectOf(was)
    case RestoreRoute(d, _, was) => Lookup(m.routes, true, "", d) == Some(was)
  }

  // A restore that expects nothing: the pre-check takes an empty expected value for "do not look".
  predicate Unchecked(u: Undo) { (u.RestoreDefault? || u.RestoreRoute?) && u.expected == "" }

  // One inverse, in whatever state people left the account: it changes nothing, or it takes away the very item
  // the tool had put there, or it puts back a value over the one the tool had set - unless it is unchecked.
  lemma UndoesOwnWork(u: Undo, m: Mail, user: string, t: Turn)
    ensures UndoStep(u, m, user, t) == m ||
            ((StillApplied(u, m) || Unchecked(u)) && UndoStep(u, m, user, t) == UndoWrite(u, m, t.tail))
  {
    hide Lookup, PairIn, SameContent, SameRules, EffectOf, Equivalent, Blinded, UndoWrite;
    if UndoAttempt(u, m, user, t) == Wrote {
      match u
      case RemoveResponder(d, a, c) => BlindedLookup(m.responders, t.blind, true, d, a);
      case RemoveFilter(acc, n, rs) => BlindedLookup(m.filters, t.blind, false, acc, n);
      case RestoreDefault(d, _, was) => EquivalentIsSameEffect(was, Lookup(m.defaults, true, "", d).value, user, user);
      case _ =>
    }
  }

  // A restore meets a value that is neither the one the tool had set nor the one to put back: it is overwritten
  // exactly when the restore is unchecked and neither the listing nor the write fails.
  lemma DivergedIsOverwritten(u: Undo, m: Mail, user: string, t: Turn)
    requires (u.RestoreDefault? || u.RestoreRoute?) && Current(u, m).Some? && !StillApplied(u, m)
    requires !SameValue(u, u.value, Current(u, m).value, user)
    ensures UndoAttempt(u, m, user, t) == Wrote <==> Unchecked(u) && !t.relistFails && !t.writeFails
  {
    hide Lookup, EffectOf, Equivalent;
    if u.RestoreDefault? {
      EquivalentIsSameEffect(u.expected, Current(u, m).value, user, user);
    }
  }

  // So a mode that a person chose after the apply is lost where the plan had set the empty one.
  lemma EmptyModeOverwritesAChoice(m: Mail, user: string, t: Turn)
    requires Lookup(m.routes, true, "", "d") == Some("remote") && !t.relistFails && !t.writeFails
    ensures Lookup(UndoStep(RestoreRoute("d", "local", ""), m, user, t).routes, true, "", "d") == Some("local")
  {
    hide Lookup, Upsert;
    DivergedIsOverwritten(RestoreRoute("d", "local", ""), m, user, t);
    UpsertFound(m.routes, true, "", "d", "local");
  }

  // ---------------------------------------------------------------- whose forwarder it is

  // A forwarder is created without a re-check of its own. Reported applied, it is the tool's own work exactly
  // when the pair was not on the account right before the write; otherwise the write changed nothing.
  lemma AppliedForwardIsOwn(op: Op, m: Mail, user: string, t: Turn)
    requires op.section == Forwarders && EmailSafety.Addressed(op) && TurnStatus(op, m, user, t) == Applied
    ensures var before := t.before(m);
            ToolStep(op, before, user, t) ==
              if PairIn(before.forwards, op.domain, op.key, op.forward) then before
              else before.(forwards := before.forwards + [Forward(op.domain, op.local + "@" + op.domain, op.forward)])
  {
    hide Canon;
  }

  function HasPair(domain: string, address: string, target: string): Mail -> bool {
    (m: Mail) => PairIn(m.forwards, domain, address, target)
  }

  // A pair that a person adds between the guard and the write is reported applied, and rolling back takes it away.
  lemma RacedForwardIsRemoved(op: Op, m: Mail, user: string, t: Turn, backup: Live, t': Turn)
    requires op.section == Forwarders && op.action == Create && EmailSafety.Addressed(op)
    requires PairIn(t.before(m).forwards, op.domain, op.key, op.forward) && EmailSafety.Keeps(t.after, HasPair(op.domain, op.key, op.forward))
    requires !t.writeFails && !t.refetchFails && !t'.relistFails && !t'.writeFails
    ensures ToolStep(op, t.before(m), user, t) == t.before(m) && TurnStatus(op, m, user, t) == Applied
    ensures var u := RemoveForward(op.domain, op.key, op.forward);
            && UndoFor(op, backup) == Some(u)
            && forall x: Mail :: !PairIn(UndoStep(u, x, user, t').forwards, op.domain, op.key, op.forward)
  {
    hide Canon, Blinded;
    assert HasPair(op.domain, op.key, op.forward)(t.before(m));
    forall x: Mail
      ensures !PairIn(UndoStep(RemoveForward(op.domain, op.key, op.forward), x, user, t').forwards, op.domain, op.key, op.forward)
    {
      DeleteOnly(x.forwards, op.domain, op.key, op.forward);
    }
  }

  ghost predicate UndoKeeps(undos: seq<Undo>, turns: seq<Turn>, user: string, p: Mail -> bool) {
    && |turns| == |undos|
    && (forall i, x :: 0 <= i < |undos| && p(x) ==> p(UndoStep(undos[i], x, user, turns[i])))
    && (forall i :: 0 <= i < |turns| ==> EmailSafety.Keeps(turns[i].before, p) && EmailSafety.Keeps(turns[i].after, p))
  }

  lemma {:induction false} RollbackKeeps(undos: seq<Undo>, turns: seq<Turn>, user: string, m: Mail, k: nat, n: nat, p: Mail -> bool)
    requires k <= n <= |undos| && UndoKeeps(undos, turns, user, p) && p(UndoneAt(undos, turns, user, m, k))
    ensures p(UndoneAt(undos, turns, user, m, n))
    decreases n - k
  {
    hide UndoStep;
    if k < n {
      RollbackKeeps(undos, turns, user, m, k, n - 1, p);
      var x, t := UndoneAt(undos, turns, user, m, n - 1), turns[n - 1];
      assert EmailSafety.Keeps(t.before, p) && EmailSafety.Keeps(t.after, p);
      assert p(t.before(x)) && p(UndoStep(undos[n - 1], t.before(x), user, t));
    }
  }

  lemma {:induction false} DropOther<V>(items: seq<Item<V>>, fold: bool, scope: string, name: string, scope2: string, name2: string)
    requires scope != scope2 || NameKey(name, fold) != NameKey(name2, fold)
    ensures Lookup(Drop(items, fold, scope, name), fold, scope2, name2) == Lookup(items, fold, scope2, name2)
  {
    hide NameKey;
    if items != [] {
      DropOther(items[1..], fold, scope, name, scope2, name2);
      if Hits(items[0], fold, scope, name) {
        assert Drop(items, fold, scope, name) == Drop(items[1..], fold, scope, name);
      } else {
        assert Drop(items, fold, scope, name)[1..] == Drop(items[1..], fold, scope, name);
      }
    }
  }

  lemma {:induction false} DeleteOnly(a: seq<Forward>, d: string, x: string, t: string)
    ensures forall f :: f in DeleteForward(a, d, x, t) <==> f in a && !IsPair(f, d, x, t)
    ensures !PairIn(a, d, x, t) ==> DeleteForward(a, d, x, t) == a
  {
    hide IsPair;
    if a != [] {
      DeleteOnly(a[1..], d, x, t);
      assert a == [a[0]] + a[1..];
      if !PairIn(a, d, x, t) {
        assert !PairIn(a[1..], d, x, t) by {
          forall i | 0 <= i < |a[1..]| ensures !IsPair(a[1..][i], d, x, t) {
            assert a[1..][i] == a[i + 1];
          }
        }
      }
    }
  }

  function HasContent(scope: string, name: string, c: Content): Mail -> bool {
    (m: Mail) => Lookup(m.responders, true, scope, name) == Some(Some(c))
  }

  function HasRules(scope: string, name: string, rs: Rules): Mail -> bool {
    (m: Mail) => Lookup(m.filters, false, scope, name) == Some(Some(rs))
  }

  ghost predicate PeopleKeep(turns: seq<Turn>, p: Mail -> bool) {
    forall i :: 0 <= i < |turns| ==> EmailSafety.Keeps(turns[i].before, p) && EmailSafety.Keeps(turns[i].after, p)
  }

  // A forwarder that is none of the pairs to undo stays, however the account was edited in between.
  lemma OtherForwardSurvives(undos: seq<Undo>, turns: seq<Turn>, user: string, m: Mail, k: nat, f: Forward)
    requires |turns| == |undos| && k <= |undos| && PeopleKeep(turns, EmailSafety.HasForward(f))
    requires f in UndoneAt(undos, turns, user, m, k).forwards
    requires forall i :: 0 <= i < |undos| && undos[i].RemoveForward? ==> !IsPair(f, undos[i].domain, undos[i].address, undos[i].target)
    ensures f in UndoneAt(undos, turns, user, m, |undos|).forwards
  {
    hide UndoneAt, UndoAttempt, IsPair, Upsert, Drop;
    forall i, x: Mail | 0 <= i < |undos| && f in x.forwards
      ensures f in UndoStep(undos[i], x, user, turns[i]).forwards
    {
      if undos[i].RemoveForward? {
        DeleteOnly(x.forwards, undos[i].domain, undos[i].address, undos[i].target);
      }
    }
    RollbackKeeps(undos, turns, user, m, k, |undos|, EmailSafety.HasForward(f));
  }

  // An autoresponder whose content is not the one the tool had written stays.
  lemma EditedResponderSurvives(undos: seq<Undo>, turns: seq<Turn>, user: string, m: Mail, k: nat, scope: string, name: string, c: Content)
    requires |turns| == |undos| && k <= |undos| && PeopleKeep(turns, HasContent(scope, name, c))
    requires Lookup(UndoneAt(undos, turns, user, m, k).responders, true, scope, name) == Some(Some(c))
    requires forall i :: 0 <= i < |undos| && undos[i].RemoveResponder? && undos[i].domain == scope && Canon(undos[i].address) == Canon(name)
               ==> !SameContent(undos[i].content, c)
    ensures Lookup(UndoneAt(undos, turns, user, m, |undos|).responders, true, scope, name) == Some(Some(c))
  {
    hide UndoneAt, UndoStep, SameContent, Upsert, Drop, Lookup, Canon, PairIn, SameRules;
    forall i, x: Mail | 0 <= i < |undos| && Lookup(x.responders, true, scope, name) == Some(Some(c))
      ensures Lookup(UndoStep(undos[i], x, user, turns[i]).responders, true, scope, name) == Some(Some(c))
    {
      UndoesOwnWork(undos[i], x, user, turns[i]);
      if undos[i].RemoveResponder? {
        if undos[i].domain == scope && Canon(undos[i].address) == Canon(name) {
          EmailSafety.LookupByKey(x.responders, scope, undos[i].address, name);
        } else {
          DropOther(x.responders, true, undos[i].domain, undos[i].address, scope, name);
        }
      }
    }
    RollbackKeeps(undos, turns, user, m, k, |undos|, HasContent(scope, name, c));
  }

  // So does a filter.
  lemma EditedFilterSurvives(undos: seq<Undo>, turns: seq<Turn>, user: string, m: Mail, k: nat, scope: string, name: string, rs: Rules)
    requires |turns| == |undos| && k <= |undos| && PeopleKeep(turns, HasRules(scope, name, rs))
    requires Lookup(UndoneAt(undos, turns, user, m, k).filters, false, scope, name) == Some(Some(rs))
    requires forall i :: 0 <= i < |undos| && undos[i].RemoveFilter? && undos[i].account == scope && undos[i].name == name
               ==> !SameRules(undos[i].rules, rs)
    ensures Lookup(UndoneAt(undos, turns, user, m, |undos|).filters, false, scope, name) == Some(Some(rs))
  {
    hide UndoneAt, UndoStep, SameContent, Upsert, Drop, Lookup, Canon, PairIn, SameRules;
    forall i, x: Mail | 0 <= i < |undos| && Lookup(x.filters, false, scope, name) == Some(Some(rs))
      ensures Lookup(UndoStep(undos[i], x, user, turns[i]).filters, false, scope, name) == Some(Some(rs))
    {
      UndoesOwnWork(undos[i], x, user, turns[i]);
      if undos[i].RemoveFilter? && (undos[i].account != scope || undos[i].name != name) {
        DropOther(x.filters, false, undos[i].account, undos[i].name, scope, name);
      }
    }
    RollbackKeeps(undos, turns, user, m, k, |undos|, HasRules(scope, name, rs));
  }

  // A default address or routing mode that is no longer what the tool had set stays.
  lemma EditedDefaultSurvives(undos: seq<Undo>, turns: seq<Turn>, user: string, m: Mail, k: nat, domain: string, v: string)
    requires |turns| == |undos| && k <= |undos| && PeopleKeep(turns, EmailSafety.HasDefault(domain, v))
    requires Lookup(UndoneAt(undos, turns, user, m, k).defaults, true, "", domain) == Some(v)
    requires forall i :: 0 <= i < |undos| && undos[i].RestoreDefault? && Canon(undos[i].domain) == Canon(domain)
               ==> undos[i].expected != "" && EffectOf(undos[i].expected) != EffectOf(v)
    ensures Lookup(UndoneAt(undos, turns, user, m, |undos|).defaults, true, "", domain) == Some(v)
  {
    hide UndoneAt, UndoStep, SameContent, Upsert, Drop, Lookup, Canon, PairIn, SameRules, EffectOf, Stored;
    forall i, x: Mail | 0 <= i < |undos| && Lookup(x.defaults, true, "", domain) == Some(v)
      ensures Lookup(UndoStep(undos[i], x, user, turns[i]).defaults, true, "", domain) == Some(v)
    {
      UndoesOwnWork(undos[i], x, user, turns[i]);
      if undos[i].RestoreDefault? {
        if Canon(undos[i].domain) == Canon(domain) {
          EmailSafety.LookupByKey(x.defaults, "", undos[i].domain, domain);
        } else {
          UpsertOther(x.defaults, true, "", undos[i].domain, Stored(undos[i].value, turns[i].tail), "", domain);
        }
      }
    }
    RollbackKeeps(undos, turns, user, m, k, |undos|, EmailSafety.HasDefault(domain, v));
  }

  lemma EditedRouteSurvives(undos: seq<Undo>, turns: seq<Turn>, user: string, m: Mail, k: nat, domain: string, v: string)
    requires |turns| == |undos| && k <= |undos| && PeopleKeep(turns, EmailSafety.HasRoute(domain, v))
    requires Lookup(UndoneAt(undos, turns, user, m, k).routes, true, "", domain) == Some(v)
    requires forall i :: 0 <= i < |undos| && undos[i].RestoreRoute? && Canon(undos[i].domain) == Canon(domain)
               ==> undos[i].expected != "" && undos[i].expected != v
    ensures Lookup(UndoneAt(undos, turns, user, m, |undos|).routes, true, "", domain) == Some(v)
  {
    hide UndoneAt, UndoStep, SameContent, Upsert, Drop, Lookup, Canon, PairIn, SameRules, EffectOf;
    forall i, x: Mail | 0 <= i < |undos| && Lookup(x.routes, true, "", domain) == Some(v)
      ensures Lookup(UndoStep(undos[i], x, user, turns[i]).routes, true, "", domain) == Some(v)
    {
      UndoesOwnWork(undos[i], x, user, turns[i]);
      if undos[i].RestoreRoute? {
        if Canon(undos[i].domain) == Canon(domain) {
          EmailSafety.LookupByKey(x.routes, "", undos[i].domain, domain);
        } else {
          UpsertOther(x.routes, true, "", undos[i].domain, undos[i].value, "", domain);
        }
      }
    }
    RollbackKeeps(undos, turns, user, m, k, |undos|, EmailSafety.HasRoute(domain, v));
  }
}
