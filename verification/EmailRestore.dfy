/** `email apply` followed by its rollback, with nobody else editing: the account is as it was before. */
module EmailRestore {
  import opened Text
  import opened EmailValues
  import opened EmailState
  import opened EmailApply
  import opened EmailRollback
  import EmailSafety
  import V = EmailVerify

  // An op of a section that the run decides to write, its place in [lo, hi).
  predicate Active(r: Run, section: Section, lo: nat, hi: nat, i: int) {
    lo <= i < hi <= |r.ops| && r.ops[i].section == section && Writes(r, i)
  }

  predicate MakesForward(op: Op, f: Forward) { IsPair(f, op.domain, op.key, op.forward) }

  predicate MakesResponder<V>(op: Op, it: Item<V>) { Hits(it, true, op.domain, op.key) }

  predicate MakesFilter<V>(op: Op, it: Item<V>) { Hits(it, false, SplitFilterKey(op.key).0, SplitFilterKey(op.key).1) }

  predicate SameEffect(a: Option<string>, b: Option<string>) {
    a.Some? == b.Some? && (a.Some? ==> EffectOf(a.value) == EffectOf(b.value))
  }

  ghost predicate ForwardBy(r: Run, lo: nat, hi: nat, f: Forward) {
    exists i :: Active(r, Forwarders, lo, hi, i) && MakesForward(r.ops[i], f)
  }

  ghost predicate ResponderBy(r: Run, lo: nat, hi: nat, it: Item<Option<Content>>) {
    exists i :: Active(r, Autoresponders, lo, hi, i) && MakesResponder(r.ops[i], it)
  }

  ghost predicate FilterBy(r: Run, lo: nat, hi: nat, it: Item<Option<Rules>>) {
    exists i :: Active(r, EmailFilters, lo, hi, i) && MakesFilter(r.ops[i], it)
  }

  ghost predicate ForwardsExtend(r: Run, a: seq<Forward>, b: seq<Forward>, lo: nat, hi: nat) {
    a <= b && forall j :: |a| <= j < |b| ==> ForwardBy(r, lo, hi, b[j])
  }

  ghost predicate RespondersExtend(r: Run, a: seq<Item<Option<Content>>>, b: seq<Item<Option<Content>>>, lo: nat, hi: nat) {
    a <= b && forall j :: |a| <= j < |b| ==> ResponderBy(r, lo, hi, b[j])
  }

  ghost predicate FiltersExtend(r: Run, a: seq<Item<Option<Rules>>>, b: seq<Item<Option<Rules>>>, lo: nat, hi: nat) {
    a <= b && forall j :: |a| <= j < |b| ==> FilterBy(r, lo, hi, b[j])
  }

  ghost predicate DefaultsAgree(r: Run, a: seq<Item<string>>, b: seq<Item<string>>, lo: nat, hi: nat) {
    forall d :: (forall i :: Active(r, DefaultAddress, lo, hi, i) ==> Canon(r.ops[i].domain) != Canon(d)) ==>
      SameEffect(Lookup(a, true, "", d), Lookup(b, true, "", d))
  }

  ghost predicate RoutesAgree(r: Run, a: seq<Item<string>>, b: seq<Item<string>>, lo: nat, hi: nat) {
    forall d :: (forall i :: Active(r, EmailRouting, lo, hi, i) ==> Canon(r.ops[i].domain) != Canon(d)) ==>
      Lookup(a, true, "", d) == Lookup(b, true, "", d)
  }

  // The account differs from `m` by the outcomes of the active ops in [lo, hi), all of which are there.
  ghost predicate Differs(r: Run, m: Mail, s: Mail, lo: nat, hi: nat) {
    && ForwardsExtend(r, m.forwards, s.forwards, lo, hi) && RespondersExtend(r, m.responders, s.responders, lo, hi)
    && FiltersExtend(r, m.filters, s.filters, lo, hi)
    && DefaultsAgree(r, m.defaults, s.defaults, lo, hi) && RoutesAgree(r, m.routes, s.routes, lo, hi)
    && forall i :: lo <= i < hi <= |r.ops| && Writes(r, i) ==> OutcomePresent(r.ops[i], s, r.user)
  }

  predicate CreatesForward(op: Op) { op.section == Forwarders && op.action == Create }

  // No two forwarder creates of the plan are for the same pair.
  ghost predicate DistinctPairs(ops: seq<Op>) {
    forall i, j :: 0 <= i < j < |ops| && CreatesForward(ops[i]) && CreatesForward(ops[j]) ==>
      ops[i].domain != ops[j].domain || Canon(ops[i].key) != Canon(ops[j].key) || Canon(ops[i].forward) != Canon(ops[j].forward)
  }

  // ---------------------------------------------------------------- the apply

  ghost predicate Grows(r: Run, m: Mail, s: Mail, lo: nat, hi: nat) {
    && ForwardsExtend(r, m.forwards, s.forwards, lo, hi) && RespondersExtend(r, m.responders, s.responders, lo, hi)
    && FiltersExtend(r, m.filters, s.filters, lo, hi)
    && DefaultsAgree(r, m.defaults, s.defaults, lo, hi) && RoutesAgree(r, m.routes, s.routes, lo, hi)
  }

  lemma Widen(r: Run, m: Mail, s: Mail, lo: nat, hi: nat)
    requires hi < |r.ops| && Grows(r, m, s, lo, hi)
    ensures Grows(r, m, s, lo, hi + 1)
  {
    hide MakesForward, MakesResponder, MakesFilter, Writes, SameEffect, Lookup, Canon;
    forall f | ForwardBy(r, lo, hi, f) ensures ForwardBy(r, lo, hi + 1, f) {
      var i :| Active(r, Forwarders, lo, hi, i) && MakesForward(r.ops[i], f);
      assert Active(r, Forwarders, lo, hi + 1, i);
    }
    forall it | ResponderBy(r, lo, hi, it) ensures ResponderBy(r, lo, hi + 1, it) {
      var i :| Active(r, Autoresponders, lo, hi, i) && MakesResponder(r.ops[i], it);
      assert Active(r, Autoresponders, lo, hi + 1, i);
    }
    forall it | FilterBy(r, lo, hi, it) ensures FilterBy(r, lo, hi + 1, it) {
      var i :| Active(r, EmailFilters, lo, hi, i) && MakesFilter(r.ops[i], it);
      assert Active(r, EmailFilters, lo, hi + 1, i);
    }
    assert forall i :: Active(r, DefaultAddress, lo, hi, i) ==> Active(r, DefaultAddress, lo, hi + 1, i);
    assert forall i :: Active(r, EmailRouting, lo, hi, i) ==> Active(r, EmailRouting, lo, hi + 1, i);
  }

  lemma WriteGrows(r: Run, m: Mail, s: Mail, n: nat, tail: string)
    requires n < |r.ops| && Writes(r, n) && HasWriter(r.ops[n]) && EmailSafety.Addressed(r.ops[n]) && Grows(r, m, s, 0, n)
    requires r.ops[n].section == Forwarders || StillAsPlanned(r.ops[n], s, r.user)
    ensures Grows(r, m, WriteOp(r.ops[n], s, tail), 0, n + 1)
  {
    hide Canon, SplitFilterKey, Lookup, Upsert, Stored, Normal, PairIn, SameEffect, EffectOf, Writes,
         ForwardsExtend, RespondersExtend, FiltersExtend, DefaultsAgree, RoutesAgree;
    var op := r.ops[n];
    Widen(r, m, s, 0, n);
    assert Active(r, op.section, 0, n + 1, n);
    match op.section
    case Forwarders => ForwardGrows(r, m.forwards, s, n);
    case DefaultAddress => DefaultChanges(r, m.defaults, s.defaults, n, Stored(op.value, tail));
    case Autoresponders =>
      if op.content.Some? {
        ResponderGrows(r, m.responders, s.responders, n, Some(Normal(op.content.value)));
      }
    case EmailFilters =>
      if op.rules.Some? {
        FilterGrows(r, m.filters, s.filters, n, Some(StoredRules(op.rules.value)));
      }
    case EmailRouting => RouteChanges(r, m.routes, s.routes, n, op.value);
    case OtherSection =>
  }

  lemma ForwardGrows(r: Run, a: seq<Forward>, s: Mail, n: nat)
    requires n < |r.ops| && Active(r, Forwarders, 0, n + 1, n) && EmailSafety.Addressed(r.ops[n])
    requires ForwardsExtend(r, a, s.forwards, 0, n + 1)
    ensures ForwardsExtend(r, a, WriteOp(r.ops[n], s, "").forwards, 0, n + 1)
  {
    hide Canon, PairIn;
    var op := r.ops[n];
    var f := Forward(op.domain, op.local + "@" + op.domain, op.forward);
    assert MakesForward(op, f);
    assert ForwardBy(r, 0, n + 1, f);
  }

  lemma ResponderGrows(r: Run, a: seq<Item<Option<Content>>>, b: seq<Item<Option<Content>>>, n: nat, v: Option<Content>)
    requires n < |r.ops| && Active(r, Autoresponders, 0, n + 1, n) && EmailSafety.Addressed(r.ops[n])
    requires RespondersExtend(r, a, b, 0, n + 1) && Lookup(b, true, r.ops[n].domain, r.ops[n].key).None?
    ensures RespondersExtend(r, a, Upsert(b, true, r.ops[n].domain, r.ops[n].local + "@" + r.ops[n].domain, v), 0, n + 1)
  {
    hide Canon, Lookup, Upsert;
    var op := r.ops[n];
    var name := op.local + "@" + op.domain;
    EmailSafety.LookupByKey(b, op.domain, op.key, name);
    UpsertAbsent(b, true, op.domain, name, v);
    assert MakesResponder(op, Item(op.domain, name, v));
    assert ResponderBy(r, 0, n + 1, Item(op.domain, name, v));
  }

  lemma FilterGrows(r: Run, a: seq<Item<Option<Rules>>>, b: seq<Item<Option<Rules>>>, n: nat, v: Option<Rules>)
    requires n < |r.ops| && Active(r, EmailFilters, 0, n + 1, n)
    requires var p := SplitFilterKey(r.ops[n].key); FilterFree(b, p.0, p.1)
    requires FiltersExtend(r, a, b, 0, n + 1)
    ensures var p := SplitFilterKey(r.ops[n].key); FiltersExtend(r, a, Upsert(b, false, p.0, p.1, v), 0, n + 1)
  {
    hide Lookup, Upsert, SplitFilterKey;
    var p := SplitFilterKey(r.ops[n].key);
    UpsertAbsent(b, false, p.0, p.1, v);
    assert MakesFilter(r.ops[n], Item(p.0, p.1, v));
    assert FilterBy(r, 0, n + 1, Item(p.0, p.1, v));
  }

  predicate FilterFree(b: seq<Item<Option<Rules>>>, account: string, name: string) { Lookup(b, false, account, name).None? }

  lemma DefaultChanges(r: Run, a: seq<Item<string>>, b: seq<Item<string>>, n: nat, v: string)
    requires n < |r.ops| && Active(r, DefaultAddress, 0, n + 1, n) && DefaultsAgree(r, a, b, 0, n + 1)
    ensures DefaultsAgree(r, a, Upsert(b, true, "", r.ops[n].domain, v), 0, n + 1)
  {
    hide Canon, Lookup, Upsert, SameEffect, Writes;
    forall d | forall i :: Active(r, DefaultAddress, 0, n + 1, i) ==> Canon(r.ops[i].domain) != Canon(d)
      ensures SameEffect(Lookup(a, true, "", d), Lookup(Upsert(b, true, "", r.ops[n].domain, v), true, "", d))
    {
      UpsertOther(b, true, "", r.ops[n].domain, v, "", d);
    }
  }

  lemma RouteChanges(r: Run, a: seq<Item<string>>, b: seq<Item<string>>, n: nat, v: string)
    requires n < |r.ops| && Active(r, EmailRouting, 0, n + 1, n) && RoutesAgree(r, a, b, 0, n + 1)
    ensures RoutesAgree(r, a, Upsert(b, true, "", r.ops[n].domain, v), 0, n + 1)
  {
    hide Canon, Lookup, Upsert, Writes;
    forall d | forall i :: Active(r, EmailRouting, 0, n + 1, i) ==> Canon(r.ops[i].domain) != Canon(d)
      ensures Lookup(a, true, "", d) == Lookup(Upsert(b, true, "", r.ops[n].domain, v), true, "", d)
    {
      UpsertOther(b, true, "", r.ops[n].domain, v, "", d);
    }
  }

  lemma {:induction false} ApplyGrows(r: Run, m: Mail, n: nat)
    requires V.QuietRun(r, m) && V.Ready(r.ops, m, r.user) && n <= |r.ops|
    ensures Grows(r, m, MailAt(r, m, n), 0, n)
  {
    hide V.Ready, V.Quiet, TurnMail, Writes, Grows;
    if n == 0 {
      NothingGrown(r, m);
    } else {
      ApplyGrows(r, m, n - 1);
      if Writes(r, n - 1) {
        TurnGrows(r, m, n - 1);
      } else {
        Widen(r, m, MailAt(r, m, n - 1), 0, n - 1);
      }
    }
  }

  lemma TurnGrows(r: Run, m: Mail, n: nat)
    requires V.QuietRun(r, m) && V.Ready(r.ops, m, r.user) && n < |r.ops| && Writes(r, n)
    requires Grows(r, m, MailAt(r, m, n), 0, n)
    ensures Grows(r, m, TurnMail(r.ops[n], MailAt(r, m, n), r.user, r.turns[n]), 0, n + 1)
  {
    hide V.Ready, V.Quiet, V.Done, StillAsPlanned, WriteOp, TurnMail, Writes, Grows, MailAt, EmailSafety.Addressed, Unusable;
    var before := MailAt(r, m, n);
    V.RunProgresses(r, m, n);
    V.WritesIsReady(r, m, n);
    V.SameListing(r.ops[n], m, before);
    V.QuietStep(r.ops[n], before, r.user, r.turns[n]);
    Widen(r, m, before, 0, n);
    WriteGrows(r, m, before, n, r.turns[n].tail);
  }

  lemma NothingGrown(r: Run, m: Mail)
    ensures Grows(r, m, m, 0, 0)
  {
    hide Lookup;
  }

  // After the run the account differs from what it was by the outcomes of the ops that were written.
  lemma AppliedDiffers(r: Run, m: Mail)
    requires V.QuietRun(r, m) && V.Ready(r.ops, m, r.user)
    ensures Differs(r, m, MailAt(r, m, |r.ops|), 0, |r.ops|)
  {
    hide V.Ready, V.Quiet, MailAt, Writes, ForwardsExtend, RespondersExtend, FiltersExtend, DefaultsAgree, RoutesAgree, OutcomePresent;
    ApplyGrows(r, m, |r.ops|);
    V.RunProgresses(r, m, |r.ops|);
    var final := MailAt(r, m, |r.ops|);
    forall i | 0 <= i < |r.ops| && Writes(r, i) ensures OutcomePresent(r.ops[i], final, r.user) {
      V.WritesIsReady(r, m, i);
    }
  }

  // ---------------------------------------------------------------- one inverse

  lemma {:induction false} DeleteConcat(a: seq<Forward>, b: seq<Forward>, d: string, x: string, t: string)
    ensures DeleteForward(a + b, d, x, t) == DeleteForward(a, d, x, t) + DeleteForward(b, d, x, t)
  {
    hide IsPair;
    if a == [] {
      assert a + b == b;
    } else {
      assert (a + b)[1..] == a[1..] + b;
      DeleteConcat(a[1..], b, d, x, t);
    }
  }

  lemma {:induction false} DropOnly<V>(a: seq<Item<V>>, fold: bool, scope: string, name: string, it: Item<V>)
    requires it in Drop(a, fold, scope, name)
    ensures it in a && !Hits(it, fold, scope, name)
  {
    hide Hits;
    if Hits(a[0], fold, scope, name) || it != a[0] {
      DropOnly(a[1..], fold, scope, name, it);
      assert a == [a[0]] + a[1..];
    }
  }

  // Undoing the op at `k` takes its forwarder away and leaves the others.
  lemma ForwardShrinks(r: Run, a: seq<Forward>, b: seq<Forward>, k: nat)
    requires Active(r, Forwarders, k, |r.ops|, k) && ForwardsExtend(r, a, b, k, |r.ops|)
    requires var op := r.ops[k]; !PairIn(a, op.domain, op.key, op.forward)
    ensures var op := r.ops[k]; ForwardsExtend(r, a, DeleteForward(b, op.domain, op.key, op.forward), k + 1, |r.ops|)
  {
    hide IsPair, Writes, PairIn, DeleteForward;
    var op, extra := r.ops[k], b[|a|..];
    assert b == a + extra;
    DeleteConcat(a, extra, op.domain, op.key, op.forward);
    DeleteOnly(a, op.domain, op.key, op.forward);
    DeleteOnly(extra, op.domain, op.key, op.forward);
    var left := DeleteForward(extra, op.domain, op.key, op.forward);
    forall j | |a| <= j < |a + left| ensures ForwardBy(r, k + 1, |r.ops|, (a + left)[j]) {
      assert left[j - |a|] in left;
      var x :| 0 <= x < |extra| && extra[x] == left[j - |a|];
      assert b[|a| + x] == extra[x];
      var i :| Active(r, Forwarders, k, |r.ops|, i) && MakesForward(r.ops[i], b[|a| + x]);
      assert Active(r, Forwarders, k + 1, |r.ops|, i);
    }
  }

  lemma ResponderShrinks(r: Run, a: seq<Item<Option<Content>>>, b: seq<Item<Option<Content>>>, k: nat)
    requires Active(r, Autoresponders, k, |r.ops|, k) && RespondersExtend(r, a, b, k, |r.ops|)
    requires Lookup(a, true, r.ops[k].domain, r.ops[k].key).None?
    ensures RespondersExtend(r, a, Drop(b, true, r.ops[k].domain, r.ops[k].key), k + 1, |r.ops|)
  {
    hide Hits, Writes, Lookup, Drop;
    var op, extra := r.ops[k], b[|a|..];
    assert b == a + extra;
    DropConcat(a, extra, true, op.domain, op.key);
    DropAbsent(a, true, op.domain, op.key);
    var left := Drop(extra, true, op.domain, op.key);
    forall j | |a| <= j < |a + left| ensures ResponderBy(r, k + 1, |r.ops|, (a + left)[j]) {
      assert left[j - |a|] in left;
      DropOnly(extra, true, op.domain, op.key, left[j - |a|]);
      var x :| 0 <= x < |extra| && extra[x] == left[j - |a|];
      assert b[|a| + x] == extra[x];
      var i :| Active(r, Autoresponders, k, |r.ops|, i) && MakesResponder(r.ops[i], b[|a| + x]);
      assert Active(r, Autoresponders, k + 1, |r.ops|, i);
    }
  }

  lemma FilterShrinks(r: Run, a: seq<Item<Option<Rules>>>, b: seq<Item<Option<Rules>>>, k: nat)
    requires Active(r, EmailFilters, k, |r.ops|, k) && FiltersExtend(r, a, b, k, |r.ops|)
    requires var p := SplitFilterKey(r.ops[k].key); FilterFree(a, p.0, p.1)
    ensures var p := SplitFilterKey(r.ops[k].key); FiltersExtend(r, a, Drop(b, false, p.0, p.1), k + 1, |r.ops|)
  {
    hide Hits, Writes, Lookup, SplitFilterKey;
    var p, extra := SplitFilterKey(r.ops[k].key), b[|a|..];
    assert b == a + extra;
    DropConcat(a, extra, false, p.0, p.1);
    DropAbsent(a, false, p.0, p.1);
    var left := Drop(extra, false, p.0, p.1);
    forall j | |a| <= j < |a + left| ensures FilterBy(r, k + 1, |r.ops|, (a + left)[j]) {
      assert left[j - |a|] in left;
      DropOnly(extra, false, p.0, p.1, left[j - |a|]);
      var x :| 0 <= x < |extra| && extra[x] == left[j - |a|];
      assert b[|a| + x] == extra[x];
      var i :| Active(r, EmailFilters, k, |r.ops|, i) && MakesFilter(r.ops[i], b[|a| + x]);
      assert Active(r, EmailFilters, k + 1, |r.ops|, i);
    }
  }

  lemma DefaultReturns(r: Run, a: seq<Item<string>>, b: seq<Item<string>>, k: nat, tail: string)
    requires Active(r, DefaultAddress, k, |r.ops|, k) && DefaultsAgree(r, a, b, k, |r.ops|)
    requires Lookup(a, true, "", r.ops[k].domain).Some?
    ensures var v := Lookup(a, true, "", r.ops[k].domain).value;
            DefaultsAgree(r, a, Upsert(b, true, "", r.ops[k].domain, Stored(v, tail)), k + 1, |r.ops|)
  {
    hide Canon, Lookup, Upsert, Writes, EffectOf, Stored;
    var domain := r.ops[k].domain;
    var v := Lookup(a, true, "", domain).value;
    StoredKeepsEffect(v, tail);
    UpsertFound(b, true, "", domain, Stored(v, tail));
    forall d | forall i :: Active(r, DefaultAddress, k + 1, |r.ops|, i) ==> Canon(r.ops[i].domain) != Canon(d)
      ensures SameEffect(Lookup(a, true, "", d), Lookup(Upsert(b, true, "", domain, Stored(v, tail)), true, "", d))
    {
      if Canon(d) == Canon(domain) {
        EmailSafety.LookupByKey(a, "", d, domain);
        EmailSafety.LookupByKey(Upsert(b, true, "", domain, Stored(v, tail)), "", d, domain);
      } else {
        UpsertOther(b, true, "", domain, Stored(v, tail), "", d);
        forall i | Active(r, DefaultAddress, k, |r.ops|, i) ensures Canon(r.ops[i].domain) != Canon(d) {
          assert i > k ==> Active(r, DefaultAddress, k + 1, |r.ops|, i);
        }
      }
    }
  }

  lemma RouteReturns(r: Run, a: seq<Item<string>>, b: seq<Item<string>>, k: nat)
    requires Active(r, EmailRouting, k, |r.ops|, k) && RoutesAgree(r, a, b, k, |r.ops|)
    requires Lookup(a, true, "", r.ops[k].domain).Some?
    ensures var v := Lookup(a, true, "", r.ops[k].domain).value;
            RoutesAgree(r, a, Upsert(b, true, "", r.ops[k].domain, v), k + 1, |r.ops|)
  {
    hide Canon, Lookup, Upsert, Writes;
    var domain := r.ops[k].domain;
    var v := Lookup(a, true, "", domain).value;
    UpsertFound(b, true, "", domain, v);
    forall d | forall i :: Active(r, EmailRouting, k + 1, |r.ops|, i) ==> Canon(r.ops[i].domain) != Canon(d)
      ensures Lookup(a, true, "", d) == Lookup(Upsert(b, true, "", domain, v), true, "", d)
    {
      if Canon(d) == Canon(domain) {
        EmailSafety.LookupByKey(a, "", d, domain);
        EmailSafety.LookupByKey(Upsert(b, true, "", domain, v), "", d, domain);
      } else {
        UpsertOther(b, true, "", domain, v, "", d);
        forall i | Active(r, EmailRouting, k, |r.ops|, i) ensures Canon(r.ops[i].domain) != Canon(d) {
          assert i > k ==> Active(r, EmailRouting, k + 1, |r.ops|, i);
        }
      }
    }
  }

  lemma WasAbsent(r: Run, m: Mail, k: nat)
    requires V.QuietRun(r, m) && V.Ready(r.ops, m, r.user) && k < |r.ops| && Writes(r, k)
    ensures var op := r.ops[k];
            match op.section
            case Forwarders => !PairIn(m.forwards, op.domain, op.key, op.forward)
            case DefaultAddress => DefaultOf(op, m).Some?
            case Autoresponders => op.content.Some? && ResponderOf(op, m).None?
            case EmailFilters => op.rules.Some? && FilterOf(op, m).None?
            case EmailRouting => RouteOf(op, m).Some?
            case OtherSection => false
  {
    hide V.Ready, V.Quiet, Writes, Lookup, PairIn, SplitFilterKey, Canon, Equivalent;
    V.WritesIsReady(r, m, k);
    V.PlannedAtStart(r, m, k);
  }

  // The inverse of a write, and that its pre-check lets it go ahead while the op's outcome is there.
  lemma UndoGoesAhead(r: Run, m: Mail, s: Mail, k: nat)
    requires V.QuietRun(r, m) && V.Ready(r.ops, m, r.user) && k < |r.ops| && Writes(r, k)
    requires OutcomePresent(r.ops[k], s, r.user)
    ensures UndoFor(r.ops[k], r.batch).Some? && Precheck(UndoFor(r.ops[k], r.batch).value, s, r.user) == Decision.Write
  {
    hide V.Ready, V.Quiet, Writes, Lookup, PairIn, SameContent, SameRules, SplitFilterKey, Canon, Equivalent, StillAsPlanned, Unusable;
    V.WritesIsReady(r, m, k);
    WasAbsent(r, m, k);
    NothingBlind(m);
    if r.ops[k].section == DefaultAddress {
      DefaultGoesAhead(r.ops[k], m, s, r.user);
    }
  }

  lemma DefaultGoesAhead(op: Op, m: Mail, s: Mail, user: string)
    requires op.section == DefaultAddress && DefaultOf(op, m).Some? && DefaultOf(op, s).Some?
    requires !Equivalent(op.value, DefaultOf(op, m).value, user, user) && Equivalent(op.value, DefaultOf(op, s).value, user, user)
    ensures !Equivalent(DefaultOf(op, m).value, DefaultOf(op, s).value, user, user)
  {
    hide EffectOf, Lookup, ClassOf, Trim;
    var was, now := DefaultOf(op, m).value, DefaultOf(op, s).value;
    EquivalentIsSameEffect(op.value, was, user, user);
    EquivalentIsSameEffect(op.value, now, user, user);
    EquivalentIsSameEffect(was, now, user, user);
  }

  // Undoing the op at `k` takes its outcome away.
  lemma UndoShrinks(r: Run, m: Mail, s: Mail, k: nat, tail: string)
    requires V.QuietRun(r, m) && V.Ready(r.ops, m, r.user) && k < |r.ops| && Writes(r, k)
    requires Grows(r, m, s, k, |r.ops|) && UndoFor(r.ops[k], r.batch).Some?
    ensures Grows(r, m, UndoWrite(UndoFor(r.ops[k], r.batch).value, s, tail), k + 1, |r.ops|)
  {
    hide V.Ready, V.Quiet, Writes, Lookup, PairIn, SplitFilterKey, Canon, Stored, Upsert, Drop, DeleteForward,
         ForwardsExtend, RespondersExtend, FiltersExtend, DefaultsAgree, RoutesAgree;
    var op := r.ops[k];
    WasAbsent(r, m, k);
    NothingBlind(m);
    Narrow(r, m, s, k);
    match op.section
    case Forwarders => ForwardShrinks(r, m.forwards, s.forwards, k);
    case DefaultAddress => DefaultReturns(r, m.defaults, s.defaults, k, tail);
    case Autoresponders => ResponderShrinks(r, m.responders, s.responders, k);
    case EmailFilters => FilterShrinks(r, m.filters, s.filters, k);
    case EmailRouting => RouteReturns(r, m.routes, s.routes, k);
    case OtherSection =>
  }

  // An op has no part in the sections that are not its own.
  lemma Narrow(r: Run, m: Mail, s: Mail, k: nat)
    requires k < |r.ops| && Grows(r, m, s, k, |r.ops|)
    ensures r.ops[k].section != Forwarders || !Writes(r, k) ==> ForwardsExtend(r, m.forwards, s.forwards, k + 1, |r.ops|)
    ensures r.ops[k].section != Autoresponders || !Writes(r, k) ==> RespondersExtend(r, m.responders, s.responders, k + 1, |r.ops|)
    ensures r.ops[k].section != EmailFilters || !Writes(r, k) ==> FiltersExtend(r, m.filters, s.filters, k + 1, |r.ops|)
    ensures r.ops[k].section != DefaultAddress || !Writes(r, k) ==> DefaultsAgree(r, m.defaults, s.defaults, k + 1, |r.ops|)
    ensures r.ops[k].section != EmailRouting || !Writes(r, k) ==> RoutesAgree(r, m.routes, s.routes, k + 1, |r.ops|)
  {
    hide MakesForward, MakesResponder, MakesFilter, Writes, SameEffect, Lookup, Canon;
    var op, n := r.ops[k], |r.ops|;
    forall f | ForwardBy(r, k, n, f) && (op.section != Forwarders || !Writes(r, k)) ensures ForwardBy(r, k + 1, n, f) {
      var i :| Active(r, Forwarders, k, n, i) && MakesForward(r.ops[i], f);
      assert Active(r, Forwarders, k + 1, n, i);
    }
    forall it | ResponderBy(r, k, n, it) && (op.section != Autoresponders || !Writes(r, k)) ensures ResponderBy(r, k + 1, n, it) {
      var i :| Active(r, Autoresponders, k, n, i) && MakesResponder(r.ops[i], it);
      assert Active(r, Autoresponders, k + 1, n, i);
    }
    forall it | FilterBy(r, k, n, it) && (op.section != EmailFilters || !Writes(r, k)) ensures FilterBy(r, k + 1, n, it) {
      var i :| Active(r, EmailFilters, k, n, i) && MakesFilter(r.ops[i], it);
      assert Active(r, EmailFilters, k + 1, n, i);
    }
    assert op.section != DefaultAddress || !Writes(r, k) ==>
      forall i :: Active(r, DefaultAddress, k, n, i) ==> Active(r, DefaultAddress, k + 1, n, i);
    assert op.section != EmailRouting || !Writes(r, k) ==>
      forall i :: Active(r, EmailRouting, k, n, i) ==> Active(r, EmailRouting, k + 1, n, i);
  }

  lemma {:induction false} PairSurvives(a: seq<Forward>, op: Op, other: Op)
    requires PairIn(a, op.domain, op.key, op.forward)
    requires op.domain != other.domain || Canon(op.key) != Canon(other.key) || Canon(op.forward) != Canon(other.forward)
    ensures PairIn(DeleteForward(a, other.domain, other.key, other.forward), op.domain, op.key, op.forward)
  {
    hide Canon;
    DeleteOnly(a, other.domain, other.key, other.forward);
    var i :| 0 <= i < |a| && IsPair(a[i], op.domain, op.key, op.forward);
    assert a[i] in DeleteForward(a, other.domain, other.key, other.forward);
  }

  // The outcomes of the other ops stay.
  lemma OutcomesStay(r: Run, m: Mail, s: Mail, k: nat, i: nat, tail: string)
    requires V.QuietRun(r, m) && V.Ready(r.ops, m, r.user) && DistinctPairs(r.ops)
    requires k < |r.ops| && i < |r.ops| && i != k && Writes(r, k) && Writes(r, i) && UndoFor(r.ops[k], r.batch).Some?
    requires OutcomePresent(r.ops[i], s, r.user)
    ensures OutcomePresent(r.ops[i], UndoWrite(UndoFor(r.ops[k], r.batch).value, s, tail), r.user)
  {
    hide V.Ready, V.Quiet, Writes, Lookup, PairIn, Canon, SplitFilterKey, Stored, Upsert, Drop, DeleteForward, SameContent, SameRules,
         Equivalent, Unusable;
    var op, other := r.ops[i], r.ops[k];
    V.WritesIsReady(r, m, i);
    V.WritesIsReady(r, m, k);
    if op.section == other.section {
      V.DistinctSlots(r, m, i, k);
      match op.section
      case Forwarders => PairSurvives(s.forwards, op, other);
      case DefaultAddress =>
        UpsertOther(s.defaults, true, "", other.domain, Stored(DefaultOf(other, r.batch.mail).value, tail), "", op.domain);
      case Autoresponders => DropOther(s.responders, true, other.domain, other.key, op.domain, op.key);
      case EmailFilters =>
        var p, q := SplitFilterKey(other.key), SplitFilterKey(op.key);
        DropOther(s.filters, false, p.0, p.1, q.0, q.1);
      case EmailRouting => UpsertOther(s.routes, true, "", other.domain, RouteOf(other, r.batch.mail).value, "", op.domain);
      case OtherSection =>
    }
  }

  lemma UndoStepDiffers(r: Run, m: Mail, s: Mail, k: nat, tail: string)
    requires V.QuietRun(r, m) && V.Ready(r.ops, m, r.user) && DistinctPairs(r.ops)
    requires k < |r.ops| && Writes(r, k) && Differs(r, m, s, k, |r.ops|)
    ensures UndoFor(r.ops[k], r.batch).Some? && Precheck(UndoFor(r.ops[k], r.batch).value, s, r.user) == Decision.Write
    ensures Differs(r, m, UndoWrite(UndoFor(r.ops[k], r.batch).value, s, tail), k + 1, |r.ops|)
  {
    hide V.Ready, V.QuietRun, Writes, DistinctPairs, OutcomePresent, Precheck, UndoWrite, UndoFor,
         ForwardsExtend, RespondersExtend, FiltersExtend, DefaultsAgree, RoutesAgree;
    UndoGoesAhead(r, m, s, k);
    UndoShrinks(r, m, s, k, tail);
    forall i | k + 1 <= i < |r.ops| && Writes(r, i)
      ensures OutcomePresent(r.ops[i], UndoWrite(UndoFor(r.ops[k], r.batch).value, s, tail), r.user)
    {
      OutcomesStay(r, m, s, k, i, tail);
    }
  }

  // ---------------------------------------------------------------- the whole rollback

  function Statuses(r: Run, m: Mail): seq<Status>
    requires |r.turns| == |r.ops|
  {
    seq(|r.ops|, i requires 0 <= i < |r.ops| => StatusAt(r, m, i))
  }

  // The inverses computed from the results of the first `k` ops.
  function UndosUpTo(r: Run, m: Mail, k: nat): Option<seq<Undo>>
    requires |r.turns| == |r.ops| && k <= |r.ops|
  {
    Undos(r.ops[..k], Statuses(r, m)[..k], r.batch)
  }

  lemma AppliedIsWritten(r: Run, m: Mail, k: nat)
    requires V.QuietRun(r, m) && V.Ready(r.ops, m, r.user) && k < |r.ops|
    ensures StatusAt(r, m, k) == Applied <==> Writes(r, k)
  {
    hide V.Ready, V.Quiet, Evaluate, TurnStatus, MailAt;
    if Writes(r, k) {
      V.CompleteRunApplies(r, m, k);
    }
  }

  lemma UndosGrow(r: Run, m: Mail, k: nat)
    requires V.QuietRun(r, m) && V.Ready(r.ops, m, r.user) && k < |r.ops| && UndosUpTo(r, m, k).Some?
    requires Writes(r, k) ==> UndoFor(r.ops[k], r.batch).Some?
    ensures UndosUpTo(r, m, k + 1) ==
            Some(UndosUpTo(r, m, k).value + (if Writes(r, k) then [UndoFor(r.ops[k], r.batch).value] else []))
  {
    hide V.Ready, V.Quiet, StatusAt, Writes, UndoFor;
    AppliedIsWritten(r, m, k);
    assert r.ops[..k + 1][..k] == r.ops[..k] && Statuses(r, m)[..k + 1][..k] == Statuses(r, m)[..k];
    assert UndosUpTo(r, m, k).value + [] == UndosUpTo(r, m, k).value;
  }

  lemma {:induction false} UndonePrefix(a: seq<Undo>, b: seq<Undo>, turns: seq<Turn>, user: string, m: Mail, n: nat)
    requires n <= |a| <= |b| <= |turns| && a <= b
    ensures UndoneAt(a, turns, user, m, n) == UndoneAt(b, turns, user, m, n)
  {
    hide UndoMail;
    if n > 0 {
      UndonePrefix(a, b, turns, user, m, n - 1);
      assert a[n - 1] == b[n - 1];
    }
  }

  ghost predicate QuietTurns(turns: seq<Turn>, n: nat) {
    |turns| >= n && forall i :: 0 <= i < |turns| ==> V.Quiet(turns[i])
  }

  lemma QuietUndo(u: Undo, s: Mail, user: string, t: Turn)
    requires V.Quiet(t) && Precheck(u, s, user) == Decision.Write
    ensures UndoMail(u, s, user, t) == UndoWrite(u, s, t.tail)
  {
    hide Precheck, UndoWrite;
    NothingBlind(s);
  }

  lemma {:induction false} RollbackShrinks(r: Run, m: Mail, turns: seq<Turn>, k: nat)
    requires V.QuietRun(r, m) && V.Ready(r.ops, m, r.user) && DistinctPairs(r.ops) && k <= |r.ops| && QuietTurns(turns, |r.ops|)
    ensures UndosUpTo(r, m, k).Some? && |UndosUpTo(r, m, k).value| <= k
    ensures var undos := UndosUpTo(r, m, k).value;
            Differs(r, m, UndoneAt(undos, turns, r.user, MailAt(r, m, |r.ops|), |undos|), k, |r.ops|)
  {
    hide V.Ready, V.Quiet, Writes, DistinctPairs, Differs, MailAt, UndosUpTo, Precheck, UndoFor, UndoWrite, UndoMail, UndoneAt;
    var final := MailAt(r, m, |r.ops|);
    if k == 0 {
      AppliedDiffers(r, m);
      NothingUndone(r, m, turns, final);
    } else {
      RollbackShrinks(r, m, turns, k - 1);
      var undos := UndosUpTo(r, m, k - 1).value;
      var s := UndoneAt(undos, turns, r.user, final, |undos|);
      if Writes(r, k - 1) {
        UndoStepDiffers(r, m, s, k - 1, turns[|undos|].tail);
        UndosGrow(r, m, k - 1);
        OneMoreUndo(undos, UndoFor(r.ops[k - 1], r.batch).value, turns, r.user, final);
        QuietUndo(UndoFor(r.ops[k - 1], r.batch).value, s, r.user, turns[|undos|]);
      } else {
        UndosGrow(r, m, k - 1);
        assert undos + [] == undos;
        DiffersNarrows(r, m, s, k - 1);
      }
    }
  }

  lemma NothingUndone(r: Run, m: Mail, turns: seq<Turn>, final: Mail)
    requires |r.turns| == |r.ops|
    ensures UndosUpTo(r, m, 0) == Some([]) && UndoneAt([], turns, r.user, final, 0) == final
  {
  }

  lemma OneMoreUndo(undos: seq<Undo>, u: Undo, turns: seq<Turn>, user: string, m: Mail)
    requires |undos| < |turns|
    ensures UndoneAt(undos + [u], turns, user, m, |undos| + 1)
         == UndoMail(u, UndoneAt(undos, turns, user, m, |undos|), user, turns[|undos|])
  {
    hide UndoMail;
    UndonePrefix(undos, undos + [u], turns, user, m, |undos|);
  }

  lemma DiffersNarrows(r: Run, m: Mail, s: Mail, k: nat)
    requires k < |r.ops| && !Writes(r, k) && Differs(r, m, s, k, |r.ops|)
    ensures Differs(r, m, s, k + 1, |r.ops|)
  {
    hide Writes, OutcomePresent, ForwardsExtend, RespondersExtend, FiltersExtend, DefaultsAgree, RoutesAgree;
    Narrow(r, m, s, k);
  }

  // The account as before: the same forwarders, autoresponders, filters and routing modes, and default
  // addresses that do the same.
  ghost predicate AsBefore(m: Mail, s: Mail) {
    && s.forwards == m.forwards && s.responders == m.responders && s.filters == m.filters
    && (forall d :: SameEffect(Lookup(m.defaults, true, "", d), Lookup(s.defaults, true, "", d)))
    && (forall d :: Lookup(m.routes, true, "", d) == Lookup(s.routes, true, "", d))
  }

  // The report of a quiet run and the backup it took yield inverses which, run quietly, restore the account.
  lemma ApplyThenRollbackRestores(r: Run, m: Mail, turns: seq<Turn>)
    requires V.QuietRun(r, m) && V.Ready(r.ops, m, r.user) && DistinctPairs(r.ops) && QuietTurns(turns, |r.ops|)
    ensures var undos := Undos(r.ops, Statuses(r, m), r.batch);
            undos.Some? && |undos.value| <= |r.ops| &&
            AsBefore(m, UndoneAt(undos.value, turns, r.user, MailAt(r, m, |r.ops|), |undos.value|))
  {
    hide V.Ready, V.Quiet, Writes, DistinctPairs, Undos, UndoneAt, MailAt, StatusAt, Lookup, SameEffect, Canon;
    RollbackShrinks(r, m, turns, |r.ops|);
    assert r.ops[..|r.ops|] == r.ops && Statuses(r, m)[..|r.ops|] == Statuses(r, m);
    var undos := UndosUpTo(r, m, |r.ops|).value;
    NothingLeft(r, m, UndoneAt(undos, turns, r.user, MailAt(r, m, |r.ops|), |undos|));
  }

  lemma NothingLeft(r: Run, m: Mail, s: Mail)
    requires Differs(r, m, s, |r.ops|, |r.ops|)
    ensures AsBefore(m, s)
  {
    hide Writes, Lookup, SameEffect, Canon, OutcomePresent;
    var n := |r.ops|;
    assert |s.forwards| > |m.forwards| ==> ForwardBy(r, n, n, s.forwards[|m.forwards|]);
    assert |s.responders| > |m.responders| ==> ResponderBy(r, n, n, s.responders[|m.responders|]);
    assert |s.filters| > |m.filters| ==> FilterBy(r, n, n, s.filters[|m.filters|]);
  }
}
