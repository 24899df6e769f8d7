/** What no run of `email apply` does, whatever people edit meanwhile. */
module EmailSafety {
  import opened Text
  import opened EmailValues
  import opened EmailState
  import opened EmailApply

  // The address an op is checked under is the address it writes to. Every op of a built plan is like that.
  predicate Addressed(op: Op) {
    HasWriter(op) && (op.section == Forwarders || op.section == Autoresponders) ==> Canon(op.local + "@" + op.domain) == Canon(op.key)
  }

  // Only the value of the op's own domain may change, and only while it passes `mayGo`.
  ghost predicate OnlyReplaces(a: seq<Item<string>>, b: seq<Item<string>>, domain: string, mayGo: string -> bool) {
    |a| == |b| && forall i :: 0 <= i < |a| ==>
      a[i] == b[i] ||
      (a[i].scope == b[i].scope && a[i].name == b[i].name && Canon(a[i].name) == Canon(domain) && mayGo(a[i].value))
  }

  function PlanTimeDefault(op: Op, user: string): string -> bool { v => Equivalent(op.destValue, v, user, user) }

  function PlanTimeRoute(op: Op): string -> bool { v => v == op.destValue }

  // What a tool step may do to the account: add to three sections, and replace a value that is still the
  // plan-time one in the other two; and all of that only in the op's own section.
  ghost predicate Additive(op: Op, a: Mail, b: Mail, user: string) {
    && a.forwards <= b.forwards && a.responders <= b.responders && a.filters <= b.filters
    && OnlyReplaces(a.defaults, b.defaults, op.domain, PlanTimeDefault(op, user))
    && OnlyReplaces(a.routes, b.routes, op.domain, PlanTimeRoute(op))
    && (op.section != Forwarders ==> a.forwards == b.forwards) && (op.section != Autoresponders ==> a.responders == b.responders)
    && (op.section != EmailFilters ==> a.filters == b.filters) && (op.section != DefaultAddress ==> a.defaults == b.defaults)
    && (op.section != EmailRouting ==> a.routes == b.routes)
  }

  lemma {:induction false} UpsertReplaces(items: seq<Item<string>>, domain: string, v: string, mayGo: string -> bool)
    requires Lookup(items, true, "", domain).Some? && mayGo(Lookup(items, true, "", domain).value)
    ensures OnlyReplaces(items, Upsert(items, true, "", domain, v), domain, mayGo)
  {
    hide Canon;
    if !Hits(items[0], true, "", domain) {
      UpsertReplaces(items[1..], domain, v, mayGo);
      assert forall i :: 1 <= i < |items| ==> items[i] == items[1..][i - 1];
    }
  }

  // One step, in whatever state people left the account.
  lemma StepIsAdditive(op: Op, m: Mail, user: string, t: Turn)
    requires Addressed(op)
    ensures Additive(op, m, ToolStep(op, m, user, t), user)
  {
    hide Canon, SplitFilterKey, Equivalent, SameContent, SameRules, PairIn, TargetsOf, Lookup, Upsert, Stored, OnlyReplaces;
    SameReplaces(m.defaults, op.domain, PlanTimeDefault(op, user));
    SameReplaces(m.routes, op.domain, PlanTimeRoute(op));
    if AttemptOf(op, m, user, t) == Wrote {
      match op.section
      case Forwarders =>
      case DefaultAddress => UpsertReplaces(m.defaults, op.domain, Stored(op.value, t.tail), PlanTimeDefault(op, user));
      case Autoresponders =>
        BlindedLookup(m.responders, t.blind, true, op.domain, op.key);
        LookupByKey(m.responders, op.domain, op.key, op.local + "@" + op.domain);
        UpsertAbsent(m.responders, true, op.domain, op.local + "@" + op.domain, Some(Normal(op.content.value)));
      case EmailFilters =>
        var (account, name) := SplitFilterKey(op.key);
        BlindedLookup(m.filters, t.blind, false, account, name);
        UpsertAbsent(m.filters, false, account, name, Some(StoredRules(op.rules.value)));
      case EmailRouting => UpsertReplaces(m.routes, op.domain, op.value, PlanTimeRoute(op));
      case OtherSection =>
    }
  }

  lemma SameReplaces(items: seq<Item<string>>, domain: string, mayGo: string -> bool)
    ensures OnlyReplaces(items, items, domain, mayGo)
  {
  }

  lemma {:induction false} LookupByKey<V>(items: seq<Item<V>>, scope: string, a: string, b: string)
    requires Canon(a) == Canon(b)
    ensures Lookup(items, true, scope, a) == Lookup(items, true, scope, b)
  {
    hide Canon;
    if items != [] {
      LookupByKey(items[1..], scope, a, b);
    }
  }

  // Why the op must be addressed: a hand-edited op whose address to write is not the one it is checked under
  // overwrites the autoresponder of that other address.
  lemma MisaddressedOpOverwrites(op: Op, m: Mail, user: string, t: Turn)
    requires op.section == Autoresponders && AttemptOf(op, m, user, t) == Wrote
    ensures m.responders <= ToolStep(op, m, user, t).responders <==>
              var there := Lookup(m.responders, true, op.domain, op.local + "@" + op.domain);
              there.None? || there.value == Some(Normal(op.content.value))
  {
    hide Canon, Equivalent, SameContent, Lookup, Upsert, Normal;
    var name, v := op.local + "@" + op.domain, Some(Normal(op.content.value));
    var there := Lookup(m.responders, true, op.domain, name);
    if there.None? {
      UpsertAbsent(m.responders, true, op.domain, name, v);
    } else {
      UpsertInPlace(m.responders, true, op.domain, name, v);
    }
  }

  lemma {:induction false} UpsertInPlace<V>(items: seq<Item<V>>, fold: bool, scope: string, name: string, v: V)
    requires Lookup(items, fold, scope, name).Some?
    ensures items <= Upsert(items, fold, scope, name, v) <==> Lookup(items, fold, scope, name).value == v
  {
    hide NameKey;
    if Hits(items[0], fold, scope, name) {
      var done := Upsert(items, fold, scope, name, v);
      assert items <= done ==> items[0] == done[0];
    } else {
      UpsertInPlace(items[1..], fold, scope, name, v);
      var rest := Upsert(items[1..], fold, scope, name, v);
      assert items == [items[0]] + items[1..];
      if items <= [items[0]] + rest {
        assert items[1..] <= rest by {
          assert forall i :: 0 <= i < |items[1..]| ==> items[1..][i] == ([items[0]] + rest)[i + 1];
        }
      }
    }
  }

  // ---------------------------------------------------------------- whole runs

  ghost predicate Keeps(edit: Mail -> Mail, p: Mail -> bool) {
    forall x :: p(x) ==> p(edit(x))
  }

  ghost predicate PeopleKeep(r: Run, p: Mail -> bool) {
    forall i :: 0 <= i < |r.turns| ==> Keeps(r.turns[i].before, p) && Keeps(r.turns[i].after, p)
  }

  ghost predicate ToolKeeps(r: Run, p: Mail -> bool) {
    |r.turns| == |r.ops| && forall i, x :: 0 <= i < |r.ops| && p(x) ==> p(ToolStep(r.ops[i], x, r.user, r.turns[i]))
  }

  // From any point of a run on, what people keep and every tool step keeps is kept to the end.
  lemma {:induction false} RunKeeps(r: Run, m: Mail, k: nat, n: nat, p: Mail -> bool)
    requires Proper(r) && k <= n <= |r.ops| && PeopleKeep(r, p) && ToolKeeps(r, p) && p(MailAt(r, m, k))
    ensures p(MailAt(r, m, n))
    decreases n - k
  {
    hide ToolStep, Writes;
    if k < n {
      RunKeeps(r, m, k, n - 1, p);
      if Writes(r, n - 1) {
        var x, t := MailAt(r, m, n - 1), r.turns[n - 1];
        assert Keeps(t.before, p) && Keeps(t.after, p);
        assert p(t.before(x)) && p(ToolStep(r.ops[n - 1], t.before(x), r.user, t));
      }
    }
  }

  ghost predicate AllAddressed(r: Run) { forall i :: 0 <= i < |r.ops| ==> Addressed(r.ops[i]) }

  function HasForward(f: Forward): Mail -> bool { (m: Mail) => f in m.forwards }

  function HasResponder(it: Item<Option<Content>>): Mail -> bool { (m: Mail) => it in m.responders }

  function HasFilter(it: Item<Option<Rules>>): Mail -> bool { (m: Mail) => it in m.filters }

  function HasDefault(domain: string, v: string): Mail -> bool { (m: Mail) => Lookup(m.defaults, true, "", domain) == Some(v) }

  function HasRoute(domain: string, v: string): Mail -> bool { (m: Mail) => Lookup(m.routes, true, "", domain) == Some(v) }

  lemma PrefixHolds<T>(a: seq<T>, b: seq<T>, x: T)
    requires a <= b && x in a
    ensures x in b
  {
    var i :| 0 <= i < |a| && a[i] == x;
    assert b[i] == x;
  }

  // No forwarder, autoresponder or filter that people leave alone is removed or changed by the tool.
  lemma AddedSectionsSurvive(r: Run, m: Mail, k: nat, f: Forward, it: Item<Option<Content>>, ft: Item<Option<Rules>>)
    requires Proper(r) && AllAddressed(r) && k <= |r.ops|
    ensures PeopleKeep(r, HasForward(f)) && f in MailAt(r, m, k).forwards ==> f in MailAt(r, m, |r.ops|).forwards
    ensures PeopleKeep(r, HasResponder(it)) && it in MailAt(r, m, k).responders ==> it in MailAt(r, m, |r.ops|).responders
    ensures PeopleKeep(r, HasFilter(ft)) && ft in MailAt(r, m, k).filters ==> ft in MailAt(r, m, |r.ops|).filters
  {
    hide ToolStep, MailAt, PeopleKeep, OnlyReplaces, Addressed;
    forall i, x: Mail | 0 <= i < |r.ops|
      ensures f in x.forwards ==> f in ToolStep(r.ops[i], x, r.user, r.turns[i]).forwards
      ensures it in x.responders ==> it in ToolStep(r.ops[i], x, r.user, r.turns[i]).responders
      ensures ft in x.filters ==> ft in ToolStep(r.ops[i], x, r.user, r.turns[i]).filters
    {
      StepIsAdditive(r.ops[i], x, r.user, r.turns[i]);
      var y := ToolStep(r.ops[i], x, r.user, r.turns[i]);
      if f in x.forwards { PrefixHolds(x.forwards, y.forwards, f); }
      if it in x.responders { PrefixHolds(x.responders, y.responders, it); }
      if ft in x.filters { PrefixHolds(x.filters, y.filters, ft); }
    }
    if PeopleKeep(r, HasForward(f)) && f in MailAt(r, m, k).forwards { RunKeeps(r, m, k, |r.ops|, HasForward(f)); }
    if PeopleKeep(r, HasResponder(it)) && it in MailAt(r, m, k).responders { RunKeeps(r, m, k, |r.ops|, HasResponder(it)); }
    if PeopleKeep(r, HasFilter(ft)) && ft in MailAt(r, m, k).filters { RunKeeps(r, m, k, |r.ops|, HasFilter(ft)); }
  }

  lemma {:induction false} LookupReplaced(a: seq<Item<string>>, b: seq<Item<string>>, domain: string, mayGo: string -> bool, d: string, v: string)
    requires OnlyReplaces(a, b, domain, mayGo) && Lookup(a, true, "", d) == Some(v)
    requires Canon(d) == Canon(domain) ==> !mayGo(v)
    ensures Lookup(b, true, "", d) == Some(v)
  {
    hide Canon;
    assert OnlyReplaces(a[1..], b[1..], domain, mayGo);
    if !Hits(a[0], true, "", d) {
      LookupReplaced(a[1..], b[1..], domain, mayGo, d, v);
    }
  }

  predicate Sets(op: Op, section: Section) { op.section == section && op.action == Set }

  lemma OnlySetsChange(op: Op, m: Mail, user: string, t: Turn)
    requires Addressed(op)
    ensures !Sets(op, DefaultAddress) ==> ToolStep(op, m, user, t).defaults == m.defaults
    ensures !Sets(op, EmailRouting) ==> ToolStep(op, m, user, t).routes == m.routes
  {
    hide Recheck, OnlyReplaces, Addressed;
    StepIsAdditive(op, m, user, t);
  }

  // A default address or routing mode that people leave alone is overwritten only by an op for its domain
  // whose plan-time value it still is; for defaults, up to the wording of a system form.
  lemma ReplacedSectionsSurvive(r: Run, m: Mail, k: nat, domain: string, v: string)
    requires Proper(r) && AllAddressed(r) && k <= |r.ops|
    ensures PeopleKeep(r, HasDefault(domain, v)) && Lookup(MailAt(r, m, k).defaults, true, "", domain) == Some(v)
      && (forall i :: 0 <= i < |r.ops| && Sets(r.ops[i], DefaultAddress) && Canon(r.ops[i].domain) == Canon(domain) ==>
            EffectOf(r.ops[i].destValue) != EffectOf(v))
      ==> Lookup(MailAt(r, m, |r.ops|).defaults, true, "", domain) == Some(v)
    ensures PeopleKeep(r, HasRoute(domain, v)) && Lookup(MailAt(r, m, k).routes, true, "", domain) == Some(v)
      && (forall i :: 0 <= i < |r.ops| && Sets(r.ops[i], EmailRouting) && Canon(r.ops[i].domain) == Canon(domain) ==>
            r.ops[i].destValue != v)
      ==> Lookup(MailAt(r, m, |r.ops|).routes, true, "", domain) == Some(v)
  {
    if PeopleKeep(r, HasDefault(domain, v)) && Lookup(MailAt(r, m, k).defaults, true, "", domain) == Some(v)
      && (forall i :: 0 <= i < |r.ops| && Sets(r.ops[i], DefaultAddress) && Canon(r.ops[i].domain) == Canon(domain) ==>
            EffectOf(r.ops[i].destValue) != EffectOf(v)) {
      DefaultSurvives(r, m, k, domain, v);
    }
    if PeopleKeep(r, HasRoute(domain, v)) && Lookup(MailAt(r, m, k).routes, true, "", domain) == Some(v)
      && (forall i :: 0 <= i < |r.ops| && Sets(r.ops[i], EmailRouting) && Canon(r.ops[i].domain) == Canon(domain) ==>
            r.ops[i].destValue != v) {
      RouteSurvives(r, m, k, domain, v);
    }
  }

  lemma DefaultSurvives(r: Run, m: Mail, k: nat, domain: string, v: string)
    requires Proper(r) && AllAddressed(r) && k <= |r.ops|
    requires PeopleKeep(r, HasDefault(domain, v)) && Lookup(MailAt(r, m, k).defaults, true, "", domain) == Some(v)
    requires forall i :: 0 <= i < |r.ops| && Sets(r.ops[i], DefaultAddress) && Canon(r.ops[i].domain) == Canon(domain) ==>
               EffectOf(r.ops[i].destValue) != EffectOf(v)
    ensures Lookup(MailAt(r, m, |r.ops|).defaults, true, "", domain) == Some(v)
  {
    hide ToolStep, MailAt, PeopleKeep, OnlyReplaces, Addressed, Lookup, Canon, Equivalent, EffectOf;
    forall i, x: Mail | 0 <= i < |r.ops| && Lookup(x.defaults, true, "", domain) == Some(v)
      ensures Lookup(ToolStep(r.ops[i], x, r.user, r.turns[i]).defaults, true, "", domain) == Some(v)
    {
      var op, y := r.ops[i], ToolStep(r.ops[i], x, r.user, r.turns[i]);
      StepIsAdditive(op, x, r.user, r.turns[i]);
      OnlySetsChange(op, x, r.user, r.turns[i]);
      if Sets(op, DefaultAddress) {
        EquivalentIsSameEffect(op.destValue, v, r.user, r.user);
        LookupReplaced(x.defaults, y.defaults, op.domain, PlanTimeDefault(op, r.user), domain, v);
      }
    }
    RunKeeps(r, m, k, |r.ops|, HasDefault(domain, v));
  }

  lemma RouteSurvives(r: Run, m: Mail, k: nat, domain: string, v: string)
    requires Proper(r) && AllAddressed(r) && k <= |r.ops|
    requires PeopleKeep(r, HasRoute(domain, v)) && Lookup(MailAt(r, m, k).routes, true, "", domain) == Some(v)
    requires forall i :: 0 <= i < |r.ops| && Sets(r.ops[i], EmailRouting) && Canon(r.ops[i].domain) == Canon(domain) ==>
               r.ops[i].destValue != v
    ensures Lookup(MailAt(r, m, |r.ops|).routes, true, "", domain) == Some(v)
  {
    hide ToolStep, MailAt, PeopleKeep, OnlyReplaces, Addressed, Lookup, Canon;
    forall i, x: Mail | 0 <= i < |r.ops| && Lookup(x.routes, true, "", domain) == Some(v)
      ensures Lookup(ToolStep(r.ops[i], x, r.user, r.turns[i]).routes, true, "", domain) == Some(v)
    {
      var op, y := r.ops[i], ToolStep(r.ops[i], x, r.user, r.turns[i]);
      StepIsAdditive(op, x, r.user, r.turns[i]);
      OnlySetsChange(op, x, r.user, r.turns[i]);
      if Sets(op, EmailRouting) {
        LookupReplaced(x.routes, y.routes, op.domain, PlanTimeRoute(op), domain, v);
      }
    }
    RunKeeps(r, m, k, |r.ops|, HasRoute(domain, v));
  }
}
