/** `email apply`: the per-op guard of internal/accountinventory/emailapply.go and the evaluate, write and
    verify loop of cmd/cpanel-self-migration/email_apply_cmd.go, run against a destination that people may
    edit between any two of its steps. */
module EmailApply {
  import opened Text
  import opened Sorting
  import opened EmailValues
  import opened EmailState

  datatype Section = Forwarders | DefaultAddress | Autoresponders | EmailFilters | EmailRouting | OtherSection

  datatype Action = Create | Set | Skip | Manual | OtherAction

  // EmailPlanOp
  datatype Op = Op(section: Section, action: Action, domain: string, key: string, local: string, forward: string,
                   value: string, sourceValue: string, destValue: string, planTime: seq<string>,
                   content: Option<Content>, rules: Option<Rules>)

  datatype Decision = Write | Already | Refuse

  datatype Status = Applied | AlreadyPresent | Refused | Failed | Skipped | ManualOp | Planned

  function CanonAll(ts: seq<string>): (r: seq<string>)
    ensures |r| == |ts|
  {
    seq(|ts|, i requires 0 <= i < |ts| => Canon(ts[i]))
  }

  // The section and action pairs that have a writer.
  predicate HasWriter(op: Op) {
    op.action == (match op.section
                  case Forwarders => Create
                  case DefaultAddress => Set
                  case Autoresponders => Create
                  case EmailFilters => Create
                  case EmailRouting => Set
                  case OtherSection => OtherAction) && op.section != OtherSection
  }

  function FilterOf(op: Op, m: Mail): Option<Option<Rules>> {
    var (account, name) := SplitFilterKey(op.key);
    Lookup(m.filters, false, account, name)
  }

  function DefaultOf(op: Op, m: Mail): Option<string> { Lookup(m.defaults, true, "", op.domain) }

  function RouteOf(op: Op, m: Mail): Option<string> { Lookup(m.routes, true, "", op.domain) }

  function ResponderOf(op: Op, m: Mail): Option<Option<Content>> { Lookup(m.responders, true, op.domain, op.key) }

  // EmailOutcomePresent
  predicate OutcomePresent(op: Op, m: Mail, user: string) {
    HasWriter(op) &&
    match op.section
    case Forwarders => PairIn(m.forwards, op.domain, op.key, op.forward)
    case DefaultAddress => DefaultOf(op, m).Some? && Equivalent(op.value, DefaultOf(op, m).value, user, user)
    case Autoresponders =>
      op.content.Some? && ResponderOf(op, m).Some? && ResponderOf(op, m).value.Some? &&
      SameContent(op.content.value, ResponderOf(op, m).value.value)
    case EmailFilters =>
      op.rules.Some? && FilterOf(op, m).Some? && FilterOf(op, m).value.Some? &&
      SameRules(op.rules.value, FilterOf(op, m).value.value)
    case EmailRouting => RouteOf(op, m) == Some(op.value)
    case OtherSection => false
  }

  // What the plan saw when it decided to write still holds.
  predicate StillAsPlanned(op: Op, m: Mail, user: string) {
    match op.section
    case Forwarders => SortStrings(CanonAll(op.planTime)) == SortStrings(TargetsOf(m.forwards, op.domain, op.key))
    case DefaultAddress => DefaultOf(op, m).Some? && Equivalent(op.destValue, DefaultOf(op, m).value, user, user)
    case Autoresponders => ResponderOf(op, m).None?
    case EmailFilters => FilterOf(op, m).None?
    case EmailRouting => RouteOf(op, m) == Some(op.destValue)
    case OtherSection => false
  }

  // The listing the op depends on failed, or the op lacks what it is to write.
  predicate Unusable(op: Op, live: Live) {
    match op.section
    case Forwarders => op.domain in live.noForwards
    case DefaultAddress => live.noDefaults
    case Autoresponders => op.content.None? || op.domain in live.noResponders
    case EmailFilters => op.rules.None? || SplitFilterKey(op.key).0 in live.noFilters
    case EmailRouting => live.noRoutes
    case OtherSection => true
  }

  function Evaluate(op: Op, live: Live, user: string): Decision {
    if !HasWriter(op) || Unusable(op, live) then Refuse
    else if OutcomePresent(op, live.mail, user) then Already
    else if StillAsPlanned(op, live.mail, user) then Write
    else Refuse
  }

  // EvaluateEmailOp
  method EvaluateEmailOp(op: Op, live: Live, user: string) returns (d: Decision)
    ensures d == Evaluate(op, live, user)
  {
    hide SplitFilterKey, Equivalent, SameContent, SameRules, PairIn, TargetsOf, Lookup, SortStrings;
    match (op.section, op.action)
    case (Forwarders, Create) =>
      if op.domain in live.noForwards {
        return Refuse;
      }
      var present := ForwardPairPresent(live.mail.forwards, op.domain, op.key, op.forward);
      if present {
        return Already;
      }
      var got := DestForwardTargets(live.mail.forwards, op.domain, op.key);
      return if SortStrings(CanonAll(op.planTime)) == got then Write else Refuse;
    case (DefaultAddress, Set) =>
      if live.noDefaults {
        return Refuse;
      }
      var cur := Find(live.mail.defaults, true, "", op.domain);
      if cur.None? {
        return Refuse;
      }
      if Equivalent(op.value, cur.value, user, user) {
        return Already;
      }
      return if Equivalent(op.destValue, cur.value, user, user) then Write else Refuse;
    case (Autoresponders, Create) =>
      if op.content.None? || op.domain in live.noResponders {
        return Refuse;
      }
      var e := Find(live.mail.responders, true, op.domain, op.key);
      if e.None? {
        return Write;
      }
      if e.value.None? {
        return Refuse;
      }
      return if SameContent(op.content.value, e.value.value) then Already else Refuse;
    case (EmailFilters, Create) =>
      if op.rules.None? {
        return Refuse;
      }
      var (account, name) := SplitFilterKey(op.key);
      if account in live.noFilters {
        return Refuse;
      }
      var e := Find(live.mail.filters, false, account, name);
      if e.None? {
        return Write;
      }
      if e.value.None? {
        return Refuse;
      }
      var same := FiltersEquivalent(op.rules.value, e.value.value);
      return if same then Already else Refuse;
    case (EmailRouting, Set) =>
      if live.noRoutes {
        return Refuse;
      }
      var cur := Find(live.mail.routes, true, "", op.domain);
      if cur.None? {
        return Refuse;
      }
      return if cur.value == op.value then Already else if cur.value == op.destValue then Write else Refuse;
    case (_, _) =>
      return Refuse;
  }

  // ---------------------------------------------------------------- what the guard decides

  // The account shows what the op is to bring about: the pair listed; a default that does what was asked; an
  // autoresponder or filter of the same stored form; the mode set. For all but forwarders the first listing counts.
  ghost predicate Shows(op: Op, m: Mail) {
    match op.section
    case Forwarders => exists f :: f in m.forwards && f.domain == op.domain && Canon(f.source) == Canon(op.key) && Canon(f.target) == Canon(op.forward)
    case DefaultAddress => exists v :: ListedAs(m.defaults, true, "", op.domain, v) && EffectOf(v) == EffectOf(op.value)
    case Autoresponders =>
      op.content.Some? && exists c :: ListedAs(m.responders, true, op.domain, op.key, Some(c)) && Normal(c) == Normal(op.content.value)
    case EmailFilters =>
      var (account, name) := SplitFilterKey(op.key);
      op.rules.Some? && exists r :: ListedAs(m.filters, false, account, name, Some(r)) && StoredRules(r) == StoredRules(op.rules.value)
    case EmailRouting => ListedAs(m.routes, true, "", op.domain, op.value)
    case OtherSection => false
  }

  // The account is, where the op writes, as the plan noted it: the same targets; the same effect or mode; nothing.
  ghost predicate AsNoted(op: Op, m: Mail) {
    match op.section
    case Forwarders => multiset(CanonAll(op.planTime)) == multiset(TargetsOf(m.forwards, op.domain, op.key))
    case DefaultAddress => exists v :: ListedAs(m.defaults, true, "", op.domain, v) && EffectOf(v) == EffectOf(op.destValue)
    case Autoresponders => Unlisted(m.responders, true, op.domain, op.key)
    case EmailFilters => var (account, name) := SplitFilterKey(op.key); Unlisted(m.filters, false, account, name)
    case EmailRouting => ListedAs(m.routes, true, "", op.domain, op.destValue)
    case OtherSection => false
  }

  // What the op needs to be decided on: its section was listed, and it carries what it is to write.
  predicate Decidable(op: Op, live: Live) {
    match op.section
    case Forwarders => op.domain !in live.noForwards
    case DefaultAddress => !live.noDefaults
    case Autoresponders => op.content.Some? && op.domain !in live.noResponders
    case EmailFilters => op.rules.Some? && SplitFilterKey(op.key).0 !in live.noFilters
    case EmailRouting => !live.noRoutes
    case OtherSection => false
  }

  lemma OutcomeShows(op: Op, m: Mail, user: string)
    ensures OutcomePresent(op, m, user) <==> HasWriter(op) && Shows(op, m)
  {
    hide Canon, SplitFilterKey, Lookup, ListedAs, EffectOf, Equivalent, SameContent, SameRules, Normal, StoredRules;
    match op.section
    case Forwarders =>
      if PairIn(m.forwards, op.domain, op.key, op.forward) {
        var i :| 0 <= i < |m.forwards| && IsPair(m.forwards[i], op.domain, op.key, op.forward);
        assert m.forwards[i] in m.forwards;
      }
    case DefaultAddress => FoundAs(m.defaults, true, "", op.domain);
      if DefaultOf(op, m).Some? {
        EquivalentIsSameEffect(op.value, DefaultOf(op, m).value, user, user);
      }
    case Autoresponders =>
      FoundAs(m.responders, true, op.domain, op.key);
      if op.content.Some? && ResponderOf(op, m).Some? && ResponderOf(op, m).value.Some? {
        SameContentIsSameNormal(op.content.value, ResponderOf(op, m).value.value);
      }
    case EmailFilters =>
      var (account, name) := SplitFilterKey(op.key);
      FoundAs(m.filters, false, account, name);
      if op.rules.Some? && FilterOf(op, m).Some? && FilterOf(op, m).value.Some? {
        SameRulesIsSameStored(op.rules.value, FilterOf(op, m).value.value);
      }
    case EmailRouting => FoundAs(m.routes, true, "", op.domain);
    case OtherSection =>
  }

  // What a lookup finds, and that it finds one thing only.
  lemma FoundAs<V(!new)>(items: seq<Item<V>>, fold: bool, scope: string, name: string)
    ensures forall v :: ListedAs(items, fold, scope, name, v) <==> Lookup(items, fold, scope, name) == Some(v)
    ensures Lookup(items, fold, scope, name).None? <==> Unlisted(items, fold, scope, name)
  {
    hide Lookup, ListedAs, Hits;
    LookupNone(items, fold, scope, name);
    forall v ensures ListedAs(items, fold, scope, name, v) <==> Lookup(items, fold, scope, name) == Some(v) {
      LookupIsFirst(items, fold, scope, name, v);
    }
  }

  lemma SameRulesIsSameStored(a: Rules, b: Rules)
    ensures SameRules(a, b) <==> StoredRules(a) == StoredRules(b)
  {
  }

  lemma StillNoted(op: Op, m: Mail, user: string)
    ensures StillAsPlanned(op, m, user) <==> AsNoted(op, m)
  {
    hide Canon, CanonAll, SplitFilterKey, Lookup, ListedAs, Unlisted, EffectOf, Equivalent, SortStrings, TargetsOf;
    match op.section
    case Forwarders => SortStringsEqual(CanonAll(op.planTime), TargetsOf(m.forwards, op.domain, op.key));
    case DefaultAddress => FoundAs(m.defaults, true, "", op.domain);
      if DefaultOf(op, m).Some? {
        EquivalentIsSameEffect(op.destValue, DefaultOf(op, m).value, user, user);
      }
    case Autoresponders => FoundAs(m.responders, true, op.domain, op.key);
    case EmailFilters =>
      var (account, name) := SplitFilterKey(op.key);
      FoundAs(m.filters, false, account, name);
    case EmailRouting => FoundAs(m.routes, true, "", op.domain);
    case OtherSection =>
  }

  // The guard, for every op and listing: left alone where the account shows the outcome, written where the account
  // is as the plan noted it, refused otherwise and whenever it cannot be decided.
  lemma GuardMeans(op: Op, live: Live, user: string)
    ensures var d, ready := Evaluate(op, live, user), HasWriter(op) && Decidable(op, live);
            && (d == Already <==> ready && Shows(op, live.mail))
            && (d == Write <==> ready && !Shows(op, live.mail) && AsNoted(op, live.mail))
            && (d == Refuse <==> !ready || (!Shows(op, live.mail) && !AsNoted(op, live.mail)))
  {
    hide Shows, AsNoted, OutcomePresent, StillAsPlanned, SplitFilterKey;
    OutcomeShows(op, live.mail, user);
    StillNoted(op, live.mail, user);
  }

  // ---------------------------------------------------------------- one turn of the write loop

  // The circumstances of one write: what people change before the tool's re-check and after its write, the
  // contents that cannot be read either time, the calls that fail, and the server's wording of a system form.
  datatype Turn = Turn(before: Mail -> Mail, blind: set<string>, relistFails: bool, writeFails: bool, tail: string,
                       after: Mail -> Mail, seenBlind: set<string>, refetchFails: bool)

  // Before the first write: a decision for every op, against one batch of listings.
  function Decide(op: Op, batch: Live, user: string): Status {
    match op.action
    case Skip => Skipped
    case Manual => ManualOp
    case OtherAction => Refused
    case _ =>
      match Evaluate(op, batch, user) case Already => AlreadyPresent case Refuse => Refused case Write => Planned
  }

  // Every write but that of a forwarder is preceded by a re-check of its own.
  function Recheck(op: Op, m: Mail, user: string, t: Turn): Decision {
    if op.section == Forwarders then Write
    else if t.relistFails then Refuse
    else Evaluate(op, Listed(m, t.blind), user)
  }

  function WriteOp(op: Op, m: Mail, tail: string): Mail {
    match op.section
    case Forwarders => AddForward(m, op.domain, op.local, op.forward)
    case DefaultAddress => SetDefault(m, op.domain, op.value, tail)
    case Autoresponders => if op.content.Some? then AddResponder(m, op.domain, op.local, op.content.value) else m
    case EmailFilters =>
      var (account, name) := SplitFilterKey(op.key);
      if op.rules.Some? then StoreFilter(m, account, name, op.rules.value) else m
    case EmailRouting => SetRoute(m, op.domain, op.value)
    case OtherSection => m
  }

  datatype Attempt = Wrote | Stopped(status: Status)

  function AttemptOf(op: Op, m: Mail, user: string, t: Turn): Attempt {
    if !HasWriter(op) then Stopped(Failed)
    else
      match Recheck(op, m, user, t)
      case Already => Stopped(AlreadyPresent)
      case Refuse => Stopped(Refused)
      case Write => if t.writeFails then Stopped(Failed) else Wrote
  }

  // Re-check and write, as one step.
  function ToolStep(op: Op, m: Mail, user: string, t: Turn): Mail {
    if AttemptOf(op, m, user, t) == Wrote then WriteOp(op, m, t.tail) else m
  }

  function TurnMail(op: Op, m: Mail, user: string, t: Turn): Mail {
    t.after(ToolStep(op, t.before(m), user, t))
  }

  function TurnStatus(op: Op, m: Mail, user: string, t: Turn): Status {
    match AttemptOf(op, t.before(m), user, t)
    case Stopped(s) => s
    case Wrote =>
      if t.refetchFails then Failed
      else if OutcomePresent(op, Seen(TurnMail(op, m, user, t), t.seenBlind), user) then Applied
      else Failed
  }

  // The write is sent: for all but forwarders, the re-check could be made and says so.
  ghost predicate Sent(op: Op, m: Mail, t: Turn) {
    && HasWriter(op) && !t.writeFails
    && (op.section != Forwarders ==>
          !t.relistFails && Decidable(op, Listed(m, t.blind)) && !Shows(op, Seen(m, t.blind)) && AsNoted(op, Seen(m, t.blind)))
  }

  // After the write, and whatever people did then, the listing could be made and shows the outcome.
  ghost predicate Observed(op: Op, m: Mail, t: Turn) {
    !t.refetchFails && Shows(op, Seen(t.after(WriteOp(op, m, t.tail)), t.seenBlind))
  }

  // Every status of one turn, for every op and account. `before` is the account after people's edits.
  lemma TurnStatusMeans(op: Op, m: Mail, user: string, t: Turn)
    ensures var s, before := TurnStatus(op, m, user, t), t.before(m);
            var checked := HasWriter(op) && op.section != Forwarders;
            var ready := !t.relistFails && Decidable(op, Listed(before, t.blind));
            && (s == Applied <==> Sent(op, before, t) && Observed(op, before, t))
            && (s == AlreadyPresent <==> checked && ready && Shows(op, Seen(before, t.blind)))
            && (s == Refused <==> checked && !(ready && (Shows(op, Seen(before, t.blind)) || AsNoted(op, Seen(before, t.blind)))))
            && (s == Failed <==>
                  (!HasWriter(op) || (Sent(op, before, t) && !Observed(op, before, t))
                   || (t.writeFails && Sent(op, before, t.(writeFails := false)))))
            && (s == Applied || s == AlreadyPresent || s == Refused || s == Failed)
  {
    hide Shows, AsNoted, Decidable, Evaluate, OutcomePresent, WriteOp, Seen;
    var before := t.before(m);
    GuardMeans(op, Listed(before, t.blind), user);
    OutcomeShows(op, Seen(TurnMail(op, m, user, t), t.seenBlind), user);
  }

  // ---------------------------------------------------------------- a whole run

  datatype Run = Run(ops: seq<Op>, batch: Live, user: string, turns: seq<Turn>)

  ghost predicate Proper(r: Run) { |r.turns| == |r.ops| }

  predicate Writes(r: Run, i: nat)
    requires i < |r.ops|
  {
    Decide(r.ops[i], r.batch, r.user) == Planned
  }

  // The account after the first `n` ops had their turn.
  function MailAt(r: Run, m: Mail, n: nat): Mail
    requires |r.turns| == |r.ops| && n <= |r.ops|
  {
    if n == 0 then m
    else
      var before := MailAt(r, m, n - 1);
      if Writes(r, n - 1) then TurnMail(r.ops[n - 1], before, r.user, r.turns[n - 1]) else before
  }

  function StatusAt(r: Run, m: Mail, i: nat): Status
    requires |r.turns| == |r.ops| && i < |r.ops|
  {
    if Writes(r, i) then TurnStatus(r.ops[i], MailAt(r, m, i), r.user, r.turns[i]) else Decide(r.ops[i], r.batch, r.user)
  }

  // The decision on an op before the first write, for every op and batch of listings.
  lemma DecideMeans(op: Op, batch: Live, user: string)
    ensures var s := Decide(op, batch, user);
            var asked := op.action == Create || op.action == Set;
            var ready := HasWriter(op) && Decidable(op, batch);
            && (s == Skipped <==> op.action == Skip) && (s == ManualOp <==> op.action == Manual)
            && (s == AlreadyPresent <==> asked && ready && Shows(op, batch.mail))
            && (s == Planned <==> asked && ready && !Shows(op, batch.mail) && AsNoted(op, batch.mail))
            && (s == Refused <==> op.action == OtherAction || (asked && !(ready && (Shows(op, batch.mail) || AsNoted(op, batch.mail)))))
            && s != Applied && s != Failed
  {
    hide Shows, AsNoted, Decidable, Evaluate, HasWriter;
    GuardMeans(op, batch, user);
  }

  // An entry of a run's report says applied exactly when the op was decided to be written, was sent on its turn, and
  // was observed after it.
  lemma AppliedIsObserved(r: Run, m: Mail, i: nat)
    requires Proper(r) && i < |r.ops|
    ensures StatusAt(r, m, i) == Applied <==>
      Writes(r, i) && Sent(r.ops[i], r.turns[i].before(MailAt(r, m, i)), r.turns[i])
      && Observed(r.ops[i], r.turns[i].before(MailAt(r, m, i)), r.turns[i])
    ensures StatusAt(r, m, i) == Failed ==> Writes(r, i)
    ensures StatusAt(r, m, i) != Planned
  {
    hide Sent, Observed, Decide, TurnStatus, MailAt, Decidable, Shows, AsNoted;
    TurnStatusMeans(r.ops[i], MailAt(r, m, i), r.user, r.turns[i]);
    DecideMeans(r.ops[i], r.batch, r.user);
  }

  class Destination {
    var mail: Mail

    constructor (mail: Mail)
      ensures this.mail == mail
    {
      this.mail := mail;
    }
  }

  // runEmailApplyWrites, from the batch of listings on.
  method RunEmailApply(dest: Destination, r: Run) returns (results: seq<Status>)
    requires Proper(r)
    modifies dest
    ensures dest.mail == MailAt(r, old(dest.mail), |r.ops|)
    ensures |results| == |r.ops| && forall i :: 0 <= i < |r.ops| ==> results[i] == StatusAt(r, old(dest.mail), i)
    ensures forall i :: 0 <= i < |r.ops| ==>
      (results[i] == Applied <==>
         && Writes(r, i) && Sent(r.ops[i], r.turns[i].before(MailAt(r, old(dest.mail), i)), r.turns[i])
         && Observed(r.ops[i], r.turns[i].before(MailAt(r, old(dest.mail), i)), r.turns[i]))
  {
    hide Evaluate, TurnMail, TurnStatus, Sent, Observed;
    results := DecideAll(r);
    ghost var m, decided := dest.mail, results;
    for i := 0 to |r.ops|
      invariant |results| == |r.ops| && dest.mail == MailAt(r, m, i)
      invariant forall j :: 0 <= j < i ==> results[j] == StatusAt(r, m, j)
      invariant forall j :: i <= j < |r.ops| ==> results[j] == decided[j]
    {
      if results[i] == Planned {
        var status := TakeTurn(dest, r.ops[i], r.user, r.turns[i]);
        results := results[i := status];
      }
    }
    forall i | 0 <= i < |r.ops|
      ensures results[i] == Applied <==>
        Writes(r, i) && Sent(r.ops[i], r.turns[i].before(MailAt(r, m, i)), r.turns[i])
        && Observed(r.ops[i], r.turns[i].before(MailAt(r, m, i)), r.turns[i])
    {
      AppliedIsObserved(r, m, i);
    }
  }

  method DecideAll(r: Run) returns (results: seq<Status>)
    ensures |results| == |r.ops| && forall i :: 0 <= i < |r.ops| ==> results[i] == Decide(r.ops[i], r.batch, r.user)
  {
    hide Evaluate;
    results := [];
    for i := 0 to |r.ops|
      invariant |results| == i && forall j :: 0 <= j < i ==> results[j] == Decide(r.ops[j], r.batch, r.user)
    {
      match r.ops[i].action
      case Skip => results := results + [Skipped];
      case Manual => results := results + [ManualOp];
      case OtherAction => results := results + [Refused];
      case _ =>
        var d := EvaluateEmailOp(r.ops[i], r.batch, r.user);
        results := results + [match d case Already => AlreadyPresent case Refuse => Refused case Write => Planned];
    }
  }

  method TakeTurn(dest: Destination, op: Op, user: string, t: Turn) returns (status: Status)
    modifies dest
    ensures dest.mail == TurnMail(op, old(dest.mail), user, t) && status == TurnStatus(op, old(dest.mail), user, t)
  {
    hide Evaluate, OutcomePresent, WriteOp, Seen, Listed;
    dest.mail := t.before(dest.mail);
    var wrote := false;
    if !HasWriter(op) {
      status := Failed;
    } else {
      var d := Write;
      if op.section != Forwarders {
        if t.relistFails {
          d := Refuse;
        } else {
          d := EvaluateEmailOp(op, Listed(dest.mail, t.blind), user);
        }
      }
      match d
      case Already => status := AlreadyPresent;
      case Refuse => status := Refused;
      case Write =>
        if t.writeFails {
          status := Failed;
        } else {
          dest.mail := WriteOp(op, dest.mail, t.tail);
          wrote := true;
        }
    }
    dest.mail := t.after(dest.mail);
    if wrote {
      status := if !t.refetchFails && OutcomePresent(op, Seen(dest.mail, t.seenBlind), user) then Applied else Failed;
    }
  }
}
