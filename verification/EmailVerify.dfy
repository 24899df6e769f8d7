/** The offline verifier of email plans (internal/accountinventory/emailverify.go), and why a completed run
    leaves nothing to do. */
module EmailVerify {
  import opened Text
  import opened Sorting
  import opened EmailValues
  import opened EmailState
  import opened EmailApply
  import EmailSafety

  datatype Verdict = Applied | Unchanged | Pending | Drift | ManualReview | Unavailable

  function VerifyForward(op: Op, live: Live): Verdict {
    var pair := if op.action == Skip then op.sourceValue else op.forward;
    var present := PairIn(live.mail.forwards, op.domain, op.key, pair);
    if op.domain in live.noForwards then Unavailable
    else if op.action == Skip then if present then Unchanged else Drift
    else if op.action != Create then Drift
    else if present then Verdict.Applied
    else if SortStrings(CanonAll(op.planTime)) == SortStrings(TargetsOf(live.mail.forwards, op.domain, op.key)) then Pending
    else Drift
  }

  // The verdict on an op whose payload is compared with an item that may be absent or unreadable.
  function VerifyContent<V>(op: Op, wanted: Option<V>, found: Option<Option<V>>, same: (V, V) -> bool): Verdict {
    var equal := wanted.Some? && found.Some? && found.value.Some? && same(wanted.value, found.value.value);
    match op.action
    case Skip => if equal then Unchanged else Drift
    case Create =>
      if wanted.None? then Drift
      else if equal then Verdict.Applied
      else if found.None? then Pending
      else if found.value.None? then Unavailable
      else Drift
    case _ => Drift
  }

  // The verdict on an op that sets a value, compared by `same`.
  function VerifyValue(op: Op, current: Option<string>, same: (string, string) -> bool): Verdict {
    if current.None? then Drift
    else
      match op.action
      case Skip => if same(op.destValue, current.value) then Unchanged else Drift
      case Set =>
        if same(op.value, current.value) then Verdict.Applied
        else if same(op.destValue, current.value) then Pending
        else Drift
      case _ => Drift
  }

  // verifyEmailOp; a section it does not know is taken for a default address.
  function VerifyOp(op: Op, live: Live, user: string): Verdict {
    if op.action == Manual then ManualReview
    else
      match op.section
      case Forwarders => VerifyForward(op, live)
      case Autoresponders =>
        if op.domain in live.noResponders then Unavailable
        else VerifyContent(op, op.content, ResponderOf(op, live.mail), SameContent)
      case EmailFilters =>
        if SplitFilterKey(op.key).0 in live.noFilters then Unavailable
        else VerifyContent(op, op.rules, FilterOf(op, live.mail), SameRules)
      case EmailRouting =>
        if live.noRoutes then Unavailable else VerifyValue(op, RouteOf(op, live.mail), (a, b) => a == b)
      case _ =>
        if live.noDefaults then Unavailable
        else VerifyValue(op, DefaultOf(op, live.mail), (a, b) => Equivalent(a, b, user, user))
  }

  datatype Summary = Summary(applied: nat, asPlanned: nat, pending: nat, drift: nat, manualReview: nat, unavailable: nat)

  const NOTHING := Summary(0, 0, 0, 0, 0, 0)

  function Bump(s: Summary, v: Verdict): Summary {
    match v
    case Applied => s.(applied := s.applied + 1)
    case Unchanged => s.(asPlanned := s.asPlanned + 1)
    case Pending => s.(pending := s.pending + 1)
    case Drift => s.(drift := s.drift + 1)
    case ManualReview => s.(manualReview := s.manualReview + 1)
    case Unavailable => s.(unavailable := s.unavailable + 1)
  }

  function Tally(verdicts: seq<Verdict>): Summary {
    if verdicts == [] then NOTHING else Bump(Tally(verdicts[..|verdicts| - 1]), verdicts[|verdicts| - 1])
  }

  // The summary counts the verdicts.
  lemma {:induction false} TallyCounts(verdicts: seq<Verdict>)
    ensures var s, vs := Tally(verdicts), multiset(verdicts);
            && s.applied == vs[Verdict.Applied] && s.asPlanned == vs[Unchanged] && s.pending == vs[Pending]
            && s.drift == vs[Drift] && s.manualReview == vs[ManualReview] && s.unavailable == vs[Unavailable]
  {
    if verdicts != [] {
      TallyCounts(verdicts[..|verdicts| - 1]);
      assert verdicts == verdicts[..|verdicts| - 1] + [verdicts[|verdicts| - 1]];
    }
  }

  // VerifyEmailPlan, without the listing of items the plan does not know.
  method VerifyEmailPlan(ops: seq<Op>, manualSections: nat, live: Live, user: string)
    returns (verdicts: seq<Verdict>, sum: Summary, clean: bool)
    ensures |verdicts| == |ops| && forall i :: 0 <= i < |ops| ==> verdicts[i] == VerifyOp(ops[i], live, user)
    ensures sum == Tally(verdicts)
    ensures clean <==> (manualSections == 0 && forall i :: 0 <= i < |ops| ==> VerifyOp(ops[i], live, user) !in {Pending, Drift, Unavailable})
  {
    hide VerifyOp;
    verdicts, sum := [], NOTHING;
    for i := 0 to |ops|
      invariant |verdicts| == i && forall j :: 0 <= j < i ==> verdicts[j] == VerifyOp(ops[j], live, user)
      invariant sum == Tally(verdicts)
      invariant (sum.pending == 0 && sum.drift == 0 && sum.unavailable == 0) <==> (forall j :: 0 <= j < i ==> verdicts[j] !in {Pending, Drift, Unavailable})
    {
      var v := VerifyOp(ops[i], live, user);
      ghost var before := verdicts;
      verdicts := verdicts + [v];
      assert verdicts[..i] == before;
      match v
      case Applied => sum := sum.(applied := sum.applied + 1);
      case Unchanged => sum := sum.(asPlanned := sum.asPlanned + 1);
      case Pending => sum := sum.(pending := sum.pending + 1);
      case Drift => sum := sum.(drift := sum.drift + 1);
      case ManualReview => sum := sum.(manualReview := sum.manualReview + 1);
      case Unavailable => sum := sum.(unavailable := sum.unavailable + 1);
    }
    clean := sum.pending == 0 && sum.drift == 0 && sum.unavailable == 0 && manualSections == 0;
  }

  // A section the verifier does not know is taken for a default address.
  function AsVerified(op: Op): Op { if op.section == OtherSection then op.(section := DefaultAddress) else op }

  // The op's section could be listed.
  predicate Listable(op: Op, live: Live) {
    match op.section
    case Forwarders => op.domain !in live.noForwards
    case Autoresponders => op.domain !in live.noResponders
    case EmailFilters => SplitFilterKey(op.key).0 !in live.noFilters
    case EmailRouting => !live.noRoutes
    case _ => !live.noDefaults
  }

  // What a skipped op leaves as it is: the same pair, content or rules, or the value the plan noted.
  ghost predicate Kept(op: Op, m: Mail) {
    if op.section == Forwarders then Shows(op.(forward := op.sourceValue), m)
    else if op.section == DefaultAddress || op.section == EmailRouting then AsNoted(op, m)
    else Shows(op, m)
  }

  // An item is listed there, and could not be read.
  ghost predicate Unreadable(op: Op, m: Mail) {
    match op.section
    case Autoresponders => op.content.Some? && ListedAs(m.responders, true, op.domain, op.key, None)
    case EmailFilters =>
      var (account, name) := SplitFilterKey(op.key);
      op.rules.Some? && ListedAs(m.filters, false, account, name, None)
    case _ => false
  }

  // Every verdict, for every op and listing.
  lemma VerdictMeans(op: Op, live: Live, user: string)
    ensures var v, o := VerifyOp(op, live, user), AsVerified(op);
            var m, read := live.mail, o.action != Manual && Listable(o, live);
            && (v == ManualReview <==> o.action == Manual)
            && (v == Verdict.Applied <==> read && HasWriter(o) && Shows(o, m))
            && (v == Pending <==> read && HasWriter(o) && Decidable(o, live) && !Shows(o, m) && AsNoted(o, m))
            && (v == Unchanged <==> read && o.action == Skip && Kept(o, m))
            && (v == Unavailable <==> o.action != Manual && (!read || (HasWriter(o) && Unreadable(o, m))))
            && (v == Drift <==>
                  (read && !(o.action == Skip && Kept(o, m))
                   && !(HasWriter(o) && (Shows(o, m) || (Decidable(o, live) && AsNoted(o, m)) || Unreadable(o, m)))))
  {
    hide Shows, AsNoted, VerifyOp, Listable, Unreadable, Kept;
    var o := AsVerified(op);
    if op.section == OtherSection {
      SectionIsVerified(op, live, user);
    }
    UnlistedVerdict(o, live, user);
    if o.action != Manual && Listable(o, live) {
      SectionVerdict(o, live, user);
      DecidableIs(o, live);
      if Unreadable(o, live.mail) {
        UnreadableIsNeither(o, live.mail);
      }
    }
  }

  lemma UnreadableIsNeither(o: Op, m: Mail)
    requires Unreadable(o, m)
    ensures !Shows(o, m) && !AsNoted(o, m)
  {
    hide SplitFilterKey, ListedAs, Unlisted, Normal, StoredRules, Lookup;
    FoundAs(m.responders, true, o.domain, o.key);
    FoundAs(m.filters, false, SplitFilterKey(o.key).0, SplitFilterKey(o.key).1);
  }

  lemma SectionIsVerified(op: Op, live: Live, user: string)
    requires op.section == OtherSection
    ensures VerifyOp(op, live, user) == VerifyOp(AsVerified(op), live, user)
  {
    hide VerifyForward, VerifyContent, Canon, Lookup, Equivalent;
  }

  lemma UnlistedVerdict(o: Op, live: Live, user: string)
    ensures o.action == Manual ==> VerifyOp(o, live, user) == ManualReview
    ensures o.action != Manual && !Listable(o, live) ==> VerifyOp(o, live, user) == Unavailable
  {
    hide VerifyContent, VerifyValue, SplitFilterKey, Lookup, Equivalent, PairIn;
  }

  lemma DecidableIs(o: Op, live: Live)
    requires o.section != OtherSection
    ensures Decidable(o, live) <==> Listable(o, live) && (o.section == Autoresponders ==> o.content.Some?) && (o.section == EmailFilters ==> o.rules.Some?)
    ensures Shows(o, live.mail) && o.section == Autoresponders ==> o.content.Some?
    ensures Shows(o, live.mail) && o.section == EmailFilters ==> o.rules.Some?
    ensures Unreadable(o, live.mail) ==> (o.section == Autoresponders && o.content.Some?) || (o.section == EmailFilters && o.rules.Some?)
  {
    hide SplitFilterKey, ListedAs, Normal, StoredRules;
  }

  lemma SectionVerdict(o: Op, live: Live, user: string)
    requires o.action != Manual && Listable(o, live) && o.section != OtherSection
    ensures VerifyOp(o, live, user) ==
            if o.action == Skip then if Kept(o, live.mail) then Unchanged else Drift
            else if !HasWriter(o) || (o.section == Autoresponders && o.content.None?) || (o.section == EmailFilters && o.rules.None?) then Drift
            else if Shows(o, live.mail) then Verdict.Applied
            else if AsNoted(o, live.mail) then Pending else if Unreadable(o, live.mail) then Unavailable else Drift
  {
    hide Shows, AsNoted, SplitFilterKey, Canon, PairIn, Lookup, ListedAs, Unlisted, Equivalent, SameContent, SameRules, SortStrings, CanonAll, TargetsOf;
    var m, w := live.mail, o.(action := if o.section == DefaultAddress || o.section == EmailRouting then Set else Create);
    OutcomeShows(w, m, user);
    SameButAction(o, w.action, m);
    StillNoted(o, m, user);
    match o.section
    case Forwarders =>
      OutcomeShows(w.(forward := o.sourceValue), m, user);
      SameButAction(o.(forward := o.sourceValue), w.action, m);
    case Autoresponders => FoundAs(m.responders, true, o.domain, o.key);
    case EmailFilters => FoundAs(m.filters, false, SplitFilterKey(o.key).0, SplitFilterKey(o.key).1);
    case _ =>
  }

  lemma SameButAction(o: Op, action: Action, m: Mail)
    ensures Shows(o.(action := action), m) <==> Shows(o, m)
    ensures AsNoted(o.(action := action), m) <==> AsNoted(o, m)
  {
    hide SplitFilterKey, Canon, ListedAs, Unlisted, EffectOf, Normal, StoredRules, TargetsOf;
  }

  // The guard and the verifier never disagree about an op that can be written: done is applied, still to do
  // is pending, and what the guard refuses has drifted or cannot be read.
  lemma GuardAgreesWithVerify(op: Op, live: Live, user: string)
    requires HasWriter(op)
    ensures Evaluate(op, live, user) == Already <==> VerifyOp(op, live, user) == Verdict.Applied
    ensures Evaluate(op, live, user) == Write <==> VerifyOp(op, live, user) == Pending
  {
    hide SplitFilterKey, Equivalent, SameContent, SameRules, PairIn, TargetsOf, Lookup, SortStrings, CanonAll;
  }

  // ---------------------------------------------------------------- a run nobody interferes with

  // The slot of the account an op reads and writes; forwarders have none.
  function SlotOf(op: Op): (Section, string, string) {
    match op.section
    case Forwarders => (Forwarders, "", "")
    case Autoresponders => (Autoresponders, op.domain, Canon(op.key))
    case EmailFilters => (EmailFilters, SplitFilterKey(op.key).0, SplitFilterKey(op.key).1)
    case s => (s, "", Canon(op.domain))
  }

  // The op is done: written, or skipped and still right.
  predicate Done(op: Op, m: Mail, user: string) {
    if op.action == Skip then VerifyOp(op, Listed(m, {}), user) == Unchanged else OutcomePresent(op, m, user)
  }

  lemma ReadsItsSlot(op: Op, a: Mail, b: Mail, user: string)
    requires a.forwards <= b.forwards
    requires op.section == Autoresponders ==> ResponderOf(op, a) == ResponderOf(op, b)
    requires op.section == EmailFilters ==> FilterOf(op, a) == FilterOf(op, b)
    requires op.section == DefaultAddress || op.section == OtherSection ==> DefaultOf(op, a) == DefaultOf(op, b)
    requires op.section == EmailRouting ==> RouteOf(op, a) == RouteOf(op, b)
    ensures Done(op, a, user) ==> Done(op, b, user)
    ensures op.section != Forwarders && StillAsPlanned(op, a, user) ==> StillAsPlanned(op, b, user)
  {
    hide SplitFilterKey, Equivalent, SameContent, SameRules, IsPair, TargetsOf, Lookup, SortStrings, CanonAll;
    NothingBlind(a);
    NothingBlind(b);
    assert forall i :: 0 <= i < |a.forwards| ==> b.forwards[i] == a.forwards[i];
  }

  // Writing one op leaves the slots of all others as they were.
  lemma OtherSlotsStay(op: Op, other: Op, m: Mail, tail: string, user: string)
    requires HasWriter(other) && EmailSafety.Addressed(other) && op.section != OtherSection
    requires op.section != Forwarders ==> SlotOf(op) != SlotOf(other)
    ensures Done(op, m, user) ==> Done(op, WriteOp(other, m, tail), user)
    ensures op.section != Forwarders && StillAsPlanned(op, m, user) ==> StillAsPlanned(op, WriteOp(other, m, tail), user)
  {
    hide Canon, Done, StillAsPlanned, Stored, Normal, PairIn, SplitFilterKey;
    if op.section == other.section {
      match op.section
      case DefaultAddress => UpsertOther(m.defaults, true, "", other.domain, Stored(other.value, tail), "", op.domain);
      case Autoresponders =>
        if other.content.Some? {
          UpsertOther(m.responders, true, other.domain, other.local + "@" + other.domain, Some(Normal(other.content.value)), op.domain, op.key);
        }
      case EmailFilters =>
        if other.rules.Some? {
          var to, from := SplitFilterKey(other.key), SplitFilterKey(op.key);
          UpsertOther(m.filters, false, to.0, to.1, Some(StoredRules(other.rules.value)), from.0, from.1);
        }
      case EmailRouting => UpsertOther(m.routes, true, "", other.domain, other.value, "", op.domain);
      case _ =>
    }
    ReadsItsSlot(op, m, WriteOp(other, m, tail), user);
  }

  // A write brings its own outcome about.
  lemma WriteIsDone(op: Op, m: Mail, tail: string, user: string)
    requires HasWriter(op) && EmailSafety.Addressed(op) && !Unusable(op, Listed(m, {}))
    ensures Done(op, WriteOp(op, m, tail), user)
  {
    hide Canon, SplitFilterKey, TargetsOf, EffectOf, Stored, Normal, SameRules, SameContent, Equivalent, VerifyOp, Upsert;
    match op.section
    case Forwarders =>
      var f := Forward(op.domain, op.local + "@" + op.domain, op.forward);
      if !PairIn(m.forwards, op.domain, op.local + "@" + op.domain, op.forward) {
        assert IsPair((m.forwards + [f])[|m.forwards|], op.domain, op.key, op.forward);
      } else {
        var i :| 0 <= i < |m.forwards| && IsPair(m.forwards[i], op.domain, op.local + "@" + op.domain, op.forward);
        assert IsPair(m.forwards[i], op.domain, op.key, op.forward);
      }
    case DefaultAddress =>
      UpsertFound(m.defaults, true, "", op.domain, Stored(op.value, tail));
      StoredKeepsEffect(op.value, tail);
      EquivalentIsSameEffect(op.value, Stored(op.value, tail), user, user);
    case Autoresponders =>
      var name, v := op.local + "@" + op.domain, Some(Normal(op.content.value));
      UpsertFound(m.responders, true, op.domain, name, v);
      EmailSafety.LookupByKey(Upsert(m.responders, true, op.domain, name, v), op.domain, op.key, name);
      SameContentIsSameNormal(op.content.value, Normal(op.content.value));
      SameContentIsSameNormal(Normal(op.content.value), op.content.value);
    case EmailFilters =>
      var (account, name) := SplitFilterKey(op.key);
      UpsertFound(m.filters, false, account, name, Some(StoredRules(op.rules.value)));
    case EmailRouting =>
      UpsertFound(m.routes, true, "", op.domain, op.value);
  }

  ghost predicate Quiet(t: Turn) {
    (forall x :: t.before(x) == x && t.after(x) == x) && t.blind == {} && t.seenBlind == {} && !t.relistFails && !t.writeFails && !t.refetchFails
  }

  // A run with nothing failing and nobody else editing, decided on the account it starts from.
  ghost predicate QuietRun(r: Run, m: Mail) {
    && Proper(r) && r.batch == Listed(m, {})
    && forall i :: 0 <= i < |r.turns| ==> Quiet(r.turns[i])
  }

  // What a plan is like on the account it was made for: every op to carry out is unhindered or done, every
  // skipped one is right, and no two of them share a slot.
  ghost predicate Ready(ops: seq<Op>, m: Mail, user: string) {
    && (forall i :: 0 <= i < |ops| && ops[i].action != Manual ==>
          && ops[i].section != OtherSection && EmailSafety.Addressed(ops[i])
          && if ops[i].action == Skip then Done(ops[i], m, user)
             else HasWriter(ops[i]) && Evaluate(ops[i], Listed(m, {}), user) != Refuse)
    && (forall i, j :: 0 <= i < j < |ops| && ops[i].action != Manual && ops[j].action != Manual && ops[i].section != Forwarders ==>
          SlotOf(ops[i]) != SlotOf(ops[j]))
  }

  // After the first `n` turns the ops that had theirs are done, the others are as ready as before.
  ghost predicate Progress(r: Run, m: Mail, n: nat)
    requires Proper(r) && n <= |r.ops|
  {
    forall i :: 0 <= i < |r.ops| && r.ops[i].action != Manual ==>
      if i < n || r.ops[i].action == Skip || !Writes(r, i) then Done(r.ops[i], MailAt(r, m, n), r.user)
      else r.ops[i].section == Forwarders || StillAsPlanned(r.ops[i], MailAt(r, m, n), r.user)
  }

  lemma QuietStep(op: Op, m: Mail, user: string, t: Turn)
    requires Quiet(t)
    requires HasWriter(op) && EmailSafety.Addressed(op) && !Unusable(op, Listed(m, {}))
    requires op.section == Forwarders || StillAsPlanned(op, m, user)
    ensures Done(op, TurnMail(op, m, user, t), user)
    ensures TurnMail(op, m, user, t) == m || TurnMail(op, m, user, t) == WriteOp(op, m, t.tail)
    ensures TurnStatus(op, m, user, t) == Status.Applied || TurnStatus(op, m, user, t) == AlreadyPresent
    ensures op.section == Forwarders || !OutcomePresent(op, m, user) ==> TurnStatus(op, m, user, t) == Status.Applied
  {
    hide WriteOp, OutcomePresent, StillAsPlanned, Unusable, VerifyOp, EmailSafety.Addressed;
    WriteIsDone(op, m, t.tail, user);
    NothingBlind(m);
    NothingBlind(WriteOp(op, m, t.tail));
  }

  lemma SameListing(op: Op, a: Mail, b: Mail)
    ensures Unusable(op, Listed(a, {})) == Unusable(op, Listed(b, {}))
  {
  }

  lemma StartsReady(r: Run, m: Mail)
    requires QuietRun(r, m) && Ready(r.ops, m, r.user)
    ensures Progress(r, m, 0)
  {
    hide OutcomePresent, StillAsPlanned, Unusable, VerifyOp, EmailSafety.Addressed, Quiet;
    NothingBlind(m);
  }

  lemma {:induction false} RunProgresses(r: Run, m: Mail, n: nat)
    requires QuietRun(r, m) && Ready(r.ops, m, r.user) && n <= |r.ops|
    ensures Progress(r, m, n)
  {
    hide OutcomePresent, StillAsPlanned, Unusable, VerifyOp, EmailSafety.Addressed, Quiet, TurnMail, WriteOp, Done, SlotOf, Writes;
    if n == 0 {
      StartsReady(r, m);
    } else {
      RunProgresses(r, m, n - 1);
      var before, op := MailAt(r, m, n - 1), r.ops[n - 1];
      if Writes(r, n - 1) {
        WritesIsReady(r, m, n - 1);
        SameListing(op, m, before);
        QuietStep(op, before, r.user, r.turns[n - 1]);
        forall i | 0 <= i < |r.ops| && r.ops[i].action != Manual && i != n - 1
          ensures Done(r.ops[i], before, r.user) ==> Done(r.ops[i], MailAt(r, m, n), r.user)
          ensures r.ops[i].section != Forwarders && StillAsPlanned(r.ops[i], before, r.user) ==>
                    StillAsPlanned(r.ops[i], MailAt(r, m, n), r.user)
        {
          DistinctSlots(r, m, i, n - 1);
          OtherSlotsStay(r.ops[i], op, before, r.turns[n - 1].tail, r.user);
        }
      }
    }
  }

  lemma DistinctSlots(r: Run, m: Mail, i: nat, j: nat)
    requires Ready(r.ops, m, r.user) && i < |r.ops| && j < |r.ops| && i != j
    requires r.ops[i].action != Manual && r.ops[j].action != Manual
    ensures r.ops[i].section != OtherSection
    ensures r.ops[i].section != Forwarders ==> SlotOf(r.ops[i]) != SlotOf(r.ops[j])
  {
    hide Done, Evaluate, HasWriter, EmailSafety.Addressed, Canon, SplitFilterKey;
  }

  lemma WritesIsReady(r: Run, m: Mail, i: nat)
    requires QuietRun(r, m) && Ready(r.ops, m, r.user) && i < |r.ops| && Writes(r, i)
    ensures r.ops[i].action != Manual && HasWriter(r.ops[i]) && EmailSafety.Addressed(r.ops[i]) && !Unusable(r.ops[i], Listed(m, {}))
    ensures !OutcomePresent(r.ops[i], m, r.user)
  {
    hide OutcomePresent, StillAsPlanned, Unusable, VerifyOp, EmailSafety.Addressed, Quiet, SlotOf;
    NothingBlind(m);
  }

  // After a whole run of a ready plan every op that is not left to a human is done: a second run decides
  // already_present for all of them, and the verifier finds each applied or unchanged.
  lemma CompleteRunIsDone(r: Run, m: Mail, i: nat)
    requires QuietRun(r, m) && Ready(r.ops, m, r.user) && i < |r.ops| && r.ops[i].action != Manual
    ensures var live := Listed(MailAt(r, m, |r.ops|), {});
            if r.ops[i].action == Skip then VerifyOp(r.ops[i], live, r.user) == Unchanged
            else Evaluate(r.ops[i], live, r.user) == Already && VerifyOp(r.ops[i], live, r.user) == Verdict.Applied
  {
    hide OutcomePresent, Unusable, VerifyOp, EmailSafety.Addressed, Quiet, MailAt, SlotOf, StillAsPlanned;
    var final := MailAt(r, m, |r.ops|);
    RunProgresses(r, m, |r.ops|);
    NothingBlind(m);
    NothingBlind(final);
    if r.ops[i].action != Skip {
      SameListing(r.ops[i], m, final);
      GuardAgreesWithVerify(r.ops[i], Listed(final, {}), r.user);
    }
  }

  // What is still as planned and was not there then is not there now.
  lemma NotThereYet(op: Op, a: Mail, b: Mail, user: string)
    requires op.section != Forwarders && StillAsPlanned(op, a, user) && StillAsPlanned(op, b, user)
    ensures OutcomePresent(op, a, user) == OutcomePresent(op, b, user)
  {
    hide Lookup, SplitFilterKey, Canon, SameContent, SameRules, EffectOf;
    if op.section == DefaultAddress {
      EquivalentIsSameEffect(op.destValue, DefaultOf(op, a).value, user, user);
      EquivalentIsSameEffect(op.destValue, DefaultOf(op, b).value, user, user);
      EquivalentIsSameEffect(op.value, DefaultOf(op, a).value, user, user);
      EquivalentIsSameEffect(op.value, DefaultOf(op, b).value, user, user);
    }
  }

  // Every write that such a run decides on is carried out and observed.
  lemma CompleteRunApplies(r: Run, m: Mail, i: nat)
    requires QuietRun(r, m) && Ready(r.ops, m, r.user) && i < |r.ops| && Writes(r, i)
    ensures StatusAt(r, m, i) == Status.Applied
  {
    hide OutcomePresent, StillAsPlanned, Unusable, VerifyOp, EmailSafety.Addressed, Quiet, TurnStatus, TurnMail, MailAt;
    var now := MailAt(r, m, i);
    WritesIsReady(r, m, i);
    RunProgresses(r, m, i);
    SameListing(r.ops[i], m, now);
    QuietStep(r.ops[i], now, r.user, r.turns[i]);
    if r.ops[i].section != Forwarders {
      PlannedAtStart(r, m, i);
      NotThereYet(r.ops[i], m, now, r.user);
    }
  }

  lemma PlannedAtStart(r: Run, m: Mail, i: nat)
    requires QuietRun(r, m) && i < |r.ops| && Writes(r, i)
    ensures StillAsPlanned(r.ops[i], m, r.user)
  {
    hide OutcomePresent, StillAsPlanned, Unusable, Quiet;
    NothingBlind(m);
  }

  // ... so the second run writes nothing.
  lemma SecondRunWritesNothing(r: Run, m: Mail, again: Run)
    requires QuietRun(r, m) && Ready(r.ops, m, r.user)
    requires again.ops == r.ops && again.user == r.user && again.batch == Listed(MailAt(r, m, |r.ops|), {})
    ensures forall i :: 0 <= i < |r.ops| ==> !Writes(again, i)
  {
    hide QuietRun, Ready, Evaluate, VerifyOp, MailAt;
    forall i | 0 <= i < |r.ops| ensures !Writes(again, i) {
      if again.ops[i].action != Manual {
        CompleteRunIsDone(r, m, i);
      }
    }
  }
}
