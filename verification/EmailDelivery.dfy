/** What a built email plan asks for, item by item of the source, and that a run of it delivers that
    (internal/accountinventory/emailplan.go). */
module EmailDelivery {
  import opened Text
  import opened Sorting
  import opened EmailValues
  import opened EmailState
  import opened EmailApply
  import opened EmailPlan
  import EmailReady
  import EmailSafety
  import V = EmailVerify

  // ---------------------------------------------------------------- forwarders

  ghost predicate SamePair(f: Forward, g: Forward) { Canon(f.source) == Canon(g.source) && Canon(f.target) == Canon(g.target) }

  ghost predicate PairThere(fs: seq<Forward>, f: Forward) { exists g :: g in fs && SamePair(g, f) }

  // The address is one of a domain of the account.
  ghost predicate Served(address: string, dest: Inventory) {
    SplitAddress(address).Some? && exists d :: d in dest.domains && Lower(d) == Lower(SplitAddress(address).value.1)
  }

  lemma DomainsServe(address: string, dest: Inventory)
    ensures Served(address, dest) <==> SplitAddress(address).Some? && Lower(SplitAddress(address).value.1) in Domains(dest)
  {
    hide SplitAddress, Lower;
  }

  // Which forwarders a plan creates, skips and leaves to a human, and what a create writes.
  lemma ForwardOpMeans(f: Forward, dest: Inventory)
    ensures var op, split, there := ForwardOp(f, dest), SplitAddress(f.source), PairThere(dest.mail.forwards, f);
            && (op.action == Create <==> Served(f.source, dest) && SimpleTarget(Trim(f.target)) && !there)
            && (op.action == Skip <==> split.Some? && there)
            && (op.action == Manual <==> split.None? || (!there && !(Served(f.source, dest) && SimpleTarget(Trim(f.target)))))
            && op.key == Canon(f.source) && Canon(op.sourceValue) == Canon(f.target)
            && op.domain == (if split.Some? then Lower(split.value.1) else Lower(Trim(f.domain)))
            && (op.action == Create ==> Canon(op.forward) == Canon(f.target) && Canon(op.local + "@" + op.domain) == Canon(f.source))
  {
    hide SplitAddress, Canon, Lower, Trim, SimpleTarget, Domains, SortStrings, DestTargets, PairAmong;
    DomainsServe(f.source, dest);
    PairIsThere(dest.mail.forwards, f);
    CanonTwice(f.target);
    CanonTwice(f.source);
    if SplitAddress(f.source).Some? {
      EmailReady.ForwardAddressed(f);
    }
  }

  lemma PairIsThere(fs: seq<Forward>, f: Forward)
    ensures PairAmong(fs, f) <==> PairThere(fs, f)
  {
    hide Canon;
    if PairAmong(fs, f) {
      var i :| 0 <= i < |fs| && PairOf(fs[i]) == PairOf(f);
      assert fs[i] in fs;
    }
  }

  // Every source pair is planned, by the first forwarder that lists it.
  lemma {:induction false} ForwardIsPlanned(src: seq<Forward>, dest: Inventory, i: nat)
    requires i < |src| && !PairThere(src[..i], src[i])
    ensures ForwardOp(src[i], dest) in ForwardOps(src, dest)
  {
    hide ForwardOp, PairAmong, PairThere;
    var n := |src| - 1;
    if i == n {
      PairIsThere(src[..n], src[n]);
    } else {
      assert src[..n][..i] == src[..i];
      ForwardIsPlanned(src[..n], dest, i);
    }
  }

  // ---------------------------------------------------------------- default addresses and routing

  ghost predicate LastListed(items: seq<Item<string>>, domain: string, v: string) {
    exists i :: 0 <= i < |items| && LastAt(items, domain, i) && items[i].value == v
  }

  ghost predicate LastAt(items: seq<Item<string>>, domain: string, i: int) {
    0 <= i < |items| && Lower(items[i].name) == domain && forall j :: i < j < |items| ==> Lower(items[j].name) != domain
  }

  lemma {:induction false} LastNamedIs(items: seq<Item<string>>, domain: string)
    ensures forall v :: LastNamed(items, domain) == Some(v) <==> LastListed(items, domain, v)
  {
    hide Lower;
    if items != [] {
      var n := |items| - 1;
      var front := items[..n];
      LastNamedIs(front, domain);
      assert forall j :: 0 <= j < n ==> front[j] == items[j];
      forall v ensures LastNamed(items, domain) == Some(v) <==> LastListed(items, domain, v) {
        if Lower(items[n].name) == domain {
          assert LastAt(items, domain, n);
        } else {
          if LastListed(front, domain, v) {
            var i :| 0 <= i < |front| && LastAt(front, domain, i) && front[i].value == v;
            assert LastAt(items, domain, i);
          }
          if LastListed(items, domain, v) {
            var i :| 0 <= i < |items| && LastAt(items, domain, i) && items[i].value == v;
            assert LastAt(front, domain, i);
          }
        }
      }
    }
  }

  // The value is one a fresh account has: it fails, discards, or delivers to the account itself.
  predicate IsFresh(v: string, user: string) { EffectOf(v) == Fails || EffectOf(v) == Discards || EffectOf(v) == DeliversTo(user) }

  // The value is worth carrying over: it fails, discards, or delivers to somebody else.
  predicate WorthSetting(v: string, user: string) {
    match EffectOf(v) case DeliversTo(t) => t != user && SimpleTarget(t) case _ => true
  }

  // The two values do the same, each for its own account.
  predicate MeansSame(a: string, b: string, userA: string, userB: string) {
    EffectOf(a) == EffectOf(b) || (EffectOf(a) == DeliversTo(userA) && EffectOf(b) == DeliversTo(userB))
  }

  lemma ClassMeans(v: string, user: string)
    ensures ClassOf(v, user) == AccountDefault <==> EffectOf(v) == DeliversTo(user)
    ensures FreshDefault(v, user) <==> IsFresh(v, user)
    ensures ClassOf(v, user) in {AddressClass, FailClass, BlackholeClass} <==> WorthSetting(v, user)
  {
    hide Trim, SimpleTarget;
  }

  // Which default addresses a plan sets, skips and leaves to a human, and what a set writes.
  lemma DefaultOpMeans(s: Item<string>, srcUser: string, dest: Inventory)
    ensures var op, domain := DefaultOp(s, srcUser, dest), Lower(s.name);
            && op.domain == domain && op.sourceValue == s.value
            && (op.action == Skip <==> exists was :: LastListed(dest.mail.defaults, domain, was) && MeansSame(s.value, was, srcUser, dest.user))
            && (op.action == Set <==> exists was :: LastListed(dest.mail.defaults, domain, was) && !MeansSame(s.value, was, srcUser, dest.user)
                                                    && IsFresh(was, dest.user) && WorthSetting(s.value, srcUser))
            && (op.action == Skip || op.action == Set || op.action == Manual)
            && (op.action == Set ==> EffectOf(op.value) == EffectOf(s.value) && LastListed(dest.mail.defaults, domain, op.destValue))
            && (op.action == Skip ==> LastListed(dest.mail.defaults, domain, op.destValue))
  {
    hide Lower, Trim, LastNamed, LastListed, Equivalent, ClassOf, FreshDefault, MeansSame, IsFresh, WorthSetting;
    LastNamedIs(dest.mail.defaults, Lower(s.name));
    ClassMeans(s.value, srcUser);
    if LastNamed(dest.mail.defaults, Lower(s.name)).Some? {
      var was := LastNamed(dest.mail.defaults, Lower(s.name)).value;
      assert LastListed(dest.mail.defaults, Lower(s.name), was);
      ClassMeans(was, dest.user);
      SameMeaning(s.value, was, srcUser, dest.user);
    }
    assert EffectOf(Trim(s.value)) == EffectOf(s.value);
  }

  lemma SameMeaning(a: string, b: string, userA: string, userB: string)
    ensures Equivalent(a, b, userA, userB) <==> MeansSame(a, b, userA, userB)
  {
    hide Equivalent, ClassOf, EffectOf;
    EquivalentIsSameEffect(a, b, userA, userB);
    ClassMeans(a, userA);
    ClassMeans(b, userB);
  }

  // Which routing modes a plan sets, skips and leaves to a human, and what a set writes.
  lemma RouteOpMeans(s: Item<string>, dest: Inventory)
    ensures var op, domain := RouteOp(s, dest), Lower(s.name);
            && op.domain == domain && op.sourceValue == s.value
            && (op.action == Skip <==> LastListed(dest.mail.routes, domain, s.value))
            && (op.action == Set <==> exists was :: LastListed(dest.mail.routes, domain, was) && was != s.value)
            && (op.action == Manual <==> forall was :: !LastListed(dest.mail.routes, domain, was))
            && (op.action == Set ==> op.value == s.value)
            && (op.action != Manual ==> LastListed(dest.mail.routes, domain, op.destValue))
  {
    hide Lower, LastNamed, LastListed;
    LastNamedIs(dest.mail.routes, Lower(s.name));
    if LastNamed(dest.mail.routes, Lower(s.name)).Some? {
      assert LastListed(dest.mail.routes, Lower(s.name), LastNamed(dest.mail.routes, Lower(s.name)).value);
    }
  }

  // ---------------------------------------------------------------- autoresponders and filters

  // The first item of that key in the listing carries the value.
  ghost predicate KeyedAs<V>(items: seq<Item<V>>, filter: bool, key: string, v: V) {
    exists i :: FirstKey(items, filter, key, i) && items[i].value == v
  }

  ghost predicate FirstKey<V>(items: seq<Item<V>>, filter: bool, key: string, i: int) {
    0 <= i < |items| && KeyFor(items[i], filter) == key && forall j :: 0 <= j < i ==> KeyFor(items[j], filter) != key
  }

  ghost predicate Unkeyed<V>(items: seq<Item<V>>, filter: bool, key: string) {
    forall i :: 0 <= i < |items| ==> KeyFor(items[i], filter) != key
  }

  lemma {:induction false} FirstKeyedIs<V(!new)>(items: seq<Item<V>>, filter: bool, key: string)
    ensures FirstKeyed(items, filter, key).None? <==> Unkeyed(items, filter, key)
    ensures forall v :: FirstKeyed(items, filter, key) == Some(v) <==> KeyedAs(items, filter, key, v)
  {
    hide KeyFor;
    if items != [] {
      var rest := items[1..];
      FirstKeyedIs(rest, filter, key);
      assert forall j :: 1 <= j < |items| ==> items[j] == rest[j - 1];
      forall v ensures FirstKeyed(items, filter, key) == Some(v) <==> KeyedAs(items, filter, key, v) {
        if KeyFor(items[0], filter) == key {
          assert FirstKey(items, filter, key, 0);
        } else {
          if KeyedAs(rest, filter, key, v) {
            var i :| FirstKey(rest, filter, key, i) && rest[i].value == v;
            assert FirstKey(items, filter, key, i + 1);
          }
          if KeyedAs(items, filter, key, v) {
            var i :| FirstKey(items, filter, key, i) && items[i].value == v;
            assert FirstKey(rest, filter, key, i - 1);
          }
        }
      }
    }
  }

  // The destination has an autoresponder of that address and of the same content.
  ghost predicate SameResponderThere(a: Item<Option<Content>>, dest: Inventory)
    requires a.value.Some?
  {
    exists c :: KeyedAs(dest.mail.responders, false, Canon(a.name), Some(c)) && Normal(c) == Normal(a.value.value)
  }

  // Which autoresponders a plan creates, skips and leaves to a human, and what a create writes.
  lemma ResponderOpMeans(a: Item<Option<Content>>, dest: Inventory)
    ensures var op, split, key := ResponderOp(a, dest), SplitAddress(a.name), Canon(a.name);
            && op.key == key && op.domain == (if split.Some? then Lower(split.value.1) else Lower(Trim(a.scope)))
            && (op.action == Create <==> Served(a.name, dest) && a.value.Some? && Unkeyed(dest.mail.responders, false, key))
            && (op.action == Skip <==> split.Some? && a.value.Some? && SameResponderThere(a, dest))
            && (op.action == Create || op.action == Skip || op.action == Manual)
            && (op.action != Manual ==> op.content.Some? && Normal(op.content.value) == Normal(a.value.value))
            && (op.action == Create ==> Canon(op.local + "@" + op.domain) == Canon(a.name))
  {
    hide SplitAddress, Canon, Lower, Trim, Domains, FirstKeyed, KeyedAs, Unkeyed, SameContent, Normal;
    DomainsServe(a.name, dest);
    FirstKeyedIs(dest.mail.responders, false, Canon(a.name));
    CanonTwice(a.name);
    if SplitAddress(a.name).Some? {
      EmailReady.ForwardAddressed(Forward("", a.name, ""));
    }
    if a.value.Some? {
      SameContentIsSameNormal(a.value.value, a.value.value);
      var there := FirstKeyed(dest.mail.responders, false, Canon(a.name));
      if there.Some? && there.value.Some? {
        SameContentIsSameNormal(a.value.value, there.value.value);
      }
    }
  }

  lemma {:induction false} ResponderIsPlanned(src: seq<Item<Option<Content>>>, dest: Inventory, i: nat)
    requires i < |src| && FirstKey(src, false, Canon(src[i].name), i)
    ensures ResponderOp(src[i], dest) in ResponderOps(src, dest)
  {
    hide ResponderOp, Canon;
    var n := |src| - 1;
    if i < n {
      assert src[..n][i] == src[i];
      ResponderIsPlanned(src[..n], dest, i);
    }
  }

  ghost predicate SameFilterThere(f: Item<Option<Rules>>, dest: Inventory)
    requires f.value.Some?
  {
    exists r :: KeyedAs(dest.mail.filters, true, FilterKey(f.scope, f.name), Some(r)) && StoredRules(r) == StoredRules(f.value.value)
  }

  // Which filters a plan creates, skips and leaves to a human, and what a create writes.
  lemma FilterOpMeans(f: Item<Option<Rules>>, dest: Inventory)
    ensures var op, key := FilterOp(f, dest), FilterKey(f.scope, f.name);
            var plain := f.value.Some? && |f.value.value.rules| <= 1;
            && op.key == key
            && (op.action == Create <==> plain && Unkeyed(dest.mail.filters, true, key))
            && (op.action == Skip <==> plain && SameFilterThere(f, dest))
            && (op.action == Create || op.action == Skip || op.action == Manual)
            && (op.action != Manual ==> op.rules == f.value)
  {
    hide FilterKey, FirstKeyed, KeyedAs, Unkeyed, SameRules, StoredRules;
    FirstKeyedIs(dest.mail.filters, true, FilterKey(f.scope, f.name));
    if f.value.Some? {
      var there := FirstKeyed(dest.mail.filters, true, FilterKey(f.scope, f.name));
      if there.Some? && there.value.Some? {
        SameRulesIsSameStored(f.value.value, there.value.value);
      }
    }
  }

  lemma {:induction false} FilterIsPlanned(src: seq<Item<Option<Rules>>>, dest: Inventory, i: nat)
    requires i < |src| && FirstKey(src, true, FilterKey(src[i].scope, src[i].name), i)
    ensures FilterOp(src[i], dest) in FilterOps(src, dest)
  {
    hide FilterOp, FilterKey;
    var n := |src| - 1;
    if i < n {
      assert src[..n][i] == src[i];
      FilterIsPlanned(src[..n], dest, i);
    }
  }

  // Every op of a plan is planned from an item of its section in the source, and the default addresses, the filters and
  // the routing modes only where both sides list them.
  lemma PlannedFrom(src: Inventory, dest: Inventory, op: Op)
    requires op in AllOps(src, dest)
    ensures match op.section
            case Forwarders => exists f :: f in src.mail.forwards && op == ForwardOp(f, dest)
            case DefaultAddress => src.hasDefaults && dest.hasDefaults && exists s :: s in src.mail.defaults && op == DefaultOp(s, src.user, dest)
            case Autoresponders => exists a :: a in src.mail.responders && op == ResponderOp(a, dest)
            case EmailFilters => src.hasFilters && dest.hasFilters && exists f :: f in src.mail.filters && op == FilterOp(f, dest)
            case EmailRouting => src.hasRoutes && dest.hasRoutes && exists s :: s in src.mail.routes && op == RouteOp(s, dest)
            case OtherSection => false
  {
    hide ForwardOps, ResponderOps, FilterOps, ForwardOp, ResponderOp, FilterOp, DefaultOp, RouteOp;
    if op in ForwardOps(src.mail.forwards, dest) {
    } else if op in DefaultOps(src, dest) {
      var i :| 0 <= i < |src.mail.defaults| && op == DefaultOp(src.mail.defaults[i], src.user, dest);
    } else if op in RouteOps(src, dest) {
      var i :| 0 <= i < |src.mail.routes| && op == RouteOp(src.mail.routes[i], dest);
    }
  }

  // ---------------------------------------------------------------- what a run delivers

  // A run of a built plan, in whatever order its ops are listed, with nothing failing and nobody else editing.
  ghost predicate QuietRunOf(r: Run, src: Inventory, dest: Inventory) {
    && EmailReady.Plannable(src, dest) && V.QuietRun(r, dest.mail) && r.user == dest.user
    && multiset(r.ops) == multiset(AllOps(src, dest))
  }

  function After(r: Run, dest: Inventory): Mail
    requires |r.turns| == |r.ops|
  {
    MailAt(r, dest.mail, |r.ops|)
  }

  // After it the account shows what every create and set was to bring about, and still has what every skip left.
  lemma OpIsDelivered(r: Run, src: Inventory, dest: Inventory, op: Op)
    requires QuietRunOf(r, src, dest) && op in AllOps(src, dest)
    ensures op.action == Create || op.action == Set ==> Shows(op, After(r, dest))
    ensures op.action == Skip ==> V.Kept(V.AsVerified(op), After(r, dest))
  {
    hide EmailReady.Plannable, V.Quiet, AllOps, MailAt, Evaluate, V.VerifyOp, Shows, V.Kept, Writes, StatusAt;
    assert op in multiset(r.ops);
    var i :| 0 <= i < |r.ops| && r.ops[i] == op;
    EmailReady.BuiltPlanConverges(src, dest, r);
    var live := Listed(After(r, dest), {});
    NothingBlind(After(r, dest));
    GuardMeans(op, live, r.user);
    V.VerdictMeans(op, live, r.user);
  }

  // Every source pair that can be carried over, or was there before, is listed.
  lemma ForwardArrives(r: Run, src: Inventory, dest: Inventory, i: nat)
    requires QuietRunOf(r, src, dest) && i < |src.mail.forwards| && !PairThere(src.mail.forwards[..i], src.mail.forwards[i])
    requires var f := src.mail.forwards[i];
             SplitAddress(f.source).Some? && (PairThere(dest.mail.forwards, f) || (Served(f.source, dest) && SimpleTarget(Trim(f.target))))
    ensures var f := src.mail.forwards[i];
            exists g :: g in After(r, dest).forwards && g.domain == Lower(SplitAddress(f.source).value.1) && SamePair(g, f)
  {
    hide QuietRunOf, ForwardOp, ForwardOps, DefaultOps, ResponderOps, FilterOps, RouteOps, After, PairThere, Served, SimpleTarget, Canon, SplitAddress, Lower, Trim;
    var f := src.mail.forwards[i];
    ForwardIsPlanned(src.mail.forwards, dest, i);
    ForwardOpMeans(f, dest);
    OpIsDelivered(r, src, dest, ForwardOp(f, dest));
    CanonTwice(f.source);
  }

  // Every source autoresponder that can be carried over, or was there before, is there with its content.
  lemma ResponderArrives(r: Run, src: Inventory, dest: Inventory, i: nat)
    requires QuietRunOf(r, src, dest) && i < |src.mail.responders| && FirstKey(src.mail.responders, false, Canon(src.mail.responders[i].name), i)
    requires var a := src.mail.responders[i];
             && SplitAddress(a.name).Some? && a.value.Some?
             && (SameResponderThere(a, dest) || (Served(a.name, dest) && Unkeyed(dest.mail.responders, false, Canon(a.name))))
    ensures var a := src.mail.responders[i];
            exists c :: ListedAs(After(r, dest).responders, true, Lower(SplitAddress(a.name).value.1), Canon(a.name), Some(c)) &&
                        Normal(c) == Normal(a.value.value)
  {
    hide QuietRunOf, ResponderOp, ForwardOps, DefaultOps, ResponderOps, FilterOps, RouteOps, After, SameResponderThere, Served, Unkeyed, Canon, SplitAddress,
         Lower, ListedAs, Normal;
    ResponderIsPlanned(src.mail.responders, dest, i);
    ResponderOpMeans(src.mail.responders[i], dest);
    OpIsDelivered(r, src, dest, ResponderOp(src.mail.responders[i], dest));
  }

  lemma GoodScope(r: Run, src: Inventory, dest: Inventory, i: nat)
    requires QuietRunOf(r, src, dest) && i < |FiltersIn(src, dest)|
    ensures '/' !in FiltersIn(src, dest)[i].scope && FiltersIn(src, dest)[i].scope != ACCOUNT_LEVEL
  {
    hide V.QuietRun, AllOps, EmailReady.WellListed, EmailReady.UniqueNames;
    assert FiltersIn(src, dest)[i] in src.mail.filters;
  }

  lemma FilterShows(op: Op, m: Mail, f: Item<Option<Rules>>)
    requires op.section == EmailFilters && SplitFilterKey(op.key) == (f.scope, f.name) && op.rules == f.value && f.value.Some?
    ensures Shows(op, m) <==> exists x :: ListedAs(m.filters, false, f.scope, f.name, Some(x)) && StoredRules(x) == StoredRules(f.value.value)
    ensures V.Kept(V.AsVerified(op), m) <==> Shows(op, m)
  {
    hide ListedAs, StoredRules, SplitFilterKey;
  }

  // So is every source filter of one rule at most.
  lemma FilterArrives(r: Run, src: Inventory, dest: Inventory, i: nat)
    requires QuietRunOf(r, src, dest) && i < |FiltersIn(src, dest)|
    requires var f := FiltersIn(src, dest)[i];
             && FirstKey(FiltersIn(src, dest), true, FilterKey(f.scope, f.name), i)
             && f.value.Some? && |f.value.value.rules| <= 1
             && (SameFilterThere(f, dest) || Unkeyed(dest.mail.filters, true, FilterKey(f.scope, f.name)))
    ensures var f := FiltersIn(src, dest)[i];
            exists x :: ListedAs(After(r, dest).filters, false, f.scope, f.name, Some(x)) && StoredRules(x) == StoredRules(f.value.value)
  {
    assert |r.turns| == |r.ops|;
    hide QuietRunOf, FilterOp, ForwardOps, DefaultOps, ResponderOps, FilterOps, RouteOps, After, SameFilterThere, Unkeyed, ListedAs, StoredRules,
         FilterKey, SplitFilterKey, Shows, V.Kept, FiltersIn;
    var f := FiltersIn(src, dest)[i];
    FilterIsPlanned(FiltersIn(src, dest), dest, i);
    FilterOpMeans(f, dest);
    GoodScope(r, src, dest, i);
    FilterKeyRoundTrip(f.scope, f.name);
    FilterShows(FilterOp(f, dest), After(r, dest), f);
    OpIsDelivered(r, src, dest, FilterOp(f, dest));
  }

  // Every source default worth setting, over a fresh one, does on the destination what it did; one that did the same
  // before still does.
  lemma DefaultArrives(r: Run, src: Inventory, dest: Inventory, i: nat, was: string)
    requires QuietRunOf(r, src, dest) && i < |src.mail.defaults| && src.hasDefaults && dest.hasDefaults
    requires var s := src.mail.defaults[i];
             LastListed(dest.mail.defaults, Lower(s.name), was) &&
             (MeansSame(s.value, was, src.user, dest.user) || (IsFresh(was, dest.user) && WorthSetting(s.value, src.user)))
    ensures var s := src.mail.defaults[i];
            exists v :: ListedAs(After(r, dest).defaults, true, "", Lower(s.name), v) &&
                        EffectOf(v) == if MeansSame(s.value, was, src.user, dest.user) then EffectOf(was) else EffectOf(s.value)
  {
    hide QuietRunOf, DefaultOp, ForwardOps, DefaultOps, ResponderOps, FilterOps, RouteOps, After, MeansSame, IsFresh, WorthSetting, Lower, ListedAs, EffectOf;
    var s := src.mail.defaults[i];
    DefaultOpMeans(s, src.user, dest);
    OnlyLast(dest.mail.defaults, Lower(s.name));
    assert DefaultOps(src, dest)[i] == DefaultOp(s, src.user, dest);
    OpIsDelivered(r, src, dest, DefaultOp(s, src.user, dest));
  }

  lemma OnlyLast(items: seq<Item<string>>, domain: string)
    ensures forall v, w :: LastListed(items, domain, v) && LastListed(items, domain, w) ==> v == w
  {
    hide LastListed;
    LastNamedIs(items, domain);
  }

  // Every source routing mode of a domain that the destination lists is the destination's.
  lemma RouteArrives(r: Run, src: Inventory, dest: Inventory, i: nat, was: string)
    requires QuietRunOf(r, src, dest) && i < |src.mail.routes| && src.hasRoutes && dest.hasRoutes
    requires LastListed(dest.mail.routes, Lower(src.mail.routes[i].name), was)
    ensures ListedAs(After(r, dest).routes, true, "", Lower(src.mail.routes[i].name), src.mail.routes[i].value)
  {
    hide QuietRunOf, RouteOp, ForwardOps, DefaultOps, ResponderOps, FilterOps, RouteOps, After, Lower, ListedAs;
    var s := src.mail.routes[i];
    RouteOpMeans(s, dest);
    OnlyLast(dest.mail.routes, Lower(s.name));
    assert RouteOps(src, dest)[i] == RouteOp(s, dest);
    OpIsDelivered(r, src, dest, RouteOp(s, dest));
  }

  // ---------------------------------------------------------------- the order of the plan

  // The order of plan ops, with the sections a plan never holds put last.
  const LeSection: (Op, Op) -> bool := (a: Op, b: Op) =>
    if b.section == OtherSection then a.section != OtherSection || OpLe(a, b) else a.section != OtherSection && OpLe(a, b)

  lemma {:induction false} InsertAgrees<T>(x: T, s: seq<T>, le: (T, T) -> bool, le': (T, T) -> bool)
    requires forall y :: y in s ==> le(x, y) == le'(x, y)
    ensures Insert(x, s, le) == Insert(x, s, le')
  {
    if s != [] {
      InsertAgrees(x, s[1..], le, le');
    }
  }

  lemma {:induction false} SortAgrees<T>(s: seq<T>, le: (T, T) -> bool, le': (T, T) -> bool)
    requires forall x, y :: x in s && y in s ==> le(x, y) == le'(x, y)
    ensures Sort(s, le) == Sort(s, le')
  {
    if s != [] {
      SortAgrees(s[1..], le, le');
      var rest := Sort(s[1..], le);
      forall y | y in rest ensures le(s[0], y) == le'(s[0], y) {
        assert y in multiset(rest);
        assert y in s[1..];
      }
      InsertAgrees(s[0], rest, le, le');
    }
  }

  lemma SectionsRank()
    ensures Ranking(LeSection)
  {
    hide OpLe;
    forall a, b ensures LeSection(a, b) || LeSection(b, a) {
      OpLeCompares(a, b);
    }
    forall a, b, c | LeSection(a, b) && LeSection(b, c) ensures LeSection(a, c) {
      if c.section != OtherSection || (a.section == OtherSection && b.section == OtherSection) {
        OpLeChains(a, b, c);
      }
    }
  }

  lemma OpLeCompares(a: Op, b: Op)
    ensures OpLe(a, b) || OpLe(b, a)
  {
    StringLeTotal(a.domain, b.domain);
    StringLeTotal(a.key, b.key);
    StringLeTotal(a.forward, b.forward);
  }

  lemma OpLeChains(a: Op, b: Op, c: Op)
    requires OpLe(a, b) && OpLe(b, c)
    requires (a.section == OtherSection <==> b.section == OtherSection) && (b.section == OtherSection <==> c.section == OtherSection)
    ensures OpLe(a, c)
  {
    hide StringLe;
    StringsChain(a.domain, b.domain, c.domain);
    StringsChain(a.key, b.key, c.key);
    StringsChain(a.forward, b.forward, c.forward);
  }

  lemma StringsChain(a: string, b: string, c: string)
    ensures StringLe(a, b) && StringLe(b, c) ==> StringLe(a, c) && (a == c ==> a == b)
  {
    hide StringLe;
    if StringLe(a, b) && StringLe(b, c) {
      StringLeTrans(a, b, c);
      StringLeTotal(a, b);
    }
  }

  // Forwarders first, then default addresses, autoresponders, filters and routing.
  predicate SectionsInOrder(a: Section, b: Section) {
    match b
    case Forwarders => a == Forwarders
    case DefaultAddress => a == Forwarders || a == DefaultAddress
    case Autoresponders => a != EmailFilters && a != EmailRouting
    case EmailFilters => a != EmailRouting
    case _ => true
  }

  // The ops of a built plan come section by section; within one by domain, then by key, then by target.
  lemma PlanIsSorted(src: Inventory, dest: Inventory)
    ensures var ops := PlanOf(src, dest);
            && multiset(ops) == multiset(AllOps(src, dest))
            && forall i, j :: 0 <= i < j < |ops| ==>
                 && SectionsInOrder(ops[i].section, ops[j].section)
                 && (ops[i].section == ops[j].section ==> StringLe(ops[i].domain, ops[j].domain))
                 && (ops[i].section == ops[j].section && ops[i].domain == ops[j].domain ==> StringLe(ops[i].key, ops[j].key))
                 && (ops[i].section == ops[j].section && ops[i].domain == ops[j].domain && ops[i].key == ops[j].key ==>
                       StringLe(ops[i].forward, ops[j].forward))
  {
    hide AllOps, OpLe, Sort;
    var ops := AllOps(src, dest);
    forall op | op in ops ensures op.section != OtherSection {
      PlannedFrom(src, dest, op);
    }
    SectionsRank();
    SortAgrees(ops, LeOp, LeSection);
    SortSorts(ops, LeSection);
    var sorted := PlanOf(src, dest);
    forall i, j | 0 <= i < j < |sorted|
      ensures sorted[i].section != OtherSection && sorted[j].section != OtherSection && OpLe(sorted[i], sorted[j])
    {
      assert sorted[i] in multiset(sorted) && sorted[j] in multiset(sorted);
      assert sorted[i] in ops && sorted[j] in ops;
      assert LeSection(sorted[i], sorted[j]);
    }
    forall a: Op, b: Op | OpLe(a, b) && a.section != OtherSection && b.section != OtherSection
      ensures SectionsInOrder(a.section, b.section)
      ensures a.section == b.section ==> StringLe(a.domain, b.domain)
      ensures a.section == b.section && a.domain == b.domain ==> StringLe(a.key, b.key)
      ensures a.section == b.section && a.domain == b.domain && a.key == b.key ==> StringLe(a.forward, b.forward)
    {
      OpLeMeans(a, b);
    }
  }

  lemma OpLeMeans(a: Op, b: Op)
    requires OpLe(a, b) && a.section != OtherSection && b.section != OtherSection
    ensures SectionsInOrder(a.section, b.section)
    ensures a.section == b.section ==> StringLe(a.domain, b.domain)
    ensures a.section == b.section && a.domain == b.domain ==> StringLe(a.key, b.key)
    ensures a.section == b.section && a.domain == b.domain && a.key == b.key ==> StringLe(a.forward, b.forward)
  {
    StringLeTotal(a.domain, b.domain);
    StringLeTotal(a.key, b.key);
  }
}
