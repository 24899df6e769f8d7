/** A built email plan is ready to run on the destination it was built from; so a complete run of it leaves
    nothing to do, and its rollback restores the account. */
module EmailReady {
  import opened Text
  import opened Sorting
  import opened EmailValues
  import opened EmailState
  import opened EmailApply
  import opened EmailPlan
  import EmailSafety
  import V = EmailVerify
  import EmailRestore
  import EmailRollback

  // ---------------------------------------------------------------- what a listing is like

  // Forwarders are listed under the domain of their address, and no pair is listed twice.
  ghost predicate WellListedForwards(fs: seq<Forward>) {
    && (forall f :: f in fs && SplitAddress(Canon(f.source)).Some? ==> f.domain == SplitAddress(Canon(f.source)).value.1)
    && (forall i, j :: 0 <= i < j < |fs| ==> PairOf(fs[i]) != PairOf(fs[j]))
  }

  ghost predicate WellListedResponders(items: seq<Item<Option<Content>>>) {
    forall it :: it in items && SplitAddress(Canon(it.name)).Some? ==> it.scope == SplitAddress(Canon(it.name)).value.1
  }

  // Domain names without surrounding white space, each listed once.
  ghost predicate UniqueNames(items: seq<Item<string>>) {
    && (forall it :: it in items ==> it.scope == "" && Trim(it.name) == it.name)
    && (forall i, j :: 0 <= i < j < |items| ==> Lower(items[i].name) != Lower(items[j].name))
  }

  predicate GoodAccount(account: string) { '/' !in account && account != ACCOUNT_LEVEL }

  ghost predicate GoodAccounts(items: seq<Item<Option<Rules>>>) { forall it :: it in items ==> GoodAccount(it.scope) }

  ghost predicate WellListed(inv: Inventory) {
    && WellListedForwards(inv.mail.forwards) && WellListedResponders(inv.mail.responders) && GoodAccounts(inv.mail.filters)
    && UniqueNames(inv.mail.defaults) && UniqueNames(inv.mail.routes)
  }

  // ---------------------------------------------------------------- addresses

  lemma LowerAt(s: string)
    ensures '@' in Lower(s) <==> '@' in s
  {
    assert forall i :: 0 <= i < |s| ==> (Lower(s)[i] == '@' <==> s[i] == '@');
  }

  lemma SplitOfLower(t: string)
    requires Tight(t)
    ensures SplitAddress(t).Some? <==> SplitAddress(Lower(t)).Some?
    ensures SplitAddress(t).Some? ==>
      SplitAddress(Lower(t)) == Some((Lower(SplitAddress(t).value.0), Lower(SplitAddress(t).value.1)))
  {
    assert Tight(Lower(t));
    hide *;
    var i := IndexOf(t, '@');
    IndexLower(t);
    SplitOfTight(t);
    SplitOfTight(Lower(t));
    LowerSlices(t, i);
    if i + 1 < |t| {
      LowerSlices(t, i + 1);
      LowerAt(t[i + 1..]);
    }
  }

  lemma SplitOfTight(t: string)
    requires Tight(t)
    ensures var i := IndexOf(t, '@');
            SplitAddress(t) == if i == 0 || i + 1 >= |t| || '@' in t[i + 1..] then None else Some((t[..i], t[i + 1..]))
  {
    hide IndexOf, Trim, IsSpace;
  }

  lemma {:induction false} IndexLower(s: string)
    ensures IndexOf(Lower(s), '@') == IndexOf(s, '@')
  {
    hide Lower;
    if s != "" && s[0] != '@' {
      LowerSlices(s, 1);
      IndexLower(s[1..]);
    }
  }

  lemma LowerSlices(s: string, i: nat)
    requires i <= |s|
    ensures Lower(s)[..i] == Lower(s[..i]) && Lower(s)[i..] == Lower(s[i..])
  {
    hide Lower;
  }

  // The canonical form of an address splits into the lower-case halves.
  lemma SplitOfCanon(s: string)
    ensures SplitAddress(s).Some? <==> SplitAddress(Canon(s)).Some?
    ensures SplitAddress(s).Some? ==>
      SplitAddress(Canon(s)) == Some((Lower(SplitAddress(s).value.0), Lower(SplitAddress(s).value.1)))
  {
    assert SplitAddress(s) == SplitAddress(Trim(s));
    hide SplitAddress, Trim, Lower;
    SplitOfLower(Trim(s));
  }

  // ---------------------------------------------------------------- one forwarder

  // The forwarder sends the address, listed under the domain, to the target.
  predicate Sends(f: Forward, domain: string, address: string, target: string) {
    f.domain == domain && PairOf(f) == (address, target)
  }

  ghost predicate IsListed(fs: seq<Forward>, domain: string, address: string, target: string) {
    exists i :: 0 <= i < |fs| && Sends(fs[i], domain, address, target)
  }

  ghost predicate IsListedTwice(fs: seq<Forward>, domain: string, address: string, target: string) {
    exists i, j :: 0 <= i < j < |fs| && Sends(fs[i], domain, address, target) && Sends(fs[j], domain, address, target)
  }

  // Every pair of the address is listed under the domain, and none is twice.
  ghost predicate ListedOnce(fs: seq<Forward>, domain: string, address: string) {
    && (forall f :: f in fs && Canon(f.source) == address ==> IsListed(fs, domain, address, Canon(f.target)))
    && (forall t :: !IsListedTwice(fs, domain, address, t))
  }

  ghost predicate IsKnown(fs: seq<Forward>, address: string, target: string) {
    exists i :: 0 <= i < |fs| && PairOf(fs[i]) == (address, target)
  }

  // The plan notes every pair of the address once.
  lemma {:induction false} NotedOnce(fs: seq<Forward>, address: string, t: string)
    ensures multiset(CanonAll(DestTargets(fs, address)))[t] == if IsKnown(fs, address, t) then 1 else 0
  {
    hide Canon, Trim, CanonAll;
    CanonAllOne("");
    if fs != [] {
      var n := |fs| - 1;
      var front, last := fs[..n], fs[n];
      NotedOnce(front, address, t);
      CanonTwice(last.target);
      CanonAllOne(Trim(last.target));
      CanonAllConcat(DestTargets(front, address), [Trim(last.target)]);
      assert DestTargets(front, address) + [] == DestTargets(front, address);
      assert forall i :: 0 <= i < n ==> front[i] == fs[i];
    }
  }

  // The guard counts every listing of it.
  lemma {:induction false} CountedEachTime(fs: seq<Forward>, domain: string, address: string, t: string)
    requires Canon(address) == address
    ensures multiset(TargetsOf(fs, domain, address))[t] > 0 <==> IsListed(fs, domain, address, t)
    ensures multiset(TargetsOf(fs, domain, address))[t] > 1 <==> IsListedTwice(fs, domain, address, t)
  {
    hide Canon, IsListed, IsListedTwice, Sends;
    if fs == [] {
      assert !IsListed(fs, domain, address, t) && !IsListedTwice(fs, domain, address, t) by { NothingListed(domain, address, t); }
    } else {
      var n := |fs| - 1;
      CountedEachTime(fs[..n], domain, address, t);
      ListedStep(fs, domain, address, t);
      SendsTo(fs[n], domain, address, t);
    }
  }

  lemma NothingListed(domain: string, address: string, t: string)
    ensures !IsListed([], domain, address, t) && !IsListedTwice([], domain, address, t)
  {
  }

  lemma SendsTo(f: Forward, domain: string, address: string, t: string)
    ensures Sends(f, domain, address, t) <==> f.domain == domain && Canon(f.source) == address && Canon(f.target) == t
  {
    hide Canon;
  }

  lemma ListedStep(fs: seq<Forward>, domain: string, address: string, t: string)
    requires fs != []
    ensures var front, hit := fs[..|fs| - 1], Sends(fs[|fs| - 1], domain, address, t);
            && (IsListed(fs, domain, address, t) <==> IsListed(front, domain, address, t) || hit)
            && (IsListedTwice(fs, domain, address, t) <==>
                  IsListedTwice(front, domain, address, t) || (IsListed(front, domain, address, t) && hit))
  {
    hide Sends;
    var front := fs[..|fs| - 1];
    assert forall i :: 0 <= i < |front| ==> front[i] == fs[i];
    if IsListed(front, domain, address, t) {
      var i :| 0 <= i < |front| && Sends(front[i], domain, address, t);
      assert Sends(fs[i], domain, address, t);
    }
    if IsListedTwice(front, domain, address, t) {
      var i, j :| 0 <= i < j < |front| && Sends(front[i], domain, address, t) && Sends(front[j], domain, address, t);
      assert Sends(fs[i], domain, address, t) && Sends(fs[j], domain, address, t);
    }
    if IsListed(fs, domain, address, t) && !Sends(fs[|fs| - 1], domain, address, t) {
      var i :| 0 <= i < |fs| && Sends(fs[i], domain, address, t);
      assert Sends(front[i], domain, address, t);
    }
    if IsListedTwice(fs, domain, address, t) {
      var i, j :| 0 <= i < j < |fs| && Sends(fs[i], domain, address, t) && Sends(fs[j], domain, address, t);
      assert Sends(front[i], domain, address, t);
      assert j < |front| ==> Sends(front[j], domain, address, t);
    }
  }

  // So the two agree exactly when every pair of the address is listed once, under the op's domain.
  lemma NotedAsCounted(fs: seq<Forward>, domain: string, address: string)
    requires Canon(address) == address
    ensures multiset(CanonAll(DestTargets(fs, address))) == multiset(TargetsOf(fs, domain, address)) <==> ListedOnce(fs, domain, address)
  {
    hide Canon, CanonAll, DestTargets, TargetsOf, IsListedTwice;
    var noted, counted := multiset(CanonAll(DestTargets(fs, address))), multiset(TargetsOf(fs, domain, address));
    forall t
      ensures noted[t] == if IsKnown(fs, address, t) then 1 else 0
      ensures counted[t] > 0 <==> IsListed(fs, domain, address, t)
      ensures counted[t] > 1 <==> IsListedTwice(fs, domain, address, t)
      ensures IsListed(fs, domain, address, t) ==> IsKnown(fs, address, t)
    {
      NotedOnce(fs, address, t);
      CountedEachTime(fs, domain, address, t);
    }
    if noted == counted {
      forall f | f in fs && Canon(f.source) == address ensures IsListed(fs, domain, address, Canon(f.target)) {
        var i :| 0 <= i < |fs| && fs[i] == f;
        assert IsKnown(fs, address, Canon(f.target));
      }
    }
    if ListedOnce(fs, domain, address) {
      forall t ensures noted[t] == counted[t] {
        if IsKnown(fs, address, t) {
          var i :| 0 <= i < |fs| && PairOf(fs[i]) == (address, t);
          assert fs[i] in fs;
        }
      }
    }
  }

  lemma CanonAllConcat(a: seq<string>, b: seq<string>)
    ensures CanonAll(a + b) == CanonAll(a) + CanonAll(b)
  {
    hide Canon;
  }

  lemma CanonAllOne(x: string)
    ensures CanonAll([x]) == [Canon(x)] && CanonAll([]) == []
  {
    hide Canon;
  }

  lemma {:induction false} CanonAllInsert(x: string, s: seq<string>)
    ensures multiset(CanonAll(Insert(x, s, LeString))) == multiset(CanonAll(s)) + multiset{Canon(x)}
  {
    hide StringLe, Canon, CanonAll;
    CanonAllOne(x);
    if s == [] || LeString(x, s[0]) {
      CanonAllConcat([x], s);
    } else {
      CanonAllInsert(x, s[1..]);
      CanonAllConcat([s[0]], Insert(x, s[1..], LeString));
      CanonAllConcat([s[0]], s[1..]);
      assert s == [s[0]] + s[1..];
    }
  }

  lemma {:induction false} CanonAllSorted(s: seq<string>)
    ensures multiset(CanonAll(Sort(s, LeString))) == multiset(CanonAll(s))
  {
    hide StringLe, Canon, CanonAll, Insert;
    if s != [] {
      CanonAllSorted(s[1..]);
      CanonAllInsert(s[0], Sort(s[1..], LeString));
      CanonAllOne(s[0]);
      CanonAllConcat([s[0]], s[1..]);
      assert s == [s[0]] + s[1..];
      assert CanonAll(s) == [Canon(s[0])] + CanonAll(s[1..]);
    }
  }

  // What an op must be like on the destination it was planned for.
  ghost predicate OpReady(op: Op, m: Mail, user: string) {
    op.action != Manual ==>
      && op.section != OtherSection && EmailSafety.Addressed(op)
      && if op.action == Skip then V.Done(op, m, user)
         else HasWriter(op) && Evaluate(op, Listed(m, {}), user) == Write
  }

  lemma ForwardOpReady(f: Forward, dest: Inventory)
    requires WellListedForwards(dest.mail.forwards)
    ensures OpReady(ForwardOp(f, dest), dest.mail, dest.user)
  {
    hide Canon, Trim, Lower, SplitAddress, SimpleTarget, PairIn, Domains, DestTargets, TargetsOf, SortStrings, WellListedForwards;
    var op := ForwardOp(f, dest);
    NothingBlind(dest.mail);
    if op.action == Skip {
      SkippedPairIsThere(f, dest);
    } else if op.action == Create {
      ForwardAddressed(f);
      CreatedOp(f, dest);
      WellListedOnce(dest.mail.forwards, f);
      DuplicatePairIsRefused(f, dest);
    }
  }

  lemma CreatedPairIsNew(f: Forward, dest: Inventory)
    requires ForwardOp(f, dest).action == Create
    ensures var op := ForwardOp(f, dest); !PairIn(dest.mail.forwards, op.domain, op.key, op.forward)
  {
    hide SplitAddress, Canon, Trim, SimpleTarget, Domains, DestTargets, SortStrings;
    CanonTwice(f.source);
    CanonTwice(f.target);
  }

  lemma ForwardAddressed(f: Forward)
    requires SplitAddress(f.source).Some?
    ensures var p := SplitAddress(f.source).value; Canon(Lower(p.0) + "@" + Lower(p.1)) == Canon(Canon(f.source))
  {
    hide SplitAddress, Lower, Trim;
    SplitJoins(f.source);
  }

  lemma ListedDomain(fs: seq<Forward>, f: Forward, g: Forward)
    requires WellListedForwards(fs) && SplitAddress(f.source).Some? && g in fs && Canon(g.source) == Canon(f.source)
    ensures g.domain == Lower(SplitAddress(f.source).value.1)
  {
    hide SplitAddress, Canon, PairOf;
    SplitOfCanon(f.source);
  }

  lemma SkippedPairIsThere(f: Forward, dest: Inventory)
    requires WellListedForwards(dest.mail.forwards) && ForwardOp(f, dest).action == Skip
    ensures var op := ForwardOp(f, dest); PairIn(dest.mail.forwards, op.domain, op.key, op.sourceValue)
  {
    hide SplitAddress, Canon, WellListedForwards, Trim, SimpleTarget;
    var fs := dest.mail.forwards;
    var i :| 0 <= i < |fs| && PairOf(fs[i]) == PairOf(f);
    ListedDomain(fs, f, fs[i]);
    CanonTwice(f.target);
    CanonTwice(f.source);
    var op := ForwardOp(f, dest);
    assert IsPair(fs[i], op.domain, op.key, op.sourceValue);
  }

  // Well-listed forwarders are.
  lemma WellListedOnce(fs: seq<Forward>, f: Forward)
    requires WellListedForwards(fs) && SplitAddress(f.source).Some?
    ensures ListedOnce(fs, Lower(SplitAddress(f.source).value.1), Canon(f.source))
  {
    hide SplitAddress, Canon, Lower;
    var domain, address := Lower(SplitAddress(f.source).value.1), Canon(f.source);
    forall g | g in fs && Canon(g.source) == address ensures IsListed(fs, domain, address, Canon(g.target)) {
      ListedDomain(fs, f, g);
      var i :| 0 <= i < |fs| && fs[i] == g;
      assert Sends(fs[i], domain, address, Canon(g.target));
    }
  }

  // A planned create is let through on the unchanged destination exactly when every pair of its address is listed
  // once, under the op's domain: the plan noted each pair once, the guard counts each listing.
  lemma DuplicatePairIsRefused(f: Forward, dest: Inventory)
    requires ForwardOp(f, dest).action == Create
    ensures var op, fs := ForwardOp(f, dest), dest.mail.forwards;
            && (Evaluate(op, Listed(dest.mail, {}), dest.user) == if ListedOnce(fs, op.domain, op.key) then Write else Refuse)
            && (StillAsPlanned(op, dest.mail, dest.user) <==> ListedOnce(fs, op.domain, op.key))
  {
    hide ForwardOp, Sort, TargetsOf, DestTargets, PairIn, CanonAll, Listed, SortStrings, ListedOnce, Canon;
    var op, fs := ForwardOp(f, dest), dest.mail.forwards;
    CreatedOp(f, dest);
    CreatedPairIsNew(f, dest);
    ListedForwards(dest.mail);
    PlanTimeTargets(DestTargets(fs, op.key));
    SortStringsEqual(CanonAll(op.planTime), TargetsOf(fs, op.domain, op.key));
    CanonTwice(f.source);
    NotedAsCounted(fs, op.domain, op.key);
  }

  lemma CreatedOp(f: Forward, dest: Inventory)
    requires ForwardOp(f, dest).action == Create
    ensures var op := ForwardOp(f, dest);
            && op.section == Forwarders && op.planTime == SortStrings(DestTargets(dest.mail.forwards, op.key))
            && SplitAddress(f.source).Some? && op.domain == Lower(SplitAddress(f.source).value.1)
  {
    hide SplitAddress, Canon, Trim, SimpleTarget, Domains, DestTargets, PairAmong, SortStrings, Lower;
  }

  lemma ListedForwards(m: Mail)
    ensures Listed(m, {}).mail.forwards == m.forwards && Listed(m, {}).noForwards == {}
  {
  }

  lemma PlanTimeTargets(targets: seq<string>)
    ensures multiset(CanonAll(SortStrings(targets))) == multiset(CanonAll(targets))
  {
    hide Sort, CanonAll;
    CanonAllSorted(targets);
  }

  // ---------------------------------------------------------------- the other sections

  lemma {:induction false} LastIsFound(items: seq<Item<string>>, name: string)
    requires UniqueNames(items) && Trim(name) == name
    ensures LastNamed(items, Lower(name)) == Lookup(items, true, "", Lower(name))
  {
    hide Lower, Trim, Canon;
    CanonTwice(name);
    if items != [] {
      var n := |items| - 1;
      assert items == items[..n] + [items[n]];
      LastIsFound(items[..n], name);
      CanonTwice(items[n].name);
      LookupConcat(items[..n], [items[n]], true, "", Lower(name));
      LookupNone(items[..n], true, "", Lower(name));
      forall it | it in items[..n] && Lower(items[n].name) == Lower(name) ensures !Hits(it, true, "", Lower(name)) {
        CanonTwice(it.name);
        var i :| 0 <= i < n && items[..n][i] == it;
        assert items[i] == it;
      }
      assert [items[n]][1..] == [];
    }
  }

  lemma DefaultOpReady(s: Item<string>, srcUser: string, dest: Inventory)
    requires UniqueNames(dest.mail.defaults) && Trim(s.name) == s.name
    ensures OpReady(DefaultOp(s, srcUser, dest), dest.mail, dest.user)
  {
    hide Lower, Trim, Canon, Lookup, LastNamed, ClassOf, UniqueNames, EffectOf;
    var op := DefaultOp(s, srcUser, dest);
    LastIsFound(dest.mail.defaults, s.name);
    NothingBlind(dest.mail);
    EquivalentIsSameEffect(op.destValue, op.destValue, dest.user, dest.user);
    if op.action == Set {
      SetIsNotDone(s.value, op.destValue, srcUser, dest.user);
    }
  }

  // A value that is worth setting does not do what is set already.
  lemma SetIsNotDone(v: string, was: string, srcUser: string, destUser: string)
    requires !Equivalent(v, was, srcUser, destUser) && ClassOf(v, srcUser) in {AddressClass, FailClass, BlackholeClass}
    ensures !Equivalent(Trim(v), was, destUser, destUser)
  {
    hide Trim, SimpleTarget;
    EquivalentIsSameEffect(Trim(v), was, destUser, destUser);
    EquivalentIsSameEffect(v, was, srcUser, destUser);
  }

  lemma RouteOpReady(s: Item<string>, dest: Inventory)
    requires UniqueNames(dest.mail.routes) && Trim(s.name) == s.name
    ensures OpReady(RouteOp(s, dest), dest.mail, dest.user)
  {
    hide Lower, Trim, Canon, Lookup, LastNamed, UniqueNames;
    LastIsFound(dest.mail.routes, s.name);
    NothingBlind(dest.mail);
  }

  lemma {:induction false} FirstResponder(items: seq<Item<Option<Content>>>, domain: string, key: string)
    requires Canon(key) == key && forall it :: it in items && Canon(it.name) == key ==> it.scope == domain
    ensures FirstKeyed(items, false, key) == Lookup(items, true, domain, key)
  {
    hide Canon;
    if items != [] {
      assert items == [items[0]] + items[1..];
      FirstResponder(items[1..], domain, key);
      assert items[0] in items;
    }
  }

  lemma ResponderOpReady(a: Item<Option<Content>>, dest: Inventory)
    requires WellListedResponders(dest.mail.responders)
    ensures OpReady(ResponderOp(a, dest), dest.mail, dest.user)
  {
    hide Canon, SplitAddress, Lower, Trim, Lookup, FirstKeyed, SameContent, Normal, Domains;
    var op := ResponderOp(a, dest);
    if op.action != Manual {
      ForwardAddressed(Forward("", a.name, ""));
      SplitOfCanon(a.name);
      CanonTwice(a.name);
      FirstResponder(dest.mail.responders, op.domain, op.key);
      NothingBlind(dest.mail);
      if op.action == Skip {
        var d := FirstKeyed(dest.mail.responders, false, op.key).value.value;
        SameContentIsSameNormal(a.value.value, d);
        SameContentIsSameNormal(op.content.value, d);
      }
    }
  }

  lemma {:induction false} FirstFilter(items: seq<Item<Option<Rules>>>, account: string, name: string)
    requires GoodAccounts(items) && GoodAccount(account)
    ensures FirstKeyed(items, true, FilterKey(account, name)) == Lookup(items, false, account, name)
  {
    hide FilterKey, SplitFilterKey;
    if items != [] {
      assert items == [items[0]] + items[1..];
      FirstFilter(items[1..], account, name);
      assert items[0] in items;
      FilterKeyRoundTrip(account, name);
      FilterKeyRoundTrip(items[0].scope, items[0].name);
    }
  }

  lemma FilterOpReady(f: Item<Option<Rules>>, dest: Inventory)
    requires GoodAccounts(dest.mail.filters) && GoodAccount(f.scope)
    ensures OpReady(FilterOp(f, dest), dest.mail, dest.user)
  {
    hide FilterKey, SplitFilterKey, Lookup, FirstKeyed, SameRules, GoodAccounts;
    FilterKeyRoundTrip(f.scope, f.name);
    FirstFilter(dest.mail.filters, f.scope, f.name);
    NothingBlind(dest.mail);
  }

  // ---------------------------------------------------------------- the whole plan

  // Two ops of a plan do not get in each other's way.
  ghost predicate Apart(a: Op, b: Op) {
    && (a.action != Manual && b.action != Manual && a.section != Forwarders ==> V.SlotOf(a) != V.SlotOf(b))
    && (a.action != Manual && b.action != Manual && b.section != Forwarders ==> V.SlotOf(a) != V.SlotOf(b))
    && (EmailRestore.CreatesForward(a) && EmailRestore.CreatesForward(b) ==>
          a.domain != b.domain || Canon(a.key) != Canon(b.key) || Canon(a.forward) != Canon(b.forward))
  }

  ghost predicate AllApart(ops: seq<Op>) { forall i, j :: 0 <= i < j < |ops| ==> Apart(ops[i], ops[j]) }

  ghost predicate ApartFrom(ops: seq<Op>, op: Op) { forall x :: x in ops ==> Apart(x, op) }

  lemma ApartSym(a: Op, b: Op)
    ensures Apart(a, b) == Apart(b, a)
  {
    hide V.SlotOf, Canon;
  }

  lemma ApartAppend(ops: seq<Op>, op: Op)
    requires AllApart(ops) && ApartFrom(ops, op)
    ensures AllApart(ops + [op])
  {
    hide Apart;
  }

  lemma ApartWithout(ops: seq<Op>, i: nat)
    requires AllApart(ops) && i < |ops|
    ensures AllApart(ops[..i] + ops[i + 1..]) && ApartFrom(ops[..i] + ops[i + 1..], ops[i])
  {
    hide Apart;
    var rest := ops[..i] + ops[i + 1..];
    assert forall k :: 0 <= k < |rest| ==> rest[k] == ops[if k < i then k else k + 1];
    forall x | x in rest ensures Apart(x, ops[i]) {
      var k :| 0 <= k < |rest| && rest[k] == x;
      ApartSym(ops[i], x);
    }
  }

  // Being apart does not depend on the order of the ops.
  lemma {:induction false} ApartPermuted(a: seq<Op>, b: seq<Op>)
    requires AllApart(a) && multiset(a) == multiset(b)
    ensures AllApart(b)
    decreases |b|
  {
    hide Apart, AllApart;
    if b != [] {
      var i, rest, front := TakeLast(a, b);
      ApartWithout(a, i);
      ApartPermuted(rest, front);
      ApartAppend(front, a[i]);
    }
  }

  lemma ApartJoin(a: seq<Op>, b: seq<Op>)
    requires AllApart(a) && AllApart(b) && forall x, y :: x in a && y in b ==> x.section != y.section
    ensures AllApart(a + b)
  {
    hide Apart;
    forall i, j | 0 <= i < j < |a + b| ensures Apart((a + b)[i], (a + b)[j]) {
      if i < |a| <= j {
        assert (a + b)[i] in a && (a + b)[j] in b;
        OtherSections((a + b)[i], (a + b)[j]);
      }
    }
  }

  lemma OtherSections(a: Op, b: Op)
    requires a.section != b.section
    ensures Apart(a, b)
  {
  }

  // What the ops of a section's plan are, as a whole.
  ghost predicate SectionReady(ops: seq<Op>, section: Section, m: Mail, user: string) {
    AllApart(ops) && forall op :: op in ops ==> op.section == section && OpReady(op, m, user)
  }

  lemma {:induction false} ForwardsReady(src: seq<Forward>, dest: Inventory)
    requires WellListedForwards(dest.mail.forwards)
    ensures SectionReady(ForwardOps(src, dest), Forwarders, dest.mail, dest.user)
  {
    hide ForwardOp, OpReady, Apart, WellListedForwards, PairAmong;
    if src != [] {
      var n := |src| - 1;
      ForwardsReady(src[..n], dest);
      ForwardOpReady(src[n], dest);
      assert src[n] in src;
      if !PairAmong(src[..n], src[n]) {
        forall x | x in ForwardOps(src[..n], dest) ensures Apart(x, ForwardOp(src[n], dest)) {
          var f :| f in src[..n] && x == ForwardOp(f, dest);
          NotAmong(src[..n], f, src[n]);
          ForwardsApart(f, src[n], dest);
        }
      }
    }
  }

  lemma NotAmong(fs: seq<Forward>, f: Forward, g: Forward)
    requires f in fs && !PairAmong(fs, g)
    ensures PairOf(f) != PairOf(g)
  {
    hide PairOf;
  }

  lemma ForwardsApart(f: Forward, g: Forward, dest: Inventory)
    requires PairOf(f) != PairOf(g)
    ensures Apart(ForwardOp(f, dest), ForwardOp(g, dest))
  {
    hide Canon, Trim, Lower, SplitAddress, SimpleTarget, Domains, DestTargets, PairAmong, SortStrings;
    CanonTwice(f.source);
    CanonTwice(g.source);
    CanonTwice(f.target);
    CanonTwice(g.target);
  }

  lemma {:induction false} RespondersReady(src: seq<Item<Option<Content>>>, dest: Inventory)
    requires WellListedResponders(dest.mail.responders)
    ensures SectionReady(ResponderOps(src, dest), Autoresponders, dest.mail, dest.user)
  {
    hide ResponderOp, OpReady, Apart, WellListedResponders, KeyedAmong, Canon;
    if src != [] {
      var n := |src| - 1;
      RespondersReady(src[..n], dest);
      ResponderOpReady(src[n], dest);
      assert src[n] in src;
      if !KeyedAmong(src[..n], false, KeyFor(src[n], false)) {
        forall x | x in ResponderOps(src[..n], dest) ensures Apart(x, ResponderOp(src[n], dest)) {
          var a :| a in src[..n] && x == ResponderOp(a, dest);
          NotKeyed(src[..n], false, a, KeyFor(src[n], false));
          CanonTwice(a.name);
          CanonTwice(src[n].name);
          RespondersApart(x, ResponderOp(src[n], dest));
        }
      }
    }
  }

  lemma RespondersApart(a: Op, b: Op)
    requires a.section == Autoresponders && b.section == Autoresponders && Canon(a.key) != Canon(b.key)
    ensures Apart(a, b)
  {
    hide Canon;
  }

  lemma NotKeyed<V>(items: seq<Item<V>>, filter: bool, it: Item<V>, key: string)
    requires it in items && !KeyedAmong(items, filter, key)
    ensures KeyFor(it, filter) != key
  {
    hide KeyFor;
    var i :| 0 <= i < |items| && items[i] == it;
  }

  lemma {:induction false} FiltersReady(src: seq<Item<Option<Rules>>>, dest: Inventory)
    requires GoodAccounts(dest.mail.filters) && GoodAccounts(src)
    ensures SectionReady(FilterOps(src, dest), EmailFilters, dest.mail, dest.user)
  {
    hide FilterOp, OpReady, Apart, KeyedAmong, FilterKey;
    if src != [] {
      var n := |src| - 1;
      assert src[n] in src;
      FiltersReady(src[..n], dest);
      FilterOpReady(src[n], dest);
      if !KeyedAmong(src[..n], true, KeyFor(src[n], true)) {
        forall x | x in FilterOps(src[..n], dest) ensures Apart(x, FilterOp(src[n], dest)) {
          var f :| f in src[..n] && x == FilterOp(f, dest);
          NotKeyed(src[..n], true, f, KeyFor(src[n], true));
          FilterKeyRoundTrip(f.scope, f.name);
          FilterKeyRoundTrip(src[n].scope, src[n].name);
          FiltersApart(x, FilterOp(src[n], dest), f.scope, f.name, src[n].scope, src[n].name);
        }
      }
    }
  }

  lemma FiltersApart(a: Op, b: Op, scopeA: string, nameA: string, scopeB: string, nameB: string)
    requires a.section == EmailFilters && b.section == EmailFilters
    requires SplitFilterKey(a.key) == (scopeA, nameA) && SplitFilterKey(b.key) == (scopeB, nameB)
    requires (scopeA, nameA) != (scopeB, nameB)
    ensures Apart(a, b)
  {
    hide SplitFilterKey;
  }

  lemma DefaultsReady(src: Inventory, dest: Inventory)
    requires UniqueNames(dest.mail.defaults) && UniqueNames(src.mail.defaults)
    ensures SectionReady(DefaultOps(src, dest), DefaultAddress, dest.mail, dest.user)
  {
    hide Lower, Trim, Canon, OpReady, LastNamed, Equivalent, FreshDefault, ClassOf;
    if src.hasDefaults && dest.hasDefaults {
      var items := src.mail.defaults;
      forall i | 0 <= i < |items|
        ensures OpReady(DefaultOp(items[i], src.user, dest), dest.mail, dest.user)
        ensures Canon(Lower(items[i].name)) == Lower(items[i].name)
      {
        assert items[i] in items;
        DefaultOpReady(items[i], src.user, dest);
        CanonTwice(items[i].name);
      }
    }
  }

  lemma RoutesReady(src: Inventory, dest: Inventory)
    requires UniqueNames(dest.mail.routes) && UniqueNames(src.mail.routes)
    ensures SectionReady(RouteOps(src, dest), EmailRouting, dest.mail, dest.user)
  {
    hide Lower, Trim, Canon, OpReady, LastNamed;
    if src.hasRoutes && dest.hasRoutes {
      var items := src.mail.routes;
      forall i | 0 <= i < |items|
        ensures OpReady(RouteOp(items[i], dest), dest.mail, dest.user)
        ensures Canon(Lower(items[i].name)) == Lower(items[i].name)
      {
        assert items[i] in items;
        RouteOpReady(items[i], dest);
        CanonTwice(items[i].name);
      }
    }
  }

  // What the listings must be like for a plan between the two accounts to run unhindered.
  ghost predicate Plannable(src: Inventory, dest: Inventory) {
    WellListed(dest) && GoodAccounts(src.mail.filters) && UniqueNames(src.mail.defaults) && UniqueNames(src.mail.routes)
  }

  lemma OpsAreReady(src: Inventory, dest: Inventory)
    requires Plannable(src, dest)
    ensures AllApart(AllOps(src, dest)) && forall op :: op in AllOps(src, dest) ==> OpReady(op, dest.mail, dest.user)
  {
    assert GoodAccounts(FiltersIn(src, dest));
    hide ForwardOps, ResponderOps, FilterOps, DefaultOps, RouteOps, OpReady, WellListedForwards, WellListedResponders, GoodAccounts,
         UniqueNames, Apart;
    var f, d, a := ForwardOps(src.mail.forwards, dest), DefaultOps(src, dest), ResponderOps(src.mail.responders, dest);
    var t, o := FilterOps(FiltersIn(src, dest), dest), RouteOps(src, dest);
    ForwardsReady(src.mail.forwards, dest);
    DefaultsReady(src, dest);
    RespondersReady(src.mail.responders, dest);
    FiltersReady(FiltersIn(src, dest), dest);
    RoutesReady(src, dest);
    ApartJoin(f, d);
    ApartJoin(f + d, a);
    ApartJoin(f + d + a, t);
    ApartJoin(f + d + a + t, o);
  }

  // A built plan is ready on its own destination, in whatever order its ops are listed.
  lemma BuiltPlanIsReady(src: Inventory, dest: Inventory, ops: seq<Op>)
    requires Plannable(src, dest) && multiset(ops) == multiset(AllOps(src, dest))
    ensures V.Ready(ops, dest.mail, dest.user) && EmailRestore.DistinctPairs(ops)
  {
    hide Plannable, AllOps, OpReady, AllApart;
    OpsAreReady(src, dest);
    ApartPermuted(AllOps(src, dest), ops);
    SameMembers(AllOps(src, dest), ops);
    ReadyFromParts(ops, dest.mail, dest.user);
  }

  lemma ReadyFromParts(ops: seq<Op>, m: Mail, user: string)
    requires AllApart(ops) && forall op :: op in ops ==> OpReady(op, m, user)
    ensures V.Ready(ops, m, user) && EmailRestore.DistinctPairs(ops)
  {
    hide V.SlotOf, V.Done, Evaluate, EmailSafety.Addressed, HasWriter, Canon;
    forall i | 0 <= i < |ops| ensures OpReady(ops[i], m, user) {
      assert ops[i] in ops;
    }
    assert forall i, j :: 0 <= i < j < |ops| ==> Apart(ops[i], ops[j]);
  }

  // Checked against its own destination, a built plan has nothing drifted or applied: every create and set is
  // pending, every skip unchanged, every manual op up for review.
  lemma BuiltPlanVerifiesFresh(src: Inventory, dest: Inventory, op: Op)
    requires Plannable(src, dest) && op in AllOps(src, dest)
    ensures V.VerifyOp(op, Listed(dest.mail, {}), dest.user) ==
            (match op.action case Manual => V.ManualReview case Skip => V.Unchanged case _ => V.Pending)
  {
    var live := Listed(dest.mail, {});
    assert op.action == Manual ==> V.VerifyOp(op, live, dest.user) == V.ManualReview;
    hide Plannable, AllOps, Evaluate, HasWriter, V.VerifyOp, EmailSafety.Addressed;
    OpsAreReady(src, dest);
    assert OpReady(op, dest.mail, dest.user);
    if HasWriter(op) {
      V.GuardAgreesWithVerify(op, live, dest.user);
    }
  }

  // Plan, apply, plan again the same plan, verify: after a quiet run of a built plan every write it decided on is
  // reported applied, re-evaluating decides already_present for every create and set, and the verifier finds
  // nothing pending and no drift.
  lemma BuiltPlanConverges(src: Inventory, dest: Inventory, r: Run)
    requires Plannable(src, dest)
    requires V.QuietRun(r, dest.mail) && r.user == dest.user && multiset(r.ops) == multiset(AllOps(src, dest))
    ensures var live := Listed(MailAt(r, dest.mail, |r.ops|), {});
            forall i :: 0 <= i < |r.ops| ==>
              && (Writes(r, i) ==> StatusAt(r, dest.mail, i) == Applied)
              && (r.ops[i].action == Create || r.ops[i].action == Set ==> Evaluate(r.ops[i], live, r.user) == Already)
              && V.VerifyOp(r.ops[i], live, r.user) ==
                   (match r.ops[i].action case Manual => V.ManualReview case Skip => V.Unchanged case _ => V.Verdict.Applied)
  {
    hide Plannable, V.Quiet, V.Ready, MailAt, Writes, StatusAt, Evaluate, AllOps, EmailRestore.DistinctPairs;
    BuiltPlanIsReady(src, dest, r.ops);
    var live := Listed(MailAt(r, dest.mail, |r.ops|), {});
    forall i | 0 <= i < |r.ops|
      ensures Writes(r, i) ==> StatusAt(r, dest.mail, i) == Applied
      ensures r.ops[i].action == Create || r.ops[i].action == Set ==> Evaluate(r.ops[i], live, r.user) == Already
      ensures V.VerifyOp(r.ops[i], live, r.user) ==
                (match r.ops[i].action case Manual => V.ManualReview case Skip => V.Unchanged case _ => V.Verdict.Applied)
    {
      if Writes(r, i) {
        V.CompleteRunApplies(r, dest.mail, i);
      }
      if r.ops[i].action != Manual {
        V.CompleteRunIsDone(r, dest.mail, i);
      }
    }
  }

  // ... and rolling the run back restores the account.
  lemma BuiltPlanRollsBack(src: Inventory, dest: Inventory, r: Run, turns: seq<Turn>)
    requires Plannable(src, dest)
    requires V.QuietRun(r, dest.mail) && r.user == dest.user && multiset(r.ops) == multiset(AllOps(src, dest))
    requires EmailRestore.QuietTurns(turns, |r.ops|)
    ensures var undos := EmailRollback.Undos(r.ops, EmailRestore.Statuses(r, dest.mail), r.batch);
            undos.Some? && |undos.value| <= |r.ops| &&
            EmailRestore.AsBefore(dest.mail,
              EmailRollback.UndoneAt(undos.value, turns, r.user, MailAt(r, dest.mail, |r.ops|), |undos.value|))
  {
    hide Plannable, V.Quiet, V.Ready, MailAt, AllOps, EmailRestore.DistinctPairs, EmailRestore.QuietTurns,
         EmailRestore.AsBefore, EmailRollback.Undos, EmailRollback.UndoneAt;
    BuiltPlanIsReady(src, dest, r.ops);
    EmailRestore.ApplyThenRollbackRestores(r, dest.mail, turns);
  }

  // ---------------------------------------------------------------- somebody's choice

  lemma FreshIsAnEffect(v: string, w: string, user: string)
    requires EffectOf(v) == EffectOf(w)
    ensures FreshDefault(v, user) <==> FreshDefault(w, user)
  {
    hide Trim, SimpleTarget;
  }

  // Whatever the listings are like: every op of a plan is addressed by its own key, a default is set only over a
  // fresh one and to something, and a routing mode is set to the source's.
  lemma BuiltOps(src: Inventory, dest: Inventory, op: Op)
    requires op in AllOps(src, dest)
    ensures EmailSafety.Addressed(op)
    ensures EmailSafety.Sets(op, DefaultAddress) ==> FreshDefault(op.destValue, dest.user) && op.value != ""
    ensures EmailSafety.Sets(op, EmailRouting) ==> op.value == op.sourceValue
  {
    hide ForwardOps, ResponderOps, FilterOps, DefaultOps, RouteOps, FreshDefault, EmailSafety.Addressed;
    if op in ForwardOps(src.mail.forwards, dest) {
      var f :| f in src.mail.forwards && op == ForwardOp(f, dest);
      MadeAddressed(f, Item("", "", None), dest);
    } else if op in ResponderOps(src.mail.responders, dest) {
      var a :| a in src.mail.responders && op == ResponderOp(a, dest);
      MadeAddressed(Forward("", "", ""), a, dest);
    } else if op in FilterOps(FiltersIn(src, dest), dest) {
      assert EmailSafety.Addressed(op) by { OtherAddressed(op); }
    } else {
      BuiltSets(src, dest, op);
      OtherAddressed(op);
    }
  }

  lemma MadeAddressed(f: Forward, a: Item<Option<Content>>, dest: Inventory)
    ensures EmailSafety.Addressed(ForwardOp(f, dest)) && EmailSafety.Addressed(ResponderOp(a, dest))
  {
    hide Canon, Trim, Lower, SplitAddress, PairAmong, Domains, SortStrings, DestTargets, FirstKeyed, SameContent, SimpleTarget;
    if SplitAddress(f.source).Some? {
      ForwardAddressed(f);
    }
    if SplitAddress(a.name).Some? {
      ForwardAddressed(Forward("", a.name, ""));
    }
  }

  lemma OtherAddressed(op: Op)
    requires op.section != Forwarders && op.section != Autoresponders
    ensures EmailSafety.Addressed(op)
  {
  }

  lemma BuiltSets(src: Inventory, dest: Inventory, op: Op)
    requires op in DefaultOps(src, dest) || op in RouteOps(src, dest)
    ensures op.section == DefaultAddress || op.section == EmailRouting
    ensures EmailSafety.Sets(op, DefaultAddress) ==> FreshDefault(op.destValue, dest.user) && op.value != ""
    ensures EmailSafety.Sets(op, EmailRouting) ==> op.value == op.sourceValue
  {
    hide Trim, Lower, LastNamed, Equivalent, FreshDefault;
  }

  // Whatever people do meanwhile, no run of a built plan overwrites a default address that is somebody's
  // choice: one that is not a fresh account's.
  lemma ChosenDefaultIsNeverOverwritten(src: Inventory, dest: Inventory, r: Run, m: Mail, k: nat, domain: string, v: string)
    requires Proper(r) && k <= |r.ops| && r.user == dest.user && multiset(r.ops) == multiset(AllOps(src, dest))
    requires EmailSafety.PeopleKeep(r, EmailSafety.HasDefault(domain, v)) && !FreshDefault(v, dest.user)
    requires Lookup(MailAt(r, m, k).defaults, true, "", domain) == Some(v)
    ensures Lookup(MailAt(r, m, |r.ops|).defaults, true, "", domain) == Some(v)
  {
    hide MailAt, AllOps, EmailSafety.PeopleKeep, Lookup, FreshDefault, EffectOf, Canon,
         EmailSafety.Addressed;
    forall i | 0 <= i < |r.ops|
      ensures EmailSafety.Addressed(r.ops[i])
      ensures EmailSafety.Sets(r.ops[i], DefaultAddress) ==> EffectOf(r.ops[i].destValue) != EffectOf(v)
    {
      assert r.ops[i] in multiset(r.ops);
      BuiltOps(src, dest, r.ops[i]);
      if EffectOf(r.ops[i].destValue) == EffectOf(v) {
        FreshIsAnEffect(r.ops[i].destValue, v, dest.user);
      }
    }
    EmailSafety.DefaultSurvives(r, m, k, domain, v);
  }

  // ---------------------------------------------------------------- which restores are checked

  lemma {:induction false} UndosComeFromOps(ops: seq<Op>, status: seq<Status>, backup: Live, u: EmailRollback.Undo)
    returns (i: nat)
    requires |ops| == |status| && EmailRollback.Undos(ops, status, backup).Some?
    requires u in EmailRollback.Undos(ops, status, backup).value
    ensures i < |ops| && status[i] == Applied && EmailRollback.UndoFor(ops[i], backup) == Some(u)
  {
    hide EmailRollback.UndoFor;
    i := |ops| - 1;
    var before := EmailRollback.Undos(ops[..i], status[..i], backup).value;
    if u in before {
      i := UndosComeFromOps(ops[..i], status[..i], backup, u);
    }
  }

  // Of the restores a built plan leads to, the unchecked ones are those of a route that the source has no mode for.
  lemma UncheckedRestores(src: Inventory, dest: Inventory, op: Op, backup: Live)
    requires op in AllOps(src, dest) && EmailRollback.UndoFor(op, backup).Some?
    ensures var u := EmailRollback.UndoFor(op, backup).value;
            && (u.RestoreRoute? <==> op.section == EmailRouting) && (u.RestoreRoute? ==> u.domain == op.domain)
            && (EmailRollback.Unchecked(u) <==> op.section == EmailRouting && op.sourceValue == "")
  {
    hide AllOps;
    BuiltOps(src, dest, op);
  }

  // The rollback of a run of a built plan, whatever the run reported and whatever the backup holds.
  ghost predicate BuiltRollback(src: Inventory, dest: Inventory, ops: seq<Op>, status: seq<Status>, backup: Live,
                                undos: seq<EmailRollback.Undo>) {
    |ops| == |status| && multiset(ops) == multiset(AllOps(src, dest)) && EmailRollback.Undos(ops, status, backup) == Some(undos)
  }

  // The source lists an empty routing mode for the domain.
  ghost predicate HasEmptyMode(src: Inventory, domain: string) {
    exists r :: r in src.mail.routes && r.value == "" && Canon(Lower(r.name)) == Canon(domain)
  }

  lemma BuiltRestoresAreChecked(src: Inventory, dest: Inventory, ops: seq<Op>, status: seq<Status>, backup: Live,
                                undos: seq<EmailRollback.Undo>)
    requires BuiltRollback(src, dest, ops, status, backup, undos)
    ensures forall i :: 0 <= i < |undos| && EmailRollback.Unchecked(undos[i]) ==> undos[i].RestoreRoute? && HasEmptyMode(src, undos[i].domain)
  {
    hide AllOps, EmailRollback.UndoFor, EmailRollback.Undos;
    forall i | 0 <= i < |undos| && EmailRollback.Unchecked(undos[i]) ensures undos[i].RestoreRoute? && HasEmptyMode(src, undos[i].domain) {
      var j := UndosComeFromOps(ops, status, backup, undos[i]);
      assert ops[j] in multiset(ops);
      UncheckedRestores(src, dest, ops[j], backup);
      RouteSource(src, dest, ops[j]);
    }
  }

  lemma RouteSource(src: Inventory, dest: Inventory, op: Op)
    requires op in AllOps(src, dest) && op.section == EmailRouting && op.sourceValue == ""
    ensures HasEmptyMode(src, op.domain)
  {
    hide ForwardOps, ResponderOps, FilterOps, RouteOp;
    assert op in RouteOps(src, dest);
    var i :| 0 <= i < |src.mail.routes| && op == RouteOp(src.mail.routes[i], dest);
    assert src.mail.routes[i].value == "";
  }

  // Whatever people do meanwhile, rolling a built plan back leaves a default address alone that no longer does
  // what was set ...
  lemma BuiltRollbackKeepsDefault(src: Inventory, dest: Inventory, ops: seq<Op>, status: seq<Status>, backup: Live,
                                  undos: seq<EmailRollback.Undo>, turns: seq<Turn>, user: string, m: Mail, k: nat, domain: string, v: string)
    requires BuiltRollback(src, dest, ops, status, backup, undos) && |turns| == |undos| && k <= |undos|
    requires EmailRollback.PeopleKeep(turns, EmailSafety.HasDefault(domain, v))
    requires Lookup(EmailRollback.UndoneAt(undos, turns, user, m, k).defaults, true, "", domain) == Some(v)
    requires forall i :: 0 <= i < |undos| && undos[i].RestoreDefault? && Canon(undos[i].domain) == Canon(domain)
               ==> EffectOf(undos[i].expected) != EffectOf(v)
    ensures Lookup(EmailRollback.UndoneAt(undos, turns, user, m, |undos|).defaults, true, "", domain) == Some(v)
  {
    hide BuiltRollback, EmailRollback.UndoneAt, EmailRollback.PeopleKeep, Lookup, EffectOf, Canon;
    BuiltRestoresAreChecked(src, dest, ops, status, backup, undos);
    EmailRollback.EditedDefaultSurvives(undos, turns, user, m, k, domain, v);
  }

  // ... and a routing mode that is no longer what was set, if the source's mode for the domain is not empty.
  lemma BuiltRollbackKeepsRoute(src: Inventory, dest: Inventory, ops: seq<Op>, status: seq<Status>, backup: Live,
                                undos: seq<EmailRollback.Undo>, turns: seq<Turn>, user: string, m: Mail, k: nat, domain: string, v: string)
    requires BuiltRollback(src, dest, ops, status, backup, undos) && |turns| == |undos| && k <= |undos| && !HasEmptyMode(src, domain)
    requires EmailRollback.PeopleKeep(turns, EmailSafety.HasRoute(domain, v))
    requires Lookup(EmailRollback.UndoneAt(undos, turns, user, m, k).routes, true, "", domain) == Some(v)
    requires forall i :: 0 <= i < |undos| && undos[i].RestoreRoute? && Canon(undos[i].domain) == Canon(domain) ==> undos[i].expected != v
    ensures Lookup(EmailRollback.UndoneAt(undos, turns, user, m, |undos|).routes, true, "", domain) == Some(v)
  {
    hide BuiltRollback, EmailRollback.UndoneAt, EmailRollback.PeopleKeep, Lookup, Canon;
    BuiltRestoresAreChecked(src, dest, ops, status, backup, undos);
    EmailRollback.EditedRouteSurvives(undos, turns, user, m, k, domain, v);
  }
}
