/** The offline email planner (internal/accountinventory/emailplan.go), and why what it plans is ready to run. */
module EmailPlan {
  import opened Text
  import opened Sorting
  import opened EmailValues
  import opened EmailState
  import opened EmailApply
  import EmailSafety
  import V = EmailVerify
  import EmailRestore

  // One side's inventory. Forwarder and autoresponder sections have no availability flag.
  datatype Inventory = Inventory(user: string, domains: seq<string>, mail: Mail, hasDefaults: bool, hasFilters: bool, hasRoutes: bool)

  function Domains(inv: Inventory): set<string> { set d | d in inv.domains :: Lower(d) }

  const NO_OP := Op(OtherSection, Manual, "", "", "", "", "", "", "", [], None, None)

  // ---------------------------------------------------------------- forwarders

  // forwarderPair
  function PairOf(f: Forward): (string, string) { (Canon(f.source), Canon(f.target)) }

  predicate PairAmong(fs: seq<Forward>, f: Forward) { exists i :: 0 <= i < |fs| && PairOf(fs[i]) == PairOf(f) }

  // The destination's targets of an address, one of equal pairs.
  function DestTargets(fs: seq<Forward>, address: string): seq<string> {
    if fs == [] then []
    else
      var n := |fs| - 1;
      DestTargets(fs[..n], address) +
      (if Canon(fs[n].source) == address && !PairAmong(fs[..n], fs[n]) then [Trim(fs[n].target)] else [])
  }

  function ForwardOp(f: Forward, dest: Inventory): (r: Op)
    ensures r.section == Forwarders && r.key == Canon(f.source)
  {
    var split := SplitAddress(f.source);
    var op := NO_OP.(section := Forwarders, key := Canon(f.source), sourceValue := Trim(f.target),
                     domain := if split.Some? then Lower(split.value.1) else Lower(Trim(f.domain)));
    if split.None? then op
    else if PairAmong(dest.mail.forwards, f) then op.(action := Skip)
    else if !SimpleTarget(Trim(f.target)) || op.domain !in Domains(dest) then op
    else op.(action := Create, local := Lower(split.value.0), forward := Trim(f.target),
             planTime := SortStrings(DestTargets(dest.mail.forwards, op.key)))
  }

  ghost predicate ForwardMade(op: Op, src: seq<Forward>, dest: Inventory) { exists f :: f in src && op == ForwardOp(f, dest) }

  function ForwardOps(src: seq<Forward>, dest: Inventory): (r: seq<Op>)
    ensures forall op :: op in r ==> ForwardMade(op, src, dest)
  {
    if src == [] then []
    else
      var n := |src| - 1;
      ForwardOps(src[..n], dest) + (if PairAmong(src[..n], src[n]) then [] else [ForwardOp(src[n], dest)])
  }

  function PairsOf(fs: seq<Forward>): set<(string, string)> { set f | f in fs :: PairOf(f) }

  lemma PairsHold(fs: seq<Forward>, f: Forward)
    ensures PairAmong(fs, f) <==> PairOf(f) in PairsOf(fs)
  {
    hide PairOf;
  }

  lemma PairsAppend(fs: seq<Forward>, n: nat)
    requires n < |fs|
    ensures PairsOf(fs[..n + 1]) == PairsOf(fs[..n]) + {PairOf(fs[n])}
  {
    hide PairOf;
    assert fs[..n + 1] == fs[..n] + [fs[n]];
  }

  lemma DestTargetsStep(fs: seq<Forward>, i: nat)
    requires i < |fs|
    ensures forall a :: DestTargets(fs[..i + 1], a) == DestTargets(fs[..i], a) +
              (if Canon(fs[i].source) == a && !PairAmong(fs[..i], fs[i]) then [Trim(fs[i].target)] else [])
  {
    hide PairAmong, Canon, Trim;
    assert fs[..i + 1][..i] == fs[..i];
  }

  method CollectTargets(fs: seq<Forward>) returns (destPairs: set<(string, string)>, destTargets: map<string, seq<string>>)
    ensures destPairs == PairsOf(fs)
    ensures forall a :: (if a in destTargets then destTargets[a] else []) == DestTargets(fs, a)
  {
    hide PairOf, PairAmong, PairsOf, Canon, Trim, DestTargets;
    destPairs, destTargets := {}, map[];
    NoPairs();
    for i := 0 to |fs|
      invariant destPairs == PairsOf(fs[..i])
      invariant forall a :: (if a in destTargets then destTargets[a] else []) == DestTargets(fs[..i], a)
    {
      PairsHold(fs[..i], fs[i]);
      PairsAppend(fs, i);
      DestTargetsStep(fs, i);
      var addr := Canon(fs[i].source);
      if PairOf(fs[i]) !in destPairs {
        destPairs := destPairs + {PairOf(fs[i])};
        destTargets := destTargets[addr := (if addr in destTargets then destTargets[addr] else []) + [Trim(fs[i].target)]];
      } else {
        assert PairsOf(fs[..i]) + {PairOf(fs[i])} == PairsOf(fs[..i]);
      }
    }
    assert fs[..|fs|] == fs;
  }

  // planForwarders
  method PlanForwarders(src: seq<Forward>, dest: Inventory) returns (ops: seq<Op>)
    ensures ops == ForwardOps(src, dest)
  {
    var destPairs, destTargets := CollectTargets(dest.mail.forwards);
    ops := PlanPairs(src, dest, destPairs, destTargets);
  }

  lemma NoPairs()
    ensures PairsOf([]) == {} && forall a :: DestTargets([], a) == []
  {
  }

  method PlanPairs(src: seq<Forward>, dest: Inventory, destPairs: set<(string, string)>, destTargets: map<string, seq<string>>)
    returns (ops: seq<Op>)
    requires destPairs == PairsOf(dest.mail.forwards)
    requires forall a :: (if a in destTargets then destTargets[a] else []) == DestTargets(dest.mail.forwards, a)
    ensures ops == ForwardOps(src, dest)
  {
    hide PairOf, PairAmong, PairsOf, Canon, Trim, SimpleTarget, SplitAddress, Domains;
    ops := [];
    var seen: set<(string, string)> := {};
    NoPairs();
    for i := 0 to |src|
      invariant seen == PairsOf(src[..i]) && ops == ForwardOps(src[..i], dest)
    {
      assert src[..i + 1][..i] == src[..i];
      PairsHold(src[..i], src[i]);
      PairsAppend(src, i);
      PairsHold(dest.mail.forwards, src[i]);
      if PairOf(src[i]) !in seen {
        seen := seen + {PairOf(src[i])};
        var addr, split := Canon(src[i].source), SplitAddress(src[i].source);
        var op := NO_OP.(section := Forwarders, key := addr, sourceValue := Trim(src[i].target),
                         domain := if split.Some? then Lower(split.value.1) else Lower(Trim(src[i].domain)));
        if split.Some? {
          if PairOf(src[i]) in destPairs {
            op := op.(action := Skip);
          } else if SimpleTarget(Trim(src[i].target)) && op.domain in Domains(dest) {
            op := op.(action := Create, local := Lower(split.value.0), forward := Trim(src[i].target),
                      planTime := SortStrings(if addr in destTargets then destTargets[addr] else []));
          }
        }
        ops := ops + [op];
      } else {
        assert PairsOf(src[..i]) + {PairOf(src[i])} == PairsOf(src[..i]);
      }
    }
    assert src[..|src|] == src;
  }

  // ---------------------------------------------------------------- default addresses and routing

  // The value of the last item of that lower-case name.
  function LastNamed(items: seq<Item<string>>, domain: string): Option<string> {
    if items == [] then None
    else if Lower(items[|items| - 1].name) == domain then Some(items[|items| - 1].value)
    else LastNamed(items[..|items| - 1], domain)
  }

  function DefaultOp(s: Item<string>, srcUser: string, dest: Inventory): (r: Op)
    ensures r.section == DefaultAddress && r.domain == Lower(s.name)
  {
    var domain := Lower(s.name);
    var was := LastNamed(dest.mail.defaults, domain);
    var op := NO_OP.(section := DefaultAddress, domain := domain, key := domain, sourceValue := s.value,
                     destValue := if was.Some? then was.value else "");
    if was.None? then op
    else if Equivalent(s.value, was.value, srcUser, dest.user) then op.(action := Skip)
    else if !FreshDefault(was.value, dest.user) || ClassOf(s.value, srcUser) !in {AddressClass, FailClass, BlackholeClass} then op
    else op.(action := Set, value := Trim(s.value))
  }

  function RouteOp(s: Item<string>, dest: Inventory): (r: Op)
    ensures r.section == EmailRouting && r.domain == Lower(s.name) && r.sourceValue == s.value
  {
    var domain := Lower(s.name);
    var was := LastNamed(dest.mail.routes, domain);
    var op := NO_OP.(section := EmailRouting, domain := domain, key := domain, sourceValue := s.value,
                     destValue := if was.Some? then was.value else "");
    if was.None? then op else if was.value == s.value then op.(action := Skip) else op.(action := Set, value := s.value)
  }

  function DefaultOps(src: Inventory, dest: Inventory): (r: seq<Op>)
    ensures src.hasDefaults && dest.hasDefaults ==>
      |r| == |src.mail.defaults| && forall i :: 0 <= i < |r| ==> r[i] == DefaultOp(src.mail.defaults[i], src.user, dest)
  {
    if !src.hasDefaults || !dest.hasDefaults then []
    else seq(|src.mail.defaults|, i requires 0 <= i < |src.mail.defaults| => DefaultOp(src.mail.defaults[i], src.user, dest))
  }

  function RouteOps(src: Inventory, dest: Inventory): (r: seq<Op>)
    ensures src.hasRoutes && dest.hasRoutes ==>
      |r| == |src.mail.routes| && forall i :: 0 <= i < |r| ==> r[i] == RouteOp(src.mail.routes[i], dest)
  {
    if !src.hasRoutes || !dest.hasRoutes then []
    else seq(|src.mail.routes|, i requires 0 <= i < |src.mail.routes| => RouteOp(src.mail.routes[i], dest))
  }

  method DestByDomain(items: seq<Item<string>>) returns (m: map<string, string>)
    ensures forall d :: LastNamed(items, d) == if d in m then Some(m[d]) else None
  {
    hide Lower;
    m := map[];
    for i := 0 to |items|
      invariant forall d :: LastNamed(items[..i], d) == if d in m then Some(m[d]) else None
    {
      assert items[..i + 1][..i] == items[..i];
      m := m[Lower(items[i].name) := items[i].value];
    }
    assert items[..|items|] == items;
  }

  // planDefaultAddresses
  method PlanDefaultAddresses(src: Inventory, dest: Inventory) returns (ops: seq<Op>)
    ensures ops == DefaultOps(src, dest)
  {
    hide Lower, Trim, Equivalent, FreshDefault, ClassOf, LastNamed;
    ops := [];
    if !src.hasDefaults || !dest.hasDefaults {
      return;
    }
    var byDomain := DestByDomain(dest.mail.defaults);
    var items := src.mail.defaults;
    for i := 0 to |items|
      invariant |ops| == i && forall j :: 0 <= j < i ==> ops[j] == DefaultOp(items[j], src.user, dest)
    {
      var domain := Lower(items[i].name);
      var op := NO_OP.(section := DefaultAddress, domain := domain, key := domain, sourceValue := items[i].value,
                       destValue := if domain in byDomain then byDomain[domain] else "");
      if domain in byDomain {
        if Equivalent(items[i].value, byDomain[domain], src.user, dest.user) {
          op := op.(action := Skip);
        } else if FreshDefault(byDomain[domain], dest.user) {
          if ClassOf(items[i].value, src.user) in {AddressClass, FailClass, BlackholeClass} {
            op := op.(action := Set, value := Trim(items[i].value));
          }
        }
      }
      ops := ops + [op];
    }
  }

  // planRouting
  method PlanRouting(src: Inventory, dest: Inventory) returns (ops: seq<Op>)
    ensures ops == RouteOps(src, dest)
  {
    hide Lower, LastNamed;
    ops := [];
    if !src.hasRoutes || !dest.hasRoutes {
      return;
    }
    var byDomain := DestByDomain(dest.mail.routes);
    var items := src.mail.routes;
    for i := 0 to |items|
      invariant |ops| == i && forall j :: 0 <= j < i ==> ops[j] == RouteOp(items[j], dest)
    {
      var domain := Lower(items[i].name);
      var op := NO_OP.(section := EmailRouting, domain := domain, key := domain, sourceValue := items[i].value,
                       destValue := if domain in byDomain then byDomain[domain] else "");
      if domain in byDomain {
        op := if byDomain[domain] == items[i].value then op.(action := Skip) else op.(action := Set, value := items[i].value);
      }
      ops := ops + [op];
    }
  }

  // ---------------------------------------------------------------- autoresponders and filters

  // What an item of one of these sections is known by.
  function KeyFor<V>(it: Item<V>, filter: bool): string { if filter then FilterKey(it.scope, it.name) else Canon(it.name) }

  function FirstKeyed<V>(items: seq<Item<V>>, filter: bool, key: string): Option<V> {
    if items == [] then None
    else if KeyFor(items[0], filter) == key then Some(items[0].value)
    else FirstKeyed(items[1..], filter, key)
  }

  predicate KeyedAmong<V>(items: seq<Item<V>>, filter: bool, key: string) {
    exists i :: 0 <= i < |items| && KeyFor(items[i], filter) == key
  }

  function ResponderOp(a: Item<Option<Content>>, dest: Inventory): (r: Op)
    ensures r.section == Autoresponders && r.key == Canon(a.name)
  {
    var split, key := SplitAddress(a.name), Canon(a.name);
    var there := FirstKeyed(dest.mail.responders, false, key);
    var op := NO_OP.(section := Autoresponders, key := key,
                     domain := if split.Some? then Lower(split.value.1) else Lower(Trim(a.scope)));
    if split.None? || a.value.None? then op
    else if there.Some? then
      if there.value.Some? && SameContent(a.value.value, there.value.value)
      then op.(action := Skip, content := Some(Normal(a.value.value)))
      else op
    else if op.domain !in Domains(dest) then op
    else op.(action := Create, local := Lower(split.value.0), content := Some(Normal(a.value.value)))
  }

  function FilterOp(f: Item<Option<Rules>>, dest: Inventory): (r: Op)
    ensures r.section == EmailFilters && r.key == FilterKey(f.scope, f.name)
  {
    var key := FilterKey(f.scope, f.name);
    var there := FirstKeyed(dest.mail.filters, true, key);
    var op := NO_OP.(section := EmailFilters, key := key);
    if f.value.None? || |f.value.value.rules| > 1 then op
    else if there.Some? then
      if there.value.Some? && SameRules(f.value.value, there.value.value) then op.(action := Skip, rules := f.value) else op
    else op.(action := Create, local := f.scope, rules := f.value)
  }

  ghost predicate ResponderMade(op: Op, src: seq<Item<Option<Content>>>, dest: Inventory) {
    exists a :: a in src && op == ResponderOp(a, dest)
  }

  function ResponderOps(src: seq<Item<Option<Content>>>, dest: Inventory): (r: seq<Op>)
    ensures forall op :: op in r ==> ResponderMade(op, src, dest)
  {
    if src == [] then []
    else
      var n := |src| - 1;
      ResponderOps(src[..n], dest) +
      (if KeyedAmong(src[..n], false, KeyFor(src[n], false)) then [] else [ResponderOp(src[n], dest)])
  }

  ghost predicate FilterMade(op: Op, src: seq<Item<Option<Rules>>>, dest: Inventory) {
    exists f :: f in src && op == FilterOp(f, dest)
  }

  function FilterOps(src: seq<Item<Option<Rules>>>, dest: Inventory): (r: seq<Op>)
    ensures forall op :: op in r ==> FilterMade(op, src, dest)
  {
    if src == [] then []
    else
      var n := |src| - 1;
      FilterOps(src[..n], dest) +
      (if KeyedAmong(src[..n], true, KeyFor(src[n], true)) then [] else [FilterOp(src[n], dest)])
  }

  // The map of first items by key that both planners start from.
  method DestByKey<V>(items: seq<Item<V>>, filter: bool) returns (m: map<string, V>)
    ensures forall k :: FirstKeyed(items, filter, k) == if k in m then Some(m[k]) else None
  {
    hide KeyFor;
    m := map[];
    for i := 0 to |items|
      invariant forall k :: FirstKeyed(items, filter, k) == if k in m then Some(m[k]) else FirstKeyed(items[i..], filter, k)
    {
      assert items[i..][0] == items[i] && items[i..][1..] == items[i + 1..];
      var key := KeyFor(items[i], filter);
      if key !in m {
        m := m[key := items[i].value];
      }
    }
  }

  lemma KeyedAppend<V>(items: seq<Item<V>>, filter: bool, n: nat, k: string)
    requires n < |items|
    ensures KeyedAmong(items[..n + 1], filter, k) <==> KeyedAmong(items[..n], filter, k) || KeyFor(items[n], filter) == k
  {
    hide KeyFor;
    var longer, shorter := items[..n + 1], items[..n];
    assert forall i :: 0 <= i < n ==> longer[i] == shorter[i];
    assert longer[n] == items[n];
    if KeyedAmong(shorter, filter, k) {
      var i :| 0 <= i < |shorter| && KeyFor(shorter[i], filter) == k;
      assert KeyFor(longer[i], filter) == k;
    }
  }

  // planAutoresponders
  method PlanAutoresponders(src: seq<Item<Option<Content>>>, dest: Inventory) returns (ops: seq<Op>)
    ensures ops == ResponderOps(src, dest)
  {
    ops := [];
    assert ops == ResponderOps([], dest);
    hide *;
    var byEmail := DestByKey(dest.mail.responders, false);
    var seen: set<string> := {};
    NothingKeyed<Option<Content>>(false);
    for i := 0 to |src|
      invariant forall k :: k in seen <==> KeyedAmong(src[..i], false, k)
      invariant ops == ResponderOps(src[..i], dest)
    {
      ResponderOpsNext(src[..i + 1], dest);
      assert src[..i + 1][..i] == src[..i];
      forall k ensures KeyedAmong(src[..i + 1], false, k) <==> KeyedAmong(src[..i], false, k) || KeyFor(src[i], false) == k {
        KeyedAppend(src, false, i, k);
      }
      var addr := KeyFor(src[i], false);
      if addr !in seen {
        seen := seen + {addr};
        var op := PlanResponder(src[i], dest, if addr in byEmail then Some(byEmail[addr]) else None);
        ops := ops + [op];
      }
    }
    assert src[..|src|] == src;
  }

  lemma ResponderOpsNext(src: seq<Item<Option<Content>>>, dest: Inventory)
    requires src != []
    ensures var front, a := src[..|src| - 1], src[|src| - 1];
            ResponderOps(src, dest) ==
            ResponderOps(front, dest) + (if KeyedAmong(front, false, KeyFor(a, false)) then [] else [ResponderOp(a, dest)])
  {
    hide KeyFor, ResponderOp, KeyedAmong;
  }

  lemma NothingKeyed<V>(filter: bool)
    ensures forall k :: !KeyedAmong<V>([], filter, k)
  {
  }

  method PlanResponder(a: Item<Option<Content>>, dest: Inventory, there: Option<Option<Content>>) returns (op: Op)
    requires there == FirstKeyed(dest.mail.responders, false, KeyFor(a, false))
    ensures op == ResponderOp(a, dest)
  {
    hide Canon, SplitAddress, FirstKeyed, SameContent, Normal, Domains;
    var split := SplitAddress(a.name);
    op := NO_OP.(section := Autoresponders, key := Canon(a.name),
                 domain := if split.Some? then Lower(split.value.1) else Lower(Trim(a.scope)));
    if split.None? || a.value.None? {
      return;
    }
    if there.Some? {
      if there.value.Some? {
        if SameContent(a.value.value, there.value.value) {
          op := op.(action := Skip, content := Some(Normal(a.value.value)));
        }
      }
      return;
    }
    if op.domain in Domains(dest) {
      op := op.(action := Create, local := Lower(split.value.0), content := Some(Normal(a.value.value)));
    }
  }

  // planFilters; the section is planned only when both sides have it.
  method PlanFilters(src: seq<Item<Option<Rules>>>, dest: Inventory) returns (ops: seq<Op>)
    ensures ops == FilterOps(src, dest)
  {
    hide KeyFor, FilterOp, KeyedAmong, FirstKeyed;
    ops := [];
    var byKey := DestByKey(dest.mail.filters, true);
    var seen: set<string> := {};
    NothingKeyed<Option<Rules>>(true);
    for i := 0 to |src|
      invariant forall k :: k in seen <==> KeyedAmong(src[..i], true, k)
      invariant ops == FilterOps(src[..i], dest)
    {
      assert src[..i + 1][..i] == src[..i];
      forall k ensures KeyedAmong(src[..i + 1], true, k) <==> KeyedAmong(src[..i], true, k) || KeyFor(src[i], true) == k {
        KeyedAppend(src, true, i, k);
      }
      var key := KeyFor(src[i], true);
      if key !in seen {
        seen := seen + {key};
        var op := PlanFilter(src[i], dest, if key in byKey then Some(byKey[key]) else None);
        ops := ops + [op];
      }
    }
    assert src[..|src|] == src;
  }

  method PlanFilter(f: Item<Option<Rules>>, dest: Inventory, there: Option<Option<Rules>>) returns (op: Op)
    requires there == FirstKeyed(dest.mail.filters, true, KeyFor(f, true))
    ensures op == FilterOp(f, dest)
  {
    hide FilterKey, FirstKeyed, SameRules;
    op := NO_OP.(section := EmailFilters, key := FilterKey(f.scope, f.name));
    if f.value.None? || |f.value.value.rules| > 1 {
      return;
    }
    if there.Some? {
      if there.value.Some? {
        var same := FiltersEquivalent(f.value.value, there.value.value);
        if same {
          op := op.(action := Skip, rules := f.value);
        }
      }
      return;
    }
    op := op.(action := Create, local := f.scope, rules := f.value);
  }

  // ---------------------------------------------------------------- the whole plan

  function FiltersIn(src: Inventory, dest: Inventory): seq<Item<Option<Rules>>> {
    if src.hasFilters && dest.hasFilters then src.mail.filters else []
  }

  function AllOps(src: Inventory, dest: Inventory): seq<Op> {
    ForwardOps(src.mail.forwards, dest) + DefaultOps(src, dest) + ResponderOps(src.mail.responders, dest) +
    FilterOps(FiltersIn(src, dest), dest) + RouteOps(src, dest)
  }

  function SectionOrder(s: Section): nat {
    match s
    case Forwarders => 0
    case DefaultAddress => 1
    case Autoresponders => 2
    case EmailFilters => 3
    case EmailRouting => 4
    case OtherSection => 0
  }

  // emailOpLess, as "not after"
  predicate OpLe(a: Op, b: Op) {
    if a.section != b.section then SectionOrder(a.section) <= SectionOrder(b.section)
    else if a.domain != b.domain then StringLe(a.domain, b.domain)
    else if a.key != b.key then StringLe(a.key, b.key)
    else StringLe(a.forward, b.forward)
  }

  const LeOp: (Op, Op) -> bool := (a: Op, b: Op) => OpLe(a, b)

  function PlanOf(src: Inventory, dest: Inventory): seq<Op> { Sort(AllOps(src, dest), LeOp) }

  // BuildEmailPlan
  method BuildEmailPlan(src: Inventory, dest: Inventory) returns (ops: seq<Op>)
    ensures ops == PlanOf(src, dest)
  {
    hide ForwardOps, ResponderOps, FilterOps, DefaultOps, RouteOps, Sort;
    ops := PlanForwarders(src.mail.forwards, dest);
    var more := PlanDefaultAddresses(src, dest);
    ops := ops + more;
    more := PlanAutoresponders(src.mail.responders, dest);
    ops := ops + more;
    more := PlanFilters(FiltersIn(src, dest), dest);
    ops := ops + more;
    more := PlanRouting(src, dest);
    ops := Sort(ops + more, LeOp);
  }
}
