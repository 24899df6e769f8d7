/** The destination's email configuration, how it is looked up and how the server's write calls change it
    (internal/cpanel/email_apply.go). A section is a list of items found by first match. */
module EmailState {
  import opened Text
  import opened Sorting
  import opened EmailValues

  // `scope` is the listing an item belongs to: a domain for autoresponders, an account for filters, nothing
  // for the sections that are listed as a whole.
  datatype Item<V> = Item(scope: string, name: string, value: V)

  // Filter names compare exactly, everything else up to case and surrounding white space.
  function NameKey(name: string, fold: bool): string { if fold then Canon(name) else name }

  predicate Hits<V>(it: Item<V>, fold: bool, scope: string, name: string) {
    it.scope == scope && NameKey(it.name, fold) == NameKey(name, fold)
  }

  function Lookup<V>(items: seq<Item<V>>, fold: bool, scope: string, name: string): Option<V> {
    if items == [] then None
    else if Hits(items[0], fold, scope, name) then Some(items[0].value)
    else Lookup(items[1..], fold, scope, name)
  }

  // autoresponderFor, filterFor, routingFor, defaultFor
  method Find<V>(items: seq<Item<V>>, fold: bool, scope: string, name: string) returns (r: Option<V>)
    ensures r == Lookup(items, fold, scope, name)
  {
    hide Hits;
    for k := 0 to |items|
      invariant Lookup(items, fold, scope, name) == Lookup(items[k..], fold, scope, name)
    {
      assert items[k..][0] == items[k] && items[k..][1..] == items[k + 1..];
      if Hits(items[k], fold, scope, name) {
        return Some(items[k].value);
      }
    }
    return None;
  }

  // The first item of that name in the listing carries the value.
  ghost predicate ListedAs<V>(items: seq<Item<V>>, fold: bool, scope: string, name: string, v: V) {
    exists i :: IsFirst(items, fold, scope, name, i) && items[i].value == v
  }

  ghost predicate IsFirst<V>(items: seq<Item<V>>, fold: bool, scope: string, name: string, i: int) {
    0 <= i < |items| && Hits(items[i], fold, scope, name) && forall j :: 0 <= j < i ==> !Hits(items[j], fold, scope, name)
  }

  ghost predicate Unlisted<V>(items: seq<Item<V>>, fold: bool, scope: string, name: string) {
    forall it :: it in items ==> !Hits(it, fold, scope, name)
  }

  // What is looked up is what is listed first.
  lemma {:induction false} LookupIsFirst<V>(items: seq<Item<V>>, fold: bool, scope: string, name: string, v: V)
    ensures Lookup(items, fold, scope, name) == Some(v) <==> ListedAs(items, fold, scope, name, v)
  {
    hide Hits;
    if items != [] {
      var rest := items[1..];
      LookupIsFirst(rest, fold, scope, name, v);
      assert forall j :: 1 <= j < |items| ==> items[j] == rest[j - 1];
      if Hits(items[0], fold, scope, name) {
        assert IsFirst(items, fold, scope, name, 0);
      } else {
        if ListedAs(rest, fold, scope, name, v) {
          var i :| IsFirst(rest, fold, scope, name, i) && rest[i].value == v;
          assert IsFirst(items, fold, scope, name, i + 1);
        }
        if ListedAs(items, fold, scope, name, v) {
          var i :| IsFirst(items, fold, scope, name, i) && items[i].value == v;
          assert IsFirst(rest, fold, scope, name, i - 1);
        }
      }
    }
  }

  // A write that creates the item or overwrites the one that is found.
  function Upsert<V>(items: seq<Item<V>>, fold: bool, scope: string, name: string, v: V): seq<Item<V>> {
    if items == [] then [Item(scope, name, v)]
    else if Hits(items[0], fold, scope, name) then [items[0].(value := v)] + items[1..]
    else [items[0]] + Upsert(items[1..], fold, scope, name, v)
  }

  function Drop<V>(items: seq<Item<V>>, fold: bool, scope: string, name: string): seq<Item<V>> {
    if items == [] then []
    else (if Hits(items[0], fold, scope, name) then [] else [items[0]]) + Drop(items[1..], fold, scope, name)
  }

  lemma {:induction false} UpsertFound<V>(items: seq<Item<V>>, fold: bool, scope: string, name: string, v: V)
    ensures Lookup(Upsert(items, fold, scope, name, v), fold, scope, name) == Some(v)
  {
    if items != [] && !Hits(items[0], fold, scope, name) {
      UpsertFound(items[1..], fold, scope, name, v);
    }
  }

  lemma {:induction false} UpsertOther<V>(items: seq<Item<V>>, fold: bool, scope: string, name: string, v: V, scope2: string, name2: string)
    requires scope != scope2 || NameKey(name, fold) != NameKey(name2, fold)
    ensures Lookup(Upsert(items, fold, scope, name, v), fold, scope2, name2) == Lookup(items, fold, scope2, name2)
  {
    hide NameKey;
    if items != [] && !Hits(items[0], fold, scope, name) {
      UpsertOther(items[1..], fold, scope, name, v, scope2, name2);
    }
  }

  lemma {:induction false} UpsertAbsent<V>(items: seq<Item<V>>, fold: bool, scope: string, name: string, v: V)
    requires Lookup(items, fold, scope, name).None?
    ensures Upsert(items, fold, scope, name, v) == items + [Item(scope, name, v)]
  {
    hide Hits;
    if items != [] {
      UpsertAbsent(items[1..], fold, scope, name, v);
    }
  }

  lemma {:induction false} DropAbsent<V>(items: seq<Item<V>>, fold: bool, scope: string, name: string)
    requires Lookup(items, fold, scope, name).None?
    ensures Drop(items, fold, scope, name) == items
  {
    hide Hits;
    if items != [] {
      DropAbsent(items[1..], fold, scope, name);
    }
  }

  lemma {:induction false} DropConcat<V>(a: seq<Item<V>>, b: seq<Item<V>>, fold: bool, scope: string, name: string)
    ensures Drop(a + b, fold, scope, name) == Drop(a, fold, scope, name) + Drop(b, fold, scope, name)
  {
    hide Hits;
    if a == [] {
      assert a + b == b;
    } else {
      assert (a + b)[1..] == a[1..] + b && (a + b)[0] == a[0];
      DropConcat(a[1..], b, fold, scope, name);
      var head := if Hits(a[0], fold, scope, name) then [] else [a[0]];
      assert Drop(a, fold, scope, name) == head + Drop(a[1..], fold, scope, name);
      assert Drop(a + b, fold, scope, name) == head + (Drop(a[1..], fold, scope, name) + Drop(b, fold, scope, name));
    }
  }

  lemma {:induction false} LookupConcat<V>(a: seq<Item<V>>, b: seq<Item<V>>, fold: bool, scope: string, name: string)
    ensures Lookup(a + b, fold, scope, name)
         == if Lookup(a, fold, scope, name).Some? then Lookup(a, fold, scope, name) else Lookup(b, fold, scope, name)
  {
    hide Hits;
    if a == [] {
      assert a + b == b;
    } else {
      assert (a + b)[1..] == a[1..] + b;
      LookupConcat(a[1..], b, fold, scope, name);
    }
  }

  lemma {:induction false} LookupNone<V>(items: seq<Item<V>>, fold: bool, scope: string, name: string)
    ensures Lookup(items, fold, scope, name).None? <==> forall it :: it in items ==> !Hits(it, fold, scope, name)
  {
    hide Hits;
    if items != [] {
      LookupNone(items[1..], fold, scope, name);
      assert items == [items[0]] + items[1..];
    }
  }

  // ---------------------------------------------------------------- forwarders

  datatype Forward = Forward(domain: string, source: string, target: string)

  predicate IsPair(f: Forward, domain: string, address: string, target: string) {
    f.domain == domain && Canon(f.source) == Canon(address) && Canon(f.target) == Canon(target)
  }

  predicate PairIn(forwards: seq<Forward>, domain: string, address: string, target: string) {
    exists i :: 0 <= i < |forwards| && IsPair(forwards[i], domain, address, target)
  }

  // forwardPairPresent, ForwarderExists
  method ForwardPairPresent(forwards: seq<Forward>, domain: string, address: string, target: string) returns (r: bool)
    ensures r == PairIn(forwards, domain, address, target)
  {
    hide IsPair;
    for k := 0 to |forwards|
      invariant forall j :: 0 <= j < k ==> !IsPair(forwards[j], domain, address, target)
    {
      if IsPair(forwards[k], domain, address, target) {
        return true;
      }
    }
    return false;
  }

  // The canonical targets of an address, in listing order.
  function TargetsOf(forwards: seq<Forward>, domain: string, address: string): seq<string> {
    if forwards == [] then []
    else
      var n := |forwards| - 1;
      TargetsOf(forwards[..n], domain, address) +
      (if forwards[n].domain == domain && Canon(forwards[n].source) == Canon(address) then [Canon(forwards[n].target)] else [])
  }

  // destForwardTargets
  method DestForwardTargets(forwards: seq<Forward>, domain: string, address: string) returns (out: seq<string>)
    ensures out == SortStrings(TargetsOf(forwards, domain, address))
  {
    hide Canon;
    out := [];
    for k := 0 to |forwards|
      invariant out == TargetsOf(forwards[..k], domain, address)
    {
      assert forwards[..k + 1][..k] == forwards[..k];
      if forwards[k].domain == domain && Canon(forwards[k].source) == Canon(address) {
        out := out + [Canon(forwards[k].target)];
      }
    }
    assert forwards[..|forwards|] == forwards;
    out := SortStrings(out);
  }

  // ---------------------------------------------------------------- the account

  // A content of None stands for one that could not be read when it was listed.
  datatype Mail = Mail(forwards: seq<Forward>, defaults: seq<Item<string>>, responders: seq<Item<Option<Content>>>,
                       filters: seq<Item<Option<Rules>>>, routes: seq<Item<string>>)

  // add_forwarder: the server keeps one of equal pairs.
  function AddForward(m: Mail, domain: string, local: string, target: string): Mail {
    if PairIn(m.forwards, domain, local + "@" + domain, target) then m
    else m.(forwards := m.forwards + [Forward(domain, local + "@" + domain, target)])
  }

  // delete_forwarder
  function DeleteForward(forwards: seq<Forward>, domain: string, address: string, target: string): seq<Forward> {
    if forwards == [] then []
    else (if IsPair(forwards[0], domain, address, target) then [] else [forwards[0]]) +
         DeleteForward(forwards[1..], domain, address, target)
  }

  // set_default_address
  function SetDefault(m: Mail, domain: string, value: string, tail: string): Mail {
    m.(defaults := Upsert(m.defaults, true, "", domain, Stored(value, tail)))
  }

  // add_auto_responder
  function AddResponder(m: Mail, domain: string, local: string, c: Content): Mail {
    m.(responders := Upsert(m.responders, true, domain, local + "@" + domain, Some(Normal(c))))
  }

  // store_filter
  function StoreFilter(m: Mail, account: string, name: string, r: Rules): Mail {
    m.(filters := Upsert(m.filters, false, account, name, Some(StoredRules(r))))
  }

  // setmxcheck
  function SetRoute(m: Mail, domain: string, mode: string): Mail {
    m.(routes := Upsert(m.routes, true, "", domain, mode))
  }

  // ---------------------------------------------------------------- re-listing

  // What a re-list saw, and which listings failed.
  datatype Live = Live(mail: Mail, noForwards: set<string>, noDefaults: bool, noResponders: set<string>,
                       noFilters: set<string>, noRoutes: bool)

  function Blinded<V>(items: seq<Item<Option<V>>>, blind: set<string>): (r: seq<Item<Option<V>>>)
    ensures |r| == |items|
  {
    seq(|items|, i requires 0 <= i < |items| => if items[i].name in blind then items[i].(value := None) else items[i])
  }

  // A listing in which the contents of some items could not be read.
  function Seen(m: Mail, blind: set<string>): Mail {
    m.(responders := Blinded(m.responders, blind), filters := Blinded(m.filters, blind))
  }

  function Listed(m: Mail, blind: set<string>): Live { Live(Seen(m, blind), {}, false, {}, {}, false) }

  lemma {:induction false} BlindedLookup<V>(items: seq<Item<Option<V>>>, blind: set<string>, fold: bool, scope: string, name: string)
    ensures Lookup(Blinded(items, blind), fold, scope, name).Some? <==> Lookup(items, fold, scope, name).Some?
    ensures var l := Lookup(Blinded(items, blind), fold, scope, name);
            l.Some? && l.value.Some? ==> Lookup(items, fold, scope, name) == l
  {
    hide NameKey;
    if items != [] {
      assert Blinded(items, blind)[1..] == Blinded(items[1..], blind);
      BlindedLookup(items[1..], blind, fold, scope, name);
    }
  }

  lemma NothingBlind(m: Mail)
    ensures Seen(m, {}) == m
  {
    assert Blinded(m.responders, {}) == m.responders;
    assert Blinded(m.filters, {}) == m.filters;
  }
}
