/** Addresses, default-address values and content equality: the comparisons of
    internal/accountinventory/emailplan.go that planning, applying and verifying share. */
module EmailValues {
  import opened Text

  // canonEmailAddr
  function Canon(s: string): string { Lower(Trim(s)) }

  // splitEmailAddr
  function SplitAddress(s: string): Option<(string, string)> {
    var t := Trim(s);
    var i := IndexOf(t, '@');
    if i == 0 || i + 1 >= |t| || '@' in t[i + 1..] then None else Some((t[..i], t[i + 1..]))
  }

  // isSimpleForwardTarget
  predicate SimpleTarget(s: string) {
    var t := Trim(s);
    && t != "" && !(exists c :: c in t && c in ", \t|") && t[0] != ':' && t[0] != '/'
    && SplitAddress(t).Some? && '.' in SplitAddress(t).value.1
  }

  // A simple target is one address, of two parts without white space around them, a comma or a pipe, whose domain
  // has a dot, and no file, pipe or system form.
  lemma SimpleTargetMeans(s: string)
    ensures SimpleTarget(s) <==>
      exists local, domain :: IsTarget(Trim(s), local, domain)
  {
    hide Trim, IndexOf;
    var t := Trim(s);
    if SimpleTarget(s) {
      SplitParts(s);
      var p := SplitAddress(s).value;
      assert '@' !in p.0;
      assert forall c :: c in t <==> c in p.0 || c == '@' || c in p.1;
      assert IsTarget(t, p.0, p.1);
    }
    if exists local, domain :: IsTarget(t, local, domain) {
      var local, domain :| IsTarget(t, local, domain);
      IndexAt(local, '@', domain);
      assert t[..|local|] == local && t[|local| + 1..] == domain;
    }
  }

  ghost predicate IsTarget(t: string, local: string, domain: string) {
    && t == local + ['@'] + domain && local != "" && domain != "" && '@' !in local && '@' !in domain && '.' in domain
    && (forall c :: c in local || c in domain ==> c != ',' && c != ' ' && c != '\t' && c != '|')
    && local[0] != ':' && local[0] != '/'
  }

  // Lower-casing the two halves of an address puts together its canonical form.
  lemma SplitJoins(s: string)
    requires SplitAddress(s).Some?
    ensures Lower(SplitAddress(s).value.0) + "@" + Lower(SplitAddress(s).value.1) == Canon(s)
  {
    hide Lower, SplitAddress;
    var p := SplitAddress(s).value;
    SplitParts(s);
    LowerConcat(p.0 + "@", p.1);
    LowerConcat(p.0, "@");
    assert Lower("@") == "@" by { LowerAt(); }
  }

  lemma LowerAt()
    ensures Lower("@") == "@"
  {
  }

  lemma SplitParts(s: string)
    requires SplitAddress(s).Some?
    ensures Trim(s) == SplitAddress(s).value.0 + "@" + SplitAddress(s).value.1
  {
    hide IndexOf, Trim;
  }

  // A canonical form is its own, and that of the text without its surrounding white space.
  lemma CanonTwice(s: string)
    ensures Tight(Canon(s)) && Canon(Canon(s)) == Canon(s) && Canon(Trim(s)) == Canon(s)
    ensures Tight(s) ==> Canon(s) == Lower(s) && Canon(Lower(s)) == Lower(s)
  {
    hide Trim;
    assert Tight(Canon(s));
    LowerIdempotent(Trim(s));
  }

  // ---------------------------------------------------------------- default-address values

  datatype ValueClass = FailClass | BlackholeClass | AccountDefault | AddressClass | OtherClass

  // classifyDefaultValue
  function ClassOf(v: string, user: string): ValueClass {
    var t := Trim(v);
    if StartsWith(t, ":fail:") then FailClass
    else if StartsWith(t, ":blackhole:") then BlackholeClass
    else if t == user then AccountDefault
    else if SimpleTarget(t) then AddressClass
    else OtherClass
  }

  predicate SystemOrAccount(c: ValueClass) { c.FailClass? || c.BlackholeClass? || c.AccountDefault? }

  // defaultsEquivalent
  predicate Equivalent(src: string, dest: string, srcUser: string, destUser: string) {
    Trim(src) == Trim(dest) || (ClassOf(src, srcUser) == ClassOf(dest, destUser) && SystemOrAccount(ClassOf(src, srcUser)))
  }

  // isFreshDefault
  predicate FreshDefault(v: string, user: string) { SystemOrAccount(ClassOf(v, user)) }

  // What a value does, whatever the wording of a system form.
  datatype Effect = Fails | Discards | DeliversTo(target: string)

  function EffectOf(v: string): Effect {
    var t := Trim(v);
    if StartsWith(t, ":fail:") then Fails else if StartsWith(t, ":blackhole:") then Discards else DeliversTo(t)
  }

  // Within one account the comparison is the equality of effects, so an equivalence; across two accounts it
  // also identifies the two account defaults.
  lemma EquivalentIsSameEffect(a: string, b: string, userA: string, userB: string)
    ensures Equivalent(a, b, userA, userB) <==>
      EffectOf(a) == EffectOf(b) || (ClassOf(a, userA) == AccountDefault && ClassOf(b, userB) == AccountDefault)
    ensures userA == userB ==> (Equivalent(a, b, userA, userB) <==> EffectOf(a) == EffectOf(b))
  {
    hide SimpleTarget, Trim;
  }

  // What the server stores for a written value: the wording after a system form is its own.
  function Stored(v: string, tail: string): string {
    var t := Trim(v);
    if StartsWith(t, ":fail:") then ":fail:" + tail else if StartsWith(t, ":blackhole:") then ":blackhole:" + tail else t
  }

  lemma StoredKeepsEffect(v: string, tail: string)
    ensures EffectOf(Stored(v, tail)) == EffectOf(v)
  {
    hide Trim;
    if !EffectOf(v).DeliversTo? {
      SystemFormStays(":fail:", tail);
      SystemFormStays(":blackhole:", tail);
    }
  }

  lemma SystemFormStays(form: string, tail: string)
    requires form != "" && !IsSpace(form[0]) && !IsSpace(form[|form| - 1])
    ensures StartsWith(Trim(form + tail), form)
  {
    var t := form + tail;
    assert TrimLeft(t) == t;
    TrimRightKeeps(form, tail);
  }

  lemma {:induction false} TrimRightKeeps(form: string, tail: string)
    requires form != "" && !IsSpace(form[|form| - 1])
    ensures StartsWith(TrimRight(form + tail), form)
  {
    if tail == "" {
      assert form + tail == form;
    } else if IsSpace(tail[|tail| - 1]) {
      assert (form + tail)[..|form + tail| - 1] == form + tail[..|tail| - 1];
      TrimRightKeeps(form, tail[..|tail| - 1]);
    }
  }

  // ---------------------------------------------------------------- autoresponder content

  datatype Content = Content(from: string, subject: string, body: string, isHtml: int, interval: int,
                             start: int, stop: int, charset: string)

  function TrimNewlines(s: string): (r: string)
    ensures r == "" || r[|r| - 1] != '\n'
  {
    if s == "" || s[|s| - 1] != '\n' then s else TrimNewlines(s[..|s| - 1])
  }

  // normalizeAutoresponderBody
  function NormalBody(b: string): string { TrimNewlines(b) + "\n" }

  // autoresponderCharset
  function NormalCharset(c: string): string { if Canon(c) == "" then "utf-8" else Canon(c) }

  // A content with its body and charset in stored form.
  function Normal(c: Content): Content { c.(body := NormalBody(c.body), charset := NormalCharset(c.charset)) }

  // autorespondersEquivalent
  predicate SameContent(a: Content, b: Content) {
    && a.subject == b.subject && a.from == b.from && NormalBody(a.body) == NormalBody(b.body)
    && a.isHtml == b.isHtml && a.interval == b.interval && a.start == b.start && a.stop == b.stop
    && NormalCharset(a.charset) == NormalCharset(b.charset)
  }

  lemma SameContentIsSameNormal(a: Content, b: Content)
    ensures SameContent(a, b) <==> Normal(a) == Normal(b)
    ensures Normal(Normal(a)) == Normal(a)
  {
    hide NormalBody, NormalCharset;
    NormalBodyTwice(a.body);
    NormalCharsetTwice(a.charset);
  }

  // Stored form: a body ends in one line end whatever it ended in, and no charset is the default one.
  lemma NormalMeans(c: Content)
    ensures Normal(c.(charset := "")) == Normal(c.(charset := "utf-8"))
    ensures Normal(c).body != "" && Normal(c).body[|Normal(c).body| - 1] == '\n'
    ensures |Normal(c).body| > 1 ==> Normal(c).body[|Normal(c).body| - 2] != '\n'
    ensures Normal(c.(body := c.body + "\n")) == Normal(c)
    ensures Normal(c).charset == if Canon(c.charset) == "" then "utf-8" else Canon(c.charset)
  {
    hide Trim;
    assert Canon("") == "" && Canon("utf-8") == "utf-8" by { assert Lower("utf-8") == "utf-8" && Lower("") == ""; }
    assert (c.body + "\n")[..|c.body|] == c.body;
    assert TrimNewlines(c.body + "\n") == TrimNewlines(c.body);
  }

  lemma NormalBodyTwice(b: string)
    ensures NormalBody(NormalBody(b)) == NormalBody(b)
  {
    hide TrimNewlines;
    NormalBodyStays(TrimNewlines(b));
  }

  lemma NormalCharsetTwice(c: string)
    ensures NormalCharset(NormalCharset(c)) == NormalCharset(c)
  {
    CanonTwice(c);
    assert Canon("utf-8") == "utf-8" by { assert Lower("utf-8") == "utf-8"; }
  }

  lemma NormalBodyStays(s: string)
    requires s == "" || s[|s| - 1] != '\n'
    ensures TrimNewlines(s + "\n") == s
  {
    assert (s + "\n")[..|s|] == s;
    assert TrimNewlines(s + "\n") == TrimNewlines(s);
  }

  // ---------------------------------------------------------------- filter content

  datatype Rule = Rule(part: string, matching: string, val: string)

  datatype FilterAction = FilterAction(action: string, dest: Option<string>)

  datatype Rules = Rules(rules: seq<Rule>, actions: seq<FilterAction>)

  // A missing destination and an empty one are the same.
  function DestOf(a: FilterAction): string { match a.dest case None => "" case Some(d) => d }

  // filtersEquivalent
  predicate SameRules(a: Rules, b: Rules) {
    && |a.rules| == |b.rules| && |a.actions| == |b.actions|
    && (forall i :: 0 <= i < |a.rules| ==> a.rules[i] == b.rules[i])
    && (forall i :: 0 <= i < |a.actions| ==> a.actions[i].action == b.actions[i].action && DestOf(a.actions[i]) == DestOf(b.actions[i]))
  }

  method FiltersEquivalent(a: Rules, b: Rules) returns (same: bool)
    ensures same == SameRules(a, b)
  {
    if |a.rules| != |b.rules| || |a.actions| != |b.actions| {
      return false;
    }
    for i := 0 to |a.rules|
      invariant forall j :: 0 <= j < i ==> a.rules[j] == b.rules[j]
    {
      if a.rules[i] != b.rules[i] {
        return false;
      }
    }
    for i := 0 to |a.actions|
      invariant forall j :: 0 <= j < i ==> a.actions[j].action == b.actions[j].action && DestOf(a.actions[j]) == DestOf(b.actions[j])
    {
      if a.actions[i].action != b.actions[i].action || DestOf(a.actions[i]) != DestOf(b.actions[i]) {
        return false;
      }
    }
    return true;
  }

  // What store_filter keeps: an empty destination is not sent.
  function StoredRules(r: Rules): (s: Rules)
    ensures SameRules(r, s)
  {
    Rules(r.rules, seq(|r.actions|, i requires 0 <= i < |r.actions| =>
      FilterAction(r.actions[i].action, if DestOf(r.actions[i]) == "" then None else r.actions[i].dest)))
  }

  // ---------------------------------------------------------------- filter keys

  const ACCOUNT_LEVEL := "(account-level)"

  // filterKey
  function FilterKey(account: string, name: string): string {
    (if account == "" then ACCOUNT_LEVEL else account) + "/" + name
  }

  // splitFilterKey
  function SplitFilterKey(key: string): (string, string) {
    var i := IndexOf(key, '/');
    if i == |key| then ("", key)
    else (if key[..i] == ACCOUNT_LEVEL then "" else key[..i], key[i + 1..])
  }

  // The key of a filter splits back into it exactly when its account has no slash and is not the text that
  // stands for the account level.
  lemma FilterKeyRoundTrip(account: string, name: string)
    ensures SplitFilterKey(FilterKey(account, name)) == (account, name) <==> '/' !in account && account != ACCOUNT_LEVEL
  {
    hide IndexOf;
    var a := if account == "" then ACCOUNT_LEVEL else account;
    var key := a + "/" + name;
    IndexIn(a, '/', name);
    var i := IndexOf(a, '/');
    if '/' !in a {
      assert key[..i] == a && key[i + 1..] == name;
    } else {
      assert i < |a| by {
        assert a[..|a|] == a;
      }
      assert |SplitFilterKey(key).1| == |key| - i - 1;
    }
  }

  // A key without a slash names a filter of the account itself.
  lemma PlainFilterKey(key: string)
    requires '/' !in key
    ensures SplitFilterKey(key) == ("", key) && SplitFilterKey(ACCOUNT_LEVEL + "/" + key) == ("", key)
  {
    hide IndexOf;
    assert IndexOf(key, '/') == |key|;
    FilterKeyRoundTrip("", key);
  }
}
