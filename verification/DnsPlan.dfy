/** The offline planner: internal/accountinventory/dnsplan.go. */
module DnsPlan {
  import opened Text
  import opened Sorting
  import opened DnsNames
  import opened DnsText
  import opened DnsZone
  import opened DnsPrecondition

  // What a zone is planned with: its name, the canonical form of an address, and the address map with
  // both sides in that form.
  datatype Context = Context(zone: string, ip: string -> string, ipMap: map<string, string>)

  // A parsed address prints as itself, and so does the fallback for text that is no address.
  ghost predicate Sound(c: Context) {
    ZoneName(c.zone) && "" !in c.ipMap && forall a :: c.ip(c.ip(a)) == c.ip(a)
  }

  // rrsetKey of a record
  function SetKey(r: Record, c: Context): Key {
    Key(Upper(r.typ), PlanName(r.name, c.zone))
  }

  function Group(records: seq<Record>, k: Key, c: Context): seq<Record> {
    if records == [] then []
    else
      var n := |records| - 1;
      Group(records[..n], k, c) + (if SetKey(records[n], c) == k then [records[n]] else [])
  }

  function Keys(records: seq<Record>, c: Context): set<Key> {
    set r | r in records :: SetKey(r, c)
  }

  function MailValue(priority: nat, exchange: string): string {
    Itoa(priority) + "\0" + exchange
  }

  // planValue
  function PlanValue(r: Record, c: Context): string {
    if r.typ == "A" || r.typ == "AAAA" then c.ip(r.address)
    else if r.typ == "CNAME" || r.typ == "NS" then PlanName(r.target, c.zone)
    else if r.typ == "MX" then MailValue(r.priority, PlanName(r.exchange, c.zone))
    else if r.typ == "TXT" then r.txt
    else r.value
  }

  function Values(records: seq<Record>, c: Context): seq<string> {
    seq(|records|, i requires 0 <= i < |records| => PlanValue(records[i], c))
  }

  function SortedValues(records: seq<Record>, c: Context): seq<string> {
    SortStrings(Values(records, c))
  }

  function LeftmostLabel(name: string): string {
    if name == "" || name[0] == '.' then "" else [name[0]] + LeftmostLabel(name[1..])
  }

  predicate IsHostValidation(name: string) {
    LeftmostLabel(name) in {"_acme-challenge", "_cpanel-dcv-test-record"}
  }

  const TTL_CAP := 3600

  function CappedTTL(ttl: int): int {
    if ttl <= 0 || ttl > TTL_CAP then TTL_CAP else ttl
  }

  // ---------------------------------------------------------------- translation

  // translateRecords on one record: what is written for it and the value it stands for; None if its
  // address is not mapped.
  datatype Translated = Translated(record: PlanRecord, value: string)

  function Translate(r: Record, typ: string, c: Context): Option<Translated> {
    var rec := PlanRecord(PlanName(r.name, c.zone), typ, CappedTTL(r.ttl), []);
    if typ == "A" || typ == "AAAA" then
      if c.ip(r.address) in c.ipMap then
        var to := c.ip(c.ipMap[c.ip(r.address)]);
        Some(Translated(rec.(data := [to]), to))
      else None
    else if typ == "CNAME" then
      var t := PlanName(r.target, c.zone);
      Some(Translated(rec.(data := [t]), t))
    else if typ == "MX" then
      var ex := PlanName(r.exchange, c.zone);
      Some(Translated(rec.(data := [Itoa(r.priority), ex]), MailValue(r.priority, ex)))
    else if typ == "TXT" then Some(Translated(rec.(data := Segments(r.txt)), r.txt))
    else Some(Translated(rec, ""))
  }

  predicate AllMapped(records: seq<Record>, typ: string, c: Context) {
    forall i :: 0 <= i < |records| ==> Translate(records[i], typ, c).Some?
  }

  function TranslateAll(records: seq<Record>, typ: string, c: Context): (r: seq<Translated>)
    requires AllMapped(records, typ, c)
  {
    seq(|records|, i requires 0 <= i < |records| => Translate(records[i], typ, c).value)
  }

  function TranslatedValues(ts: seq<Translated>): seq<string> {
    seq(|ts|, i requires 0 <= i < |ts| => ts[i].value)
  }

  function TranslatedRecords(ts: seq<Translated>): seq<PlanRecord> {
    seq(|ts|, i requires 0 <= i < |ts| => ts[i].record)
  }

  predicate HasAt(s: string, i: nat, sub: string) {
    i + |sub| <= |s| && s[i..i + |sub|] == sub
  }

  // strings.Contains
  predicate Contains(s: string, sub: string) {
    exists i :: 0 <= i <= |s| && HasAt(s, i, sub)
  }

  // A TXT value mentions a mapped address.
  predicate Mentions(records: seq<Record>, c: Context) {
    exists i, from :: 0 <= i < |records| && from in c.ipMap && Contains(records[i].txt, from)
  }

  // translateTXTValues
  function SubstitutedValues(records: seq<Record>, c: Context): seq<string> {
    SortStrings(seq(|records|, i requires 0 <= i < |records| => Substituted(records[i].txt, c.ipMap)))
  }

  function DataText(data: seq<string>): string {
    if data == [] then "" else if |data| == 1 then data[0] else data[0] + "\0" + DataText(data[1..])
  }

  const ByData: (PlanRecord, PlanRecord) -> bool := (a: PlanRecord, b: PlanRecord) => StringLe(DataText(a.data), DataText(b.data))

  // ---------------------------------------------------------------- classification

  // classify: the decision for one source rrset. `dest` is the destination's rrset under the same key.
  function Classify(k: Key, records: seq<Record>, dest: seq<Record>, conflict: bool, c: Context): (op: PlanOp)
    ensures op.typ == k.typ && op.name == k.name
  {
    var op := PlanOp(Manual, k.typ, k.name, [], SortedValues(dest, c));
    if k.typ == "SOA" || IsHostValidation(k.name) then op.(action := Skip)
    else if k.typ == "NS" then
      if dest != [] && SortedValues(records, c) == SortedValues(dest, c) then op.(action := Skip) else op
    else if !Writable(k.typ) || conflict || !AllMapped(records, k.typ, c) then op
    else if k.typ == "TXT" && exists i :: 0 <= i < |records| && !ValidUtf8(records[i].txt) then op
    else if k.typ == "TXT" && Mentions(records, c) then
      if dest != [] && SubstitutedValues(records, c) == SortedValues(dest, c) then op.(action := Skip) else op
    else
      var ts := TranslateAll(records, k.typ, c);
      if dest != [] && SortStrings(TranslatedValues(ts)) == SortedValues(dest, c) then op.(action := Skip)
      else
        op.(action := if dest != [] then Replace else Add, records := Sort(TranslatedRecords(ts), ByData))
  }

  // What is written for a record says what the record said, except that an address becomes the one it is mapped
  // to; its TTL lies between 1 and an hour, and is the record's own where that does.
  lemma TranslationMeaning(r: Record, typ: string, c: Context)
    requires Writable(typ) && r.typ == typ && Translate(r, typ, c).Some?
    ensures var t := Translate(r, typ, c).value;
            && t.value == (if typ == "A" || typ == "AAAA" then c.ip(c.ipMap[PlanValue(r, c)]) else PlanValue(r, c))
            && 0 < t.record.ttl <= TTL_CAP && (0 < r.ttl <= TTL_CAP ==> t.record.ttl == r.ttl)
  {
    hide PlanName, Itoa, Segments;
  }

  // A TXT record is written in segments of valid text, at most 255 bytes each, that join to the record's text.
  lemma TextIsWrittenWhole(r: Record, c: Context)
    requires ValidUtf8(r.txt)
    ensures var data := Translate(r, "TXT", c).value.record.data;
            Join(data) == r.txt && forall i :: 0 <= i < |data| ==> |data[i]| <= SEGMENT && ValidUtf8(data[i])
  {
    hide Segments, Join, ValidUtf8, PlanName;
    SegmentsRejoin(r.txt);
    SegmentsOfValidText(r.txt);
  }

  // The rrsets a plan writes: of a type the tool round-trips, not a host's own validation record, alone with any
  // CNAME, every address mapped, every text valid and free of mapped addresses, and not on the destination yet.
  lemma WritesExactly(k: Key, records: seq<Record>, dest: seq<Record>, conflict: bool, c: Context)
    ensures var op := Classify(k, records, dest, conflict, c);
            (op.action == Add || op.action == Replace) <==>
              && Writable(k.typ) && !IsHostValidation(k.name) && !conflict && AllMapped(records, k.typ, c)
              && (k.typ == "TXT" ==> !Mentions(records, c) && forall r :: r in records ==> ValidUtf8(r.txt))
              && (dest == [] || multiset(TranslatedValues(TranslateAll(records, k.typ, c))) != multiset(Values(dest, c)))
  {
    hide Translate, Mentions, Sort, ByData, SubstitutedValues, ValidUtf8, IsHostValidation, AllMapped, PlanValue;
    if AllMapped(records, k.typ, c) {
      SortStringsEqual(TranslatedValues(TranslateAll(records, k.typ, c)), Values(dest, c));
    }
    assert (exists i :: 0 <= i < |records| && !ValidUtf8(records[i].txt)) <==> !(forall r :: r in records ==> ValidUtf8(r.txt));
  }

  // What is written holds every translated record, by their data bytewise; nothing is where nothing is written.
  lemma WrittenInOrder(k: Key, records: seq<Record>, dest: seq<Record>, conflict: bool, c: Context)
    ensures var op := Classify(k, records, dest, conflict, c);
            if op.action == Add || op.action == Replace
            then AllMapped(records, k.typ, c) && multiset(op.records) == multiset(TranslatedRecords(TranslateAll(records, k.typ, c)))
                 && forall i, j :: 0 <= i < j < |op.records| ==> StringLe(DataText(op.records[i].data), DataText(op.records[j].data))
            else op.records == []
  {
    hide Translate, Mentions, Sort, SubstitutedValues, ValidUtf8, IsHostValidation, AllMapped, PlanValue, StringLe, DataText, SortedValues;
    DataRanks();
    if AllMapped(records, k.typ, c) {
      var s := TranslatedRecords(TranslateAll(records, k.typ, c));
      SortSorts(s, ByData);
      var op := Classify(k, records, dest, conflict, c);
      forall i, j | 0 <= i < j < |op.records| ensures StringLe(DataText(op.records[i].data), DataText(op.records[j].data)) {
        assert ByData(op.records[i], op.records[j]);
      }
    }
  }

  lemma DataRanks()
    ensures Ranking(ByData)
  {
    hide DataText, StringLe;
    LeStringTotalOrder();
    forall a: PlanRecord, b: PlanRecord, d: PlanRecord ensures ByData(a, b) || ByData(b, a) ensures ByData(a, b) && ByData(b, d) ==> ByData(a, d) {
      var x, y, z := DataText(a.data), DataText(b.data), DataText(d.data);
      assert (LeString(x, y) || LeString(y, x)) && (LeString(x, y) && LeString(y, z) ==> LeString(x, z));
    }
  }

  // Every address of the rrset is mapped; other types have none.
  predicate Addressed(k: Key, records: seq<Record>, c: Context) {
    k.typ == "A" || k.typ == "AAAA" ==> forall r :: r in records ==> c.ip(r.address) in c.ipMap
  }

  // The rrset is one the tool may write, its texts being valid.
  predicate Importable(k: Key, records: seq<Record>, conflict: bool, c: Context) {
    && Writable(k.typ) && !IsHostValidation(k.name) && !conflict && Addressed(k, records, c)
    && (k.typ == "TXT" ==> forall r :: r in records ==> ValidUtf8(r.txt))
  }

  // The destination holds what the source means: the same delegation, the texts with every mapped address
  // substituted, or the translated values.
  ghost predicate Matches(k: Key, records: seq<Record>, dest: seq<Record>, c: Context) {
    dest != [] && multiset(Values(dest, c)) ==
      if k.typ == "NS" then multiset(Values(records, c))
      else if k.typ == "TXT" && Mentions(records, c)
      then multiset(seq(|records|, i requires 0 <= i < |records| => Substituted(records[i].txt, c.ipMap)))
      else multiset(seq(|records|, i requires 0 <= i < |records| => Meant(records[i], k.typ, c)))
  }

  // What a record of a written type is to say on the destination.
  function Meant(r: Record, typ: string, c: Context): string {
    if typ == "A" || typ == "AAAA" then if c.ip(r.address) in c.ipMap then c.ip(c.ipMap[c.ip(r.address)]) else ""
    else if typ == "CNAME" then PlanName(r.target, c.zone)
    else if typ == "MX" then MailValue(r.priority, PlanName(r.exchange, c.zone))
    else if typ == "TXT" then r.txt else ""
  }

  lemma AllMappedIs(k: Key, records: seq<Record>, c: Context)
    ensures AllMapped(records, k.typ, c) <==> Addressed(k, records, c)
    ensures AllMapped(records, k.typ, c) ==>
              TranslatedValues(TranslateAll(records, k.typ, c)) == seq(|records|, i requires 0 <= i < |records| => Meant(records[i], k.typ, c))
  {
    hide PlanName, MailValue, Segments, CappedTTL;
    if AllMapped(records, k.typ, c) {
      forall r | r in records && (k.typ == "A" || k.typ == "AAAA") ensures c.ip(r.address) in c.ipMap {
        var i :| 0 <= i < |records| && records[i] == r;
        assert Translate(records[i], k.typ, c).Some?;
      }
    }
  }

  // Which rrsets a plan skips, and which it leaves to a human: the rest of those it does not write.
  lemma SkipsExactly(k: Key, records: seq<Record>, dest: seq<Record>, conflict: bool, c: Context)
    ensures var action := Classify(k, records, dest, conflict, c).action;
            var served := k.typ == "SOA" || IsHostValidation(k.name);
            && (action == Skip <==> served || ((k.typ == "NS" || Importable(k, records, conflict, c)) && Matches(k, records, dest, c)))
            && (action == Manual <==>
                  (!served && !(k.typ == "NS" && Matches(k, records, dest, c))
                   && (!Importable(k, records, conflict, c) || (k.typ == "TXT" && Mentions(records, c) && !Matches(k, records, dest, c)))))
  {
    hide Translate, Mentions, Sort, ByData, ValidUtf8, IsHostValidation, AllMapped, PlanValue, Meant, Substituted, Addressed, SortStrings;
    AllMappedIs(k, records, c);
    SortStringsEqual(Values(records, c), Values(dest, c));
    SortStringsEqual(seq(|records|, i requires 0 <= i < |records| => Substituted(records[i].txt, c.ipMap)), Values(dest, c));
    if AllMapped(records, k.typ, c) {
      SortStringsEqual(TranslatedValues(TranslateAll(records, k.typ, c)), Values(dest, c));
    }
    assert (exists i :: 0 <= i < |records| && !ValidUtf8(records[i].txt)) <==> !(forall r :: r in records ==> ValidUtf8(r.txt));
  }

  // A name is a host's own validation record exactly when its first label is one of the two.
  lemma HostValidationIs(name: string)
    ensures IsHostValidation(name) <==>
      StartsLabel(name, "_acme-challenge") || StartsLabel(name, "_cpanel-dcv-test-record")
  {
    hide LeftmostLabel, StartsLabel;
    LabelIs(name, "_acme-challenge");
    LabelIs(name, "_cpanel-dcv-test-record");
  }

  predicate StartsLabel(name: string, l: string) { name == l || (|l| < |name| && name[..|l|] == l && name[|l|] == '.') }

  lemma {:induction false} LabelIs(name: string, l: string)
    requires '.' !in l
    ensures LeftmostLabel(name) == l <==> StartsLabel(name, l)
  {
    if name != "" && l != "" {
      LabelIs(name[1..], l[1..]);
      assert l == [l[0]] + l[1..];
      assert StartsLabel(name, l) <==> name[0] == l[0] && StartsLabel(name[1..], l[1..]) by {
        assert name == [name[0]] + name[1..];
        assert |l| <= |name| ==> name[..|l|] == [name[0]] + name[1..][..|l| - 1];
      }
    }
  }

  // A CNAME shares the name with another type, on either side.
  predicate Conflict(k: Key, keys: set<Key>) {
    Key("CNAME", k.name) in keys && exists o :: o in keys && o.name == k.name && o.typ != k.typ
  }

  // It is one exactly where the name, as it stands on the two sides together, breaks the rule for CNAMEs.
  lemma ConflictIsExact(k: Key, keys: set<Key>)
    requires k in keys
    ensures Conflict(k, keys) <==> !CnamesAlone(set o | o in keys && o.name == k.name)
  {
    var there := set o | o in keys && o.name == k.name;
    if !CnamesAlone(there) {
      var a, o :| a in there && o in there && a.name == o.name && a.typ == "CNAME" && o.typ != "CNAME";
      assert a == Key("CNAME", k.name);
    }
  }

  // No CNAME shares its name with another type (section 3.6.2 of RFC 1034, section 10.1 of RFC 2181).
  ghost predicate CnamesAlone(keys: set<Key>) {
    forall k, o :: k in keys && o in keys && k.name == o.name && k.typ == "CNAME" ==> o.typ == "CNAME"
  }

  function OpFor(k: Key, src: seq<Record>, dest: seq<Record>, c: Context): (op: PlanOp)
    ensures op.typ == k.typ && op.name == k.name
  {
    Classify(k, Group(src, k, c), Group(dest, k, c), Conflict(k, Keys(src, c) + Keys(dest, c)), c)
  }

  // A destination-only rrset, listed for a human.
  datatype Info = Info(typ: string, name: string, values: seq<string>)

  function InfoFor(k: Key, dest: seq<Record>, c: Context): (info: Info)
    ensures info.typ == k.typ && info.name == k.name
  {
    Info(k.typ, k.name, SortedValues(Group(dest, k, c), c))
  }

  // ---------------------------------------------------------------- one zone

  predicate KeyLe(a: Key, b: Key) {
    if a.name != b.name then StringLe(a.name, b.name) else StringLe(a.typ, b.typ)
  }

  const LeKey: (Key, Key) -> bool := (a, b) => KeyLe(a, b)

  lemma LeKeyTotalOrder()
    ensures TotalOrder(LeKey)
  {
    LeStringTotalOrder();
    forall a, b, c ensures LeKey(a, b) || LeKey(b, a)
      ensures LeKey(a, b) && LeKey(b, a) ==> a == b
      ensures LeKey(a, b) && LeKey(b, c) ==> LeKey(a, c)
    {
      assert LeString(a.name, b.name) || LeString(b.name, a.name);
      assert LeString(a.name, b.name) && LeString(b.name, a.name) ==> a.name == b.name;
      assert LeString(a.name, b.name) && LeString(b.name, c.name) ==> LeString(a.name, c.name);
      assert LeString(a.typ, b.typ) || LeString(b.typ, a.typ);
      assert LeString(a.typ, b.typ) && LeString(b.typ, a.typ) ==> a.typ == b.typ;
      assert LeString(a.typ, b.typ) && LeString(b.typ, c.typ) ==> LeString(a.typ, c.typ);
    }
  }

  // The keys of a set in plan order.
  ghost function Ordered(keys: set<Key>): (r: seq<Key>)
    ensures multiset(r) == multiset(keys)
  {
    if keys == {} then []
    else
      var k :| k in keys;
      Insert(k, Ordered(keys - {k}), LeKey)
  }

  lemma {:induction false} InsertKeepsOrder(s: seq<Key>, keys: set<Key>)
    requires multiset(s) == multiset(keys)
    ensures Sort(s, LeKey) == Ordered(keys)
  {
    LeKeyTotalOrder();
    OrderedSorted(keys);
    SortSorts(s, LeKey);
    SortedUnique(Sort(s, LeKey), Ordered(keys), LeKey);
  }

  lemma {:induction false} OrderedSorted(keys: set<Key>)
    ensures Sorted(Ordered(keys), LeKey)
  {
    LeKeyTotalOrder();
    if keys != {} {
      var k :| k in keys && Ordered(keys) == Insert(k, Ordered(keys - {k}), LeKey);
      OrderedSorted(keys - {k});
      InsertSorted(k, Ordered(keys - {k}), LeKey);
    }
  }

  // Sorting what was computed for the keys is computing it for the sorted keys.
  lemma {:induction false} InsertMapped<T>(k: Key, keys: seq<Key>, f: Key -> T, le: (T, T) -> bool)
    requires forall a, b :: le(f(a), f(b)) == LeKey(a, b)
    ensures Insert(f(k), Mapped(keys, f), le) == Mapped(Insert(k, keys, LeKey), f)
  {
    hide Mapped;
    if keys == [] || LeKey(k, keys[0]) {
      MappedCons(k, keys, f);
    } else {
      MappedCons(keys[0], keys[1..], f);
      MappedCons(keys[0], Insert(k, keys[1..], LeKey), f);
      InsertMapped(k, keys[1..], f, le);
      assert [keys[0]] + keys[1..] == keys && Mapped(keys, f)[1..] == Mapped(keys[1..], f);
    }
  }

  lemma MappedCons<T>(k: Key, keys: seq<Key>, f: Key -> T)
    ensures Mapped([k] + keys, f) == [f(k)] + Mapped(keys, f)
  {
    hide Mapped;
  }

  function Mapped<T>(keys: seq<Key>, f: Key -> T): (r: seq<T>)
    ensures |r| == |keys| && forall i :: 0 <= i < |keys| ==> r[i] == f(keys[i])
  {
    seq(|keys|, i requires 0 <= i < |keys| => f(keys[i]))
  }

  lemma {:induction false} SortMapped<T>(keys: seq<Key>, f: Key -> T, le: (T, T) -> bool)
    requires forall a, b :: le(f(a), f(b)) == LeKey(a, b)
    ensures Sort(Mapped(keys, f), le) == Mapped(Sort(keys, LeKey), f)
  {
    if keys != [] {
      assert Mapped(keys, f)[1..] == Mapped(keys[1..], f);
      SortMapped(keys[1..], f, le);
      InsertMapped(keys[0], Sort(keys[1..], LeKey), f, le);
    }
  }

  const LeOp: (PlanOp, PlanOp) -> bool := (a: PlanOp, b: PlanOp) => LeKey(Key(a.typ, a.name), Key(b.typ, b.name))

  const LeInfo: (Info, Info) -> bool := (a: Info, b: Info) => LeKey(Key(a.typ, a.name), Key(b.typ, b.name))

  ghost function PlannedOps(src: seq<Record>, dest: seq<Record>, c: Context): seq<PlanOp> {
    Mapped(Ordered(Keys(src, c)), k => OpFor(k, src, dest, c))
  }

  ghost function PlannedInfos(src: seq<Record>, dest: seq<Record>, c: Context): seq<Info> {
    Mapped(Ordered(Keys(dest, c) - Keys(src, c)), k => InfoFor(k, dest, c))
  }

  // By name first, then by type, bytewise.
  predicate Sequent(name: string, typ: string, name': string, typ': string) {
    StringLe(name, name') && (name == name' ==> StringLe(typ, typ'))
  }

  // buildZonePlan: whatever order the maps are walked in, the same ops and the same informational entries.
  method BuildZonePlan(src: seq<Record>, dest: seq<Record>, c: Context) returns (ops: seq<PlanOp>, infos: seq<Info>)
    ensures ops == PlannedOps(src, dest, c) && infos == PlannedInfos(src, dest, c)
    ensures forall i, j :: 0 <= i < j < |ops| ==> Sequent(ops[i].name, ops[i].typ, ops[j].name, ops[j].typ)
    ensures forall i, j :: 0 <= i < j < |infos| ==> Sequent(infos[i].name, infos[i].typ, infos[j].name, infos[j].typ)
  {
    OpsRank();
    hide KeyLe, Sequent, StringLe;
    hide OpFor, InfoFor, Keys, Sort, Ordered;
    ghost var f := k => OpFor(k, src, dest, c);
    ghost var g := k => InfoFor(k, dest, c);
    ghost var walked, seen;
    ops, walked := CollectOps(src, dest, c);
    SortMapped(walked, f, LeOp);
    InsertKeepsOrder(walked, Keys(src, c));
    SortSorts(ops, LeOp);
    ops := Sort(ops, LeOp);
    infos, seen := CollectInfos(Keys(dest, c) - Keys(src, c), dest, c);
    SortMapped(seen, g, LeInfo);
    InsertKeepsOrder(seen, Keys(dest, c) - Keys(src, c));
    SortSorts(infos, LeInfo);
    infos := Sort(infos, LeInfo);
    SequentAll(ops, infos);
  }

  lemma SequentAll(ops: seq<PlanOp>, infos: seq<Info>)
    requires Sorted(ops, LeOp) && Sorted(infos, LeInfo)
    ensures forall i, j :: 0 <= i < j < |ops| ==> Sequent(ops[i].name, ops[i].typ, ops[j].name, ops[j].typ)
    ensures forall i, j :: 0 <= i < j < |infos| ==> Sequent(infos[i].name, infos[i].typ, infos[j].name, infos[j].typ)
  {
    hide Sequent, KeyLe;
    forall i, j | 0 <= i < j < |ops| ensures Sequent(ops[i].name, ops[i].typ, ops[j].name, ops[j].typ) {
      assert LeOp(ops[i], ops[j]);
      KeysSequent(Key(ops[i].typ, ops[i].name), Key(ops[j].typ, ops[j].name));
    }
    forall i, j | 0 <= i < j < |infos| ensures Sequent(infos[i].name, infos[i].typ, infos[j].name, infos[j].typ) {
      assert LeInfo(infos[i], infos[j]);
      KeysSequent(Key(infos[i].typ, infos[i].name), Key(infos[j].typ, infos[j].name));
    }
  }

  lemma KeysSequent(a: Key, b: Key)
    ensures KeyLe(a, b) ==> Sequent(a.name, a.typ, b.name, b.typ)
  {
    hide StringLe;
    StringLeTotal(a.name, b.name);
  }

  lemma OpsRank()
    ensures Ranking(LeOp) && Ranking(LeInfo)
  {
    hide KeyLe;
    LeKeyTotalOrder();
    forall a: PlanOp, b: PlanOp, d: PlanOp ensures LeOp(a, b) || LeOp(b, a) ensures LeOp(a, b) && LeOp(b, d) ==> LeOp(a, d) {
      var x, y, z := Key(a.typ, a.name), Key(b.typ, b.name), Key(d.typ, d.name);
      assert (LeKey(x, y) || LeKey(y, x)) && (LeKey(x, y) && LeKey(y, z) ==> LeKey(x, z));
    }
    forall a: Info, b: Info, d: Info ensures LeInfo(a, b) || LeInfo(b, a) ensures LeInfo(a, b) && LeInfo(b, d) ==> LeInfo(a, d) {
      var x, y, z := Key(a.typ, a.name), Key(b.typ, b.name), Key(d.typ, d.name);
      assert (LeKey(x, y) || LeKey(y, x)) && (LeKey(x, y) && LeKey(y, z) ==> LeKey(x, z));
    }
  }

  method CollectOps(src: seq<Record>, dest: seq<Record>, c: Context) returns (ops: seq<PlanOp>, ghost walked: seq<Key>)
    ensures multiset(walked) == multiset(Keys(src, c))
    ensures ops == Mapped(walked, k => OpFor(k, src, dest, c))
  {
    hide OpFor, Keys;
    ops, walked := [], [];
    var todo := Keys(src, c);
    while todo != {}
      invariant multiset(walked) + multiset(todo) == multiset(Keys(src, c))
      invariant ops == Mapped(walked, k => OpFor(k, src, dest, c))
      decreases todo
    {
      var k :| k in todo;
      ops := ops + [OpFor(k, src, dest, c)];
      assert multiset(todo) == multiset(todo - {k}) + multiset{k};
      todo := todo - {k};
      walked := walked + [k];
    }
  }

  method CollectInfos(keys: set<Key>, dest: seq<Record>, c: Context) returns (infos: seq<Info>, ghost walked: seq<Key>)
    ensures multiset(walked) == multiset(keys)
    ensures infos == Mapped(walked, k => InfoFor(k, dest, c))
  {
    hide InfoFor;
    infos, walked := [], [];
    var todo := keys;
    while todo != {}
      invariant multiset(walked) + multiset(todo) == multiset(keys)
      invariant infos == Mapped(walked, k => InfoFor(k, dest, c))
      decreases todo
    {
      var k :| k in todo;
      infos := infos + [InfoFor(k, dest, c)];
      assert multiset(todo) == multiset(todo - {k}) + multiset{k};
      todo := todo - {k};
      walked := walked + [k];
    }
  }

  function OpKeys(ops: seq<PlanOp>): set<Key> { set o | o in ops :: Key(o.typ, o.name) }

  function InfoKeys(infos: seq<Info>): set<Key> { set i | i in infos :: Key(i.typ, i.name) }

  lemma PlannedKeys(src: seq<Record>, dest: seq<Record>, c: Context)
    ensures OpKeys(PlannedOps(src, dest, c)) == Keys(src, c) && |PlannedOps(src, dest, c)| == |Keys(src, c)|
    ensures InfoKeys(PlannedInfos(src, dest, c)) == Keys(dest, c) - Keys(src, c)
    ensures |PlannedInfos(src, dest, c)| == |Keys(dest, c) - Keys(src, c)|
  {
    hide OpFor, InfoFor, Keys, Ordered;
    var ks, only := Keys(src, c), Keys(dest, c) - Keys(src, c);
    var ops, infos := PlannedOps(src, dest, c), PlannedInfos(src, dest, c);
    OrderedHolds(ks);
    OrderedHolds(only);
    forall k | k in ks ensures k in OpKeys(ops) {
      var i :| 0 <= i < |Ordered(ks)| && Ordered(ks)[i] == k;
      assert ops[i] in ops;
    }
    forall o | o in ops ensures Key(o.typ, o.name) in ks {
      var i :| 0 <= i < |ops| && ops[i] == o;
      assert Ordered(ks)[i] in Ordered(ks);
    }
    forall k | k in only ensures k in InfoKeys(infos) {
      var i :| 0 <= i < |Ordered(only)| && Ordered(only)[i] == k;
      assert infos[i] in infos;
    }
    forall o | o in infos ensures Key(o.typ, o.name) in only {
      var i :| 0 <= i < |infos| && infos[i] == o;
      assert Ordered(only)[i] in Ordered(only);
    }
  }

  // Ops and informational entries together name every rrset of either side once.
  lemma OpsAndInfosPartition(src: seq<Record>, dest: seq<Record>, c: Context)
    ensures var ops, infos := PlannedOps(src, dest, c), PlannedInfos(src, dest, c);
            && OpKeys(ops) + InfoKeys(infos) == Keys(src, c) + Keys(dest, c) && OpKeys(ops) !! InfoKeys(infos)
            && OpKeys(ops) == Keys(src, c) && |ops| == |OpKeys(ops)| && |infos| == |InfoKeys(infos)|
  {
    hide PlannedOps, PlannedInfos, OpKeys, InfoKeys, Keys;
    PlannedKeys(src, dest, c);
  }

  lemma OrderedHolds(keys: set<Key>)
    ensures |Ordered(keys)| == |keys| && forall k :: k in Ordered(keys) <==> k in keys
  {
    assert |Ordered(keys)| == |multiset(Ordered(keys))| == |multiset(keys)|;
    forall k ensures k in Ordered(keys) <==> k in keys {
      assert k in Ordered(keys) <==> k in multiset(Ordered(keys));
    }
  }

  // Adding and replacing what the plan asks for keeps CNAMEs alone.
  lemma PlanKeepsCnamesAlone(src: seq<Record>, dest: seq<Record>, c: Context)
    requires CnamesAlone(Keys(dest, c))
    ensures var written := set o | o in PlannedOps(src, dest, c) && (o.action == Add || o.action == Replace) :: Key(o.typ, o.name);
            CnamesAlone(Keys(dest, c) + written)
  {
    hide SetKey, SortedValues, AllMapped, Mentions, Group, Keys, OpFor, Ordered;
    var ops := PlannedOps(src, dest, c);
    var all := Keys(src, c) + Keys(dest, c);
    OrderedHolds(Keys(src, c));
    forall o | o in ops && (o.action == Add || o.action == Replace)
      ensures Key(o.typ, o.name) in all && !Conflict(Key(o.typ, o.name), all)
    {
      var i :| 0 <= i < |ops| && ops[i] == o;
      var k := Ordered(Keys(src, c))[i];
      assert k in Keys(src, c);
      assert o == OpFor(k, src, dest, c);
      WrittenHasNoConflict(k, src, dest, c);
    }
  }

  lemma WrittenHasNoConflict(k: Key, src: seq<Record>, dest: seq<Record>, c: Context)
    requires OpFor(k, src, dest, c).action == Add || OpFor(k, src, dest, c).action == Replace
    ensures !Conflict(k, Keys(src, c) + Keys(dest, c))
    ensures OpFor(k, src, dest, c).typ == k.typ && OpFor(k, src, dest, c).name == k.name
  {
    hide SetKey, SortedValues, AllMapped, Mentions, Group, Keys, Conflict;
  }

  // ---------------------------------------------------------------- the whole plan

  // One zone of an inventory; None stands for a zone that could not be read.
  datatype ZoneResult = ZoneResult(zone: string, records: Option<seq<Record>>)

  datatype PlanZone = PlanZone(zone: string, ops: seq<PlanOp>, infos: seq<Info>)

  // The zones by lower-case name; of several with one name the last counts.
  function FetchedZones(zones: seq<ZoneResult>): map<string, Option<seq<Record>>> {
    if zones == [] then map[]
    else FetchedZones(zones[..|zones| - 1])[Lower(zones[|zones| - 1].zone) := zones[|zones| - 1].records]
  }

  predicate Plannable(z: ZoneResult, dest: map<string, Option<seq<Record>>>) {
    z.records.Some? && Lower(z.zone) in dest && dest[Lower(z.zone)].Some?
  }

  ghost function PlanFor(z: ZoneResult, dest: map<string, Option<seq<Record>>>, c: Context): PlanZone
    requires Plannable(z, dest)
  {
    var name := Lower(z.zone);
    var here := c.(zone := name);
    PlanZone(name, PlannedOps(z.records.value, dest[name].value, here), PlannedInfos(z.records.value, dest[name].value, here))
  }

  ghost function PlannedZones(src: seq<ZoneResult>, dest: map<string, Option<seq<Record>>>, c: Context): seq<PlanZone> {
    if src == [] then []
    else
      var last := src[|src| - 1];
      PlannedZones(src[..|src| - 1], dest, c) + (if Plannable(last, dest) then [PlanFor(last, dest, c)] else [])
  }

  // The zones left to a human: unreadable on either side, or missing on the destination.
  function ManualZones(src: seq<ZoneResult>, dest: map<string, Option<seq<Record>>>): seq<string> {
    if src == [] then []
    else
      var last := src[|src| - 1];
      ManualZones(src[..|src| - 1], dest) + (if Plannable(last, dest) then [] else [Lower(last.zone)])
  }

  const ByZone: (PlanZone, PlanZone) -> bool := (a: PlanZone, b: PlanZone) => StringLe(a.zone, b.zone)

  // BuildDNSPlan
  method BuildDNSPlan(src: seq<ZoneResult>, dest: seq<ZoneResult>, c: Context)
    returns (zones: seq<PlanZone>, manualZones: seq<string>)
    ensures zones == Sort(PlannedZones(src, FetchedZones(dest), c), ByZone)
    ensures forall i, j :: 0 <= i < j < |zones| ==> StringLe(zones[i].zone, zones[j].zone)
    ensures manualZones == SortStrings(ManualZones(src, FetchedZones(dest)))
  {
    hide PlannedOps, PlannedInfos, Sort, SortStrings;
    var destZones: map<string, Option<seq<Record>>> := map[];
    for i := 0 to |dest|
      invariant destZones == FetchedZones(dest[..i])
    {
      assert dest[..i + 1][..i] == dest[..i];
      destZones := destZones[Lower(dest[i].zone) := dest[i].records];
    }
    assert dest[..|dest|] == dest;
    zones, manualZones := [], [];
    for i := 0 to |src|
      invariant zones == PlannedZones(src[..i], destZones, c) && manualZones == ManualZones(src[..i], destZones)
    {
      assert src[..i + 1][..i] == src[..i];
      var name := Lower(src[i].zone);
      if src[i].records.None? || name !in destZones || destZones[name].None? {
        manualZones := manualZones + [name];
      } else {
        var ops, infos := BuildZonePlan(src[i].records.value, destZones[name].value, c.(zone := name));
        zones := zones + [PlanZone(name, ops, infos)];
      }
    }
    assert src[..|src|] == src;
    ByZoneRanks();
    SortSorts(zones, ByZone);
    zones := Sort(zones, ByZone);
    manualZones := SortStrings(manualZones);
  }

  lemma ByZoneRanks()
    ensures Ranking(ByZone)
  {
    LeStringTotalOrder();
    forall a, b, d ensures ByZone(a, b) || ByZone(b, a) ensures ByZone(a, b) && ByZone(b, d) ==> ByZone(a, d) {
      assert LeString(a.zone, b.zone) || LeString(b.zone, a.zone);
      assert LeString(a.zone, b.zone) && LeString(b.zone, d.zone) ==> LeString(a.zone, d.zone);
    }
  }

  // ---------------------------------------------------------------- what the plan decides, rrset by rrset

  // The source rrsets are planned, each by what the two sides hold under its key; nothing else is.
  lemma PlannedActions(src: seq<Record>, dest: seq<Record>, c: Context, i: nat)
    requires i < |PlannedOps(src, dest, c)|
    ensures var op := PlannedOps(src, dest, c)[i];
            var k := Key(op.typ, op.name);
            var records, there, conflict := Group(src, k, c), Group(dest, k, c), Conflict(k, Keys(src, c) + Keys(dest, c));
            var served := k.typ == "SOA" || IsHostValidation(k.name);
            && k in Keys(src, c) && op.action != Unknown && op.destValues == SortStrings(Values(there, c))
            && (op.action == Skip <==> served || ((k.typ == "NS" || Importable(k, records, conflict, c)) && Matches(k, records, there, c)))
            && (op.action == Add || op.action == Replace <==>
                  Importable(k, records, conflict, c) && !(k.typ == "TXT" && Mentions(records, c)) && !Matches(k, records, there, c))
            && (op.action == Add ==> there == []) && (op.action == Replace ==> there != [])
  {
    hide Classify, Group, Keys, Conflict, Ordered, Addressed, Matches, Mentions, IsHostValidation, ValidUtf8, SortStrings, Values;
    OrderedHolds(Keys(src, c));
    var k := Ordered(Keys(src, c))[i];
    assert k in Ordered(Keys(src, c));
    var records, there, conflict := Group(src, k, c), Group(dest, k, c), Conflict(k, Keys(src, c) + Keys(dest, c));
    SkipsExactly(k, records, there, conflict, c);
    ClassifiedAs(k, records, there, conflict, c);
  }

  // The informational entries are the destination's own rrsets, with their values.
  lemma PlannedInfosMean(src: seq<Record>, dest: seq<Record>, c: Context, i: nat)
    requires i < |PlannedInfos(src, dest, c)|
    ensures var info := PlannedInfos(src, dest, c)[i];
            var k := Key(info.typ, info.name);
            k in Keys(dest, c) && k !in Keys(src, c) && multiset(info.values) == multiset(Values(Group(dest, k, c), c))
  {
    hide Group, Keys, Ordered, Values, SortStrings;
    OrderedHolds(Keys(dest, c) - Keys(src, c));
    assert Ordered(Keys(dest, c) - Keys(src, c))[i] in Ordered(Keys(dest, c) - Keys(src, c));
  }

  lemma ClassifiedAs(k: Key, records: seq<Record>, dest: seq<Record>, conflict: bool, c: Context)
    ensures var op := Classify(k, records, dest, conflict, c);
            && op.action != Unknown && op.destValues == SortStrings(Values(dest, c))
            && (op.action == Add ==> dest == []) && (op.action == Replace ==> dest != [])
            && (op.action == Add || op.action == Replace ==> k.typ != "NS" && k.typ != "SOA")
  {
    hide Translate, Mentions, Sort, ByData, ValidUtf8, IsHostValidation, AllMapped, PlanValue, SortStrings, Values;
  }

  // ---------------------------------------------------------------- what becomes of each zone

  ghost predicate LastFor(zones: seq<ZoneResult>, name: string, i: int) {
    0 <= i < |zones| && Lower(zones[i].zone) == name && forall j :: i < j < |zones| ==> Lower(zones[j].zone) != name
  }

  // Of several results for one zone the last counts.
  lemma {:induction false} FetchedIsLast(zones: seq<ZoneResult>, name: string)
    ensures name in FetchedZones(zones) <==> exists i :: LastFor(zones, name, i)
    ensures forall i :: LastFor(zones, name, i) ==> FetchedZones(zones)[name] == zones[i].records
  {
    hide Lower;
    if zones != [] {
      var n := |zones| - 1;
      FetchedIsLast(zones[..n], name);
      forall i ensures LastFor(zones, name, i) <==>
                       if i == n then Lower(zones[n].zone) == name else LastFor(zones[..n], name, i) && Lower(zones[n].zone) != name {
        LastStep(zones, name, i);
      }
      assert LastFor(zones, name, n) <==> Lower(zones[n].zone) == name;
    }
  }

  lemma LastStep(zones: seq<ZoneResult>, name: string, i: int)
    requires zones != []
    ensures var n := |zones| - 1;
            LastFor(zones, name, i) <==>
            if i == n then Lower(zones[n].zone) == name else LastFor(zones[..n], name, i) && Lower(zones[n].zone) != name
  {
    hide Lower;
    var n := |zones| - 1;
    if LastFor(zones[..n], name, i) && Lower(zones[n].zone) != name {
      forall j | i < j < |zones| ensures Lower(zones[j].zone) != name {
        if j < n { assert zones[..n][j] == zones[j]; }
      }
    }
  }

  // Every source zone is planned where both sides could be read, and named for a human otherwise.
  lemma {:induction false} ZonesArePlanned(src: seq<ZoneResult>, dest: map<string, Option<seq<Record>>>, c: Context)
    ensures |PlannedZones(src, dest, c)| + |ManualZones(src, dest)| == |src|
    ensures forall z :: z in src && Plannable(z, dest) ==> PlanFor(z, dest, c) in PlannedZones(src, dest, c)
    ensures forall z :: z in src && !Plannable(z, dest) ==> Lower(z.zone) in ManualZones(src, dest)
    ensures forall pz :: pz in PlannedZones(src, dest, c) ==> exists z :: z in src && Plannable(z, dest) && pz == PlanFor(z, dest, c)
    ensures forall n :: n in ManualZones(src, dest) ==> exists z :: z in src && !Plannable(z, dest) && n == Lower(z.zone)
  {
    hide PlanFor, Plannable, Lower;
    if src != [] {
      var front := src[..|src| - 1];
      ZonesArePlanned(front, dest, c);
      assert src == front + [src[|src| - 1]];
    }
  }
}
