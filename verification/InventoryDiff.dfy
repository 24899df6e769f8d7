/** The comparison of two inventories: diffKeyed and diffCron in internal/accountinventory/diff.go. */
module InventoryDiff {
  import opened Text
  import opened Sorting

  datatype Item = Item(key: string, detail: string, fields: map<string, string>)

  datatype Entry = Entry(key: string, detail: string)

  datatype Change = Change(key: string, field: string, source: string, dest: string)

  datatype Section = Section(added: seq<Entry>, removed: seq<Entry>, changed: seq<Change>)

  // ---------------------------------------------------------------- the order of a report

  predicate PairLe(a: string, b: string, c: string, d: string) {
    if a != c then StringLe(a, c) else StringLe(b, d)
  }

  const LeEntry: (Entry, Entry) -> bool := (a: Entry, b: Entry) => PairLe(a.key, a.detail, b.key, b.detail)

  // Entries that share key and field do not occur; the last two components only make the order total.
  predicate ChangeLe(a: Change, b: Change) {
    if a.key != b.key || a.field != b.field then PairLe(a.key, a.field, b.key, b.field) else PairLe(a.source, a.dest, b.source, b.dest)
  }

  const LeChange: (Change, Change) -> bool := (a: Change, b: Change) => ChangeLe(a, b)

  lemma PairLeOrders(a: string, b: string, c: string, d: string, e: string, f: string)
    ensures PairLe(a, b, c, d) || PairLe(c, d, a, b)
    ensures PairLe(a, b, c, d) && PairLe(c, d, a, b) ==> a == c && b == d
    ensures PairLe(a, b, c, d) && PairLe(c, d, e, f) ==> PairLe(a, b, e, f)
  {
    hide StringLe;
    StringLeTotal(a, c);
    StringLeTotal(b, d);
    StringLeTotal(c, e);
    if StringLe(a, c) && StringLe(c, e) { StringLeTrans(a, c, e); }
    if StringLe(b, d) && StringLe(d, f) { StringLeTrans(b, d, f); }
  }

  lemma LeEntryTotalOrder()
    ensures TotalOrder(LeEntry)
  {
    hide PairLe;
    forall a, b, c ensures LeEntry(a, b) || LeEntry(b, a)
      ensures LeEntry(a, b) && LeEntry(b, a) ==> a == b
      ensures LeEntry(a, b) && LeEntry(b, c) ==> LeEntry(a, c)
    {
      PairLeOrders(a.key, a.detail, b.key, b.detail, c.key, c.detail);
    }
  }

  lemma ChangeLeOrders(a: Change, b: Change, c: Change)
    ensures ChangeLe(a, b) || ChangeLe(b, a)
    ensures ChangeLe(a, b) && ChangeLe(b, a) ==> a == b
    ensures ChangeLe(a, b) && ChangeLe(b, c) ==> ChangeLe(a, c)
  {
    hide PairLe;
    PairLeOrders(a.key, a.field, b.key, b.field, c.key, c.field);
    PairLeOrders(a.source, a.dest, b.source, b.dest, c.source, c.dest);
    PairLeOrders(b.key, b.field, c.key, c.field, a.key, a.field);
  }

  lemma LeChangeTotalOrder()
    ensures TotalOrder(LeChange)
  {
    hide ChangeLe;
    forall a, b, c ensures LeChange(a, b) || LeChange(b, a)
      ensures LeChange(a, b) && LeChange(b, a) ==> a == b
      ensures LeChange(a, b) && LeChange(b, c) ==> LeChange(a, c)
    {
      ChangeLeOrders(a, b, c);
    }
  }

  // ---------------------------------------------------------------- keyed items

  // The items by key; of several with one key the last counts.
  function Keyed(items: seq<Item>): (m: map<string, Item>)
    ensures forall k :: k in m ==> m[k].key == k
  {
    if items == [] then map[] else Keyed(items[..|items| - 1])[items[|items| - 1].key := items[|items| - 1]]
  }

  ghost predicate LastKeyed(items: seq<Item>, k: string, i: int) {
    0 <= i < |items| && items[i].key == k && forall j :: i < j < |items| ==> items[j].key != k
  }

  lemma {:induction false} KeyedIsLast(items: seq<Item>, k: string)
    ensures k in Keyed(items) <==> exists i :: LastKeyed(items, k, i)
    ensures forall i :: LastKeyed(items, k, i) ==> Keyed(items)[k] == items[i]
  {
    if items != [] {
      var n := |items| - 1;
      KeyedIsLast(items[..n], k);
      forall i ensures LastKeyed(items, k, i) <==>
                       if i == n then items[n].key == k else LastKeyed(items[..n], k, i) && items[n].key != k {
        LastKeyedStep(items, k, i);
      }
      assert LastKeyed(items, k, n) <==> items[n].key == k;
    }
  }

  lemma LastKeyedStep(items: seq<Item>, k: string, i: int)
    requires items != []
    ensures var n := |items| - 1;
            LastKeyed(items, k, i) <==> if i == n then items[n].key == k else LastKeyed(items[..n], k, i) && items[n].key != k
  {
    var n := |items| - 1;
    if LastKeyed(items[..n], k, i) && items[n].key != k {
      forall j | i < j < |items| ensures items[j].key != k {
        if j < n { assert items[..n][j] == items[j]; }
      }
    }
  }

  // A map lookup in the source's language: a missing field reads as the empty text.
  function Field(it: Item, f: string): string { if f in it.fields then it.fields[f] else "" }

  function OnlyIn(a: map<string, Item>, b: map<string, Item>, keys: set<string>): set<Entry> {
    set k | k in keys && k in a && k !in b :: Entry(k, a[k].detail)
  }

  function ChangesAt(k: string, a: Item, b: Item, fields: set<string>): set<Change> {
    set f | f in fields && f in a.fields && Field(a, f) != Field(b, f) :: Change(k, f, Field(a, f), Field(b, f))
  }

  function ChangesIn(a: map<string, Item>, b: map<string, Item>, keys: set<string>): set<Change> {
    set k, f | k in keys && k in a && k in b && f in a[k].fields && Field(a[k], f) != Field(b[k], f)
      :: Change(k, f, Field(a[k], f), Field(b[k], f))
  }

  // What a report must hold, in its order.
  ghost predicate IsDiff(d: Section, src: map<string, Item>, dest: map<string, Item>) {
    && Sorted(d.added, LeEntry) && multiset(d.added) == multiset(OnlyIn(dest, src, dest.Keys))
    && Sorted(d.removed, LeEntry) && multiset(d.removed) == multiset(OnlyIn(src, dest, src.Keys))
    && Sorted(d.changed, LeChange) && multiset(d.changed) == multiset(ChangesIn(src, dest, src.Keys))
  }

  // Bytewise, by key and then by detail.
  ghost predicate EntriesInOrder(s: seq<Entry>) {
    forall i, j :: 0 <= i < j < |s| ==> StringLe(s[i].key, s[j].key) && (s[i].key == s[j].key ==> StringLe(s[i].detail, s[j].detail))
  }

  ghost predicate ChangesInOrder(s: seq<Change>) {
    forall i, j :: 0 <= i < j < |s| ==> StringLe(s[i].key, s[j].key) && (s[i].key == s[j].key ==> StringLe(s[i].field, s[j].field))
  }

  lemma ReportIsOrdered(d: Section)
    requires Sorted(d.added, LeEntry) && Sorted(d.removed, LeEntry) && Sorted(d.changed, LeChange)
    ensures EntriesInOrder(d.added) && EntriesInOrder(d.removed) && ChangesInOrder(d.changed)
  {
    hide StringLe;
    forall a ensures StringLe(a, a) { StringLeTotal(a, a); }
  }

  // The report does not depend on the order in which the maps are walked.
  lemma DiffIsUnique(a: Section, b: Section, src: map<string, Item>, dest: map<string, Item>)
    requires IsDiff(a, src, dest) && IsDiff(b, src, dest)
    ensures a == b
  {
    LeEntryTotalOrder();
    LeChangeTotalOrder();
    SortedUnique(a.added, b.added, LeEntry);
    SortedUnique(a.removed, b.removed, LeEntry);
    SortedUnique(a.changed, b.changed, LeChange);
  }

  method ByKey(items: seq<Item>) returns (m: map<string, Item>)
    ensures m == Keyed(items)
  {
    m := map[];
    for i := 0 to |items|
      invariant m == Keyed(items[..i])
    {
      assert items[..i + 1][..i] == items[..i];
      m := m[items[i].key := items[i]];
    }
    assert items[..|items|] == items;
  }

  lemma OnlyGrows(a: map<string, Item>, b: map<string, Item>, keys: set<string>, k: string)
    requires k in a && k !in keys
    ensures multiset(OnlyIn(a, b, keys + {k}))
         == multiset(OnlyIn(a, b, keys)) + (if k in b then multiset{} else multiset{Entry(k, a[k].detail)})
  {
    if k in b {
      assert OnlyIn(a, b, keys + {k}) == OnlyIn(a, b, keys);
    } else {
      assert OnlyIn(a, b, keys + {k}) == OnlyIn(a, b, keys) + {Entry(k, a[k].detail)};
      assert Entry(k, a[k].detail) !in OnlyIn(a, b, keys);
    }
  }

  lemma NoneOnly(a: map<string, Item>, b: map<string, Item>)
    ensures OnlyIn(a, b, {}) == {}
  {
  }

  // The entries for the keys of one side that the other lacks.
  method CollectOnly(a: map<string, Item>, b: map<string, Item>) returns (entries: seq<Entry>)
    ensures multiset(entries) == multiset(OnlyIn(a, b, a.Keys))
  {
    hide OnlyIn;
    entries := [];
    var todo := a.Keys;
    ghost var done: set<string> := {};
    NoneOnly(a, b);
    while todo != {}
      invariant todo + done == a.Keys && todo !! done && multiset(entries) == multiset(OnlyIn(a, b, done))
      decreases todo
    {
      var k :| k in todo;
      OnlyGrows(a, b, done, k);
      if k !in b {
        entries := entries + [Entry(k, a[k].detail)];
      }
      todo, done := todo - {k}, done + {k};
    }
    assert done == a.Keys;
  }

  lemma ChangesAtGrow(k: string, a: Item, b: Item, fields: set<string>, f: string)
    requires f in a.fields && f !in fields
    ensures multiset(ChangesAt(k, a, b, fields + {f})) == multiset(ChangesAt(k, a, b, fields)) +
            (if Field(a, f) != Field(b, f) then multiset{Change(k, f, Field(a, f), Field(b, f))} else multiset{})
  {
    hide Field;
    var c := Change(k, f, Field(a, f), Field(b, f));
    if Field(a, f) != Field(b, f) {
      assert ChangesAt(k, a, b, fields + {f}) == ChangesAt(k, a, b, fields) + {c};
      assert c !in ChangesAt(k, a, b, fields);
    } else {
      assert ChangesAt(k, a, b, fields + {f}) == ChangesAt(k, a, b, fields);
    }
  }

  lemma NoChangesAt(k: string, a: Item, b: Item)
    ensures ChangesAt(k, a, b, {}) == {}
  {
  }

  method CollectChanges(k: string, a: Item, b: Item) returns (changes: seq<Change>)
    ensures multiset(changes) == multiset(ChangesAt(k, a, b, a.fields.Keys))
  {
    hide ChangesAt, Field;
    changes := [];
    var todo := a.fields.Keys;
    ghost var done: set<string> := {};
    NoChangesAt(k, a, b);
    while todo != {}
      invariant todo + done == a.fields.Keys && todo !! done && multiset(changes) == multiset(ChangesAt(k, a, b, done))
      decreases todo
    {
      var f :| f in todo;
      ChangesAtGrow(k, a, b, done, f);
      if Field(a, f) != Field(b, f) {
        changes := changes + [Change(k, f, Field(a, f), Field(b, f))];
      }
      todo, done := todo - {f}, done + {f};
    }
    assert done == a.fields.Keys;
  }

  lemma ChangesGrow(a: map<string, Item>, b: map<string, Item>, keys: set<string>, k: string)
    requires k in a && k !in keys
    ensures multiset(ChangesIn(a, b, keys + {k}))
         == multiset(ChangesIn(a, b, keys)) + (if k in b then multiset(ChangesAt(k, a[k], b[k], a[k].fields.Keys)) else multiset{})
  {
    hide Field;
    if k in b {
      var here := ChangesAt(k, a[k], b[k], a[k].fields.Keys);
      assert ChangesIn(a, b, keys + {k}) == ChangesIn(a, b, keys) + here;
      assert ChangesIn(a, b, keys) !! here;
    } else {
      assert ChangesIn(a, b, keys + {k}) == ChangesIn(a, b, keys);
    }
  }

  // diffKeyed
  method DiffKeyed(srcItems: seq<Item>, destItems: seq<Item>) returns (d: Section)
    ensures IsDiff(d, Keyed(srcItems), Keyed(destItems))
  {
    hide ChangesIn, ChangesAt, OnlyIn, Sort;
    var src := ByKey(srcItems);
    var dest := ByKey(destItems);
    var added := CollectOnly(dest, src);
    var removed := CollectOnly(src, dest);
    var changed := AllChanges(src, dest);
    LeEntryTotalOrder();
    LeChangeTotalOrder();
    SortSorts(added, LeEntry);
    SortSorts(removed, LeEntry);
    SortSorts(changed, LeChange);
    d := Section(Sort(added, LeEntry), Sort(removed, LeEntry), Sort(changed, LeChange));
  }

  method AllChanges(src: map<string, Item>, dest: map<string, Item>) returns (changed: seq<Change>)
    ensures multiset(changed) == multiset(ChangesIn(src, dest, src.Keys))
  {
    hide ChangesIn, ChangesAt;
    changed := [];
    var todo := src.Keys;
    ghost var done: set<string> := {};
    NoChanges(src, dest);
    while todo != {}
      invariant todo + done == src.Keys && todo !! done && multiset(changed) == multiset(ChangesIn(src, dest, done))
      decreases todo
    {
      var k :| k in todo;
      ChangesGrow(src, dest, done, k);
      if k in dest {
        var more := CollectChanges(k, src[k], dest[k]);
        changed := changed + more;
      }
      todo, done := todo - {k}, done + {k};
    }
    assert done == src.Keys;
  }

  lemma NoChanges(a: map<string, Item>, b: map<string, Item>)
    ensures ChangesIn(a, b, {}) == {}
  {
  }

  // ---------------------------------------------------------------- a complete edit script

  function EntryKeys(entries: seq<Entry>): set<string> { set e | e in entries :: e.key }

  // The value of a field once the report's changes are made.
  ghost predicate PatchedTo(d: Section, it: Item, f: string, v: string) {
    if exists c :: c in d.changed && c.key == it.key && c.field == f
    then exists c :: c in d.changed && c.key == it.key && c.field == f && c.dest == v
    else v == Field(it, f)
  }

  lemma InSorted<T>(s: seq<T>, all: set<T>)
    requires multiset(s) == multiset(all)
    ensures forall x :: x in s <==> x in all
  {
    forall x ensures x in s <==> x in all {
      assert x in s <==> x in multiset(s);
    }
  }

  lemma DiffMembers(d: Section, src: map<string, Item>, dest: map<string, Item>)
    requires IsDiff(d, src, dest)
    ensures forall e :: e in d.added <==> e in OnlyIn(dest, src, dest.Keys)
    ensures forall e :: e in d.removed <==> e in OnlyIn(src, dest, src.Keys)
    ensures forall c :: c in d.changed <==> c in ChangesIn(src, dest, src.Keys)
  {
    hide OnlyIn, ChangesIn, Sorted;
    InSorted(d.added, OnlyIn(dest, src, dest.Keys));
    InSorted(d.removed, OnlyIn(src, dest, src.Keys));
    InSorted(d.changed, ChangesIn(src, dest, src.Keys));
  }

  lemma {:induction false} OnlyKeys(a: map<string, Item>, b: map<string, Item>, entries: seq<Entry>)
    requires forall e :: e in entries <==> e in OnlyIn(a, b, a.Keys)
    ensures EntryKeys(entries) == a.Keys - b.Keys
  {
    forall k | k in a.Keys - b.Keys ensures k in EntryKeys(entries) {
      assert Entry(k, a[k].detail) in OnlyIn(a, b, a.Keys);
    }
  }

  // Taking Removed out of the source's keys and putting Added in gives the destination's, and Added and Removed
  // name nothing else.
  lemma KeysArePatched(d: Section, src: map<string, Item>, dest: map<string, Item>)
    requires IsDiff(d, src, dest)
    ensures (src.Keys - EntryKeys(d.removed)) + EntryKeys(d.added) == dest.Keys
    ensures EntryKeys(d.removed) == src.Keys - dest.Keys && EntryKeys(d.added) == dest.Keys - src.Keys
  {
    hide OnlyIn, ChangesIn, IsDiff, EntryKeys;
    DiffMembers(d, src, dest);
    OnlyKeys(dest, src, d.added);
    OnlyKeys(src, dest, d.removed);
  }

  lemma ChangeIsAt(d: Section, src: map<string, Item>, dest: map<string, Item>, c: Change)
    requires IsDiff(d, src, dest) && c in d.changed
    ensures c.key in src && c.key in dest && c.field in src[c.key].fields
    ensures c.source == Field(src[c.key], c.field) && c.dest == Field(dest[c.key], c.field) && c.source != c.dest
  {
    hide OnlyIn, Field, IsDiff;
    DiffMembers(d, src, dest);
  }

  lemma ChangeIsThere(d: Section, src: map<string, Item>, dest: map<string, Item>, k: string, f: string)
    requires IsDiff(d, src, dest) && k in src && k in dest && f in src[k].fields && Field(src[k], f) != Field(dest[k], f)
    ensures Change(k, f, Field(src[k], f), Field(dest[k], f)) in d.changed
  {
    hide OnlyIn, Field, IsDiff;
    DiffMembers(d, src, dest);
  }

  // Making the changes turns a field of a common item into the destination's, exactly when the source's item
  // has that field or the destination's is empty: the comparison looks at the source's fields only.
  lemma FieldIsPatched(d: Section, src: map<string, Item>, dest: map<string, Item>, k: string, f: string)
    requires IsDiff(d, src, dest) && k in src && k in dest && src[k].key == k
    ensures PatchedTo(d, src[k], f, Field(dest[k], f)) <==> f in src[k].fields || Field(dest[k], f) == ""
  {
    hide IsDiff;
    if c :| c in d.changed && c.key == k && c.field == f {
      ChangeIsAt(d, src, dest, c);
    }
    if f in src[k].fields && Field(src[k], f) != Field(dest[k], f) {
      ChangeIsThere(d, src, dest, k, f);
    }
  }

  // Both sides' items of one key have the same fields.
  ghost predicate SameFields(src: map<string, Item>, dest: map<string, Item>) {
    forall k :: k in src && k in dest ==> src[k].fields.Keys == dest[k].fields.Keys
  }

  function Swapped(c: Change): Change { Change(c.key, c.field, c.dest, c.source) }

  // Exchanging the sides exchanges Added and Removed, and the two values of every change.
  lemma SidesSwap(a: Section, b: Section, src: map<string, Item>, dest: map<string, Item>)
    requires IsDiff(a, src, dest) && IsDiff(b, dest, src)
    ensures a.added == b.removed && a.removed == b.added
    ensures SameFields(src, dest) ==> forall c :: c in a.changed <==> Swapped(c) in b.changed
  {
    hide OnlyIn, ChangesIn;
    LeEntryTotalOrder();
    SortedUnique(a.added, b.removed, LeEntry);
    SortedUnique(a.removed, b.added, LeEntry);
    if SameFields(src, dest) {
      forall c ensures c in a.changed <==> Swapped(c) in b.changed {
        if c in a.changed {
          ChangeIsAt(a, src, dest, c);
          ChangeIsThere(b, dest, src, c.key, c.field);
        }
        if Swapped(c) in b.changed {
          ChangeIsAt(b, dest, src, Swapped(c));
          ChangeIsThere(a, src, dest, c.key, c.field);
        }
      }
    }
  }

  // ---------------------------------------------------------------- cron

  // A job; its redacted command stands for the hash the jobs are grouped by.
  datatype Job = Job(command: string, schedule: string, enabled: bool)

  function Flag(b: bool): string { if b then "true" else "false" }

  // slotDetail
  function Slot(j: Job): string { j.schedule + " enabled=" + Flag(j.enabled) }

  // Slots of one text are of jobs with one schedule and one flag, and the flag can be read off.
  lemma SlotMeans(a: Job, b: Job)
    ensures Slot(a) == Slot(b) <==> a.schedule == b.schedule && a.enabled == b.enabled
    ensures Slot(a) == a.schedule + if a.enabled then " enabled=true" else " enabled=false"
  {
    var s, t := Slot(a), Slot(b);
    assert s[|s| - 4] == if a.enabled then 't' else 'a';
    assert t[|t| - 4] == if b.enabled then 't' else 'a';
    if s == t {
      assert s[..|a.schedule|] == a.schedule && t[..|b.schedule|] == b.schedule;
    }
  }

  function JobsOf(jobs: seq<Job>, command: string): seq<Job> {
    if jobs == [] then []
    else JobsOf(jobs[..|jobs| - 1], command) + if jobs[|jobs| - 1].command == command then [jobs[|jobs| - 1]] else []
  }

  function Slots(jobs: seq<Job>): multiset<string> {
    if jobs == [] then multiset{} else Slots(jobs[..|jobs| - 1]) + multiset{Slot(jobs[|jobs| - 1])}
  }

  // Exactly one job on either side: reported as a change, not as an exchange of slots.
  predicate OneToOne(src: seq<Job>, dest: seq<Job>) { |src| == 1 && |dest| == 1 }

  // The slots one side has more of than the other.
  ghost function Surplus(more: seq<Job>, less: seq<Job>): multiset<string> {
    if OneToOne(less, more) then multiset{} else Slots(more) - Slots(less)
  }

  function JobChanges(command: string, a: Job, b: Job): seq<Change> {
    (if a.schedule != b.schedule then [Change(command, "schedule", a.schedule, b.schedule)] else []) +
    (if a.enabled != b.enabled then [Change(command, "enabled", Flag(a.enabled), Flag(b.enabled))] else [])
  }

  function Commands(jobs: seq<Job>): set<string> { set j | j in jobs :: j.command }

  // What a cron report must hold, in its order.
  ghost predicate IsCronDiff(d: Section, src: seq<Job>, dest: seq<Job>) {
    && Sorted(d.added, LeEntry) && Sorted(d.removed, LeEntry) && Sorted(d.changed, LeChange)
    && (forall e :: multiset(d.added)[e] == Surplus(JobsOf(dest, e.key), JobsOf(src, e.key))[e.detail])
    && (forall e :: multiset(d.removed)[e] == Surplus(JobsOf(src, e.key), JobsOf(dest, e.key))[e.detail])
    && (forall c :: multiset(d.changed)[c] ==
          if OneToOne(JobsOf(src, c.key), JobsOf(dest, c.key))
          then multiset(JobChanges(c.key, JobsOf(src, c.key)[0], JobsOf(dest, c.key)[0]))[c] else 0)
  }

  lemma CronDiffIsUnique(a: Section, b: Section, src: seq<Job>, dest: seq<Job>)
    requires IsCronDiff(a, src, dest) && IsCronDiff(b, src, dest)
    ensures a == b
  {
    hide Surplus, JobChanges, JobsOf, OneToOne;
    LeEntryTotalOrder();
    LeChangeTotalOrder();
    assert multiset(a.added) == multiset(b.added) && multiset(a.removed) == multiset(b.removed);
    assert multiset(a.changed) == multiset(b.changed);
    SortedUnique(a.added, b.added, LeEntry);
    SortedUnique(a.removed, b.removed, LeEntry);
    SortedUnique(a.changed, b.changed, LeChange);
  }

  // The slots reported under a command.
  function DetailsUnder(entries: seq<Entry>, command: string): multiset<string> {
    if entries == [] then multiset{}
    else
      var last := entries[|entries| - 1];
      DetailsUnder(entries[..|entries| - 1], command) + if last.key == command then multiset{last.detail} else multiset{}
  }

  lemma {:induction false} DetailsCount(entries: seq<Entry>, command: string, s: string)
    ensures DetailsUnder(entries, command)[s] == multiset(entries)[Entry(command, s)]
  {
    if entries != [] {
      var n := |entries| - 1;
      assert entries == entries[..n] + [entries[n]];
      DetailsCount(entries[..n], command, s);
    }
  }

  // Slots are conserved: for every command that is not scheduled once on either side, what the source has and
  // what was added make up what the destination has and what was removed, and no slot is both added and removed.
  // A command scheduled once on either side has neither.
  lemma SlotsAreConserved(d: Section, src: seq<Job>, dest: seq<Job>, command: string)
    requires IsCronDiff(d, src, dest)
    ensures var a, b := JobsOf(src, command), JobsOf(dest, command);
            var added, removed := DetailsUnder(d.added, command), DetailsUnder(d.removed, command);
            && (!OneToOne(a, b) ==> Slots(a) + added == Slots(b) + removed)
            && (OneToOne(a, b) ==> added == multiset{} && removed == multiset{})
            && added !! removed
  {
    hide JobsOf, Slots, Sorted, DetailsUnder, JobChanges;
    var a, b := JobsOf(src, command), JobsOf(dest, command);
    var added, removed := DetailsUnder(d.added, command), DetailsUnder(d.removed, command);
    forall s ensures added[s] == Surplus(b, a)[s] && removed[s] == Surplus(a, b)[s] {
      DetailsCount(d.added, command, s);
      DetailsCount(d.removed, command, s);
      assert multiset(d.added)[Entry(command, s)] == Surplus(b, a)[s];
      assert multiset(d.removed)[Entry(command, s)] == Surplus(a, b)[s];
    }
    assert added == Surplus(b, a) && removed == Surplus(a, b);
  }

  // A command scheduled once on either side is reported as changed exactly when its slots differ.
  lemma OneJobChanges(d: Section, src: seq<Job>, dest: seq<Job>, command: string)
    requires IsCronDiff(d, src, dest) && OneToOne(JobsOf(src, command), JobsOf(dest, command))
    ensures (exists c :: c in d.changed && c.key == command) <==>
            (JobsOf(src, command)[0].schedule != JobsOf(dest, command)[0].schedule ||
             JobsOf(src, command)[0].enabled != JobsOf(dest, command)[0].enabled)
  {
    hide JobsOf, Surplus, Sorted;
    var a, b := JobsOf(src, command)[0], JobsOf(dest, command)[0];
    if c :| c in d.changed && c.key == command {
      assert c in multiset(d.changed);
      assert c in multiset(JobChanges(command, a, b));
      assert c in JobChanges(command, a, b);
    }
    if a.schedule != b.schedule {
      var c := Change(command, "schedule", a.schedule, b.schedule);
      assert c in JobChanges(command, a, b);
      assert multiset(d.changed)[c] > 0;
    }
    if a.enabled != b.enabled {
      var c := Change(command, "enabled", Flag(a.enabled), Flag(b.enabled));
      assert c in JobChanges(command, a, b);
      assert multiset(d.changed)[c] > 0;
    }
  }

  // ---------------------------------------------------------------- diffCron

  method CountSlots(jobs: seq<Job>) returns (m: map<string, nat>)
    ensures forall s :: (if s in m then m[s] else 0) == Slots(jobs)[s]
    ensures forall s :: s in m ==> m[s] > 0
  {
    hide Slot;
    m := map[];
    for i := 0 to |jobs|
      invariant forall s :: (if s in m then m[s] else 0) == Slots(jobs[..i])[s]
      invariant forall s :: s in m ==> m[s] > 0
    {
      assert jobs[..i + 1][..i] == jobs[..i];
      var s := Slot(jobs[i]);
      m := m[s := (if s in m then m[s] else 0) + 1];
    }
    assert jobs[..|jobs|] == jobs;
  }

  // One entry for every occurrence of a slot that the other side does not match.
  method CollectSurplus(command: string, more: seq<Job>, less: seq<Job>) returns (entries: seq<Entry>)
    ensures forall e :: multiset(entries)[e] == if e.key == command then (Slots(more) - Slots(less))[e.detail] else 0
  {
    hide Slots;
    entries := [];
    var have := CountSlots(more);
    var matched := CountSlots(less);
    var todo := have.Keys;
    while todo != {}
      invariant todo <= have.Keys
      invariant forall e :: multiset(entries)[e] == (if e.key == command && e.detail !in todo then (Slots(more) - Slots(less))[e.detail] else 0)
      decreases todo
    {
      var s :| s in todo;
      ghost var before := entries;
      var i: nat := if s in matched then matched[s] else 0;
      ghost var start := i;
      while i < have[s]
        invariant start <= i && (i <= have[s] || i == start)
        invariant forall e :: multiset(entries)[e] == multiset(before)[e] + if e == Entry(command, s) then i - start else 0
      {
        entries := entries + [Entry(command, s)];
        i := i + 1;
      }
      todo := todo - {s};
    }
  }

  // What the jobs of one command contribute to the report.
  method DiffCommand(command: string, src: seq<Job>, dest: seq<Job>)
    returns (added: seq<Entry>, removed: seq<Entry>, changed: seq<Change>)
    ensures forall e :: multiset(added)[e] == if e.key == command then Surplus(dest, src)[e.detail] else 0
    ensures forall e :: multiset(removed)[e] == if e.key == command then Surplus(src, dest)[e.detail] else 0
    ensures changed == if OneToOne(src, dest) then JobChanges(command, src[0], dest[0]) else []
  {
    hide Slots;
    added, removed, changed := [], [], [];
    if |src| == 1 && |dest| == 1 {
      if src[0].schedule != dest[0].schedule {
        changed := changed + [Change(command, "schedule", src[0].schedule, dest[0].schedule)];
      }
      if src[0].enabled != dest[0].enabled {
        changed := changed + [Change(command, "enabled", Flag(src[0].enabled), Flag(dest[0].enabled))];
      }
    } else {
      added := CollectSurplus(command, dest, src);
      removed := CollectSurplus(command, src, dest);
    }
  }

  method JobsFor(jobs: seq<Job>, command: string) returns (group: seq<Job>)
    ensures group == JobsOf(jobs, command)
  {
    group := [];
    for i := 0 to |jobs|
      invariant group == JobsOf(jobs[..i], command)
    {
      assert jobs[..i + 1][..i] == jobs[..i];
      if jobs[i].command == command {
        group := group + [jobs[i]];
      }
    }
    assert jobs[..|jobs|] == jobs;
  }

  lemma {:induction false} NoJobs(jobs: seq<Job>, command: string)
    requires command !in Commands(jobs)
    ensures JobsOf(jobs, command) == []
  {
    if jobs != [] {
      var n := |jobs| - 1;
      assert jobs == jobs[..n] + [jobs[n]];
      assert jobs[n] in jobs;
      NoJobs(jobs[..n], command);
    }
  }

  lemma NothingToReport(src: seq<Job>, dest: seq<Job>, command: string)
    requires command !in Commands(src) + Commands(dest)
    ensures Surplus(JobsOf(dest, command), JobsOf(src, command)) == multiset{}
    ensures Surplus(JobsOf(src, command), JobsOf(dest, command)) == multiset{}
    ensures !OneToOne(JobsOf(src, command), JobsOf(dest, command))
  {
    NoJobs(src, command);
    NoJobs(dest, command);
  }

  // The entries and changes of the commands in `done`.
  ghost predicate ReportsOf(added: seq<Entry>, removed: seq<Entry>, changed: seq<Change>, src: seq<Job>, dest: seq<Job>, done: set<string>) {
    && (forall e :: multiset(added)[e] ==
          if e.key in done then Surplus(JobsOf(dest, e.key), JobsOf(src, e.key))[e.detail] else 0)
    && (forall e :: multiset(removed)[e] ==
          if e.key in done then Surplus(JobsOf(src, e.key), JobsOf(dest, e.key))[e.detail] else 0)
    && (forall c :: multiset(changed)[c] ==
          if c.key in done && OneToOne(JobsOf(src, c.key), JobsOf(dest, c.key))
          then multiset(JobChanges(c.key, JobsOf(src, c.key)[0], JobsOf(dest, c.key)[0]))[c] else 0)
  }

  // diffCron. A command that only one side has goes the same way: the other side has no slots.
  method DiffCron(src: seq<Job>, dest: seq<Job>) returns (d: Section)
    ensures IsCronDiff(d, src, dest)
  {
    hide Sort, JobsOf, Surplus, JobChanges, ReportsOf;
    var added: seq<Entry>, removed: seq<Entry>, changed: seq<Change> := [], [], [];
    var todo := Commands(src) + Commands(dest);
    ghost var done: set<string> := {};
    NoReports(src, dest);
    while todo != {}
      invariant todo !! done && todo + done == Commands(src) + Commands(dest)
      invariant ReportsOf(added, removed, changed, src, dest, done)
      decreases todo
    {
      var command :| command in todo;
      var a := JobsFor(src, command);
      var b := JobsFor(dest, command);
      var more, fewer, other := DiffCommand(command, a, b);
      ReportsGrow(added, removed, changed, src, dest, done, command, more, fewer, other);
      added, removed, changed := added + more, removed + fewer, changed + other;
      todo, done := todo - {command}, done + {command};
    }
    assert done == Commands(src) + Commands(dest);
    LeEntryTotalOrder();
    LeChangeTotalOrder();
    SortSorts(added, LeEntry);
    SortSorts(removed, LeEntry);
    SortSorts(changed, LeChange);
    d := Section(Sort(added, LeEntry), Sort(removed, LeEntry), Sort(changed, LeChange));
    AllReported(d, added, removed, changed, src, dest, done);
  }

  lemma NoReports(src: seq<Job>, dest: seq<Job>)
    ensures ReportsOf([], [], [], src, dest, {})
  {
    hide Surplus, JobChanges, JobsOf;
  }

  lemma ReportsGrow(added: seq<Entry>, removed: seq<Entry>, changed: seq<Change>, src: seq<Job>, dest: seq<Job>, done: set<string>,
                    command: string, more: seq<Entry>, fewer: seq<Entry>, other: seq<Change>)
    requires ReportsOf(added, removed, changed, src, dest, done) && command !in done
    requires forall e :: multiset(more)[e] == if e.key == command then Surplus(JobsOf(dest, command), JobsOf(src, command))[e.detail] else 0
    requires forall e :: multiset(fewer)[e] == if e.key == command then Surplus(JobsOf(src, command), JobsOf(dest, command))[e.detail] else 0
    requires var a, b := JobsOf(src, command), JobsOf(dest, command);
             other == if OneToOne(a, b) then JobChanges(command, a[0], b[0]) else []
    ensures ReportsOf(added + more, removed + fewer, changed + other, src, dest, done + {command})
  {
    hide Surplus, JobsOf, JobChanges, OneToOne;
    var a, b := JobsOf(src, command), JobsOf(dest, command);
    if OneToOne(a, b) {
      ChangesAreOwn(command, a, b);
    }
    forall c ensures multiset(other)[c] == if c.key == command then multiset(other)[c] else 0 {
      assert c in multiset(other) ==> c in other;
    }
  }

  lemma ChangesAreOwn(command: string, a: seq<Job>, b: seq<Job>)
    requires OneToOne(a, b)
    ensures forall c :: c in JobChanges(command, a[0], b[0]) ==> c.key == command
  {
  }

  lemma AllReported(d: Section, added: seq<Entry>, removed: seq<Entry>, changed: seq<Change>, src: seq<Job>, dest: seq<Job>, done: set<string>)
    requires ReportsOf(added, removed, changed, src, dest, done) && done == Commands(src) + Commands(dest)
    requires multiset(d.added) == multiset(added) && multiset(d.removed) == multiset(removed) && multiset(d.changed) == multiset(changed)
    requires Sorted(d.added, LeEntry) && Sorted(d.removed, LeEntry) && Sorted(d.changed, LeChange)
    ensures IsCronDiff(d, src, dest)
  {
    hide Surplus, JobChanges, JobsOf, OneToOne, Commands, Sorted;
    forall k | k !in done
      ensures Surplus(JobsOf(dest, k), JobsOf(src, k)) == multiset{} && Surplus(JobsOf(src, k), JobsOf(dest, k)) == multiset{}
      ensures !OneToOne(JobsOf(src, k), JobsOf(dest, k))
    {
      NothingToReport(src, dest, k);
    }
  }
}
