/** Zone files, the records parse_zone reports for them, and the one write the tool makes: the
    serial-guarded batch of internal/cpanel/dns_apply.go (removes first, then adds). */
module DnsZone {
  import opened Text
  import opened DnsNames
  import opened DnsText

  // internal/cpanel DNSRecord, without its line
  datatype Record = Record(typ: string, name: string, ttl: int, value: string, priority: nat,
                           exchange: string, address: string, target: string, txt: string)

  // A record together with its line index.
  datatype Live = Live(line: nat, rec: Record)

  // One line of a zone file; comments and directives carry no record.
  datatype Line = Entry(rec: Record) | Note(text: string)

  // A record the plan wants, its name canonical.
  datatype PlanRecord = PlanRecord(name: string, typ: string, ttl: int, data: seq<string>)

  // MassEditAddRecord
  datatype AddRecord = AddRecord(dname: string, ttl: int, typ: string, data: seq<string>)

  function Datum(data: seq<string>, i: nat): string {
    if i < |data| then data[i] else ""
  }

  // normalizeUAPIRecords, on the data of a line as it was written
  function Parsed(a: AddRecord): Record {
    var r := Record(a.typ, a.dname, a.ttl, "", 0, "", "", "", "");
    var first := Datum(a.data, 0);
    if a.typ == "A" || a.typ == "AAAA" then r.(address := first, value := first)
    else if a.typ == "CNAME" || a.typ == "NS" then r.(target := first, value := first)
    else if a.typ == "MX" then
      if |a.data| > 1 then
        r.(exchange := a.data[1], value := a.data[1],
           priority := match ParseInt(first) case Some(p) => p case None => 0)
      else r.(exchange := first, value := first)
    else if a.typ == "TXT" then r.(txt := Join(a.data), value := Join(a.data))
    else r.(value := first)
  }

  // parse_zone: the records with the indexes of their lines, from the line with index `at` on.
  function FetchFrom(lines: seq<Line>, at: nat): (r: seq<Live>)
    requires at <= |lines|
    ensures forall k :: 0 <= k < |r| ==> at <= r[k].line < |lines| && lines[r[k].line] == Entry(r[k].rec)
    ensures forall j, k :: 0 <= j < k < |r| ==> r[j].line < r[k].line
    ensures forall i :: at <= i < |lines| && lines[i].Entry? ==> Live(i, lines[i].rec) in r
    decreases |lines| - at
  {
    if at == |lines| then []
    else
      var rest := FetchFrom(lines, at + 1);
      if lines[at].Entry? then [Live(at, lines[at].rec)] + rest else rest
  }

  function Fetch(lines: seq<Line>): seq<Live> { FetchFrom(lines, 0) }

  lemma FetchHolds(lines: seq<Line>, l: nat)
    requires l < |lines| && lines[l].Entry?
    ensures Live(l, lines[l].rec) in Fetch(lines)
  {
  }

  // The lines left when those with an index in `removes` are taken out; `at` is the index of the first.
  function Without(lines: seq<Line>, at: nat, removes: set<nat>): seq<Line> {
    if lines == [] then []
    else (if at in removes then [] else [lines[0]]) + Without(lines[1..], at + 1, removes)
  }

  function Entries(adds: seq<AddRecord>): (r: seq<Line>)
    ensures |r| == |adds| && forall i :: 0 <= i < |adds| ==> r[i] == Entry(Parsed(adds[i]))
  {
    seq(|adds|, i requires 0 <= i < |adds| => Entry(Parsed(adds[i])))
  }

  function Indexes(removes: seq<nat>): set<nat> { set i | i in removes }

  // One accepted mass_edit_zone call.
  function Edited(lines: seq<Line>, removes: seq<nat>, adds: seq<AddRecord>): seq<Line> {
    Without(lines, 0, Indexes(removes)) + Entries(adds)
  }

  datatype Written = Accepted | StaleSerial | Error

  // The destination's copy of a zone. Every accepted edit changes the serial, and an edit that names
  // another serial is refused and leaves the zone alone.
  class Zone {
    var lines: seq<Line>
    var serial: nat

    constructor (lines: seq<Line>, serial: nat)
      ensures this.lines == lines && this.serial == serial
    {
      this.lines, this.serial := lines, serial;
    }

    method MassEditZoneBatch(named: nat, removes: seq<nat>, adds: seq<AddRecord>) returns (w: Written)
      modifies this
      ensures named == old(serial) ==> w == Accepted && lines == Edited(old(lines), removes, adds) && serial > old(serial)
      ensures named != old(serial) ==> w == StaleSerial && lines == old(lines) && serial == old(serial)
    {
      if named != serial {
        return StaleSerial;
      }
      lines := Edited(lines, removes, adds);
      serial := serial + 1;
      return Accepted;
    }
  }

  // ---------------------------------------------------------------- editing by key

  // What an rrset is known by: its type, whatever its case, and its absolute name.
  datatype Key = Key(typ: string, name: string)

  function KeyOf(rec: Record, zone: string): Key {
    Key(Lower(rec.typ), LiveName(rec.name, zone))
  }

  predicate At(line: Line, zone: string, keys: set<Key>) {
    line.Entry? && KeyOf(line.rec, zone) in keys
  }

  function Keep(lines: seq<Line>, zone: string, keys: set<Key>): (r: seq<Line>)
    ensures forall l :: l in r ==> l in lines && !At(l, zone, keys)
    ensures forall l :: l in lines && !At(l, zone, keys) ==> l in r
  {
    if lines == [] then []
    else (if At(lines[0], zone, keys) then [] else [lines[0]]) + Keep(lines[1..], zone, keys)
  }

  // Taking out exactly the lines at some keys keeps the others, in order.
  lemma {:induction false} WithoutIsKeep(lines: seq<Line>, at: nat, removes: set<nat>, zone: string, keys: set<Key>)
    requires forall i :: 0 <= i < |lines| ==> (at + i in removes <==> At(lines[i], zone, keys))
    ensures Without(lines, at, removes) == Keep(lines, zone, keys)
  {
    if lines != [] {
      assert at + 0 in removes <==> At(lines[0], zone, keys);
      forall i | 0 <= i < |lines[1..]| ensures (at + 1) + i in removes <==> At(lines[1..][i], zone, keys) {
        assert (at + 1) + i == at + (i + 1);
      }
      WithoutIsKeep(lines[1..], at + 1, removes, zone, keys);
    }
  }
}
