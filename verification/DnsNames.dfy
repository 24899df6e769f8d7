/** Owner names and decimal numbers as the DNS code of cmd/cpanel-self-migration/dns_apply_cmd.go and
    internal/accountinventory/dnsplan.go writes them. */
module DnsNames {
  import opened Text

  predicate EndsWith(s: string, t: string) {
    |t| <= |s| && s == s[..|s| - |t|] + t
  }

  function TrimSuffix(s: string, t: string): string {
    if EndsWith(s, t) then s[..|s| - |t|] else s
  }

  // dnsCanonLiveName: a name as parse_zone reports it ("@", relative or absolute), made absolute.
  function LiveName(name: string, zone: string): string {
    var n := Lower(name);
    if n == "@" || n == "" then Lower(zone) + "."
    else if EndsWith(n, ".") then n
    else n + "." + Lower(zone) + "."
  }

  // dnsCanonToRelative: the form mass_edit_zone takes; the apex stays fully qualified.
  function ToRelative(canonical: string, zone: string): string {
    var apex := Lower(zone) + ".";
    var c := Lower(canonical);
    if c == apex then apex
    else if EndsWith(c, "." + apex) then TrimSuffix(c, "." + apex)
    else canonical
  }

  // canonDNSName: the plan's own canonical form.
  function PlanName(name: string, zone: string): string {
    var n := Lower(Trim(name));
    var z := TrimSuffix(Lower(Trim(zone)), ".") + ".";
    if n == "" || n == "@" then z
    else if EndsWith(n, ".") then n
    else if n == TrimSuffix(z, ".") then z
    else n + "." + z
  }

  predicate Canonical(name: string) {
    Lower(name) == name && EndsWith(name, ".")
  }

  // The owner part of a name inside the zone.
  function OwnerPart(name: string, zone: string): Option<string> {
    if name != zone + "." && EndsWith(name, "." + zone + ".") then Some(name[..|name| - |zone| - 2]) else None
  }

  // A zone name as the plan stores it.
  predicate ZoneName(zone: string) {
    zone != "" && Lower(zone) == zone && Trim(zone) == zone && !EndsWith(zone, ".")
  }

  lemma LiveNameIsCanonical(name: string, zone: string)
    ensures Canonical(LiveName(name, zone)) && LiveName(LiveName(name, zone), zone) == LiveName(name, zone)
  {
    var n := Lower(name);
    LowerIdempotent(name);
    LowerIdempotent(zone);
    LowerConcat(Lower(zone), ".");
    LowerConcat(n, "." + Lower(zone) + ".");
    LowerConcat(".", Lower(zone) + ".");
    assert "." + Lower(zone) + "." == "." + (Lower(zone) + ".");
    assert n + "." + Lower(zone) + "." == n + ("." + Lower(zone) + ".");
    assert Lower(".") == ".";
  }

  // A name inside the zone, cut into its owner part and the rest.
  lemma OwnerSplits(name: string, zone: string) returns (owner: string)
    requires Canonical(name) && ZoneName(zone) && OwnerPart(name, zone).Some?
    ensures OwnerPart(name, zone) == Some(owner) && name == owner + "." + (zone + ".") && Lower(owner) == owner
  {
    hide Lower, Trim;
    owner := OwnerPart(name, zone).value;
    var tail := "." + zone + ".";
    assert name == owner + tail && owner + tail == owner + "." + (zone + ".");
    LowerPrefix(owner, tail);
  }

  lemma LowerPrefix(a: string, b: string)
    requires Lower(a + b) == a + b
    ensures Lower(a) == a
  {
    LowerConcat(a, b);
    assert (a + b)[..|a|] == a && (Lower(a) + Lower(b))[..|a|] == Lower(a);
  }

  // What is written for a name: its owner part, or the whole name.
  lemma RelativeIsOwner(name: string, zone: string)
    requires Canonical(name) && ZoneName(zone)
    ensures ToRelative(name, zone) == match OwnerPart(name, zone) case Some(owner) => owner case None => name
  {
    hide Lower, Trim;
    assert "." + zone + "." == "." + (zone + ".");
  }

  // What is written for a canonical name reads back as that name, exactly when its owner part is not
  // empty, not "@" and does not end in a dot.
  lemma RelativeRoundTrip(name: string, zone: string)
    requires Canonical(name) && ZoneName(zone)
    ensures LiveName(ToRelative(name, zone), zone) == name
      <==> (OwnerPart(name, zone).Some? ==>
             var owner := OwnerPart(name, zone).value; owner != "" && owner != "@" && !EndsWith(owner, "."))
  {
    hide ToRelative, OwnerPart, Lower, Trim;
    RelativeIsOwner(name, zone);
    if OwnerPart(name, zone).Some? {
      var owner := OwnerSplits(name, zone);
    }
  }

  // The two canonical forms of a name agree exactly when no white space surrounds it and it is not the bare zone
  // name.
  lemma PlanNameIsLiveName(name: string, zone: string)
    requires ZoneName(zone)
    ensures PlanName(name, zone) == LiveName(name, zone) <==> Tight(name) && (Lower(name) != zone || zone == "@")
  {
    hide Trim, Lower;
    PlanNameCases(name, zone);
    if Tight(name) {
      assert |zone + "." + zone + "."| == 2 * |zone| + 2;
      assert Lower(name) + "." + zone + "." == Lower(name) + "." + (zone + ".");
    } else {
      TrimShortens(name);
      if EndsWith(Lower(name), ".") {
        assert IsSpace(name[0]) by { LastIsDot(name); }
        assert Lower(name)[0] == name[0] by { FirstSpace(name); }
      }
    }
  }

  // What the planner's form of a name is, by the name without its white space.
  lemma PlanNameCases(name: string, zone: string)
    requires ZoneName(zone)
    ensures var p, r := Lower(Trim(name)), PlanName(name, zone);
            && r == (if p == "" || p == "@" || p == zone then zone + "." else if EndsWith(p, ".") then p else p + "." + (zone + "."))
            && r != "" && !IsSpace(r[0])
  {
    var z := zone + ".";
    assert TrimSuffix(zone, ".") == zone;
    assert TrimSuffix(z, ".") == zone;
    assert Tight(zone);
    assert !IsSpace(z[0]);
    assert Lower(Trim(name)) != "" ==> !IsSpace(Lower(Trim(name))[0]);
  }

  lemma LastIsDot(s: string)
    requires !Tight(s) && EndsWith(Lower(s), ".")
    ensures IsSpace(s[0])
  {
    assert Lower(s)[|s| - 1] == '.';
  }

  lemma FirstSpace(s: string)
    requires s != "" && IsSpace(s[0])
    ensures Lower(s)[0] == s[0]
  {
  }

  // On the bare zone name they differ: the plan reads it as the apex.
  lemma BareZoneName(zone: string)
    requires ZoneName(zone) && zone != "@"
    ensures PlanName(zone, zone) == zone + "." && LiveName(zone, zone) == zone + "." + zone + "."
    ensures PlanName(zone, zone) != LiveName(zone, zone)
  {
    assert TrimSuffix(zone, ".") == zone;
    assert TrimSuffix(zone + ".", ".") == zone;
    assert |zone + "." + zone + "."| == 2 * |zone| + 2;
  }

  // ---------------------------------------------------------------- decimal numbers

  predicate IsDigit(c: char) { '0' <= c <= '9' }

  // strconv.Itoa on a number that is not negative
  function Itoa(n: nat): (s: string)
    ensures s != "" && forall i :: 0 <= i < |s| ==> IsDigit(s[i])
  {
    var digit := [('0' as int + n % 10) as char];
    if n < 10 then digit else Itoa(n / 10) + digit
  }

  // parseInt of internal/cpanel/dns_zones.go
  function ParseInt(s: string): Option<nat> {
    if s == "" then Some(0)
    else
      var c := s[|s| - 1];
      match ParseInt(s[..|s| - 1])
      case None => None
      case Some(n) => if IsDigit(c) then Some(n * 10 + (c as int - '0' as int)) else None
  }

  lemma {:induction false} ParseItoa(n: nat)
    ensures ParseInt(Itoa(n)) == Some(n)
  {
    var s := Itoa(n);
    var digit := ('0' as int + n % 10) as char;
    assert s[|s| - 1] == digit;
    if n < 10 {
      assert s[..|s| - 1] == "";
    } else {
      assert s[..|s| - 1] == Itoa(n / 10);
      ParseItoa(n / 10);
    }
  }

  lemma DottedNameStays(r: string, zone: string)
    requires EndsWith(r, ".") && Lower(r) == r && !IsSpace(r[0])
    ensures PlanName(r, zone) == r
  {
    hide Trim;
    assert r[|r| - 1] == '.';
    assert Trim(r) == r;
  }

  // The plan's canonical name is the trimmed, lower-cased name itself, the apex, or the name qualified.
  lemma PlanNameForms(name: string, zone: string)
    requires ZoneName(zone)
    ensures var n, r := Lower(Trim(name)), PlanName(name, zone);
            || (r == n && n != "" && EndsWith(n, "."))
            || r == zone + "."
            || (r == n + "." + (zone + ".") && n != "")
  {
    hide Trim, Lower;
    assert TrimSuffix(zone, ".") == zone;
  }

  // The plan's canonical form is one: absolute, lower-case, and left alone when taken again.
  lemma PlanNameIsCanonical(name: string, zone: string)
    requires ZoneName(zone)
    ensures Canonical(PlanName(name, zone)) && PlanName(PlanName(name, zone), zone) == PlanName(name, zone)
  {
    hide PlanName, Trim, Lower;
    var n, r := Lower(Trim(name)), PlanName(name, zone);
    PlanNameForms(name, zone);
    LowerIdempotent(Trim(name));
    assert n != "" ==> !IsSpace(n[0]);
    DottedNameStays(r, zone);
  }
}
