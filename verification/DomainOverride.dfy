// The override list: lines of a domain and an address become a hash map from domain to addresses.
module DomainOverride {
  import opened Wrappers
  import opened Dns
  import opened Text
  import opened Patterns
  import DomainBlock

  /** The address parser of the standard library together with the two address patterns, taken as given. */
  type AddressParser = string -> Option<IpAddr>

  // ---------- Lines ----------

  /** Length of the run without white space that `s` starts with. */
  function WordLength(s: string): (n: nat)
    ensures n <= |s|
  {
    if s == "" || IsSpace(s[0]) then 0 else 1 + WordLength(s[1..])
  }

  /** Length of the run of white space that `s` starts with. */
  function GapLength(s: string): (n: nat)
    ensures n <= |s|
  {
    if s == "" || !IsSpace(s[0]) then 0 else 1 + GapLength(s[1..])
  }

  /** `split_whitespace` */
  function Fields(s: string): seq<string>
    decreases |s|
  {
    if s == "" then []
    else if IsSpace(s[0]) then Fields(s[1..])
    else [s[..WordLength(s)]] + Fields(s[WordLength(s)..])
  }

  lemma {:induction false} FieldsSkipGap(s: string)
    ensures Fields(s) == Fields(s[GapLength(s)..])
  {
    if s != "" && IsSpace(s[0]) {
      FieldsSkipGap(s[1..]);
      assert s[1..][GapLength(s[1..])..] == s[GapLength(s)..];
    } else {
      assert s[0..] == s;
    }
  }

  lemma {:induction false} GapEnds(s: string)
    ensures GapLength(s) < |s| ==> !IsSpace(s[GapLength(s)])
  {
    if s != "" && IsSpace(s[0]) {
      GapEnds(s[1..]);
    }
  }

  /** A domain, white space, and one more word up to the end of the line. */
  predicate WellFormed(line: string) {
    var w := WordLength(line);
    var g := GapLength(line[w..]);
    var target := line[w + g..];
    g >= 1 && target != "" && WordLength(target) == |target| && DomainBlock.IsDomain(line[..w])
  }

  lemma OneField(s: string)
    requires s != "" && !IsSpace(s[0]) && WordLength(s) == |s|
    ensures Fields(s) == [s]
  {
    assert s[|s|..] == "" && s[..|s|] == s;
  }

  lemma TwoFields(line: string)
    requires line != "" && !IsSpace(line[0])
    requires var rest := line[WordLength(line)..]; var target := rest[GapLength(rest)..];
             target != "" && WordLength(target) == |target|
    ensures |Fields(line)| == 2
  {
    var rest := line[WordLength(line)..];
    var target := rest[GapLength(rest)..];
    FieldsSkipGap(rest);
    GapEnds(rest);
    assert target[0] == rest[GapLength(rest)];
    OneField(target);
  }

  /** A line that matches the pattern has exactly two fields, so the "invalid override rule" branch is never taken. */
  lemma WellFormedHasTwoFields(line: string)
    requires WellFormed(line)
    ensures |Fields(line)| == 2
  {
    var w := WordLength(line);
    assert line[w + GapLength(line[w..])..] == line[w..][GapLength(line[w..])..];
    assert line[..0] == "" && !DomainBlock.IsDomain("");
    TwoFields(line);
  }

  /** What one line contributes. */
  function Mapping(line: string, parse: AddressParser): Option<(string, IpAddr)> {
    if !WellFormed(line) then None
    else
      var split := Fields(line);
      if |split| != 2 then None
      else match parse(split[1])
           case Some(ip) => Some((Lower(split[0]), ip))
           case None => None
  }

  // ---------- The hash map ----------

  type Targets = map<string, seq<IpAddr>>

  function AddLine(m: Targets, line: string, parse: AddressParser): Targets {
    match Mapping(line, parse)
    case None => m
    case Some((domain, ip)) => m[domain := (if domain in m then m[domain] else []) + [ip]]
  }

  function MapOf(lines: seq<string>, parse: AddressParser): Targets {
    if lines == [] then map[]
    else AddLine(MapOf(lines[..|lines| - 1], parse), lines[|lines| - 1], parse)
  }

  /** The build loop. */
  method TryFrom(config: Option<seq<string>>, parse: AddressParser) returns (r: Option<Targets>)
    ensures r == match config case None => None case Some(lines) => Some(MapOf(lines, parse))
  {
    if config == None {
      return None;
    }
    var lines := config.value;
    var inner: Targets := map[];
    for i := 0 to |lines|
      invariant inner == MapOf(lines[..i], parse)
    {
      assert lines[..i + 1][..i] == lines[..i];
      if WellFormed(lines[i]) {
        var split := Fields(lines[i]);
        if |split| == 2 {
          var mapsTo := parse(split[1]);
          if mapsTo.Some? {
            var domain := Lower(split[0]);
            var entry := if domain in inner then inner[domain] else [];
            inner := inner[domain := entry + [mapsTo.value]];
          }
        }
      }
    }
    assert lines[..|lines|] == lines;
    r := Some(inner);
  }

  /** An address answers a question of its own family only. */
  predicate Fits(ip: IpAddr, qtype: u16) {
    match ip
    case V4(_) => qtype == TYPE_A
    case V6(_) => qtype == TYPE_AAAA
  }

  function FindFitting(ips: seq<IpAddr>, qtype: u16): Option<IpAddr> {
    if ips == [] then None
    else if Fits(ips[0], qtype) then Some(ips[0])
    else FindFitting(ips[1..], qtype)
  }

  function FindMapping(m: Targets, key: QueryKey): Option<IpAddr> {
    var nn := Lower(key.name);
    if nn == "" || nn[|nn| - 1] != '.' then None
    else
      var domain := nn[..|nn| - 1];
      if domain in m then FindFitting(m[domain], key.qtype) else None
  }

  // ---------- Reference: scan the lines ----------

  predicate LineAnswers(line: string, parse: AddressParser, domain: string, qtype: u16) {
    match Mapping(line, parse)
    case None => false
    case Some((d, ip)) => d == domain && Fits(ip, qtype)
  }

  /** The address of the first line that names the domain with an address of the asked family. */
  function FirstMatch(lines: seq<string>, parse: AddressParser, domain: string, qtype: u16): Option<IpAddr> {
    if lines == [] then None
    else if LineAnswers(lines[0], parse, domain, qtype) then Some(Mapping(lines[0], parse).value.1)
    else FirstMatch(lines[1..], parse, domain, qtype)
  }

  lemma {:induction false} FindFittingConcat(a: seq<IpAddr>, b: seq<IpAddr>, qtype: u16)
    ensures FindFitting(a + b, qtype) ==
            if FindFitting(a, qtype).Some? then FindFitting(a, qtype) else FindFitting(b, qtype)
  {
    if a == [] {
      assert a + b == b;
    } else {
      assert (a + b)[1..] == a[1..] + b;
      FindFittingConcat(a[1..], b, qtype);
    }
  }

  lemma {:induction false} FirstMatchSnoc(lines: seq<string>, line: string, parse: AddressParser, domain: string, qtype: u16)
    ensures FirstMatch(lines + [line], parse, domain, qtype) ==
            if FirstMatch(lines, parse, domain, qtype).Some? then FirstMatch(lines, parse, domain, qtype)
            else if LineAnswers(line, parse, domain, qtype) then Some(Mapping(line, parse).value.1)
            else None
  {
    if lines == [] {
      assert lines + [line] == [line];
      assert [line][1..] == [];
    } else {
      assert (lines + [line])[1..] == lines[1..] + [line];
      FirstMatchSnoc(lines[1..], line, parse, domain, qtype);
    }
  }

  lemma {:induction false} MapAgreesWithScan(lines: seq<string>, parse: AddressParser, domain: string, qtype: u16)
    ensures var m := MapOf(lines, parse);
            FirstMatch(lines, parse, domain, qtype) ==
            if domain in m then FindFitting(m[domain], qtype) else None
  {
    if lines != [] {
      var n := |lines| - 1;
      var m := MapOf(lines[..n], parse);
      assert lines == lines[..n] + [lines[n]];
      MapAgreesWithScan(lines[..n], parse, domain, qtype);
      FirstMatchSnoc(lines[..n], lines[n], parse, domain, qtype);
      match Mapping(lines[n], parse)
      case None =>
      case Some((d, ip)) =>
        if d == domain {
          FindFittingConcat(if domain in m then m[domain] else [], [ip], qtype);
          assert [ip][1..] == [];
        }
    }
  }

  /** A lookup in the hash map gives the address of the earliest fitting line; a name without the final dot gives none. */
  lemma FindMappingIsFirstMatchingLine(lines: seq<string>, parse: AddressParser, key: QueryKey)
    ensures FindMapping(MapOf(lines, parse), key) ==
            if key.name == "" || key.name[|key.name| - 1] != '.' then None
            else FirstMatch(lines, parse, Lower(key.name)[..|key.name| - 1], key.qtype)
  {
    if key.name != "" {
      assert Lower(key.name)[|key.name| - 1] == '.' <==> key.name[|key.name| - 1] == '.';
      MapAgreesWithScan(lines, parse, Lower(key.name)[..|key.name| - 1], key.qtype);
    }
  }

  lemma {:induction false} NoMatchIffNoLineAnswers(lines: seq<string>, parse: AddressParser, domain: string, qtype: u16)
    ensures FirstMatch(lines, parse, domain, qtype) == None <==>
            forall i :: 0 <= i < |lines| ==> !LineAnswers(lines[i], parse, domain, qtype)
  {
    if lines != [] {
      var rest := lines[1..];
      NoMatchIffNoLineAnswers(rest, parse, domain, qtype);
      assert forall i :: 0 < i < |lines| ==> lines[i] == rest[i - 1];
      assert forall i :: 0 <= i < |rest| ==> rest[i] == lines[i + 1];
    }
  }

  lemma {:induction false} EarliestLine(lines: seq<string>, parse: AddressParser, domain: string, qtype: u16)
    returns (i: nat)
    requires FirstMatch(lines, parse, domain, qtype).Some?
    ensures i < |lines| && LineAnswers(lines[i], parse, domain, qtype)
    ensures FirstMatch(lines, parse, domain, qtype) == Some(Mapping(lines[i], parse).value.1)
    ensures forall j :: 0 <= j < i ==> !LineAnswers(lines[j], parse, domain, qtype)
  {
    if LineAnswers(lines[0], parse, domain, qtype) {
      i := 0;
    } else {
      var rest := lines[1..];
      var r := EarliestLine(rest, parse, domain, qtype);
      i := r + 1;
      forall j | 0 <= j < i ensures !LineAnswers(lines[j], parse, domain, qtype) {
        if j > 0 { assert lines[j] == rest[j - 1]; }
      }
    }
  }

  /** First means first: no earlier line answers, and the address is that of a configured line. */
  lemma FirstMatchIsEarliest(lines: seq<string>, parse: AddressParser, domain: string, qtype: u16)
    ensures FirstMatch(lines, parse, domain, qtype) == None <==>
            forall i :: 0 <= i < |lines| ==> !LineAnswers(lines[i], parse, domain, qtype)
    ensures FirstMatch(lines, parse, domain, qtype).Some? ==>
              exists i :: 0 <= i < |lines| && LineAnswers(lines[i], parse, domain, qtype)
                && FirstMatch(lines, parse, domain, qtype) == Some(Mapping(lines[i], parse).value.1)
                && forall j :: 0 <= j < i ==> !LineAnswers(lines[j], parse, domain, qtype)
  {
    NoMatchIffNoLineAnswers(lines, parse, domain, qtype);
    if FirstMatch(lines, parse, domain, qtype).Some? {
      var i := EarliestLine(lines, parse, domain, qtype);
    }
  }
}
