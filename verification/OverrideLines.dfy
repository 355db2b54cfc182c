// What a line of the override file says, in the words of its pattern and letter case aside.
module OverrideLines {
  import opened Wrappers
  import opened Dns
  import opened Text
  import opened Patterns
  import opened DomainOverride
  import DomainBlock

  /** `^`, the domain pattern, `\s+\S+$` */
  const OVERRIDE_LINE := Then(DOMAIN, Then(Plus(Space), Plus(NonSpace)))

  /** A domain up to `i`, white space up to `j`, and one more word. */
  ghost predicate Cut(line: string, i: nat, j: nat) {
    && i <= j <= |line|
    && Matches(DOMAIN, line[..i]) && Matches(Plus(Space), line[i..j]) && Matches(Plus(NonSpace), line[j..])
  }

  /** The line gives this address to a name without its final dot. */
  ghost predicate Gives(line: string, parse: AddressParser, name: string, ip: IpAddr) {
    exists i: nat, j: nat :: Cut(line, i, j) && SameLetters(line[..i], name) && parse(line[j..]) == Some(ip)
  }

  // ---------- The pattern and the fields ----------

  lemma {:induction false} LabelOfCharacter(s: string, c: char)
    requires c in s && c != '.'
    ensures exists k :: 0 <= k < |Labels(s)| && c in Labels(s)[k]
  {
    var ls, rest := Labels(s), Labels(s[1..]);
    if s[0] == c {
      assert ls[0] == [c] + rest[0] && ls[0][0] == c;
    } else {
      assert s == [s[0]] + s[1..];
      LabelOfCharacter(s[1..], c);
      var k :| 0 <= k < |rest| && c in rest[k];
      if s[0] == '.' {
        assert ls[k + 1] == rest[k];
      } else if k == 0 {
        assert ls[0] == [s[0]] + rest[0];
      } else {
        assert ls[k] == rest[k];
      }
    }
  }

  lemma DomainHasNoSpace(x: string)
    requires DomainBlock.IsDomain(x)
    ensures x != "" && forall i :: 0 <= i < |x| ==> !IsSpace(x[i])
  {
    forall i | 0 <= i < |x| ensures !IsSpace(x[i]) {
      if x[i] != '.' {
        LabelOfCharacter(x, x[i]);
        var k :| 0 <= k < |Labels(x)| && x[i] in Labels(x)[k];
        assert IsTopLabel(Labels(x)[k]) || IsInnerLabel(Labels(x)[k]);
      }
    }
  }

  lemma {:induction false} WordEndsAt(s: string, n: nat)
    requires n <= |s| && (forall i :: 0 <= i < n ==> !IsSpace(s[i])) && (n == |s| || IsSpace(s[n]))
    ensures WordLength(s) == n
  {
    if n > 0 { WordEndsAt(s[1..], n - 1); }
  }

  lemma {:induction false} GapEndsAt(s: string, n: nat)
    requires n <= |s| && (forall i :: 0 <= i < n ==> IsSpace(s[i])) && (n == |s| || !IsSpace(s[n]))
    ensures GapLength(s) == n
  {
    if n > 0 { GapEndsAt(s[1..], n - 1); }
  }

  lemma {:induction false} WordHasNoSpace(s: string)
    ensures forall i :: 0 <= i < WordLength(s) ==> !IsSpace(s[i])
    ensures WordLength(s) < |s| ==> IsSpace(s[WordLength(s)])
  {
    if s != "" && !IsSpace(s[0]) {
      WordHasNoSpace(s[1..]);
      assert forall i :: 0 < i < |s| ==> s[i] == s[1..][i - 1];
    }
  }

  lemma {:induction false} GapIsSpace(s: string)
    ensures forall i :: 0 <= i < GapLength(s) ==> IsSpace(s[i])
  {
    if s != "" && IsSpace(s[0]) {
      GapIsSpace(s[1..]);
      assert forall i :: 0 < i < |s| ==> s[i] == s[1..][i - 1];
    }
  }

  lemma CutWord(line: string, i: nat, j: nat)
    requires Cut(line, i, j)
    ensures 0 < i < j && DomainBlock.IsDomain(line[..i]) && !IsSpace(line[0])
    ensures WordLength(line) == i
  {
    DomainBlock.DomainIsPattern(line[..i]);
    DomainHasNoSpace(line[..i]);
    PlusSingles(Space, line[i..j]);
    forall k | 0 <= k < i ensures !IsSpace(line[k]) { assert line[k] == line[..i][k]; }
    assert line[i] == line[i..j][0];
    WordEndsAt(line, i);
  }

  lemma CutGap(line: string, i: nat, j: nat)
    requires Cut(line, i, j)
    ensures j < |line| && GapLength(line[i..]) == j - i
  {
    PlusSingles(Space, line[i..j]);
    PlusSingles(NonSpace, line[j..]);
    var rest := line[i..];
    forall k | 0 <= k < j - i ensures IsSpace(rest[k]) { assert rest[k] == line[i..j][k]; }
    assert rest[j - i] == line[j..][0];
    GapEndsAt(rest, j - i);
  }

  lemma CutTarget(line: string, i: nat, j: nat)
    requires Cut(line, i, j)
    ensures j < |line| && !IsSpace(line[j]) && WordLength(line[j..]) == |line| - j
  {
    PlusSingles(NonSpace, line[j..]);
    assert line[j] == line[j..][0];
    WordEndsAt(line[j..], |line| - j);
  }

  lemma CutIsWellFormed(line: string, i: nat, j: nat)
    requires Cut(line, i, j)
    ensures WellFormed(line)
  {
    CutWord(line, i, j);
    CutGap(line, i, j);
    CutTarget(line, i, j);
  }

  lemma FirstField(line: string)
    requires line != "" && !IsSpace(line[0])
    ensures Fields(line) == [line[..WordLength(line)]] + Fields(line[WordLength(line)..])
  {
  }

  lemma LastField(rest: string, target: string)
    requires target == rest[GapLength(rest)..] && target != "" && !IsSpace(target[0]) && WordLength(target) == |target|
    ensures Fields(rest) == [target]
  {
    FieldsSkipGap(rest);
    OneField(target);
  }

  lemma TwoWords(line: string, i: nat, j: nat)
    requires 0 < i < j < |line| && !IsSpace(line[0]) && !IsSpace(line[j])
    requires WordLength(line) == i && GapLength(line[i..]) == j - i && WordLength(line[j..]) == |line| - j
    ensures Fields(line) == [line[..i], line[j..]]
  {
    FirstField(line);
    var rest, target := line[i..], line[j..];
    assert rest[j - i..] == target;
    LastField(rest, target);
    assert [line[..i]] + [target] == [line[..i], target];
  }

  lemma CutFields(line: string, i: nat, j: nat)
    requires Cut(line, i, j)
    ensures WellFormed(line) && Fields(line) == [line[..i], line[j..]]
  {
    CutIsWellFormed(line, i, j);
    CutWord(line, i, j);
    CutGap(line, i, j);
    CutTarget(line, i, j);
    TwoWords(line, i, j);
  }

  lemma WellFormedIsCut(line: string) returns (i: nat, j: nat)
    requires WellFormed(line)
    ensures Cut(line, i, j)
  {
    i := WordLength(line);
    j := i + GapLength(line[i..]);
    DomainBlock.DomainIsPattern(line[..i]);
    GapIsSpace(line[i..]);
    assert forall k :: 0 <= k < j - i ==> line[i..j][k] == line[i..][k];
    PlusSingles(Space, line[i..j]);
    WordHasNoSpace(line[j..]);
    PlusSingles(NonSpace, line[j..]);
  }

  lemma CutMatches(line: string, i: nat, j: nat)
    requires Cut(line, i, j)
    ensures Matches(OVERRIDE_LINE, line)
  {
    var rest := line[i..];
    assert rest[..j - i] == line[i..j] && rest[j - i..] == line[j..];
    assert Matches(Then(Plus(Space), Plus(NonSpace)), rest);
  }

  lemma MatchIsCut(line: string) returns (i: nat, j: nat)
    requires Matches(OVERRIDE_LINE, line)
    ensures Cut(line, i, j)
  {
    i :| i <= |line| && Matches(DOMAIN, line[..i]) && Matches(Then(Plus(Space), Plus(NonSpace)), line[i..]);
    var rest := line[i..];
    var n: nat :| n <= |rest| && Matches(Plus(Space), rest[..n]) && Matches(Plus(NonSpace), rest[n..]);
    j := i + n;
    assert rest[..n] == line[i..j] && rest[n..] == line[j..];
  }

  /** The lines that are read are those that match the pattern. */
  lemma WellFormedIsPattern(line: string)
    ensures WellFormed(line) <==> Matches(OVERRIDE_LINE, line)
  {
    if WellFormed(line) {
      var i, j := WellFormedIsCut(line);
      CutMatches(line, i, j);
    }
    if Matches(OVERRIDE_LINE, line) {
      var i, j := MatchIsCut(line);
      CutFields(line, i, j);
    }
  }

  lemma GivesIsMapping(line: string, parse: AddressParser, name: string, ip: IpAddr)
    ensures Gives(line, parse, name, ip) <==> Mapping(line, parse) == Some((Lower(name), ip))
  {
    if Gives(line, parse, name, ip) {
      var i: nat, j: nat :| Cut(line, i, j) && SameLetters(line[..i], name) && parse(line[j..]) == Some(ip);
      CutFields(line, i, j);
      SameLettersIffSameLower(line[..i], name);
    }
    if Mapping(line, parse) == Some((Lower(name), ip)) {
      var i, j := WellFormedIsCut(line);
      CutFields(line, i, j);
      SameLettersIffSameLower(line[..i], name);
    }
  }

  // ---------- The lookup ----------

  /** The first line that gives the name an address of this family gives `ip`. */
  ghost predicate FirstGives(lines: seq<string>, parse: AddressParser, name: string, k: nat, ip: IpAddr) {
    && k < |lines| && Gives(lines[k], parse, name, ip)
    && forall j, other :: 0 <= j < k && Gives(lines[j], parse, name, other) ==> other.V4? != ip.V4?
  }

  lemma AnswersIffGives(line: string, parse: AddressParser, name: string, qtype: u16)
    ensures LineAnswers(line, parse, Lower(name), qtype) <==>
            exists ip :: Gives(line, parse, name, ip) && ((qtype == 1 && ip.V4?) || (qtype == 28 && ip.V6?))
  {
    forall ip ensures Gives(line, parse, name, ip) <==> Mapping(line, parse) == Some((Lower(name), ip)) {
      GivesIsMapping(line, parse, name, ip);
    }
    if LineAnswers(line, parse, Lower(name), qtype) {
      assert Gives(line, parse, name, Mapping(line, parse).value.1);
    }
  }

  /** Type A (1) asks for an IPv4 address, type AAAA (28) for an IPv6 address, and no other type is ever overridden; the
      answer is the first such address the lines give to the name, and there is none only if no line gives one. */
  lemma FindMappingReadsLines(lines: seq<string>, parse: AddressParser, name: string, qtype: u16, qclass: u16)
    ensures var found := FindMapping(MapOf(lines, parse), QueryKey(name + ".", qtype, qclass));
            && (found.Some? ==> (qtype == 1 && found.value.V4?) || (qtype == 28 && found.value.V6?))
            && (found.Some? ==> exists k :: FirstGives(lines, parse, name, k, found.value))
            && (found.None? ==>
                  forall line, ip :: line in lines && Gives(line, parse, name, ip) ==>
                    (qtype == 1 ==> ip.V6?) && (qtype == 28 ==> ip.V4?))
  {
    var key := QueryKey(name + ".", qtype, qclass);
    FindMappingIsFirstMatchingLine(lines, parse, key);
    assert Lower(key.name)[..|name|] == Lower(name);
    if FirstMatch(lines, parse, Lower(name), qtype).Some? {
      FirstMatchGives(lines, parse, name, qtype);
    } else {
      NoMatchGivesNone(lines, parse, name, qtype);
    }
  }

  lemma FirstGivesOnce(lines: seq<string>, parse: AddressParser, name: string, k1: nat, ip1: IpAddr, k2: nat, ip2: IpAddr)
    requires FirstGives(lines, parse, name, k1, ip1) && FirstGives(lines, parse, name, k2, ip2) && ip1.V4? == ip2.V4?
    ensures k1 == k2 && ip1 == ip2
  {
    GivesIsMapping(lines[k1], parse, name, ip1);
    GivesIsMapping(lines[k2], parse, name, ip2);
  }

  /** Said of one address: it is the answer exactly if it is of the family asked for and the first such address. */
  lemma FoundIffFirstGiven(lines: seq<string>, parse: AddressParser, name: string, qtype: u16, qclass: u16, ip: IpAddr)
    ensures FindMapping(MapOf(lines, parse), QueryKey(name + ".", qtype, qclass)) == Some(ip) <==>
            && ((qtype == 1 && ip.V4?) || (qtype == 28 && ip.V6?))
            && exists k :: FirstGives(lines, parse, name, k, ip)
  {
    FindMappingReadsLines(lines, parse, name, qtype, qclass);
    if ((qtype == 1 && ip.V4?) || (qtype == 28 && ip.V6?)) && exists k :: FirstGives(lines, parse, name, k, ip) {
      var found := FindMapping(MapOf(lines, parse), QueryKey(name + ".", qtype, qclass));
      var k: nat :| FirstGives(lines, parse, name, k, ip);
      assert lines[k] in lines;
      var k2: nat :| FirstGives(lines, parse, name, k2, found.value);
      FirstGivesOnce(lines, parse, name, k, ip, k2, found.value);
    }
  }

  lemma NoDotNoMapping(lines: seq<string>, parse: AddressParser, key: QueryKey)
    requires key.name == "" || key.name[|key.name| - 1] != '.'
    ensures FindMapping(MapOf(lines, parse), key) == None
  {
    FindMappingIsFirstMatchingLine(lines, parse, key);
  }

  lemma FirstMatchGives(lines: seq<string>, parse: AddressParser, name: string, qtype: u16)
    requires FirstMatch(lines, parse, Lower(name), qtype).Some?
    ensures var ip := FirstMatch(lines, parse, Lower(name), qtype).value;
            && ((qtype == 1 && ip.V4?) || (qtype == 28 && ip.V6?))
            && exists k :: FirstGives(lines, parse, name, k, ip)
  {
    var k := EarliestLine(lines, parse, Lower(name), qtype);
    var ip := FirstMatch(lines, parse, Lower(name), qtype).value;
    GivesIsMapping(lines[k], parse, name, ip);
    forall j, other | 0 <= j < k && Gives(lines[j], parse, name, other) ensures other.V4? != ip.V4? {
      GivesIsMapping(lines[j], parse, name, other);
    }
    assert FirstGives(lines, parse, name, k, ip);
  }

  lemma NoMatchGivesNone(lines: seq<string>, parse: AddressParser, name: string, qtype: u16)
    requires FirstMatch(lines, parse, Lower(name), qtype).None?
    ensures forall line, ip :: line in lines && Gives(line, parse, name, ip) ==>
              (qtype == 1 ==> ip.V6?) && (qtype == 28 ==> ip.V4?)
  {
    NoMatchIffNoLineAnswers(lines, parse, Lower(name), qtype);
    forall line, ip | line in lines && Gives(line, parse, name, ip)
      ensures (qtype == 1 ==> ip.V6?) && (qtype == 28 ==> ip.V4?)
    {
      AnswersIffGives(line, parse, name, qtype);
    }
  }

  /** Letter case never matters in the name asked. */
  lemma OverridingIgnoresCase(m: Targets, key1: QueryKey, key2: QueryKey)
    requires SameLetters(key1.name, key2.name) && key1.qtype == key2.qtype
    ensures FindMapping(m, key1) == FindMapping(m, key2)
  {
    SameLettersIffSameLower(key1.name, key2.name);
  }
}
