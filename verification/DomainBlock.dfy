// The block list: rule lines become two search trees, and a query name is looked up in both.
module DomainBlock {
  import opened Wrappers
  import opened Dns
  import opened Text
  import opened Patterns
  import Trie

  // ---------- Rule lines ----------

  /** A dotted name whose last label is a top-level domain. */
  predicate IsDomain(x: string) {
    var ls := Labels(x);
    |ls| >= 2 && IsTopLabel(ls[|ls| - 1]) && forall i | 0 <= i < |ls| - 1 :: IsInnerLabel(ls[i])
  }

  /** A dotted name whose last label is a top-level domain or a star. */
  predicate IsDomainOrPrefix(x: string) {
    var ls := Labels(x);
    && |ls| >= 2
    && (ls[|ls| - 1] == "*" || IsTopLabel(ls[|ls| - 1]))
    && forall i | 0 <= i < |ls| - 1 :: IsInnerLabel(ls[i])
  }

  /** `^\*\..+` */
  predicate StartsWithStar(d: string) {
    |d| >= 3 && d[..2] == "*." && d[2] != '\n'
  }

  /** `.+\.\*$` */
  predicate EndsWithStar(d: string) {
    |d| >= 3 && d[|d| - 2..] == ".*" && d[|d| - 3] != '\n'
  }

  lemma DomainIsPattern(x: string)
    ensures IsDomain(x) <==> Matches(DOMAIN, x)
  {
    var ls := Labels(x);
    forall t ensures Matches(TOP_LABEL, t) ==> '.' !in t { TopLabelMatches(t); }
    DottedMatches(TOP_LABEL, x);
    TopLabelMatches(ls[|ls| - 1]);
  }

  lemma DomainOrPrefixIsPattern(x: string)
    ensures IsDomainOrPrefix(x) <==> Matches(DOMAIN_OR_PREFIX, x)
  {
    var ls := Labels(x);
    var last := Or(TOP_LABEL, Lit('*'));
    forall t
      ensures Matches(last, t) <==> IsTopLabel(t) || t == "*"
      ensures Matches(last, t) ==> '.' !in t
    {
      TopLabelMatches(t);
      LitMatches('*', t);
    }
    DottedMatches(last, x);
  }

  /** Found at the start. */
  lemma StartsWithStarIsPattern(d: string)
    ensures StartsWithStar(d) <==> exists n | 0 <= n <= |d| :: Matches(START_WITH_STAR, d[..n])
  {
    forall n | 0 <= n <= |d|
      ensures Matches(START_WITH_STAR, d[..n]) ==> StartsWithStar(d)
      ensures n == 3 && StartsWithStar(d) ==> Matches(START_WITH_STAR, d[..n])
    {
      var s := d[..n];
      LitAllows('*', if s == "" then 'x' else s[0]);
      SingleThen(Lit('*'), Then(Lit('.'), Plus(Any)), s);
      if s != "" {
        LitAllows('.', if |s| == 1 then 'x' else s[1]);
        SingleThen(Lit('.'), Plus(Any), s[1..]);
        if |s| >= 2 {
          assert s[1..][1..] == s[2..];
          PlusSingles(Any, s[2..]);
          assert d[..2] == [d[0], d[1]];
        }
      }
    }    if StartsWithStar(d) { assert Matches(START_WITH_STAR, d[..3]); }
  }

  lemma DotStar(s: string)
    ensures Matches(Then(Lit('.'), Lit('*')), s) <==> s == ".*"
  {
    SingleThen(Lit('.'), Lit('*'), s);
    if s != "" {
      LitAllows('.', s[0]);
      LitMatches('*', s[1..]);
      assert s == [s[0]] + s[1..];
    }
  }

  lemma CutBeforeStar(s: string, n: nat)
    requires n <= |s| && Matches(Plus(Any), s[..n]) && Matches(Then(Lit('.'), Lit('*')), s[n..])
    ensures n == |s| - 2 >= 1 && s[n..] == ".*" && s[n - 1] != '\n'
  {
    PlusSingles(Any, s[..n]);
    DotStar(s[n..]);
    assert s[..n][n - 1] == s[n - 1];
  }

  lemma StarAtEnd(s: string)
    requires Matches(END_WITH_STAR, s)
    ensures |s| >= 3 && s[|s| - 2..] == ".*" && s[|s| - 3] != '\n'
  {
    var n :| 0 <= n <= |s| && Matches(Plus(Any), s[..n]) && Matches(Then(Lit('.'), Lit('*')), s[n..]);
    CutBeforeStar(s, n);
  }

  lemma OneThenStar(s: string)
    requires |s| == 3 && s[1..] == ".*" && s[0] != '\n'
    ensures Matches(END_WITH_STAR, s)
  {
    PlusSingles(Any, s[..1]);
    DotStar(s[1..]);
    assert Matches(Plus(Any), s[..1]) && Matches(Then(Lit('.'), Lit('*')), s[1..]);
  }

  /** Found at the end. */
  lemma EndsWithStarIsPattern(d: string)
    ensures EndsWithStar(d) <==> exists n | 0 <= n <= |d| :: Matches(END_WITH_STAR, d[n..])
  {
    if EndsWithStar(d) {
      var s := d[|d| - 3..];
      assert s[1..] == d[|d| - 2..] && s[0] == d[|d| - 3];
      OneThenStar(s);
    }
    if n :| 0 <= n <= |d| && Matches(END_WITH_STAR, d[n..]) {
      StarAtEnd(d[n..]);
      assert d[n..][|d| - n - 2..] == d[|d| - 2..] && d[n..][|d| - n - 3] == d[|d| - 3];
    }
  }

  function StripStar(d: string): string {
    if StartsWithStar(d) then d[2..] else d
  }

  predicate Kept(x: string) {
    IsDomainOrPrefix(x) || |Labels(x)| == 1
  }

  /** The surviving rules, in line order. */
  function Dict(lines: seq<string>): seq<string> {
    if lines == [] then []
    else
      var x := StripStar(lines[0]);
      (if Kept(x) then [Lower(x)] else []) + Dict(lines[1..])
  }

  function PrefixDict(dict: seq<string>): seq<string> {
    if dict == [] then []
    else (if EndsWithStar(dict[0]) then [dict[0][..|dict[0]| - 2]] else []) + PrefixDict(dict[1..])
  }

  function SuffixDict(dict: seq<string>): seq<string> {
    if dict == [] then []
    else (if EndsWithStar(dict[0]) then [] else [Reverse(dict[0])]) + SuffixDict(dict[1..])
  }

  datatype DomainBlockRule = DomainBlockRule(
    prefixCedar: Trie.Node,
    suffixCedar: Trie.Node,
    prefixDict: seq<string>,
    suffixDict: seq<string>
  ) {
    /** Each tree was filled from its list. */
    ghost predicate Valid() {
      && prefixCedar == Trie.Filled(prefixDict, |prefixDict|)
      && suffixCedar == Trie.Filled(suffixDict, |suffixDict|)
    }
  }

  function RuleOf(lines: seq<string>): (rule: DomainBlockRule)
    ensures rule.Valid()
  {
    var dict := Dict(lines);
    var prefixDict, suffixDict := PrefixDict(dict), SuffixDict(dict);
    DomainBlockRule(Trie.Filled(prefixDict, |prefixDict|), Trie.Filled(suffixDict, |suffixDict|), prefixDict, suffixDict)
  }

  /** The build: split the surviving rules into two lists and fill a tree from each. */
  method TryFrom(config: Option<seq<string>>) returns (r: Option<DomainBlockRule>)
    ensures r == match config case None => None case Some(lines) => Some(RuleOf(lines))
  {
    match config {
      case None =>
        r := None;
      case Some(lines) =>
        var dict := Dict(lines);
        var prefixDict := PrefixDict(dict);
        var suffixDict := SuffixDict(dict);
        var prefixCedar := Trie.Build(prefixDict);
        var suffixCedar := Trie.Build(suffixDict);
        r := Some(DomainBlockRule(prefixCedar, suffixCedar, prefixDict, suffixDict));
    }
  }

  // ---------- Lookup ----------

  /** Every position the walk yields is a position of the list the tree was filled from. */
  lemma WalkStaysInList(dict: seq<string>, text: string)
    ensures forall v :: v in Trie.CommonPrefixes(Trie.Filled(dict, |dict|), text) ==> v < |dict|
  {
    var t := Trie.Filled(dict, |dict|);
    forall v | v in Trie.CommonPrefixes(t, text) ensures v < |dict| {
      Trie.CommonPrefixesAreStoredPrefixes(t, text, v);
      var n :| 0 <= n <= |text| && Trie.Lookup(t, text[..n]) == Some(v);
      Trie.FilledKnowsItsKeys(dict, |dict|, text[..n]);
    }
  }

  /** The listed strings behind the positions the walk yields. */
  function MatchedItems(cedar: Trie.Node, dict: seq<string>, text: string): seq<string>
    requires cedar == Trie.Filled(dict, |dict|)
  {
    var hits := Trie.CommonPrefixes(cedar, text);
    WalkStaysInList(dict, text);
    assert forall i :: 0 <= i < |hits| ==> hits[i] in hits;
    seq(|hits|, i requires 0 <= i < |hits| => dict[hits[i]])
  }

  lemma MatchedItemIsListedPrefix(dict: seq<string>, text: string, x: string)
    requires x in MatchedItems(Trie.Filled(dict, |dict|), dict, text)
    ensures x in dict && x <= text
  {
    var t := Trie.Filled(dict, |dict|);
    var hits := Trie.CommonPrefixes(t, text);
    WalkStaysInList(dict, text);
    var i :| 0 <= i < |hits| && MatchedItems(t, dict, text)[i] == x;
    assert hits[i] in hits;
    Trie.CommonPrefixesAreStoredPrefixes(t, text, hits[i]);
    var n :| 0 <= n <= |text| && Trie.Lookup(t, text[..n]) == Some(hits[i]);
    Trie.FilledKnowsItsKeys(dict, |dict|, text[..n]);
  }

  lemma ListedPrefixIsMatched(dict: seq<string>, text: string, x: string)
    requires x in dict && x <= text
    ensures x in MatchedItems(Trie.Filled(dict, |dict|), dict, text)
  {
    var t := Trie.Filled(dict, |dict|);
    var hits := Trie.CommonPrefixes(t, text);
    assert text[..|x|] == x && dict[..|dict|] == dict;
    Trie.FilledKnowsItsKeys(dict, |dict|, x);
    var v := Trie.Lookup(t, x).value;
    Trie.CommonPrefixesAreStoredPrefixes(t, text, v);
    var i :| 0 <= i < |hits| && hits[i] == v;
    assert MatchedItems(t, dict, text)[i] == x;
  }

  /** They are exactly the listed strings that start the text. */
  lemma MatchedItemsAreListedPrefixes(dict: seq<string>, text: string, x: string)
    ensures x in MatchedItems(Trie.Filled(dict, |dict|), dict, text) <==> x in dict && x <= text
  {
    if x in MatchedItems(Trie.Filled(dict, |dict|), dict, text) {
      MatchedItemIsListedPrefix(dict, text, x);
    }
    if x in dict && x <= text {
      ListedPrefixIsMatched(dict, text, x);
    }
  }

  predicate FindSuffixMatch(rule: DomainBlockRule, domain: string)
    requires rule.Valid()
  {
    var rev := Reverse(domain);
    exists found | found in MatchedItems(rule.suffixCedar, rule.suffixDict, rev) ::
      |found| == |rev| || (|found| < |rev| && rev[|found|] == '.')
  }

  predicate FindPrefixMatch(rule: DomainBlockRule, domain: string)
    requires rule.Valid()
  {
    exists found | found in MatchedItems(rule.prefixCedar, rule.prefixDict, domain) ::
      |found| < |domain| && domain[|found|] == '.'
  }

  /** `in_blocklist`: lower the name, take off its final dot, look in both trees. */
  function InBlocklist(rule: DomainBlockRule, queryName: string): Result<bool, DapError>
    requires rule.Valid()
  {
    var nn := Lower(queryName);
    if nn == "" then Err(MissingQueryName)
    else if nn[|nn| - 1] != '.' then Err(MissingFinalDot)
    else
      var domain := nn[..|nn| - 1];
      Ok(FindSuffixMatch(rule, domain) || FindPrefixMatch(rule, domain))
  }

  // ---------- Plain label matching ----------

  /** A rule ending in a star blocks the names that start with the labels before the star and go on; any other rule
      blocks the names that end with its labels. */
  predicate LabelRuleBlocks(rule: seq<string>, name: seq<string>) {
    if |rule| >= 2 && rule[|rule| - 1] == "*" then StartsWithLabels(name, rule[..|rule| - 1])
    else EndsWithLabels(name, rule)
  }

  /** What one line of the block file blocks, said on labels. */
  predicate LineBlocks(line: string, name: seq<string>) {
    Kept(StripStar(line)) && LabelRuleBlocks(Labels(Lower(StripStar(line))), name)
  }

  lemma {:induction false} LabelsOfLower(s: string)
    ensures |Labels(Lower(s))| == |Labels(s)|
    ensures forall i :: 0 <= i < |Labels(s)| ==> Labels(Lower(s))[i] == Lower(Labels(s)[i])
  {
    if s != "" {
      LabelsOfLower(s[1..]);
      assert Lower(s)[1..] == Lower(s[1..]);
    }
  }

  lemma StarTextGivesStarLabel(d: string)
    requires EndsWithStar(d)
    ensures Labels(d) == Labels(d[..|d| - 2]) + ["*"]
  {
    var base := d[..|d| - 2];
    assert d == base + "." + "*";
    LabelsConcat(base, "*");
    LabelsOfCons('*', "");
    assert ['*'] + "" == "*";
  }

  lemma {:induction false} JoinEndsWithLastLabel(ls: seq<string>)
    requires |ls| >= 1 && ls[|ls| - 1] != ""
    ensures var last := ls[|ls| - 1];
            Join(ls) != "" && Join(ls)[|Join(ls)| - 1] == last[|last| - 1]
  {
    if |ls| > 1 {
      JoinEndsWithLastLabel(ls[1..]);
    }
  }

  lemma StarLabelEndsText(d: string)
    requires var ls := Labels(d);
             var n := |ls| - 1;
             n >= 1 && ls[n] == "*" && ls[n - 1] != "" && ls[n - 1][|ls[n - 1]| - 1] != '\n'
    ensures EndsWithStar(d)
  {
    var ls := Labels(d);
    var n := |ls| - 1;
    JoinLabels(d);
    assert ls == ls[..n] + ["*"];
    JoinConcat(ls[..n], ["*"]);
    assert Join(["*"]) == "*";
    assert d == Join(ls[..n]) + ".*";
    JoinEndsWithLastLabel(ls[..n]);
    assert d[|d| - 2..] == ".*";
  }

  lemma InnerLabelEnd(l: string)
    requires IsInnerLabel(l)
    ensures Lower(l) != "" && Lower(l)[|l| - 1] != '\n'
  {
    assert l[|l| - 1] in l;
  }

  lemma StarLabelGivesStarText(x: string)
    requires Kept(x)
    requires |Labels(Lower(x))| >= 2 && Labels(Lower(x))[|Labels(Lower(x))| - 1] == "*"
    ensures EndsWithStar(Lower(x))
  {
    LabelsOfLower(x);
    InnerLabelEnd(Labels(x)[|Labels(x)| - 2]);
    StarLabelEndsText(Lower(x));
  }

  /** The star test on text and on labels agree for a surviving rule. */
  lemma StarOnLabels(x: string)
    requires Kept(x)
    ensures var d := Lower(x); var ls := Labels(d);
            && (EndsWithStar(d) <==> |ls| >= 2 && ls[|ls| - 1] == "*")
            && (EndsWithStar(d) ==> Labels(d[..|d| - 2]) == ls[..|ls| - 1])
  {
    var d := Lower(x);
    var ls := Labels(d);
    if EndsWithStar(d) {
      StarTextGivesStarLabel(d);
    }
    if |ls| >= 2 && ls[|ls| - 1] == "*" {
      StarLabelGivesStarText(x);
    }
  }

  lemma {:induction false} DictMembers(lines: seq<string>, d: string)
    ensures d in Dict(lines) <==> exists line :: line in lines && Kept(StripStar(line)) && d == Lower(StripStar(line))
  {
    if lines != [] {
      DictMembers(lines[1..], d);
      assert lines == [lines[0]] + lines[1..];
    }
  }

  lemma {:induction false} PrefixDictMembers(dict: seq<string>, p: string)
    ensures p in PrefixDict(dict) <==> exists d :: d in dict && EndsWithStar(d) && p == d[..|d| - 2]
  {
    if dict != [] {
      PrefixDictMembers(dict[1..], p);
      assert dict == [dict[0]] + dict[1..];
    }
  }

  lemma {:induction false} SuffixDictMembers(dict: seq<string>, r: string)
    ensures r in SuffixDict(dict) <==> exists d :: d in dict && !EndsWithStar(d) && r == Reverse(d)
  {
    if dict != [] {
      SuffixDictMembers(dict[1..], r);
      assert dict == [dict[0]] + dict[1..];
    }
  }

  /** A reversed rule starts the reversed name at a boundary iff the rule ends the name at one. */
  lemma ReversedBoundary(name: string, d: string)
    ensures DotSuffix(name, d) <==>
            var rev, found := Reverse(name), Reverse(d);
            found <= rev && (|found| == |rev| || (|found| < |rev| && rev[|found|] == '.'))
  {
    var rev, found := Reverse(name), Reverse(d);
    if found <= rev {
      forall i | 0 <= i < |d| ensures name[|name| - |d| + i] == d[i] {
        assert found[|d| - 1 - i] == rev[|d| - 1 - i];
      }
      assert name[|name| - |d|..] == d;
    }
    if DotSuffix(name, d) {
      forall i | 0 <= i < |found| ensures found[i] == rev[i] {
        assert name[|name| - |d|..][|d| - 1 - i] == d[|d| - 1 - i];
      }
    }
  }

  /** What one surviving rule blocks, said on text. */
  predicate RuleBlocks(d: string, domain: string) {
    if EndsWithStar(d) then DotPrefix(domain, d[..|d| - 2]) else DotSuffix(domain, d)
  }

  lemma SuffixMatchIsRuleSuffix(lines: seq<string>, domain: string)
    ensures FindSuffixMatch(RuleOf(lines), domain) <==>
            exists d :: d in Dict(lines) && !EndsWithStar(d) && RuleBlocks(d, domain)
  {
    var rule, rev := RuleOf(lines), Reverse(domain);
    if FindSuffixMatch(rule, domain) {
      var found :| found in MatchedItems(rule.suffixCedar, rule.suffixDict, rev)
        && (|found| == |rev| || (|found| < |rev| && rev[|found|] == '.'));
      MatchedItemsAreListedPrefixes(rule.suffixDict, rev, found);
      SuffixDictMembers(Dict(lines), found);
      var d :| d in Dict(lines) && !EndsWithStar(d) && found == Reverse(d);
      ReversedBoundary(domain, d);
    }
    if d :| d in Dict(lines) && !EndsWithStar(d) && RuleBlocks(d, domain) {
      ReversedBoundary(domain, d);
      SuffixDictMembers(Dict(lines), Reverse(d));
      MatchedItemsAreListedPrefixes(rule.suffixDict, rev, Reverse(d));
    }
  }

  lemma PrefixMatchComesFromRule(lines: seq<string>, domain: string)
    requires FindPrefixMatch(RuleOf(lines), domain)
    ensures exists d :: d in Dict(lines) && EndsWithStar(d) && RuleBlocks(d, domain)
  {
    var rule := RuleOf(lines);
    var found :| found in MatchedItems(rule.prefixCedar, rule.prefixDict, domain)
      && |found| < |domain| && domain[|found|] == '.';
    MatchedItemsAreListedPrefixes(rule.prefixDict, domain, found);
    PrefixDictMembers(Dict(lines), found);
  }

  lemma RuleGivesPrefixMatch(lines: seq<string>, domain: string, d: string)
    requires d in Dict(lines) && EndsWithStar(d) && RuleBlocks(d, domain)
    ensures FindPrefixMatch(RuleOf(lines), domain)
  {
    PrefixDictMembers(Dict(lines), d[..|d| - 2]);
    MatchedItemsAreListedPrefixes(RuleOf(lines).prefixDict, domain, d[..|d| - 2]);
  }

  lemma PrefixMatchIsRulePrefix(lines: seq<string>, domain: string)
    ensures FindPrefixMatch(RuleOf(lines), domain) <==>
            exists d :: d in Dict(lines) && EndsWithStar(d) && RuleBlocks(d, domain)
  {
    if FindPrefixMatch(RuleOf(lines), domain) {
      PrefixMatchComesFromRule(lines, domain);
    }
    if d :| d in Dict(lines) && EndsWithStar(d) && RuleBlocks(d, domain) {
      RuleGivesPrefixMatch(lines, domain, d);
    }
  }

  lemma RuleOnLabelsIsRuleOnText(d: string, domain: string)
    requires EndsWithStar(d) <==> |Labels(d)| >= 2 && Labels(d)[|Labels(d)| - 1] == "*"
    requires EndsWithStar(d) ==> Labels(d[..|d| - 2]) == Labels(d)[..|Labels(d)| - 1]
    ensures LabelRuleBlocks(Labels(d), Labels(domain)) <==> RuleBlocks(d, domain)
  {
    if EndsWithStar(d) {
      DotPrefixIsLabelPrefix(domain, d[..|d| - 2]);
    } else {
      DotSuffixIsLabelSuffix(domain, d);
    }
  }

  lemma LineBlocksOnText(line: string, domain: string)
    requires Kept(StripStar(line))
    ensures LineBlocks(line, Labels(domain)) <==> RuleBlocks(Lower(StripStar(line)), domain)
  {
    StarOnLabels(StripStar(line));
    RuleOnLabelsIsRuleOnText(Lower(StripStar(line)), domain);
  }

  predicate SomeLineBlocks(lines: seq<string>, name: seq<string>) {
    exists line | line in lines :: LineBlocks(line, name)
  }

  lemma MatchIffSomeLineBlocks(lines: seq<string>, domain: string)
    ensures FindSuffixMatch(RuleOf(lines), domain) || FindPrefixMatch(RuleOf(lines), domain) <==>
            SomeLineBlocks(lines, Labels(domain))
  {
    SuffixMatchIsRuleSuffix(lines, domain);
    PrefixMatchIsRulePrefix(lines, domain);
    if d :| d in Dict(lines) && RuleBlocks(d, domain) {
      DictMembers(lines, d);
      var line :| line in lines && Kept(StripStar(line)) && d == Lower(StripStar(line));
      LineBlocksOnText(line, domain);
    }
    if line :| line in lines && LineBlocks(line, Labels(domain)) {
      LineBlocksOnText(line, domain);
      DictMembers(lines, Lower(StripStar(line)));
    }
  }

  /** The trees answer as plain label matching does: for every rule list and every name with a final dot, the name is
      blocked iff some rule line blocks its lower-cased labels; a name without the final dot is an error. */
  lemma BlockedIffSomeLineBlocks(lines: seq<string>, queryName: string)
    ensures InBlocklist(RuleOf(lines), queryName) ==
            if queryName == "" then Err(MissingQueryName)
            else if queryName[|queryName| - 1] != '.' then Err(MissingFinalDot)
            else Ok(SomeLineBlocks(lines, Labels(Lower(queryName)[..|queryName| - 1])))
  {
    var nn := Lower(queryName);
    if queryName != "" {
      assert nn[|nn| - 1] == '.' <==> queryName[|queryName| - 1] == '.';
      MatchIffSomeLineBlocks(lines, nn[..|nn| - 1]);
    }
  }

  // ---------- Letter case ----------

  lemma KeptIgnoresCase(x: string)
    ensures Kept(Lower(x)) <==> Kept(x)
  {
    LabelsOfLower(x);
    var ls, ll := Labels(x), Labels(Lower(x));
    forall i | 0 <= i < |ls|
      ensures IsInnerLabel(ll[i]) <==> IsInnerLabel(ls[i])
      ensures IsTopLabel(ll[i]) <==> IsTopLabel(ls[i])
      ensures ll[i] == "*" <==> ls[i] == "*"
    {
      assert ll[i] == Lower(ls[i]);
      LabelKindIgnoresCase(ls[i]);
    }
  }

  lemma LabelKindIgnoresCase(l: string)
    ensures IsInnerLabel(Lower(l)) <==> IsInnerLabel(l)
    ensures IsTopLabel(Lower(l)) <==> IsTopLabel(l)
    ensures Lower(l) == "*" <==> l == "*"
  {
    forall i | 0 <= i < |l|
      ensures IsAlpha(Lower(l)[i]) <==> IsAlpha(l[i])
      ensures IsAlnum(Lower(l)[i]) <==> IsAlnum(l[i])
      ensures Lower(l)[i] == '-' <==> l[i] == '-'
      ensures Lower(l)[i] in Lower(l) && l[i] in l
    {
    }
    if |l| == 1 {
      assert Lower(l)[0] == '*' <==> l[0] == '*';
    }
  }

  lemma StripStarOfLower(d: string)
    ensures StripStar(Lower(d)) == Lower(StripStar(d))
  {
    if |d| >= 3 {
      assert Lower(d)[..2] == "*." <==> d[..2] == "*." by {
        if Lower(d)[..2] == "*." {
          assert Lower(d)[..2][0] == '*' && Lower(d)[..2][1] == '.';
          assert d[..2] == [d[0], d[1]];
        }
        if d[..2] == "*." {
          assert d[..2][0] == '*' && d[..2][1] == '.';
          assert Lower(d)[..2] == [Lower(d)[0], Lower(d)[1]];
        }
      }
      assert Lower(d)[2..] == Lower(d[2..]);
    }
  }

  lemma LineBlocksIgnoresCase(line: string, name: seq<string>)
    ensures LineBlocks(Lower(line), name) <==> LineBlocks(line, name)
  {
    StripStarOfLower(line);
    KeptIgnoresCase(StripStar(line));
    LowerIdempotent(StripStar(line));
  }

  lemma FinalDotIgnoresCase(name1: string, name2: string)
    requires Lower(name1) == Lower(name2)
    ensures |name1| == |name2|
    ensures name1 != "" ==> (name1[|name1| - 1] == '.' <==> name2[|name2| - 1] == '.')
  {
    assert |name1| == |Lower(name1)| == |Lower(name2)| == |name2|;
    if name1 != "" {
      assert Lower(name1)[|name1| - 1] == Lower(name2)[|name2| - 1];
    }
  }

  /** Letter case never matters (section 3 of RFC 4343), neither in the rules nor in the query name. */
  lemma BlockingIgnoresCase(lines1: seq<string>, lines2: seq<string>, name1: string, name2: string)
    requires |lines1| == |lines2| && forall i :: 0 <= i < |lines1| ==> SameLetters(lines1[i], lines2[i])
    requires SameLetters(name1, name2)
    ensures InBlocklist(RuleOf(lines1), name1) == InBlocklist(RuleOf(lines2), name2)
  {
    SameLettersIffSameLower(name1, name2);
    forall i | 0 <= i < |lines1| ensures Lower(lines1[i]) == Lower(lines2[i]) {
      SameLettersIffSameLower(lines1[i], lines2[i]);
    }
    BlockedIffSomeLineBlocks(lines1, name1);
    BlockedIffSomeLineBlocks(lines2, name2);
    FinalDotIgnoresCase(name1, name2);
    if name1 != "" {
      SomeLineBlocksIgnoresCase(lines1, lines2, Labels(Lower(name1)[..|name1| - 1]));
      SomeLineBlocksIgnoresCase(lines2, lines1, Labels(Lower(name1)[..|name1| - 1]));
    }
  }

  lemma SomeLineBlocksIgnoresCase(lines1: seq<string>, lines2: seq<string>, name: seq<string>)
    requires |lines1| == |lines2| && forall i :: 0 <= i < |lines1| ==> Lower(lines1[i]) == Lower(lines2[i])
    ensures SomeLineBlocks(lines1, name) ==> SomeLineBlocks(lines2, name)
  {
    if line :| line in lines1 && LineBlocks(line, name) {
      var i :| 0 <= i < |lines1| && lines1[i] == line;
      LineBlocksIgnoresCase(lines1[i], name);
      LineBlocksIgnoresCase(lines2[i], name);
      assert lines2[i] in lines2;
    }
  }
}
