// What a line of the block file says, in the words of its patterns and letter case aside.
module BlockLines {
  import opened Wrappers
  import opened Dns
  import opened Text
  import opened Patterns
  import opened DomainBlock

  ghost predicate StarInFront(line: string) {
    exists n | 0 <= n <= |line| :: Matches(START_WITH_STAR, line[..n])
  }

  ghost predicate StarBehind(item: string) {
    exists n | 0 <= n <= |item| :: Matches(END_WITH_STAR, item[n..])
  }

  /** The line without a star and dot in front. */
  ghost function Item(line: string): string {
    if StarInFront(line) && |line| >= 2 then line[2..] else line
  }

  ghost predicate WellFormed(item: string) {
    Matches(DOMAIN_OR_PREFIX, item) || '.' !in item
  }

  /** The name is the item, or ends with it right after a dot. */
  predicate EndsWith(name: string, item: string) {
    SameLetters(name, item) || exists i | 0 <= i < |name| :: name[i] == '.' && SameLetters(name[i + 1..], item)
  }

  /** The item is some start of the name up to a dot, and a star. */
  predicate StartsWith(name: string, item: string) {
    exists i | 0 <= i < |name| :: name[i] == '.' && SameLetters(name[..i] + ".*", item)
  }

  /** What a line says of a name without its final dot. */
  ghost predicate Blocks(line: string, name: string) {
    && WellFormed(Item(line))
    && if StarBehind(Item(line)) then StartsWith(name, Item(line)) else EndsWith(name, Item(line))
  }

  ghost predicate SomeBlocks(lines: seq<string>, name: string) {
    exists line | line in lines :: Blocks(line, name)
  }

  lemma ItemIsStripped(line: string)
    ensures Item(line) == StripStar(line) && (WellFormed(Item(line)) <==> Kept(StripStar(line)))
  {
    StartsWithStarIsPattern(line);
    DomainOrPrefixIsPattern(Item(line));
    NoDotOneLabel(Item(line));
  }

  lemma EndsWithIsDotSuffix(name: string, item: string)
    ensures EndsWith(name, item) <==> DotSuffix(Lower(name), Lower(item))
  {
    var n, d := Lower(name), Lower(item);
    SameLettersIffSameLower(name, item);
    forall i | 0 <= i < |name|
      ensures name[i] == '.' && SameLetters(name[i + 1..], item) <==> name[i] == '.' && n[i + 1..] == d
    {
      SameLettersIffSameLower(name[i + 1..], item);
      assert Lower(name[i + 1..]) == n[i + 1..];
    }
    if DotSuffix(n, d) && |d| < |n| {
      var i := |n| - |d| - 1;
      assert name[i] == '.' && SameLetters(name[i + 1..], item);
    }
    if DotSuffix(n, d) && |d| == |n| {
      assert n[0..] == n;
    }
    if EndsWith(name, item) && !SameLetters(name, item) {
      var i :| 0 <= i < |name| && name[i] == '.' && SameLetters(name[i + 1..], item);
      assert |n| - |d| == i + 1;
    }
    if n == d { assert n[0..] == d; }
  }

  lemma StarText(item: string)
    requires EndsWithStar(item)
    ensures EndsWithStar(Lower(item)) && Lower(item) == Lower(item)[..|item| - 2] + ".*"
  {
    var d, k := Lower(item), |item| - 2;
    assert item[k..][0] == '.' && item[k..][1] == '*';
    assert d[k..] == ".*";
    assert d == d[..k] + d[k..];
  }

  lemma StarBehindIsStar(item: string)
    ensures StarBehind(item) <==> EndsWithStar(Lower(item))
  {
    EndsWithStarIsPattern(item);
    if EndsWithStar(item) { StarText(item); }
    if EndsWithStar(Lower(item)) {
      var k := |item| - 2;
      assert Lower(item)[k..][0] == '.' && Lower(item)[k..][1] == '*';
      assert item[k..] == ".*";
    }
  }

  lemma StartsWithIsDotPrefix(name: string, item: string)
    requires EndsWithStar(item)
    ensures StartsWith(name, item) <==> DotPrefix(Lower(name), Lower(item)[..|item| - 2])
  {
    var n, d, k := Lower(name), Lower(item), |item| - 2;
    StarText(item);
    forall i | 0 <= i < |name| ensures SameLetters(name[..i] + ".*", item) <==> i == k && n[..i] == d[..k] {
      SameLettersIffSameLower(name[..i] + ".*", item);
      assert Lower(name[..i] + ".*") == n[..i] + ".*";
      if n[..i] + ".*" == d {
        assert |n[..i]| == k && (n[..i] + ".*")[..k] == n[..i];
      }
    }
    if DotPrefix(n, d[..k]) {
      assert name[k] == '.' && SameLetters(name[..k] + ".*", item);
    }
  }

  lemma BlocksIsRuleBlocks(line: string, name: string)
    ensures Blocks(line, name) <==> LineBlocks(line, Labels(Lower(name)))
  {
    var item := Item(line);
    ItemIsStripped(line);
    if Kept(item) {
      LineBlocksOnText(line, Lower(name));
      StarBehindIsStar(item);
      EndsWithStarIsPattern(item);
      EndsWithIsDotSuffix(name, item);
      if StarBehind(item) { StartsWithIsDotPrefix(name, item); }
    }
  }

  /** For every rule file and every query name: without a final dot an error; otherwise blocked iff some line says so. */
  lemma BlockedIffSomeLineSays(lines: seq<string>, queryName: string)
    ensures InBlocklist(RuleOf(lines), queryName) ==
            if queryName == "" then Err(MissingQueryName)
            else if queryName[|queryName| - 1] != '.' then Err(MissingFinalDot)
            else Ok(SomeBlocks(lines, queryName[..|queryName| - 1]))
  {
    BlockedIffSomeLineBlocks(lines, queryName);
    if queryName != "" {
      var name := queryName[..|queryName| - 1];
      assert Lower(queryName)[..|queryName| - 1] == Lower(name);
      forall line ensures Blocks(line, name) <==> LineBlocks(line, Labels(Lower(name))) {
        BlocksIsRuleBlocks(line, name);
      }
    }
  }

  lemma StarInFrontIsDropped(x: string, name: string)
    requires x != "" && x[0] != '\n' && !StarInFront(x)
    ensures Blocks("*." + x, name) <==> Blocks(x, name)
  {
    StartsWithStarIsPattern("*." + x);
    assert ("*." + x)[..2] == "*." && ("*." + x)[2..] == x;
  }

  lemma LineByLine(a: seq<string>, b: seq<string>, name: string)
    requires |a| == |b| && forall i :: 0 <= i < |a| ==> Blocks(a[i], name) ==> Blocks(b[i], name)
    ensures SomeBlocks(a, name) ==> SomeBlocks(b, name)
  {
    if line :| line in a && Blocks(line, name) {
      var i :| 0 <= i < |a| && a[i] == line;
      assert b[i] in b;
    }
  }

  /** `*.x` blocks what `x` blocks, wherever it stands in the file; only one star and dot is taken off. */
  lemma StarInFrontAddsNothing(lines: seq<string>, k: nat, queryName: string)
    requires k < |lines| && lines[k] != "" && lines[k][0] != '\n'
    requires !(|lines[k]| >= 3 && lines[k][0] == '*' && lines[k][1] == '.' && lines[k][2] != '\n')
    ensures InBlocklist(RuleOf(lines[k := "*." + lines[k]]), queryName) == InBlocklist(RuleOf(lines), queryName)
  {
    var starred := lines[k := "*." + lines[k]];
    BlockedIffSomeLineSays(lines, queryName);
    BlockedIffSomeLineSays(starred, queryName);
    if queryName != "" {
      var name := queryName[..|queryName| - 1];
      StartsWithStarIsPattern(lines[k]);
      StarInFrontIsDropped(lines[k], name);
      LineByLine(lines, starred, name);
      LineByLine(starred, lines, name);
    }
  }
}
