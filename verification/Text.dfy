// Strings as the program uses them: ASCII lower-casing, splitting a domain name at its dots, reversal.
module Text {

  /** `char::to_ascii_lowercase`: only A to Z change. */
  function LowerChar(c: char): char {
    if 'A' <= c <= 'Z' then ((c as int) + 32) as char else c
  }

  function Lower(s: string): string {
    seq(|s|, i requires 0 <= i < |s| => LowerChar(s[i]))
  }

  lemma LowerIdempotent(s: string)
    ensures Lower(Lower(s)) == Lower(s)
  {
  }

  /** The same character, or a capital and its small letter. */
  predicate SameLetter(a: char, b: char) {
    || a == b
    || ('A' <= a <= 'Z' && b as int == a as int + 32)
    || ('A' <= b <= 'Z' && a as int == b as int + 32)
  }

  /** The same text, letter case aside (section 3 of RFC 4343). */
  predicate SameLetters(s: string, t: string) {
    |s| == |t| && forall i :: 0 <= i < |s| ==> SameLetter(s[i], t[i])
  }

  /** Lower-casing keeps the letters and leaves no capital. */
  lemma LowerKeepsLetters(s: string)
    ensures SameLetters(Lower(s), s)
    ensures forall i :: 0 <= i < |Lower(s)| ==> !('A' <= Lower(s)[i] <= 'Z')
  {
  }

  lemma SameLettersIffSameLower(s: string, t: string)
    ensures SameLetters(s, t) <==> Lower(s) == Lower(t)
  {
    if Lower(s) == Lower(t) {
      assert |s| == |Lower(s)| == |Lower(t)| == |t|;
      forall i | 0 <= i < |s| ensures SameLetter(s[i], t[i]) {
        assert Lower(s)[i] == Lower(t)[i];
      }
    }
  }

  function Reverse(s: string): string {
    seq(|s|, i requires 0 <= i < |s| => s[|s| - 1 - i])
  }

  /** Puts one more letter in front: a dot opens a new label. */
  function PushFront(c: char, ls: seq<string>): (r: seq<string>)
    requires |ls| >= 1
    ensures |r| >= 1
  {
    if c == '.' then [""] + ls else [[c] + ls[0]] + ls[1..]
  }

  /** The pieces of a name between its dots; a name without a dot is one piece. */
  function Labels(s: string): (ls: seq<string>)
    ensures |ls| >= 1
  {
    if s == "" then [""] else PushFront(s[0], Labels(s[1..]))
  }

  function Join(ls: seq<string>): string
    requires |ls| >= 1
  {
    if |ls| == 1 then ls[0] else ls[0] + ("." + Join(ls[1..]))
  }

  lemma ConcatAssoc(a: string, b: string, c: string)
    ensures (a + b) + c == a + (b + c)
  {
  }

  lemma JoinPushFront(c: char, ls: seq<string>)
    requires |ls| >= 1
    ensures Join(PushFront(c, ls)) == [c] + Join(ls)
  {
    var r := PushFront(c, ls);
    if c == '.' {
      assert r[1..] == ls;
      assert r[0] + ("." + Join(ls)) == "." + Join(ls);
    } else {
      assert r[1..] == ls[1..];
      if |ls| > 1 {
        ConcatAssoc([c], ls[0], "." + Join(ls[1..]));
      }
    }
  }

  lemma {:induction false} JoinLabels(s: string)
    ensures Join(Labels(s)) == s
  {
    if s != "" {
      JoinLabels(s[1..]);
      JoinPushFront(s[0], Labels(s[1..]));
      assert s == [s[0]] + s[1..];
    }
  }

  lemma {:induction false} JoinConcat(a: seq<string>, b: seq<string>)
    requires |a| >= 1 && |b| >= 1
    ensures Join(a + b) == Join(a) + ("." + Join(b))
  {
    if |a| == 1 {
      assert (a + b)[1..] == b;
    } else {
      assert (a + b)[1..] == a[1..] + b;
      JoinConcat(a[1..], b);
      ConcatAssoc(".", Join(a[1..]), "." + Join(b));
      ConcatAssoc(a[0], "." + Join(a[1..]), "." + Join(b));
    }
  }

  lemma LabelsOfCons(c: char, s: string)
    ensures Labels([c] + s) == PushFront(c, Labels(s))
  {
    assert ([c] + s)[1..] == s;
  }

  lemma PushFrontConcat(c: char, a: seq<string>, b: seq<string>)
    requires |a| >= 1
    ensures PushFront(c, a + b) == PushFront(c, a) + b
  {
    assert (a + b)[1..] == a[1..] + b;
  }

  lemma {:induction false} LabelsConcat(a: string, b: string)
    ensures Labels(a + "." + b) == Labels(a) + Labels(b)
  {
    if a == "" {
      assert a + "." + b == ['.'] + b;
      LabelsOfCons('.', b);
    } else {
      var rest := a[1..] + "." + b;
      assert a + "." + b == [a[0]] + rest;
      LabelsConcat(a[1..], b);
      LabelsOfCons(a[0], rest);
      PushFrontConcat(a[0], Labels(a[1..]), Labels(b));
    }
  }

  /** `rule` ends `name`, either as the whole name or right after a dot. */
  predicate DotSuffix(name: string, rule: string) {
    && |rule| <= |name|
    && name[|name| - |rule|..] == rule
    && (|rule| == |name| || name[|name| - |rule| - 1] == '.')
  }

  /** `rule` starts `name` and a dot follows it. */
  predicate DotPrefix(name: string, rule: string) {
    && |rule| < |name|
    && name[..|rule|] == rule
    && name[|rule|] == '.'
  }

  predicate EndsWithLabels(ls: seq<string>, rule: seq<string>) {
    |rule| <= |ls| && ls[|ls| - |rule|..] == rule
  }

  predicate StartsWithLabels(ls: seq<string>, rule: seq<string>) {
    |rule| < |ls| && ls[..|rule|] == rule
  }

  lemma DotSuffixGivesLabelSuffix(name: string, rule: string)
    requires DotSuffix(name, rule)
    ensures EndsWithLabels(Labels(name), Labels(rule))
  {
    if |rule| == |name| {
      assert name == rule;
    } else {
      var head := name[..|name| - |rule| - 1];
      assert name == head + "." + rule;
      LabelsConcat(head, rule);
    }
  }

  lemma LabelSuffixGivesDotSuffix(name: string, rule: string)
    requires EndsWithLabels(Labels(name), Labels(rule))
    ensures DotSuffix(name, rule)
  {
    var ls, rs := Labels(name), Labels(rule);
    var head := ls[..|ls| - |rs|];
    JoinLabels(name);
    JoinLabels(rule);
    assert ls == head + rs;
    if head == [] {
      assert ls == rs;
    } else {
      JoinConcat(head, rs);
    }
  }

  /** Cutting at a dot boundary is the same as cutting between labels, from the right. */
  lemma DotSuffixIsLabelSuffix(name: string, rule: string)
    ensures DotSuffix(name, rule) <==> EndsWithLabels(Labels(name), Labels(rule))
  {
    if DotSuffix(name, rule) {
      DotSuffixGivesLabelSuffix(name, rule);
    }
    if EndsWithLabels(Labels(name), Labels(rule)) {
      LabelSuffixGivesDotSuffix(name, rule);
    }
  }

  lemma DotPrefixGivesLabelPrefix(name: string, rule: string)
    requires DotPrefix(name, rule)
    ensures StartsWithLabels(Labels(name), Labels(rule))
  {
    var tail := name[|rule| + 1..];
    assert name == rule + "." + tail;
    LabelsConcat(rule, tail);
  }

  lemma LabelPrefixGivesDotPrefix(name: string, rule: string)
    requires StartsWithLabels(Labels(name), Labels(rule))
    ensures DotPrefix(name, rule)
  {
    var ls, rs := Labels(name), Labels(rule);
    var tail := ls[|rs|..];
    JoinLabels(name);
    JoinLabels(rule);
    assert ls == rs + tail;
    JoinConcat(rs, tail);
  }

  /** The same from the left; here at least one more label must follow. */
  lemma DotPrefixIsLabelPrefix(name: string, rule: string)
    ensures DotPrefix(name, rule) <==> StartsWithLabels(Labels(name), Labels(rule))
  {
    if DotPrefix(name, rule) {
      DotPrefixGivesLabelPrefix(name, rule);
    }
    if StartsWithLabels(Labels(name), Labels(rule)) {
      LabelPrefixGivesDotPrefix(name, rule);
    }
  }
}
