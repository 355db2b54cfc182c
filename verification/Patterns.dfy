// Regular expressions as far as the rule files need them, the patterns of the program, and what they say about labels.
module Patterns {
  import opened Text

  datatype Regex =
    | Class(ranges: seq<(char, char)>)
    | Any        // `.`: anything but a line feed
    | Space      // `\s`: Unicode White_Space
    | NonSpace   // `\S`
    | Then(first: Regex, second: Regex)
    | Or(left: Regex, right: Regex)
    | Many(each: Regex)

  function Lit(c: char): Regex {
    Class([(c, c)])
  }

  function Plus(r: Regex): Regex {
    Then(r, Many(r))
  }

  predicate IsSpace(c: char) {
    var n := c as int;
    || 0x09 <= n <= 0x0D || n == 0x20 || n == 0x85 || n == 0xA0 || n == 0x1680 || 0x2000 <= n <= 0x200A
    || n == 0x2028 || n == 0x2029 || n == 0x202F || n == 0x205F || n == 0x3000
  }

  /** A pattern for one character. */
  predicate IsSingle(r: Regex) {
    r.Class? || r.Any? || r.Space? || r.NonSpace?
  }

  predicate Allows(r: Regex, c: char)
    requires IsSingle(r)
  {
    match r
    case Class(ranges) => exists i | 0 <= i < |ranges| :: ranges[i].0 <= c <= ranges[i].1
    case Any => c != '\n'
    case Space => IsSpace(c)
    case NonSpace => !IsSpace(c)
  }

  /** The whole text matches. */
  ghost predicate Matches(r: Regex, s: string)
    decreases |s|, r
  {
    match r
    case Then(a, b) => exists i | 0 <= i <= |s| :: Matches(a, s[..i]) && Matches(b, s[i..])
    case Or(a, b) => Matches(a, s) || Matches(b, s)
    case Many(a) => s == "" || exists i | 0 < i <= |s| :: Matches(a, s[..i]) && Matches(r, s[i..])
    case _ => |s| == 1 && Allows(r, s[0])
  }

  // ---------- The patterns of the rules ----------

  const ALPHA := Class([('a', 'z'), ('A', 'Z')])
  const ALNUM := Class([('a', 'z'), ('A', 'Z'), ('0', '9')])
  const ALNUM_HYPHEN := Class([('a', 'z'), ('A', 'Z'), ('0', '9'), ('-', '-')])

  /** `[a-zA-Z0-9][a-zA-Z0-9-]*[a-zA-Z0-9]*` */
  const LABEL := Then(ALNUM, Then(Many(ALNUM_HYPHEN), Many(ALNUM)))

  /** `[a-zA-Z]{2,}` */
  const TOP_LABEL := Then(ALPHA, Then(ALPHA, Many(ALPHA)))

  /** `([a-zA-Z0-9][a-zA-Z0-9-]*[a-zA-Z0-9]*\.)+([a-zA-Z]{2,})` */
  const DOMAIN := Then(Plus(Then(LABEL, Lit('.'))), TOP_LABEL)

  /** The same with `([a-zA-Z]{2,}|\*)` at the end. */
  const DOMAIN_OR_PREFIX := Then(Plus(Then(LABEL, Lit('.'))), Or(TOP_LABEL, Lit('*')))

  /** `^\*\..+`, to be found at the start of a text. */
  const START_WITH_STAR := Then(Lit('*'), Then(Lit('.'), Plus(Any)))

  /** `.+\.\*$`, to be found at the end of a text. */
  const END_WITH_STAR := Then(Plus(Any), Then(Lit('.'), Lit('*')))

  // ---------- One character at a time ----------

  lemma {:induction false} ManySingles(r: Regex, s: string)
    requires IsSingle(r)
    ensures Matches(Many(r), s) <==> forall i :: 0 <= i < |s| ==> Allows(r, s[i])
    decreases |s|
  {
    if s != "" {
      ManySingles(r, s[1..]);
      assert s[..1] == [s[0]];
      if Matches(Many(r), s) {
        var n :| 0 < n <= |s| && Matches(r, s[..n]) && Matches(Many(r), s[n..]);
        assert n == 1;
        forall i | 0 <= i < |s| ensures Allows(r, s[i]) {
          if i > 0 { assert s[i] == s[1..][i - 1]; }
        }
      }
      if forall i :: 0 <= i < |s| ==> Allows(r, s[i]) {
        forall i | 0 <= i < |s[1..]| ensures Allows(r, s[1..][i]) { assert s[1..][i] == s[i + 1]; }
        assert Matches(r, s[..1]) && Matches(Many(r), s[1..]);
      }
    }
  }

  /** One character, then the rest. */
  lemma SingleThen(r: Regex, rest: Regex, s: string)
    requires IsSingle(r)
    ensures Matches(Then(r, rest), s) <==> s != "" && Allows(r, s[0]) && Matches(rest, s[1..])
  {
    if Matches(Then(r, rest), s) {
      var n :| 0 <= n <= |s| && Matches(r, s[..n]) && Matches(rest, s[n..]);
      assert n == 1 && s[..n][0] == s[0];
    }
    if s != "" && Allows(r, s[0]) && Matches(rest, s[1..]) {
      assert s[..1] == [s[0]];
      assert Matches(r, s[..1]) && Matches(rest, s[1..]);
    }
  }

  lemma PlusSingles(r: Regex, s: string)
    requires IsSingle(r)
    ensures Matches(Plus(r), s) <==> s != "" && forall i :: 0 <= i < |s| ==> Allows(r, s[i])
  {
    SingleThen(r, Many(r), s);
    if s != "" {
      ManySingles(r, s[1..]);
      assert forall i :: 0 < i < |s| ==> s[i] == s[1..][i - 1];
      assert forall i :: 0 <= i < |s[1..]| ==> s[1..][i] == s[i + 1];
    }
  }

  // ---------- Labels ----------

  predicate IsAlpha(c: char) {
    'a' <= c <= 'z' || 'A' <= c <= 'Z'
  }

  predicate IsAlnum(c: char) {
    IsAlpha(c) || '0' <= c <= '9'
  }

  lemma Classes(c: char)
    ensures Allows(ALPHA, c) <==> IsAlpha(c)
    ensures Allows(ALNUM, c) <==> IsAlnum(c)
    ensures Allows(ALNUM_HYPHEN, c) <==> IsAlnum(c) || c == '-'
  {
    assert ALPHA.ranges[0] == ('a', 'z') && ALPHA.ranges[1] == ('A', 'Z');
    assert ALNUM.ranges[0] == ('a', 'z') && ALNUM.ranges[1] == ('A', 'Z') && ALNUM.ranges[2] == ('0', '9');
    assert ALNUM_HYPHEN.ranges[0] == ('a', 'z') && ALNUM_HYPHEN.ranges[1] == ('A', 'Z');
    assert ALNUM_HYPHEN.ranges[2] == ('0', '9') && ALNUM_HYPHEN.ranges[3] == ('-', '-');
  }

  lemma LitAllows(c: char, x: char)
    ensures Allows(Lit(c), x) <==> x == c
  {
    assert Lit(c).ranges[0] == (c, c);
  }

  lemma LitMatches(c: char, s: string)
    ensures Matches(Lit(c), s) <==> s == [c]
  {
    LitAllows(c, c);
    if |s| == 1 { LitAllows(c, s[0]); }
  }

  predicate IsInnerLabel(l: string) {
    l != "" && IsAlnum(l[0]) && forall c | c in l :: IsAlnum(c) || c == '-'
  }

  predicate IsTopLabel(l: string) {
    |l| >= 2 && forall c | c in l :: IsAlpha(c)
  }

  lemma AfterFirst(l: string)
    requires Matches(Then(Many(ALNUM_HYPHEN), Many(ALNUM)), l)
    ensures forall i :: 0 <= i < |l| ==> IsAlnum(l[i]) || l[i] == '-'
  {
    var n :| 0 <= n <= |l| && Matches(Many(ALNUM_HYPHEN), l[..n]) && Matches(Many(ALNUM), l[n..]);
    ManySingles(ALNUM_HYPHEN, l[..n]);
    ManySingles(ALNUM, l[n..]);
    forall i | 0 <= i < |l| ensures IsAlnum(l[i]) || l[i] == '-' {
      Classes(l[i]);
      if i < n { assert l[i] == l[..n][i]; } else { assert l[i] == l[n..][i - n]; }
    }
  }

  lemma LabelMatches(l: string)
    ensures Matches(LABEL, l) <==> IsInnerLabel(l)
  {
    SingleThen(ALNUM, Then(Many(ALNUM_HYPHEN), Many(ALNUM)), l);
    if l != "" {
      var rest := l[1..];
      Classes(l[0]);
      if Matches(LABEL, l) {
        AfterFirst(rest);
        forall c | c in l ensures IsAlnum(c) || c == '-' {
          var i :| 0 <= i < |l| && l[i] == c;
          if i > 0 { assert l[i] == rest[i - 1]; }
        }
      }
      if IsInnerLabel(l) {
        forall i | 0 <= i < |rest| ensures Allows(ALNUM_HYPHEN, rest[i]) {
          Classes(rest[i]);
          assert rest[i] == l[i + 1] && l[i + 1] in l;
        }
        ManySingles(ALNUM_HYPHEN, rest);
        assert rest[..|rest|] == rest && rest[|rest|..] == "";
        assert Matches(Many(ALNUM_HYPHEN), rest[..|rest|]) && Matches(Many(ALNUM), rest[|rest|..]);
      }
    }
  }

  lemma TopLabelMatches(l: string)
    ensures Matches(TOP_LABEL, l) <==> IsTopLabel(l)
  {
    SingleThen(ALPHA, Then(ALPHA, Many(ALPHA)), l);
    if l != "" {
      SingleThen(ALPHA, Many(ALPHA), l[1..]);
      if |l| >= 2 {
        assert l[1..][1..] == l[2..];
        ManySingles(ALPHA, l[2..]);
        forall i | 0 <= i < |l| ensures Allows(ALPHA, l[i]) <==> IsAlpha(l[i]) { Classes(l[i]); }
        assert forall i :: 2 <= i < |l| ==> l[i] == l[2..][i - 2];
        assert forall i :: 0 <= i < |l| ==> l[i] in l;
        if IsTopLabel(l) {
          forall i | 0 <= i < |l[2..]| ensures Allows(ALPHA, l[2..][i]) { assert l[2..][i] == l[i + 2]; }
        }
        if Matches(TOP_LABEL, l) {
          forall c | c in l ensures IsAlpha(c) {
            var i :| 0 <= i < |l| && l[i] == c;
            if i >= 2 { assert Allows(ALPHA, l[2..][i - 2]); }
          }
        }
      }
    }
  }

  lemma {:induction false} NoDotOneLabel(s: string)
    ensures '.' !in s <==> Labels(s) == [s]
    ensures '.' !in s <==> |Labels(s)| == 1
  {
    if s != "" {
      NoDotOneLabel(s[1..]);
      assert s == [s[0]] + s[1..];
    }
  }

  /** The labels of a text up to its last dot, which it ends with. */
  predicate InnerLabelsAndDot(s: string) {
    var ls := Labels(s);
    ls[|ls| - 1] == "" && forall i :: 0 <= i < |ls| - 1 ==> IsInnerLabel(ls[i])
  }

  lemma InnerLabelThenDot(l: string, t: string)
    requires IsInnerLabel(l)
    ensures Labels(l + "." + t) == [l] + Labels(t)
  {
    NoDotOneLabel(l);
    LabelsConcat(l, t);
  }

  lemma LabelDotMatches(s: string)
    ensures Matches(Then(LABEL, Lit('.')), s) <==> s != "" && s[|s| - 1] == '.' && IsInnerLabel(s[..|s| - 1])
  {
    if Matches(Then(LABEL, Lit('.')), s) {
      var n :| 0 <= n <= |s| && Matches(LABEL, s[..n]) && Matches(Lit('.'), s[n..]);
      LitMatches('.', s[n..]);
      assert n == |s| - 1 && s[n..][0] == s[n];
      LabelMatches(s[..n]);
    }
    if s != "" && s[|s| - 1] == '.' && IsInnerLabel(s[..|s| - 1]) {
      var n := |s| - 1;
      LabelMatches(s[..n]);
      LitMatches('.', s[n..]);
      assert s[n..] == ".";
      assert Matches(LABEL, s[..n]) && Matches(Lit('.'), s[n..]);
    }
  }

  lemma {:induction false} MatchedLabels(s: string)
    requires Matches(Many(Then(LABEL, Lit('.'))), s)
    ensures InnerLabelsAndDot(s)
    decreases |s|
  {
    if s != "" {
      var r := Then(LABEL, Lit('.'));
      var n :| 0 < n <= |s| && Matches(r, s[..n]) && Matches(Many(r), s[n..]);
      MatchedLabels(s[n..]);
      LabelDotMatches(s[..n]);
      var l := s[..n][..n - 1];
      assert s == l + "." + s[n..];
      InnerLabelThenDot(l, s[n..]);
    }
  }

  lemma FirstLabel(s: string)
    requires |Labels(s)| > 1 && IsInnerLabel(Labels(s)[0])
    ensures var l := Labels(s)[0]; |l| < |s| && s == l + "." + s[|l| + 1..] && Labels(s[|l| + 1..]) == Labels(s)[1..]
  {
    var ls := Labels(s);
    var t := Join(ls[1..]);
    JoinLabels(s);
    assert s == ls[0] + ("." + t);
    ConcatAssoc(ls[0], ".", t);
    assert s[|ls[0]| + 1..] == t;
    InnerLabelThenDot(ls[0], t);
    assert ([ls[0]] + Labels(t))[1..] == Labels(t);
  }

  lemma {:induction false} LabelsMatch(s: string)
    requires InnerLabelsAndDot(s)
    ensures Matches(Many(Then(LABEL, Lit('.'))), s)
    decreases |s|
  {
    var ls := Labels(s);
    if |ls| == 1 {
      NoDotOneLabel(s);
    } else {
      var r, n := Then(LABEL, Lit('.')), |ls[0]| + 1;
      FirstLabel(s);
      LabelsMatch(s[n..]);
      LabelDotMatches(s[..n]);
      assert s[..n][..n - 1] == ls[0];
      assert Matches(r, s[..n]) && Matches(Many(r), s[n..]);
    }
  }

  /** A `+` is a repetition of something. */
  lemma PlusLabels(s: string)
    ensures Matches(Plus(Then(LABEL, Lit('.'))), s) <==> InnerLabelsAndDot(s) && s != ""
  {
    var r := Then(LABEL, Lit('.'));
    if Matches(Plus(r), s) {
      var n :| 0 <= n <= |s| && Matches(r, s[..n]) && Matches(Many(r), s[n..]);
      LabelDotMatches(s[..n]);
      assert Matches(Many(r), s);
      MatchedLabels(s);
    }
    if InnerLabelsAndDot(s) && s != "" {
      LabelsMatch(s);
      var n :| 0 < n <= |s| && Matches(r, s[..n]) && Matches(Many(r), s[n..]);
    }
  }

  /** Inner labels with a last one of the given form. */
  ghost predicate Dotted(s: string, last: Regex) {
    var ls := Labels(s);
    |ls| >= 2 && Matches(last, ls[|ls| - 1]) && forall i :: 0 <= i < |ls| - 1 ==> IsInnerLabel(ls[i])
  }

  /** A text with a dot is what stands before its last dot, the dot, and its last label. */
  lemma BeforeLastDot(s: string) returns (head: string)
    requires |Labels(s)| >= 2
    ensures var ls := Labels(s); s == head + "." + ls[|ls| - 1] && Labels(head) == ls[..|ls| - 1]
  {
    var ls := Labels(s);
    var n := |ls| - 1;
    head := Join(ls[..n]);
    JoinLabels(s);
    assert ls == ls[..n] + [ls[n]];
    JoinConcat(ls[..n], [ls[n]]);
    ConcatAssoc(head, ".", ls[n]);
    LastLabelHasNoDot(s);
    NoDotOneLabel(ls[n]);
    LabelsConcat(head, ls[n]);
    assert Labels(head) == (Labels(head) + [ls[n]])[..n];
  }

  lemma {:induction false} LastLabelHasNoDot(s: string)
    ensures '.' !in Labels(s)[|Labels(s)| - 1]
  {
    if s != "" { LastLabelHasNoDot(s[1..]); }
  }

  lemma LabelsOfParts(head: string, last: string)
    requires '.' !in last
    ensures Labels(head + "." + last) == Labels(head) + [last]
  {
    LabelsConcat(head, last);
    NoDotOneLabel(last);
  }

  lemma MatchedIsDotted(last: Regex, s: string, n: nat)
    requires n <= |s| && Matches(Plus(Then(LABEL, Lit('.'))), s[..n]) && Matches(last, s[n..]) && '.' !in s[n..]
    ensures Dotted(s, last)
  {
    var p, t := s[..n], s[n..];
    PlusLabels(p);
    NoDotOneLabel(p);
    var head := BeforeLastDot(p);
    assert s == head + "." + t;
    LabelsOfParts(head, t);
  }

  lemma DottedIsMatched(last: Regex, s: string) returns (n: nat)
    requires Dotted(s, last)
    ensures n <= |s| && Matches(Plus(Then(LABEL, Lit('.'))), s[..n]) && Matches(last, s[n..])
  {
    var ls := Labels(s);
    var head := BeforeLastDot(s);
    n := |head| + 1;
    assert s[..n] == head + "." + "" && s[n..] == ls[|ls| - 1];
    LabelsOfParts(head, "");
    PlusLabels(s[..n]);
  }

  /** What a dotted pattern says of the labels; `last` matches no dot. */
  lemma DottedMatches(last: Regex, s: string)
    requires forall t :: Matches(last, t) ==> '.' !in t
    ensures Matches(Then(Plus(Then(LABEL, Lit('.'))), last), s) <==> Dotted(s, last)
  {
    var plus := Plus(Then(LABEL, Lit('.')));
    if Matches(Then(plus, last), s) {
      var n :| 0 <= n <= |s| && Matches(plus, s[..n]) && Matches(last, s[n..]);
      MatchedIsDotted(last, s, n);
    }
    if Dotted(s, last) {
      var n := DottedIsMatched(last, s);
    }
  }
}
