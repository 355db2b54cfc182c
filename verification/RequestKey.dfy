// The cache key of a message: its lower-cased questions in sorted order.
module RequestKey {
  import opened Wrappers
  import opened Dns
  import Text

  type Request = seq<QueryKey>

  /** Order on strings by character code, shorter first on a tie. */
  predicate TextLe(a: string, b: string)
    decreases |a|
  {
    a == "" || (b != "" && (a[0] < b[0] || (a[0] == b[0] && TextLe(a[1..], b[1..]))))
  }

  /** The derived order on query keys: name, then type, then class. */
  predicate KeyLe(x: QueryKey, y: QueryKey) {
    if x.name != y.name then TextLe(x.name, y.name)
    else x.qtype < y.qtype || (x.qtype == y.qtype && x.qclass <= y.qclass)
  }

  /** `a` comes before `b`: at the first place where they differ its character is the smaller, or it ends there. */
  predicate Before(a: string, b: string) {
    exists n | 0 <= n <= |a| && n < |b| :: a[..n] == b[..n] && (n == |a| || a[n] < b[n])
  }

  lemma {:induction false} TextLeIsBefore(a: string, b: string)
    ensures TextLe(a, b) <==> a == b || Before(a, b)
    decreases |a|
  {
    if a == "" {
      if b != "" { assert a[..0] == b[..0]; }
    } else if b != "" {
      TextLeIsBefore(a[1..], b[1..]);
      if TextLe(a, b) { BeforeFromRest(a, b); }
      if a == b || Before(a, b) { RestFromBefore(a, b); }
    }
  }

  lemma BeforeFromRest(a: string, b: string)
    requires a != "" && b != "" && (a[0] < b[0] || (a[0] == b[0] && (a[1..] == b[1..] || Before(a[1..], b[1..]))))
    ensures a == b || Before(a, b)
  {
    if a[0] < b[0] {
      assert a[..0] == b[..0];
    } else if a[1..] == b[1..] {
      assert a == [a[0]] + a[1..] && b == [b[0]] + b[1..];
    } else {
      var n :| 0 <= n <= |a[1..]| && n < |b[1..]| && a[1..][..n] == b[1..][..n]
        && (n == |a[1..]| || a[1..][n] < b[1..][n]);
      assert a[..n + 1] == [a[0]] + a[1..][..n] && b[..n + 1] == [b[0]] + b[1..][..n];
    }
  }

  lemma RestFromBefore(a: string, b: string)
    requires a != "" && b != "" && (a == b || Before(a, b))
    ensures a[0] < b[0] || (a[0] == b[0] && (a[1..] == b[1..] || Before(a[1..], b[1..])))
  {
    if a != b {
      var n :| 0 <= n <= |a| && n < |b| && a[..n] == b[..n] && (n == |a| || a[n] < b[n]);
      if n > 0 {
        assert a[0] == a[..n][0] == b[..n][0] == b[0];
        assert a[1..][..n - 1] == a[..n][1..] && b[1..][..n - 1] == b[..n][1..];
        assert Before(a[1..], b[1..]);
      }
    }
  }

  /** Names decide first, character by character; then the type, then the class. */
  lemma KeyOrder(x: QueryKey, y: QueryKey)
    ensures Before(x.name, y.name) ==> KeyLe(x, y) && !KeyLe(y, x)
    ensures x.name == y.name && x.qtype < y.qtype ==> KeyLe(x, y) && !KeyLe(y, x)
    ensures x.name == y.name && x.qtype == y.qtype ==> (KeyLe(x, y) <==> x.qclass <= y.qclass)
    ensures x.name == y.name || Before(x.name, y.name) || Before(y.name, x.name)
  {
    TextLeIsBefore(x.name, y.name);
    TextLeIsBefore(y.name, x.name);
    TextLeTotal(x.name, y.name);
    if Before(x.name, y.name) { NotBeforeItself(x.name, y.name); }
    if TextLe(x.name, y.name) && TextLe(y.name, x.name) { TextLeAntisymmetric(x.name, y.name); }
  }

  lemma NotBeforeItself(a: string, b: string)
    requires Before(a, b)
    ensures a != b
  {
    var n :| 0 <= n <= |a| && n < |b| && a[..n] == b[..n] && (n == |a| || a[n] < b[n]);
  }

  lemma {:induction false} TextLeTotal(a: string, b: string)
    ensures TextLe(a, b) || TextLe(b, a)
    decreases |a|
  {
    if a != "" && b != "" && a[0] == b[0] {
      TextLeTotal(a[1..], b[1..]);
    }
  }

  lemma {:induction false} TextLeAntisymmetric(a: string, b: string)
    requires TextLe(a, b) && TextLe(b, a)
    ensures a == b
    decreases |a|
  {
    if a != "" {
      TextLeAntisymmetric(a[1..], b[1..]);
      assert a == [a[0]] + a[1..] && b == [b[0]] + b[1..];
    }
  }

  lemma {:induction false} TextLeTransitive(a: string, b: string, c: string)
    requires TextLe(a, b) && TextLe(b, c)
    ensures TextLe(a, c)
    decreases |a|
  {
    if a != "" && a[0] == b[0] && b[0] == c[0] {
      TextLeTransitive(a[1..], b[1..], c[1..]);
    }
  }

  lemma KeyLeTotal(x: QueryKey, y: QueryKey)
    ensures KeyLe(x, y) || KeyLe(y, x)
  {
    TextLeTotal(x.name, y.name);
  }

  lemma KeyLeAntisymmetric(x: QueryKey, y: QueryKey)
    requires KeyLe(x, y) && KeyLe(y, x)
    ensures x == y
  {
    if x.name != y.name {
      TextLeAntisymmetric(x.name, y.name);
    }
  }

  lemma KeyLeTransitive(x: QueryKey, y: QueryKey, z: QueryKey)
    requires KeyLe(x, y) && KeyLe(y, z)
    ensures KeyLe(x, z)
  {
    if x.name != y.name && y.name != z.name {
      TextLeTransitive(x.name, y.name, z.name);
      if x.name == z.name {
        TextLeAntisymmetric(x.name, y.name);
      }
    }
  }

  ghost predicate Sorted(ks: seq<QueryKey>) {
    forall i, j :: 0 <= i < j < |ks| ==> KeyLe(ks[i], ks[j])
  }

  lemma HeadIsLeast(ks: seq<QueryKey>, x: QueryKey)
    requires Sorted(ks) && x in multiset(ks)
    ensures ks != [] && KeyLe(ks[0], x)
  {
    var i :| 0 <= i < |ks| && ks[i] == x;
    if i == 0 { KeyLeTotal(x, x); }
  }

  function InsertKey(k: QueryKey, ks: seq<QueryKey>): (r: seq<QueryKey>)
    ensures |r| == |ks| + 1
  {
    if ks == [] then [k]
    else if KeyLe(k, ks[0]) then [k] + ks
    else [ks[0]] + InsertKey(k, ks[1..])
  }

  /** The keys in order. */
  function Sort(ks: seq<QueryKey>): (r: seq<QueryKey>)
    ensures |r| == |ks|
  {
    if ks == [] then [] else InsertKey(ks[0], Sort(ks[1..]))
  }

  lemma {:induction false} InsertKeyAddsOne(k: QueryKey, ks: seq<QueryKey>)
    ensures multiset(InsertKey(k, ks)) == multiset{k} + multiset(ks)
  {
    if ks != [] {
      assert ks == [ks[0]] + ks[1..];
      InsertKeyAddsOne(k, ks[1..]);
    }
  }

  lemma PrependSorted(k: QueryKey, ks: seq<QueryKey>)
    requires Sorted(ks) && forall x :: x in ks ==> KeyLe(k, x)
    ensures Sorted([k] + ks)
  {
    var all := [k] + ks;
    forall i, j | 0 <= i < j < |all| ensures KeyLe(all[i], all[j]) {
      assert all[j] == ks[j - 1];
      if i > 0 { assert all[i] == ks[i - 1]; }
    }
  }

  lemma {:induction false} InsertKeySorts(k: QueryKey, ks: seq<QueryKey>)
    requires Sorted(ks)
    ensures Sorted(InsertKey(k, ks))
  {
    if ks == [] {
    } else if KeyLe(k, ks[0]) {
      forall x | x in ks ensures KeyLe(k, x) {
        assert x in multiset(ks);
        HeadIsLeast(ks, x);
        KeyLeTransitive(k, ks[0], x);
      }
      PrependSorted(k, ks);
    } else {
      KeyLeTotal(k, ks[0]);
      InsertKeySorts(k, ks[1..]);
      InsertKeyAddsOne(k, ks[1..]);
      var tail := InsertKey(k, ks[1..]);
      forall x | x in tail ensures KeyLe(ks[0], x) {
        assert x in multiset(tail);
        if x != k {
          assert x in multiset(ks[1..]) && x in multiset(ks);
          HeadIsLeast(ks, x);
        }
      }
      PrependSorted(ks[0], tail);
    }
  }

  lemma {:induction false} SortIsSortedPermutation(ks: seq<QueryKey>)
    ensures Sorted(Sort(ks)) && multiset(Sort(ks)) == multiset(ks)
  {
    if ks != [] {
      SortIsSortedPermutation(ks[1..]);
      InsertKeySorts(ks[0], Sort(ks[1..]));
      InsertKeyAddsOne(ks[0], Sort(ks[1..]));
      assert ks == [ks[0]] + ks[1..];
    }
  }

  lemma TailMultiset(ks: seq<QueryKey>)
    requires ks != []
    ensures ks[0] in multiset(ks) && multiset(ks[1..]) == multiset(ks) - multiset{ks[0]}
  {
    assert ks == [ks[0]] + ks[1..];
  }

  lemma {:induction false} SortedPermutationUnique(a: seq<QueryKey>, b: seq<QueryKey>)
    requires Sorted(a) && Sorted(b) && multiset(a) == multiset(b)
    ensures a == b
  {
    if a == [] {
      if b != [] { TailMultiset(b); }
    } else {
      TailMultiset(a);
      HeadIsLeast(b, a[0]);
      TailMultiset(b);
      HeadIsLeast(a, b[0]);
      KeyLeAntisymmetric(a[0], b[0]);
      SortedPermutationUnique(a[1..], b[1..]);
      assert a == [a[0]] + a[1..] && b == [b[0]] + b[1..];
    }
  }

  function KeyOf(q: Question): QueryKey {
    QueryKey(Text.Lower(q.name), q.qtype, q.qclass)
  }

  /** The lower-cased questions in message order. */
  function KeysOf(qs: seq<Question>): seq<QueryKey> {
    seq(|qs|, i requires 0 <= i < |qs| => KeyOf(qs[i]))
  }

  function RequestOf(msg: Message): (r: Result<Request, DapError>)
    ensures r.Ok? ==> r.value != []
  {
    if msg.queries == [] then Err(InvalidDnsQuery) else Ok(Sort(KeysOf(msg.queries)))
  }

  /** `Request::try_from`: collect the lower-cased questions, then sort them. */
  method TryFrom(msg: Message) returns (r: Result<Request, DapError>)
    ensures r == RequestOf(msg)
  {
    if |msg.queries| == 0 {
      return Err(InvalidDnsQuery);
    }
    var queryKeys: seq<QueryKey> := [];
    for i := 0 to |msg.queries|
      invariant queryKeys == KeysOf(msg.queries)[..i]
    {
      var query := msg.queries[i];
      var name := Text.Lower(query.name);
      queryKeys := queryKeys + [QueryKey(name, query.qtype, query.qclass)];
    }
    assert queryKeys == KeysOf(msg.queries);
    queryKeys := Sort(queryKeys);
    r := Ok(queryKeys);
  }

  lemma SameKeyIffSameMultiset(m1: Message, m2: Message)
    requires m1.queries != [] && m2.queries != []
    ensures RequestOf(m1) == RequestOf(m2) <==> multiset(KeysOf(m1.queries)) == multiset(KeysOf(m2.queries))
  {
    var k1, k2 := KeysOf(m1.queries), KeysOf(m2.queries);
    SortIsSortedPermutation(k1);
    SortIsSortedPermutation(k2);
    if multiset(k1) == multiset(k2) {
      SortedPermutationUnique(Sort(k1), Sort(k2));
    }
  }

  // ---------- Which messages share a key ----------

  /** The same question, letter case aside. */
  predicate SameQuestion(q: Question, r: Question) {
    Text.SameLetters(q.name, r.name) && q.qtype == r.qtype && q.qclass == r.qclass
  }

  /** How many of the questions are this one. */
  function TimesAsked(qs: seq<Question>, q: Question): nat {
    if qs == [] then 0 else (if SameQuestion(qs[0], q) then 1 else 0) + TimesAsked(qs[1..], q)
  }

  /** The two lists ask each question equally often. */
  ghost predicate AskTheSame(qs: seq<Question>, rs: seq<Question>) {
    forall q :: TimesAsked(qs, q) == TimesAsked(rs, q)
  }

  lemma SameKeyIffSameQuestion(q: Question, r: Question)
    ensures KeyOf(q) == KeyOf(r) <==> SameQuestion(q, r)
  {
    Text.SameLettersIffSameLower(q.name, r.name);
  }

  lemma {:induction false} TimesAskedIsMultiplicity(qs: seq<Question>, q: Question)
    ensures multiset(KeysOf(qs))[KeyOf(q)] == TimesAsked(qs, q)
  {
    if qs != [] {
      TimesAskedIsMultiplicity(qs[1..], q);
      SameKeyIffSameQuestion(qs[0], q);
      assert KeysOf(qs) == [KeyOf(qs[0])] + KeysOf(qs[1..]);
    }
  }

  lemma EqualCounts(qs: seq<Question>, rs: seq<Question>)
    requires AskTheSame(qs, rs)
    ensures forall k :: k in multiset(KeysOf(qs)) ==> multiset(KeysOf(qs))[k] == multiset(KeysOf(rs))[k]
  {
    forall k | k in multiset(KeysOf(qs)) ensures multiset(KeysOf(qs))[k] == multiset(KeysOf(rs))[k] {
      var i :| 0 <= i < |qs| && KeysOf(qs)[i] == k;
      TimesAskedIsMultiplicity(qs, qs[i]);
      TimesAskedIsMultiplicity(rs, qs[i]);
    }
  }

  lemma SameMultisetIffAskTheSame(qs: seq<Question>, rs: seq<Question>)
    ensures multiset(KeysOf(qs)) == multiset(KeysOf(rs)) <==> AskTheSame(qs, rs)
  {
    if multiset(KeysOf(qs)) == multiset(KeysOf(rs)) {
      forall q ensures TimesAsked(qs, q) == TimesAsked(rs, q) {
        TimesAskedIsMultiplicity(qs, q);
        TimesAskedIsMultiplicity(rs, q);
      }
    }
    if AskTheSame(qs, rs) {
      EqualCounts(qs, rs);
      EqualCounts(rs, qs);
      forall k ensures multiset(KeysOf(qs))[k] == multiset(KeysOf(rs))[k] {
        if k !in multiset(KeysOf(qs)) && k !in multiset(KeysOf(rs)) {
          assert multiset(KeysOf(qs))[k] == 0 == multiset(KeysOf(rs))[k];
        }
      }
    }
  }

  /** Two messages share a cache key exactly when they ask each question equally often, letter case and order aside; a
      message without a question has none. */
  lemma SameKeyIffSameQuestions(m1: Message, m2: Message)
    ensures RequestOf(m1).Ok? <==> m1.queries != []
    ensures m1.queries != [] && m2.queries != [] ==>
              (RequestOf(m1) == RequestOf(m2) <==> AskTheSame(m1.queries, m2.queries))
  {
    if m1.queries != [] && m2.queries != [] {
      SameKeyIffSameMultiset(m1, m2);
      SameMultisetIffAskTheSame(m1.queries, m2.queries);
    }
  }

  /** A key holds the questions asked, in small letters. */
  lemma KeyReadsBack(msg: Message, k: QueryKey)
    requires msg.queries != []
    ensures k in RequestOf(msg).value ==>
              && (forall i :: 0 <= i < |k.name| ==> !('A' <= k.name[i] <= 'Z'))
              && exists q :: q in msg.queries && SameQuestion(q, Question(k.name, k.qtype, k.qclass))
  {
    var ks := KeysOf(msg.queries);
    SortIsSortedPermutation(ks);
    if k in Sort(ks) {
      assert k in multiset(Sort(ks));
      var i :| 0 <= i < |ks| && ks[i] == k;
      Text.LowerKeepsLetters(msg.queries[i].name);
      assert SameQuestion(msg.queries[i], Question(k.name, k.qtype, k.qclass));
    }
  }

  /** The first entry of a key, the only one the manipulators are shown, is the least question and not the first asked. */
  lemma FirstKeyIsLeast(msg: Message)
    requires msg.queries != []
    ensures RequestOf(msg).value != [] && RequestOf(msg).value[0] in KeysOf(msg.queries)
    ensures forall k :: k in KeysOf(msg.queries) ==> KeyLe(RequestOf(msg).value[0], k)
  {
    var ks := KeysOf(msg.queries);
    SortIsSortedPermutation(ks);
    assert ks[0] in multiset(ks);
    HeadIsLeast(Sort(ks), ks[0]);
    assert Sort(ks)[0] in multiset(Sort(ks));
    forall k | k in ks ensures KeyLe(Sort(ks)[0], k) {
      assert k in multiset(ks);
      HeadIsLeast(Sort(ks), k);
    }
  }
}
