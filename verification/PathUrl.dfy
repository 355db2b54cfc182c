// Reading a relay URL back: what a relay can tell about the path from the URL the client built.
module PathUrl {
  import opened Wrappers
  import opened Paths

  datatype Hop = Hop(authority: string, path: string)

  datatype Decoded = Decoded(scheme: string, nexthop: Hop, target: Hop, later: seq<Hop>)

  /** The first value under a key. */
  function Lookup(query: seq<(string, string)>, key: string): Option<string> {
    if query == [] then None
    else if query[0].0 == key then Some(query[0].1)
    else Lookup(query[1..], key)
  }

  /** The relays numbered `i`, `i + 1`, ... as long as both keys are there, at most `fuel` of them. */
  function LaterHops(query: seq<(string, string)>, i: nat, fuel: nat): seq<Hop>
    decreases fuel
  {
    if fuel == 0 then []
    else
      var host, path := Lookup(query, HostKey(i)), Lookup(query, PathKey(i));
      if host.None? || path.None? then []
      else [Hop(host.value, path.value)] + LaterHops(query, i + 1, fuel - 1)
  }

  function Decode(url: Url): Option<Decoded> {
    var host, path := Lookup(url.query, TARGET_HOST), Lookup(url.query, TARGET_PATH);
    if host.None? || path.None? then None
    else Some(Decoded(url.scheme, Hop(url.authority, url.path), Hop(host.value, path.value),
                      LaterHops(url.query, 1, |url.query|)))
  }

  // ---------- Keys ----------

  function NumberOf(s: string): int {
    if s == "" then 0 else NumberOf(s[..|s| - 1]) * 10 + (s[|s| - 1] as int - '0' as int)
  }

  lemma {:induction false} DecimalReadsBack(n: nat)
    ensures NumberOf(Decimal(n)) == n
  {
    if n >= 10 {
      DecimalReadsBack(n / 10);
      var d := Decimal(n);
      assert d[..|d| - 1] == Decimal(n / 10);
    } else {
      assert [Digit(n)][..0] == "";
    }
  }

  lemma BracketedInjective(prefix: string, a: string, b: string)
    requires prefix + a + "]" == prefix + b + "]"
    ensures a == b
  {
    var s, t := prefix + a + "]", prefix + b + "]";
    assert |a| == |b|;
    assert s[|prefix|..|s| - 1] == a && t[|prefix|..|t| - 1] == b;
  }

  lemma KeysDiffer(i: nat, j: nat)
    ensures HostKey(i) == HostKey(j) ==> i == j
    ensures PathKey(i) == PathKey(j) ==> i == j
    ensures HostKey(i) != PathKey(j)
    ensures TARGET_HOST !in {TARGET_PATH, HostKey(i), PathKey(i)}
    ensures TARGET_PATH !in {HostKey(i), PathKey(i)}
  {
    DecimalReadsBack(i);
    DecimalReadsBack(j);
    if HostKey(i) == HostKey(j) { BracketedInjective("relayhost[", Decimal(i), Decimal(j)); }
    if PathKey(i) == PathKey(j) { BracketedInjective("relaypath[", Decimal(i), Decimal(j)); }
    assert HostKey(i)[5] == 'h' && PathKey(j)[5] == 'p' && PathKey(i)[5] == 'p';
    assert HostKey(i)[0] == 'r' && PathKey(i)[0] == 'r';
    assert TARGET_HOST[0] == 't' && TARGET_PATH[0] == 't';
    assert TARGET_HOST[6] != TARGET_PATH[6];
  }

  // ---------- Lookup ----------

  lemma {:induction false} LookupConcat(a: seq<(string, string)>, b: seq<(string, string)>, key: string)
    ensures Lookup(a + b, key) == if Lookup(a, key).Some? then Lookup(a, key) else Lookup(b, key)
  {
    if a == [] {
      assert a + b == b;
    } else {
      assert (a + b)[1..] == a[1..] + b;
      LookupConcat(a[1..], b, key);
    }
  }

  lemma LookupOne(k: string, v: string, key: string)
    ensures Lookup([(k, v)], key) == if key == k then Some(v) else None
  {
    assert [(k, v)][1..] == [];
  }

  lemma LookupTwo(k1: string, v1: string, k2: string, v2: string, key: string)
    ensures Lookup([(k1, v1), (k2, v2)], key) == if key == k1 then Some(v1) else if key == k2 then Some(v2) else None
  {
    assert [(k1, v1), (k2, v2)][1..] == [(k2, v2)];
    LookupOne(k2, v2, key);
  }

  /** Nothing numbered `i` or higher is under a key of `q`. */
  ghost predicate NoneFrom(q: seq<(string, string)>, i: nat) {
    forall j: nat :: j >= i ==> Lookup(q, HostKey(j)).None? && Lookup(q, PathKey(j)).None?
  }

  function HopsOf(relays: seq<DoHRelay>): seq<Hop> {
    seq(|relays|, i requires 0 <= i < |relays| => Hop(relays[i].authority, relays[i].path))
  }

  lemma PairsBelow(relay: DoHRelay, q: seq<(string, string)>, i: nat)
    requires NoneFrom(q, i)
    ensures var pair := [(HostKey(i), relay.authority), (PathKey(i), relay.path)];
            && Lookup(q + pair, HostKey(i)) == Some(relay.authority)
            && Lookup(q + pair, PathKey(i)) == Some(relay.path)
            && NoneFrom(q + pair, i + 1)
  {
    var pair := [(HostKey(i), relay.authority), (PathKey(i), relay.path)];
    forall j: nat | j >= i
      ensures Lookup(q + pair, HostKey(j)) == if j == i then Some(relay.authority) else None
      ensures Lookup(q + pair, PathKey(j)) == if j == i then Some(relay.path) else None
    {
      KeysDiffer(i, j);
      KeysDiffer(j, i);
      LookupConcat(q, pair, HostKey(j));
      LookupConcat(q, pair, PathKey(j));
      LookupTwo(HostKey(i), relay.authority, PathKey(i), relay.path, HostKey(j));
      LookupTwo(HostKey(i), relay.authority, PathKey(i), relay.path, PathKey(j));
    }
  }

  lemma {:induction false} LaterHopsReadBack(q: seq<(string, string)>, relays: seq<DoHRelay>, i: nat, fuel: nat)
    requires NoneFrom(q, i) && fuel >= |relays|
    ensures LaterHops(q + RelayPairs(relays, i), i, fuel) == HopsOf(relays)
    decreases |relays|
  {
    var query := q + RelayPairs(relays, i);
    if relays == [] {
      assert query == q;
    } else {
      var relay := relays[0];
      var pair := [(HostKey(i), relay.authority), (PathKey(i), relay.path)];
      var rest := RelayPairs(relays[1..], i + 1);
      PairsBelow(relay, q, i);
      assert query == (q + pair) + rest;
      LookupConcat(q + pair, rest, HostKey(i));
      LookupConcat(q + pair, rest, PathKey(i));
      LaterHopsReadBack(q + pair, relays[1..], i + 1, fuel - 1);
      assert HopsOf(relays) == [Hop(relay.authority, relay.path)] + HopsOf(relays[1..]);
    }
  }

  lemma {:induction false} RelayPairsLength(relays: seq<DoHRelay>, i: nat)
    ensures |RelayPairs(relays, i)| == 2 * |relays|
  {
    if relays != [] { RelayPairsLength(relays[1..], i + 1); }
  }

  /** The URL parser reads an origin as the program wrote it: this is what holds of the authority of a parsed URL. */
  ghost predicate ReadsOrigin(parse: UrlParser, relay: DoHRelay) {
    parse(Origin(relay)) == Some(Url(relay.scheme.AsStr(), relay.authority, "/", []))
  }

  // ---------- The pairs as they stand in the URL ----------

  /** The decimal digits of a number, without leading zeros. */
  ghost predicate IsNumeral(d: string, n: nat) {
    && d != "" && (forall i :: 0 <= i < |d| ==> '0' <= d[i] <= '9') && (|d| > 1 ==> d[0] != '0')
    && NumberOf(d) == n
  }

  lemma {:induction false} DecimalIsNumeral(n: nat)
    ensures IsNumeral(Decimal(n), n) && (n > 0 ==> Decimal(n)[0] != '0')
  {
    DecimalReadsBack(n);
    if n >= 10 { DecimalIsNumeral(n / 10); }
  }

  /** The two pairs of relay `i` of the path. */
  ghost predicate RelayPairAt(query: seq<(string, string)>, at: nat, relay: DoHRelay, i: nat) {
    && at + 1 < |query|
    && exists d :: IsNumeral(d, i)
         && query[at] == ("relayhost[" + d + "]", relay.authority)
         && query[at + 1] == ("relaypath[" + d + "]", relay.path)
  }

  lemma PairAfter(before: seq<(string, string)>, query: seq<(string, string)>, at: nat, relay: DoHRelay, i: nat)
    requires RelayPairAt(query, at, relay, i)
    ensures RelayPairAt(before + query, |before| + at, relay, i)
  {
    var all := before + query;
    assert all[|before| + at] == query[at] && all[|before| + at + 1] == query[at + 1];
  }

  lemma {:induction false} RelayPairsAt(relays: seq<DoHRelay>, i: nat, k: nat)
    requires k < |relays|
    ensures RelayPairAt(RelayPairs(relays, i), 2 * k, relays[k], i + k)
  {
    RelayPairsLength(relays, i);
    if k == 0 {
      DecimalIsNumeral(i);
    } else {
      RelayPairsAt(relays[1..], i + 1, k - 1);
      var pair := [(HostKey(i), relays[0].authority), (PathKey(i), relays[0].path)];
      PairAfter(pair, RelayPairs(relays[1..], i + 1), 2 * (k - 1), relays[k], i + k);
    }
  }

  /** An oblivious URL beside what the parser made of its origin. */
  ghost predicate PairsAsWritten(url: Url, parsed: Url, r: Route)
    requires r.relays != []
  {
    var n := |parsed.query|;
    && url.scheme == parsed.scheme && url.authority == parsed.authority && url.path == r.relays[0].path
    && |url.query| == n + 2 * |r.relays| && url.query[..n] == parsed.query
    && url.query[n] == ("targethost", r.target.authority) && url.query[n + 1] == ("targetpath", r.target.path)
    && forall i :: 1 <= i < |r.relays| ==> RelayPairAt(url.query, n + 2 * i, r.relays[i], i)
  }

  lemma LaterPairs(r: Route, i: nat)
    requires 1 <= i < |r.relays|
    ensures RelayPairAt(QueryOf(r), 2 * i, r.relays[i], i)
  {
    RelayPairsAt(r.relays[1..], 1, i - 1);
    var head := [(TARGET_HOST, r.target.authority), (TARGET_PATH, r.target.path)];
    PairAfter(head, RelayPairs(r.relays[1..], 1), 2 * (i - 1), r.relays[i], i);
  }

  lemma LaterPairsAfter(before: seq<(string, string)>, r: Route)
    requires r.relays != []
    ensures forall i :: 1 <= i < |r.relays| ==> RelayPairAt(before + QueryOf(r), |before| + 2 * i, r.relays[i], i)
  {
    forall i | 1 <= i < |r.relays| ensures RelayPairAt(before + QueryOf(r), |before| + 2 * i, r.relays[i], i) {
      LaterPairs(r, i);
      PairAfter(before, QueryOf(r), 2 * i, r.relays[i], i);
    }
  }

  lemma PairsAreAsWritten(parsed: Url, r: Route)
    requires r.relays != []
    ensures PairsAsWritten(parsed.(path := r.relays[0].path, query := parsed.query + QueryOf(r)), parsed, r)
  {
    var n, query := |parsed.query|, parsed.query + QueryOf(r);
    RelayPairsLength(r.relays[1..], 1);
    assert query[n] == QueryOf(r)[0] && query[n + 1] == QueryOf(r)[1];
    LaterPairsAfter(parsed.query, r);
  }

  /** The URL of a path, said on the URL itself. A standard path has the scheme and path of its target; an oblivious one
      the origin and path of its first relay, then the target under the keys of section 4.1 of RFC 9230, then the later
      relays in order under numbered keys. What the parser reads off the origin stays as it is. */
  lemma UrlAsWritten(parse: UrlParser, r: Route)
    ensures r.dohType == Standard && r.relays == [] ==>
              match parse(r.target.authority)
              case None => UrlOf(parse, r) == Err(ParseError)
              case Some(u) =>
                UrlOf(parse, r) ==
                Ok(Url(if r.target.scheme == Http then "http" else "https", u.authority, r.target.path, u.query))
    ensures (r.dohType == Standard && r.relays != [])
            || (r.dohType == Oblivious && (r.relays == [] || !r.relays[0].canBeNextHop)) ==>
              UrlOf(parse, r) == Err(FailedToBuildDohUrl)
    ensures r.dohType == Oblivious && r.relays != [] && r.relays[0].canBeNextHop ==>
              var origin := (if r.relays[0].scheme == Http then "http://" else "https://") + r.relays[0].authority;
              match parse(origin)
              case None => UrlOf(parse, r) == Err(ParseError)
              case Some(u) => UrlOf(parse, r).Ok? && PairsAsWritten(UrlOf(parse, r).value, u, r)
  {
    if r.dohType == Oblivious && r.relays != [] && r.relays[0].canBeNextHop {
      var origin := (if r.relays[0].scheme == Http then "http://" else "https://") + r.relays[0].authority;
      assert "http" + "://" == "http://" && "https" + "://" == "https://";
      assert Origin(r.relays[0]) == origin;
      if parse(origin).Some? { PairsAreAsWritten(parse(origin).value, r); }
    }
  }

  /** What the URL of an oblivious path determines. */
  function Visible(r: Route): Decoded
    requires r.relays != []
  {
    Decoded(r.relays[0].scheme.AsStr(), Hop(r.relays[0].authority, r.relays[0].path),
            Hop(r.target.authority, r.target.path), HopsOf(r.relays[1..]))
  }

  lemma TargetPairsReadBack(r: Route)
    requires r.relays != []
    ensures Lookup(QueryOf(r), TARGET_HOST) == Some(r.target.authority)
    ensures Lookup(QueryOf(r), TARGET_PATH) == Some(r.target.path)
    ensures LaterHops(QueryOf(r), 1, |QueryOf(r)|) == HopsOf(r.relays[1..])
  {
    var head := [(TARGET_HOST, r.target.authority), (TARGET_PATH, r.target.path)];
    var pairs := RelayPairs(r.relays[1..], 1);
    KeysDiffer(0, 0);
    forall key ensures Lookup(head, key) == if key == TARGET_HOST then Some(r.target.authority)
                                            else if key == TARGET_PATH then Some(r.target.path) else None {
      LookupTwo(TARGET_HOST, r.target.authority, TARGET_PATH, r.target.path, key);
    }
    LookupConcat(head, pairs, TARGET_HOST);
    LookupConcat(head, pairs, TARGET_PATH);
    forall j: nat | j >= 1 ensures Lookup(head, HostKey(j)).None? && Lookup(head, PathKey(j)).None? {
      KeysDiffer(j, j);
    }
    RelayPairsLength(r.relays[1..], 1);
    LaterHopsReadBack(head, r.relays[1..], 1, |QueryOf(r)|);
  }

  /** The URL of an oblivious path reads back to its next hop, its target and its later relays in order (target keys as
      in section 4.1 of RFC 9230); it exists exactly when the first relay may be a next hop. */
  lemma UrlReadsBack(parse: UrlParser, r: Route)
    requires r.dohType == Oblivious && (r.relays != [] ==> ReadsOrigin(parse, r.relays[0]))
    ensures UrlOf(parse, r).Ok? <==> r.relays != [] && r.relays[0].canBeNextHop
    ensures UrlOf(parse, r).Ok? ==> Decode(UrlOf(parse, r).value) == Some(Visible(r))
  {
    if r.relays != [] && r.relays[0].canBeNextHop {
      var url := UrlOf(parse, r).value;
      assert url.query == [] + QueryOf(r) == QueryOf(r);
      TargetPairsReadBack(r);
    }
  }

  /** Two paths share a URL exactly when they agree on everything but the schemes of the target and the later relays. */
  lemma SameUrlIffSameHops(parse: UrlParser, r1: Route, r2: Route)
    requires r1.dohType == Oblivious && r1.relays != [] && r1.relays[0].canBeNextHop && ReadsOrigin(parse, r1.relays[0])
    requires r2.dohType == Oblivious && r2.relays != [] && r2.relays[0].canBeNextHop && ReadsOrigin(parse, r2.relays[0])
    ensures UrlOf(parse, r1) == UrlOf(parse, r2) <==> Visible(r1) == Visible(r2)
  {
    UrlReadsBack(parse, r1);
    UrlReadsBack(parse, r2);
    if Visible(r1) == Visible(r2) {
      SameHopsSamePairs(r1.relays[1..], r2.relays[1..], 1);
    }
  }

  lemma {:induction false} SameHopsSamePairs(a: seq<DoHRelay>, b: seq<DoHRelay>, i: nat)
    requires HopsOf(a) == HopsOf(b)
    ensures RelayPairs(a, i) == RelayPairs(b, i)
  {
    assert |HopsOf(a)| == |a| && |HopsOf(b)| == |b|;
    if a != [] {
      assert HopsOf(a)[0] == HopsOf(b)[0];
      assert HopsOf(a[1..]) == HopsOf(a)[1..] && HopsOf(b[1..]) == HopsOf(b)[1..];
      SameHopsSamePairs(a[1..], b[1..], i + 1);
    }
  }
}
