// One relay path to a target: its loop check, its health flag and its URL.
module Paths {
  import opened Wrappers
  import opened Seqs

  datatype Scheme = Http | Https {
    function AsStr(): string {
      if Http? then "http" else "https"
    }
  }

  /** `Scheme::try_from(..).unwrap_or(Scheme::Https)` */
  function SchemeOf(s: string): Scheme {
    if s == "http" then Http else Https
  }

  datatype DoHType = Standard | Oblivious

  datatype DoHTarget = DoHTarget(authority: string, path: string, scheme: Scheme)

  datatype DoHRelay = DoHRelay(authority: string, path: string, scheme: Scheme, canBeNextHop: bool)

  /** What never changes about a path. */
  datatype Route = Route(target: DoHTarget, relays: seq<DoHRelay>, dohType: DoHType)

  function Authorities(relays: seq<DoHRelay>): seq<string> {
    seq(|relays|, i requires 0 <= i < |relays| => relays[i].authority)
  }

  /** No authority occurs twice among the target and the relays. */
  ghost predicate LoopFree(r: Route) {
    Distinct([r.target.authority] + Authorities(r.relays))
  }

  // ---------- URLs ----------

  /** A parsed URL; `query` lists its decoded pairs in order. */
  datatype Url = Url(scheme: string, authority: string, path: string, query: seq<(string, string)>)

  /** `Url::parse`, taken as given. */
  type UrlParser = string -> Option<Url>

  datatype UrlError = FailedToBuildDohUrl | ParseError

  function Digit(n: nat): char
    requires n < 10
  {
    (n + ('0' as int)) as char
  }

  /** The decimal digits of a number. */
  function Decimal(n: nat): string {
    if n < 10 then [Digit(n)] else Decimal(n / 10) + [Digit(n % 10)]
  }

  function HostKey(i: nat): string {
    "relayhost[" + Decimal(i) + "]"
  }

  function PathKey(i: nat): string {
    "relaypath[" + Decimal(i) + "]"
  }

  const TARGET_HOST := "targethost"
  const TARGET_PATH := "targetpath"

  /** The pairs for the relays after the next hop, numbered from `i`. */
  function RelayPairs(relays: seq<DoHRelay>, i: nat): seq<(string, string)> {
    if relays == [] then []
    else [(HostKey(i), relays[0].authority), (PathKey(i), relays[0].path)] + RelayPairs(relays[1..], i + 1)
  }

  function QueryOf(r: Route): seq<(string, string)>
    requires r.relays != []
  {
    [(TARGET_HOST, r.target.authority), (TARGET_PATH, r.target.path)] + RelayPairs(r.relays[1..], 1)
  }

  function Origin(relay: DoHRelay): string {
    relay.scheme.AsStr() + "://" + relay.authority
  }

  function UrlOf(parse: UrlParser, r: Route): Result<Url, UrlError> {
    match r.dohType
    case Standard =>
      if r.relays != [] then Err(FailedToBuildDohUrl)
      else (match parse(r.target.authority)
            case None => Err(ParseError)
            case Some(url) => Ok(url.(scheme := r.target.scheme.AsStr(), path := r.target.path)))
    case Oblivious =>
      if r.relays == [] || !r.relays[0].canBeNextHop then Err(FailedToBuildDohUrl)
      else match parse(Origin(r.relays[0]))
           case None => Err(ParseError)
           case Some(url) => Ok(url.(path := r.relays[0].path, query := url.query + QueryOf(r)))
  }

  lemma {:induction false} RelayPairsSnoc(relays: seq<DoHRelay>, last: DoHRelay, i: nat)
    ensures RelayPairs(relays + [last], i) ==
            RelayPairs(relays, i) + [(HostKey(i + |relays|), last.authority), (PathKey(i + |relays|), last.path)]
  {
    if relays == [] {
      assert [last][1..] == [];
      assert relays + [last] == [last];
    } else {
      assert (relays + [last])[1..] == relays[1..] + [last];
      RelayPairsSnoc(relays[1..], last, i + 1);
    }
  }

  /** A path with its health flag. */
  class DoHPath {
    const target: DoHTarget
    const relays: seq<DoHRelay>
    const dohType: DoHType
    var healthy: bool

    ghost function AsRoute(): Route {
      Route(target, relays, dohType)
    }

    /** A new path starts healthy. */
    constructor (target: DoHTarget, relays: seq<DoHRelay>, dohType: DoHType)
      ensures AsRoute() == Route(target, relays, dohType) && healthy
    {
      this.target := target;
      this.relays := relays;
      this.dohType := dohType;
      this.healthy := true;
    }

    method MakeHealthy()
      modifies this
      ensures healthy
    {
      healthy := true;
    }

    method MakeUnhealthy()
      modifies this
      ensures !healthy
    {
      healthy := false;
    }

    /** Walk along the relays and remember the authorities seen. */
    method IsLooped() returns (looped: bool)
      ensures looped <==> !LoopFree(AsRoute())
    {
      ghost var all := [target.authority] + Authorities(relays);
      var seen := [target.authority];
      for i := 0 to |relays|
        invariant seen == all[..i + 1]
        invariant Distinct(seen)
      {
        assert all[i + 1] == relays[i].authority;
        if relays[i].authority in seen {
          var j :| 0 <= j < |seen| && seen[j] == relays[i].authority;
          assert all[j] == all[i + 1];
          return true;
        }
        seen := seen + [relays[i].authority];
      }
      assert seen == all;
      looped := false;
    }

    method AsUrl(parse: UrlParser) returns (r: Result<Url, UrlError>)
      ensures r == UrlOf(parse, AsRoute())
    {
      match dohType {
        case Standard =>
          if |relays| != 0 {
            return Err(FailedToBuildDohUrl);
          }
          var parsed := parse(target.authority);
          if parsed.None? {
            return Err(ParseError);
          }
          var url := parsed.value.(scheme := target.scheme.AsStr());
          url := url.(path := target.path);
          return Ok(url);
        case Oblivious =>
          if |relays| == 0 || !relays[0].canBeNextHop {
            return Err(FailedToBuildDohUrl);
          }
          var parsed := parse(relays[0].scheme.AsStr() + "://" + relays[0].authority);
          if parsed.None? {
            return Err(ParseError);
          }
          var url := parsed.value.(path := relays[0].path);
          url := url.(query := url.query + [(TARGET_HOST, target.authority)] + [(TARGET_PATH, target.path)]);
          ghost var head := url.query;
          var later := relays[1..];
          for i := 0 to |later|
            invariant url == parsed.value.(path := relays[0].path, query := head + RelayPairs(later[..i], 1))
          {
            var relay := later[i];
            url := url.(query := url.query + [(HostKey(i + 1), relay.authority)] + [(PathKey(i + 1), relay.path)]);
            assert later[..i + 1] == later[..i] + [relay];
            RelayPairsSnoc(later[..i], relay, 1);
          }
          assert later[..|later|] == later;
          assert url.query == parsed.value.query + QueryOf(AsRoute());
          return Ok(url);
      }
    }
  }
}
