// The chain of query manipulators, and the plugin chain of the earlier program it replaces.
module Manipulators {
  import opened Wrappers
  import opened Dns
  import opened Text
  import DomainBlock
  import DomainOverride

  datatype QueryManipulationConfig = QueryManipulationConfig(
    domainOverride: Option<seq<string>>,
    domainBlock: Option<seq<string>>,
    minTtl: u32
  )

  /** The library functions the rules call: the address parser and the test whether a text is a DNS name. */
  datatype Library = Library(parseAddress: DomainOverride.AddressParser, parsesName: string -> bool)

  datatype ManipulationResult = PassThrough | SyntheticResponse(msg: Message)

  type Outcome = Result<ManipulationResult, DapError>

  datatype Manipulator =
    | Override(targets: DomainOverride.Targets, minTtl: u32)
    | Block(rule: DomainBlock.DomainBlockRule)
  {
    ghost predicate Valid() {
      Block? ==> rule.Valid()
    }
  }

  ghost predicate AllValid(ms: seq<Manipulator>) {
    forall i :: 0 <= i < |ms| ==> ms[i].Valid()
  }

  function ApplyOne(lib: Library, m: Manipulator, msg: Message, key: QueryKey): Outcome
    requires m.Valid()
  {
    match m
    case Override(targets, minTtl) =>
      (match DomainOverride.FindMapping(targets, key)
       case None => Ok(PassThrough)
       case Some(ip) =>
         match BuildResponseGivenIpAddr(msg, key, ip, minTtl, lib.parsesName)
         case Ok(res) => Ok(SyntheticResponse(res))
         case Err(e) => Err(e))
    case Block(rule) =>
      (match DomainBlock.InBlocklist(rule, key.name)
       case Ok(blocked) => Ok(if blocked then SyntheticResponse(BuildResponseNx(msg)) else PassThrough)
       case Err(e) => Err(e))
  }

  function ApplyAll(lib: Library, ms: seq<Manipulator>, msg: Message, key: QueryKey): Outcome
    requires AllValid(ms)
  {
    if ms == [] then Ok(PassThrough)
    else
      var first := ApplyOne(lib, ms[0], msg, key);
      if first == Ok(PassThrough) then ApplyAll(lib, ms[1..], msg, key) else first
  }

  /** `QueryManipulators::apply`: the first manipulator that answers or fails decides. */
  method Apply(lib: Library, ms: seq<Manipulator>, msg: Message, key: QueryKey) returns (r: Outcome)
    requires AllValid(ms)
    ensures r == ApplyAll(lib, ms, msg, key)
  {
    for i := 0 to |ms|
      invariant ApplyAll(lib, ms, msg, key) == ApplyAll(lib, ms[i..], msg, key)
    {
      assert ms[i..][1..] == ms[i + 1..];
      var one := ApplyOne(lib, ms[i], msg, key);
      match one
      case Err(e) => return Err(e);
      case Ok(SyntheticResponse(res)) => return Ok(SyntheticResponse(res));
      case Ok(PassThrough) =>
    }
    assert ms[|ms|..] == [];
    r := Ok(PassThrough);
  }

  /** The errors a chain can end with. */
  lemma {:induction false} ChainErrors(lib: Library, ms: seq<Manipulator>, msg: Message, key: QueryKey)
    requires AllValid(ms)
    ensures var r := ApplyAll(lib, ms, msg, key);
            r.Err? ==> r.error in {BadName, InsertRefused, MissingQueryName, MissingFinalDot}
  {
    if ms != [] {
      ChainErrors(lib, ms[1..], msg, key);
      if ms[0].Block? { assert ms[0].Valid(); }
    }
  }

  function ChainOf(lib: Library, config: QueryManipulationConfig): (ms: seq<Manipulator>)
    ensures AllValid(ms)
  {
    (match config.domainOverride
     case None => []
     case Some(lines) => [Override(DomainOverride.MapOf(lines, lib.parseAddress), config.minTtl)]) +
    (match config.domainBlock
     case None => []
     case Some(lines) => [Block(DomainBlock.RuleOf(lines))])
  }

  /** The construction: the override rule is pushed before the block rule. */
  method TryFrom(lib: Library, config: QueryManipulationConfig) returns (ms: seq<Manipulator>)
    ensures ms == ChainOf(lib, config)
  {
    ms := [];
    var domainOverrideRule := DomainOverride.TryFrom(config.domainOverride, lib.parseAddress);
    var domainBlockRule := DomainBlock.TryFrom(config.domainBlock);
    if domainOverrideRule.Some? {
      ms := ms + [Override(domainOverrideRule.value, config.minTtl)];
    }
    if domainBlockRule.Some? {
      ms := ms + [Block(domainBlockRule.value)];
    }
  }

  // ---------- What the chain decides ----------

  /** The name without its final dot, as the rules see it. */
  function RuleName(name: string): string
    requires name != ""
  {
    Lower(name)[..|name| - 1]
  }

  predicate HasFinalDot(name: string) {
    name != "" && name[|name| - 1] == '.'
  }

  /** The address the override lines give to a query, if any. */
  function OverrideAddress(lib: Library, config: QueryManipulationConfig, key: QueryKey): Option<IpAddr> {
    match config.domainOverride
    case None => None
    case Some(lines) =>
      if HasFinalDot(key.name)
      then DomainOverride.FirstMatch(lines, lib.parseAddress, RuleName(key.name), key.qtype)
      else None
  }

  /** The verdict said on the configured lines: an overriding line wins over a blocking one. */
  function LineVerdict(lib: Library, config: QueryManipulationConfig, msg: Message, key: QueryKey): Outcome {
    match OverrideAddress(lib, config, key)
    case Some(ip) =>
      (match BuildResponseGivenIpAddr(msg, key, ip, config.minTtl, lib.parsesName)
       case Ok(res) => Ok(SyntheticResponse(res))
       case Err(e) => Err(e))
    case None =>
      match config.domainBlock
      case None => Ok(PassThrough)
      case Some(lines) =>
        if key.name == "" then Err(MissingQueryName)
        else if !HasFinalDot(key.name) then Err(MissingFinalDot)
        else if DomainBlock.SomeLineBlocks(lines, Labels(RuleName(key.name)))
        then Ok(SyntheticResponse(BuildResponseNx(msg)))
        else Ok(PassThrough)
  }

  lemma OverrideStep(lib: Library, config: QueryManipulationConfig, key: QueryKey)
    requires config.domainOverride.Some?
    ensures DomainOverride.FindMapping(DomainOverride.MapOf(config.domainOverride.value, lib.parseAddress), key) ==
            OverrideAddress(lib, config, key)
  {
    DomainOverride.FindMappingIsFirstMatchingLine(config.domainOverride.value, lib.parseAddress, key);
  }

  lemma BlockStep(lib: Library, config: QueryManipulationConfig, msg: Message, key: QueryKey)
    requires config.domainBlock.Some?
    ensures ApplyOne(lib, Block(DomainBlock.RuleOf(config.domainBlock.value)), msg, key) ==
            LineVerdict(lib, config.(domainOverride := None), msg, key)
  {
    DomainBlock.BlockedIffSomeLineBlocks(config.domainBlock.value, key.name);
  }

  lemma TwoStepChain(lib: Library, ms: seq<Manipulator>, msg: Message, key: QueryKey)
    requires AllValid(ms)
    ensures |ms| == 0 ==> ApplyAll(lib, ms, msg, key) == Ok(PassThrough)
    ensures |ms| == 1 ==> ApplyAll(lib, ms, msg, key) == ApplyOne(lib, ms[0], msg, key)
    ensures |ms| == 2 ==> ApplyAll(lib, ms, msg, key) ==
                          if ApplyOne(lib, ms[0], msg, key) == Ok(PassThrough) then ApplyOne(lib, ms[1], msg, key)
                          else ApplyOne(lib, ms[0], msg, key)
  {
    if |ms| == 2 {
      assert ms[1..] == [ms[1]];
      assert [ms[1]][1..] == [];
    }
  }

  /** The compiled chain decides as the lines say, for every configuration, message and query key. */
  lemma ChainDecidesByLines(lib: Library, config: QueryManipulationConfig, msg: Message, key: QueryKey)
    ensures ApplyAll(lib, ChainOf(lib, config), msg, key) == LineVerdict(lib, config, msg, key)
  {
    TwoStepChain(lib, ChainOf(lib, config), msg, key);
    if config.domainOverride.Some? {
      OverrideStep(lib, config, key);
    }
    if config.domainBlock.Some? {
      BlockStep(lib, config, msg, key);
    }
  }

  /** Whether a query passes depends on its key alone. */
  lemma PassingIgnoresMessage(lib: Library, ms: seq<Manipulator>, m1: Message, m2: Message, key: QueryKey)
    requires AllValid(ms)
    ensures ApplyAll(lib, ms, m1, key) == Ok(PassThrough) <==> ApplyAll(lib, ms, m2, key) == Ok(PassThrough)
  {
  }

  /** Exactly which queries make the chain panic: those for an overridden name that carry answers. */
  lemma PanicsIffOverriddenWithAnswers(lib: Library, config: QueryManipulationConfig, msg: Message, key: QueryKey)
    ensures ApplyAll(lib, ChainOf(lib, config), msg, key) == Err(InsertRefused) <==>
            OverrideAddress(lib, config, key).Some? && lib.parsesName(key.name) && msg.answers != []
  {
    ChainDecidesByLines(lib, config, msg, key);
  }

  // ---------- The earlier plugin chain ----------

  datatype PluginAction = Blocked | Overridden | Pass

  datatype ExecutionResult = ExecutionResult(action: PluginAction, responseMsg: Option<Message>)

  type LegacyOutcome = Result<ExecutionResult, DapError>

  const NOTHING_DONE := ExecutionResult(Pass, None)

  /** One turn of the loop: the new response, and whether the loop goes on. */
  function RunPlugin(lib: Library, p: Manipulator, soFar: ExecutionResult, msg: Message, key: QueryKey)
    : (LegacyOutcome, bool)
    requires p.Valid()
  {
    match p
    case Override(targets, minTtl) =>
      (match DomainOverride.FindMapping(targets, key)
       case None => (Ok(soFar), true)
       case Some(ip) =>
         match BuildResponseGivenIpAddr(msg, key, ip, minTtl, lib.parsesName)
         case Ok(res) => (Ok(ExecutionResult(Overridden, Some(res))), false)
         case Err(e) => (Err(e), false))
    case Block(rule) =>
      (Ok(if DomainBlock.InBlocklist(rule, key.name) == Ok(true)
          then ExecutionResult(Blocked, Some(BuildResponseNx(msg))) else soFar), true)
  }

  /** The rest of the loop, with the response collected so far. */
  function ExecuteFrom(lib: Library, ps: seq<Manipulator>, soFar: ExecutionResult, msg: Message, key: QueryKey)
    : LegacyOutcome
    requires AllValid(ps)
  {
    if ps == [] then Ok(soFar)
    else
      var (res, goesOn) := RunPlugin(lib, ps[0], soFar, msg, key);
      if goesOn && res.Ok? then ExecuteFrom(lib, ps[1..], res.value, msg, key) else res
  }

  predicate Maps(p: Manipulator, key: QueryKey) {
    p.Override? && DomainOverride.FindMapping(p.targets, key).Some?
  }

  predicate Blocks(p: Manipulator, key: QueryKey)
    requires p.Valid()
  {
    p.Block? && DomainBlock.InBlocklist(p.rule, key.name) == Ok(true)
  }

  /** For any list of plugins: the first override with an address decides, whatever stands before or behind it; without
      one, NXDOMAIN if some plugin blocks the name, even if a later one does not; else nothing. */
  lemma {:induction false} LoopDecides(lib: Library, ps: seq<Manipulator>, soFar: ExecutionResult, msg: Message,
                                       key: QueryKey)
    requires AllValid(ps)
    ensures forall i :: 0 <= i < |ps| && Maps(ps[i], key) && (forall j :: 0 <= j < i ==> !Maps(ps[j], key)) ==>
              var address := DomainOverride.FindMapping(ps[i].targets, key).value;
              ExecuteFrom(lib, ps, soFar, msg, key) ==
              match BuildResponseGivenIpAddr(msg, key, address, ps[i].minTtl, lib.parsesName)
              case Ok(res) => Ok(ExecutionResult(Overridden, Some(res)))
              case Err(e) => Err(e)
    ensures (forall i :: 0 <= i < |ps| ==> !Maps(ps[i], key)) ==>
              ExecuteFrom(lib, ps, soFar, msg, key) ==
              Ok(if exists i :: 0 <= i < |ps| && Blocks(ps[i], key) then ExecutionResult(Blocked, Some(BuildResponseNx(msg)))
                 else soFar)
  {
    if ps != [] {
      var rest := ps[1..];
      var res := RunPlugin(lib, ps[0], soFar, msg, key).0;
      assert forall i :: 0 < i < |ps| ==> ps[i] == rest[i - 1];
      assert forall i :: 0 <= i < |rest| ==> rest[i] == ps[i + 1];
      if !Maps(ps[0], key) {
        LoopDecides(lib, rest, res.value, msg, key);
        forall i | 0 < i < |ps| && Maps(ps[i], key) && (forall j :: 0 <= j < i ==> !Maps(ps[j], key))
          ensures Maps(rest[i - 1], key) && forall j :: 0 <= j < i - 1 ==> !Maps(rest[j], key)
        {
        }
      }
    }
  }

  /** `QueryPluginsApplied::execute`: a block does not stop the loop, an override does. */
  method Execute(lib: Library, ps: seq<Manipulator>, msg: Message, key: QueryKey) returns (r: LegacyOutcome)
    requires AllValid(ps)
    ensures r == ExecuteFrom(lib, ps, NOTHING_DONE, msg, key)
  {
    var action, responseMsg: Option<Message> := Pass, None;
    var i := 0;
    while i < |ps|
      invariant 0 <= i <= |ps|
      invariant ExecuteFrom(lib, ps, NOTHING_DONE, msg, key) ==
                ExecuteFrom(lib, ps[i..], ExecutionResult(action, responseMsg), msg, key)
    {
      assert ps[i..][1..] == ps[i + 1..];
      match ps[i] {
        case Override(targets, minTtl) =>
          var mapsTo := DomainOverride.FindMapping(targets, key);
          if mapsTo.Some? {
            var built := BuildResponseGivenIpAddr(msg, key, mapsTo.value, minTtl, lib.parsesName);
            if built.Err? {
              return Err(built.error);
            }
            action, responseMsg := Overridden, Some(built.value);
            return Ok(ExecutionResult(action, responseMsg));
          }
        case Block(rule) =>
          var blocked := DomainBlock.InBlocklist(rule, key.name);
          if blocked.Ok? && blocked.value {
            action, responseMsg := Blocked, Some(BuildResponseNx(msg));
          }
      }
      i := i + 1;
    }
    assert ps[|ps|..] == [];
    r := Ok(ExecutionResult(action, responseMsg));
  }

  /** The earlier construction adds the block rule first. */
  function LegacyChainOf(lib: Library, config: QueryManipulationConfig): (ps: seq<Manipulator>)
    ensures AllValid(ps)
  {
    (match config.domainBlock
     case None => []
     case Some(lines) => [Block(DomainBlock.RuleOf(lines))]) +
    (match config.domainOverride
     case None => []
     case Some(lines) => [Override(DomainOverride.MapOf(lines, lib.parseAddress), config.minTtl)])
  }

  /** The same verdict: both fail with the same error, both let the query pass, or both answer with the same message. */
  predicate SameVerdict(now: Outcome, before: LegacyOutcome) {
    match (now, before)
    case (Err(e1), Err(e2)) => e1 == e2
    case (Ok(PassThrough), Ok(res)) => res == NOTHING_DONE
    case (Ok(SyntheticResponse(m)), Ok(res)) => res.action != Pass && res.responseMsg == Some(m)
    case _ => false
  }

  /** What the block rule alone leaves behind in the earlier loop. */
  function AfterBlock(config: QueryManipulationConfig, msg: Message, key: QueryKey): ExecutionResult {
    if config.domainBlock.Some? && HasFinalDot(key.name)
      && DomainBlock.SomeLineBlocks(config.domainBlock.value, Labels(RuleName(key.name)))
    then ExecutionResult(Blocked, Some(BuildResponseNx(msg)))
    else NOTHING_DONE
  }

  lemma RunBlock(lib: Library, config: QueryManipulationConfig, msg: Message, key: QueryKey)
    requires config.domainBlock.Some?
    ensures RunPlugin(lib, Block(DomainBlock.RuleOf(config.domainBlock.value)), NOTHING_DONE, msg, key) ==
            (Ok(AfterBlock(config, msg, key)), true)
  {
    DomainBlock.BlockedIffSomeLineBlocks(config.domainBlock.value, key.name);
  }

  lemma OnePlugin(lib: Library, p: Manipulator, soFar: ExecutionResult, msg: Message, key: QueryKey)
    requires p.Valid()
    ensures ExecuteFrom(lib, [p], soFar, msg, key) == RunPlugin(lib, p, soFar, msg, key).0
  {
    assert [p][1..] == [];
  }

  lemma TwoPlugins(lib: Library, p: Manipulator, q: Manipulator, msg: Message, key: QueryKey)
    requires p.Valid() && q.Valid()
    ensures var (res, goesOn) := RunPlugin(lib, p, NOTHING_DONE, msg, key);
            goesOn && res.Ok? ==>
              ExecuteFrom(lib, [p, q], NOTHING_DONE, msg, key) == RunPlugin(lib, q, res.value, msg, key).0
  {
    var (res, goesOn) := RunPlugin(lib, p, NOTHING_DONE, msg, key);
    assert [p, q][1..] == [q];
    if goesOn && res.Ok? {
      OnePlugin(lib, q, res.value, msg, key);
    }
  }

  /** The earlier chain said on the configured lines. */
  function LegacyLineVerdict(lib: Library, config: QueryManipulationConfig, msg: Message, key: QueryKey): LegacyOutcome {
    match OverrideAddress(lib, config, key)
    case None => Ok(AfterBlock(config, msg, key))
    case Some(ip) =>
      match BuildResponseGivenIpAddr(msg, key, ip, config.minTtl, lib.parsesName)
      case Ok(res) => Ok(ExecutionResult(Overridden, Some(res)))
      case Err(e) => Err(e)
  }

  lemma RunOverride(lib: Library, config: QueryManipulationConfig, msg: Message, key: QueryKey)
    requires config.domainOverride.Some?
    ensures RunPlugin(lib, Override(DomainOverride.MapOf(config.domainOverride.value, lib.parseAddress), config.minTtl),
                      AfterBlock(config, msg, key), msg, key).0 ==
            LegacyLineVerdict(lib, config, msg, key)
  {
    OverrideStep(lib, config, key);
  }

  lemma LegacyChainDecidesByLines(lib: Library, config: QueryManipulationConfig, msg: Message, key: QueryKey)
    ensures ExecuteFrom(lib, LegacyChainOf(lib, config), NOTHING_DONE, msg, key) ==
            LegacyLineVerdict(lib, config, msg, key)
  {
    match (config.domainBlock, config.domainOverride)
    case (None, None) =>
    case (None, Some(lines)) =>
      RunOverride(lib, config, msg, key);
      OnePlugin(lib, Override(DomainOverride.MapOf(lines, lib.parseAddress), config.minTtl), NOTHING_DONE, msg, key);
    case (Some(lines), None) =>
      RunBlock(lib, config, msg, key);
      OnePlugin(lib, Block(DomainBlock.RuleOf(lines)), NOTHING_DONE, msg, key);
    case (Some(blockLines), Some(lines)) =>
      RunBlock(lib, config, msg, key);
      RunOverride(lib, config, msg, key);
      TwoPlugins(lib, Block(DomainBlock.RuleOf(blockLines)),
                 Override(DomainOverride.MapOf(lines, lib.parseAddress), config.minTtl), msg, key);
  }

  /** The two chains agree on a query exactly when its name ends in a dot or no block list is configured. Otherwise the
      new chain fails on the missing dot, which the earlier one only logs. */
  lemma ChainsAgreeIffFinalDot(lib: Library, config: QueryManipulationConfig, msg: Message, key: QueryKey)
    ensures SameVerdict(ApplyAll(lib, ChainOf(lib, config), msg, key),
                        ExecuteFrom(lib, LegacyChainOf(lib, config), NOTHING_DONE, msg, key))
            <==> HasFinalDot(key.name) || config.domainBlock == None
  {
    ChainDecidesByLines(lib, config, msg, key);
    LegacyChainDecidesByLines(lib, config, msg, key);
  }
}
