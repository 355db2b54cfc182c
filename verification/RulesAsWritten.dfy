// The whole rule chain, said in the words of the two files.
module RulesAsWritten {
  import opened Wrappers
  import opened Dns
  import opened Text
  import opened Manipulators
  import BlockLines
  import DomainBlock
  import OverrideLines

  /** The override file gives the name this address: the first of the family that the type asks for. */
  ghost predicate Overrides(lib: Library, config: QueryManipulationConfig, name: string, qtype: u16, ip: IpAddr) {
    && config.domainOverride.Some?
    && ((qtype == 1 && ip.V4?) || (qtype == 28 && ip.V6?))
    && exists k :: OverrideLines.FirstGives(config.domainOverride.value, lib.parseAddress, name, k, ip)
  }

  ghost predicate Blocked(config: QueryManipulationConfig, name: string) {
    config.domainBlock.Some? && BlockLines.SomeBlocks(config.domainBlock.value, name)
  }

  lemma OverrideAddressAsWritten(lib: Library, config: QueryManipulationConfig, name: string, qtype: u16, qclass: u16,
                                 ip: IpAddr)
    ensures OverrideAddress(lib, config, QueryKey(name + ".", qtype, qclass)) == Some(ip) <==>
            Overrides(lib, config, name, qtype, ip)
  {
    if config.domainOverride.Some? {
      OverrideStep(lib, config, QueryKey(name + ".", qtype, qclass));
      OverrideLines.FoundIffFirstGiven(config.domainOverride.value, lib.parseAddress, name, qtype, qclass, ip);
    }
  }

  lemma BlockedAsWritten(config: QueryManipulationConfig, name: string)
    ensures Blocked(config, name) <==>
            config.domainBlock.Some? &&
            DomainBlock.SomeLineBlocks(config.domainBlock.value, Labels(RuleName(name + ".")))
  {
    if config.domainBlock.Some? {
      BlockLines.BlockedIffSomeLineSays(config.domainBlock.value, name + ".");
      DomainBlock.BlockedIffSomeLineBlocks(config.domainBlock.value, name + ".");
      assert (name + ".")[..|name|] == name;
    }
  }

  /** The message sent back for a rule: the query turned into a response, with its id, its questions and its authority
      and additional records. */
  predicate AnswersQuery(m: Message, msg: Message) {
    && m.id == msg.id && m.messageType == MessageType.Response && m.queries == msg.queries
    && m.nameServers == msg.nameServers && m.additionals == msg.additionals
  }

  /** What an overridden name gets: one record with its name, the configured TTL and the address. Before that the name may
      be refused, or the record may not fit in. */
  lemma OverriddenNames(lib: Library, config: QueryManipulationConfig, msg: Message, name: string, qtype: u16, qclass: u16,
                        ip: IpAddr)
    requires Overrides(lib, config, name, qtype, ip)
    ensures var r := ApplyAll(lib, ChainOf(lib, config), msg, QueryKey(name + ".", qtype, qclass));
            if !lib.parsesName(name + ".") then r == Err(BadName)
            else if msg.answers != [] then r == Err(InsertRefused)
            else
              && r.Ok? && r.value.SyntheticResponse?
              && var m := r.value.msg;
              && AnswersQuery(m, msg) && m.responseCode == NoError
              && |m.answers| == 1 && m.answers[0].name == name + "." && m.answers[0].ttl == config.minTtl
              && m.answers[0].data == Address(ip)
  {
    ChainDecidesByLines(lib, config, msg, QueryKey(name + ".", qtype, qclass));
    OverrideAddressAsWritten(lib, config, name, qtype, qclass, ip);
  }

  /** What any other name gets: NXDOMAIN if some line of the block file says so, else it passes. */
  lemma OtherNames(lib: Library, config: QueryManipulationConfig, msg: Message, name: string, qtype: u16, qclass: u16)
    requires forall ip :: !Overrides(lib, config, name, qtype, ip)
    ensures var r := ApplyAll(lib, ChainOf(lib, config), msg, QueryKey(name + ".", qtype, qclass));
            if Blocked(config, name) then
              && r.Ok? && r.value.SyntheticResponse?
              && var m := r.value.msg;
              && AnswersQuery(m, msg) && m.responseCode == NXDomain && m.answers == msg.answers
            else r == Ok(PassThrough)
  {
    var key := QueryKey(name + ".", qtype, qclass);
    ChainDecidesByLines(lib, config, msg, key);
    BlockedAsWritten(config, name);
    if ip :| OverrideAddress(lib, config, key) == Some(ip) {
      OverrideAddressAsWritten(lib, config, name, qtype, qclass, ip);
      assert false;
    }
  }
}
