// DNS messages as far as the proxy looks into them, and the two synthetic answers it can build.
module Dns {
  import opened Wrappers

  type u16 = n: nat | n < 0x1_0000
  type u32 = n: nat | n < 0x1_0000_0000

  datatype MessageType = Query | Response

  datatype ResponseCode = NoError | NXDomain | OtherCode(code: u16)

  datatype IpAddr = V4(v4: nat) | V6(v6: nat)

  datatype RData = Address(ip: IpAddr) | OtherData(bytes: seq<nat>)

  datatype Record = Record(name: string, ttl: u32, data: RData)

  datatype Question = Question(name: string, qtype: u16, qclass: u16)

  datatype Message = Message(
    id: u16,
    messageType: MessageType,
    responseCode: ResponseCode,
    queries: seq<Question>,
    answers: seq<Record>,
    nameServers: seq<Record>,
    additionals: seq<Record>
  )

  /** Record type codes of A and AAAA. */
  const TYPE_A: u16 := 1
  const TYPE_AAAA: u16 := 28

  datatype QueryKey = QueryKey(name: string, qtype: u16, qclass: u16)

  /** The errors a query can end with. */
  datatype DapError =
    | InvalidDnsQuery
    | MissingFinalDot
    | MissingQueryName
    | BadName
    | NoPathAvailable
    | UpstreamFailed
    | InvalidDnsResponse
    | EncodingFailed
    | InvalidCache
    | InsertRefused   // not an error of the program: the DNS library panics

  /** The query turned into an NXDOMAIN response; nothing else changes. */
  function BuildResponseNx(msg: Message): Message {
    msg.(messageType := Response, responseCode := NXDomain)
  }

  /** The query turned into a response with one address record. `parses` says which names the DNS library accepts; it
      refuses, by a panic, to insert answers into a message that carries answers already. */
  function BuildResponseGivenIpAddr(msg: Message, key: QueryKey, ip: IpAddr, minTtl: u32, parses: string -> bool)
    : Result<Message, DapError>
  {
    if !parses(key.name) then Err(BadName)
    else if msg.answers != [] then Err(InsertRefused)
    else Ok(msg.(messageType := Response, responseCode := NoError, answers := [Record(key.name, minTtl, Address(ip))]))
  }
}
