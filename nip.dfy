/**
  `CatNipValidator` (validator/nip.rs): the client IP must equal one of the addresses, or lie in one
  of the prefixes, listed in the catnip claim. Address parsing (`str::parse::<IpAddr>`) is the
  parameter `parseIp`.
*/
module Nip {
  import opened Base
  import opened Net
  import opened Cbor
  import opened Convert

  /** Whether one decoded catnip entry lets `ip` through. */
  predicate Admits(a: NetworkAddress, ip: IpAddr) {
    match a
    case IPv4Prefix(net) => NetContains(net, ip)
    case IPv4(addr) => ip == V4(addr)
    case IPv6Prefix(net) => NetContains(net, ip)
    case IPv6(addr) => ip == V6(addr)
  }

  /** `iter().any(...)` over the decoded entries. */
  function AnyAdmits(ranges: seq<NetworkAddress>, ip: IpAddr): (r: bool)
    ensures r <==> exists i :: 0 <= i < |ranges| && Admits(ranges[i], ip)
  {
    if ranges == [] then false
    else
      assert forall i :: 1 <= i < |ranges| ==> ranges[1..][i - 1] == ranges[i];
      Admits(ranges[0], ip) || AnyAdmits(ranges[1..], ip)
  }

  /**
    `CatNipValidator::validate`. Once the IP parses, an integer (ASN) entry in the claim array
    makes the source panic, hence the precondition.
  */
  function Validate(clientIp: string, parseIp: string -> Option<IpAddr>, claim: Option<CborValue>): (r: Outcome)
    requires parseIp(clientIp).Some? && claim.Some? ==> NoAsnEntries(claim.value)
    ensures parseIp(clientIp).None? ==> r == Err(InvalidIpReceived)
    ensures parseIp(clientIp).Some? && claim.None? ==> r == Ok
    ensures parseIp(clientIp).Some? && claim.Some? && !claim.value.Array? ==> r == Ok
    ensures parseIp(clientIp).Some? && claim.Some? && claim.value.Array? ==>
      (r.Ok? <==> exists i :: 0 <= i < |claim.value.items| && Decodable(claim.value.items[i]) &&
                             Admits(AsNetworkAddress(claim.value.items[i]).value, parseIp(clientIp).value)) &&
      (r.Err? ==> r == Err(IpNotAllowed))
  {
    match parseIp(clientIp)
    case None => Err(InvalidIpReceived)
    case Some(ip) =>
      if claim.None? then Ok
      else
        match AsNetworkAddresses(claim.value)
        case None => Ok
        case Some(validRanges) =>
          var items := claim.value.items;
          assert forall a :: a in validRanges && Admits(a, ip) ==>
            exists i :: 0 <= i < |items| && Decodable(items[i]) && Admits(AsNetworkAddress(items[i]).value, ip);
          if AnyAdmits(validRanges, ip) then Ok else Err(IpNotAllowed)
  }

  /** An empty catnip array, or one whose entries all fail to decode, admits no client. */
  lemma NothingDecodableAdmitsNobody(clientIp: string, parseIp: string -> Option<IpAddr>, entries: seq<CborValue>)
    requires parseIp(clientIp).Some?
    requires forall i :: 0 <= i < |entries| ==> !entries[i].Integer? && !Decodable(entries[i])
    ensures Validate(clientIp, parseIp, Some(Array(entries))) == Err(IpNotAllowed)
  {
  }

  /** A single-address entry admits exactly that address; a prefix entry exactly the addresses it contains. */
  lemma SingleEntry(clientIp: string, parseIp: string -> Option<IpAddr>, e: CborValue)
    requires parseIp(clientIp).Some? && !e.Integer?
    ensures Validate(clientIp, parseIp, Some(Array([e]))).Ok? <==>
      Decodable(e) && Admits(AsNetworkAddress(e).value, parseIp(clientIp).value)
  {
  }
}
