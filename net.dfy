/**
  IP addresses and networks as the validators see them (`std::net::IpAddr`, `ipnet::IpNet`).
  Text parsing of addresses and CIDR strings is not modelled: where the source parses, the model
  receives the parser as a function.
*/
module Net {
  import opened Base

  newtype byte = x: int | 0 <= x < 256

  type Octets4 = s: seq<byte> | |s| == 4 witness [0, 0, 0, 0]
  type Octets16 = s: seq<byte> | |s| == 16 witness [0, 0, 0, 0, 0, 0, 0, 0, 0, 0, 0, 0, 0, 0, 0, 0]

  /** `IpAddr`: an IPv4 address (4 octets) or an IPv6 address (16 octets), in network byte order. */
  datatype IpAddr = V4(v4: Octets4) | V6(v6: Octets16) {
    function Octets(): seq<byte> {
      if V4? then v4 else v6
    }
    /** The number of address bits, which is also the largest prefix length. */
    function Width(): nat {
      if V4? then 32 else 128
    }
  }

  /** `IpNet`: an address with a prefix length; the host bits of the address are kept as given. */
  datatype IpNet = IpNet(addr: IpAddr, prefixLen: nat)

  /** `IpNet::new`: fails when the prefix length exceeds the address width. */
  function NewNet(addr: IpAddr, prefixLen: nat): (r: Option<IpNet>)
    ensures r.Some? <==> prefixLen <= addr.Width()
    ensures r.Some? ==> r.value.addr == addr && r.value.prefixLen == prefixLen
  {
    if prefixLen <= addr.Width() then Some(IpNet(addr, prefixLen)) else None
  }

  function Pow2(n: nat): (p: nat)
    ensures p >= 1
  {
    if n == 0 then 1 else 2 * Pow2(n - 1)
  }

  /** `x` shifted right by `n` bits. */
  function Half(x: nat, n: nat): nat {
    if n == 0 then x else Half(x / 2, n - 1)
  }

  /** Bit `k` of `s`, counting from the most significant bit of the first octet. */
  function Bit(s: seq<byte>, k: nat): (b: nat)
    requires k < 8 * |s|
    ensures b < 2
  {
    Half(s[k / 8] as nat, 7 - k % 8) % 2
  }

  /** The first `n` bits of `a` and `b` agree. */
  predicate SamePrefix(a: seq<byte>, b: seq<byte>, n: nat)
    requires n <= 8 * |a| && n <= 8 * |b|
  {
    forall k :: 0 <= k < n ==> Bit(a, k) == Bit(b, k)
  }

  /**
    `IpNet::contains(&IpAddr)`: the address has the network's family and lies between the network
    address and the broadcast address, that is, its first `prefixLen` bits are the network's.
  */
  predicate NetContains(net: IpNet, ip: IpAddr) {
    && net.addr.V4? == ip.V4?
    && net.prefixLen <= ip.Width()
    && SamePrefix(net.addr.Octets(), ip.Octets(), net.prefixLen)
  }

  /** A network contains its own address, the host bits included. */
  lemma NetContainsOwnAddress(addr: IpAddr, prefixLen: nat)
    requires prefixLen <= addr.Width()
    ensures NetContains(IpNet(addr, prefixLen), addr)
  {
  }

  /** A network of prefix length 0 contains every address of its family and none of the other. */
  lemma ZeroPrefixContainsFamily(addr: IpAddr, ip: IpAddr)
    ensures NetContains(IpNet(addr, 0), ip) <==> addr.V4? == ip.V4?
  {
  }

  /** A number below `2^n` is determined by its low `n` bits. */
  lemma {:induction false} LowBitsDetermine(x: nat, y: nat, n: nat)
    requires x < Pow2(n) && y < Pow2(n)
    requires forall j :: 0 <= j < n ==> Half(x, j) % 2 == Half(y, j) % 2
    ensures x == y
  {
    if n > 0 {
      forall j | 0 <= j < n - 1
        ensures Half(x / 2, j) % 2 == Half(y / 2, j) % 2
      {
        assert Half(x, j + 1) == Half(x / 2, j) && Half(y, j + 1) == Half(y / 2, j);
      }
      LowBitsDetermine(x / 2, y / 2, n - 1);
      assert Half(x, 0) == x && Half(y, 0) == y;
    }
  }

  /** An octet is determined by its eight bits. */
  lemma OctetOfBits(x: byte, y: byte)
    requires forall k :: 0 <= k < 8 ==> Bit([x], k) == Bit([y], k)
    ensures x == y
  {
    var a, b := x as nat, y as nat;
    forall j | 0 <= j < 8
      ensures Half(a, j) % 2 == Half(b, j) % 2
    {
      assert Bit([x], 7 - j) == Bit([y], 7 - j);
    }
    assert Pow2(8) == 256 by {
      assert Pow2(4) == 16;
    }
    LowBitsDetermine(a, b, 8);
  }

  /** Agreeing on every bit is equality. */
  lemma {:induction false} AllBitsEqual(a: seq<byte>, b: seq<byte>)
    requires |a| == |b| && SamePrefix(a, b, 8 * |a|)
    ensures a == b
  {
    forall o | 0 <= o < |a|
      ensures a[o] == b[o]
    {
      forall k | 0 <= k < 8
        ensures Bit([a[o]], k) == Bit([b[o]], k)
      {
        assert Bit(a, 8 * o + k) == Bit(b, 8 * o + k);
        assert (8 * o + k) / 8 == o && (8 * o + k) % 8 == k;
      }
      OctetOfBits(a[o], b[o]);
    }
  }

  /** A network whose prefix is the whole address contains exactly that address. */
  lemma FullPrefixIsEquality(addr: IpAddr, ip: IpAddr)
    ensures NetContains(IpNet(addr, addr.Width()), ip) <==> ip == addr
  {
    if NetContains(IpNet(addr, addr.Width()), ip) {
      AllBitsEqual(addr.Octets(), ip.Octets());
    }
  }
}
