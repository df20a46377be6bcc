/**
  The typed views the validators take of CBOR claim values (validator/mod.rs): header match
  rules, network addresses, and the `Convert` accessors.
*/
module Convert {
  import opened Base
  import opened Net
  import opened Cbor

  /** `a` occurs in `s` starting at index `i`. */
  predicate OccursAt(s: string, a: string, i: nat) {
    i + |a| <= |s| && s[i..i + |a|] == a
  }

  /** `str::starts_with`. */
  function StartsWith(s: string, a: string): (r: bool)
    ensures r <==> a <= s
  {
    if a == [] then true
    else if s == [] then false
    else s[0] == a[0] && StartsWith(s[1..], a[1..])
  }

  /** `str::ends_with`. */
  function EndsWith(s: string, a: string): (r: bool)
    ensures r <==> |a| <= |s| && s[|s| - |a|..] == a
  {
    if a == [] then true
    else if s == [] then false
    else s[|s| - 1] == a[|a| - 1] && EndsWith(s[..|s| - 1], a[..|a| - 1])
  }

  /** `str::contains` with a string pattern. */
  function ContainsText(s: string, a: string): (r: bool)
    ensures r <==> exists i: nat :: OccursAt(s, a, i)
  {
    if StartsWith(s, a) then
      assert OccursAt(s, a, 0);
      true
    else if s == [] then
      false
    else
      var r := ContainsText(s[1..], a);
      assert forall i: nat :: OccursAt(s[1..], a, i) <==> OccursAt(s, a, i + 1) by {
        forall i: nat ensures OccursAt(s[1..], a, i) <==> OccursAt(s, a, i + 1) {
          if i + 1 + |a| <= |s| { assert s[1..][i..i + |a|] == s[i + 1..i + 1 + |a|]; }
        }
      }
      assert forall i: nat :: OccursAt(s, a, i) ==> i > 0;
      assert r ==> exists i: nat :: OccursAt(s, a, i) by {
        if r {
          var i: nat :| OccursAt(s[1..], a, i);
          assert OccursAt(s, a, i + 1);
        }
      }
      assert (exists i: nat :: OccursAt(s, a, i)) ==> r by {
        if exists i: nat :: OccursAt(s, a, i) {
          var i: nat :| OccursAt(s, a, i);
          assert OccursAt(s[1..], a, i - 1);
        }
      }
      r
  }

  /** A header match rule of a cath claim (`MatchKind`). */
  datatype MatchKind =
    | Exact(expected: string)
    | Prefix(expected: string)
    | Suffix(expected: string)
    | Contains(expected: string)
    | RegEx(expected: string)
  {
    /**
      `MatchKind::validate`. Regular expressions belong to a library outside this model: `regex(pattern, value)`
      stands for `Regex::new(pattern).unwrap().is_match(value)`.
    */
    function Validate(headerValue: string, regex: (string, string) -> bool): (r: Outcome)
      ensures r.Err? ==> r.error == HeaderValueNotValid
      ensures Exact? ==> (r.Ok? <==> headerValue == expected)
      ensures Prefix? ==> (r.Ok? <==> expected <= headerValue)
      ensures Suffix? ==> (r.Ok? <==> |expected| <= |headerValue| && headerValue[|headerValue| - |expected|..] == expected)
      ensures Contains? ==> (r.Ok? <==> exists i: nat :: OccursAt(headerValue, expected, i))
      ensures RegEx? ==> (r.Ok? <==> regex(expected, headerValue))
    {
      var valid := match this
        case Exact(e) => headerValue == e
        case Prefix(e) => StartsWith(headerValue, e)
        case Suffix(e) => EndsWith(headerValue, e)
        case Contains(e) => ContainsText(headerValue, e)
        case RegEx(e) => regex(e, headerValue);
      if valid then Ok else Err(HeaderValueNotValid)
    }

    /** The operator code a cath rule carries under key 1. */
    function Operator(): (op: int)
      ensures 0 <= op <= 4
    {
      match this
      case Exact(_) => 0
      case Prefix(_) => 1
      case Suffix(_) => 2
      case Contains(_) => 3
      case RegEx(_) => 4
    }
  }

  /** A decoded catnip entry (`NetworkAddress`). ASN entries are not decoded by the source, see `AsNetworkAddress`. */
  datatype NetworkAddress =
    | IPv4Prefix(net: IpNet)
    | IPv4(addr4: Octets4)
    | IPv6Prefix(net: IpNet)
    | IPv6(addr6: Octets16)

  /** `as_str` and `as_string` (the same text, borrowed or copied). */
  function AsString(v: CborValue): (r: Option<string>)
    ensures r.Some? <==> v.Text?
    ensures r.Some? ==> r.value == v.text
  {
    if v.Text? then Some(v.text) else None
  }

  /** `as_i64`. */
  function AsI64(v: CborValue): (r: Option<int>)
    ensures r.Some? <==> v.Integer?
    ensures r.Some? ==> r.value == v.number
  {
    if v.Integer? then Some(v.number) else None
  }

  /** `as_match_kind`: a map holding the operator code at key 1 and the text at key 2. */
  function AsMatchKind(v: CborValue): (r: Option<MatchKind>)
    ensures r.Some? <==>
      && v.Map? && 1 in v.entries && 2 in v.entries
      && v.entries[2].Text?
      && v.entries[1].Integer? && 0 <= v.entries[1].number <= 4
    ensures r.Some? ==> r.value.Operator() == v.entries[1].number && r.value.expected == v.entries[2].text
  {
    if !v.Map? then None
    else if 1 !in v.entries || 2 !in v.entries then None
    else
      match AsString(v.entries[2])
      case None => None
      case Some(text) =>
        match v.entries[1]
        case Integer(0) => Some(Exact(text))
        case Integer(1) => Some(Prefix(text))
        case Integer(2) => Some(Suffix(text))
        case Integer(3) => Some(Contains(text))
        case Integer(4) => Some(RegEx(text))
        case _ => None
  }

  /** Every match rule decodes back from the map that carries its operator code and text. */
  lemma MatchKindRoundTrip(mk: MatchKind, extra: map<int, CborValue>)
    ensures AsMatchKind(Map(extra[1 := Integer(mk.Operator())][2 := Text(mk.expected)])) == Some(mk)
  {
    var m := extra[1 := Integer(mk.Operator())][2 := Text(mk.expected)];
    assert m[1] == Integer(mk.Operator()) && m[2] == Text(mk.expected);
  }

  /** `prefix` followed by zero octets up to `width`: what `[0u8; width]` holds after `copy_from_slice(prefix)`. */
  function ZeroPadded(prefix: seq<byte>, width: nat): (r: seq<byte>)
    requires |prefix| <= width
    ensures |r| == width
    ensures r[..|prefix|] == prefix
    ensures forall k :: |prefix| <= k < width ==> r[k] == 0
  {
    prefix + seq(width - |prefix|, _ => 0)
  }

  /** The in-place fill of `as_network_address`: start from a zeroed buffer and copy the prefix octets in. */
  method CopyIntoZeroedOctets(prefix: seq<byte>, width: nat) returns (octets: seq<byte>)
    requires |prefix| <= width
    ensures octets == ZeroPadded(prefix, width)
  {
    var buf := new byte[width](_ => 0);
    var i := 0;
    while i < |prefix|
      invariant 0 <= i <= |prefix|
      invariant buf[..i] == prefix[..i]
      invariant forall k :: i <= k < width ==> buf[k] == 0
    {
      buf[i] := prefix[i];
      i := i + 1;
    }
    octets := buf[..];
    assert octets[..|prefix|] == prefix;
  }

  /** `len as u8`: the low eight bits of the prefix length, as two's complement truncation keeps them. */
  function TruncateToU8(len: int): (r: nat)
    ensures r < 256 && (len - r) % 256 == 0
  {
    len % 256
  }

  /** `[prefix length, prefix octets]`, the shape of a catnip prefix entry. */
  predicate IsPrefixPair(v: CborValue) {
    v.Array? && |v.items| == 2 && v.items[0].Integer? && v.items[1].Bytes?
  }

  /**
    `as_network_address`. An integer (an ASN) reaches `todo!()` in the source and panics, so it is
    excluded here by the precondition.
  */
  function AsNetworkAddress(v: CborValue): (r: Option<NetworkAddress>)
    requires !v.Integer?
    ensures v.Bytes? ==> (r.Some? <==> |v.bytes| == 4 || |v.bytes| == 16)
    ensures v.Bytes? && |v.bytes| == 16 ==> r == Some(IPv6(v.bytes))
    ensures v.Bytes? && |v.bytes| == 4 ==> r == Some(IPv4(v.bytes))
    ensures IsPrefixPair(v) && |v.items[1].bytes| <= 4 ==>
      var len := TruncateToU8(v.items[0].number);
      (r.Some? <==> len <= 32) &&
      (r.Some? ==> r.value == IPv4Prefix(IpNet(V4(ZeroPadded(v.items[1].bytes, 4)), len)))
    ensures IsPrefixPair(v) && 4 < |v.items[1].bytes| <= 16 ==>
      var len := TruncateToU8(v.items[0].number);
      (r.Some? <==> len <= 128) &&
      (r.Some? ==> r.value == IPv6Prefix(IpNet(V6(ZeroPadded(v.items[1].bytes, 16)), len)))
    ensures IsPrefixPair(v) && |v.items[1].bytes| > 16 ==> r.None?
    ensures !v.Bytes? && !IsPrefixPair(v) ==> r.None?
  {
    match v
    case Bytes(b) =>
      if |b| == 16 then Some(IPv6(b))
      else if |b| == 4 then Some(IPv4(b))
      else None
    case Array(arr) =>
      if |arr| == 2 && arr[0].Integer? && arr[1].Bytes? then
        var len := TruncateToU8(arr[0].number);
        var prefixBytes := arr[1].bytes;
        if |prefixBytes| <= 4 then
          match NewNet(V4(ZeroPadded(prefixBytes, 4)), len)
          case Some(ipnet) => Some(IPv4Prefix(ipnet))
          case None => None
        else if |prefixBytes| <= 16 then
          match NewNet(V6(ZeroPadded(prefixBytes, 16)), len)
          case Some(ipnet) => Some(IPv6Prefix(ipnet))
          case None => None
        else None
      else None
    case _ => None
  }

  /** No entry of a catnip array is an integer (an ASN), the case in which the source panics. */
  predicate NoAsnEntries(v: CborValue) {
    v.Array? ==> forall i :: 0 <= i < |v.items| ==> !v.items[i].Integer?
  }

  predicate Decodable(e: CborValue) {
    !e.Integer? && AsNetworkAddress(e).Some?
  }

  /** `filter_map(as_network_address)` over the entries of an array. */
  function DecodeAll(items: seq<CborValue>): (r: seq<NetworkAddress>)
    requires forall i :: 0 <= i < |items| ==> !items[i].Integer?
    ensures |r| <= |items|
    ensures forall x :: x in r <==> exists i :: 0 <= i < |items| && AsNetworkAddress(items[i]) == Some(x)
  {
    if items == [] then []
    else
      var rest := DecodeAll(items[1..]);
      assert forall x :: (exists i :: 0 <= i < |items| - 1 && AsNetworkAddress(items[1..][i]) == Some(x)) <==>
                         (exists i :: 1 <= i < |items| && AsNetworkAddress(items[i]) == Some(x)) by {
        forall x ensures (exists i :: 0 <= i < |items| - 1 && AsNetworkAddress(items[1..][i]) == Some(x)) ==>
                         (exists i :: 1 <= i < |items| && AsNetworkAddress(items[i]) == Some(x)) {
          if exists i :: 0 <= i < |items| - 1 && AsNetworkAddress(items[1..][i]) == Some(x) {
            var i :| 0 <= i < |items| - 1 && AsNetworkAddress(items[1..][i]) == Some(x);
            assert items[1..][i] == items[i + 1];
          }
        }
        forall x ensures (exists i :: 1 <= i < |items| && AsNetworkAddress(items[i]) == Some(x)) ==>
                         (exists i :: 0 <= i < |items| - 1 && AsNetworkAddress(items[1..][i]) == Some(x)) {
          if exists i :: 1 <= i < |items| && AsNetworkAddress(items[i]) == Some(x) {
            var i :| 1 <= i < |items| && AsNetworkAddress(items[i]) == Some(x);
            assert items[1..][i - 1] == items[i];
          }
        }
      }
      match AsNetworkAddress(items[0])
      case Some(a) => [a] + rest
      case None => rest
  }

  /** `filter_map` keeps order: decoding a concatenation concatenates the decodings. */
  lemma {:induction false} DecodeAllAppend(a: seq<CborValue>, b: seq<CborValue>)
    requires forall i :: 0 <= i < |a| ==> !a[i].Integer?
    requires forall i :: 0 <= i < |b| ==> !b[i].Integer?
    ensures DecodeAll(a + b) == DecodeAll(a) + DecodeAll(b)
  {
    if a == [] {
      assert a + b == b;
    } else {
      assert (a + b)[1..] == a[1..] + b;
      assert (a + b)[0] == a[0];
      DecodeAllAppend(a[1..], b);
    }
  }

  /** A single entry contributes its decoding if it has one, and nothing otherwise. */
  lemma DecodeAllSingle(e: CborValue)
    requires !e.Integer?
    ensures DecodeAll([e]) == if AsNetworkAddress(e).Some? then [AsNetworkAddress(e).value] else []
  {
    assert [e][1..] == [];
  }

  /** `as_network_addresses`: `None` unless the value is an array; otherwise its decodable entries. */
  function AsNetworkAddresses(v: CborValue): (r: Option<seq<NetworkAddress>>)
    requires NoAsnEntries(v)
    ensures r.Some? <==> v.Array?
    ensures r.Some? ==> r.value == DecodeAll(v.items)
  {
    if v.Array? then Some(DecodeAll(v.items)) else None
  }
}
