/**
  `KvValidator` (validator/kv.rs): look-ups in the block data read from the key-value store. This
  file sees the block data through `any_*` flags next to each list; list membership is decided by
  `slice::binary_search`, and IP and CIDR parsing are the parameters `parseIp` and `parseNet`.
*/
module Kv {
  import opened Base
  import opened Net
  import opened Persistence

  /** The block data as the validator reads it. */
  datatype KvData = KvData(
    any: bool,
    anySubjects: bool, subjects: seq<string>,
    anyCountries: bool, countries: seq<string>,
    anyAsns: bool, asns: seq<Asn>,
    anyCidrs: bool, cidrs: seq<string>,
    anyUserAgents: bool, userAgents: seq<string>)

  datatype Ordering = Less | Equal | Greater

  /** `Ord for String`: lexicographic order of the characters. */
  function Compare(a: string, b: string): Ordering {
    if a == [] then (if b == [] then Equal else Less)
    else if b == [] then Greater
    else if a[0] < b[0] then Less
    else if a[0] > b[0] then Greater
    else Compare(a[1..], b[1..])
  }

  lemma {:induction false} CompareEqual(a: string, b: string)
    ensures Compare(a, b) == Equal <==> a == b
  {
    if a != [] && b != [] && a[0] == b[0] {
      CompareEqual(a[1..], b[1..]);
      assert a == [a[0]] + a[1..] && b == [b[0]] + b[1..];
    }
  }

  lemma {:induction false} CompareFlip(a: string, b: string)
    ensures Compare(a, b) == Less <==> Compare(b, a) == Greater
  {
    if a != [] && b != [] && a[0] == b[0] {
      CompareFlip(a[1..], b[1..]);
    }
  }

  /** Ascending order, as `binary_search` expects it. */
  predicate Sorted(s: seq<string>) {
    forall i, j :: 0 <= i < j < |s| ==> Compare(s[i], s[j]) != Greater
  }

  /** `x` is one of `s[lo]`, ..., `s[hi - 1]`. */
  predicate InWindow(s: seq<string>, x: string, lo: nat, hi: nat) {
    exists i :: lo <= i < hi && i < |s| && s[i] == x
  }

  /**
    `slice::binary_search(x).is_ok()` on the window `[lo, hi)`, as the left/right probe of Rust's
    standard library up to release 1.82 does it: probe the middle element, go right when it is less
    than `x`, left when it is greater, and stop on equality. Later releases probe differently; on
    unsorted input the standard library leaves the answer unspecified, so only the sorted case
    (`SearchComplete`) is claimed for every release.
  */
  function Search(s: seq<string>, x: string, lo: nat, hi: nat): (found: bool)
    requires lo <= hi <= |s|
    ensures found ==> InWindow(s, x, lo, hi)
    decreases hi - lo
  {
    if lo == hi then false
    else
      var mid := lo + (hi - lo) / 2;
      match Compare(s[mid], x)
      case Less => Search(s, x, mid + 1, hi)
      case Greater => Search(s, x, lo, mid)
      case Equal => CompareEqual(s[mid], x); true
  }

  function BinarySearch(s: seq<string>, x: string): (found: bool)
    ensures found ==> x in s
  {
    Search(s, x, 0, |s|)
  }

  /** In a sorted list nothing at or before an element less than `x` is `x`. */
  lemma NotAtOrBefore(s: seq<string>, x: string, mid: nat)
    requires Sorted(s) && mid < |s| && Compare(s[mid], x) == Less
    ensures forall i :: 0 <= i <= mid ==> s[i] != x
  {
    forall i | 0 <= i <= mid ensures s[i] != x {
      CompareEqual(s[mid], x);
      CompareFlip(s[mid], x);
      if i < mid {
        assert Compare(s[i], s[mid]) != Greater;
      }
    }
  }

  /** In a sorted list nothing at or after an element greater than `x` is `x`. */
  lemma NotAtOrAfter(s: seq<string>, x: string, mid: nat)
    requires Sorted(s) && mid < |s| && Compare(s[mid], x) == Greater
    ensures forall i :: mid <= i < |s| ==> s[i] != x
  {
    forall i | mid <= i < |s| ensures s[i] != x {
      CompareEqual(s[mid], x);
      if mid < i {
        assert Compare(s[mid], s[i]) != Greater;
      }
    }
  }

  /** On a sorted list the search finds every element of its window. */
  lemma {:induction false} SearchComplete(s: seq<string>, x: string, lo: nat, hi: nat)
    requires lo <= hi <= |s| && Sorted(s)
    ensures Search(s, x, lo, hi) <==> InWindow(s, x, lo, hi)
    decreases hi - lo
  {
    if lo < hi {
      var mid := lo + (hi - lo) / 2;
      match Compare(s[mid], x)
      case Less =>
        SearchComplete(s, x, mid + 1, hi);
        NotAtOrBefore(s, x, mid);
      case Greater =>
        SearchComplete(s, x, lo, mid);
        NotAtOrAfter(s, x, mid);
      case Equal =>
    }
  }

  /** On a sorted list `binary_search` succeeds exactly for the elements of the list. */
  lemma BinarySearchIsMembership(s: seq<string>, x: string)
    requires Sorted(s)
    ensures BinarySearch(s, x) <==> x in s
  {
    SearchComplete(s, x, 0, |s|);
  }

  /** On an unsorted list the search can miss an element that is there. */
  lemma UnsortedSearchMisses()
    ensures "b" in ["b", "a"] && !BinarySearch(["b", "a"], "b")
  {
    assert Compare("a", "b") == Less;
  }

  /** `is_subject_blocked`: a missing subject is blocked exactly when one is required. */
  function IsSubjectBlocked(d: KvData, value: Option<string>, subjectRequired: bool): (r: bool)
    ensures value.None? ==> r == subjectRequired
    ensures value.Some? && !d.anySubjects ==> !r
    ensures value.Some? && r ==> value.value in d.subjects
  {
    if value.None? then subjectRequired
    else if !d.anySubjects then false
    else BinarySearch(d.subjects, value.value)
  }

  function IsCountryBlocked(d: KvData, value: string): (r: bool)
    ensures !d.anyCountries ==> !r
    ensures r ==> value in d.countries
  {
    if !d.anyCountries then false else BinarySearch(d.countries, value)
  }

  function IsUserAgentBlocked(d: KvData, value: string): (r: bool)
    ensures !d.anyUserAgents ==> !r
    ensures r ==> value in d.userAgents
  {
    if !d.anyUserAgents then false else BinarySearch(d.userAgents, value)
  }

  /** With sorted lists the three list look-ups are plain membership tests. */
  lemma ListLookupsAreMembership(d: KvData, subject: string, subjectRequired: bool, country: string, userAgent: string)
    requires Sorted(d.subjects) && Sorted(d.countries) && Sorted(d.userAgents)
    ensures IsSubjectBlocked(d, Some(subject), subjectRequired) <==> d.anySubjects && subject in d.subjects
    ensures IsCountryBlocked(d, country) <==> d.anyCountries && country in d.countries
    ensures IsUserAgentBlocked(d, userAgent) <==> d.anyUserAgents && userAgent in d.userAgents
  {
    BinarySearchIsMembership(d.subjects, subject);
    BinarySearchIsMembership(d.countries, country);
    BinarySearchIsMembership(d.userAgents, userAgent);
  }

  /** `filter_map(parse::<IpNet>).any(contains)`: some parsable CIDR string contains `ip`. */
  function AnyCidrContains(cidrs: seq<string>, ip: IpAddr, parseNet: string -> Option<IpNet>): (r: bool)
    ensures r <==> exists c :: c in cidrs && parseNet(c).Some? && NetContains(parseNet(c).value, ip)
  {
    if cidrs == [] then false
    else
      assert forall c :: c in cidrs <==> c == cidrs[0] || c in cidrs[1..];
      (parseNet(cidrs[0]).Some? && NetContains(parseNet(cidrs[0]).value, ip)) ||
      AnyCidrContains(cidrs[1..], ip, parseNet)
  }

  /** `flat_map(|defined| defined.cidrs)`: the CIDR lists of all ASN entries, one after the other. */
  function AllAsnCidrs(asns: seq<Asn>): (r: seq<string>)
    ensures forall c :: c in r <==> exists i :: 0 <= i < |asns| && c in asns[i].cidrs
  {
    if asns == [] then []
    else
      assert forall i :: 1 <= i < |asns| ==> asns[1..][i - 1] == asns[i];
      asns[0].cidrs + AllAsnCidrs(asns[1..])
  }

  /**
    `is_ip_blocked`. The source unwraps the parsed IP once the flag is set, so the IP must parse in
    that case.
  */
  function IsIpBlocked(d: KvData, value: string, parseIp: string -> Option<IpAddr>, parseNet: string -> Option<IpNet>): (r: bool)
    requires d.anyCidrs ==> parseIp(value).Some?
    ensures r <==> d.anyCidrs && exists c :: c in d.cidrs && parseNet(c).Some? && NetContains(parseNet(c).value, parseIp(value).value)
  {
    if !d.anyCidrs then false else AnyCidrContains(d.cidrs, parseIp(value).value, parseNet)
  }

  /** `is_ip_blocked_by_asn`: the same test over the CIDRs of every blocked ASN. */
  function IsIpBlockedByAsn(d: KvData, value: string, parseIp: string -> Option<IpAddr>, parseNet: string -> Option<IpNet>): (r: bool)
    requires d.anyAsns ==> parseIp(value).Some?
    ensures r <==> d.anyAsns && exists i, c :: (0 <= i < |d.asns| && c in d.asns[i].cidrs &&
                                parseNet(c).Some? && NetContains(parseNet(c).value, parseIp(value).value))
  {
    if !d.anyAsns then false else AnyCidrContains(AllAsnCidrs(d.asns), parseIp(value).value, parseNet)
  }

  /** Unparsable CIDR strings never block anything. */
  lemma UnparsableCidrsIgnored(d: KvData, junk: seq<string>, value: string, parseIp: string -> Option<IpAddr>, parseNet: string -> Option<IpNet>)
    requires d.anyCidrs ==> parseIp(value).Some?
    requires forall c :: c in junk ==> parseNet(c).None?
    ensures IsIpBlocked(d.(cidrs := d.cidrs + junk), value, parseIp, parseNet) == IsIpBlocked(d, value, parseIp, parseNet)
  {
  }
}
