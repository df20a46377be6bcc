/**
  The block list kept under the key "blocked" of the key-value store (persistence/mod.rs). The
  store itself is modelled by what a read returns (`StoreRead`) and whether the write succeeds;
  the ASN resolver is the parameter `resolve`.
*/
module Persistence {
  import opened Base
  import opened Ascii
  import opened Seqs

  newtype u32 = x: int | 0 <= x < 0x1_0000_0000

  /** An autonomous system and the CIDR strings announced for it. */
  datatype Asn = Asn(asn: u32, cidrs: seq<string>)

  datatype ClaimType = Subject | Country | Cidr | UserAgent

  /** `BlockedClaimType::try_from`: one of four names, in any letter case. */
  function TryFromClaimType(value: string): (r: Option<ClaimType>)
    ensures r == Some(Subject) <==> Upper(value) == "SUBJECT"
    ensures r == Some(Country) <==> Upper(value) == "COUNTRY"
    ensures r == Some(Cidr) <==> Upper(value) == "CIDR"
    ensures r == Some(UserAgent) <==> Upper(value) == "USERAGENT"
  {
    var u := Upper(value);
    if u == "SUBJECT" then Some(Subject)
    else if u == "COUNTRY" then Some(Country)
    else if u == "CIDR" then Some(Cidr)
    else if u == "USERAGENT" then Some(UserAgent)
    else None
  }

  /** The parse ignores letter case, and accepts nothing but the four names. */
  lemma TryFromClaimTypeIgnoresCase(value: string)
    ensures TryFromClaimType(Lower(value)) == TryFromClaimType(value)
    ensures TryFromClaimType(value).None? <==>
      Upper(value) !in {"SUBJECT", "COUNTRY", "CIDR", "USERAGENT"}
  {
    UpperOfLower(value);
  }

  /** Lower-case and mixed-case spellings of the names parse. */
  lemma TryFromClaimTypeNames()
    ensures TryFromClaimType("subject") == Some(Subject)
    ensures TryFromClaimType("Country") == Some(Country)
    ensures TryFromClaimType("cidr") == Some(Cidr)
    ensures TryFromClaimType("userAgent") == Some(UserAgent)
    ensures TryFromClaimType("user-agent").None?
  {
    assert Upper("subject") == "SUBJECT";
    assert Upper("Country") == "COUNTRY";
    assert Upper("cidr") == "CIDR";
    assert Upper("userAgent") == "USERAGENT";
    assert Upper("user-agent") == "USER-AGENT";
  }

  /** The stored block data as a value (what `serde` reads and writes). */
  datatype BlockedRecord = BlockedRecord(
    sub: seq<string>, countries: seq<string>, cidrs: seq<string>, asns: seq<Asn>, userAgents: seq<string>)
  {
    /** The string list that `kind` selects. */
    function Get(kind: ClaimType): seq<string> {
      match kind
      case Subject => sub
      case Country => countries
      case Cidr => cidrs
      case UserAgent => userAgents
    }

    /** The same record with the list that `kind` selects replaced. */
    function With(kind: ClaimType, list: seq<string>): (r: BlockedRecord)
      ensures r.Get(kind) == list && r.asns == asns
      ensures forall k :: k != kind ==> r.Get(k) == Get(k)
    {
      match kind
      case Subject => this.(sub := list)
      case Country => this.(countries := list)
      case Cidr => this.(cidrs := list)
      case UserAgent => this.(userAgents := list)
    }
  }

  function Empty(): BlockedRecord {
    BlockedRecord([], [], [], [], [])
  }

  /** `contains_asn` on a list of entries. */
  function HasAsn(asns: seq<Asn>, asn: u32): (r: bool)
    ensures r <==> exists i :: 0 <= i < |asns| && asns[i].asn == asn
  {
    if asns == [] then false
    else
      assert forall i :: 1 <= i < |asns| ==> asns[1..][i - 1] == asns[i];
      asns[0].asn == asn || HasAsn(asns[1..], asn)
  }

  /** Keeps the entries for any ASN other than `asn`. */
  function OtherAsn(asn: u32): Asn -> bool {
    (a: Asn) => a.asn != asn
  }

  /** `BlockedData`, changed in place by the block-list operations. */
  class BlockedData {
    var sub: seq<string>
    var countries: seq<string>
    var cidrs: seq<string>
    var asns: seq<Asn>
    var userAgents: seq<string>

    function Snapshot(): BlockedRecord
      reads this
    {
      BlockedRecord(sub, countries, cidrs, asns, userAgents)
    }

    /** `BlockedData::new`: every list empty. */
    constructor ()
      ensures Snapshot() == Empty()
    {
      sub, countries, cidrs, asns, userAgents := [], [], [], [], [];
    }

    /** The block data as just read from the store. */
    constructor FromRecord(b: BlockedRecord)
      ensures Snapshot() == b
    {
      sub, countries, cidrs, asns, userAgents := b.sub, b.countries, b.cidrs, b.asns, b.userAgents;
    }

    function Contains(kind: ClaimType, value: string): (r: bool)
      reads this
      ensures r <==> value in Snapshot().Get(kind)
    {
      match kind
      case Subject => value in sub
      case Country => value in countries
      case Cidr => value in cidrs
      case UserAgent => value in userAgents
    }

    function ContainsAsn(asn: u32): (r: bool)
      reads this
      ensures r <==> exists i :: 0 <= i < |asns| && asns[i].asn == asn
    {
      HasAsn(asns, asn)
    }

    /** `push`: appends `value` to the list of `kind`, and changes nothing else. */
    method Push(kind: ClaimType, value: string)
      modifies this
      ensures Snapshot() == old(Snapshot()).With(kind, old(Snapshot().Get(kind)) + [value])
    {
      match kind {
        case Subject => sub := sub + [value];
        case Country => countries := countries + [value];
        case Cidr => cidrs := cidrs + [value];
        case UserAgent => userAgents := userAgents + [value];
      }
    }

    /** `push_asns`: appends the new entries, and changes nothing else. */
    method PushAsns(newAsns: seq<Asn>)
      modifies this
      ensures Snapshot() == old(Snapshot()).(asns := old(asns) + newAsns)
    {
      asns := asns + newAsns;
    }

    /** `retain`: keeps the elements of the list of `kind` that satisfy `keep`, in order. */
    method Retain(kind: ClaimType, keep: string -> bool)
      modifies this
      ensures Snapshot() == old(Snapshot()).With(kind, Filter(old(Snapshot().Get(kind)), keep))
    {
      match kind {
        case Subject => sub := Filter(sub, keep);
        case Country => countries := Filter(countries, keep);
        case Cidr => cidrs := Filter(cidrs, keep);
        case UserAgent => userAgents := Filter(userAgents, keep);
      }
    }

    /** `retain_asn`: drops every entry for `asn`, and changes nothing else. */
    method RetainAsn(asn: u32)
      modifies this
      ensures Snapshot() == old(Snapshot()).(asns := Filter(old(asns), OtherAsn(asn)))
    {
      asns := Filter(asns, OtherAsn(asn));
    }
  }

  /** What opening the store and reading the "blocked" key gives. */
  datatype StoreRead = OpenFailed | ReadFailed | Missing | Found(data: BlockedRecord)

  datatype StoreResult = Done(data: BlockedRecord) | Failed(error: Error)

  /** `get_blocking_data`: a missing key reads as empty block data. */
  function GetBlockingData(stored: StoreRead): (r: StoreResult)
    ensures r.Failed? <==> stored.OpenFailed? || stored.ReadFailed?
    ensures r.Failed? ==> r.error == StoreUnavailable
    ensures stored.Missing? ==> r == Done(Empty())
    ensures stored.Found? ==> r == Done(stored.data)
  {
    match stored
    case OpenFailed => Failed(StoreUnavailable)
    case ReadFailed => Failed(StoreUnavailable)
    case Missing => Done(Empty())
    case Found(b) => Done(b)
  }

  /** The list after adding `values` one by one, each only if it is not there yet. */
  function AddAll(list: seq<string>, values: seq<string>): seq<string>
    decreases |values|
  {
    if values == [] then list
    else
      var acc := AddAll(list, values[..|values| - 1]);
      var v := values[|values| - 1];
      if v in acc then acc else acc + [v]
  }

  /** After an add the list holds exactly the old elements and the added values. */
  lemma {:induction false} AddAllMembers(list: seq<string>, values: seq<string>)
    ensures forall x :: x in AddAll(list, values) <==> x in list || x in values
    decreases |values|
  {
    if values != [] {
      var init := values[..|values| - 1];
      AddAllMembers(list, init);
      assert values == init + [values[|values| - 1]];
    }
  }

  /** An add keeps the old list, in order, as a prefix. */
  lemma {:induction false} AddAllKeepsPrefix(list: seq<string>, values: seq<string>)
    ensures list <= AddAll(list, values)
    decreases |values|
  {
    if values != [] {
      AddAllKeepsPrefix(list, values[..|values| - 1]);
    }
  }

  /** An add appends no value twice and none that is already there. */
  lemma {:induction false} AddAllNoDuplicates(list: seq<string>, values: seq<string>)
    requires NoDuplicates(list)
    ensures NoDuplicates(AddAll(list, values))
    decreases |values|
  {
    if values != [] {
      AddAllNoDuplicates(list, values[..|values| - 1]);
    }
  }

  /** Adding values that are all present already changes nothing. */
  lemma {:induction false} AddAllPresent(list: seq<string>, values: seq<string>)
    requires forall x :: x in values ==> x in list
    ensures AddAll(list, values) == list
    decreases |values|
  {
    if values != [] {
      AddAllPresent(list, values[..|values| - 1]);
    }
  }

  /**
    What an add appends: the values not yet in the list, each once, as a subsequence of the values given.
  */
  lemma {:induction false} AddAllSuffix(list: seq<string>, values: seq<string>)
    ensures |list| <= |AddAll(list, values)|
    ensures var added := AddAll(list, values)[|list|..];
      && NoDuplicates(added)
      && (forall x :: x in added <==> x in values && x !in list)
      && IsSubsequence(added, values)
    decreases |values|
  {
    AddAllKeepsPrefix(list, values);
    if values == [] {
      assert AddAll(list, values)[|list|..] == [];
    } else {
      var n := |values| - 1;
      var init := values[..n];
      var v := values[n];
      AddAllSuffix(list, init);
      AddAllKeepsPrefix(list, init);
      AddAllMembers(list, init);
      var acc := AddAll(list, init);
      var before := acc[|list|..];
      assert values == init + [v];
      if v in acc {
        assert AddAll(list, values) == acc;
        SubsequenceOfLonger(before, init, v);
      } else {
        assert AddAll(list, values) == acc + [v];
        assert AddAll(list, values)[|list|..] == before + [v];
        SubsequenceExtend(before, init, v);
      }
    }
  }

  /** Adding the same values a second time changes nothing. */
  lemma AddAllIdempotent(list: seq<string>, values: seq<string>)
    ensures AddAll(AddAll(list, values), values) == AddAll(list, values)
  {
    AddAllMembers(list, values);
    AddAllPresent(AddAll(list, values), values);
  }

  /** The record written back by `add_items_to_blocklist`. */
  function AddItems(b: BlockedRecord, kind: ClaimType, values: seq<string>): BlockedRecord {
    b.With(kind, AddAll(b.Get(kind), values))
  }

  /** Keeps the strings that are not among `values`. */
  function NotAmong(values: seq<string>): string -> bool {
    (x: string) => x !in values
  }

  /** Keeps the entries whose ASN is not among `values`. */
  function AsnNotAmong(values: seq<u32>): Asn -> bool {
    (a: Asn) => a.asn !in values
  }

  /** Keeps the ASNs that `asns` has no entry for. */
  function Unlisted(asns: seq<Asn>): u32 -> bool {
    (asn: u32) => !HasAsn(asns, asn)
  }

  /** The record written back by `remove_items_from_blocklist`. */
  function RemoveItems(b: BlockedRecord, kind: ClaimType, values: seq<string>): BlockedRecord {
    b.With(kind, Filter(b.Get(kind), NotAmong(values)))
  }

  /** The record written back by `remove_asns_from_blocklist`. */
  function RemoveAsns(b: BlockedRecord, values: seq<u32>): BlockedRecord {
    b.(asns := Filter(b.asns, AsnNotAmong(values)))
  }

  /**
    After `add_items_to_blocklist` every value is in the chosen list, the old list is a prefix of
    the new one, the appended part is the unlisted values once each as a subsequence of the values given, a list
    without repeats stays without repeats, and nothing else changes.
  */
  lemma AddItemsEffect(b: BlockedRecord, kind: ClaimType, values: seq<string>)
    ensures var r := AddItems(b, kind, values);
      && (forall x :: x in r.Get(kind) <==> x in b.Get(kind) || x in values)
      && b.Get(kind) <= r.Get(kind)
      && (NoDuplicates(b.Get(kind)) ==> NoDuplicates(r.Get(kind)))
      && NoDuplicates(r.Get(kind)[|b.Get(kind)|..])
      && (forall x :: x in r.Get(kind)[|b.Get(kind)|..] <==> x in values && x !in b.Get(kind))
      && IsSubsequence(r.Get(kind)[|b.Get(kind)|..], values)
      && (forall k :: k != kind ==> r.Get(k) == b.Get(k))
      && r.asns == b.asns
      && AddItems(r, kind, values) == r
  {
    AddAllSuffix(b.Get(kind), values);
    AddAllMembers(b.Get(kind), values);
    AddAllKeepsPrefix(b.Get(kind), values);
    if NoDuplicates(b.Get(kind)) {
      AddAllNoDuplicates(b.Get(kind), values);
    }
    AddAllIdempotent(b.Get(kind), values);
  }

  /**
    After `remove_items_from_blocklist` no value is left in the chosen list, every copy of the
    other elements survives in its order, and nothing else changes.
  */
  lemma RemoveItemsEffect(b: BlockedRecord, kind: ClaimType, values: seq<string>)
    ensures var r := RemoveItems(b, kind, values);
      && (forall x :: x in r.Get(kind) <==> x in b.Get(kind) && x !in values)
      && IsSubsequence(r.Get(kind), b.Get(kind))
      && (forall x :: multiset(r.Get(kind))[x] == if x in values then 0 else multiset(b.Get(kind))[x])
      && (forall k :: k != kind ==> r.Get(k) == b.Get(k))
      && r.asns == b.asns
  {
    var r := RemoveItems(b, kind, values);
    FilterIsSubsequence(b.Get(kind), NotAmong(values));
    FilterCounts(b.Get(kind), NotAmong(values));
    forall x
      ensures multiset(r.Get(kind))[x] == if x in values then 0 else multiset(b.Get(kind))[x]
    {
      assert NotAmong(values)(x) == (x !in values);
    }
  }

  /** After `remove_asns_from_blocklist` exactly the entries with other numbers remain, every copy, in order. */
  lemma RemoveAsnsEffect(b: BlockedRecord, values: seq<u32>)
    ensures var r := RemoveAsns(b, values);
      && (forall a :: a in r.asns <==> a in b.asns && a.asn !in values)
      && IsSubsequence(r.asns, b.asns)
      && (forall a :: multiset(r.asns)[a] == if a.asn in values then 0 else multiset(b.asns)[a])
      && (forall k :: r.Get(k) == b.Get(k))
  {
    FilterIsSubsequence(b.asns, AsnNotAmong(values));
    RemoveAsnsCounts(b.asns, values);
  }

  /** Removing ASNs keeps every copy of an entry with another number and no copy of the others. */
  lemma RemoveAsnsCounts(asns: seq<Asn>, values: seq<u32>)
    ensures forall a :: a in Filter(asns, AsnNotAmong(values)) <==> a in asns && a.asn !in values
    ensures forall a :: multiset(Filter(asns, AsnNotAmong(values)))[a] == if a.asn in values then 0 else multiset(asns)[a]
  {
    FilterCounts(asns, AsnNotAmong(values));
    forall a
      ensures a in Filter(asns, AsnNotAmong(values)) <==> a in asns && a.asn !in values
      ensures multiset(Filter(asns, AsnNotAmong(values)))[a] == if a.asn in values then 0 else multiset(asns)[a]
    {
      assert AsnNotAmong(values)(a) == (a.asn !in values);
    }
  }

  /** `try_join_all` over the resolutions: every entry, in order, or nothing if one fails. */
  function ResolveAll(values: seq<u32>, resolve: u32 -> Option<Asn>): (r: Option<seq<Asn>>)
    ensures r.None? <==> exists i :: 0 <= i < |values| && resolve(values[i]).None?
    ensures r.Some? ==> (|r.value| == |values| &&
      forall i :: 0 <= i < |values| ==> resolve(values[i]) == Some(r.value[i]))
  {
    if values == [] then Some([])
    else
      assert forall i :: 1 <= i < |values| ==> values[1..][i - 1] == values[i];
      match (resolve(values[0]), ResolveAll(values[1..], resolve))
      case (Some(a), Some(rest)) => Some([a] + rest)
      case _ => None
  }

  /** The ASNs of `values` that the block data does not hold yet; repeats in `values` stay. */
  function NewAsns(b: BlockedRecord, values: seq<u32>): (r: seq<u32>)
    ensures forall asn :: asn in r <==> asn in values && !HasAsn(b.asns, asn)
    ensures IsSubsequence(r, values)
    ensures forall asn :: multiset(r)[asn] == if HasAsn(b.asns, asn) then 0 else multiset(values)[asn]
  {
    FilterIsSubsequence(values, Unlisted(b.asns));
    FilterCounts(values, Unlisted(b.asns));
    Filter(values, Unlisted(b.asns))
  }

  /** A number given twice that is not yet listed is resolved, and appended, twice. */
  lemma NewAsnsKeepsRepeats(b: BlockedRecord, asn: u32)
    requires !HasAsn(b.asns, asn)
    ensures NewAsns(b, [asn, asn]) == [asn, asn]
  {
    FilterKeepsAll([asn, asn], Unlisted(b.asns));
  }

  /** `add_items_to_blocklist`: the result is the record to store, or the error. */
  method AddItemsToBlocklist(kind: ClaimType, values: seq<string>, stored: StoreRead, writeOk: bool)
    returns (r: StoreResult)
    ensures GetBlockingData(stored).Failed? ==> r == GetBlockingData(stored)
    ensures GetBlockingData(stored).Done? && !writeOk ==> r == Failed(StoreWriteFailed)
    ensures GetBlockingData(stored).Done? && writeOk ==> r == Done(AddItems(GetBlockingData(stored).data, kind, values))
  {
    var loaded := GetBlockingData(stored);
    if loaded.Failed? {
      return loaded;
    }
    var start := loaded.data;
    var all := new BlockedData.FromRecord(start);
    for k := 0 to |values|
      invariant all.Snapshot() == start.With(kind, AddAll(start.Get(kind), values[..k]))
    {
      var value := values[k];
      assert values[..k + 1][..k] == values[..k];
      if !all.Contains(kind, value) {
        all.Push(kind, value);
      }
    }
    assert values[..|values|] == values;
    if !writeOk {
      return Failed(StoreWriteFailed);
    }
    return Done(all.Snapshot());
  }

  /** Keeps the strings other than `value` (the closure `|v| v != &value`). */
  function Other(value: string): string -> bool {
    (x: string) => x != value
  }

  /** One pass of the removal loop: dropping `values[k]` extends the removed prefix by one. */
  lemma RemoveItemStep(list: seq<string>, values: seq<string>, k: nat)
    requires k < |values|
    ensures Filter(Filter(list, NotAmong(values[..k])), Other(values[k])) == Filter(list, NotAmong(values[..k + 1]))
  {
    assert values[..k + 1] == values[..k] + [values[k]];
    FilterTwice(list, NotAmong(values[..k]), Other(values[k]), NotAmong(values[..k + 1]));
  }

  /** `remove_items_from_blocklist`. */
  method RemoveItemsFromBlocklist(kind: ClaimType, values: seq<string>, stored: StoreRead, writeOk: bool)
    returns (r: StoreResult)
    ensures GetBlockingData(stored).Failed? ==> r == GetBlockingData(stored)
    ensures GetBlockingData(stored).Done? && !writeOk ==> r == Failed(StoreWriteFailed)
    ensures GetBlockingData(stored).Done? && writeOk ==> r == Done(RemoveItems(GetBlockingData(stored).data, kind, values))
  {
    var loaded := GetBlockingData(stored);
    if loaded.Failed? {
      return loaded;
    }
    var start := loaded.data;
    var all := new BlockedData.FromRecord(start);
    FilterKeepsAll(start.Get(kind), NotAmong(values[..0]));
    for k := 0 to |values|
      invariant all.Snapshot() == start.With(kind, Filter(start.Get(kind), NotAmong(values[..k])))
    {
      var value := values[k];
      RemoveItemStep(start.Get(kind), values, k);
      if all.Contains(kind, value) {
        all.Retain(kind, Other(value));
      } else {
        FilterKeepsAll(all.Snapshot().Get(kind), Other(value));
      }
    }
    assert values[..|values|] == values;
    if !writeOk {
      return Failed(StoreWriteFailed);
    }
    return Done(all.Snapshot());
  }

  /**
    `add_asns_to_blocklist`: resolves the ASNs not yet listed and appends them all, or fails when
    one resolution fails.
  */
  method AddAsnsToBlocklist(values: seq<u32>, resolve: u32 -> Option<Asn>, stored: StoreRead, writeOk: bool)
    returns (r: StoreResult)
    ensures GetBlockingData(stored).Failed? ==> r == GetBlockingData(stored)
    ensures GetBlockingData(stored).Done? ==>
      var b := GetBlockingData(stored).data;
      var resolved := ResolveAll(NewAsns(b, values), resolve);
      (resolved.None? ==> r == Failed(AsnResolutionFailed)) &&
      (resolved.Some? && !writeOk ==> r == Failed(StoreWriteFailed)) &&
      (resolved.Some? && writeOk ==> r == Done(b.(asns := b.asns + resolved.value)))
  {
    var loaded := GetBlockingData(stored);
    if loaded.Failed? {
      return loaded;
    }
    var all := new BlockedData.FromRecord(loaded.data);
    var known := all.asns;
    var resolved := ResolveAll(Filter(values, Unlisted(known)), resolve);
    match resolved {
      case None =>
        return Failed(AsnResolutionFailed);
      case Some(allAsns) =>
        all.PushAsns(allAsns);
    }
    if !writeOk {
      return Failed(StoreWriteFailed);
    }
    return Done(all.Snapshot());
  }

  /** One pass of the removal loop: dropping `values[k]` extends the removed prefix by one. */
  lemma RemoveAsnStep(asns: seq<Asn>, values: seq<u32>, k: nat)
    requires k < |values|
    ensures Filter(Filter(asns, AsnNotAmong(values[..k])), OtherAsn(values[k])) == Filter(asns, AsnNotAmong(values[..k + 1]))
  {
    assert values[..k + 1] == values[..k] + [values[k]];
    FilterTwice(asns, AsnNotAmong(values[..k]), OtherAsn(values[k]), AsnNotAmong(values[..k + 1]));
  }

  /** `remove_asns_from_blocklist`. */
  method RemoveAsnsFromBlocklist(values: seq<u32>, stored: StoreRead, writeOk: bool)
    returns (r: StoreResult)
    ensures GetBlockingData(stored).Failed? ==> r == GetBlockingData(stored)
    ensures GetBlockingData(stored).Done? && !writeOk ==> r == Failed(StoreWriteFailed)
    ensures GetBlockingData(stored).Done? && writeOk ==> r == Done(RemoveAsns(GetBlockingData(stored).data, values))
  {
    var loaded := GetBlockingData(stored);
    if loaded.Failed? {
      return loaded;
    }
    var start := loaded.data;
    var all := new BlockedData.FromRecord(start);
    FilterKeepsAll(start.asns, AsnNotAmong(values[..0]));
    for k := 0 to |values|
      invariant all.Snapshot() == start.(asns := Filter(start.asns, AsnNotAmong(values[..k])))
    {
      var value := values[k];
      RemoveAsnStep(start.asns, values, k);
      if all.ContainsAsn(value) {
        all.RetainAsn(value);
      } else {
        FilterKeepsAll(all.asns, OtherAsn(value));
      }
    }
    assert values[..|values|] == values;
    if !writeOk {
      return Failed(StoreWriteFailed);
    }
    return Done(all.Snapshot());
  }
}
