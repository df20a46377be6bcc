# Common Access Token validator: a Dafny model

This project models the core of a Common Access Token (CAT) validation service. A CAT is a CBOR
Web Token (RFC 8392) that carries the CTA-5007 claims. The service has four parts:

- It decodes the custom claims into typed views: header match rules and network addresses.
- It checks each claim with a small validator:
  - `catv` is the version;
  - `cath` lists required HTTP headers;
  - `catgeoiso3166` lists the allowed countries;
  - `catnip` lists the allowed client networks.
- Before that, it consults a block list kept in a key-value store.
- It runs all of this in a fixed order inside `Cat::validate`.

The model also covers the load-test driver. The driver sweeps concurrency levels and compiles a
per-task report of latency tables and p95 series.

One Dafny module follows each source file:

| module | source |
|---|---|
| `Convert` (with `Net`, `Cbor`) | `src/validator/mod.rs` |
| `Header` | `src/validator/header.rs` |
| `Country` | `src/validator/country.rs` |
| `Nip` | `src/validator/nip.rs` |
| `Version` | `src/validator/version.rs` |
| `Kv` | `src/validator/kv.rs` |
| `Persistence` | `src/persistence/mod.rs` |
| `Cat` | `src/validator/cat.rs` |
| `Models` | `src/api/models.rs` |
| `PerfReport` | `perf-test/run_and_report.js` and the file name written by `perf-test/load_test.js` |

`Base`, `Ascii` and `Seqs` hold shared helpers:

- `Base`: the shared `Option` and `Error` types;
- `Ascii`: ASCII case mapping and trimming;
- `Seqs`: an order-keeping filter.

Code that loops and changes state is modelled as methods proved against specification functions:

- the cath pair loop;
- the block-list add/remove loops over a `BlockedData` object;
- the validator loop of `Cat::validate`;
- the sweep and report loops of the driver.

Pattern matches and iterator chains are functions.

Every foreign call is a parameter of the model:

- the token library: decode, signature check and claim verification;
- regular expressions;
- parsing of IP and CIDR strings;
- the ASN resolver;
- the key-value store;
- running the probe;
- `JSON.parse`.

Where the source panics, the model either takes a precondition (the per-claim functions) or
returns an explicit `Panicked` verdict (the whole pipeline in `Cat`). The panics are the
`todo!()` on ASN entries and the `unwrap()` on the client IP.

Notes on the source as modelled:

- `binary_search` is only membership on a sorted list. `Kv.BinarySearchIsMembership` needs
  `Sorted`, and `Kv.UnsortedSearchMisses` shows a two-element unsorted list where the search misses
  an element it holds. The block-list code appends new values at the end and never sorts. Whether
  the lists that reach the lookups are sorted is decided by code that is not part of this model.
  The store record has no `any_*` fields, which `kv.rs` and `cat.rs` read. So `Kv` is stated over
  its own record view (`Kv.KvData`), with those flags.
- The load-test report skips a level whose summary has no entry for the task. Such a level gets no
  table row and no chart point (`run_and_report.js:111`); `PerfReport.LevelWithoutTaskIsSkipped`
  states this.
- `resultsByVU` keeps only the levels whose run, read and parse succeeded. `RunSweep` also returns
  the outcome of every level.
- The struct literals in `models.rs` do not set the `country`, `client_ip` and `user_agent` fields
  that `CatValidationOptions` declares, so they would not compile as written. The model sets
  `country` and `clientIp` from the request and `userAgent` to `None`. The request has no user
  agent.

## Model

| member | source | states |
|---|---|---|
| Convert.StartsWith | src/validator/mod.rs:56 | true exactly when the expected text is a prefix of the header value |
| Convert.EndsWith | src/validator/mod.rs:57 | true exactly when the expected text is a suffix of the header value |
| Convert.ContainsText | src/validator/mod.rs:58 | true exactly when the expected text occurs at some position of the header value |
| Convert.MatchKind.Validate | src/validator/mod.rs:53-68 | Ok exactly when the value equals (Exact), starts with (Prefix), ends with (Suffix) or contains (Contains) the expected text; RegEx defers to the regex oracle; any failure is "Header value not valid" |
| Convert.MatchKind.Operator | src/validator/mod.rs:105-110 | the operator code of a rule is one of 0 to 4 |
| Convert.AsString | src/validator/mod.rs:71-83 | Some exactly for Text values, holding that text; every other variant gives None |
| Convert.AsI64 | src/validator/mod.rs:85-90 | Some exactly for Integer values, holding that integer |
| Convert.AsMatchKind | src/validator/mod.rs:92-114 | Some exactly for a Map with an Integer 0 to 4 at key 1 and a Text at key 2; the rule's operator code and text are those entries; other operators give None |
| Convert.MatchKindRoundTrip | src/validator/mod.rs:92-112 | every match rule decodes back from a map holding its operator code at 1 and its text at 2, whatever else the map holds |
| Convert.ZeroPadded | src/validator/mod.rs:152-153 | the octet buffer has the full width, starts with the prefix octets, and is zero after them |
| Convert.CopyIntoZeroedOctets | src/validator/mod.rs:152-153 | filling a zeroed array with `copy_from_slice` yields exactly the zero-padded prefix |
| Convert.TruncateToU8 | src/validator/mod.rs:148 | `len as u8` keeps the value modulo 256 |
| Convert.AsNetworkAddress | src/validator/mod.rs:129-181 | a 16-byte string is an IPv6 address, a 4-byte string an IPv4 address, other lengths None; a [len, bytes] pair with up to 4 bytes is the zero-padded IPv4 prefix, with 5 to 16 bytes the zero-padded IPv6 prefix, Some exactly when the truncated length fits the address width; more than 16 bytes and every other shape give None |
| Convert.DecodeAll | src/validator/mod.rs:120-123 | the decoded entries are exactly the decodings of the entries that decode, never more entries than the input |
| Convert.DecodeAllAppend | src/validator/mod.rs:120-123 | decoding keeps order: decoding a concatenation concatenates the decodings |
| Convert.DecodeAllSingle | src/validator/mod.rs:120-123 | one entry contributes its decoding, or nothing when it does not decode |
| Convert.AsNetworkAddresses | src/validator/mod.rs:117-127 | Some exactly for arrays, holding the order-kept decodable entries |
| Net.NewNet | src/validator/mod.rs:155 | `IpNet::new` succeeds exactly when the prefix length is at most the address width (32 or 128) |
| Net.NetContains | src/validator/nip.rs:30-32 | `IpNet::contains`: same address family and the first prefix-length bits agree |
| Net.NetContainsOwnAddress | src/validator/nip.rs:30-32 | a network contains its own address, host bits included |
| Net.ZeroPrefixContainsFamily | src/validator/nip.rs:30-32 | a /0 network contains exactly the addresses of its family |
| Net.FullPrefixIsEquality | src/validator/nip.rs:30-33 | a network whose prefix covers the whole address contains exactly that address, so a /32 or /128 prefix behaves like the plain-address entry |
| Header.CheckPair | src/validator/header.rs:34-60 | a missing name key is "no entry at i", a non-text name "could not turn into string"; an absent header is "not presented"; without a decodable rule at i + 1 presence is enough; with one, Ok exactly when the header's value satisfies the rule, and otherwise "has invalid value" |
| Header.CheckPairs | src/validator/header.rs:33-65 | the pairs from p to n - 1 in order, stopping at the first failure; `CheckPairsOkIff` and `CheckPairsFirstFailure` state its meaning |
| Header.Spec | src/validator/header.rs:17-67 | the outcome the validator promises: Ok for no claim, "Invalid format" for a non-map, the length error for an odd-sized map, otherwise the pairs' outcome; `Header.Validate` is proved to compute it |
| Header.CheckPairsOkIff | src/validator/header.rs:33-65 | the pairs pass together exactly when every pair passes |
| Header.CheckPairsFirstFailure | src/validator/header.rs:33-65 | a failure is the error of the first failing pair, all pairs before it having passed |
| Header.Validate | src/validator/header.rs:17-67 | an absent claim is Ok, a non-map is "Invalid format", an odd-sized map is rejected before any pair is read; the loop visits pairs (1,2), (3,4), ...; for an even-sized map the result is Ok exactly when the loop passed all size/2 pairs, and an error is that of the pair where the loop stopped; the result is Ok exactly when every pair passes, and equals `Header.Spec` |
| Country.GrantedNames | src/validator/country.rs:30-34 | the granted names are exactly the upper-cased, trimmed Text entries; other entries contribute nothing |
| Country.Validate | src/validator/country.rs:15-41 | an absent claim or an empty array is Ok; a non-array is "Invalid format"; otherwise Ok exactly when the normalised request country equals the normalised text of some Text entry, and "not granted" otherwise |
| Country.ValidateIgnoresCase | src/validator/country.rs:33-35 | upper- or lower-casing the request country does not change the result |
| Country.ValidateIgnoresSurroundingSpace | src/validator/country.rs:33-35 | white space around the request country does not change the result |
| Country.NoTextEntriesGrantNothing | src/validator/country.rs:32 | a non-empty claim with no Text entry rejects every country |
| Country.NonTextEntriesIrrelevant | src/validator/country.rs:32 | appending non-text entries to a non-empty claim does not change the result |
| Country.EntryCaseIrrelevant | src/validator/country.rs:33 | an entry grants the same countries in any letter case |
| Nip.AnyAdmits | src/validator/nip.rs:29-35 | true exactly when some decoded entry equals (address) or contains (prefix) the IP |
| Nip.Admits | src/validator/nip.rs:29-33 | an address entry admits the equal IP, a prefix entry the IPs it contains |
| Nip.Validate | src/validator/nip.rs:17-41 | an unparsable client IP is an error even without a claim; an absent claim or a non-array claim is Ok; for an array, Ok exactly when some decodable entry admits the IP, and "IP address not allowed by token" otherwise |
| Nip.NothingDecodableAdmitsNobody | src/validator/nip.rs:29-39 | an empty array, or one whose entries all fail to decode, rejects every client |
| Nip.SingleEntry | src/validator/nip.rs:29-38 | a one-entry claim admits exactly the IPs its decoded entry admits |
| Version.Validate | src/validator/version.rs:12-22 | Ok exactly for an absent claim or the integer 1; another integer is "Invalid CAT version", a non-integer "Invalid type value" |
| Kv.Search | src/validator/kv.rs:27-30 | the binary search over a window reports found only for an element of the window |
| Kv.Compare | src/validator/kv.rs:27-30 | the `Ord for String` comparison that `binary_search` uses: lexicographic on characters |
| Kv.CompareEqual | src/validator/kv.rs:27-30 | the comparison says Equal exactly for equal strings |
| Kv.CompareFlip | src/validator/kv.rs:27-30 | a is less than b exactly when b is greater than a |
| Kv.BinarySearch | src/validator/kv.rs:27-30 | `binary_search(x).is_ok()` implies that x is in the list |
| Kv.SearchComplete | src/validator/kv.rs:27-30 | on a sorted list the search finds exactly the elements of its window |
| Kv.BinarySearchIsMembership | src/validator/kv.rs:27-30 | on a sorted list `binary_search` succeeds exactly for list members |
| Kv.UnsortedSearchMisses | src/validator/kv.rs:37 | on the unsorted list ["b", "a"] the search misses "b" |
| Kv.IsSubjectBlocked | src/validator/kv.rs:19-31 | a missing subject gives `subject_required` whatever the data; with the flag off nothing is blocked; a blocked subject is in the list |
| Kv.IsCountryBlocked | src/validator/kv.rs:33-38 | with the flag off nothing is blocked; a blocked country is in the list |
| Kv.IsUserAgentBlocked | src/validator/kv.rs:65-70 | with the flag off nothing is blocked; a blocked user agent is in the list |
| Kv.ListLookupsAreMembership | src/validator/kv.rs:24-69 | with sorted lists the subject, country and user-agent look-ups are exactly "flag on and value listed" |
| Kv.AnyCidrContains | src/validator/kv.rs:58-62 | true exactly when some CIDR string parses to a network containing the IP |
| Kv.AllAsnCidrs | src/validator/kv.rs:45-49 | the flattened list holds exactly the CIDRs of all ASN entries |
| Kv.IsIpBlocked | src/validator/kv.rs:53-63 | true exactly when the flag is on and some parsable CIDR contains the parsed IP |
| Kv.IsIpBlockedByAsn | src/validator/kv.rs:40-52 | true exactly when the flag is on and some parsable CIDR of some ASN entry contains the parsed IP |
| Kv.UnparsableCidrsIgnored | src/validator/kv.rs:61 | adding unparsable CIDR strings does not change the IP look-up |
| Persistence.TryFromClaimType | src/persistence/mod.rs:102-110 | Subject, Country, Cidr and UserAgent exactly for the upper-cased names SUBJECT, COUNTRY, CIDR and USERAGENT |
| Persistence.TryFromClaimTypeIgnoresCase | src/persistence/mod.rs:103 | lower-casing the input does not change the result; only the four names are accepted |
| Persistence.TryFromClaimTypeNames | src/persistence/mod.rs:103-108 | "subject", "Country", "cidr" and "userAgent" parse, "user-agent" does not |
| Persistence.BlockedRecord.With | src/persistence/mod.rs:156-163 | replacing one kind's list leaves the other lists and the ASN entries unchanged |
| Persistence.HasAsn | src/persistence/mod.rs:139-141 | true exactly when some entry has the ASN |
| Persistence.BlockedData.constructor | src/persistence/mod.rs:129-137 | `new()` has every list empty |
| Persistence.BlockedData.FromRecord | src/persistence/mod.rs:15-17 | the object holds the block data read from the store |
| Persistence.BlockedData.Contains | src/persistence/mod.rs:143-150 | true exactly when the value is in the list of the given kind |
| Persistence.BlockedData.ContainsAsn | src/persistence/mod.rs:139-141 | true exactly when some entry has the ASN |
| Persistence.BlockedData.Push | src/persistence/mod.rs:156-163 | appends the value to the list of its kind; every other field is unchanged |
| Persistence.BlockedData.PushAsns | src/persistence/mod.rs:152-154 | appends the new entries; every other field is unchanged |
| Persistence.BlockedData.Retain | src/persistence/mod.rs:168-178 | keeps the elements of that kind's list that satisfy the predicate, in order; every other field is unchanged |
| Persistence.BlockedData.RetainAsn | src/persistence/mod.rs:165-167 | drops every entry with the ASN, keeping the order of the rest |
| Persistence.GetBlockingData | src/persistence/mod.rs:13-19 | fails exactly when the store cannot be opened or read; a missing key gives all-empty lists, a stored record is returned as is |
| Persistence.AddAll | src/persistence/mod.rs:27-31 | the list after the loop appends each value that is not yet present, in order; its properties are the `AddAll*` lemmas |
| Persistence.AddItems | src/persistence/mod.rs:21-35 | the record `add_items_to_blocklist` stores: the chosen list after `AddAll`; its effect is `AddItemsEffect` |
| Persistence.RemoveItems | src/persistence/mod.rs:37-51 | the record `remove_items_from_blocklist` stores: the chosen list without the values; its effect is `RemoveItemsEffect` |
| Persistence.RemoveAsns | src/persistence/mod.rs:75-89 | the record `remove_asns_from_blocklist` stores: the entries whose number is not listed; its effect is `RemoveAsnsEffect` |
| Persistence.AddAllMembers | src/persistence/mod.rs:27-31 | after the add the list holds exactly the old elements and the added values |
| Persistence.AddAllKeepsPrefix | src/persistence/mod.rs:27-31 | the old list is a prefix of the new one |
| Persistence.AddAllNoDuplicates | src/persistence/mod.rs:27-31 | a list without repeats stays without repeats, including for repeats within the input |
| Persistence.AddAllSuffix | src/persistence/mod.rs:27-31 | the part an add appends holds each value not yet listed exactly once, nothing else, and is a subsequence of the values given |
| Persistence.AddAllPresent | src/persistence/mod.rs:27-31 | adding values already present changes nothing |
| Persistence.AddAllIdempotent | src/persistence/mod.rs:27-31 | adding the same values twice equals adding them once |
| Persistence.AddItemsEffect | src/persistence/mod.rs:21-35 | after an add every value is in the chosen list and the old list is kept as a prefix; the appended part holds each value not already listed exactly once, nothing else, and is a subsequence of the values given; the other lists and ASN entries are unchanged, and a second add changes nothing |
| Persistence.RemoveItemsEffect | src/persistence/mod.rs:37-51 | after a remove the chosen list keeps every copy of each old element not among the values and no copy of the others, in their old order; the other lists are unchanged |
| Persistence.RemoveAsnsEffect | src/persistence/mod.rs:75-89 | after `remove_asns` every copy of each entry with an unlisted number remains and none of the others, in order; the string lists are unchanged |
| Persistence.ResolveAll | src/persistence/mod.rs:61-66 | fails exactly when some resolution fails; otherwise one resolved entry per requested ASN, in order |
| Persistence.NewAsns | src/persistence/mod.rs:61-63 | the requested numbers without an entry yet, in request order, each as many times as it was requested; listed numbers do not occur |
| Persistence.NewAsnsKeepsRepeats | src/persistence/mod.rs:61-64 | an unlisted number requested twice is resolved twice |
| Persistence.AddItemsToBlocklist | src/persistence/mod.rs:21-35 | a store read failure is returned; a failed write is an error; otherwise the stored record is the loaded one with `AddItems` applied |
| Persistence.RemoveItemsFromBlocklist | src/persistence/mod.rs:37-51 | as above with `RemoveItems`: each listed value is removed from the chosen list |
| Persistence.AddAsnsToBlocklist | src/persistence/mod.rs:54-73 | only numbers without an entry are resolved; one failed resolution fails the call; otherwise the resolved entries are appended and the record stored |
| Persistence.RemoveAsnsFromBlocklist | src/persistence/mod.rs:75-89 | the stored record is the loaded one without the entries of the listed numbers |
| Cat.SyncValidator.Key | src/validator/cat.rs:83 | each validator reads its own claim: version catv, header cath, nip catnip, country catgeoiso3166 |
| Cat.ClaimOf | src/validator/cat.rs:83 | `token.claims.custom.get(key)`: the claim under the key, if any |
| Cat.RunValidator | src/validator/cat.rs:83-86 | one validator applied to the claim its key selects; a nip validator reaching an ASN entry panics |
| Cat.BuildVerificationOptions | src/validator/cat.rs:70-79 | `require_aud` is set exactly when an audience is given, with "" as the expected audience otherwise; the HTTP method is upper-cased; URI and method checks are on; expiry, not-before and issuer are copied |
| Cat.KvVerdict | src/validator/cat.rs:48-66 | without `any` nothing is blocked; otherwise, in this order, a blocked (or missing) subject, a given and blocked country, a given and blocked user agent, a panic for an unparsable IP with CIDRs active, and a blocked IP each give their own verdict, each exactly when every earlier check passed; Accepted exactly when all pass |
| Cat.SyncVerdict | src/validator/cat.rs:82-88 | accepted exactly when every validator accepts; otherwise the verdict of the first validator that does not |
| Cat.Pipeline | src/validator/cat.rs:33-89 | a decoding failure, then a signature failure, end the call first; unless skipped, unreadable block data gives "block data unavailable" and a block-list rejection is returned before the claims are looked at; once the block-list stage passes, failed claim verification gives ClaimsRejected and otherwise the sync validators' verdict decides; accepted exactly when every stage passes |
| Cat.SkipIgnoresBlockData | src/validator/cat.rs:40 | with `skip_kv_validations` the block data does not influence the result |
| Cat.FirstFailureWins | src/validator/cat.rs:82-87 | of two failing validators the first one's error is returned |
| Cat.RunOne | src/validator/cat.rs:83-86 | one pass of the loop equals `RunValidator` for that validator |
| Cat.Validate | src/validator/cat.rs:33-89 | the early-return checks and the validator loop compute exactly `Pipeline` |
| Models.ValidateGenerateRequest | src/api/models.rs:25-28 | Ok exactly when there is at least one country and the expiration is at least one hour; the error names each violated constraint |
| Models.DeserializeFlag | src/api/models.rs:40-43 | a missing field reads as Some(true), null as None, a value as itself |
| Models.Validators | src/api/models.rs:59-73 | Version, Header, Nip first, with the request's headers and client IP; Country fourth and last exactly when a country was supplied |
| Models.OptionsFor | src/api/models.rs:50-74 | url, method, issuer and audience are copied; expiry and not-before checks are on unless explicitly false; the validator list is `Validators` |
| Models.IntoNonKvValidationOptions | src/api/models.rs:50-75 | skips the block-list checks; every other field is that of `OptionsFor` |
| Models.FromRequest | src/api/models.rs:79-105 | does not skip the block-list checks; every other field is that of `OptionsFor` |
| Models.ConversionsDifferOnlyInSkip | src/api/models.rs:50-106 | the two conversions give the same options except for the skip flag |
| Models.MissingFlagsDefaultToOn | src/api/models.rs:108-110 | flags left out of the request body are on in both conversions |
| Models.CountryRunsLast | src/api/models.rs:69-73 | with a country, the country check runs only after version, header and nip all pass |
| PerfReport.DecimalString | perf-test/run_and_report.js:33 | `toString()` of a level is a non-empty string of digits |
| PerfReport.ParseInt | perf-test/load_test.js:20 | NaN exactly when the string does not start with a digit |
| PerfReport.DecimalRoundTrip | perf-test/load_test.js:20 | `parseInt(n.toString())` is n |
| PerfReport.ProbeWritesExpectedArtifact | perf-test/load_test.js:58-62 | the probe started for a level writes exactly the file name the driver expects |
| PerfReport.ArtifactName | perf-test/run_and_report.js:24 | the file name the driver expects for a level |
| PerfReport.ProbeSummaryName | perf-test/load_test.js:20 | the file name the probe writes: its level is `parseInt` of `VUS`, or 5 when unset |
| PerfReport.AttemptLevel | perf-test/run_and_report.js:22-41 | the probe's summary, if written, is added to the files; the level fails as a run exactly when the probe exits abnormally, for a missing artifact exactly when it exits normally and `results_vus_<vus>.json` is absent, and stores exactly when the file is there and parses; the stored results are the parse of that file |
| PerfReport.SummaryIsFound | perf-test/run_and_report.js:38 | a probe that exits normally after writing its summary never fails for a missing artifact, and stores exactly when the summary parses |
| PerfReport.SweepOf | perf-test/run_and_report.js:86-94 | one outcome per level attempted |
| PerfReport.SweepPrefix | perf-test/run_and_report.js:86-94 | the outcomes of the first k levels do not depend on later levels: levels are attempted in order and a failure does not stop the loop |
| PerfReport.SweepKeepsStoredLevels | perf-test/run_and_report.js:88-90 | `resultsByVU` has an entry exactly for the levels of some attempt whose outcome is Stored |
| PerfReport.RunSweep | perf-test/run_and_report.js:83-94 | the level loop computes exactly `SweepOf`, with one outcome per level |
| PerfReport.GetMetricValue | perf-test/run_and_report.js:46-50 | "N/A" exactly when the metric, its values or the field is missing; otherwise the field's number |
| PerfReport.RowOf | perf-test/run_and_report.js:113-118 | a table row: the level and the min, median, average, p95 and max cells of the task's metric |
| PerfReport.ScanLevels | perf-test/run_and_report.js:106-128 | what the inner loop collects over the levels; `ScanSelects` states its meaning |
| PerfReport.ScanSelects | perf-test/run_and_report.js:109-128 | rows appear exactly for the levels with data for the task, in level order, each with that level's cells; the series levels are exactly those with a p95 value, and the i-th p95 value is the p95 of the i-th series level |
| PerfReport.SeriesIsSubsequence | perf-test/run_and_report.js:120-123 | the series levels are a subsequence of the configured levels; a level is in it exactly when it has a p95 value |
| PerfReport.LevelWithoutTaskIsSkipped | perf-test/run_and_report.js:111 | a level whose data lacks the task adds no row and no point |
| PerfReport.PageOf | perf-test/run_and_report.js:97-135 | a page names its task, holds exactly the rows and series of the scan over the levels, and has a chart exactly when its series is non-empty |
| PerfReport.Report | perf-test/run_and_report.js:97-99 | one page per task, in task order |
| PerfReport.CompileReport | perf-test/run_and_report.js:97-138 | the nested report loops compute exactly `Report` |
| Ascii.Upper | src/validator/country.rs:33 | upper-cases each ASCII letter and keeps the length |
| Ascii.TrimStart | src/validator/country.rs:33 | drops the leading white space: the result is a suffix that starts with a non-space |
| Ascii.TrimEnd | src/validator/country.rs:33 | drops the trailing white space: the result is a prefix that ends with a non-space |
| Ascii.Trim | src/validator/country.rs:33 | the result is the slice of the input left once white space, and only white space, is dropped at both ends; it neither starts nor ends with white space, so it is the longest such slice |
| Ascii.Normalize | src/validator/country.rs:33 | the comparison form of a country is the upper-cased slice of the input left once only white space is dropped at both ends; it has no lower-case letter and no white space at either end |
| Ascii.NormalizeFixedPoint | src/validator/country.rs:33-35 | a name already without lower-case letters and surrounding white space is its own comparison form, so two different such names never compare equal |
| Ascii.TrimIgnoresSurroundingSpace | src/validator/country.rs:33 | trimming ignores any white space added around a string |
| Ascii.NormalizeIgnoresCase | src/validator/country.rs:33-35 | upper-casing then trimming gives the same result for a string and its upper- and lower-cased forms |
| Ascii.NormalizeIgnoresSurroundingSpace | src/validator/country.rs:33-35 | upper-casing then trimming ignores surrounding white space |
| Seqs.Filter | src/persistence/mod.rs:168-178 | the kept elements are exactly the input elements satisfying the predicate, never more than the input |
| Seqs.FilterCounts | src/persistence/mod.rs:168-178 | a filter keeps every copy of a kept element and no copy of a dropped one |

## Left out

- Regular expressions: `regex(pattern, value)` stands for the regex crate. The model does not
  capture the panic of `Regex::new(..).unwrap()` on an invalid pattern.
- Unicode: `to_uppercase` and `trim` are modelled for ASCII letters and ASCII white space only.
  They are used by the country check, the claim-type parse and the HTTP method. Unicode case
  mappings such as the long s upper-casing to "S" are not modelled.
- IP and CIDR strings: parsing is the parameters `parseIp` and `parseNet`. An address is its
  octets, and `IpNet::contains` is equality of the first prefix-length bits.
- The token library:
  - `Token::from_bytes`, `verify` and `verify_claims` are parameters;
  - the CBOR wire format is not modelled;
  - the claim keys are symbolic, because their numbers belong to that library.
- The key-value store:
  - the read is the `StoreRead` value and the write is a success flag;
  - serde JSON and `IntoBody` are not modelled;
  - how the store record becomes the `any_*` view of `Kv.KvData` is not visible in the source;
    `Cat.Pipeline` takes that view as a parameter.
- The ASN resolver: it is the parameter `resolve`. The `try_join_all` concurrency is modelled by
  its sequential effect.
- ASN entries in catnip: `as_network_address` reaches `todo!()` for an integer. The per-claim
  functions require that no entry is an integer; the pipeline reports `Panicked` instead.
- The client IP in `kv.rs`: `unwrap()` panics on an unparsable IP. `Kv.IsIpBlocked` and
  `Kv.IsIpBlockedByAsn` require a parsable IP once their flag is set; the pipeline reports
  `Panicked`. `is_ip_blocked_by_asn` is not called by the pipeline, and the model does not call it
  either.
- Header.Validate: does not model the `i32` cast of the map size or of the counters, which would
  only matter for maps of more than 2^31 entries.
- Convert.AsString: `as_str` and `as_string` return the same text, borrowed or copied, and are one
  function here.
- `NetworkAddress::ASN` is never constructed by the source and has no counterpart here.
- `Cat::validate` is `async`; only its sequential behaviour is modelled.
- `src/api/handlers.rs` and `src/lib.rs` (HTTP routing, status codes, base64) are not part of this
  model. `lib.rs` also calls `validate` with one argument, which matches no definition in `cat.rs`.
- PerfReport.GetMetricValue: returns the number itself, not its `toFixed(2)` string. Likewise the
  chart series holds the number rather than `parseFloat` of the rounded string. A metric value
  that is present but not a number (`toFixed` would throw) is not modelled.
- The load-test driver's output:
  - console output is not modelled;
  - PDF layout and fonts are not modelled;
  - chart rendering is reduced to a per-page flag;
  - the environment passed to `execSync` is reduced to the `VUS` variable.
- PerfReport.DecimalString: levels are unbounded naturals. A JS number prints as plain digits only
  below 10^21 (`toString` switches to exponent form there) and holds an integer exactly only below
  2^53, so `DecimalRoundTrip` and `ProbeWritesExpectedArtifact` carry over to JS only for such
  levels. The driver's levels (`run_and_report.js:9`) are all below 1000.
- Convert.AsNetworkAddress: the message that `as_network_address` prints to the console for an
  unsupported CBOR value (`src/validator/mod.rs:177`) is not modelled; only the `None` it returns is.
- PerfReport.ParseInt: accepts unsigned decimal digits only. `parseInt`'s sign, leading white
  space and radix prefixes are not modelled.
- `perf-test/load_test.js` is modelled only through the name of the summary file it writes. The
  requests it sends are not modelled.
