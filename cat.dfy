/**
  `Cat::validate` (validator/cat.rs): decode and verify the token, consult the block data unless
  told to skip it, verify the registered claims, then run the claim validators in list order.
  The token library (`Token::from_bytes`, `verify`, `verify_claims`), regular expressions and
  address parsing are the fields of `Library`.
*/
module Cat {
  import opened Base
  import opened Net
  import opened Cbor
  import opened Ascii
  import opened Convert
  import Header
  import Country
  import Nip
  import Version
  import opened Kv

  /** The claim validators of the source, with the data each one carries. */
  datatype SyncValidator =
    | VersionCheck
    | HeaderCheck(headers: map<string, string>)
    | NipCheck(clientIp: string)
    | CountryCheck(country: string)
  {
    /** `get_claim_key`: the custom claim each validator reads. */
    function Key(): (k: ClaimKey)
      ensures VersionCheck? <==> k == Catv
      ensures HeaderCheck? <==> k == Cath
      ensures NipCheck? <==> k == Catnip
      ensures CountryCheck? <==> k == Catgeoiso3166
    {
      match this
      case VersionCheck => Catv
      case HeaderCheck(_) => Cath
      case NipCheck(_) => Catnip
      case CountryCheck(_) => Catgeoiso3166
    }
  }

  /** `CatValidationOptions`. */
  datatype Options = Options(
    syncValidators: seq<SyncValidator>,
    url: string, httpMethod: string, issuer: string,
    country: Option<string>, clientIp: string, userAgent: Option<string>,
    validateExpiration: bool, validateNotBefore: bool,
    audience: Option<string>, skipKvValidations: bool)

  /** The parts of a decoded token the pipeline reads: the subject and the custom claims. */
  datatype Token = Token(sub: Option<string>, custom: map<ClaimKey, CborValue>)

  /** `VerificationOptions` as the pipeline configures it. */
  datatype VerificationOptions = VerificationOptions(
    verifyExp: bool, verifyNbf: bool, expectedIssuer: string, verifyCatu: bool,
    requireAud: bool, expectedAudience: string, uri: string, verifyCatm: bool, httpMethod: string)

  datatype Library = Library(
    decode: seq<byte> -> Option<Token>,
    verifySignature: (Token, string) -> bool,
    verifyClaims: (Token, VerificationOptions) -> bool,
    regex: (string, string) -> bool,
    parseIp: string -> Option<IpAddr>,
    parseNet: string -> Option<IpNet>)

  /** How a call ends: `Ok`, an `Err`, or a panic (an `unwrap` or a `todo!()` in the source). */
  datatype Verdict = Accepted | Rejected(error: Error) | Panicked

  function FromOutcome(o: Outcome): (v: Verdict)
    ensures v.Accepted? <==> o.Ok?
    ensures o.Err? ==> v == Rejected(o.error)
  {
    match o
    case Ok => Accepted
    case Err(e) => Rejected(e)
  }

  /** The options handed to `verify_claims`. */
  function BuildVerificationOptions(opts: Options): (v: VerificationOptions)
    ensures v.requireAud <==> opts.audience.Some?
    ensures v.expectedAudience == if opts.audience.Some? then opts.audience.value else ""
    ensures v.httpMethod == Upper(opts.httpMethod)
    ensures v.verifyCatu && v.verifyCatm
    ensures v.verifyExp == opts.validateExpiration && v.verifyNbf == opts.validateNotBefore
    ensures v.expectedIssuer == opts.issuer && v.uri == opts.url
  {
    VerificationOptions(
      opts.validateExpiration, opts.validateNotBefore, opts.issuer, true,
      opts.audience.Some?, opts.audience.GetOr(""), opts.url, true, Upper(opts.httpMethod))
  }

  /** The block-list checks, run when the block data says something is blocked. */
  function KvVerdict(d: KvData, token: Token, opts: Options, lib: Library): (r: Verdict)
    ensures !d.any ==> r == Accepted
    ensures d.any && token.sub.None? ==> r == Rejected(SubjectBlocked)
    ensures r == Rejected(SubjectBlocked) <==> d.any && IsSubjectBlocked(d, token.sub, true)
    ensures r == Rejected(CountryBlocked) <==>
      d.any && !IsSubjectBlocked(d, token.sub, true) && opts.country.Some? && IsCountryBlocked(d, opts.country.value)
    ensures r == Rejected(UserAgentBlocked) <==>
      d.any && !IsSubjectBlocked(d, token.sub, true) &&
      !(opts.country.Some? && IsCountryBlocked(d, opts.country.value)) &&
      opts.userAgent.Some? && IsUserAgentBlocked(d, opts.userAgent.value)
    ensures r == Panicked <==> (d.any && d.anyCidrs && lib.parseIp(opts.clientIp).None? &&
      !IsSubjectBlocked(d, token.sub, true) &&
      !(opts.country.Some? && IsCountryBlocked(d, opts.country.value)) &&
      !(opts.userAgent.Some? && IsUserAgentBlocked(d, opts.userAgent.value)))
    ensures r == Rejected(IpBlocked) <==> (d.any && !IsSubjectBlocked(d, token.sub, true) &&
      !(opts.country.Some? && IsCountryBlocked(d, opts.country.value)) &&
      !(opts.userAgent.Some? && IsUserAgentBlocked(d, opts.userAgent.value)) &&
      !(d.anyCidrs && lib.parseIp(opts.clientIp).None?) &&
      IsIpBlocked(d, opts.clientIp, lib.parseIp, lib.parseNet))
    ensures r == Accepted <==> (!d.any || (!IsSubjectBlocked(d, token.sub, true) &&
      !(opts.country.Some? && IsCountryBlocked(d, opts.country.value)) &&
      !(opts.userAgent.Some? && IsUserAgentBlocked(d, opts.userAgent.value)) &&
      !(d.anyCidrs && lib.parseIp(opts.clientIp).None?) &&
      !IsIpBlocked(d, opts.clientIp, lib.parseIp, lib.parseNet)))
    ensures r.Rejected? ==> r.error in {SubjectBlocked, CountryBlocked, UserAgentBlocked, IpBlocked}
  {
    if !d.any then Accepted
    else if IsSubjectBlocked(d, token.sub, true) then Rejected(SubjectBlocked)
    else if opts.country.Some? && IsCountryBlocked(d, opts.country.value) then Rejected(CountryBlocked)
    else if opts.userAgent.Some? && IsUserAgentBlocked(d, opts.userAgent.value) then Rejected(UserAgentBlocked)
    else if d.anyCidrs && lib.parseIp(opts.clientIp).None? then Panicked
    else if IsIpBlocked(d, opts.clientIp, lib.parseIp, lib.parseNet) then Rejected(IpBlocked)
    else Accepted
  }

  /** `token.claims.custom.get(key)`. */
  function ClaimOf(token: Token, key: ClaimKey): Option<CborValue> {
    if key in token.custom then Some(token.custom[key]) else None
  }

  /** Whether `validate` of the nip validator panics: an ASN entry is reached once the IP parses. */
  predicate NipPanics(clientIp: string, lib: Library, claim: Option<CborValue>) {
    lib.parseIp(clientIp).Some? && claim.Some? && !NoAsnEntries(claim.value)
  }

  /** One claim validator applied to its claim. */
  function RunValidator(v: SyncValidator, token: Token, lib: Library): Verdict {
    var claim := ClaimOf(token, v.Key());
    match v
    case VersionCheck => FromOutcome(Version.Validate(claim))
    case HeaderCheck(headers) => FromOutcome(Header.Spec(headers, claim, lib.regex))
    case NipCheck(clientIp) =>
      if NipPanics(clientIp, lib, claim) then Panicked
      else FromOutcome(Nip.Validate(clientIp, lib.parseIp, claim))
    case CountryCheck(country) => FromOutcome(Country.Validate(country, claim))
  }

  /** The sync validators in list order; the first that does not accept decides. */
  function SyncVerdict(vs: seq<SyncValidator>, token: Token, lib: Library): (r: Verdict)
    ensures r.Accepted? <==> forall i :: 0 <= i < |vs| ==> RunValidator(vs[i], token, lib).Accepted?
    ensures !r.Accepted? ==> exists i :: (0 <= i < |vs| && r == RunValidator(vs[i], token, lib) &&
      forall j :: 0 <= j < i ==> RunValidator(vs[j], token, lib).Accepted?)
  {
    if vs == [] then Accepted
    else
      var first := RunValidator(vs[0], token, lib);
      if !first.Accepted? then first
      else
        var rest := SyncVerdict(vs[1..], token, lib);
        assert forall i :: 1 <= i < |vs| ==> vs[1..][i - 1] == vs[i];
        assert !rest.Accepted? ==> exists i :: (1 <= i < |vs| && rest == RunValidator(vs[i], token, lib) &&
          forall j :: 0 <= j < i ==> RunValidator(vs[j], token, lib).Accepted?) by {
          if !rest.Accepted? {
            var i :| 0 <= i < |vs| - 1 && rest == RunValidator(vs[1..][i], token, lib) &&
              forall j :: 0 <= j < i ==> RunValidator(vs[1..][j], token, lib).Accepted?;
            assert forall j :: 1 <= j < i + 1 ==> vs[j] == vs[1..][j - 1];
          }
        }
        rest
  }

  /** The block-list stage lets the token through: it is skipped, or the data was read and blocks nothing. */
  predicate KvPasses(token: Token, opts: Options, blocking: Option<KvData>, lib: Library) {
    opts.skipKvValidations || (blocking.Some? && KvVerdict(blocking.value, token, opts, lib).Accepted?)
  }

  /**
    The whole of `Cat::validate`. `blocking` is what `Persistence::get_blocking_data` returns
    (`None` when the store cannot be read).
  */
  function Pipeline(cat: seq<byte>, key: string, opts: Options, blocking: Option<KvData>, lib: Library): (r: Verdict)
    ensures lib.decode(cat).None? ==> r == Rejected(TokenDecodingFailed)
    ensures lib.decode(cat).Some? && !lib.verifySignature(lib.decode(cat).value, key) ==> r == Rejected(SignatureValidationFailed)
    ensures (lib.decode(cat).Some? && lib.verifySignature(lib.decode(cat).value, key) && !opts.skipKvValidations) ==>
      ((blocking.None? ==> r == Rejected(BlockDataUnavailable)) &&
       (blocking.Some? && !KvVerdict(blocking.value, lib.decode(cat).value, opts, lib).Accepted? ==>
          r == KvVerdict(blocking.value, lib.decode(cat).value, opts, lib)))
    ensures (lib.decode(cat).Some? && lib.verifySignature(lib.decode(cat).value, key) &&
             KvPasses(lib.decode(cat).value, opts, blocking, lib)) ==>
      ((!lib.verifyClaims(lib.decode(cat).value, BuildVerificationOptions(opts)) ==> r == Rejected(ClaimsRejected)) &&
       (lib.verifyClaims(lib.decode(cat).value, BuildVerificationOptions(opts)) ==>
          r == SyncVerdict(opts.syncValidators, lib.decode(cat).value, lib)))
    ensures r.Accepted? <==> (lib.decode(cat).Some? && lib.verifySignature(lib.decode(cat).value, key) &&
      KvPasses(lib.decode(cat).value, opts, blocking, lib) &&
      lib.verifyClaims(lib.decode(cat).value, BuildVerificationOptions(opts)) &&
      forall i :: 0 <= i < |opts.syncValidators| ==> RunValidator(opts.syncValidators[i], lib.decode(cat).value, lib).Accepted?)
  {
    match lib.decode(cat)
    case None => Rejected(TokenDecodingFailed)
    case Some(token) =>
      if !lib.verifySignature(token, key) then Rejected(SignatureValidationFailed)
      else
        var kv :=
          if opts.skipKvValidations then Accepted
          else if blocking.None? then Rejected(BlockDataUnavailable)
          else KvVerdict(blocking.value, token, opts, lib);
        if !kv.Accepted? then kv
        else if !lib.verifyClaims(token, BuildVerificationOptions(opts)) then Rejected(ClaimsRejected)
        else SyncVerdict(opts.syncValidators, token, lib)
  }

  /** With `skip_kv_validations` the block data is never looked at. */
  lemma SkipIgnoresBlockData(cat: seq<byte>, key: string, opts: Options, b1: Option<KvData>, b2: Option<KvData>, lib: Library)
    requires opts.skipKvValidations
    ensures Pipeline(cat, key, opts, b1, lib) == Pipeline(cat, key, opts, b2, lib)
  {
  }

  /** Reordering is visible: with two failing validators the earlier one's error is returned. */
  lemma FirstFailureWins(v: SyncValidator, w: SyncValidator, token: Token, lib: Library)
    requires !RunValidator(v, token, lib).Accepted?
    ensures SyncVerdict([v, w], token, lib) == RunValidator(v, token, lib)
  {
  }

  /** One pass of the validator loop: `v.validate(claim_value)` on the claim `v` reads. */
  method RunOne(v: SyncValidator, token: Token, lib: Library) returns (outcome: Verdict)
    ensures outcome == RunValidator(v, token, lib)
  {
    var claim := ClaimOf(token, v.Key());
    match v {
      case VersionCheck =>
        outcome := FromOutcome(Version.Validate(claim));
      case HeaderCheck(headers) =>
        var o: Outcome;
        ghost var visited: nat;
        o, visited := Header.Validate(headers, claim, lib.regex);
        outcome := FromOutcome(o);
      case NipCheck(clientIp) =>
        if NipPanics(clientIp, lib, claim) {
          outcome := Panicked;
        } else {
          outcome := FromOutcome(Nip.Validate(clientIp, lib.parseIp, claim));
        }
      case CountryCheck(country) =>
        outcome := FromOutcome(Country.Validate(country, claim));
    }
  }

  /** `Cat::validate`: the early-return checks, then the `for v in opts.sync_validators` loop. */
  method Validate(cat: seq<byte>, key: string, opts: Options, blocking: Option<KvData>, lib: Library)
    returns (r: Verdict)
    ensures r == Pipeline(cat, key, opts, blocking, lib)
  {
    var decoded := lib.decode(cat);
    if decoded.None? {
      return Rejected(TokenDecodingFailed);
    }
    var token := decoded.value;
    if !lib.verifySignature(token, key) {
      return Rejected(SignatureValidationFailed);
    }
    if !opts.skipKvValidations {
      if blocking.None? {
        return Rejected(BlockDataUnavailable);
      }
      var kv := KvVerdict(blocking.value, token, opts, lib);
      if !kv.Accepted? {
        return kv;
      }
    }
    if !lib.verifyClaims(token, BuildVerificationOptions(opts)) {
      return Rejected(ClaimsRejected);
    }
    var vs := opts.syncValidators;
    for k := 0 to |vs|
      invariant SyncVerdict(vs, token, lib) == SyncVerdict(vs[k..], token, lib)
    {
      var outcome := RunOne(vs[k], token, lib);
      assert vs[k..][1..] == vs[k + 1..];
      if !outcome.Accepted? {
        return outcome;
      }
    }
    return Accepted;
  }
}
