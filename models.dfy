/**
  Request models of the HTTP API (api/models.rs) and how a validation request becomes the
  pipeline's options.
*/
module Models {
  import opened Base
  import opened Cat

  newtype u64 = x: int | 0 <= x < 0x1_0000_0000_0000_0000

  /** `GenerateTokenRequestModel`. */
  datatype GenerateTokenRequest = GenerateTokenRequest(
    issuer: string, subject: string, audience: string,
    countries: seq<string>, expirationInHours: u64, tokenIdentifier: string)

  /**
    The `garde` checks on a generation request: at least one country, and an expiration of at
    least one hour. Both violations are reported together.
  */
  function ValidateGenerateRequest(req: GenerateTokenRequest): (r: Outcome)
    ensures r.Ok? <==> |req.countries| >= 1 && req.expirationInHours >= 1
    ensures r.Err? ==> r.error == InvalidGenerateRequest(|req.countries| < 1, req.expirationInHours < 1)
  {
    if |req.countries| >= 1 && req.expirationInHours >= 1 then Ok
    else Err(InvalidGenerateRequest(|req.countries| < 1, req.expirationInHours < 1))
  }

  /** A JSON field of type `Option<bool>` as it appears in a request body. */
  datatype FlagField = Absent | Null | Given(flag: bool)

  /** `#[serde(default = "validate_by_default")]`: a missing field reads as `Some(true)`. */
  function DeserializeFlag(f: FlagField): (r: Option<bool>)
    ensures f.Absent? ==> r == Some(true)
    ensures f.Null? ==> r.None?
    ensures f.Given? ==> r == Some(f.flag)
  {
    match f
    case Absent => Some(true)
    case Null => None
    case Given(b) => Some(b)
  }

  /** `ValidateTokenRequestModel`. */
  datatype ValidateTokenRequest = ValidateTokenRequest(
    token: string, url: string, httpMethod: string, issuer: string,
    headers: map<string, string>,
    validateNotBefore: Option<bool>, validateExpiration: Option<bool>,
    audience: Option<string>, clientIp: string, country: Option<string>)

  /** The claim validators a request asks for: version, header, nip, and country when one is given. */
  function Validators(req: ValidateTokenRequest): (vs: seq<SyncValidator>)
    ensures |vs| == if req.country.Some? then 4 else 3
    ensures vs[..3] == [VersionCheck, HeaderCheck(req.headers), NipCheck(req.clientIp)]
    ensures req.country.Some? ==> vs[3] == CountryCheck(req.country.value)
  {
    var base := [VersionCheck, HeaderCheck(req.headers), NipCheck(req.clientIp)];
    if req.country.Some? then base + [CountryCheck(req.country.value)] else base
  }

  /** The options both conversions share, with the skip flag given. */
  function OptionsFor(req: ValidateTokenRequest, skipKv: bool): (o: Options)
    ensures o.skipKvValidations == skipKv
    ensures o.syncValidators == Validators(req)
    ensures o.url == req.url && o.httpMethod == req.httpMethod && o.issuer == req.issuer && o.audience == req.audience
    ensures o.validateExpiration <==> req.validateExpiration != Some(false)
    ensures o.validateNotBefore <==> req.validateNotBefore != Some(false)
    ensures o.country == req.country && o.clientIp == req.clientIp && o.userAgent.None?
  {
    Options(
      Validators(req), req.url, req.httpMethod, req.issuer,
      req.country, req.clientIp, None,
      req.validateExpiration.GetOr(true), req.validateNotBefore.GetOr(true),
      req.audience, skipKv)
  }

  /** `into_non_kv_validation_options`: the block data is not consulted. */
  function IntoNonKvValidationOptions(req: ValidateTokenRequest): (o: Options)
    ensures o.skipKvValidations
    ensures o == OptionsFor(req, true)
  {
    OptionsFor(req, true)
  }

  /** `From<ValidateTokenRequestModel> for CatValidationOptions`: the block data is consulted. */
  function FromRequest(req: ValidateTokenRequest): (o: Options)
    ensures !o.skipKvValidations
    ensures o == OptionsFor(req, false)
  {
    OptionsFor(req, false)
  }

  /** The two conversions differ in the skip flag and nothing else. */
  lemma ConversionsDifferOnlyInSkip(req: ValidateTokenRequest)
    ensures IntoNonKvValidationOptions(req) == FromRequest(req).(skipKvValidations := true)
  {
  }

  /** Flags left out of the request body are on. */
  lemma MissingFlagsDefaultToOn(req: ValidateTokenRequest, nbf: FlagField, exp: FlagField)
    requires req.validateNotBefore == DeserializeFlag(nbf) && req.validateExpiration == DeserializeFlag(exp)
    requires !nbf.Given? && !exp.Given?
    ensures FromRequest(req).validateNotBefore && FromRequest(req).validateExpiration
    ensures IntoNonKvValidationOptions(req).validateNotBefore && IntoNonKvValidationOptions(req).validateExpiration
  {
  }

  /** The country validator, when present, runs after the three others. */
  lemma CountryRunsLast(req: ValidateTokenRequest, token: Token, lib: Library)
    requires req.country.Some?
    ensures SyncVerdict(Validators(req), token, lib) ==
      var first3 := SyncVerdict([VersionCheck, HeaderCheck(req.headers), NipCheck(req.clientIp)], token, lib);
      if first3.Accepted? then RunValidator(CountryCheck(req.country.value), token, lib) else first3
  {
    var vs := Validators(req);
    assert vs[1..][1..][1..][1..] == [];
    assert [VersionCheck, HeaderCheck(req.headers), NipCheck(req.clientIp)][1..][1..][1..] == [];
  }
}
