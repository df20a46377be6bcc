/** Small shared datatypes: an optional value, and the outcome of a validator (`anyhow::Result<()>`). */
module Base {

  datatype Option<+T> = None | Some(value: T) {
    function GetOr(default: T): T {
      match this
      case Some(v) => v
      case None => default
    }
  }

  /** The error messages of the validators and of the block-list store, one constructor per message. */
  datatype Error =
    // claim decoding (validator/mod.rs)
    | HeaderValueNotValid
    // cath (validator/header.rs)
    | InvalidCathFormat
    | CathUnexpectedLength
    | CathNoEntry(key: int)
    | CathNotText(key: int)
    | HeaderNotPresented(name: string)
    | HeaderInvalidValue(name: string)
    // catgeoiso3166 (validator/country.rs)
    | InvalidCountryFormat
    | CountryNotGranted
    // catnip (validator/nip.rs)
    | InvalidIpReceived
    | IpNotAllowed
    // catv (validator/version.rs)
    | InvalidCatVersion
    | InvalidCatvType
    // the validation pipeline (validator/cat.rs)
    | TokenDecodingFailed
    | SignatureValidationFailed
    | BlockDataUnavailable
    | SubjectBlocked
    | CountryBlocked
    | UserAgentBlocked
    | IpBlocked
    | ClaimsRejected
    // the block-list store (persistence/mod.rs)
    | StoreUnavailable
    | StoreWriteFailed
    | AsnResolutionFailed
    | InvalidClaimType
    // request validation (api/models.rs)
    | InvalidGenerateRequest(countriesTooShort: bool, expirationTooSmall: bool)

  /** `Result<()>`: success, or the first error met. */
  datatype Outcome = Ok | Err(error: Error)
}
