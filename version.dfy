/** `CatVersionValidator` (validator/version.rs): the catv claim, when present, must be the integer 1. */
module Version {
  import opened Base
  import opened Cbor

  function Validate(claim: Option<CborValue>): (r: Outcome)
    ensures r.Ok? <==> claim.None? || claim == Some(Integer(1))
    ensures claim.Some? && claim.value.Integer? && claim.value.number != 1 ==> r == Err(InvalidCatVersion)
    ensures claim.Some? && !claim.value.Integer? ==> r == Err(InvalidCatvType)
  {
    match claim
    case Some(Integer(v)) => if v != 1 then Err(InvalidCatVersion) else Ok
    case Some(_) => Err(InvalidCatvType)
    case None => Ok
  }
}
