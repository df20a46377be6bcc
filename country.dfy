/**
  `CatCountryValidator` (validator/country.rs): the request country must be one of the text entries
  of the catgeoiso3166 claim, compared after upper-casing and trimming both sides.
*/
module Country {
  import opened Base
  import opened Cbor
  import opened Ascii
  import opened Convert

  /** The normalised text entries of the claim array, in order; other entries are skipped. */
  function GrantedNames(entries: seq<CborValue>): (r: seq<string>)
    ensures |r| <= |entries|
    ensures forall n :: n in r <==> exists i :: 0 <= i < |entries| && entries[i].Text? && n == Normalize(entries[i].text)
  {
    if entries == [] then []
    else
      var rest := GrantedNames(entries[1..]);
      assert forall i :: 1 <= i < |entries| ==> entries[1..][i - 1] == entries[i];
      match AsString(entries[0])
      case Some(name) => [Normalize(name)] + rest
      case None => rest
  }

  /** `CatCountryValidator::validate` for the request's `country`. */
  function Validate(country: string, claim: Option<CborValue>): (r: Outcome)
    ensures claim.None? ==> r == Ok
    ensures claim.Some? && !claim.value.Array? ==> r == Err(InvalidCountryFormat)
    ensures claim.Some? && claim.value.Array? && claim.value.items == [] ==> r == Ok
    ensures claim.Some? && claim.value.Array? && claim.value.items != [] ==>
      (r.Ok? <==> exists i :: 0 <= i < |claim.value.items| && claim.value.items[i].Text? &&
                             Normalize(claim.value.items[i].text) == Normalize(country)) &&
      (r.Err? ==> r == Err(CountryNotGranted))
  {
    match claim
    case None => Ok
    case Some(Array(c)) =>
      if c == [] then Ok
      else if Normalize(country) in GrantedNames(c) then Ok
      else Err(CountryNotGranted)
    case Some(_) => Err(InvalidCountryFormat)
  }

  /** The request country's letter case does not matter (ASCII letters). */
  lemma ValidateIgnoresCase(country: string, claim: Option<CborValue>)
    ensures Validate(Upper(country), claim) == Validate(country, claim)
    ensures Validate(Lower(country), claim) == Validate(country, claim)
  {
    NormalizeIgnoresCase(country);
  }

  /** White space around the request country does not matter. */
  lemma ValidateIgnoresSurroundingSpace(pre: string, country: string, post: string, claim: Option<CborValue>)
    requires AllSpace(pre) && AllSpace(post)
    ensures Validate(pre + country + post, claim) == Validate(country, claim)
  {
    NormalizeIgnoresSurroundingSpace(pre, country, post);
  }

  /** A non-empty claim with no text entries grants no country. */
  lemma NoTextEntriesGrantNothing(country: string, entries: seq<CborValue>)
    requires entries != []
    requires forall i :: 0 <= i < |entries| ==> !entries[i].Text?
    ensures Validate(country, Some(Array(entries))) == Err(CountryNotGranted)
  {
  }

  /** Adding non-text entries to a non-empty claim changes nothing. */
  lemma NonTextEntriesIrrelevant(country: string, entries: seq<CborValue>, extra: seq<CborValue>)
    requires entries != []
    requires forall i :: 0 <= i < |extra| ==> !extra[i].Text?
    ensures Validate(country, Some(Array(entries + extra))) == Validate(country, Some(Array(entries)))
  {
    var all := entries + extra;
    assert forall i :: 0 <= i < |entries| ==> all[i] == entries[i];
    assert forall i :: |entries| <= i < |all| ==> all[i] == extra[i - |entries|];
  }

  /** An entry grants the country written in any case of ASCII letters. */
  lemma EntryCaseIrrelevant(country: string, name: string)
    ensures Validate(country, Some(Array([Text(Lower(name))]))) == Validate(country, Some(Array([Text(name)])))
  {
    NormalizeIgnoresCase(name);
    assert GrantedNames([Text(Lower(name))]) == [Normalize(Lower(name))];
    assert GrantedNames([Text(name)]) == [Normalize(name)];
  }
}
