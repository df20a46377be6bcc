/**
  `CatHeaderValidator` (validator/header.rs): the cath claim is a map whose odd keys 1, 3, 5, ...
  name HTTP headers and whose following even keys hold an optional match rule for that header.
*/
module Header {
  import opened Base
  import opened Cbor
  import opened Convert

  /**
    One pair of the cath map: the header name at key `i` and the rule at key `i + 1`. A rule that
    is missing or does not decode only asks for the header to be present.
  */
  function CheckPair(headers: map<string, string>, m: map<int, CborValue>, i: int, regex: (string, string) -> bool): (r: Outcome)
    ensures i !in m ==> r == Err(CathNoEntry(i))
    ensures i in m && !m[i].Text? ==> r == Err(CathNotText(i))
    ensures i in m && m[i].Text? && m[i].text !in headers ==> r == Err(HeaderNotPresented(m[i].text))
    ensures i in m && m[i].Text? && m[i].text in headers ==>
      var rule := if i + 1 in m then AsMatchKind(m[i + 1]) else None;
      (r.Ok? <==> rule.None? || rule.value.Validate(headers[m[i].text], regex).Ok?) &&
      (r.Err? ==> r == Err(HeaderInvalidValue(m[i].text)))
  {
    if i !in m then Err(CathNoEntry(i))
    else
      match AsString(m[i])
      case None => Err(CathNotText(i))
      case Some(name) =>
        var rule := if i + 1 in m then AsMatchKind(m[i + 1]) else None;
        match rule
        case None => if name !in headers then Err(HeaderNotPresented(name)) else Ok
        case Some(mk) =>
          if name !in headers then Err(HeaderNotPresented(name))
          else if mk.Validate(headers[name], regex).Err? then Err(HeaderInvalidValue(name))
          else Ok
  }

  /** Pairs `p` to `n - 1` in order (pair `q` starts at key `2q + 1`); the first failing pair decides. */
  function CheckPairs(headers: map<string, string>, m: map<int, CborValue>, p: nat, n: nat, regex: (string, string) -> bool): Outcome
    decreases n - p
  {
    if p >= n then Ok
    else
      var r := CheckPair(headers, m, 2 * p + 1, regex);
      if r.Err? then r else CheckPairs(headers, m, p + 1, n, regex)
  }

  /** The result of `CatHeaderValidator::validate` for the given request headers and cath claim. */
  function Spec(headers: map<string, string>, claim: Option<CborValue>, regex: (string, string) -> bool): Outcome {
    match claim
    case None => Ok
    case Some(Map(m)) => if |m| % 2 != 0 then Err(CathUnexpectedLength) else CheckPairs(headers, m, 0, |m| / 2, regex)
    case Some(_) => Err(InvalidCathFormat)
  }

  /** The pairs pass together exactly when each of them passes. */
  lemma {:induction false} CheckPairsOkIff(headers: map<string, string>, m: map<int, CborValue>, p: nat, n: nat, regex: (string, string) -> bool)
    ensures CheckPairs(headers, m, p, n, regex).Ok? <==>
      forall q :: p <= q < n ==> CheckPair(headers, m, 2 * q + 1, regex).Ok?
    decreases n - p
  {
    if p < n {
      CheckPairsOkIff(headers, m, p + 1, n, regex);
    }
  }

  /** A failure is the error of the first pair that fails, all pairs before it having passed. */
  lemma {:induction false} CheckPairsFirstFailure(headers: map<string, string>, m: map<int, CborValue>, p: nat, n: nat, regex: (string, string) -> bool)
    requires CheckPairs(headers, m, p, n, regex).Err?
    ensures exists q :: (p <= q < n
      && (forall q' :: p <= q' < q ==> CheckPair(headers, m, 2 * q' + 1, regex).Ok?)
      && CheckPairs(headers, m, p, n, regex) == CheckPair(headers, m, 2 * q + 1, regex))
    decreases n - p
  {
    if CheckPair(headers, m, 2 * p + 1, regex).Ok? {
      CheckPairsFirstFailure(headers, m, p + 1, n, regex);
      var q :| p + 1 <= q < n
        && (forall q' :: p + 1 <= q' < q ==> CheckPair(headers, m, 2 * q' + 1, regex).Ok?)
        && CheckPairs(headers, m, p + 1, n, regex) == CheckPair(headers, m, 2 * q + 1, regex);
      assert forall q' :: p <= q' < q ==> CheckPair(headers, m, 2 * q' + 1, regex).Ok?;
    }
  }

  /**
    `CatHeaderValidator::validate`: the loop over key pairs (1, 2), (3, 4), ... with early returns.
    `pairsVisited` counts the pairs the loop has passed.
  */
  method Validate(headers: map<string, string>, claim: Option<CborValue>, regex: (string, string) -> bool)
    returns (r: Outcome, ghost pairsVisited: nat)
    ensures r == Spec(headers, claim, regex)
    ensures claim.None? ==> r == Ok
    ensures claim.Some? && !claim.value.Map? ==> r == Err(InvalidCathFormat)
    ensures claim.Some? && claim.value.Map? && |claim.value.entries| % 2 != 0 ==>
      r == Err(CathUnexpectedLength) && pairsVisited == 0
    ensures claim.Some? && claim.value.Map? ==> pairsVisited <= |claim.value.entries| / 2
    ensures claim.Some? && claim.value.Map? && r.Ok? ==> pairsVisited == |claim.value.entries| / 2
    ensures claim.Some? && claim.value.Map? && |claim.value.entries| % 2 == 0 ==>
      (r.Ok? <==> pairsVisited == |claim.value.entries| / 2)
    ensures claim.Some? && claim.value.Map? && |claim.value.entries| % 2 == 0 && r.Err? ==>
      r == CheckPair(headers, claim.value.entries, 2 * pairsVisited + 1, regex)
    ensures r.Ok? <==> (claim.None? ||
      (claim.value.Map? && |claim.value.entries| % 2 == 0 &&
       forall q :: 0 <= q < |claim.value.entries| / 2 ==> CheckPair(headers, claim.value.entries, 2 * q + 1, regex).Ok?))
  {
    pairsVisited := 0;
    if claim.None? {
      return Ok, pairsVisited;
    }
    if !claim.value.Map? {
      return Err(InvalidCathFormat), pairsVisited;
    }
    var m := claim.value.entries;
    CheckPairsOkIff(headers, m, 0, |m| / 2, regex);
    if |m| % 2 != 0 {
      return Err(CathUnexpectedLength), pairsVisited;
    }
    var count := |m|;
    var i, j := 1, 2;
    while j <= count
      invariant j == i + 1 && i == 2 * pairsVisited + 1
      invariant j <= count + 2
      invariant forall q :: 0 <= q < pairsVisited ==> CheckPair(headers, m, 2 * q + 1, regex).Ok?
      invariant CheckPairs(headers, m, 0, count / 2, regex) == CheckPairs(headers, m, pairsVisited, count / 2, regex)
      decreases count - j
    {
      if i !in m {
        return Err(CathNoEntry(i)), pairsVisited;
      }
      var name := AsString(m[i]);
      if name.None? {
        return Err(CathNotText(i)), pairsVisited;
      }
      var headerName := name.value;
      var headerValue := if j in m then AsMatchKind(m[j]) else None;
      match headerValue {
        case None =>
          if headerName !in headers {
            return Err(HeaderNotPresented(headerName)), pairsVisited;
          }
        case Some(mk) =>
          if headerName !in headers {
            return Err(HeaderNotPresented(headerName)), pairsVisited;
          }
          if mk.Validate(headers[headerName], regex).Err? {
            return Err(HeaderInvalidValue(headerName)), pairsVisited;
          }
      }
      pairsVisited := pairsVisited + 1;
      i := i + 2;
      j := j + 2;
    }
    return Ok, pairsVisited;
  }
}
