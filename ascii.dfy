/**
  ASCII views of the Rust string operations the core uses: `to_uppercase`, `trim`
  (which strips `char::is_whitespace` characters at both ends) and their composition.
  Characters outside ASCII are left unchanged by the case mappings.
*/
module Ascii {

  /** The ASCII characters `char::is_whitespace` accepts: tab, line feed, vertical tab, form feed, carriage return, space. */
  predicate IsSpace(c: char) {
    c == ' ' || 9 <= c as int <= 13
  }

  predicate AllSpace(s: string) {
    forall i :: 0 <= i < |s| ==> IsSpace(s[i])
  }

  predicate IsLower(c: char) { 'a' <= c <= 'z' }
  predicate IsUpper(c: char) { 'A' <= c <= 'Z' }

  function UpperChar(c: char): (u: char)
    ensures !IsLower(u)
    ensures IsSpace(u) == IsSpace(c)
    ensures !IsLower(c) ==> u == c
  {
    if IsLower(c) then (c as int - 32) as char else c
  }

  function LowerChar(c: char): (l: char)
    ensures !IsUpper(l)
    ensures IsSpace(l) == IsSpace(c)
    ensures UpperChar(l) == UpperChar(c)
  {
    if IsUpper(c) then (c as int + 32) as char else c
  }

  /** `str::to_uppercase`, on ASCII letters. */
  function Upper(s: string): (r: string)
    ensures |r| == |s|
    ensures forall i :: 0 <= i < |s| ==> r[i] == UpperChar(s[i])
  {
    seq(|s|, i requires 0 <= i < |s| => UpperChar(s[i]))
  }

  /** `str::to_lowercase`, on ASCII letters. */
  function Lower(s: string): (r: string)
    ensures |r| == |s|
    ensures forall i :: 0 <= i < |s| ==> r[i] == LowerChar(s[i])
  {
    seq(|s|, i requires 0 <= i < |s| => LowerChar(s[i]))
  }

  /** `str::trim_start`. */
  function TrimStart(s: string): (r: string)
    ensures r == [] || !IsSpace(r[0])
    ensures |r| <= |s| && r == s[|s| - |r|..]
    ensures AllSpace(s[..|s| - |r|])
  {
    if |s| > 0 && IsSpace(s[0]) then TrimStart(s[1..]) else s
  }

  /** `str::trim_end`. */
  function TrimEnd(s: string): (r: string)
    ensures r == [] || !IsSpace(r[|r| - 1])
    ensures r <= s
    ensures AllSpace(s[|r|..])
  {
    if |s| > 0 && IsSpace(s[|s| - 1]) then TrimEnd(s[..|s| - 1]) else s
  }

  /**
    Everything in `s` before position `k` and from position `k + n` on is white space:
    cutting `s[k..k + n]` out of `s` drops white space only.
  */
  predicate SpaceOutside(s: string, k: nat, n: nat) {
    k + n <= |s|
    && (forall i :: 0 <= i < k ==> IsSpace(s[i]))
    && (forall i :: k + n <= i < |s| ==> IsSpace(s[i]))
  }

  /**
    `str::trim`: the slice left once white space is dropped at both ends. Only white space
    is dropped, and what is left has none at either end, so the slice is the longest such one.
  */
  function Trim(s: string): (r: string)
    ensures r == [] || (!IsSpace(r[0]) && !IsSpace(r[|r| - 1]))
    ensures |r| <= |TrimStart(s)| && r == s[|s| - |TrimStart(s)|..][..|r|]
    ensures SpaceOutside(s, |s| - |TrimStart(s)|, |r|)
  {
    TrimFacts(s);
    TrimEnd(TrimStart(s))
  }

  lemma TrimFacts(s: string)
    ensures var r := TrimEnd(TrimStart(s));
      && (r == [] || (!IsSpace(r[0]) && !IsSpace(r[|r| - 1])))
      && |r| <= |TrimStart(s)| && r == s[|s| - |TrimStart(s)|..][..|r|]
      && SpaceOutside(s, |s| - |TrimStart(s)|, |r|)
  {
    var t := TrimStart(s);
    var k := |s| - |t|;
    var e := TrimEnd(t);
    assert t == s[k..];
    assert e == t[..|e|];
    forall i | 0 <= i < k ensures IsSpace(s[i]) {
      assert s[i] == s[..k][i];
    }
    forall i | k + |e| <= i < |s| ensures IsSpace(s[i]) {
      assert s[i] == t[i - k];
      assert t[i - k] == t[|e|..][i - k - |e|];
    }
  }

  /** No ASCII lower-case letter occurs in `s`. */
  predicate NoLower(s: string) {
    forall i :: 0 <= i < |s| ==> !IsLower(s[i])
  }

  lemma NoLowerAfterUpper(s: string)
    ensures NoLower(Upper(s))
  {
  }

  /** Trimming keeps a slice of the input, so it introduces no lower-case letter. */
  lemma TrimKeepsNoLower(u: string)
    requires NoLower(u)
    ensures NoLower(Trim(u))
  {
    var k := |u| - |TrimStart(u)|;
    var r := Trim(u);
    assert r == u[k..][..|r|];
    forall i | 0 <= i < |r|
      ensures !IsLower(r[i])
    {
      assert r[i] == u[k + i];
    }
  }

  /**
    `s.to_uppercase().trim()`, the form in which countries are compared: the upper-cased
    slice of `s` left once white space, and only white space, is dropped at both ends, with
    no lower-case letter and no space at either end.
  */
  function Normalize(s: string): (r: string)
    ensures r == [] || (!IsSpace(r[0]) && !IsSpace(r[|r| - 1]))
    ensures NoLower(r)
    ensures var k := |s| - |TrimStart(Upper(s))|; SpaceOutside(s, k, |r|) && UpperedAt(r, s, k)
  {
    NormalizeFacts(s);
    Trim(Upper(s))
  }

  lemma NormalizeFacts(s: string)
    ensures var r := Trim(Upper(s)); var k := |s| - |TrimStart(Upper(s))|;
      NoLower(r) && SpaceOutside(s, k, |r|) && UpperedAt(r, s, k)
  {
    var u := Upper(s);
    var k := |u| - |TrimStart(u)|;
    var r := Trim(u);
    NoLowerAfterUpper(s);
    TrimKeepsNoLower(u);
    UpperTrimmed(s, u, k, r);
  }

  /**
    Upper-casing keeps white space where it is, so a slice of the upper-cased `s` cut out of
    white space is the upper-casing of the same slice of `s`, cut out of white space.
  */
  lemma UpperTrimmed(s: string, u: string, k: nat, r: string)
    requires |u| == |s| && forall i :: 0 <= i < |s| ==> u[i] == UpperChar(s[i])
    requires SpaceOutside(u, k, |r|) && r == u[k..][..|r|]
    ensures SpaceOutside(s, k, |r|) && UpperedAt(r, s, k)
  {
    forall i | 0 <= i < k ensures IsSpace(s[i]) {
      assert IsSpace(u[i]);
    }
    forall i | k + |r| <= i < |s| ensures IsSpace(s[i]) {
      assert IsSpace(u[i]);
    }
    forall i | 0 <= i < |r| ensures r[i] == UpperChar(s[k + i]) {
      assert r[i] == u[k + i];
    }
  }

  /** `r` is the upper-casing of the characters of `s` from position `k` on. */
  predicate UpperedAt(r: string, s: string, k: nat) {
    k + |r| <= |s| && forall i :: 0 <= i < |r| ==> r[i] == UpperChar(s[k + i])
  }

  /**
    A string already in normal form is its own normal form, so two different normalised
    names never compare equal.
  */
  lemma NormalizeFixedPoint(s: string)
    requires NoLower(s) && (s == [] || (!IsSpace(s[0]) && !IsSpace(s[|s| - 1])))
    ensures Normalize(s) == s
  {
    var u := Upper(s);
    forall i | 0 <= i < |s| ensures u[i] == s[i] {
      assert !IsLower(s[i]);
    }
    assert u == s;
    assert TrimStart(s) == s;
    assert TrimEnd(s) == s;
    assert Normalize(s) == Trim(u);
  }

  lemma UpperIdempotent(s: string)
    ensures Upper(Upper(s)) == Upper(s)
  {
  }

  lemma UpperOfLower(s: string)
    ensures Upper(Lower(s)) == Upper(s)
  {
  }

  lemma UpperAppend(a: string, b: string)
    ensures Upper(a + b) == Upper(a) + Upper(b)
  {
  }

  lemma UpperOfSpace(s: string)
    requires AllSpace(s)
    ensures Upper(s) == s
  {
  }

  lemma TrimStartOfSpace(s: string)
    requires AllSpace(s)
    ensures TrimStart(s) == []
  {
  }

  lemma {:induction false} TrimStartSkipsSpace(pre: string, s: string)
    requires AllSpace(pre)
    ensures TrimStart(pre + s) == TrimStart(s)
  {
    if pre != [] {
      assert (pre + s)[0] == pre[0];
      assert (pre + s)[1..] == pre[1..] + s;
      TrimStartSkipsSpace(pre[1..], s);
    } else {
      assert pre + s == s;
    }
  }

  lemma {:induction false} TrimEndSkipsSpace(s: string, post: string)
    requires AllSpace(post)
    ensures TrimEnd(s + post) == TrimEnd(s)
  {
    if post != [] {
      var n := |post| - 1;
      assert (s + post)[|s + post| - 1] == post[n];
      assert (s + post)[..|s + post| - 1] == s + post[..n];
      TrimEndSkipsSpace(s, post[..n]);
    } else {
      assert s + post == s;
    }
  }

  lemma {:induction false} TrimStartAppend(s: string, post: string)
    requires AllSpace(post)
    ensures AllSpace(s) ==> TrimStart(s + post) == []
    ensures !AllSpace(s) ==> TrimStart(s + post) == TrimStart(s) + post
  {
    if s == [] {
      assert s + post == post;
      TrimStartOfSpace(post);
    } else if IsSpace(s[0]) {
      assert (s + post)[1..] == s[1..] + post;
      TrimStartAppend(s[1..], post);
      if AllSpace(s[1..]) {
        assert AllSpace(s) by {
          forall i | 0 <= i < |s| ensures IsSpace(s[i]) {
            if i > 0 { assert s[i] == s[1..][i - 1]; }
          }
        }
      }
    } else {
      assert !AllSpace(s);
    }
  }

  /** Surrounding white space never changes the result of `trim`. */
  lemma TrimIgnoresSurroundingSpace(pre: string, s: string, post: string)
    requires AllSpace(pre) && AllSpace(post)
    ensures Trim(pre + s + post) == Trim(s)
  {
    assert pre + s + post == pre + (s + post);
    TrimStartSkipsSpace(pre, s + post);
    TrimStartAppend(s, post);
    if AllSpace(s) {
      TrimStartOfSpace(s);
    } else {
      TrimEndSkipsSpace(TrimStart(s), post);
    }
  }

  /** The normal form ignores ASCII letter case. */
  lemma NormalizeIgnoresCase(s: string)
    ensures Normalize(Upper(s)) == Normalize(s)
    ensures Normalize(Lower(s)) == Normalize(s)
  {
    UpperIdempotent(s);
    UpperOfLower(s);
  }

  /** The normal form ignores white space around the text. */
  lemma NormalizeIgnoresSurroundingSpace(pre: string, s: string, post: string)
    requires AllSpace(pre) && AllSpace(post)
    ensures Normalize(pre + s + post) == Normalize(s)
  {
    UpperAppend(pre + s, post);
    UpperAppend(pre, s);
    UpperOfSpace(pre);
    UpperOfSpace(post);
    assert AllSpace(Upper(pre)) && AllSpace(Upper(post));
    TrimIgnoresSurroundingSpace(pre, Upper(s), post);
  }
}
