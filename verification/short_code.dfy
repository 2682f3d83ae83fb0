/** Classifying short codes (`isShortCode`) and the local checks that
    `setShortCode` and `getAffiliateDetails` run before asking the backend. */
module ShortCode {
  import opened Base

  /** The upper bound of a regular-expression repetition: `{n,m}` or `+`. */
  datatype Bound = AtMost(n: nat) | Unbounded

  predicate Within(k: nat, max: Bound) {
    max.Unbounded? || k <= max.n
  }

  function Less(max: Bound): Bound
    requires Within(1, max)
  {
    if max.Unbounded? then Unbounded else AtMost(max.n - 1)
  }

  /** Whole-string matching of `^[a-zA-Z0-9]{min,max}$`, as `String.matches` does it:
      one character of the class is consumed per step, and the input must be used up
      exactly when between `min` and `max` repetitions have been taken. */
  predicate MatchesAlnumRepeat(s: string, min: nat, max: Bound)
    decreases |s|
  {
    if s == [] then min == 0
    else
      Within(1, max) && IsAsciiAlnum(s[0])
      && MatchesAlnumRepeat(s[1..], if min == 0 then 0 else min - 1, Less(max))
  }

  /** The matcher accepts exactly the strings of the class whose length lies in range. */
  lemma {:induction false} MatchesAlnumRepeatMeaning(s: string, min: nat, max: Bound)
    ensures MatchesAlnumRepeat(s, min, max) <==> min <= |s| && Within(|s|, max) && IsAlnumString(s)
    decreases |s|
  {
    if s != [] {
      if Within(1, max) {
        MatchesAlnumRepeatMeaning(s[1..], if min == 0 then 0 else min - 1, Less(max));
        assert IsAlnumString(s) <==> IsAsciiAlnum(s[0]) && IsAlnumString(s[1..]) by {
          if IsAsciiAlnum(s[0]) && IsAlnumString(s[1..]) {
            forall i | 0 <= i < |s| ensures IsAsciiAlnum(s[i]) {
              if i > 0 { assert s[i] == s[1..][i - 1]; }
            }
          }
        }
      }
    }
  }

  const MinLength: nat := 3
  const MaxLength: nat := 25

  /** isShortCode: `link != null && link.matches("^[a-zA-Z0-9]{3,25}$")`. */
  predicate IsShortCode(link: Option<string>)
    ensures IsShortCode(link) <==>
      link.Some? && MinLength <= |link.value| <= MaxLength && IsAlnumString(link.value)
  {
    if link.None? then false
    else
      MatchesAlnumRepeatMeaning(link.value, MinLength, AtMost(MaxLength));
      MatchesAlnumRepeat(link.value, MinLength, AtMost(MaxLength))
  }

  /** How the local checks end: the upper-cased code, or the reason it was refused. */
  datatype CodeCheck =
    | Accepted(code: string)
    | EmptyCode        // null or ""
    | BadLength        // upper-cased length outside 3..25
    | NotAlphanumeric  // upper-cased code does not match ^[a-zA-Z0-9]+$

  /** The checks of `setShortCode` and `getAffiliateDetails`, in their order: reject
      null or empty, upper-case, check the length, check the characters. A code is
      accepted exactly when it is a short code, and what is accepted is its upper-cased
      form, which is itself a short code with no lower-case letter. */
  function CheckShortCode(code: Option<string>): (r: CodeCheck)
    ensures r.EmptyCode? <==> code.None? || code.value == ""
    ensures r.Accepted? <==> IsShortCode(code)
    ensures r.Accepted? ==> r.code == ToUpper(code.value)
    ensures r.Accepted? ==> IsShortCode(Some(r.code)) && HasNoLower(r.code)
  {
    if code.None? || code.value == "" then EmptyCode
    else
      var upper := ToUpper(code.value);
      if |upper| < MinLength || |upper| > MaxLength then BadLength
      else
        MatchesAlnumRepeatMeaning(upper, 1, Unbounded);
        if !MatchesAlnumRepeat(upper, 1, Unbounded) then NotAlphanumeric
        else Accepted(upper)
  }

  /** Running the checks again on an accepted code accepts it unchanged, which is why
      `getAffiliateDetails` repeating them after `setShortCode` never refuses. */
  lemma CheckShortCodeIdempotent(code: Option<string>)
    requires CheckShortCode(code).Accepted?
    ensures CheckShortCode(Some(CheckShortCode(code).code)) == CheckShortCode(code)
  {
    var up := CheckShortCode(code).code;
    ToUpperFixesUpper(up);
  }
}
