/** Offer codes: fetching one for a referral (`fetchOfferCode`), recognising the
    backend's "not found" answers, sanitising the body (`cleanOfferCode`), and the
    cached copy under "offer_code" (`retrieveAndStoreOfferCode`, `getStoredOfferCode`). */
module OfferCode {
  import opened Base
  import opened Store

  /** The class `[a-zA-Z0-9_-]` that `cleanOfferCode` keeps. */
  predicate IsOfferCodeChar(c: char) {
    IsAsciiAlnum(c) || c == '_' || c == '-'
  }

  predicate IsCleanOfferCode(s: string) {
    forall i :: 0 <= i < |s| ==> IsOfferCodeChar(s[i])
  }

  /** cleanOfferCode: `replaceAll("[^a-zA-Z0-9_-]", "")`. The result keeps, in order,
      every character of the class and nothing else. */
  function CleanOfferCode(s: string): (r: string)
    ensures IsCleanOfferCode(r)
    ensures IsSubsequence(r, s)
    ensures forall c {:trigger multiset(r)[c]} :: IsOfferCodeChar(c) ==> multiset(r)[c] == multiset(s)[c]
    decreases |s|
  {
    if s == [] then []
    else
      var rest := CleanOfferCode(s[1..]);
      assert s == [s[0]] + s[1..];
      if IsOfferCodeChar(s[0]) then [s[0]] + rest else rest
  }

  /** A string already made of the class is left as it is. */
  lemma {:induction false} CleanOfferCodeKeepsClean(s: string)
    requires IsCleanOfferCode(s)
    ensures CleanOfferCode(s) == s
    decreases |s|
  {
    if s != [] {
      CleanOfferCodeKeepsClean(s[1..]);
    }
  }

  /** Cleaning twice is cleaning once. */
  lemma CleanOfferCodeIdempotent(s: string)
    ensures CleanOfferCode(CleanOfferCode(s)) == CleanOfferCode(s)
  {
    CleanOfferCodeKeepsClean(CleanOfferCode(s));
  }

  /** The body as the fetch reads it: line by line with `readLine`, appended without
      separators, so every carriage return and line feed disappears. */
  function ReadBody(raw: string): (body: string)
    ensures '\n' !in body && '\r' !in body
    ensures IsSubsequence(body, raw)
    ensures '\n' !in raw && '\r' !in raw ==> body == raw
    ensures forall c {:trigger multiset(body)[c]} :: c != '\n' && c != '\r' ==> multiset(body)[c] == multiset(raw)[c]
    decreases |raw|
  {
    if raw == [] then []
    else
      var rest := ReadBody(raw[1..]);
      assert raw == [raw[0]] + raw[1..];
      if raw[0] == '\n' || raw[0] == '\r' then rest
      else [raw[0]] + rest
  }

  const OfferCodeNotFound: string := "errorofferCodeNotFound"
  const NotFoundInAnyCompany: string := "errorAffiliateoffercodenotfoundinanycompany"
  const NotFoundInAnyCompanyLink: string := "errorAffiliateoffercodenotfoundinanycompanyAffiliatelinkwas"
  const RouteNotFound: string := "Routenotfound"

  /** The four error strings the fetch looks for in a 200 body, in its order. */
  predicate IsNotFoundBody(body: string) {
    || Contains(body, OfferCodeNotFound)
    || Contains(body, NotFoundInAnyCompany)
    || Contains(body, NotFoundInAnyCompanyLink)
    || Contains(body, RouteNotFound)
  }

  /** The third error string extends the second, so its test never decides anything:
      three strings would recognise the same bodies. */
  lemma LinkSentinelIsRedundant(body: string)
    ensures IsNotFoundBody(body) <==>
      Contains(body, OfferCodeNotFound) || Contains(body, NotFoundInAnyCompany) || Contains(body, RouteNotFound)
  {
    if Contains(body, NotFoundInAnyCompanyLink) {
      assert StartsWith(NotFoundInAnyCompanyLink, NotFoundInAnyCompany);
      ContainsPrefixOf(body, NotFoundInAnyCompanyLink, NotFoundInAnyCompany);
    }
  }

  /** fetchOfferCode. Without a company code, or for a null or empty link, it answers
      null and sends nothing. Otherwise, once the link is encoded and the URL built, it
      sends one request, and answers a code only for a 200 body that holds none of the
      error strings; that code is the cleaned body. */
  function FetchOfferCode(st: State, link: Option<string>, reply: OfferReply): (r: Traced<Option<string>>)
    ensures !HasCompanyCode(st) || link.None? || link.value == "" ==> r == Traced(None, [])
    ensures r.events == [] || r.events == [Sent(Request.FetchOfferCode(st.companyCode.value, link.value))]
    ensures r.events != [] <==> HasCompanyCode(st) && link.Some? && link.value != ""
                                && !reply.OfferEncodeFailed? && !reply.OfferBadUrl?
    ensures r.value.Some? <==> r.events != [] && reply.OfferAnswered? && reply.status == HttpOk
                               && !IsNotFoundBody(ReadBody(reply.body))
    ensures r.value.Some? ==> r.value.value == CleanOfferCode(ReadBody(reply.body))
    ensures r.value.Some? ==> IsCleanOfferCode(r.value.value) && IsSubsequence(r.value.value, reply.body)
  {
    if !HasCompanyCode(st) then Traced(None, [])
    else if link.None? || link.value == "" then Traced(None, [])
    else if reply.OfferEncodeFailed? || reply.OfferBadUrl? then Traced(None, [])
    else
      var sent := [Sent(Request.FetchOfferCode(st.companyCode.value, link.value))];
      match reply
      case OfferAnswered(status, raw) =>
        if status != HttpOk then Traced(None, sent)
        else
          var body := ReadBody(raw);
          if IsNotFoundBody(body) then Traced(None, sent)
          else
            SubsequenceTransitive(CleanOfferCode(body), body, raw);
            Traced(Some(CleanOfferCode(body)), sent)
      case OfferFailed => Traced(None, sent)
  }

  /** retrieveAndStoreOfferCode. The cache is always written: with the fetched code
      when it is non-empty, and with "" on every miss. Nothing else changes. */
  function RetrieveAndStoreOfferCode(st: State, link: Option<string>, reply: OfferReply): (r: Traced<State>)
    ensures r.value == st.(offerCode := r.value.offerCode)
    ensures r.value.offerCode.Some? && IsCleanOfferCode(r.value.offerCode.value)
    ensures var fetched := FetchOfferCode(st, link, reply);
      && r.events == fetched.events
      && (r.value.offerCode == Some("") <==> fetched.value.None? || fetched.value.value == "")
      && (r.value.offerCode != Some("") ==> r.value.offerCode == fetched.value)
  {
    var fetched := FetchOfferCode(st, link, reply);
    var code := fetched.value;
    if code.Some? && code.value != "" then
      Traced(st.(offerCode := Some(code.value)), fetched.events)
    else
      Traced(st.(offerCode := Some("")), fetched.events)
  }

  /** getStoredOfferCode: the cached code, with "" and a missing key both read as null. */
  function GetStoredOfferCode(st: State): (r: Option<string>)
    ensures r.None? <==> st.offerCode.None? || st.offerCode.value == ""
    ensures r.Some? ==> r == st.offerCode
  {
    match st.offerCode
    case Some(code) => if code != "" then Some(code) else None
    case None => None
  }

  /** After a refresh, the app sees a code exactly when the fetch found a non-empty
      one, and then it sees that code. */
  lemma RefreshThenRead(st: State, link: Option<string>, reply: OfferReply)
    ensures var fetched := FetchOfferCode(st, link, reply).value;
      GetStoredOfferCode(RetrieveAndStoreOfferCode(st, link, reply).value)
        == if fetched.Some? && fetched.value != "" then fetched else None
  {
  }
}
