/** The public operations of `InsertAffiliateManager`, as transitions of the state
    record. Each takes the clock, the platform's answers and the remote replies it
    needs as inputs, and returns the new state together with its effects. */
module Manager {
  import opened Base
  import opened Store
  import opened ShortCode
  import Device
  import opened Attribution
  import Referrer

  /** init(activity, code, verbose, insertLinks, activeTimeSeconds). The company code
      is overwritten whatever it was before (the "already initialized" test only
      logs), the window is replaced, and the device identifier is created if missing.
      The attribution record, the offer code and the observer are untouched. */
  function Init(st: State, code: Option<string>, activeTime: int,
                platformId: Option<string>, random: nat -> Device.Draw): (r: State)
    ensures r.companyCode == code && r.activeTime == activeTime
    ensures r.deviceId.Some?
    ensures st.deviceId.Some? ==> r.deviceId == st.deviceId
    ensures st.deviceId.None? ==> r.deviceId == Some(Device.NewDeviceId(platformId, random))
    ensures r.referringLink == st.referringLink && r.storedDate == st.storedDate
    ensures r.offerCode == st.offerCode && r.observerRegistered == st.observerRegistered
  {
    var configured := st.(activeTime := activeTime, companyCode := code);
    Device.EnsureDeviceId(configured, platformId, random).0
  }

  /** reset: forgets the company code and nothing else; the device identifier and the
      attribution record survive. */
  function Reset(st: State): (r: State)
    ensures r.companyCode.None? && !HasCompanyCode(r)
    ensures r.(companyCode := st.companyCode) == st
  {
    st.(companyCode := None)
  }

  /** setInsertAffiliateIdentifierChangeCallback: the single observer slot is replaced
      (null clears it); nothing persisted changes. */
  function SetObserver(st: State, registered: bool): (r: State)
    ensures r.observerRegistered == registered
    ensures r.(observerRegistered := st.observerRegistered) == st
  {
    st.(observerRegistered := registered)
  }

  /** The short link of a shortening reply that counts as a success: HTTP 200 and a
      non-empty "shortLink" field. */
  function ShortenedLink(reply: ShortenReply): Option<string> {
    if reply.ShortenAnswered? && reply.status == HttpOk && reply.shortLink != "" then Some(reply.shortLink)
    else None
  }

  /** Whether a shortening request is among `events`. */
  predicate AsksToShorten(events: seq<Event>) {
    exists i :: 0 <= i < |events| && events[i].Sent? && events[i].request.ShortenLink?
  }

  /** setInsertAffiliateIdentifier. Without a company code nothing happens. A short
      code is stored verbatim without asking the backend. Anything else is sent to be
      shortened, and the stored value is the returned short link when the reply is a
      200 with a non-empty one, and the original input on every other path (a null
      input, an encoding error, a malformed URL, another status, an empty field, an
      I/O error). Every path past the company-code check ends in exactly one store. */
  function SetInsertAffiliateIdentifier(st: State, link: Option<string>, shorten: ShortenReply,
                                        nowMillis: nat, offer: OfferReply): (r: Traced<State>)
    ensures !HasCompanyCode(st) ==> r == Traced(st, [])
    ensures HasCompanyCode(st) && IsShortCode(link) ==> r.value.referringLink == link && !AsksToShorten(r.events)
    ensures HasCompanyCode(st) && ShortenedLink(shorten).None? ==> r.value.referringLink == link
    ensures HasCompanyCode(st) ==>
      r.value.referringLink == link || r.value.referringLink == ShortenedLink(shorten)
    ensures HasCompanyCode(st) && !IsShortCode(link) && link.Some? && ShortenedLink(shorten).Some? ==>
      r.value.referringLink == ShortenedLink(shorten)
    ensures AsksToShorten(r.events) <==>
      HasCompanyCode(st) && !IsShortCode(link) && link.Some? && !shorten.ShortenEncodeFailed? && !shorten.ShortenBadUrl?
    ensures HasCompanyCode(st) ==>
      var stored := StoreReferral(st, r.value.referringLink, nowMillis, offer);
      && r.value == stored.value
      && (r.events == stored.events
          || (link.Some? && r.events == [Sent(ShortenLink(st.companyCode.value, link.value))] + stored.events))
  {
    if !HasCompanyCode(st) then Traced(st, [])
    else if IsShortCode(link) then
      var stored := StoreReferral(st, link, nowMillis, offer);
      assert !AsksToShorten(stored.events);
      stored
    // URLEncoder.encode(null, ...) throws NullPointerException, caught as an encoding failure
    else if link.None? || shorten.ShortenEncodeFailed? then StoreReferral(st, link, nowMillis, offer)
    else if shorten.ShortenBadUrl? then StoreReferral(st, link, nowMillis, offer)
    else
      var sent := [Sent(ShortenLink(st.companyCode.value, link.value))];
      var value :=
        match shorten
        case ShortenAnswered(status, shortLink) => if status == HttpOk && shortLink != "" then Some(shortLink) else link
        case ShortenFailed => link;
      var stored := StoreReferral(st, value, nowMillis, offer);
      assert (sent + stored.events)[0] == Sent(ShortenLink(st.companyCode.value, link.value));
      Traced(stored.value, sent + stored.events)
  }

  /** The affiliate details of a positive existence check. */
  datatype AffiliateDetails = AffiliateDetails(affiliateName: string, affiliateShortCode: string, deeplinkUrl: string)

  /** An existence-check reply that confirms the affiliate: 200, "exists" true and an
      "affiliate" object present. */
  predicate LookupConfirms(reply: LookupReply) {
    reply.LookupAnswered? && reply.status == HttpOk && reply.affiliateExists && reply.affiliate.Some?
  }

  /** getAffiliateDetails. Without a company code, or when the local checks refuse the
      code, it answers null and sends nothing. Otherwise it asks about the upper-cased
      code, and answers details exactly when the reply confirms the affiliate; a
      missing field defaults to "" (the short code to the upper-cased request code). */
  function GetAffiliateDetails(st: State, code: Option<string>, reply: LookupReply): (r: Traced<Option<AffiliateDetails>>)
    ensures r.events != [] <==> HasCompanyCode(st) && IsShortCode(code)
    ensures r.events != [] ==> r.events == [Sent(CheckAffiliateExists(st.companyCode.value, ToUpper(code.value)))]
    ensures r.value.Some? <==> r.events != [] && LookupConfirms(reply)
    ensures r.value.Some? ==>
      var fields := reply.affiliate.value;
      && r.value.value.affiliateShortCode == fields.affiliateShortCode.GetOr(ToUpper(code.value))
      && r.value.value.affiliateName == fields.affiliateName.GetOr("")
      && r.value.value.deeplinkUrl == fields.deeplinkurl.GetOr("")
  {
    if !HasCompanyCode(st) then Traced(None, [])
    else
      match CheckShortCode(code)
      case Accepted(capitalised) =>
        var sent := [Sent(CheckAffiliateExists(st.companyCode.value, capitalised))];
        if LookupConfirms(reply) then
          var fields := reply.affiliate.value;
          var details := AffiliateDetails(fields.affiliateName.GetOr(""),
                                          fields.affiliateShortCode.GetOr(capitalised),
                                          fields.deeplinkurl.GetOr(""));
          Traced(Some(details), sent)
        else Traced(None, sent)
      case _ => Traced(None, [])
  }

  /** setShortCode. It reports true exactly when the code is a short code, a company
      code is set and the backend confirms the affiliate; only then is the upper-cased
      code stored (through the ordinary store). On every false report the state is
      unchanged; when the local checks refuse the code nothing is sent, and when the
      backend refuses it the lookup request is the only effect. On a true report the
      effects are the lookup request, then those of the store. */
  function SetShortCode(st: State, code: Option<string>, lookup: LookupReply,
                        nowMillis: nat, offer: OfferReply): (r: (Traced<State>, bool))
    ensures r.1 <==> IsShortCode(code) && HasCompanyCode(st) && LookupConfirms(lookup)
    ensures r.1 ==> r.0.value.referringLink == Some(ToUpper(code.value))
                    && IsShortCode(r.0.value.referringLink) && HasNoLower(r.0.value.referringLink.value)
    ensures r.1 ==> r.0.value == StoreReferral(st, Some(ToUpper(code.value)), nowMillis, offer).value
    ensures !r.1 ==> r.0.value == st
    ensures !IsShortCode(code) || !HasCompanyCode(st) ==> r.0.events == []
    ensures !r.1 && IsShortCode(code) && HasCompanyCode(st) ==>
      r.0.events == [Sent(CheckAffiliateExists(st.companyCode.value, ToUpper(code.value)))]
    ensures r.1 ==> r.0.events == [Sent(CheckAffiliateExists(st.companyCode.value, ToUpper(code.value)))]
                                  + StoreReferral(st, Some(ToUpper(code.value)), nowMillis, offer).events
  {
    match CheckShortCode(code)
    case Accepted(capitalised) =>
      var details := GetAffiliateDetails(st, Some(capitalised), lookup);
      CheckShortCodeIdempotent(code);
      if details.value.Some? then
        var stored := StoreReferral(st, Some(capitalised), nowMillis, offer);
        (Traced(stored.value, details.events + stored.events), true)
      else
        (Traced(st, details.events), false)
    case _ => (Traced(st, []), false)
  }

  /** processInstallReferrerData: when the first `&`-separated segment that starts with
      `insertAffiliate=` carries a non-empty value, that value goes to
      setInsertAffiliateIdentifier; otherwise nothing happens. */
  function ProcessInstallReferrerData(st: State, rawReferrer: string, shorten: ShortenReply,
                                      nowMillis: nat, offer: OfferReply): (r: Traced<State>)
    ensures var v := Referrer.FirstValue(Referrer.Split(rawReferrer, Referrer.ParamSeparator), Referrer.AffiliateKey);
      && (v.None? || v.value == "" ==> r == Traced(st, []))
      && (v.Some? && v.value != "" ==> r == SetInsertAffiliateIdentifier(st, v, shorten, nowMillis, offer))
  {
    var insertAffiliate := Referrer.ExtractAffiliateParam(rawReferrer);
    if insertAffiliate.Some? && insertAffiliate.value != "" then
      SetInsertAffiliateIdentifier(st, insertAffiliate, shorten, nowMillis, offer)
    else Traced(st, [])
  }

  /** handleInsertLink, given the link's `insertAffiliate` query parameter (null when
      the intent, its URI or the parameter is missing): a non-empty value goes to
      setInsertAffiliateIdentifier; otherwise nothing happens. */
  function HandleInsertLink(st: State, queryParam: Option<string>, shorten: ShortenReply,
                            nowMillis: nat, offer: OfferReply): (r: Traced<State>)
    ensures queryParam.None? || queryParam.value == "" ==> r == Traced(st, [])
    ensures queryParam.Some? && queryParam.value != "" ==>
      r == SetInsertAffiliateIdentifier(st, queryParam, shorten, nowMillis, offer)
    ensures HasCompanyCode(st) && IsShortCode(queryParam) ==> r.value.referringLink == queryParam
  {
    if queryParam.Some? && queryParam.value != "" then
      SetInsertAffiliateIdentifier(st, queryParam, shorten, nowMillis, offer)
    else Traced(st, [])
  }

  const CompanyCodeNotSet: string :=
    "[Insert Affiliate] Company code is not set. Please initialise the SDK with a valid company code."
  const NoAffiliateIdentifier: string :=
    "[Insert Affiliate] No affiliate identifier found. Please set one before tracking events by opening a link from an affiliate."

  /** What trackEvent returns synchronously: a local refusal message, or (after the
      request is queued) the message left by an earlier asynchronous reply. */
  datatype TrackResult = Refused(message: string) | Enqueued

  /** trackEvent. It refuses locally, sending nothing, without a company code, and then
      without an identifier (the expiry check applies). Otherwise it sends one
      request carrying the identifier, percent-encoded when the platform offers the
      encoder (API level 33 and up). */
  function TrackEvent(st: State, eventName: Option<string>, nowMillis: nat, encoderAvailable: bool): (r: Traced<TrackResult>)
    ensures !HasCompanyCode(st) ==> r == Traced(Refused(CompanyCodeNotSet), [])
    ensures HasCompanyCode(st) && !(HasReferral(st) && IsAttributionValid(st, nowMillis)) ==>
      r == Traced(Refused(NoAffiliateIdentifier), [])
    ensures r.value.Enqueued? <==> HasCompanyCode(st) && HasReferral(st) && IsAttributionValid(st, nowMillis)
    ensures r.value.Enqueued? ==>
      r.events == [Sent(Request.TrackEvent(eventName, st.companyCode.value,
                    st.referringLink.value + [Separator] + st.deviceId.GetOr(""), encoderAvailable))]
  {
    if !HasCompanyCode(st) then Traced(Refused(CompanyCodeNotSet), [])
    else
      var deepLinkParam := ReturnIdentifier(st, false, nowMillis);
      if deepLinkParam.None? then Traced(Refused(NoAffiliateIdentifier), [])
      else Traced(Enqueued, [Sent(Request.TrackEvent(eventName, st.companyCode.value, deepLinkParam.value, encoderAvailable))])
  }

  /** storeExpectedPlayStoreTransaction. Nothing is sent without a company code or
      without an identifier (the expiry check applies, so an expired attribution
      records no transaction); otherwise one request carries the purchase token, the
      company code and the identifier. */
  function StoreExpectedTransaction(st: State, purchaseToken: Option<string>, nowMillis: nat): (events: seq<Event>)
    ensures events != [] <==> HasCompanyCode(st) && HasReferral(st) && IsAttributionValid(st, nowMillis)
    ensures events != [] ==>
      events == [Sent(CreateExpectedTransaction(purchaseToken, st.companyCode.value,
                      st.referringLink.value + [Separator] + st.deviceId.GetOr("")))]
  {
    if !HasCompanyCode(st) then []
    else
      var shortCode := ReturnIdentifier(st, false, nowMillis);
      if shortCode.None? || shortCode.value == "" then []
      else [Sent(CreateExpectedTransaction(purchaseToken, st.companyCode.value, shortCode.value))]
  }

  /** After reset, neither way of setting a referral changes anything or sends
      anything, while the identifier already on record still resolves as before. */
  lemma ResetBlocksReferrals(st: State, link: Option<string>, shorten: ShortenReply, lookup: LookupReply,
                             nowMillis: nat, offer: OfferReply)
    ensures var cleared := Reset(st);
      && SetInsertAffiliateIdentifier(cleared, link, shorten, nowMillis, offer) == Traced(cleared, [])
      && SetShortCode(cleared, link, lookup, nowMillis, offer) == (Traced(cleared, []), false)
      && ReturnIdentifier(cleared, false, nowMillis) == ReturnIdentifier(st, false, nowMillis)
  {
  }

  /** Setting the same short code twice keeps the date of the first time. */
  lemma SameShortCodeTwiceKeepsDate(st: State, code: string, first: nat, second: nat,
                                    shorten1: ShortenReply, shorten2: ShortenReply,
                                    offer1: OfferReply, offer2: OfferReply)
    requires HasCompanyCode(st) && IsShortCode(Some(code))
    ensures var once := SetInsertAffiliateIdentifier(st, Some(code), shorten1, first, offer1).value;
      SetInsertAffiliateIdentifier(once, Some(code), shorten2, second, offer2).value.storedDate == once.storedDate
  {
    var once := SetInsertAffiliateIdentifier(st, Some(code), shorten1, first, offer1).value;
    assert once.referringLink == Some(code);
    assert HasCompanyCode(once);
  }

  /** A short code given in lower case by the two entry points ends up as two different
      referrals: setShortCode stores it upper-cased, setInsertAffiliateIdentifier
      verbatim. */
  lemma ShortCodeCaseDependsOnEntryPoint(st: State, shorten: ShortenReply, lookup: LookupReply,
                                         nowMillis: nat, offer: OfferReply)
    requires HasCompanyCode(st) && LookupConfirms(lookup)
    ensures SetShortCode(st, Some("abc"), lookup, nowMillis, offer).0.value.referringLink == Some("ABC")
    ensures SetInsertAffiliateIdentifier(st, Some("abc"), shorten, nowMillis, offer).value.referringLink == Some("abc")
  {
    assert ToUpper("abc") == "ABC";
  }

  /** A null identifier input removes the stored referral: URLEncoder.encode throws on
      null, and the fallback stores the null input. */
  lemma NullLinkClearsReferral(st: State, shorten: ShortenReply, nowMillis: nat, offer: OfferReply)
    requires HasCompanyCode(st)
    ensures var r := SetInsertAffiliateIdentifier(st, None, shorten, nowMillis, offer).value;
      r.referringLink.None? && ReturnIdentifier(r, true, nowMillis).None?
  {
  }
}
