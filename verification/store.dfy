/** The state the manager keeps between calls, the observable effects a call can
    have, and the replies of the remote services, which every operation receives as
    explicit inputs instead of performing network I/O. */
module Store {
  import opened Base

  /** Everything `InsertAffiliateManager` remembers. The first three fields are the
      class's static fields (they live as long as the process); the last four are the
      keys of the "InsertAffiliate" shared-preferences file (they outlive it). An
      absent key is `None`. */
  datatype State = State(
    companyCode: Option<string>,    // companyCode
    activeTime: int,                // affiliateAttributionActiveTime, seconds; 0 or less: never expires
    observerRegistered: bool,       // identifierChangeCallback != null
    deviceId: Option<string>,       // "shortUniqueDeviceID"
    referringLink: Option<string>,  // "referring_link"
    storedDate: Option<int>,        // "affiliate_stored_date", epoch seconds
    offerCode: Option<string>       // "offer_code"
  )

  /** A freshly installed app: nothing configured, nothing persisted. */
  const FreshInstall: State := State(None, 0, false, None, None, None, None)

  /** The guard every remote call starts with: `companyCode != null && !companyCode.isEmpty()`. */
  predicate HasCompanyCode(st: State) {
    st.companyCode.Some? && st.companyCode.value != ""
  }

  /** A request handed to one of the two backends. */
  datatype Request =
    | ShortenLink(companyId: string, deepLink: string)
    | CheckAffiliateExists(companyId: string, affiliateCode: string)
    | FetchOfferCode(companyId: string, affiliateLink: string)
    | TrackEvent(eventName: Option<string>, companyId: string, deepLinkParam: string, percentEncoded: bool)
    | CreateExpectedTransaction(uuid: Option<string>, companyCode: string, shortCode: string)

  /** An observable effect, in the order the manager causes it. */
  datatype Event =
    | IdentifierChanged(identifier: Option<string>)  // handed to the registered observer
    | Sent(request: Request)                         // a network request is issued

  /** A result together with the effects that produced it. */
  datatype Traced<T> = Traced(value: T, events: seq<Event>)

  predicate IsRequest(e: Event) { e.Sent? }

  predicate NoRequests(events: seq<Event>) {
    forall i :: 0 <= i < |events| ==> !IsRequest(events[i])
  }

  /** What the deep-link shortening call can come back with. `shortLink` is the
      body's "shortLink" field as `optString` reads it ("" when missing). */
  datatype ShortenReply =
    | ShortenEncodeFailed                             // URLEncoder.encode threw
    | ShortenBadUrl                                   // new URL(...) threw
    | ShortenAnswered(status: int, shortLink: string) // an HTTP status was received
    | ShortenFailed                                   // I/O error, or a 200 body that is not JSON

  /** The "affiliate" object of an existence check reply; each field is `None` when
      the key is missing. */
  datatype AffiliateJson = AffiliateJson(
    affiliateName: Option<string>,
    affiliateShortCode: Option<string>,
    deeplinkurl: Option<string>)

  /** What the affiliate existence check can come back with. `affiliateExists` is
      `optBoolean("exists", false)`; `affiliate` is `None` when the key is missing. */
  datatype LookupReply =
    | LookupAnswered(status: int, affiliateExists: bool, affiliate: Option<AffiliateJson>)
    | LookupFailed                                    // I/O error, a 200 body that is not JSON, or a non-object "affiliate"

  /** What the offer-code fetch can come back with. `body` is the raw response text. */
  datatype OfferReply =
    | OfferEncodeFailed
    | OfferBadUrl
    | OfferAnswered(status: int, body: string)
    | OfferFailed

  /** HttpURLConnection.HTTP_OK */
  const HttpOk: int := 200
}
