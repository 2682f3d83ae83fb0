/** The attribution record and the affiliate identifier derived from it:
    `storeInsertAffiliateReferringLink`, `returnInsertAffiliateIdentifier`,
    `isAffiliateAttributionValid` and `notifyIdentifierChange`. */
module Attribution {
  import opened Base
  import opened Store
  import OfferCode

  /** `System.currentTimeMillis() / 1000`. */
  function EpochSeconds(nowMillis: nat): nat {
    nowMillis / 1000
  }

  /** `getLong("affiliate_stored_date", 0)`. */
  function StoredDate(st: State): int {
    st.storedDate.GetOr(0)
  }

  /** A referral is on record: "referring_link" is present and non-empty. */
  predicate HasReferral(st: State) {
    st.referringLink.Some? && st.referringLink.value != ""
  }

  /** isAffiliateAttributionValid. With no positive window every attribution is valid;
      otherwise a missing (zero) date is invalid, and a dated one is valid while no
      more than `activeTime` seconds have passed since that date. */
  function IsAttributionValid(st: State, nowMillis: nat): (valid: bool)
    ensures st.activeTime <= 0 ==> valid
    ensures st.activeTime > 0 && StoredDate(st) == 0 ==> !valid
    ensures st.activeTime > 0 && StoredDate(st) != 0 ==>
      (valid <==> EpochSeconds(nowMillis) <= StoredDate(st) + st.activeTime)
  {
    if st.activeTime <= 0 then true
    else
      var storedDate := StoredDate(st);
      if storedDate == 0 then false
      else
        var timeDifference := EpochSeconds(nowMillis) - storedDate;
        timeDifference <= st.activeTime
  }

  /** Once an attribution has expired it stays expired as the clock moves forward. */
  lemma ExpiryIsPermanent(st: State, earlier: nat, later: nat)
    requires earlier <= later
    requires !IsAttributionValid(st, earlier)
    ensures !IsAttributionValid(st, later)
  {
    assert EpochSeconds(earlier) <= EpochSeconds(later) by {
      assert earlier / 1000 <= later / 1000;
    }
  }

  /** The join separator of the affiliate identifier. */
  const Separator: char := '-'

  /** returnInsertAffiliateIdentifier(ignoreTimeout): null without a referral, null
      when the expiry check is applied and fails, and otherwise the referral joined
      to the device identifier ("" when that key is missing) by a dash. */
  function ReturnIdentifier(st: State, ignoreTimeout: bool, nowMillis: nat): (r: Option<string>)
    ensures r.Some? <==> HasReferral(st) && (ignoreTimeout || IsAttributionValid(st, nowMillis))
    ensures r.Some? ==> r.value == st.referringLink.value + [Separator] + st.deviceId.GetOr("")
    ensures r.Some? ==> r.value != ""
  {
    var deviceId := st.deviceId.GetOr("");
    var referringLink := st.referringLink.GetOr("");
    if referringLink == "" then None
    else if !ignoreTimeout && st.activeTime > 0 && !IsAttributionValid(st, nowMillis) then None
    else Some(referringLink + [Separator] + deviceId)
  }

  /** Ignoring the timeout can only turn an absent identifier into a present one; it
      never changes a present one. */
  lemma IgnoreTimeoutOnlyWidens(st: State, nowMillis: nat)
    ensures ReturnIdentifier(st, false, nowMillis).Some? ==>
      ReturnIdentifier(st, true, nowMillis) == ReturnIdentifier(st, false, nowMillis)
    ensures ReturnIdentifier(st, true, nowMillis).None? ==> ReturnIdentifier(st, false, nowMillis).None?
  {
  }

  /** The position of the last `c` in `s`, if any. */
  function LastIndexOf(s: string, c: char): (r: Option<nat>)
    ensures r.Some? ==> r.value < |s| && s[r.value] == c && c !in s[r.value + 1..]
    ensures r.None? ==> c !in s
    decreases |s|
  {
    if s == [] then None
    else if s[|s| - 1] == c then Some(|s| - 1)
    else
      var r := LastIndexOf(s[..|s| - 1], c);
      assert s == s[..|s| - 1] + [s[|s| - 1]];
      if r.Some? then
        assert s[r.value + 1..] == s[..|s| - 1][r.value + 1..] + [s[|s| - 1]];
        r
      else r
  }

  /** Splits an affiliate identifier at its last dash into referral and device id. */
  function ParseIdentifier(identifier: string): Option<(string, string)> {
    match LastIndexOf(identifier, Separator)
    case None => None
    case Some(k) => Some((identifier[..k], identifier[k + 1..]))
  }

  /** The identifier can be taken apart again whenever the device identifier has no
      dash, even if the referral itself contains dashes. */
  lemma ParseJoinedIdentifier(referral: string, deviceId: string)
    requires Separator !in deviceId
    ensures ParseIdentifier(referral + [Separator] + deviceId) == Some((referral, deviceId))
  {
    var s := referral + [Separator] + deviceId;
    assert s[|referral|] == Separator;
    assert s[..|referral|] == referral;
    assert s[|referral| + 1..] == deviceId;
  }

  /** notifyIdentifierChange: with an observer registered, one notification carrying the
      identifier resolved now (the expiry check applies); without one, nothing. */
  function NotifyIdentifierChange(st: State, nowMillis: nat): (events: seq<Event>)
    ensures st.observerRegistered <==> events != []
    ensures events != [] ==> events == [IdentifierChanged(ReturnIdentifier(st, false, nowMillis))]
  {
    if st.observerRegistered then [IdentifierChanged(ReturnIdentifier(st, false, nowMillis))] else []
  }

  /** The effects of one store, in order: at most one notification, then the offer
      code fetch (if one is sent). */
  predicate NotifiesThenFetches(events: seq<Event>, observer: bool) {
    var n := if observer then 1 else 0;
    && n <= |events|
    && (observer ==> events[0].IdentifierChanged?)
    && (forall i :: n <= i < |events| ==> events[i].Sent? && events[i].request.FetchOfferCode?)
  }

  /** storeInsertAffiliateReferringLink. The value is written (a null value removes the
      key); the date is refreshed only when the value is new or different, so storing
      the same value again keeps the original date. Then the observer is notified
      with the identifier as it now resolves, and then the offer code is refreshed for
      the stored value. The configuration and the device identifier are untouched. */
  function StoreReferral(st: State, value: Option<string>, nowMillis: nat, offer: OfferReply): (r: Traced<State>)
    ensures r.value.referringLink == value
    ensures st.referringLink.Some? && st.referringLink == value ==> r.value.storedDate == st.storedDate
    ensures !(st.referringLink.Some? && st.referringLink == value) ==>
      r.value.storedDate == Some(EpochSeconds(nowMillis))
    ensures r.value.companyCode == st.companyCode && r.value.activeTime == st.activeTime
    ensures r.value.observerRegistered == st.observerRegistered && r.value.deviceId == st.deviceId
    ensures r.value.offerCode.Some? && OfferCode.IsCleanOfferCode(r.value.offerCode.value)
    ensures NotifiesThenFetches(r.events, st.observerRegistered)
    ensures st.observerRegistered ==> r.events[0] == IdentifierChanged(ReturnIdentifier(r.value, false, nowMillis))
    ensures r.value.offerCode == OfferCode.RetrieveAndStoreOfferCode(st, value, offer).value.offerCode
    ensures r.events[(if st.observerRegistered then 1 else 0)..] == OfferCode.FetchOfferCode(st, value, offer).events
  {
    var existingLink := st.referringLink;
    var isNewOrDifferent := existingLink.None? || existingLink != value;
    var written := st.(referringLink := value,
                       storedDate := if isNewOrDifferent then Some(EpochSeconds(nowMillis)) else st.storedDate);
    var notified := NotifyIdentifierChange(written, nowMillis);
    var refreshed := OfferCode.RetrieveAndStoreOfferCode(written, value, offer);
    Traced(refreshed.value, notified + refreshed.events)
  }

  /** Storing the same value twice keeps the date of the first store, whatever the
      clock says the second time. */
  lemma StoreTwiceKeepsDate(st: State, value: string, first: nat, second: nat, offer1: OfferReply, offer2: OfferReply)
    ensures var once := StoreReferral(st, Some(value), first, offer1).value;
      StoreReferral(once, Some(value), second, offer2).value.storedDate == once.storedDate
  {
  }

  /** A referral stored as a new value at `storedAt` resolves at `nowMillis` exactly while
      the window has not passed: for a window of `activeTime` > 0 seconds, while no more
      than `activeTime` whole seconds separate the two clock readings. */
  lemma AttributionWindow(st: State, value: string, storedAt: nat, nowMillis: nat, offer: OfferReply)
    requires value != "" && st.referringLink != Some(value)
    requires st.activeTime > 0 && storedAt >= 1000
    ensures var stored := StoreReferral(st, Some(value), storedAt, offer).value;
      ReturnIdentifier(stored, false, nowMillis).Some? <==>
        EpochSeconds(nowMillis) - EpochSeconds(storedAt) <= st.activeTime
  {
  }

  /** With no positive window a stored referral resolves forever. */
  lemma NoWindowNeverExpires(st: State, value: string, storedAt: nat, nowMillis: nat, offer: OfferReply)
    requires value != "" && st.activeTime <= 0
    ensures ReturnIdentifier(StoreReferral(st, Some(value), storedAt, offer).value, false, nowMillis)
      == Some(value + [Separator] + st.deviceId.GetOr(""))
  {
  }

  /** Re-storing the referral already on record after its window has passed notifies
      the observer with null: the date is kept, so the identifier still resolves as
      expired. */
  lemma RestoreAfterExpiryNotifiesNull(st: State, nowMillis: nat, offer: OfferReply)
    requires HasReferral(st) && st.observerRegistered
    requires !IsAttributionValid(st, nowMillis)
    ensures StoreReferral(st, st.referringLink, nowMillis, offer).events[0] == IdentifierChanged(None)
  {
  }
}
