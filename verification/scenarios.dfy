/** Concrete runs of the manager: fixed inputs, fixed replies, and the outcome each
    produces. */
module Scenarios {
  import opened Base
  import opened Store
  import opened ShortCode
  import Attribution
  import Manager

  /** An initialized app with company code "ACME", device "a1b2c3", no window. */
  const Acme: State := State(Some("ACME"), 0, false, Some("a1b2c3"), None, None, None)

  const OfferMiss: OfferReply := OfferAnswered(404, "")

  /** Initialized but never referred: no identifier, and trackEvent refuses locally. */
  lemma NoReferralYet(nowMillis: nat)
    ensures Attribution.ReturnIdentifier(Acme, false, nowMillis).None?
    ensures Manager.TrackEvent(Acme, Some("purchase"), nowMillis, true)
            == Traced(Manager.Refused(Manager.NoAffiliateIdentifier), [])
  {
  }

  /** A confirmed short code is stored upper-cased and joined to the device id. */
  lemma ConfirmedShortCode(nowMillis: nat)
    ensures var lookup := LookupAnswered(200, true, Some(AffiliateJson(Some("Ann"), None, None)));
      var r := Manager.SetShortCode(Acme, Some("abc123XYZ9"), lookup, nowMillis, OfferMiss);
      && r.1
      && r.0.value.referringLink == Some("ABC123XYZ9")
      && Attribution.ReturnIdentifier(r.0.value, false, nowMillis) == Some("ABC123XYZ9-a1b2c3")
  {
    var lookup := LookupAnswered(200, true, Some(AffiliateJson(Some("Ann"), None, None)));
    ConfirmedShortCodeStored(nowMillis);
    var stored := Manager.SetShortCode(Acme, Some("abc123XYZ9"), lookup, nowMillis, OfferMiss).0.value;
    AcmeIdentifier(stored, "ABC123XYZ9", nowMillis);
    JoinedConfirmedCode();
  }

  lemma ConfirmedShortCodeStored(nowMillis: nat)
    ensures var lookup := LookupAnswered(200, true, Some(AffiliateJson(Some("Ann"), None, None)));
      var r := Manager.SetShortCode(Acme, Some("abc123XYZ9"), lookup, nowMillis, OfferMiss);
      && r.1
      && r.0.value.referringLink == Some("ABC123XYZ9")
      && r.0.value.deviceId == Some("a1b2c3") && r.0.value.activeTime == 0
  {
    ScenarioCodeUpperCased();
    var lookup := LookupAnswered(200, true, Some(AffiliateJson(Some("Ann"), None, None)));
    assert Manager.LookupConfirms(lookup);
    assert HasCompanyCode(Acme);
  }

  /** In an Acme state with no window, a stored referral resolves to itself joined to
      "a1b2c3". */
  lemma AcmeIdentifier(st: State, link: string, nowMillis: nat)
    requires st.referringLink == Some(link) && link != ""
    requires st.deviceId == Some("a1b2c3") && st.activeTime == 0
    ensures Attribution.ReturnIdentifier(st, false, nowMillis) == Some(link + ['-'] + "a1b2c3")
  {
  }

  lemma JoinedConfirmedCode()
    ensures "ABC123XYZ9" + ['-'] + "a1b2c3" == "ABC123XYZ9-a1b2c3"
  {
    assert "ABC123XYZ9" + ['-'] == "ABC123XYZ9-";
  }

  lemma ScenarioCodeUpperCased()
    ensures IsShortCode(Some("abc123XYZ9")) && ToUpper("abc123XYZ9") == "ABC123XYZ9"
  {
    var s := "abc123XYZ9";
    assert IsAlnumString(s) by {
      forall i | 0 <= i < |s| ensures IsAsciiAlnum(s[i]) {
        assert s == "abc" + "123" + "XYZ9";
      }
    }
  }

  const LongLink: string := "https://example.com/campaign?x=1"

  /** A long link is replaced by the short link the backend returns. */
  lemma ShortenedLongLink(nowMillis: nat)
    ensures var r := Manager.SetInsertAffiliateIdentifier(Acme, Some(LongLink), ShortenAnswered(200, "PROMO42"), nowMillis, OfferMiss);
      && r.value.referringLink == Some("PROMO42")
      && r.events[0] == Sent(ShortenLink("ACME", LongLink))
  {
    assert LongLink[5] == ':';
  }

  /** When the shortening call fails, the long link itself is stored. */
  lemma ShorteningFailsKeepsLongLink(nowMillis: nat)
    ensures Manager.SetInsertAffiliateIdentifier(Acme, Some(LongLink), ShortenFailed, nowMillis, OfferMiss).value.referringLink
            == Some(LongLink)
  {
  }

  /** With a 60 second window, a referral stored at second 1000 no longer resolves at
      second 1061, but still does when the timeout is ignored. */
  lemma WindowOfSixtySeconds()
    ensures var windowed := Acme.(activeTime := 60);
      var stored := Attribution.StoreReferral(windowed, Some("PROMO42"), 1000000, OfferMiss).value;
      && Attribution.ReturnIdentifier(stored, false, 1060999).Some?
      && Attribution.ReturnIdentifier(stored, false, 1061000).None?
      && Attribution.ReturnIdentifier(stored, true, 1061000) == Some("PROMO42-a1b2c3")
  {
    var windowed := Acme.(activeTime := 60);
    var stored := Attribution.StoreReferral(windowed, Some("PROMO42"), 1000000, OfferMiss).value;
    assert stored.storedDate == Some(1000);
    assert stored.deviceId == Some("a1b2c3");
    assert Attribution.IsAttributionValid(stored, 1060999);
    assert !Attribution.IsAttributionValid(stored, 1061000);
    assert "PROMO42" + ['-'] + "a1b2c3" == "PROMO42-a1b2c3";
  }

  /** Two stores of different values with an observer registered notify twice, in
      order, each time with the identifier current at that store. */
  lemma TwoStoresNotifyTwice(nowMillis: nat)
    ensures var watched := Acme.(observerRegistered := true);
      var first := Manager.SetInsertAffiliateIdentifier(watched, Some("FIRST1"), ShortenFailed, nowMillis, OfferFailed);
      var second := Manager.SetInsertAffiliateIdentifier(first.value, Some("SECOND2"), ShortenFailed, nowMillis, OfferFailed);
      && first.events[0] == IdentifierChanged(Some("FIRST1-a1b2c3"))
      && second.events[0] == IdentifierChanged(Some("SECOND2-a1b2c3"))
  {
    var watched := Acme.(observerRegistered := true);
    assert IsShortCode(Some("FIRST1")) && IsShortCode(Some("SECOND2"));
    WatchedStoreNotifies(watched, "FIRST1", nowMillis);
    var first := Manager.SetInsertAffiliateIdentifier(watched, Some("FIRST1"), ShortenFailed, nowMillis, OfferFailed);
    WatchedStoreNotifies(first.value, "SECOND2", nowMillis);
    assert "FIRST1" + ['-'] + "a1b2c3" == "FIRST1-a1b2c3";
    assert "SECOND2" + ['-'] + "a1b2c3" == "SECOND2-a1b2c3";
  }

  /** One store of a short code into a watched Acme-like state notifies with that code
      joined to "a1b2c3", and leaves a state of the same shape. */
  lemma WatchedStoreNotifies(st: State, code: string, nowMillis: nat)
    requires HasCompanyCode(st) && st.observerRegistered && IsShortCode(Some(code))
    requires st.deviceId == Some("a1b2c3") && st.activeTime == 0
    ensures var r := Manager.SetInsertAffiliateIdentifier(st, Some(code), ShortenFailed, nowMillis, OfferFailed);
      && r.events[0] == IdentifierChanged(Some(code + ['-'] + "a1b2c3"))
      && HasCompanyCode(r.value) && r.value.observerRegistered
      && r.value.deviceId == Some("a1b2c3") && r.value.activeTime == 0
  {
    var r := Manager.SetInsertAffiliateIdentifier(st, Some(code), ShortenFailed, nowMillis, OfferFailed);
    AcmeIdentifier(r.value, code, nowMillis);
  }
}
