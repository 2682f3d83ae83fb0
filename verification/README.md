# Insert Affiliate Android SDK — attribution state machine in Dafny

This project models the core of `InsertAffiliateManager`, the static facade of the
Insert Affiliate Android SDK. It covers how an affiliate referral reaches the device
and how the SDK turns it into the affiliate identifier attached to events and
purchases. A referral can arrive as a deep link, an install-referrer string or a
short code typed by the user. The SDK may shorten it through the backend and
stores it with a date. It resolves the identifier `referral-deviceId` subject to
an attribution window, notifies an observer, and caches an offer code for the
referral.

The SDK's static fields and its `SharedPreferences` keys are one immutable record,
`Store.State`. That record holds:

- the company code, the attribution window and whether an observer is registered;
- `shortUniqueDeviceID`, `referring_link`, `affiliate_stored_date` and
  `offer_code`, with a missing key written `None`.

Every public operation is a pure function from a state and its inputs to a new
state and a list of effects (`Store.Traced`). The effects are requests sent to the
backend (`Sent`) and observer notifications (`IdentifierChanged`), in order.

The inputs each operation cannot compute itself are parameters:

- the clock, as `nowMillis`;
- `ANDROID_ID`, as `platformId`;
- `SecureRandom`, as `random`;
- whether the platform has the two-argument `URLEncoder.encode`;
- each backend's reply, as a datatype of the outcomes the code distinguishes,
  including encoding failures and malformed URLs.

Work the SDK runs on a background thread is taken to finish before the next call.

Modules:

- `Base`: `Option`, ASCII character classes, `toUpperCase`, `startsWith`,
  `contains` and subsequences.
- `Store`: the state record, requests, effects and backend replies.
- `ShortCode`: `isShortCode` and the local checks of `setShortCode` and
  `getAffiliateDetails`.
- `Device`: `generateRandomString` and `storeAndReturnShortUniqueDeviceId`.
- `OfferCode`: `fetchOfferCode`, `cleanOfferCode`, `retrieveAndStoreOfferCode` and
  `getStoredOfferCode`.
- `Attribution`: `storeInsertAffiliateReferringLink`,
  `returnInsertAffiliateIdentifier`, `isAffiliateAttributionValid` and
  `notifyIdentifierChange`.
- `Referrer`: the `&`/`insertAffiliate=` scan of `processInstallReferrerData`.
- `Manager`: the public entry points.
- `Trace`: runs of many calls.
- `Scenarios`: concrete runs.

Behaviours of the code worth noting, which the model follows exactly:

- `init` always overwrites the company code. Its "already initialized" test only logs.
- The observer notification resolves the identifier with the expiry check applied,
  not ignored. Re-storing an expired referral therefore notifies null.
- `storeExpectedPlayStoreTransaction` also applies the expiry check. An expired
  attribution records no expected transaction.
- `setShortCode` stores the code upper-cased. `setInsertAffiliateIdentifier` stores
  a short code exactly as given. So "abc" becomes two different referrals,
  depending on the entry point.

## Model

| member | source | states |
|---|---|---|
| Base.ToUpper | app/src/main/java/com/aks/insertaffiliateandroid/InsertAffiliateManager.java:159 | Upper-casing keeps the length and maps each character on its own. The result has no lower-case letter. It is alphanumeric exactly when the input is. |
| ShortCode.MatchesAlnumRepeatMeaning | app/src/main/java/com/aks/insertaffiliateandroid/InsertAffiliateManager.java:141-142 | The matcher for `^[a-zA-Z0-9]{min,max}$` accepts exactly the all-alphanumeric strings whose length lies between min and max. |
| ShortCode.IsShortCode | app/src/main/java/com/aks/insertaffiliateandroid/InsertAffiliateManager.java:139-143 | A link is a short code exactly when it is non-null, 3 to 25 characters long and all ASCII letters and digits. |
| ShortCode.CheckShortCode | app/src/main/java/com/aks/insertaffiliateandroid/InsertAffiliateManager.java:151-173 | The local checks refuse null or "" as empty. They accept exactly the short codes. What they accept is the upper-cased code, itself a short code with no lower-case letter. |
| ShortCode.CheckShortCodeIdempotent | app/src/main/java/com/aks/insertaffiliateandroid/InsertAffiliateManager.java:1032-1046 | Repeating the checks on an accepted code accepts it unchanged. So `getAffiliateDetails` never refuses what `setShortCode` passed it. |
| Device.AlphabetIsAlnum | app/src/main/java/com/aks/insertaffiliateandroid/InsertAffiliateManager.java:195 | The random alphabet has 62 characters and contains exactly the ASCII letters and digits. |
| Device.GenerateRandomString | app/src/main/java/com/aks/insertaffiliateandroid/InsertAffiliateManager.java:194-203 | The random string has the requested length and only letters and digits. |
| Device.NewDeviceId | app/src/main/java/com/aks/insertaffiliateandroid/InsertAffiliateManager.java:215-230 | A new device id has at most 6 characters and is a prefix of ANDROID_ID. It is ANDROID_ID cut to 6 when longer, and ANDROID_ID itself otherwise. Without ANDROID_ID it is 6 random alphanumerics. |
| Device.EnsureDeviceId | app/src/main/java/com/aks/insertaffiliateandroid/InsertAffiliateManager.java:210-236 | A stored device id is kept and returned. Otherwise a new one is stored and returned. No other key changes. |
| Device.NewDeviceIdHasNoDash | app/src/main/java/com/aks/insertaffiliateandroid/InsertAffiliateManager.java:221-227 | A new device id contains a dash only if ANDROID_ID does. |
| OfferCode.CleanOfferCode | app/src/main/java/com/aks/insertaffiliateandroid/InsertAffiliateManager.java:839-845 | The cleaned code contains only `[a-zA-Z0-9_-]`. It is a subsequence of the input. It keeps every occurrence of every allowed character. |
| OfferCode.CleanOfferCodeKeepsClean | app/src/main/java/com/aks/insertaffiliateandroid/InsertAffiliateManager.java:839-845 | A code made only of allowed characters is left unchanged. |
| OfferCode.CleanOfferCodeIdempotent | app/src/main/java/com/aks/insertaffiliateandroid/InsertAffiliateManager.java:839-845 | Cleaning twice equals cleaning once. |
| OfferCode.ReadBody | app/src/main/java/com/aks/insertaffiliateandroid/InsertAffiliateManager.java:746-755 | Reading the body line by line drops every CR and LF and keeps every other character, in order and with the same count. A body without line breaks is read unchanged. |
| OfferCode.LinkSentinelIsRedundant | app/src/main/java/com/aks/insertaffiliateandroid/InsertAffiliateManager.java:758-761 | The third error string contains the second. A body is recognised as "not found" exactly when one of the other three strings occurs in it. |
| OfferCode.FetchOfferCode | app/src/main/java/com/aks/insertaffiliateandroid/InsertAffiliateManager.java:710-786 | Without a company code or with a null or empty link, the fetch sends nothing and answers null. A request is sent exactly when encoding and the URL succeed. A code is answered exactly for a 200 body with no error string. That code is the cleaned body, a clean subsequence of the reply. |
| OfferCode.RetrieveAndStoreOfferCode | app/src/main/java/com/aks/insertaffiliateandroid/InsertAffiliateManager.java:793-816 | The cache is always written, and with a clean value. It holds "" exactly when the fetch found nothing or "", and otherwise the fetched code. Nothing else changes, and the effects are the fetch's effects. |
| OfferCode.GetStoredOfferCode | app/src/main/java/com/aks/insertaffiliateandroid/InsertAffiliateManager.java:823-832 | A missing or empty cached code reads as null, and any other value reads as itself. |
| OfferCode.RefreshThenRead | app/src/main/java/com/aks/insertaffiliateandroid/InsertAffiliateManager.java:793-832 | After a refresh, the app reads the fetched code exactly when it is non-empty, and null otherwise. |
| Attribution.IsAttributionValid | app/src/main/java/com/aks/insertaffiliateandroid/InsertAffiliateManager.java:875-897 | With no positive window, every attribution is valid. With a window, a zero date is invalid. A dated attribution is valid while the seconds elapsed do not exceed the window. |
| Attribution.ExpiryIsPermanent | app/src/main/java/com/aks/insertaffiliateandroid/InsertAffiliateManager.java:875-897 | An expired attribution stays expired at every later clock reading. |
| Attribution.ReturnIdentifier | app/src/main/java/com/aks/insertaffiliateandroid/InsertAffiliateManager.java:451-479 | The identifier is present exactly when a non-empty referral is stored and either the timeout is ignored or the attribution is valid. It is then `referral-deviceId` and never empty. |
| Attribution.IgnoreTimeoutOnlyWidens | app/src/main/java/com/aks/insertaffiliateandroid/InsertAffiliateManager.java:467-474 | Ignoring the timeout never changes a present identifier. It never hides one either. |
| Attribution.ParseJoinedIdentifier | app/src/main/java/com/aks/insertaffiliateandroid/InsertAffiliateManager.java:476 | Splitting an identifier at its last dash recovers the referral and the device id whenever the device id has no dash. |
| Attribution.NotifyIdentifierChange | app/src/main/java/com/aks/insertaffiliateandroid/InsertAffiliateManager.java:915-928 | There is exactly one notification when an observer is registered, and it carries the identifier resolved with the expiry check. |
| Attribution.StoreReferral | app/src/main/java/com/aks/insertaffiliateandroid/InsertAffiliateManager.java:414-445 | The value is written, and null removes the key. The date is kept when the same value is stored again and is set to now otherwise. Configuration and device id are untouched. The effects are the notification first, carrying the new identifier, and then exactly the offer fetch for the stored value. The offer cache ends as that refresh leaves it, always with a clean value. |
| Attribution.StoreTwiceKeepsDate | app/src/main/java/com/aks/insertaffiliateandroid/InsertAffiliateManager.java:421-436 | Storing the same value twice keeps the first date, whatever the second clock says. |
| Attribution.AttributionWindow | app/src/main/java/com/aks/insertaffiliateandroid/InsertAffiliateManager.java:883-893 | A new value stored at time t resolves at time n exactly when the seconds from t to n are at most the window. |
| Attribution.NoWindowNeverExpires | app/src/main/java/com/aks/insertaffiliateandroid/InsertAffiliateManager.java:876-880 | With no positive window, a stored referral resolves to `referral-deviceId` at every time. |
| Attribution.RestoreAfterExpiryNotifiesNull | app/src/main/java/com/aks/insertaffiliateandroid/InsertAffiliateManager.java:421-441 | Re-storing an expired referral keeps its date, so the observer is notified with null. |
| Referrer.Split | app/src/main/java/com/aks/insertaffiliateandroid/InsertAffiliateManager.java:550 | Splitting yields at least one segment, and no segment contains the separator. |
| Referrer.JoinSplit | app/src/main/java/com/aks/insertaffiliateandroid/InsertAffiliateManager.java:550 | The segments join back into the original string. |
| Referrer.SplitJoin | app/src/main/java/com/aks/insertaffiliateandroid/InsertAffiliateManager.java:550 | Separator-free segments that are joined and split again come back unchanged. |
| Referrer.FirstValue | app/src/main/java/com/aks/insertaffiliateandroid/InsertAffiliateManager.java:551-556 | A value is found exactly when some segment starts with the key. It is that segment's suffix after the key, and no earlier segment starts with the key. |
| Referrer.ExtractAffiliateParam | app/src/main/java/com/aks/insertaffiliateandroid/InsertAffiliateManager.java:546-557 | The `contains` pre-test never changes the outcome. The value is the first keyed segment's value of the `&`-split. |
| Referrer.ExtractFromParams | app/src/main/java/com/aks/insertaffiliateandroid/InsertAffiliateManager.java:546-557 | A referrer built from `&`-free parameters yields the value of the first `insertAffiliate=` parameter. |
| Manager.Init | app/src/main/java/com/aks/insertaffiliateandroid/InsertAffiliateManager.java:81-115 | The company code and window are overwritten. A device id then exists, and an existing one is kept. The referral, date, offer code and observer are untouched. |
| Manager.Reset | app/src/main/java/com/aks/insertaffiliateandroid/InsertAffiliateManager.java:121-124 | Only the company code is cleared. |
| Manager.SetObserver | app/src/main/java/com/aks/insertaffiliateandroid/InsertAffiliateManager.java:130-136 | Only the observer slot changes. |
| Manager.SetInsertAffiliateIdentifier | app/src/main/java/com/aks/insertaffiliateandroid/InsertAffiliateManager.java:320-412 | Without a company code nothing happens. A shortening request is sent exactly when a company code is set, the link is non-null and not a short code, and encoding and the URL succeed. A short code is stored verbatim. A non-short link is replaced only by the non-empty short link of a 200 reply, and every other path stores the original. Exactly one store happens, optionally after that one request. |
| Manager.GetAffiliateDetails | app/src/main/java/com/aks/insertaffiliateandroid/InsertAffiliateManager.java:1019-1120 | A lookup request for the upper-cased code is sent exactly when a company code is set and the code is a short code. Details come back exactly when the reply confirms the affiliate. Missing fields default to "" (the short code to the request code). |
| Manager.SetShortCode | app/src/main/java/com/aks/insertaffiliateandroid/InsertAffiliateManager.java:151-191 | It reports true exactly for a short code with a company code set and a confirming lookup. Only then is the upper-cased code stored, through the ordinary store. The effects of a true report are the lookup request for the upper-cased code, then the store's notification and offer fetch. A false report leaves the state unchanged. Local refusals send nothing. A refused lookup has that one request as its only effect. |
| Manager.ProcessInstallReferrerData | app/src/main/java/com/aks/insertaffiliateandroid/InsertAffiliateManager.java:541-573 | The first keyed segment's non-empty value goes to setInsertAffiliateIdentifier. Otherwise nothing happens. |
| Manager.HandleInsertLink | app/src/main/java/com/aks/insertaffiliateandroid/InsertAffiliateManager.java:943-964 | A missing or empty query parameter does nothing. Every non-empty parameter goes to setInsertAffiliateIdentifier, long links and shortening included. So a short-code parameter is stored as given when a company code is set. |
| Manager.TrackEvent | app/src/main/java/com/aks/insertaffiliateandroid/InsertAffiliateManager.java:576-618 | Without a company code, or without a valid identifier, it refuses locally with the matching message and sends nothing. Otherwise it sends one event request carrying the identifier. |
| Manager.StoreExpectedTransaction | app/src/main/java/com/aks/insertaffiliateandroid/InsertAffiliateManager.java:243-317 | A request is sent exactly when a company code is set and the identifier resolves with the expiry check. It carries the token, the company code and the identifier. |
| Manager.ResetBlocksReferrals | app/src/main/java/com/aks/insertaffiliateandroid/InsertAffiliateManager.java:121-124 | After reset, neither entry point changes anything or sends anything, and the identifier on record resolves as before. |
| Manager.SameShortCodeTwiceKeepsDate | app/src/main/java/com/aks/insertaffiliateandroid/InsertAffiliateManager.java:333-337 | Setting the same short code twice keeps the first date. |
| Manager.ShortCodeCaseDependsOnEntryPoint | app/src/main/java/com/aks/insertaffiliateandroid/InsertAffiliateManager.java:159-181 | "abc" is stored as "ABC" by setShortCode and as "abc" by setInsertAffiliateIdentifier. |
| Manager.NullLinkClearsReferral | app/src/main/java/com/aks/insertaffiliateandroid/InsertAffiliateManager.java:344-351 | A null link fails to encode, and the fallback stores null. This removes the referral, so no identifier resolves even when the timeout is ignored. |
| Trace.Apply | app/src/main/java/com/aks/insertaffiliateandroid/InsertAffiliateManager.java:210-236 | No single call replaces or removes a stored device id. |
| Trace.DeviceIdNeverReplaced | app/src/main/java/com/aks/insertaffiliateandroid/InsertAffiliateManager.java:210-236 | No run of calls replaces or removes a stored device id. |
| Trace.InitializedRunKeepsDeviceId | app/src/main/java/com/aks/insertaffiliateandroid/InsertAffiliateManager.java:105 | A run that starts with init ends with the device id that init chose. |
| Trace.NoRequestsWithoutCompanyCode | app/src/main/java/com/aks/insertaffiliateandroid/InsertAffiliateManager.java:325-329 | Without a company code, no modelled call except init sends a request. |
| Trace.NoRequestsInUninitializedRun | app/src/main/java/com/aks/insertaffiliateandroid/InsertAffiliateManager.java:325-329 | Without a company code, a run of modelled calls without init never sends a request. |
| Scenarios.NoReferralYet | app/src/main/java/com/aks/insertaffiliateandroid/InsertAffiliateManager.java:576-592 | An initialized app with no referral has no identifier, and trackEvent refuses with the "no affiliate identifier" message. |
| Scenarios.ConfirmedShortCode | app/src/main/java/com/aks/insertaffiliateandroid/InsertAffiliateManager.java:151-191 | A confirmed "abc123XYZ9" is stored as "ABC123XYZ9" and resolves to "ABC123XYZ9-a1b2c3". |
| Scenarios.ShortenedLongLink | app/src/main/java/com/aks/insertaffiliateandroid/InsertAffiliateManager.java:354-387 | A long link is replaced by the short link the backend returns, after one shortening request. |
| Scenarios.ShorteningFailsKeepsLongLink | app/src/main/java/com/aks/insertaffiliateandroid/InsertAffiliateManager.java:396-398 | When the shortening call fails, the long link itself is stored. |
| Scenarios.WindowOfSixtySeconds | app/src/main/java/com/aks/insertaffiliateandroid/InsertAffiliateManager.java:875-897 | With a 60 second window, a referral stored at second 1000 resolves at second 1060. It is gone at second 1061 unless the timeout is ignored. |
| Scenarios.TwoStoresNotifyTwice | app/src/main/java/com/aks/insertaffiliateandroid/InsertAffiliateManager.java:440-441 | Two stores of different values notify twice, each time with the identifier current at that store. |

## Left out

- HTTP, JSON and stream plumbing: each backend call is one reply value. The model covers the outcomes the code tells apart, not the bytes.
- Threads, the callback executor and Retrofit's queue: each asynchronous task completes before the next public call, and one clock reading serves a whole operation.
- Logging and verbose logging (`Log`, `verboseLog`), and the `verboseLogging` and `insertLinks` flags: they only log or start the install-referrer client.
- `captureInstallReferrer`: the install-referrer client connection is platform I/O. Its output string is the input of `ProcessInstallReferrerData`.
- `handleInsertLink`'s `Uri.getQueryParameter`: URI parsing is Android platform code. The model takes the parameter's value, with null when the intent, its data or the parameter is missing.
- `validatePurchaseWithIapticAPI`: receipt validation against a third-party service, with Base64 encoding. It reads the identifier (with the expiry check) but writes no persisted state, and it checks no company code, so its request is outside the modelled calls of `Trace`.
- `removeSpecialCharacters`: deprecated and unused.
- The read-only accessors `getUniqueId`, `getCompanyCode` and `getAffiliateStoredDate`: they are field reads of the state record.
- The ISO-8601 `storedDate` in the expected transaction: a clock formatting detail. The payload's other fields are modelled.
- The JSON payload `catch` blocks of `storeExpectedPlayStoreTransaction` and `getAffiliateDetails`: `JSONObject.put` with string values does not throw there.
- Manager.TrackEvent: does not model the returned `responseMessage`, a static field written later by the asynchronous reply. The result only says whether the request was queued.
- Manager.ProcessInstallReferrerData: a null referrer string throws and is caught, doing nothing. The model takes a non-null string.
- Referrer.Split: keeps trailing empty segments where Java's `split` drops them. An empty segment never starts with the key, so the value found is the same.
- Base.ToUpper: upper-cases ASCII letters only. Java's `toUpperCase` also maps non-ASCII characters in every locale: `ß` becomes `SS`, `ſ` becomes `S` and the dotless `ı` becomes `I`. Under a Turkish default locale, `i` becomes `İ`. None of this is modelled. Lengths count characters rather than UTF-16 code units.
- ShortCode.CheckShortCode: its "accepted exactly when isShortCode" holds only for the ASCII upper-casing of Base.ToUpper. Java accepts `"ſab"` (as `"SAB"`) and `"ßab"` (as `"SSAB"`), which isShortCode rejects. Under a Turkish default locale it refuses every code containing `i`.
- Manager.SetShortCode: inherits the ASCII-only limit of ShortCode.CheckShortCode. The non-ASCII codes Java upper-cases into short codes are refused here, and Turkish-locale refusals are not reproduced.
- Manager.GetAffiliateDetails: inherits the same ASCII-only limit of ShortCode.CheckShortCode in its local checks.
- Attribution.IsAttributionValid: Java `long` arithmetic is unbounded here. Epoch seconds and realistic windows cannot overflow. A date of second 0 reads like a missing date, as it does in the code.
- The classes of other files (`Api`, `ReceiptVerificationCredentials`, callbacks, `AffiliateDetails` getters) are not part of this model, beyond the shape of `AffiliateDetails`.
