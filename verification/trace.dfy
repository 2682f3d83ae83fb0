/** Sequences of calls into the manager, each with the inputs it receives from the
    platform, the clock and the backends, and the facts that hold over whole runs. */
module Trace {
  import opened Base
  import opened Store
  import Device
  import Attribution
  import OfferCode
  import Manager

  /** One public call with the inputs the model takes as parameters. */
  datatype Op =
    | Initialize(code: Option<string>, activeTime: int, platformId: Option<string>, random: nat -> Device.Draw)
    | ResetSdk
    | RegisterObserver(registered: bool)
    | SetIdentifier(link: Option<string>, shorten: ShortenReply, offer: OfferReply)
    | SetShortCode(code: Option<string>, lookup: LookupReply, offer: OfferReply)
    | InstallReferrer(raw: string, shorten: ShortenReply, offer: OfferReply)
    | InsertLink(queryParam: Option<string>, shorten: ShortenReply, offer: OfferReply)
    | RefreshOfferCode(link: Option<string>, offer: OfferReply)
    | Track(eventName: Option<string>, encoderAvailable: bool)
    | ExpectedTransaction(purchaseToken: Option<string>)

  /** A call and the clock reading (milliseconds) it sees. */
  datatype Call = Call(op: Op, nowMillis: nat)

  function Apply(st: State, call: Call): (r: Traced<State>)
    ensures st.deviceId.Some? ==> r.value.deviceId == st.deviceId
  {
    var now := call.nowMillis;
    match call.op
    case Initialize(code, activeTime, platformId, random) =>
      Traced(Manager.Init(st, code, activeTime, platformId, random), [])
    case ResetSdk => Traced(Manager.Reset(st), [])
    case RegisterObserver(registered) => Traced(Manager.SetObserver(st, registered), [])
    case SetIdentifier(link, shorten, offer) => Manager.SetInsertAffiliateIdentifier(st, link, shorten, now, offer)
    case SetShortCode(code, lookup, offer) => Manager.SetShortCode(st, code, lookup, now, offer).0
    case InstallReferrer(raw, shorten, offer) => Manager.ProcessInstallReferrerData(st, raw, shorten, now, offer)
    case InsertLink(param, shorten, offer) => Manager.HandleInsertLink(st, param, shorten, now, offer)
    case RefreshOfferCode(link, offer) => OfferCode.RetrieveAndStoreOfferCode(st, link, offer)
    case Track(eventName, encoderAvailable) => Traced(st, Manager.TrackEvent(st, eventName, now, encoderAvailable).events)
    case ExpectedTransaction(token) => Traced(st, Manager.StoreExpectedTransaction(st, token, now))
  }

  /** The calls in order; the effects of each follow those of the one before. */
  function Run(st: State, calls: seq<Call>): Traced<State>
    decreases |calls|
  {
    if calls == [] then Traced(st, [])
    else
      var first := Apply(st, calls[0]);
      var rest := Run(first.value, calls[1..]);
      Traced(rest.value, first.events + rest.events)
  }

  /** Once a device identifier is stored, no sequence of calls replaces or removes it. */
  lemma {:induction false} DeviceIdNeverReplaced(st: State, calls: seq<Call>)
    requires st.deviceId.Some?
    ensures Run(st, calls).value.deviceId == st.deviceId
    decreases |calls|
  {
    if calls != [] {
      DeviceIdNeverReplaced(Apply(st, calls[0]).value, calls[1..]);
    }
  }

  /** Every run that starts with an initialization ends with a device identifier, and
      it is the one that initialization chose. */
  lemma InitializedRunKeepsDeviceId(st: State, init: Call, calls: seq<Call>)
    requires init.op.Initialize?
    ensures Run(st, [init] + calls).value.deviceId == Apply(st, init).value.deviceId
    ensures Run(st, [init] + calls).value.deviceId.Some?
  {
    var after := Apply(st, init).value;
    assert ([init] + calls)[1..] == calls;
    DeviceIdNeverReplaced(after, calls);
  }

  /** Without a company code, no modelled call except initialization reaches the network. */
  lemma NoRequestsWithoutCompanyCode(st: State, call: Call)
    requires !HasCompanyCode(st) && !call.op.Initialize?
    ensures NoRequests(Apply(st, call).events)
  {
  }

  /** Without a company code, a run of modelled calls without initialization never reaches the network. */
  lemma {:induction false} NoRequestsInUninitializedRun(st: State, calls: seq<Call>)
    requires !HasCompanyCode(st)
    requires forall i :: 0 <= i < |calls| ==> !calls[i].op.Initialize?
    ensures NoRequests(Run(st, calls).events)
    decreases |calls|
  {
    if calls != [] {
      var first := Apply(st, calls[0]);
      NoRequestsWithoutCompanyCode(st, calls[0]);
      assert !HasCompanyCode(first.value);
      NoRequestsInUninitializedRun(first.value, calls[1..]);
      var rest := Run(first.value, calls[1..]);
      assert Run(st, calls).events == first.events + rest.events;
    }
  }
}
