/** The per-device short identifier (`storeAndReturnShortUniqueDeviceId`): created
    once from the platform's ANDROID_ID or, when the platform has none, from six
    random characters, and never replaced afterwards. */
module Device {
  import opened Base
  import opened Store

  /** The alphabet of `generateRandomString`. */
  const Alphabet: string := "ABCDEFGHIJKLMNOPQRSTUVWXYZabcdefghijklmnopqrstuvwxyz0123456789"

  /** One result of `SecureRandom.nextInt(62)`. */
  type Draw = i: int | 0 <= i < 62

  /** The alphabet's three runs, written out so that each can be indexed on its own. */
  const UpperRun: string := "ABCDEFGHIJKLMNOPQRSTUVWXYZ"
  const LowerRun: string := "abcdefghijklmnopqrstuvwxyz"
  const DigitRun: string := "0123456789"

  lemma AlphabetRuns()
    ensures Alphabet == UpperRun + LowerRun + DigitRun
  {
  }

  lemma UpperRunAt(i: int)
    requires 0 <= i < 26
    ensures UpperRun[i] as int == 'A' as int + i
  {
  }

  lemma LowerRunAt(i: int)
    requires 0 <= i < 26
    ensures LowerRun[i] as int == 'a' as int + i
  {
  }

  lemma DigitRunAt(i: int)
    requires 0 <= i < 10
    ensures DigitRun[i] as int == '0' as int + i
  {
  }

  /** The random alphabet is exactly the class `[A-Za-z0-9]`. */
  lemma AlphabetIsAlnum()
    ensures |Alphabet| == 62
    ensures forall c :: c in Alphabet <==> IsAsciiAlnum(c)
  {
    AlphabetRuns();
    forall i | 0 <= i < 62 ensures IsAsciiAlnum(Alphabet[i]) {
      if i < 26 {
        UpperRunAt(i);
        assert Alphabet[i] == UpperRun[i];
      } else if i < 52 {
        LowerRunAt(i - 26);
        assert Alphabet[i] == LowerRun[i - 26];
      } else {
        DigitRunAt(i - 52);
        assert Alphabet[i] == DigitRun[i - 52];
      }
    }
    forall c | IsAsciiAlnum(c) ensures c in Alphabet {
      if IsAsciiUpper(c) {
        var k := c as int - 'A' as int;
        UpperRunAt(k);
        assert Alphabet[k] == UpperRun[k] == c;
      } else if IsAsciiLower(c) {
        var k := c as int - 'a' as int;
        LowerRunAt(k);
        assert Alphabet[26 + k] == LowerRun[k] == c;
      } else {
        var k := c as int - '0' as int;
        DigitRunAt(k);
        assert Alphabet[52 + k] == DigitRun[k] == c;
      }
    }
  }

  /** generateRandomString(length): the i-th character is `Alphabet[random(i)]`. */
  function GenerateRandomString(length: nat, random: nat -> Draw): (r: string)
    ensures |r| == length
    ensures IsAlnumString(r)
  {
    AlphabetIsAlnum();
    var r := seq(length, i requires 0 <= i < length => Alphabet[random(i)]);
    assert forall i :: 0 <= i < length ==> r[i] in Alphabet;
    r
  }

  const DeviceIdLength: nat := 6

  /** The identifier a first launch stores: ANDROID_ID cut to its first six characters
      when it is longer, ANDROID_ID itself otherwise, and six random characters when
      the platform has no ANDROID_ID. */
  function NewDeviceId(platformId: Option<string>, random: nat -> Draw): (id: string)
    ensures |id| <= DeviceIdLength
    ensures platformId.Some? ==> StartsWith(platformId.value, id)
    ensures platformId.Some? && |platformId.value| > DeviceIdLength ==> |id| == DeviceIdLength
    ensures platformId.Some? && |platformId.value| <= DeviceIdLength ==> id == platformId.value
    ensures platformId.None? ==> |id| == DeviceIdLength && IsAlnumString(id)
  {
    var androidId := if platformId.None? then GenerateRandomString(DeviceIdLength, random) else platformId.value;
    if |androidId| > DeviceIdLength then androidId[..DeviceIdLength] else androidId
  }

  /** storeAndReturnShortUniqueDeviceId: the stored identifier is kept when present;
      otherwise a new one is stored. Nothing but the identifier key changes, and the
      identifier returned is the one stored. */
  function EnsureDeviceId(st: State, platformId: Option<string>, random: nat -> Draw): (r: (State, string))
    ensures r.0.deviceId == Some(r.1)
    ensures st.deviceId.Some? ==> r.0 == st
    ensures st.deviceId.None? ==> r.1 == NewDeviceId(platformId, random)
    ensures r.0 == st.(deviceId := r.0.deviceId)
  {
    if st.deviceId.None? then
      var id := NewDeviceId(platformId, random);
      (st.(deviceId := Some(id)), id)
    else
      (st, st.deviceId.value)
  }

  /** A device identifier contains the join separator of the affiliate identifier only
      if the platform's ANDROID_ID does; a random one never does. */
  lemma NewDeviceIdHasNoDash(platformId: Option<string>, random: nat -> Draw)
    requires platformId.Some? ==> '-' !in platformId.value
    ensures '-' !in NewDeviceId(platformId, random)
  {
  }
}
