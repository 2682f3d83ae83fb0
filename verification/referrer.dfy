/** The key scan of `processInstallReferrerData`: the install-referrer string is cut at
    every `&`, and the value of the first segment that starts with `insertAffiliate=`
    is taken. */
module Referrer {
  import opened Base

  const ParamSeparator: char := '&'
  const AffiliateKey: string := "insertAffiliate="

  /** The segments of `s` between occurrences of `sep`, empty ones included. */
  function Split(s: string, sep: char): (parts: seq<string>)
    ensures |parts| >= 1
    ensures forall i :: 0 <= i < |parts| ==> sep !in parts[i]
    decreases |s|
  {
    if s == [] then [[]]
    else
      var rest := Split(s[1..], sep);
      if s[0] == sep then [[]] + rest
      else [[s[0]] + rest[0]] + rest[1..]
  }

  /** The segments put back together with `sep` between neighbours. */
  function Join(parts: seq<string>, sep: char): string
    requires |parts| >= 1
    decreases |parts|
  {
    if |parts| == 1 then parts[0] else parts[0] + [sep] + Join(parts[1..], sep)
  }

  /** Cutting loses nothing: the segments join back into the original string. */
  lemma {:induction false} JoinSplit(s: string, sep: char)
    ensures Join(Split(s, sep), sep) == s
    decreases |s|
  {
    if s != [] {
      var rest := Split(s[1..], sep);
      JoinSplit(s[1..], sep);
      if s[0] != sep {
        if |rest| > 1 {
          assert ([[s[0]] + rest[0]] + rest[1..])[1..] == rest[1..];
        }
      }
    }
  }

  /** A string without the separator is one segment. */
  lemma {:induction false} SplitWithoutSeparator(s: string, sep: char)
    requires sep !in s
    ensures Split(s, sep) == [s]
    decreases |s|
  {
    if s != [] {
      SplitWithoutSeparator(s[1..], sep);
      assert [s[0]] + s[1..] == s;
    }
  }

  /** A separator after a separator-free prefix ends the first segment there. */
  lemma {:induction false} SplitAtFirstSeparator(x: string, y: string, sep: char)
    requires sep !in x
    ensures Split(x + [sep] + y, sep) == [x] + Split(y, sep)
    decreases |x|
  {
    var s := x + [sep] + y;
    if x == [] {
      assert s[1..] == y;
    } else {
      assert s[1..] == x[1..] + [sep] + y;
      SplitAtFirstSeparator(x[1..], y, sep);
      assert [x[0]] + x[1..] == x;
    }
  }

  /** Joining segments that hold no separator and cutting again gives them back. */
  lemma {:induction false} SplitJoin(parts: seq<string>, sep: char)
    requires |parts| >= 1
    requires forall i :: 0 <= i < |parts| ==> sep !in parts[i]
    ensures Split(Join(parts, sep), sep) == parts
    decreases |parts|
  {
    if |parts| == 1 {
      SplitWithoutSeparator(parts[0], sep);
    } else {
      SplitJoin(parts[1..], sep);
      SplitAtFirstSeparator(parts[0], Join(parts[1..], sep), sep);
      assert [parts[0]] + parts[1..] == parts;
    }
  }

  /** The suffix after `key` of the first part that starts with it. */
  function FirstValue(parts: seq<string>, key: string): (r: Option<string>)
    ensures r.Some? <==> exists i :: 0 <= i < |parts| && StartsWith(parts[i], key)
    ensures r.Some? ==> exists i :: 0 <= i < |parts| && StartsWith(parts[i], key) && r.value == parts[i][|key|..]
                                   && forall j :: 0 <= j < i ==> !StartsWith(parts[j], key)
    decreases |parts|
  {
    if parts == [] then None
    else if StartsWith(parts[0], key) then
      Some(parts[0][|key|..])
    else
      var r := FirstValue(parts[1..], key);
      if r.Some? then
        var i :| 0 <= i < |parts[1..]| && StartsWith(parts[1..][i], key) && r.value == parts[1..][i][|key|..]
                 && forall j :: 0 <= j < i ==> !StartsWith(parts[1..][j], key);
        assert StartsWith(parts[i + 1], key) && r.value == parts[i + 1][|key|..];
        assert forall j :: 0 <= j < i + 1 ==> !StartsWith(parts[j], key) by {
          forall j | 0 <= j < i + 1 ensures !StartsWith(parts[j], key) {
            if j > 0 { assert parts[j] == parts[1..][j - 1]; }
          }
        }
        r
      else
        assert forall i :: 0 <= i < |parts| ==> !StartsWith(parts[i], key) by {
          forall i | 0 <= i < |parts| ensures !StartsWith(parts[i], key) {
            if i > 0 { assert parts[i] == parts[1..][i - 1]; }
          }
        }
        r
  }

  /** A part that starts with the key is found in the string the parts came from. */
  lemma {:induction false} KeyedPartIsContained(parts: seq<string>, sep: char, key: string, i: nat)
    requires i < |parts| && StartsWith(parts[i], key)
    ensures Contains(Join(parts, sep), key)
    decreases |parts|
  {
    if i == 0 {
      assert parts[0][..|key|] == key;
      ContainsAt(parts[0], key, 0);
      if |parts| > 1 {
        ContainsInConcat(parts[0], [sep] + Join(parts[1..], sep), key);
        assert parts[0] + [sep] + Join(parts[1..], sep) == parts[0] + ([sep] + Join(parts[1..], sep));
      }
    } else {
      KeyedPartIsContained(parts[1..], sep, key, i - 1);
      ContainsInConcat(parts[0] + [sep], Join(parts[1..], sep), key);
    }
  }

  /** The value the install-referrer scan extracts: none unless the string contains
      the key, otherwise the first segment starting with the key, minus the key. The
      `contains` pre-test never changes the answer: the result is the first keyed
      segment's value whenever there is one. */
  function ExtractAffiliateParam(rawReferrer: string): (r: Option<string>)
    ensures r == FirstValue(Split(rawReferrer, ParamSeparator), AffiliateKey)
  {
    if !Contains(rawReferrer, AffiliateKey) then
      var parts := Split(rawReferrer, ParamSeparator);
      assert FirstValue(parts, AffiliateKey).None? by {
        if FirstValue(parts, AffiliateKey).Some? {
          var i :| 0 <= i < |parts| && StartsWith(parts[i], AffiliateKey);
          KeyedPartIsContained(parts, ParamSeparator, AffiliateKey, i);
          JoinSplit(rawReferrer, ParamSeparator);
        }
      }
      None
    else
      FirstValue(Split(rawReferrer, ParamSeparator), AffiliateKey)
  }

  /** A referrer string built from `&`-free parameters yields the value of the first
      `insertAffiliate=` parameter. */
  lemma ExtractFromParams(params: seq<string>, k: nat, value: string)
    requires |params| >= 1
    requires forall i :: 0 <= i < |params| ==> ParamSeparator !in params[i]
    requires k < |params| && params[k] == AffiliateKey + value
    requires forall j :: 0 <= j < k ==> !StartsWith(params[j], AffiliateKey)
    ensures ExtractAffiliateParam(Join(params, ParamSeparator)) == Some(value)
  {
    SplitJoin(params, ParamSeparator);
    assert StartsWith(params[k], AffiliateKey);
    var r := FirstValue(params, AffiliateKey);
    var i :| 0 <= i < |params| && StartsWith(params[i], AffiliateKey) && r.value == params[i][|AffiliateKey|..]
             && forall j :: 0 <= j < i ==> !StartsWith(params[j], AffiliateKey);
    assert i == k;
    assert params[k][|AffiliateKey|..] == value;
  }
}
