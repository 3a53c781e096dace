/**
 * CourseItemEncoder.default of utils.py: the JSON encoder's fallback, which
 * writes a meeting's time as its ISO 8601 text to the second and refuses any
 * other value the encoder cannot serialise.
 */
module Encoder {
  import opened Wrappers
  import opened Text
  import opened Errors
  import opened Parsers

  /** A value the JSON encoder could not serialise by itself. */
  datatype Value = TimeValue(time: Time) | OtherValue

  /** `time.isoformat(timespec='seconds')`: "HH:MM:SS", with the seconds always zero. */
  function IsoFormat(t: Time): (s: string)
    requires ValidTime(t)
    ensures |s| == 8 && s[2] == ':' && s[5] == ':' && s[6..] == "00"
    ensures AllDigits(s[..2]) && DigitsValue(s[..2]) == t.hour
    ensures AllDigits(s[3..5]) && DigitsValue(s[3..5]) == t.minute
  {
    var h, m := TwoDigits(t.hour), TwoDigits(t.minute);
    var s := h + ":" + m + ":00";
    assert s[..2] == h && s[3..5] == m && s[6..] == "00";
    s
  }

  /** Reading "HH:MM:00" back into a time: the inverse of IsoFormat. */
  function ReadIsoTime(s: string): (r: Option<Time>)
    ensures r.Some? ==> |s| == 8
  {
    if |s| == 8 && s[2] == ':' && s[5] == ':' && s[6..] == "00" && AllDigits(s[..2]) && AllDigits(s[3..5])
    then Some(Time(DigitsValue(s[..2]), DigitsValue(s[3..5])))
    else None
  }

  /**
   * CourseItemEncoder.default: a time becomes its ISO text, which reads back as
   * the same time; anything else makes the base encoder raise TypeError.
   */
  function Default(v: Value): (r: Result<string, Fault>)
    requires v.TimeValue? ==> ValidTime(v.time)
    ensures r.Err? <==> v.OtherValue?
    ensures r.Err? ==> r.error == NotSerializable
    ensures r.Ok? ==> |r.value| == 8 && ReadIsoTime(r.value) == Some(v.time)
  {
    match v
    case TimeValue(t) => Ok(IsoFormat(t))
    case OtherValue => Err(NotSerializable)
  }

  /** Two digits that stand for n are the two digits TwoDigits writes for n. */
  lemma TwoDigitsOfValue(d: string)
    requires |d| == 2 && AllDigits(d)
    ensures DigitsValue(d) < 100 && TwoDigits(DigitsValue(d)) == d
  {
    assert d[..1][..0] == [];
    assert DigitsValue(d[..1]) == (d[0] - '0') as nat;
    var n := DigitsValue(d);
    assert n == 10 * (d[0] - '0') as nat + (d[1] - '0') as nat;
    assert n / 10 == (d[0] - '0') as nat && n % 10 == (d[1] - '0') as nat;
    var e := TwoDigits(n);
    assert e[0] == DigitChar(n / 10) && e[1] == DigitChar(n % 10);
  }

  /** Every text that reads back as a valid time is the ISO text of that time: IsoFormat is onto its readable texts. */
  lemma ReadIsoTimeExact(s: string)
    requires ReadIsoTime(s).Some? && ValidTime(ReadIsoTime(s).value)
    ensures IsoFormat(ReadIsoTime(s).value) == s
  {
    var t := ReadIsoTime(s).value;
    TwoDigitsOfValue(s[..2]);
    TwoDigitsOfValue(s[3..5]);
    var f := IsoFormat(t);
    assert f[..2] == s[..2] && f[3..5] == s[3..5] && f[6..] == s[6..];
    assert forall i :: 0 <= i < 8 ==> f[i] == s[i] by {
      forall i | 0 <= i < 8 ensures f[i] == s[i] {
        if i < 2 { assert f[..2][i] == s[..2][i]; }
        else if 3 <= i < 5 { assert f[3..5][i - 3] == s[3..5][i - 3]; }
        else if 6 <= i { assert f[6..][i - 6] == s[6..][i - 6]; }
      }
    }
  }

  /** Distinct times are written differently, so the encoded times identify the meeting times. */
  lemma IsoFormatInjective(a: Time, b: Time)
    requires ValidTime(a) && ValidTime(b) && IsoFormat(a) == IsoFormat(b)
    ensures a == b
  {
    assert ReadIsoTime(IsoFormat(a)) == Some(a);
  }
}
