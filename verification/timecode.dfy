/** `fmt_tc` of the desktop live client: a time in milliseconds rendered as
    `hh:mm:ss<sep>mmm`, with `sep` "," for SRT and CSV and "." for WebVTT. */
module Timecode {
  import opened Common
  import Text

  const SrtSep: string := ","
  const VttSep: string := "."

  datatype Fields = Fields(hh: nat, mm: nat, ss: nat, ms: nat)

  function Clamp(totalMs: int): nat {
    if totalMs < 0 then 0 else totalMs
  }

  /** The millisecond count the fields stand for. */
  function Total(f: Fields): nat {
    f.hh * 3600000 + f.mm * 60000 + f.ss * 1000 + f.ms
  }

  /** The three `divmod` steps, after negative times are clamped to zero. */
  function Split(totalMs: int): (f: Fields)
    ensures f.mm < 60 && f.ss < 60 && f.ms < 1000
    ensures Total(f) == Clamp(totalMs)
  {
    var t := Clamp(totalMs);
    var rem1 := t % 3600000;
    var rem2 := rem1 % 60000;
    Fields(t / 3600000, rem1 / 60000, rem2 / 1000, rem2 % 1000)
  }

  /** `int(round(max(0.0, x) * 1000))`: a time in seconds as whole
      milliseconds, rounding half to even. */
  function Millis(x: real): (ms: nat)
    ensures x <= 0.0 ==> ms == 0
    ensures x >= 0.0 ==> x * 1000.0 - 0.5 <= ms as real <= x * 1000.0 + 0.5
    ensures x >= 0.0 && (x * 1000.0 == ms as real - 0.5 || x * 1000.0 == ms as real + 0.5) ==>
              ms % 2 == 0
  {
    RoundHalfEven(if x < 0.0 then 0.0 else x * 1000.0)
  }

  /** `fmt_tc(x, sep)` for a time `x` in seconds. */
  function FmtSeconds(x: real, sep: string): string {
    FmtTc(Millis(x), sep)
  }

  /** The text of `fmt_tc` once the time is in whole milliseconds. */
  function FmtTc(totalMs: int, sep: string): string {
    var f := Split(totalMs);
    Text.PadNat(f.hh, 2) + ":" + Text.PadNat(f.mm, 2) + ":" + Text.PadNat(f.ss, 2)
    + sep + Text.PadNat(f.ms, 3)
  }

  lemma TwoDigits(n: nat)
    requires n < 100
    ensures |Text.PadNat(n, 2)| == 2
  {
    assert |Text.NatToString(n)| <= 2 by {
      ShortNat(n);
    }
  }

  lemma ThreeDigits(n: nat)
    requires n < 1000
    ensures |Text.PadNat(n, 3)| == 3
  {
    assert |Text.NatToString(n)| <= 3 by {
      ShortNat(n);
      if n >= 10 {
        ShortNat(n / 10);
      }
    }
  }

  /** A number of ten or more has one digit more than its tenth. */
  lemma ShortNat(n: nat)
    ensures n >= 10 ==> |Text.NatToString(n)| == |Text.NatToString(n / 10)| + 1
    ensures n < 10 ==> |Text.NatToString(n)| == 1
  {
  }

  /** Reads a time code back: hours are everything before the fixed-width
      tail `:mm:ss<sep>mmm`, and every field must be digits in range. */
  function ParseTc(t: string, sep: string): Option<Fields> {
    var n := |t|;
    var k := |sep|;
    if n < 11 + k then None
    else ParseParts(t[..n - 9 - k], t[n - 9 - k], t[n - 8 - k..n - 6 - k], t[n - 6 - k],
                    t[n - 5 - k..n - 3 - k], t[n - 3 - k..n - 3], t[n - 3..], sep)
  }

  function ParseParts(hh: string, c1: char, mm: string, c2: char, ss: string,
                      sepPart: string, ms: string, sep: string): Option<Fields> {
    if c1 == ':' && c2 == ':' && sepPart == sep
       && Text.IsDigits(hh) && Text.IsDigits(mm) && Text.IsDigits(ss) && Text.IsDigits(ms)
       && Text.DigitsValue(mm) < 60 && Text.DigitsValue(ss) < 60
    then Some(Fields(Text.DigitsValue(hh), Text.DigitsValue(mm), Text.DigitsValue(ss),
                     Text.DigitsValue(ms)))
    else None
  }

  /** Reading back a text assembled from digit fields of the right widths
      recovers those fields. */
  lemma ParseAssembled(h: string, m: string, c: string, sep: string, x: string)
    requires |h| >= 2 && |m| == 2 && |c| == 2 && |x| == 3
    requires Text.IsDigits(h) && Text.IsDigits(m) && Text.IsDigits(c) && Text.IsDigits(x)
    requires Text.DigitsValue(m) < 60 && Text.DigitsValue(c) < 60
    ensures ParseTc(h + ":" + m + ":" + c + sep + x, sep) ==
              Some(Fields(Text.DigitsValue(h), Text.DigitsValue(m), Text.DigitsValue(c),
                          Text.DigitsValue(x)))
  {
    var t := h + ":" + m + ":" + c + sep + x;
    AssembledSlices(h, m, c, sep, x);
    ParseSliced(t, sep, h, m, c, x);
    ParseFields(h, m, c, sep, x);
  }

  lemma ParseFields(h: string, m: string, c: string, sep: string, x: string)
    requires Text.IsDigits(h) && Text.IsDigits(m) && Text.IsDigits(c) && Text.IsDigits(x)
    requires Text.DigitsValue(m) < 60 && Text.DigitsValue(c) < 60
    ensures ParseParts(h, ':', m, ':', c, sep, x, sep) ==
              Some(Fields(Text.DigitsValue(h), Text.DigitsValue(m), Text.DigitsValue(c),
                          Text.DigitsValue(x)))
  {
  }

  lemma AssembledSlices(h: string, m: string, c: string, sep: string, x: string)
    requires |h| >= 2 && |m| == 2 && |c| == 2 && |x| == 3
    ensures var t := h + ":" + m + ":" + c + sep + x;
            var n := |t|;
            var k := |sep|;
            && n >= 11 + k
            && t[..n - 9 - k] == h && t[n - 9 - k] == ':' && t[n - 8 - k..n - 6 - k] == m
            && t[n - 6 - k] == ':' && t[n - 5 - k..n - 3 - k] == c
            && t[n - 3 - k..n - 3] == sep && t[n - 3..] == x
  {
    var t := h + ":" + m + ":" + c + sep + x;
    var n := |t|;
    var k := |sep|;
    assert t[..n - 9 - k] == h;
    assert t[n - 8 - k..n - 6 - k] == m;
    assert t[n - 5 - k..n - 3 - k] == c;
    assert t[n - 3 - k..n - 3] == sep;
    assert t[n - 3..] == x;
  }

  lemma ParseSliced(t: string, sep: string, h: string, m: string, c: string, x: string)
    requires var n := |t|;
             var k := |sep|;
             && n >= 11 + k
             && t[..n - 9 - k] == h && t[n - 9 - k] == ':' && t[n - 8 - k..n - 6 - k] == m
             && t[n - 6 - k] == ':' && t[n - 5 - k..n - 3 - k] == c
             && t[n - 3 - k..n - 3] == sep && t[n - 3..] == x
    ensures ParseTc(t, sep) == ParseParts(h, ':', m, ':', c, sep, x, sep)
  {
  }

  /** The rendering is lossless: minutes and seconds take exactly two
      digits, milliseconds three, hours at least two, and reading the text
      back gives the clamped millisecond count, whatever the separator. */
  lemma FmtTcRoundTrip(totalMs: int, sep: string)
    ensures |FmtTc(totalMs, sep)| >= 11 + |sep|
    ensures ParseTc(FmtTc(totalMs, sep), sep) == Some(Split(totalMs))
    ensures Total(ParseTc(FmtTc(totalMs, sep), sep).value) == Clamp(totalMs)
  {
    var f := Split(totalMs);
    var h, m, c, x := Text.PadNat(f.hh, 2), Text.PadNat(f.mm, 2), Text.PadNat(f.ss, 2),
                      Text.PadNat(f.ms, 3);
    TwoDigits(f.mm);
    TwoDigits(f.ss);
    ThreeDigits(f.ms);
    assert FmtTc(totalMs, sep) == h + ":" + m + ":" + c + sep + x;
    ParseAssembled(h, m, c, sep, x);
  }

  /** The SRT and WebVTT renderings of one time differ only in the
      separator before the milliseconds. */
  lemma SrtVttDiffer(totalMs: int)
    ensures |FmtTc(totalMs, SrtSep)| == |FmtTc(totalMs, VttSep)|
    ensures var a := FmtTc(totalMs, SrtSep);
            var b := FmtTc(totalMs, VttSep);
            forall i :: 0 <= i < |a| ==> (a[i] == b[i] <==> i != |a| - 4)
  {
    var f := Split(totalMs);
    var h, m, c, x := Text.PadNat(f.hh, 2), Text.PadNat(f.mm, 2), Text.PadNat(f.ss, 2),
                      Text.PadNat(f.ms, 3);
    assert |m| == 2 && |c| == 2 && |x| == 3 by {
      TwoDigits(f.mm);
      TwoDigits(f.ss);
      ThreeDigits(f.ms);
    }
    assert FmtTc(totalMs, SrtSep) == h + ":" + m + ":" + c + "," + x;
    assert FmtTc(totalMs, VttSep) == h + ":" + m + ":" + c + "." + x;
  }

  /** A time code written for a time in seconds reads back as that time
      in whole milliseconds (within half a millisecond of it, by the contract
      of `Millis`). */
  lemma FmtSecondsRoundTrip(x: real, sep: string)
    ensures ParseTc(FmtSeconds(x, sep), sep) == Some(Split(Millis(x)))
    ensures Total(ParseTc(FmtSeconds(x, sep), sep).value) == Millis(x)
  {
    FmtTcRoundTrip(Millis(x), sep);
  }
}
