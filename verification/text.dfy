/** String helpers with the meaning Python gives them: decimal rendering,
    zero padding, ASCII lower-casing, `str.strip`, substring tests and the
    POSIX `os.path.splitext` / `os.path.basename`. */
module Text {

  // ---------------------------------------------------------------- digits

  predicate IsDigit(c: char) {
    '0' <= c <= '9'
  }

  predicate IsDigits(s: string) {
    forall i :: 0 <= i < |s| ==> IsDigit(s[i])
  }

  function DigitChar(d: nat): (c: char)
    requires d < 10
    ensures IsDigit(c) && c as int - '0' as int == d
  {
    "0123456789"[d]
  }

  /** The number a string of decimal digits denotes (most significant first). */
  function DigitsValue(s: string): nat
    requires IsDigits(s)
  {
    if |s| == 0 then 0
    else DigitsValue(s[..|s| - 1]) * 10 + (s[|s| - 1] as int - '0' as int)
  }

  /** `str(n)` for a natural number: shortest decimal rendering. */
  function NatToString(n: nat): (r: string)
    ensures 1 <= |r| && IsDigits(r)
    ensures DigitsValue(r) == n
    ensures |r| == 1 || r[0] != '0'
    ensures n < 10 <==> |r| == 1
  {
    if n < 10 then [DigitChar(n)]
    else
      var p := NatToString(n / 10);
      var r := p + [DigitChar(n % 10)];
      assert r[..|r| - 1] == p;
      r
  }

  /** `str(i)` for any integer. */
  function IntToString(i: int): (r: string)
    ensures 1 <= |r|
    ensures i >= 0 ==> IsDigits(r) && DigitsValue(r) == i
    ensures i < 0 ==> r[0] == '-' && IsDigits(r[1..]) && DigitsValue(r[1..]) == -i
  {
    if i < 0 then "-" + NatToString(-i) else NatToString(i)
  }

  function Zeros(k: nat): (r: string)
    ensures |r| == k && IsDigits(r)
    ensures forall i :: 0 <= i < k ==> r[i] == '0'
  {
    if k == 0 then "" else Zeros(k - 1) + "0"
  }

  lemma {:induction false} ZerosValue(k: nat)
    ensures DigitsValue(Zeros(k)) == 0
  {
    if k > 0 {
      assert Zeros(k)[..k - 1] == Zeros(k - 1);
      ZerosValue(k - 1);
    }
  }

  /** Leading zeros do not change the value of a digit string. */
  lemma {:induction false} LeadingZerosValue(k: nat, s: string)
    requires IsDigits(s)
    ensures IsDigits(Zeros(k) + s)
    ensures DigitsValue(Zeros(k) + s) == DigitsValue(s)
    decreases |s|
  {
    var t := Zeros(k) + s;
    assert IsDigits(t);
    if |s| == 0 {
      assert t == Zeros(k);
      ZerosValue(k);
    } else {
      var s' := s[..|s| - 1];
      assert t[..|t| - 1] == Zeros(k) + s';
      LeadingZerosValue(k, s');
    }
  }

  /** Python's `f"{n:0{w}d}"` for a natural number `n`. */
  function PadNat(n: nat, w: nat): (r: string)
    ensures IsDigits(r) && DigitsValue(r) == n
    ensures |r| == if |NatToString(n)| >= w then |NatToString(n)| else w
  {
    var s := NatToString(n);
    if |s| >= w then s
    else
      LeadingZerosValue(w - |s|, s);
      Zeros(w - |s|) + s
  }

  // ---------------------------------------------------------- lower / strip

  function LowerChar(c: char): char {
    if 'A' <= c <= 'Z' then (c as int + 32) as char else c
  }

  /** `str.lower()` restricted to ASCII letters. */
  function Lower(s: string): (r: string)
    ensures |r| == |s|
    ensures forall i :: 0 <= i < |s| ==> r[i] == LowerChar(s[i])
  {
    if |s| == 0 then "" else [LowerChar(s[0])] + Lower(s[1..])
  }

  /** The characters for which Python's `str.isspace()` holds. */
  predicate IsSpace(c: char) {
    ('\t' <= c <= '\r') || ('\U{1c}' <= c <= ' ')
    || c == '\U{85}' || c == '\U{a0}' || c == '\U{1680}'
    || ('\U{2000}' <= c <= '\U{200a}') || c == '\U{2028}' || c == '\U{2029}'
    || c == '\U{202f}' || c == '\U{205f}' || c == '\U{3000}'
  }

  /** The first position at or after `i` that holds no whitespace, or
      `|s|`. */
  function SkipSpace(s: string, i: nat): (k: nat)
    requires i <= |s|
    ensures i <= k <= |s|
    ensures forall j :: i <= j < k ==> IsSpace(s[j])
    ensures k < |s| ==> !IsSpace(s[k])
    decreases |s| - i
  {
    if i == |s| || !IsSpace(s[i]) then i else SkipSpace(s, i + 1)
  }

  /** The end of the last character before `j` and after `lo` that is no
      whitespace, or `lo`. */
  function BackSpace(s: string, lo: nat, j: nat): (k: nat)
    requires lo <= j <= |s|
    ensures lo <= k <= j
    ensures forall m :: k <= m < j ==> IsSpace(s[m])
    ensures k > lo ==> !IsSpace(s[k - 1])
    decreases j
  {
    if j == lo || !IsSpace(s[j - 1]) then j else BackSpace(s, lo, j - 1)
  }

  /** `str.strip()`: drops the whitespace at both ends and keeps the part in
      between, which neither starts nor ends with whitespace. */
  function Strip(s: string): (r: string)
    ensures var a := SkipSpace(s, 0);
            var b := BackSpace(s, a, |s|);
            && r == s[a..b]
            && (forall j :: 0 <= j < a ==> IsSpace(s[j]))
            && (forall j :: b <= j < |s| ==> IsSpace(s[j]))
    ensures |r| == 0 || (!IsSpace(r[0]) && !IsSpace(r[|r| - 1]))
  {
    var a := SkipSpace(s, 0);
    s[a..BackSpace(s, a, |s|)]
  }

  /** A text without whitespace at its ends is its own strip. */
  lemma StripTrimmed(t: string)
    requires |t| == 0 || (!IsSpace(t[0]) && !IsSpace(t[|t| - 1]))
    ensures Strip(t) == t
  {
    assert SkipSpace(t, 0) == 0;
    assert BackSpace(t, 0, |t|) == |t|;
    assert t[0..|t|] == t;
  }

  lemma StripIdempotent(s: string)
    ensures Strip(Strip(s)) == Strip(s)
  {
    StripTrimmed(Strip(s));
  }

  /** Nothing but whitespace, or nothing at all. */
  predicate Blank(s: string) {
    forall j :: 0 <= j < |s| ==> IsSpace(s[j])
  }

  /** Stripping leaves nothing exactly when the text is blank. */
  lemma StripBlank(s: string)
    ensures Strip(s) == "" <==> Blank(s)
  {
    var a := SkipSpace(s, 0);
    var b := BackSpace(s, a, |s|);
    if Blank(s) {
      assert a == |s|;
    }
  }

  // ------------------------------------------------------------- substrings

  predicate OccursAt(s: string, sub: string, i: int) {
    0 <= i && i + |sub| <= |s| && s[i..i + |sub|] == sub
  }

  /** Python's `sub in s`. */
  function Contains(s: string, sub: string): (r: bool)
    ensures r <==> exists i :: OccursAt(s, sub, i)
  {
    ContainsFrom(s, sub, 0)
  }

  /** `sub` occurs in `s` at or after position `i`. */
  function ContainsFrom(s: string, sub: string, i: nat): (r: bool)
    ensures r <==> exists k :: i <= k && OccursAt(s, sub, k)
    decreases |s| - i
  {
    if i + |sub| > |s| then false
    else if s[i..i + |sub|] == sub then
      assert OccursAt(s, sub, i);
      true
    else
      ContainsFrom(s, sub, i + 1)
  }

  /** Python's `"".join(parts)`. */
  function Concat(parts: seq<string>): string {
    if |parts| == 0 then "" else Concat(parts[..|parts| - 1]) + parts[|parts| - 1]
  }

  /** Python's `sep.join(parts)`. */
  function Join(sep: string, parts: seq<string>): string {
    if |parts| == 0 then ""
    else if |parts| == 1 then parts[0]
    else Join(sep, parts[..|parts| - 1]) + sep + parts[|parts| - 1]
  }

  // ------------------------------------------------------------------ paths

  /** Python's `s.rfind(c)`: the last index holding `c`, or -1. */
  function RFind(s: string, c: char): (r: int)
    ensures -1 <= r < |s|
    ensures r >= 0 ==> s[r] == c
    ensures forall k :: r < k < |s| ==> s[k] != c
  {
    if |s| == 0 then -1
    else if s[|s| - 1] == c then |s| - 1
    else RFind(s[..|s| - 1], c)
  }

  /** Every character of `p` from `lo` up to `hi` is a dot. */
  predicate AllDots(p: string, lo: int, hi: int)
    requires 0 <= lo && hi <= |p|
  {
    forall k :: lo <= k < hi ==> p[k] == '.'
  }

  /** Where the POSIX `os.path.splitext` extension of `p` starts, or `|p|`
      when there is none: the last dot of the last path component, provided
      that component has a character other than '.' before that dot (so
      ".bashrc" has no extension). */
  function ExtStart(p: string): (r: nat)
    ensures r <= |p|
    ensures r < |p| ==> p[r] == '.' && forall k :: r < k < |p| ==> p[k] != '.' && p[k] != '/'
  {
    var sep := RFind(p, '/');
    var dot := RFind(p, '.');
    if dot > sep && !AllDots(p, sep + 1, dot) then dot else |p|
  }

  /** POSIX `os.path.splitext`: root and extension. */
  function SplitExt(p: string): (r: (string, string))
    ensures r.0 + r.1 == p
    ensures r.1 == "" || (r.1[0] == '.' && '/' !in r.1 && '.' !in r.1[1..])
  {
    var i := ExtStart(p);
    assert forall k :: 0 <= k < |p| - i ==> p[i..][k] == p[i + k];
    (p[..i], p[i..])
  }

  /** A path has an extension exactly when its last component holds a dot
      preceded, within that component, by some character other than a dot. */
  lemma SplitExtFindsExtension(p: string)
    ensures SplitExt(p).1 != "" <==>
              exists j, k :: RFind(p, '/') < j < k < |p| && p[j] != '.' && p[k] == '.'
  {
    if ExtStart(p) < |p| {
      ExtensionWitness(p);
    } else {
      NoExtensionWitness(p);
    }
  }

  lemma ExtensionWitness(p: string)
    requires ExtStart(p) < |p|
    ensures exists j, k :: RFind(p, '/') < j < k < |p| && p[j] != '.' && p[k] == '.'
  {
    var sep := RFind(p, '/');
    var dot := RFind(p, '.');
    assert dot > sep && !AllDots(p, sep + 1, dot);
    var j :| sep + 1 <= j < dot && p[j] != '.';
    assert p[j] != '.' && p[dot] == '.';
  }

  lemma NoExtensionWitness(p: string)
    requires ExtStart(p) == |p|
    ensures !exists j, k :: RFind(p, '/') < j < k < |p| && p[j] != '.' && p[k] == '.'
  {
    var sep := RFind(p, '/');
    var dot := RFind(p, '.');
    forall j, k | sep < j < k < |p| && p[k] == '.'
      ensures p[j] == '.'
    {
      assert k <= dot;
      assert dot > sep && AllDots(p, sep + 1, dot);
    }
  }

  /** A position holding `c` with no `c` after it is the last one. */
  lemma RFindIs(s: string, c: char, i: int)
    requires -1 <= i < |s| && (i >= 0 ==> s[i] == c)
    requires forall k :: i < k < |s| ==> s[k] != c
    ensures RFind(s, c) == i
  {
  }

  /** The last `c` of `a + b` lies in `a` when `b` holds none. */
  lemma RFindAppend(a: string, b: string, c: char)
    requires c !in b
    ensures RFind(a + b, c) == RFind(a, c)
  {
    var y := RFind(a, c);
    var p := a + b;
    forall k | y < k < |p|
      ensures p[k] != c
    {
      if k >= |a| {
        assert p[k] == b[k - |a|];
      }
    }
    RFindIs(p, c, y);
  }

  /** The last component of `p` has a character other than a dot. */
  predicate HasStem(p: string) {
    exists k :: RFind(p, '/') < k < |p| && p[k] != '.'
  }

  /** Appending an extension to a path whose last component has a
      character other than a dot: splitting gives both parts back. */
  lemma SplitExtAppend(base: string, ext: string)
    requires |ext| >= 1 && ext[0] == '.' && '/' !in ext
    requires forall k :: 1 <= k < |ext| ==> ext[k] != '.'
    requires HasStem(base)
    ensures SplitExt(base + ext) == (base, ext)
  {
    var p := base + ext;
    RFindAppend(base, ext, '/');
    assert forall k :: |base| < k < |p| ==> p[k] != '.' by {
      forall k | |base| < k < |p|
        ensures p[k] != '.'
      {
        assert p[k] == ext[k - |base|];
      }
    }
    RFindIs(p, '.', |base|);
    var sep := RFind(base, '/');
    var k :| sep < k < |base| && base[k] != '.';
    assert p[k] != '.';
    assert !AllDots(p, sep + 1, |base|);
    assert ExtStart(p) == |base|;
  }

  /** POSIX `os.path.basename`: everything after the last '/'. */
  function Basename(p: string): (r: string)
    ensures '/' !in r
    ensures |r| <= |p| && r == p[|p| - |r|..]
    ensures |r| < |p| ==> p[|p| - |r| - 1] == '/'
  {
    p[RFind(p, '/') + 1..]
  }
}
