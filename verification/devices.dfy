/** Automatic choice of an input device and sample rate in the two
    client-server front ends: every device is tried in turn at its own
    rounded default rate, then at the usual rates, and the first pair that
    opens wins. Whether a pair opens is an oracle. */
module Devices {
  import opened Common
  import Text

  /** One entry of the input-device list: its index, name and
      `default_samplerate`, which may be missing. */
  datatype Device = Device(index: int, name: string, defaultSr: Option<real>)

  /** The outcome of the search: the device index, the rate and the status
      line, or the failure message. */
  datatype Pick = Picked(index: int, sr: int, message: string) | NoneFound(message: string)

  /** The rates tried after the device's own default. */
  const StandardRates: seq<int> := [48000, 44100, 32000, 16000]

  const NoDeviceMessage: string := "どのデバイス/サンプルレートでも開けませんでした"

  /** Python's `round` on any real: nearest integer, ties to even. */
  function Round(x: real): (r: int)
    ensures (r as real) - 0.5 <= x <= (r as real) + 0.5
    ensures x == (r as real) - 0.5 || x == (r as real) + 0.5 ==> r % 2 == 0
  {
    if x >= 0.0 then RoundHalfEven(x) else -RoundHalfEven(-x)
  }

  /** `if d["default_sr"]`: present and not zero. */
  predicate HasDefault(d: Device) {
    d.defaultSr.Some? && d.defaultSr.value != 0.0
  }

  /** The candidate list before de-duplication. */
  function Candidates(d: Device): (c: seq<int>)
    ensures c == (if HasDefault(d) then [Round(d.defaultSr.value)] else []) + StandardRates
  {
    if HasDefault(d) then [Round(d.defaultSr.value)] + StandardRates else StandardRates
  }

  predicate NoDuplicates(xs: seq<int>) {
    forall i, j :: 0 <= i < j < |xs| ==> xs[i] != xs[j]
  }

  /** Reference definition of order-preserving de-duplication: the first
      occurrence of every value, in the order of the input. */
  function KeepFirst(xs: seq<int>): seq<int>
    decreases |xs|
  {
    if |xs| == 0 then []
    else
      var p := KeepFirst(xs[..|xs| - 1]);
      if xs[|xs| - 1] in p then p else p + [xs[|xs| - 1]]
  }

  /** De-duplication keeps exactly the values of the input, each once. */
  lemma {:induction false} KeepFirstSound(xs: seq<int>)
    ensures NoDuplicates(KeepFirst(xs))
    ensures forall x :: x in KeepFirst(xs) <==> x in xs
    decreases |xs|
  {
    if |xs| > 0 {
      var init := xs[..|xs| - 1];
      KeepFirstSound(init);
      assert xs == init + [xs[|xs| - 1]];
    }
  }

  /** The first value of the input stays in front. */
  lemma {:induction false} KeepFirstHead(xs: seq<int>)
    requires |xs| > 0
    ensures |KeepFirst(xs)| > 0 && KeepFirst(xs)[0] == xs[0]
    decreases |xs|
  {
    if |xs| > 1 {
      KeepFirstHead(xs[..|xs| - 1]);
      assert xs[..|xs| - 1][0] == xs[0];
    }
  }

  /** The `seen`/`sr_list` loop of `auto_pick_device_and_sr`. */
  method Dedup(cand: seq<int>) returns (rates: seq<int>)
    ensures rates == KeepFirst(cand)
    ensures NoDuplicates(rates)
    ensures forall x :: x in rates <==> x in cand
  {
    var seen: set<int> := {};
    rates := [];
    var i := 0;
    while i < |cand|
      invariant 0 <= i <= |cand|
      invariant rates == KeepFirst(cand[..i])
      invariant forall x :: x in seen <==> x in rates
    {
      var s := cand[i];
      assert cand[..i + 1][..i] == cand[..i];
      if s !in seen {
        seen := seen + {s};
        rates := rates + [s];
      }
      i := i + 1;
    }
    assert cand[..|cand|] == cand;
    KeepFirstSound(cand);
  }

  /** The rates tried on one device, in order. */
  function SampleRates(d: Device): seq<int> {
    KeepFirst(Candidates(d))
  }

  /** `xs` without the occurrences of `v`. */
  function Without(xs: seq<int>, v: int): (r: seq<int>)
    ensures forall x :: x in r <==> x in xs && x != v
  {
    if |xs| == 0 then []
    else
      var last := xs[|xs| - 1];
      Without(xs[..|xs| - 1], v) + (if last == v then [] else [last])
  }

  /** The rates tried on a device: without a usable default, the four
      standard rates in order; with one, its rounded default first and then
      the standard rates other than it, in order. */
  lemma SampleRatesShape(d: Device)
    ensures !HasDefault(d) ==> SampleRates(d) == StandardRates
    ensures HasDefault(d) ==>
              var r := Round(d.defaultSr.value);
              SampleRates(d) == [r] + Without(StandardRates, r)
  {
    if HasDefault(d) {
      DedupStandard(Round(d.defaultSr.value));
    } else {
      var k3 := KeepFirst([48000, 44100, 32000]);
      assert [48000, 44100, 32000, 16000][..3] == [48000, 44100, 32000];
      assert [48000, 44100, 32000][..2] == [48000, 44100];
      assert [48000, 44100][..1] == [48000];
      assert KeepFirst([48000]) == [48000];
      assert KeepFirst([48000, 44100]) == [48000, 44100];
      assert k3 == [48000, 44100, 32000];
    }
  }

  lemma KeepFirstSnoc(xs: seq<int>, v: int)
    ensures KeepFirst(xs + [v]) ==
              if v in KeepFirst(xs) then KeepFirst(xs) else KeepFirst(xs) + [v]
  {
    assert (xs + [v])[..|xs|] == xs;
  }

  /** De-duplicating a value followed by distinct values keeps the value
      in front and drops its later occurrence. */
  lemma {:induction false} KeepFirstFront(x: int, ys: seq<int>)
    requires NoDuplicates(ys)
    ensures KeepFirst([x] + ys) == [x] + Without(ys, x)
    decreases |ys|
  {
    if |ys| == 0 {
      assert [x] + ys == [x];
      assert [x][..0] == [];
    } else {
      var init := ys[..|ys| - 1];
      var v := ys[|ys| - 1];
      assert ys == init + [v];
      KeepFirstFront(x, init);
      FrontStep(x, init, v);
    }
  }

  /** One step of `KeepFirstFront`: appending a value not seen before. */
  lemma FrontStep(x: int, init: seq<int>, v: int)
    requires v !in init
    requires KeepFirst([x] + init) == [x] + Without(init, x)
    ensures KeepFirst([x] + (init + [v])) == [x] + Without(init + [v], x)
  {
    var a := [x] + init;
    var w := Without(init, x);
    assert [x] + (init + [v]) == a + [v];
    if v == x {
      assert KeepFirst(a + [v]) == [x] + w by {
        KeepFirstSnoc(a, v);
        SnocSeen(a, [x] + w, v);
      }
      assert Without(init + [v], x) == w by {
        WithoutSnoc(init, v, x);
      }
    } else {
      assert KeepFirst(a + [v]) == [x] + (w + [v]) by {
        KeepFirstSnoc(a, v);
        SnocNew(a, x, w, v);
      }
      assert Without(init + [v], x) == w + [v] by {
        WithoutSnoc(init, v, x);
      }
    }
  }

  lemma SnocSeen(a: seq<int>, k: seq<int>, v: int)
    requires KeepFirst(a) == k && |k| > 0 && k[0] == v
    requires KeepFirst(a + [v]) == if v in KeepFirst(a) then KeepFirst(a) else KeepFirst(a) + [v]
    ensures KeepFirst(a + [v]) == k
  {
  }

  lemma SnocNew(a: seq<int>, x: int, w: seq<int>, v: int)
    requires KeepFirst(a) == [x] + w && v != x && v !in w
    requires KeepFirst(a + [v]) == if v in KeepFirst(a) then KeepFirst(a) else KeepFirst(a) + [v]
    ensures KeepFirst(a + [v]) == [x] + (w + [v])
  {
    assert v !in [x] + w;
  }

  lemma WithoutSnoc(xs: seq<int>, v: int, x: int)
    ensures Without(xs + [v], x) == Without(xs, x) + (if v == x then [] else [v])
  {
    assert (xs + [v])[..|xs|] == xs;
  }

  lemma DedupStandard(x: int)
    ensures KeepFirst([x] + StandardRates) == [x] + Without(StandardRates, x)
  {
    KeepFirstFront(x, StandardRates);
  }

  /** No rate is tried twice, the four standard rates are always tried, and
      nothing but them and the rounded default is. */
  lemma SampleRatesDistinct(d: Device)
    ensures NoDuplicates(SampleRates(d))
    ensures forall r :: r in StandardRates ==> r in SampleRates(d)
    ensures forall r :: r in SampleRates(d) ==>
              r in StandardRates || (HasDefault(d) && r == Round(d.defaultSr.value))
  {
    KeepFirstSound(Candidates(d));
  }

  lemma {:induction false} KeepFirstLength(xs: seq<int>)
    ensures |KeepFirst(xs)| <= |xs|
    decreases |xs|
  {
    if |xs| > 0 {
      KeepFirstLength(xs[..|xs| - 1]);
    }
  }

  /** `f"[{d['index']}] {d['name']} @ {sr} Hz"`. */
  function PickedMessage(d: Device, sr: int): string {
    "[" + Text.IntToString(d.index) + "] " + d.name + " @ " + Text.IntToString(sr) + " Hz"
  }

  /** The first of `rates` that opens on the device. */
  function FirstOpen(d: Device, rates: seq<int>, opens: (int, int) -> bool): (r: Option<int>)
    ensures r.Some? ==> r.value in rates && opens(d.index, r.value)
  {
    if |rates| == 0 then None
    else if opens(d.index, rates[0]) then Some(rates[0])
    else FirstOpen(d, rates[1..], opens)
  }

  /** `FirstOpen` finds the earliest rate that opens, and fails only when
      none does. */
  lemma {:induction false} FirstOpenIsFirst(d: Device, rates: seq<int>, opens: (int, int) -> bool)
    ensures FirstOpen(d, rates, opens).None? <==>
              forall j :: 0 <= j < |rates| ==> !opens(d.index, rates[j])
    ensures FirstOpen(d, rates, opens).Some? ==>
              exists k :: 0 <= k < |rates| && rates[k] == FirstOpen(d, rates, opens).value
                && forall j :: 0 <= j < k ==> !opens(d.index, rates[j])
  {
    if |rates| > 0 && !opens(d.index, rates[0]) {
      var tail := rates[1..];
      FirstOpenIsFirst(d, tail, opens);
      assert forall j :: 1 <= j < |rates| ==> rates[j] == tail[j - 1];
      if FirstOpen(d, tail, opens).Some? {
        var k :| 0 <= k < |tail| && tail[k] == FirstOpen(d, tail, opens).value
                 && forall j :: 0 <= j < k ==> !opens(d.index, tail[j]);
        assert rates[k + 1] == tail[k];
      }
    }
  }

  /** The rates a device is tried at, in order. The front ends use
      `SampleRates`; the search below is stated for any such list. */
  type RatesOf = Device -> seq<int>

  /** Some rate of `d` opens. */
  predicate Usable(d: Device, ratesOf: RatesOf, opens: (int, int) -> bool) {
    FirstOpen(d, ratesOf(d), opens).Some?
  }

  /** The position of the first usable device, or `|devices|`. */
  function FirstUsable(devices: seq<Device>, ratesOf: RatesOf, opens: (int, int) -> bool)
    : (i: nat)
    ensures i <= |devices|
  {
    if |devices| == 0 then 0
    else if Usable(devices[0], ratesOf, opens) then 0
    else FirstUsable(devices[1..], ratesOf, opens) + 1
  }

  /** `FirstUsable` finds the earliest usable device. */
  lemma {:induction false} FirstUsableIsFirst(devices: seq<Device>, ratesOf: RatesOf,
                                              opens: (int, int) -> bool)
    ensures var i := FirstUsable(devices, ratesOf, opens);
            && (i < |devices| ==> Usable(devices[i], ratesOf, opens))
            && (forall k :: 0 <= k < i ==> !Usable(devices[k], ratesOf, opens))
  {
    if |devices| > 0 && !Usable(devices[0], ratesOf, opens) {
      var tail := devices[1..];
      FirstUsableIsFirst(tail, ratesOf, opens);
      var j := FirstUsable(tail, ratesOf, opens);
      forall k | 0 <= k < j + 1
        ensures !Usable(devices[k], ratesOf, opens)
      {
        if k > 0 {
          assert devices[k] == tail[k - 1];
        }
      }
      if j < |tail| {
        assert devices[j + 1] == tail[j];
      }
    }
  }

  /** The loop of `auto_pick_device_and_sr`: devices in list order, each at
      its rates in order; `opens(index, sr)` says whether `try_open`
      succeeds. The pick is the first usable device at its first rate that
      opens. */
  function Search(devices: seq<Device>, ratesOf: RatesOf, opens: (int, int) -> bool): (p: Pick)
    ensures var i := FirstUsable(devices, ratesOf, opens);
            && (p.NoneFound? <==> i == |devices|)
            && (p.NoneFound? ==> p.message == NoDeviceMessage)
            && (p.Picked? ==>
                  && p.index == devices[i].index
                  && FirstOpen(devices[i], ratesOf(devices[i]), opens) == Some(p.sr)
                  && p.message == PickedMessage(devices[i], p.sr))
  {
    if |devices| == 0 then NoneFound(NoDeviceMessage)
    else
      var d := devices[0];
      match FirstOpen(d, ratesOf(d), opens)
      case Some(sr) => Picked(d.index, sr, PickedMessage(d, sr))
      case None =>
        var rest := Search(devices[1..], ratesOf, opens);
        var j := FirstUsable(devices[1..], ratesOf, opens);
        assert j < |devices[1..]| ==> devices[1..][j] == devices[j + 1];
        rest
  }

  /** `auto_pick_device_and_sr` itself: the search over each device's
      de-duplicated candidate rates. */
  function AutoPick(devices: seq<Device>, opens: (int, int) -> bool): Pick {
    Search(devices, SampleRates, opens)
  }

  /** No pair of a device and one of its rates opens exactly when the search
      fails. */
  lemma SearchFails(devices: seq<Device>, ratesOf: RatesOf, opens: (int, int) -> bool)
    ensures Search(devices, ratesOf, opens).NoneFound? <==>
              forall i, j :: 0 <= i < |devices| && 0 <= j < |ratesOf(devices[i])| ==>
                !opens(devices[i].index, ratesOf(devices[i])[j])
  {
    var i := FirstUsable(devices, ratesOf, opens);
    FirstUsableIsFirst(devices, ratesOf, opens);
    if i < |devices| {
      var rates := ratesOf(devices[i]);
      FirstOpenIsFirst(devices[i], rates, opens);
      var k :| 0 <= k < |rates| && rates[k] == FirstOpen(devices[i], rates, opens).value
               && forall j :: 0 <= j < k ==> !opens(devices[i].index, rates[j]);
      assert opens(devices[i].index, rates[k]);
    } else {
      forall a, b | 0 <= a < |devices| && 0 <= b < |ratesOf(devices[a])|
        ensures !opens(devices[a].index, ratesOf(devices[a])[b])
      {
        FirstOpenIsFirst(devices[a], ratesOf(devices[a]), opens);
      }
    }
  }

  /** Every device before the one picked was tried at every rate in vain. */
  lemma SearchNothingEarlier(devices: seq<Device>, ratesOf: RatesOf, opens: (int, int) -> bool)
    ensures var i := FirstUsable(devices, ratesOf, opens);
            forall k, j :: 0 <= k < i && 0 <= j < |ratesOf(devices[k])| ==>
              !opens(devices[k].index, ratesOf(devices[k])[j])
  {
    FirstUsableIsFirst(devices, ratesOf, opens);
    var i := FirstUsable(devices, ratesOf, opens);
    forall k, j | 0 <= k < i && 0 <= j < |ratesOf(devices[k])|
      ensures !opens(devices[k].index, ratesOf(devices[k])[j])
    {
      FirstOpenIsFirst(devices[k], ratesOf(devices[k]), opens);
    }
  }
}
