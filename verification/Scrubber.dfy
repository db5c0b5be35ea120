/** Tick positions of the timelapse scrubber: in time order, on the track, and never closer than the minimum gap. */
module Scrubber {
  import opened Common

  const MIN_TICK_GAP: real := 0.02

  function MaxReal(a: real, b: real): real { if a < b then b else a }

  function MinReal(a: real, b: real): real { if a < b then a else b }

  /** The part of the track that `n` ticks a gap apart take up. */
  function Needed(gap: real, n: int): real { gap * (n - 1) as real }

  function EqualSpacing(n: nat): (s: seq<real>)
    requires n >= 2
  {
    seq(n, i requires 0 <= i < n => i as real / (n - 1) as real)
  }

  /** The forward pass: never before the raw position, never closer to the one before than the gap. */
  function Pushed(raw: seq<real>, gap: real, i: nat): real
    requires i < |raw|
  {
    if i == 0 then raw[0] else MaxReal(raw[i], Pushed(raw, gap, i - 1) + gap)
  }

  /** The backward pass: the last tick at the right end, the others no closer to the next than the gap. */
  function Pulled(out: seq<real>, gap: real, i: nat): real
    requires i < |out|
    decreases |out| - i
  {
    if i == |out| - 1 then 1.0 else MinReal(out[i], Pulled(out, gap, i + 1) - gap)
  }

  function AllPushed(raw: seq<real>, gap: real): (s: seq<real>)
    ensures |s| == |raw|
  {
    seq(|raw|, i requires 0 <= i < |raw| => Pushed(raw, gap, i))
  }

  function AllPulled(out: seq<real>, gap: real): (s: seq<real>)
    ensures |s| == |out|
  {
    seq(|out|, i requires 0 <= i < |out| => Pulled(out, gap, i))
  }

  /** What the three passes compute, the fallback to equal spacing included. */
  function Spread(raw: seq<real>, gap: real): seq<real> {
    var n := |raw|;
    if n <= 1 then raw
    else if Needed(gap, n) >= 1.0 then EqualSpacing(n)
    else
      var out := AllPushed(raw, gap);
      if out[n - 1] <= 1.0 then out
      else if AllPulled(out, gap)[0] < 0.0 then EqualSpacing(n)
      else AllPulled(out, gap)
  }

  method SpreadPositions(raw: seq<real>, gap: real) returns (positions: seq<real>)
    ensures positions == Spread(raw, gap)
  {
    hide AllPushed, AllPulled, EqualSpacing;
    var n := |raw|;
    if n <= 1 {
      return raw;
    }
    if Needed(gap, n) >= 1.0 {
      return EqualSpacing(n);
    }
    var out := new real[n];
    PushForward(out, raw, gap);
    if out[n - 1] > 1.0 {
      PullBack(out, gap);
      if out[0] < 0.0 {
        return EqualSpacing(n);
      }
    }
    return out[..];
  }

  method PushForward(out: array<real>, raw: seq<real>, gap: real)
    requires out.Length == |raw|
    modifies out
    ensures out[..] == AllPushed(raw, gap)
  {
    for i := 0 to out.Length
      invariant forall k :: 0 <= k < i ==> out[k] == Pushed(raw, gap, k)
    {
      out[i] := if i == 0 then raw[0] else MaxReal(raw[i], out[i - 1] + gap);
    }
  }

  method PullBack(out: array<real>, gap: real)
    requires out.Length > 0
    modifies out
    ensures out[..] == AllPulled(old(out[..]), gap)
  {
    ghost var pushed := out[..];
    var n := out.Length;
    out[n - 1] := 1.0;
    for i := n - 1 downto 0
      invariant forall k :: 0 <= k < i ==> out[k] == pushed[k]
      invariant forall k :: i <= k < n ==> out[k] == Pulled(pushed, gap, k)
    {
      out[i] := MinReal(out[i], out[i + 1] - gap);
    }
  }

  // --- what the positions satisfy ---

  predicate OnTrack(s: seq<real>) { forall i :: 0 <= i < |s| ==> 0.0 <= s[i] <= 1.0 }

  /** Neighbours differ by at least the gap, so ticks keep their order. */
  predicate Gapped(s: seq<real>, gap: real) { forall i :: 0 < i < |s| ==> s[i] - s[i - 1] >= gap }

  lemma MulStep(gap: real, i: nat)
    ensures gap * (i + 1) as real == gap * i as real + gap
  {
  }

  lemma {:induction false} PushedAbove(raw: seq<real>, gap: real, i: nat)
    requires i < |raw| && gap >= 0.0 && OnTrack(raw)
    ensures Pushed(raw, gap, i) >= gap * i as real
  {
    if i > 0 {
      PushedAbove(raw, gap, i - 1);
      MulStep(gap, i - 1);
    }
  }

  lemma {:induction false} PushedRises(raw: seq<real>, gap: real, i: nat, j: nat)
    requires i <= j < |raw| && gap >= 0.0
    ensures Pushed(raw, gap, i) <= Pushed(raw, gap, j)
  {
    if i < j {
      PushedRises(raw, gap, i, j - 1);
    }
  }

  /** A tick pulled back keeps room for all ticks before it, because the forward pass left it that far to the right. */
  lemma {:induction false} PulledInRange(out: seq<real>, gap: real, i: nat)
    requires i < |out| && gap >= 0.0 && (forall k: nat :: k < |out| ==> out[k] >= gap * k as real) &&
             Needed(gap, |out|) <= 1.0
    ensures gap * i as real <= Pulled(out, gap, i) <= 1.0
    decreases |out| - i
  {
    if i < |out| - 1 {
      PulledInRange(out, gap, i + 1);
      MulStep(gap, i);
    }
  }

  lemma MulNonNegative(gap: real, i: nat)
    requires gap >= 0.0
    ensures gap * i as real >= 0.0
  {
  }

  /** Every tick leaves room for the gaps of the ticks before it. */
  ghost predicate Roomy(out: seq<real>, gap: real) { forall k: nat :: k < |out| ==> out[k] >= gap * k as real }

  lemma PulledOnTrack(out: seq<real>, gap: real)
    requires out != [] && gap >= 0.0 && Roomy(out, gap) && Needed(gap, |out|) <= 1.0
    ensures OnTrack(AllPulled(out, gap)) && Gapped(AllPulled(out, gap), gap)
  {
    forall i | 0 <= i < |out| ensures 0.0 <= AllPulled(out, gap)[i] <= 1.0 {
      PulledInRange(out, gap, i);
      MulNonNegative(gap, i);
    }
  }

  lemma PushedOnTrack(raw: seq<real>, gap: real)
    requires OnTrack(raw) && gap >= 0.0 && raw != []
    ensures Roomy(AllPushed(raw, gap), gap) && Gapped(AllPushed(raw, gap), gap)
    ensures AllPushed(raw, gap)[|raw| - 1] <= 1.0 ==> OnTrack(AllPushed(raw, gap))
  {
    var out := AllPushed(raw, gap);
    forall i: nat | i < |raw| ensures out[i] >= gap * i as real && 0.0 <= out[i] <= out[|raw| - 1] {
      PushedAbove(raw, gap, i);
      MulNonNegative(gap, i);
      PushedRises(raw, gap, i, |raw| - 1);
    }
  }

  /**
   * Positions on the track come out on the track with neighbours at least the gap apart, whenever that many gaps
   * leave room; the fallback after the backward pass is never taken.
   */
  lemma SpreadKeepsGap(raw: seq<real>, gap: real)
    requires OnTrack(raw) && gap >= 0.0 && |raw| >= 2 && Needed(gap, |raw|) < 1.0
    ensures OnTrack(Spread(raw, gap)) && Gapped(Spread(raw, gap), gap) && |Spread(raw, gap)| == |raw|
    ensures AllPushed(raw, gap)[|raw| - 1] > 1.0 ==> AllPulled(AllPushed(raw, gap), gap)[0] >= 0.0
  {
    hide AllPushed, AllPulled, Gapped, Roomy, EqualSpacing, Needed;
    PushedOnTrack(raw, gap);
    PulledOnTrack(AllPushed(raw, gap), gap);
  }

  lemma RatioOnTrack(i: nat, d: nat)
    requires i <= d && d > 0
    ensures 0.0 <= i as real / d as real <= 1.0
  {
    QuotientOnTrack(i as real, d as real);
  }

  lemma RatioStep(i: nat, d: nat)
    requires d > 0 && i > 0
    ensures i as real / d as real - (i - 1) as real / d as real == 1.0 / d as real
  {
  }

  lemma EqualAt(n: nat, i: nat)
    requires n >= 2 && i < n
    ensures |EqualSpacing(n)| == n && EqualSpacing(n)[i] == i as real / (n - 1) as real
  {
  }

  lemma RatioEnds(d: nat)
    requires d > 0
    ensures 0 as real / d as real == 0.0 && d as real / d as real == 1.0
  {
  }

  lemma EqualIsSpaced(n: nat)
    requires n >= 2
    ensures var s := EqualSpacing(n);
            |s| == n && OnTrack(s) && Gapped(s, 1.0 / (n - 1) as real) && s[0] == 0.0 && s[n - 1] == 1.0
  {
    hide EqualSpacing;
    EqualAt(n, 0);
    EqualAt(n, n - 1);
    RatioEnds(n - 1);
    forall i | 0 <= i < n ensures 0.0 <= EqualSpacing(n)[i] <= 1.0 {
      EqualAt(n, i);
      RatioOnTrack(i, n - 1);
    }
    forall i | 0 < i < n ensures EqualSpacing(n)[i] - EqualSpacing(n)[i - 1] >= 1.0 / (n - 1) as real {
      EqualAt(n, i);
      EqualAt(n, i - 1);
      RatioStep(i, n - 1);
    }
  }

  /** With more ticks than gaps the ticks are equally spaced over the whole track. */
  lemma TooManyTicks(raw: seq<real>, gap: real)
    requires |raw| >= 2 && gap * (|raw| - 1) as real >= 1.0
    ensures OnTrack(Spread(raw, gap)) && Gapped(Spread(raw, gap), 1.0 / (|raw| - 1) as real) &&
            |Spread(raw, gap)| == |raw|
    ensures Spread(raw, gap)[0] == 0.0 && Spread(raw, gap)[|raw| - 1] == 1.0
  {
    hide EqualSpacing, OnTrack, Gapped;
    EqualIsSpaced(|raw|);
  }

  lemma {:induction false} GappedIsPushed(raw: seq<real>, gap: real, i: nat)
    requires Gapped(raw, gap) && i < |raw|
    ensures Pushed(raw, gap, i) == raw[i]
  {
    if i > 0 {
      GappedIsPushed(raw, gap, i - 1);
    }
  }

  /** Ticks that are far enough apart are not moved, so spreading twice is spreading once. */
  lemma SpacedIsKept(raw: seq<real>, gap: real)
    requires OnTrack(raw) && Gapped(raw, gap) && |raw| >= 2 && gap * (|raw| - 1) as real < 1.0
    ensures Spread(raw, gap) == raw
  {
    forall i | 0 <= i < |raw| ensures Pushed(raw, gap, i) == raw[i] {
      GappedIsPushed(raw, gap, i);
    }
    assert AllPushed(raw, gap) == raw;
  }

  lemma SpreadStays(s: seq<real>, gap: real)
    requires OnTrack(s) && Gapped(s, gap) && |s| >= 2 && Needed(gap, |s|) < 1.0
    ensures Spread(s, gap) == s
  {
    hide OnTrack, Gapped, Spread;
    SpacedIsKept(s, gap);
  }

  lemma SpreadIsIdempotent(raw: seq<real>, gap: real)
    requires OnTrack(raw) && gap >= 0.0
    ensures Spread(Spread(raw, gap), gap) == Spread(raw, gap)
  {
    hide OnTrack, Gapped, Needed, Spread;
    if |raw| >= 2 {
      if Needed(gap, |raw|) < 1.0 {
        SpreadKeepsGap(raw, gap);
        var s := Spread(raw, gap);
        assert |s| == |raw|;
        SpreadStays(s, gap);
      } else {
        SpreadOfMany(raw, gap);
        SpreadOfMany(EqualSpacing(|raw|), gap);
      }
    } else {
      SpreadOfFew(raw, gap);
    }
  }

  lemma SpreadOfMany(raw: seq<real>, gap: real)
    requires |raw| >= 2 && Needed(gap, |raw|) >= 1.0
    ensures Spread(raw, gap) == EqualSpacing(|raw|)
  {
  }

  lemma SpreadOfFew(raw: seq<real>, gap: real)
    requires |raw| < 2
    ensures Spread(raw, gap) == raw
  {
  }

  // --- ticks ---

  /** A stored generation; `time` is None when its capture time cannot be read. */
  datatype Generation = Generation(id: nat, time: Option<real>, rowCount: int)

  datatype Tick = Tick(id: nat, index: nat, x: real, y: real)

  function Chronological(generations: seq<Generation>): (s: seq<Generation>)
    ensures |s| == |generations|
  {
    seq(|generations|, i requires 0 <= i < |generations| => generations[|generations| - 1 - i])
  }

  function Lowest(s: seq<real>): (m: real)
    requires s != []
    ensures m in s && forall x :: x in s ==> m <= x
  {
    if |s| == 1 then s[0] else assert s == [s[0]] + s[1..]; MinReal(s[0], Lowest(s[1..]))
  }

  function Highest(s: seq<real>): (m: real)
    requires s != []
    ensures m in s && forall x :: x in s ==> x <= m
  {
    if |s| == 1 then s[0] else assert s == [s[0]] + s[1..]; MaxReal(s[0], Highest(s[1..]))
  }

  predicate AllReadable(g: seq<Generation>) { forall i :: 0 <= i < |g| ==> g[i].time.Some? }

  function Times(g: seq<Generation>): (s: seq<real>)
    requires AllReadable(g)
    ensures |s| == |g|
  {
    seq(|g|, i requires 0 <= i < |g| => g[i].time.value)
  }

  /** Positions in proportion to time, or by index when the times do not say. */
  function RawPositions(chron: seq<Generation>): (s: seq<real>)
    requires chron != []
    ensures |s| == |chron|
  {
    var n := |chron|;
    if AllReadable(chron) && Highest(Times(chron)) > Lowest(Times(chron)) then
      var lo, hi := Lowest(Times(chron)), Highest(Times(chron));
      seq(n, i requires 0 <= i < n => (Times(chron)[i] - lo) / (hi - lo))
    else if n == 1 then [0.5]
    else EqualSpacing(n)
  }

  /** The values spread over the track: the least at its start, the greatest at its end, the rest in proportion. */
  ghost predicate InProportion(values: seq<real>, shares: seq<real>) {
    |shares| == |values| &&
    exists l: nat, h: nat :: l < |values| && h < |values| && values[l] < values[h] &&
      forall i :: 0 <= i < |values| ==> IsShare(shares[i], values[i], values[l], values[h])
  }

  /** `share` is how far `v` is on the way from `lo` to `hi`. */
  predicate IsShare(share: real, v: real, lo: real, hi: real) { lo <= v <= hi && share * (hi - lo) == v - lo }

  /** Tick `i` of `n` equally spaced ones. */
  predicate IsSpaced(x: real, i: nat, n: nat) { x * (n as real - 1.0) == i as real }

  lemma {:induction false} LowestIsOne(s: seq<real>) returns (k: nat)
    requires s != []
    ensures k < |s| && s[k] == Lowest(s)
  {
    k := 0;
    if |s| > 1 {
      var m := LowestIsOne(s[1..]);
      if Lowest(s) != s[0] {
        k := m + 1;
      }
    }
  }

  lemma {:induction false} HighestIsOne(s: seq<real>) returns (k: nat)
    requires s != []
    ensures k < |s| && s[k] == Highest(s)
  {
    k := 0;
    if |s| > 1 {
      var m := HighestIsOne(s[1..]);
      if Highest(s) != s[0] {
        k := m + 1;
      }
    }
  }

  lemma SharesAreInProportion(values: seq<real>, shares: seq<real>)
    requires values != [] && |shares| == |values| && Highest(values) > Lowest(values)
    requires forall i :: 0 <= i < |values| ==> shares[i] == Share(values[i], Lowest(values), Highest(values))
    ensures InProportion(values, shares)
  {
    var l := LowestIsOne(values);
    var h := HighestIsOne(values);
    hide Share, IsShare, Lowest, Highest;
    forall i | 0 <= i < |values| ensures IsShare(shares[i], values[i], values[l], values[h]) {
      assert values[i] in values;
      ShareTimes(values[i], values[l], values[h]);
    }
  }

  function Share(v: real, lo: real, hi: real): real
    requires lo < hi
  {
    (v - lo) / (hi - lo)
  }

  lemma ShareTimes(v: real, lo: real, hi: real)
    requires lo <= v <= hi && lo < hi
    ensures IsShare(Share(v, lo, hi), v, lo, hi)
  {
    QuotientTimes(v - lo, hi - lo);
  }

  lemma QuotientTimes(a: real, b: real)
    requires b > 0.0
    ensures a / b * b == a
  {
  }

  /**
   * Before spreading, ticks stand in proportion to their times if all can be read and they are not all the same; else
   * they are equally spaced from end to end, one alone in the middle.
   */
  lemma RawPositionsAreTold(chron: seq<Generation>)
    requires chron != []
    ensures var raw, n := RawPositions(chron), |chron|;
            if AllReadable(chron) && HasTwo(Times(chron)) then InProportion(Times(chron), raw)
            else if n == 1 then raw == [0.5]
            else forall i :: 0 <= i < n ==> IsSpaced(raw[i], i, n)
  {
    var raw, n := RawPositions(chron), |chron|;
    if AllReadable(chron) {
      TwoByExtremes(Times(chron));
    }
    hide Lowest, Highest, InProportion, HasTwo;
    if AllReadable(chron) && HasTwo(Times(chron)) {
      SharesAreInProportion(Times(chron), raw);
    } else if n > 1 {
      hide IsSpaced, EqualSpacing;
      forall i | 0 <= i < n ensures IsSpaced(raw[i], i, n) {
        SpacingIsTold(i, n);
      }
    }
  }

  lemma SpacingIsTold(i: nat, n: nat)
    requires n > 1 && i < n
    ensures IsSpaced(EqualSpacing(n)[i], i, n)
  {
    QuotientTimes(i as real, (n - 1) as real);
  }

  predicate HasTwo(values: seq<real>) { exists i, j :: 0 <= i < j < |values| && values[i] != values[j] }

  lemma TwoByExtremes(values: seq<real>)
    requires values != []
    ensures HasTwo(values) <==> Highest(values) > Lowest(values)
    ensures !HasTwo(values) ==> Highest(values) == Lowest(values)
  {
    var l := LowestIsOne(values);
    var h := HighestIsOne(values);
    assert forall i :: 0 <= i < |values| ==> values[i] in values;
    if l != h && values[l] != values[h] {
      var i, j := Min(l, h), Max(l, h);
      assert values[i] != values[j];
    }
  }

  /** The height of a tick: its row count between the smallest and the largest. */
  function Height(counts: seq<real>, i: nat): real
    requires i < |counts|
  {
    var lo, hi := Lowest(counts), Highest(counts);
    if hi > lo then (counts[i] - lo) / (hi - lo) else 0.5
  }

  /** Heights are in proportion to the row counts, and in the middle if these are all the same. */
  lemma HeightsAreTold(counts: seq<real>)
    requires counts != []
    ensures var heights := seq(|counts|, i requires 0 <= i < |counts| => Height(counts, i));
            if HasTwo(counts) then InProportion(counts, heights)
            else forall i :: 0 <= i < |counts| ==> heights[i] == 0.5
  {
    TwoByExtremes(counts);
    var heights := seq(|counts|, i requires 0 <= i < |counts| => Height(counts, i));
    hide Lowest, Highest, InProportion, HasTwo;
    if HasTwo(counts) {
      SharesAreInProportion(counts, heights);
    }
  }

  function Counts(g: seq<Generation>): (s: seq<real>)
    ensures |s| == |g|
  {
    seq(|g|, i requires 0 <= i < |g| => g[i].rowCount as real)
  }

  lemma ShareOnTrack(v: real, lo: real, hi: real)
    requires lo <= v <= hi && lo < hi
    ensures 0.0 <= (v - lo) / (hi - lo) <= 1.0
  {
    QuotientOnTrack(v - lo, hi - lo);
  }

  lemma QuotientOnTrack(a: real, b: real)
    requires 0.0 <= a <= b && b > 0.0
    ensures 0.0 <= a / b <= 1.0
  {
    var q := a / b;
    assert q * b == a;
    if q > 1.0 {
      PositiveProduct(q - 1.0, b);
    }
  }

  lemma PositiveProduct(a: real, b: real)
    requires a > 0.0 && b > 0.0
    ensures a * b > 0.0
  {
  }

  lemma RawOnTrack(chron: seq<Generation>)
    requires chron != []
    ensures OnTrack(RawPositions(chron))
  {
    var raw := RawPositions(chron);
    forall i | 0 <= i < |raw| ensures 0.0 <= raw[i] <= 1.0 {
      if AllReadable(chron) && Highest(Times(chron)) > Lowest(Times(chron)) {
        assert Times(chron)[i] in Times(chron);
        ShareOnTrack(Times(chron)[i], Lowest(Times(chron)), Highest(Times(chron)));
      } else if |chron| > 1 {
        RatioOnTrack(i, |chron| - 1);
      }
    }
  }

  function ScrubberTicks(generations: seq<Generation>): (ticks: seq<Tick>)
    ensures |ticks| == |generations|
  {
    if generations == [] then []
    else
      var chron := Chronological(generations);
      var xs := Spread(RawPositions(chron), MIN_TICK_GAP);
      SpreadLength(RawPositions(chron), MIN_TICK_GAP);
      seq(|chron|, i requires 0 <= i < |chron| => Tick(chron[i].id, i, xs[i], Height(Counts(chron), i)))
  }

  lemma SpreadLength(raw: seq<real>, gap: real)
    ensures |Spread(raw, gap)| == |raw|
  {
  }

  /** Any generations at all: every tick is on the track, and up to fifty ticks keep the minimum gap. */
  lemma TicksAreApart(generations: seq<Generation>)
    ensures var ticks := ScrubberTicks(generations);
            && (forall i :: 0 <= i < |ticks| ==>
                ticks[i].index == i && 0.0 <= ticks[i].x <= 1.0 && 0.0 <= ticks[i].y <= 1.0)
            && (|ticks| <= 50 ==> forall i :: 0 < i < |ticks| ==> ticks[i].x - ticks[i - 1].x >= MIN_TICK_GAP)
            && (forall i :: 0 < i < |ticks| ==> ticks[i].x > ticks[i - 1].x)
  {
    hide Spread, RawPositions, Height, Counts;
    if generations != [] {
      var chron := Chronological(generations);
      var raw := RawPositions(chron);
      RawOnTrack(chron);
      SpreadOnTrack(raw);
      var ticks := ScrubberTicks(generations);
      var xs := Spread(raw, MIN_TICK_GAP);
      forall i | 0 <= i < |ticks| ensures ticks[i].x == xs[i] && 0.0 <= ticks[i].y <= 1.0 {
        HeightOnTrack(Counts(chron), i);
      }
    }
  }

  lemma HeightOnTrack(counts: seq<real>, i: nat)
    requires i < |counts|
    ensures 0.0 <= Height(counts, i) <= 1.0
  {
    assert counts[i] in counts;
    if Highest(counts) > Lowest(counts) {
      ShareOnTrack(counts[i], Lowest(counts), Highest(counts));
    }
  }

  lemma SpreadOnTrack(raw: seq<real>)
    requires OnTrack(raw)
    ensures var s := Spread(raw, MIN_TICK_GAP);
            && |s| == |raw| && OnTrack(s)
            && (|s| <= 50 ==> Gapped(s, MIN_TICK_GAP))
            && (forall i :: 0 < i < |s| ==> s[i] > s[i - 1])
  {
    var n := |raw|;
    if n >= 2 {
      if Needed(MIN_TICK_GAP, n) < 1.0 {
        SpreadKeepsGap(raw, MIN_TICK_GAP);
      } else {
        TooManyTicks(raw, MIN_TICK_GAP);
        assert 1.0 / (n - 1) as real > 0.0;
      }
      hide Spread;
    }
  }

  function Distance(a: real, b: real): (d: real)
    ensures d >= 0.0 && (d == a - b || d == b - a)
  {
    if a < b then b - a else a - b
  }

  /** A selectable tick no other is nearer than, and no earlier one as near. */
  predicate IsNearest(ticks: seq<Tick>, x: real, k: nat)
    requires k < |ticks|
  {
    && ticks[k].index >= 1
    && (forall j :: 0 <= j < |ticks| && ticks[j].index >= 1 ==> Distance(ticks[k].x, x) <= Distance(ticks[j].x, x))
    && (forall j :: 0 <= j < k && ticks[j].index >= 1 ==> Distance(ticks[k].x, x) < Distance(ticks[j].x, x))
  }

  /** The first of the selectable ticks that are nearest to a position; the oldest generation is not selectable. */
  method NearestStep(ticks: seq<Tick>, x: real) returns (best: Option<nat>)
    ensures best.None? <==> forall k :: 0 <= k < |ticks| ==> ticks[k].index < 1
    ensures best.Some? ==> exists k :: 0 <= k < |ticks| && ticks[k].index == best.value && IsNearest(ticks, x, k)
  {
    best := None;
    var bestDistance := 0.0;
    ghost var at := 0;
    for i := 0 to |ticks|
      invariant best.None? <==> forall k :: 0 <= k < i ==> ticks[k].index < 1
      invariant best.Some? ==> at < i && ticks[at].index == best.value >= 1 && bestDistance == Distance(ticks[at].x, x)
      invariant best.Some? ==> forall j :: 0 <= j < i && ticks[j].index >= 1 ==> bestDistance <= Distance(ticks[j].x, x)
      invariant best.Some? ==> forall j :: 0 <= j < at && ticks[j].index >= 1 ==> bestDistance < Distance(ticks[j].x, x)
    {
      if ticks[i].index < 1 {
        continue;
      }
      var d := Distance(ticks[i].x, x);
      if best.None? || d < bestDistance {
        bestDistance := d;
        best := Some(ticks[i].index);
        at := i;
      }
    }
    assert best.Some? ==> IsNearest(ticks, x, at);
  }
}
