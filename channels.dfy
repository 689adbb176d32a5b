/**
 Memory channels of doppler.py: picking the channel nearest to a receive
 frequency, and building the table of channels interpolated across a pass.
 */
module Channels {
  import opened DopplerMath

  /** A stored memory channel: receive and transmit frequency, in MHz. */
  datatype Channel = Channel(rx: real, tx: real)

  /** Receive and transmit Doppler shift, in Hz, at one instant of a pass. */
  datatype ShiftPair = ShiftPair(rx: real, tx: real)

  /** How far a channel's receive frequency is from `freq`; transmit is ignored. */
  function Distance(freq: real, ch: Channel): real
  {
    Abs(ch.rx - freq)
  }

  /**
   Reference definition of the channel choice: the index of the first
   channel among those at the smallest distance, or -1 when there are none.
   */
  function Nearest(freq: real, mems: seq<Channel>): (r: int)
    ensures r == -1 <==> |mems| == 0
    ensures -1 <= r < |mems|
  {
    if |mems| == 0 then -1
    else
      var b := Nearest(freq, mems[..|mems| - 1]);
      if b == -1 || Distance(freq, mems[|mems| - 1]) < Distance(freq, mems[b])
      then |mems| - 1
      else b
  }

  /** `i` is a channel at minimal distance and no earlier channel is as close. */
  predicate IsFirstNearest(freq: real, mems: seq<Channel>, i: int)
  {
    && 0 <= i < |mems|
    && (forall j :: 0 <= j < |mems| ==> Distance(freq, mems[i]) <= Distance(freq, mems[j]))
    && (forall j :: 0 <= j < i ==> Distance(freq, mems[j]) > Distance(freq, mems[i]))
  }

  /** The reference choice is the argmin that resolves ties to the lowest index. */
  lemma {:induction false} NearestIsFirstArgmin(freq: real, mems: seq<Channel>)
    requires |mems| > 0
    ensures IsFirstNearest(freq, mems, Nearest(freq, mems))
  {
    var init := mems[..|mems| - 1];
    if |init| > 0 {
      NearestIsFirstArgmin(freq, init);
    }
  }

  /**
   Scan of the memory channels keeping the best index and its distance;
   a later channel replaces the best only when strictly closer.
   */
  method BestChannel(freq: real, mems: seq<Channel>) returns (best: int)
    ensures best == Nearest(freq, mems)
    ensures best == -1 <==> |mems| == 0
    ensures |mems| > 0 ==> IsFirstNearest(freq, mems, best)
  {
    best := -1;
    var bestDiff := 0.0;
    for i := 0 to |mems|
      invariant best == Nearest(freq, mems[..i])
      invariant best != -1 ==> bestDiff == Distance(freq, mems[best])
    {
      assert mems[..i + 1][..i] == mems[..i];
      var diff := Abs(mems[i].rx - freq);
      if diff < bestDiff || best == -1 {
        best := i;
        bestDiff := diff;
      }
    }
    assert mems[..|mems|] == mems;
    if |mems| > 0 {
      NearestIsFirstArgmin(freq, mems);
    }
  }

  /**
   The two-way comparison and the channel scan agree: `f` should move from
   `fLeft` to `fRight` exactly when, with `fRight` stored first, the scan
   picks it; the scan's preference for the lower index is the comparison's
   preference for the right-hand frequency.
   */
  lemma ShouldShiftIsNearestOfTwo(f: real, fLeft: real, fRight: real, txLeft: real, txRight: real)
    ensures ShouldShiftFreqs(f, fLeft, fRight)
        <==> Nearest(f, [Channel(fRight, txRight), Channel(fLeft, txLeft)]) == 0
  {
    var mems := [Channel(fRight, txRight), Channel(fLeft, txLeft)];
    assert mems[..1] == [Channel(fRight, txRight)];
    assert mems[..1][..0] == [];
  }

  /** Shift (Hz) of table entry `k`: `start` plus `k` equal steps toward `end`. */
  function InterpolatedShift(start: real, end: real, channels: int, k: int): real
    requires channels != 1
  {
    var interval := (end - start) / (channels - 1) as real;
    start + interval * k as real
  }

  /** Entry `k` of the channel table: both frequencies shifted by the interpolated shifts. */
  function TableEntry(start: ShiftPair, end: ShiftPair, channels: int, rxFreq: real, txFreq: real, k: int): Channel
    requires channels != 1
  {
    Channel(Shifted(rxFreq, InterpolatedShift(start.rx, end.rx, channels, k)),
            Shifted(txFreq, InterpolatedShift(start.tx, end.tx, channels, k)))
  }

  /**
   Channel table for a pass whose shifts at acquisition and loss of signal
   are `start` and `end`: `channels` entries evenly spaced between them, an
   empty table for no (or a negative number of) channels, and a division by
   zero for a single channel.
   */
  method ComputeDopplerFreqs(start: ShiftPair, end: ShiftPair, channels: int, rxFreq: real, txFreq: real)
    returns (r: Result<seq<Channel>>)
    ensures r.DivisionByZero? <==> channels == 1
    ensures r.Ok? ==> |r.value| == if channels < 0 then 0 else channels
    ensures r.Ok? ==> forall k :: 0 <= k < |r.value| ==>
      r.value[k] == TableEntry(start, end, channels, rxFreq, txFreq, k)
    ensures r.Ok? && channels >= 2 ==>
      && r.value[0] == Channel(Shifted(rxFreq, start.rx), Shifted(txFreq, start.tx))
      && r.value[channels - 1] == Channel(Shifted(rxFreq, end.rx), Shifted(txFreq, end.tx))
  {
    if channels - 1 == 0 {
      return DivisionByZero;
    }
    var rxInterval := (end.rx - start.rx) / (channels - 1) as real;
    var txInterval := (end.tx - start.tx) / (channels - 1) as real;
    var mems: seq<Channel> := [];
    var interval := 0;
    while interval < channels
      invariant 0 <= interval && |mems| == interval
      invariant interval <= if channels < 0 then 0 else channels
      invariant forall k :: 0 <= k < interval ==> mems[k] == TableEntry(start, end, channels, rxFreq, txFreq, k)
    {
      var shiftRx := start.rx + rxInterval * interval as real;
      var shiftTx := start.tx + txInterval * interval as real;
      mems := mems + [Channel(rxFreq + shiftRx / HzPerMHz, txFreq + shiftTx / HzPerMHz)];
      interval := interval + 1;
    }
    if channels >= 2 {
      TableEndpoints(start, end, channels, rxFreq, txFreq);
    }
    return Ok(mems);
  }

  /** The first entry uses the start shifts and the last entry the end shifts. */
  lemma TableEndpoints(start: ShiftPair, end: ShiftPair, channels: int, rxFreq: real, txFreq: real)
    requires channels >= 2
    ensures TableEntry(start, end, channels, rxFreq, txFreq, 0)
         == Channel(Shifted(rxFreq, start.rx), Shifted(txFreq, start.tx))
    ensures TableEntry(start, end, channels, rxFreq, txFreq, channels - 1)
         == Channel(Shifted(rxFreq, end.rx), Shifted(txFreq, end.tx))
  {
    InterpolationReachesEnd(start.rx, end.rx, channels);
    InterpolationReachesEnd(start.tx, end.tx, channels);
  }

  /** Helper: `channels - 1` steps of one interval cover the whole span. */
  lemma InterpolationReachesEnd(start: real, end: real, channels: int)
    requires channels >= 2
    ensures InterpolatedShift(start, end, channels, 0) == start
    ensures InterpolatedShift(start, end, channels, channels - 1) == end
  {
    var n := (channels - 1) as real;
    assert ((end - start) / n) * n == end - start;
  }

  /**
   Neighbouring entries are one constant step apart: the span between the
   start and end frequencies divided by `channels - 1`.
   */
  lemma TableEvenlySpaced(start: ShiftPair, end: ShiftPair, channels: int, rxFreq: real, txFreq: real, k: int)
    requires channels >= 2 && 0 <= k < channels - 1
    ensures TableEntry(start, end, channels, rxFreq, txFreq, k + 1).rx
          - TableEntry(start, end, channels, rxFreq, txFreq, k).rx
         == (Shifted(rxFreq, end.rx) - Shifted(rxFreq, start.rx)) / (channels - 1) as real
    ensures TableEntry(start, end, channels, rxFreq, txFreq, k + 1).tx
          - TableEntry(start, end, channels, rxFreq, txFreq, k).tx
         == (Shifted(txFreq, end.tx) - Shifted(txFreq, start.tx)) / (channels - 1) as real
  {
    StepIsConstant(rxFreq, start.rx, end.rx, channels, k);
    StepIsConstant(txFreq, start.tx, end.tx, channels, k);
  }

  /** Helper for one of the two frequencies of `TableEvenlySpaced`. */
  lemma StepIsConstant(freq: real, start: real, end: real, channels: int, k: int)
    requires channels >= 2 && 0 <= k < channels - 1
    ensures Shifted(freq, InterpolatedShift(start, end, channels, k + 1))
          - Shifted(freq, InterpolatedShift(start, end, channels, k))
         == (Shifted(freq, end) - Shifted(freq, start)) / (channels - 1) as real
  {
    var n := (channels - 1) as real;
    var interval := (end - start) / n;
    assert InterpolatedShift(start, end, channels, k + 1) - InterpolatedShift(start, end, channels, k) == interval;
    assert Shifted(freq, end) - Shifted(freq, start) == (end - start) / HzPerMHz;
    assert interval / HzPerMHz == ((end - start) / HzPerMHz) / n;
  }

  /**
   Every entry lies between the entries for the start and the end shifts:
   the table never leaves the range the pass covers.
   */
  lemma TableWithinPass(start: ShiftPair, end: ShiftPair, channels: int, rxFreq: real, txFreq: real, k: int)
    requires channels >= 2 && 0 <= k < channels
    ensures Between(TableEntry(start, end, channels, rxFreq, txFreq, k).rx,
                    Shifted(rxFreq, start.rx), Shifted(rxFreq, end.rx))
    ensures Between(TableEntry(start, end, channels, rxFreq, txFreq, k).tx,
                    Shifted(txFreq, start.tx), Shifted(txFreq, end.tx))
  {
    InterpolationBetween(rxFreq, start.rx, end.rx, channels, k);
    InterpolationBetween(txFreq, start.tx, end.tx, channels, k);
  }

  /** `x` lies in the closed interval spanned by `a` and `b`, in either order. */
  predicate Between(x: real, a: real, b: real)
  {
    (a <= x <= b) || (b <= x <= a)
  }

  /** Helper: an interpolated shift lies between its two end points. */
  lemma InterpolationBetween(freq: real, start: real, end: real, channels: int, k: int)
    requires channels >= 2 && 0 <= k < channels
    ensures Between(Shifted(freq, InterpolatedShift(start, end, channels, k)), Shifted(freq, start), Shifted(freq, end))
  {
    var n := (channels - 1) as real;
    var interval := (end - start) / n;
    var kk := k as real;
    assert 0.0 <= kk <= n;
    assert interval * n == end - start;
    if interval >= 0.0 {
      assert interval * kk <= interval * n;
    } else {
      assert interval * kk >= interval * n;
    }
  }
}
