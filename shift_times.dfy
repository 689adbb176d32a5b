/**
 Channel switch times of doppler.py: walking a pass second by second and
 recording a switch whenever the nearest memory channel changes, until the
 last channel has been reached. The per-second Doppler shifts, which the
 source obtains from the orbit library, are given as a sequence indexed by
 the second of the pass.
 */
module ShiftTimes {
  import opened DopplerMath
  import opened Channels

  /** A recommended switch: the channel, the second of the pass, and the shifted frequencies (MHz). */
  datatype Switch = Switch(channel: int, second: nat, rx: real, tx: real)

  /** What the scan carries from one second to the next. */
  datatype ScanState = ScanState(curr: int, switches: seq<Switch>)

  /** Channel of the latest switch, -1 before the first. */
  function LastChannel(switches: seq<Switch>): int
  {
    if |switches| == 0 then -1 else switches[|switches| - 1].channel
  }

  /** One second of the scan: switch when not on the last channel and a different one is nearest. */
  function Step(st: ScanState, second: nat, shift: ShiftPair, mems: seq<Channel>, rxFreq: real, txFreq: real): ScanState
  {
    var shiftedRx := Shifted(rxFreq, shift.rx);
    var shiftedTx := Shifted(txFreq, shift.tx);
    var best := Nearest(shiftedRx, mems);
    if st.curr < |mems| - 1 && st.curr != best
    then ScanState(best, st.switches + [Switch(best, second, shiftedRx, shiftedTx)])
    else st
  }

  /** Reference definition: the scan over all seconds, starting on no channel. */
  function Scan(shifts: seq<ShiftPair>, mems: seq<Channel>, rxFreq: real, txFreq: real): ScanState
  {
    if |shifts| == 0 then ScanState(-1, [])
    else
      var n := |shifts| - 1;
      Step(Scan(shifts[..n], mems, rxFreq, txFreq), n, shifts[n], mems, rxFreq, txFreq)
  }

  /** The switch list the scan produces. */
  function Schedule(shifts: seq<ShiftPair>, mems: seq<Channel>, rxFreq: real, txFreq: real): seq<Switch>
  {
    Scan(shifts, mems, rxFreq, txFreq).switches
  }

  /**
   What a switch list promises: each switch names a valid channel, the one
   nearest to the shifted receive frequency of its second; the seconds are
   strictly increasing and within the pass; consecutive switches change the
   channel; and nothing follows a switch to the last channel.
   */
  predicate WellFormed(switches: seq<Switch>, shifts: seq<ShiftPair>, mems: seq<Channel>, rxFreq: real, txFreq: real)
  {
    && (forall k :: 0 <= k < |switches| ==> SwitchAgrees(switches[k], shifts, mems, rxFreq, txFreq))
    && (forall k :: 0 <= k < |switches| - 1 ==> switches[k].second < switches[k + 1].second)
    && (forall k :: 0 <= k < |switches| - 1 ==> switches[k].channel != switches[k + 1].channel)
    && (forall k :: 0 <= k < |switches| - 1 ==> switches[k].channel != |mems| - 1)
  }

  /** One switch: its second is in the pass and it records that second's nearest channel. */
  predicate SwitchAgrees(sw: Switch, shifts: seq<ShiftPair>, mems: seq<Channel>, rxFreq: real, txFreq: real)
  {
    && sw.second < |shifts|
    && 0 <= sw.channel < |mems|
    && sw.rx == Shifted(rxFreq, shifts[sw.second].rx)
    && sw.tx == Shifted(txFreq, shifts[sw.second].tx)
    && sw.channel == Nearest(sw.rx, mems)
  }

  /**
   The scan's invariant: the current channel is that of the latest switch,
   and the switch list is well formed.
   */
  lemma {:induction false} ScanIsWellFormed(shifts: seq<ShiftPair>, mems: seq<Channel>, rxFreq: real, txFreq: real)
    ensures Scan(shifts, mems, rxFreq, txFreq).curr == LastChannel(Schedule(shifts, mems, rxFreq, txFreq))
    ensures WellFormed(Schedule(shifts, mems, rxFreq, txFreq), shifts, mems, rxFreq, txFreq)
  {
    if |shifts| > 0 {
      var n := |shifts| - 1;
      var prev := Scan(shifts[..n], mems, rxFreq, txFreq);
      ScanIsWellFormed(shifts[..n], mems, rxFreq, txFreq);
      var sw := prev.switches;
      forall k | 0 <= k < |sw|
        ensures SwitchAgrees(sw[k], shifts, mems, rxFreq, txFreq) && sw[k].second < n
      {
        AgreesInLongerPass(sw[k], shifts, n, mems, rxFreq, txFreq);
      }
      StepKeepsWellFormed(prev, shifts, mems, rxFreq, txFreq);
    }
  }

  /** Helper: a switch that agrees with a prefix of the pass agrees with the whole pass. */
  lemma AgreesInLongerPass(sw: Switch, shifts: seq<ShiftPair>, n: nat, mems: seq<Channel>, rxFreq: real, txFreq: real)
    requires n <= |shifts| && SwitchAgrees(sw, shifts[..n], mems, rxFreq, txFreq)
    ensures SwitchAgrees(sw, shifts, mems, rxFreq, txFreq) && sw.second < n
  {
    assert shifts[..n][sw.second] == shifts[sw.second];
  }

  /** Helper: the last second of the pass keeps the scan's invariant. */
  lemma StepKeepsWellFormed(prev: ScanState, shifts: seq<ShiftPair>, mems: seq<Channel>, rxFreq: real, txFreq: real)
    requires |shifts| > 0
    requires prev.curr == LastChannel(prev.switches)
    requires WellFormed(prev.switches, shifts, mems, rxFreq, txFreq)
    requires forall k :: 0 <= k < |prev.switches| ==> prev.switches[k].second < |shifts| - 1
    ensures var st := Step(prev, |shifts| - 1, shifts[|shifts| - 1], mems, rxFreq, txFreq);
      st.curr == LastChannel(st.switches) && WellFormed(st.switches, shifts, mems, rxFreq, txFreq)
  {
    var n := |shifts| - 1;
    var rx := Shifted(rxFreq, shifts[n].rx);
    var tx := Shifted(txFreq, shifts[n].tx);
    var best := Nearest(rx, mems);
    if prev.curr < |mems| - 1 && prev.curr != best {
      var s := Switch(best, n, rx, tx);
      assert SwitchAgrees(s, shifts, mems, rxFreq, txFreq);
      AppendKeepsWellFormed(prev.switches, s, shifts, mems, rxFreq, txFreq);
    }
  }

  /** Helper: appending a later switch to a different channel, not after the last channel, keeps a list well formed. */
  lemma AppendKeepsWellFormed(sw: seq<Switch>, s: Switch, shifts: seq<ShiftPair>, mems: seq<Channel>, rxFreq: real, txFreq: real)
    requires WellFormed(sw, shifts, mems, rxFreq, txFreq)
    requires SwitchAgrees(s, shifts, mems, rxFreq, txFreq)
    requires forall k :: 0 <= k < |sw| ==> sw[k].second < s.second
    requires |sw| > 0 ==> LastChannel(sw) != s.channel && LastChannel(sw) != |mems| - 1
    ensures WellFormed(sw + [s], shifts, mems, rxFreq, txFreq)
  {
    var all := sw + [s];
    assert forall k :: 0 <= k < |sw| ==> all[k] == sw[k];
    assert all[|sw|] == s;
  }

  /**
   Each recorded switch names the channel nearest to the shifted receive
   frequency of its second, the lowest-numbered one among equally near.
   */
  lemma ScheduleChoosesNearest(shifts: seq<ShiftPair>, mems: seq<Channel>, rxFreq: real, txFreq: real, k: nat)
    requires k < |Schedule(shifts, mems, rxFreq, txFreq)|
    ensures var sw := Schedule(shifts, mems, rxFreq, txFreq)[k];
      && sw.second < |shifts|
      && sw.rx == Shifted(rxFreq, shifts[sw.second].rx)
      && IsFirstNearest(sw.rx, mems, sw.channel)
  {
    ScanIsWellFormed(shifts, mems, rxFreq, txFreq);
    var sw := Schedule(shifts, mems, rxFreq, txFreq)[k];
    assert SwitchAgrees(sw, shifts, mems, rxFreq, txFreq);
    NearestIsFirstArgmin(sw.rx, mems);
  }

  /** With no memory channels there is never a switch. */
  lemma {:induction false} NoChannelsNoSwitches(shifts: seq<ShiftPair>, rxFreq: real, txFreq: real)
    ensures Schedule(shifts, [], rxFreq, txFreq) == []
  {
    if |shifts| > 0 {
      NoChannelsNoSwitches(shifts[..|shifts| - 1], rxFreq, txFreq);
    }
  }

  /** Switches once recorded stay: the schedule of a prefix of the pass is a prefix of the schedule. */
  lemma {:induction false} ScheduleGrows(shifts: seq<ShiftPair>, t: nat, mems: seq<Channel>, rxFreq: real, txFreq: real)
    requires t <= |shifts|
    ensures Schedule(shifts[..t], mems, rxFreq, txFreq) <= Schedule(shifts, mems, rxFreq, txFreq)
  {
    if t < |shifts| {
      var n := |shifts| - 1;
      assert shifts[..n][..t] == shifts[..t];
      ScheduleGrows(shifts[..n], t, mems, rxFreq, txFreq);
    } else {
      assert shifts[..t] == shifts;
    }
  }

  /** With at least one channel, the first second of the pass always records a switch. */
  lemma FirstSecondSwitches(shifts: seq<ShiftPair>, mems: seq<Channel>, rxFreq: real, txFreq: real)
    requires |shifts| > 0 && |mems| > 0
    ensures |Schedule(shifts, mems, rxFreq, txFreq)| > 0
    ensures Schedule(shifts, mems, rxFreq, txFreq)[0].second == 0
  {
    ScheduleGrows(shifts, 1, mems, rxFreq, txFreq);
    var first := shifts[..1];
    assert first[..0] == [];
    assert Scan(first[..0], mems, rxFreq, txFreq) == ScanState(-1, []);
    assert Nearest(Shifted(rxFreq, first[0].rx), mems) != -1;
    assert |Schedule(first, mems, rxFreq, txFreq)| == 1;
  }

  /**
   After every second the scan is on the channel nearest to that second's
   frequency, unless it has already reached the last channel.
   */
  lemma TracksNearest(shifts: seq<ShiftPair>, mems: seq<Channel>, rxFreq: real, txFreq: real)
    requires |shifts| > 0 && |mems| > 0
    ensures var curr := Scan(shifts, mems, rxFreq, txFreq).curr;
      curr == |mems| - 1 || curr == Nearest(Shifted(rxFreq, shifts[|shifts| - 1].rx), mems)
  {
    var n := |shifts| - 1;
    ScanIsWellFormed(shifts[..n], mems, rxFreq, txFreq);
  }

  /**
   Walks the seconds of the pass, choosing the nearest channel each second
   and recording a switch whenever it differs from the current one, for as
   long as the current channel is not the last.
   */
  method ComputeShiftTimes(shifts: seq<ShiftPair>, mems: seq<Channel>, rxFreq: real, txFreq: real)
    returns (switchTimes: seq<Switch>)
    ensures switchTimes == Schedule(shifts, mems, rxFreq, txFreq)
    ensures WellFormed(switchTimes, shifts, mems, rxFreq, txFreq)
    ensures |mems| == 0 ==> switchTimes == []
    ensures |mems| > 0 && |shifts| > 0 ==> |switchTimes| > 0 && switchTimes[0].second == 0
  {
    switchTimes := [];
    var currMem := -1;
    for i := 0 to |shifts|
      invariant Scan(shifts[..i], mems, rxFreq, txFreq) == ScanState(currMem, switchTimes)
    {
      assert shifts[..i + 1][..i] == shifts[..i];
      var shiftedRx := rxFreq + shifts[i].rx / HzPerMHz;
      var shiftedTx := txFreq + shifts[i].tx / HzPerMHz;
      var bestMem := BestChannel(shiftedRx, mems);
      if currMem < |mems| - 1 && currMem != bestMem {
        currMem := bestMem;
        switchTimes := switchTimes + [Switch(currMem, i, shiftedRx, shiftedTx)];
      }
    }
    assert shifts[..|shifts|] == shifts;
    ScanIsWellFormed(shifts, mems, rxFreq, txFreq);
    if |mems| == 0 {
      NoChannelsNoSwitches(shifts, rxFreq, txFreq);
    } else if |shifts| > 0 {
      FirstSecondSwitches(shifts, mems, rxFreq, txFreq);
    }
  }
}
