/**
 * The streaming capture of linearPiezoSweepStreaming.py: the time-unit lookup,
 * the capture sizing, the driver callback that copies each freshly delivered
 * window of the two registered channel buffers into the two complete buffers,
 * and the polling loop around it.
 *
 * The oscilloscope driver is opaque.  It is represented by a finite script of
 * per-poll events: either nothing is ready, or the driver writes a window of
 * new samples for each channel into the registered buffers and calls the
 * callback with `(noOfSamples, startIndex, autoStop)`.
 */
module StreamingCapture {
  import opened Wrappers

  /** Samples are stored as `np.int16`. */
  newtype int16 = x: int | -0x8000 <= x < 0x8000

  // ---------------------------------------------------------------- time units

  /** `getTimeUnitFactor` raises `ValueError` for an enum outside 0..5. */
  datatype TimeUnitError = InvalidTimeUnit

  /** The driver's time-unit enum value for microseconds, the unit the capture uses. */
  const MicrosecondsUnit: int := 3

  /**
   * `getTimeUnitFactor`, as the power of ten that the factor is: the table
   * [1e-15, 1e-12, 1e-9, 1e-6, 1e-3, 1] is 10 to the power 3 * e - 15, from
   * femtoseconds (e = 0) up to seconds (e = 5).
   */
  function TimeUnitExponent(timeEnum: int): (r: Result<int, TimeUnitError>)
    ensures r.Success? <==> 0 <= timeEnum <= 5
    ensures r.Success? ==> r.value == 3 * timeEnum - 15 && -15 <= r.value <= 0
    ensures r.Failure? ==> r.error == InvalidTimeUnit
  {
    if timeEnum <= 5 && timeEnum >= 0 then
      Success([-15, -12, -9, -6, -3, 0][timeEnum])
    else
      Failure(InvalidTimeUnit)
  }

  /** The capture's sample interval is in microseconds, a factor of 1e-6. */
  lemma MicrosecondsFactor()
    ensures TimeUnitExponent(MicrosecondsUnit) == Success(-6)
  {
  }

  // ------------------------------------------------------------ capture sizing

  /** Samples the driver delivers per callback at most, and the length of each registered buffer. */
  const SizeOfOneBuffer: nat := 500
  /** How many such buffers make up the whole capture. */
  const NumBuffersToCapture: nat := 5000

  // ------------------------------------------------------------ driver script

  /**
   * What one call of `ps5000aGetStreamingLatestValues` does: nothing is
   * ready, or the driver writes `samplesC` and `samplesD` into the registered
   * buffers at `startIndex` and then calls back.
   */
  datatype Event =
    | NoData
    | Ready(noOfSamples: nat, startIndex: nat, autoStop: bool, samplesC: seq<int16>, samplesD: seq<int16>)
  {
    /** Samples this event moves into the complete buffers. */
    function Count(): nat {
      if Ready? then noOfSamples else 0
    }

    /** The channel-C window this event delivers. */
    function WindowC(): seq<int16> {
      if Ready? then samplesC else []
    }

    /** The channel-D window this event delivers. */
    function WindowD(): seq<int16> {
      if Ready? then samplesD else []
    }

    /** This event carries the auto-stop flag. */
    predicate Stops() {
      Ready? && autoStop
    }

    /** Each channel's window is as long as the advertised sample count. */
    predicate WindowsMatch() {
      Ready? ==> |samplesC| == noOfSamples && |samplesD| == noOfSamples
    }
  }

  /** An event the unguarded slice copies can handle with the cursor at `cursor`. */
  predicate EventFits(e: Event, cursor: nat, total: nat, size: nat) {
    e.Ready? ==>
      cursor + e.noOfSamples <= total && e.startIndex + e.noOfSamples <= size && e.WindowsMatch()
  }

  /**
   * Every event the polling loop would actually consume fits, when it starts
   * with the cursor at `cursor0` and the auto-stop latch at `stopped0`: the
   * event at index k is consumed exactly when, after the first k events, the
   * cursor is still short of `total` and auto-stop is not latched.  Events
   * after the loop has stopped are never delivered and are not constrained.
   */
  predicate Fits(script: seq<Event>, cursor0: nat, stopped0: bool, total: nat, size: nat) {
    forall k ::
      (0 <= k < |script| && cursor0 + SamplesDelivered(script[..k]) < total &&
       !stopped0 && !AutoStopSeen(script[..k])) ==>
        EventFits(script[k], cursor0 + SamplesDelivered(script[..k]), total, size)
  }

  /** Total number of samples delivered by the events of `script`. */
  function SamplesDelivered(script: seq<Event>): nat {
    if script == [] then 0
    else SamplesDelivered(script[..|script| - 1]) + script[|script| - 1].Count()
  }

  /** Some event of `script` carried the auto-stop flag. */
  predicate AutoStopSeen(script: seq<Event>) {
    script != [] && (AutoStopSeen(script[..|script| - 1]) || script[|script| - 1].Stops())
  }

  /** The channel-C windows of `script`, concatenated in delivery order. */
  function DeliveredC(script: seq<Event>): seq<int16> {
    if script == [] then []
    else DeliveredC(script[..|script| - 1]) + script[|script| - 1].WindowC()
  }

  /** The channel-D windows of `script`, concatenated in delivery order. */
  function DeliveredD(script: seq<Event>): seq<int16> {
    if script == [] then []
    else DeliveredD(script[..|script| - 1]) + script[|script| - 1].WindowD()
  }

  /**
   * The loop condition held before each of the first `ticks` polls: the
   * cursor was short of `total` and no auto-stop had been latched.
   */
  predicate PolledWhileOpen(script: seq<Event>, ticks: nat, cursor0: nat, stopped0: bool, total: nat)
    requires ticks <= |script|
  {
    forall k :: 0 <= k < ticks ==>
      cursor0 + SamplesDelivered(script[..k]) < total && !stopped0 && !AutoStopSeen(script[..k])
  }

  /** Every event of `script` has one window per channel of the advertised length. */
  predicate WellFormed(script: seq<Event>) {
    forall i :: 0 <= i < |script| ==> script[i].WindowsMatch()
  }

  /** Every entry of `a` from index `from` on is 0, as `np.zeros` leaves it. */
  ghost predicate ZeroFrom(a: array<int16>, from: nat)
    reads a
  {
    forall i :: from <= i < a.Length ==> a[i] == 0
  }

  /**
   * The numpy slice assignment `dst[lo:hi] = src`, for a source exactly as
   * long as the destination slice: the window is replaced, the rest stays.
   */
  method AssignSlice(dst: array<int16>, lo: nat, hi: nat, src: seq<int16>)
    requires lo <= hi <= dst.Length && |src| == hi - lo
    modifies dst
    ensures dst[..] == old(dst[..lo]) + src + old(dst[hi..])
  {
    forall i | lo <= i < hi {
      dst[i] := src[i - lo];
    }
    assert dst[..] == old(dst[..lo]) + src + old(dst[hi..]) by {
      forall i | 0 <= i < dst.Length
        ensures dst[..][i] == (old(dst[..lo]) + src + old(dst[hi..]))[i]
      {
      }
    }
  }

  // ------------------------------------------------------------- the session

  /**
   * The capture's module-level state: the two registered buffers the driver
   * writes into, the two complete buffers, the write cursor `nextSample`,
   * the latched `autoStopOuter` and the per-poll `wasCalledBack`.
   */
  class StreamingSession {
    const sizeOfOneBuffer: nat
    const numBuffersToCapture: nat
    const totalSamples: nat
    const bufferCMax: array<int16>
    const bufferDMax: array<int16>
    const bufferCompleteC: array<int16>
    const bufferCompleteD: array<int16>
    var nextSample: nat
    var autoStopOuter: bool
    var wasCalledBack: bool

    /**
     * Sizes as allocated, four distinct arrays, the cursor within the
     * complete buffers and nothing written at or beyond it.
     */
    ghost predicate Valid()
      reads this, bufferCompleteC, bufferCompleteD
    {
      totalSamples == sizeOfOneBuffer * numBuffersToCapture &&
      bufferCMax.Length == sizeOfOneBuffer && bufferDMax.Length == sizeOfOneBuffer &&
      bufferCompleteC.Length == totalSamples && bufferCompleteD.Length == totalSamples &&
      bufferCMax != bufferDMax && bufferCompleteC != bufferCompleteD &&
      bufferCMax != bufferCompleteC && bufferCMax != bufferCompleteD &&
      bufferDMax != bufferCompleteC && bufferDMax != bufferCompleteD &&
      nextSample <= totalSamples &&
      ZeroFrom(bufferCompleteC, nextSample) && ZeroFrom(bufferCompleteD, nextSample)
    }

    /** The filled prefix of the complete channel-C buffer. */
    ghost function FilledC(): seq<int16>
      reads this`nextSample, bufferCompleteC
      requires nextSample <= bufferCompleteC.Length
    {
      bufferCompleteC[..nextSample]
    }

    /** The filled prefix of the complete channel-D buffer. */
    ghost function FilledD(): seq<int16>
      reads this`nextSample, bufferCompleteD
      requires nextSample <= bufferCompleteD.Length
    {
      bufferCompleteD[..nextSample]
    }

    /**
     * The capture sizing and the buffers: `totalSamples` is the buffer size
     * times the buffer count, the registered buffers hold one buffer, the
     * complete buffers the whole capture, all zeroed, and the cursor and
     * both flags start cleared.
     */
    constructor (sizeOfOneBuffer: nat, numBuffersToCapture: nat)
      ensures Valid()
      ensures this.sizeOfOneBuffer == sizeOfOneBuffer && this.numBuffersToCapture == numBuffersToCapture
      ensures totalSamples == sizeOfOneBuffer * numBuffersToCapture
      ensures fresh(bufferCMax) && fresh(bufferDMax) && fresh(bufferCompleteC) && fresh(bufferCompleteD)
      ensures ZeroFrom(bufferCMax, 0) && ZeroFrom(bufferDMax, 0)
      ensures ZeroFrom(bufferCompleteC, 0) && ZeroFrom(bufferCompleteD, 0)
      ensures nextSample == 0 && !autoStopOuter && !wasCalledBack
      ensures FilledC() == [] && FilledD() == []
    {
      this.sizeOfOneBuffer := sizeOfOneBuffer;
      this.numBuffersToCapture := numBuffersToCapture;
      var total := sizeOfOneBuffer * numBuffersToCapture;
      totalSamples := total;
      bufferCMax := new int16[sizeOfOneBuffer](_ => 0);
      bufferDMax := new int16[sizeOfOneBuffer](_ => 0);
      bufferCompleteC := new int16[total](_ => 0);
      bufferCompleteD := new int16[total](_ => 0);
      nextSample := 0;
      autoStopOuter := false;
      wasCalledBack := false;
    }

    /**
     * `streaming_callback`: copy `noOfSamples` samples of each registered
     * buffer from `startIndex` into the complete buffer at the cursor, move
     * the cursor past them, note the call, and latch auto-stop.  The source
     * does not check bounds; the two `requires` on the windows are the
     * conditions under which its slice copies are what they mean.
     */
    method StreamingCallback(noOfSamples: nat, startIndex: nat, autoStop: bool)
      requires Valid()
      requires nextSample + noOfSamples <= totalSamples
      requires startIndex + noOfSamples <= sizeOfOneBuffer
      modifies this, bufferCompleteC, bufferCompleteD
      ensures Valid()
      ensures wasCalledBack
      ensures nextSample == old(nextSample) + noOfSamples
      ensures autoStopOuter == (old(autoStopOuter) || autoStop)
      ensures bufferCompleteC[..] == old(bufferCompleteC[..nextSample]) +
        bufferCMax[startIndex..startIndex + noOfSamples] + old(bufferCompleteC[nextSample + noOfSamples..])
      ensures bufferCompleteD[..] == old(bufferCompleteD[..nextSample]) +
        bufferDMax[startIndex..startIndex + noOfSamples] + old(bufferCompleteD[nextSample + noOfSamples..])
      ensures FilledC() == old(FilledC()) + bufferCMax[startIndex..startIndex + noOfSamples]
      ensures FilledD() == old(FilledD()) + bufferDMax[startIndex..startIndex + noOfSamples]
      ensures unchanged(bufferCMax, bufferDMax)
    {
      wasCalledBack := true;
      var destEnd := nextSample + noOfSamples;
      var sourceEnd := startIndex + noOfSamples;
      AssignSlice(bufferCompleteC, nextSample, destEnd, bufferCMax[startIndex..sourceEnd]);
      AssignSlice(bufferCompleteD, nextSample, destEnd, bufferDMax[startIndex..sourceEnd]);
      nextSample := nextSample + noOfSamples;
      if autoStop {
        autoStopOuter := true;
      }
    }

    /**
     * One call of `ps5000aGetStreamingLatestValues`, scripted by `e`: either
     * nothing happens, or the driver writes the new windows into the
     * registered buffers and runs the callback.
     */
    method GetStreamingLatestValues(e: Event)
      requires Valid()
      requires EventFits(e, nextSample, totalSamples, sizeOfOneBuffer)
      modifies this, bufferCMax, bufferDMax, bufferCompleteC, bufferCompleteD
      ensures Valid()
      ensures wasCalledBack == (old(wasCalledBack) || e.Ready?)
      ensures nextSample == old(nextSample) + e.Count()
      ensures autoStopOuter == (old(autoStopOuter) || e.Stops())
      ensures FilledC() == old(FilledC()) + e.WindowC()
      ensures FilledD() == old(FilledD()) + e.WindowD()
      ensures e.Ready? ==> bufferCMax[e.startIndex..e.startIndex + e.noOfSamples] == e.samplesC
      ensures e.Ready? ==> bufferDMax[e.startIndex..e.startIndex + e.noOfSamples] == e.samplesD
      ensures e.NoData? ==> unchanged(bufferCMax, bufferDMax, bufferCompleteC, bufferCompleteD)
    {
      match e
      case NoData =>
      case Ready(n, start, autoStop, samplesC, samplesD) =>
        AssignSlice(bufferCMax, start, start + n, samplesC);
        AssignSlice(bufferDMax, start, start + n, samplesD);
        assert bufferCMax[start..start + n] == samplesC;
        assert bufferDMax[start..start + n] == samplesD;
        StreamingCallback(n, start, autoStop);
    }

    /**
     * One pass of the polling loop's body: clear `wasCalledBack`, poll the
     * driver, and (when nothing arrived) back off.
     */
    method PollOnce(e: Event)
      requires Valid()
      requires EventFits(e, nextSample, totalSamples, sizeOfOneBuffer)
      modifies this, bufferCMax, bufferDMax, bufferCompleteC, bufferCompleteD
      ensures Valid()
      ensures wasCalledBack == e.Ready?
      ensures nextSample == old(nextSample) + e.Count()
      ensures autoStopOuter == (old(autoStopOuter) || e.Stops())
      ensures FilledC() == old(FilledC()) + e.WindowC()
      ensures FilledD() == old(FilledD()) + e.WindowD()
    {
      wasCalledBack := false;
      GetStreamingLatestValues(e);
      if !wasCalledBack {
        // The source sleeps briefly here before polling again; the pause
        // changes no state.
      }
    }

    /**
     * The polling loop: while the cursor is short of `totalSamples` and
     * auto-stop is not latched, clear `wasCalledBack` and poll the driver.
     * Returns how many events of the script were consumed.  The loop stops
     * exactly at the first point where the cursor has reached `totalSamples`
     * or auto-stop is latched, or when the script runs out.
     */
    method Capture(script: seq<Event>) returns (ticks: nat)
      requires Valid()
      requires Fits(script, nextSample, autoStopOuter, totalSamples, sizeOfOneBuffer)
      modifies this, bufferCMax, bufferDMax, bufferCompleteC, bufferCompleteD
      ensures Valid()
      ensures ticks <= |script|
      ensures nextSample == old(nextSample) + SamplesDelivered(script[..ticks])
      ensures autoStopOuter == (old(autoStopOuter) || AutoStopSeen(script[..ticks]))
      ensures FilledC() == old(FilledC()) + DeliveredC(script[..ticks])
      ensures FilledD() == old(FilledD()) + DeliveredD(script[..ticks])
      ensures nextSample >= totalSamples || autoStopOuter || ticks == |script|
      ensures PolledWhileOpen(script, ticks, old(nextSample), old(autoStopOuter), totalSamples)
      ensures ticks == 0 ==> wasCalledBack == old(wasCalledBack)
      ensures ticks > 0 ==> wasCalledBack == script[ticks - 1].Ready?
    {
      ghost var cursor0, stopped0 := nextSample, autoStopOuter;
      ghost var filledC0, filledD0 := FilledC(), FilledD();
      ticks := 0;
      while nextSample < totalSamples && !autoStopOuter && ticks < |script|
        invariant Valid()
        invariant ticks <= |script|
        invariant nextSample == cursor0 + SamplesDelivered(script[..ticks])
        invariant autoStopOuter == (stopped0 || AutoStopSeen(script[..ticks]))
        invariant FilledC() == filledC0 + DeliveredC(script[..ticks])
        invariant FilledD() == filledD0 + DeliveredD(script[..ticks])
        invariant PolledWhileOpen(script, ticks, cursor0, stopped0, totalSamples)
        invariant ticks == 0 ==> wasCalledBack == old(wasCalledBack)
        invariant ticks > 0 ==> wasCalledBack == script[ticks - 1].Ready?
        decreases |script| - ticks
      {
        var e := script[ticks];
        LoopStep(script, ticks, cursor0, stopped0, totalSamples);
        AppendAssoc(filledC0, DeliveredC(script[..ticks]), e.WindowC());
        AppendAssoc(filledD0, DeliveredD(script[..ticks]), e.WindowD());
        PollOnce(e);
        ticks := ticks + 1;
      }
    }
  }

  /**
   * One more poll of the loop, on the script side: the event about to be
   * consumed fits, the rest of the script fits from the advanced cursor, and
   * the loop condition has now held before one more poll.
   */
  lemma LoopStep(script: seq<Event>, ticks: nat, cursor0: nat, stopped0: bool, total: nat)
    requires ticks < |script|
    requires PolledWhileOpen(script, ticks, cursor0, stopped0, total)
    requires cursor0 + SamplesDelivered(script[..ticks]) < total
    requires !stopped0 && !AutoStopSeen(script[..ticks])
    ensures PolledWhileOpen(script, ticks + 1, cursor0, stopped0, total)
    ensures SamplesDelivered(script[..ticks + 1]) == SamplesDelivered(script[..ticks]) + script[ticks].Count()
    ensures AutoStopSeen(script[..ticks + 1]) == (AutoStopSeen(script[..ticks]) || script[ticks].Stops())
    ensures DeliveredC(script[..ticks + 1]) == DeliveredC(script[..ticks]) + script[ticks].WindowC()
    ensures DeliveredD(script[..ticks + 1]) == DeliveredD(script[..ticks]) + script[ticks].WindowD()
  {
    assert script[..ticks + 1][..ticks] == script[..ticks];
  }


  /** Concatenation regrouped; a separate lemma so that the loop's proof
      sees only this one instance of it. */
  lemma AppendAssoc(a: seq<int16>, b: seq<int16>, c: seq<int16>)
    ensures (a + b) + c == a + (b + c)
  {
  }

  // ---------------------------------------------------------- the whole run

  /**
   * The capture as the script runs it: size the buffers (500 samples per
   * buffer, 5000 buffers), start with an empty capture, and poll until the
   * capture is full or the driver auto-stops.
   */
  method Acquire(script: seq<Event>) returns (session: StreamingSession, ticks: nat)
    requires Fits(script, 0, false, SizeOfOneBuffer * NumBuffersToCapture, SizeOfOneBuffer)
    ensures fresh(session) && session.Valid()
    ensures session.totalSamples == 2_500_000 && session.sizeOfOneBuffer == SizeOfOneBuffer
    ensures ticks <= |script|
    ensures session.nextSample == SamplesDelivered(script[..ticks])
    ensures session.autoStopOuter == AutoStopSeen(script[..ticks])
    ensures session.FilledC() == DeliveredC(script[..ticks])
    ensures session.FilledD() == DeliveredD(script[..ticks])
    ensures session.nextSample >= session.totalSamples || session.autoStopOuter || ticks == |script|
    ensures PolledWhileOpen(script, ticks, 0, false, session.totalSamples)
  {
    session := new StreamingSession(SizeOfOneBuffer, NumBuffersToCapture);
    ticks := session.Capture(script);
  }

  /**
   * The full-capture scenario: a script of 5000 notifications that each
   * deliver one whole buffer of 500 samples, without auto-stop, is consumed
   * to the last event and fills both complete buffers exactly, with the
   * windows in delivery order.
   */
  method AcquireFullBuffers(script: seq<Event>) returns (session: StreamingSession, ticks: nat)
    requires |script| == NumBuffersToCapture
    requires FullBuffers(script, SizeOfOneBuffer)
    ensures fresh(session) && session.Valid()
    ensures ticks == |script|
    ensures session.nextSample == session.totalSamples == 2_500_000
    ensures !session.autoStopOuter
    ensures session.bufferCompleteC[..] == DeliveredC(script)
    ensures session.bufferCompleteD[..] == DeliveredD(script)
  {
    FullBuffersDelivered(script, SizeOfOneBuffer);
    FullBuffersFit(script, SizeOfOneBuffer);
    session, ticks := Acquire(script);
    FullBuffersDelivered(script[..ticks], SizeOfOneBuffer);
    assert script[..ticks] == script;
  }

  /** Every event delivers one whole registered buffer, from index 0, without auto-stop. */
  predicate FullBuffers(script: seq<Event>, size: nat) {
    forall i :: 0 <= i < |script| ==>
      script[i].Ready? && script[i].noOfSamples == size && script[i].startIndex == 0 &&
      !script[i].autoStop && |script[i].samplesC| == size && |script[i].samplesD| == size
  }

  /** Whole-buffer events deliver `size` samples each, and none auto-stops. */
  lemma {:induction false} FullBuffersDelivered(script: seq<Event>, size: nat)
    requires FullBuffers(script, size)
    ensures SamplesDelivered(script) == |script| * size
    ensures !AutoStopSeen(script)
    ensures |DeliveredC(script)| == |DeliveredD(script)| == |script| * size
    decreases |script|
  {
    if script != [] {
      var p := script[..|script| - 1];
      assert FullBuffers(p, size) by {
        forall i | 0 <= i < |p| ensures p[i] == script[i] {
        }
      }
      FullBuffersDelivered(p, size);
      assert (|script| - 1) * size + size == |script| * size;
    }
  }

  /** A script of whole-buffer events fits a capture exactly as long as the script. */
  lemma FullBuffersFit(script: seq<Event>, size: nat)
    requires FullBuffers(script, size)
    ensures Fits(script, 0, false, |script| * size, size)
  {
    forall k | 0 <= k < |script| && SamplesDelivered(script[..k]) < |script| * size && !AutoStopSeen(script[..k])
      ensures EventFits(script[k], SamplesDelivered(script[..k]), |script| * size, size)
    {
      var p := script[..k];
      assert FullBuffers(p, size) by {
        forall i | 0 <= i < |p| ensures p[i] == script[i] {
        }
      }
      FullBuffersDelivered(p, size);
      assert k * size + size == (k + 1) * size;
      MulMonotone(k + 1, |script|, size);
    }
  }

  /** Multiplication by a natural is monotone; a separate lemma so that the
      nonlinear step stays out of the larger proof that uses it. */
  lemma MulMonotone(a: nat, b: nat, c: nat)
    requires a <= b
    ensures a * c <= b * c
  {
  }

  /**
   * The filled prefix is made of the delivered windows and nothing else:
   * for well-formed notifications, the concatenated windows are exactly as
   * long as the number of samples the cursor advanced by.
   */
  lemma {:induction false} DeliveredLength(script: seq<Event>)
    requires WellFormed(script)
    ensures |DeliveredC(script)| == SamplesDelivered(script)
    ensures |DeliveredD(script)| == SamplesDelivered(script)
    decreases |script|
  {
    if script != [] {
      var p := script[..|script| - 1];
      assert WellFormed(p) by {
        forall i | 0 <= i < |p| ensures p[i] == script[i] {
        }
      }
      DeliveredLength(p);
    }
  }

  /**
   * Reassembly is compositional: what two stretches of polling deliver,
   * one after the other, is the first's windows followed by the second's.
   */
  lemma {:induction false} DeliveredAppend(a: seq<Event>, b: seq<Event>)
    ensures DeliveredC(a + b) == DeliveredC(a) + DeliveredC(b)
    ensures DeliveredD(a + b) == DeliveredD(a) + DeliveredD(b)
    ensures SamplesDelivered(a + b) == SamplesDelivered(a) + SamplesDelivered(b)
    ensures AutoStopSeen(a + b) == (AutoStopSeen(a) || AutoStopSeen(b))
    decreases |b|
  {
    if b == [] {
      assert a + b == a;
    } else {
      var b', last := b[..|b| - 1], b[|b| - 1];
      assert (a + b)[..|a + b| - 1] == a + b';
      assert (a + b)[|a + b| - 1] == last;
      DeliveredAppend(a, b');
      assert (DeliveredC(a) + DeliveredC(b')) + last.WindowC() == DeliveredC(a) + (DeliveredC(b') + last.WindowC());
      assert (DeliveredD(a) + DeliveredD(b')) + last.WindowD() == DeliveredD(a) + (DeliveredD(b') + last.WindowD());
    }
  }
}
