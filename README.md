# Streaming capture and piezo sweep, modelled in Dafny

This project models the two pieces of logic in a pair of laboratory scripts.

- **The oscilloscope streaming capture** (`linearPiezoSweepStreaming.py`, module
  `StreamingCapture` in `streaming_capture.dfy`). The driver announces "`noOfSamples`
  new samples at `startIndex` in the registered buffer". The callback
  `streaming_callback` copies that window, for channels C and D, into two large
  complete buffers at the write cursor `nextSample`. It then advances the cursor
  and latches `autoStopOuter`. A polling loop clears `wasCalledBack` and polls the
  driver until the cursor reaches `totalSamples` or auto-stop is latched. The
  module also models the time-unit lookup `getTimeUnitFactor` and the capture
  sizing: 500 samples per buffer, 5000 buffers, 2,500,000 samples in all.
- **The piezo voltage sweep** (`piezoDrive.py`, `pizeoSweep`, module `PiezoDrive`
  in `piezo_drive.dfy`). It repeats N passes. Each pass is an up-sweep over
  `V = arange(0, Vmax, step)` followed by a down-sweep over `flip(V)`. Every
  voltage that is nonzero and at most `Vmax` goes to `SetOutputVoltage`.

`wrappers.dfy` holds the `Result` type used for the source's error paths.

## How the model represents the source

- The capture's module-level globals become the class `StreamingSession`. It has
  the two registered buffers `bufferCMax` and `bufferDMax`, as arrays of length
  `sizeOfOneBuffer`. It has the two complete buffers `bufferCompleteC` and
  `bufferCompleteD`, as arrays of length `totalSamples`. It also has the fields
  `nextSample`, `autoStopOuter` and `wasCalledBack`. Samples are the newtype
  `int16`.
- `Valid()` is the invariant every method keeps. The sizes are as allocated,
  the four arrays are distinct, `nextSample <= totalSamples`, and nothing at or
  beyond the cursor has been written, so it is still zero.
  `FilledC()` / `FilledD()` are the filled prefixes `[0, nextSample)`.
- The opaque driver is a finite script of per-poll `Event`s. An event is either
  `NoData`, or `Ready(noOfSamples, startIndex, autoStop, samplesC, samplesD)`.
  For `Ready`, the driver first writes the two windows into the registered buffers
  at `startIndex`, inside the poll call, and then runs the callback.
- The source does no bounds check on its two slice copies. The model states the
  conditions under which those copies mean what they say as preconditions:
  `nextSample + noOfSamples <= totalSamples` and
  `startIndex + noOfSamples <= sizeOfOneBuffer`. For a whole script, `Fits` states
  these conditions for exactly the events the loop consumes.
- `getTimeUnitFactor` returns the power of ten of its factor. Unit `e` maps to
  10^(3e−15). An enum outside 0..5 gives `Failure(InvalidTimeUnit)`, for the
  source's `ValueError`.
- Piezo voltages are integers, each counting a fixed voltage quantum. The
  abstracted `device` is the ordered trace of `SetOutputVoltage` arguments that
  `PiezoSweep` returns. A zero `step` gives `Failure(ZeroStep)`, because `np.arange`
  raises before any voltage is sent.

Two behaviours of the script the model keeps:
- The code does not check the status of `ps5000aGetStreamingLatestValues`
  (`linearPiezoSweepStreaming.py:169`). So no driver error is modelled in the loop.
- The code keeps the unfilled tail of a partial (auto-stopped) capture as zeros
  rather than truncating it. `Valid()` states that this tail is zero.

## Model

| member | source | states |
|---|---|---|
| `StreamingCapture.TimeUnitExponent` | linearPiezoSweepStreaming.py:15-19 | succeeds exactly for enums 0..5, and then the factor is 10^(3e−15) (from 1e-15 to 1); any other enum gives `InvalidTimeUnit` |
| `StreamingCapture.MicrosecondsFactor` | linearPiezoSweepStreaming.py:120 | the capture's unit, microseconds (enum 3), has the factor 1e-6 |
| `StreamingCapture.StreamingSession.constructor` | linearPiezoSweepStreaming.py:144-148 | `totalSamples = sizeOfOneBuffer * numBuffersToCapture`; registered buffers of length `sizeOfOneBuffer`, complete buffers of length `totalSamples`, all fresh and zeroed; `nextSample = 0`, both flags false, filled prefixes empty |
| `StreamingCapture.Acquire` | linearPiezoSweepStreaming.py:88-90 | sizes the capture at 500 × 5000 = 2,500,000 samples, starts empty, and after polling, the filled prefixes equal the delivered windows of the consumed events in delivery order; the loop stopped at the first point where it was full or auto-stopped, or when the script ran out |
| `StreamingCapture.AssignSlice` | linearPiezoSweepStreaming.py:156-157 | numpy slice assignment `dst[lo:hi] = src`: the window becomes `src`, every other entry keeps its old value |
| `StreamingCapture.StreamingSession.StreamingCallback` | linearPiezoSweepStreaming.py:151-160 | each complete buffer becomes old prefix + source window `[startIndex, startIndex+n)` + old suffix (so nothing outside `[old, old+n)` changes); filled prefix grows by exactly that window; `nextSample` advances by exactly `n`; `wasCalledBack` set; `autoStopOuter` is old value or `autoStop` (never cleared); registered buffers unchanged; invariant kept |
| `StreamingCapture.StreamingSession.GetStreamingLatestValues` | linearPiezoSweepStreaming.py:169 | a silent poll changes nothing; a notification leaves the registered buffers holding its windows at `[startIndex, startIndex+noOfSamples)`, and the filled prefixes grow by exactly those windows, the cursor by `noOfSamples`, and auto-stop latches |
| `StreamingCapture.StreamingSession.PollOnce` | linearPiezoSweepStreaming.py:168-173 | the loop body: afterwards `wasCalledBack` holds exactly when the driver called back, and the state moved as one poll |
| `StreamingCapture.StreamingSession.Capture` | linearPiezoSweepStreaming.py:167-173 | after the loop: cursor = old cursor + samples of the consumed events; auto-stop = old latch or any consumed auto-stop; each filled prefix = old prefix + consumed windows in order; the loop condition held before every consumed poll and fails at exit (or the script is exhausted); `wasCalledBack` reflects the last poll |
| `StreamingCapture.LoopStep` | linearPiezoSweepStreaming.py:167-170 | one more open poll extends the delivered samples, windows and auto-stop flag by that event, and the loop condition held before it |
| `StreamingCapture.DeliveredAppend` | linearPiezoSweepStreaming.py:154-160 | two stretches of polling deliver the first's windows followed by the second's, the sum of their samples, and auto-stop if either did |
| `StreamingCapture.DeliveredLength` | linearPiezoSweepStreaming.py:154-158 | for well-formed notifications, the concatenated windows of each channel are exactly as long as the total cursor advance |
| `StreamingCapture.FullBuffersDelivered` | linearPiezoSweepStreaming.py:88-90 | k whole-buffer notifications deliver k × size samples per channel and no auto-stop |
| `StreamingCapture.FullBuffersFit` | linearPiezoSweepStreaming.py:154-157 | k whole-buffer notifications at offset 0 all stay in bounds for a capture of k × size samples |
| `StreamingCapture.AcquireFullBuffers` | linearPiezoSweepStreaming.py:167-173 | 5000 notifications of 500 samples each are all consumed, the loop ends with `nextSample == totalSamples == 2,500,000`, no auto-stop, and each complete buffer is exactly the delivered windows in order |
| `PiezoDrive.Arange` | piezoDrive.py:24 | `arange(start, stop, step)` is nonempty exactly when `start` lies before `stop` in the step's direction, has entry i equal to `start + i·step`, lies in `[start, stop)` (or `(stop, start]` for a negative step) and is strictly ascending for a positive step |
| `PiezoDrive.ArangeLength` | piezoDrive.py:24 | `arange(start, stop, step)` has ⌈(stop − start)/step⌉ elements when nonempty (⌈(start − stop)/−step⌉ for a negative step), and none otherwise |
| `PiezoDrive.ArangeUpLength` | piezoDrive.py:24 | a nonempty ascending range has ⌈(stop − start)/step⌉ elements |
| `PiezoDrive.ArangeDownLength` | piezoDrive.py:24 | a nonempty descending range has ⌈(start − stop)/−step⌉ elements |
| `PiezoDrive.Reverse` | piezoDrive.py:36 | `np.flip`: same length, entry i is entry `len-1-i` of the input |
| `PiezoDrive.PiezoSweep` | piezoDrive.py:23-42 | fails exactly for a zero step; otherwise the commanded voltages are exactly N passes (none for N ≤ 0) of up-sweep then down-sweep, and every one is nonzero and ≤ `Vmax` |
| `PiezoDrive.SendGuarded` | piezoDrive.py:29-35 | one `for v in vs` loop appends to the trace exactly the guarded-in voltages of `vs`, in order |
| `PiezoDrive.SentSnoc` | piezoDrive.py:31-35 | one more loop iteration appends `v` exactly when the guard accepts it |
| `PiezoDrive.SentMembers` | piezoDrive.py:31-35 | a voltage is sent if and only if it is in the list and nonzero and ≤ `Vmax`: rejected values are never sent, accepted ones never skipped |
| `PiezoDrive.SentAppend` | piezoDrive.py:29-42 | the guarded sends over two lists one after the other are the sends over the first, then those over the second |
| `PiezoDrive.DownSweepReversesUpSweep` | piezoDrive.py:36-42 | the down-sweep's command list is exactly the reverse of the up-sweep's |
| `PiezoDrive.SweepSafe` | piezoDrive.py:31-32 | every voltage in the whole trace is nonzero and ≤ `Vmax` |
| `PiezoDrive.RepeatMembers` | piezoDrive.py:26-28 | the repeated passes contain only voltages of one pass |
| `PiezoDrive.RepeatLength` | piezoDrive.py:26-28 | the outer loop contributes exactly N passes (zero when N ≤ 0) |
| `PiezoDrive.SentAllAllowed` | piezoDrive.py:31-32 | when the guard accepts every entry, the whole list is sent |
| `PiezoDrive.SentNoneAllowed` | piezoDrive.py:31-35 | when the guard rejects every entry, nothing is sent |
| `PiezoDrive.UpSweepSkipsOnlyZero` | piezoDrive.py:24-35 | for positive step and `Vmax`, V starts at 0 and the up-sweep sends exactly `V[1..]`, strictly ascending; the `≤ Vmax` test never rejects |
| `PiezoDrive.ReverseOfAscending` | piezoDrive.py:36 | flipping an ascending list gives a strictly descending one |
| `PiezoDrive.PositiveStepPass` | piezoDrive.py:29-42 | for positive step and `Vmax`, the down-sweep sends `reverse(V[1..])`, strictly descending, and one pass is 2·(\|V\|−1) commands |
| `PiezoDrive.PositiveStepTraceLength` | piezoDrive.py:24-42 | the whole trace is N · 2·(\|V\|−1) commands |
| `PiezoDrive.NegativeStepSendsNothing` | piezoDrive.py:24-42 | with a negative step no voltage of `arange(0, Vmax, step)` passes the guard, so nothing is commanded |

## Left out

- Every `ps.ps5000a*` vendor call. This covers opening the unit, the power-source
  fallback for statuses 286 and 282, the signal generator, channel setup, buffer
  registration, `RunStreaming`, `MaximumValue`, stop and close. They are opaque
  foreign SDK calls; the driver appears only as the scripted event list.
- `actualSampleInterval`, the `adc2mV` conversion and the `np.linspace` time
  axis. They are floating-point numerics in library code that is not part of this model.
- The `time.sleep` back-off in the polling loop and the per-voltage `delay` in
  `pizeoSweep`. A pause changes no modelled state.
- The `print` of the rejection message in `pizeoSweep`'s else branches, and all
  other printing. This is console I/O.
- Non-termination of the real loop when the driver stays silent. The model polls
  a finite script, so `Capture` also stops when the script runs out.
- The callback's `overflow`, `triggerAt`, `triggered` and `param` arguments. The
  source ignores them.
- Out-of-bounds notifications. The source does no bounds check, so the model
  requires in-bounds windows rather than modelling numpy's behaviour on
  mismatched slices.
- Driver call statuses. The status of the polling call is stored, never checked.
- Machine-integer widths of `noOfSamples`, `startIndex` and `nextSample`. These
  are unbounded naturals in the model; the sizes involved stay far below 2^31.
- matplotlib plotting and the pandas CSV output. These are UI and file I/O.
- `processSweepData.py`. It only reads a CSV file and plots it.
- The default `N=1` of `pizeoSweep` (`piezoDrive.py:23`). Dafny has no default
  arguments, so `PiezoSweep` always takes the pass count explicitly.
- `main()` in `piezoDrive.py`. This is device discovery, connect, polling,
  enable, settings waits, zeroing and disconnect, all vendor .NET calls.
- The float and .NET `Decimal` conversions in `pizeoSweep`, including rounding
  of `float(Vmax)` and `Decimal(v)`. Voltages are exact integers in the model.
- PiezoDrive.Arange: the float `np.arange` of the source can gain or lose a
  final element through rounding. The integer model does no rounding.
