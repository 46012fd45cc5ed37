/**
 * The voltage sweep of piezoDrive.py (`pizeoSweep`), reduced to the ordered
 * list of arguments it passes to `device.SetOutputVoltage`.
 *
 * Voltages are integers: each stands for a whole number of a fixed voltage
 * quantum (with the script's step of 0.5 V, 80 V is 160 quanta), so neither
 * floating point nor .NET `Decimal` appears.  The device is abstracted as the
 * trace of voltages commanded to it, in order.
 */
module PiezoDrive {
  import opened Wrappers

  /** `np.arange` with a zero step raises before any voltage is sent. */
  datatype SweepError = ZeroStep

  /** `np.arange(start, stop, step)`: start, start + step, ... while strictly
      before `stop` in the direction of `step` (a half-open range). */
  function Arange(start: int, stop: int, step: int): (v: seq<int>)
    requires step != 0
    ensures |v| > 0 <==> (step > 0 && start < stop) || (step < 0 && start > stop)
    ensures forall i :: 0 <= i < |v| ==> v[i] == start + i * step
    ensures step > 0 ==> forall i :: 0 <= i < |v| ==> start <= v[i] < stop
    ensures step < 0 ==> forall i :: 0 <= i < |v| ==> stop < v[i] <= start
    ensures step > 0 ==> Ascending(v)
    decreases if step > 0 then stop - start else start - stop
  {
    if (step > 0 && start < stop) || (step < 0 && start > stop) then
      [start] + Arange(start + step, stop, step)
    else
      []
  }

  /** The length of `np.arange(start, stop, step)`: the distance from `start`
      to `stop` divided by the step size, rounded up, and zero when the range
      is empty. */
  lemma ArangeLength(start: int, stop: int, step: int)
    requires step != 0
    ensures step > 0 ==>
      |Arange(start, stop, step)| == (if start < stop then (stop - start + step - 1) / step else 0)
    ensures step < 0 ==>
      |Arange(start, stop, step)| == (if start > stop then (start - stop - step - 1) / (-step) else 0)
  {
    if step > 0 && start < stop {
      ArangeUpLength(start, stop, step);
    } else if step < 0 && start > stop {
      ArangeDownLength(start, stop, step);
    }
  }

  /** A nonempty ascending range has ceiling((stop - start) / step) elements. */
  lemma {:induction false} ArangeUpLength(start: int, stop: int, step: int)
    requires step > 0 && start < stop
    ensures |Arange(start, stop, step)| == (stop - start + step - 1) / step
    decreases stop - start
  {
    var gap := stop - start;
    var rest := |Arange(start + step, stop, step)|;
    assert |Arange(start, stop, step)| == 1 + rest;
    DivShift(gap - 1, step);
    if start + step < stop {
      ArangeUpLength(start + step, stop, step);
      assert rest == (gap - 1) / step;
    } else {
      assert rest == 0;
      DivSmall(gap - 1, step);
    }
  }

  /** A nonempty descending range has ceiling((start - stop) / -step) elements. */
  lemma {:induction false} ArangeDownLength(start: int, stop: int, step: int)
    requires step < 0 && start > stop
    ensures |Arange(start, stop, step)| == (start - stop - step - 1) / (-step)
    decreases start - stop
  {
    var gap, d := start - stop, -step;
    var rest := |Arange(start + step, stop, step)|;
    assert |Arange(start, stop, step)| == 1 + rest;
    DivShift(gap - 1, d);
    if start + step > stop {
      ArangeDownLength(start + step, stop, step);
      assert rest == (gap - 1) / d;
    } else {
      assert rest == 0;
      DivSmall(gap - 1, d);
    }
  }

  /** A quotient of a number below the divisor is zero. */
  lemma DivSmall(x: int, d: int)
    requires 0 <= x < d
    ensures x / d == 0
  {
  }

  /** Adding the divisor once adds one to the quotient. */
  lemma DivShift(x: int, d: int)
    requires d > 0
    ensures (x + d) / d == x / d + 1
  {
    var q, r := x / d, x % d;
    var q', r' := (x + d) / d, (x + d) % d;
    assert d * (q' - q - 1) == r - r' by {
      assert d * q' + r' == d * q + r + d;
      assert d * (q' - q - 1) == d * q' - d * q - d;
    }
    MultipleOfDivisorInRange(d, q' - q - 1);
  }

  /** The only multiple of `d` strictly between `-d` and `d` is zero. */
  lemma MultipleOfDivisorInRange(d: int, k: int)
    requires d > 0 && -d < d * k < d
    ensures k == 0
  {
  }

  /** Strictly increasing. */
  predicate Ascending(s: seq<int>) {
    forall i, j :: 0 <= i < j < |s| ==> s[i] < s[j]
  }

  /** Strictly decreasing. */
  predicate Descending(s: seq<int>) {
    forall i, j :: 0 <= i < j < |s| ==> s[i] > s[j]
  }

  /** `np.flip`. */
  function Reverse(s: seq<int>): (r: seq<int>)
    ensures |r| == |s|
    ensures forall i :: 0 <= i < |s| ==> r[i] == s[|s| - 1 - i]
  {
    if s == [] then [] else [s[|s| - 1]] + Reverse(s[..|s| - 1])
  }

  /** The guard in front of each `SetOutputVoltage`: nonzero and at most `vmax`. */
  predicate Allowed(v: int, vmax: int) {
    v != 0 && v <= vmax
  }

  /** The voltages that one `for v in vs` loop of the sweep sends, in order:
      the ones the guard lets through. */
  function Sent(vs: seq<int>, vmax: int): seq<int>
  {
    if vs == [] then []
    else Sent(vs[..|vs| - 1], vmax) + (if Allowed(vs[|vs| - 1], vmax) then [vs[|vs| - 1]] else [])
  }

  /** One pass of the outer loop: the up-sweep over `V`, then the down-sweep
      over `np.flip(V)`. */
  function Pass(V: seq<int>, vmax: int): seq<int> {
    Sent(V, vmax) + Sent(Reverse(V), vmax)
  }

  /** `n` copies of `p` in a row; no copy at all when `n <= 0`. */
  function Repeat(p: seq<int>, n: int): seq<int>
    decreases n
  {
    if n <= 0 then [] else Repeat(p, n - 1) + p
  }

  /** The whole trace of `pizeoSweep(device, vmax, step, N = n)`. */
  function SweepTrace(vmax: int, step: int, n: int): seq<int>
    requires step != 0
  {
    Repeat(Pass(Arange(0, vmax, step), vmax), n)
  }

  /**
   * `pizeoSweep`: the list of voltages passed to `device.SetOutputVoltage`,
   * in call order, or the error `np.arange` raises for a zero step.
   */
  method PiezoSweep(vmax: int, step: int, n: int) returns (r: Result<seq<int>, SweepError>)
    ensures r.Failure? <==> step == 0
    ensures r.Success? ==> r.value == SweepTrace(vmax, step, n)
    ensures r.Success? ==> forall k :: 0 <= k < |r.value| ==> r.value[k] != 0 && r.value[k] <= vmax
  {
    if step == 0 {
      return Failure(ZeroStep);
    }
    var V := Arange(0, vmax, step);
    var commands: seq<int> := [];
    var i := 0;
    while i < n
      invariant 0 <= i && (n >= 0 ==> i <= n) && (n < 0 ==> i == 0)
      invariant commands == Repeat(Pass(V, vmax), i)
    {
      i := i + 1;
      commands := SendGuarded(commands, V, vmax);
      commands := SendGuarded(commands, Reverse(V), vmax);
    }
    SweepSafe(commands, vmax, step, n);
    r := Success(commands);
  }

  /**
   * One `for v in vs` loop of the sweep: each voltage that passes the guard
   * is appended to the device's command trace, the others are skipped.
   */
  method SendGuarded(commands: seq<int>, vs: seq<int>, vmax: int) returns (after: seq<int>)
    ensures after == commands + Sent(vs, vmax)
  {
    after := commands;
    for k := 0 to |vs|
      invariant after == commands + Sent(vs[..k], vmax)
    {
      var v := vs[k];
      SentSnoc(vs, k, vmax);
      if v != 0 && v <= vmax {
        after := after + [v];
      }
    }
    assert vs[..|vs|] == vs;
  }

  /** One more iteration of a `for v in vs` loop of the sweep. */
  lemma SentSnoc(vs: seq<int>, k: nat, vmax: int)
    requires k < |vs|
    ensures Sent(vs[..k + 1], vmax) == Sent(vs[..k], vmax) + (if Allowed(vs[k], vmax) then [vs[k]] else [])
  {
    assert vs[..k + 1][..k] == vs[..k];
  }

  lemma {:induction false} SentAppend(a: seq<int>, b: seq<int>, vmax: int)
    ensures Sent(a + b, vmax) == Sent(a, vmax) + Sent(b, vmax)
    decreases |b|
  {
    if b == [] {
      assert a + b == a;
    } else {
      var b' := b[..|b| - 1];
      assert (a + b)[..|a + b| - 1] == a + b';
      SentAppend(a, b', vmax);
    }
  }

  /** A voltage is sent exactly when it is in the list and passes the guard:
      every sent voltage is allowed, and no allowed voltage is skipped. */
  lemma {:induction false} SentMembers(vs: seq<int>, vmax: int)
    ensures forall x :: x in Sent(vs, vmax) <==> x in vs && Allowed(x, vmax)
    decreases |vs|
  {
    if vs != [] {
      var p := vs[..|vs| - 1];
      assert vs == p + [vs[|vs| - 1]];
      SentMembers(p, vmax);
    }
  }

  lemma ReverseAppend(a: seq<int>, b: seq<int>)
    ensures Reverse(a + b) == Reverse(b) + Reverse(a)
  {
  }

  /** The down-sweep sends exactly the up-sweep's commands in reverse order. */
  lemma {:induction false} DownSweepReversesUpSweep(V: seq<int>, vmax: int)
    ensures Sent(Reverse(V), vmax) == Reverse(Sent(V, vmax))
    decreases |V|
  {
    if V != [] {
      var p, x := V[..|V| - 1], V[|V| - 1];
      var keep := if Allowed(x, vmax) then [x] else [];
      assert V == p + [x];
      assert Reverse(V) == [x] + Reverse(p);
      SentAppend([x], Reverse(p), vmax);
      assert Sent([x], vmax) == keep by {
        assert [x][..0] == [];
      }
      DownSweepReversesUpSweep(p, vmax);
      ReverseAppend(Sent(p, vmax), keep);
    }
  }

  /** Every voltage of a sweep passes the guard: nonzero and at most `vmax`. */
  lemma {:induction false} SweepSafe(trace: seq<int>, vmax: int, step: int, n: int)
    requires step != 0 && trace == SweepTrace(vmax, step, n)
    ensures forall k :: 0 <= k < |trace| ==> trace[k] != 0 && trace[k] <= vmax
  {
    var V := Arange(0, vmax, step);
    SentMembers(V, vmax);
    SentMembers(Reverse(V), vmax);
    RepeatMembers(Pass(V, vmax), n);
    forall k | 0 <= k < |trace| ensures trace[k] != 0 && trace[k] <= vmax {
      assert trace[k] in trace;
    }
  }

  /** Every entry of `Repeat(p, n)` is an entry of `p`. */
  lemma {:induction false} RepeatMembers(p: seq<int>, n: int)
    ensures forall x :: x in Repeat(p, n) ==> x in p
    decreases n
  {
    if n > 0 {
      RepeatMembers(p, n - 1);
    }
  }

  /** The trace consists of exactly `n` passes (none when `n <= 0`). */
  lemma {:induction false} RepeatLength(p: seq<int>, n: int)
    ensures |Repeat(p, n)| == (if n <= 0 then 0 else n * |p|)
    decreases n
  {
    if n > 0 {
      RepeatLength(p, n - 1);
      assert (n - 1) * |p| + |p| == n * |p|;
    }
  }

  /** A guard that lets every entry through leaves the list as it is. */
  lemma {:induction false} SentAllAllowed(vs: seq<int>, vmax: int)
    requires forall i :: 0 <= i < |vs| ==> Allowed(vs[i], vmax)
    ensures Sent(vs, vmax) == vs
    decreases |vs|
  {
    if vs != [] {
      SentAllAllowed(vs[..|vs| - 1], vmax);
    }
  }

  /**
   * For a positive step and a positive `vmax`, `arange(0, vmax, step)` starts
   * at 0 and the up-sweep sends every value but that leading 0, in ascending
   * order.  The `v <= vmax` half of the guard never rejects anything here,
   * because `arange` stops short of `vmax`.
   */
  lemma {:induction false} UpSweepSkipsOnlyZero(vmax: int, step: int)
    requires step > 0 && vmax > 0
    ensures var V := Arange(0, vmax, step);
      |V| >= 1 && V[0] == 0 && Sent(V, vmax) == V[1..] && Ascending(Sent(V, vmax))
  {
    var V := Arange(0, vmax, step);
    assert V == [0] + V[1..];
    SentAppend([0], V[1..], vmax);
    assert Sent([0], vmax) == [] by {
      assert [0][..0] == [];
    }
    SentAllAllowed(V[1..], vmax);
  }

  /**
   * For a positive step and a positive `vmax`, the down-sweep sends the same
   * values as the up-sweep, descending, and one pass is 2 * (|V| - 1)
   * commands long.
   */
  lemma {:induction false} PositiveStepPass(vmax: int, step: int)
    requires step > 0 && vmax > 0
    ensures var V := Arange(0, vmax, step);
      Sent(Reverse(V), vmax) == Reverse(V[1..]) && Descending(Sent(Reverse(V), vmax)) &&
      |Pass(V, vmax)| == 2 * (|V| - 1)
  {
    var V := Arange(0, vmax, step);
    UpSweepSkipsOnlyZero(vmax, step);
    DownSweepReversesUpSweep(V, vmax);
    ReverseOfAscending(V[1..]);
  }

  /** Reversing an ascending list gives a descending one. */
  lemma ReverseOfAscending(s: seq<int>)
    requires Ascending(s)
    ensures Descending(Reverse(s))
  {
    var r := Reverse(s);
    forall i, j | 0 <= i < j < |r| ensures r[i] > r[j] {
      assert r[i] == s[|s| - 1 - i] && r[j] == s[|s| - 1 - j];
    }
  }

  /** A sweep with positive step and `vmax` sends 2 * (|V| - 1) voltages per pass, `n` passes. */
  lemma {:induction false} PositiveStepTraceLength(vmax: int, step: int, n: int)
    requires step > 0 && vmax > 0 && n >= 0
    ensures |SweepTrace(vmax, step, n)| == n * (2 * (|Arange(0, vmax, step)| - 1))
  {
    var V := Arange(0, vmax, step);
    var p := Pass(V, vmax);
    PositiveStepPass(vmax, step);
    RepeatLength(p, n);
    var len := |p|;
    assert len == 2 * (|V| - 1);
    assert |SweepTrace(vmax, step, n)| == n * len;
  }

  /** With a negative step `arange(0, vmax, step)` never holds a value the
      guard accepts, so the sweep commands nothing. */
  lemma {:induction false} NegativeStepSendsNothing(vmax: int, step: int, n: int)
    requires step < 0
    ensures SweepTrace(vmax, step, n) == []
  {
    var V := Arange(0, vmax, step);
    SentNoneAllowed(V, vmax);
    SentNoneAllowed(Reverse(V), vmax);
    assert Pass(V, vmax) == [];
    RepeatEmpty(n);
  }

  /** A guard that rejects every entry sends nothing. */
  lemma {:induction false} SentNoneAllowed(vs: seq<int>, vmax: int)
    requires forall i :: 0 <= i < |vs| ==> !Allowed(vs[i], vmax)
    ensures Sent(vs, vmax) == []
    decreases |vs|
  {
    if vs != [] {
      SentNoneAllowed(vs[..|vs| - 1], vmax);
    }
  }

  lemma {:induction false} RepeatEmpty(n: int)
    ensures Repeat([], n) == []
    decreases n
  {
    if n > 0 {
      RepeatEmpty(n - 1);
    }
  }
}
