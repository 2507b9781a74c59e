/** The control loop that reports a worker's queue state: a ring of samples, and the
    PID terms computed from its oldest and its newest. */
module Pid {
  import opened Types
  import opened Arithmetic
  import opened Sequences

  /** PIDSample; times are in microseconds. */
  datatype Sample = Sample(time: u64, error: real, integral: real)

  /** What one turn of the loop reads: the clock, and how full the queue is. */
  datatype Reading = Reading(time: u64, fill: real)

  type Positive = n: nat | n > 0 witness 1

  /** The gains, the set point, and the capacity of the ring: epochMs / periodMs. */
  datatype Config = Config(setPoint: real, kp: real, ki: real, kd: real, capacity: Positive)

  function Seconds(usecs: int): real {
    usecs as real / 1_000_000.0
  }

  /** How fast the error changes. */
  function Slope(error: real, before: real, dt: real): real
    requires dt != 0.0
  {
    (error - before) / dt
  }

  /** The three gains applied. */
  function Weighted(c: Config, error: real, integral: real, rate: real): real {
    c.kp * error + c.ki * integral + c.kd * rate
  }

  lemma EachGain(c: Config, error: real, integral: real, rate: real)
    ensures Weighted(c, error, integral, rate) == c.kp * error + c.ki * integral + c.kd * rate
    ensures c.ki == c.kd == 0.0 ==> Weighted(c, error, integral, rate) == c.kp * error
    ensures c.kp == c.kd == 0.0 ==> Weighted(c, error, integral, rate) == c.ki * integral
    ensures c.kp == c.ki == 0.0 ==> Weighted(c, error, integral, rate) == c.kd * rate
  {
    assert 0.0 * error == 0.0 && 0.0 * integral == 0.0 && 0.0 * rate == 0.0;
  }

  /** pid: the output, the error and the accumulated integral. Without any time between
      the samples the derivative, and with it the output, is no number. */
  function PidTerms(c: Config, fill: real, dt: real, prevError: real, prevIntegral: real): (Option<real>, real, real) {
    var error := c.setPoint - fill;
    var integral := error * dt + prevIntegral;
    (if dt == 0.0 then None else Some(Weighted(c, error, integral, Slope(error, prevError, dt))), error, integral)
  }

  /** The sample that step k is compared with. */
  function Past(k: nat, n: Positive): nat {
    if k <= n then 0 else k - n
  }

  class Controller {
    const cfg: Config
    var pidSampleBuffer: seq<Sample>
    ghost var history: seq<Sample>

    ghost predicate Valid()
      reads this
    {
      history != [] && pidSampleBuffer == Window(history, cfg.capacity)
    }

    /** A first sample with no error and nothing accumulated. */
    constructor (cfg: Config, now: u64)
      ensures Valid() && this.cfg == cfg && history == [Sample(now, 0.0, 0.0)]
    {
      this.cfg := cfg;
      pidSampleBuffer, history := [], [];
      new;
      PushBack(Sample(now, 0.0, 0.0));
    }

    /** boost::circular_buffer: a full ring drops its oldest sample. */
    method PushBack(s: Sample)
      requires pidSampleBuffer == Window(history, cfg.capacity)
      modifies this
      ensures Valid() && history == old(history) + [s]
    {
      PushKeepsWindow(history, cfg.capacity, s);
      if |pidSampleBuffer| == cfg.capacity { pidSampleBuffer := pidSampleBuffer[1..]; }
      pidSampleBuffer := pidSampleBuffer + [s];
      history := history + [s];
    }

    /** One turn of the loop. */
    method Step(r: Reading) returns (output: Option<real>)
      requires Valid()
      modifies this
      ensures Valid() && history == old(history) + [NextSample(cfg, old(history), r)]
      ensures output == Output(cfg, old(history), r)
    {
      var past, last := pidSampleBuffer[0], pidSampleBuffer[|pidSampleBuffer| - 1];
      assert past == history[Past(|history|, cfg.capacity)] && last == history[|history| - 1];
      var terms := PidTerms(cfg, r.fill, Seconds(Since(r.time, past.time)), past.error, last.integral);
      output := terms.0;
      assert output == Output(cfg, history, r);
      var newSample := Sample(r.time, terms.1, terms.2);
      assert newSample == NextSample(cfg, history, r);
      PushBack(newSample);
    }
  }

  // ---- the samples of a whole run -------------------------------------------------

  /** The sample added after h: it looks back over at most capacity periods. */
  function NextSample(c: Config, h: seq<Sample>, r: Reading): Sample
    requires h != []
  {
    var error := c.setPoint - r.fill;
    var dt := Seconds(Since(r.time, h[Past(|h|, c.capacity)].time));
    Sample(r.time, error, error * dt + h[|h| - 1].integral)
  }

  function Output(c: Config, h: seq<Sample>, r: Reading): Option<real>
    requires h != []
  {
    var past := h[Past(|h|, c.capacity)];
    PidTerms(c, r.fill, Seconds(Since(r.time, past.time)), past.error, h[|h| - 1].integral).0
  }

  /** All samples of a run that starts at t0. */
  function History(c: Config, t0: u64, rs: seq<Reading>): (h: seq<Sample>)
    ensures |h| == |rs| + 1
  {
    if rs == [] then [Sample(t0, 0.0, 0.0)]
    else
      var h := History(c, t0, rs[..|rs| - 1]);
      h + [NextSample(c, h, rs[|rs| - 1])]
  }

  function TimeAt(t0: u64, rs: seq<Reading>, k: nat): u64
    requires k <= |rs|
  {
    if k == 0 then t0 else rs[k - 1].time
  }

  /** The time since the sample n steps back, or since the first. */
  function Lapse(t0: u64, rs: seq<Reading>, k: nat, n: Positive): real
    requires 0 < k <= |rs|
  {
    Seconds(Since(TimeAt(t0, rs, k), TimeAt(t0, rs, Past(k, n))))
  }

  /** The lapse in numbers: seconds, from a difference of microseconds in 64 bits. */
  lemma LapseIs(t0: u64, rs: seq<Reading>, k: nat, n: Positive)
    requires 0 < k <= |rs|
    ensures var before := if k <= n then t0 else rs[k - n - 1].time;
      Lapse(t0, rs, k, n) == ((rs[k - 1].time - before) % 0x1_0000_0000_0000_0000) as real / 1_000_000.0
  {
    SinceIs(rs[k - 1].time, if k <= n then t0 else rs[k - n - 1].time);
  }

  /** The error at step k, times the time since the sample capacity steps back. */
  function Term(c: Config, t0: u64, rs: seq<Reading>, k: nat): real
    requires 0 < k <= |rs|
  {
    (c.setPoint - rs[k - 1].fill) * Lapse(t0, rs, k, c.capacity)
  }

  /** e_1*(t_1 - t_past(1)) + ... + e_k*(t_k - t_past(k)). */
  function WindowSum(c: Config, t0: u64, rs: seq<Reading>, k: nat): real
    requires k <= |rs|
  {
    if k == 0 then 0.0 else WindowSum(c, t0, rs, k - 1) + Term(c, t0, rs, k)
  }

  lemma {:induction false} WindowSumOfPrefix(c: Config, t0: u64, rs: seq<Reading>, n: nat, k: nat)
    requires k <= n <= |rs|
    ensures WindowSum(c, t0, rs[..n], k) == WindowSum(c, t0, rs, k)
  {
    if k > 0 {
      WindowSumOfPrefix(c, t0, rs, n, k - 1);
      assert Term(c, t0, rs[..n], k) == Term(c, t0, rs, k);
    }
  }

  lemma StepAddsTerm(c: Config, t0: u64, rs: seq<Reading>, h: seq<Sample>)
    requires rs != [] && |h| == |rs| && h[Past(|h|, c.capacity)].time == TimeAt(t0, rs, Past(|rs|, c.capacity))
    ensures NextSample(c, h, rs[|rs| - 1]).integral == h[|h| - 1].integral + Term(c, t0, rs, |rs|)
  {
  }

  /** THE INTEGRAL. Each sample carries its own time and error, and its integral is
      the sum, over all steps so far, of the error times the time since the sample
      capacity steps back, or since the first. */
  lemma {:induction false} IntegralIsWindowSum(c: Config, t0: u64, rs: seq<Reading>, k: nat)
    requires k <= |rs|
    ensures History(c, t0, rs)[k]
      == Sample(TimeAt(t0, rs, k), if k == 0 then 0.0 else c.setPoint - rs[k - 1].fill, WindowSum(c, t0, rs, k))
  {
    if rs != [] {
      var n := |rs| - 1;
      var h := History(c, t0, rs[..n]);
      if k <= n {
        IntegralIsWindowSum(c, t0, rs[..n], k);
        WindowSumOfPrefix(c, t0, rs, n, k);
      } else {
        IntegralIsWindowSum(c, t0, rs[..n], n);
        IntegralIsWindowSum(c, t0, rs[..n], Past(k, c.capacity));
        WindowSumOfPrefix(c, t0, rs, n, n);
        StepAddsTerm(c, t0, rs, h);
      }
    }
  }

  /** WHAT THE RING HOLDS before the step after k readings: the last samples, as many
      as fit, each with its time, its error and the integral up to it. */
  lemma RingHoldsLast(c: Config, t0: u64, rs: seq<Reading>, i: nat)
    requires i < |Window(History(c, t0, rs), c.capacity)|
    ensures var ring := Window(History(c, t0, rs), c.capacity);
      var j := |rs| + 1 - |ring| + i;
      && |ring| == (if |rs| < c.capacity then |rs| + 1 else c.capacity)
      && ring[i] == Sample(TimeAt(t0, rs, j), if j == 0 then 0.0 else c.setPoint - rs[j - 1].fill,
                           WindowSum(c, t0, rs, j))
  {
    IntegralIsWindowSum(c, t0, rs, |rs| + 1 - |Window(History(c, t0, rs), c.capacity)| + i);
  }

  /** The sum, over the steps up to k, of the time since the sample n steps back. */
  function Lapses(t0: u64, rs: seq<Reading>, k: nat, n: Positive): real
    requires k <= |rs|
  {
    if k == 0 then 0.0 else Lapses(t0, rs, k - 1, n) + Lapse(t0, rs, k, n)
  }

  /** The sum of t_j - t_0 for the last n steps up to k. */
  function Elapsed(t0: u64, rs: seq<Reading>, k: nat, n: nat): real
    requires k <= |rs|
    decreases n
  {
    if k == 0 || n == 0 then 0.0 else Elapsed(t0, rs, k - 1, n - 1) + Seconds(TimeAt(t0, rs, k) - t0)
  }

  lemma {:induction false} ElapsedShifts(t0: u64, rs: seq<Reading>, k: nat, n: nat)
    requires 0 < k <= |rs| && n > 0
    ensures Elapsed(t0, rs, k, n)
      == Elapsed(t0, rs, k - 1, n) + Seconds(TimeAt(t0, rs, k) - TimeAt(t0, rs, Past(k, n)))
  {
    if n == 1 {
      assert Past(k, 1) == k - 1;
    } else if k > 1 {
      ElapsedShifts(t0, rs, k - 1, n - 1);
      assert Past(k - 1, n - 1) == Past(k, n);
    }
  }

  ghost predicate NeverBack(t0: u64, rs: seq<Reading>) {
    forall i, j :: 0 <= i <= j <= |rs| ==> TimeAt(t0, rs, i) <= TimeAt(t0, rs, j)
  }

  /** With a clock that never goes back the lapses add up to the times since the start
      of the last n steps. */
  lemma {:induction false} LapsesAreElapsed(t0: u64, rs: seq<Reading>, k: nat, n: Positive)
    requires NeverBack(t0, rs) && k <= |rs|
    ensures Lapses(t0, rs, k, n) == Elapsed(t0, rs, k, n)
  {
    if k > 0 {
      LapsesAreElapsed(t0, rs, k - 1, n);
      ElapsedShifts(t0, rs, k, n);
      assert TimeAt(t0, rs, Past(k, n)) <= TimeAt(t0, rs, k);
    }
  }

  /** A CONSTANT ERROR IS COUNTED CAPACITY TIMES. The windows of successive steps
      overlap, so the accumulated integral is the error times the sum of the lapses:
      with a clock that never goes back, not the time passed but that time summed over
      the last capacity steps; and it keeps growing. */
  lemma {:induction false} ConstantError(c: Config, t0: u64, rs: seq<Reading>, k: nat, error: real)
    returns (elapsed: real)
    requires k <= |rs|
    requires forall i :: 0 <= i < |rs| ==> c.setPoint - rs[i].fill == error
    ensures elapsed == Lapses(t0, rs, k, c.capacity) && WindowSum(c, t0, rs, k) == error * elapsed
    ensures NeverBack(t0, rs) ==> elapsed == Elapsed(t0, rs, k, c.capacity)
  {
    elapsed := Lapses(t0, rs, k, c.capacity);
    if k > 0 {
      var before := ConstantError(c, t0, rs, k - 1, error);
      var window := Lapse(t0, rs, k, c.capacity);
      ConstantTerm(c, t0, rs, k, error, window);
      SumOfProducts(error, before, window, elapsed, WindowSum(c, t0, rs, k - 1), Term(c, t0, rs, k));
    }
    if NeverBack(t0, rs) { LapsesAreElapsed(t0, rs, k, c.capacity); }
  }

  lemma SumOfProducts(e: real, x: real, y: real, z: real, ex: real, ey: real)
    requires ex == e * x && ey == e * y && z == x + y
    ensures ex + ey == e * z
  {
    Distribute(e, x, y);
  }

  lemma ConstantTerm(c: Config, t0: u64, rs: seq<Reading>, k: nat, error: real, y: real)
    requires 0 < k <= |rs| && c.setPoint - rs[k - 1].fill == error
    requires y == Lapse(t0, rs, k, c.capacity)
    ensures Term(c, t0, rs, k) == error * y
  {
  }

  ghost predicate Advancing(t0: u64, rs: seq<Reading>) {
    forall i, j :: 0 <= i < j <= |rs| ==> TimeAt(t0, rs, i) < TimeAt(t0, rs, j)
  }

  lemma AdvancingIsNeverBack(t0: u64, rs: seq<Reading>)
    requires Advancing(t0, rs)
    ensures NeverBack(t0, rs)
  {
    forall i, j | 0 <= i <= j <= |rs| ensures TimeAt(t0, rs, i) <= TimeAt(t0, rs, j) {
      if i < j { assert TimeAt(t0, rs, i) < TimeAt(t0, rs, j); }
    }
  }

  lemma {:induction false} ElapsedIsPositive(t0: u64, rs: seq<Reading>, k: nat, n: nat)
    requires Advancing(t0, rs) && k <= |rs|
    ensures if k == 0 || n == 0 then Elapsed(t0, rs, k, n) == 0.0 else Elapsed(t0, rs, k, n) > 0.0
    decreases n
  {
    if k > 0 && n > 0 {
      ElapsedIsPositive(t0, rs, k - 1, n - 1);
      assert TimeAt(t0, rs, 0) < TimeAt(t0, rs, k);
    }
  }

  /** The overlapping windows add up to the time passed exactly for the first step and
      for a ring of one place. */
  lemma ElapsedOnceIff(t0: u64, rs: seq<Reading>, k: nat, n: Positive)
    requires Advancing(t0, rs) && k <= |rs|
    ensures Elapsed(t0, rs, k, n) == Seconds(TimeAt(t0, rs, k) - t0) <==> k <= 1 || n == 1
  {
    if k > 0 { ElapsedIsPositive(t0, rs, k - 1, n - 1); }
  }

  /** WHEN AN ERROR IS INTEGRATED ONCE. The integral of a constant error is that error
      times the time passed if and only if the error is zero, there was at most one
      step, or the ring has one place. */
  lemma ConstantErrorOnceIff(c: Config, t0: u64, rs: seq<Reading>, k: nat, error: real) returns (passed: real)
    requires Advancing(t0, rs) && k <= |rs|
    requires forall i :: 0 <= i < |rs| ==> c.setPoint - rs[i].fill == error
    ensures passed == Seconds(TimeAt(t0, rs, k) - t0)
    ensures WindowSum(c, t0, rs, k) == error * passed <==> error == 0.0 || k <= 1 || c.capacity == 1
  {
    passed := Seconds(TimeAt(t0, rs, k) - t0);
    AdvancingIsNeverBack(t0, rs);
    var elapsed := ConstantError(c, t0, rs, k, error);
    ElapsedOnceIff(t0, rs, k, c.capacity);
    SameProduct(error, elapsed, passed, WindowSum(c, t0, rs, k));
  }

  lemma SameProduct(e: real, x: real, y: real, z: real)
    requires z == e * x
    ensures z == e * y <==> e == 0.0 || x == y
  {
    Distribute(e, y, x - y);
  }

  /** NOTHING IS FORGOTTEN. Once the error is zero the integral stays what it was,
      however long ago its last contribution left the ring. */
  lemma {:induction false} IntegralNeverDecays(c: Config, t0: u64, rs: seq<Reading>, m: nat, k: nat)
    requires m <= k <= |rs|
    requires forall i :: m <= i < |rs| ==> rs[i].fill == c.setPoint
    ensures WindowSum(c, t0, rs, k) == WindowSum(c, t0, rs, m)
  {
    if m < k {
      IntegralNeverDecays(c, t0, rs, m, k - 1);
      ConstantTerm(c, t0, rs, k, 0.0, Lapse(t0, rs, k, c.capacity));
    }
  }

  /** The error of a sample; the first has none. */
  function ErrorAt(c: Config, rs: seq<Reading>, k: nat): real
    requires k <= |rs|
  {
    if k == 0 then 0.0 else c.setPoint - rs[k - 1].fill
  }

  /** What the controller should answer at step k: kp times the error, plus ki times the
      integral up to and with this step, plus kd times the change of the error since the
      sample capacity steps back over the time since then; nothing when no time has
      passed. */
  function Answer(c: Config, t0: u64, rs: seq<Reading>, k: nat): Option<real>
    requires 0 < k <= |rs|
  {
    var lapse := Lapse(t0, rs, k, c.capacity);
    if lapse == 0.0 then None
    else Some(Weighted(c, ErrorAt(c, rs, k), WindowSum(c, t0, rs, k),
                       Slope(ErrorAt(c, rs, k), ErrorAt(c, rs, Past(k, c.capacity)), lapse)))
  }

  lemma TermsAnswer(c: Config, fill: real, dt: real, past: real, had: real, error: real, integral: real)
    requires error == c.setPoint - fill && integral == had + error * dt && dt != 0.0
    ensures PidTerms(c, fill, dt, past, had).0.Some?
    ensures PidTerms(c, fill, dt, past, had).0.value == Weighted(c, error, integral, Slope(error, past, dt))
  {
    var e := c.setPoint - fill;
    assert e == error;
    assert e * dt + had == integral;
    assert Slope(e, past, dt) == Slope(error, past, dt);
    assert PidTerms(c, fill, dt, past, had).0.value == Weighted(c, e, e * dt + had, Slope(e, past, dt));
  }

  /** What the history of the first n readings says about step j. */
  lemma SampleAt(c: Config, t0: u64, rs: seq<Reading>, n: nat, j: nat)
    requires j <= n <= |rs|
    ensures History(c, t0, rs[..n])[j] == Sample(TimeAt(t0, rs, j), ErrorAt(c, rs, j), WindowSum(c, t0, rs, j))
  {
    IntegralIsWindowSum(c, t0, rs[..n], j);
    WindowSumOfPrefix(c, t0, rs, n, j);
  }

  lemma OutputFrom(c: Config, h: seq<Sample>, r: Reading, past: Sample, had: real, lapse: real, error: real,
                   integral: real)
    requires h != [] && h[Past(|h|, c.capacity)] == past && h[|h| - 1].integral == had
    requires lapse == Seconds(Since(r.time, past.time))
    requires error == c.setPoint - r.fill && integral == had + error * lapse
    ensures Output(c, h, r)
      == if lapse == 0.0 then None else Some(Weighted(c, error, integral, Slope(error, past.error, lapse)))
  {
    if lapse != 0.0 { TermsAnswer(c, r.fill, lapse, past.error, had, error, integral); }
  }

  lemma IntegralGrows(c: Config, t0: u64, rs: seq<Reading>, k: nat)
    requires 0 < k <= |rs|
    ensures WindowSum(c, t0, rs, k) == WindowSum(c, t0, rs, k - 1) + ErrorAt(c, rs, k) * Lapse(t0, rs, k, c.capacity)
  {
  }

  lemma AnswerFrom(c: Config, t0: u64, rs: seq<Reading>, k: nat)
    returns (lapse: real, error: real, before: real, had: real, integral: real)
    requires 0 < k <= |rs|
    ensures lapse == Lapse(t0, rs, k, c.capacity) && error == c.setPoint - rs[k - 1].fill
    ensures before == ErrorAt(c, rs, Past(k, c.capacity)) && had == WindowSum(c, t0, rs, k - 1)
    ensures integral == had + error * lapse
    ensures Answer(c, t0, rs, k)
      == if lapse == 0.0 then None else Some(Weighted(c, error, integral, Slope(error, before, lapse)))
  {
    IntegralGrows(c, t0, rs, k);
    lapse, error, before := Lapse(t0, rs, k, c.capacity), ErrorAt(c, rs, k), ErrorAt(c, rs, Past(k, c.capacity));
    had, integral := WindowSum(c, t0, rs, k - 1), WindowSum(c, t0, rs, k);
  }

  /** THE CONTROLLER ANSWERS THAT, at every step. */
  lemma OutputIs(c: Config, t0: u64, rs: seq<Reading>, k: nat)
    requires 0 < k <= |rs|
    ensures Output(c, History(c, t0, rs[..k - 1]), rs[k - 1]) == Answer(c, t0, rs, k)
  {
    var lapse, error, before, had, integral := AnswerFrom(c, t0, rs, k);
    SampleAt(c, t0, rs, k - 1, k - 1);
    SampleAt(c, t0, rs, k - 1, Past(k, c.capacity));
    var h := History(c, t0, rs[..k - 1]);
    OutputFrom(c, h, rs[k - 1], h[Past(k, c.capacity)], had, lapse, error, integral);
  }

  /** The three gains, one at a time. */
  lemma AnswerOfEachGain(c: Config, t0: u64, rs: seq<Reading>, k: nat)
    requires 0 < k <= |rs| && Lapse(t0, rs, k, c.capacity) != 0.0
    ensures Answer(c, t0, rs, k).Some?
    ensures var past := if k <= c.capacity then 0 else k - c.capacity;
      var error := c.setPoint - rs[k - 1].fill;
      var before := if past == 0 then 0.0 else c.setPoint - rs[past - 1].fill;
      var answer := Answer(c, t0, rs, k).value;
      && (c.ki == c.kd == 0.0 ==> answer == c.kp * error)
      && (c.kp == c.kd == 0.0 ==> answer == c.ki * WindowSum(c, t0, rs, k))
      && (c.kp == c.ki == 0.0 ==> answer == c.kd * ((error - before) / Lapse(t0, rs, k, c.capacity)))
  {
    var error, before := ErrorAt(c, rs, k), ErrorAt(c, rs, Past(k, c.capacity));
    var slope := Slope(error, before, Lapse(t0, rs, k, c.capacity));
    EachGain(c, error, WindowSum(c, t0, rs, k), slope);
    assert Answer(c, t0, rs, k).value == Weighted(c, error, WindowSum(c, t0, rs, k), slope);
  }

  /** The thread from its start: what it has sampled is the history of its readings, and
      its answers are those it should give. */
  method SampleAll(cfg: Config, t0: u64, rs: seq<Reading>) returns (c: Controller, outputs: seq<Option<real>>)
    ensures c.Valid() && c.cfg == cfg && c.history == History(cfg, t0, rs)
    ensures c.pidSampleBuffer == Window(History(cfg, t0, rs), cfg.capacity)
    ensures |outputs| == |rs| && forall k :: 0 <= k < |rs| ==> outputs[k] == Answer(cfg, t0, rs, k + 1)
  {
    c := new Controller(cfg, t0);
    outputs := [];
    for k := 0 to |rs|
      invariant c.Valid() && c.cfg == cfg && fresh(c) && c.history == History(cfg, t0, rs[..k])
      invariant |outputs| == k && forall j :: 0 <= j < k ==> outputs[j] == Answer(cfg, t0, rs, j + 1)
    {
      OutputIs(cfg, t0, rs, k + 1);
      var output := c.Step(rs[k]);
      outputs := outputs + [output];
      assert rs[..k + 1][..k] == rs[..k];
    }
    assert rs[..|rs|] == rs;
  }
}
