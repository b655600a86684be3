/** The controller session of the 5R7-001 temperature controller and the
    thermal-cycling program that drives it.

    The serial port is a trace of events: every exchange flushes the
    input buffer, then writes one frame. The replies the device sends and
    the elapsed times the wall clock gives are supplied as sequences. A
    reply that does not decode raises in the source and ends the run;
    here it ends the run with an `aborted` outcome. */
module TemperatureControl {
  import opened Numerals
  import opened Auxil
  import opened Pcr

  /** A serial-port event. A write is named by the command code and value
      its frame encodes: the bytes written are `Frame(sent.code,
      sent.value)`, which `Transmit` demands of the frame it is given. */
  datatype Event = Flush | Write(sent: Setting)

  datatype WaitOutcome =
    | Settled    // within tolerance of the target
    | TimedOut   // the time limit passed first; a warning, not an error
    | Aborted    // a reply did not decode, which raises in the source

  /** The replies one `log_temperature` reads: set, control and periphery
      temperature, in that order. */
  datatype Sample = Sample(setReply: seq<char>, controlReply: seq<char>, peripheryReply: seq<char>)

  /** What one pass of a waiting loop reads: the control-temperature reply,
      the elapsed time taken after it, and the telemetry sample. */
  datatype Pass = Pass(reply: seq<char>, elapsed: real, sample: Sample)

  /** What one stage of the program reads: the passes of its steady-state
      wait and of its incubation. */
  datatype StageInput = StageInput(wait: seq<Pass>, hold: seq<Pass>)

  // The hard-coded query frames of the getters, and the code and value
  // each encodes (see the *QueryIsCheckSum lemmas).
  const ControlQuery: seq<char> := "*00010000000041\r"
  const PeripheryQuery: seq<char> := "*00060000000046\r"
  const SetTemperatureQuery: seq<char> := "*00030000000043\r"
  const PBandwidthQuery: seq<char> := "*00510000000046\r"
  const IGainQuery: seq<char> := "*00520000000047\r"
  const DGainQuery: seq<char> := "*00530000000048\r"
  const ReadControl := Setting("01", 0)
  const ReadPeriphery := Setting("06", 0)
  const ReadSetTemperature := Setting("03", 0)
  const ReadPBandwidth := Setting("51", 0)
  const ReadIGain := Setting("52", 0)
  const ReadDGain := Setting("53", 0)

  /** The command codes the getters query: 01, 03, 06, 51, 52 and 53. */
  predicate IsQueryCode(code: seq<char>) {
    |code| == 2
    && ((code[0] == '0' && (code[1] == '1' || code[1] == '3' || code[1] == '6'))
        || (code[0] == '5' && (code[1] == '1' || code[1] == '2' || code[1] == '3')))
  }

  /** One exchange: flush the input buffer, then write the frame of `st`. */
  function Exchange(st: Setting): seq<Event> {
    [Flush, Write(st)]
  }

  /** One exchange per setting, in order. */
  function ExchangeAll(sts: seq<Setting>): seq<Event> {
    if sts == [] then [] else ExchangeAll(sts[..|sts| - 1]) + Exchange(sts[|sts| - 1])
  }

  /** What setting a stage's parameters sends. */
  function StageEvents(s: Stage): seq<Event> {
    ExchangeAll(StageSettings(s))
  }

  /** What one complete telemetry sample writes: the set, control and
      periphery temperature queries. */
  function TelemetryEvents(): seq<Event> {
    Exchange(ReadSetTemperature) + Exchange(ReadControl) + Exchange(ReadPeriphery)
  }

  /** One complete pass of a waiting loop: read the control temperature,
      log a sample. */
  function PollEvents(): seq<Event> {
    Exchange(ReadControl) + TelemetryEvents()
  }

  function Repeat(es: seq<Event>, k: nat): seq<Event> {
    if k == 0 then [] else Repeat(es, k - 1) + es
  }

  /** A temperature reply in C: the decoded value over 100. */
  function Reading(reply: seq<char>): real
    requires Decodable(reply)
  {
    DecodableValue(reply);
    ResponseValue(reply).value as real / 100.0
  }

  predicate SampleDecodable(s: Sample) {
    Decodable(s.setReply) && Decodable(s.controlReply) && Decodable(s.peripheryReply)
  }

  predicate PassDecodable(p: Pass) {
    Decodable(p.reply) && SampleDecodable(p.sample)
  }

  /** What `log_temperature` sends: its three queries in order, up to the
      first whose reply does not decode. */
  function SampleEvents(s: Sample): seq<Event> {
    Exchange(ReadSetTemperature)
    + (if !Decodable(s.setReply) then []
       else Exchange(ReadControl)
            + (if !Decodable(s.controlReply) then [] else Exchange(ReadPeriphery)))
  }

  /** What one pass of a waiting loop sends, up to a failed decode. */
  function PassEvents(p: Pass): seq<Event> {
    Exchange(ReadControl) + (if Decodable(p.reply) then SampleEvents(p.sample) else [])
  }

  /** What the first n passes of a waiting loop send. */
  function LoopEvents(passes: seq<Pass>, n: nat): seq<Event>
    requires n <= |passes|
  {
    if n == 0 then [] else LoopEvents(passes, n - 1) + PassEvents(passes[n - 1])
  }

  /** How far one stage got: the passes its steady-state wait and its
      incubation read. */
  datatype Run = Run(waited: nat, held: nat)

  predicate RunFits(input: StageInput, r: Run) {
    r.waited <= |input.wait| && r.held <= |input.hold|
  }

  /** A stage that got as far as `r` was aborted: the last pass of its wait
      or of its incubation read a reply that does not decode. */
  predicate RunAborted(input: StageInput, r: Run)
    requires RunFits(input, r)
  {
    (r.waited > 0 && !PassDecodable(input.wait[r.waited - 1]))
    || (r.held > 0 && !PassDecodable(input.hold[r.held - 1]))
  }

  /** What one stage sends: its parameters, then the passes of its loops. */
  function RunEvents(s: Stage, input: StageInput, r: Run): seq<Event>
    requires RunFits(input, r)
  {
    StageEvents(s) + LoopEvents(input.wait, r.waited) + LoopEvents(input.hold, r.held)
  }

  /** Runs of the stages at positions a, a + 1, ... that fit their inputs. */
  predicate RunsFit(inputs: seq<StageInput>, a: nat, runs: seq<Run>) {
    a + |runs| <= |inputs| && forall k :: 0 <= k < |runs| ==> RunFits(inputs[a + k], runs[k])
  }

  /** Stages at positions a, a + 1, ... that ran one after another: each
      but the last ended without an abort, and `aborted` says whether the
      last one ended with one. */
  predicate AbortsLast(inputs: seq<StageInput>, a: nat, runs: seq<Run>, aborted: bool) {
    RunsFit(inputs, a, runs) && runs != []
    && (forall k :: 0 <= k < |runs| - 1 ==> !RunAborted(inputs[a + k], runs[k]))
    && (aborted <==> RunAborted(inputs[a + |runs| - 1], runs[|runs| - 1]))
  }

  /** The telemetry lines a stage that got as far as `r` wrote: one per
      pass of its wait and of its incubation, except a last pass that
      aborted before its sample was logged. */
  function RunLogged(input: StageInput, r: Run): nat
    requires RunFits(input, r)
  {
    if RunAborted(input, r) then r.waited + r.held - 1 else r.waited + r.held
  }

  /** The telemetry lines the stages `runs` at positions a, a + 1, ... wrote. */
  function Logged(inputs: seq<StageInput>, a: nat, runs: seq<Run>): nat
    requires RunsFit(inputs, a, runs)
  {
    if runs == [] then 0
    else Logged(inputs, a, runs[..|runs| - 1]) + RunLogged(inputs[a + |runs| - 1], runs[|runs| - 1])
  }

  /** The passes of all the waits and incubations of the stages `runs`. */
  function Passes(runs: seq<Run>): nat {
    if runs == [] then 0 else Passes(runs[..|runs| - 1]) + runs[|runs| - 1].waited + runs[|runs| - 1].held
  }

  /** What each stage at positions a, a + 1, ... of a plan sends. */
  function RunsParts(p: Profile, phases: seq<Phase>, inputs: seq<StageInput>, a: nat, runs: seq<Run>): (parts: seq<seq<Event>>)
    requires a + |runs| <= |phases| && RunsFit(inputs, a, runs)
    ensures |parts| == |runs|
  {
    seq(|runs|, k requires 0 <= k < |runs| => RunEvents(StageOf(p, phases[a + k]), inputs[a + k], runs[k]))
  }

  /** What the stages at positions a, a + 1, ... of a plan send, in order. */
  function RunsEvents(p: Profile, phases: seq<Phase>, inputs: seq<StageInput>, a: nat, runs: seq<Run>): seq<Event>
    requires a + |runs| <= |phases| && RunsFit(inputs, a, runs)
  {
    Flatten(RunsParts(p, phases, inputs, a, runs))
  }

  /** Every write is immediately preceded by a flush of the input buffer. */
  ghost predicate FlushedWrites(t: seq<Event>) {
    forall i :: 0 <= i < |t| && t[i].Write? ==> 0 < i && t[i - 1] == Flush
  }

  /** The parameter writes of a trace: every write whose command code is
      not one the getters query. */
  function Setters(t: seq<Event>): seq<Setting> {
    if t == [] then []
    else
      var e := t[|t| - 1];
      Setters(t[..|t| - 1]) + (if e.Write? && !IsQueryCode(e.sent.code) then [e.sent] else [])
  }

  function RealAbs(x: real): real {
    if x < 0.0 then -x else x
  }

  /** `tolerance=None` defaults to 1 C. */
  function Tolerance(tolerance: Option<real>): real {
    if tolerance.None? then 1.0 else tolerance.value
  }

  /** The steady-state exit: within tolerance, but never at a zero difference. */
  predicate SettledAt(target: real, tolerance: real, ct: real) {
    RealAbs(target - ct) <= tolerance && RealAbs(target - ct) != 0.0
  }

  /** The supplied clock eventually passes the limit. */
  predicate ClockPasses(passes: seq<Pass>, limit: real) {
    exists j :: 0 <= j < |passes| && passes[j].elapsed > limit
  }

  /** What one pass of `wait_for_SS` decides: the wait ends aborted on a
      reply that does not decode, settled on a reading within tolerance,
      timed out once the elapsed time passes the limit; otherwise (`None`)
      it goes on. */
  function PassOutcome(target: real, tolerance: real, limit: real, p: Pass): Option<WaitOutcome> {
    if !PassDecodable(p) then Some(Aborted)
    else if SettledAt(target, tolerance, Reading(p.reply)) then Some(Settled)
    else if p.elapsed > limit then Some(TimedOut)
    else None
  }

  /** The verdict of each pass, in order. */
  function Verdicts(target: real, tolerance: real, limit: real, passes: seq<Pass>): (vs: seq<Option<WaitOutcome>>)
    ensures |vs| == |passes|
  {
    if passes == [] then []
    else Verdicts(target, tolerance, limit, passes[..|passes| - 1])
         + [PassOutcome(target, tolerance, limit, passes[|passes| - 1])]
  }

  /** No verdict among the first i passes: the loop went on through each
      of them. */
  predicate Undecided<T>(vs: seq<Option<T>>, i: nat) {
    i <= |vs| && forall j :: 0 <= j < i ==> vs[j].None?
  }

  /** The loop ended after n passes with verdict v: pass n holds the first
      verdict. */
  predicate DecidedAt<T(==)>(vs: seq<Option<T>>, n: nat, v: T) {
    1 <= n <= |vs| && Undecided(vs, n - 1) && vs[n - 1] == Some(v)
  }

  /** The wait is decided by the first pass whose clock passes the limit. */
  lemma DecidedByClock(target: real, tolerance: real, limit: real, passes: seq<Pass>, i: nat, bound: nat)
    requires bound < |passes| && passes[bound].elapsed > limit
    requires Undecided(Verdicts(target, tolerance, limit, passes), i)
    ensures i <= bound
  {
    VerdictAt(target, tolerance, limit, passes, bound);
  }

  /** The incubation is decided by the first pass whose clock passes the
      hold time. */
  lemma HoldByClock(timeSec: int, passes: seq<Pass>, i: nat, bound: nat)
    requires bound < |passes| && passes[bound].elapsed > timeSec as real
    requires Undecided(HoldVerdicts(timeSec, passes), i)
    ensures i <= bound
  {
    HoldVerdictAt(timeSec, passes, bound);
  }

  /** After undecided passes, the next pass either leaves the loop
      undecided or is the first decided one. */
  lemma DecideStep<T>(vs: seq<Option<T>>, i: nat)
    requires Undecided(vs, i) && i < |vs|
    ensures vs[i].None? ==> Undecided(vs, i + 1)
    ensures vs[i].Some? ==> DecidedAt(vs, i + 1, vs[i].value)
  {
  }

  /** What one pass of `incubate_reagent` decides: `Some(true)` (aborted) on
      a reply that does not decode, `Some(false)` once the elapsed time has
      passed the hold time; otherwise (`None`) it goes on. */
  function HoldOutcome(timeSec: int, p: Pass): Option<bool> {
    if !PassDecodable(p) then Some(true)
    else if p.elapsed > timeSec as real then Some(false)
    else None
  }

  /** The verdict of each incubation pass, in order. */
  function HoldVerdicts(timeSec: int, passes: seq<Pass>): (vs: seq<Option<bool>>)
    ensures |vs| == |passes|
  {
    if passes == [] then []
    else HoldVerdicts(timeSec, passes[..|passes| - 1]) + [HoldOutcome(timeSec, passes[|passes| - 1])]
  }

  /** How `incubate_reagent` ends after n passes: none for a negative hold
      time, since its loop test fails at once; otherwise at the first pass
      with a verdict, aborted or not. */
  predicate IncubateEnds(timeSec: int, passes: seq<Pass>, n: nat, aborted: bool) {
    n <= |passes|
    && (timeSec < 0 ==> n == 0 && !aborted)
    && (timeSec >= 0 ==> DecidedAt(HoldVerdicts(timeSec, passes), n, aborted))
  }

  /** Time limit of a steady-state wait, in seconds: `time_limit` minutes. */
  function Limit(p: Profile): real {
    (p.timeLimit * 60) as real
  }

  /** The input of a stage lets its loops end: the wait's clock passes the
      time limit and, for a hold time that is not negative, the
      incubation's clock passes the hold time. */
  predicate InputFits(p: Profile, phase: Phase, input: StageInput) {
    (Waits(phase) ==> ClockPasses(input.wait, Limit(p)))
    && (StageOf(p, phase).holdSec >= 0 ==> ClockPasses(input.hold, StageOf(p, phase).holdSec as real))
  }

  /** Verdict i is the outcome of pass i. */
  lemma {:induction false} VerdictAt(target: real, tolerance: real, limit: real, passes: seq<Pass>, i: nat)
    requires i < |passes|
    ensures Verdicts(target, tolerance, limit, passes)[i] == PassOutcome(target, tolerance, limit, passes[i])
    decreases |passes|
  {
    var init := passes[..|passes| - 1];
    if i < |init| {
      VerdictAt(target, tolerance, limit, init, i);
      assert init[i] == passes[i];
    }
  }

  /** Incubation verdict i is the outcome of pass i. */
  lemma {:induction false} HoldVerdictAt(timeSec: int, passes: seq<Pass>, i: nat)
    requires i < |passes|
    ensures HoldVerdicts(timeSec, passes)[i] == HoldOutcome(timeSec, passes[i])
    decreases |passes|
  {
    var init := passes[..|passes| - 1];
    if i < |init| {
      HoldVerdictAt(timeSec, init, i);
      assert init[i] == passes[i];
    }
  }

  /** A wait ends aborted exactly when its last pass read a reply that
      does not decode. */
  lemma WaitAborted(target: real, tolerance: real, limit: real, passes: seq<Pass>, n: nat, outcome: WaitOutcome)
    requires DecidedAt(Verdicts(target, tolerance, limit, passes), n, outcome)
    ensures outcome == Aborted <==> !PassDecodable(passes[n - 1])
  {
    VerdictAt(target, tolerance, limit, passes, n - 1);
  }

  /** An incubation ends aborted exactly when its last pass read a reply
      that does not decode. */
  lemma HoldAborted(timeSec: int, passes: seq<Pass>, n: nat, aborted: bool)
    requires IncubateEnds(timeSec, passes, n, aborted)
    ensures aborted <==> n > 0 && !PassDecodable(passes[n - 1])
  {
    if timeSec >= 0 {
      HoldVerdictAt(timeSec, passes, n - 1);
    }
  }

  /** However a stage ended, it ended aborted exactly when the last pass
      of its wait or of its incubation read a reply that does not decode. */
  lemma StageAborts(target: real, tolerance: real, limit: real, timeSec: int, input: StageInput, run: Run,
                    wait: Option<WaitOutcome>, aborted: bool)
    requires RunFits(input, run)
    requires wait.None? ==> run.waited == 0
    requires wait.Some? ==> DecidedAt(Verdicts(target, tolerance, limit, input.wait), run.waited, wait.value)
    requires wait == Some(Aborted) ==> run.held == 0 && aborted
    requires wait != Some(Aborted) ==> IncubateEnds(timeSec, input.hold, run.held, aborted)
    ensures aborted <==> RunAborted(input, run)
  {
    if wait.Some? {
      WaitAborted(target, tolerance, limit, input.wait, run.waited, wait.value);
    }
    if wait != Some(Aborted) {
      HoldAborted(timeSec, input.hold, run.held, aborted);
    }
  }

  /** How the stage at plan position `phase` ends on its input, by the
      rules of `RunStage`: the steady-state wait (none for the final hold)
      ends at its first decided pass and, unless that pass aborted, the
      incubation for the stage's hold time ends by `IncubateEnds`. */
  predicate StageRan(p: Profile, phase: Phase, input: StageInput, r: Run) {
    var s := StageOf(p, phase);
    RunFits(input, r)
    && (Waits(phase) ==> exists o :: DecidedAt(Verdicts(s.temp, p.tolerance, Limit(p), input.wait), r.waited, o))
    && (!Waits(phase) ==> r.waited == 0)
    && (if r.waited > 0 && !PassDecodable(input.wait[r.waited - 1]) then r.held == 0
        else exists aborted :: IncubateEnds(s.holdSec, input.hold, r.held, aborted))
  }

  /** Each of the stages `runs`, at plan positions a, a + 1, ..., ended by
      the rules of `StageRan`. */
  predicate StagesRan(p: Profile, inputs: seq<StageInput>, a: nat, runs: seq<Run>) {
    a + |runs| <= |inputs| && a + |runs| <= |Plan(p)|
    && forall k :: 0 <= k < |runs| ==> StageRan(p, Plan(p)[a + k], inputs[a + k], runs[k])
  }

  /** A loop ends at one pass only: the first decided one. */
  lemma DecidedUnique<T>(vs: seq<Option<T>>, n1: nat, v1: T, n2: nat, v2: T)
    requires DecidedAt(vs, n1, v1) && DecidedAt(vs, n2, v2)
    ensures n1 == n2 && v1 == v2
  {
  }

  /** The replies a stage reads determine how far it gets. */
  lemma StageRanUnique(p: Profile, phase: Phase, input: StageInput, r1: Run, r2: Run)
    requires StageRan(p, phase, input, r1) && StageRan(p, phase, input, r2)
    ensures r1 == r2
  {
    var s := StageOf(p, phase);
    if Waits(phase) {
      var vs := Verdicts(s.temp, p.tolerance, Limit(p), input.wait);
      var o1 :| DecidedAt(vs, r1.waited, o1);
      var o2 :| DecidedAt(vs, r2.waited, o2);
      DecidedUnique(vs, r1.waited, o1, r2.waited, o2);
    }
    if !(r1.waited > 0 && !PassDecodable(input.wait[r1.waited - 1])) {
      var b1 :| IncubateEnds(s.holdSec, input.hold, r1.held, b1);
      var b2 :| IncubateEnds(s.holdSec, input.hold, r2.held, b2);
      if s.holdSec >= 0 {
        DecidedUnique(HoldVerdicts(s.holdSec, input.hold), r1.held, b1, r2.held, b2);
      }
    }
  }

  /** The replies determine the whole program: two runs on the same inputs
      whose stages each end by the rules of `StageRan`, which stop at the
      first stage that aborts and otherwise run every stage of the plan,
      got equally far in every stage and agree on the abort. */
  lemma RunsDetermined(p: Profile, inputs: seq<StageInput>, runs1: seq<Run>, aborted1: bool,
                       runs2: seq<Run>, aborted2: bool)
    requires AbortsLast(inputs, 0, runs1, aborted1) && StagesRan(p, inputs, 0, runs1)
    requires !aborted1 ==> |runs1| == |Plan(p)|
    requires AbortsLast(inputs, 0, runs2, aborted2) && StagesRan(p, inputs, 0, runs2)
    requires !aborted2 ==> |runs2| == |Plan(p)|
    ensures runs1 == runs2 && aborted1 == aborted2
  {
    var m := if |runs1| < |runs2| then |runs1| else |runs2|;
    forall k | 0 <= k < m
      ensures runs1[k] == runs2[k]
    {
      StageRanUnique(p, Plan(p)[k], inputs[k], runs1[k], runs2[k]);
    }
  }

  /** One more stage after the stages `runs`. */
  lemma StagesRanStep(p: Profile, inputs: seq<StageInput>, a: nat, runs: seq<Run>, r: Run)
    requires StagesRan(p, inputs, a, runs) && a + |runs| < |inputs| && a + |runs| < |Plan(p)|
    requires StageRan(p, Plan(p)[a + |runs|], inputs[a + |runs|], r)
    ensures StagesRan(p, inputs, a, runs + [r])
  {
    var rs := runs + [r];
    assert rs[|runs|] == r;
    assert forall k :: 0 <= k < |runs| ==> rs[k] == runs[k];
  }

  /** The exit prompt accepts `Q` or `q`, surrounding whitespace ignored. */
  predicate Accepts(line: seq<char>) {
    Strip(line) == "Q" || Strip(line) == "q"
  }

  class Controller {
    const profile: Profile
    var cycle: int          // PCR cycle counter
    var trace: seq<Event>   // what was sent on the serial port
    var samples: nat        // telemetry lines written to the log file
    var logOpen: bool       // the telemetry log file is open

    /** Every write follows a flush of the input buffer. */
    ghost predicate Valid()
      reads this
    {
      FlushedWrites(trace)
    }

    /** `__init__` starts the cycle counter at 0 and sends nothing. It opens
        no log: the caller assigns `logfile` to the new object afterwards,
        and `logOpen` says whether it has. */
    constructor (profile: Profile, logOpen: bool)
      ensures Valid()
      ensures this.profile == profile && cycle == 0 && trace == [] && samples == 0 && this.logOpen == logOpen
    {
      this.profile := profile;
      cycle := 0;
      trace := [];
      samples := 0;
      this.logOpen := logOpen;
    }

    /** Flushes the input buffer and writes `frame`, the frame of the code
        and value `sent`. */
    method Transmit(frame: seq<char>, sent: Setting)
      requires Valid() && |sent.code| == 2
      requires frame == Frame(sent.code, sent.value)
      modifies this
      ensures Valid()
      ensures trace == old(trace) + Exchange(sent)
      ensures cycle == old(cycle) && samples == old(samples) && logOpen == old(logOpen)
    {
      FlushedExchange(trace, sent);
      trace := trace + Exchange(sent);
    }

    //--------------------------------------------------------------------
    // Setters
    //--------------------------------------------------------------------

    method SetControlOn()
      requires Valid()
      modifies this
      ensures Valid()
      ensures trace == old(trace) + Exchange(Setting("2d", 1))
      ensures cycle == old(cycle) && samples == old(samples) && logOpen == old(logOpen)
    {
      var frame := SetCommand("2d", 1.0);
      Transmit(frame, Setting("2d", Ceil(1.0)));
    }

    method SetControlOff()
      requires Valid()
      modifies this
      ensures Valid()
      ensures trace == old(trace) + Exchange(Setting("2d", 0))
      ensures cycle == old(cycle) && samples == old(samples) && logOpen == old(logOpen)
    {
      var frame := SetCommand("2d", 0.0);
      Transmit(frame, Setting("2d", Ceil(0.0)));
    }

    /** Sets the target temperature in C, sent in hundredths. */
    method SetTemperature(temperature: real)
      requires Valid()
      modifies this
      ensures Valid()
      ensures trace == old(trace) + Exchange(Setting("1c", Ceil(temperature * 100.0)))
      ensures cycle == old(cycle) && samples == old(samples) && logOpen == old(logOpen)
    {
      var frame := SetCommand("1c", temperature * 100.0);
      Transmit(frame, Setting("1c", Ceil(temperature * 100.0)));
    }

    /** Sets the proportional bandwidth, sent in fiftieths. */
    method SetPBandwidth(pb: real)
      requires Valid()
      modifies this
      ensures Valid()
      ensures trace == old(trace) + Exchange(Setting("1d", Ceil(pb * 50.0)))
      ensures cycle == old(cycle) && samples == old(samples) && logOpen == old(logOpen)
    {
      var frame := SetCommand("1d", pb * 50.0);
      Transmit(frame, Setting("1d", Ceil(pb * 50.0)));
    }

    method SetIGain(ig: real)
      requires Valid()
      modifies this
      ensures Valid()
      ensures trace == old(trace) + Exchange(Setting("1e", Ceil(ig * 100.0)))
      ensures cycle == old(cycle) && samples == old(samples) && logOpen == old(logOpen)
    {
      var frame := SetCommand("1e", ig * 100.0);
      Transmit(frame, Setting("1e", Ceil(ig * 100.0)));
    }

    method SetDGain(dg: real)
      requires Valid()
      modifies this
      ensures Valid()
      ensures trace == old(trace) + Exchange(Setting("1f", Ceil(dg * 100.0)))
      ensures cycle == old(cycle) && samples == old(samples) && logOpen == old(logOpen)
    {
      var frame := SetCommand("1f", dg * 100.0);
      Transmit(frame, Setting("1f", Ceil(dg * 100.0)));
    }

    //--------------------------------------------------------------------
    // Getters: write the query, decode the reply window, scale
    //--------------------------------------------------------------------

    method Query(frame: seq<char>, ask: Setting, reply: seq<char>, scale: real) returns (r: Result<real>)
      requires Valid() && scale > 0.0 && |ask.code| == 2
      requires frame == Frame(ask.code, ask.value)
      modifies this
      ensures Valid()
      ensures trace == old(trace) + Exchange(ask)
      ensures cycle == old(cycle) && samples == old(samples) && logOpen == old(logOpen)
      ensures r.Ok? <==> Decodable(reply)
      ensures r.Ok? ==> ResponseValue(reply).Ok? && r.value == ResponseValue(reply).value as real / scale
      ensures r.Err? ==> ResponseValue(reply).Err? && r.error == ResponseValue(reply).error
    {
      Transmit(frame, ask);
      DecodableValue(reply);
      var text := GetResponse(reply);
      if text.Err? {
        return Err(text.error);
      }
      var x := FixedPoint4Value(text.value);
      r := Ok(x.value / scale);
    }

    method GetControlTemperature(reply: seq<char>) returns (r: Result<real>)
      requires Valid()
      modifies this
      ensures Valid()
      ensures trace == old(trace) + Exchange(ReadControl)
      ensures cycle == old(cycle) && samples == old(samples) && logOpen == old(logOpen)
      ensures r.Ok? <==> Decodable(reply)
      ensures r.Ok? ==> r.value == Reading(reply)
    {
      ControlQueryIsCheckSum();
      r := Query(ControlQuery, ReadControl, reply, 100.0);
    }

    method GetPeripheryTemperature(reply: seq<char>) returns (r: Result<real>)
      requires Valid()
      modifies this
      ensures Valid()
      ensures trace == old(trace) + Exchange(ReadPeriphery)
      ensures cycle == old(cycle) && samples == old(samples) && logOpen == old(logOpen)
      ensures r.Ok? <==> Decodable(reply)
      ensures r.Ok? ==> r.value == Reading(reply)
    {
      PeripheryQueryIsCheckSum();
      r := Query(PeripheryQuery, ReadPeriphery, reply, 100.0);
    }

    method GetSetTemperature(reply: seq<char>) returns (r: Result<real>)
      requires Valid()
      modifies this
      ensures Valid()
      ensures trace == old(trace) + Exchange(ReadSetTemperature)
      ensures cycle == old(cycle) && samples == old(samples) && logOpen == old(logOpen)
      ensures r.Ok? <==> Decodable(reply)
      ensures r.Ok? ==> r.value == Reading(reply)
    {
      SetTemperatureQueryIsCheckSum();
      r := Query(SetTemperatureQuery, ReadSetTemperature, reply, 100.0);
    }

    /** The proportional bandwidth is the one parameter scaled by 50. */
    method GetPBandwidth(reply: seq<char>) returns (r: Result<real>)
      requires Valid()
      modifies this
      ensures Valid()
      ensures trace == old(trace) + Exchange(ReadPBandwidth)
      ensures cycle == old(cycle) && samples == old(samples) && logOpen == old(logOpen)
      ensures r.Ok? <==> Decodable(reply)
      ensures r.Ok? ==> ResponseValue(reply).Ok? && r.value == ResponseValue(reply).value as real / 50.0
    {
      PBandwidthQueryIsCheckSum();
      r := Query(PBandwidthQuery, ReadPBandwidth, reply, 50.0);
    }

    method GetIGain(reply: seq<char>) returns (r: Result<real>)
      requires Valid()
      modifies this
      ensures Valid()
      ensures trace == old(trace) + Exchange(ReadIGain)
      ensures cycle == old(cycle) && samples == old(samples) && logOpen == old(logOpen)
      ensures r.Ok? <==> Decodable(reply)
      ensures r.Ok? ==> r.value == Reading(reply)
    {
      IGainQueryIsCheckSum();
      r := Query(IGainQuery, ReadIGain, reply, 100.0);
    }

    method GetDGain(reply: seq<char>) returns (r: Result<real>)
      requires Valid()
      modifies this
      ensures Valid()
      ensures trace == old(trace) + Exchange(ReadDGain)
      ensures cycle == old(cycle) && samples == old(samples) && logOpen == old(logOpen)
      ensures r.Ok? <==> Decodable(reply)
      ensures r.Ok? ==> r.value == Reading(reply)
    {
      DGainQueryIsCheckSum();
      r := Query(DGainQuery, ReadDGain, reply, 100.0);
    }

    //--------------------------------------------------------------------
    // Waiting loops
    //--------------------------------------------------------------------

    /** Queries set, control and periphery temperature and writes one line
        to the log file; a reply that does not decode stops it before the
        line is written. */
    method LogTemperature(sample: Sample) returns (logged: bool)
      requires Valid() && logOpen
      modifies this
      ensures Valid()
      ensures logged <==> SampleDecodable(sample)
      ensures trace == old(trace) + SampleEvents(sample)
      ensures samples == old(samples) + (if logged then 1 else 0)
      ensures cycle == old(cycle) && logOpen == old(logOpen)
    {
      var st := GetSetTemperature(sample.setReply);
      if st.Err? {
        return false;
      }
      var pt := GetControlTemperature(sample.controlReply);
      if pt.Err? {
        return false;
      }
      var ct := GetPeripheryTemperature(sample.peripheryReply);
      if ct.Err? {
        return false;
      }
      samples := samples + 1;
      logged := true;
    }

    /** One pass of a waiting loop: read the control temperature, then log
        a sample; a reply that does not decode stops the pass there. */
    method Poll(pass: Pass) returns (ok: bool, ct: real)
      requires Valid() && logOpen
      modifies this
      ensures Valid()
      ensures ok <==> PassDecodable(pass)
      ensures ok ==> ct == Reading(pass.reply)
      ensures trace == old(trace) + PassEvents(pass)
      ensures samples == old(samples) + (if ok then 1 else 0)
      ensures cycle == old(cycle) && logOpen == old(logOpen)
    {
      var reading := GetControlTemperature(pass.reply);
      if reading.Err? {
        return false, 0.0;
      }
      ct := reading.value;
      ok := LogTemperature(pass.sample);
    }

    /** One pass of `wait_for_SS`: read the control temperature, log a
        sample, then check the reading against the target and the elapsed
        time against the limit. */
    method WaitPass(target: real, tol: real, passes: seq<Pass>, i: nat) returns (verdict: Option<WaitOutcome>)
      requires Valid() && logOpen && i < |passes|
      modifies this
      ensures Valid()
      ensures verdict == Verdicts(target, tol, Limit(profile), passes)[i]
      ensures verdict.None? ==> passes[i].elapsed <= Limit(profile)
      ensures trace == old(trace) + PassEvents(passes[i])
      ensures samples == old(samples) + (if verdict == Some(Aborted) then 0 else 1)
      ensures cycle == old(cycle) && logOpen == old(logOpen)
    {
      var pass := passes[i];
      VerdictAt(target, tol, Limit(profile), passes, i);
      var ok, ct := Poll(pass);
      if !ok {
        return Some(Aborted);
      }
      var tempDiff := RealAbs(target - ct);
      if tempDiff <= tol && tempDiff != 0.0 {
        return Some(Settled);
      }
      if pass.elapsed > Limit(profile) {
        return Some(TimedOut);
      }
      return None;
    }

    /** Pass i of the wait after i undecided passes: it either leaves the
        wait undecided or is the first decided pass. */
    method WaitStep(target: real, tol: real, passes: seq<Pass>, i: nat, ghost t0: seq<Event>, ghost bound: nat)
      returns (verdict: Option<WaitOutcome>)
      requires Valid() && logOpen && i < |passes| && Undecided(Verdicts(target, tol, Limit(profile), passes), i)
      requires bound < |passes| && passes[bound].elapsed > Limit(profile)
      requires trace == t0 + LoopEvents(passes, i)
      modifies this
      ensures Valid()
      ensures verdict.None? ==> passes[i].elapsed <= Limit(profile) && Undecided(Verdicts(target, tol, Limit(profile), passes), i + 1)
      ensures verdict.None? ==> i + 1 <= bound
      ensures verdict.Some? ==> DecidedAt(Verdicts(target, tol, Limit(profile), passes), i + 1, verdict.value)
      ensures trace == t0 + LoopEvents(passes, i + 1)
      ensures samples == old(samples) + (if verdict == Some(Aborted) then 0 else 1)
      ensures cycle == old(cycle) && logOpen == old(logOpen)
    {
      verdict := WaitPass(target, tol, passes, i);
      DecideStep(Verdicts(target, tol, Limit(profile), passes), i);
      if verdict.None? {
        DecidedByClock(target, tol, Limit(profile), passes, i + 1, bound);
      }
      Extend(t0, LoopEvents(passes, i), PassEvents(passes[i]), LoopEvents(passes, i + 1));
    }

    /** Waits for steady state: polls until a reading is within tolerance of
        the target (a zero difference does not count), or until the elapsed
        time passes the time limit. Every pass logs a sample before the
        checks; a reply that does not decode ends the wait. */
    method WaitForSS(target: real, tolerance: Option<real>, passes: seq<Pass>)
      returns (n: nat, outcome: WaitOutcome)
      requires Valid() && logOpen && ClockPasses(passes, Limit(profile))
      modifies this
      ensures Valid()
      ensures DecidedAt(Verdicts(target, Tolerance(tolerance), Limit(profile), passes), n, outcome)
      ensures trace == old(trace) + LoopEvents(passes, n)
      ensures samples == old(samples) + (if outcome == Aborted then n - 1 else n)
      ensures cycle == old(cycle) && logOpen == old(logOpen)
    {
      var tol := Tolerance(tolerance);
      ghost var vs := Verdicts(target, tol, Limit(profile), passes);
      ghost var bound :| 0 <= bound < |passes| && passes[bound].elapsed > Limit(profile);
      ghost var t0, s0 := trace, samples;
      var verdict := WaitStep(target, tol, passes, 0, t0, bound);
      var i := 0;
      while verdict.None?
        invariant i < bound || verdict.Some?
        invariant verdict.None? ==> Undecided(vs, i + 1)
        invariant verdict.Some? ==> DecidedAt(vs, i + 1, verdict.value)
        invariant Valid() && logOpen && cycle == old(cycle)
        invariant trace == t0 + LoopEvents(passes, i + 1)
        invariant samples == s0 + i + (if verdict == Some(Aborted) then 0 else 1)
        decreases bound - i
      {
        i := i + 1;
        verdict := WaitStep(target, tol, passes, i, t0, bound);
      }
      n, outcome := i + 1, verdict.value;
    }

    /** One pass of `incubate_reagent`: read the control temperature and
        the clock, then log a sample. */
    method HoldPass(timeSec: int, passes: seq<Pass>, i: nat) returns (verdict: Option<bool>, delta: real)
      requires Valid() && logOpen && i < |passes|
      modifies this
      ensures Valid()
      ensures verdict == HoldVerdicts(timeSec, passes)[i] && delta == passes[i].elapsed
      ensures verdict != Some(true) ==> (verdict.None? <==> delta <= timeSec as real)
      ensures trace == old(trace) + PassEvents(passes[i])
      ensures samples == old(samples) + (if verdict == Some(true) then 0 else 1)
      ensures cycle == old(cycle) && logOpen == old(logOpen)
    {
      HoldVerdictAt(timeSec, passes, i);
      var ok, ct := Poll(passes[i]);
      delta := passes[i].elapsed;
      verdict := if !ok then Some(true) else if delta > timeSec as real then Some(false) else None;
    }

    /** Pass i of the incubation after i undecided passes: it either leaves
        the incubation undecided or is the first decided pass. */
    method HoldStep(timeSec: int, passes: seq<Pass>, i: nat, ghost t0: seq<Event>) returns (verdict: Option<bool>, delta: real)
      requires Valid() && logOpen && i < |passes| && Undecided(HoldVerdicts(timeSec, passes), i)
      requires trace == t0 + LoopEvents(passes, i)
      modifies this
      ensures Valid()
      ensures delta == passes[i].elapsed
      ensures verdict != Some(true) ==> (verdict.None? <==> delta <= timeSec as real)
      ensures verdict.None? ==> Undecided(HoldVerdicts(timeSec, passes), i + 1)
      ensures verdict.Some? ==> DecidedAt(HoldVerdicts(timeSec, passes), i + 1, verdict.value)
      ensures trace == t0 + LoopEvents(passes, i + 1)
      ensures samples == old(samples) + (if verdict == Some(true) then 0 else 1)
      ensures cycle == old(cycle) && logOpen == old(logOpen)
    {
      verdict, delta := HoldPass(timeSec, passes, i);
      DecideStep(HoldVerdicts(timeSec, passes), i);
      Extend(t0, LoopEvents(passes, i), PassEvents(passes[i]), LoopEvents(passes, i + 1));
    }

    /** Incubates: polls and logs while the elapsed time has not passed the
        hold time; a reply that does not decode ends it. */
    method Incubate(timeSec: int, passes: seq<Pass>) returns (n: nat, aborted: bool)
      requires Valid() && logOpen
      requires timeSec >= 0 ==> ClockPasses(passes, timeSec as real)
      modifies this
      ensures Valid()
      ensures IncubateEnds(timeSec, passes, n, aborted)
      ensures trace == old(trace) + LoopEvents(passes, n)
      ensures samples == old(samples) + (if aborted then n - 1 else n)
      ensures cycle == old(cycle) && logOpen == old(logOpen)
    {
      ghost var vs := HoldVerdicts(timeSec, passes);
      ghost var bound: nat := 0;
      if timeSec >= 0 {
        bound :| 0 <= bound < |passes| && passes[bound].elapsed > timeSec as real;
      }
      var delta := 0.0;
      n, aborted := 0, false;
      while delta <= timeSec as real
        invariant !aborted && n <= |passes|
        invariant timeSec < 0 ==> n == 0
        invariant timeSec >= 0 ==> n <= bound + 1 && bound < |passes| && passes[bound].elapsed > timeSec as real
        invariant n == 0 ==> delta == 0.0
        invariant delta <= timeSec as real ==> Undecided(vs, n) && n <= bound
        invariant delta > timeSec as real && n > 0 ==> DecidedAt(vs, n, false)
        invariant Valid()
        invariant trace == old(trace) + LoopEvents(passes, n)
        invariant samples == old(samples) + n
        invariant cycle == old(cycle) && logOpen == old(logOpen)
        decreases bound + 1 - n
      {
        var verdict;
        verdict, delta := HoldStep(timeSec, passes, n, old(trace));
        n := n + 1;
        if verdict == Some(true) {
          aborted := true;
          break;
        }
        if verdict.None? {
          HoldByClock(timeSec, passes, n, bound);
        } else {
          assert verdict.value == false;
        }
      }
    }

    //--------------------------------------------------------------------
    // Exit gate and the program
    //--------------------------------------------------------------------

    /** Prompts until a line reads `Q` or `q`; then turns the control off
        once and closes the log. Without such a line nothing is sent. */
    method PressQToExit(lines: seq<seq<char>>) returns (accepted: bool, prompts: nat)
      requires Valid()
      modifies this
      ensures Valid()
      ensures accepted <==> exists i :: 0 <= i < |lines| && Accepts(lines[i])
      ensures prompts <= |lines|
      ensures accepted ==> 1 <= prompts && Accepts(lines[prompts - 1])
      ensures forall i :: 0 <= i < prompts - 1 ==> !Accepts(lines[i])
      ensures !accepted ==> prompts == |lines|
      ensures trace == if accepted then old(trace) + Exchange(Setting("2d", 0)) else old(trace)
      ensures logOpen == (old(logOpen) && !accepted)
      ensures cycle == old(cycle) && samples == old(samples)
    {
      var i := 0;
      while i < |lines|
        invariant i <= |lines|
        invariant forall j :: 0 <= j < i ==> !Accepts(lines[j])
        invariant trace == old(trace) && logOpen == old(logOpen)
        invariant cycle == old(cycle) && samples == old(samples)
      {
        var response := Strip(lines[i]);
        if response == "Q" || response == "q" {
          SetControlOff();
          logOpen := false;
          return true, i + 1;
        }
        i := i + 1;
      }
      return false, |lines|;
    }

    /** Sends a stage's parameters: P bandwidth, I gain, D gain, then the
        target temperature. */
    method SetStage(s: Stage)
      requires Valid()
      modifies this
      ensures Valid()
      ensures trace == old(trace) + StageEvents(s)
      ensures samples == old(samples) && cycle == old(cycle) && logOpen == old(logOpen)
    {
      var pb, ig, dg, temp := s.pBandwidth, s.iGain, s.dGain, s.temp;
      ghost var t0 := trace;
      SetPBandwidth(pb);
      SetIGain(ig);
      SetDGain(dg);
      SetTemperature(temp);
      StageExchanges(s);
      ExtendFour(t0, Exchange(Setting("1d", Ceil(s.pBandwidth * 50.0))), Exchange(Setting("1e", Ceil(s.iGain * 100.0))),
                 Exchange(Setting("1f", Ceil(s.dGain * 100.0))), Exchange(Setting("1c", Ceil(s.temp * 100.0))),
                 StageEvents(s));
    }

    /** One stage: P, I, D, then the temperature; the steady-state wait at
        the stage's temperature and the configured tolerance (except for the
        final hold); then the incubation for the stage's hold time, unless
        the wait aborted. */
    method RunStage(phase: Phase, input: StageInput)
      returns (run: Run, wait: Option<WaitOutcome>, aborted: bool)
      requires Valid() && logOpen && InputFits(profile, phase, input)
      modifies this
      ensures Valid()
      ensures RunFits(input, run)
      ensures trace == old(trace) + RunEvents(StageOf(profile, phase), input, run)
      ensures wait.Some? <==> Waits(phase)
      ensures wait.None? ==> run.waited == 0
      ensures wait.Some? ==>
                DecidedAt(Verdicts(StageOf(profile, phase).temp, profile.tolerance, Limit(profile), input.wait), run.waited, wait.value)
      ensures wait == Some(Aborted) ==> run.held == 0 && aborted
      ensures wait != Some(Aborted) ==> IncubateEnds(StageOf(profile, phase).holdSec, input.hold, run.held, aborted)
      ensures aborted <==> RunAborted(input, run)
      ensures StageRan(profile, phase, input, run)
      ensures samples == old(samples) + RunLogged(input, run)
      ensures cycle == old(cycle) && logOpen == old(logOpen)
    {
      var s := StageOf(profile, phase);
      run, wait, aborted := RunStageOf(s, Waits(phase), input);
      if wait.Some? {
        WaitAborted(s.temp, profile.tolerance, Limit(profile), input.wait, run.waited, wait.value);
      }
    }

    /** The stage `s`, with a steady-state wait when `waits`. */
    method RunStageOf(s: Stage, waits: bool, input: StageInput)
      returns (run: Run, wait: Option<WaitOutcome>, aborted: bool)
      requires Valid() && logOpen
      requires waits ==> ClockPasses(input.wait, Limit(profile))
      requires s.holdSec >= 0 ==> ClockPasses(input.hold, s.holdSec as real)
      modifies this
      ensures Valid()
      ensures RunFits(input, run)
      ensures trace == old(trace) + RunEvents(s, input, run)
      ensures wait.Some? <==> waits
      ensures wait.None? ==> run.waited == 0
      ensures wait.Some? ==> DecidedAt(Verdicts(s.temp, profile.tolerance, Limit(profile), input.wait), run.waited, wait.value)
      ensures wait == Some(Aborted) ==> run.held == 0 && aborted
      ensures wait != Some(Aborted) ==> IncubateEnds(s.holdSec, input.hold, run.held, aborted)
      ensures aborted <==> RunAborted(input, run)
      ensures samples == old(samples) + RunLogged(input, run)
      ensures cycle == old(cycle) && logOpen == old(logOpen)
    {
      ghost var t0 := trace;
      SetStage(s);
      var kw := 0;
      wait := None;
      if waits {
        var outcome;
        kw, outcome := WaitForSS(s.temp, Some(profile.tolerance), input.wait);
        wait := Some(outcome);
        if outcome == Aborted {
          run, aborted := Run(kw, 0), true;
          Extend(t0, StageEvents(s), LoopEvents(input.wait, kw), RunEvents(s, input, run));
          StageAborts(s.temp, profile.tolerance, Limit(profile), s.holdSec, input, run, wait, aborted);
          return;
        }
      }
      var ki;
      ki, aborted := Incubate(s.holdSec, input.hold);
      run := Run(kw, ki);
      ExtendThree(t0, StageEvents(s), LoopEvents(input.wait, kw), LoopEvents(input.hold, ki), RunEvents(s, input, run));
      StageAborts(s.temp, profile.tolerance, Limit(profile), s.holdSec, input, run, wait, aborted);
    }

    /** Runs the stage at plan position a + |runs|, after the stages `runs`
        at positions a, a + 1, ..., none of which aborted. */
    method RunAt(ghost t0: seq<Event>, ghost s0: nat, inputs: seq<StageInput>, a: nat, runs: seq<Run>)
      returns (r: Run, aborted: bool)
      requires Valid() && logOpen && |inputs| == |Plan(profile)| && a + |runs| < |Plan(profile)|
      requires forall j :: 0 <= j < |inputs| ==> InputFits(profile, Plan(profile)[j], inputs[j])
      requires runs == [] || AbortsLast(inputs, a, runs, false)
      requires RunsFit(inputs, a, runs) && trace == t0 + RunsEvents(profile, Plan(profile), inputs, a, runs)
      requires StagesRan(profile, inputs, a, runs) && samples == s0 + Logged(inputs, a, runs)
      modifies this
      ensures Valid()
      ensures AbortsLast(inputs, a, runs + [r], aborted)
      ensures StagesRan(profile, inputs, a, runs + [r]) && samples == s0 + Logged(inputs, a, runs + [r])
      ensures trace == t0 + RunsEvents(profile, Plan(profile), inputs, a, runs + [r])
      ensures cycle == old(cycle) && logOpen == old(logOpen)
    {
      var w;
      r, w, aborted := RunStage(Plan(profile)[a + |runs|], inputs[a + |runs|]);
      RunsStep(t0, profile, Plan(profile), inputs, a, runs, r);
      AbortsLastStep(inputs, a, runs, r, aborted);
      StagesRanStep(profile, inputs, a, runs, r);
      LoggedStep(inputs, a, runs, r);
    }

    /** Pass i of the loop: `self.cycle = i + 1`, inner denaturation unless
        i == 0, annealing, elongation, after the stages `runs0` that ran
        before it without an abort. It returns how far every stage begun so
        far got; an aborted stage ends it. */
    method RunCycle(i: nat, inputs: seq<StageInput>, ghost t0: seq<Event>, ghost s0: nat, runs0: seq<Run>)
      returns (runs: seq<Run>, aborted: bool)
      requires Valid() && logOpen && i < LoopCount(profile) && |runs0| == 1 + |Iterations(i)|
      requires |inputs| == |Plan(profile)|
      requires forall j :: 0 <= j < |inputs| ==> InputFits(profile, Plan(profile)[j], inputs[j])
      requires AbortsLast(inputs, 0, runs0, false) && StagesRan(profile, inputs, 0, runs0)
      requires trace == t0 + RunsEvents(profile, Plan(profile), inputs, 0, runs0)
      requires samples == s0 + Logged(inputs, 0, runs0)
      modifies this
      ensures Valid()
      ensures |runs0| < |runs| <= 1 + |Iterations(i + 1)| < |Plan(profile)|
      ensures !aborted ==> |runs| == 1 + |Iterations(i + 1)|
      ensures AbortsLast(inputs, 0, runs, aborted) && StagesRan(profile, inputs, 0, runs)
      ensures trace == t0 + RunsEvents(profile, Plan(profile), inputs, 0, runs)
      ensures samples == s0 + Logged(inputs, 0, runs)
      ensures cycle == i + 1 && logOpen == old(logOpen)
    {
      CyclePositions(profile, i);
      cycle := i + 1;
      runs, aborted := runs0, false;
      if i != 0 {
        // inner denaturation
        runs, aborted := RunNext(t0, s0, inputs, runs, aborted);
      }
      // annealing
      runs, aborted := RunNext(t0, s0, inputs, runs, aborted);
      // elongation
      runs, aborted := RunNext(t0, s0, inputs, runs, aborted);
    }

    /** The stage at plan position |runs0|, unless the last of the stages
        `runs0` aborted: the exception then skips it, as it skips every
        later statement of `pcr_wo_trigger`. */
    method RunNext(ghost t0: seq<Event>, ghost s0: nat, inputs: seq<StageInput>, runs0: seq<Run>, aborted0: bool)
      returns (runs: seq<Run>, aborted: bool)
      requires Valid() && logOpen && |inputs| == |Plan(profile)| && |runs0| < |Plan(profile)|
      requires forall j :: 0 <= j < |inputs| ==> InputFits(profile, Plan(profile)[j], inputs[j])
      requires AbortsLast(inputs, 0, runs0, aborted0) && StagesRan(profile, inputs, 0, runs0)
      requires trace == t0 + RunsEvents(profile, Plan(profile), inputs, 0, runs0)
      requires samples == s0 + Logged(inputs, 0, runs0)
      modifies this
      ensures Valid()
      ensures aborted0 ==> runs == runs0 && aborted && trace == old(trace) && samples == old(samples)
      ensures !aborted0 ==> |runs| == |runs0| + 1 && runs[..|runs0|] == runs0
      ensures AbortsLast(inputs, 0, runs, aborted) && StagesRan(profile, inputs, 0, runs)
      ensures trace == t0 + RunsEvents(profile, Plan(profile), inputs, 0, runs)
      ensures samples == s0 + Logged(inputs, 0, runs)
      ensures cycle == old(cycle) && logOpen == old(logOpen)
    {
      runs, aborted := runs0, aborted0;
      if !aborted0 {
        var r;
        r, aborted := RunAt(t0, s0, inputs, 0, runs0);
        runs := runs0 + [r];
        assert runs[..|runs0|] == runs0;
      }
    }

    /** `pcr_wo_trigger` up to the final hold: the outer denaturation, then
        the `for i in range(loop_iter)` loop; an aborted stage ends it. */
    method RunThroughLoop(inputs: seq<StageInput>) returns (runs: seq<Run>, aborted: bool)
      requires Valid() && logOpen
      requires |inputs| == |Plan(profile)|
      requires forall j :: 0 <= j < |inputs| ==> InputFits(profile, Plan(profile)[j], inputs[j])
      modifies this
      ensures Valid()
      ensures 1 <= |runs| < |Plan(profile)|
      ensures !aborted ==> |runs| + 1 == |Plan(profile)|
      ensures AbortsLast(inputs, 0, runs, aborted)
      ensures StagesRan(profile, inputs, 0, runs)
      ensures trace == old(trace) + RunsEvents(profile, Plan(profile), inputs, 0, runs)
      ensures samples == old(samples) + Logged(inputs, 0, runs)
      ensures !aborted ==> cycle == if LoopCount(profile) == 0 then old(cycle) else LoopCount(profile)
      ensures logOpen == old(logOpen)
    {
      ghost var p, pl := profile, Plan(profile);
      ghost var t0, s0 := trace, samples;
      RunsNone(p, pl, inputs, 0);
      var r;
      // outer denaturation
      runs := [];
      r, aborted := RunAt(t0, s0, inputs, 0, runs);
      runs := runs + [r];
      var n := if profile.loopIter > 0 then profile.loopIter else 0;
      var i := 0;
      while i < n && !aborted
        invariant 0 <= i <= n
        invariant Valid()
        invariant |runs| <= 1 + |Iterations(i)|
        invariant !aborted ==> |runs| == 1 + |Iterations(i)|
        invariant AbortsLast(inputs, 0, runs, aborted)
        invariant StagesRan(p, inputs, 0, runs)
        invariant trace == t0 + RunsEvents(p, pl, inputs, 0, runs)
        invariant samples == s0 + Logged(inputs, 0, runs)
        invariant !aborted ==> cycle == if i == 0 then old(cycle) else i
        invariant logOpen == old(logOpen)
      {
        runs, aborted := RunCycle(i, inputs, t0, s0, runs);
        i := i + 1;
      }
      IterationsPrefix(i, n);
      PlanFinal(p);
    }

    /** `pcr_wo_trigger`: outer denaturation, `loop_iter` iterations (inner
        denaturation skipped on the first), the final hold, the exit gate.
        A stage that aborts ends the run there, with neither the final hold
        nor the exit gate. `runs` says how far each stage begun got. */
    method PcrWoTrigger(inputs: seq<StageInput>, lines: seq<seq<char>>)
      returns (exited: bool, aborted: bool, runs: seq<Run>)
      requires Valid() && logOpen
      requires |inputs| == |Plan(profile)|
      requires forall j :: 0 <= j < |inputs| ==> InputFits(profile, Plan(profile)[j], inputs[j])
      modifies this
      ensures Valid()
      ensures 1 <= |runs| <= |Plan(profile)|
      ensures !aborted ==> |runs| == |Plan(profile)|
      ensures AbortsLast(inputs, 0, runs, aborted)
      ensures StagesRan(profile, inputs, 0, runs)
      ensures trace == old(trace) + RunsEvents(profile, Plan(profile), inputs, 0, runs)
                       + (if exited then Exchange(Setting("2d", 0)) else [])
      ensures samples == old(samples) + Logged(inputs, 0, runs)
      ensures aborted ==> !exited
      ensures !aborted ==> (exited <==> exists i :: 0 <= i < |lines| && Accepts(lines[i]))
      ensures !aborted ==> cycle == if LoopCount(profile) == 0 then old(cycle) else LoopCount(profile)
      ensures logOpen == (old(logOpen) && !exited)
    {
      ghost var t0, s0 := trace, samples;
      runs, aborted := RunThroughLoop(inputs);
      exited := false;
      if !aborted {
        exited, aborted, runs := FinishRun(t0, s0, inputs, runs, lines);
      }
    }

    /** The end of `pcr_wo_trigger`: the final hold after the stages `runs0`,
        none of which aborted, then, unless it aborts, the exit gate. */
    method FinishRun(ghost t0: seq<Event>, ghost s0: nat, inputs: seq<StageInput>, runs0: seq<Run>, lines: seq<seq<char>>)
      returns (exited: bool, aborted: bool, runs: seq<Run>)
      requires Valid() && logOpen
      requires |inputs| == |Plan(profile)| && |runs0| + 1 == |Plan(profile)|
      requires forall j :: 0 <= j < |inputs| ==> InputFits(profile, Plan(profile)[j], inputs[j])
      requires AbortsLast(inputs, 0, runs0, false) && StagesRan(profile, inputs, 0, runs0)
      requires trace == t0 + RunsEvents(profile, Plan(profile), inputs, 0, runs0)
      requires samples == s0 + Logged(inputs, 0, runs0)
      modifies this
      ensures Valid()
      ensures |runs| == |Plan(profile)|
      ensures AbortsLast(inputs, 0, runs, aborted) && StagesRan(profile, inputs, 0, runs)
      ensures trace == t0 + RunsEvents(profile, Plan(profile), inputs, 0, runs)
                       + (if exited then Exchange(Setting("2d", 0)) else [])
      ensures aborted ==> !exited
      ensures !aborted ==> (exited <==> exists i :: 0 <= i < |lines| && Accepts(lines[i]))
      ensures samples == s0 + Logged(inputs, 0, runs)
      ensures cycle == old(cycle) && logOpen == (old(logOpen) && !exited)
    {
      var r;
      // final hold
      r, aborted := RunAt(t0, s0, inputs, 0, runs0);
      runs := runs0 + [r];
      exited := false;
      if !aborted {
        var prompts;
        exited, prompts := PressQToExit(lines);
      }
    }
  }

  //----------------------------------------------------------------------
  // The trace
  //----------------------------------------------------------------------

  /** Appending one event keeps every write right after a flush exactly
      when a write comes right after a flush. */
  lemma FlushedWritesStep(t: seq<Event>, e: Event)
    ensures FlushedWrites(t + [e]) <==> FlushedWrites(t) && (e.Write? ==> t != [] && t[|t| - 1] == Flush)
  {
    var t1 := t + [e];
    assert forall i :: 0 <= i < |t| ==> t1[i] == t[i];
    if FlushedWrites(t1) {
      forall i | 0 <= i < |t| && t[i].Write?
        ensures 0 < i && t[i - 1] == Flush
      {
        assert t1[i].Write?;
      }
      if e.Write? {
        assert t1[|t|].Write?;
      }
    }
  }

  /** An exchange keeps every write right after a flush. */
  lemma FlushedExchange(t: seq<Event>, st: Setting)
    requires FlushedWrites(t)
    ensures FlushedWrites(t + Exchange(st))
  {
    FlushedWritesStep(t, Flush);
    FlushedWritesStep(t + [Flush], Write(st));
    assert t + Exchange(st) == t + [Flush] + [Write(st)];
  }

  lemma {:induction false} SettersAppend(a: seq<Event>, b: seq<Event>)
    ensures Setters(a + b) == Setters(a) + Setters(b)
    decreases |b|
  {
    if b == [] {
      assert a + b == a;
    } else {
      var ab := a + b;
      assert ab[..|ab| - 1] == a + b[..|b| - 1] && ab[|ab| - 1] == b[|b| - 1];
      SettersAppend(a, b[..|b| - 1]);
    }
  }

  /** An exchange adds its setting to the parameter writes unless it is a
      query. */
  lemma SettersExchange(st: Setting)
    ensures Setters(Exchange(st)) == if IsQueryCode(st.code) then [] else [st]
  {
    var t := Exchange(st);
    assert t[..1] == [Flush];
    assert Setters([Flush]) == [] by {
      assert [Flush][..0] == [];
    }
  }

  /** Exchanging settings none of which is a query writes exactly those
      settings as parameters. */
  lemma {:induction false} ExchangeAllWrites(sts: seq<Setting>)
    requires forall k :: 0 <= k < |sts| ==> !IsQueryCode(sts[k].code)
    ensures Setters(ExchangeAll(sts)) == sts
  {
    if sts != [] {
      var init, last := sts[..|sts| - 1], sts[|sts| - 1];
      ExchangeAllWrites(init);
      SettersAppend(ExchangeAll(init), Exchange(last));
      SettersExchange(last);
      assert sts == init + [last];
    }
  }

  /** Setting a stage writes exactly its four parameters. */
  lemma StageWrites(s: Stage)
    ensures Setters(StageEvents(s)) == StageSettings(s)
  {
    ExchangeAllWrites(StageSettings(s));
  }

  /** Every write is a query. */
  predicate QueriesOnly(es: seq<Event>) {
    forall i :: 0 <= i < |es| && es[i].Write? ==> IsQueryCode(es[i].sent.code)
  }

  lemma {:induction false} QueriesWriteNoSetting(es: seq<Event>)
    requires QueriesOnly(es)
    ensures Setters(es) == []
  {
    if es != [] {
      QueriesWriteNoSetting(es[..|es| - 1]);
    }
  }

  lemma QueriesOnlyAppend(a: seq<Event>, b: seq<Event>)
    requires QueriesOnly(a) && QueriesOnly(b)
    ensures QueriesOnly(a + b)
  {
    assert forall i :: 0 <= i < |a + b| ==> (a + b)[i] == if i < |a| then a[i] else b[i - |a|];
  }

  /** A pass of a waiting loop only queries. */
  lemma PassQueries(p: Pass)
    ensures QueriesOnly(PassEvents(p))
  {
    var c, s, q := Exchange(ReadControl), Exchange(ReadSetTemperature), Exchange(ReadPeriphery);
    QueriesOnlyAppend(c, q);
    QueriesOnlyAppend(s, c + q);
    QueriesOnlyAppend(s, c);
    QueriesOnlyAppend(c, SampleEvents(p.sample));
    assert s + (c + q) == s + c + q;
  }

  /** The first n passes of a waiting loop write no parameter. */
  lemma {:induction false} LoopWritesNoSetting(passes: seq<Pass>, n: nat)
    requires n <= |passes|
    ensures Setters(LoopEvents(passes, n)) == []
  {
    if n > 0 {
      LoopWritesNoSetting(passes, n - 1);
      PassQueries(passes[n - 1]);
      QueriesWriteNoSetting(PassEvents(passes[n - 1]));
      SettersAppend(LoopEvents(passes, n - 1), PassEvents(passes[n - 1]));
    }
  }

  /** A stage writes its four parameters and nothing else, however far its
      loops got. */
  lemma RunWrites(s: Stage, input: StageInput, r: Run)
    requires RunFits(input, r)
    ensures Setters(RunEvents(s, input, r)) == StageSettings(s)
  {
    StageWrites(s);
    LoopWritesNoSetting(input.wait, r.waited);
    LoopWritesNoSetting(input.hold, r.held);
    SettersAppend(StageEvents(s), LoopEvents(input.wait, r.waited));
    SettersAppend(StageEvents(s) + LoopEvents(input.wait, r.waited), LoopEvents(input.hold, r.held));
  }

  /** The events of consecutive runs are the events of the first ones
      followed by those of the rest. */
  lemma RunsJoin(p: Profile, phases: seq<Phase>, inputs: seq<StageInput>, a: nat, r1: seq<Run>, r2: seq<Run>, b: nat)
    requires b == a + |r1| && b + |r2| <= |phases| && RunsFit(inputs, a, r1) && RunsFit(inputs, b, r2)
    ensures RunsFit(inputs, a, r1 + r2)
    ensures RunsEvents(p, phases, inputs, a, r1 + r2)
            == RunsEvents(p, phases, inputs, a, r1) + RunsEvents(p, phases, inputs, b, r2)
  {
    assert forall k :: 0 <= k < |r2| ==> (r1 + r2)[|r1| + k] == r2[k];
    assert RunsParts(p, phases, inputs, a, r1 + r2)
           == RunsParts(p, phases, inputs, a, r1) + RunsParts(p, phases, inputs, b, r2);
    FlattenAppend(RunsParts(p, phases, inputs, a, r1), RunsParts(p, phases, inputs, b, r2));
  }

  /** The events of runs are those of all but the last, then the last one's. */
  lemma RunsLast(p: Profile, phases: seq<Phase>, inputs: seq<StageInput>, a: nat, runs: seq<Run>)
    requires runs != [] && a + |runs| <= |phases| && RunsFit(inputs, a, runs)
    ensures RunsFit(inputs, a, runs[..|runs| - 1])
    ensures RunsEvents(p, phases, inputs, a, runs)
            == RunsEvents(p, phases, inputs, a, runs[..|runs| - 1])
               + RunEvents(StageOf(p, phases[a + |runs| - 1]), inputs[a + |runs| - 1], runs[|runs| - 1])
  {
    var k := |runs| - 1;
    var x := RunEvents(StageOf(p, phases[a + k]), inputs[a + k], runs[k]);
    assert runs == runs[..k] + [runs[k]];
    RunsJoin(p, phases, inputs, a, runs[..k], [runs[k]], a + k);
    assert RunsParts(p, phases, inputs, a + k, [runs[k]]) == [x];
    assert Flatten([x]) == x by {
      assert [x][..0] == [];
    }
  }

  /** No runs send nothing. */
  lemma RunsNone(p: Profile, phases: seq<Phase>, inputs: seq<StageInput>, a: nat)
    requires a <= |phases| && a <= |inputs|
    ensures RunsFit(inputs, a, [])
    ensures RunsEvents(p, phases, inputs, a, []) == []
  {
    assert RunsParts(p, phases, inputs, a, []) == [];
  }

  /** One more stage after stages none of which aborted. */
  lemma AbortsLastStep(inputs: seq<StageInput>, a: nat, runs: seq<Run>, r: Run, aborted: bool)
    requires runs == [] || AbortsLast(inputs, a, runs, false)
    requires RunsFit(inputs, a, runs) && a + |runs| < |inputs| && RunFits(inputs[a + |runs|], r)
    requires aborted <==> RunAborted(inputs[a + |runs|], r)
    ensures AbortsLast(inputs, a, runs + [r], aborted)
  {
    var rs := runs + [r];
    assert rs[|runs|] == r;
    assert forall k :: 0 <= k < |runs| ==> rs[k] == runs[k];
  }

  /** Running one more stage adds the lines that stage logged. */
  lemma LoggedStep(inputs: seq<StageInput>, a: nat, runs: seq<Run>, r: Run)
    requires RunsFit(inputs, a, runs) && a + |runs| < |inputs| && RunFits(inputs[a + |runs|], r)
    ensures RunsFit(inputs, a, runs + [r])
    ensures Logged(inputs, a, runs + [r]) == Logged(inputs, a, runs) + RunLogged(inputs[a + |runs|], r)
  {
    assert (runs + [r])[..|runs|] == runs;
  }

  /** Stages that ran one after another logged one telemetry line per pass
      of their loops, except the pass that aborted the last one. */
  lemma {:induction false} LoggedPasses(inputs: seq<StageInput>, a: nat, runs: seq<Run>, aborted: bool)
    requires AbortsLast(inputs, a, runs, aborted)
    ensures Logged(inputs, a, runs) + (if aborted then 1 else 0) == Passes(runs)
    decreases |runs|
  {
    var k := |runs| - 1;
    var init := runs[..k];
    if k > 0 {
      assert forall j :: 0 <= j < |init| ==> init[j] == runs[j];
      assert AbortsLast(inputs, a, init, false);
      LoggedPasses(inputs, a, init, false);
    }
  }

  /** Running one more stage extends the trace by that stage's events. */
  lemma RunsStep(t: seq<Event>, p: Profile, phases: seq<Phase>, inputs: seq<StageInput>, a: nat, runs: seq<Run>, r: Run)
    requires a + |runs| < |phases| && a + |runs| < |inputs| && RunsFit(inputs, a, runs)
    requires RunFits(inputs[a + |runs|], r)
    ensures RunsFit(inputs, a, runs + [r])
    ensures t + RunsEvents(p, phases, inputs, a, runs) + RunEvents(StageOf(p, phases[a + |runs|]), inputs[a + |runs|], r)
            == t + RunsEvents(p, phases, inputs, a, runs + [r])
  {
    var rs := runs + [r];
    assert rs[..|runs|] == runs;
    RunsLast(p, phases, inputs, a, rs);
    Extend(t, RunsEvents(p, phases, inputs, a, runs),
           RunEvents(StageOf(p, phases[a + |runs|]), inputs[a + |runs|], r),
           RunsEvents(p, phases, inputs, a, rs));
  }

  /** The stages at positions a, a + 1, ... of a plan write exactly their
      settings, in order, whatever their loops read. */
  lemma {:induction false} RunsWrite(p: Profile, phases: seq<Phase>, inputs: seq<StageInput>, a: nat, runs: seq<Run>)
    requires a + |runs| <= |phases| && RunsFit(inputs, a, runs)
    ensures Setters(RunsEvents(p, phases, inputs, a, runs)) == PlanSettings(p, phases[a..a + |runs|])
    decreases |runs|
  {
    if runs == [] {
      SliceEmpty(p, phases, a);
    } else {
      var k := |runs| - 1;
      var s := StageOf(p, phases[a + k]);
      var before, last := RunsEvents(p, phases, inputs, a, runs[..k]), RunEvents(s, inputs[a + k], runs[k]);
      RunsLast(p, phases, inputs, a, runs);
      assert a + |runs| - 1 == a + k && |runs[..k]| == k;
      assert RunsEvents(p, phases, inputs, a, runs) == before + last;
      RunsWrite(p, phases, inputs, a, runs[..k]);
      RunWrites(s, inputs[a + k], runs[k]);
      SettersAppend(before, last);
      SliceStep(p, phases, a, a + k);
      calc {
        Setters(RunsEvents(p, phases, inputs, a, runs));
        Setters(before + last);
        Setters(before) + Setters(last);
        PlanSettings(p, phases[a..a + k]) + StageSettings(s);
        PlanSettings(p, phases[a..a + k + 1]);
      }
    }
  }

  /** What `pcr_wo_trigger` sends writes exactly the plan's settings up to
      the last stage begun, then, on exit, control off. */
  lemma ProgramWrites(p: Profile, inputs: seq<StageInput>, runs: seq<Run>, exited: bool)
    requires |runs| <= |Plan(p)| && RunsFit(inputs, 0, runs)
    ensures Setters(RunsEvents(p, Plan(p), inputs, 0, runs) + (if exited then Exchange(Setting("2d", 0)) else []))
            == PlanSettings(p, Plan(p)[..|runs|]) + (if exited then [Setting("2d", 0)] else [])
  {
    var pl := Plan(p);
    RunsWrite(p, pl, inputs, 0, runs);
    assert pl[0..0 + |runs|] == pl[..|runs|];
    var ev, off := RunsEvents(p, pl, inputs, 0, runs), Setting("2d", 0);
    if exited {
      SettersAppend(ev, Exchange(off));
      SettersExchange(off);
      calc {
        Setters(ev + Exchange(off));
        Setters(ev) + Setters(Exchange(off));
        PlanSettings(p, pl[..|runs|]) + [off];
      }
    } else {
      calc {
        Setters(ev + []);
        { assert ev + [] == ev; }
        Setters(ev);
        PlanSettings(p, pl[..|runs|]);
        { assert PlanSettings(p, pl[..|runs|]) + [] == PlanSettings(p, pl[..|runs|]); }
        PlanSettings(p, pl[..|runs|]) + [];
      }
    }
  }

  /** A pass whose replies all decode sends the full poll. */
  lemma CompletePass(p: Pass)
    requires PassDecodable(p)
    ensures PassEvents(p) == PollEvents()
  {
  }

  /** A loop whose first n passes all decode sent n full polls. */
  lemma {:induction false} CompleteLoop(passes: seq<Pass>, n: nat)
    requires n <= |passes|
    requires forall j :: 0 <= j < n ==> PassDecodable(passes[j])
    ensures LoopEvents(passes, n) == Repeat(PollEvents(), n)
  {
    if n > 0 {
      CompleteLoop(passes, n - 1);
      CompletePass(passes[n - 1]);
    }
  }

  lemma ExchangeFour(sts: seq<Setting>)
    requires |sts| == 4
    ensures ExchangeAll(sts) == Exchange(sts[0]) + Exchange(sts[1]) + Exchange(sts[2]) + Exchange(sts[3])
  {
    var s1, s2, s3 := sts[..1], sts[..2], sts[..3];
    assert s1[..0] == [] && s2[..1] == s1 && s3[..2] == s2;
    assert ExchangeAll(s1) == Exchange(sts[0]);
    assert ExchangeAll(s2) == ExchangeAll(s1) + Exchange(sts[1]);
    assert ExchangeAll(s3) == ExchangeAll(s2) + Exchange(sts[2]);
  }

  /** Setting a stage exchanges P bandwidth in fiftieths, then I gain, D
      gain and the temperature in hundredths. */
  lemma StageExchanges(s: Stage)
    ensures StageEvents(s)
            == Exchange(Setting("1d", Ceil(s.pBandwidth * 50.0))) + Exchange(Setting("1e", Ceil(s.iGain * 100.0)))
               + Exchange(Setting("1f", Ceil(s.dGain * 100.0))) + Exchange(Setting("1c", Ceil(s.temp * 100.0)))
  {
    ExchangeFour(StageSettings(s));
  }

  //----------------------------------------------------------------------
  // Stages and the plan
  //----------------------------------------------------------------------

  /** Appending b then c appends their concatenation. */
  lemma Extend<T>(a: seq<T>, b: seq<T>, c: seq<T>, bc: seq<T>)
    requires bc == b + c
    ensures a + b + c == a + bc
  {
  }

  lemma ExtendThree<T>(t: seq<T>, a: seq<T>, b: seq<T>, c: seq<T>, abc: seq<T>)
    requires abc == a + b + c
    ensures t + a + b + c == t + abc
  {
  }

  lemma ExtendFour<T>(t: seq<T>, a: seq<T>, b: seq<T>, c: seq<T>, d: seq<T>, abcd: seq<T>)
    requires abcd == a + b + c + d
    ensures t + a + b + c + d == t + abcd
  {
  }

  /** Where pass i of the loop sits in the plan. */
  lemma CyclePositions(p: Profile, i: nat)
    requires i < LoopCount(p)
    ensures 1 + |Iterations(i + 1)| < |Plan(p)|
    ensures i != 0 ==> |Iterations(i + 1)| == |Iterations(i)| + 3
                       && Plan(p)[1 + |Iterations(i)|] == InnerDenaturation
                       && Plan(p)[2 + |Iterations(i)|] == Annealing && Plan(p)[3 + |Iterations(i)|] == Elongation
    ensures i == 0 ==> |Iterations(i + 1)| == |Iterations(i)| + 2
                       && Plan(p)[1 + |Iterations(i)|] == Annealing && Plan(p)[2 + |Iterations(i)|] == Elongation
  {
    IterationAt(p, i, 0);
    IterationAt(p, i, |Iteration(i)| - 2);
    IterationAt(p, i, |Iteration(i)| - 1);
  }

  lemma PlanStart(p: Profile)
    ensures Plan(p)[0] == OuterDenaturation
  {
  }

  /** Phase t of loop iteration i sits at 1 + |Iterations(i)| + t in the plan. */
  lemma IterationAt(p: Profile, i: nat, t: nat)
    requires i < LoopCount(p) && t < |Iteration(i)|
    ensures 1 + |Iterations(i)| + t < |Plan(p)|
    ensures Plan(p)[1 + |Iterations(i)| + t] == Iteration(i)[t]
  {
    var n := LoopCount(p);
    var its := Iterations(n);
    var k := |Iterations(i)| + t;
    IterationsAt(i, n, t);
    assert Plan(p) == [OuterDenaturation] + its + [FinalHold];
    MiddleAt([OuterDenaturation], its, [FinalHold], k);
  }

  lemma MiddleAt<T>(a: seq<T>, b: seq<T>, c: seq<T>, k: nat)
    requires k < |b|
    ensures |a| + k < |a + b + c| && (a + b + c)[|a| + k] == b[k]
  {
  }

  lemma {:induction false} IterationsAt(i: nat, n: nat, t: nat)
    requires i < n && t < |Iteration(i)|
    ensures |Iterations(i)| + t < |Iterations(n)|
    ensures Iterations(n)[|Iterations(i)| + t] == Iteration(i)[t]
    decreases n
  {
    IterationsPrefix(i + 1, n - 1 + 1);
    if i < n - 1 {
      IterationsAt(i, n - 1, t);
      assert Iterations(n) == Iterations(n - 1) + Iteration(n - 1);
    } else {
      assert Iterations(n) == Iterations(i) + Iteration(i);
    }
  }

  lemma PlanFinal(p: Profile)
    ensures |Plan(p)| == 2 + |Iterations(LoopCount(p))|
    ensures Plan(p)[1 + |Iterations(LoopCount(p))|] == FinalHold
  {
  }

  /** The hard-coded query frames of the getters are exactly the
      `check_sum` frames of their codes, so each carries a valid checksum. */
  lemma ControlQueryIsCheckSum()
    ensures ControlQuery == Frame(ReadControl.code, ReadControl.value) && ChecksumValid(ControlQuery)
  {
    QueryFrame("01", 65);
  }

  lemma PeripheryQueryIsCheckSum()
    ensures PeripheryQuery == Frame(ReadPeriphery.code, ReadPeriphery.value) && ChecksumValid(PeripheryQuery)
  {
    QueryFrame("06", 70);
  }

  lemma SetTemperatureQueryIsCheckSum()
    ensures SetTemperatureQuery == Frame(ReadSetTemperature.code, ReadSetTemperature.value) && ChecksumValid(SetTemperatureQuery)
  {
    QueryFrame("03", 67);
  }

  lemma PBandwidthQueryIsCheckSum()
    ensures PBandwidthQuery == Frame(ReadPBandwidth.code, ReadPBandwidth.value) && ChecksumValid(PBandwidthQuery)
  {
    QueryFrame("51", 70);
  }

  lemma IGainQueryIsCheckSum()
    ensures IGainQuery == Frame(ReadIGain.code, ReadIGain.value) && ChecksumValid(IGainQuery)
  {
    QueryFrame("52", 71);
  }

  lemma DGainQueryIsCheckSum()
    ensures DGainQuery == Frame(ReadDGain.code, ReadDGain.value) && ChecksumValid(DGainQuery)
  {
    QueryFrame("53", 72);
  }

  lemma QueryFrame(command: seq<char>, sum: nat)
    requires |command| == 2 && 16 <= sum < 256
    requires (480 + command[0] as nat + command[1] as nat) % 256 == sum
    ensures Frame(command, 0) == "*00" + command + "00000000" + Hex(sum) + "\r"
    ensures ChecksumValid(Frame(command, 0))
  {
    ZeroValueFrame(command);
    HexLength(sum, 1);
    HexLength(sum, 2);
    FrameChecksum(command, 0);
  }
}
