/** The thermal-cycling program without trigger points, as a plan: the
    order in which its stages run and the command frames each stage sends. */
module Pcr {
  import opened Auxil

  /** The configured settings of one stage. */
  datatype Stage = Stage(pBandwidth: real, iGain: real, dGain: real, temp: real, holdSec: int)

  /** The validated configuration the program runs on. */
  datatype Profile = Profile(
    outerDenaturation: Stage,
    innerDenaturation: Stage,
    annealing: Stage,
    elongation: Stage,
    finalHold: Stage,
    loopIter: int,     // inner-loop repeat count
    tolerance: real,   // steady-state tolerance in C
    timeLimit: int)    // steady-state time limit in minutes

  datatype Phase = OuterDenaturation | InnerDenaturation | Annealing | Elongation | FinalHold

  function StageOf(p: Profile, phase: Phase): Stage {
    match phase
    case OuterDenaturation => p.outerDenaturation
    case InnerDenaturation => p.innerDenaturation
    case Annealing => p.annealing
    case Elongation => p.elongation
    case FinalHold => p.finalHold
  }

  /** Every phase but the final hold waits for steady state before it incubates. */
  predicate Waits(phase: Phase) {
    phase != FinalHold
  }

  /** Python's `range(0, loop_iter)` runs no iteration for a count below 1. */
  function LoopCount(p: Profile): nat {
    if p.loopIter > 0 then p.loopIter else 0
  }

  /** The phases of loop iteration i: inner denaturation except on the first
      pass, then annealing and elongation. */
  function Iteration(i: nat): seq<Phase> {
    (if i != 0 then [InnerDenaturation] else []) + [Annealing, Elongation]
  }

  /** The phases of the first n loop iterations. */
  function Iterations(n: nat): seq<Phase> {
    if n == 0 then [] else Iterations(n - 1) + Iteration(n - 1)
  }

  /** The whole program: outer denaturation, the loop, the final hold. */
  function Plan(p: Profile): seq<Phase> {
    [OuterDenaturation] + Iterations(LoopCount(p)) + [FinalHold]
  }

  /** A parameter write: the command code and the integer value sent. */
  datatype Setting = Setting(code: seq<char>, value: int)

  /** What one stage writes, in order: proportional bandwidth (scale 50),
      integral gain, derivative gain (scale 100), then the target
      temperature (scale 100). */
  function StageSettings(s: Stage): (sts: seq<Setting>)
    ensures |sts| == 4 && TwoCharCodes(sts)
  {
    [ Setting("1d", Ceil(s.pBandwidth * 50.0)),
      Setting("1e", Ceil(s.iGain * 100.0)),
      Setting("1f", Ceil(s.dGain * 100.0)),
      Setting("1c", Ceil(s.temp * 100.0)) ]
  }

  /** The settings of each phase, one entry per phase. */
  function StagesSettings(p: Profile, phases: seq<Phase>): (xss: seq<seq<Setting>>)
    ensures |xss| == |phases|
  {
    seq(|phases|, i requires 0 <= i < |phases| => StageSettings(StageOf(p, phases[i])))
  }

  /** The settings a sequence of phases writes. */
  function PlanSettings(p: Profile, phases: seq<Phase>): (sts: seq<Setting>)
    ensures TwoCharCodes(sts)
  {
    FlattenCodes(StagesSettings(p, phases));
    Flatten(StagesSettings(p, phases))
  }

  function Flatten<T>(xss: seq<seq<T>>): seq<T> {
    if xss == [] then [] else Flatten(xss[..|xss| - 1]) + xss[|xss| - 1]
  }

  /** How many elements of xs equal x. */
  function Count<T(==)>(xs: seq<T>, x: T): nat {
    if xs == [] then 0 else Count(xs[..|xs| - 1], x) + (if xs[|xs| - 1] == x then 1 else 0)
  }

  predicate TwoCharCodes(sts: seq<Setting>) {
    forall i :: 0 <= i < |sts| ==> |sts[i].code| == 2
  }

  /** The frames that carry the settings, one `set_command` frame each. */
  function Frames(sts: seq<Setting>): (fs: seq<seq<char>>)
    requires TwoCharCodes(sts)
    ensures |fs| == |sts|
  {
    seq(|sts|, i requires 0 <= i < |sts| => Frame(sts[i].code, sts[i].value))
  }

  /** The command code of a frame, offsets 3..4. */
  function Code(f: seq<char>): seq<char> {
    if |f| >= 5 then f[3..5] else []
  }

  function FrameCodes(fs: seq<seq<char>>): (cs: seq<seq<char>>)
    ensures |cs| == |fs|
  {
    seq(|fs|, i requires 0 <= i < |fs| => Code(fs[i]))
  }

  function SettingCodes(sts: seq<Setting>): (cs: seq<seq<char>>)
    ensures |cs| == |sts|
  {
    seq(|sts|, i requires 0 <= i < |sts| => sts[i].code)
  }

  /** How many frames set the target temperature (code `1c`). */
  function TemperatureSets(fs: seq<seq<char>>): nat {
    Count(FrameCodes(fs), "1c")
  }

  //----------------------------------------------------------------------
  // Properties of the plan
  //----------------------------------------------------------------------

  lemma {:induction false} IterationsLength(n: nat)
    ensures |Iterations(n)| == if n == 0 then 0 else 3 * n - 1
  {
    if n > 0 {
      IterationsLength(n - 1);
    }
  }

  /** Loop count N >= 1 gives 3N + 1 stages; N = 0 gives two. */
  lemma PlanLength(p: Profile)
    ensures |Plan(p)| == if LoopCount(p) == 0 then 2 else 3 * LoopCount(p) + 1
  {
    IterationsLength(LoopCount(p));
  }

  /** With no loop iteration the program is outer denaturation then the
      final hold, with no annealing and no elongation. */
  lemma NoLoop(p: Profile)
    requires p.loopIter <= 0
    ensures Plan(p) == [OuterDenaturation, FinalHold]
  {
  }

  /** The program opens with outer denaturation and closes with the final
      hold, and only the final hold skips the steady-state wait. */
  lemma {:induction false} PlanEnds(p: Profile)
    ensures Plan(p)[0] == OuterDenaturation && Plan(p)[|Plan(p)| - 1] == FinalHold
    ensures forall j :: 0 <= j < |Plan(p)| - 1 ==> Waits(Plan(p)[j])
  {
    forall j | 0 <= j < |Plan(p)| - 1
      ensures Waits(Plan(p)[j])
    {
      if j > 0 {
        IterationsNoFinal(LoopCount(p), j - 1);
      }
    }
  }

  lemma {:induction false} IterationsNoFinal(n: nat, j: nat)
    requires j < |Iterations(n)|
    ensures Iterations(n)[j] != FinalHold && Iterations(n)[j] != OuterDenaturation
  {
    if n > 0 && j < |Iterations(n - 1)| {
      IterationsNoFinal(n - 1, j);
    }
  }

  /** The first n iterations are a prefix of any longer run of iterations. */
  lemma {:induction false} IterationsPrefix(n: nat, m: nat)
    requires n <= m
    ensures |Iterations(n)| <= |Iterations(m)|
    ensures Iterations(m)[..|Iterations(n)|] == Iterations(n)
    decreases m
  {
    IterationsLength(n);
    IterationsLength(m);
    if n < m {
      IterationsPrefix(n, m - 1);
    }
  }

  lemma {:induction false} CountAppend<T>(a: seq<T>, b: seq<T>, x: T)
    ensures Count(a + b, x) == Count(a, x) + Count(b, x)
    decreases |b|
  {
    if b == [] {
      assert a + b == a;
    } else {
      assert (a + b)[..|a + b| - 1] == a + b[..|b| - 1];
      assert (a + b)[|a + b| - 1] == b[|b| - 1];
      CountAppend(a, b[..|b| - 1], x);
    }
  }

  /** N iterations anneal and elongate N times each and denature N - 1
      times: the first pass reuses the outer denaturation. */
  lemma {:induction false} IterationCounts(n: nat)
    ensures Count(Iterations(n), Annealing) == n
    ensures Count(Iterations(n), Elongation) == n
    ensures Count(Iterations(n), InnerDenaturation) == if n == 0 then 0 else n - 1
  {
    if n > 0 {
      IterationCounts(n - 1);
      var it := Iteration(n - 1);
      CountAppend(Iterations(n - 1), it, Annealing);
      CountAppend(Iterations(n - 1), it, Elongation);
      CountAppend(Iterations(n - 1), it, InnerDenaturation);
      if n - 1 != 0 {
        assert it == [InnerDenaturation] + [Annealing, Elongation];
        CountAppend([InnerDenaturation], [Annealing, Elongation], Annealing);
        CountAppend([InnerDenaturation], [Annealing, Elongation], Elongation);
        CountAppend([InnerDenaturation], [Annealing, Elongation], InnerDenaturation);
      }
      PairCounts();
    }
  }

  lemma PairCounts()
    ensures Count([Annealing, Elongation], Annealing) == 1
    ensures Count([Annealing, Elongation], Elongation) == 1
    ensures Count([Annealing, Elongation], InnerDenaturation) == 0
  {
    assert [Annealing, Elongation][..1] == [Annealing];
    assert [Annealing][..0] == [];
  }

  lemma {:induction false} FlattenAppend<T>(a: seq<seq<T>>, b: seq<seq<T>>)
    ensures Flatten(a + b) == Flatten(a) + Flatten(b)
    decreases |b|
  {
    if b == [] {
      assert a + b == a;
    } else {
      var init, last := b[..|b| - 1], b[|b| - 1];
      var ab := a + b;
      assert ab[..|ab| - 1] == a + init && ab[|ab| - 1] == last;
      FlattenAppend(a, init);
      assert Flatten(ab) == Flatten(a + init) + last;
      assert Flatten(b) == Flatten(init) + last;
    }
  }

  /** In a run of four-element blocks, block j sits at 4j..4j+3. */
  lemma {:induction false} FlattenAt<T>(xss: seq<seq<T>>, j: nat)
    requires j < |xss|
    requires forall i :: 0 <= i < |xss| ==> |xss[i]| == 4
    ensures |Flatten(xss)| == 4 * |xss|
    ensures Flatten(xss)[4 * j..4 * j + 4] == xss[j]
    decreases |xss|
  {
    var init := xss[..|xss| - 1];
    FlattenLength(init);
    var f := Flatten(xss);
    assert f == Flatten(init) + xss[|xss| - 1];
    if j < |xss| - 1 {
      FlattenAt(init, j);
      assert f[4 * j..4 * j + 4] == Flatten(init)[4 * j..4 * j + 4];
    } else {
      assert f[4 * j..4 * j + 4] == f[|Flatten(init)|..];
    }
  }

  lemma {:induction false} FlattenLength<T>(xss: seq<seq<T>>)
    requires forall i :: 0 <= i < |xss| ==> |xss[i]| == 4
    ensures |Flatten(xss)| == 4 * |xss|
    decreases |xss|
  {
    if xss != [] {
      FlattenLength(xss[..|xss| - 1]);
    }
  }

  lemma {:induction false} FlattenCodes(xss: seq<seq<Setting>>)
    requires forall i :: 0 <= i < |xss| ==> TwoCharCodes(xss[i])
    ensures TwoCharCodes(Flatten(xss))
  {
    if xss != [] {
      var init, last := xss[..|xss| - 1], xss[|xss| - 1];
      FlattenCodes(init);
      var a := Flatten(init);
      assert forall k :: 0 <= k < |a + last| ==> (a + last)[k] == if k < |a| then a[k] else last[k - |a|];
    }
  }

  lemma PlanSettingsAppend(p: Profile, a: seq<Phase>, b: seq<Phase>)
    ensures PlanSettings(p, a + b) == PlanSettings(p, a) + PlanSettings(p, b)
  {
    assert StagesSettings(p, a + b) == StagesSettings(p, a) + StagesSettings(p, b);
    FlattenAppend(StagesSettings(p, a), StagesSettings(p, b));
  }

  /** Running phases[b] after phases[a..b] extends their settings by that
      stage's settings. */
  lemma SliceStep(p: Profile, phases: seq<Phase>, a: nat, b: nat)
    requires a <= b < |phases|
    ensures PlanSettings(p, phases[a..b + 1])
            == PlanSettings(p, phases[a..b]) + StageSettings(StageOf(p, phases[b]))
  {
    assert phases[a..b + 1] == phases[a..b] + [phases[b]];
    PlanSettingsAppend(p, phases[a..b], [phases[b]]);
    PlanSettingsOne(p, phases[b]);
  }

  lemma SliceEmpty(p: Profile, phases: seq<Phase>, a: nat)
    requires a <= |phases|
    ensures PlanSettings(p, phases[a..a]) == []
  {
    assert StagesSettings(p, phases[a..a]) == [];
  }

  lemma PlanSettingsOne(p: Profile, phase: Phase)
    ensures PlanSettings(p, [phase]) == StageSettings(StageOf(p, phase))
  {
    var xss := StagesSettings(p, [phase]);
    assert xss == [StageSettings(StageOf(p, phase))];
    assert xss[..0] == [];
    assert Flatten(xss) == Flatten(xss[..0]) + xss[0];
  }

  /** Phase j's settings are the four at 4j..4j+3: each stage writes P, I,
      D, then the temperature. */
  lemma PlanSettingsAt(p: Profile, phases: seq<Phase>, j: nat)
    requires j < |phases|
    ensures |PlanSettings(p, phases)| == 4 * |phases|
    ensures PlanSettings(p, phases)[4 * j..4 * j + 4] == StageSettings(StageOf(p, phases[j]))
  {
    FlattenAt(StagesSettings(p, phases), j);
  }

  /** Every setting of a plan has a two-character code, and the frame
      `set_command` builds for it carries that code. */
  lemma {:induction false} PlanCodes(p: Profile, phases: seq<Phase>)
    ensures TwoCharCodes(PlanSettings(p, phases))
    ensures FrameCodes(Frames(PlanSettings(p, phases))) == SettingCodes(PlanSettings(p, phases))
  {
    var sts := PlanSettings(p, phases);
    FlattenLength(StagesSettings(p, phases));
    forall k | 0 <= k < |sts|
      ensures |sts[k].code| == 2
    {
      PlanSettingsAt(p, phases, k / 4);
      assert sts[k] == sts[4 * (k / 4)..4 * (k / 4) + 4][k % 4];
    }
    forall k | 0 <= k < |sts|
      ensures Code(Frames(sts)[k]) == sts[k].code
    {
      FrameCode(sts[k].code, sts[k].value);
    }
  }

  lemma FrameCode(command: seq<char>, v: int)
    requires |command| == 2
    ensures Code(Frame(command, v)) == command
  {
    FrameLayout(command, v);
  }

  /** Each stage sets the temperature exactly once. */
  lemma StageTemperatureSets(s: Stage)
    ensures Count(SettingCodes(StageSettings(s)), "1c") == 1
  {
    var cs := SettingCodes(StageSettings(s));
    assert cs == ["1d", "1e", "1f", "1c"];
    assert cs[..3] == ["1d", "1e", "1f"] && cs[..3][..2] == ["1d", "1e"];
    assert cs[..3][..2][..1] == ["1d"] && cs[..3][..2][..1][..0] == [];
    assert "1d"[1] != "1c"[1] && "1e"[1] != "1c"[1] && "1f"[1] != "1c"[1];
    assert Count(cs[..3][..2][..1], "1c") == 0;
    assert Count(cs[..3][..2], "1c") == 0;
    assert Count(cs[..3], "1c") == 0;
  }

  lemma {:induction false} FlattenTemperatureSets(xss: seq<seq<Setting>>)
    requires forall i :: 0 <= i < |xss| ==> Count(SettingCodes(xss[i]), "1c") == 1
    ensures Count(SettingCodes(Flatten(xss)), "1c") == |xss|
    decreases |xss|
  {
    if xss == [] {
      assert SettingCodes([]) == [];
    } else {
      var a, b := Flatten(xss[..|xss| - 1]), xss[|xss| - 1];
      FlattenTemperatureSets(xss[..|xss| - 1]);
      assert SettingCodes(a + b) == SettingCodes(a) + SettingCodes(b);
      CountAppend(SettingCodes(a), SettingCodes(b), "1c");
    }
  }

  lemma PlanTemperatureSets(p: Profile, phases: seq<Phase>)
    ensures Count(SettingCodes(PlanSettings(p, phases)), "1c") == |phases|
  {
    var xss := StagesSettings(p, phases);
    forall i | 0 <= i < |xss|
      ensures Count(SettingCodes(xss[i]), "1c") == 1
    {
      StageTemperatureSets(StageOf(p, phases[i]));
    }
    FlattenTemperatureSets(xss);
  }

  /** The frames of the program set the temperature 3N + 1 times for N >= 1
      loop iterations, and twice (outer denaturation, final hold) for none. */
  lemma ProgramTemperatureSets(p: Profile)
    ensures TwoCharCodes(PlanSettings(p, Plan(p)))
    ensures TemperatureSets(Frames(PlanSettings(p, Plan(p))))
            == if LoopCount(p) == 0 then 2 else 3 * LoopCount(p) + 1
  {
    PlanCodes(p, Plan(p));
    PlanTemperatureSets(p, Plan(p));
    PlanLength(p);
  }
}
