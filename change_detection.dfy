/**
  The change tracker that decides whether a transform component (position, rotation
  or scale) of a networked entity has moved far enough from the last replicated value
  to be sent again: the closure built by `vectorRequiresUpdate(epsilon)()`.

  The comparison `NAF.utils.almostEqualVec3(prev, curr, epsilon)` belongs to the
  networking library and its definition is not part of this model, so it is a
  parameter `eq` of every member. Nothing is assumed about it; where a lemma needs
  it to be reflexive, that is one of its hypotheses.
*/
module ChangeDetection {
  import opened Base

  /** The foreign `almostEqualVec3(prev, curr, epsilon)`. */
  type AlmostEqual = (Vec3, Vec3, real) -> bool

  /** What feeding one sample does: whether it is replicated, and the baseline afterwards. */
  datatype Decision = Decision(emit: bool, baseline: Option<Vec3>)

  /**
    One call of the tracker closure whose captured `prev` is `prev`.
    The first sample always emits and becomes the baseline; a later one emits, and
    replaces the baseline, exactly when it is not almost equal to the baseline.
  */
  function Step(prev: Option<Vec3>, curr: Vec3, eq: AlmostEqual, epsilon: real): (d: Decision)
    ensures d.emit <==> (prev.None? || !eq(prev.value, curr, epsilon))
    ensures d.emit ==> d.baseline == Some(curr)
    ensures !d.emit ==> d.baseline == prev
  {
    match prev
    case None => Decision(true, Some(curr))
    case Some(p) =>
      if !eq(p, curr, epsilon) then Decision(true, Some(curr)) else Decision(false, prev)
  }

  /** The answers of a tracker with baseline `prev` to the samples `samples`, in order. */
  function Run(prev: Option<Vec3>, samples: seq<Vec3>, eq: AlmostEqual, epsilon: real): (emits: seq<bool>)
    ensures |emits| == |samples|
    decreases |samples|
  {
    if samples == [] then []
    else
      var d := Step(prev, samples[0], eq, epsilon);
      [d.emit] + Run(d.baseline, samples[1..], eq, epsilon)
  }

  /** The baseline of a tracker with baseline `prev` after it has seen `samples`. */
  function Baseline(prev: Option<Vec3>, samples: seq<Vec3>, eq: AlmostEqual, epsilon: real): Option<Vec3>
    decreases |samples|
  {
    if samples == [] then prev
    else Baseline(Step(prev, samples[0], eq, epsilon).baseline, samples[1..], eq, epsilon)
  }

  /**
    The answer to sample `i` is the one-step decision taken against the baseline left by
    the samples before it, and that decision's baseline is what the first `i + 1` samples leave.
  */
  lemma {:induction false} RunAt(prev: Option<Vec3>, samples: seq<Vec3>, eq: AlmostEqual, epsilon: real, i: nat)
    requires i < |samples|
    ensures Run(prev, samples, eq, epsilon)[i] == Step(Baseline(prev, samples[..i], eq, epsilon), samples[i], eq, epsilon).emit
    ensures Baseline(prev, samples[..i + 1], eq, epsilon)
         == Step(Baseline(prev, samples[..i], eq, epsilon), samples[i], eq, epsilon).baseline
    decreases i
  {
    var d := Step(prev, samples[0], eq, epsilon);
    if i == 0 {
      assert samples[..1] == [samples[0]];
      assert samples[..1][1..] == [];
    } else {
      RunAt(d.baseline, samples[1..], eq, epsilon, i - 1);
      assert samples[..i][1..] == samples[1..][..i - 1];
      assert samples[..i + 1][1..] == samples[1..][..i];
    }
  }

  /** A sample that is not replicated is almost equal to the baseline it was compared with. */
  lemma SuppressedSampleIsNearBaseline(prev: Option<Vec3>, samples: seq<Vec3>, eq: AlmostEqual, epsilon: real, i: nat)
    requires i < |samples| && !Run(prev, samples, eq, epsilon)[i]
    ensures Baseline(prev, samples[..i], eq, epsilon).Some?
    ensures eq(Baseline(prev, samples[..i], eq, epsilon).value, samples[i], epsilon)
    ensures Baseline(prev, samples[..i + 1], eq, epsilon) == Baseline(prev, samples[..i], eq, epsilon)
  {
    RunAt(prev, samples, eq, epsilon, i);
  }

  /** A sample that is replicated becomes the new baseline. */
  lemma EmittedSampleBecomesBaseline(prev: Option<Vec3>, samples: seq<Vec3>, eq: AlmostEqual, epsilon: real, i: nat)
    requires i < |samples| && Run(prev, samples, eq, epsilon)[i]
    ensures Baseline(prev, samples[..i + 1], eq, epsilon) == Some(samples[i])
  {
    RunAt(prev, samples, eq, epsilon, i);
  }

  /**
    The baseline moves only when a sample is replicated: after a stretch of suppressed
    samples it is still the one before the stretch, however far the samples drifted.
  */
  lemma {:induction false} SilentRunKeepsBaseline(prev: Option<Vec3>, samples: seq<Vec3>, eq: AlmostEqual, epsilon: real)
    requires forall i | 0 <= i < |samples| :: !Run(prev, samples, eq, epsilon)[i]
    ensures Baseline(prev, samples, eq, epsilon) == prev
    decreases |samples|
  {
    if samples != [] {
      var emits := Run(prev, samples, eq, epsilon);
      assert !emits[0];
      var rest := Run(prev, samples[1..], eq, epsilon);
      forall i | 0 <= i < |samples| - 1 ensures !rest[i] {
        assert rest[i] == emits[i + 1];
      }
      SilentRunKeepsBaseline(prev, samples[1..], eq, epsilon);
    }
  }

  /** With a baseline equal to every sample (and `eq` reflexive there), nothing is replicated. */
  lemma {:induction false} SteadyStreamIsSilent(c: Vec3, samples: seq<Vec3>, eq: AlmostEqual, epsilon: real)
    requires eq(c, c, epsilon)
    requires forall i | 0 <= i < |samples| :: samples[i] == c
    ensures forall i | 0 <= i < |samples| :: !Run(Some(c), samples, eq, epsilon)[i]
    decreases |samples|
  {
    if samples != [] {
      SteadyStreamIsSilent(c, samples[1..], eq, epsilon);
    }
  }

  /**
    A fresh tracker fed a constant stream replicates the first sample and none after it,
    provided `almostEqualVec3` holds of a vector and itself.
  */
  lemma ConstantStreamEmitsOnce(c: Vec3, samples: seq<Vec3>, eq: AlmostEqual, epsilon: real)
    requires eq(c, c, epsilon)
    requires |samples| > 0 && forall i | 0 <= i < |samples| :: samples[i] == c
    ensures Run(None, samples, eq, epsilon)[0]
    ensures forall i | 1 <= i < |samples| :: !Run(None, samples, eq, epsilon)[i]
  {
    var emits := Run(None, samples, eq, epsilon);
    var rest := Run(Some(c), samples[1..], eq, epsilon);
    SteadyStreamIsSilent(c, samples[1..], eq, epsilon);
    forall i | 1 <= i < |samples| ensures !emits[i] {
      assert emits[i] == rest[i - 1];
    }
  }

  /** `vectorRequiresUpdate(epsilon)`: a factory whose only captured state is `epsilon`. */
  datatype Factory = Factory(epsilon: real)

  /** One tracker closure: the captured `epsilon` and the captured, mutable `prev`. */
  class Tracker {
    const epsilon: real
    var prev: Option<Vec3>

    /** Calling the factory: every call starts a tracker of its own, with no baseline. */
    constructor (factory: Factory)
      ensures epsilon == factory.epsilon && prev == None
    {
      epsilon := factory.epsilon;
      prev := None;
    }

    /** Calling the closure with the sample `curr`. */
    method RequiresUpdate(curr: Vec3, eq: AlmostEqual) returns (emit: bool)
      modifies this`prev
      ensures old(prev) == None ==> emit && prev == Some(curr)
      ensures old(prev).Some? ==> (emit <==> !eq(old(prev).value, curr, epsilon))
      ensures prev == if emit then Some(curr) else old(prev)
      ensures Decision(emit, prev) == Step(old(prev), curr, eq, epsilon)
    {
      if prev == None {
        prev := Some(curr);
        return true;
      } else if !eq(prev.value, curr, epsilon) {
        prev := Some(curr);
        return true;
      }
      return false;
    }
  }
}
