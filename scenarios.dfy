/** Small association cycles worked out in full, for any distance and any
    gate: one track and one measurement inside or outside the gate, no
    tracks at all, and two tracks competing for two measurements. */
module Scenarios {
  import opened IndexLists
  import opened CostMatrix
  import opened Gate
  import opened Greedy
  import opened Updates
  import opened Cycle

  /** One track, one measurement inside the gate: exactly one match, and
      nothing is left unassigned. */
  lemma OnePairInsideGate(t: Track, z: Measurement,
                          mhd: (Track, Measurement) -> real, threshold: nat -> real)
    requires Gating(mhd(t, z), z.sensor, threshold)
    ensures Extract([t], [z], mhd, threshold) == Outcome([Match(0, 0)], [], [])
  {
    var m0 := GatedMatrix([t], [z], mhd, threshold);
    ExtractIsDrain([t], [z], mhd, threshold);
    var s := Start(m0, 1);
    RangeIsIncreasing(1);
    SingleCell(s);
  }

  /** One track, one measurement outside the gate: no match, and both stay
      unassigned. */
  lemma OnePairOutsideGate(t: Track, z: Measurement,
                           mhd: (Track, Measurement) -> real, threshold: nat -> real)
    requires !Gating(mhd(t, z), z.sensor, threshold)
    ensures Extract([t], [z], mhd, threshold) == Outcome([], [0], [0])
  {
    var m0 := GatedMatrix([t], [z], mhd, threshold);
    ExtractIsDrain([t], [z], mhd, threshold);
    var s := Start(m0, 1);
    RangeIsIncreasing(1);
    assert s.matrix[0][0] == Inf;
    assert AllInf(s.matrix);
    assert Range(1) == [0];
  }

  /** One track and one measurement inside the gate, but the sensor does
      not see the track: the pair is consumed, neither the Kalman update
      nor the manager callback runs, the track keeps its value, and neither
      index returns to the unassigned lists. */
  lemma OnePairOutOfView(t: Track, z: Measurement,
                         mhd: (Track, Measurement) -> real, threshold: nat -> real,
                         inFov: (Sensor, seq<real>) -> bool,
                         kfUpdate: (Track, Measurement) -> Track, handleUpdated: Track -> Track)
    requires Gating(mhd(t, z), z.sensor, threshold) && !inFov(z.sensor, t.x)
    ensures Replay([t], [z], Extract([t], [z], mhd, threshold).matches, inFov, kfUpdate, handleUpdated)
            == Replayed([t], [])
    ensures Extract([t], [z], mhd, threshold).tracksLeft == []
    ensures Extract([t], [z], mhd, threshold).measLeft == []
  {
    OnePairInsideGate(t, z, mhd, threshold);
    assert [Match(0, 0)][..0] == [];
  }

  /** No tracks: no match, every measurement unassigned, no error. */
  lemma NoTracks(meas: seq<Measurement>, mhd: (Track, Measurement) -> real, threshold: nat -> real)
    ensures Extract([], meas, mhd, threshold) == Outcome([], [], Range(|meas|))
  {
    ExtractIsDrain([], meas, mhd, threshold);
    assert GatedMatrix([], meas, mhd, threshold) == [];
  }

  /** A 1×1 state whose cell passed the gate drains to its one pair. */
  lemma SingleCell(s: State)
    requires Consistent(s) && |s.tracks| == 1 && |s.meas| == 1 && s.matrix[0][0].Fin?
    ensures Drain(s) == Outcome([Match(s.tracks[0], s.meas[0])], [], [])
  {
    var i, j := DrainStep(s);
    CrossConsistent(s, i, j);
  }

  /** The state of the 2×2 scenario: tracks 0, 1 and measurements 0, 1,
      cell (1, 0) finite and strictly below the other three. */
  predicate CrossedState(s: State) {
    && Consistent(s) && |s.tracks| == 2 && |s.meas| == 2
    && s.tracks[0] == 0 && s.tracks[1] == 1 && s.meas[0] == 0 && s.meas[1] == 1
    && s.matrix[1][0].Fin?
    && Below(s.matrix[1][0], s.matrix[0][0]) && Below(s.matrix[1][0], s.matrix[0][1])
    && Below(s.matrix[1][0], s.matrix[1][1])
  }

  /** The first extraction takes cell (1, 0). */
  lemma CrossedFirst(s: State)
    requires CrossedState(s)
    ensures Step(s) == Matched(Match(1, 0), Cross(s, 1, 0))
  {
    assert IsFirstMin(s.matrix, 1, 0);
    StepIsCross(s);
    var p := MatArgMin(s.matrix);
    FirstMinUnique(s.matrix, p.0, p.1, 1, 0);
  }

  /** What is left after it is track 0 against measurement 1. */
  lemma CrossedRest(s: State)
    requires CrossedState(s)
    ensures var n := Cross(s, 1, 0);
            && Consistent(n) && |n.tracks| == 1 && |n.meas| == 1
            && n.tracks[0] == 0 && n.meas[0] == 1 && n.matrix[0][0] == s.matrix[0][1]
  {
    CrossConsistent(s, 1, 0);
    var n := Cross(s, 1, 0);
  }

  /** In that state the loop extracts (1, 0) and then (0, 1), provided the
      gate accepted (0, 1), and leaves nothing unassigned. */
  lemma CrossedCells(s: State)
    requires CrossedState(s) && s.matrix[0][1].Fin?
    ensures |Drain(s).matches| == 2
    ensures Drain(s).matches[0] == Match(1, 0) && Drain(s).matches[1] == Match(0, 1)
    ensures Drain(s).tracksLeft == [] && Drain(s).measLeft == []
  {
    CrossedFirst(s);
    CrossedRest(s);
    SingleCell(Cross(s, 1, 0));
  }

  /** Two tracks and two measurements, all inside the gate, where the
      smallest distance is between the second track and the first
      measurement: that pair is matched first, and the remaining pair
      second, whatever it costs. */
  lemma CrossedPairs(a: Track, b: Track, z1: Measurement, z2: Measurement,
                     mhd: (Track, Measurement) -> real, threshold: nat -> real)
    requires Gating(mhd(a, z1), z1.sensor, threshold) && Gating(mhd(a, z2), z2.sensor, threshold)
    requires Gating(mhd(b, z1), z1.sensor, threshold) && Gating(mhd(b, z2), z2.sensor, threshold)
    requires mhd(b, z1) < mhd(a, z1) && mhd(b, z1) < mhd(a, z2) && mhd(b, z1) < mhd(b, z2)
    ensures |Extract([a, b], [z1, z2], mhd, threshold).matches| == 2
    ensures Extract([a, b], [z1, z2], mhd, threshold).matches[0] == Match(1, 0)
    ensures Extract([a, b], [z1, z2], mhd, threshold).matches[1] == Match(0, 1)
    ensures Extract([a, b], [z1, z2], mhd, threshold).tracksLeft == []
    ensures Extract([a, b], [z1, z2], mhd, threshold).measLeft == []
  {
    var m0 := GatedMatrix([a, b], [z1, z2], mhd, threshold);
    ExtractIsDrain([a, b], [z1, z2], mhd, threshold);
    var s := Start(m0, 2);
    RangeIsIncreasing(2);
    assert s.matrix[0][0] == Fin(mhd(a, z1)) && s.matrix[0][1] == Fin(mhd(a, z2));
    assert s.matrix[1][0] == Fin(mhd(b, z1)) && s.matrix[1][1] == Fin(mhd(b, z2));
    CrossedCells(s);
  }
}
