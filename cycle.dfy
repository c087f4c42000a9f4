/** One association cycle as a value, stated over the tracks and the
    measurements themselves: what the loop of `associate_and_update`
    extracts from the gated matrix, what it updates, and the properties of
    both. */
module Cycle {
  import opened IndexLists
  import opened Gate
  import opened Greedy
  import opened Updates

  /** The pairs the loop extracts, in order, and the two leftover lists,
      starting from the matrix `associate` builds. */
  function Extract(tracks: seq<Track>, meas: seq<Measurement>,
                   mhd: (Track, Measurement) -> real, threshold: nat -> real): (o: Outcome)
    ensures InRange(o.matches, |tracks|, |meas|)
    ensures DistinctTracks(o.matches)
  {
    var m0 := GatedMatrix(tracks, meas, mhd, threshold);
    GatedMatrixShape(tracks, meas, mhd, threshold);
    StartLockstep(m0, |meas|);
    DrainFeasible(m0, |meas|, Start(m0, |meas|));
    DrainDistinct(Start(m0, |meas|));
    var o := Drain(Start(m0, |meas|));
    assert forall k :: 0 <= k < |o.matches| ==> TracksOf(o.matches)[k] == o.matches[k].track;
    o
  }

  /** The extraction is the greedy matcher drained from the state
      `associate` leaves. */
  lemma ExtractIsDrain(tracks: seq<Track>, meas: seq<Measurement>,
                       mhd: (Track, Measurement) -> real, threshold: nat -> real)
    ensures Lockstep(GatedMatrix(tracks, meas, mhd, threshold), |meas|,
                     Start(GatedMatrix(tracks, meas, mhd, threshold), |meas|))
    ensures Extract(tracks, meas, mhd, threshold) ==
            Drain(Start(GatedMatrix(tracks, meas, mhd, threshold), |meas|))
  {
    GatedMatrixShape(tracks, meas, mhd, threshold);
    StartLockstep(GatedMatrix(tracks, meas, mhd, threshold), |meas|);
  }

  /** Every extracted pair passed the gate with its own distance. */
  lemma MatchesPassGate(tracks: seq<Track>, meas: seq<Measurement>,
                        mhd: (Track, Measurement) -> real, threshold: nat -> real)
    ensures var o := Extract(tracks, meas, mhd, threshold);
            forall k :: 0 <= k < |o.matches| ==>
              Gating(mhd(tracks[o.matches[k].track], meas[o.matches[k].meas]),
                     meas[o.matches[k].meas].sensor, threshold)
  {
    var m0 := GatedMatrix(tracks, meas, mhd, threshold);
    GatedMatrixCells(tracks, meas, mhd, threshold);
    StartLockstep(m0, |meas|);
    DrainFeasible(m0, |meas|, Start(m0, |meas|));
  }

  /** Each extraction consumes one track and one measurement: matched plus
      unassigned tracks is N, matched plus unassigned measurements is M, so
      the loop runs at most min(N, M) times. */
  lemma MatchCounts(tracks: seq<Track>, meas: seq<Measurement>,
                    mhd: (Track, Measurement) -> real, threshold: nat -> real)
    ensures var o := Extract(tracks, meas, mhd, threshold);
            && |o.matches| + |o.tracksLeft| == |tracks|
            && |o.matches| + |o.measLeft| == |meas|
            && |o.matches| <= |tracks| && |o.matches| <= |meas|
  {
    var m0 := GatedMatrix(tracks, meas, mhd, threshold);
    GatedMatrixCells(tracks, meas, mhd, threshold);
    StartLockstep(m0, |meas|);
    RangeIsIncreasing(|tracks|);
    RangeIsIncreasing(|meas|);
    DrainCounts(Start(m0, |meas|));
  }

  /** Every track index 0..N-1 ends either in exactly one match or in the
      unassigned list, never both, and likewise for measurements; the
      unassigned lists stay in increasing order. */
  lemma MatchesPartition(tracks: seq<Track>, meas: seq<Measurement>,
                         mhd: (Track, Measurement) -> real, threshold: nat -> real)
    ensures var o := Extract(tracks, meas, mhd, threshold);
            && multiset(TracksOf(o.matches)) + multiset(o.tracksLeft) == multiset(Range(|tracks|))
            && multiset(MeasOf(o.matches)) + multiset(o.measLeft) == multiset(Range(|meas|))
            && Distinct(TracksOf(o.matches)) && Distinct(MeasOf(o.matches))
            && (forall t :: t in TracksOf(o.matches) ==> t !in o.tracksLeft)
            && (forall u :: u in MeasOf(o.matches) ==> u !in o.measLeft)
            && Increasing(o.tracksLeft) && Increasing(o.measLeft)
  {
    var m0 := GatedMatrix(tracks, meas, mhd, threshold);
    GatedMatrixCells(tracks, meas, mhd, threshold);
    StartLockstep(m0, |meas|);
    var s := Start(m0, |meas|);
    DrainSplitsTracks(s);
    DrainSplitsMeas(s);
    DrainDistinct(s);
    DrainLeftovers(s);
  }

  /** When the loop ends, no unassigned track and unassigned measurement
      could still be paired: the gate rejected every such pair. */
  lemma LeftoversGatedOut(tracks: seq<Track>, meas: seq<Measurement>,
                          mhd: (Track, Measurement) -> real, threshold: nat -> real)
    ensures var o := Extract(tracks, meas, mhd, threshold);
            && (forall a :: 0 <= a < |o.tracksLeft| ==> o.tracksLeft[a] < |tracks|)
            && (forall b :: 0 <= b < |o.measLeft| ==> o.measLeft[b] < |meas|)
            && (forall a, b :: 0 <= a < |o.tracksLeft| && 0 <= b < |o.measLeft| ==>
                  !Gating(mhd(tracks[o.tracksLeft[a]], meas[o.measLeft[b]]),
                          meas[o.measLeft[b]].sensor, threshold))
  {
    var m0 := GatedMatrix(tracks, meas, mhd, threshold);
    GatedMatrixShape(tracks, meas, mhd, threshold);
    StartLockstep(m0, |meas|);
    var o := Drain(Start(m0, |meas|));
    DrainMaximal(m0, |meas|, Start(m0, |meas|));
    forall a, b | 0 <= a < |o.tracksLeft| && 0 <= b < |o.measLeft|
      ensures !Gating(mhd(tracks[o.tracksLeft[a]], meas[o.measLeft[b]]), meas[o.measLeft[b]].sensor, threshold)
    {
      InfCellRejected(tracks, meas, mhd, threshold, o.tracksLeft[a], o.measLeft[b]);
    }
  }

  /** Nearest neighbour first: the distances of the extracted pairs never
      decrease in extraction order. */
  lemma MatchesInDistanceOrder(tracks: seq<Track>, meas: seq<Measurement>,
                               mhd: (Track, Measurement) -> real, threshold: nat -> real)
    ensures var o := Extract(tracks, meas, mhd, threshold);
            forall k :: 0 <= k < |o.matches| - 1 ==>
              mhd(tracks[o.matches[k].track], meas[o.matches[k].meas]) <=
              mhd(tracks[o.matches[k + 1].track], meas[o.matches[k + 1].meas])
  {
    var m0 := GatedMatrix(tracks, meas, mhd, threshold);
    GatedMatrixCells(tracks, meas, mhd, threshold);
    StartLockstep(m0, |meas|);
    DrainNondecreasing(m0, |meas|, Start(m0, |meas|));
  }

  /** Updated tracks plus unassigned tracks never exceed N, and they equal
      N exactly when no extracted pair was skipped for the field of view:
      a skipped pair is neither updated nor put back among the unassigned. */
  lemma UpdateCounts(tracks: seq<Track>, meas: seq<Measurement>,
                     mhd: (Track, Measurement) -> real, threshold: nat -> real,
                     inFov: (Sensor, seq<real>) -> bool,
                     kfUpdate: (Track, Measurement) -> Track, handleUpdated: Track -> Track)
    ensures var o := Extract(tracks, meas, mhd, threshold);
            var r := Replay(tracks, meas, o.matches, inFov, kfUpdate, handleUpdated);
            && |r.updated| + |o.tracksLeft| <= |tracks|
            && (|r.updated| + |o.tracksLeft| == |tracks| <==>
                forall k :: 0 <= k < |o.matches| ==> inFov(meas[0].sensor, tracks[o.matches[k].track].x))
  {
    var o := Extract(tracks, meas, mhd, threshold);
    MatchCounts(tracks, meas, mhd, threshold);
    ReplayUpdatesInView(tracks, meas, o.matches, inFov, kfUpdate, handleUpdated);
    InViewCount(tracks, meas, o.matches, inFov);
  }

  /** The loop updates exactly the extracted pairs whose track is in view,
      in order; each such track becomes the manager callback applied to the
      Kalman update of the track with its measurement, and every other
      track is left as it was. */
  lemma UpdatedTracks(tracks: seq<Track>, meas: seq<Measurement>,
                      mhd: (Track, Measurement) -> real, threshold: nat -> real,
                      inFov: (Sensor, seq<real>) -> bool,
                      kfUpdate: (Track, Measurement) -> Track, handleUpdated: Track -> Track)
    ensures var o := Extract(tracks, meas, mhd, threshold);
            var r := Replay(tracks, meas, o.matches, inFov, kfUpdate, handleUpdated);
            && r.updated == InView(tracks, meas, o.matches, inFov)
            && (forall k :: 0 <= k < |r.updated| ==>
                  r.tracks[r.updated[k].track] ==
                    handleUpdated(kfUpdate(tracks[r.updated[k].track], meas[r.updated[k].meas])))
            && (forall t :: 0 <= t < |tracks| && (forall k :: 0 <= k < |r.updated| ==> r.updated[k].track != t) ==>
                  r.tracks[t] == tracks[t])
  {
    var o := Extract(tracks, meas, mhd, threshold);
    var r := Replay(tracks, meas, o.matches, inFov, kfUpdate, handleUpdated);
    ReplayUpdatesInView(tracks, meas, o.matches, inFov, kfUpdate, handleUpdated);
    forall t | 0 <= t < |tracks| && (forall k :: 0 <= k < |r.updated| ==> r.updated[k].track != t)
      ensures r.tracks[t] == tracks[t]
    {
      ReplayKeepsOthers(tracks, meas, o.matches, inFov, kfUpdate, handleUpdated, t);
    }
  }
}
