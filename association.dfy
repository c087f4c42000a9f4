/** The `Association` class: single-nearest-neighbour association with
    chi-square gating on the Mahalanobis distance. The object keeps the
    association matrix and the two unassigned lists as fields; `associate`
    rebuilds them, `get_closest_track_and_meas` shrinks them by one pair,
    and `associate_and_update` drives both and updates the tracks. */
module Association {
  import opened IndexLists
  import opened CostMatrix
  import opened Gate
  import opened Greedy
  import opened Updates
  import opened Cycle

  /** The result of `get_closest_track_and_meas`: a pair, or the
      `(nan, nan)` sentinel when nothing the gate accepted is left. */
  datatype Option<T> = None | Some(value: T)

  class Association {
    /** The association matrix: rows are unassigned tracks, columns unassigned measurements. */
    var associationMatrix: seq<seq<Cost>>
    /** Indices into the track list that have not been matched yet. */
    var unassignedTracks: seq<nat>
    /** Indices into the measurement list that have not been matched yet. */
    var unassignedMeas: seq<nat>
    /** The matrix the last `associate` built, and its number of columns. */
    ghost var initial: seq<seq<Cost>>
    ghost var measCount: nat

    /** The three fields as one state of the greedy matcher. */
    function Current(): State
      reads this
    {
      State(associationMatrix, unassignedTracks, unassignedMeas)
    }

    /** The object invariant from `associate` on: the current matrix is
        the initial one restricted to the unassigned tracks (rows) and the
        unassigned measurements (columns), both lists in increasing order. */
    ghost predicate Valid()
      reads this
    {
      Lockstep(initial, measCount, Current())
    }

    /** `__init__`: an empty 1×0 `np.matrix` and two empty lists. */
    constructor ()
      ensures associationMatrix == [[]] && unassignedTracks == [] && unassignedMeas == []
    {
      associationMatrix := [[]];
      unassignedTracks := [];
      unassignedMeas := [];
      initial := [];
      measCount := 0;
    }

    /** `associate`: every track and every measurement becomes unassigned,
        and the N×M matrix starts infinite and takes the distance of each
        pair the gate accepts. */
    method Associate(trackList: seq<Track>, measList: seq<Measurement>,
                     mhd: (Track, Measurement) -> real, threshold: nat -> real)
      modifies this
      ensures unassignedTracks == Range(|trackList|) && unassignedMeas == Range(|measList|)
      ensures associationMatrix == GatedMatrix(trackList, measList, mhd, threshold)
      ensures initial == associationMatrix && measCount == |measList|
      ensures Valid()
    {
      var n, m := |trackList|, |measList|;
      ghost var gated := GatedMatrix(trackList, measList, mhd, threshold);
      ghost var infs := seq(m, _ => Inf);
      unassignedTracks := Range(n);
      unassignedMeas := Range(m);
      associationMatrix := seq(n, _ => seq(m, _ => Inf));
      for i := 0 to n
        invariant unassignedTracks == Range(n) && unassignedMeas == Range(m)
        invariant |associationMatrix| == n
        invariant forall k :: 0 <= k < i ==> associationMatrix[k] == gated[k]
        invariant forall k :: i <= k < n ==> associationMatrix[k] == infs
      {
        var track := trackList[i];
        for j := 0 to m
          invariant unassignedTracks == Range(n) && unassignedMeas == Range(m)
          invariant |associationMatrix| == n && |associationMatrix[i]| == m
          invariant forall k :: 0 <= k < n && k != i ==>
                      associationMatrix[k] == if k < i then gated[k] else infs
          invariant forall l :: 0 <= l < j ==> associationMatrix[i][l] == gated[i][l]
          invariant forall l :: j <= l < m ==> associationMatrix[i][l] == Inf
        {
          var meas := measList[j];
          var mhdDist := mhd(track, meas);
          if Gating(mhdDist, meas.sensor, threshold) {
            associationMatrix := associationMatrix[i := associationMatrix[i][j := Fin(mhdDist)]];
          }
        }
        assert associationMatrix[i] == gated[i];
      }
      assert associationMatrix == gated;
      initial := associationMatrix;
      measCount := m;
      StartLockstep(initial, m);
    }

    /** `get_closest_track_and_meas`: when every cell is infinite, the
        sentinel and nothing changes; otherwise the first smallest cell in
        row-major order is taken out with its row and column, and its track
        and measurement leave the unassigned lists. This is one step of the
        greedy matcher, and the invariant is kept. */
    method GetClosestTrackAndMeas() returns (r: Option<Match>)
      requires Valid() && |associationMatrix| > 0 && |associationMatrix[0]| > 0
      modifies this
      ensures initial == old(initial) && measCount == old(measCount)
      ensures Valid()
      ensures r.None? <==> AllInf(old(associationMatrix))
      ensures r.None? ==> Current() == old(Current())
      ensures r.Some? ==> Step(old(Current())) == Matched(r.value, Current())
    {
      var a := associationMatrix;
      var minimum := MinEntry(a);
      if minimum == Inf {
        return None;
      }
      ghost var s := Current();
      var itrack, imeas := FirstArgMin(a);
      DeleteRowColAt(a, |unassignedTracks|, |unassignedMeas|, itrack, imeas);
      a := DeleteRow(a, itrack);
      a := DeleteCol(a, imeas);
      associationMatrix := a;
      var updateTrack := unassignedTracks[itrack];
      var updateMeas := unassignedMeas[imeas];
      unassignedTracks := RemoveFirst(unassignedTracks, updateTrack);
      unassignedMeas := RemoveFirst(unassignedMeas, updateMeas);
      r := Some(Match(updateTrack, updateMeas));
      assert Step(s) == Matched(r.value, Current());
      StepLockstep(initial, measCount, s);
    }

    /** `associate_and_update`: build the matrix, then extract pairs until
        the matrix has no row or no column or the sentinel comes back. A
        pair whose track the FIRST measurement's sensor does not see is
        dropped; every other one is Kalman-updated, handed to the manager
        and stored back. The unassigned lists then go to track management.
        The outcome is the cycle's extraction and replay. `passes` counts
        the loop's passes, the last one that meets the sentinel included:
        there are at most min(N, M). */
    method AssociateAndUpdate(trackList: seq<Track>, measList: seq<Measurement>,
                              mhd: (Track, Measurement) -> real, threshold: nat -> real,
                              inFov: (Sensor, seq<real>) -> bool,
                              kfUpdate: (Track, Measurement) -> Track,
                              handleUpdated: Track -> Track,
                              manageTracks: (seq<Track>, seq<nat>, seq<nat>, seq<Measurement>) -> seq<Track>)
      returns (managed: seq<Track>, updated: seq<Match>, ghost passes: nat)
      modifies this
      ensures Valid()
      ensures initial == GatedMatrix(trackList, measList, mhd, threshold) && measCount == |measList|
      ensures |associationMatrix| == 0 || |associationMatrix[0]| == 0 || AllInf(associationMatrix)
      ensures passes <= |trackList| && passes <= |measList|
      ensures unassignedTracks == Extract(trackList, measList, mhd, threshold).tracksLeft
      ensures unassignedMeas == Extract(trackList, measList, mhd, threshold).measLeft
      ensures var r := Replay(trackList, measList, Extract(trackList, measList, mhd, threshold).matches,
                              inFov, kfUpdate, handleUpdated);
              && updated == r.updated
              && managed == manageTracks(r.tracks, unassignedTracks, unassignedMeas, measList)
    {
      Associate(trackList, measList, mhd, threshold);
      var tracks := trackList;
      updated := [];
      ghost var m0 := initial;
      ghost var done: seq<Match> := [];
      assert Current() == Start(m0, |measList|);
      ResumesAtStart(Current());
      DrainCounts(Start(m0, |measList|));
      passes := 0;
      while |associationMatrix| > 0 && |associationMatrix[0]| > 0
        invariant Valid() && initial == m0 && measCount == |measList|
        invariant InRange(done, |trackList|, |measList|)
        invariant Resumes(Start(m0, |measList|), done, Current())
        invariant passes == |done|
        invariant |Drain(Start(m0, |measList|)).matches| + |Drain(Start(m0, |measList|)).tracksLeft| == |trackList|
        invariant |Drain(Start(m0, |measList|)).matches| + |Drain(Start(m0, |measList|)).measLeft| == |measList|
        invariant Replay(trackList, measList, done, inFov, kfUpdate, handleUpdated) == Replayed(tracks, updated)
        decreases |unassignedTracks|
      {
        ghost var s := Current();
        passes := passes + 1;
        var pair := GetClosestTrackAndMeas();
        if pair.None? {
          assert AllInf(associationMatrix);
          DrainStopped(Start(m0, |measList|), done, Current());
          break;
        }
        var p := pair.value;
        StepInBounds(m0, |measList|, s);
        DrainMatched(s, p, Current());
        DrainAfterStep(Start(m0, |measList|), done, s, p, Current());
        ReplaySnoc(trackList, measList, done, p, inFov, kfUpdate, handleUpdated);
        done := done + [p];
        var track := tracks[p.track];
        if !inFov(measList[0].sensor, track.x) {
          continue;
        }
        track := kfUpdate(track, measList[p.meas]);
        track := handleUpdated(track);
        tracks := tracks[p.track := track];
        updated := updated + [p];
      }
      DrainStopped(Start(m0, |measList|), done, Current());
      ExtractIsDrain(trackList, measList, mhd, threshold);
      managed := manageTracks(tracks, unassignedTracks, unassignedMeas, measList);
    }
  }
}
