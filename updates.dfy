/** The part of the `associate_and_update` loop that runs after each
    extraction: the field-of-view test, the Kalman update and the
    track-manager callback, applied to the track list. The collaborators
    are parameters: `inFov` is `sensor.in_fov`, `kfUpdate` is `KF.update`
    and `handleUpdated` is `manager.handle_updated_track`, each returning
    the track it changed. */
module Updates {
  import opened Gate
  import opened Greedy

  /** Every pair indexes the track list and the measurement list. */
  predicate InRange(pairs: seq<Match>, nTracks: nat, nMeas: nat) {
    forall k :: 0 <= k < |pairs| ==> pairs[k].track < nTracks && pairs[k].meas < nMeas
  }

  /** No two pairs name the same track. */
  predicate DistinctTracks(pairs: seq<Match>) {
    forall k, k' :: 0 <= k < k' < |pairs| ==> pairs[k].track != pairs[k'].track
  }

  /** The track list after the loop, and the pairs for which the Kalman
      update and the manager callback were called, in order. */
  datatype Replayed = Replayed(tracks: seq<Track>, updated: seq<Match>)

  /** The loop body for each extracted pair in turn. A pair whose track the
      sensor of the FIRST measurement reports out of view is skipped;
      otherwise the track (as the list holds it now) is updated with the
      measurement, handed to the manager and stored back at its index. */
  function Replay(tracks: seq<Track>, meas: seq<Measurement>, pairs: seq<Match>,
                  inFov: (Sensor, seq<real>) -> bool,
                  kfUpdate: (Track, Measurement) -> Track,
                  handleUpdated: Track -> Track): (r: Replayed)
    requires InRange(pairs, |tracks|, |meas|)
    ensures |r.tracks| == |tracks|
    ensures InRange(r.updated, |tracks|, |meas|)
    decreases |pairs|
  {
    if pairs == [] then Replayed(tracks, [])
    else
      var last := |pairs| - 1;
      var r := Replay(tracks, meas, pairs[..last], inFov, kfUpdate, handleUpdated);
      var p := pairs[last];
      var track := r.tracks[p.track];
      if !inFov(meas[0].sensor, track.x) then r
      else Replayed(r.tracks[p.track := handleUpdated(kfUpdate(track, meas[p.meas]))], r.updated + [p])
  }

  /** Replaying one more pair: the loop body applied to what the earlier
      pairs left. */
  lemma ReplaySnoc(tracks: seq<Track>, meas: seq<Measurement>, pairs: seq<Match>, p: Match,
                   inFov: (Sensor, seq<real>) -> bool,
                   kfUpdate: (Track, Measurement) -> Track,
                   handleUpdated: Track -> Track)
    requires InRange(pairs, |tracks|, |meas|) && p.track < |tracks| && p.meas < |meas|
    ensures InRange(pairs + [p], |tracks|, |meas|)
    ensures var r := Replay(tracks, meas, pairs, inFov, kfUpdate, handleUpdated);
            Replay(tracks, meas, pairs + [p], inFov, kfUpdate, handleUpdated) ==
              if !inFov(meas[0].sensor, r.tracks[p.track].x) then r
              else Replayed(r.tracks[p.track := handleUpdated(kfUpdate(r.tracks[p.track], meas[p.meas]))],
                            r.updated + [p])
  {
    assert (pairs + [p])[..|pairs|] == pairs;
  }

  /** Reference definition of the pairs that get updated: those whose
      ORIGINAL track the first measurement's sensor sees, in order. */
  function InView(tracks: seq<Track>, meas: seq<Measurement>, pairs: seq<Match>,
                  inFov: (Sensor, seq<real>) -> bool): seq<Match>
    requires InRange(pairs, |tracks|, |meas|)
    decreases |pairs|
  {
    if pairs == [] then []
    else
      var last := |pairs| - 1;
      var rest := InView(tracks, meas, pairs[..last], inFov);
      if inFov(meas[0].sensor, tracks[pairs[last].track].x) then rest + [pairs[last]] else rest
  }

  /** A track that no pair names keeps its value. */
  lemma {:induction false} ReplayUntouched(tracks: seq<Track>, meas: seq<Measurement>, pairs: seq<Match>,
                                           inFov: (Sensor, seq<real>) -> bool,
                                           kfUpdate: (Track, Measurement) -> Track,
                                           handleUpdated: Track -> Track, t: nat)
    requires InRange(pairs, |tracks|, |meas|) && t < |tracks|
    requires forall k :: 0 <= k < |pairs| ==> pairs[k].track != t
    ensures Replay(tracks, meas, pairs, inFov, kfUpdate, handleUpdated).tracks[t] == tracks[t]
    decreases |pairs|
  {
    if pairs != [] {
      ReplayUntouched(tracks, meas, pairs[..|pairs| - 1], inFov, kfUpdate, handleUpdated, t);
    }
  }

  /** Only updated pairs write to the list: a track that no updated pair
      names, whether it was never matched or its pair was skipped for the
      field of view, keeps its value. */
  lemma {:induction false} ReplayKeepsOthers(tracks: seq<Track>, meas: seq<Measurement>, pairs: seq<Match>,
                                             inFov: (Sensor, seq<real>) -> bool,
                                             kfUpdate: (Track, Measurement) -> Track,
                                             handleUpdated: Track -> Track, t: nat)
    requires InRange(pairs, |tracks|, |meas|) && t < |tracks|
    requires forall k :: 0 <= k < |Replay(tracks, meas, pairs, inFov, kfUpdate, handleUpdated).updated| ==>
               Replay(tracks, meas, pairs, inFov, kfUpdate, handleUpdated).updated[k].track != t
    ensures Replay(tracks, meas, pairs, inFov, kfUpdate, handleUpdated).tracks[t] == tracks[t]
    decreases |pairs|
  {
    if pairs != [] {
      var init := pairs[..|pairs| - 1];
      var r0 := Replay(tracks, meas, init, inFov, kfUpdate, handleUpdated);
      var r := Replay(tracks, meas, pairs, inFov, kfUpdate, handleUpdated);
      if r.updated != r0.updated {
        var p := pairs[|pairs| - 1];
        assert r.updated == r0.updated + [p];
        assert r.updated[|r0.updated|] == p;
        assert forall k :: 0 <= k < |r0.updated| ==> r.updated[k] == r0.updated[k];
      }
      ReplayKeepsOthers(tracks, meas, init, inFov, kfUpdate, handleUpdated, t);
    }
  }

  /** When every pair names a different track, the loop updates exactly the
      pairs whose original track is in view, in order, and each updated
      track ends as the manager callback applied to the Kalman update of
      the original track with its own measurement. */
  lemma {:induction false} ReplayUpdatesInView(tracks: seq<Track>, meas: seq<Measurement>, pairs: seq<Match>,
                                               inFov: (Sensor, seq<real>) -> bool,
                                               kfUpdate: (Track, Measurement) -> Track,
                                               handleUpdated: Track -> Track)
    requires InRange(pairs, |tracks|, |meas|) && DistinctTracks(pairs)
    ensures var r := Replay(tracks, meas, pairs, inFov, kfUpdate, handleUpdated);
            && r.updated == InView(tracks, meas, pairs, inFov)
            && forall k :: 0 <= k < |r.updated| ==>
                 r.tracks[r.updated[k].track] ==
                   handleUpdated(kfUpdate(tracks[r.updated[k].track], meas[r.updated[k].meas]))
    decreases |pairs|
  {
    if pairs != [] {
      var last := |pairs| - 1;
      var init := pairs[..last];
      var p := pairs[last];
      ReplayUpdatesInView(tracks, meas, init, inFov, kfUpdate, handleUpdated);
      ReplayUntouched(tracks, meas, init, inFov, kfUpdate, handleUpdated, p.track);
      var r0 := Replay(tracks, meas, init, inFov, kfUpdate, handleUpdated);
      var r := Replay(tracks, meas, pairs, inFov, kfUpdate, handleUpdated);
      assert r0.tracks[p.track] == tracks[p.track];
      InViewFrom(tracks, meas, init, inFov);
      forall k | 0 <= k < |r0.updated| ensures r0.updated[k].track != p.track {
        var q := r0.updated[k];
        assert q in init;
        var k0 :| 0 <= k0 < |init| && init[k0] == q;
        assert pairs[k0] == q && pairs[last] == p;
      }
    }
  }

  /** Every pair InView keeps came from the input. */
  lemma {:induction false} InViewFrom(tracks: seq<Track>, meas: seq<Measurement>, pairs: seq<Match>,
                                      inFov: (Sensor, seq<real>) -> bool)
    requires InRange(pairs, |tracks|, |meas|)
    ensures forall q :: q in InView(tracks, meas, pairs, inFov) ==> q in pairs
    decreases |pairs|
  {
    if pairs != [] {
      var last := |pairs| - 1;
      InViewFrom(tracks, meas, pairs[..last], inFov);
      assert forall q :: q in pairs[..last] ==> q in pairs;
    }
  }

  /** The loop updates at most as many pairs as it extracts, and exactly as
      many when no pair is skipped for the field of view. */
  lemma {:induction false} InViewCount(tracks: seq<Track>, meas: seq<Measurement>, pairs: seq<Match>,
                                       inFov: (Sensor, seq<real>) -> bool)
    requires InRange(pairs, |tracks|, |meas|)
    ensures |InView(tracks, meas, pairs, inFov)| <= |pairs|
    ensures |InView(tracks, meas, pairs, inFov)| == |pairs| <==>
            forall k :: 0 <= k < |pairs| ==> inFov(meas[0].sensor, tracks[pairs[k].track].x)
    decreases |pairs|
  {
    if pairs != [] {
      var last := |pairs| - 1;
      InViewCount(tracks, meas, pairs[..last], inFov);
      assert forall k :: 0 <= k < last ==> pairs[..last][k] == pairs[k];
    }
  }
}
