/** Tracks, measurements and sensors as far as association sees them, the
    chi-square gate, and the gated association matrix it produces. The
    Mahalanobis distance itself (`MHD`: a Kalman-filter residual and an
    inverted innovation covariance) is a parameter `mhd` of the functions
    that need it; the chi-square quantile `chi2.ppf(q, df)` at the
    configured confidence `q` is a parameter `threshold` from the
    measurement dimension `df` to the gate value. */
module Gate {
  import opened CostMatrix

  /** A sensor: its name (used only in diagnostics) and the dimension of its
      measurement space. */
  datatype Sensor = Sensor(name: string, dimMeas: nat)

  /** A measurement of the current cycle and the sensor that produced it. */
  datatype Measurement = Measurement(z: seq<real>, sensor: Sensor)

  /** A track: its identifier, state estimate and score. The Kalman update and
      the track manager change the last two; association only reads them. */
  datatype Track = Track(id: nat, x: seq<real>, score: real)

  /** `gating`: the measurement lies inside the track's gate when its
      distance is strictly below the chi-square quantile for the sensor's
      measurement dimension. */
  predicate Gating(mhd: real, sensor: Sensor, threshold: nat -> real) {
    mhd < threshold(sensor.dimMeas)
  }

  /** The cell `associate` leaves at (track, measurement): the distance when
      the gate accepts it, infinity otherwise. */
  function CellCost(track: Track, meas: Measurement, mhd: (Track, Measurement) -> real,
                    threshold: nat -> real): Cost
  {
    var d := mhd(track, meas);
    if Gating(d, meas.sensor, threshold) then Fin(d) else Inf
  }

  /** The whole association matrix `associate` builds: one row per track,
      one column per measurement. */
  function GatedMatrix(tracks: seq<Track>, meas: seq<Measurement>,
                       mhd: (Track, Measurement) -> real, threshold: nat -> real): seq<seq<Cost>>
  {
    seq(|tracks|, i requires 0 <= i < |tracks| =>
      seq(|meas|, j requires 0 <= j < |meas| => CellCost(tracks[i], meas[j], mhd, threshold)))
  }

  /** The gate is strict: a distance equal to the threshold is rejected, and
      so is every larger one. */
  lemma GateRejectsAtThreshold(mhd: real, sensor: Sensor, threshold: nat -> real)
    requires mhd >= threshold(sensor.dimMeas)
    ensures !Gating(mhd, sensor, threshold)
  {
  }

  /** The matrix is N×M. */
  lemma GatedMatrixShape(tracks: seq<Track>, meas: seq<Measurement>,
                         mhd: (Track, Measurement) -> real, threshold: nat -> real)
    ensures Shaped(GatedMatrix(tracks, meas, mhd, threshold), |tracks|, |meas|)
  {
  }

  /** The matrix is N×M; a cell holds the pair's distance exactly when the
      gate accepts the pair, and is infinite otherwise. */
  lemma GatedMatrixCells(tracks: seq<Track>, meas: seq<Measurement>,
                         mhd: (Track, Measurement) -> real, threshold: nat -> real)
    ensures Shaped(GatedMatrix(tracks, meas, mhd, threshold), |tracks|, |meas|)
    ensures forall i, j :: 0 <= i < |tracks| && 0 <= j < |meas| ==>
              GatedMatrix(tracks, meas, mhd, threshold)[i][j] ==
              (if Gating(mhd(tracks[i], meas[j]), meas[j].sensor, threshold)
               then Fin(mhd(tracks[i], meas[j])) else Inf)
  {
  }

  /** An infinite cell is a pair the gate rejected. */
  lemma InfCellRejected(tracks: seq<Track>, meas: seq<Measurement>,
                        mhd: (Track, Measurement) -> real, threshold: nat -> real, i: nat, j: nat)
    requires i < |tracks| && j < |meas| && GatedMatrix(tracks, meas, mhd, threshold)[i][j] == Inf
    ensures !Gating(mhd(tracks[i], meas[j]), meas[j].sensor, threshold)
  {
  }
}
