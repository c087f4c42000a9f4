# Single-nearest-neighbour data association

This project models the data association step of a multi-object tracker:
the `Association` class in `student/association.py`. In each cycle it
builds an N×M association matrix that pairs every track with every
measurement. A cell holds the pair's Mahalanobis distance when the
chi-square gate accepts it, and infinity otherwise. The matcher then
drains the matrix greedily. It repeatedly takes the smallest cell, the
first one in row-major order, and deletes its row and its column. It also
removes the track and the measurement from the unassigned lists by value.
Each extracted pair is Kalman-updated and handed to the track manager, but
only when the track is in view. What is left unassigned goes to track
management.

The model has seven modules:

- `IndexLists` (`index_lists.dfy`): the unassigned lists. `list(range(n))`
  and `list.remove` as remove-first-by-value.
- `CostMatrix` (`cost_matrix.dfy`): matrix cells (`Inf` or a finite
  distance), their order, `np.min`, `np.argmin` unravelled to (row, column)
  and `np.delete` of a row or a column.
- `Gate` (`gate.dfy`): tracks, measurements, sensors, the strict gate and
  the gated matrix that `associate` builds.
- `Greedy` (`greedy.dfy`): the matcher as values. `Step` is one call of
  `get_closest_track_and_meas`. `Drain` is the sequence of pairs that the
  `while` loop of `associate_and_update` extracts, together with the two
  leftover lists.
- `Updates` (`updates.dfy`): what the loop does after each extraction. This
  covers the field-of-view test, the Kalman update and the manager
  callback, replayed over the track list.
- `Cycle` (`cycle.dfy`): one whole cycle, stated over the tracks and
  measurements themselves, and the properties of a cycle.
- `Association` (`association.dfy`): the class itself, with the matrix and
  the two lists as fields. Its three methods are imperative and are proved
  against `GatedMatrix`, `Step`, `Drain` and `Replay`.

`Scenarios` (`scenarios.dfy`) works out small cycles in full: one pair
inside the gate, one pair outside it, one pair out of view, no tracks, and
two tracks crossing over two measurements.

The Mahalanobis distance is a parameter `mhd`. The chi-square quantile is a
parameter `threshold`, a function from the measurement dimension to the
gate value. The collaborators are arrow parameters:

- `inFov` is `sensor.in_fov`;
- `kfUpdate` is `KF.update`;
- `handleUpdated` is `manager.handle_updated_track`;
- `manageTracks` is `manager.manage_tracks`.

## Model

| member | source | states |
|---|---|---|
| Association.Association.constructor | student/association.py:28-31 | the matrix starts as the 1×0 matrix `np.matrix([])`, and both unassigned lists start empty |
| Association.Association.Associate | student/association.py:56-78 | the unassigned lists become 0..N-1 and 0..M-1 in order; the matrix becomes exactly the gated N×M matrix; the class invariant (matrix in lockstep with the two lists) holds afterwards |
| Association.Association.GetClosestTrackAndMeas | student/association.py:103-130 | the sentinel comes back iff every cell is infinite, and then nothing changes; otherwise the new fields and the returned pair are one greedy step of the old state, and the lockstep invariant is kept |
| Association.Association.AssociateAndUpdate | student/association.py:162-191 | the matrix was built from the gated matrix, and after the loop it has no row, no column, or only infinite cells; the loop makes at most min(N, M) passes, counting a last pass that meets the sentinel; the unassigned lists are the leftovers of the greedy extraction from the gated matrix; the updated pairs, and the track list handed to track management, are the replay of the extracted pairs through the field-of-view test, the Kalman update and the manager callback |
| CostMatrix.MinEntry | student/association.py:103-106 | the result is a cell of the matrix and no cell is smaller, so it is infinite iff every cell is |
| CostMatrix.MatArgMin | student/association.py:111 | reference definition: the first smallest cell in row-major order; no cell is smaller, and every cell scanned earlier is strictly larger |
| CostMatrix.FirstArgMin | student/association.py:111 | the row-major scan returns the first minimum, which equals the reference `MatArgMin` |
| CostMatrix.FirstMinUnique | student/association.py:111 | there is only one first minimum, so ties are decided by the scan order |
| CostMatrix.DeleteRow | student/association.py:114 | one row fewer; every other row keeps its relative place |
| CostMatrix.DeleteCol | student/association.py:115 | one column fewer in every row; every other cell keeps its relative place |
| CostMatrix.DeleteRowColAt | student/association.py:114-116 | deleting row i and then column j of an r×c matrix gives an (r-1)×(c-1) matrix equal to the old one minus row i and column j |
| IndexLists.RangeIsIncreasing | student/association.py:60-62 | `list(range(n))` has length n, holds k at position k, and is strictly increasing |
| IndexLists.RemoveFirst | student/association.py:123-124 | `list.remove(v)` shortens the list by one and takes exactly one copy of v out of its multiset |
| IndexLists.RemoveFirstAt | student/association.py:119-124 | in a list without repeats, removing by value the entry found at position i removes exactly position i |
| IndexLists.RemoveAtKeepsOrder | student/association.py:123-124 | removing one position keeps the list increasing, shifts later entries down by one, and the removed value is gone |
| Gate.Gating | student/association.py:132-140 | definition of `gating`: the distance is strictly below the threshold for the sensor's measurement dimension |
| Gate.CellCost | student/association.py:66-78 | definition of one cell: the pair's distance when the gate accepts it, infinity otherwise |
| Gate.GatedMatrix | student/association.py:64-78 | definition of the whole matrix: one row per track, one column per measurement, each cell a `CellCost` (its shape and cells are stated by `Gate.GatedMatrixShape` and `Gate.GatedMatrixCells`) |
| Gate.GateRejectsAtThreshold | student/association.py:137-140 | the gate is strict: a distance equal to the threshold, or larger, is rejected |
| Gate.GatedMatrixShape | student/association.py:56-66 | the gated matrix is N×M |
| Gate.GatedMatrixCells | student/association.py:64-78 | a cell holds the pair's distance iff the gate accepts the pair, and is infinite otherwise |
| Gate.InfCellRejected | student/association.py:76-78 | an infinite cell of the gated matrix is a pair that the gate rejected |
| Greedy.Start | student/association.py:60-66 | definition of the state `associate` leaves: the whole matrix, with every track and every measurement unassigned |
| Greedy.StartLockstep | student/association.py:60-66 | the state `associate` leaves satisfies the lockstep invariant |
| Greedy.Step | student/association.py:103-130 | the sentinel iff every cell is infinite; otherwise the next state is consistent and both lists are one shorter |
| Greedy.StepIsCross | student/association.py:111-124 | an extracted pair sits at the first minimum, which is finite; the pair is (tracks[i], meas[j]); the next state is the old one minus row i, column j and those two list entries |
| Greedy.CrossConsistent | student/association.py:114-124 | taking out row i, column j and list positions i and j keeps shape and order, and every remaining cell keeps its track and measurement |
| Greedy.CrossMembers | student/association.py:119-124 | each list loses exactly the extracted entry and gains nothing |
| Greedy.CrossMultisets | student/association.py:119-124 | as multisets, each list loses exactly the extracted entry |
| Greedy.CrossLockstep | student/association.py:113-124 | taking out a row, a column and their list entries keeps the lockstep invariant |
| Greedy.StepLockstep | student/association.py:103-130 | an extraction keeps the lockstep invariant |
| Greedy.GreedyChoice | student/association.py:105-111 | in original indices, the extracted pair passed the gate; no unassigned pair costs less; every unassigned pair earlier in row-major order costs strictly more |
| Greedy.ChosenAtMost | student/association.py:105-111 | the extracted pair costs at most any pair of a still unassigned track and measurement |
| Greedy.StepStopsWhenAllGatedOut | student/association.py:105-106 | the sentinel comes back iff the gate rejected every pair still unassigned |
| Greedy.Drain | student/association.py:167-173 | definition of the `while` loop's extraction: stop on an empty matrix or the sentinel, otherwise take the pair and continue from the next state (its properties are the `Drain…` lemmas below) |
| Greedy.DrainStep | student/association.py:167-173 | the loop unfolded once: the first pair extracted, followed by what the smaller state drains |
| Greedy.DrainMatched | student/association.py:167-173 | after a successful step, the drain is the pair followed by the drain of the next state |
| Greedy.ResumesAtStart | student/association.py:164-167 | before the loop runs, nothing has been extracted and the start state drains to everything |
| Greedy.DrainAfterStep | student/association.py:167-173 | the loop invariant (pairs so far plus what the current state drains equals what the start drains) survives one extraction |
| Greedy.DrainStopped | student/association.py:167-173 | when the loop guard fails or the sentinel comes back, the pairs so far are everything extracted and the current lists are the leftovers |
| Greedy.StepInBounds | student/association.py:119-120 | the extracted pair indexes the original track list and measurement list |
| Greedy.DrainCounts | student/association.py:167-173 | matches plus leftover tracks is N, matches plus leftover measurements is M, so at most min(N, M) pairs are extracted |
| Greedy.DrainLeftovers | student/association.py:119-124 | the leftover lists are increasing sub-lists of the lists the loop started from |
| Greedy.TracksOf | student/association.py:119 | the track indices of the matches, position by position |
| Greedy.MeasOf | student/association.py:120 | the measurement indices of the matches, position by position |
| Greedy.FirstMatchIn | student/association.py:119-120 | the first extracted pair is made of entries of the current lists |
| Greedy.DrainSplitsTracks | student/association.py:119-124 | every starting track index ends exactly once, either in a match or among the leftovers |
| Greedy.DrainSplitsMeas | student/association.py:119-124 | every starting measurement index ends exactly once, either in a match or among the leftovers |
| Greedy.DrainDistinct | student/association.py:119-124 | no track and no measurement is matched twice, and none is both matched and left over |
| Greedy.FeasibleCons | student/association.py:105-111 | a gated pair in front of gated pairs keeps the list gated |
| Greedy.DrainFeasible | student/association.py:105-111 | every extracted pair indexes the initial matrix and has a finite initial cell |
| Greedy.DrainMaximal | student/association.py:105-106 | when the loop stops, every pair of a leftover track and a leftover measurement has an infinite initial cell |
| Greedy.NondecreasingCons | student/association.py:105-111 | a cheapest pair in front of a nondecreasing list keeps it nondecreasing |
| Greedy.DrainNondecreasing | student/association.py:105-111 | the costs of the extracted pairs never decrease in extraction order |
| Updates.Replay | student/association.py:174-188 | the loop body, pair by pair: the track list keeps its length, and every updated pair indexes both lists |
| Updates.ReplaySnoc | student/association.py:174-188 | replaying one more pair applies the loop body to what the earlier pairs left |
| Updates.ReplayUntouched | student/association.py:182-188 | a track named by no extracted pair keeps its value |
| Updates.ReplayKeepsOthers | student/association.py:176-188 | a track named by no updated pair keeps its value, whether it was never matched or skipped for the field of view |
| Updates.ReplayUpdatesInView | student/association.py:174-188 | when the pairs name distinct tracks, exactly the pairs whose track is in view are updated, in order, each to the manager callback of the Kalman update of the original track with its measurement |
| Updates.InView | student/association.py:176-178 | reference definition of the updated pairs: the extracted pairs whose original track the first measurement's sensor sees, in order (tied to the loop by `Updates.ReplayUpdatesInView`) |
| Updates.InViewFrom | student/association.py:176-178 | every in-view pair is one of the extracted pairs |
| Updates.InViewCount | student/association.py:176-178 | at most as many pairs are updated as are extracted, and exactly as many iff none is out of view |
| Cycle.Extract | student/association.py:162-173 | the pairs a cycle extracts index both lists and name distinct tracks |
| Cycle.ExtractIsDrain | student/association.py:162-173 | the cycle's extraction is the greedy drain of the state `associate` leaves |
| Cycle.MatchesPassGate | student/association.py:162-173 | every extracted pair passed the gate with its own distance |
| Cycle.MatchCounts | student/association.py:162-173 | matched plus unassigned tracks is N, matched plus unassigned measurements is M, and at most min(N, M) pairs are extracted |
| Cycle.MatchesPartition | student/association.py:162-173 | each index 0..N-1 is matched once or left unassigned, never both, and likewise for 0..M-1; the leftover lists stay increasing |
| Cycle.LeftoversGatedOut | student/association.py:162-173 | when the loop ends, the gate rejects every pair of an unassigned track and an unassigned measurement |
| Cycle.MatchesInDistanceOrder | student/association.py:162-173 | nearest neighbour first: the distances of the extracted pairs never decrease |
| Cycle.UpdateCounts | student/association.py:162-191 | updated plus unassigned tracks is at most N, with equality iff no extracted pair is skipped for the field of view |
| Cycle.UpdatedTracks | student/association.py:162-191 | exactly the in-view extracted pairs are updated, each to the callback of the Kalman update; every other track is unchanged |
| Scenarios.OnePairInsideGate | student/association.py:162-191 | one track and one measurement inside the gate: exactly one match, and nothing is left unassigned |
| Scenarios.OnePairOutsideGate | student/association.py:162-191 | one track and one measurement outside the gate: no match, and both stay unassigned |
| Scenarios.OnePairOutOfView | student/association.py:174-178 | a gated pair out of view is consumed, nothing is updated, the track keeps its value, and neither index returns to the unassigned lists |
| Scenarios.NoTracks | student/association.py:56-66 | no tracks: no match, and every measurement stays unassigned |
| Scenarios.SingleCell | student/association.py:103-130 | a 1×1 state with a finite cell drains to its one pair |
| Scenarios.CrossedFirst | student/association.py:105-111 | in the 2×2 crossing state, the first extraction takes the globally smallest cell (1, 0) |
| Scenarios.CrossedRest | student/association.py:113-124 | after it, track 0 and measurement 1 remain, with their own cell |
| Scenarios.CrossedCells | student/association.py:167-173 | the 2×2 crossing state drains to (1, 0) and then (0, 1), leaving nothing unassigned |
| Scenarios.CrossedPairs | student/association.py:162-173 | two tracks and two measurements, all gated in, where track 1 is closest to measurement 0: the greedy matcher extracts (1, 0) first and (0, 1) second |

## Left out

- The Mahalanobis distance `MHD` (lines 146-156) is a parameter `mhd`. The sensor Jacobian, the residual, the innovation covariance and its inverse are not part of this model, and neither is a singular covariance raising.
- `chi2.ppf(params.gating_threshold, dim_meas)` is a parameter `threshold` from the measurement dimension to the gate value. The chi-square quantile and the configuration module `misc.params` are not part of this model.
- `sensor.in_fov` is a total function that returns a boolean and changes nothing.
- `KF.update`, `manager.handle_updated_track` and `manager.manage_tracks` are total functions. They return the track, or track list, that they change. The Python code mutates the track object in place, and that object is aliased by `manager.track_list[ind_track]`. The model stores the returned track back at the same index, which the source does on line 188.
- Distances are `real`, not floating point. A NaN distance is not modelled. The `(np.nan, np.nan)` sentinel is `None`.
- Association.Association.GetClosestTrackAndMeas: requires a non-empty matrix. `np.min` of an empty matrix raises in numpy, and the only caller (line 167) checks first.
- Association.Association.AssociateAndUpdate: the ensures states the leftovers, the updated pairs and the callback result, but not the final values of the tracks. Those values are stated by `Cycle.UpdatedTracks` about the same `Replay`.
- The field-of-view test uses the sensor of the FIRST measurement, `meas_list[0].sensor` (line 177), and not the sensor of the matched measurement. The model keeps this as written.
- A pair skipped for the field of view goes back to neither unassigned list, and the model keeps that too (`Cycle.UpdateCounts`, `Scenarios.OnePairOutOfView`).
- The constructor's matrix is `np.matrix([])`, which has shape 1×0. The lockstep invariant `Valid()` is only established by `Associate`.
- The `print` calls (lines 172, 181, 193-194), the `sys.path` set-up (lines 17-24), the commented-out single-pair code (lines 42-53 and 94-102) and `make_movie.py` are not part of this model.
