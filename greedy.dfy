/** Single-nearest-neighbour extraction as values: one call of
    `get_closest_track_and_meas` is `Step`, and the sequence of matches the
    `while` loop of `associate_and_update` drains from the matrix is `Drain`.
    The imperative class in module Association is proved against these. */
module Greedy {
  import opened CostMatrix
  import opened IndexLists

  /** What the association object holds between two extractions: the
      current matrix and the unassigned-track and unassigned-measurement
      lists, whose entries name the matrix's rows and columns. */
  datatype State = State(matrix: seq<seq<Cost>>, tracks: seq<nat>, meas: seq<nat>)

  /** A matched pair, as indices into the original track and measurement lists. */
  datatype Match = Match(track: nat, meas: nat)

  /** The result of one extraction: the "none" sentinel (`np.nan, np.nan`),
      or a pair together with the state after it was taken out. */
  datatype Extraction = NoMore | Matched(pair: Match, next: State)

  /** What the loop leaves: the matches in the order they were extracted and
      the two lists handed to track management. */
  datatype Outcome = Outcome(matches: seq<Match>, tracksLeft: seq<nat>, measLeft: seq<nat>)

  /** The matrix shape equals the lengths of the two lists, and both lists
      are in increasing order (so without repeats). */
  predicate Consistent(s: State) {
    && Shaped(s.matrix, |s.tracks|, |s.meas|)
    && Increasing(s.tracks)
    && Increasing(s.meas)
  }

  /** The rows and columns of the current matrix stand for the tracks and
      measurements named by the lists: cell (a, b) is the cell of the
      initial |m0|×cols matrix `m0` at (tracks[a], meas[b]). */
  predicate Lockstep(m0: seq<seq<Cost>>, cols: nat, s: State) {
    && Shaped(m0, |m0|, cols)
    && Consistent(s)
    && (forall a :: 0 <= a < |s.tracks| ==> s.tracks[a] < |m0|)
    && (forall b :: 0 <= b < |s.meas| ==> s.meas[b] < cols)
    && (forall a, b :: 0 <= a < |s.tracks| && 0 <= b < |s.meas| ==>
          s.matrix[a][b] == m0[s.tracks[a]][s.meas[b]])
  }

  /** The state `associate` leaves: the whole matrix, every track and every
      measurement unassigned. */
  function Start(m0: seq<seq<Cost>>, cols: nat): State {
    State(m0, Range(|m0|), Range(cols))
  }

  lemma StartLockstep(m0: seq<seq<Cost>>, cols: nat)
    requires Shaped(m0, |m0|, cols)
    ensures Lockstep(m0, cols, Start(m0, cols))
  {
    RangeIsIncreasing(|m0|);
    RangeIsIncreasing(cols);
  }

  /** The state with position `i` of the track list (row `i`) and position
      `j` of the measurement list (column `j`) taken out. */
  function Cross(s: State, i: nat, j: nat): State
    requires Consistent(s) && i < |s.tracks| && j < |s.meas|
  {
    DeleteRowColAt(s.matrix, |s.tracks|, |s.meas|, i, j);
    State(DeleteCol(DeleteRow(s.matrix, i), j), RemoveAt(s.tracks, i), RemoveAt(s.meas, j))
  }

  /** Taking out a row and its track, and a column and its measurement,
      keeps the shape equal to the list lengths, keeps the lists in order,
      and leaves every other cell in its old relative place. */
  lemma CrossConsistent(s: State, i: nat, j: nat)
    requires Consistent(s) && i < |s.tracks| && j < |s.meas|
    ensures var n := Cross(s, i, j);
            && Consistent(n)
            && |n.tracks| == |s.tracks| - 1 && |n.meas| == |s.meas| - 1
            && (forall a, b :: 0 <= a < |n.tracks| && 0 <= b < |n.meas| ==>
                  && n.tracks[a] == s.tracks[Skip(a, i)]
                  && n.meas[b] == s.meas[Skip(b, j)]
                  && n.matrix[a][b] == s.matrix[Skip(a, i)][Skip(b, j)])
  {
    DeleteRowColAt(s.matrix, |s.tracks|, |s.meas|, i, j);
    RemoveAtKeepsOrder(s.tracks, i);
    RemoveAtKeepsOrder(s.meas, j);
  }

  /** The two lists lose exactly the entries at positions i and j: every
      remaining entry was there before, and the taken-out ones are gone. */
  lemma CrossMembers(s: State, i: nat, j: nat)
    requires Consistent(s) && i < |s.tracks| && j < |s.meas|
    ensures forall t :: t in Cross(s, i, j).tracks ==> t in s.tracks
    ensures forall u :: u in Cross(s, i, j).meas ==> u in s.meas
    ensures s.tracks[i] !in Cross(s, i, j).tracks && s.meas[j] !in Cross(s, i, j).meas
  {
    RemoveAtKeepsOrder(s.tracks, i);
    RemoveAtKeepsOrder(s.meas, j);
  }

  /** Taking out a row and a column keeps the matrix in lockstep with the lists. */
  lemma CrossLockstep(m0: seq<seq<Cost>>, cols: nat, s: State, i: nat, j: nat)
    requires Lockstep(m0, cols, s) && i < |s.tracks| && j < |s.meas|
    ensures Lockstep(m0, cols, Cross(s, i, j))
  {
    CrossConsistent(s, i, j);
    var n := Cross(s, i, j);
    forall a | 0 <= a < |n.tracks| ensures n.tracks[a] < |m0| {
      assert n.tracks[a] == s.tracks[Skip(a, i)] by { RemoveAtKeepsOrder(s.tracks, i); }
    }
    forall b | 0 <= b < |n.meas| ensures n.meas[b] < cols {
      assert n.meas[b] == s.meas[Skip(b, j)] by { RemoveAtKeepsOrder(s.meas, j); }
    }
  }

  /** `get_closest_track_and_meas` on a non-empty matrix: the sentinel when
      every cell is infinite; otherwise the first minimum (i, j) in row-major
      order gives the pair (tracks[i], meas[j]), row i and column j are
      deleted, and both indices are removed from their lists by value. */
  function Step(s: State): (e: Extraction)
    requires Consistent(s) && |s.tracks| > 0 && |s.meas| > 0
    ensures e.NoMore? <==> AllInf(s.matrix)
    ensures e.Matched? ==>
              && Consistent(e.next)
              && |e.next.tracks| == |s.tracks| - 1
              && |e.next.meas| == |s.meas| - 1
  {
    if AllInf(s.matrix) then NoMore
    else
      var p := MatArgMin(s.matrix);
      var t, u := s.tracks[p.0], s.meas[p.1];
      DeleteRowColAt(s.matrix, |s.tracks|, |s.meas|, p.0, p.1);
      IncreasingIsDistinct(s.tracks);
      IncreasingIsDistinct(s.meas);
      RemoveFirstAt(s.tracks, p.0);
      RemoveFirstAt(s.meas, p.1);
      CrossConsistent(s, p.0, p.1);
      Matched(Match(t, u),
              State(DeleteCol(DeleteRow(s.matrix, p.0), p.1),
                    RemoveFirst(s.tracks, t), RemoveFirst(s.meas, u)))
  }

  /** When a pair is extracted it sits at the first minimum (i, j) of the
      matrix, which is finite; the pair is (tracks[i], meas[j]); and because
      the lists have no repeats, removing the two indices by value takes out
      exactly position i and position j, so the new state is the old one
      without row i, column j and those two list entries. */
  lemma StepIsCross(s: State)
    requires Consistent(s) && |s.tracks| > 0 && |s.meas| > 0 && Step(s).Matched?
    ensures var p := MatArgMin(s.matrix);
            && s.matrix[p.0][p.1].Fin?
            && Step(s) == Matched(Match(s.tracks[p.0], s.meas[p.1]), Cross(s, p.0, p.1))
  {
    var p := MatArgMin(s.matrix);
    IncreasingIsDistinct(s.tracks);
    IncreasingIsDistinct(s.meas);
    RemoveFirstAt(s.tracks, p.0);
    RemoveFirstAt(s.meas, p.1);
    var k, l :| 0 <= k < |s.matrix| && 0 <= l < |s.matrix[k]| && s.matrix[k][l] != Inf;
    assert AtMost(s.matrix[p.0][p.1], s.matrix[k][l]);
  }

  /** An extraction keeps the matrix in lockstep with the two lists. */
  lemma StepLockstep(m0: seq<seq<Cost>>, cols: nat, s: State)
    requires Lockstep(m0, cols, s) && |s.tracks| > 0 && |s.meas| > 0 && Step(s).Matched?
    ensures Lockstep(m0, cols, Step(s).next)
  {
    var p := MatArgMin(s.matrix);
    StepIsCross(s);
    CrossLockstep(m0, cols, s, p.0, p.1);
  }

  /** Greedy choice, in terms of the original indices: the extracted pair
      passed the gate, no unassigned pair has a smaller cost, and every
      unassigned pair with a smaller track index, or the same track and a
      smaller measurement index, costs strictly more (ties go to the first
      cell in row-major order). */
  lemma GreedyChoice(m0: seq<seq<Cost>>, cols: nat, s: State)
    requires Lockstep(m0, cols, s) && |s.tracks| > 0 && |s.meas| > 0 && Step(s).Matched?
    ensures var p := Step(s).pair;
            && p.track < |m0| && p.meas < cols
            && m0[p.track][p.meas].Fin?
            && (forall a, b :: 0 <= a < |s.tracks| && 0 <= b < |s.meas| ==>
                  AtMost(m0[p.track][p.meas], m0[s.tracks[a]][s.meas[b]]))
            && (forall a, b ::
                  (0 <= a < |s.tracks| && 0 <= b < |s.meas| &&
                   Earlier(s.tracks[a], s.meas[b], p.track, p.meas)) ==>
                  Below(m0[p.track][p.meas], m0[s.tracks[a]][s.meas[b]]))
  {
    // the lists are increasing, so original-index order is row-major order
    StepIsCross(s);
  }

  /** The chosen pair costs at most any pair of a still unassigned track
      and a still unassigned measurement. */
  lemma ChosenAtMost(m0: seq<seq<Cost>>, cols: nat, s: State, t: nat, u: nat)
    requires Lockstep(m0, cols, s) && |s.tracks| > 0 && |s.meas| > 0 && Step(s).Matched?
    requires t in s.tracks && u in s.meas
    ensures t < |m0| && u < cols
    ensures AtMost(m0[Step(s).pair.track][Step(s).pair.meas], m0[t][u])
  {
    GreedyChoice(m0, cols, s);
    var a :| 0 <= a < |s.tracks| && s.tracks[a] == t;
    var b :| 0 <= b < |s.meas| && s.meas[b] == u;
  }

  /** The sentinel comes back exactly when every pair still unassigned was
      rejected by the gate. */
  lemma StepStopsWhenAllGatedOut(m0: seq<seq<Cost>>, cols: nat, s: State)
    requires Lockstep(m0, cols, s) && |s.tracks| > 0 && |s.meas| > 0
    ensures Step(s).NoMore? <==>
            forall a, b :: 0 <= a < |s.tracks| && 0 <= b < |s.meas| ==> m0[s.tracks[a]][s.meas[b]] == Inf
  {
  }

  /** The `while` loop of `associate_and_update`, as far as extraction goes:
      it runs while the matrix has a row and a column, and stops early on
      the sentinel. */
  function Drain(s: State): Outcome
    requires Consistent(s)
    decreases |s.tracks|
  {
    if |s.matrix| == 0 || |s.meas| == 0 then Outcome([], s.tracks, s.meas)
    else
      match Step(s)
      case NoMore => Outcome([], s.tracks, s.meas)
      case Matched(p, next) =>
        var o := Drain(next);
        Outcome([p] + o.matches, o.tracksLeft, o.measLeft)
  }

  /** One unfolding of Drain after an extraction at position (i, j): the
      pair (tracks[i], meas[j]) comes first, and the rest is what the state
      without row i and column j drains. */
  lemma DrainStep(s: State) returns (i: nat, j: nat)
    requires Consistent(s) && |s.tracks| > 0 && |s.meas| > 0 && Step(s).Matched?
    ensures i < |s.tracks| && j < |s.meas| && Consistent(Cross(s, i, j))
    ensures Step(s) == Matched(Match(s.tracks[i], s.meas[j]), Cross(s, i, j))
    ensures Drain(s) == Outcome([Match(s.tracks[i], s.meas[j])] + Drain(Cross(s, i, j)).matches,
                                Drain(Cross(s, i, j)).tracksLeft, Drain(Cross(s, i, j)).measLeft)
  {
    var p := MatArgMin(s.matrix);
    i, j := p.0, p.1;
    StepIsCross(s);
  }

  /** The loop has extracted `done` from `start` and is now at `s`: what
      `start` drains is `done` followed by what `s` drains. */
  predicate Resumes(start: State, done: seq<Match>, s: State) {
    && Consistent(start) && Consistent(s)
    && Drain(start).matches == done + Drain(s).matches
    && Drain(start).tracksLeft == Drain(s).tracksLeft
    && Drain(start).measLeft == Drain(s).measLeft
  }

  /** Nothing has been extracted before the loop. */
  lemma ResumesAtStart(start: State)
    requires Consistent(start)
    ensures Resumes(start, [], start)
  {
    assert [] + Drain(start).matches == Drain(start).matches;
  }

  /** A successful extraction moves the loop one pair on. */
  lemma DrainAfterStep(start: State, done: seq<Match>, s: State, p: Match, n: State)
    requires Resumes(start, done, s) && Consistent(n)
    requires Drain(s) == Outcome([p] + Drain(n).matches, Drain(n).tracksLeft, Drain(n).measLeft)
    ensures Resumes(start, done + [p], n)
  {
    var rest := Drain(n).matches;
    assert done + ([p] + rest) == (done + [p]) + rest;
  }

  /** Drain unfolded once after an extraction: the pair comes first. */
  lemma DrainMatched(s: State, p: Match, n: State)
    requires Consistent(s) && |s.matrix| > 0 && |s.meas| > 0
    requires Step(s) == Matched(p, n)
    ensures Consistent(n)
    ensures Drain(s) == Outcome([p] + Drain(n).matches, Drain(n).tracksLeft, Drain(n).measLeft)
  {
  }

  /** When the loop is not entered again, or leaves on the sentinel, the
      pairs extracted so far are everything `start` drains, and the current
      lists are the leftovers. */
  lemma DrainStopped(start: State, done: seq<Match>, s: State)
    requires Resumes(start, done, s)
    requires |s.matrix| == 0 || |s.meas| == 0 || Step(s).NoMore?
    ensures Drain(start) == Outcome(done, s.tracks, s.meas)
  {
    assert Drain(s) == Outcome([], s.tracks, s.meas);
    assert done + [] == done;
  }

  /** The extracted pair indexes the initial matrix. */
  lemma StepInBounds(m0: seq<seq<Cost>>, cols: nat, s: State)
    requires Lockstep(m0, cols, s) && |s.tracks| > 0 && |s.meas| > 0 && Step(s).Matched?
    ensures Step(s).pair.track < |m0| && Step(s).pair.meas < cols
  {
    GreedyChoice(m0, cols, s);
  }

  /** Every extraction takes one track and one measurement: matches plus
      leftover tracks is the number of tracks, likewise for measurements, so
      there are at most min(N, M) matches. */
  lemma {:induction false} DrainCounts(s: State)
    requires Consistent(s)
    ensures |Drain(s).matches| + |Drain(s).tracksLeft| == |s.tracks|
    ensures |Drain(s).matches| + |Drain(s).measLeft| == |s.meas|
    ensures |Drain(s).matches| <= |s.tracks| && |Drain(s).matches| <= |s.meas|
    decreases |s.tracks|
  {
    if |s.matrix| > 0 && |s.meas| > 0 && Step(s).Matched? {
      DrainCounts(Step(s).next);
    }
  }

  /** The leftover lists are sub-lists of the lists the loop started
      from, still in increasing order. */
  lemma {:induction false} DrainLeftovers(s: State)
    requires Consistent(s)
    ensures Increasing(Drain(s).tracksLeft) && Increasing(Drain(s).measLeft)
    ensures forall t :: t in Drain(s).tracksLeft ==> t in s.tracks
    ensures forall u :: u in Drain(s).measLeft ==> u in s.meas
    decreases |s.tracks|
  {
    if |s.matrix| > 0 && |s.meas| > 0 && Step(s).Matched? {
      var i, j := DrainStep(s);
      var n := Cross(s, i, j);
      DrainLeftovers(n);
      CrossMembers(s, i, j);
    }
  }

  /** The track indices of a list of matches, in order. */
  function TracksOf(ms: seq<Match>): (r: seq<nat>)
    ensures |r| == |ms| && forall k :: 0 <= k < |ms| ==> r[k] == ms[k].track
  {
    if ms == [] then [] else [ms[0].track] + TracksOf(ms[1..])
  }

  /** The measurement indices of a list of matches, in order. */
  function MeasOf(ms: seq<Match>): (r: seq<nat>)
    ensures |r| == |ms| && forall k :: 0 <= k < |ms| ==> r[k] == ms[k].meas
  {
    if ms == [] then [] else [ms[0].meas] + MeasOf(ms[1..])
  }

  /** Each list loses exactly its entry at the extracted position. */
  lemma CrossMultisets(s: State, i: nat, j: nat)
    requires Consistent(s) && i < |s.tracks| && j < |s.meas|
    ensures multiset(Cross(s, i, j).tracks) + multiset{s.tracks[i]} == multiset(s.tracks)
    ensures multiset(Cross(s, i, j).meas) + multiset{s.meas[j]} == multiset(s.meas)
  {
    assert s.tracks == s.tracks[..i] + [s.tracks[i]] + s.tracks[i + 1..];
    assert s.meas == s.meas[..j] + [s.meas[j]] + s.meas[j + 1..];
  }

  /** The first extracted pair is made of entries of the current lists. */
  lemma FirstMatchIn(s: State)
    requires Consistent(s) && |Drain(s).matches| > 0
    ensures Drain(s).matches[0].track in s.tracks && Drain(s).matches[0].meas in s.meas
  {
    var i, j := DrainStep(s);
  }

  /** Every track index the loop starts with ends up exactly once either in
      a match or in the leftover list. */
  lemma {:induction false} DrainSplitsTracks(s: State)
    requires Consistent(s)
    ensures multiset(TracksOf(Drain(s).matches)) + multiset(Drain(s).tracksLeft) == multiset(s.tracks)
    decreases |s.tracks|
  {
    if |s.matrix| > 0 && |s.meas| > 0 && Step(s).Matched? {
      var i, j := DrainStep(s);
      var n := Cross(s, i, j);
      DrainSplitsTracks(n);
      CrossMultisets(s, i, j);
      assert Drain(s).matches[1..] == Drain(n).matches;
    }
  }

  /** Every measurement index the loop starts with ends up exactly once
      either in a match or in the leftover list. */
  lemma {:induction false} DrainSplitsMeas(s: State)
    requires Consistent(s)
    ensures multiset(MeasOf(Drain(s).matches)) + multiset(Drain(s).measLeft) == multiset(s.meas)
    decreases |s.tracks|
  {
    if |s.matrix| > 0 && |s.meas| > 0 && Step(s).Matched? {
      var i, j := DrainStep(s);
      var n := Cross(s, i, j);
      DrainSplitsMeas(n);
      CrossMultisets(s, i, j);
      assert Drain(s).matches[1..] == Drain(n).matches;
    }
  }

  /** No track and no measurement is matched twice, and none is both
      matched and left over. */
  lemma DrainDistinct(s: State)
    requires Consistent(s)
    ensures Distinct(TracksOf(Drain(s).matches)) && Distinct(MeasOf(Drain(s).matches))
    ensures forall t :: t in TracksOf(Drain(s).matches) ==> t !in Drain(s).tracksLeft
    ensures forall u :: u in MeasOf(Drain(s).matches) ==> u !in Drain(s).measLeft
  {
    var o := Drain(s);
    IncreasingIsDistinct(s.tracks);
    IncreasingIsDistinct(s.meas);
    DrainSplitsTracks(s);
    DrainSplitsMeas(s);
    SplitDistinct(s.tracks, TracksOf(o.matches), o.tracksLeft);
    SplitDistinct(s.meas, MeasOf(o.matches), o.measLeft);
  }

  /** Every pair in `ms` indexes the initial matrix and was accepted by
      the gate (its initial cell is finite). */
  predicate Feasible(m0: seq<seq<Cost>>, cols: nat, ms: seq<Match>) {
    && Shaped(m0, |m0|, cols)
    && forall k :: 0 <= k < |ms| ==>
         ms[k].track < |m0| && ms[k].meas < cols && m0[ms[k].track][ms[k].meas].Fin?
  }

  lemma FeasibleCons(m0: seq<seq<Cost>>, cols: nat, p: Match, ms: seq<Match>)
    requires Feasible(m0, cols, ms) && p.track < |m0| && p.meas < cols && m0[p.track][p.meas].Fin?
    ensures Feasible(m0, cols, [p] + ms)
  {
  }

  /** Every extracted pair was accepted by the gate. */
  lemma {:induction false} DrainFeasible(m0: seq<seq<Cost>>, cols: nat, s: State)
    requires Lockstep(m0, cols, s)
    ensures Feasible(m0, cols, Drain(s).matches)
    decreases |s.tracks|
  {
    if |s.matrix| > 0 && |s.meas| > 0 && Step(s).Matched? {
      var i, j := DrainStep(s);
      var n := Cross(s, i, j);
      GreedyChoice(m0, cols, s);
      CrossLockstep(m0, cols, s, i, j);
      DrainFeasible(m0, cols, n);
      FeasibleCons(m0, cols, Drain(s).matches[0], Drain(n).matches);
    }
  }

  /** Every entry of the two lists indexes the initial matrix, and every
      pair of them has an infinite initial cell. */
  predicate Exhausted(m0: seq<seq<Cost>>, cols: nat, tracks: seq<nat>, meas: seq<nat>) {
    && Shaped(m0, |m0|, cols)
    && (forall a :: 0 <= a < |tracks| ==> tracks[a] < |m0|)
    && (forall b :: 0 <= b < |meas| ==> meas[b] < cols)
    && (forall a, b :: 0 <= a < |tracks| && 0 <= b < |meas| ==> m0[tracks[a]][meas[b]] == Inf)
  }

  /** Nothing the gate accepted is left behind: every pair of a leftover
      track and a leftover measurement has an infinite initial cell. */
  lemma {:induction false} DrainMaximal(m0: seq<seq<Cost>>, cols: nat, s: State)
    requires Lockstep(m0, cols, s)
    ensures Exhausted(m0, cols, Drain(s).tracksLeft, Drain(s).measLeft)
    decreases |s.tracks|
  {
    if |s.matrix| > 0 && |s.meas| > 0 {
      if Step(s).Matched? {
        var i, j := DrainStep(s);
        CrossLockstep(m0, cols, s, i, j);
        DrainMaximal(m0, cols, Cross(s, i, j));
      } else {
        StepStopsWhenAllGatedOut(m0, cols, s);
      }
    }
  }

  /** The costs of the pairs in `ms`, in order, never decrease. */
  predicate Nondecreasing(m0: seq<seq<Cost>>, cols: nat, ms: seq<Match>) {
    && Feasible(m0, cols, ms)
    && forall k :: 0 <= k < |ms| - 1 ==>
         AtMost(m0[ms[k].track][ms[k].meas], m0[ms[k + 1].track][ms[k + 1].meas])
  }

  lemma NondecreasingCons(m0: seq<seq<Cost>>, cols: nat, p: Match, ms: seq<Match>)
    requires Nondecreasing(m0, cols, ms) && p.track < |m0| && p.meas < cols && m0[p.track][p.meas].Fin?
    requires |ms| > 0 ==> AtMost(m0[p.track][p.meas], m0[ms[0].track][ms[0].meas])
    ensures Nondecreasing(m0, cols, [p] + ms)
  {
    var r := [p] + ms;
    forall k | 0 <= k < |r| - 1
      ensures AtMost(m0[r[k].track][r[k].meas], m0[r[k + 1].track][r[k + 1].meas])
    {
      if k > 0 {
        assert r[k] == ms[k - 1] && r[k + 1] == ms[k];
      }
    }
  }

  /** The extracted costs never decrease: each match costs at most what the
      next one costs, since the next one was available when it was chosen. */
  lemma {:induction false} DrainNondecreasing(m0: seq<seq<Cost>>, cols: nat, s: State)
    requires Lockstep(m0, cols, s)
    ensures Nondecreasing(m0, cols, Drain(s).matches)
    decreases |s.tracks|
  {
    if |s.matrix| > 0 && |s.meas| > 0 && Step(s).Matched? {
      var i, j := DrainStep(s);
      var n := Cross(s, i, j);
      CrossLockstep(m0, cols, s, i, j);
      DrainNondecreasing(m0, cols, n);
      GreedyChoice(m0, cols, s);
      var r := Drain(n).matches;
      if |r| > 0 {
        FirstMatchIn(n);
        CrossMembers(s, i, j);
        ChosenAtMost(m0, cols, s, r[0].track, r[0].meas);
      }
      NondecreasingCons(m0, cols, Drain(s).matches[0], r);
    }
  }
}
