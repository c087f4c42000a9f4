/** The association matrix as a value: its cells, their order, the minimum
    searches (`np.min`, `np.argmin` over the flattened matrix) and the
    row and column deletion (`np.delete`) that the greedy matcher uses. */
module CostMatrix {
  import opened IndexLists

  /** One cell: the Mahalanobis distance of a pair the gate accepted, or
      infinity for a pair the gate rejected (the matrix starts out all
      infinite and only accepted pairs are overwritten). */
  datatype Cost = Inf | Fin(value: real)

  /** Strict order on cells: a finite distance is below infinity and
      below every larger finite distance; infinity is below nothing. */
  predicate Below(a: Cost, b: Cost) {
    a.Fin? && (b.Inf? || a.value < b.value)
  }

  /** `a <= b` on cells (infinity equals infinity, as in numpy). */
  predicate AtMost(a: Cost, b: Cost) {
    !Below(b, a)
  }

  /** `m` has `rows` rows of `cols` cells each. */
  predicate Shaped(m: seq<seq<Cost>>, rows: nat, cols: nat) {
    |m| == rows && forall k :: 0 <= k < |m| ==> |m[k]| == cols
  }

  /** At least one row, and no empty row: the matrices the minimum searches are applied to. */
  predicate NonEmptyRows(m: seq<seq<Cost>>) {
    |m| > 0 && forall k :: 0 <= k < |m| ==> |m[k]| > 0
  }

  /** Every cell is infinite: no pair is left that the gate accepted. */
  predicate AllInf(m: seq<seq<Cost>>) {
    forall k, l :: 0 <= k < |m| && 0 <= l < |m[k]| ==> m[k][l] == Inf
  }

  /** Row-major scan order: cell (k, l) is visited before cell (i, j). */
  predicate Earlier(k: nat, l: nat, i: nat, j: nat) {
    k < i || (k == i && l < j)
  }

  /** (i, j) is what `np.argmin` of the flattened matrix returns: no cell is
      smaller, and every cell scanned before it is strictly larger. */
  predicate IsFirstMin(m: seq<seq<Cost>>, i: nat, j: nat) {
    && i < |m| && j < |m[i]|
    && (forall k, l :: 0 <= k < |m| && 0 <= l < |m[k]| ==> AtMost(m[i][j], m[k][l]))
    && (forall k, l :: 0 <= k < |m| && 0 <= l < |m[k]| && Earlier(k, l, i, j) ==> Below(m[i][j], m[k][l]))
  }

  /** The first smallest cell of one non-empty row. */
  function RowArgMin(row: seq<Cost>): (k: nat)
    requires |row| > 0
    ensures k < |row|
    ensures forall l :: 0 <= l < |row| ==> AtMost(row[k], row[l])
    ensures forall l :: 0 <= l < k ==> Below(row[k], row[l])
    decreases |row|
  {
    var last := |row| - 1;
    if last == 0 then 0
    else
      var k := RowArgMin(row[..last]);
      if Below(row[last], row[k]) then last else k
  }

  /** The first smallest cell in row-major order: the reference definition
      of `np.unravel_index(np.argmin(A, axis=None), A.shape)`. */
  function MatArgMin(m: seq<seq<Cost>>): (p: (nat, nat))
    requires NonEmptyRows(m)
    ensures IsFirstMin(m, p.0, p.1)
    decreases |m|
  {
    var last := |m| - 1;
    var j := RowArgMin(m[last]);
    if last == 0 then (0, j)
    else
      var q := MatArgMin(m[..last]);
      if Below(m[last][j], m[q.0][q.1]) then (last, j) else q
  }

  /** There is only one first minimum, so the scan order fixes the answer. */
  lemma FirstMinUnique(m: seq<seq<Cost>>, i: nat, j: nat, i': nat, j': nat)
    requires IsFirstMin(m, i, j) && IsFirstMin(m, i', j')
    ensures i == i' && j == j'
  {
    assert AtMost(m[i][j], m[i'][j']) && AtMost(m[i'][j'], m[i][j]);
    assert !Earlier(i', j', i, j) && !Earlier(i, j, i', j');
  }

  /** `np.min(A)`: the smallest cell of a non-empty matrix. */
  method MinEntry(m: seq<seq<Cost>>) returns (v: Cost)
    requires NonEmptyRows(m)
    ensures exists k, l :: 0 <= k < |m| && 0 <= l < |m[k]| && m[k][l] == v
    ensures forall k, l :: 0 <= k < |m| && 0 <= l < |m[k]| ==> AtMost(v, m[k][l])
    ensures v == Inf <==> AllInf(m)
  {
    v := m[0][0];
    ghost var wi, wj := 0, 0;
    for i := 0 to |m|
      invariant wi < |m| && wj < |m[wi]| && m[wi][wj] == v
      invariant forall k, l :: 0 <= k < i && 0 <= l < |m[k]| ==> AtMost(v, m[k][l])
    {
      for j := 0 to |m[i]|
        invariant wi < |m| && wj < |m[wi]| && m[wi][wj] == v
        invariant forall k, l :: 0 <= k < i && 0 <= l < |m[k]| ==> AtMost(v, m[k][l])
        invariant forall l :: 0 <= l < j ==> AtMost(v, m[i][l])
      {
        if Below(m[i][j], v) {
          v := m[i][j];
          wi, wj := i, j;
        }
      }
    }
  }

  /** `np.argmin` over the flattened matrix, unravelled to (row, column):
      a row-major scan that moves only to a strictly smaller cell. */
  method FirstArgMin(m: seq<seq<Cost>>) returns (bi: nat, bj: nat)
    requires NonEmptyRows(m)
    ensures IsFirstMin(m, bi, bj)
    ensures (bi, bj) == MatArgMin(m)
  {
    bi, bj := 0, 0;
    for i := 0 to |m|
      invariant bi < |m| && bj < |m[bi]|
      invariant i > 0 ==> bi < i
      invariant i == 0 ==> bi == 0 && bj == 0
      invariant forall k, l :: 0 <= k < i && 0 <= l < |m[k]| ==> AtMost(m[bi][bj], m[k][l])
      invariant forall k, l :: 0 <= k < i && 0 <= l < |m[k]| && Earlier(k, l, bi, bj) ==> Below(m[bi][bj], m[k][l])
    {
      for j := 0 to |m[i]|
        invariant bi < |m| && bj < |m[bi]|
        invariant bi < i || (bi == i && bj <= j)
        invariant forall k, l :: 0 <= k < i && 0 <= l < |m[k]| ==> AtMost(m[bi][bj], m[k][l])
        invariant forall l :: 0 <= l < j ==> AtMost(m[bi][bj], m[i][l])
        invariant forall k, l :: 0 <= k < i && 0 <= l < |m[k]| && Earlier(k, l, bi, bj) ==> Below(m[bi][bj], m[k][l])
        invariant forall l :: 0 <= l < j && Earlier(i, l, bi, bj) ==> Below(m[bi][bj], m[i][l])
      {
        if Below(m[i][j], m[bi][bj]) {
          bi, bj := i, j;
        }
      }
    }
    var p := MatArgMin(m);
    FirstMinUnique(m, bi, bj, p.0, p.1);
  }

  /** `np.delete(A, i, 0)`: row `i` goes, the other rows keep their order. */
  function DeleteRow(m: seq<seq<Cost>>, i: nat): (r: seq<seq<Cost>>)
    requires i < |m|
    ensures |r| == |m| - 1
    ensures forall a :: 0 <= a < |r| ==> r[a] == m[Skip(a, i)]
  {
    m[..i] + m[i + 1..]
  }

  /** `np.delete(A, j, 1)`: column `j` goes from every row, the other cells
      keep their order. */
  function DeleteCol(m: seq<seq<Cost>>, j: nat): (r: seq<seq<Cost>>)
    requires forall k :: 0 <= k < |m| ==> j < |m[k]|
    ensures |r| == |m|
    ensures forall k :: 0 <= k < |r| ==> |r[k]| == |m[k]| - 1
    ensures forall k, b :: 0 <= k < |r| && 0 <= b < |r[k]| ==> r[k][b] == m[k][Skip(b, j)]
  {
    seq(|m|, k requires 0 <= k < |m| => m[k][..j] + m[k][j + 1..])
  }

  /** Deleting row `i` and then column `j` of an r×c matrix leaves an
      (r-1)×(c-1) matrix whose cells are the old cells outside row `i` and
      column `j`, in their old relative order. */
  lemma DeleteRowColAt(m: seq<seq<Cost>>, r: nat, c: nat, i: nat, j: nat)
    requires Shaped(m, r, c) && i < r && j < c
    ensures forall k :: 0 <= k < |DeleteRow(m, i)| ==> j < |DeleteRow(m, i)[k]|
    ensures Shaped(DeleteCol(DeleteRow(m, i), j), r - 1, c - 1)
    ensures forall a, b :: 0 <= a < r - 1 && 0 <= b < c - 1 ==>
              DeleteCol(DeleteRow(m, i), j)[a][b] == m[Skip(a, i)][Skip(b, j)]
  {
  }
}
