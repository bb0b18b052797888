/**
 * The Wiener index of a molecular graph, read off its topological distance
 * matrix: WPath is half the sum of all entries, WPol half the number of
 * entries equal to 3. The matrix is computed elsewhere and is an input here.
 */
module WienerIndex {

  /** A `WienerIndex` instance; `polarity` selects the polarity form. */
  datatype Wiener = Wiener(polarity: bool)

  /** The distance-matrix computation a dependency asks for, keyed by its hydrogen flag. */
  datatype DistanceMatrixKey = DistanceMatrix(explicitHydrogens: bool)

  const ExplicitHydrogens := false

  /** `WienerIndex()` with its default argument. */
  function NewWiener(polarity: bool := false): (w: Wiener)
    ensures w.polarity == polarity
  {
    Wiener(polarity)
  }

  function Name(w: Wiener): (s: string) {
    if w.polarity then "WPol" else "WPath"
  }

  /** The two instances have different names; the name tells the polarity. */
  lemma NameShowsPolarity(w: Wiener)
    ensures Name(w) == "WPol" <==> w.polarity
    ensures Name(w) == "WPath" <==> !w.polarity
    ensures Name(NewWiener()) == "WPath"
  {
  }

  /** `preset`: the path form first, then the polarity form. */
  function Preset(): (ps: seq<Wiener>)
    ensures |ps| == 2 && !ps[0].polarity && ps[1].polarity
    ensures Name(ps[0]) == "WPath" && Name(ps[1]) == "WPol"
  {
    [NewWiener(false), NewWiener(true)]
  }

  /** `__reduce_ex__`: the constructor argument, which rebuilds an instance of the same name. */
  function ReduceArgs(w: Wiener): (polarity: bool)
    ensures NewWiener(polarity) == w
    ensures Name(NewWiener(polarity)) == Name(w)
  {
    w.polarity
  }

  /** `dependencies`: the distance matrix with implicit hydrogens, whatever the polarity. */
  function Dependencies(w: Wiener): (deps: map<string, DistanceMatrixKey>)
    ensures deps.Keys == {"D"} && deps["D"] == DistanceMatrix(false)
  {
    map["D" := DistanceMatrix(ExplicitHydrogens)]
  }

  // ---------------------------------------------------------------------
  // Whole-matrix reductions
  // ---------------------------------------------------------------------

  type Matrix = seq<seq<int>>

  predicate NonNegativeRow(r: seq<int>) {
    forall j | 0 <= j < |r| :: r[j] >= 0
  }

  predicate NonNegative(m: Matrix) {
    forall i | 0 <= i < |m| :: NonNegativeRow(m[i])
  }

  /** Sum of a row's entries. */
  function RowSum(r: seq<int>): (n: int)
    ensures NonNegativeRow(r) ==> n >= 0
  {
    if r == [] then 0 else RowSum(r[..|r| - 1]) + r[|r| - 1]
  }

  /** `D.sum()`: sum of all entries. */
  function MatrixSum(m: Matrix): (n: int)
    ensures NonNegative(m) ==> n >= 0
  {
    if m == [] then 0 else MatrixSum(m[..|m| - 1]) + RowSum(m[|m| - 1])
  }

  /** Number of entries of a row equal to `v`. */
  function RowCount(r: seq<int>, v: int): (n: nat)
    ensures n <= |r|
  {
    if r == [] then 0 else RowCount(r[..|r| - 1], v) + (if r[|r| - 1] == v then 1 else 0)
  }

  /** `(D == v).sum()`: number of entries equal to `v`. */
  function CountEqual(m: Matrix, v: int): nat {
    if m == [] then 0 else CountEqual(m[..|m| - 1], v) + RowCount(m[|m| - 1], v)
  }

  /**
   * `int(0.5 * x)`: half of `x`, truncated toward zero.
   */
  function TruncHalf(x: int): (h: int)
    ensures 0 <= x ==> 0 <= 2 * h <= x < 2 * h + 2
    ensures x < 0 ==> 2 * h - 2 < x <= 2 * h <= 0
  {
    if x >= 0 then x / 2 else -((-x) / 2)
  }

  /** `calculate`: half the number of entries equal to 3, or half the sum of all entries. */
  function Calculate(w: Wiener, m: Matrix): (r: int)
    ensures w.polarity ==> 0 <= 2 * r <= CountEqual(m, 3) < 2 * r + 2
    ensures !w.polarity && NonNegative(m) ==> 0 <= 2 * r <= MatrixSum(m) < 2 * r + 2
  {
    if w.polarity then TruncHalf(CountEqual(m, 3)) else TruncHalf(MatrixSum(m))
  }

  // ---------------------------------------------------------------------
  // Distance matrices: halving is exact
  // ---------------------------------------------------------------------

  predicate Square(m: Matrix) {
    forall i | 0 <= i < |m| :: |m[i]| == |m|
  }

  predicate Symmetric(m: Matrix) {
    Square(m) && forall i, j | 0 <= i < |m| && 0 <= j < |m| :: m[i][j] == m[j][i]
  }

  predicate ZeroDiagonal(m: Matrix) {
    Square(m) && forall i | 0 <= i < |m| :: m[i][i] == 0
  }

  /** The shape every distance matrix has. */
  predicate DistanceLike(m: Matrix) {
    Symmetric(m) && ZeroDiagonal(m)
  }

  /** Sum of the entries m[i][c] for i < rows: column `c` cut at `rows`. */
  function ColumnSum(m: Matrix, c: nat, rows: nat): int
    requires Square(m) && c < |m| && rows <= |m|
  {
    if rows == 0 then 0 else ColumnSum(m, c, rows - 1) + m[rows - 1][c]
  }

  /** Sum over unordered pairs {i, j} with i < j < n of m[i][j]. */
  function PairSum(m: Matrix, n: nat): int
    requires Square(m) && n <= |m|
  {
    if n == 0 then 0 else PairSum(m, n - 1) + ColumnSum(m, n - 1, n - 1)
  }

  /** Sum of the top-left `rows` x `cols` block. */
  function BlockSum(m: Matrix, rows: nat, cols: nat): int
    requires Square(m) && rows <= |m| && cols <= |m|
  {
    if rows == 0 then 0 else BlockSum(m, rows - 1, cols) + RowSum(m[rows - 1][..cols])
  }

  lemma {:induction false} MatrixSumIsBlock(m: Matrix, k: nat)
    requires Square(m) && k <= |m|
    ensures MatrixSum(m[..k]) == BlockSum(m, k, |m|)
    decreases k
  {
    if k > 0 {
      assert m[..k][..k - 1] == m[..k - 1];
      assert m[k - 1][..|m|] == m[k - 1];
      MatrixSumIsBlock(m, k - 1);
    }
  }

  lemma {:induction false} BlockColumnStep(m: Matrix, rows: nat, c: nat)
    requires Square(m) && rows <= |m| && c < |m|
    ensures BlockSum(m, rows, c + 1) == BlockSum(m, rows, c) + ColumnSum(m, c, rows)
    decreases rows
  {
    if rows > 0 {
      assert m[rows - 1][..c + 1][..c] == m[rows - 1][..c];
      BlockColumnStep(m, rows - 1, c);
    }
  }

  lemma {:induction false} RowIsColumn(m: Matrix, k: nat, c: nat)
    requires Symmetric(m) && k < |m| && c <= |m|
    ensures RowSum(m[k][..c]) == ColumnSum(m, k, c)
    decreases c
  {
    if c > 0 {
      assert m[k][..c][..c - 1] == m[k][..c - 1];
      RowIsColumn(m, k, c - 1);
    }
  }

  lemma {:induction false} BlockIsTwicePairs(m: Matrix, n: nat)
    requires DistanceLike(m) && n <= |m|
    ensures BlockSum(m, n, n) == 2 * PairSum(m, n)
    decreases n
  {
    if n > 0 {
      BlockIsTwicePairs(m, n - 1);
      BlockColumnStep(m, n - 1, n - 1);
      assert m[n - 1][..n][..n - 1] == m[n - 1][..n - 1];
      RowIsColumn(m, n - 1, n - 1);
    }
  }

  /**
   * For a distance matrix the sum of all entries is twice the sum over
   * unordered pairs, so WPath halves it exactly.
   */
  lemma WPathIsPairSum(m: Matrix)
    requires DistanceLike(m)
    ensures MatrixSum(m) == 2 * PairSum(m, |m|)
    ensures Calculate(Wiener(false), m) == PairSum(m, |m|)
  {
    assert m[..|m|] == m;
    MatrixSumIsBlock(m, |m|);
    BlockIsTwicePairs(m, |m|);
  }

  /** The 0/1 row that marks the entries equal to `v`. */
  function IndicatorRow(r: seq<int>, v: int): (s: seq<int>)
    ensures |s| == |r|
    ensures forall j | 0 <= j < |r| :: s[j] == (if r[j] == v then 1 else 0)
  {
    seq(|r|, j requires 0 <= j < |r| => if r[j] == v then 1 else 0)
  }

  /** `D == v`: the 0/1 matrix that marks the entries equal to `v`. */
  function Indicator(m: Matrix, v: int): (e: Matrix)
    ensures |e| == |m|
    ensures forall i | 0 <= i < |m| :: e[i] == IndicatorRow(m[i], v)
  {
    seq(|m|, i requires 0 <= i < |m| => IndicatorRow(m[i], v))
  }

  lemma {:induction false} RowCountIsIndicatorSum(r: seq<int>, v: int)
    ensures RowCount(r, v) == RowSum(IndicatorRow(r, v))
    decreases |r|
  {
    if r != [] {
      assert IndicatorRow(r, v)[..|r| - 1] == IndicatorRow(r[..|r| - 1], v);
      RowCountIsIndicatorSum(r[..|r| - 1], v);
    }
  }

  /** Counting the entries equal to `v` is summing the 0/1 matrix `D == v`. */
  lemma {:induction false} CountIsIndicatorSum(m: Matrix, v: int)
    ensures CountEqual(m, v) == MatrixSum(Indicator(m, v))
    decreases |m|
  {
    if m != [] {
      assert Indicator(m, v)[..|m| - 1] == Indicator(m[..|m| - 1], v);
      RowCountIsIndicatorSum(m[|m| - 1], v);
      CountIsIndicatorSum(m[..|m| - 1], v);
    }
  }

  /** Number of unordered pairs {i, j} at distance exactly `v`. */
  function PairsAt(m: Matrix, v: int): (n: int)
    requires Square(m)
  {
    PairSum(Indicator(m, v), |m|)
  }

  /**
   * For a distance matrix the entries equal to 3 come in symmetric pairs,
   * so WPol halves their count exactly: it is the number of atom pairs
   * three bonds apart.
   */
  lemma WPolIsPairCount(m: Matrix)
    requires DistanceLike(m)
    ensures CountEqual(m, 3) == 2 * PairsAt(m, 3)
    ensures Calculate(Wiener(true), m) == PairsAt(m, 3)
  {
    var e := Indicator(m, 3);
    assert DistanceLike(e);
    CountIsIndicatorSum(m, 3);
    WPathIsPairSum(e);
  }

  /** Both results are non-negative when all distances are. */
  lemma CalculateNonNegative(w: Wiener, m: Matrix)
    requires NonNegative(m)
    ensures Calculate(w, m) >= 0
  {
  }

  // ---------------------------------------------------------------------
  // The path graph
  // ---------------------------------------------------------------------

  function Dist(i: int, j: int): nat {
    if i <= j then j - i else i - j
  }

  /** Distance matrix of an unbranched chain of `n` atoms. */
  function PathMatrix(n: nat): (m: Matrix)
    ensures |m| == n && DistanceLike(m) && NonNegative(m)
    ensures forall i, j | 0 <= i < n && 0 <= j < n :: m[i][j] == Dist(i, j)
  {
    seq(n, i requires 0 <= i < n => seq(n, j requires 0 <= j < n => Dist(i, j)))
  }

  lemma {:induction false} PathColumn(n: nat, c: nat, rows: nat)
    requires c < n && rows <= c
    ensures 2 * ColumnSum(PathMatrix(n), c, rows) == rows * (2 * c - rows + 1)
    decreases rows
  {
    if rows > 0 {
      PathColumn(n, c, rows - 1);
    }
  }

  lemma CubeStep(j: int, p: int, c: int)
    requires 6 * p == (j - 1) * j * (j + 1) && 2 * c == j * (j + 1)
    ensures 6 * (p + c) == j * (j + 1) * (j + 2)
  {
  }

  lemma {:induction false} PathPairs(n: nat, k: nat)
    requires k <= n
    ensures 6 * PairSum(PathMatrix(n), k) == (k - 1) * k * (k + 1)
    decreases k
  {
    if k > 0 {
      PathPairs(n, k - 1);
      PathColumn(n, k - 1, k - 1);
      CubeStep(k - 1, PairSum(PathMatrix(n), k - 1), ColumnSum(PathMatrix(n), k - 1, k - 1));
    }
  }

  /** On a chain of n atoms WPath is the closed form (n - 1) n (n + 1) / 6. */
  lemma PathGraphWiener(n: nat)
    ensures 6 * Calculate(Wiener(false), PathMatrix(n)) == (n - 1) * n * (n + 1)
  {
    WPathIsPairSum(PathMatrix(n));
    PathPairs(n, n);
  }

  /** The distance matrix of a four-atom chain, written out. */
  const FourChain: Matrix := [[0, 1, 2, 3], [1, 0, 1, 2], [2, 1, 0, 1], [3, 2, 1, 0]]

  /** A four-atom chain has WPath 10. */
  lemma FourAtomChainPath()
    ensures Calculate(Wiener(false), FourChain) == 10
  {
    var p := PathMatrix(4);
    forall i | 0 <= i < 4 ensures p[i] == FourChain[i] {
      assert forall j | 0 <= j < 4 :: p[i][j] == FourChain[i][j];
    }
    assert p == FourChain;
    PathGraphWiener(4);
  }

  /** A four-atom chain has WPol 1: only its two end atoms are three bonds apart. */
  lemma FourAtomChainPolarity()
    ensures Calculate(Wiener(true), FourChain) == 1
  {
    var m := FourChain;
    WPolIsPairCount(m);
    var e := Indicator(m, 3);
    assert e[0][3] == 1 && e[1][3] == 0 && e[2][3] == 0;
    assert e[0][1] == 0 && e[0][2] == 0 && e[1][2] == 0;
    assert ColumnSum(e, 1, 1) == 0;
    assert ColumnSum(e, 2, 1) == 0 && ColumnSum(e, 2, 2) == 0;
    assert ColumnSum(e, 3, 1) == 1 && ColumnSum(e, 3, 2) == 1 && ColumnSum(e, 3, 3) == 1;
    assert PairSum(e, 1) == 0 && PairSum(e, 2) == 0 && PairSum(e, 3) == 0 && PairSum(e, 4) == 1;
  }
}
