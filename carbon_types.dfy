/**
 * Carbon-type descriptors: the carbon classification table built from a
 * molecule's atoms, the `CarbonTypes(nCarbon, SP)` descriptor that reads one
 * cell of it, and the hybridization ratio computed from two of its buckets.
 *
 * A molecule is the sequence of its atoms; each atom carries its atomic
 * number, its hybridization tag and the atomic numbers of its neighbours.
 */
module CarbonTypes {
  import opened Options
  import Decimal

  /** Atomic number of carbon. */
  const Carbon := 6

  /** The hybridization tags an atom can carry. */
  datatype Hybridization = Unspecified | S | SP | SP2 | SP3 | SP3D | SP3D2 | Other

  datatype Atom = Atom(atomicNum: int, hybridization: Hybridization, neighbours: seq<int>)

  type Molecule = seq<Atom>

  /**
   * The rank table's `.get`: SP is rank 1, SP2 rank 2, and SP3, SP3D and SP3D2
   * all rank 3; any other tag has no rank (`None`).
   */
  function Rank(h: Hybridization): (r: Option<int>)
    ensures r.Some? <==> h in {SP, SP2, SP3, SP3D, SP3D2}
    ensures r.Some? ==> 1 <= r.value <= 3
  {
    match h
    case SP => Some(1)
    case SP2 => Some(2)
    case SP3 | SP3D | SP3D2 => Some(3)
    case _ => None
  }

  /** Number of entries of `ns` (neighbours' atomic numbers) that are carbon. */
  function CarbonNeighbours(ns: seq<int>): (k: nat)
    ensures k <= |ns|
    ensures k == |ns| <==> forall i | 0 <= i < |ns| :: ns[i] == Carbon
    ensures k == 0 <==> forall i | 0 <= i < |ns| :: ns[i] != Carbon
  {
    if ns == [] then 0
    else CarbonNeighbours(ns[..|ns| - 1]) + (if ns[|ns| - 1] == Carbon then 1 else 0)
  }

  // ---------------------------------------------------------------------
  // The classification table
  // ---------------------------------------------------------------------

  /** Occurrence counts keyed by number of carbon neighbours. */
  type Bucket = map<int, nat>

  /** Buckets keyed by hybridization rank (`None` for an untracked hybridization). */
  type Table = map<Option<int>, Bucket>

  /** Zero-default read of a bucket. */
  function Lookup(b: Bucket, k: int): nat {
    if k in b then b[k] else 0
  }

  /** Zero-default read of a table: the empty bucket for a missing rank. */
  function BucketOf(t: Table, rank: Option<int>): Bucket {
    if rank in t then t[rank] else map[]
  }

  function Cell(t: Table, rank: Option<int>, k: int): nat {
    Lookup(BucketOf(t, rank), k)
  }

  /** Atom `a` is a carbon of hybridization rank `rank` with exactly `k` carbon neighbours. */
  predicate Counted(a: Atom, rank: Option<int>, k: int) {
    a.atomicNum == Carbon && Rank(a.hybridization) == rank && CarbonNeighbours(a.neighbours) == k
  }

  /** Reference count: how many atoms of `mol` belong in cell (rank, k). */
  function ClassCount(mol: Molecule, rank: Option<int>, k: int): (n: nat)
    ensures n <= |mol|
  {
    if mol == [] then 0
    else ClassCount(mol[..|mol| - 1], rank, k) + (if Counted(mol[|mol| - 1], rank, k) then 1 else 0)
  }

  /** Table `t` holds, in every cell, the reference count for `mol`. */
  ghost predicate Tabulates(t: Table, mol: Molecule) {
    forall rank, k :: Cell(t, rank, k) == ClassCount(mol, rank, k)
  }

  /**
   * Builds the classification table: every carbon atom adds one to the cell
   * (rank of its hybridization, number of its carbon neighbours); other atoms
   * are skipped.
   */
  method TabulateCarbons(mol: Molecule) returns (t: Table)
    ensures Tabulates(t, mol)
  {
    t := map[];
    for i := 0 to |mol|
      invariant Tabulates(t, mol[..i])
    {
      assert mol[..i + 1][..i] == mol[..i];
      var a := mol[i];
      if a.atomicNum != Carbon {
        continue;
      }
      var carbon := CarbonNeighbours(a.neighbours);
      var sp := Rank(a.hybridization);
      var bucket := BucketOf(t, sp);
      var count := Lookup(bucket, carbon);
      t := t[sp := bucket[carbon := count + 1]];
    }
    assert mol[..|mol|] == mol;
  }

  // ---------------------------------------------------------------------
  // Facts about the table
  // ---------------------------------------------------------------------

  lemma {:induction false} ClassCountAppend(s: Molecule, u: Molecule, rank: Option<int>, k: int)
    ensures ClassCount(s + u, rank, k) == ClassCount(s, rank, k) + ClassCount(u, rank, k)
    decreases |u|
  {
    if u == [] {
      assert s + u == s;
    } else {
      assert (s + u)[..|s + u| - 1] == s + u[..|u| - 1];
      ClassCountAppend(s, u[..|u| - 1], rank, k);
    }
  }

  /** A non-carbon atom, wherever it stands, changes no cell of the table. */
  lemma NonCarbonIgnored(s: Molecule, a: Atom, u: Molecule, t: Table)
    requires a.atomicNum != Carbon
    ensures forall rank, k :: ClassCount(s + [a] + u, rank, k) == ClassCount(s + u, rank, k)
    ensures Tabulates(t, s + [a] + u) <==> Tabulates(t, s + u)
  {
    forall rank, k ensures ClassCount(s + [a] + u, rank, k) == ClassCount(s + u, rank, k) {
      ClassCountAppend(s + [a], u, rank, k);
      ClassCountAppend(s, [a], rank, k);
      ClassCountAppend(s, u, rank, k);
      assert [a][..0] == [];
    }
  }

  /** The tag an SP3D or SP3D2 atom would have if it were reported as SP3. */
  function FoldToSP3(a: Atom): (b: Atom)
    ensures b.atomicNum == a.atomicNum && b.neighbours == a.neighbours
    ensures b.hybridization in {SP3D, SP3D2} ==> false
  {
    if a.hybridization in {SP3D, SP3D2} then a.(hybridization := SP3) else a
  }

  function FoldAllToSP3(mol: Molecule): (r: Molecule)
    ensures |r| == |mol|
  {
    if mol == [] then [] else FoldAllToSP3(mol[..|mol| - 1]) + [FoldToSP3(mol[|mol| - 1])]
  }

  lemma {:induction false} FoldToSP3KeepsCounts(mol: Molecule, rank: Option<int>, k: int)
    ensures ClassCount(FoldAllToSP3(mol), rank, k) == ClassCount(mol, rank, k)
    decreases |mol|
  {
    if mol != [] {
      var r := FoldAllToSP3(mol);
      assert r[..|r| - 1] == FoldAllToSP3(mol[..|mol| - 1]);
      FoldToSP3KeepsCounts(mol[..|mol| - 1], rank, k);
    }
  }

  /**
   * SP3D and SP3D2 carbons are counted in rank 3 exactly as SP3 carbons are:
   * a table of a molecule is a table of the same molecule with those atoms
   * reported as SP3, and conversely.
   */
  lemma ExpandedOctetCountsAsSP3(mol: Molecule, t: Table)
    ensures Tabulates(t, mol) <==> Tabulates(t, FoldAllToSP3(mol))
  {
    forall rank, k ensures ClassCount(FoldAllToSP3(mol), rank, k) == ClassCount(mol, rank, k) {
      FoldToSP3KeepsCounts(mol, rank, k);
    }
  }

  /** Number of carbon atoms whose hybridization has rank `rank`. */
  function RankCount(mol: Molecule, rank: Option<int>): (n: nat)
    ensures n <= |mol|
  {
    if mol == [] then 0
    else
      var a := mol[|mol| - 1];
      RankCount(mol[..|mol| - 1], rank) + (if a.atomicNum == Carbon && Rank(a.hybridization) == rank then 1 else 0)
  }

  function CarbonCount(mol: Molecule): (n: nat)
    ensures n <= |mol|
  {
    if mol == [] then 0
    else CarbonCount(mol[..|mol| - 1]) + (if mol[|mol| - 1].atomicNum == Carbon then 1 else 0)
  }

  /** Every carbon falls in exactly one of the buckets None, 1, 2 and 3, and no other bucket is used. */
  lemma {:induction false} RankCountsPartitionCarbons(mol: Molecule)
    ensures RankCount(mol, None) + RankCount(mol, Some(1)) + RankCount(mol, Some(2)) + RankCount(mol, Some(3))
            == CarbonCount(mol)
    ensures forall rank :: rank !in {None, Some(1), Some(2), Some(3)} ==> RankCount(mol, rank) == 0
    decreases |mol|
  {
    if mol != [] {
      RankCountsPartitionCarbons(mol[..|mol| - 1]);
    }
  }

  /** Largest degree of any atom: no atom has more carbon neighbours than this. */
  function MaxDegree(mol: Molecule): (d: nat)
    ensures forall i | 0 <= i < |mol| :: |mol[i].neighbours| <= d
  {
    if mol == [] then 0
    else
      var d := MaxDegree(mol[..|mol| - 1]);
      var n := |mol[|mol| - 1].neighbours|;
      if n <= d then d else n
  }

  /** Number of carbons of rank `rank` with fewer than `n` carbon neighbours. */
  function RankCountBelow(mol: Molecule, rank: Option<int>, n: int): nat {
    if mol == [] then 0
    else
      var a := mol[|mol| - 1];
      RankCountBelow(mol[..|mol| - 1], rank, n)
      + (if a.atomicNum == Carbon && Rank(a.hybridization) == rank && CarbonNeighbours(a.neighbours) < n then 1 else 0)
  }

  /** Sum of the cells (rank, 0) .. (rank, n - 1) of the reference count. */
  function ClassCountBelow(mol: Molecule, rank: Option<int>, n: nat): nat {
    if n == 0 then 0 else ClassCountBelow(mol, rank, n - 1) + ClassCount(mol, rank, n - 1)
  }

  lemma {:induction false} RankCountBelowStep(mol: Molecule, rank: Option<int>, n: nat)
    ensures RankCountBelow(mol, rank, n + 1) == RankCountBelow(mol, rank, n) + ClassCount(mol, rank, n)
    decreases |mol|
  {
    if mol != [] {
      RankCountBelowStep(mol[..|mol| - 1], rank, n);
    }
  }

  lemma {:induction false} ClassCountBelowIsRankCountBelow(mol: Molecule, rank: Option<int>, n: nat)
    ensures ClassCountBelow(mol, rank, n) == RankCountBelow(mol, rank, n)
    decreases n
  {
    if n == 0 {
      RankCountBelowZero(mol, rank);
    } else {
      ClassCountBelowIsRankCountBelow(mol, rank, n - 1);
      RankCountBelowStep(mol, rank, n - 1);
    }
  }

  lemma {:induction false} RankCountBelowZero(mol: Molecule, rank: Option<int>)
    ensures RankCountBelow(mol, rank, 0) == 0
    decreases |mol|
  {
    if mol != [] {
      RankCountBelowZero(mol[..|mol| - 1], rank);
    }
  }

  lemma {:induction false} RankCountBelowAll(mol: Molecule, rank: Option<int>, n: int)
    requires MaxDegree(mol) < n
    ensures RankCountBelow(mol, rank, n) == RankCount(mol, rank)
    decreases |mol|
  {
    if mol != [] {
      var a := mol[|mol| - 1];
      assert |a.neighbours| <= MaxDegree(mol);
      assert MaxDegree(mol[..|mol| - 1]) <= MaxDegree(mol);
      RankCountBelowAll(mol[..|mol| - 1], rank, n);
    }
  }

  /** A cell with a negative or too large neighbour count is empty. */
  lemma {:induction false} ClassCountOutOfRange(mol: Molecule, rank: Option<int>, k: int)
    requires k < 0 || k > MaxDegree(mol)
    ensures ClassCount(mol, rank, k) == 0
    decreases |mol|
  {
    if mol != [] {
      var a := mol[|mol| - 1];
      assert |a.neighbours| <= MaxDegree(mol);
      assert MaxDegree(mol[..|mol| - 1]) <= MaxDegree(mol);
      ClassCountOutOfRange(mol[..|mol| - 1], rank, k);
    }
  }

  // ---------------------------------------------------------------------
  // Bucket totals: `sum(CT[rank].values())`
  // ---------------------------------------------------------------------

  lemma NonEmptyHasKey(b: Bucket)
    requires b != map[]
    ensures exists k :: k in b
  {
    if forall k :: k !in b {
      assert false;
    }
  }

  /** A finite set of integers holding `x` has a largest element. */
  lemma {:induction false} MaxKeyExists(s: set<int>, x: int)
    requires x in s
    ensures exists k :: k in s && forall j | j in s :: j <= k
    decreases |s|
  {
    var rest := s - {x};
    if forall y :: y !in rest {
      assert forall j | j in s :: j <= x;
    } else {
      var y :| y in rest;
      MaxKeyExists(rest, y);
      var k :| k in rest && forall j | j in rest :: j <= k;
      var m := if x > k then x else k;
      forall j | j in s ensures j <= m {
        if j != x {
          assert j in rest;
        }
      }
      assert m in s;
    }
  }

  /** The largest key of a non-empty bucket. */
  function MaxKey(b: Bucket): (k: int)
    requires b != map[]
    ensures k in b && forall j | j in b :: j <= k
  {
    NonEmptyHasKey(b);
    var x :| x in b;
    MaxKeyExists(b.Keys, x);
    var k :| k in b && forall j | j in b :: j <= k;
    k
  }

  /** `sum(bucket.values())`: the sum of the counts in a bucket, taking its keys from the largest down. */
  function BucketTotal(b: Bucket): (n: nat)
    ensures n == 0 <==> forall k | k in b :: b[k] == 0
    ensures forall k | k in b :: b[k] <= n
    decreases |b|
  {
    if b == map[] then 0
    else
      var k := MaxKey(b);
      var rest := b - {k};
      assert rest.Keys == b.Keys - {k};
      assert forall j | j in b && j != k :: j in rest && rest[j] == b[j];
      b[k] + BucketTotal(rest)
  }

  /** Sum of the zero-default cells 0 .. n - 1 of a bucket. */
  function SumBelow(b: Bucket, n: nat): nat {
    if n == 0 then 0 else SumBelow(b, n - 1) + Lookup(b, n - 1)
  }

  lemma {:induction false} SumBelowRemove(b: Bucket, k: int, n: nat)
    requires k in b
    ensures SumBelow(b, n) == SumBelow(b - {k}, n) + (if 0 <= k < n then b[k] else 0)
    decreases n
  {
    if n > 0 {
      SumBelowRemove(b, k, n - 1);
    }
  }

  lemma {:induction false} SumBelowEmpty(b: Bucket, n: nat)
    requires b == map[]
    ensures SumBelow(b, n) == 0
    decreases n
  {
    if n > 0 {
      SumBelowEmpty(b, n - 1);
    }
  }

  /** A bucket whose cells outside 0 .. n - 1 are zero totals to the sum of those cells. */
  lemma {:induction false} BucketTotalIsSumBelow(b: Bucket, n: nat)
    requires forall k | k in b && (k < 0 || k >= n) :: b[k] == 0
    ensures BucketTotal(b) == SumBelow(b, n)
    decreases |b|
  {
    if b == map[] {
      SumBelowEmpty(b, n);
    } else {
      var k := MaxKey(b);
      assert (b - {k}).Keys == b.Keys - {k};
      BucketTotalIsSumBelow(b - {k}, n);
      SumBelowRemove(b, k, n);
    }
  }

  lemma {:induction false} SumBelowOfTable(t: Table, mol: Molecule, rank: Option<int>, n: nat)
    requires Tabulates(t, mol)
    ensures SumBelow(BucketOf(t, rank), n) == ClassCountBelow(mol, rank, n)
    decreases n
  {
    if n > 0 {
      assert Cell(t, rank, n - 1) == ClassCount(mol, rank, n - 1);
      SumBelowOfTable(t, mol, rank, n - 1);
    }
  }

  /** In a table of `mol`, the total of bucket `rank` is the number of carbons of that rank. */
  lemma BucketTotalIsRankCount(t: Table, mol: Molecule, rank: Option<int>)
    requires Tabulates(t, mol)
    ensures BucketTotal(BucketOf(t, rank)) == RankCount(mol, rank)
  {
    var b := BucketOf(t, rank);
    var n := MaxDegree(mol) + 1;
    forall k | k in b && (k < 0 || k >= n) ensures b[k] == 0 {
      assert Cell(t, rank, k) == ClassCount(mol, rank, k);
      ClassCountOutOfRange(mol, rank, k);
    }
    BucketTotalIsSumBelow(b, n);
    SumBelowOfTable(t, mol, rank, n);
    ClassCountBelowIsRankCountBelow(mol, rank, n);
    RankCountBelowAll(mol, rank, n);
  }

  /**
   * Summed over all buckets, a table of `mol` counts every carbon atom once:
   * the buckets None, 1, 2 and 3 add up to the number of carbons, and every
   * other bucket is empty.
   */
  lemma TableCountsEveryCarbon(t: Table, mol: Molecule)
    requires Tabulates(t, mol)
    ensures BucketTotal(BucketOf(t, None)) + BucketTotal(BucketOf(t, Some(1)))
            + BucketTotal(BucketOf(t, Some(2))) + BucketTotal(BucketOf(t, Some(3)))
            == CarbonCount(mol)
    ensures forall rank :: rank !in {None, Some(1), Some(2), Some(3)} ==> BucketTotal(BucketOf(t, rank)) == 0
  {
    BucketTotalIsRankCount(t, mol, None);
    BucketTotalIsRankCount(t, mol, Some(1));
    BucketTotalIsRankCount(t, mol, Some(2));
    BucketTotalIsRankCount(t, mol, Some(3));
    RankCountsPartitionCarbons(mol);
    forall rank | rank !in {None, Some(1), Some(2), Some(3)}
      ensures BucketTotal(BucketOf(t, rank)) == 0
    {
      BucketTotalIsRankCount(t, mol, rank);
    }
  }

  // ---------------------------------------------------------------------
  // The CarbonTypes(nCarbon, SP) descriptor
  // ---------------------------------------------------------------------

  /** A `CarbonTypes` instance: count SP`sp` carbons bonded to `nCarbon` carbons. */
  datatype CarbonType = CarbonType(nCarbon: int, sp: int)

  /** The failed `assert` of the constructor. */
  datatype ConstructionError = InvalidSP

  /** The state every constructed instance is in. */
  predicate Valid(d: CarbonType) {
    d.sp in {1, 2, 3}
  }

  /** `CarbonTypes(nCarbon, SP)`: fails unless SP is 1, 2 or 3; nCarbon is taken as given. */
  function NewCarbonType(nCarbon: int := 1, sp: int := 3): (r: Result<CarbonType, ConstructionError>)
    ensures r.Success? <==> sp in {1, 2, 3}
    ensures r.Success? ==> Valid(r.value) && r.value.nCarbon == nCarbon && r.value.sp == sp
    ensures r.Failure? ==> r.error == InvalidSP
  {
    if sp in [1, 2, 3] then Success(CarbonType(nCarbon, sp)) else Failure(InvalidSP)
  }

  /** `CarbonTypes()` with both parameters defaulted. */
  lemma DefaultConstruction()
    ensures NewCarbonType() == Success(CarbonType(1, 3))
    ensures Name(CarbonType(1, 3)) == "C1SP3"
  {
  }

  /** The canonical name `C{nCarbon}SP{SP}`. */
  function Name(d: CarbonType): string {
    "C" + Decimal.IntToString(d.nCarbon) + "SP" + Decimal.IntToString(d.sp)
  }

  /** In `"C" + a + "SP" + b`, with no `S` in `a`, the first `S` stands right after `a`. */
  lemma MarkerPosition(a: string, b: string)
    requires Decimal.Avoids(a, 'S')
    ensures ("C" + a + "SP" + b)[1 + |a|] == 'S'
    ensures forall i | 0 <= i < 1 + |a| :: ("C" + a + "SP" + b)[i] != 'S'
  {
  }

  lemma MarkerBound(a: string, b: string, c: string, e: string)
    requires Decimal.Avoids(a, 'S') && Decimal.Avoids(c, 'S')
    requires "C" + a + "SP" + b == "C" + c + "SP" + e
    ensures |c| <= |a|
  {
    MarkerPosition(a, b);
    MarkerPosition(c, e);
  }

  lemma SplitAtSP(a: string, b: string, c: string, e: string)
    requires Decimal.Avoids(a, 'S') && Decimal.Avoids(c, 'S')
    requires "C" + a + "SP" + b == "C" + c + "SP" + e
    ensures a == c && b == e
  {
    var x := "C" + a + "SP" + b;
    var y := "C" + c + "SP" + e;
    MarkerBound(a, b, c, e);
    MarkerBound(c, e, a, b);
    assert a == x[1..1 + |a|] && c == y[1..1 + |c|];
    assert b == x[3 + |a|..] && e == y[3 + |c|..];
  }

  /** Names identify instances: two instances with the same name have the same parameters. */
  lemma NameInjective(d1: CarbonType, d2: CarbonType)
    ensures Name(d1) == Name(d2) <==> d1 == d2
  {
    if Name(d1) == Name(d2) {
      Decimal.IntToStringInjective(d1.nCarbon, d2.nCarbon);
      Decimal.IntToStringInjective(d2.nCarbon, d1.nCarbon);
      Decimal.IntToStringInjective(d1.sp, d2.sp);
      Decimal.IntToStringAvoidsS(d1.nCarbon);
      Decimal.IntToStringAvoidsS(d2.nCarbon);
      SplitAtSP(Decimal.IntToString(d1.nCarbon), Decimal.IntToString(d1.sp),
                Decimal.IntToString(d2.nCarbon), Decimal.IntToString(d2.sp));
    }
  }

  /** `__reduce_ex__`: the constructor arguments, from which the instance is rebuilt unchanged. */
  function ReduceArgs(d: CarbonType): (args: (int, int))
    requires Valid(d)
    ensures NewCarbonType(args.0, args.1) == Success(d)
    ensures Name(NewCarbonType(args.0, args.1).value) == Name(d)
  {
    (d.nCarbon, d.sp)
  }

  /** The argument pairs of `preset`, in their listed order. */
  const PresetArgs: seq<(int, int)> :=
    [(1, 1), (2, 1),
     (1, 2), (2, 2), (3, 2),
     (1, 3), (2, 3), (3, 3), (4, 3)]

  /** `preset`: one constructed instance per argument pair, in order; every construction succeeds. */
  function Preset(): (ps: seq<CarbonType>)
    ensures |ps| == |PresetArgs|
    ensures forall i | 0 <= i < |ps| :: NewCarbonType(PresetArgs[i].0, PresetArgs[i].1) == Success(ps[i])
  {
    seq(|PresetArgs|, i requires 0 <= i < |PresetArgs| => CarbonType(PresetArgs[i].0, PresetArgs[i].1))
  }

  /** The preset lists each of the nine instances exactly once, under distinct names. */
  lemma PresetDistinct()
    ensures forall i, j | 0 <= i < j < |Preset()| :: Name(Preset()[i]) != Name(Preset()[j])
  {
    var ps := Preset();
    forall i, j | 0 <= i < j < |ps| ensures Name(ps[i]) != Name(ps[j]) {
      NameInjective(ps[i], ps[j]);
    }
  }

  /** The preset's names, in order. */
  lemma PresetNames()
    ensures |Preset()| == 9
    ensures Name(Preset()[0]) == "C1SP1" && Name(Preset()[1]) == "C2SP1"
    ensures Name(Preset()[2]) == "C1SP2" && Name(Preset()[3]) == "C2SP2" && Name(Preset()[4]) == "C3SP2"
    ensures Name(Preset()[5]) == "C1SP3" && Name(Preset()[6]) == "C2SP3"
    ensures Name(Preset()[7]) == "C3SP3" && Name(Preset()[8]) == "C4SP3"
  {
  }

  /** `CarbonTypes.calculate`: the zero-default cell (SP, nCarbon) of the table. */
  function Count(d: CarbonType, t: Table): (n: nat)
    ensures Some(d.sp) !in t || d.nCarbon !in t[Some(d.sp)] ==> n == 0
    ensures Some(d.sp) in t && d.nCarbon in t[Some(d.sp)] ==> n == t[Some(d.sp)][d.nCarbon]
  {
    Cell(t, Some(d.sp), d.nCarbon)
  }

  /**
   * On the table of a molecule, an instance counts the carbons of rank SP
   * that have exactly nCarbon carbon neighbours.
   */
  lemma CountIsCarbonsOfType(d: CarbonType, t: Table, mol: Molecule)
    requires Valid(d) && Tabulates(t, mol)
    ensures Count(d, t) == ClassCount(mol, Some(d.sp), d.nCarbon)
    ensures d.nCarbon < 0 || d.nCarbon > MaxDegree(mol) ==> Count(d, t) == 0
  {
    if d.nCarbon < 0 || d.nCarbon > MaxDegree(mol) {
      ClassCountOutOfRange(mol, Some(d.sp), d.nCarbon);
    }
  }

  // ---------------------------------------------------------------------
  // HybridizationRatio
  // ---------------------------------------------------------------------

  /** Total of the bucket of rank `rank` (a Python `float(sum(CT[rank].values()))`). */
  function RankTotal(t: Table, rank: int): nat {
    BucketTotal(BucketOf(t, Some(rank)))
  }

  /** The share `p / (q + p)` of two non-negative amounts lies in [0, 1]. */
  lemma ShareBounds(p: real, q: real)
    requires 0.0 <= p && 0.0 <= q && p + q > 0.0
    ensures 0.0 <= p / (q + p) <= 1.0
  {
  }

  /**
   * `HybridizationRatio.calculate`: Nsp3 / (Nsp2 + Nsp3) over the totals of
   * buckets 3 and 2, or NaN (`None`) when both totals are zero.
   */
  function HybridizationRatio(t: Table): (r: Option<real>)
    ensures r.None? <==> RankTotal(t, 3) == 0 && RankTotal(t, 2) == 0
    ensures r.Some? ==> 0.0 <= r.value <= 1.0
  {
    var nsp3 := RankTotal(t, 3) as real;
    var nsp2 := RankTotal(t, 2) as real;
    if nsp3 == nsp2 == 0.0 then None
    else
      ShareBounds(nsp3, nsp2);
      Some(nsp3 / (nsp2 + nsp3))
  }

  /**
   * On the table of a molecule, the ratio is NaN exactly when the molecule
   * has no SP2 and no SP3 carbon, and otherwise is the share of SP3 carbons
   * (SP3D and SP3D2 included) among SP2 and SP3 carbons.
   */
  lemma HybridizationRatioOfMolecule(t: Table, mol: Molecule)
    requires Tabulates(t, mol)
    ensures HybridizationRatio(t).None? <==> RankCount(mol, Some(2)) == 0 && RankCount(mol, Some(3)) == 0
    ensures HybridizationRatio(t).Some? ==>
              HybridizationRatio(t).value
              == RankCount(mol, Some(3)) as real / (RankCount(mol, Some(2)) + RankCount(mol, Some(3))) as real
  {
    BucketTotalIsRankCount(t, mol, Some(2));
    BucketTotalIsRankCount(t, mol, Some(3));
  }

  /**
   * The `None` bucket, where carbons of untracked hybridization go, is read
   * by no valid `CarbonTypes` instance and not by `HybridizationRatio`.
   */
  lemma UntrackedBucketUnread(d: CarbonType, t: Table, b: Bucket)
    requires Valid(d)
    ensures Count(d, t[None := b]) == Count(d, t)
    ensures HybridizationRatio(t[None := b]) == HybridizationRatio(t)
  {
  }
}
