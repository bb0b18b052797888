# Carbon types, topological shape indices and the Wiener index: a Dafny model

This project models three descriptor modules of the mordred molecular-descriptor
library and proves properties of them:

- **Carbon types** (`mordred/CarbonTypes.py`). The carbon classification table
  (`CarbonTypesCache.calculate`) walks the atoms. For each carbon it counts the
  carbon neighbours, maps the hybridization to a rank (SP 1, SP2 2, SP3/SP3D/SP3D2 3,
  anything else no rank), and increments the zero-default cell (rank, count).
  The `CarbonTypes(nCarbon, SP)` descriptor reads one cell. `HybridizationRatio`
  divides the SP3 bucket total by the SP2+SP3 total, and gives NaN when that total is 0.
  Construction, names, `preset` and `__reduce_ex__` of `CarbonTypes` are modelled too.
- **Topological indices** (`mordred/Indices/_topological.py`). `Radius` and
  `Diameter` pass the graph radius R and diameter D through. `TopoShapeIndex`
  is (D − R)/R and `PetitjeanIndex` is (D − R)/D. Each descriptor that asks for
  R or D builds its key from the same arguments (explicit hydrogens off, False, False).
- **Wiener index** (`mordred/WienerIndex.py`). WPath is half the sum of the
  distance matrix, truncated to int. WPol is half the number of entries equal to 3.

Files:

- `options.dfy`: `Option` (a Python `None` or a NaN result) and `Result`.
- `decimal.dfy`: decimal rendering of integers (for the `C{n}SP{sp}` names) and
  its inverse.
- `carbon_types.dfy`, `topological.dfy`, `wiener_index.dfy`: one module per source file.

A molecule is a sequence of atom records. Each record holds an atomic number, a
hybridization tag and the atomic numbers of the neighbours. The table is a
`map<Option<int>, map<int, nat>>` with zero-default reads. The method
`TabulateCarbons` builds it with a loop over the atoms, as the source does, and is
proved against the reference count `ClassCount`. R, D and the distance matrix are
computed by modules that are not part of this model, so they are inputs here.
Python floats are modelled as `real`, and NaN as `None`.

Three behaviours of the code are kept as they are:

- Neither index guards its divisor: R = 0 in `TopoShapeIndex` and D = 0 in
  `PetitjeanIndex` raise a division error. These are preconditions of
  `ShapeIndex` and `Petitjean`.
- A carbon whose hybridization has no rank is counted, not skipped: `.get`
  returns `None` and the table files it under a `None` bucket. The model keeps
  that bucket and proves that no valid descriptor reads it.
- `int(0.5 * x)` truncates toward zero (`TruncHalf`). The halving is proved
  exact for symmetric matrices with a zero diagonal.

## Model

| member | source | states |
|---|---|---|
| CarbonTypes.Rank | mordred/CarbonTypes.py:24-30 | SP, SP2, SP3, SP3D and SP3D2 have a rank, in 1..3; every other tag has none |
| CarbonTypes.CarbonNeighbours | mordred/CarbonTypes.py:38-41 | the carbon-neighbour count is at most the degree; it equals the degree iff every neighbour is carbon, and is 0 iff none is |
| CarbonTypes.TabulateCarbons | mordred/CarbonTypes.py:32-47 | the loop's table holds in every cell (rank, k) the number of carbons with that rank and exactly k carbon neighbours |
| CarbonTypes.NonCarbonIgnored | mordred/CarbonTypes.py:34-36 | inserting a non-carbon atom anywhere in the molecule changes no cell of the table |
| CarbonTypes.ExpandedOctetCountsAsSP3 | mordred/CarbonTypes.py:24-30 | a table of a molecule is also a table of the same molecule with SP3D/SP3D2 atoms reported as SP3, and conversely |
| CarbonTypes.RankCountsPartitionCarbons | mordred/CarbonTypes.py:43-45 | every carbon lands in exactly one of the buckets None, 1, 2, 3, and no other bucket gets a carbon |
| CarbonTypes.BucketTotal | mordred/CarbonTypes.py:117-118 | the sum of a bucket's counts bounds each count, and is 0 iff every count is 0 |
| CarbonTypes.BucketTotalIsRankCount | mordred/CarbonTypes.py:45 | in a table of a molecule, a bucket's total is the number of carbons of that rank |
| CarbonTypes.TableCountsEveryCarbon | mordred/CarbonTypes.py:33-47 | the totals of buckets None, 1, 2, 3 add up to the number of carbon atoms; all other buckets total 0 |
| CarbonTypes.NewCarbonType | mordred/CarbonTypes.py:76-80 | construction succeeds iff SP is 1, 2 or 3, keeps nCarbon unconstrained, and fails with the assertion error otherwise |
| CarbonTypes.DefaultConstruction | mordred/CarbonTypes.py:76 | construction with no arguments gives nCarbon = 1, SP = 3, the instance named C1SP3 |
| CarbonTypes.NameInjective | mordred/CarbonTypes.py:68-69 | two instances have the same `C{n}SP{sp}` name iff they have the same parameters |
| CarbonTypes.ReduceArgs | mordred/CarbonTypes.py:73-74 | the reduce arguments (nCarbon, SP) rebuild an equal instance with the same name |
| CarbonTypes.Preset | mordred/CarbonTypes.py:61-66 | the preset has one instance per listed pair, in the listed order, and every construction succeeds |
| CarbonTypes.PresetDistinct | mordred/CarbonTypes.py:61-66 | the nine preset instances have pairwise distinct names |
| CarbonTypes.PresetNames | mordred/CarbonTypes.py:62-69 | the preset's names are C1SP1, C2SP1, C1SP2, C2SP2, C3SP2, C1SP3, C2SP3, C3SP3, C4SP3 in that order |
| CarbonTypes.Count | mordred/CarbonTypes.py:85-86 | the descriptor reads cell (SP, nCarbon), which is 0 when that cell was never incremented |
| CarbonTypes.CountIsCarbonsOfType | mordred/CarbonTypes.py:85-86 | on a table of a molecule the descriptor equals the number of SP-rank carbons with exactly nCarbon carbon neighbours; 0 for nCarbon below 0 or above the largest degree |
| CarbonTypes.HybridizationRatio | mordred/CarbonTypes.py:116-123 | the ratio is NaN iff the SP3 and SP2 bucket totals are both 0, and otherwise lies in [0, 1] |
| CarbonTypes.HybridizationRatioOfMolecule | mordred/CarbonTypes.py:116-123 | on a table of a molecule the ratio is NaN iff there is no SP2 and no SP3 carbon, and otherwise equals Nsp3 / (Nsp2 + Nsp3) counted over the atoms |
| CarbonTypes.UntrackedBucketUnread | mordred/CarbonTypes.py:43-45 | replacing the None bucket changes neither a valid CarbonTypes count nor the hybridization ratio |
| Decimal.IntToStringRoundTrip | mordred/CarbonTypes.py:69 | the decimal rendering of an integer parses back to the integer |
| Decimal.IntToStringInjective | mordred/CarbonTypes.py:69 | distinct integers render to distinct strings |
| Topological.NameInjective | mordred/Indices/_topological.py:14-100 | the names Radius, Diameter, TopoShapeIndex, PetitjeanIndex are fixed and distinct |
| Topological.Dependencies | mordred/Indices/_topological.py:16-108 | Radius asks for R, Diameter for D, both indices for R and D; every key has explicit hydrogens off and both variant flags off |
| Topological.DependenciesShareKeys | mordred/Indices/_topological.py:70-108 | any two of the four descriptors that ask for the same argument ask for the identical key |
| Topological.ShapeIndex | mordred/Indices/_topological.py:79-80 | for R ≠ 0 the shape index times R is D − R |
| Topological.Petitjean | mordred/Indices/_topological.py:111-112 | for D ≠ 0 the Petitjean index times D is D − R |
| Topological.Calculate | mordred/Indices/_topological.py:24-112 | with the named arguments from the dependencies, Radius and Diameter return R and D as ints and the two indices return floats satisfying their formulas |
| Topological.EqualRadiusDiameter | mordred/Indices/_topological.py:79-80 | when D = R ≠ 0 both indices are 0 |
| Topological.IndicesNonNegative | mordred/Indices/_topological.py:111-112 | for 0 < R ≤ D both indices are non-negative and the Petitjean index is below 1 |
| Topological.IndicesBoundedByGraph | mordred/Indices/_topological.py:79-80 | for 0 < R ≤ D ≤ 2R the shape index is in [0, 1] and the Petitjean index in [0, 1/2] |
| Topological.PetitjeanFromShapeIndex | mordred/Indices/_topological.py:111-112 | the Petitjean index is T / (1 + T), with T the shape index |
| WienerIndex.NewWiener | mordred/WienerIndex.py:30-31 | the instance keeps the polarity it was given, False by default |
| WienerIndex.NameShowsPolarity | mordred/WienerIndex.py:22-23 | the name is WPol iff polarity is set and WPath otherwise |
| WienerIndex.Preset | mordred/WienerIndex.py:17-20 | the preset is exactly two instances, polarity False (WPath) then True (WPol) |
| WienerIndex.ReduceArgs | mordred/WienerIndex.py:27-28 | the reduce argument (polarity,) rebuilds an equal instance with the same name |
| WienerIndex.Dependencies | mordred/WienerIndex.py:33-34 | the single dependency D is the distance matrix with explicit hydrogens off, whatever the polarity |
| WienerIndex.RowSum | mordred/WienerIndex.py:40 | the sum of a non-negative row is non-negative |
| WienerIndex.MatrixSum | mordred/WienerIndex.py:40 | the sum of a non-negative matrix is non-negative |
| WienerIndex.TruncHalf | mordred/WienerIndex.py:38-40 | int(0.5 * x) is half of x truncated toward zero |
| WienerIndex.Calculate | mordred/WienerIndex.py:36-40 | WPol is the floor of half the count of entries equal to 3; WPath is the floor of half the matrix sum when no entry is negative |
| WienerIndex.CalculateNonNegative | mordred/WienerIndex.py:36-40 | both results are non-negative when all distances are |
| WienerIndex.WPathIsPairSum | mordred/WienerIndex.py:39-40 | for a symmetric zero-diagonal matrix the sum is twice the sum over unordered pairs, and WPath is exactly that pair sum |
| WienerIndex.CountIsIndicatorSum | mordred/WienerIndex.py:38 | counting entries equal to v is summing the 0/1 matrix `D == v` |
| WienerIndex.WPolIsPairCount | mordred/WienerIndex.py:37-38 | for a symmetric zero-diagonal matrix WPol is exactly the number of unordered atom pairs at distance 3 |
| WienerIndex.PathGraphWiener | mordred/WienerIndex.py:39-40 | on an unbranched chain of n atoms WPath is (n − 1) n (n + 1) / 6 |
| WienerIndex.FourAtomChainPath | mordred/WienerIndex.py:39-40 | the distance matrix of a four-atom chain gives WPath = 10 |
| WienerIndex.FourAtomChainPolarity | mordred/WienerIndex.py:37-38 | the distance matrix of a four-atom chain gives WPol = 1 |

## Left out

- The descriptor base class, the dependency resolver and its per-molecule cache (`mordred/_base`) are not part of this model. Dependencies are modelled as the key maps they return, and resolved values arrive as arguments.
- Molecule parsing, hybridization perception, neighbour lists, kekulization and hydrogen handling belong to the chemistry toolkit. They are replaced by the atom-record sequence.
- The distance matrix, radius and diameter computations (`_graph_matrix`, `_common`) are not part of this model. Their results are inputs.
- IEEE floating point: NaN is `None`, divisions are exact over `real`, and `0.5 *` before `int` is exact integer halving. Rounding of sums beyond 2^53 is not modelled.
- Topological.Calculate: R and D are integers here. The source's `int(R)` on a NaN radius (disconnected graph) would raise, which is not modelled.
- The mutation-on-read of `defaultdict` in `CT[SP][nCarbon]` and `CT[3]` is not modelled. Reads are pure zero-default lookups, so a read never adds an empty key.
- `CarbonTypes.dependencies` and `HybridizationRatio.dependencies` (both the table) are not modelled as values. The table is passed directly to `Count` and `HybridizationRatio`.
- The name `HybRatio`, the one-instance `preset` and the empty `__reduce_ex__` of `HybridizationRatio`, and `CarbonTypesCache.__reduce_ex__`, are constants without parameters and are not modelled.
- The `rtype` declarations, and Python pickling beyond the argument tuple of `__reduce_ex__`, are not modelled.
- CarbonTypes.HybridizationRatio: its own contract gives the NaN condition and the [0, 1] bound but not the value. The exact value Nsp3 / (Nsp2 + Nsp3) is stated in `HybridizationRatioOfMolecule`.
