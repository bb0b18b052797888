/**
 * Topological descriptors derived from the graph radius R and diameter D:
 * `Radius`, `Diameter`, `TopoShapeIndex` = (D - R) / R and
 * `PetitjeanIndex` = (D - R) / D. R and D themselves are computed elsewhere
 * and reach these descriptors as named arguments, so here they are inputs.
 */
module Topological {

  datatype Descriptor = Radius | Diameter | TopoShapeIndex | PetitjeanIndex

  /** Which shared graph computation a dependency asks for. */
  datatype Quantity = GraphRadius | GraphDiameter

  /**
   * The cache key of a shared computation: the quantity plus its three
   * option flags (explicit hydrogens and two variant switches).
   */
  datatype Key = Key(quantity: Quantity, explicitHydrogens: bool, variant1: bool, variant2: bool)

  /** All four descriptors leave hydrogens implicit. */
  const ExplicitHydrogens := false

  /** The argument list every descriptor passes when it builds a key. */
  function KeyArgs(): (bool, bool, bool) {
    (ExplicitHydrogens, false, false)
  }

  function MakeKey(q: Quantity, args: (bool, bool, bool)): Key {
    Key(q, args.0, args.1, args.2)
  }

  /** The descriptor's fixed name. */
  function Name(d: Descriptor): string {
    match d
    case Radius => "Radius"
    case Diameter => "Diameter"
    case TopoShapeIndex => "TopoShapeIndex"
    case PetitjeanIndex => "PetitjeanIndex"
  }

  /** The four names are distinct, so a name identifies its descriptor. */
  lemma NameInjective(d1: Descriptor, d2: Descriptor)
    ensures Name(d1) == Name(d2) <==> d1 == d2
  {
  }

  /**
   * `dependencies`: local argument name to the key of the shared computation.
   * Radius asks for R, Diameter for D, the two indices for both.
   */
  function Dependencies(d: Descriptor): (deps: map<string, Key>)
    ensures "R" in deps <==> d != Diameter
    ensures "D" in deps <==> d != Radius
    ensures deps.Keys <= {"R", "D"}
    ensures "R" in deps ==> deps["R"].quantity == GraphRadius
    ensures "D" in deps ==> deps["D"].quantity == GraphDiameter
    ensures forall n | n in deps :: !deps[n].explicitHydrogens && !deps[n].variant1 && !deps[n].variant2
  {
    match d
    case Radius => map["R" := MakeKey(GraphRadius, KeyArgs())]
    case Diameter => map["D" := MakeKey(GraphDiameter, KeyArgs())]
    case TopoShapeIndex | PetitjeanIndex =>
      var args := KeyArgs();
      map["R" := MakeKey(GraphRadius, args), "D" := MakeKey(GraphDiameter, args)]
  }

  /**
   * Every descriptor that asks for R asks for the same key, and likewise for
   * D: all four share one computation of each quantity.
   */
  lemma DependenciesShareKeys(d1: Descriptor, d2: Descriptor, n: string)
    requires n in Dependencies(d1) && n in Dependencies(d2)
    ensures Dependencies(d1)[n] == Dependencies(d2)[n]
  {
  }

  /** A computed value: an int or a float. */
  datatype Value = Int(i: int) | Float(r: real)

  /** `TopologicalShapeIndex.calculate`; R = 0 would be a division error. */
  function ShapeIndex(r: int, d: int): (v: real)
    requires r != 0
    ensures v * r as real == (d - r) as real
  {
    (d - r) as real / r as real
  }

  /** `PetitjeanIndex.calculate`; D = 0 would be a division error. */
  function Petitjean(r: int, d: int): (v: real)
    requires d != 0
    ensures v * d as real == (d - r) as real
  {
    (d - r) as real / d as real
  }

  /** The arguments `args` bind every name `d` depends on, and no divisor is zero. */
  predicate Computable(d: Descriptor, args: map<string, int>) {
    && Dependencies(d).Keys <= args.Keys
    && (d == TopoShapeIndex ==> args["R"] != 0)
    && (d == PetitjeanIndex ==> args["D"] != 0)
  }

  /** `calculate`, with the named arguments the dependencies resolved to. */
  function Calculate(d: Descriptor, args: map<string, int>): (v: Value)
    requires Computable(d, args)
    ensures d == Radius ==> v == Int(args["R"])
    ensures d == Diameter ==> v == Int(args["D"])
    ensures d == TopoShapeIndex ==> v.Float? && v.r * args["R"] as real == (args["D"] - args["R"]) as real
    ensures d == PetitjeanIndex ==> v.Float? && v.r * args["D"] as real == (args["D"] - args["R"]) as real
  {
    match d
    case Radius => Int(args["R"])
    case Diameter => Int(args["D"])
    case TopoShapeIndex => Float(ShapeIndex(args["R"], args["D"]))
    case PetitjeanIndex => Float(Petitjean(args["R"], args["D"]))
  }

  /** When the diameter equals the radius, both indices are zero. */
  lemma {:induction false} EqualRadiusDiameter(r: int)
    requires r != 0
    ensures ShapeIndex(r, r) == 0.0 && Petitjean(r, r) == 0.0
  {
  }

  /** For 0 < R <= D both indices are non-negative, and the Petitjean index is below 1. */
  lemma IndicesNonNegative(r: int, d: int)
    requires 0 < r <= d
    ensures ShapeIndex(r, d) >= 0.0
    ensures 0.0 <= Petitjean(r, d) < 1.0
  {
  }

  /** Dividing both sides of `x * c <= b * c` by a positive `c`. */
  lemma CancelPositive(x: real, b: real, c: real)
    requires c > 0.0 && x * c <= b * c
    ensures x <= b
  {
  }

  /**
   * For a connected graph, R <= D <= 2R; then the shape index lies in
   * [0, 1] and the Petitjean index in [0, 1/2].
   */
  lemma IndicesBoundedByGraph(r: int, d: int)
    requires 0 < r <= d <= 2 * r
    ensures 0.0 <= ShapeIndex(r, d) <= 1.0
    ensures 0.0 <= Petitjean(r, d) <= 0.5
  {
    IndicesNonNegative(r, d);
    CancelPositive(ShapeIndex(r, d), 1.0, r as real);
    CancelPositive(Petitjean(r, d), 0.5, d as real);
  }

  /**
   * The two indices determine each other: with T the shape index, the
   * Petitjean index is T / (1 + T).
   */
  lemma PetitjeanFromShapeIndex(r: int, d: int)
    requires 0 < r && 0 < d
    ensures Petitjean(r, d) * (1.0 + ShapeIndex(r, d)) == ShapeIndex(r, d)
  {
  }
}
