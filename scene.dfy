/**
 * `PrettyClevrGenerator`: its construction and the assembly of one scene's
 * objects from sampled positions, a shuffle of the colors and the fixed
 * marker order.
 */
module Scene {
  import opened Wrappers
  import opened Perms
  import opened Vocabulary

  /** A position in the unit square. The model never computes with coordinates. */
  datatype Point = Point(x: real, y: real)

  /** One scene object, the dict `{'p': p, 'c': c, 'm': m}`. */
  datatype Object = Object(p: Point, c: string, m: string)

  /** What `PrettyClevrGenerator.__init__` stores: the object count and the layout radius. */
  datatype Generator = Generator(n: int, r: real)

  /** The two assertions of `__init__`. */
  datatype InitError = NotEnoughColors | NotEnoughMarkers

  function Min(a: int, b: int): int {
    if a <= b then a else b
  }

  /**
   * `PrettyClevrGenerator(n)`: refused exactly when there are fewer colors than
   * objects (the marker assertion can never be the one that fails, the two lists
   * being equally long); otherwise it keeps `n` and `r = 0.1`.
   */
  function NewGenerator(n: int): (g: Result<Generator, InitError>)
    ensures g.Success? <==> n <= |Colors| && n <= |Markers|
    ensures g.Success? ==> g.value.n == n && g.value.r == 0.1
    ensures g.Failure? ==> g.error == NotEnoughColors
  {
    if n > |Colors| then Failure(NotEnoughColors)
    else if n > |Markers| then Failure(NotEnoughMarkers)
    else Success(Generator(n, 0.1))
  }

  /** Python's three-way `zip`: it stops at the shortest list. */
  function Zip(ps: seq<Point>, cs: seq<string>, ms: seq<string>): (objects: seq<Object>)
    decreases |ps|
    ensures |objects| == Min(|ps|, Min(|cs|, |ms|))
    ensures forall i :: 0 <= i < |objects| ==> objects[i] == Object(ps[i], cs[i], ms[i])
  {
    if ps == [] || cs == [] || ms == [] then []
    else [Object(ps[0], cs[0], ms[0])] + Zip(ps[1..], cs[1..], ms[1..])
  }

  /** The object list of one scene: positions zipped with shuffled colors and the markers in order. */
  function Assemble(positions: seq<Point>, perm: seq<int>): seq<Object>
    requires IsPermutation(perm, |Colors|)
  {
    Zip(positions, Permuted(Colors, perm), Markers)
  }

  /**
   * A scene has one object per position, at most eight; object `i` sits at
   * position `i`, has color `colors[perm[i]]` and marker `markers[i]`; colors,
   * like markers, are pairwise distinct within the scene.
   */
  lemma AssembleObjects(positions: seq<Point>, perm: seq<int>)
    requires IsPermutation(perm, |Colors|)
    ensures |Assemble(positions, perm)| == Min(|positions|, |Colors|)
    ensures forall i :: 0 <= i < |Assemble(positions, perm)| ==>
      var o := Assemble(positions, perm)[i];
      o.p == positions[i] && o.c == Colors[perm[i]] && o.m == Markers[i]
    ensures forall i, j :: 0 <= i < j < |Assemble(positions, perm)| ==>
      Assemble(positions, perm)[i].c != Assemble(positions, perm)[j].c &&
      Assemble(positions, perm)[i].m != Assemble(positions, perm)[j].m
  {
    SymbolsDistinct();
    var objects := Assemble(positions, perm);
    forall i, j | 0 <= i < j < |objects|
      ensures objects[i].c != objects[j].c && objects[i].m != objects[j].m
    {
      assert Symbols[perm[i]] != Symbols[perm[j]];
      assert Symbols[i] != Symbols[j];
    }
  }
}
