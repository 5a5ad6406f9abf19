/** Points, voxel keys and the floor arithmetic that every map in the stack shares. */
module Grid {

  datatype Vec3 = Vec3(x: real, y: real, z: real)

  datatype Key = Key(x: int, y: int, z: int)

  datatype Bounds = Bounds(min: Vec3, max: Vec3)

  /** Voxel v comes before voxel `at` in nested loops over x, y and z. */
  predicate LoopBefore(v: Key, at: Key) {
    v.x < at.x || (v.x == at.x && (v.y < at.y || (v.y == at.y && v.z < at.z)))
  }

  predicate InBounds(p: Vec3, b: Bounds) {
    && b.min.x <= p.x <= b.max.x
    && b.min.y <= p.y <= b.max.y
    && b.min.z <= p.z <= b.max.z
  }

  function Min(a: real, b: real): real { if b < a then b else a }

  function Max(a: real, b: real): real { if a < b then b else a }

  /** A score kept within [0, max]. */
  function ClampScore(v: real, max: real): real { Max(0.0, Min(v, max)) }

  function Times(a: real, b: real): real {
    a * b
  }

  lemma TimesSign(a: real, b: real)
    ensures a > 0.0 && b > 0.0 ==> Times(a, b) > 0.0
    ensures a < 0.0 && b < 0.0 ==> Times(a, b) > 0.0
    ensures a == 0.0 || b == 0.0 ==> Times(a, b) == 0.0
  {}

  function Square(a: real): (r: real)
    ensures r >= 0.0
    ensures a != 0.0 ==> r > 0.0
  {
    TimesSign(a, a);
    Times(a, a)
  }

  lemma RootsOrdered(a: real, b: real)
    requires a >= 0.0 && b >= 0.0
    ensures a < b <==> Times(a, a) < Times(b, b)
    ensures a == b <==> Times(a, a) == Times(b, b)
  {
    assert Times(b - a, b + a) == Times(b, b) - Times(a, a);
    assert Times(a - b, b + a) == Times(a, a) - Times(b, b);
    TimesSign(b - a, b + a);
    TimesSign(a - b, b + a);
  }

  ghost predicate IsSqrt(sqrt: real -> real) {
    forall x :: x >= 0.0 ==> sqrt(x) >= 0.0 && Times(sqrt(x), sqrt(x)) == x
  }

  /** Position of grid line k of a grid with spacing s. */
  function Edge(k: int, s: real): real {
    k as real * s
  }

  lemma EdgeStep(k: int, s: real)
    ensures Edge(k + 1, s) == Edge(k, s) + s
  {}

  lemma EdgeAdd(a: int, b: int, s: real)
    ensures Edge(a + b, s) == Edge(a, s) + Edge(b, s)
  {}

  lemma EdgeMono(a: int, b: int, s: real)
    requires s > 0.0
    ensures a <= b <==> Edge(a, s) <= Edge(b, s)
  {
    EdgeAdd(a, b - a, s);
    TimesSign((b - a) as real, s);
    TimesSign((a - b) as real, s);
    assert Edge(b - a, s) == -Times((a - b) as real, s) == Times((b - a) as real, s);
  }

  /** floor(x / s): the index of the half-open slab [Edge(k), Edge(k + 1)) that holds x. */
  function FloorDiv(x: real, s: real): (k: int)
    requires s > 0.0
    ensures Edge(k, s) <= x < Edge(k + 1, s)
  {
    QuotientInSlab(x / s, s);
    assert Times(x / s, s) == x;
    (x / s).Floor
  }

  lemma QuotientInSlab(q: real, s: real)
    requires s > 0.0
    ensures Edge(q.Floor, s) <= Times(q, s) < Edge(q.Floor + 1, s)
  {
    var k := q.Floor as real;
    TimesSign(q - k, s);
    TimesSign(k + 1.0 - q, s);
    assert Times(q - k, s) == Times(q, s) - Times(k, s);
    assert Times(k + 1.0 - q, s) == Times(k + 1.0, s) - Times(q, s);
  }

  /** The slab of a point is unique. */
  lemma FloorDivUnique(x: real, s: real, k: int)
    requires s > 0.0
    requires Edge(k, s) <= x < Edge(k + 1, s)
    ensures FloorDiv(x, s) == k
  {
    hide Edge, FloorDiv;
    var f := FloorDiv(x, s);
    EdgeMono(f + 1, k, s);
    EdgeMono(k + 1, f, s);
  }

  lemma FloorDivMono(x: real, y: real, s: real)
    requires s > 0.0 && x <= y
    ensures FloorDiv(x, s) <= FloorDiv(y, s)
  {
    hide Edge, FloorDiv;
    EdgeMono(FloorDiv(y, s) + 1, FloorDiv(x, s), s);
  }

  /** Shifting a point by a whole number of slabs shifts its slab by that number. */
  lemma FloorDivShift(x: real, s: real, o: int)
    requires s > 0.0
    ensures FloorDiv(x - Edge(o, s), s) == FloorDiv(x, s) - o
  {
    hide Edge, FloorDiv;
    var k := FloorDiv(x, s);
    EdgeAdd(k - o, o, s);
    EdgeAdd(k + 1 - o, o, s);
    FloorDivUnique(x - Edge(o, s), s, k - o);
  }

  /** ceil(x / s): the first grid line at or after x. */
  function CeilDiv(x: real, s: real): (k: int)
    requires s > 0.0
    ensures Edge(k - 1, s) < x <= Edge(k, s)
  {
    var k := -FloorDiv(-x, s);
    assert Edge(k - 1, s) == -Edge(-k + 1, s);
    assert Edge(k, s) == -Edge(-k, s);
    k
  }

  function KeyOf(p: Vec3, sx: real, sz: real): Key
    requires sx > 0.0 && sz > 0.0
  {
    Key(FloorDiv(p.x, sx), FloorDiv(p.y, sx), FloorDiv(p.z, sz))
  }

  function Mid(k: int, s: real): real {
    (k as real + 0.5) * s
  }

  function CentreOf(k: Key, sx: real, sz: real): Vec3 {
    Vec3(Mid(k.x, sx), Mid(k.y, sx), Mid(k.z, sz))
  }

  lemma MidOfSlab(k: int, s: real)
    ensures Mid(k, s) == Edge(k, s) + 0.5 * s
  {}

  lemma KeyOfMid(k: int, s: real)
    requires s > 0.0
    ensures FloorDiv(Mid(k, s), s) == k
  {
    hide Edge, FloorDiv, Mid;
    MidOfSlab(k, s);
    EdgeStep(k, s);
    FloorDivUnique(Mid(k, s), s, k);
  }

  /** Keys survive the round trip through the centre of their voxel. */
  lemma KeyOfCentre(k: Key, sx: real, sz: real)
    requires sx > 0.0 && sz > 0.0
    ensures KeyOf(CentreOf(k, sx, sz), sx, sz) == k
  {
    hide FloorDiv, Mid;
    KeyOfMid(k.x, sx);
    KeyOfMid(k.y, sx);
    KeyOfMid(k.z, sz);
  }

  // ---------------------------------------------------------------- row-major positions

  lemma DigitsInRange(a: int, b: int, m: nat, n: nat)
    requires 0 <= a < m && 0 <= b < n
    ensures 0 <= a * n + b < m * n
  {
    Multiple(m - a, n);
    assert (m - a) * n == m * n - a * n;
  }

  lemma DigitsUnique(a: int, b: int, a': int, b': int, n: nat)
    requires 0 <= b < n && 0 <= b' < n && a * n + b == a' * n + b'
    ensures a == a' && b == b'
  {
    Multiple(a - a', n);
    Multiple(a' - a, n);
    assert (a - a') * n == a * n - a' * n;
    assert (a' - a) * n == a' * n - a * n;
  }

  lemma Multiple(a: int, n: nat)
    ensures a >= 1 ==> a * n >= n
  {}
}
