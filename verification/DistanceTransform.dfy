/** The one-dimensional squared distance transform `dt1d`: a linear sweep that keeps the
    lower envelope of parabolas on a stack, proved against brute-force minimisation. */
module DistanceTransform {
  import opened Grid

  const INF_SQ: real := 100000000000000000000.0

  /** Squared distance between positions x and p of a line with squared spacing s2. */
  function Gap(x: int, p: int, s2: real): real {
    (x - p) as real * (x - p) as real * s2
  }

  /** Height at position x of the parabola rooted at p. */
  function Parabola(f: real, p: int, x: int, s2: real): real {
    Gap(x, p, s2) + f
  }

  predicate Reachable(f: seq<real>, p: int) {
    0 <= p < |f| && f[p] < INF_SQ
  }

  /** d is the exact transform of f at x: the least parabola over the reachable roots, or
      the sentinel when there is no reachable root. */
  ghost predicate IsTransform(f: seq<real>, s2: real, x: int, d: real) {
    if forall p :: 0 <= p < |f| ==> !Reachable(f, p) then d == INF_SQ
    else
      && (exists p :: Reachable(f, p) && d == Parabola(f[p], p, x, s2))
      && (forall p :: Reachable(f, p) ==> d <= Parabola(f[p], p, x, s2))
  }

  /** Where the parabolas rooted at p < q cross. */
  function Cross(fp: real, p: int, fq: real, q: int, s2: real): real
    requires p < q && s2 > 0.0
  {
    (p + q) as real * 0.5 + (fq - fp) / (2.0 * s2 * (q - p) as real)
  }

  /** Left of the crossing the earlier root is lower, right of it the later one. */
  lemma CrossSplits(fp: real, p: int, fq: real, q: int, s2: real, x: int)
    requires p < q && s2 > 0.0
    ensures Parabola(fp, p, x, s2) <= Parabola(fq, q, x, s2) <==> x as real <= Cross(fp, p, fq, q, s2)
    ensures Parabola(fq, q, x, s2) <= Parabola(fp, p, x, s2) <==> Cross(fp, p, fq, q, s2) <= x as real
  {
    var w := 2.0 * s2 * (q - p) as real;
    var c := Cross(fp, p, fq, q, s2);
    var X, P, Q := x as real, p as real, q as real;
    assert w > 0.0;
    assert (fq - fp) / w * w == fq - fp;
    assert c == (P + Q) * 0.5 + (fq - fp) / w;
    assert w * (X - c) == w * X - w * (P + Q) * 0.5 - (fq - fp);
    assert (X - P) * (X - P) * s2 - (X - Q) * (X - Q) * s2 == s2 * (Q - P) * (2.0 * X - P - Q);
    assert Parabola(fp, p, x, s2) - Parabola(fq, q, x, s2) == w * (X - c);
    SignOfProduct(w, X - c);
  }

  lemma SignOfProduct(w: real, d: real)
    requires w > 0.0
    ensures w * d <= 0.0 <==> d <= 0.0
    ensures w * d >= 0.0 <==> d >= 0.0
  {}

  /** Root v is reachable and the lowest of the reachable roots before m at every position
      of [lo, hi] that is a position of the line. */
  ghost predicate LowestOn(f: seq<real>, s2: real, m: int, v: int, lo: real, hi: real) {
    && Reachable(f, v)
    && forall p, x :: 0 <= p < m && Reachable(f, p) && 0 <= x < |f| && lo <= x as real <= hi ==>
      Parabola(f[v], v, x, s2) <= Parabola(f[p], p, x, s2)
  }

  /** Right end of the stretch on which stacked root i is lowest. */
  function Upper(z: seq<real>, i: int, top: real): real
    requires 0 <= i < |z|
  {
    if i + 1 < |z| then z[i + 1] else top
  }

  ghost predicate Increasing(v: seq<int>, z: seq<real>) {
    && |v| == |z|
    && (forall i, j :: 0 <= i < j < |v| ==> v[i] < v[j])
    && (forall i, j :: 0 <= i < j < |z| ==> z[i] < z[j])
    && (|z| > 0 ==> z[0] == -INF_SQ)
  }

  /** The stack of roots v with breakpoints z is the lower envelope of the reachable roots
      before m, up to position top: roots and breakpoints strictly increase, and each stacked
      root is lowest between its own breakpoint and the next. */
  ghost predicate Envelope(f: seq<real>, s2: real, m: int, v: seq<int>, z: seq<real>, top: real) {
    && Increasing(v, z)
    && (forall i :: 0 <= i < |v| ==> 0 <= v[i] < m)
    && (forall i :: 0 <= i < |v| ==> LowestOn(f, s2, m, v[i], z[i], Upper(z, i, top)))
  }

  /** From position lo on, root q is no higher than any reachable root before it. */
  ghost predicate TakesOver(f: seq<real>, s2: real, q: int, lo: real) {
    && Reachable(f, q)
    && forall p, x :: 0 <= p < q && Reachable(f, p) && 0 <= x < |f| && lo <= x as real ==>
      Parabola(f[q], q, x, s2) <= Parabola(f[p], p, x, s2)
  }

  /** A root whose breakpoint is not left of its crossing with q is overtaken by q. */
  lemma PoppedIsOvertaken(f: seq<real>, s2: real, q: int, p0: int, lo: real, top: real)
    requires s2 > 0.0 && 0 <= p0 < q && LowestOn(f, s2, q, p0, lo, top) && TakesOver(f, s2, q, top)
    requires Cross(f[p0], p0, f[q], q, s2) <= lo
    ensures TakesOver(f, s2, q, lo)
  {
    hide Parabola, Cross;
    forall p, x | 0 <= p < q && Reachable(f, p) && 0 <= x < |f| && lo <= x as real
      ensures Parabola(f[q], q, x, s2) <= Parabola(f[p], p, x, s2)
    {
      CrossSplits(f[p0], p0, f[q], q, s2, x);
    }
  }

  /** Popping loses nothing: the remaining stack is the envelope up to the popped breakpoint. */
  lemma PopKeepsEnvelope(f: seq<real>, s2: real, m: int, v: seq<int>, z: seq<real>, top: real)
    requires |v| > 0 && Envelope(f, s2, m, v, z, top)
    ensures Envelope(f, s2, m, v[..|v| - 1], z[..|v| - 1], z[|v| - 1])
  {
    hide LowestOn;
    var n := |v| - 1;
    forall i | 0 <= i < n
      ensures LowestOn(f, s2, m, v[..n][i], z[..n][i], Upper(z[..n], i, z[n]))
    {
      assert Upper(z[..n], i, z[n]) == Upper(z, i, top);
    }
  }

  /** Pushing q at a crossing right of the last breakpoint extends the envelope by q. */
  lemma PushExtendsEnvelope(f: seq<real>, s2: real, q: int, v: seq<int>, z: seq<real>, top: real, c: real)
    requires s2 > 0.0 && 0 <= q < |f|
    requires Envelope(f, s2, q, v, z, top) && TakesOver(f, s2, q, top)
    requires if |v| > 0 then c == Cross(f[v[|v| - 1]], v[|v| - 1], f[q], q, s2) && z[|v| - 1] < c
             else c == -INF_SQ && top <= 0.0
    ensures Envelope(f, s2, q + 1, v + [q], z + [c], |f| as real)
  {
    hide LowestOn, TakesOver, Cross, Increasing;
    var z' := z + [c];
    PushKeepsOrder(v, z, q, c);
    forall i | 0 <= i < |v|
      ensures LowestOn(f, s2, q + 1, v[i], z[i], Upper(z', i, |f| as real))
    {
      SegmentSurvives(f, s2, q, v, z, top, c, i);
      assert Upper(z', i, |f| as real) == Upper(z, i, c);
    }
    NewSegment(f, s2, q, v, z, top, c);
  }

  lemma PushKeepsOrder(v: seq<int>, z: seq<real>, q: int, c: real)
    requires Increasing(v, z) && (if |v| > 0 then v[|v| - 1] < q && z[|v| - 1] < c else c == -INF_SQ)
    ensures Increasing(v + [q], z + [c])
  {}

  /** What the envelope says about its i-th root. */
  lemma EnvelopeAt(f: seq<real>, s2: real, m: int, v: seq<int>, z: seq<real>, top: real, i: int)
    requires Envelope(f, s2, m, v, z, top) && 0 <= i < |v|
    ensures |z| == |v| && 0 <= v[i] < m && Reachable(f, v[i]) && LowestOn(f, s2, m, v[i], z[i], Upper(z, i, top))
    ensures i + 1 < |v| ==> z[i + 1] <= z[|v| - 1]
  {
    hide Parabola, Reachable;
  }

  /** The two facts about one position that a surviving stretch rests on. */
  lemma StretchAt(f: seq<real>, s2: real, q: int, v: int, lo: real, hi: real, p: int, x: int)
    requires LowestOn(f, s2, q, v, lo, hi) && 0 <= p < q && Reachable(f, p) && 0 <= x < |f| && lo <= x as real <= hi
    ensures Reachable(f, v) && Parabola(f[v], v, x, s2) <= Parabola(f[p], p, x, s2)
  {}

  lemma TakenAt(f: seq<real>, s2: real, q: int, lo: real, p: int, x: int)
    requires TakesOver(f, s2, q, lo) && 0 <= p < q && Reachable(f, p) && 0 <= x < |f| && lo <= x as real
    ensures Reachable(f, q) && Parabola(f[q], q, x, s2) <= Parabola(f[p], p, x, s2)
  {}

  lemma SegmentSurvives(f: seq<real>, s2: real, q: int, v: seq<int>, z: seq<real>, top: real, c: real, i: int)
    requires s2 > 0.0 && 0 <= i < |v|
    requires Envelope(f, s2, q, v, z, top) && TakesOver(f, s2, q, top)
    requires c == Cross(f[v[|v| - 1]], v[|v| - 1], f[q], q, s2) && z[|v| - 1] < c
    ensures LowestOn(f, s2, q + 1, v[i], z[i], Upper(z, i, c))
  {
    hide Parabola, Cross, Envelope, TakesOver;
    var k := |v| - 1;
    EnvelopeAt(f, s2, q, v, z, top, i);
    EnvelopeAt(f, s2, q, v, z, top, k);
    TakerReachable(f, s2, q, top);
    forall p, x | 0 <= p < q + 1 && Reachable(f, p) && 0 <= x < |f| && z[i] <= x as real <= Upper(z, i, c)
      ensures Parabola(f[v[i]], v[i], x, s2) <= Parabola(f[p], p, x, s2)
    {
      SurvivesAt(f, s2, q, v[i], z[i], Upper(z, i, top), v[k], top, c, p, x);
    }
  }

  lemma SurvivesAt(f: seq<real>, s2: real, q: int, v: int, lo: real, hi: real, last: int, top: real, c: real, p: int, x: int)
    requires s2 > 0.0 && 0 <= v < q && 0 <= last < q && Reachable(f, v) && Reachable(f, last) && Reachable(f, q)
    requires LowestOn(f, s2, q, v, lo, hi) && TakesOver(f, s2, q, top) && c == Cross(f[last], last, f[q], q, s2)
    requires 0 <= p < q + 1 && Reachable(f, p) && 0 <= x < |f| && lo <= x as real <= c
    requires x as real <= hi || (v == last && top <= x as real)
    ensures Parabola(f[v], v, x, s2) <= Parabola(f[p], p, x, s2)
  {
    hide Parabola, Cross, LowestOn, TakesOver;
    CrossSplits(f[last], last, f[q], q, s2, x);
    if p < q {
      if x as real <= hi {
        StretchAt(f, s2, q, v, lo, hi, p, x);
      } else {
        TakenAt(f, s2, q, top, p, x);
      }
    } else if v != last {
      StretchAt(f, s2, q, v, lo, hi, last, x);
    }
  }

  lemma NewSegment(f: seq<real>, s2: real, q: int, v: seq<int>, z: seq<real>, top: real, c: real)
    requires s2 > 0.0
    requires Envelope(f, s2, q, v, z, top) && TakesOver(f, s2, q, top)
    requires if |v| > 0 then c == Cross(f[v[|v| - 1]], v[|v| - 1], f[q], q, s2) && z[|v| - 1] < c
             else top <= 0.0
    ensures LowestOn(f, s2, q + 1, q, c, |f| as real)
  {
    hide Parabola, Cross, Envelope, TakesOver;
    var k := |v| - 1;
    EnvelopeLength(f, s2, q, v, z, top);
    if k >= 0 {
      EnvelopeAt(f, s2, q, v, z, top, k);
    }
    TakerReachable(f, s2, q, top);
    forall p, x | 0 <= p < q + 1 && Reachable(f, p) && 0 <= x < |f| && c <= x as real <= |f| as real
      ensures Parabola(f[q], q, x, s2) <= Parabola(f[p], p, x, s2)
    {
      if p < q {
        if k >= 0 && x as real < top {
          CrossSplits(f[v[k]], v[k], f[q], q, s2, x);
          StretchAt(f, s2, q, v[k], z[k], top, p, x);
        } else {
          TakenAt(f, s2, q, top, p, x);
        }
      }
    }
  }

  lemma TakerReachable(f: seq<real>, s2: real, q: int, lo: real)
    requires TakesOver(f, s2, q, lo)
    ensures Reachable(f, q)
  {}

  lemma EnvelopeLength(f: seq<real>, s2: real, m: int, v: seq<int>, z: seq<real>, top: real)
    requires Envelope(f, s2, m, v, z, top)
    ensures |v| == |z|
  {}

  lemma SkipKeepsLowest(f: seq<real>, s2: real, q: int, v: int, lo: real, hi: real)
    requires LowestOn(f, s2, q, v, lo, hi) && !Reachable(f, q)
    ensures LowestOn(f, s2, q + 1, v, lo, hi)
  {
    hide Parabola;
    forall p, x | 0 <= p < q + 1 && Reachable(f, p) && 0 <= x < |f| && lo <= x as real <= hi
      ensures Parabola(f[v], v, x, s2) <= Parabola(f[p], p, x, s2)
    {
      StretchAt(f, s2, q, v, lo, hi, p, x);
    }
  }

  lemma SkipKeepsEnvelope(f: seq<real>, s2: real, q: int, v: seq<int>, z: seq<real>, top: real)
    requires Envelope(f, s2, q, v, z, top) && 0 <= q && !Reachable(f, q)
    ensures Envelope(f, s2, q + 1, v, z, top)
  {
    hide LowestOn, Reachable;
    forall i | 0 <= i < |v|
      ensures LowestOn(f, s2, q + 1, v[i], z[i], Upper(z, i, top))
    {
      SkipKeepsLowest(f, s2, q, v[i], z[i], Upper(z, i, top));
    }
  }

  lemma EnvelopeTop(f: seq<real>, s2: real, m: int, v: seq<int>, z: seq<real>, top: real)
    requires Envelope(f, s2, m, v, z, top) && |v| > 0
    ensures |z| == |v| && 0 <= v[|v| - 1] < m
    ensures LowestOn(f, s2, m, v[|v| - 1], z[|v| - 1], top)
    ensures Reachable(f, v[|v| - 1])
  {
    assert LowestOn(f, s2, m, v[|v| - 1], z[|v| - 1], Upper(z, |v| - 1, top));
  }

  lemma NothingToTakeOver(f: seq<real>, s2: real, q: int, top: real)
    requires Reachable(f, q)
    requires top >= |f| as real || forall p :: 0 <= p < q ==> !Reachable(f, p)
    ensures TakesOver(f, s2, q, top)
  {}

  lemma EmptyEnvelope(f: seq<real>, s2: real, m: int, top: real)
    ensures Envelope(f, s2, m, [], [], top)
  {}

  lemma EnvelopeStart(f: seq<real>, s2: real, m: int, v: seq<int>, z: seq<real>, top: real)
    requires Envelope(f, s2, m, v, z, top) && |z| > 0
    ensures z[0] <= 0.0
  {}

  /** Reading the finished envelope at the stretch that holds x gives the transform. */
  lemma EnvelopeGivesTransform(f: seq<real>, s2: real, v: seq<int>, z: seq<real>, j: int, x: int)
    requires Envelope(f, s2, |f|, v, z, |f| as real)
    requires 0 <= j < |v| && 0 <= x < |f| && z[j] <= x as real <= Upper(z, j, |f| as real)
    ensures Reachable(f, v[j]) && IsTransform(f, s2, x, Parabola(f[v[j]], v[j], x, s2))
  {
    hide Parabola;
    assert LowestOn(f, s2, |f|, v[j], z[j], Upper(z, j, |f| as real));
    assert Reachable(f, v[j]);
  }

  /** Pops the roots that q overtakes and pushes q: one turn of the sweep. */
  method PushRoot(f: array<real>, ghost F: seq<real>, q: nat, s2: real, v: array<int>, z: array<real>, k0: int)
    returns (k: int)
    requires s2 > 0.0 && q < |F| <= f.Length && f[..|F|] == F && f[q] < INF_SQ
    requires -1 <= k0 < q && q < v.Length && q + 1 < z.Length && f != z
    requires Envelope(F, s2, q, v[..k0 + 1], z[..k0 + 1], |F| as real)
    requires k0 < 0 ==> forall p :: 0 <= p < q ==> !Reachable(F, p)
    modifies v, z
    ensures 0 <= k <= q
    ensures Envelope(F, s2, q + 1, v[..k + 1], z[..k + 1], |F| as real)
  {
    hide Envelope, LowestOn, TakesOver, Parabola, Cross;
    k := k0;
    var c := -INF_SQ;
    ghost var top := if k >= 0 then |F| as real else 0.0;
    assert f[q] == F[q];
    NothingToTakeOver(F, s2, q, top);
    EmptyEnvelope(F, s2, q, top);
    assert k < 0 ==> v[..k + 1] == [] && z[..k + 1] == [];
    while k >= 0
      invariant -1 <= k < q
      invariant Envelope(F, s2, q, v[..k + 1], z[..k + 1], top)
      invariant TakesOver(F, s2, q, top)
      invariant c == -INF_SQ
      invariant k < 0 ==> top <= 0.0
    {
      ghost var V, Z := v[..k + 1], z[..k + 1];
      var p := v[k];
      assert V[k] == p && Z[k] == z[k];
      EnvelopeTop(F, s2, q, V, Z, top);
      EnvelopeStart(F, s2, q, V, Z, top);
      assert f[p] == F[p];
      c := Cross(f[p], p, f[q], q, s2);
      if c > z[k] {
        break;
      }
      PoppedIsOvertaken(F, s2, q, p, z[k], top);
      PopKeepsEnvelope(F, s2, q, V, Z, top);
      assert V[..k] == v[..k] && Z[..k] == z[..k];
      top := z[k];
      k := k - 1;
      c := -INF_SQ;
    }
    ghost var V, Z := v[..k + 1], z[..k + 1];
    PushExtendsEnvelope(F, s2, q, V, Z, top, c);
    k := k + 1;
    v[k] := q;
    z[k] := c;
    z[k + 1] := INF_SQ;
    assert v[..k + 1] == V + [q] && z[..k + 1] == Z + [c];
  }

  /** First loop of the transform: the finished stack is the envelope of the whole line. */
  method BuildEnvelope(f: array<real>, ghost F: seq<real>, n: nat, s2: real, v: array<int>, z: array<real>)
    returns (k: int)
    requires s2 > 0.0 && n == |F| <= f.Length && f[..n] == F
    requires n <= v.Length && n < z.Length && f != z
    modifies v, z
    ensures -1 <= k < n
    ensures Envelope(F, s2, n, v[..k + 1], z[..k + 1], n as real)
    ensures k < 0 ==> forall p :: 0 <= p < n ==> !Reachable(F, p)
  {
    hide Envelope;
    k := -1;
    EmptyEnvelope(F, s2, 0, n as real);
    assert v[..0] == [] && z[..0] == [];
    for q := 0 to n
      invariant f[..n] == F
      invariant -1 <= k < q
      invariant Envelope(F, s2, q, v[..k + 1], z[..k + 1], n as real)
      invariant k < 0 ==> forall p :: 0 <= p < q ==> !Reachable(F, p)
    {
      assert f[q] == F[q];
      if f[q] >= INF_SQ {
        SkipKeepsEnvelope(F, s2, q, v[..k + 1], z[..k + 1], n as real);
      } else {
        k := PushRoot(f, F, q, s2, v, z, k);
      }
    }
  }

  /** Second loop of the transform: walks the stack from left to right. */
  method ReadEnvelope(f: array<real>, ghost F: seq<real>, g: array<real>, n: nat, s: real,
                      v: array<int>, z: array<real>, k: nat)
    requires n == |F| <= f.Length && f[..n] == F && n <= g.Length
    requires k < v.Length && k < z.Length && f != g && g != z
    requires Envelope(F, Square(s), n, v[..k + 1], z[..k + 1], n as real)
    modifies g
    ensures forall q :: 0 <= q < n ==> IsTransform(F, Square(s), q, g[q])
    ensures forall q :: n <= q < g.Length ==> g[q] == old(g[q])
  {
    hide Envelope, LowestOn, IsTransform, Parabola, Square, Times;
    ghost var V, Z := v[..k + 1], z[..k + 1];
    EnvelopeStart(F, Square(s), n, V, Z, n as real);
    ghost var s2 := Square(s);
    var j := 0;
    for q := 0 to n
      invariant f[..n] == F && v[..k + 1] == V && z[..k + 1] == Z
      invariant 0 <= j <= k
      invariant Z[j] <= q as real
      invariant forall i :: 0 <= i < q ==> IsTransform(F, s2, i, g[i])
      invariant forall i :: n <= i < g.Length ==> g[i] == old(g[i])
    {
      while j < k && z[j + 1] < q as real
        invariant 0 <= j <= k && Z[j] <= q as real
      {
        j := j + 1;
        assert Z[j] == z[j];
      }
      assert Z[j] <= q as real <= Upper(Z, j, n as real) by {
        assert j < k ==> Z[j + 1] == z[j + 1];
      }
      assert V[j] == v[j];
      EnvelopeGivesTransform(F, s2, V, Z, j, q);
      ScaledSquare(F[V[j]], V[j], q, s);
      assert F[V[j]] == f[v[j]];
      var diff := Times((q - v[j]) as real, s);
      var d := Square(diff) + f[v[j]];
      assert IsTransform(F, s2, q, d);
      g[q] := d;
    }
  }

  lemma ScaledSquare(f: real, p: int, x: int, s: real)
    ensures Square(Times((x - p) as real, s)) + f == Parabola(f, p, x, Square(s))
  {}

  /** One line of the transform: `g` receives the transform of `f`, with `v` and `z` holding
      the stack of roots and breakpoints. */
  method Transform1D(f: array<real>, g: array<real>, n: nat, s: real, v: array<int>, z: array<real>)
    requires s != 0.0
    requires n <= f.Length && n <= g.Length && n <= v.Length && n + 1 <= z.Length
    requires f != g && f != z && g != z
    modifies g, v, z
    ensures forall q :: 0 <= q < n ==> IsTransform(f[..n], Square(s), q, g[q])
    ensures forall q :: n <= q < g.Length ==> g[q] == old(g[q])
  {
    hide Envelope, Square;
    ghost var F := f[..n];
    var s2 := Square(s);
    var k := BuildEnvelope(f, F, n, s2, v, z);
    if k < 0 {
      for q := 0 to n
        invariant f[..n] == F
        invariant forall i :: 0 <= i < q ==> g[i] == INF_SQ
        invariant forall i :: n <= i < g.Length ==> g[i] == old(g[i])
      {
        g[q] := INF_SQ;
      }
      assert forall q :: 0 <= q < n ==> IsTransform(F, s2, q, g[q]);
      return;
    }
    ReadEnvelope(f, F, g, n, s, v, z, k);
  }
}
