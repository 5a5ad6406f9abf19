/** A dense vector of keyed values with an index from key to position. */
module KeyedVector {
  import opened Grid

  datatype Keyed<T> = Keyed(key: Key, value: T)

  /** Vector and index are in one-to-one agreement. */
  ghost predicate IndexOk<T>(cells: seq<Keyed<T>>, index: map<Key, nat>) {
    && (forall i :: 0 <= i < |cells| ==> cells[i].key in index && index[cells[i].key] == i)
    && (forall k :: k in index ==> index[k] < |cells| && cells[index[k]].key == k)
  }

  ghost function Contents<T>(cells: seq<Keyed<T>>, index: map<Key, nat>): map<Key, T>
    requires IndexOk(cells, index)
  {
    map k | k in index :: cells[index[k]].value
  }

  lemma PushPuts<T>(cells: seq<Keyed<T>>, index: map<Key, nat>, k: Key, v: T)
    requires IndexOk(cells, index) && k !in index
    ensures IndexOk(cells + [Keyed(k, v)], index[k := |cells|])
    ensures Contents(cells + [Keyed(k, v)], index[k := |cells|]) == Contents(cells, index)[k := v]
  {}

  lemma RewritePuts<T>(cells: seq<Keyed<T>>, index: map<Key, nat>, k: Key, v: T)
    requires IndexOk(cells, index) && k in index
    ensures IndexOk(cells[index[k] := Keyed(k, v)], index)
    ensures Contents(cells[index[k] := Keyed(k, v)], index) == Contents(cells, index)[k := v]
  {}

  /** The vector after the last cell has been moved into position idx and popped. */
  function SwapPop<T>(cells: seq<Keyed<T>>, idx: nat): seq<Keyed<T>>
    requires idx < |cells|
  {
    cells[idx := cells[|cells| - 1]][..|cells| - 1]
  }

  /** Swap-and-pop removal takes exactly one key out of the map and re-points the moved cell. */
  lemma SwapPopRemoves<T>(cells: seq<Keyed<T>>, index: map<Key, nat>, k: Key)
    requires IndexOk(cells, index) && k in index
    ensures index[k] < |cells| && (cells[|cells| - 1].key == k <==> index[k] == |cells| - 1)
    ensures cells[|cells| - 1].key in index
    ensures var moved := cells[|cells| - 1].key;
            var index' := (if moved == k then index else index[moved := index[k]]) - {k};
            && IndexOk(SwapPop(cells, index[k]), index')
            && Contents(SwapPop(cells, index[k]), index') == Contents(cells, index) - {k}
  {
    var idx, last := index[k], |cells| - 1;
    var moved := cells[last].key;
    var cells' := SwapPop(cells, idx);
    var index' := (if moved == k then index else index[moved := idx]) - {k};
    assert moved != k ==> idx != last;
    forall i | 0 <= i < |cells'|
      ensures cells'[i].key in index' && index'[cells'[i].key] == i
    {
      assert index[cells[i].key] == i && index[moved] == last;
    }
    forall j | j in index'
      ensures index'[j] < |cells'| && cells'[index'[j]].key == j
    {
      assert cells[index[j]].key == j;
    }
  }

  lemma MissingKey<T>(cells: seq<Keyed<T>>, index: map<Key, nat>, k: Key)
    requires IndexOk(cells, index) && k !in index
    ensures Contents(cells, index) - {k} == Contents(cells, index)
  {}

  /** Total weight of a vector. */
  function Sum<T>(cells: seq<Keyed<T>>, w: T -> nat): nat {
    if cells == [] then 0 else Sum(cells[..|cells| - 1], w) + w(cells[|cells| - 1].value)
  }

  lemma SumNone<T>(cells: seq<Keyed<T>>, w: T -> nat)
    ensures Sum(cells[..0], w) == 0
  {}

  lemma SumPush<T>(cells: seq<Keyed<T>>, k: Key, v: T, w: T -> nat)
    ensures Sum(cells + [Keyed(k, v)], w) == Sum(cells, w) + w(v)
  {
    assert (cells + [Keyed(k, v)])[..|cells|] == cells;
  }

  lemma {:induction false} SumRewrite<T>(cells: seq<Keyed<T>>, i: nat, x: Keyed<T>, w: T -> nat)
    requires i < |cells|
    ensures Sum(cells[i := x], w) + w(cells[i].value) == Sum(cells, w) + w(x.value)
  {
    var n := |cells| - 1;
    if i == n {
      assert cells[i := x][..n] == cells[..n];
    } else {
      assert cells[i := x][..n] == cells[..n][i := x];
      SumRewrite(cells[..n], i, x, w);
    }
  }

  lemma SumNext<T>(cells: seq<Keyed<T>>, i: nat, w: T -> nat)
    requires i < |cells|
    ensures Sum(cells[..i + 1], w) == Sum(cells[..i], w) + w(cells[i].value)
  {
    assert cells[..i + 1] == cells[..i] + [Keyed(cells[i].key, cells[i].value)];
    SumPush(cells[..i], cells[i].key, cells[i].value, w);
  }

  /** Weights that agree cell by cell give the same total. */
  lemma {:induction false} SumPointwise<T>(a: seq<Keyed<T>>, b: seq<Keyed<T>>, w: T -> nat)
    requires |a| == |b| && forall i :: 0 <= i < |a| ==> w(a[i].value) == w(b[i].value)
    ensures Sum(a, w) == Sum(b, w)
  {
    if a != [] {
      SumPointwise(a[..|a| - 1], b[..|b| - 1], w);
    }
  }

  lemma DropLast<T>(cells: seq<Keyed<T>>, index: map<Key, nat>)
    requires IndexOk(cells, index) && cells != []
    ensures var n := |cells| - 1;
            && IndexOk(cells[..n], index - {cells[n].key})
            && Contents(cells[..n], index - {cells[n].key}) == Contents(cells, index) - {cells[n].key}
            && cells[n].key in Contents(cells, index) && Contents(cells, index)[cells[n].key] == cells[n].value
  {}

  /** An index has one key for each position. */
  lemma {:induction false} IndexSize<T>(cells: seq<Keyed<T>>, index: map<Key, nat>)
    requires IndexOk(cells, index)
    ensures |index.Keys| == |cells|
    decreases |cells|
  {
    if cells == [] {
      assert index.Keys == {};
    } else {
      var n := |cells| - 1;
      var k := cells[n].key;
      var rest := index - {k};
      DropLast(cells, index);
      IndexSize(cells[..n], rest);
      assert index.Keys == rest.Keys + {k};
    }
  }
}
