/** The recursive include loader: it updates one configuration in place and keeps the set of files
    on the current include chain. */
module ConfigLoader {
  import opened Wrappers
  import opened ConfigFiles

  datatype Error =
    | Circular(path: string)
    | Missing(path: string)
    | BadLine(path: string, line: nat)
    | BadKey(path: string, key: string)
    | NoPaths

  datatype Outcome = Ok | Failed(error: Error)

  function Members(trail: seq<string>): set<string> {
    set x | x in trail
  }

  /** A chain of includes that leads to the file at fault, and the fault. */
  ghost predicate Blames<C(!new)>(w: World, apply: (C, Assign) -> Option<C>, q: seq<string>, e: Error) {
    && Walk(w, q)
    && var last := q[|q| - 1];
       match e
       case Circular(p) => p == last && p in q[..|q| - 1]
       case Missing(p) => p == last && p !in w.files
       case BadLine(p, n) => p == last && p in w.files && Parse(w.files[p]) == Bad(n)
       case BadKey(p, k) =>
         p == last && WellFormed(w, p) && exists a, c :: a in Parse(w.files[p]).own && a.key == k && apply(c, a).None?
       case NoPaths => false
  }

  ghost predicate Explained<C(!new)>(w: World, apply: (C, Assign) -> Option<C>, p: seq<string>, e: Error) {
    exists q :: p <= q && Blames(w, apply, q, e)
  }

  /** Whatever a file means, a configuration cannot take it. */
  ghost predicate Unloadable<C>(w: World, apply: (C, Assign) -> Option<C>, f: string, c: C) {
    forall n: nat :: Expand(w, f, n).Some? ==> ApplyAll(apply, c, Expand(w, f, n).value).None?
  }

  lemma CircularIsUnloadable<C>(w: World, apply: (C, Assign) -> Option<C>, trail: seq<string>, f: string, c: C)
    requires Walk(w, trail + [f]) && f in trail
    ensures Unloadable(w, apply, f, c)
  {
    hide Includes, Expand, ApplyAll;
    var i :| 0 <= i < |trail| && trail[i] == f;
    var p := trail + [f];
    var loop := p[i..];
    forall k | 0 <= k < |loop| - 1 ensures Includes(w, loop[k], loop[k + 1]) {
      assert Includes(w, p[i + k], p[i + k + 1]);
    }
    assert loop[0] == f && loop[|loop| - 1] == f;
    assert WalkFrom(w, f, loop) && Repeats(loop);
    forall n: nat ensures Expand(w, f, n).None? {
      CycleHasNoMeaning(w, f, n);
    }
  }

  lemma {:induction false} PrefixExpands(w: World, paths: seq<string>, n: nat, i: nat)
    requires ExpandAll(w, paths, n).Some? && i <= |paths|
    ensures ExpandAll(w, paths[..i], n).Some? && ExpandAll(w, paths[..i], n).value <= ExpandAll(w, paths, n).value
  {
    hide Expand;
    if i < |paths| {
      assert paths[..|paths| - 1][..i] == paths[..i];
      PrefixExpands(w, paths[..|paths| - 1], n, i);
    } else {
      assert paths[..i] == paths;
    }
  }

  lemma ExpansionAllUnique(w: World, paths: seq<string>, n: nat, m: nat)
    requires ExpandAll(w, paths, n).Some? && ExpandAll(w, paths, m).Some?
    ensures ExpandAll(w, paths, n) == ExpandAll(w, paths, m)
  {
    hide ExpandAll;
    if n <= m { MoreDepthAll(w, paths, n, m); } else { MoreDepthAll(w, paths, m, n); }
  }

  lemma PrefixRejected<C>(apply: (C, Assign) -> Option<C>, c: C, a: seq<Assign>, b: seq<Assign>)
    requires a <= b && ApplyAll(apply, c, a).None?
    ensures ApplyAll(apply, c, b).None?
  {
    hide ApplyAll;
    assert b == a + b[|a|..];
    ApplyConcat(apply, c, a, b[|a|..]);
  }

  /** The meaning of f, of depth at most n, takes the configuration from c to d. */
  ghost predicate Takes<C>(w: World, apply: (C, Assign) -> Option<C>, f: string, n: nat, c: C, d: C) {
    Expand(w, f, n).Some? && ApplyAll(apply, c, Expand(w, f, n).value) == Some(d)
  }

  ghost predicate TakesList<C>(w: World, apply: (C, Assign) -> Option<C>, paths: seq<string>, n: nat, c: C, d: C) {
    ExpandAll(w, paths, n).Some? && ApplyAll(apply, c, ExpandAll(w, paths, n).value) == Some(d)
  }

  ghost predicate UnloadableList<C>(w: World, apply: (C, Assign) -> Option<C>, paths: seq<string>, c: C) {
    forall n: nat :: ExpandAll(w, paths, n).Some? ==> ApplyAll(apply, c, ExpandAll(w, paths, n).value).None?
  }

  lemma NothingTaken<C>(w: World, apply: (C, Assign) -> Option<C>, paths: seq<string>, n: nat, c: C)
    ensures TakesList(w, apply, paths[..0], n, c, c)
  {}

  lemma OneMoreTaken<C>(w: World, apply: (C, Assign) -> Option<C>, paths: seq<string>, i: nat, n: nat, c: C, d: C, e: C)
    requires i < |paths| && TakesList(w, apply, paths[..i], n, c, d) && Takes(w, apply, w.canonical(paths[i]), n, d, e)
    ensures TakesList(w, apply, paths[..i + 1], n, c, e)
  {
    hide Expand, ApplyAll;
    assert paths[..i + 1][..i] == paths[..i];
    ApplyConcat(apply, c, ExpandAll(w, paths[..i], n).value, Expand(w, w.canonical(paths[i]), n).value);
  }

  /** When one path cannot be loaded on top of the ones before it, the list cannot. */
  lemma ListUnloadable<C>(w: World, apply: (C, Assign) -> Option<C>, c: C, paths: seq<string>, i: nat, m: nat, d: C)
    requires i < |paths| && TakesList(w, apply, paths[..i], m, c, d) && Unloadable(w, apply, w.canonical(paths[i]), d)
    ensures UnloadableList(w, apply, paths, c)
  {
    hide Expand, ApplyAll;
    forall n: nat | ExpandAll(w, paths, n).Some? ensures ApplyAll(apply, c, ExpandAll(w, paths, n).value).None? {
      PrefixExpands(w, paths, n, i);
      PrefixExpands(w, paths, n, i + 1);
      ExpansionAllUnique(w, paths[..i], n, m);
      assert paths[..i + 1][..i] == paths[..i];
      var base, next := ExpandAll(w, paths[..i], m).value, Expand(w, w.canonical(paths[i]), n).value;
      ApplyConcat(apply, c, base, next);
      PrefixRejected(apply, c, base + next, ExpandAll(w, paths, n).value);
    }
  }

  lemma IncludesUnloadable<C>(w: World, apply: (C, Assign) -> Option<C>, f: string, c: C)
    requires WellFormed(w, f) && UnloadableList(w, apply, Parse(w.files[f]).includes, c)
    ensures Unloadable(w, apply, f, c)
  {
    hide ExpandAll, ApplyAll, Parse;
    forall n: nat | Expand(w, f, n).Some? ensures ApplyAll(apply, c, Expand(w, f, n).value).None? {
      var p := Parse(w.files[f]);
      ApplyConcat(apply, c, ExpandAll(w, p.includes, n - 1).value, p.own);
    }
  }

  lemma OwnUnloadable<C>(w: World, apply: (C, Assign) -> Option<C>, f: string, m: nat, c: C, d: C)
    requires WellFormed(w, f) && TakesList(w, apply, Parse(w.files[f]).includes, m, c, d)
    requires ApplyAll(apply, d, Parse(w.files[f]).own).None?
    ensures Unloadable(w, apply, f, c)
  {
    hide ExpandAll, ApplyAll, Parse;
    forall n: nat | Expand(w, f, n).Some? ensures ApplyAll(apply, c, Expand(w, f, n).value).None? {
      var p := Parse(w.files[f]);
      ExpansionAllUnique(w, p.includes, n - 1, m);
      ApplyConcat(apply, c, ExpandAll(w, p.includes, n - 1).value, p.own);
    }
  }

  lemma OwnTaken<C>(w: World, apply: (C, Assign) -> Option<C>, f: string, n: nat, c: C, d: C, e: C)
    requires n > 0 && WellFormed(w, f) && TakesList(w, apply, Parse(w.files[f]).includes, n - 1, c, d)
    requires ApplyAll(apply, d, Parse(w.files[f]).own) == Some(e)
    ensures Takes(w, apply, f, n, c, e)
  {
    hide ExpandAll, ApplyAll, Parse;
    var p := Parse(w.files[f]);
    ApplyConcat(apply, c, ExpandAll(w, p.includes, n - 1).value, p.own);
  }

  lemma CircularExplained<C(!new)>(w: World, apply: (C, Assign) -> Option<C>, trail: seq<string>, f: string)
    requires Walk(w, trail + [f]) && f in trail
    ensures Explained(w, apply, trail + [f], Circular(f))
  {
    var q := trail + [f];
    assert q[..|q| - 1] == trail;
    assert Blames(w, apply, q, Circular(f));
  }

  lemma UnreadableExplained<C(!new)>(w: World, apply: (C, Assign) -> Option<C>, trail: seq<string>, f: string, c: C)
    requires Walk(w, trail + [f])
    ensures f !in w.files ==> Explained(w, apply, trail + [f], Missing(f))
    ensures f in w.files && Parse(w.files[f]).Bad? ==> Explained(w, apply, trail + [f], BadLine(f, Parse(w.files[f]).line))
    ensures !WellFormed(w, f) ==> Unloadable(w, apply, f, c)
  {
    hide Walk, Parse, ApplyAll;
    var q := trail + [f];
    assert q[|q| - 1] == f;
    if f !in w.files {
      assert Blames(w, apply, q, Missing(f));
    } else if Parse(w.files[f]).Bad? {
      assert Blames(w, apply, q, BadLine(f, Parse(w.files[f]).line));
    }
  }

  lemma OwnExplained<C(!new)>(w: World, apply: (C, Assign) -> Option<C>, trail: seq<string>, f: string, a: Assign)
    requires Walk(w, trail + [f]) && WellFormed(w, f) && a in Parse(w.files[f]).own
    requires exists c :: apply(c, a).None?
    ensures Explained(w, apply, trail + [f], BadKey(f, a.key))
  {
    hide Walk, Parse;
    var q := trail + [f];
    assert q[|q| - 1] == f;
    assert Blames(w, apply, q, BadKey(f, a.key));
  }

  lemma IncludeExplained<C(!new)>(w: World, apply: (C, Assign) -> Option<C>, inside: seq<string>, paths: seq<string>, e: Error)
    requires exists i :: 0 <= i < |paths| && Explained(w, apply, inside + [w.canonical(paths[i])], e)
    ensures Explained(w, apply, inside, e)
  {
    hide Blames;
    var i :| 0 <= i < |paths| && Explained(w, apply, inside + [w.canonical(paths[i])], e);
    var q :| inside + [w.canonical(paths[i])] <= q && Blames(w, apply, q, e);
    assert inside <= q;
  }

  lemma IncludesWalk(w: World, trail: seq<string>, f: string)
    requires Walk(w, trail + [f]) && WellFormed(w, f)
    ensures forall i :: 0 <= i < |Parse(w.files[f]).includes| ==> Walk(w, trail + [f] + [w.canonical(Parse(w.files[f]).includes[i])])
  {
    hide Parse;
    var incs := Parse(w.files[f]).includes;
    forall i | 0 <= i < |incs| ensures Walk(w, trail + [f] + [w.canonical(incs[i])]) {
      var g := w.canonical(incs[i]);
      assert Includes(w, f, g);
      WalkExtends(w, trail + [f], g);
    }
  }

  lemma WalkExtends(w: World, p: seq<string>, g: string)
    requires Walk(w, p) && Includes(w, p[|p| - 1], g)
    ensures Walk(w, p + [g])
  {
    hide Includes;
    var q := p + [g];
    forall i | 0 <= i < |q| - 1 ensures Includes(w, q[i], q[i + 1]) {
      if i < |p| - 1 {
        assert Includes(w, p[i], p[i + 1]);
      }
    }
  }

  lemma RoomForOne(files: set<string>, stack: set<string>, f: string)
    requires f in files && f !in stack
    ensures |files - stack| == |files - (stack + {f})| + 1
  {
    assert files - stack == (files - (stack + {f})) + {f};
  }

  // ---------------------------------------------------------------- success and failure

  /** Every file in reach is readable and well formed and none of its keys is ever rejected. */
  ghost predicate Healthy<C(!new)>(w: World, apply: (C, Assign) -> Option<C>, f: string) {
    forall g :: Reaches(w, f, g) ==>
                  WellFormed(w, g) && forall a, c :: a in Parse(w.files[g]).own ==> apply(c, a).Some?
  }

  lemma TakenIsLoadable<C>(w: World, apply: (C, Assign) -> Option<C>, paths: seq<string>, n: nat, c: C, d: C)
    requires TakesList(w, apply, paths, n, c, d)
    ensures !UnloadableList(w, apply, paths, c)
  {
    hide ExpandAll, ApplyAll;
  }

  lemma TakenHasNoCycle<C>(w: World, apply: (C, Assign) -> Option<C>, paths: seq<string>, n: nat, c: C, d: C, i: nat)
    requires TakesList(w, apply, paths, n, c, d) && i < |paths|
    ensures !CycleReachable(w, w.canonical(paths[i]))
  {
    hide ExpandAll, Expand, ApplyAll, CycleReachable;
    ExpandedIncludes(w, paths, n, i);
    if CycleReachable(w, w.canonical(paths[i])) {
      CycleHasNoMeaning(w, w.canonical(paths[i]), n);
    }
  }

  /** A failure is a fault of a file in reach, or a cycle in reach. */
  lemma FaultOrCycle<C(!new)>(w: World, apply: (C, Assign) -> Option<C>, f: string, e: Error)
    requires Explained(w, apply, [f], e)
    ensures Healthy(w, apply, f) ==> CycleReachable(w, f)
  {
    hide Walk, WellFormed, Parse;
    var q :| [f] <= q && Blames(w, apply, q, e);
    var last := q[|q| - 1];
    assert q[0] == f && WalkFrom(w, f, q);
    assert Reaches(w, f, last);
    if e.Circular? {
      var i :| 0 <= i < |q| - 1 && q[..|q| - 1][i] == e.path;
      assert q[i] == q[|q| - 1] && Repeats(q);
    } else if Healthy(w, apply, f) {
      NotWellFormed(w, last);
    }
  }

  lemma NotWellFormed(w: World, f: string)
    ensures f !in w.files || Parse(w.files[f]).Bad? ==> !WellFormed(w, f)
  {}

  class Loader<C(!new)> {
    const w: World
    const apply: (C, Assign) -> Option<C>
    var config: C
    var stack: set<string>

    constructor (w: World, apply: (C, Assign) -> Option<C>, config: C)
      ensures this.w == w && this.apply == apply && this.config == config && stack == {}
    {
      this.w, this.apply, this.config, this.stack := w, apply, config, {};
    }

    /** Files that can still nest inside the current chain. */
    ghost function Room(): nat
      reads this
    {
      |w.files.Keys - stack|
    }

    method Split(lines: seq<string>) returns (p: Parsed)
      ensures p == Parse(lines)
    {
      hide ParseLine;
      p := Good([], []);
      for i := 0 to |lines|
        invariant p == Parse(lines[..i]) && p.Good?
      {
        assert lines[..i + 1][..i] == lines[..i];
        p := Extend(p, lines[i], i + 1);
        if p.Bad? {
          FirstBadLine(lines, i + 1);
          return;
        }
      }
      assert lines[..|lines|] == lines;
    }

    method ApplyOwn(own: seq<Assign>) returns (rejected: Option<Assign>)
      modifies `config
      ensures rejected.None? ==> ApplyAll(apply, old(config), own) == Some(config)
      ensures rejected.Some? ==> ApplyAll(apply, old(config), own).None?
      ensures rejected.Some? ==> rejected.value in own && exists c :: apply(c, rejected.value).None?
    {
      for j := 0 to |own|
        invariant ApplyAll(apply, old(config), own[..j]) == Some(config)
      {
        assert own[..j + 1][..j] == own[..j];
        match apply(config, own[j])
        case None =>
          PrefixRejected(apply, old(config), own[..j + 1], own);
          return Some(own[j]);
        case Some(c) =>
          config := c;
      }
      assert own[..|own|] == own;
      rejected := None;
    }

    /** Loads a file and, before its own keys, its includes.  On success the configuration has
        taken exactly the file's meaning and the chain is as before; on failure no meaning of the
        file could be taken, and a chain of includes leads to the fault. */
    method LoadFile(path: string, ghost trail: seq<string>) returns (r: Outcome)
      requires stack == Members(trail) && Walk(w, trail + [w.canonical(path)])
      modifies this
      ensures r.Ok? ==> stack == old(stack) && Takes(w, apply, w.canonical(path), old(Room()), old(config), config)
      ensures r.Failed? ==> Unloadable(w, apply, w.canonical(path), old(config)) && Explained(w, apply, trail + [w.canonical(path)], r.error)
      decreases Room(), 0
    {
      hide Parse, Walk, Unloadable, Explained, UnloadableList, Takes, TakesList, ApplyAll;
      var f := w.canonical(path);
      if f in stack {
        CircularIsUnloadable(w, apply, trail, f, config);
        CircularExplained(w, apply, trail, f);
        return Failed(Circular(f));
      }
      UnreadableExplained(w, apply, trail, f, config);
      stack := stack + {f};
      if f !in w.files {
        return Failed(Missing(f));
      }
      var p := Split(w.files[f]);
      if p.Bad? {
        return Failed(BadLine(f, p.line));
      }
      ghost var inside := trail + [f];
      assert Members(inside) == stack;
      RoomForOne(w.files.Keys, old(stack), f);
      IncludesWalk(w, trail, f);
      r := LoadEach(p.includes, inside);
      if r.Failed? {
        IncludesUnloadable(w, apply, f, old(config));
        IncludeExplained(w, apply, inside, p.includes, r.error);
        return;
      }
      ghost var based := config;
      var rejected := ApplyOwn(p.own);
      if rejected.Some? {
        OwnUnloadable(w, apply, f, old(Room()) - 1, old(config), based);
        OwnExplained(w, apply, trail, f, rejected.value);
        return Failed(BadKey(f, rejected.value.key));
      }
      OwnTaken(w, apply, f, old(Room()), old(config), based, config);
      stack := stack - {f};
      r := Ok;
    }

    /** Loads files in order, each on top of the ones before it. */
    method LoadEach(paths: seq<string>, ghost trail: seq<string>) returns (r: Outcome)
      requires stack == Members(trail) && forall i :: 0 <= i < |paths| ==> Walk(w, trail + [w.canonical(paths[i])])
      modifies this
      ensures r.Ok? ==> stack == old(stack) && TakesList(w, apply, paths, old(Room()), old(config), config)
      ensures r.Failed? ==> UnloadableList(w, apply, paths, old(config))
      ensures r.Failed? ==> exists i :: 0 <= i < |paths| && Explained(w, apply, trail + [w.canonical(paths[i])], r.error)
      decreases Room(), 1
    {
      hide Walk, Unloadable, Explained, UnloadableList, Takes, TakesList;
      r := Ok;
      NothingTaken(w, apply, paths, Room(), config);
      for i := 0 to |paths|
        invariant r.Ok? && stack == old(stack)
        invariant TakesList(w, apply, paths[..i], old(Room()), old(config), config)
      {
        ghost var based := config;
        r := LoadFile(paths[i], trail);
        if r.Failed? {
          ListUnloadable(w, apply, old(config), paths, i, old(Room()), based);
          return;
        }
        OneMoreTaken(w, apply, paths, i, old(Room()), old(config), based, config);
      }
      assert paths[..|paths|] == paths;
    }

    /** Loads a list of configuration files into a new configuration.  Loading succeeds exactly when
        the files have a meaning that the configuration can take, and then takes it; when every file
        in reach is readable and every key accepted, it fails exactly when a cycle is in reach. */
    method LoadApp(paths: seq<string>) returns (r: Outcome)
      requires stack == {}
      modifies this
      ensures paths == [] ==> r == Failed(NoPaths)
      ensures paths != [] ==> (r.Ok? <==> !UnloadableList(w, apply, paths, old(config)))
      ensures r.Ok? ==> stack == {} && TakesList(w, apply, paths, |w.files|, old(config), config)
      ensures r.Failed? && paths != [] ==>
                exists i :: 0 <= i < |paths| && Explained(w, apply, [w.canonical(paths[i])], r.error)
      ensures paths != [] && (forall i :: 0 <= i < |paths| ==> Healthy(w, apply, w.canonical(paths[i]))) ==>
                (r.Failed? <==> exists i :: 0 <= i < |paths| && CycleReachable(w, w.canonical(paths[i])))
    {
      hide Unloadable, Explained, UnloadableList, TakesList, Healthy, CycleReachable;
      if paths == [] {
        return Failed(NoPaths);
      }
      assert w.files.Keys - stack == w.files.Keys;
      forall i | 0 <= i < |paths| ensures Walk(w, [] + [w.canonical(paths[i])]) && [] + [w.canonical(paths[i])] == [w.canonical(paths[i])] {
        assert [] + [w.canonical(paths[i])] == [w.canonical(paths[i])];
      }
      r := LoadEach(paths, []);
      if r.Ok? {
        TakenIsLoadable(w, apply, paths, |w.files|, old(config), config);
        forall i | 0 <= i < |paths| ensures !CycleReachable(w, w.canonical(paths[i])) {
          TakenHasNoCycle(w, apply, paths, |w.files|, old(config), config, i);
        }
      } else {
        ghost var i :| 0 <= i < |paths| && Explained(w, apply, [w.canonical(paths[i])], r.error);
        FaultOrCycle(w, apply, w.canonical(paths[i]), r.error);
      }
    }
  }
}
