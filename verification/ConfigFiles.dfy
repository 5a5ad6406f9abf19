/** Configuration files: their lines, what a file with its includes means, and the include graph. */
module ConfigFiles {
  import opened Wrappers

  // ---------------------------------------------------------------- lines

  predicate Space(c: char) {
    c == ' ' || ('\t' <= c <= '\r')
  }

  function TrimLeft(s: string): string {
    if s != "" && Space(s[0]) then TrimLeft(s[1..]) else s
  }

  function TrimRight(s: string): string {
    if s != "" && Space(s[|s| - 1]) then TrimRight(s[..|s| - 1]) else s
  }

  function Trim(s: string): string {
    TrimRight(TrimLeft(s))
  }

  function StripQuotes(s: string): string {
    if |s| >= 2 && s[0] == s[|s| - 1] && (s[0] == '"' || s[0] == '\'') then s[1..|s| - 1] else s
  }

  /** Length of the part of s before the first c; all of s when there is none. */
  function Before(s: string, c: char): (n: nat)
    ensures n <= |s| && (n < |s| ==> s[n] == c)
    ensures forall i :: 0 <= i < n ==> s[i] != c
  {
    if s == "" || s[0] == c then 0 else 1 + Before(s[1..], c)
  }

  datatype Assign = Assign(key: string, value: string)
  datatype Line = Blank | Malformed | Include(path: string) | Own(assign: Assign)

  function ParseLine(raw: string): Line {
    var line := Trim(raw[..Before(raw, '#')]);
    var colon := Before(line, ':');
    if line == "" then Blank
    else if colon == |line| then Malformed
    else
      var key, value := Trim(line[..colon]), StripQuotes(Trim(line[colon + 1..]));
      if key == "" || value == "" then Malformed
      else if key == "include" then Include(value)
      else Own(Assign(key, value))
  }

  ghost predicate Lacks(s: string, c: char) {
    forall i :: 0 <= i < |s| ==> s[i] != c
  }

  ghost predicate PlainKey(k: string) {
    k != "" && Lacks(k, '#') && Lacks(k, ':') && !Space(k[0]) && !Space(k[|k| - 1])
  }

  lemma TrimKeeps(s: string)
    requires s != "" ==> !Space(s[0]) && !Space(s[|s| - 1])
    ensures Trim(s) == s
  {}

  lemma BeforeIs(s: string, c: char, n: nat)
    requires n <= |s| && Lacks(s[..n], c) && (n < |s| ==> s[n] == c)
    ensures Before(s, c) == n
  {
    assert forall i :: 0 <= i < n ==> s[..n][i] == s[i];
  }

  /** A quoted assignment reads back as written: spaces, colons and quotes in the value survive. */
  lemma LineRoundTrip(k: string, v: string)
    requires PlainKey(k) && v != "" && Lacks(v, '#')
    ensures ParseLine(k + ": \"" + v + "\"") == (if k == "include" then Include(v) else Own(Assign(k, v)))
  {
    hide Trim, Before;
    var raw := k + ": \"" + v + "\"";
    var quoted := "\"" + v + "\"";
    assert raw == k + ":" + " " + quoted;
    assert raw[..|raw|] == raw;
    BeforeIs(raw, '#', |raw|);
    TrimKeeps(raw);
    assert raw[..|k|] == k && raw[|k|] == ':';
    BeforeIs(raw, ':', |k|);
    TrimKeeps(k);
    assert raw[|k| + 1..] == " " + quoted;
    TrimOneSpace(quoted);
    assert quoted[1..|quoted| - 1] == v;
  }

  lemma TrimOneSpace(s: string)
    requires s != "" && !Space(s[0]) && !Space(s[|s| - 1])
    ensures Trim(" " + s) == s
  {
    assert (" " + s)[1..] == s && Space((" " + s)[0]);
    assert TrimLeft(" " + s) == TrimLeft(s);
  }

  ghost predicate Blanks(s: string) {
    forall i :: 0 <= i < |s| ==> Space(s[i])
  }

  ghost predicate Tight(s: string) {
    s != "" ==> !Space(s[0]) && !Space(s[|s| - 1])
  }

  lemma {:induction false} TrimLeftDrops(a: string, s: string)
    requires Blanks(a) && (s != "" ==> !Space(s[0]))
    ensures TrimLeft(a + s) == s
  {
    if a == "" {
      assert a + s == s;
    } else {
      assert (a + s)[1..] == a[1..] + s;
      TrimLeftDrops(a[1..], s);
    }
  }

  lemma {:induction false} TrimRightDrops(s: string, b: string)
    requires Blanks(b) && (s != "" ==> !Space(s[|s| - 1]))
    ensures TrimRight(s + b) == s
  {
    if b == "" {
      assert s + b == s;
    } else {
      var n := |b| - 1;
      assert (s + b)[..|s + b| - 1] == s + b[..n];
      TrimRightDrops(s, b[..n]);
    }
  }

  /** Trimming takes off exactly the blanks around a text. */
  lemma TrimDrops(a: string, s: string, b: string)
    requires Blanks(a) && Blanks(b) && Tight(s)
    ensures Trim(a + s + b) == s
  {
    if s == "" {
      assert a + s + b == (a + b) + "";
      TrimLeftDrops(a + b, "");
      TrimRightDrops("", "");
    } else {
      assert a + s + b == a + (s + b);
      TrimLeftDrops(a, s + b);
      TrimRightDrops(s, b);
    }
  }

  ghost predicate Comment(s: string) {
    s == "" || s[0] == '#'
  }

  lemma BlanksLack(s: string)
    requires Blanks(s)
    ensures Lacks(s, '#') && Lacks(s, ':')
  {}

  /** What is left of a line before its comment. */
  lemma CommentDropped(text: string, comment: string)
    requires Lacks(text, '#') && Comment(comment)
    ensures (text + comment)[..Before(text + comment, '#')] == text
  {
    assert (text + comment)[..|text|] == text;
    BeforeIs(text + comment, '#', |text|);
  }

  /** A line of blanks, or of a comment, says nothing. */
  lemma BlankLine(blanks: string, comment: string)
    requires Blanks(blanks) && Comment(comment)
    ensures ParseLine(blanks + comment) == Blank
  {
    BlanksLack(blanks);
    CommentDropped(blanks, comment);
    TrimDrops(blanks, "", "");
    assert blanks + "" + "" == blanks;
  }

  /** A line without a colon is malformed. */
  lemma NoColonIsMalformed(a: string, text: string, b: string, comment: string)
    requires Blanks(a) && Blanks(b) && Comment(comment) && text != "" && Tight(text) && Lacks(text, '#') && Lacks(text, ':')
    ensures ParseLine(a + text + b + comment) == Malformed
  {
    hide Trim, Before;
    BlanksLack(a);
    BlanksLack(b);
    CommentDropped(a + text + b, comment);
    TrimDrops(a, text, b);
    assert text[..|text|] == text;
    BeforeIs(text, ':', |text|);
  }

  /** Every well-formed line reads back: blanks around key and value and a comment at the end are
      dropped, one pair of matching quotes is taken off the value, and an empty key or value is
      malformed. */
  lemma LineReadsBack(a: string, k: string, b: string, c: string, v: string, d: string, comment: string)
    requires Blanks(a) && Blanks(b) && Blanks(c) && Blanks(d) && Comment(comment)
    requires Tight(k) && Tight(v) && Lacks(k, '#') && Lacks(k, ':') && Lacks(v, '#')
    ensures var quoted := |v| >= 2 && v[0] == v[|v| - 1] && v[0] in {'"', '\''};
            var value := if quoted then v[1..|v| - 1] else v;
            ParseLine(a + k + b + ":" + c + v + d + comment) ==
            if k == "" || value == "" then Malformed else if k == "include" then Include(value) else Own(Assign(k, value))
  {
    hide Trim, Before, ParseLine, Blanks, Lacks;
    var text := a + k + b + ":" + c + v + d;
    TextLacksHash(a, k, b, c, v, d);
    CommentDropped(text, comment);
    var left, right := (if k == "" then "" else k + b), (if v == "" then "" else c + v);
    TrimmedLine(a, k, b, c, v, d, left, right);
    KeySide(k, b, left);
    ValueSide(c, v, right);
    ParsesAs(text + comment, left, right, k, v);
  }

  lemma TextLacksHash(a: string, k: string, b: string, c: string, v: string, d: string)
    requires Blanks(a) && Blanks(b) && Blanks(c) && Blanks(d) && Lacks(k, '#') && Lacks(v, '#')
    ensures Lacks(a + k + b + ":" + c + v + d, '#')
  {}

  lemma KeySide(k: string, b: string, left: string)
    requires Tight(k) && Blanks(b) && Lacks(k, ':') && left == if k == "" then "" else k + b
    ensures Trim(left) == k && Lacks(left, ':')
  {
    hide Trim;
    if k == "" {
      TrimDrops("", "", "");
      assert "" + "" + "" == "";
    } else {
      TrimDrops("", k, b);
      assert "" + k + b == left;
    }
  }

  lemma ValueSide(c: string, v: string, right: string)
    requires Tight(v) && Blanks(c) && right == if v == "" then "" else c + v
    ensures Trim(right) == v
  {
    hide Trim;
    if v == "" {
      TrimDrops("", "", "");
      assert "" + "" + "" == "";
    } else {
      TrimDrops(c, v, "");
      assert c + v + "" == right;
    }
  }

  /** The colon is never blank, so a trimmed line starts with its key, if any, and ends with its
      value, if any. */
  lemma TrimmedLine(a: string, k: string, b: string, c: string, v: string, d: string, left: string, right: string)
    requires Blanks(a) && Blanks(b) && Blanks(c) && Blanks(d) && Tight(k) && Tight(v)
    requires left == (if k == "" then "" else k + b) && right == (if v == "" then "" else c + v)
    ensures Trim(a + k + b + ":" + c + v + d) == left + ":" + right
  {
    hide Trim, Tight, Blanks;
    var front, back := (if k == "" then a + b else a), (if v == "" then c + d else d);
    assert a + k + b == front + left by {
      if k == "" { assert a + "" + b == (a + b) + ""; } else { assert a + k + b == a + (k + b); }
    }
    assert c + v + d == right + back by {
      if v == "" { assert c + "" + d == "" + (c + d); }
    }
    Regroup(a, k, b, c, v, d, left, right, front, back);
    TightLine(left, right, k, b, c, v);
    BlanksJoin(a, b);
    BlanksJoin(c, d);
    TrimDrops(front, left + ":" + right, back);
  }

  lemma BlanksJoin(a: string, b: string)
    requires Blanks(a) && Blanks(b)
    ensures Blanks(a + b)
  {}

  lemma Regroup(a: string, k: string, b: string, c: string, v: string, d: string, left: string, right: string, front: string, back: string)
    requires a + k + b == front + left && c + v + d == right + back
    ensures a + k + b + ":" + c + v + d == front + (left + ":" + right) + back
  {
    assert a + k + b + ":" + c + v + d == (a + k + b) + ":" + (c + v + d);
    assert (front + left) + ":" + (right + back) == front + (left + ":" + right) + back;
  }

  lemma TightLine(left: string, right: string, k: string, b: string, c: string, v: string)
    requires Tight(k) && Tight(v)
    requires left == (if k == "" then "" else k + b) && right == (if v == "" then "" else c + v)
    ensures Tight(left + ":" + right)
  {
    var line := left + ":" + right;
    assert line[|line| - 1] == if v == "" then ':' else v[|v| - 1];
    assert line[0] == if k == "" then ':' else k[0];
  }

  lemma ParsesAs(raw: string, left: string, right: string, k: string, v: string)
    requires Trim(raw[..Before(raw, '#')]) == left + ":" + right
    requires Lacks(left, ':') && Trim(left) == k && Trim(right) == v
    ensures var quoted := |v| >= 2 && v[0] == v[|v| - 1] && v[0] in {'"', '\''};
            var value := if quoted then v[1..|v| - 1] else v;
            ParseLine(raw) ==
            if k == "" || value == "" then Malformed else if k == "include" then Include(value) else Own(Assign(k, value))
  {
    hide Trim, Before;
    var line := left + ":" + right;
    assert line[..|left|] == left && line[|left|] == ':' && line[|left| + 1..] == right;
    BeforeIs(line, ':', |left|);
  }

  // ---------------------------------------------------------------- files

  datatype Parsed = Bad(line: nat) | Good(includes: seq<string>, own: seq<Assign>)

  function Extend(p: Parsed, raw: string, number: nat): Parsed {
    if p.Bad? then p
    else
      match ParseLine(raw)
      case Blank => p
      case Malformed => Bad(number)
      case Include(path) => p.(includes := p.includes + [path])
      case Own(a) => p.(own := p.own + [a])
  }

  /** The lines of a file, split into includes and own keys, up to the first malformed line. */
  function Parse(lines: seq<string>): Parsed {
    if lines == [] then Good([], []) else Extend(Parse(lines[..|lines| - 1]), lines[|lines| - 1], |lines|)
  }

  lemma {:induction false} FirstBadLine(lines: seq<string>, n: nat)
    requires n <= |lines| && Parse(lines[..n]).Bad?
    ensures Parse(lines) == Parse(lines[..n])
  {
    hide ParseLine;
    if n < |lines| {
      assert lines[..|lines| - 1][..n] == lines[..n];
      FirstBadLine(lines[..|lines| - 1], n);
    } else {
      assert lines[..n] == lines;
    }
  }

  /** Reading from the top: the first line goes before what the rest of the file says, so includes and
      keys keep their order and the first malformed line is the one reported. */
  lemma {:induction false} ParseFromTop(lines: seq<string>)
    requires lines != []
    ensures var first, rest := ParseLine(lines[0]), Parse(lines[1..]);
            Parse(lines) ==
            match first
            case Malformed => Bad(1)
            case Blank => if rest.Bad? then Bad(rest.line + 1) else rest
            case Include(path) => if rest.Bad? then Bad(rest.line + 1) else Good([path] + rest.includes, rest.own)
            case Own(a) => if rest.Bad? then Bad(rest.line + 1) else Good(rest.includes, [a] + rest.own)
  {
    hide ParseLine;
    var n := |lines| - 1;
    if n == 0 {
      assert lines[..0] == [] && lines[1..] == [];
    } else {
      ParseFromTop(lines[..n]);
      assert lines[..n][1..] == lines[1..][..n - 1];
    }
  }

  /** The file system: contents by canonical name, and the canonical name of a path as written. */
  datatype World = World(files: map<string, seq<string>>, canonical: string -> string)

  predicate WellFormed(w: World, f: string) {
    f in w.files && Parse(w.files[f]).Good?
  }

  /** What a file means: its includes' meanings in order, then its own keys.  None when a file is
      missing or malformed, or the includes nest n deep or more. */
  function Expand(w: World, f: string, n: nat): Option<seq<Assign>>
    decreases n, 0
  {
    if n == 0 || !WellFormed(w, f) then None
    else
      var p := Parse(w.files[f]);
      match ExpandAll(w, p.includes, n - 1)
      case None => None
      case Some(base) => Some(base + p.own)
  }

  function ExpandAll(w: World, paths: seq<string>, n: nat): Option<seq<Assign>>
    decreases n, |paths|
  {
    if paths == [] then Some([])
    else
      var i := |paths| - 1;
      match ExpandAll(w, paths[..i], n)
      case None => None
      case Some(a) =>
        match Expand(w, w.canonical(paths[i]), n)
        case None => None
        case Some(b) => Some(a + b)
  }

  lemma {:induction false} MoreDepth(w: World, f: string, n: nat, m: nat)
    requires n <= m && Expand(w, f, n).Some?
    ensures Expand(w, f, m) == Expand(w, f, n)
    decreases n, 0
  {
    hide Parse;
    MoreDepthAll(w, Parse(w.files[f]).includes, n - 1, m - 1);
  }

  lemma {:induction false} MoreDepthAll(w: World, paths: seq<string>, n: nat, m: nat)
    requires n <= m && ExpandAll(w, paths, n).Some?
    ensures ExpandAll(w, paths, m) == ExpandAll(w, paths, n)
    decreases n, |paths|
  {
    hide WellFormed, Parse;
    if paths != [] {
      var i := |paths| - 1;
      MoreDepthAll(w, paths[..i], n, m);
      MoreDepth(w, w.canonical(paths[i]), n, m);
    }
  }

  /** A meaning does not depend on the depth that was allowed for it. */
  lemma ExpansionUnique(w: World, f: string, n: nat, m: nat)
    requires Expand(w, f, n).Some? && Expand(w, f, m).Some?
    ensures Expand(w, f, n) == Expand(w, f, m)
  {
    hide Expand;
    if n <= m { MoreDepth(w, f, n, m); } else { MoreDepth(w, f, m, n); }
  }

  // ---------------------------------------------------------------- the include graph

  predicate Includes(w: World, f: string, g: string) {
    WellFormed(w, f) && exists i :: 0 <= i < |Parse(w.files[f]).includes| && w.canonical(Parse(w.files[f]).includes[i]) == g
  }

  /** A chain of includes. */
  ghost predicate Walk(w: World, p: seq<string>) {
    p != [] && forall i :: 0 <= i < |p| - 1 ==> Includes(w, p[i], p[i + 1])
  }

  ghost predicate WalkFrom(w: World, f: string, p: seq<string>) {
    Walk(w, p) && p[0] == f
  }

  ghost predicate Reaches(w: World, f: string, g: string) {
    exists p :: WalkFrom(w, f, p) && p[|p| - 1] == g
  }

  ghost predicate Repeats(p: seq<string>) {
    exists i, j :: 0 <= i < j < |p| && p[i] == p[j]
  }

  ghost predicate CycleReachable(w: World, f: string) {
    exists p :: WalkFrom(w, f, p) && Repeats(p)
  }

  lemma {:induction false} ExpandedIncludes(w: World, paths: seq<string>, n: nat, i: nat)
    requires ExpandAll(w, paths, n).Some? && i < |paths|
    ensures Expand(w, w.canonical(paths[i]), n).Some?
  {
    hide Expand;
    if i < |paths| - 1 {
      ExpandedIncludes(w, paths[..|paths| - 1], n, i);
    }
  }

  lemma ExpandedInclude(w: World, f: string, n: nat, g: string)
    requires Expand(w, f, n).Some? && Includes(w, f, g)
    ensures n > 0 && Expand(w, g, n - 1).Some?
  {
    hide ExpandAll, Parse;
    var incs := Parse(w.files[f]).includes;
    var i :| 0 <= i < |incs| && w.canonical(incs[i]) == g;
    ExpandedIncludes(w, incs, n - 1, i);
  }

  /** A file with a meaning of depth n has only chains of at most n files, all well formed. */
  lemma {:induction false} MeaningBoundsWalks(w: World, f: string, n: nat, p: seq<string>)
    requires Expand(w, f, n).Some? && WalkFrom(w, f, p)
    ensures |p| <= n && WellFormed(w, p[|p| - 1])
    decreases |p|
  {
    hide Includes, WellFormed;
    if |p| > 1 {
      assert Includes(w, p[0], p[1]);
      ExpandedInclude(w, f, n, p[1]);
      assert WalkFrom(w, p[1], p[1..]) by {
        forall i | 0 <= i < |p[1..]| - 1 ensures Includes(w, p[1..][i], p[1..][i + 1]) {
          assert Includes(w, p[i + 1], p[i + 2]);
        }
      }
      MeaningBoundsWalks(w, p[1], n - 1, p[1..]);
    } else {
      assert p[0] == f;
    }
  }

  /** Going once more round a repeated file gives a longer chain that still repeats. */
  lemma LongerLoop(w: World, p: seq<string>, i: nat, j: nat) returns (q: seq<string>)
    requires Walk(w, p) && i < j < |p| && p[i] == p[j]
    ensures WalkFrom(w, p[0], q) && |q| > |p| && Repeats(q)
  {
    hide Includes;
    q := p[..j] + p[i..];
    forall k | 0 <= k < |q| - 1 ensures Includes(w, q[k], q[k + 1]) {
      if k < j - 1 {
        assert Includes(w, p[k], p[k + 1]);
      } else if k == j - 1 {
        assert Includes(w, p[k], p[k + 1]);
      } else {
        assert q[k] == p[k - j + i] && q[k + 1] == p[k - j + i + 1];
        assert Includes(w, p[k - j + i], p[k - j + i + 1]);
      }
    }
    assert q[i] == p[i] && q[j] == p[i];
  }

  /** A file from which a cycle can be reached means nothing. */
  lemma CycleHasNoMeaning(w: World, f: string, n: nat)
    requires CycleReachable(w, f)
    ensures Expand(w, f, n).None?
  {
    hide Expand, Walk, Repeats;
    if Expand(w, f, n).Some? {
      var p :| WalkFrom(w, f, p) && Repeats(p);
      var q := UnboundedWalk(w, f, p, n + 1);
      MeaningBoundsWalks(w, f, n, q);
    }
  }

  lemma {:induction false} UnboundedWalk(w: World, f: string, p: seq<string>, n: nat) returns (q: seq<string>)
    requires WalkFrom(w, f, p) && Repeats(p)
    ensures WalkFrom(w, f, q) && |q| >= n && Repeats(q)
    decreases n - |p|
  {
    hide Includes, Walk;
    if |p| >= n {
      q := p;
    } else {
      var i, j :| 0 <= i < j < |p| && p[i] == p[j];
      var longer := LongerLoop(w, p, i, j);
      q := UnboundedWalk(w, f, longer, n);
    }
  }

  lemma TwoIncludes(w: World, x: string, y: string, n: nat, a: seq<Assign>, b: seq<Assign>)
    requires Expand(w, w.canonical(x), n) == Some(a) && Expand(w, w.canonical(y), n) == Some(b)
    ensures ExpandAll(w, [x], n) == Some(a) && ExpandAll(w, [x, y], n) == Some(a + b)
  {
    hide Expand;
    assert [x][..0] == [] && [x, y][..1] == [x] && [] + a == a;
  }

  /** A file included along two chains is no cycle; it is applied once per chain. */
  lemma DiamondIsAccepted(w: World, top: string, left: string, right: string, shared: string,
                          a: seq<Assign>, b: seq<Assign>, c: seq<Assign>, d: seq<Assign>)
    requires WellFormed(w, top) && Parse(w.files[top]) == Good([left, right], a)
    requires WellFormed(w, w.canonical(left)) && Parse(w.files[w.canonical(left)]) == Good([shared], b)
    requires WellFormed(w, w.canonical(right)) && Parse(w.files[w.canonical(right)]) == Good([shared], c)
    requires WellFormed(w, w.canonical(shared)) && Parse(w.files[w.canonical(shared)]) == Good([], d)
    ensures Expand(w, top, 3) == Some(((d + b) + (d + c)) + a)
    ensures !CycleReachable(w, top)
  {
    hide Parse, CycleReachable;
    assert Expand(w, w.canonical(shared), 1) == Some(d) by { assert [] + d == d; }
    TwoIncludes(w, shared, shared, 1, d, d);
    assert Expand(w, w.canonical(left), 2) == Some(d + b);
    assert Expand(w, w.canonical(right), 2) == Some(d + c);
    TwoIncludes(w, left, right, 2, d + b, d + c);
    if CycleReachable(w, top) {
      CycleHasNoMeaning(w, top, 3);
    }
  }

  // ---------------------------------------------------------------- applying

  /** Applies assignments in order; None when one is rejected. */
  function ApplyAll<C>(apply: (C, Assign) -> Option<C>, c: C, a: seq<Assign>): Option<C> {
    if a == [] then Some(c)
    else
      match ApplyAll(apply, c, a[..|a| - 1])
      case None => None
      case Some(d) => apply(d, a[|a| - 1])
  }

  lemma {:induction false} ApplyConcat<C>(apply: (C, Assign) -> Option<C>, c: C, a: seq<Assign>, b: seq<Assign>)
    ensures ApplyAll(apply, c, a + b) ==
            (match ApplyAll(apply, c, a) case None => None case Some(d) => ApplyAll(apply, d, b))
  {
    if b == [] {
      assert a + b == a;
    } else {
      var n := |b| - 1;
      assert (a + b)[..|a + b| - 1] == a + b[..n];
      ApplyConcat(apply, c, a, b[..n]);
    }
  }

  function PutKey(c: map<string, string>, a: Assign): Option<map<string, string>> {
    Some(c[a.key := a.value])
  }

  /** The last assignment of each key decides, so own keys override includes and later files
      override earlier ones. */
  lemma {:induction false} LastAssignmentWins(c: map<string, string>, a: seq<Assign>, i: nat)
    requires i < |a| && forall j :: i < j < |a| ==> a[j].key != a[i].key
    ensures ApplyAll(PutKey, c, a).Some?
    ensures a[i].key in ApplyAll(PutKey, c, a).value && ApplyAll(PutKey, c, a).value[a[i].key] == a[i].value
  {
    var n := |a| - 1;
    PutAlwaysSucceeds(c, a[..n]);
    if i < n {
      LastAssignmentWins(c, a[..n], i);
    }
  }

  lemma {:induction false} PutAlwaysSucceeds(c: map<string, string>, a: seq<Assign>)
    ensures ApplyAll(PutKey, c, a).Some?
  {
    if a != [] {
      PutAlwaysSucceeds(c, a[..|a| - 1]);
    }
  }
}
