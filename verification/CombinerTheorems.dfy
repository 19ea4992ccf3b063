/** What the combined file contains, and in which order. */
module CombinerTheorems {
  import opened Combiner

  // ---- The import graph ----

  /** Line `i` of `a`, outside type-checking blocks, imports `b`. */
  ghost predicate ImportsAt(pkg: Package, a: Name, i: nat, b: Name) {
    a in pkg && i < |pkg[a]| && ActionAt(pkg[a], i).Inline? && b in ActionAt(pkg[a], i).mods
  }

  ghost predicate Edge(pkg: Package, a: Name, b: Name) {
    exists i: nat :: ImportsAt(pkg, a, i, b)
  }

  ghost predicate IsPath(pkg: Package, p: seq<Name>) {
    p != [] && forall i | 0 <= i < |p| - 1 :: Edge(pkg, p[i], p[i + 1])
  }

  ghost predicate Reaches(pkg: Package, a: Name, b: Name) {
    exists p :: IsPath(pkg, p) && p[0] == a && p[|p| - 1] == b
  }

  ghost predicate StrictlyReaches(pkg: Package, a: Name, b: Name) {
    exists t :: Edge(pkg, a, t) && Reaches(pkg, t, b)
  }

  ghost predicate Acyclic(pkg: Package) {
    forall a :: !StrictlyReaches(pkg, a, a)
  }

  lemma ReachesSelf(pkg: Package, a: Name)
    ensures Reaches(pkg, a, a)
  {
    assert IsPath(pkg, [a]) && [a][0] == a && [a][|[a]| - 1] == a;
  }

  lemma EdgeThenReaches(pkg: Package, a: Name, b: Name, c: Name)
    requires Edge(pkg, a, b) && Reaches(pkg, b, c)
    ensures Reaches(pkg, a, c)
  {
    var p :| IsPath(pkg, p) && p[0] == b && p[|p| - 1] == c;
    var q := [a] + p;
    forall i | 0 <= i < |q| - 1 ensures Edge(pkg, q[i], q[i + 1]) {
      if i > 0 {
        assert q[i] == p[i - 1] && q[i + 1] == p[i - 1 + 1];
      }
    }
    assert IsPath(pkg, q) && q[0] == a && q[|q| - 1] == c;
  }

  lemma {:induction false} PathThenReaches(pkg: Package, p: seq<Name>, c: Name)
    requires IsPath(pkg, p) && Reaches(pkg, p[|p| - 1], c)
    ensures Reaches(pkg, p[0], c)
  {
    if |p| > 1 {
      assert Edge(pkg, p[0], p[0 + 1]);
      var q := p[1..];
      forall i | 0 <= i < |q| - 1 ensures Edge(pkg, q[i], q[i + 1]) {
        assert q[i] == p[i + 1] && q[i + 1] == p[i + 1 + 1];
      }
      PathThenReaches(pkg, q, c);
      EdgeThenReaches(pkg, p[0], q[0], c);
    }
  }

  lemma ReachesThenReaches(pkg: Package, a: Name, b: Name, c: Name)
    requires Reaches(pkg, a, b) && Reaches(pkg, b, c)
    ensures Reaches(pkg, a, c)
  {
    var p :| IsPath(pkg, p) && p[0] == a && p[|p| - 1] == b;
    PathThenReaches(pkg, p, c);
  }

  lemma {:induction false} ClosedSetHoldsPath(pkg: Package, s: set<Name>, p: seq<Name>)
    requires IsPath(pkg, p) && p[0] in s && forall x, y | x in s && Edge(pkg, x, y) :: y in s
    ensures p[|p| - 1] in s
  {
    if |p| > 1 {
      var n := |p| - 1;
      var q := p[..n];
      forall i | 0 <= i < |q| - 1 ensures Edge(pkg, q[i], q[i + 1]) {
        assert q[i] == p[i] && q[i + 1] == p[i + 1];
      }
      ClosedSetHoldsPath(pkg, s, q);
      assert Edge(pkg, p[n - 1], p[n - 1 + 1]);
    }
  }

  // ---- Which modules are read ----

  /** Everything newly seen is a module of the package whose imports were all seen. */
  ghost predicate Explored(pkg: Package, before: set<Name>, after: set<Name>) {
    forall x | x in after && x !in before :: x in pkg && forall y | Edge(pkg, x, y) :: y in after
  }

  ghost predicate ReachedFrom(pkg: Package, mods: set<Name>, before: set<Name>, after: set<Name>) {
    forall x | x in after && x !in before :: exists m | m in mods :: Reaches(pkg, m, x)
  }

  lemma {:induction false} ReadExplores(pkg: Package, path: Name, seen: set<Name>)
    ensures var r := Read(pkg, path, seen);
            path in r.seen && ReachedFrom(pkg, {path}, seen, r.seen) &&
            if r.Done? then Explored(pkg, seen, r.seen) else r.name !in pkg && Reaches(pkg, path, r.name)
    decreases pkg.Keys - seen, 0, 0
  {
    ReachesSelf(pkg, path);
    if path !in seen && path in pkg {
      assert path in pkg.Keys - seen && path !in pkg.Keys - (seen + {path});
      LinesExplore(pkg, path, 0, seen + {path});
      var r := ReadLines(pkg, path, 0, seen + {path});
      if r.Done? {
        ImportsAreSeen(pkg, path, seen, r.seen);
      }
    }
  }

  lemma ImportsAreSeen(pkg: Package, path: Name, before: set<Name>, after: set<Name>)
    requires path in pkg && Explored(pkg, before + {path}, after)
    requires forall k: nat, y | ImportsAt(pkg, path, k, y) :: y in after
    ensures Explored(pkg, before, after)
  {
    forall y | Edge(pkg, path, y) ensures y in after {
      var k: nat :| ImportsAt(pkg, path, k, y);
    }
  }

  lemma ImportsLead(pkg: Package, path: Name, i: nat)
    requires path in pkg && i < |pkg[path]| && ActionAt(pkg[path], i).Inline?
    ensures forall x, m | m in ActionAt(pkg[path], i).mods && Reaches(pkg, m, x) :: Reaches(pkg, path, x)
  {
    forall x, m | m in ActionAt(pkg[path], i).mods && Reaches(pkg, m, x) ensures Reaches(pkg, path, x) {
      assert ImportsAt(pkg, path, i, m);
      EdgeThenReaches(pkg, path, m, x);
    }
  }

  /** From line `i` on: what is newly seen was reached and explored, and every import was seen. */
  ghost predicate ExploresFrom(pkg: Package, path: Name, i: nat, before: set<Name>, r: Outcome) {
    ReachedFrom(pkg, {path}, before, r.seen) &&
    if r.Done? then
      Explored(pkg, before, r.seen) && forall k: nat, y | k >= i && ImportsAt(pkg, path, k, y) :: y in r.seen
    else r.name !in pkg && Reaches(pkg, path, r.name)
  }

  lemma {:induction false} LinesExplore(pkg: Package, path: Name, i: nat, seen: set<Name>)
    requires path in pkg && i <= |pkg[path]| && path in seen
    ensures ExploresFrom(pkg, path, i, seen, ReadLines(pkg, path, i, seen))
    decreases pkg.Keys - seen, 3, |pkg[path]| - i
  {
    if i < |pkg[path]| {
      LineExplores(pkg, path, i, seen);
      var line := ReadLine(pkg, path, i, seen);
      if line.Done? {
        LinesExplore(pkg, path, i + 1, line.seen);
        ExploreThen(pkg, path, i, seen, line, ReadLines(pkg, path, i + 1, line.seen));
      }
    }
  }

  lemma ExploreThen(pkg: Package, path: Name, i: nat, before: set<Name>, line: Outcome, rest: Outcome)
    requires line.Done? && before <= line.seen <= rest.seen
    requires ReachedFrom(pkg, {path}, before, line.seen) && Explored(pkg, before, line.seen)
    requires forall y | ImportsAt(pkg, path, i, y) :: y in line.seen
    requires ExploresFrom(pkg, path, i + 1, line.seen, rest)
    ensures ExploresFrom(pkg, path, i, before, Then(line.out, rest))
  {
  }

  lemma {:induction false} LineExplores(pkg: Package, path: Name, i: nat, seen: set<Name>)
    requires path in pkg && i < |pkg[path]| && path in seen
    ensures var r := ReadLine(pkg, path, i, seen);
            ReachedFrom(pkg, {path}, seen, r.seen) &&
            if r.Done? then Explored(pkg, seen, r.seen) && forall y | ImportsAt(pkg, path, i, y) :: y in r.seen
            else r.name !in pkg && Reaches(pkg, path, r.name)
    decreases pkg.Keys - seen, 2, 0
  {
    var act := ActionAt(pkg[path], i);
    if act.Inline? {
      AllExplore(pkg, act.mods, pkg[path][i].indent, seen);
      ImportsLead(pkg, path, i);
    }
  }

  lemma {:induction false} AllExplore(pkg: Package, mods: seq<Name>, indent: string, seen: set<Name>)
    ensures var r := InlineAll(pkg, mods, indent, seen);
            ReachedFrom(pkg, (set m | m in mods), seen, r.seen) &&
            if r.Done? then Explored(pkg, seen, r.seen) && forall m | m in mods :: m in r.seen
            else r.name !in pkg && exists m | m in mods :: Reaches(pkg, m, r.name)
    decreases pkg.Keys - seen, 1, |mods|
  {
    if mods != [] {
      ReadExplores(pkg, mods[0], seen);
      var first := Read(pkg, mods[0], seen);
      if first.Done? {
        AllExplore(pkg, mods[1..], indent, first.seen);
        assert mods == [mods[0]] + mods[1..];
      }
    }
  }

  /** The modules read are exactly those reachable through imports outside type-checking blocks, cycles or not. */
  lemma {:induction false} ReadsExactlyReachable(pkg: Package, root: Name)
    requires Read(pkg, root, {}).Done?
    ensures forall x :: x in Read(pkg, root, {}).seen <==> Reaches(pkg, root, x)
  {
    ReadExplores(pkg, root, {});
    var seen := Read(pkg, root, {}).seen;
    forall x | Reaches(pkg, root, x) ensures x in seen {
      var p :| IsPath(pkg, p) && p[0] == root && p[|p| - 1] == x;
      ClosedSetHoldsPath(pkg, seen, p);
    }
  }

  /** Combining succeeds exactly when every reachable module exists. */
  lemma {:induction false} SucceedsExactlyWhenComplete(pkg: Package, root: Name)
    ensures Read(pkg, root, {}).Done? <==> forall x | Reaches(pkg, root, x) :: x in pkg
  {
    ReadExplores(pkg, root, {});
    if Read(pkg, root, {}).Done? {
      ReadsExactlyReachable(pkg, root);
    }
  }

  // ---- Exactly once ----

  /** The lines of one module in the output: line number and the names cleaned from it. */
  ghost function Own(out: seq<Emitted>, m: Name): seq<(nat, set<Name>)> {
    if out == [] then [] else OwnOf(out[0], m) + Own(out[1..], m)
  }

  ghost function OwnOf(e: Emitted, m: Name): seq<(nat, set<Name>)> {
    if e.mod == m then [(e.at, e.names)] else []
  }

  /** The lines a module emits from line `i` on, by itself. */
  ghost function OwnLines(pkg: Package, m: Name, i: nat): seq<(nat, set<Name>)>
    decreases if m in pkg then |pkg[m]| - i else 0
  {
    if m !in pkg || i >= |pkg[m]| then [] else OwnLine(pkg, m, i) + OwnLines(pkg, m, i + 1)
  }

  ghost function OwnLine(pkg: Package, m: Name, i: nat): seq<(nat, set<Name>)>
    requires m in pkg && i < |pkg[m]|
  {
    if ActionAt(pkg[m], i).Emit? then [(i, ScanAt(pkg[m], i).names)] else []
  }

  lemma {:induction false} OwnConcat(a: seq<Emitted>, b: seq<Emitted>, m: Name)
    ensures Own(a + b, m) == Own(a, m) + Own(b, m)
  {
    if a == [] {
      assert a + b == b;
    } else {
      OwnConcat(a[1..], b, m);
      assert (a + b)[1..] == a[1..] + b && (a + b)[0] == a[0];
      Associate(OwnOf(a[0], m), Own(a[1..], m), Own(b, m));
    }
  }

  lemma Associate<T>(a: seq<T>, b: seq<T>, c: seq<T>)
    ensures a + (b + c) == a + b + c
  {
  }

  lemma {:induction false} OwnReindent(es: seq<Emitted>, indent: string, m: Name)
    ensures Own(Reindent(es, indent), m) == Own(es, m)
  {
    if es != [] {
      OwnReindent(es[1..], indent, m);
      assert Reindent(es, indent)[1..] == Reindent(es[1..], indent);
    }
  }

  /** Newly seen modules are emitted once and whole, other modules not at all. */
  ghost predicate EmitsNew(pkg: Package, before: set<Name>, r: Outcome, m: Name) {
    r.Done? ==> Own(r.out, m) == if m in r.seen && m !in before then OwnLines(pkg, m, 0) else []
  }

  lemma {:induction false} ReadEmitsNew(pkg: Package, path: Name, seen: set<Name>, m: Name)
    ensures EmitsNew(pkg, seen, Read(pkg, path, seen), m)
    decreases pkg.Keys - seen, 0, 0
  {
    if path !in seen && path in pkg {
      assert path in pkg.Keys - seen && path !in pkg.Keys - (seen + {path});
      LinesEmitNew(pkg, path, 0, seen + {path}, m);
    }
  }

  lemma {:induction false} LinesEmitNew(pkg: Package, path: Name, i: nat, seen: set<Name>, m: Name)
    requires path in pkg && i <= |pkg[path]| && path in seen
    ensures EmitsRest(pkg, path, i, seen, ReadLines(pkg, path, i, seen), m)
    decreases pkg.Keys - seen, 3, |pkg[path]| - i
  {
    if i < |pkg[path]| {
      LineEmitsNew(pkg, path, i, seen, m);
      var line := ReadLine(pkg, path, i, seen);
      if line.Done? {
        LinesEmitNew(pkg, path, i + 1, line.seen, m);
        EmitThen(pkg, path, i, seen, line, ReadLines(pkg, path, i + 1, line.seen), m);
      }
    }
  }

  lemma {:induction false} EmitThen(pkg: Package, path: Name, i: nat, before: set<Name>,
                                    line: Outcome, rest: Outcome, m: Name)
    requires path in pkg && i < |pkg[path]| && line.Done? && before <= line.seen <= rest.seen
    requires if m == path then Own(line.out, m) == OwnLine(pkg, m, i) else EmitsNew(pkg, before, line, m)
    requires EmitsRest(pkg, path, i + 1, line.seen, rest, m)
    ensures EmitsRest(pkg, path, i, before, Then(line.out, rest), m)
  {
    OwnThen(line.out, rest, m);
  }

  lemma {:induction false} LineEmitsNew(pkg: Package, path: Name, i: nat, seen: set<Name>, m: Name)
    requires path in pkg && i < |pkg[path]| && path in seen
    ensures var r := ReadLine(pkg, path, i, seen);
            if m == path then r.Done? ==> Own(r.out, m) == OwnLine(pkg, m, i) else EmitsNew(pkg, seen, r, m)
    decreases pkg.Keys - seen, 2, 0
  {
    var act := ActionAt(pkg[path], i);
    if act.Inline? {
      AllEmitNew(pkg, act.mods, pkg[path][i].indent, seen, m);
    }
  }

  /** From line `i` on, `path` emits its own remaining lines, and newly seen modules once and whole. */
  ghost predicate EmitsRest(pkg: Package, path: Name, i: nat, before: set<Name>, r: Outcome, m: Name) {
    if m == path then r.Done? ==> Own(r.out, m) == OwnLines(pkg, m, i) else EmitsNew(pkg, before, r, m)
  }

  lemma {:induction false} OwnThen(first: seq<Emitted>, rest: Outcome, m: Name)
    ensures rest.Done? ==> Own(Then(first, rest).out, m) == Own(first, m) + Own(rest.out, m)
  {
    if rest.Done? {
      OwnConcat(first, rest.out, m);
    }
  }

  lemma {:induction false} AllEmitNew(pkg: Package, mods: seq<Name>, indent: string, seen: set<Name>, m: Name)
    ensures EmitsNew(pkg, seen, InlineAll(pkg, mods, indent, seen), m)
    decreases pkg.Keys - seen, 1, |mods|
  {
    if mods != [] {
      ReadEmitsNew(pkg, mods[0], seen, m);
      var first := Read(pkg, mods[0], seen);
      if first.Done? {
        AllEmitNew(pkg, mods[1..], indent, first.seen, m);
        OwnReindent(first.out, indent, m);
        OwnThen(Reindent(first.out, indent), InlineAll(pkg, mods[1..], indent, first.seen), m);
      }
    }
  }

  /** Each reachable module's own lines appear exactly once, in order and cleaned alike; nothing else appears. */
  lemma {:induction false} EmitsEachReachableModuleOnce(pkg: Package, root: Name, m: Name)
    requires Read(pkg, root, {}).Done?
    ensures Own(Read(pkg, root, {}).out, m) == if Reaches(pkg, root, m) then OwnLines(pkg, m, 0) else []
  {
    ReadEmitsNew(pkg, root, {}, m);
    ReadsExactlyReachable(pkg, root);
  }
}
