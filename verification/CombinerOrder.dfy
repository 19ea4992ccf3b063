/** The combined file is in dependency order. */
module CombinerOrder {
  import opened Basics
  import opened Combiner
  import opened CombinerTheorems

  ghost predicate EmitsAt(pkg: Package, m: Name, k: nat) {
    m in pkg && k < |pkg[m]| && ActionAt(pkg[m], k).Emit?
  }

  /** Line `k` of `m` is among the first `q` output lines. */
  ghost predicate LineBefore(out: seq<Emitted>, q: nat, m: Name, k: nat) {
    exists p: nat :: p < q && p < |out| && out[p].mod == m && out[p].at == k
  }

  /** All lines of `m` are among the first `q` output lines. */
  ghost predicate Before(pkg: Package, out: seq<Emitted>, q: nat, m: Name) {
    forall k: nat | EmitsAt(pkg, m, k) :: LineBefore(out, q, m, k)
  }

  lemma {:induction false} OwnLinesInclude(pkg: Package, m: Name, i: nat, k: nat)
    requires EmitsAt(pkg, m, k) && i <= k
    ensures exists e | e in OwnLines(pkg, m, i) :: e.0 == k
    decreases k - i
  {
    if i == k {
      assert OwnLines(pkg, m, i)[0].0 == k;
    } else {
      OwnLinesInclude(pkg, m, i + 1, k);
      var e :| e in OwnLines(pkg, m, i + 1) && e.0 == k;
      assert e in OwnLines(pkg, m, i);
    }
  }

  lemma {:induction false} OwnIsInOutput(out: seq<Emitted>, m: Name, e: (nat, set<Name>))
    requires e in Own(out, m)
    ensures LineBefore(out, |out|, m, e.0)
  {
    if out[0].mod == m && (out[0].at, out[0].names) == e {
      assert LineBefore(out, |out|, m, e.0);
    } else {
      OwnIsInOutput(out[1..], m, e);
      var p: nat :| p < |out[1..]| && out[1..][p].mod == m && out[1..][p].at == e.0;
      assert out[p + 1].mod == m && out[p + 1].at == e.0;
    }
  }

  lemma {:induction false} WholeIsBefore(pkg: Package, out: seq<Emitted>, m: Name)
    requires Own(out, m) == OwnLines(pkg, m, 0)
    ensures Before(pkg, out, |out|, m)
  {
    forall k: nat | EmitsAt(pkg, m, k) ensures LineBefore(out, |out|, m, k) {
      OwnLinesInclude(pkg, m, 0, k);
      var e :| e in OwnLines(pkg, m, 0) && e.0 == k;
      OwnIsInOutput(out, m, e);
    }
  }

  /** Whatever line `q` comes after importing is in `done` or was written out whole before it. */
  ghost predicate OrderedAt(pkg: Package, out: seq<Emitted>, done: set<Name>, q: nat)
    requires q < |out|
  {
    forall i: nat, b, c | i < out[q].at && ImportsAt(pkg, out[q].mod, i, b) && Reaches(pkg, b, c) ::
      c in done || Before(pkg, out, q, c)
  }

  ghost predicate Ordered(pkg: Package, out: seq<Emitted>, done: set<Name>) {
    forall q: nat | q < |out| :: OrderedAt(pkg, out, done, q)
  }

  /** `a` emits a line after an import that leads back to `a`. */
  ghost predicate LoopsBack(pkg: Package, a: Name) {
    exists i: nat, b, k: nat :: ImportsAt(pkg, a, i, b) && Reaches(pkg, b, a) && i < k && EmitsAt(pkg, a, k)
  }

  ghost predicate Straight(pkg: Package, root: Name) {
    forall a | Reaches(pkg, root, a) :: !LoopsBack(pkg, a)
  }

  lemma BeforeMore(pkg: Package, a: seq<Emitted>, b: seq<Emitted>, p: nat, q: nat, m: Name)
    requires p <= |a| && p <= q && Before(pkg, a, p, m)
    ensures Before(pkg, a + b, q, m)
  {
    forall k: nat | EmitsAt(pkg, m, k) ensures LineBefore(a + b, q, m, k) {
      assert LineBefore(a, p, m, k);
      var r: nat :| r < p && r < |a| && a[r].mod == m && a[r].at == k;
      assert (a + b)[r] == a[r];
    }
  }

  lemma BeforeBehind(pkg: Package, a: seq<Emitted>, b: seq<Emitted>, q: nat, m: Name)
    requires Before(pkg, b, q, m)
    ensures Before(pkg, a + b, |a| + q, m)
  {
    forall k: nat | EmitsAt(pkg, m, k) ensures LineBefore(a + b, |a| + q, m, k) {
      assert LineBefore(b, q, m, k);
      var r: nat :| r < q && r < |b| && b[r].mod == m && b[r].at == k;
      assert (a + b)[|a| + r] == b[r];
    }
  }

  lemma OrderedInFront(pkg: Package, a: seq<Emitted>, b: seq<Emitted>, done: set<Name>, q: nat)
    requires q < |a| && OrderedAt(pkg, a, done, q)
    ensures OrderedAt(pkg, a + b, done, q)
  {
    assert (a + b)[q] == a[q];
    forall i: nat, x, c | i < a[q].at && ImportsAt(pkg, a[q].mod, i, x) && Reaches(pkg, x, c)
      ensures c in done || Before(pkg, a + b, q, c)
    {
      if c !in done {
        BeforeMore(pkg, a, b, q, q, c);
      }
    }
  }

  lemma OrderedBehind(pkg: Package, a: seq<Emitted>, b: seq<Emitted>, done: set<Name>, later: set<Name>, q: nat)
    requires q < |b| && OrderedAt(pkg, b, later, q)
    requires forall c | c in later && c !in done :: Before(pkg, a, |a|, c)
    ensures OrderedAt(pkg, a + b, done, |a| + q)
  {
    assert (a + b)[|a| + q] == b[q];
    forall i: nat, x, c | i < b[q].at && ImportsAt(pkg, b[q].mod, i, x) && Reaches(pkg, x, c)
      ensures c in done || Before(pkg, a + b, |a| + q, c)
    {
      if c !in done && c in later {
        BeforeMore(pkg, a, b, |a|, |a| + q, c);
      } else if c !in done {
        BeforeBehind(pkg, a, b, q, c);
      }
    }
  }

  lemma OrderedThen(pkg: Package, a: seq<Emitted>, b: seq<Emitted>, done: set<Name>, later: set<Name>)
    requires Ordered(pkg, a, done) && Ordered(pkg, b, later)
    requires forall c | c in later && c !in done :: Before(pkg, a, |a|, c)
    ensures Ordered(pkg, a + b, done)
  {
    forall q: nat | q < |a + b| ensures OrderedAt(pkg, a + b, done, q) {
      if q < |a| {
        OrderedInFront(pkg, a, b, done, q);
      } else {
        OrderedBehind(pkg, a, b, done, later, q - |a|);
      }
    }
  }

  lemma {:induction false} BeforeReindent(pkg: Package, es: seq<Emitted>, indent: string, q: nat, m: Name)
    requires Before(pkg, es, q, m)
    ensures Before(pkg, Reindent(es, indent), q, m)
  {
    forall k: nat | EmitsAt(pkg, m, k) ensures LineBefore(Reindent(es, indent), q, m, k) {
      assert LineBefore(es, q, m, k);
      var r: nat :| r < q && r < |es| && es[r].mod == m && es[r].at == k;
      assert Reindent(es, indent)[r] == Shift(es[r], indent);
    }
  }

  lemma {:induction false} OrderedReindent(pkg: Package, es: seq<Emitted>, indent: string, done: set<Name>)
    requires Ordered(pkg, es, done)
    ensures Ordered(pkg, Reindent(es, indent), done)
  {
    var out := Reindent(es, indent);
    forall q: nat | q < |out| ensures OrderedAt(pkg, out, done, q) {
      assert OrderedAt(pkg, es, done, q) && out[q] == Shift(es[q], indent);
      forall i: nat, b, c | i < out[q].at && ImportsAt(pkg, out[q].mod, i, b) && Reaches(pkg, b, c)
        ensures c in done || Before(pkg, out, q, c)
      {
        if c !in done {
          BeforeReindent(pkg, es, indent, q, c);
        }
      }
    }
  }

  // ---- The depth-first search: modules entered and not yet left are on the stack ----

  /** What a finished module imports was entered. */
  ghost predicate ClosedBut(pkg: Package, seen: set<Name>, stack: set<Name>) {
    forall x, y | x in seen && x !in stack && Edge(pkg, x, y) :: y in seen
  }

  ghost predicate LeadTo(pkg: Package, stack: set<Name>, path: Name) {
    forall s | s in stack :: Reaches(pkg, s, path)
  }

  ghost predicate Searched(pkg: Package, before: set<Name>, stack: set<Name>, r: Outcome) {
    r.Done? ==> ClosedBut(pkg, r.seen, stack) && Ordered(pkg, r.out, before - stack)
  }

  lemma {:induction false} EscapesOnlyThroughStack(pkg: Package, seen: set<Name>, stack: set<Name>, p: seq<Name>)
    requires ClosedBut(pkg, seen, stack) && IsPath(pkg, p) && p[0] in seen
    requires forall s | s in stack :: !Reaches(pkg, p[0], s)
    ensures p[|p| - 1] in seen - stack
  {
    ReachesSelf(pkg, p[0]);
    if |p| > 1 {
      assert Edge(pkg, p[0], p[0 + 1]);
      var q := p[1..];
      forall i | 0 <= i < |q| - 1 ensures Edge(pkg, q[i], q[i + 1]) {
        assert q[i] == p[i + 1] && q[i + 1] == p[i + 1 + 1];
      }
      forall s | s in stack ensures !Reaches(pkg, q[0], s) {
        if Reaches(pkg, q[0], s) {
          EdgeThenReaches(pkg, p[0], q[0], s);
        }
      }
      EscapesOnlyThroughStack(pkg, seen, stack, q);
    }
  }

  /** A line of a module that does not loop back comes after everything it imported. */
  lemma OwnLineIsOrdered(pkg: Package, path: Name, i: nat, seen: set<Name>, stack: set<Name>)
    requires EmitsAt(pkg, path, i) && !LoopsBack(pkg, path)
    requires ClosedBut(pkg, seen, stack) && LeadTo(pkg, stack, path)
    requires forall k: nat, b | k < i && ImportsAt(pkg, path, k, b) :: b in seen
    ensures Ordered(pkg, [Plain(pkg[path], path, i)], seen - stack)
  {
    var out := [Plain(pkg[path], path, i)];
    forall k: nat, b, c | k < i && ImportsAt(pkg, path, k, b) && Reaches(pkg, b, c) ensures c in seen - stack {
      forall s | s in stack ensures !Reaches(pkg, b, s) {
        if Reaches(pkg, b, s) {
          ReachesThenReaches(pkg, b, s, path);
        }
      }
      var p :| IsPath(pkg, p) && p[0] == b && p[|p| - 1] == c;
      EscapesOnlyThroughStack(pkg, seen, stack, p);
    }
    assert OrderedAt(pkg, out, seen - stack, 0);
  }

  ghost predicate NewAreWhole(pkg: Package, before: set<Name>, stack: set<Name>, r: Outcome) {
    forall m | m !in stack :: EmitsNew(pkg, before, r, m)
  }

  /** One piece of output after another. */
  lemma SearchedThen(pkg: Package, before: set<Name>, stack: set<Name>, first: Outcome, rest: Outcome)
    requires first.Done? && before <= first.seen <= rest.seen
    requires Searched(pkg, before, stack, first) && Searched(pkg, first.seen, stack, rest)
    requires NewAreWhole(pkg, before, stack, first)
    ensures Searched(pkg, before, stack, Then(first.out, rest))
  {
    if rest.Done? {
      forall c | c in first.seen - stack && c !in before - stack ensures Before(pkg, first.out, |first.out|, c) {
        assert EmitsNew(pkg, before, first, c);
        WholeIsBefore(pkg, first.out, c);
      }
      OrderedThen(pkg, first.out, rest.out, before - stack, first.seen - stack);
    }
  }

  lemma {:induction false} ReadOrdered(pkg: Package, root: Name, path: Name, seen: set<Name>, stack: set<Name>)
    requires Straight(pkg, root) && Reaches(pkg, root, path)
    requires stack <= seen && LeadTo(pkg, stack, path) && ClosedBut(pkg, seen, stack)
    ensures Searched(pkg, seen, stack, Read(pkg, path, seen))
    decreases pkg.Keys - seen, 0, 0
  {
    if path !in seen && path in pkg {
      assert path in pkg.Keys - seen && path !in pkg.Keys - (seen + {path});
      ReachesSelf(pkg, path);
      LinesOrdered(pkg, root, path, 0, seen + {path}, stack + {path});
      assert (seen + {path}) - (stack + {path}) == seen - stack;
      LinesExplore(pkg, path, 0, seen + {path});
      LeaveStack(pkg, path, stack, Read(pkg, path, seen));
    }
  }

  lemma LeaveStack(pkg: Package, path: Name, stack: set<Name>, r: Outcome)
    requires r.Done? ==> ClosedBut(pkg, r.seen, stack + {path})
    requires r.Done? ==> forall k: nat, y | ImportsAt(pkg, path, k, y) :: y in r.seen
    ensures r.Done? ==> ClosedBut(pkg, r.seen, stack)
  {
    forall y | r.Done? && Edge(pkg, path, y) ensures y in r.seen {
      var k: nat :| ImportsAt(pkg, path, k, y);
    }
  }

  ghost predicate ImportsSeen(pkg: Package, path: Name, i: nat, seen: set<Name>) {
    forall k: nat, y | k < i && ImportsAt(pkg, path, k, y) :: y in seen
  }

  lemma {:induction false} LinesOrdered(pkg: Package, root: Name, path: Name, i: nat, seen: set<Name>, stack: set<Name>)
    requires path in pkg && i <= |pkg[path]| && Straight(pkg, root) && Reaches(pkg, root, path)
    requires path in stack && stack <= seen && LeadTo(pkg, stack, path) && ClosedBut(pkg, seen, stack)
    requires ImportsSeen(pkg, path, i, seen)
    ensures Searched(pkg, seen, stack, ReadLines(pkg, path, i, seen))
    decreases pkg.Keys - seen, 3, |pkg[path]| - i
  {
    if i < |pkg[path]| {
      LineOrdered(pkg, root, path, i, seen, stack);
      var line := ReadLine(pkg, path, i, seen);
      if line.Done? {
        LineExplores(pkg, path, i, seen);
        LinesOrdered(pkg, root, path, i + 1, line.seen, stack);
        LineIsNew(pkg, path, i, seen, stack);
        SearchedThen(pkg, seen, stack, line, ReadLines(pkg, path, i + 1, line.seen));
      }
    }
  }

  lemma {:induction false} LineOrdered(pkg: Package, root: Name, path: Name, i: nat, seen: set<Name>, stack: set<Name>)
    requires path in pkg && i < |pkg[path]| && Straight(pkg, root) && Reaches(pkg, root, path)
    requires path in stack && stack <= seen && LeadTo(pkg, stack, path) && ClosedBut(pkg, seen, stack)
    requires ImportsSeen(pkg, path, i, seen)
    ensures Searched(pkg, seen, stack, ReadLine(pkg, path, i, seen))
    decreases pkg.Keys - seen, 2, 0
  {
    match ActionAt(pkg[path], i)
    case Drop =>
    case Emit =>
      OwnLineIsOrdered(pkg, path, i, seen, stack);
    case Inline(mods) =>
      ImportsLeadOn(pkg, root, path, i, stack);
      AllOrdered(pkg, root, mods, pkg[path][i].indent, seen, stack);
  }

  lemma {:induction false} LineIsNew(pkg: Package, path: Name, i: nat, seen: set<Name>, stack: set<Name>)
    requires path in pkg && i < |pkg[path]| && path in stack && stack <= seen
    ensures NewAreWhole(pkg, seen, stack, ReadLine(pkg, path, i, seen))
  {
    var line := ReadLine(pkg, path, i, seen);
    forall m | m !in stack ensures EmitsNew(pkg, seen, line, m) {
      LineEmitsNew(pkg, path, i, seen, m);
    }
  }

  lemma ImportsLeadOn(pkg: Package, root: Name, path: Name, i: nat, stack: set<Name>)
    requires path in pkg && i < |pkg[path]| && ActionAt(pkg[path], i).Inline?
    requires Reaches(pkg, root, path) && LeadTo(pkg, stack, path)
    ensures forall m | m in ActionAt(pkg[path], i).mods :: Reaches(pkg, root, m) && LeadTo(pkg, stack, m)
  {
    forall m | m in ActionAt(pkg[path], i).mods ensures Reaches(pkg, root, m) && LeadTo(pkg, stack, m) {
      assert ImportsAt(pkg, path, i, m);
      ReachesSelf(pkg, m);
      EdgeThenReaches(pkg, path, m, m);
      ReachesThenReaches(pkg, root, path, m);
      forall s | s in stack ensures Reaches(pkg, s, m) {
        ReachesThenReaches(pkg, s, path, m);
      }
    }
  }

  lemma {:induction false} AllOrdered(pkg: Package, root: Name, mods: seq<Name>, indent: string,
                                      seen: set<Name>, stack: set<Name>)
    requires Straight(pkg, root) && stack <= seen && ClosedBut(pkg, seen, stack)
    requires forall m | m in mods :: Reaches(pkg, root, m) && LeadTo(pkg, stack, m)
    ensures Searched(pkg, seen, stack, InlineAll(pkg, mods, indent, seen))
    decreases pkg.Keys - seen, 1, |mods|
  {
    if mods != [] {
      ReadOrdered(pkg, root, mods[0], seen, stack);
      var first := Read(pkg, mods[0], seen);
      if first.Done? {
        AllOrdered(pkg, root, mods[1..], indent, first.seen, stack);
        IndentedFirst(pkg, mods[0], indent, seen, stack);
        SearchedThen(pkg, seen, stack, first.(out := Reindent(first.out, indent)),
                     InlineAll(pkg, mods[1..], indent, first.seen));
      }
    }
  }

  lemma {:induction false} IndentedFirst(pkg: Package, path: Name, indent: string, seen: set<Name>, stack: set<Name>)
    requires Read(pkg, path, seen).Done? && Searched(pkg, seen, stack, Read(pkg, path, seen))
    ensures var first := Read(pkg, path, seen);
            var indented := first.(out := Reindent(first.out, indent));
            Searched(pkg, seen, stack, indented) && NewAreWhole(pkg, seen, stack, indented)
  {
    var first := Read(pkg, path, seen);
    OrderedReindent(pkg, first.out, indent, seen - stack);
    forall m ensures EmitsNew(pkg, seen, first.(out := Reindent(first.out, indent)), m) {
      ReadEmitsNew(pkg, path, seen, m);
      OwnReindent(first.out, indent, m);
    }
  }

  lemma {:induction false} NothingPrecedesItself(pkg: Package, out: seq<Emitted>, i: nat, b: Name, q: nat)
    requires q < |out| && Ordered(pkg, out, {}) && i < out[q].at && EmitsAt(pkg, out[q].mod, out[q].at)
    requires ImportsAt(pkg, out[q].mod, i, b)
    ensures !Reaches(pkg, b, out[q].mod)
    decreases q
  {
    assert OrderedAt(pkg, out, {}, q);
    if Before(pkg, out, q, out[q].mod) {
      assert LineBefore(out, q, out[q].mod, out[q].at);
      var p: nat :| p < q && p < |out| && out[p].mod == out[q].mod && out[p].at == out[q].at;
      NothingPrecedesItself(pkg, out, i, b, p);
    }
  }

  lemma {:induction false} OrderedIsStraight(pkg: Package, root: Name)
    requires Read(pkg, root, {}).Done? && Ordered(pkg, Read(pkg, root, {}).out, {})
    ensures Straight(pkg, root)
  {
    var out := Read(pkg, root, {}).out;
    forall a | Reaches(pkg, root, a) ensures !LoopsBack(pkg, a) {
      if LoopsBack(pkg, a) {
        var i: nat, b, k: nat :| ImportsAt(pkg, a, i, b) && Reaches(pkg, b, a) && i < k && EmitsAt(pkg, a, k);
        EmitsEachReachableModuleOnce(pkg, root, a);
        WholeIsBefore(pkg, out, a);
        assert LineBefore(out, |out|, a, k);
        var q: nat :| q < |out| && out[q].mod == a && out[q].at == k;
        NothingPrecedesItself(pkg, out, i, b, q);
      }
    }
  }

  /**
   The combined file is in dependency order (every line comes after all lines of everything its module
   imported above it) exactly when no module has a line below an import that leads back to that module.
   */
  lemma {:induction false} OrderedExactlyWhenStraight(pkg: Package, root: Name)
    requires Read(pkg, root, {}).Done?
    ensures Ordered(pkg, Read(pkg, root, {}).out, {}) <==> Straight(pkg, root)
  {
    if Straight(pkg, root) {
      ReachesSelf(pkg, root);
      ReadOrdered(pkg, root, root, {}, {});
      var none: set<Name> := {};
      assert none - none == none;
    }
    if Ordered(pkg, Read(pkg, root, {}).out, {}) {
      OrderedIsStraight(pkg, root);
    }
  }

  /** An acyclic import graph is combined in dependency order. */
  lemma {:induction false} AcyclicIsOrdered(pkg: Package, root: Name, q: nat, i: nat, b: Name, c: Name)
    requires Acyclic(pkg) && Read(pkg, root, {}).Done? && q < |Read(pkg, root, {}).out|
    requires i < Read(pkg, root, {}).out[q].at && ImportsAt(pkg, Read(pkg, root, {}).out[q].mod, i, b)
    requires Reaches(pkg, b, c)
    ensures Before(pkg, Read(pkg, root, {}).out, q, c)
  {
    forall a | Reaches(pkg, root, a) ensures !LoopsBack(pkg, a) {
      forall k: nat, x | ImportsAt(pkg, a, k, x) ensures !Reaches(pkg, x, a) {
        assert Edge(pkg, a, x) && !StrictlyReaches(pkg, a, a);
      }
    }
    OrderedExactlyWhenStraight(pkg, root);
    assert OrderedAt(pkg, Read(pkg, root, {}).out, {}, q);
  }

  // ---- A cycle out of order ----

  /** `from .<other> import x`, and a line of code below it. */
  function ImportThenCode(other: Name): seq<Line> {
    [Line(false, "", false, false, false, Some(Relative(other, false, ["x"])), Some(["x"])),
     Line(false, "", false, false, false, None, Some(["y"]))]
  }

  lemma ImportThenCodeActs(other: Name)
    requires other != ""
    ensures ActionAt(ImportThenCode(other), 0) == Inline([other]) && ActionAt(ImportThenCode(other), 1) == Emit
  {
    var lines := ImportThenCode(other);
    assert ScanAt(lines, 0) == START;
    assert ScanAt(lines, 1) == START.(from := other, names := {} + Named([other]));
  }

  /** Two modules that import each other, each with a line below its import, cannot be put in order. */
  lemma MutualImportsAreUnordered() returns (pkg: Package)
    ensures pkg == map["a" := ImportThenCode("b"), "b" := ImportThenCode("a")]
    ensures Read(pkg, "a", {}).Done? && !Straight(pkg, "a") && !Ordered(pkg, Read(pkg, "a", {}).out, {})
  {
    pkg := map["a" := ImportThenCode("b"), "b" := ImportThenCode("a")];
    ImportThenCodeActs("a");
    ImportThenCodeActs("b");
    assert ImportsAt(pkg, "a", 0, "b") && ImportsAt(pkg, "b", 0, "a") && EmitsAt(pkg, "a", 1);
    ReachesSelf(pkg, "a");
    EdgeThenReaches(pkg, "b", "a", "a");
    assert LoopsBack(pkg, "a");
    forall x | Reaches(pkg, "a", x) ensures x in pkg {
      var p :| IsPath(pkg, p) && p[0] == "a" && p[|p| - 1] == x;
      ClosedSetHoldsPath(pkg, pkg.Keys, p);
    }
    SucceedsExactlyWhenComplete(pkg, "a");
    OrderedExactlyWhenStraight(pkg, "a");
  }
}
