/** Inlined modules keep their relative indentation. */
module CombinerIndents {
  import opened Combiner
  import opened CombinerTheorems

  /** A chain of imports: the line of each and the module it names. */
  type Route = seq<(nat, Name)>

  ghost predicate LeadsTo(pkg: Package, a: Name, route: Route, b: Name)
    decreases |route|
  {
    if route == [] then a == b
    else ImportsAt(pkg, a, route[0].0, route[0].1) && LeadsTo(pkg, route[0].1, route[1..], b)
  }

  ghost function RouteIndent(pkg: Package, a: Name, route: Route, b: Name): string
    requires LeadsTo(pkg, a, route, b)
    decreases |route|
  {
    if route == [] then "" else pkg[a][route[0].0].indent + RouteIndent(pkg, route[0].1, route[1..], b)
  }

  ghost predicate IndentedBy(out: seq<Emitted>, m: Name, w: string) {
    forall p | 0 <= p < |out| && out[p].mod == m && !out[p].blank :: out[p].indent == w
  }

  /** All non-blank lines of `m` stand behind `w` and the indents of one import route from `path`. */
  ghost predicate RouteIndented(pkg: Package, out: seq<Emitted>, path: Name, w: string, m: Name) {
    exists route :: LeadsTo(pkg, path, route, m) && IndentedBy(out, m, w + RouteIndent(pkg, path, route, m))
  }

  lemma {:induction false} NotEmitted(out: seq<Emitted>, m: Name)
    requires Own(out, m) == []
    ensures forall p | 0 <= p < |out| :: out[p].mod != m
  {
    if out != [] {
      NotEmitted(out[1..], m);
      assert out == [out[0]] + out[1..];
    }
  }

  lemma IndentThen(first: seq<Emitted>, rest: seq<Emitted>, m: Name, w: string)
    requires IndentedBy(first, m, w) && IndentedBy(rest, m, w)
    ensures IndentedBy(first + rest, m, w)
  {
    forall p | 0 <= p < |first + rest| && (first + rest)[p].mod == m && !(first + rest)[p].blank
      ensures (first + rest)[p].indent == w
    {
      if p >= |first| {
        assert (first + rest)[p] == rest[p - |first|];
      }
    }
  }

  /** `m` appears in at most one of two pieces, so the whole is indented like that piece. */
  lemma {:induction false} RouteIndentThen(pkg: Package, first: seq<Emitted>, rest: seq<Emitted>,
                                           path: Name, w: string, m: Name)
    requires (RouteIndented(pkg, first, path, w, m) && Own(rest, m) == [])
          || (Own(first, m) == [] && RouteIndented(pkg, rest, path, w, m))
    ensures RouteIndented(pkg, first + rest, path, w, m)
  {
    var one := if Own(rest, m) == [] && RouteIndented(pkg, first, path, w, m) then first else rest;
    var route :| LeadsTo(pkg, path, route, m) && IndentedBy(one, m, w + RouteIndent(pkg, path, route, m));
    NotEmitted(if one == first then rest else first, m);
    IndentThen(first, rest, m, w + RouteIndent(pkg, path, route, m));
  }

  lemma {:induction false} IndentShift(pkg: Package, es: seq<Emitted>, path: Name, indent: string, m: Name)
    requires RouteIndented(pkg, es, path, "", m)
    ensures RouteIndented(pkg, Reindent(es, indent), path, indent, m)
  {
    var route :| LeadsTo(pkg, path, route, m) && IndentedBy(es, m, "" + RouteIndent(pkg, path, route, m));
    var w := RouteIndent(pkg, path, route, m);
    assert "" + w == w;
    forall p | 0 <= p < |es| && es[p].mod == m && !es[p].blank ensures Reindent(es, indent)[p].indent == indent + w {
      assert es[p].indent == w;
    }
  }

  lemma RouteThroughImport(pkg: Package, out: seq<Emitted>, path: Name, i: nat, x: Name, m: Name)
    requires ImportsAt(pkg, path, i, x) && RouteIndented(pkg, out, x, pkg[path][i].indent, m)
    ensures RouteIndented(pkg, out, path, "", m)
  {
    var indent := pkg[path][i].indent;
    var route :| LeadsTo(pkg, x, route, m) && IndentedBy(out, m, indent + RouteIndent(pkg, x, route, m));
    var longer := [(i, x)] + route;
    assert longer[1..] == route;
    assert LeadsTo(pkg, path, longer, m);
    assert "" + RouteIndent(pkg, path, longer, m) == indent + RouteIndent(pkg, x, route, m);
  }

  ghost predicate New(r: Outcome, before: set<Name>, m: Name) {
    r.Done? && m in r.seen && m !in before
  }

  lemma {:induction false} ReadIndents(pkg: Package, path: Name, seen: set<Name>, m: Name)
    requires New(Read(pkg, path, seen), seen, m)
    ensures RouteIndented(pkg, Read(pkg, path, seen).out, path, "", m)
    decreases pkg.Keys - seen, 0, 0
  {
    assert path in pkg.Keys - seen && path !in pkg.Keys - (seen + {path});
    LinesIndent(pkg, path, 0, seen + {path}, m);
    if m == path {
      assert LeadsTo(pkg, path, [], m) && "" + RouteIndent(pkg, path, [], m) == "";
    }
  }

  /** `path`'s own lines are not shifted, those of newly seen modules by a route from `path`. */
  ghost predicate Indented(pkg: Package, path: Name, before: set<Name>, r: Outcome, m: Name) {
    r.Done? ==>
      if m == path then IndentedBy(r.out, m, "")
      else m in r.seen && m !in before ==> RouteIndented(pkg, r.out, path, "", m)
  }

  lemma {:induction false} LinesIndent(pkg: Package, path: Name, i: nat, seen: set<Name>, m: Name)
    requires path in pkg && i <= |pkg[path]| && path in seen
    ensures Indented(pkg, path, seen, ReadLines(pkg, path, i, seen), m)
    decreases pkg.Keys - seen, 3, |pkg[path]| - i
  {
    if i < |pkg[path]| {
      LineIndents(pkg, path, i, seen, m);
      var line := ReadLine(pkg, path, i, seen);
      if line.Done? {
        LinesIndent(pkg, path, i + 1, line.seen, m);
        LineThenLines(pkg, path, i, seen, m);
      }
    }
  }

  lemma {:induction false} LineThenLines(pkg: Package, path: Name, i: nat, seen: set<Name>, m: Name)
    requires path in pkg && i < |pkg[path]| && path in seen
    requires var line := ReadLine(pkg, path, i, seen);
             line.Done? && Indented(pkg, path, seen, line, m) &&
             Indented(pkg, path, line.seen, ReadLines(pkg, path, i + 1, line.seen), m)
    ensures var line := ReadLine(pkg, path, i, seen);
            Indented(pkg, path, seen, Then(line.out, ReadLines(pkg, path, i + 1, line.seen)), m)
  {
    var line := ReadLine(pkg, path, i, seen);
    var rest := ReadLines(pkg, path, i + 1, line.seen);
    LineEmitsNew(pkg, path, i, seen, m);
    LinesEmitNew(pkg, path, i + 1, line.seen, m);
    if m == path && rest.Done? {
      IndentThen(line.out, rest.out, m, "");
    } else if New(rest, seen, m) {
      RouteIndentThen(pkg, line.out, rest.out, path, "", m);
    }
  }

  lemma {:induction false} LineIndents(pkg: Package, path: Name, i: nat, seen: set<Name>, m: Name)
    requires path in pkg && i < |pkg[path]| && path in seen
    ensures Indented(pkg, path, seen, ReadLine(pkg, path, i, seen), m)
    decreases pkg.Keys - seen, 2, 0
  {
    var act, line, indent := ActionAt(pkg[path], i), ReadLine(pkg, path, i, seen), pkg[path][i].indent;
    if act.Inline? && line.Done? {
      LineEmitsNew(pkg, path, i, seen, m);
      if m == path {
        AllEmitNew(pkg, act.mods, indent, seen, m);
        NotEmitted(line.out, m);
      } else if m in line.seen && m !in seen {
        AllIndent(pkg, act.mods, indent, seen, m);
        var x :| x in act.mods && RouteIndented(pkg, line.out, x, indent, m);
        RouteThroughImport(pkg, line.out, path, i, x, m);
      }
    }
  }

  lemma {:induction false} AllIndent(pkg: Package, mods: seq<Name>, indent: string, seen: set<Name>, m: Name)
    requires New(InlineAll(pkg, mods, indent, seen), seen, m)
    ensures exists x | x in mods :: RouteIndented(pkg, InlineAll(pkg, mods, indent, seen).out, x, indent, m)
    decreases pkg.Keys - seen, 1, |mods|
  {
    var first := Read(pkg, mods[0], seen);
    var rest := InlineAll(pkg, mods[1..], indent, first.seen);
    ReadEmitsNew(pkg, mods[0], seen, m);
    OwnReindent(first.out, indent, m);
    AllEmitNew(pkg, mods[1..], indent, first.seen, m);
    if m in first.seen {
      ReadIndents(pkg, mods[0], seen, m);
      IndentShift(pkg, first.out, mods[0], indent, m);
      RouteIndentThen(pkg, Reindent(first.out, indent), rest.out, mods[0], indent, m);
    } else {
      AllIndent(pkg, mods[1..], indent, first.seen, m);
      var x :| x in mods[1..] && RouteIndented(pkg, rest.out, x, indent, m);
      RouteIndentThen(pkg, Reindent(first.out, indent), rest.out, x, indent, m);
      assert x in mods;
    }
  }

  /**
   A module keeps its own relative structure: its non-blank lines are all shifted by the same indent, the
   indents of the import lines on one chain of imports from the root.
   */
  lemma {:induction false} ModulesAreShiftedWhole(pkg: Package, root: Name, m: Name)
    requires Read(pkg, root, {}).Done? && Reaches(pkg, root, m)
    ensures exists route :: LeadsTo(pkg, root, route, m)
                         && IndentedBy(Read(pkg, root, {}).out, m, RouteIndent(pkg, root, route, m))
  {
    ReadsExactlyReachable(pkg, root);
    ReadIndents(pkg, root, {}, m);
    var out := Read(pkg, root, {}).out;
    var route :| LeadsTo(pkg, root, route, m) && IndentedBy(out, m, "" + RouteIndent(pkg, root, route, m));
    assert "" + RouteIndent(pkg, root, route, m) == RouteIndent(pkg, root, route, m);
  }

  // ---- Blank lines ----

  /** An output line is a line of its module, blank if that one is, and a blank line stands behind no indent. */
  ghost predicate Faithful(pkg: Package, e: Emitted) {
    e.mod in pkg && e.at < |pkg[e.mod]| && e.blank == pkg[e.mod][e.at].blank && (e.blank ==> e.indent == "")
  }

  ghost predicate AllFaithful(pkg: Package, r: Outcome) {
    r.Done? ==> forall e | e in r.out :: Faithful(pkg, e)
  }

  lemma {:induction false} ReadIsFaithful(pkg: Package, path: Name, seen: set<Name>)
    ensures AllFaithful(pkg, Read(pkg, path, seen))
    decreases pkg.Keys - seen, 0, 0
  {
    if path !in seen && path in pkg {
      assert path in pkg.Keys - seen && path !in pkg.Keys - (seen + {path});
      LinesAreFaithful(pkg, path, 0, seen + {path});
    }
  }

  lemma {:induction false} LinesAreFaithful(pkg: Package, path: Name, i: nat, seen: set<Name>)
    requires path in pkg && i <= |pkg[path]|
    ensures AllFaithful(pkg, ReadLines(pkg, path, i, seen))
    decreases pkg.Keys - seen, 3, |pkg[path]| - i
  {
    if i < |pkg[path]| {
      var line, act := ReadLine(pkg, path, i, seen), ActionAt(pkg[path], i);
      if act.Inline? {
        AllAreFaithful(pkg, act.mods, pkg[path][i].indent, seen);
      }
      if line.Done? {
        LinesAreFaithful(pkg, path, i + 1, line.seen);
      }
    }
  }

  lemma {:induction false} AllAreFaithful(pkg: Package, mods: seq<Name>, indent: string, seen: set<Name>)
    ensures AllFaithful(pkg, InlineAll(pkg, mods, indent, seen))
    decreases pkg.Keys - seen, 1, |mods|
  {
    if mods != [] {
      var first := Read(pkg, mods[0], seen);
      ReadIsFaithful(pkg, mods[0], seen);
      if first.Done? {
        AllAreFaithful(pkg, mods[1..], indent, first.seen);
        forall e | e in Reindent(first.out, indent) ensures Faithful(pkg, e) {
          var i :| 0 <= i < |first.out| && Reindent(first.out, indent)[i] == e;
          assert first.out[i] in first.out;
        }
      }
    }
  }

  /** Every output line is one of the package's, and blank lines are never indented. */
  lemma {:induction false} BlankLinesAreLeftAlone(pkg: Package, root: Name, p: nat)
    requires Read(pkg, root, {}).Done? && p < |Read(pkg, root, {}).out|
    ensures var e := Read(pkg, root, {}).out[p];
            e.mod in pkg && e.at < |pkg[e.mod]| && e.blank == pkg[e.mod][e.at].blank && (e.blank ==> e.indent == "")
  {
    ReadIsFaithful(pkg, root, {});
    assert Read(pkg, root, {}).out[p] in Read(pkg, root, {}).out;
  }
}
