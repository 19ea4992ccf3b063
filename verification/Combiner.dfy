/**
 The module combiner: `_read_file` inlines relative imports depth first. Source lines are already
 classified by the regular expressions and string tests of the combiner.
 */
module Combiner {
  import opened Basics

  type Name = string

  /** `from .<from> import (<names>`; an empty `from` imports sibling modules by name. */
  datatype Relative = Relative(from: Name, paren: bool, names: seq<Name>)

  datatype Line = Line(
    future: bool,              // mentions __future__
    indent: string,            // leading whitespace
    blank: bool,               // whitespace only
    typeChecking: bool,        // header of a TYPE_CHECKING block
    closes: bool,              // contains ')'
    relative: Option<Relative>,// is a relative import
    names: Option<seq<Name>>)  // free of parentheses: its comma separated names

  type Package = map<Name, seq<Line>>

  /** An output line: line `at` of `mod`, cleaned of `names`, behind the indents of the imports that led to it. */
  datatype Emitted = Emitted(mod: Name, at: nat, names: set<Name>, blank: bool, indent: string)

  // ---- The line state machine ----

  datatype Scan = Scan(names: set<Name>, paren: bool, from: Name, inTypes: bool, typesIndent: nat)

  const START := Scan({}, false, "", false, 0)

  datatype Action = Drop | Emit | Inline(mods: seq<Name>)

  function Advance(sc: Scan, l: Line): (Scan, Action) {
    if l.future then (sc, Drop)
    else if sc.inTypes && (l.blank || |l.indent| > sc.typesIndent) then (sc, Emit)
    else
      var sc := sc.(inTypes := false);
      if !sc.paren && l.typeChecking then (sc.(inTypes := true, typesIndent := |l.indent|), Emit)
      else if sc.paren && l.closes then (sc.(paren := false), Drop)
      else if sc.paren then
        if l.names.None? then (sc, Emit) else Import(sc, l.names.value)
      else
        if l.relative.None? then (sc, Emit)
        else Import(sc.(paren := l.relative.value.paren, from := l.relative.value.from), l.relative.value.names)
  }

  /** Which modules an import line inlines. */
  function Import(sc: Scan, names: seq<Name>): (Scan, Action) {
    var mods := if sc.from != "" then [sc.from] else names;
    (sc.(names := sc.names + Named(mods)), Inline(mods))
  }

  function Named(mods: seq<Name>): set<Name> {
    set n | n in mods
  }

  /** The state before line `i`. */
  function ScanAt(lines: seq<Line>, i: nat): Scan
    requires i <= |lines|
  {
    if i == 0 then START else Advance(ScanAt(lines, i - 1), lines[i - 1]).0
  }

  function ActionAt(lines: seq<Line>, i: nat): Action
    requires i < |lines|
  {
    Advance(ScanAt(lines, i), lines[i]).1
  }

  // ---- The inliner as a function ----

  datatype Outcome = Done(out: seq<Emitted>, seen: set<Name>) | Missing(name: Name, seen: set<Name>)

  /** `_reindent`: blank lines are left alone. */
  function Reindent(es: seq<Emitted>, indent: string): (r: seq<Emitted>)
    ensures |r| == |es| && forall i | 0 <= i < |es| :: r[i] == Shift(es[i], indent)
  {
    if es == [] then [] else [Shift(es[0], indent)] + Reindent(es[1..], indent)
  }

  function Shift(e: Emitted, indent: string): Emitted {
    if e.blank then e else e.(indent := indent + e.indent)
  }

  /** Line `i` as the module itself emits it. */
  function Plain(lines: seq<Line>, path: Name, i: nat): Emitted
    requires i < |lines|
  {
    Emitted(path, i, ScanAt(lines, i).names, lines[i].blank, "")
  }

  function Then(first: seq<Emitted>, rest: Outcome): Outcome {
    if rest.Done? then rest.(out := first + rest.out) else rest
  }

  function Read(pkg: Package, path: Name, seen: set<Name>): (r: Outcome)
    ensures seen <= r.seen
    decreases pkg.Keys - seen, 0, 0
  {
    if path in seen then Done([], seen)
    else if path !in pkg then Missing(path, seen + {path})
    else
      assert path in pkg.Keys - seen && path !in pkg.Keys - (seen + {path});
      ReadLines(pkg, path, 0, seen + {path})
  }

  function ReadLines(pkg: Package, path: Name, i: nat, seen: set<Name>): (r: Outcome)
    requires path in pkg && i <= |pkg[path]|
    ensures seen <= r.seen
    decreases pkg.Keys - seen, 3, |pkg[path]| - i
  {
    if i == |pkg[path]| then Done([], seen)
    else
      var line := ReadLine(pkg, path, i, seen);
      if line.Missing? then line else Then(line.out, ReadLines(pkg, path, i + 1, line.seen))
  }

  function ReadLine(pkg: Package, path: Name, i: nat, seen: set<Name>): (r: Outcome)
    requires path in pkg && i < |pkg[path]|
    ensures seen <= r.seen
    decreases pkg.Keys - seen, 2, 0
  {
    match ActionAt(pkg[path], i)
    case Drop => Done([], seen)
    case Emit => Done([Plain(pkg[path], path, i)], seen)
    case Inline(mods) => InlineAll(pkg, mods, pkg[path][i].indent, seen)
  }

  function InlineAll(pkg: Package, mods: seq<Name>, indent: string, seen: set<Name>): (r: Outcome)
    ensures seen <= r.seen
    decreases pkg.Keys - seen, 1, |mods|
  {
    if mods == [] then Done([], seen)
    else
      var first := Read(pkg, mods[0], seen);
      if first.Missing? then first
      else Then(Reindent(first.out, indent), InlineAll(pkg, mods[1..], indent, first.seen))
  }

  lemma ThenThen(a: seq<Emitted>, b: seq<Emitted>, rest: Outcome)
    ensures Then(a, Then(b, rest)) == Then(a + b, rest)
  {
    if rest.Done? {
      assert a + (b + rest.out) == a + b + rest.out;
    }
  }

  lemma ThenNothing(rest: Outcome)
    ensures Then([], rest) == rest
  {
    if rest.Done? {
      assert [] + rest.out == rest.out;
    }
  }

  lemma {:induction false} InlineOneMore(pkg: Package, mods: seq<Name>, k: nat, indent: string, seen: set<Name>)
    requires k < |mods|
    ensures var first := Read(pkg, mods[k], seen);
            InlineAll(pkg, mods[k..], indent, seen) ==
            if first.Missing? then first
            else Then(Reindent(first.out, indent), InlineAll(pkg, mods[k + 1..], indent, first.seen))
  {
    assert mods[k..][1..] == mods[k + 1..];
  }

  lemma LineThen(pkg: Package, path: Name, i: nat, seen: set<Name>, out: seq<Emitted>)
    requires path in pkg && i < |pkg[path]|
    ensures var line, before := ReadLine(pkg, path, i, seen), Then(out, ReadLines(pkg, path, i, seen));
            before == if line.Missing? then line else Then(out + line.out, ReadLines(pkg, path, i + 1, line.seen))
  {
    var line := ReadLine(pkg, path, i, seen);
    if line.Done? {
      ThenThen(out, line.out, ReadLines(pkg, path, i + 1, line.seen));
    }
  }

  // ---- The inliner as the code runs it ----

  class ModuleCombiner {
    const pkg: Package
    var seen: set<Name>

    constructor (pkg: Package)
      ensures this.pkg == pkg && seen == {}
    {
      this.pkg := pkg;
      seen := {};
    }

    /** `_read_file`; None is the error of opening a missing file. */
    method ReadFile(path: Name) returns (r: Option<seq<Emitted>>)
      modifies this
      ensures var o := Read(pkg, path, old(seen));
              seen == o.seen && (r.Some? <==> o.Done?) && (r.Some? ==> r.value == o.out)
      decreases pkg.Keys - seen, 0, 0
    {
      if path in seen {
        return Some([]);
      }
      seen := seen + {path};
      if path !in pkg {
        return None;
      }
      assert path in pkg.Keys - old(seen) && path !in pkg.Keys - seen;
      var names: set<Name>, paren, from, inTypes, typesIndent: nat := {}, false, "", false, 0;
      var lines := pkg[path];
      var out: seq<Emitted> := [];
      ThenNothing(ReadLines(pkg, path, 0, seen));
      var i := 0;
      while i < |lines|
        invariant i <= |lines| && old(seen) + {path} <= seen
        invariant Scan(names, paren, from, inTypes, typesIndent) == ScanAt(lines, i)
        invariant Read(pkg, path, old(seen)) == Then(out, ReadLines(pkg, path, i, seen))
      {
        var line := lines[i];
        LineThen(pkg, path, i, seen, out);
        assert out + [] == out;
        i := i + 1;
        if line.future {
          continue;
        }
        var verbatim := inTypes && (line.blank || |line.indent| > typesIndent);
        if !verbatim {
          inTypes := false;
          if !paren && line.typeChecking {
            inTypes, typesIndent, verbatim := true, |line.indent|, true;
          } else if paren && line.closes {
            paren := false;
            continue;
          }
        }
        if verbatim || (if paren then line.names.None? else line.relative.None?) {
          out := out + [Emitted(path, i - 1, names, line.blank, "")];
          continue;
        }
        var mods := if paren then line.names.value else line.relative.value.names;
        if !paren {
          paren, from := line.relative.value.paren, line.relative.value.from;
        }
        if from != "" {
          mods := [from];
        }
        names := names + Named(mods);
        var inlined := InlineModules(mods, line.indent);
        if inlined.None? {
          return None;
        }
        out := out + inlined.value;
      }
      r := Some(out);
    }

    /** The modules of one import line, in order, re-indented like the line. */
    method InlineModules(mods: seq<Name>, indent: string) returns (r: Option<seq<Emitted>>)
      modifies this
      ensures var o := InlineAll(pkg, mods, indent, old(seen));
              seen == o.seen && (r.Some? <==> o.Done?) && (r.Some? ==> r.value == o.out)
      decreases pkg.Keys - seen, 1, 0
    {
      var out: seq<Emitted> := [];
      assert mods[0..] == mods;
      ThenNothing(InlineAll(pkg, mods, indent, seen));
      for k := 0 to |mods|
        invariant old(seen) <= seen
        invariant InlineAll(pkg, mods, indent, old(seen)) == Then(out, InlineAll(pkg, mods[k..], indent, seen))
      {
        InlineOneMore(pkg, mods, k, indent, seen);
        assert pkg.Keys - seen <= pkg.Keys - old(seen);
        var first := ReadFile(mods[k]);
        if first.None? {
          return None;
        }
        ThenThen(out, Reindent(first.value, indent), InlineAll(pkg, mods[k + 1..], indent, seen));
        out := out + Reindent(first.value, indent);
      }
      r := Some(out);
    }
  }
}
