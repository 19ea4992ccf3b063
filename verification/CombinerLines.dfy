/**
 What the combiner does with each line, told over the lines themselves: which stand in a type-checking block, which
 in the parentheses of an import, and what follows from it.
 */
module CombinerLines {
  import opened Basics
  import opened Combiner

  /** Line `k` cannot end a block whose header is line `j`. */
  predicate Quiet(lines: seq<Line>, j: nat, k: nat)
    requires j < |lines| && k < |lines|
  {
    lines[k].future || lines[k].blank || |lines[k].indent| > |lines[j].indent|
  }

  /** Line `k` cannot end an open parenthesis. */
  predicate KeepsOpen(lines: seq<Line>, k: nat)
    requires k < |lines|
  {
    lines[k].future || !lines[k].closes
  }

  /** An `if TYPE_CHECKING:` that counts: not itself in a block or in parentheses. */
  ghost predicate IsHeader(lines: seq<Line>, j: nat)
    requires j < |lines|
    decreases j, 2
  {
    !lines[j].future && lines[j].typeChecking && !InBlock(lines, j) && !InParens(lines, j)
  }

  /** A relative import that leaves a parenthesis open. */
  ghost predicate Opens(lines: seq<Line>, j: nat)
    requires j < |lines|
    decreases j, 2
  {
    !lines[j].future && !lines[j].typeChecking && lines[j].relative.Some? && lines[j].relative.value.paren &&
    !InBlock(lines, j) && !InParens(lines, j)
  }

  /** Only lines that cannot end its block stand between header `j` and line `i`. */
  ghost predicate HeaderOf(lines: seq<Line>, j: nat, i: nat)
    requires i <= |lines|
    decreases i, 0
  {
    j < i && IsHeader(lines, j) && forall k: nat | j < k < i :: Quiet(lines, j, k)
  }

  /** Parentheses opened on line `j` are still open before line `i`. */
  ghost predicate OpenerOf(lines: seq<Line>, j: nat, i: nat): (r: bool)
    requires i <= |lines|
    ensures r ==> j < i && lines[j].relative.Some?
    decreases i, 0
  {
    j < i && Opens(lines, j) && forall k: nat | j < k < i :: KeepsOpen(lines, k)
  }

  ghost predicate InBlock(lines: seq<Line>, i: nat)
    requires i < |lines|
    decreases i, 1
  {
    exists j: nat :: HeaderOf(lines, j, i) && Quiet(lines, j, i)
  }

  ghost predicate InParens(lines: seq<Line>, i: nat)
    requires i <= |lines|
    decreases i, 1
  {
    exists j: nat :: OpenerOf(lines, j, i)
  }

  /** The modules named by an import from `from` of these names. */
  function Modules(from: Name, names: seq<Name>): seq<Name> {
    if from == "" then names else [from]
  }

  /** Line `i` is an import of exactly these modules: a relative import, or a line of names between parentheses. */
  ghost predicate Inlines(lines: seq<Line>, i: nat, mods: seq<Name>)
    requires i < |lines|
  {
    var l := lines[i];
    !l.future && !InBlock(lines, i) &&
    if InParens(lines, i) then
      !l.closes && l.names.Some? &&
      exists j: nat :: OpenerOf(lines, j, i) && mods == Modules(lines[j].relative.value.from, l.names.value)
    else
      !l.typeChecking && l.relative.Some? && mods == Modules(l.relative.value.from, l.relative.value.names)
  }

  ghost predicate Headed(lines: seq<Line>, i: nat)
    requires i <= |lines|
  {
    exists j: nat :: HeaderOf(lines, j, i)
  }

  /** The combiner's state before line `i` says where the line stands. */
  ghost predicate Tells(lines: seq<Line>, i: nat)
    requires i <= |lines|
  {
    var sc := ScanAt(lines, i);
    (sc.inTypes <==> Headed(lines, i)) &&
    (forall j: nat | HeaderOf(lines, j, i) :: sc.typesIndent == |lines[j].indent|) &&
    (sc.paren <==> InParens(lines, i)) &&
    (forall j: nat | OpenerOf(lines, j, i) :: sc.from == lines[j].relative.value.from) &&
    !(sc.inTypes && sc.paren)
  }

  lemma {:induction false} OneLineLater(lines: seq<Line>, i: nat, j: nat)
    requires i < |lines|
    ensures HeaderOf(lines, j, i + 1) <==>
            (HeaderOf(lines, j, i) && Quiet(lines, j, i)) || (j == i && IsHeader(lines, i))
    ensures OpenerOf(lines, j, i + 1) <==>
            (OpenerOf(lines, j, i) && KeepsOpen(lines, i)) || (j == i && Opens(lines, i))
  {
  }

  lemma {:induction false} BlockIs(lines: seq<Line>, i: nat)
    requires i < |lines| && Tells(lines, i)
    ensures var sc, l := ScanAt(lines, i), lines[i];
            InBlock(lines, i) <==> sc.inTypes && (l.future || l.blank || |l.indent| > sc.typesIndent)
  {
  }

  lemma {:induction false} StepTells(lines: seq<Line>, i: nat)
    requires i < |lines| && Tells(lines, i)
    ensures Tells(lines, i + 1)
  {
    BlockIs(lines, i);
    HeadersMove(lines, i);
    ParensMove(lines, i);
    var sc, next := ScanAt(lines, i), i + 1;
    var after := ScanAt(lines, next);
    assert after == Advance(sc, lines[i]).0;
    forall j: nat | HeaderOf(lines, j, next) ensures after.typesIndent == |lines[j].indent| {
      OneLineLater(lines, i, j);
    }
    forall j: nat | OpenerOf(lines, j, next) ensures after.from == lines[j].relative.value.from {
      OneLineLater(lines, i, j);
    }
  }

  lemma {:induction false} HeadersMove(lines: seq<Line>, i: nat)
    requires i < |lines|
    ensures Headed(lines, i + 1) <==> InBlock(lines, i) || IsHeader(lines, i)
  {
    var next := i + 1;
    if j: nat :| HeaderOf(lines, j, next) {
      OneLineLater(lines, i, j);
      assert j < i ==> HeaderOf(lines, j, i);
    }
    if j: nat :| HeaderOf(lines, j, i) && Quiet(lines, j, i) {
      OneLineLater(lines, i, j);
    }
    OneLineLater(lines, i, i);
  }

  lemma {:induction false} ParensMove(lines: seq<Line>, i: nat)
    requires i < |lines|
    ensures InParens(lines, i + 1) <==> (InParens(lines, i) && KeepsOpen(lines, i)) || Opens(lines, i)
  {
    var next := i + 1;
    if j: nat :| OpenerOf(lines, j, next) {
      OneLineLater(lines, i, j);
      assert j < i ==> OpenerOf(lines, j, i);
    }
    if j: nat :| OpenerOf(lines, j, i) {
      OneLineLater(lines, i, j);
    }
    OneLineLater(lines, i, i);
  }

  lemma {:induction false} ScanTells(lines: seq<Line>, i: nat)
    requires i <= |lines|
    ensures Tells(lines, i)
  {
    if i > 0 {
      ScanTells(lines, i - 1);
      StepTells(lines, i - 1);
    }
  }

  /** No line is both in a type-checking block and in the parentheses of an import. */
  lemma {:induction false} BlocksAreOutsideParens(lines: seq<Line>, i: nat)
    requires i < |lines|
    ensures !(InBlock(lines, i) && InParens(lines, i))
  {
    ScanTells(lines, i);
    BlockIs(lines, i);
  }

  /** A line inlines exactly these modules when it is an import of them outside every type-checking block. */
  lemma {:induction false} InlinesExactlyWhen(lines: seq<Line>, i: nat, mods: seq<Name>)
    requires i < |lines|
    ensures ActionAt(lines, i) == Inline(mods) <==> Inlines(lines, i, mods)
  {
    ScanTells(lines, i);
    BlockIs(lines, i);
  }

  /** A line is dropped exactly when it mentions `__future__` or closes the parentheses of an import. */
  lemma {:induction false} DropsExactlyWhen(lines: seq<Line>, i: nat)
    requires i < |lines|
    ensures ActionAt(lines, i) == Drop <==> lines[i].future || (InParens(lines, i) && lines[i].closes)
  {
    ScanTells(lines, i);
    BlockIs(lines, i);
  }

  /** Every other line is emitted: those of type-checking blocks, headers, and whatever is no import. */
  lemma {:induction false} EmitsExactlyWhen(lines: seq<Line>, i: nat)
    requires i < |lines|
    ensures ActionAt(lines, i) == Emit <==>
            var l := lines[i];
            !l.future &&
            (InBlock(lines, i) || IsHeader(lines, i) ||
             if InParens(lines, i) then !l.closes && l.names.None? else l.relative.None?)
  {
    ScanTells(lines, i);
    BlockIs(lines, i);
  }

  /** The qualifiers cleaned from a line are the modules inlined above it in its own module. */
  lemma {:induction false} CleansExactlyInlined(lines: seq<Line>, i: nat, n: Name)
    requires i <= |lines|
    ensures n in ScanAt(lines, i).names <==>
            exists k: nat, mods :: k < i && Inlines(lines, k, mods) && n in mods
  {
    if i > 0 {
      var last := i - 1;
      CleansExactlyInlined(lines, last, n);
      NamesGrow(lines, last, n);
      forall mods ensures ActionAt(lines, last) == Inline(mods) <==> Inlines(lines, last, mods) {
        InlinesExactlyWhen(lines, last, mods);
      }
      if ActionAt(lines, last).Inline? {
        assert Inlines(lines, last, ActionAt(lines, last).mods);
      }
    }
  }

  lemma {:induction false} NamesGrow(lines: seq<Line>, i: nat, n: Name)
    requires i < |lines|
    ensures n in ScanAt(lines, i + 1).names <==>
            n in ScanAt(lines, i).names || (ActionAt(lines, i).Inline? && n in ActionAt(lines, i).mods)
  {
  }

  /** An import directly below an `if TYPE_CHECKING:` at the top of a module is emitted as it stands. */
  lemma {:induction false} GuardedImportIsEmitted(lines: seq<Line>)
    requires |lines| >= 2 && lines[0].typeChecking && !lines[0].future && !lines[1].future
    requires |lines[1].indent| > |lines[0].indent|
    ensures ActionAt(lines, 0) == Emit && ActionAt(lines, 1) == Emit
  {
    assert forall j: nat :: !HeaderOf(lines, j, 0) && !OpenerOf(lines, j, 0);
    assert IsHeader(lines, 0);
    assert HeaderOf(lines, 0, 1);
    EmitsExactlyWhen(lines, 0);
    EmitsExactlyWhen(lines, 1);
  }
}
