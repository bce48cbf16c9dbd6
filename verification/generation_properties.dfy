/** What the rendering protocol of equalities and numbers guarantees. */
module GenerationProperties {

  import opened Wrappers
  import opened SqlAst
  import opened Generation

  /** The left operand is asked first; when it succeeds, its text is the result and the right operand is never consulted. */
  lemma LeftOperandFirst(l: Node, r: Node, not: bool, b: Backend, g: Generator)
    requires EqualsSQL(l, not, r, b, g).Some?
    ensures Render(Equality(l, r, not), b, g) == EqualsSQL(l, not, r, b, g).value
  {
  }

  /** Only when the left operand declines is the right one asked, with the operands swapped and the same flag. */
  lemma RightOperandSwapped(l: Node, r: Node, not: bool, b: Backend, g: Generator)
    requires EqualsSQL(l, not, r, b, g).None?
    ensures Render(Equality(l, r, not), b, g) ==
            if EqualsSQL(r, not, l, b, g).Some? then EqualsSQL(r, not, l, b, g).value
            else Rendered(EqualityErrorText, g + [UnsupportedEquality(KindOf(l), EqualsOp(not), KindOf(r))])
  {
  }

  /** When both orders decline, exactly one error is recorded and the sentinel is rendered. */
  lemma BothOrdersFail(l: Node, r: Node, not: bool, b: Backend, g: Generator)
    requires EqualsSQL(l, not, r, b, g).None? && EqualsSQL(r, not, l, b, g).None?
    ensures Render(Equality(l, r, not), b, g).text == EqualityErrorText
    ensures |Render(Equality(l, r, not), b, g).gen| == |g| + 1
    ensures Render(Equality(l, r, not), b, g).gen[|g|] == UnsupportedEquality(KindOf(l), EqualsOp(not), KindOf(r))
  {
  }

  /** Against a boolean literal, an equality parenthesises only itself. */
  lemma EqualityVersusBooleanLiteral(e: Node, not: bool, other: Node, b: Backend, g: Generator)
    requires e.Equality? && KindOf(other) == BooleanKind
    ensures
      var self := Render(e, b, g);
      var rendered := Render(other, b, self.gen);
      EqualityEquals(e, not, other, b, g) == Some(Rendered("(" + self.text + ") " + EqualsOp(not) + " " + rendered.text, rendered.gen))
  {
  }

  /** Against any other boolean-valued node, an equality parenthesises both sides. */
  lemma EqualityVersusBooleanNode(e: Node, not: bool, other: Node, b: Backend, g: Generator)
    requires e.Equality? && IsBooleanKind(KindOf(other)) && KindOf(other) != BooleanKind
    ensures
      var self := Render(e, b, g);
      var rendered := Render(other, b, self.gen);
      EqualityEquals(e, not, other, b, g) == Some(Rendered("(" + self.text + ") " + EqualsOp(not) + " " + ("(" + rendered.text + ")"), rendered.gen))
  {
  }

  /** Two nested equalities are always rendered with both sides parenthesised, left first. */
  lemma NestedEqualities(l: Node, r: Node, not: bool, b: Backend, g: Generator)
    requires l.Equality? && r.Equality?
    ensures
      var left := Render(l, b, g);
      var right := Render(r, b, left.gen);
      Render(Equality(l, r, not), b, g) == Rendered("(" + left.text + ") " + EqualsOp(not) + " " + ("(" + right.text + ")"), right.gen)
  {
    assert EqualsSQL(l, not, r, b, g) == EqualityEquals(l, not, r, b, g);
    EqualityVersusBooleanNode(l, not, r, b, g);
  }

  /** A number renders as its decimal text, whatever its source, and records nothing. */
  lemma NumberRendersVerbatim(source: string, value: string, b: Backend, g: Generator)
    ensures Render(Number(source, value), b, g) == Rendered(value, g)
    ensures KindOf(Number(source, value)) == NumberKind
  {
  }

  /** Two numbers compare as `a = b` or `a != b`, and no error is recorded. */
  lemma NumbersCompare(sa: string, a: string, sc: string, c: string, not: bool, b: Backend, g: Generator)
    ensures Render(Equality(Number(sa, a), Number(sc, c), not), b, g) == Rendered(a + " " + EqualsOp(not) + " " + c, g)
  {
    var l, r := Number(sa, a), Number(sc, c);
    assert Render(l, b, g) == Rendered(a, g);
    assert Render(r, b, g) == Rendered(c, g);
    assert BasicSQLEquality(l, not, r, b, g) == Rendered(a + " " + EqualsOp(not) + " " + c, g);
    assert EqualsSQL(l, not, r, b, g) == NumberEquals(l, not, r, b, g);
  }

  /**
   * A number against any number-kind operand, a numeric column say, renders
   * `<value> op <other>`: the number verbatim, then the other operand's own rendering, whose
   * errors are the only ones recorded.
   */
  lemma NumberVersusNumberKind(source: string, value: string, other: Node, not: bool, b: Backend, g: Generator)
    requires KindOf(other) == NumberKind
    ensures Render(Equality(Number(source, value), other, not), b, g).text ==
      value + " " + EqualsOp(not) + " " + Render(other, b, []).text
    ensures Render(Equality(Number(source, value), other, not), b, g).gen == g + Render(other, b, []).gen
    ensures other.Column? ==>
      Render(Equality(Number(source, value), other, not), b, g).text == value + " " + EqualsOp(not) + " " + b.sql(other).0
  {
    var n := Number(source, value);
    assert EqualsSQL(n, not, other, b, g) == NumberEquals(n, not, other, b, g);
    RenderPure(other, b, g);
  }

  /** A number and an equality cannot be compared in either order: one error, and the sentinel. */
  lemma NumberVersusEquality(n: Node, e: Node, not: bool, b: Backend, g: Generator)
    requires n.Number? && e.Equality?
    ensures Render(Equality(n, e, not), b, g) == Rendered(EqualityErrorText, g + [UnsupportedEquality(NumberKind, EqualsOp(not), EqualityKind)])
    ensures Render(Equality(e, n, not), b, g) == Rendered(EqualityErrorText, g + [UnsupportedEquality(EqualityKind, EqualsOp(not), NumberKind)])
  {
  }

  /** Nodes built only from the variants whose rendering is modelled here. */
  predicate Closed(n: Node) {
    match n
    case Number(_, _) => true
    case Equality(l, r, _) => Closed(l) && Closed(r)
    case _ => false
  }

  /** Whether an operand of one kind can compare itself with the other, in one order or the other. */
  predicate Comparable(k1: Kind, k2: Kind) {
    || (k1 == NumberKind && k2 == NumberKind)
    || (k1 == EqualityKind && IsBooleanKind(k2))
    || (k2 == EqualityKind && IsBooleanKind(k1))
  }

  /**
   * The number of errors rendering a closed node records: one for each equality whose
   * operands are not comparable, whose own operands are then never rendered.
   */
  function ErrorCount(n: Node): nat
    requires Closed(n)
  {
    match n
    case Number(_, _) => 0
    case Equality(l, r, _) =>
      if Comparable(KindOf(l), KindOf(r)) then ErrorCount(l) + ErrorCount(r) else 1
  }

  /** A closed node in which every equality compares comparable operands. */
  predicate WellTyped(n: Node)
    requires Closed(n)
  {
    match n
    case Number(_, _) => true
    case Equality(l, r, _) => Comparable(KindOf(l), KindOf(r)) && WellTyped(l) && WellTyped(r)
  }

  /** Rendering a closed node records exactly `ErrorCount` errors, after the ones already there. */
  lemma {:induction false} RenderErrorCount(n: Node, b: Backend, g: Generator)
    requires Closed(n)
    ensures |Render(n, b, g).gen| == |g| + ErrorCount(n)
    decreases n
  {
    match n
    case Number(_, _) =>
    case Equality(l, r, not) =>
      var kl, kr := KindOf(l), KindOf(r);
      if kl == NumberKind && kr == NumberKind {
        assert EqualsSQL(l, not, r, b, g) == NumberEquals(l, not, r, b, g);
        RenderErrorCount(l, b, g);
        RenderErrorCount(r, b, Render(l, b, g).gen);
      } else if kl == EqualityKind && kr == EqualityKind {
        assert EqualsSQL(l, not, r, b, g) == EqualityEquals(l, not, r, b, g);
        RenderErrorCount(l, b, g);
        RenderErrorCount(r, b, Render(l, b, g).gen);
      }
  }

  lemma {:induction false} NoErrorsIffWellTyped(n: Node)
    requires Closed(n)
    ensures ErrorCount(n) == 0 <==> WellTyped(n)
    decreases n
  {
    match n
    case Number(_, _) =>
    case Equality(l, r, _) =>
      NoErrorsIffWellTyped(l);
      NoErrorsIffWellTyped(r);
  }

  /** A closed node renders without recording any error exactly when it is well typed. */
  lemma RenderCleanIffWellTyped(n: Node, b: Backend, g: Generator)
    requires Closed(n)
    ensures Render(n, b, g).gen == g <==> WellTyped(n)
  {
    RenderErrorCount(n, b, g);
    NoErrorsIffWellTyped(n);
  }

  /** Swapping the operands of an equality over closed nodes does not change how many errors are recorded. */
  lemma OperandOrderErrorSymmetry(l: Node, r: Node, not: bool, b: Backend, g: Generator)
    requires Closed(l) && Closed(r)
    ensures |Render(Equality(l, r, not), b, g).gen| == |Render(Equality(r, l, not), b, g).gen|
  {
    RenderErrorCount(Equality(l, r, not), b, g);
    RenderErrorCount(Equality(r, l, not), b, g);
  }

  /** The same rendering, started from a generator that already holds `g`. */
  function After(g: Generator, r: Rendered): Rendered {
    Rendered(r.text, g + r.gen)
  }

  /**
   * Rendering is pure apart from appending errors: the text does not depend on the errors
   * already recorded, and the new errors are appended after them.
   */
  lemma {:induction false} RenderPure(n: Node, b: Backend, g: Generator)
    ensures Render(n, b, g) == After(g, Render(n, b, []))
    decreases EqualitySize(n), 0
  {
    match n
    case Number(_, _) =>
    case Equality(l, r, not) =>
      EqualsSQLPure(l, not, r, b, g);
      EqualsSQLPure(r, not, l, b, g);
    case _ =>
  }

  lemma {:induction false} EqualsSQLPure(self: Node, not: bool, other: Node, b: Backend, g: Generator)
    ensures EqualsSQL(self, not, other, b, g).Some? == EqualsSQL(self, not, other, b, []).Some?
    ensures EqualsSQL(self, not, other, b, g).Some? ==>
      EqualsSQL(self, not, other, b, g).value == After(g, EqualsSQL(self, not, other, b, []).value)
    decreases EqualitySize(self) + EqualitySize(other), 3
  {
    match self
    case Number(_, _) => NumberEqualsPure(self, not, other, b, g);
    case Equality(_, _, _) => EqualityEqualsPure(self, not, other, b, g);
    case _ =>
  }

  lemma {:induction false} NumberEqualsPure(n: Node, not: bool, other: Node, b: Backend, g: Generator)
    requires n.Number?
    ensures NumberEquals(n, not, other, b, g).Some? == NumberEquals(n, not, other, b, []).Some?
    ensures NumberEquals(n, not, other, b, g).Some? ==>
      NumberEquals(n, not, other, b, g).value == After(g, NumberEquals(n, not, other, b, []).value)
    decreases EqualitySize(n) + EqualitySize(other), 2
  {
    if KindOf(other) == NumberKind {
      BasicSQLEqualityPure(n, not, other, b, g);
    }
  }

  lemma {:induction false} EqualityEqualsPure(e: Node, not: bool, other: Node, b: Backend, g: Generator)
    requires e.Equality?
    ensures EqualityEquals(e, not, other, b, g).Some? == EqualityEquals(e, not, other, b, []).Some?
    ensures EqualityEquals(e, not, other, b, g).Some? ==>
      EqualityEquals(e, not, other, b, g).value == After(g, EqualityEquals(e, not, other, b, []).value)
    decreases EqualitySize(e) + EqualitySize(other), 2
  {
    if IsBooleanKind(KindOf(other)) {
      var first := Render(e, b, []);
      RenderPure(e, b, g);
      RenderPure(other, b, g + first.gen);
      RenderPure(other, b, first.gen);
      assert g + first.gen + Render(other, b, []).gen == g + (first.gen + Render(other, b, []).gen);
    }
  }

  lemma {:induction false} BasicSQLEqualityPure(a: Node, not: bool, c: Node, b: Backend, g: Generator)
    ensures BasicSQLEquality(a, not, c, b, g) == After(g, BasicSQLEquality(a, not, c, b, []))
    decreases EqualitySize(a) + EqualitySize(c), 1
  {
    var first := Render(a, b, []);
    RenderPure(a, b, g);
    RenderPure(c, b, g + first.gen);
    RenderPure(c, b, first.gen);
    assert g + first.gen + Render(c, b, []).gen == g + (first.gen + Render(c, b, []).gen);
  }

  /**
   * `<a> op <c>`: the left operand's text, the operator between single spaces, the right
   * operand's text; the left operand's errors are recorded before the right one's.
   */
  lemma BasicSQLEqualityLayout(a: Node, not: bool, c: Node, b: Backend, g: Generator)
    ensures BasicSQLEquality(a, not, c, b, g).text ==
            Render(a, b, []).text + " " + EqualsOp(not) + " " + Render(c, b, []).text
    ensures BasicSQLEquality(a, not, c, b, g).gen == g + Render(a, b, []).gen + Render(c, b, []).gen
  {
    RenderPure(a, b, g);
    RenderPure(c, b, Render(a, b, g).gen);
  }
}
