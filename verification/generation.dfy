/**
 * Rendering nodes to SQL text against an error-accumulating generator, and the
 * double-dispatch equality protocol of the equality and number variants.
 */
module Generation {

  import opened Wrappers
  import opened SqlAst

  /** The sentinel rendered when neither operand of an equality can compare itself. */
  const EqualityErrorText := "EqualityError"

  function EqualsOp(not: bool): (op: string)
    ensures op == "!=" <==> not
    ensures op == "=" <==> !not
  {
    if not then "!=" else "="
  }

  /** Nodes in the equality nesting of `n`: the variants rendered here recurse only through equalities. */
  ghost function EqualitySize(n: Node): (d: nat)
    ensures d >= 1
  {
    match n
    case Equality(l, r, _) => 1 + EqualitySize(l) + EqualitySize(r)
    case _ => 1
  }

  /**
   * Renders `n` starting from generator `g`. Rendering never aborts: it only ever appends
   * to the generator's errors.
   */
  function Render(n: Node, b: Backend, g: Generator): (r: Rendered)
    ensures g <= r.gen
    decreases EqualitySize(n), 0
  {
    match n
    case Number(_, value) => Rendered(value, g)
    case Equality(left, right, not) =>
      var first := EqualsSQL(left, not, right, b, g);
      if first.Some? then first.value
      else
        var second := EqualsSQL(right, not, left, b, g);
        if second.Some? then second.value
        else Rendered(EqualityErrorText, g + [UnsupportedEquality(KindOf(left), EqualsOp(not), KindOf(right))])
    case _ =>
      var (text, added) := b.sql(n);
      Rendered(text, g + added)
  }

  /**
   * `self` renders itself compared with `other`; `None` when it does not support that
   * comparison. A successful attempt only appends to the generator.
   */
  function EqualsSQL(self: Node, not: bool, other: Node, b: Backend, g: Generator): (r: Option<Rendered>)
    ensures r.Some? ==> g <= r.value.gen
    decreases EqualitySize(self) + EqualitySize(other), 3
  {
    match self
    case Number(_, _) => NumberEquals(self, not, other, b, g)
    case Equality(_, _, _) => EqualityEquals(self, not, other, b, g)
    case _ =>
      match b.equals(self, not, other)
      case Some((text, added)) => Some(Rendered(text, g + added))
      case None => None
  }

  /**
   * An equality compared with another node: only a boolean-valued kind is supported. A bare
   * boolean literal is not parenthesised; every other boolean node is.
   */
  function EqualityEquals(e: Node, not: bool, other: Node, b: Backend, g: Generator): (r: Option<Rendered>)
    requires e.Equality?
    ensures r.Some? <==> IsBooleanKind(KindOf(other))
    ensures r.Some? ==> g <= r.value.gen
    decreases EqualitySize(e) + EqualitySize(other), 2
  {
    var k := KindOf(other);
    if !IsBooleanKind(k) then None
    else
      var self := Render(e, b, g);
      var rendered := Render(other, b, self.gen);
      var otherText := if k == BooleanKind then rendered.text else "(" + rendered.text + ")";
      Some(Rendered("(" + self.text + ") " + EqualsOp(not) + " " + otherText, rendered.gen))
  }

  /** A number compared with another node: only a number-kind operand is supported. */
  function NumberEquals(n: Node, not: bool, other: Node, b: Backend, g: Generator): (r: Option<Rendered>)
    requires n.Number?
    ensures r.Some? <==> KindOf(other) == NumberKind
    ensures r.Some? ==> r.value == BasicSQLEquality(n, not, other, b, g)
    ensures r.Some? ==> r.value.text == n.value + " " + EqualsOp(not) + " " + Render(other, b, g).text
    ensures r.Some? ==> r.value.gen == Render(other, b, g).gen
    ensures r.Some? ==> g <= r.value.gen
    decreases EqualitySize(n) + EqualitySize(other), 2
  {
    if KindOf(other) == NumberKind then Some(BasicSQLEquality(n, not, other, b, g)) else None
  }

  /** `<a> op <c>`: the left operand rendered first, then the right, single spaces between. */
  function BasicSQLEquality(a: Node, not: bool, c: Node, b: Backend, g: Generator): (r: Rendered)
    ensures g <= r.gen
    decreases EqualitySize(a) + EqualitySize(c), 1
  {
    var left := Render(a, b, g);
    var right := Render(c, b, left.gen);
    Rendered(left.text + " " + EqualsOp(not) + " " + right.text, right.gen)
  }
}
