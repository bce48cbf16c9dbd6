/**
 * The policy engine's partial-evaluation result, as plain data: a sequence of
 * queries, each a sequence of expressions, each a call or a single term.
 * Parsing and partial evaluation themselves belong to the policy engine.
 */
module RegoAst {

  datatype Term =
    | Var(name: string)
    /** A reference `input.post.author`, `input.list[_]`: its path segments, in order. */
    | Ref(path: seq<Term>)
    | Str(s: string)
    /** A number keeps its decimal text verbatim. */
    | Num(text: string)
    | Boolean(b: bool)
    | Arr(elems: seq<Term>)
    | Obj(entries: seq<(Term, Term)>)
    /** A set, given by an enumeration of its members in no particular order. */
    | SetT(members: seq<Term>)
    /** A nested call: the operator's printed name and its argument terms. */
    | CallT(op: string, args: seq<Term>)
    | Null
    /** Array, set and object comprehensions. */
    | Comprehension

  /**
   * An expression is a call, a single term, or some other form (a `some` declaration,
   * `every`). Each carries the policy engine's negation flag: `negated` holds for
   * `not <expr>`.
   */
  datatype Expr =
    | CallE(op: string, args: seq<Term>, negated: bool)
    | TermE(term: Term, negated: bool)
    | OtherE(negated: bool)

  /** A query: a conjunction of expressions. */
  type Body = seq<Expr>

  /** The partial queries: a disjunction of queries. */
  type PartialQueries = seq<Body>

  /** Number of term nodes, counting a set one higher than the array it sorts into. */
  ghost function Size(t: Term): (n: nat)
    ensures n >= 1
  {
    match t
    case Arr(es) => 1 + ListSize(es)
    case SetT(ms) => 2 + ListSize(ms)
    case CallT(_, args) => 1 + ListSize(args)
    case _ => 1
  }

  ghost function ListSize(ts: seq<Term>): (n: nat)
    ensures forall k :: 0 <= k < |ts| ==> Size(ts[k]) <= n
  {
    if |ts| == 0 then 0
    else
      assert forall k :: 1 <= k < |ts| ==> ts[k] == ts[1..][k - 1];
      Size(ts[0]) + ListSize(ts[1..])
  }

  lemma {:induction false} ListSizeConcat(a: seq<Term>, b: seq<Term>)
    ensures ListSize(a + b) == ListSize(a) + ListSize(b)
    decreases |a|
  {
    if |a| > 0 {
      assert (a + b)[1..] == a[1..] + b;
      ListSizeConcat(a[1..], b);
    } else {
      assert a + b == b;
    }
  }

  /** Removing the element at index j takes exactly its size off the total. */
  lemma ListSizeRemove(b: seq<Term>, j: nat)
    requires j < |b|
    ensures ListSize(b) == Size(b[j]) + ListSize(b[..j] + b[j + 1..])
  {
    var left, rest, right := b[..j], b[j..], b[j + 1..];
    assert b == left + rest;
    ListSizeConcat(left, rest);
    assert rest[0] == b[j] && rest[1..] == right;
    ListSizeConcat(left, right);
  }

  lemma MultisetRemove(a: seq<Term>, b: seq<Term>, j: nat)
    requires |a| > 0 && j < |b| && b[j] == a[0]
    requires multiset(a) == multiset(b)
    ensures multiset(a[1..]) == multiset(b[..j] + b[j + 1..])
  {
    var left, right := b[..j], b[j + 1..];
    assert a == [a[0]] + a[1..];
    assert multiset(a) == multiset{a[0]} + multiset(a[1..]);
    assert b == left + [b[j]] + right;
    assert multiset(b) == multiset(left) + multiset{b[j]} + multiset(right);
    assert multiset(left + right) == multiset(left) + multiset(right);
    calc {
      multiset(a[1..]);
      multiset(a) - multiset{a[0]};
      multiset(b) - multiset{b[j]};
      multiset(left) + multiset(right);
    }
  }

  /** Reordering a sequence of terms does not change its size. */
  /** Two enumerations with the same multiset hold each other's elements. */
  lemma SameMembers<T>(a: seq<T>, b: seq<T>)
    requires multiset(a) == multiset(b)
    ensures forall k :: 0 <= k < |a| ==> exists j :: 0 <= j < |b| && b[j] == a[k]
    ensures forall k :: 0 <= k < |b| ==> exists j :: 0 <= j < |a| && a[j] == b[k]
  {
    forall k | 0 <= k < |a|
      ensures exists j :: 0 <= j < |b| && b[j] == a[k]
    {
      assert a[k] in multiset(b);
    }
    forall k | 0 <= k < |b|
      ensures exists j :: 0 <= j < |a| && a[j] == b[k]
    {
      assert b[k] in multiset(a);
    }
  }

  lemma {:induction false} ListSizePermutation(a: seq<Term>, b: seq<Term>)
    requires multiset(a) == multiset(b)
    ensures ListSize(a) == ListSize(b)
    decreases |a|
  {
    if |a| == 0 {
      assert |multiset(b)| == 0;
    } else {
      assert a[0] in multiset(b);
      var j :| 0 <= j < |b| && b[j] == a[0];
      ListSizeRemove(b, j);
      MultisetRemove(a, b, j);
      ListSizePermutation(a[1..], b[..j] + b[j + 1..]);
    }
  }
}
