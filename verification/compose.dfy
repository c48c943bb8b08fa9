/** Selectors built from chains and nested `combine` calls on the builder
    object (src/05-objects-tasks.js:104-117, 197-227). */
module Compose {
  import opened Wrappers
  import opened Builder
  import opened Chain

  /** How a selector is written against the builder: a chain of part calls, or
      `builder.combine(left, combinator, right)`. */
  datatype Selector =
    | Compound(calls: seq<Call>)
    | Combined(left: Selector, combinator: string, right: Selector)

  /** Evaluates the builder expression. The left operand is evaluated before
      the right one, so its error is the one raised when both fail. */
  function Eval(s: Selector): Result<Handle, Err> {
    match s
    case Compound(cs) => Build(cs)
    case Combined(l, c, rt) =>
      match Eval(l)
      case Failure(e) => Failure(e)
      case Success(a) =>
        match Eval(rt)
        case Failure(e) => Failure(e)
        case Success(b) => Success(Combine(Facade, a, c, b))
  }

  /** Every chain in the selector is valid. */
  predicate WellFormed(s: Selector) {
    match s
    case Compound(cs) => Valid(cs)
    case Combined(l, _, rt) => WellFormed(l) && WellFormed(rt)
  }

  /** The text a selector denotes: each chain in category order, and each
      combinator verbatim with one space on either side, left to right. */
  function Rendered(s: Selector): string {
    match s
    case Compound(cs) => Expected(cs)
    case Combined(l, c, rt) => Rendered(l) + " " + c + " " + Rendered(rt)
  }

  /** The builder accepts a selector expression exactly when every chain in it
      is valid, and `stringify` then yields the denoted text. */
  lemma {:induction false} EvalCorrect(s: Selector)
    ensures Eval(s).Success? <==> WellFormed(s)
    ensures Eval(s).Success? ==> Stringify(Eval(s).value) == Rendered(s)
    ensures Eval(s).Success? ==> Produced(Eval(s).value)
  {
    match s
    case Compound(cs) =>
      BuildCorrect(cs);
      if Valid(cs) {
        BuildStringify(cs);
      }
    case Combined(l, c, rt) =>
      EvalCorrect(l);
      EvalCorrect(rt);
      if Eval(l).Success? && Eval(rt).Success? {
        var a, b := Eval(l).value, Eval(rt).value;
        assert NoParts(Facade);
        assert CombineSelect(a) == Stringify(a) && CombineSelect(b) == Stringify(b);
        assert Eval(s) == Success(Combine(Facade, a, c, b));
      }
  }

  /** The descendant combinator, itself a space, comes out as three spaces. */
  lemma DescendantSpacing(a: Handle, b: Handle)
    ensures Stringify(Combine(Facade, a, " ", b)) == CombineSelect(a) + "   " + CombineSelect(b)
  {
    assert NoParts(Facade);
    assert CombineSelect(a) + " " + " " + " " == CombineSelect(a) + "   ";
  }
}
