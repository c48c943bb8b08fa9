/** The selector handle of the CSS selector builder and the operations on a
    single handle: the six part calls, `combine`, `combineSelect` and
    `stringify` (src/05-objects-tasks.js:122-228).

    The source keeps one mutable object and hands out shallow copies of it;
    here every handle is an immutable value and every call returns a new one. */
module Builder {
  import opened Wrappers

  /** The six categories of a compound selector, in the order in which they
      must be written. */
  datatype Part = ElementPart | IdPart | ClassPart | AttrPart | PseudoClassPart | PseudoElementPart

  /** Position of a part in the mandatory order, from 1 (element) to 6
      (pseudo-element). */
  function Rank(p: Part): (r: nat)
    ensures 1 <= r <= 6
  {
    match p
    case ElementPart => 1
    case IdPart => 2
    case ClassPart => 3
    case AttrPart => 4
    case PseudoClassPart => 5
    case PseudoElementPart => 6
  }

  /** Parts that may be given more than once without a duplicate error. */
  predicate Repeatable(p: Part) {
    p == ClassPart || p == AttrPart || p == PseudoClassPart
  }

  /** Parts whose slot accumulates: a second class is appended to the first.
      An attribute is repeatable but replaces the previous one. */
  predicate Appends(p: Part) {
    p == ClassPart || p == PseudoClassPart
  }

  /** A part may be written after a part `earlier` already set on the same
      handle when it belongs to a strictly later category, or to the same
      repeatable category. */
  predicate Follows(earlier: Part, later: Part) {
    Rank(earlier) < Rank(later) || (earlier == later && Repeatable(later))
  }

  /** The two errors the builder raises: a singleton part given twice, and
      parts given out of order. */
  datatype Err = Duplicate | Order

  /** One builder handle: six part slots and the rendered text of a
      `combine`. The empty string means the slot is unset. */
  datatype Handle = Handle(
    el: string,
    elId: string,
    elClass: string,
    elAttr: string,
    elPseudoClass: string,
    elPseudoElement: string,
    elCombine: string)

  /** The builder object itself, on which every chain starts. */
  const Facade: Handle := Handle("", "", "", "", "", "", "")

  /** The slot that holds the given part. */
  function Slot(h: Handle, p: Part): string {
    match p
    case ElementPart => h.el
    case IdPart => h.elId
    case ClassPart => h.elClass
    case AttrPart => h.elAttr
    case PseudoClassPart => h.elPseudoClass
    case PseudoElementPart => h.elPseudoElement
  }

  /** True when no part slot is set. */
  predicate NoParts(h: Handle) {
    forall p: Part :: Slot(h, p) == ""
  }

  /** `h'` agrees with `h` on every slot except the one holding `p`, and on the
      combined text. */
  predicate SameExcept(h: Handle, h': Handle, p: Part) {
    && h'.elCombine == h.elCombine
    && forall q: Part :: q != p ==> Slot(h', q) == Slot(h, q)
  }

  /** The furthest category reached so far: the rank of the latest set slot,
      or 0 when none is set. */
  function Top(h: Handle): (r: nat)
    ensures r <= 6
    ensures forall p: Part :: Slot(h, p) != "" ==> Rank(p) <= r
    ensures r == 0 <==> NoParts(h)
    ensures r != 0 ==> exists p: Part :: Rank(p) == r && Slot(h, p) != ""
  {
    if h.elPseudoElement != "" then
      assert Slot(h, PseudoElementPart) != "";
      6
    else if h.elPseudoClass != "" then
      assert Slot(h, PseudoClassPart) != "";
      5
    else if h.elAttr != "" then
      assert Slot(h, AttrPart) != "";
      4
    else if h.elClass != "" then
      assert Slot(h, ClassPart) != "";
      3
    else if h.elId != "" then
      assert Slot(h, IdPart) != "";
      2
    else if h.el != "" then
      assert Slot(h, ElementPart) != "";
      1
    else
      0
  }

  /** The single-comparison reading of the order and duplicate rules: a part
      call is accepted when its category comes after the furthest one reached,
      or equals it and is repeatable. */
  predicate Admits(h: Handle, p: Part) {
    Top(h) < Rank(p) || (Top(h) == Rank(p) && Repeatable(p))
  }

  /** The text a part call stores for value `v`. */
  function Piece(p: Part, v: string): (r: string)
    ensures p != ElementPart ==> r != ""
    ensures p == ElementPart ==> r == v
  {
    match p
    case ElementPart => v
    case IdPart => "#" + v
    case ClassPart => "." + v
    case AttrPart => "[" + v + "]"
    case PseudoClassPart => ":" + v
    case PseudoElementPart => "::" + v
  }

  /** `element(value)`: a duplicate error when an element is already set, else
      an order error when any later part is set, else the value verbatim. An
      empty value leaves the slot unset. */
  function Element(h: Handle, v: string): (r: Result<Handle, Err>)
    ensures r.Success? <==> Admits(h, ElementPart)
    ensures r.Failure? ==> r.error == (if Slot(h, ElementPart) != "" then Duplicate else Order)
    ensures r.Success? ==> Slot(r.value, ElementPart) == v && SameExcept(h, r.value, ElementPart)
  {
    if h.el != "" then Failure(Duplicate)
    else if h.elId != "" || h.elClass != "" || h.elAttr != "" || h.elPseudoClass != "" || h.elPseudoElement != "" then
      Failure(Order)
    else Success(h.(el := v))
  }

  /** `id(value)`: a duplicate error when an id is already set, else an order
      error when a class, attribute, pseudo-class or pseudo-element is set,
      else `#value`. */
  function Id(h: Handle, v: string): (r: Result<Handle, Err>)
    ensures r.Success? <==> Admits(h, IdPart)
    ensures r.Failure? ==> r.error == (if Slot(h, IdPart) != "" then Duplicate else Order)
    ensures r.Success? ==> Slot(r.value, IdPart) == "#" + v && SameExcept(h, r.value, IdPart)
  {
    if h.elId != "" then Failure(Duplicate)
    else if h.elClass != "" || h.elAttr != "" || h.elPseudoClass != "" || h.elPseudoElement != "" then
      Failure(Order)
    else Success(h.(elId := "#" + v))
  }

  /** `class(value)`: an order error when an attribute, pseudo-class or
      pseudo-element is set, else `.value` appended to the classes so far. */
  function Class(h: Handle, v: string): (r: Result<Handle, Err>)
    ensures r.Success? <==> Admits(h, ClassPart)
    ensures r.Failure? ==> r.error == Order
    ensures r.Success? ==> Slot(r.value, ClassPart) == Slot(h, ClassPart) + "." + v
    ensures r.Success? ==> SameExcept(h, r.value, ClassPart)
  {
    if h.elAttr != "" || h.elPseudoClass != "" || h.elPseudoElement != "" then Failure(Order)
    else Success(h.(elClass := h.elClass + "." + v))
  }

  /** `attr(value)`: an order error when a pseudo-class or pseudo-element is
      set, else `[value]`, which replaces any earlier attribute. */
  function Attr(h: Handle, v: string): (r: Result<Handle, Err>)
    ensures r.Success? <==> Admits(h, AttrPart)
    ensures r.Failure? ==> r.error == Order
    ensures r.Success? ==> Slot(r.value, AttrPart) == "[" + v + "]" && SameExcept(h, r.value, AttrPart)
  {
    if h.elPseudoClass != "" || h.elPseudoElement != "" then Failure(Order)
    else Success(h.(elAttr := "[" + v + "]"))
  }

  /** `pseudoClass(value)`: an order error when a pseudo-element is set, else
      `:value` appended to the pseudo-classes so far. */
  function PseudoClass(h: Handle, v: string): (r: Result<Handle, Err>)
    ensures r.Success? <==> Admits(h, PseudoClassPart)
    ensures r.Failure? ==> r.error == Order
    ensures r.Success? ==> Slot(r.value, PseudoClassPart) == Slot(h, PseudoClassPart) + ":" + v
    ensures r.Success? ==> SameExcept(h, r.value, PseudoClassPart)
  {
    if h.elPseudoElement != "" then Failure(Order)
    else Success(h.(elPseudoClass := h.elPseudoClass + ":" + v))
  }

  /** `pseudoElement(value)`: a duplicate error when a pseudo-element is
      already set, else `::value`. It never raises the order error. */
  function PseudoElement(h: Handle, v: string): (r: Result<Handle, Err>)
    ensures r.Success? <==> Admits(h, PseudoElementPart)
    ensures r.Failure? ==> r.error == Duplicate
    ensures r.Success? ==> Slot(r.value, PseudoElementPart) == "::" + v
    ensures r.Success? ==> SameExcept(h, r.value, PseudoElementPart)
  {
    if h.elPseudoElement != "" then Failure(Duplicate)
    else Success(h.(elPseudoElement := "::" + v))
  }

  /** The part call for `p` with value `v`, as one operation. */
  function Apply(h: Handle, p: Part, v: string): Result<Handle, Err> {
    match p
    case ElementPart => Element(h, v)
    case IdPart => Id(h, v)
    case ClassPart => Class(h, v)
    case AttrPart => Attr(h, v)
    case PseudoClassPart => PseudoClass(h, v)
    case PseudoElementPart => PseudoElement(h, v)
  }

  /** Every part call follows one rule: it is accepted exactly when the
      single-comparison order rule admits it; a refused singleton part that is
      already set is a duplicate, any other refusal an order error; an
      accepted call appends to or replaces its own slot and leaves the rest of
      the handle alone. */
  lemma ApplyContract(h: Handle, p: Part, v: string)
    ensures Apply(h, p, v).Success? <==> Admits(h, p)
    ensures Apply(h, p, v).Failure? ==> (Apply(h, p, v).error == Duplicate <==> !Repeatable(p) && Slot(h, p) != "")
    ensures Apply(h, p, v).Success? ==>
      Slot(Apply(h, p, v).value, p) == (if Appends(p) then Slot(h, p) else "") + Piece(p, v)
    ensures Apply(h, p, v).Success? ==> SameExcept(h, Apply(h, p, v).value, p)
  {
  }

  /** `cleanObj()`: clears the six part slots and keeps the combined text.
      The source runs it on the handle a part call was made on, after copying
      it, so that handle is ready to start over. */
  function CleanObj(h: Handle): (r: Handle)
    ensures NoParts(r) && r.elCombine == h.elCombine
    ensures h.elCombine == "" ==> r == Facade
  {
    h.(el := "", elId := "", elClass := "", elAttr := "", elPseudoClass := "", elPseudoElement := "")
  }

  /** The six part slots written one after another in category order. */
  function Parts(h: Handle): (r: string)
    ensures r == "" <==> NoParts(h)
  {
    var r := h.el + h.elId + h.elClass + h.elAttr + h.elPseudoClass + h.elPseudoElement;
    assert r == "" <==> NoParts(h) by {
      if NoParts(h) {
        assert Slot(h, ElementPart) == "" && Slot(h, IdPart) == "" && Slot(h, ClassPart) == "";
        assert Slot(h, AttrPart) == "" && Slot(h, PseudoClassPart) == "" && Slot(h, PseudoElementPart) == "";
      }
      if r == "" {
        assert |r| == |h.el| + |h.elId| + |h.elClass| + |h.elAttr| + |h.elPseudoClass| + |h.elPseudoElement|;
        forall p: Part ensures Slot(h, p) == "" {
        }
      }
    }
    r
  }

  /** Either nothing has been combined into the handle, or it holds only
      combined text. Every handle reached from the builder object by part
      chains and nested `combine` calls is of this shape; a part call on a
      `combine` result is not (see `DocExamples.PartAfterCombine`). */
  predicate Produced(h: Handle) {
    h.elCombine == "" || NoParts(h)
  }

  /** `combineSelect()`: the part slots followed by the combined text, used to
      render each operand of `combine`. */
  function CombineSelect(h: Handle): (r: string)
    ensures NoParts(h) ==> r == h.elCombine
    ensures h.elCombine == "" ==> r == Parts(h)
  {
    Parts(h) + h.elCombine
  }

  /** `stringify()`: the combined text if there is any, otherwise the part
      slots in category order. It agrees with `combineSelect` on every
      `Produced` handle, but not on a handle holding both parts and combined
      text. */
  function Stringify(h: Handle): (r: string)
    ensures Produced(h) ==> r == CombineSelect(h)
    ensures r == "" <==> h.elCombine == "" && NoParts(h)
  {
    if h.elCombine == "" then Parts(h) else h.elCombine
  }

  /** `combine(left, combinator, right)` called on handle `h`: the rendered
      operands joined by the combinator with one space on each side are
      appended to `h`'s combined text; the part slots of `h` are kept. The
      combinator is not checked. */
  function Combine(h: Handle, left: Handle, combinator: string, right: Handle): (r: Handle)
    ensures forall p: Part :: Slot(r, p) == Slot(h, p)
    ensures r.elCombine != "" && h.elCombine <= r.elCombine
    ensures NoParts(h) && h.elCombine == "" ==>
      Stringify(r) == CombineSelect(left) + " " + combinator + " " + CombineSelect(right)
  {
    var t := CombineSelect(left) + " " + combinator + " " + CombineSelect(right);
    assert |t| > 0;
    assert (h.elCombine + t)[..|h.elCombine|] == h.elCombine;
    assert h.elCombine == "" ==> h.elCombine + t == t;
    h.(elCombine := h.elCombine + t)
  }
}
