/** A fluent chain of part calls started on the builder object, such as
    `builder.id('main').class('container').class('editable')`
    (src/05-objects-tasks.js:98-102, 131-195), and what it renders to. */
module Chain {
  import opened Wrappers
  import opened Builder

  /** One part call of a chain: which part, and the value passed. */
  datatype Call = Call(part: Part, value: string)

  /** The text a call stores. Only `element('')` stores nothing. */
  function Mark(c: Call): string {
    Piece(c.part, c.value)
  }

  /** Runs the calls in order, starting on the builder object; the first call
      that raises ends the chain with its error. */
  function Build(cs: seq<Call>): Result<Handle, Err>
    decreases |cs|
  {
    if |cs| == 0 then Success(Facade)
    else
      match Build(cs[..|cs| - 1])
      case Failure(e) => Failure(e)
      case Success(h) => Apply(h, cs[|cs| - 1].part, cs[|cs| - 1].value)
  }

  /** The calls respect the builder's rules: every call that stored something
      is followed only by calls of a later category, or of the same repeatable
      category. */
  predicate Valid(cs: seq<Call>) {
    forall i, j :: 0 <= i < j < |cs| && Mark(cs[i]) != "" ==> Follows(cs[i].part, cs[j].part)
  }

  /** Some call for part `p` stored something. */
  predicate Marked(cs: seq<Call>, p: Part) {
    exists i :: 0 <= i < |cs| && cs[i].part == p && Mark(cs[i]) != ""
  }

  /** The texts of all calls for part `p`, in call order. */
  function Pieces(cs: seq<Call>, p: Part): string
    decreases |cs|
  {
    if |cs| == 0 then ""
    else Pieces(cs[..|cs| - 1], p) + (if cs[|cs| - 1].part == p then Mark(cs[|cs| - 1]) else "")
  }

  /** The text of the last call for part `p`, or nothing. */
  function LastPiece(cs: seq<Call>, p: Part): string
    decreases |cs|
  {
    if |cs| == 0 then ""
    else if cs[|cs| - 1].part == p then Mark(cs[|cs| - 1])
    else LastPiece(cs[..|cs| - 1], p)
  }

  /** What a category contributes to the selector: the last attribute alone,
      and for every other part all its calls in order. */
  function Text(cs: seq<Call>, p: Part): string {
    if p == AttrPart then LastPiece(cs, p) else Pieces(cs, p)
  }

  /** The selector a valid chain denotes: the categories in the fixed order
      element, id, class, attribute, pseudo-class, pseudo-element, whatever
      the order of the calls. */
  function Expected(cs: seq<Call>): string {
    Text(cs, ElementPart) + Text(cs, IdPart) + Text(cs, ClassPart)
      + Text(cs, AttrPart) + Text(cs, PseudoClassPart) + Text(cs, PseudoElementPart)
  }

  /** A chain ending in `c` has a marking call for `p` when its prefix has
      one or `c` is one. */
  lemma MarkedSnoc(cs: seq<Call>, p: Part)
    requires |cs| > 0
    ensures Marked(cs, p) <==>
      Marked(cs[..|cs| - 1], p) || (cs[|cs| - 1].part == p && Mark(cs[|cs| - 1]) != "")
  {
    var pre, n := cs[..|cs| - 1], |cs| - 1;
    if Marked(pre, p) {
      var i :| 0 <= i < |pre| && pre[i].part == p && Mark(pre[i]) != "";
      assert cs[i] == pre[i];
      assert 0 <= i < |cs| && cs[i].part == p && Mark(cs[i]) != "";
    }
    if cs[n].part == p && Mark(cs[n]) != "" {
      assert 0 <= n < |cs| && cs[n].part == p && Mark(cs[n]) != "";
    }
    if Marked(cs, p) && !(cs[n].part == p && Mark(cs[n]) != "") {
      var i :| 0 <= i < |cs| && cs[i].part == p && Mark(cs[i]) != "";
      assert i != n;
      assert pre[i] == cs[i];
      assert 0 <= i < |pre| && pre[i].part == p && Mark(pre[i]) != "";
    }
  }

  lemma {:induction false} PiecesEmpty(cs: seq<Call>, p: Part)
    ensures Pieces(cs, p) == "" <==> !Marked(cs, p)
    decreases |cs|
  {
    if |cs| > 0 {
      var pre, c := cs[..|cs| - 1], cs[|cs| - 1];
      PiecesEmpty(pre, p);
      MarkedSnoc(cs, p);
      var tail := if c.part == p then Mark(c) else "";
      assert Pieces(cs, p) == Pieces(pre, p) + tail;
      assert |Pieces(cs, p)| == |Pieces(pre, p)| + |tail|;
    }
  }

  lemma {:induction false} LastPieceEmpty(cs: seq<Call>, p: Part)
    requires p != ElementPart
    ensures LastPiece(cs, p) == "" <==> !Marked(cs, p)
    decreases |cs|
  {
    if |cs| > 0 {
      var pre, c := cs[..|cs| - 1], cs[|cs| - 1];
      LastPieceEmpty(pre, p);
      MarkedSnoc(cs, p);
      if c.part == p {
        assert Mark(c) != "";
      }
    }
  }

  /** A category contributes text exactly when one of its calls stored
      something. */
  lemma TextEmpty(cs: seq<Call>, p: Part)
    ensures Text(cs, p) == "" <==> !Marked(cs, p)
  {
    if p == AttrPart {
      LastPieceEmpty(cs, p);
    } else {
      PiecesEmpty(cs, p);
    }
  }

  /** Validity of a chain extended by one call. */
  lemma ValidSnoc(cs: seq<Call>, c: Call)
    ensures Valid(cs + [c]) <==>
      Valid(cs) && forall i :: 0 <= i < |cs| && Mark(cs[i]) != "" ==> Follows(cs[i].part, c.part)
  {
    var cs' := cs + [c];
    assert forall i :: 0 <= i < |cs| ==> cs'[i] == cs[i];
    assert cs'[|cs|] == c;
  }

  /** The single-comparison rule agrees with checking every set slot. */
  lemma AdmitsFollows(h: Handle, p: Part)
    ensures Admits(h, p) <==> forall q: Part :: Slot(h, q) != "" ==> Follows(q, p)
  {
    if Top(h) != 0 && forall q: Part :: Slot(h, q) != "" ==> Follows(q, p) {
      var q: Part :| Rank(q) == Top(h) && Slot(h, q) != "";
      assert Follows(q, p);
    }
    if Admits(h, p) {
      forall q: Part | Slot(h, q) != "" ensures Follows(q, p) {
        assert Rank(q) <= Top(h);
        if Rank(q) == Rank(p) {
          assert q == p by {
            match q
            case _ =>
              assert Rank(q) == Rank(p);
          }
        }
      }
    }
  }

  /** One accepted call extends each category's text as the chain's
      reading says. */
  lemma ApplyText(cs: seq<Call>, c: Call, h: Handle)
    requires forall p: Part :: Slot(h, p) == Text(cs, p)
    requires Apply(h, c.part, c.value).Success?
    ensures forall p: Part :: Slot(Apply(h, c.part, c.value).value, p) == Text(cs + [c], p)
  {
    var cs' := cs + [c];
    assert cs'[..|cs'| - 1] == cs;
    ApplyContract(h, c.part, c.value);
    var r := Apply(h, c.part, c.value).value;
    forall p: Part ensures Slot(r, p) == Text(cs', p) {
      if p != c.part {
        assert Slot(r, p) == Slot(h, p);
      } else if !Repeatable(p) {
        assert Top(h) < Rank(p);
        assert Slot(h, p) == "";
      }
    }
  }

  /** Running a chain extended by one call runs the chain, then the call. */
  lemma BuildSnoc(cs: seq<Call>, c: Call)
    ensures Build(cs + [c]) ==
      match Build(cs)
      case Failure(e) => Failure(e)
      case Success(h) => Apply(h, c.part, c.value)
  {
    assert (cs + [c])[..|cs|] == cs;
  }

  /** An accepted call extends an accepted chain. */
  lemma BuildStep(cs: seq<Call>, c: Call, h: Handle, h': Handle)
    requires Build(cs) == Success(h) && Apply(h, c.part, c.value) == Success(h')
    ensures Build(cs + [c]) == Success(h')
  {
    BuildSnoc(cs, c);
  }

  /** A chain whose every call is accepted, with `hs` the handles it passes
      through, ends on the last of them. */
  lemma {:induction false} BuildTrace(cs: seq<Call>, hs: seq<Handle>)
    requires |hs| == |cs| + 1 && hs[0] == Facade
    requires forall i :: 0 <= i < |cs| ==> Apply(hs[i], cs[i].part, cs[i].value) == Success(hs[i + 1])
    ensures Build(cs) == Success(hs[|cs|])
    decreases |cs|
  {
    if |cs| > 0 {
      var pre, c := cs[..|cs| - 1], cs[|cs| - 1];
      BuildTrace(pre, hs[..|cs|]);
      BuildStep(pre, c, hs[|cs| - 1], hs[|cs|]);
      assert pre + [c] == cs;
    }
  }

  /** The builder accepts a chain exactly when the chain is valid, and then
      every slot holds its category's text. */
  lemma {:induction false} BuildCorrect(cs: seq<Call>)
    ensures Build(cs).Success? <==> Valid(cs)
    ensures Build(cs).Success? ==> forall p: Part :: Slot(Build(cs).value, p) == Text(cs, p)
    ensures Build(cs).Success? ==> Build(cs).value.elCombine == ""
    decreases |cs|
  {
    if |cs| == 0 {
      forall p: Part ensures Slot(Facade, p) == Text(cs, p) {
      }
    } else {
      var pre, c := cs[..|cs| - 1], cs[|cs| - 1];
      assert cs == pre + [c];
      BuildCorrect(pre);
      ValidSnoc(pre, c);
      match Build(pre)
      case Failure(_) =>
      case Success(h) =>
        AdmitsFollows(h, c.part);
        ApplyContract(h, c.part, c.value);
        forall q: Part ensures Slot(h, q) != "" <==> Marked(pre, q) {
          TextEmpty(pre, q);
        }
        assert (forall q: Part :: Slot(h, q) != "" ==> Follows(q, c.part)) <==>
          (forall i :: 0 <= i < |pre| && Mark(pre[i]) != "" ==> Follows(pre[i].part, c.part)) by {
          if forall q: Part :: Slot(h, q) != "" ==> Follows(q, c.part) {
            forall i | 0 <= i < |pre| && Mark(pre[i]) != "" ensures Follows(pre[i].part, c.part) {
              assert Marked(pre, pre[i].part);
            }
          }
        }
        if Apply(h, c.part, c.value).Success? {
          ApplyText(pre, c, h);
        }
    }
  }

  /** A valid chain renders as its categories in the fixed order. */
  lemma BuildStringify(cs: seq<Call>)
    requires Valid(cs)
    ensures Build(cs).Success?
    ensures Stringify(Build(cs).value) == Expected(cs)
  {
    BuildCorrect(cs);
    var h := Build(cs).value;
    assert Slot(h, ElementPart) == Text(cs, ElementPart);
    assert Slot(h, IdPart) == Text(cs, IdPart);
    assert Slot(h, ClassPart) == Text(cs, ClassPart);
    assert Slot(h, AttrPart) == Text(cs, AttrPart);
    assert Slot(h, PseudoClassPart) == Text(cs, PseudoClassPart);
    assert Slot(h, PseudoElementPart) == Text(cs, PseudoElementPart);
  }
}
