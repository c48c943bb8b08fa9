/** The usage examples documented with the builder
    (src/05-objects-tasks.js:94-117), the error cases it names, and one use
    the builder allows but `stringify` does not render in full. Each chain is
    traced call by call: the handle after every accepted call, then the text. */
module DocExamples {
  import opened Wrappers
  import opened Builder
  import opened Chain
  import opened Compose

  /** `builder.id('main').class('container').class('editable')` */
  const IdClasses: seq<Call> := [Call(IdPart, "main"), Call(ClassPart, "container"), Call(ClassPart, "editable")]

  lemma IdClassesStep1()
    ensures Apply(Facade, IdPart, "main") == Success(Facade.(elId := "#main"))
  {
    assert "#" + "main" == "#main";
    assert Apply(Facade, IdPart, "main") == Id(Facade, "main");
  }

  lemma IdClassesStep2()
    ensures Apply(Facade.(elId := "#main"), ClassPart, "container") == Success(Facade.(elId := "#main", elClass := ".container"))
  {
    assert "" + "." + "container" == ".container";
    assert Apply(Facade.(elId := "#main"), ClassPart, "container") == Class(Facade.(elId := "#main"), "container");
  }

  lemma IdClassesStep3()
    ensures Apply(Facade.(elId := "#main", elClass := ".container"), ClassPart, "editable") == Success(Facade.(elId := "#main", elClass := ".container.editable"))
  {
    assert ".container" + "." + "editable" == ".container.editable";
    assert Apply(Facade.(elId := "#main", elClass := ".container"), ClassPart, "editable") == Class(Facade.(elId := "#main", elClass := ".container"), "editable");
  }

  lemma IdClassesBuilt()
    ensures Build(IdClasses) == Success(Facade.(elId := "#main", elClass := ".container.editable"))
  {
    var hs := [Facade, Facade.(elId := "#main"), Facade.(elId := "#main", elClass := ".container"), Facade.(elId := "#main", elClass := ".container.editable")];
    forall i | 0 <= i < 3
      ensures Apply(hs[i], IdClasses[i].part, IdClasses[i].value) == Success(hs[i + 1])
    {
      if i == 0 {
        IdClassesStep1();
      } else if i == 1 {
        IdClassesStep2();
      } else {
        IdClassesStep3();
      }
    }
    BuildTrace(IdClasses, hs);
  }

  lemma IdClassesText()
    ensures Stringify(Facade.(elId := "#main", elClass := ".container.editable")) == "#main.container.editable"
    ensures CombineSelect(Facade.(elId := "#main", elClass := ".container.editable")) == "#main.container.editable"
  {
    assert "#main" + ".container.editable" == "#main.container.editable";
  }

  /** `builder.element('a').attr('href$=".png"').pseudoClass('focus')` */
  const LinkFocus: seq<Call> := [Call(ElementPart, "a"), Call(AttrPart, "href$=\".png\""), Call(PseudoClassPart, "focus")]

  lemma LinkFocusStep1()
    ensures Apply(Facade, ElementPart, "a") == Success(Facade.(el := "a"))
  {
    assert Apply(Facade, ElementPart, "a") == Element(Facade, "a");
  }

  lemma LinkFocusStep2()
    ensures Apply(Facade.(el := "a"), AttrPart, "href$=\".png\"") == Success(Facade.(el := "a", elAttr := "[href$=\".png\"]"))
  {
    assert "[" + "href$=\".png\"" + "]" == "[href$=\".png\"]";
    assert Apply(Facade.(el := "a"), AttrPart, "href$=\".png\"") == Attr(Facade.(el := "a"), "href$=\".png\"");
  }

  lemma LinkFocusStep3()
    ensures Apply(Facade.(el := "a", elAttr := "[href$=\".png\"]"), PseudoClassPart, "focus") == Success(Facade.(el := "a", elAttr := "[href$=\".png\"]", elPseudoClass := ":focus"))
  {
    assert "" + ":" + "focus" == ":focus";
    assert Apply(Facade.(el := "a", elAttr := "[href$=\".png\"]"), PseudoClassPart, "focus") == PseudoClass(Facade.(el := "a", elAttr := "[href$=\".png\"]"), "focus");
  }

  lemma LinkFocusBuilt()
    ensures Build(LinkFocus) == Success(Facade.(el := "a", elAttr := "[href$=\".png\"]", elPseudoClass := ":focus"))
  {
    var hs := [Facade, Facade.(el := "a"), Facade.(el := "a", elAttr := "[href$=\".png\"]"), Facade.(el := "a", elAttr := "[href$=\".png\"]", elPseudoClass := ":focus")];
    forall i | 0 <= i < 3
      ensures Apply(hs[i], LinkFocus[i].part, LinkFocus[i].value) == Success(hs[i + 1])
    {
      if i == 0 {
        LinkFocusStep1();
      } else if i == 1 {
        LinkFocusStep2();
      } else {
        LinkFocusStep3();
      }
    }
    BuildTrace(LinkFocus, hs);
  }

  lemma LinkFocusText()
    ensures Stringify(Facade.(el := "a", elAttr := "[href$=\".png\"]", elPseudoClass := ":focus")) == "a[href$=\".png\"]:focus"
    ensures CombineSelect(Facade.(el := "a", elAttr := "[href$=\".png\"]", elPseudoClass := ":focus")) == "a[href$=\".png\"]:focus"
  {
    assert "a" + "[href$=\".png\"]" + ":focus" == "a[href$=\".png\"]:focus";
  }

  /** `builder.element('div').id('main').class('container').class('draggable')` */
  const Div: seq<Call> := [Call(ElementPart, "div"), Call(IdPart, "main"), Call(ClassPart, "container"), Call(ClassPart, "draggable")]

  lemma DivStep1()
    ensures Apply(Facade, ElementPart, "div") == Success(Facade.(el := "div"))
  {
    assert Apply(Facade, ElementPart, "div") == Element(Facade, "div");
  }

  lemma DivStep2()
    ensures Apply(Facade.(el := "div"), IdPart, "main") == Success(Facade.(el := "div", elId := "#main"))
  {
    assert "#" + "main" == "#main";
    assert Apply(Facade.(el := "div"), IdPart, "main") == Id(Facade.(el := "div"), "main");
  }

  lemma DivStep3()
    ensures Apply(Facade.(el := "div", elId := "#main"), ClassPart, "container") == Success(Facade.(el := "div", elId := "#main", elClass := ".container"))
  {
    assert "" + "." + "container" == ".container";
    assert Apply(Facade.(el := "div", elId := "#main"), ClassPart, "container") == Class(Facade.(el := "div", elId := "#main"), "container");
  }

  lemma DivStep4()
    ensures Apply(Facade.(el := "div", elId := "#main", elClass := ".container"), ClassPart, "draggable") == Success(Facade.(el := "div", elId := "#main", elClass := ".container.draggable"))
  {
    assert ".container" + "." + "draggable" == ".container.draggable";
    assert Apply(Facade.(el := "div", elId := "#main", elClass := ".container"), ClassPart, "draggable") == Class(Facade.(el := "div", elId := "#main", elClass := ".container"), "draggable");
  }

  lemma DivBuilt()
    ensures Build(Div) == Success(Facade.(el := "div", elId := "#main", elClass := ".container.draggable"))
  {
    var hs := [Facade, Facade.(el := "div"), Facade.(el := "div", elId := "#main"), Facade.(el := "div", elId := "#main", elClass := ".container"), Facade.(el := "div", elId := "#main", elClass := ".container.draggable")];
    forall i | 0 <= i < 4
      ensures Apply(hs[i], Div[i].part, Div[i].value) == Success(hs[i + 1])
    {
      if i == 0 {
        DivStep1();
      } else if i == 1 {
        DivStep2();
      } else if i == 2 {
        DivStep3();
      } else {
        DivStep4();
      }
    }
    BuildTrace(Div, hs);
  }

  lemma DivText()
    ensures Stringify(Facade.(el := "div", elId := "#main", elClass := ".container.draggable")) == "div#main.container.draggable"
    ensures CombineSelect(Facade.(el := "div", elId := "#main", elClass := ".container.draggable")) == "div#main.container.draggable"
  {
    assert "div" + "#main" + ".container.draggable" == "div#main.container.draggable";
  }

  /** `builder.element('table').id('data')` */
  const Table: seq<Call> := [Call(ElementPart, "table"), Call(IdPart, "data")]

  lemma TableStep1()
    ensures Apply(Facade, ElementPart, "table") == Success(Facade.(el := "table"))
  {
    assert Apply(Facade, ElementPart, "table") == Element(Facade, "table");
  }

  lemma TableStep2()
    ensures Apply(Facade.(el := "table"), IdPart, "data") == Success(Facade.(el := "table", elId := "#data"))
  {
    assert "#" + "data" == "#data";
    assert Apply(Facade.(el := "table"), IdPart, "data") == Id(Facade.(el := "table"), "data");
  }

  lemma TableBuilt()
    ensures Build(Table) == Success(Facade.(el := "table", elId := "#data"))
  {
    var hs := [Facade, Facade.(el := "table"), Facade.(el := "table", elId := "#data")];
    forall i | 0 <= i < 2
      ensures Apply(hs[i], Table[i].part, Table[i].value) == Success(hs[i + 1])
    {
      if i == 0 {
        TableStep1();
      } else {
        TableStep2();
      }
    }
    BuildTrace(Table, hs);
  }

  lemma TableText()
    ensures Stringify(Facade.(el := "table", elId := "#data")) == "table#data"
    ensures CombineSelect(Facade.(el := "table", elId := "#data")) == "table#data"
  {
    assert "table" + "#data" == "table#data";
  }

  /** `builder.element('tr').pseudoClass('nth-of-type(even)')` */
  const Row: seq<Call> := [Call(ElementPart, "tr"), Call(PseudoClassPart, "nth-of-type(even)")]

  lemma RowStep1()
    ensures Apply(Facade, ElementPart, "tr") == Success(Facade.(el := "tr"))
  {
    assert Apply(Facade, ElementPart, "tr") == Element(Facade, "tr");
  }

  lemma RowStep2()
    ensures Apply(Facade.(el := "tr"), PseudoClassPart, "nth-of-type(even)") == Success(Facade.(el := "tr", elPseudoClass := ":nth-of-type(even)"))
  {
    assert "" + ":" + "nth-of-type(even)" == ":nth-of-type(even)";
    assert Apply(Facade.(el := "tr"), PseudoClassPart, "nth-of-type(even)") == PseudoClass(Facade.(el := "tr"), "nth-of-type(even)");
  }

  lemma RowBuilt()
    ensures Build(Row) == Success(Facade.(el := "tr", elPseudoClass := ":nth-of-type(even)"))
  {
    var hs := [Facade, Facade.(el := "tr"), Facade.(el := "tr", elPseudoClass := ":nth-of-type(even)")];
    forall i | 0 <= i < 2
      ensures Apply(hs[i], Row[i].part, Row[i].value) == Success(hs[i + 1])
    {
      if i == 0 {
        RowStep1();
      } else {
        RowStep2();
      }
    }
    BuildTrace(Row, hs);
  }

  lemma RowText()
    ensures Stringify(Facade.(el := "tr", elPseudoClass := ":nth-of-type(even)")) == "tr:nth-of-type(even)"
    ensures CombineSelect(Facade.(el := "tr", elPseudoClass := ":nth-of-type(even)")) == "tr:nth-of-type(even)"
  {
    assert "tr" + ":nth-of-type(even)" == "tr:nth-of-type(even)";
  }

  /** `builder.element('td').pseudoClass('nth-of-type(even)')` */
  const Cell: seq<Call> := [Call(ElementPart, "td"), Call(PseudoClassPart, "nth-of-type(even)")]

  lemma CellStep1()
    ensures Apply(Facade, ElementPart, "td") == Success(Facade.(el := "td"))
  {
    assert Apply(Facade, ElementPart, "td") == Element(Facade, "td");
  }

  lemma CellStep2()
    ensures Apply(Facade.(el := "td"), PseudoClassPart, "nth-of-type(even)") == Success(Facade.(el := "td", elPseudoClass := ":nth-of-type(even)"))
  {
    assert "" + ":" + "nth-of-type(even)" == ":nth-of-type(even)";
    assert Apply(Facade.(el := "td"), PseudoClassPart, "nth-of-type(even)") == PseudoClass(Facade.(el := "td"), "nth-of-type(even)");
  }

  lemma CellBuilt()
    ensures Build(Cell) == Success(Facade.(el := "td", elPseudoClass := ":nth-of-type(even)"))
  {
    var hs := [Facade, Facade.(el := "td"), Facade.(el := "td", elPseudoClass := ":nth-of-type(even)")];
    forall i | 0 <= i < 2
      ensures Apply(hs[i], Cell[i].part, Cell[i].value) == Success(hs[i + 1])
    {
      if i == 0 {
        CellStep1();
      } else {
        CellStep2();
      }
    }
    BuildTrace(Cell, hs);
  }

  lemma CellText()
    ensures Stringify(Facade.(el := "td", elPseudoClass := ":nth-of-type(even)")) == "td:nth-of-type(even)"
    ensures CombineSelect(Facade.(el := "td", elPseudoClass := ":nth-of-type(even)")) == "td:nth-of-type(even)"
  {
    assert "td" + ":nth-of-type(even)" == "td:nth-of-type(even)";
  }

  lemma IdClassesExample()
    ensures Build(IdClasses).Success?
    ensures Stringify(Build(IdClasses).value) == "#main.container.editable"
  {
    IdClassesBuilt();
    IdClassesText();
  }

  lemma LinkFocusExample()
    ensures Build(LinkFocus).Success?
    ensures Stringify(Build(LinkFocus).value) == "a[href$=\".png\"]:focus"
  {
    LinkFocusBuilt();
    LinkFocusText();
  }

  /** `combine` on the builder object, given what its operands render as. */
  lemma CombineOnBuilder(a: Handle, c: string, b: Handle, sa: string, sb: string)
    requires CombineSelect(a) == sa && CombineSelect(b) == sb
    ensures Combine(Facade, a, c, b) == Facade.(elCombine := sa + (" " + c + " ") + sb)
  {
    var t := sa + " " + c + " " + sb;
    assert Combine(Facade, a, c, b) == Facade.(elCombine := "" + t);
    assert "" + t == t;
  }

  /** What `stringify` returns for a `combine` on the builder object, given
      what its operands render as. */
  lemma CombineText(a: Handle, c: string, b: Handle, sa: string, sb: string)
    requires CombineSelect(a) == sa && CombineSelect(b) == sb
    ensures Stringify(Combine(Facade, a, c, b)) == sa + (" " + c + " ") + sb
  {
    CombineOnBuilder(a, c, b, sa, sb);
    assert |sa + (" " + c + " ") + sb| > 0;
  }

  /** `builder.combine(row, ' ', cell)`, the innermost `combine` of the
      documented example: the descendant combinator gives three spaces. */
  lemma RowCellExample()
    ensures Eval(Combined(Compound(Row), " ", Compound(Cell)))
      == Success(Facade.(elCombine := "tr:nth-of-type(even)" + "   " + "td:nth-of-type(even)"))
  {
    var row, cell := Facade.(el := "tr", elPseudoClass := ":nth-of-type(even)"), Facade.(el := "td", elPseudoClass := ":nth-of-type(even)");
    RowBuilt();
    CellBuilt();
    assert Eval(Combined(Compound(Row), " ", Compound(Cell))) == Success(Combine(Facade, row, " ", cell));
    RowText();
    CellText();
    CombineOnBuilder(row, " ", cell, "tr:nth-of-type(even)", "td:nth-of-type(even)");
    assert " " + " " + " " == "   ";
  }

  /** `builder.combine(table, '~', <row and cell>)` */
  lemma TableRowCellExample()
    ensures Eval(Combined(Compound(Table), "~", Combined(Compound(Row), " ", Compound(Cell))))
      == Success(Facade.(elCombine := "table#data" + " ~ " + ("tr:nth-of-type(even)" + "   " + "td:nth-of-type(even)")))
  {
    var table := Facade.(el := "table", elId := "#data");
    var inner := "tr:nth-of-type(even)" + "   " + "td:nth-of-type(even)";
    TableBuilt();
    RowCellExample();
    assert Eval(Combined(Compound(Table), "~", Combined(Compound(Row), " ", Compound(Cell))))
      == Success(Combine(Facade, table, "~", Facade.(elCombine := inner)));
    TableText();
    assert CombineSelect(Facade.(elCombine := inner)) == inner;
    CombineOnBuilder(table, "~", Facade.(elCombine := inner), "table#data", inner);
    assert " " + "~" + " " == " ~ ";
  }

  /** The nested `combine` of the documentation. */
  const Nested: Selector :=
    Combined(Compound(Div), "+", Combined(Compound(Table), "~", Combined(Compound(Row), " ", Compound(Cell))))

  /** The outer `combine` of the documented example, one step. */
  lemma NestedStep()
    ensures Eval(Nested) == Success(Combine(Facade,
      Facade.(el := "div", elId := "#main", elClass := ".container.draggable"), "+",
      Facade.(elCombine := "table#data" + " ~ " + ("tr:nth-of-type(even)" + "   " + "td:nth-of-type(even)"))))
  {
    DivBuilt();
    TableRowCellExample();
  }

  /** The documented output, written as its selectors and combinators,
      grouped as the `combine` calls nest. */
  lemma NestedExample()
    ensures Eval(Nested).Success?
    ensures Stringify(Eval(Nested).value)
      == "div#main.container.draggable" + " + " + ("table#data" + " ~ " + ("tr:nth-of-type(even)" + "   " + "td:nth-of-type(even)"))
  {
    assert " " + "+" + " " == " + ";
    var rest := "table#data" + " ~ " + ("tr:nth-of-type(even)" + "   " + "td:nth-of-type(even)");
    NestedStep();
    DivText();
    assert CombineSelect(Facade.(elCombine := rest)) == rest;
    CombineText(Facade.(el := "div", elId := "#main", elClass := ".container.draggable"), "+",
      Facade.(elCombine := rest), "div#main.container.draggable", rest);
  }

  /** A second `element` in one chain raises the duplicate error, even though
      an id set in between would also break the order. */
  lemma DuplicateElementExample()
    ensures Build([Call(ElementPart, "a"), Call(IdPart, "x"), Call(ElementPart, "b")]) == Failure(Duplicate)
  {
    var h1, h2 := Facade.(el := "a"), Facade.(el := "a", elId := "#x");
    assert Apply(Facade, ElementPart, "a") == Element(Facade, "a") == Success(h1);
    assert "#" + "x" == "#x";
    assert Apply(h1, IdPart, "x") == Id(h1, "x") == Success(h2);
    BuildTrace([Call(ElementPart, "a"), Call(IdPart, "x")], [Facade, h1, h2]);
    BuildSnoc([Call(ElementPart, "a"), Call(IdPart, "x")], Call(ElementPart, "b"));
    assert [Call(ElementPart, "a"), Call(IdPart, "x")] + [Call(ElementPart, "b")]
      == [Call(ElementPart, "a"), Call(IdPart, "x"), Call(ElementPart, "b")];
  }

  /** `id` after `class` raises the order error. */
  lemma IdAfterClassExample()
    ensures Build([Call(ClassPart, "a"), Call(IdPart, "x")]) == Failure(Order)
  {
    var h1 := Facade.(elClass := ".a");
    assert "" + "." + "a" == ".a";
    assert Apply(Facade, ClassPart, "a") == Class(Facade, "a") == Success(h1);
    BuildTrace([Call(ClassPart, "a")], [Facade, h1]);
    BuildSnoc([Call(ClassPart, "a")], Call(IdPart, "x"));
    assert [Call(ClassPart, "a")] + [Call(IdPart, "x")] == [Call(ClassPart, "a"), Call(IdPart, "x")];
  }

  /** `element('')` stores nothing, so a second `element` is still accepted. */
  lemma EmptyElementExample()
    ensures Build([Call(ElementPart, ""), Call(ElementPart, "p")]) == Success(Facade.(el := "p"))
  {
    assert Apply(Facade, ElementPart, "") == Element(Facade, "") == Success(Facade);
    assert Apply(Facade, ElementPart, "p") == Element(Facade, "p") == Success(Facade.(el := "p"));
    BuildTrace([Call(ElementPart, ""), Call(ElementPart, "p")], [Facade, Facade, Facade.(el := "p")]);
  }

  /** Only the last attribute survives. */
  lemma AttrReplacesExample()
    ensures Build([Call(AttrPart, "a"), Call(AttrPart, "b")]) == Success(Facade.(elAttr := "[b]"))
  {
    assert "[" + "a" + "]" == "[a]" && "[" + "b" + "]" == "[b]";
    assert Apply(Facade, AttrPart, "a") == Attr(Facade, "a") == Success(Facade.(elAttr := "[a]"));
    assert Apply(Facade.(elAttr := "[a]"), AttrPart, "b") == Attr(Facade.(elAttr := "[a]"), "b")
      == Success(Facade.(elAttr := "[b]"));
    BuildTrace([Call(AttrPart, "a"), Call(AttrPart, "b")], [Facade, Facade.(elAttr := "[a]"), Facade.(elAttr := "[b]")]);
  }

  /** A part call on the result of `combine` is accepted, but `stringify`
      then returns the combined text alone while `combineSelect` puts the part
      in front of it: the result is not `Produced`. */
  lemma PartAfterCombine()
    ensures Element(Facade.(elCombine := "a > b"), "p") == Success(Facade.(el := "p", elCombine := "a > b"))
    ensures Stringify(Facade.(el := "p", elCombine := "a > b")) == "a > b"
    ensures CombineSelect(Facade.(el := "p", elCombine := "a > b")) == "pa > b"
    ensures !Produced(Facade.(el := "p", elCombine := "a > b"))
  {
  }
}
