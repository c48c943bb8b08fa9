# CSS selector builder, modelled in Dafny

This project models `cssSelectorBuilder` from `src/05-objects-tasks.js`. It is
a fluent builder for CSS selector strings. A handle has six part slots and one
slot for combined text:

| slot | filled by |
|---|---|
| `el` | `element(v)`, stored as `v` |
| `elId` | `id(v)`, stored as `#v` |
| `elClass` | `class(v)`, which appends `.v` |
| `elAttr` | `attr(v)`, stored as `[v]` and replacing any earlier value |
| `elPseudoClass` | `pseudoClass(v)`, which appends `:v` |
| `elPseudoElement` | `pseudoElement(v)`, stored as `::v` |
| `elCombine` | `combine(left, combinator, right)` |

The empty string means a slot is unset. Each part call checks two things.
First, a singleton part (element, id or pseudo-element) must not already be
set; if it is, the call raises the duplicate error. Second, no part of a later
category may be set; if one is, the call raises the order error. `combine`
renders both operands with `combineSelect` and appends
`left + ' ' + combinator + ' ' + right` to its receiver's combined text. `stringify` returns the combined text
when there is any. Otherwise it returns the part slots in category order.

Files:

- `wrappers.dfy`: the `Result` type that replaces thrown errors.
- `builder.dfy` (module `Builder`): the `Handle` datatype, the builder object
  `Facade` (every slot empty), and the six part calls. It also holds `Apply`
  (all six calls as one operation), `CleanObj`, `CombineSelect`, `Stringify`
  and `Combine`. The order rule is also stated a second, independent way,
  `Admits`: a call is accepted when its category is later than the furthest
  category reached so far (`Top`), or equal to it and repeatable.
- `chain.dfy` (module `Chain`): a fluent chain such as
  `builder.id('main').class('x')` is a list of calls, and `Build` runs it. The
  module has an independent description of which chains are accepted
  (`Valid`) and of the text they render (`Expected`), and proves that the two
  agree with `Build` in both directions.
- `compose.dfy` (module `Compose`): selector expressions with nested
  `combine`. It proves that evaluation succeeds exactly when every chain is
  valid, and that `stringify` then yields the left-to-right rendering.
- `examples.dfy` (module `DocExamples`): the documented examples, the two
  error cases, and a few edge cases, each traced call by call.

## Model

| member | source | states |
|---|---|---|
| Builder.Top | src/05-objects-tasks.js:131-195 | The furthest category reached is at most 6. It bounds the rank of every set slot, is 0 exactly when no part is set, and is otherwise the rank of a set slot. |
| Builder.Element | src/05-objects-tasks.js:131-142 | `element` is accepted exactly when no part is set. It raises the duplicate error when an element is already set, even if a later part is also set, and the order error otherwise. On success the value is stored verbatim and every other slot and the combined text carry over. |
| Builder.Id | src/05-objects-tasks.js:144-155 | `id` is accepted exactly when only an element (or nothing) is set. The duplicate error takes priority over the order error. On success the slot holds `#` + value and nothing else changes. |
| Builder.Class | src/05-objects-tasks.js:157-165 | `class` is refused, always with the order error, exactly when an attribute, pseudo-class or pseudo-element is set. On success `.value` is appended to the earlier classes and nothing else changes. |
| Builder.Attr | src/05-objects-tasks.js:167-175 | `attr` is refused, always with the order error, exactly when a pseudo-class or pseudo-element is set. On success the slot is replaced by `[value]`, so only the last attribute survives, and nothing else changes. |
| Builder.PseudoClass | src/05-objects-tasks.js:177-185 | `pseudoClass` is refused, always with the order error, exactly when a pseudo-element is set. On success `:value` is appended and nothing else changes. |
| Builder.PseudoElement | src/05-objects-tasks.js:187-195 | `pseudoElement` is refused, always with the duplicate error and never the order error, exactly when a pseudo-element is set. On success the slot holds `::value` and nothing else changes. |
| Builder.ApplyContract | src/05-objects-tasks.js:131-195 | All six part calls follow one rule. A call is accepted exactly when the single-comparison order rule admits it. A refused call is a duplicate exactly when its part is a singleton that is already set. An accepted call appends to or replaces only its own slot. |
| Builder.CleanObj | src/05-objects-tasks.js:206-213 | All six part slots are cleared and the combined text is kept. A handle with no combined text becomes the empty builder object. |
| Builder.Parts | src/05-objects-tasks.js:223 | The six slots concatenated in category order are empty exactly when no part is set. |
| Builder.CombineSelect | src/05-objects-tasks.js:215-220 | For a handle with no parts, this is its combined text. For a handle with no combined text, it is the parts in category order. |
| Builder.Stringify | src/05-objects-tasks.js:222-227 | On every handle whose combined text is empty or whose part slots are all empty, `stringify` agrees with `combineSelect`. It returns the empty string exactly when the handle is completely empty. |
| Builder.Combine | src/05-objects-tasks.js:197-204 | The part slots of the receiver are kept. The combined text is never empty and extends the receiver's. On the builder object, `stringify` of the result is `left + ' ' + combinator + ' ' + right`, with both operands rendered and the combinator not checked. |
| Chain.AdmitsFollows | src/05-objects-tasks.js:131-195 | The single-comparison rule admits a call exactly when every set slot belongs to a strictly earlier category, or to the call's own category when that category is repeatable. |
| Chain.PiecesEmpty | src/05-objects-tasks.js:131-191 | The accumulated text of a category is empty exactly when none of its calls stored anything. Only `element('')` stores nothing. |
| Chain.BuildCorrect | src/05-objects-tasks.js:131-195 | The builder accepts a chain of part calls exactly when the chain is valid. Valid means every call that stored something is followed only by calls of a strictly later category, or of the same repeatable category. An accepted chain leaves each slot holding its category's text (all its calls in order; for attributes, the last one) and leaves the combined text empty. |
| Chain.BuildStringify | src/05-objects-tasks.js:122-227 | A valid chain always succeeds. Its `stringify` is element, id, classes, attribute, pseudo-classes and pseudo-element, in that order, whatever order the chain made its calls in. |
| Chain.BuildTrace | src/05-objects-tasks.js:139-141 | When every call of a chain is accepted, the chain ends on the snapshot returned by its last call. |
| Compose.EvalCorrect | src/05-objects-tasks.js:197-227 | A selector expression with nested `combine` calls is accepted exactly when every chain in it is valid. `stringify` then yields the chains' texts, each combinator verbatim with one space on either side, left to right. The result is always a handle on which `stringify` and `combineSelect` agree. |
| Compose.DescendantSpacing | src/05-objects-tasks.js:110-117 | The descendant combinator `' '` comes out as three spaces between the operands. |
| DocExamples.IdClassesExample | src/05-objects-tasks.js:98-99 | `builder.id('main').class('container').class('editable')` stringifies to `#main.container.editable`. |
| DocExamples.LinkFocusExample | src/05-objects-tasks.js:101-102 | `builder.element('a').attr('href$=".png"').pseudoClass('focus')` stringifies to `a[href$=".png"]:focus`. |
| DocExamples.NestedExample | src/05-objects-tasks.js:104-117 | The documented nested `combine` stringifies to `div#main.container.draggable + table#data ~ tr:nth-of-type(even)   td:nth-of-type(even)`. |
| DocExamples.DuplicateElementExample | src/05-objects-tasks.js:132-137 | `element('a').id('x').element('b')` raises the duplicate error, not the order error. |
| DocExamples.IdAfterClassExample | src/05-objects-tasks.js:148-150 | `class('a').id('x')` raises the order error. |
| DocExamples.EmptyElementExample | src/05-objects-tasks.js:131-138 | `element('').element('p')` is accepted, because the empty element leaves its slot unset. |
| DocExamples.AttrReplacesExample | src/05-objects-tasks.js:167-175 | `attr('a').attr('b')` keeps only `[b]`. |
| DocExamples.PartAfterCombine | src/05-objects-tasks.js:215-227 | A part call on a `combine` result is accepted. `stringify` then returns only the combined text, while `combineSelect` puts the part in front of it, so the result is a handle on which the two disagree. |

## Left out

- Mutation and aliasing. In the source each part call mutates its receiver,
  copies it, and then clears the receiver with `cleanObj`. `combine` clears
  the builder object's combined text after copying. `combineSelect` and
  `stringify` clear their receiver, so a second `stringify` on the same handle
  returns `''`. Here every handle is an immutable value, every call returns a
  new one, and each handle is assumed to be used once. `Stringify` is
  therefore a pure function. No idempotence of `stringify` is claimed for the
  source, because the source does not have it.
- The clearing of `combine`'s operands (lines 198-199 call `combineSelect`,
  which clears at lines 217-218) is not modelled, for the same reason.
- Error message texts (lines 133, 136, 146, 149, 159, 169, 179, 189). The two
  messages are the two tags of `Err`: `Duplicate` and `Order`.
- Non-string arguments. Every value is a `string` here. In the source, `id`,
  `class`, `attr`, `pseudoClass` and `pseudoElement` coerce their value to a
  string through a template string. `element` stores its value as given
  (line 138), so a non-string element would be kept uncoerced.
- Attribute calls: the builder's own doc comment (lines 74-76) marks the
  attribute, like class and pseudo-class, as able to occur several times. The
  code replaces the earlier attribute instead (line 171). The model follows
  the code, so `Attr` keeps only the last attribute.
- `Rectangle`, `getJSON` and `fromJSON` (src/05-objects-tasks.js:23-65). They
  are a floating-point area method and thin wrappers around the host's JSON
  and prototype functions, not part of the builder.
- All of `src/06-promises-tasks.js`. Its functions are asynchronous promise
  plumbing whose behaviour depends on the host's scheduling.
- `src/index.js`. It is an unexported draft of the builder with no
  validation, a `combine` without padding, and a console demo. Its behaviour
  is not mixed into this model.
