# OptionView: single selection and fluent styling, in Dafny

This project models the selectable option list `OptionView` of the deche SwiftUI widget
library, in `option_list.dfy` (module `OptionList`). The view shows each `Option` as a row.
It marks as selected the row whose `id` equals the id of the caller-owned `selectedOption`.
Three things show that mark, and all three use the same test: a trailing icon, the selected
background and a white border. Tapping a row clears the selection if that row was selected
and otherwise stores the tapped option. Style is set with chained modifiers, each returning
a copy of the view with one parameter overwritten, or two for `selectedOptionImage`.

How the model is built:

- `Option` is a record of an `id` and a `text`. A fresh `UUID` becomes a natural number, and
  "ids are distinct" is the predicate `DistinctIds`.
- Swift's `Option?` is `Optional<Option>`. Colours and images are small opaque datatypes. The
  `Double` corner radius is a `real`, because it is only stored and never computed with.
- The `@Binding` is the class `SelectionBinding`, whose one field is the selection. Its `Tap`
  method is the tap handler. The handler either clears the value or replaces it whole.
- The `OptionView` struct is a datatype holding the options, the binding reference and the
  six style parameters. Each modifier is a pure function returning the updated copy.
- Rendering is `RowOf` for one row and `Rows` for the list. A row records what it shows:
  label, label colour, icon, background, border and corner radius. The selection is passed in
  explicitly, because the view reads the binding afresh on each render.

Every modifier's "nothing else changes" law is stated with the `Field` enumeration and the
predicate `AgreeExcept`. Chains of modifiers are modelled by the `Modifier` datatype and
`ApplyAll`.

A second tap on the same option stores that option itself. So two taps bring back the old
selection only when it was nothing or that very option value. A selection with the same id
but a different text comes back as the tapped option (`TapTwice`).

## Model

| member | source | states |
|---|---|---|
| `OptionList.IsSelected` | deche/Views/OptionView.swift:43 | True exactly when there is a selection and its id equals the option's id. No selection selects nothing, and the selected option itself always passes. |
| `OptionList.DistinctIds` | deche/Views/OptionView.swift:107 | Fresh ids: when it holds, two positions with equal ids are the same position. A list of at most one option always has it. |
| `OptionList.AfterTap` | deche/Views/OptionView.swift:57 | A tap clears the selection exactly when the tapped option passes the id test. Otherwise the selection becomes exactly that option. The tapped row's selected state flips. No option with a different id is selected afterwards. |
| `OptionList.TapTwice` | deche/Views/OptionView.swift:57 | Two taps on one option restore the selection if and only if it was none or that very option. The tapped option's selected state always returns to what it was. |
| `OptionList.TapTwiceFromOther` | deche/Views/OptionView.swift:57 | With B selected, tapping A (a different id) selects A, and tapping A again leaves nothing selected (B, then A, then none). |
| `OptionList.TapsEndOnLast` | deche/Views/OptionView.swift:55-59 | After any non-empty sequence of taps, the selection is none or the last tapped option. |
| `OptionList.TapRepeatedly` | deche/Views/OptionView.swift:57 | Start from none or from the option itself. Tapping that option n times leaves the start state when n is even and the toggled state when n is odd. |
| `OptionList.SelectionBinding.constructor` | deche/Views/OptionView.swift:16 | The binding holds the selection it was created with. |
| `OptionList.SelectionBinding.Tap` | deche/Views/OptionView.swift:55-59 | The bound value is replaced by the tap result. It becomes none exactly when the tapped option was the selected one. |
| `OptionList.OnTapGesture` | deche/Views/OptionView.swift:55-59 | Tapping row i updates the binding by the tap rule. With distinct ids, the rendered list then shows no selected row if row i was selected, and otherwise exactly row i. |
| `OptionList.NewOptionView` | deche/Views/OptionView.swift:19-29 | A new view holds the given options and binding. The defaults are RGB(0.080, 0.083, 0.083) for the default background, RGB(0.403, 0.404, 0.463) for the selected background, the "checkmark.circle.fill" symbol in white for the icon, corner radius 12 and white text. |
| `OptionList.DefaultdOptionBackgroundColor` | deche/Views/OptionView.swift:69-73 | Sets the unselected background. Every other field is unchanged, including the options and the binding. |
| `OptionList.SelectedOptionBackgroundColor` | deche/Views/OptionView.swift:76-80 | Sets the selected background. Every other field is unchanged. |
| `OptionList.SelectedOptionImage` | deche/Views/OptionView.swift:83-88 | Sets the icon. Sets the icon colour to the given colour, or to white when it is nil. Every other field is unchanged. |
| `OptionList.NilImageColorIsWhite` | deche/Views/OptionView.swift:86 | Passing a nil image colour gives the same view as passing white. |
| `OptionList.OptionCornerRadius` | deche/Views/OptionView.swift:91-95 | Sets the corner radius. Every other field is unchanged. |
| `OptionList.TextColor` | deche/Views/OptionView.swift:97-101 | Sets the label colour. Every other field is unchanged. |
| `OptionList.Touches` | deche/Views/OptionView.swift:69-101 | Each modifier writes a non-empty set of style fields, never the options or the binding. |
| `OptionList.Apply` | deche/Views/OptionView.swift:69-101 | Applying one modifier changes only the fields it writes. |
| `OptionList.Commute` | deche/Views/OptionView.swift:69-101 | Two modifiers writing disjoint fields give the same view in either order. |
| `OptionList.Overwrite` | deche/Views/OptionView.swift:69-101 | A later modifier of the same kind overrides an earlier one completely. |
| `OptionList.TouchedBy` | deche/Views/OptionView.swift:69-101 | The fields a chain writes are style fields. They are exactly the fields that some modifier of the chain writes. |
| `OptionList.ChainFrame` | deche/Views/OptionView.swift:69-101 | A whole chain leaves every field it does not write unchanged. In particular the options and the binding are never changed. |
| `OptionList.RowOf` | deche/Views/OptionView.swift:36-54 | A row shows the option's text in the text colour with the configured corner radius. It has the selected look (icon, selected background, white border) exactly when the option passes the id test. It has the unselected look (no icon, default background, gray border) exactly when it does not. The icon is shown exactly when the border is white. |
| `OptionList.Rows` | deche/Views/OptionView.swift:33-61 | The list has one row per option, in order, each rendered by the row rule. |
| `OptionList.MatchedSelectionSelectsOne` | deche/Views/OptionView.swift:43-53 | With distinct ids, a selection matching option i makes row i the only row with the selected look. Every other row has the unselected look. |
| `OptionList.UnmatchedSelectionSelectsNothing` | deche/Views/OptionView.swift:43-53 | If the selection is none or its id matches no option, no row shows the icon and every row has the unselected look. |
| `OptionList.AtMostOneSelected` | deche/Views/OptionView.swift:107 | With distinct ids, at most one option passes the id test and at most one row shows the selected look, for any selection. |
| `OptionList.TapsKeepSingleSelection` | deche/Views/OptionView.swift:43-59 | With distinct ids, after any sequence of taps at most one row looks selected. After a non-empty sequence, that row carries the last tapped option's id. |
| `OptionList.ChainKeepsSelectedRows` | deche/Views/OptionView.swift:69-101 | No chain of modifiers changes which rows look selected. |
| `OptionList.PreviewSelectsNothing` | deche/Views/OptionView.swift:111-113 | In the preview, the constant selection repeats the first option's text but has a fresh id of its own, so no row looks selected. |

## Left out

- SwiftUI layout and drawing: `VStack`, `HStack`, `Spacer`, padding, font weight, the `cornerRadius` and `overlay` modifiers and the 1-point stroke width. The model keeps only what each row shows, not how it is laid out.
- `withAnimation(.spring)` around the tap: this is host-framework animation. Only the state update inside it is modelled.
- `UUID()` generation: a foreign call. Ids are naturals, and distinctness is a stated assumption (`DistinctIds`) wherever a property needs it.
- The `.constant(...)` binding of the preview ignores writes. Only the preview's initial rendering is modelled.
- `ForEach`'s identity-based diffing and view re-rendering on binding writes: host-framework behaviour.
- The circular progress bar (deche/Views/CircularProcessView.swift). It is floating-point division, number formatting and geometry-based font sizing. Its modifiers follow the same copy-and-set pattern as the ones modelled here.
