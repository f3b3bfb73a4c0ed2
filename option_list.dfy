/**
 * A model of the selectable option list `OptionView` (deche/Views/OptionView.swift).
 *
 * The view is a value: an ordered list of options, a binding to a caller-owned
 * selection, and six style parameters that chained modifiers copy and overwrite.
 * Rendering maps every option to a row whose icon, background and border all
 * follow one test, "this option's id equals the selection's id"; tapping a row
 * toggles the bound selection between nothing and that option.
 */
module OptionList {

  /** Swift's `Optional`: `nil`, or a wrapped value. */
  datatype Optional<T> = None | Some(value: T)

  /** An option's identity. The app draws a fresh UUID per option; here ids are naturals. */
  type Uuid = nat

  /** One entry of the list: an immutable identity and a display label. */
  datatype Option = Option(id: Uuid, text: string)

  /** Colours are opaque, except for the two the view names and the RGB constructor it uses. */
  datatype Color = White | Gray | Rgb(red: real, green: real, blue: real) | Named(name: string)

  /** Images are opaque: a system symbol or an asset, by name. */
  datatype Image = SystemImage(name: string) | AssetImage(name: string)

  // The defaults of the view's style parameters.
  const DefaultOptionBackground: Color := Rgb(0.080, 0.083, 0.083)
  const DefaultSelectedBackground: Color := Rgb(0.403, 0.404, 0.463)
  const Checkmark: Image := SystemImage("checkmark.circle.fill")
  const DefaultCornerRadius: real := 12.0

  /** True when no two options of the list share an id (what fresh UUIDs guarantee). */
  function DistinctIds(options: seq<Option>): (r: bool)
    ensures r ==> forall i, j ::
                    (0 <= i < |options| && 0 <= j < |options| && options[i].id == options[j].id) ==> i == j
    ensures |options| <= 1 ==> r
  {
    forall i, j :: 0 <= i < j < |options| ==> options[i].id != options[j].id
  }

  /*****************************************************************************
   * Selection
   *****************************************************************************/

  /** The one test behind the icon, the background and the border: `option.id == selectedOption?.id`. */
  function IsSelected(option: Option, selection: Optional<Option>): (r: bool)
    ensures selection == None ==> !r
    ensures selection == Some(option) ==> r
    ensures r ==> selection.Some? && selection.value.id == option.id
  {
    selection.Some? && option.id == selection.value.id
  }

  /** The selection after tapping `option`: cleared when `option` is the selected one, else `option`. */
  function AfterTap(selection: Optional<Option>, option: Option): (r: Optional<Option>)
    ensures r == None <==> IsSelected(option, selection)
    ensures r != None ==> r == Some(option)
    ensures IsSelected(option, r) <==> !IsSelected(option, selection)
    ensures forall p: Option :: p.id != option.id ==> !IsSelected(p, r)
  {
    if IsSelected(option, selection) then None else Some(option)
  }

  /** Two taps on the same option give back the selection exactly when it was nothing or that option. */
  lemma TapTwice(selection: Optional<Option>, option: Option)
    ensures AfterTap(AfterTap(selection, option), option) == selection
        <==> selection == None || selection == Some(option)
    ensures IsSelected(option, AfterTap(AfterTap(selection, option), option)) == IsSelected(option, selection)
  {
  }

  /** With another option B selected, tapping A twice goes B, then A, then nothing. */
  lemma TapTwiceFromOther(b: Option, a: Option)
    requires b.id != a.id
    ensures AfterTap(Some(b), a) == Some(a)
    ensures AfterTap(AfterTap(Some(b), a), a) == None
  {
  }

  /** The selection after a sequence of taps, first tap first. */
  function AfterTaps(selection: Optional<Option>, taps: seq<Option>): (r: Optional<Option>)
    decreases |taps|
  {
    if taps == [] then selection else AfterTaps(AfterTap(selection, taps[0]), taps[1..])
  }

  /** After at least one tap, the selection is nothing or the last tapped option. */
  lemma {:induction false} TapsEndOnLast(selection: Optional<Option>, taps: seq<Option>)
    requires taps != []
    ensures AfterTaps(selection, taps) == None || AfterTaps(selection, taps) == Some(taps[|taps| - 1])
    decreases |taps|
  {
    if |taps| > 1 {
      TapsEndOnLast(AfterTap(selection, taps[0]), taps[1..]);
    }
  }

  /** `n` taps on one option, starting from nothing or from that option, toggle it `n` times. */
  lemma {:induction false} TapRepeatedly(selection: Optional<Option>, option: Option, n: nat)
    requires selection == None || selection == Some(option)
    ensures AfterTaps(selection, seq(n, _ => option))
         == if n % 2 == 0 then selection else AfterTap(selection, option)
    decreases n
  {
    if n > 0 {
      var taps := seq(n, _ => option);
      assert taps[0] == option;
      assert taps[1..] == seq(n - 1, _ => option);
      TapRepeatedly(AfterTap(selection, option), option, n - 1);
    }
  }

  /** The caller-owned, bound selection (`@Binding var selectedOption: Option?`). */
  class SelectionBinding {
    var value: Optional<Option>

    constructor (initial: Optional<Option>)
      ensures value == initial
    {
      value := initial;
    }

    /** The tap handler: the bound value is replaced as a whole, by nothing or by `option`. */
    method Tap(option: Option)
      modifies this
      ensures value == AfterTap(old(value), option)
      ensures value == None <==> old(IsSelected(option, value))
    {
      if IsSelected(option, value) {
        value := None;
      } else {
        value := Some(option);
      }
    }
  }

  /*****************************************************************************
   * The view value and its fluent configuration
   *****************************************************************************/

  /** The `OptionView` struct: its options, the selection binding and the style parameters. */
  datatype OptionView = OptionView(
    options: seq<Option>,
    selectedOption: SelectionBinding,
    defaultdOptionBackgroundColor: Color,
    selectedOptionBackgroundColor: Color,
    selectedOptionImage: Image,
    selectedOptionImageColor: Color,
    optionCornerRadius: real,
    textColor: Color)

  /** `init(options:selectedOption:)`: the given options and binding, every style parameter at its default. */
  function NewOptionView(options: seq<Option>, selectedOption: SelectionBinding): (v: OptionView)
    ensures v.options == options && v.selectedOption == selectedOption
    ensures v.defaultdOptionBackgroundColor == Rgb(0.080, 0.083, 0.083)
    ensures v.selectedOptionBackgroundColor == Rgb(0.403, 0.404, 0.463)
    ensures v.selectedOptionImage == SystemImage("checkmark.circle.fill")
    ensures v.selectedOptionImageColor == White
    ensures v.optionCornerRadius == 12.0
    ensures v.textColor == White
  {
    OptionView(options, selectedOption, DefaultOptionBackground, DefaultSelectedBackground,
               Checkmark, White, DefaultCornerRadius, White)
  }

  /** The fields of the view value, for stating what a modifier leaves alone. */
  datatype Field =
    | OptionsField
    | SelectionField
    | DefaultBackgroundField
    | SelectedBackgroundField
    | ImageField
    | ImageColorField
    | CornerRadiusField
    | TextColorField

  /** The fields a modifier may write: everything but the options and the binding. */
  const StyleFields: set<Field> :=
    {DefaultBackgroundField, SelectedBackgroundField, ImageField, ImageColorField,
     CornerRadiusField, TextColorField}

  /** `v` and `w` hold the same value in field `f`. */
  predicate Agree(v: OptionView, w: OptionView, f: Field) {
    match f
    case OptionsField => v.options == w.options
    case SelectionField => v.selectedOption == w.selectedOption
    case DefaultBackgroundField => v.defaultdOptionBackgroundColor == w.defaultdOptionBackgroundColor
    case SelectedBackgroundField => v.selectedOptionBackgroundColor == w.selectedOptionBackgroundColor
    case ImageField => v.selectedOptionImage == w.selectedOptionImage
    case ImageColorField => v.selectedOptionImageColor == w.selectedOptionImageColor
    case CornerRadiusField => v.optionCornerRadius == w.optionCornerRadius
    case TextColorField => v.textColor == w.textColor
  }

  /** `v` and `w` agree on every field outside `fs`. */
  predicate AgreeExcept(v: OptionView, w: OptionView, fs: set<Field>) {
    forall f :: f !in fs ==> Agree(v, w, f)
  }

  /** `.defaultdOptionBackgroundColor(_:)`: sets the unselected row background and nothing else. */
  function DefaultdOptionBackgroundColor(v: OptionView, defaultColor: Color): (r: OptionView)
    ensures r.defaultdOptionBackgroundColor == defaultColor
    ensures AgreeExcept(v, r, {DefaultBackgroundField})
  {
    v.(defaultdOptionBackgroundColor := defaultColor)
  }

  /** `.selectedOptionBackgroundColor(_:)`: sets the selected row background and nothing else. */
  function SelectedOptionBackgroundColor(v: OptionView, selectedColor: Color): (r: OptionView)
    ensures r.selectedOptionBackgroundColor == selectedColor
    ensures AgreeExcept(v, r, {SelectedBackgroundField})
  {
    v.(selectedOptionBackgroundColor := selectedColor)
  }

  /**
   * `.selectedOptionImage(_:imageColor:)`: sets the icon and its colour, white when the colour is nil.
   * Leaving the argument out in Swift passes `.white`, i.e. `Some(White)` here.
   */
  function SelectedOptionImage(v: OptionView, image: Image, imageColor: Optional<Color>): (r: OptionView)
    ensures r.selectedOptionImage == image
    ensures imageColor.Some? ==> r.selectedOptionImageColor == imageColor.value
    ensures imageColor.None? ==> r.selectedOptionImageColor == White
    ensures AgreeExcept(v, r, {ImageField, ImageColorField})
  {
    v.(selectedOptionImage := image,
       selectedOptionImageColor := if imageColor.Some? then imageColor.value else White)
  }

  /** A nil image colour cannot be told apart from an explicit white. */
  lemma NilImageColorIsWhite(v: OptionView, image: Image)
    ensures SelectedOptionImage(v, image, None) == SelectedOptionImage(v, image, Some(White))
  {
  }

  /** `.optionCornerRadius(_:)`: sets the corner radius and nothing else. */
  function OptionCornerRadius(v: OptionView, radius: real): (r: OptionView)
    ensures r.optionCornerRadius == radius
    ensures AgreeExcept(v, r, {CornerRadiusField})
  {
    v.(optionCornerRadius := radius)
  }

  /** `.textColor(_:)`: sets the label colour and nothing else. */
  function TextColor(v: OptionView, color: Color): (r: OptionView)
    ensures r.textColor == color
    ensures AgreeExcept(v, r, {TextColorField})
  {
    v.(textColor := color)
  }

  /** One call of a fluent chain, with its arguments. */
  datatype Modifier =
    | SetDefaultBackground(color: Color)
    | SetSelectedBackground(color: Color)
    | SetImage(image: Image, imageColor: Optional<Color>)
    | SetCornerRadius(radius: real)
    | SetTextColor(color: Color)

  /** The fields a modifier writes. */
  function Touches(m: Modifier): (fs: set<Field>)
    ensures fs <= StyleFields && fs != {}
  {
    match m
    case SetDefaultBackground(_) => {DefaultBackgroundField}
    case SetSelectedBackground(_) => {SelectedBackgroundField}
    case SetImage(_, _) => {ImageField, ImageColorField}
    case SetCornerRadius(_) => {CornerRadiusField}
    case SetTextColor(_) => {TextColorField}
  }

  /** Applies one modifier to the view value. */
  function Apply(v: OptionView, m: Modifier): (r: OptionView)
    ensures AgreeExcept(v, r, Touches(m))
  {
    match m
    case SetDefaultBackground(c) => DefaultdOptionBackgroundColor(v, c)
    case SetSelectedBackground(c) => SelectedOptionBackgroundColor(v, c)
    case SetImage(img, c) => SelectedOptionImage(v, img, c)
    case SetCornerRadius(radius) => OptionCornerRadius(v, radius)
    case SetTextColor(c) => TextColor(v, c)
  }

  /** Modifiers on different fields commute. */
  lemma Commute(v: OptionView, m1: Modifier, m2: Modifier)
    requires Touches(m1) !! Touches(m2)
    ensures Apply(Apply(v, m1), m2) == Apply(Apply(v, m2), m1)
  {
  }

  /** A later modifier on the same fields overrides an earlier one. */
  lemma Overwrite(v: OptionView, m1: Modifier, m2: Modifier)
    requires Touches(m1) == Touches(m2)
    ensures Apply(Apply(v, m1), m2) == Apply(v, m2)
  {
  }

  /** A fluent chain `v.m0(..).m1(..)...`, applied left to right. */
  function ApplyAll(v: OptionView, ms: seq<Modifier>): (r: OptionView)
    decreases |ms|
  {
    if ms == [] then v else ApplyAll(Apply(v, ms[0]), ms[1..])
  }

  /** The fields some modifier of a chain writes. */
  function TouchedBy(ms: seq<Modifier>): (fs: set<Field>)
    ensures fs <= StyleFields
    ensures forall k :: 0 <= k < |ms| ==> Touches(ms[k]) <= fs
    ensures fs == set k, f | 0 <= k < |ms| && f in Touches(ms[k]) :: f
    decreases |ms|
  {
    if ms == [] then {} else Touches(ms[0]) + TouchedBy(ms[1..])
  }

  /** A chain changes only the fields its modifiers write; the options and the binding never change. */
  lemma {:induction false} ChainFrame(v: OptionView, ms: seq<Modifier>)
    ensures AgreeExcept(v, ApplyAll(v, ms), TouchedBy(ms))
    ensures ApplyAll(v, ms).options == v.options
    ensures ApplyAll(v, ms).selectedOption == v.selectedOption
    decreases |ms|
  {
    if ms != [] {
      var w, rest := Apply(v, ms[0]), ms[1..];
      ChainFrame(w, rest);
      AgreeExceptCompose(v, w, ApplyAll(w, rest), Touches(ms[0]), TouchedBy(rest));
    }
    FrameKeepsBinding(v, ApplyAll(v, ms), TouchedBy(ms));
  }

  /** Agreement outside a set of style fields keeps the options and the binding. */
  lemma FrameKeepsBinding(v: OptionView, w: OptionView, fs: set<Field>)
    requires fs <= StyleFields && AgreeExcept(v, w, fs)
    ensures w.options == v.options && w.selectedOption == v.selectedOption
  {
    assert Agree(v, w, OptionsField) && Agree(v, w, SelectionField);
  }

  /** Agreement outside `a`, then outside `b`, is agreement outside `a + b`. */
  lemma AgreeExceptCompose(u: OptionView, v: OptionView, w: OptionView, a: set<Field>, b: set<Field>)
    requires AgreeExcept(u, v, a) && AgreeExcept(v, w, b)
    ensures AgreeExcept(u, w, a + b)
  {
    forall f | f !in a + b ensures Agree(u, w, f) {
      assert Agree(u, v, f) && Agree(v, w, f);
    }
  }

  /*****************************************************************************
   * Rendering
   *****************************************************************************/

  /** The trailing icon of a selected row. */
  datatype Icon = Icon(image: Image, color: Color)

  /** What one row shows: label, trailing icon if any, background, border and corner radius. */
  datatype Row = Row(
    text: string,
    textColor: Color,
    icon: Optional<Icon>,
    background: Color,
    border: Color,
    cornerRadius: real)

  /** The selected look: the configured icon, the selected background and a white border. */
  predicate LooksSelected(v: OptionView, r: Row) {
    && r.icon == Some(Icon(v.selectedOptionImage, v.selectedOptionImageColor))
    && r.background == v.selectedOptionBackgroundColor
    && r.border == White
  }

  /** The unselected look: no icon, the default background and a gray border. */
  predicate LooksUnselected(v: OptionView, r: Row) {
    && r.icon == None
    && r.background == v.defaultdOptionBackgroundColor
    && r.border == Gray
  }

  /** One row of the list; icon, background and border each evaluate the selection test. */
  function RowOf(v: OptionView, option: Option, selection: Optional<Option>): (r: Row)
    ensures r.text == option.text && r.textColor == v.textColor
    ensures r.cornerRadius == v.optionCornerRadius
    ensures LooksSelected(v, r) <==> IsSelected(option, selection)
    ensures LooksUnselected(v, r) <==> !IsSelected(option, selection)
    ensures r.icon.Some? <==> r.border == White
  {
    Row(option.text,
        v.textColor,
        if IsSelected(option, selection)
        then Some(Icon(v.selectedOptionImage, v.selectedOptionImageColor)) else None,
        if IsSelected(option, selection)
        then v.selectedOptionBackgroundColor else v.defaultdOptionBackgroundColor,
        if IsSelected(option, selection) then White else Gray,
        v.optionCornerRadius)
  }

  /** The rows for `options`, in order, under the style of `v`. */
  function Rows(v: OptionView, options: seq<Option>, selection: Optional<Option>): (r: seq<Row>)
    ensures |r| == |options|
    ensures forall i :: 0 <= i < |options| ==> r[i] == RowOf(v, options[i], selection)
    decreases |options|
  {
    if options == [] then []
    else [RowOf(v, options[0], selection)] + Rows(v, options[1..], selection)
  }

  /** The indices of the rows that show the selected icon. */
  function SelectedRows(rows: seq<Row>): (s: set<int>) {
    set i | 0 <= i < |rows| && rows[i].icon.Some?
  }

  /** A selection whose id matches an option selects that option's row and no other. */
  lemma MatchedSelectionSelectsOne(v: OptionView, selection: Optional<Option>, i: int)
    requires DistinctIds(v.options)
    requires 0 <= i < |v.options| && IsSelected(v.options[i], selection)
    ensures SelectedRows(Rows(v, v.options, selection)) == {i}
    ensures LooksSelected(v, Rows(v, v.options, selection)[i])
    ensures forall j :: 0 <= j < |v.options| && j != i ==> LooksUnselected(v, Rows(v, v.options, selection)[j])
  {
  }

  /** A selection that is nothing, or whose id matches no option, leaves every row unselected-styled. */
  lemma UnmatchedSelectionSelectsNothing(v: OptionView, selection: Optional<Option>)
    requires forall o :: o in v.options ==> !IsSelected(o, selection)
    ensures SelectedRows(Rows(v, v.options, selection)) == {}
    ensures forall j :: 0 <= j < |v.options| ==> LooksUnselected(v, Rows(v, v.options, selection)[j])
  {
  }

  /** With distinct ids, at most one option passes the selection test and at most one row looks selected. */
  lemma AtMostOneSelected(v: OptionView, selection: Optional<Option>)
    requires DistinctIds(v.options)
    ensures forall i, j ::
              (0 <= i < |v.options| && 0 <= j < |v.options|
               && IsSelected(v.options[i], selection) && IsSelected(v.options[j], selection)) ==> i == j
    ensures |SelectedRows(Rows(v, v.options, selection))| <= 1
  {
    if i :| 0 <= i < |v.options| && IsSelected(v.options[i], selection) {
      MatchedSelectionSelectsOne(v, selection, i);
    } else {
      UnmatchedSelectionSelectsNothing(v, selection);
    }
  }

  /** Whatever the taps, a list with distinct ids never shows more than one selected row. */
  lemma TapsKeepSingleSelection(v: OptionView, selection: Optional<Option>, taps: seq<Option>)
    requires DistinctIds(v.options)
    ensures |SelectedRows(Rows(v, v.options, AfterTaps(selection, taps)))| <= 1
    ensures taps != [] ==> SelectedRows(Rows(v, v.options, AfterTaps(selection, taps)))
                           <= set i | 0 <= i < |v.options| && v.options[i].id == taps[|taps| - 1].id
  {
    AtMostOneSelected(v, AfterTaps(selection, taps));
    if taps != [] {
      TapsEndOnLast(selection, taps);
    }
  }

  /** A configuration chain never changes which rows look selected. */
  lemma ChainKeepsSelectedRows(v: OptionView, ms: seq<Modifier>, selection: Optional<Option>)
    ensures SelectedRows(Rows(ApplyAll(v, ms), ApplyAll(v, ms).options, selection))
         == SelectedRows(Rows(v, v.options, selection))
  {
    ChainFrame(v, ms);
  }

  /**
   * The preview: two options and a constant selection built as a third `Option`. Its text equals
   * the first option's, but its fresh id matches neither row, so no row looks selected.
   */
  lemma PreviewSelectsNothing(binding: SelectionBinding)
    ensures var v := NewOptionView([Option(0, "deneme1"), Option(1, "deneme2")], binding);
            SelectedRows(Rows(v, v.options, Some(Option(2, "deneme1")))) == {}
  {
  }

  /** `onTapGesture` on row `i`: taps the bound selection; afterwards row `i` alone is selected, or none is. */
  method OnTapGesture(v: OptionView, i: int)
    requires 0 <= i < |v.options|
    modifies v.selectedOption
    ensures v.selectedOption.value == AfterTap(old(v.selectedOption.value), v.options[i])
    ensures DistinctIds(v.options) ==>
      SelectedRows(Rows(v, v.options, v.selectedOption.value))
        == if old(IsSelected(v.options[i], v.selectedOption.value)) then {} else {i}
  {
    v.selectedOption.Tap(v.options[i]);
    if DistinctIds(v.options) {
      if v.selectedOption.value == None {
        UnmatchedSelectionSelectsNothing(v, v.selectedOption.value);
      } else {
        MatchedSelectionSelectsOne(v, v.selectedOption.value, i);
      }
    }
  }
}
