/** The amount-range picker: two number inputs for whole dollars, a Clear
    button, and the label of the button that opens it. Edits go to a local
    range that is handed to the page after a pause; the pause itself is not
    modelled, only the hand-over as a step. */
module AmountRangePicker {
  import opened Optional
  import opened Digits
  import opened JsNumbers

  /** Minimum and maximum in dollars; either may be undefined. */
  datatype AmountRange = AmountRange(min: Option<int>, max: Option<int>)

  const Unset := AmountRange(None, None)

  /** `local` is what the inputs edit; `value` is the range the page holds. */
  datatype PickerState = PickerState(local: AmountRange, value: AmountRange)

  /** `e.target.value ? Number(e.target.value) : undefined`. */
  function InputValue(text: NumberInputText): (r: Option<int>)
    ensures r.None? <==> text == ""
    ensures text != "" ==> r == Some(NumberOf(text))
  {
    if text == "" then None else Some(NumberOf(text))
  }

  /** What an input shows for a bound: `bound || ""`. */
  function InputText(bound: Option<int>): (t: NumberInputText)
    ensures t == "" <==> !Truthy(bound)
  {
    if Truthy(bound) then
      NumberOfShowInt(bound.value);
      ShowInt(bound.value)
    else ""
  }

  /** Reading back what an input shows gives the bound, except that a zero
      bound shows as an empty input. */
  lemma InputRoundTrip(bound: Option<int>)
    ensures InputValue(InputText(bound)) == if Truthy(bound) then bound else None
  {
    if Truthy(bound) {
      NumberOfShowInt(bound.value);
    }
  }

  /** Typing into the minimum input; the maximum is untouched. */
  function EditMin(s: PickerState, text: NumberInputText): (r: PickerState)
    ensures r.local.min == InputValue(text)
    ensures r.local.max == s.local.max && r.value == s.value
  {
    s.(local := s.local.(min := InputValue(text)))
  }

  /** Typing into the maximum input; the minimum is untouched. */
  function EditMax(s: PickerState, text: NumberInputText): (r: PickerState)
    ensures r.local.max == InputValue(text)
    ensures r.local.min == s.local.min && r.value == s.value
  {
    s.(local := s.local.(max := InputValue(text)))
  }

  /** `handleClear`. */
  function Clear(s: PickerState): (r: PickerState)
    ensures r.local == Unset && r.value == s.value
  {
    s.(local := Unset)
  }

  /** The debounced hand-over: the page takes the local range. */
  function Commit(s: PickerState): (r: PickerState)
    ensures r.value == s.local && r.local == s.local
  {
    s.(value := s.local)
  }

  /** The two inputs are independent: the order of edits does not matter,
      and a Clear forgets every edit before it. */
  lemma EditsCommute(s: PickerState, minText: NumberInputText, maxText: NumberInputText)
    ensures EditMin(EditMax(s, maxText), minText) == EditMax(EditMin(s, minText), maxText)
    ensures Clear(EditMin(s, minText)) == Clear(s)
    ensures Clear(EditMax(s, maxText)) == Clear(s)
  {
  }

  /** The button label. A zero bound counts as unset. */
  function ButtonText(v: AmountRange): (t: string)
    ensures !Truthy(v.min) && !Truthy(v.max) <==> t == "Any amount"
    ensures Truthy(v.min) && !Truthy(v.max) ==> t == "$" + ShowInt(v.min.value) + "+"
    ensures !Truthy(v.min) && Truthy(v.max) ==> t == "Up to $" + ShowInt(v.max.value)
    ensures Truthy(v.min) && Truthy(v.max) ==> t == "$" + ShowInt(v.min.value) + " - $" + ShowInt(v.max.value)
  {
    if !Truthy(v.min) && !Truthy(v.max) then "Any amount"
    else if Truthy(v.min) && !Truthy(v.max) then
      assert ("$" + ShowInt(v.min.value) + "+")[0] == '$';
      "$" + ShowInt(v.min.value) + "+"
    else if !Truthy(v.min) && Truthy(v.max) then
      assert ("Up to $" + ShowInt(v.max.value))[0] == 'U';
      "Up to $" + ShowInt(v.max.value)
    else
      assert ("$" + ShowInt(v.min.value) + " - $" + ShowInt(v.max.value))[0] == '$';
      "$" + ShowInt(v.min.value) + " - $" + ShowInt(v.max.value)
  }

  /** The Clear button shows when either bound is defined, zero included. */
  predicate ClearVisible(v: AmountRange) {
    v.min.Some? || v.max.Some?
  }

  /** A zero bound is unset for the label but set for the Clear button. */
  lemma ZeroCountsDifferently(zero: AmountRange)
    requires zero.min == Some(0) || zero.max == Some(0)
    requires !Truthy(zero.min) && !Truthy(zero.max)
    ensures ButtonText(zero) == "Any amount"
    ensures ClearVisible(zero)
  {
  }

  /** Clearing and handing over gives the unset range: the label reads "Any
      amount" and the Clear button goes away. */
  lemma ClearResets(s: PickerState)
    ensures Commit(Clear(s)).value == Unset
    ensures ButtonText(Commit(Clear(s)).value) == "Any amount"
    ensures !ClearVisible(Commit(Clear(s)).value)
  {
  }

  /** The label names the bounds: two labels agree only when both ranges
      have the same truthy bounds. */
  lemma ButtonTextDeterminesBounds(a: AmountRange, b: AmountRange)
    requires ButtonText(a) == ButtonText(b)
    ensures Truthy(a.min) <==> Truthy(b.min)
    ensures Truthy(a.max) <==> Truthy(b.max)
    ensures Truthy(a.min) ==> a.min == b.min
    ensures Truthy(a.max) ==> a.max == b.max
  {
    var ta := ButtonText(a);
    LabelShape(a);
    LabelShape(b);
    if Truthy(a.min) && Truthy(a.max) {
      ReadRangeLabel(a.min.value, a.max.value, b.min.value, b.max.value);
    } else if Truthy(a.min) {
      ReadPrefixed("$", ShowInt(a.min.value), ShowInt(b.min.value), "+");
      ShowIntInjective(a.min.value, b.min.value);
    } else if Truthy(a.max) {
      ReadPrefixed("Up to $", ShowInt(a.max.value), ShowInt(b.max.value), "");
      assert ShowInt(a.max.value) + "" == ShowInt(a.max.value);
      assert ShowInt(b.max.value) + "" == ShowInt(b.max.value);
      ShowIntInjective(a.max.value, b.max.value);
    }
  }

  /** Which of the four forms a label takes is told by its characters. */
  lemma LabelShape(v: AmountRange)
    ensures var t := ButtonText(v);
      && (Truthy(v.min) ==> |t| >= 2 && t[0] == '$')
      && (Truthy(v.min) && !Truthy(v.max) ==> t[|t| - 1] == '+')
      && (Truthy(v.min) && Truthy(v.max) ==> t[|t| - 1] != '+')
      && (!Truthy(v.min) && Truthy(v.max) ==> |t| >= 7 && t[..7] == "Up to $")
  {
    var t := ButtonText(v);
    if Truthy(v.min) && Truthy(v.max) {
      var s := ShowInt(v.max.value);
      assert t[|t| - 1] == s[|s| - 1];
      ShowIntEndsInDigit(v.max.value);
    }
  }

  /** Equal texts with equal frame have equal middles. */
  lemma ReadPrefixed(pre: string, x: string, y: string, post: string)
    requires pre + x + post == pre + y + post
    ensures x == y
  {
    var t := pre + x + post;
    assert x == t[|pre|..|t| - |post|];
    assert |x| == |y|;
    assert y == t[|pre|..|t| - |post|];
  }

  /** "$a - $b" is read back unambiguously: neither number's text contains
      the separator's space. */
  lemma ReadRangeLabel(a: int, b: int, c: int, d: int)
    requires Truthy(Some(a)) && Truthy(Some(b))
    requires "$" + ShowInt(a) + " - $" + ShowInt(b) == "$" + ShowInt(c) + " - $" + ShowInt(d)
    ensures a == c && b == d
  {
    NoSpaceInNumber(a);
    NoSpaceInNumber(c);
    SplitRangeText(ShowInt(a), ShowInt(b), ShowInt(c), ShowInt(d));
    ShowIntInjective(a, c);
    ShowIntInjective(b, d);
  }

  /** "$x - $y" determines x and y when x holds no space. */
  lemma SplitRangeText(x: string, y: string, x2: string, y2: string)
    requires forall i | 0 <= i < |x| :: x[i] != ' '
    requires forall i | 0 <= i < |x2| :: x2[i] != ' '
    requires "$" + x + " - $" + y == "$" + x2 + " - $" + y2
    ensures x == x2 && y == y2
  {
    var t := "$" + x + " - $" + y;
    var u := "$" + x2 + " - $" + y2;
    assert t[1 + |x|] == ' ';
    assert u[1 + |x2|] == ' ';
    assert forall i | 0 <= i < |x| :: t[1 + i] == x[i];
    assert forall i | 0 <= i < |x2| :: u[1 + i] == x2[i];
    assert |x| == |x2|;
    assert x == t[1..1 + |x|];
    assert x2 == u[1..1 + |x2|];
    assert t[1 + |x| + 4..] == y;
    assert u[1 + |x2| + 4..] == y2;
  }
}
