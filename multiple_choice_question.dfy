/** The answer-update rules of the multiple-choice widget: toggling with a cap, and the hint text. */
module MultipleChoiceQuestion {
  import opened Wrappers
  import opened Text

  /** A numeric prop is "set" when it is present and not 0 (`!!maxSelections`). */
  predicate IsSet(n: Option<int>) {
    n.Some? && n.value != 0
  }

  /** `value.filter((v) => v !== x)`. */
  function Remove(s: seq<string>, x: string): (r: seq<string>)
    ensures multiset(r) == multiset(s)[x := 0]
    ensures x !in r && |r| <= |s|
  {
    if s == [] then []
    else
      var rest := Remove(s[1..], x);
      assert s == [s[0]] + s[1..];
      if s[0] == x then rest else [s[0]] + rest
  }

  /** Filtering works element by element, so the remaining options keep their order. */
  lemma {:induction false} RemoveAppend(a: seq<string>, b: seq<string>, x: string)
    ensures Remove(a + b, x) == Remove(a, x) + Remove(b, x)
  {
    if a == [] {
      assert a + b == b;
    } else {
      assert (a + b)[0] == a[0];
      assert (a + b)[1..] == a[1..] + b;
      RemoveAppend(a[1..], b, x);
      if a[0] != x {
        assert [a[0]] + (Remove(a[1..], x) + Remove(b, x)) == ([a[0]] + Remove(a[1..], x)) + Remove(b, x);
      }
    }
  }

  /** A single option is dropped exactly when it is the one removed. */
  lemma RemoveOne(y: string, x: string)
    ensures Remove([y], x) == if y == x then [] else [y]
  {
  }

  /** The `isDisabled` rule of each checkbox: unselected while the cap is reached. */
  predicate IsDisabled(value: seq<string>, option: string, maxSelections: Option<int>) {
    option !in value && IsSet(maxSelections) && |value| >= maxSelections.value
  }

  /**
   * `handleToggle`: the list passed to `onChange`, or None when `onChange` is
   * not called. A selected option is removed wherever it occurs; an unselected
   * one is appended at the end unless the cap is reached. `minSelections`
   * plays no part.
   */
  function HandleToggle(value: seq<string>, option: string, maxSelections: Option<int>): (r: Option<seq<string>>)
    ensures r.None? <==> IsDisabled(value, option, maxSelections)
    ensures r.Some? ==> (option in r.value <==> option !in value)
    ensures r.Some? ==> forall x :: x != option ==> multiset(r.value)[x] == multiset(value)[x]
    ensures r.Some? && option !in value ==> r.value == value + [option]
    ensures option in value ==> r == Some(Remove(value, option))
  {
    if option in value then Some(Remove(value, option))
    else if !IsSet(maxSelections) || |value| < maxSelections.value then Some(value + [option])
    else None
  }

  predicate NoDuplicates(s: seq<string>) {
    forall i, j :: 0 <= i < j < |s| ==> s[i] != s[j]
  }

  lemma {:induction false} RemoveKeepsNoDuplicates(s: seq<string>, x: string)
    requires NoDuplicates(s)
    ensures NoDuplicates(Remove(s, x))
  {
    if s != [] {
      RemoveKeepsNoDuplicates(s[1..], x);
      var rest := Remove(s[1..], x);
      if s[0] != x {
        assert s[0] !in multiset(s[1..]);
        assert s[0] !in multiset(rest);
      }
    }
  }

  /** A selection without duplicates and within the cap stays so after any toggle. */
  lemma ToggleKeepsSelectionValid(value: seq<string>, option: string, maxSelections: Option<int>)
    requires NoDuplicates(value)
    requires IsSet(maxSelections) ==> |value| <= maxSelections.value
    ensures HandleToggle(value, option, maxSelections).Some? ==>
      var r := HandleToggle(value, option, maxSelections).value;
      NoDuplicates(r) && (IsSet(maxSelections) ==> |r| <= maxSelections.value)
  {
    if option in value {
      RemoveKeepsNoDuplicates(value, option);
    }
  }

  function Plural(n: int): string {
    if n > 1 then "s" else ""
  }

  /** The selection hint: which text is shown depends only on which of the two limits are set. */
  function SelectionHint(minSelections: Option<int>, maxSelections: Option<int>): (r: string)
    ensures r != "" <==> IsSet(minSelections) || IsSet(maxSelections)
  {
    if IsSet(minSelections) && IsSet(maxSelections) then
      "Select between " + IntToDecimal(minSelections.value) + " and " + IntToDecimal(maxSelections.value) + " options"
    else if IsSet(minSelections) then
      "Select at least " + IntToDecimal(minSelections.value) + " option" + Plural(minSelections.value)
    else if IsSet(maxSelections) then
      "Select up to " + IntToDecimal(maxSelections.value) + " option" + Plural(maxSelections.value)
    else ""
  }

  /** The seed question: at most two of four options; with two chosen every other option is disabled. */
  lemma CapOfTwo()
    ensures HandleToggle(["acute"], "chronic", Some(2)) == Some(["acute", "chronic"])
    ensures IsDisabled(["acute", "chronic"], "both", Some(2))
    ensures HandleToggle(["acute", "chronic"], "both", Some(2)).None?
    ensures HandleToggle(["acute", "chronic"], "acute", Some(2)) == Some(["chronic"])
  {
    assert "chronic" != "acute";
    assert "chronic" !in ["acute"];
    assert IsSet(Some(2)) && |["acute"]| < 2;
    assert ["acute"] + ["chronic"] == ["acute", "chronic"];
    assert "acute" in ["acute", "chronic"];
    assert Remove(["chronic"], "acute") == ["chronic"];
    assert Remove(["acute", "chronic"], "acute") == Remove(["chronic"], "acute");
  }
}
