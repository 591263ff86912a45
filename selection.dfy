/**
 * The action-type management dialog's form: a list of selected type names
 * edited by one checkbox per type, and a validator that rejects a
 * selection with no non-empty entry.
 */
module ActionTypeSelection {
  import opened Types
  import opened Seqs

  /** The form's `actionTypes` value. */
  type Selection = seq<string>

  const NoSelectionMessage: string := "You have to select at least one item."

  /** `defaultSelectedTypes`: every action type, in list order. */
  function DefaultSelection(): (sel: Selection)
    ensures |sel| == |ALL_ACTION_TYPES|
    ensures forall i :: 0 <= i < |sel| ==> sel[i] == Name(ALL_ACTION_TYPES[i])
  {
    seq(|ALL_ACTION_TYPES|, i requires 0 <= i < |ALL_ACTION_TYPES| => Name(ALL_ACTION_TYPES[i]))
  }

  /** `checked={field.value?.includes(type)}`. */
  predicate IsChecked(sel: Selection, t: string)
  {
    t in sel
  }

  /** Ticking a box: the type is appended. */
  function Check(sel: Selection, t: string): (r: Selection)
    ensures |r| == |sel| + 1 && r[..|sel|] == sel && r[|sel|] == t
  {
    sel + [t]
  }

  /** Clearing a box: every entry equal to the type is dropped. */
  function Uncheck(sel: Selection, t: string): (r: Selection)
    ensures |r| <= |sel|
    ensures forall i :: 0 <= i < |r| ==> r[i] != t
  {
    Filter(sel, v => v != t)
  }

  /** `onCheckedChange`: afterwards the box shows exactly the state it was set to. */
  function OnCheckedChange(sel: Selection, t: string, checked: bool): (r: Selection)
    ensures IsChecked(r, t) <==> checked
  {
    if checked then Check(sel, t) else Uncheck(sel, t)
  }

  /** The refinement `value.some((item) => item)`: some entry is a non-empty string. */
  predicate SelectionValid(sel: Selection)
  {
    exists i :: 0 <= i < |sel| && sel[i] != ""
  }

  /** The form's verdict: the selection, or the refinement's message. */
  datatype Validation = Accepted(types: Selection) | Rejected(message: string)

  function Validate(sel: Selection): (v: Validation)
    ensures v.Rejected? <==> forall i :: 0 <= i < |sel| ==> sel[i] == ""
    ensures v.Accepted? ==> v.types == sel
    ensures v.Rejected? ==> v.message == NoSelectionMessage
  {
    if SelectionValid(sel) then Accepted(sel) else Rejected(NoSelectionMessage)
  }

  /** After ticking a box it shows as checked, and the other boxes are unchanged. */
  lemma CheckShowsChecked(sel: Selection, t: string, u: string)
    ensures IsChecked(Check(sel, t), t)
    ensures u != t ==> (IsChecked(Check(sel, t), u) <==> IsChecked(sel, u))
  {
    assert Check(sel, t)[|sel|] == t;
  }

  /**
   * Clearing a box removes every occurrence of its type and nothing else,
   * keeping the order of the remaining entries.
   */
  lemma UncheckRemovesAll(sel: Selection, t: string)
    ensures !IsChecked(Uncheck(sel, t), t)
    ensures forall u :: u != t ==> (IsChecked(Uncheck(sel, t), u) <==> IsChecked(sel, u))
    ensures IsSubseq(Uncheck(sel, t), sel)
    ensures forall u :: u != t ==> multiset(Uncheck(sel, t))[u] == multiset(sel)[u]
  {
    var p := (v: string) => v != t;
    FilterIsSubseq(sel, p);
    FilterMembers(sel, p, t);
    forall u | u != t ensures IsChecked(Uncheck(sel, t), u) <==> IsChecked(sel, u) {
      FilterMembers(sel, p, u);
    }
    forall u | u != t ensures multiset(Uncheck(sel, t))[u] == multiset(sel)[u] {
      UncheckCount(sel, t, u);
    }
  }

  lemma {:induction false} UncheckCount(sel: Selection, t: string, u: string)
    requires u != t
    ensures multiset(Uncheck(sel, t))[u] == multiset(sel)[u]
  {
    if sel != [] {
      UncheckCount(sel[1..], t, u);
      assert sel == [sel[0]] + sel[1..];
    }
  }

  /** Ticking an unticked box and clearing it again restores the selection. */
  lemma CheckThenUncheck(sel: Selection, t: string)
    requires !IsChecked(sel, t)
    ensures Uncheck(Check(sel, t), t) == sel
  {
    var p := (v: string) => v != t;
    FilterAppend(sel, [t], p);
    FilterAll(sel, p);
    assert Filter([t], p) == [];
  }

  /** The dialog opens with every type ticked, and that selection passes validation. */
  lemma DefaultSelectionValid()
    ensures forall t :: IsChecked(DefaultSelection(), Name(t))
    ensures Validate(DefaultSelection()).Accepted?
  {
    LookupListComplete();
    var sel := DefaultSelection();
    forall t ensures IsChecked(sel, Name(t)) {
      assert t in ALL_ACTION_TYPES;
      var i :| 0 <= i < |ALL_ACTION_TYPES| && ALL_ACTION_TYPES[i] == t;
      assert sel[i] == Name(t);
    }
    assert sel[0] == "Cash Dividend";
  }
}
