/** The creator driven by the user's button presses: an action per editing
    button, the session it leads to, and the invariant every session reached
    from the initial one keeps. */
module Transitions {
  import opened Outcomes
  import opened Keypoints
  import opened Store
  import Display

  /** One editing button press with the values the widgets supply. Add takes
      the position slider and the colour picked on the wheel; Remove and
      Reposition take the list selection (None when nothing is selected);
      Reposition takes the dialog's answer (None when cancelled); Clear takes
      the answer to the confirmation; Recolor takes the index recorded when
      the edit dialog opened and the colour on the wheel when Apply is hit. */
  datatype Action =
    | Add(position: real, color: Rgb)
    | Remove(selection: Option<nat>)
    | Clear(confirmed: bool)
    | Reposition(selection: Option<nat>, newPosition: Option<real>)
    | Recolor(index: nat, color: Rgb)

  /** What the widgets guarantee: the slider and the position dialog stay in
      [0, 1], the colour wheel yields channels in [0, 1], and a list
      selection names a row of the list box, so there is none before the list
      box is first filled. The edit dialog opens only on a selection, so
      Recolor needs a filled list box too, but its index may be stale. */
  predicate Admissible(st: Session, a: Action): (ok: bool)
    ensures ok && a.Add? ==> ValidKeypoint(Keypoint(a.position, a.color))
    ensures ok && (a.Remove? || a.Reposition?) && a.selection.Some? ==>
              st.listed && a.selection.value < |Display.ColorList(st.colors)|
    ensures ok && a.Reposition? && a.newPosition.Some? ==> InUnit(a.newPosition.value)
    ensures a.Clear? ==> ok
    ensures a.Recolor? ==> (ok <==> st.listed && ValidRgb(a.color))
  {
    match a
    case Add(p, c) => InUnit(p) && ValidRgb(c)
    case Remove(sel) => sel.Some? ==> st.listed && sel.value < |st.colors|
    case Clear(_) => true
    case Reposition(sel, q) =>
      (sel.Some? ==> st.listed && sel.value < |st.colors|) && (q.Some? ==> InUnit(q.value))
    case Recolor(_, c) => st.listed && ValidRgb(c)
  }

  /** The button pressed decides the operation. An IndexError raised by a
      stale Recolor index is reported by Tk and leaves the session as it was. */
  function Step(st: Session, a: Action): (r: Session)
    requires Admissible(st, a)
    ensures a.Recolor? && a.index >= |st.colors| ==> r == st
    ensures a.Recolor? && a.index < |st.colors| ==>
              |r.colors| == |st.colors| && r.colors[a.index].color == a.color
    ensures Consistent(st) ==> Consistent(r)
    ensures st.replaced ==> r.replaced
    ensures |r.colors| > |st.colors| ==> a.Add? && st.replaced && |r.colors| == |st.colors| + 1
    ensures st.listed ==> r.listed
    ensures r != st ==> r.listed
  {
    match a
    case Add(p, c) => AddColor(st, p, c)
    case Remove(sel) => RemoveColor(st, sel)
    case Clear(ok) => ClearAll(st, ok)
    case Reposition(sel, q) => EditPosition(st, sel, q)
    case Recolor(i, c) =>
      match ApplyColor(st, i, c)
      case Ok(next) => next
      case Err(_) => st
  }

  predicate AdmissibleRun(st: Session, acts: seq<Action>)
    decreases |acts|
  {
    |acts| == 0 || (Admissible(st, acts[0]) && AdmissibleRun(Step(st, acts[0]), acts[1..]))
  }

  function Run(st: Session, acts: seq<Action>): Session
    requires AdmissibleRun(st, acts)
    decreases |acts|
  {
    if |acts| == 0 then st else Run(Step(st, acts[0]), acts[1..])
  }

  lemma AddKeepsValid(st: Session, p: real, c: Rgb)
    requires AllValid(st.colors) && InUnit(p) && ValidRgb(c)
    ensures AllValid(AddColor(st, p, c).colors)
  {
    var r := AddColor(st, p, c);
    if st.replaced {
      forall i | 0 <= i < |r.colors|
        ensures ValidKeypoint(r.colors[i])
      {
        assert r.colors[i] in multiset(r.colors);
      }
    } else {
      forall i | 0 <= i < |r.colors|
        ensures ValidKeypoint(r.colors[i])
      {
        assert r.colors[i].position == PositionsOf(r.colors)[i];
        assert st.colors[i].position == PositionsOf(st.colors)[i];
      }
    }
  }

  lemma EditKeepsValid(st: Session, i: nat, q: real)
    requires AllValid(st.colors) && i < |st.colors| && InUnit(q)
    ensures AllValid(EditPosition(st, Some(i), Some(q)).colors)
  {
    var r := EditPosition(st, Some(i), Some(q));
    var u := Moved(st.colors, i, q);
    assert AllValid(u);
    forall j | 0 <= j < |r.colors|
      ensures ValidKeypoint(r.colors[j])
    {
      assert r.colors[j] in multiset(u);
    }
  }

  lemma ApplyKeepsValid(st: Session, i: nat, c: Rgb)
    requires AllValid(st.colors) && i < |st.colors| && ValidRgb(c)
    ensures AllValid(ApplyColor(st, i, c).value.colors)
  {
    var r := ApplyColor(st, i, c).value;
    forall j | 0 <= j < |r.colors|
      ensures ValidKeypoint(r.colors[j])
    {
      assert r.colors[j].position == PositionsOf(r.colors)[j];
      assert st.colors[j].position == PositionsOf(st.colors)[j];
    }
  }

  /** Every button press keeps the list sorted, in range and previewed, and
      never lowers the `replaced` flag. */
  lemma StepPreservesInv(st: Session, a: Action)
    requires Inv(st) && Admissible(st, a)
    ensures Inv(Step(st, a))
    ensures st.replaced ==> Step(st, a).replaced
  {
    match a
    case Add(p, c) => AddKeepsValid(st, p, c);
    case Remove(sel) =>
    case Clear(ok) =>
    case Reposition(sel, q) =>
      if sel.Some? && q.Some? {
        EditKeepsValid(st, sel.value, q.value);
      }
    case Recolor(i, c) =>
      if i < |st.colors| {
        ApplyKeepsValid(st, i, c);
      }
  }

  /** Any sequence of button presses from a well-formed session ends in a
      well-formed session. */
  lemma {:induction false} RunPreservesInv(st: Session, acts: seq<Action>)
    requires Inv(st) && AdmissibleRun(st, acts)
    ensures Inv(Run(st, acts))
    ensures st.replaced ==> Run(st, acts).replaced
    ensures st.listed ==> Run(st, acts).listed
    ensures !Run(st, acts).listed ==> Run(st, acts) == st
    decreases |acts|
  {
    if |acts| > 0 {
      StepPreservesInv(st, acts[0]);
      RunPreservesInv(Step(st, acts[0]), acts[1..]);
    }
  }

  /** Every session the creator can reach is sorted by position, has its
      positions and channels in [0, 1], and previews (and lets the user save
      and export) exactly when it holds at least two keypoints. Its list box
      is still empty only if nothing has changed since the start. */
  lemma Reachable(acts: seq<Action>)
    requires AdmissibleRun(Init(), acts)
    ensures Inv(Run(Init(), acts))
    ensures Run(Init(), acts).cmap.Some? <==> |Run(Init(), acts).colors| >= 2
    ensures !Run(Init(), acts).listed ==> Run(Init(), acts) == Init()
  {
    RunPreservesInv(Init(), acts);
  }

  /** A list emptied before any colour was replaced stays empty for good:
      adds look only for a keypoint to overwrite and there is none. */
  lemma {:induction false} ClearedBeforeReplaceStaysEmpty(st: Session, acts: seq<Action>)
    requires st.colors == [] && !st.replaced
    requires AdmissibleRun(st, acts)
    ensures Run(st, acts).colors == [] && !Run(st, acts).replaced
    decreases |acts|
  {
    if |acts| > 0 {
      var next := Step(st, acts[0]);
      assert next.colors == [] && !next.replaced;
      ClearedBeforeReplaceStaysEmpty(next, acts[1..]);
    }
  }
}
