/** The keypoint list of the colormap creator as a state machine: a session
    holds the list, the `replaced` flag and the preview colormap, and every
    button the user presses is a pure transition from one session to the next. */
module Store {
  import opened Outcomes
  import opened Keypoints
  import Gates

  /** Two positions closer than this count as the same place. */
  const Tolerance: real := 0.001

  /** The creator's state: the keypoint list, the flag that add_color flips the
      first time it overwrites a colour, the colormap the preview last built
      (None when there were fewer than two keypoints), and whether the list box
      has been filled. The list box starts empty and update_color_list first
      fills it after an editing button; from then on it has one row per
      keypoint. */
  datatype Session = Session(colors: seq<Keypoint>, replaced: bool, cmap: Option<Gates.Colormap>, listed: bool)

  datatype EditError = IndexError

  function Abs(x: real): real {
    if x < 0.0 then -x else x
  }

  predicate Near(position: real, p: real) {
    Abs(position - p) < Tolerance
  }

  /** The preview shows the current list. */
  predicate Consistent(st: Session) {
    st.cmap == Gates.Preview(st.colors)
  }

  /** What every reachable session satisfies: sorted by position, positions
      and channels in [0, 1], and the preview up to date. */
  predicate Inv(st: Session) {
    Sorted(st.colors) && AllValid(st.colors) && Consistent(st)
  }

  /** A session after update_color_list has refilled the list box and
      update_colormap_preview has rebuilt the colormap. */
  function Refresh(colors: seq<Keypoint>, replaced: bool): (r: Session)
    ensures r.colors == colors && r.replaced == replaced
    ensures Consistent(r) && r.listed
  {
    Session(colors, replaced, Gates.Preview(colors), true)
  }

  /** The session the creator starts with: white at 0.0, black at 1.0, nothing
      replaced yet, the preview already built by setup_ui, and the list box
      still empty, since neither __init__ nor setup_ui calls update_color_list. */
  function Init(): (r: Session)
    ensures |r.colors| == 2
    ensures r.colors[0] == Keypoint(0.0, White) && r.colors[1] == Keypoint(1.0, Black)
    ensures !r.replaced
    ensures r.cmap.Some?
    ensures !r.listed
    ensures Inv(r)
  {
    var colors := [Keypoint(0.0, White), Keypoint(1.0, Black)];
    Session(colors, false, Gates.Preview(colors), false)
  }

  /** `i` is the first index whose position is within Tolerance of `p`. */
  predicate IsFirstNear(s: seq<Keypoint>, p: real, i: int) {
    0 <= i < |s| && Near(s[i].position, p)
    && forall j :: 0 <= j < i ==> !Near(s[j].position, p)
  }

  /** The scan of add_color's loop: the first keypoint near `p`, if any. */
  function FirstNear(s: seq<Keypoint>, p: real): (r: Option<nat>)
    ensures r.Some? ==> IsFirstNear(s, p, r.value)
    ensures r.None? <==> forall i :: 0 <= i < |s| ==> !Near(s[i].position, p)
  {
    if |s| == 0 then None
    else if Near(s[0].position, p) then Some(0)
    else
      match FirstNear(s[1..], p)
      case None => None
      case Some(i) => Some(i + 1)
  }

  /** add_color as the code is written. While `replaced` is false it only
      overwrites the colour of the first keypoint near `p` and raises the flag,
      and does nothing if no keypoint is near. Once the flag is up it appends
      (p, c) with no tolerance check and re-sorts. */
  function AddColor(st: Session, p: real, c: Rgb): (r: Session)
    ensures Consistent(r) && r.listed
    ensures Sorted(st.colors) ==> Sorted(r.colors)
    ensures !st.replaced ==> |r.colors| == |st.colors|
    ensures !st.replaced ==> PositionsOf(r.colors) == PositionsOf(st.colors)
    ensures !st.replaced ==>
              (r.replaced <==> exists i :: 0 <= i < |st.colors| && Near(st.colors[i].position, p))
    ensures !st.replaced ==> forall i :: 0 <= i < |st.colors| ==>
              r.colors[i] == (if IsFirstNear(st.colors, p, i)
                              then Keypoint(st.colors[i].position, c)
                              else st.colors[i])
    ensures Consistent(st) && !st.replaced
            && (forall i :: 0 <= i < |st.colors| ==> !Near(st.colors[i].position, p))
            ==> r == st.(listed := true)
    ensures st.replaced ==> r.replaced
    ensures st.replaced ==> |r.colors| == |st.colors| + 1
    ensures st.replaced ==> multiset(r.colors) == multiset(st.colors) + multiset{Keypoint(p, c)}
    ensures st.replaced ==> Keypoint(p, c) in r.colors
  {
    if !st.replaced then
      match FirstNear(st.colors, p)
      case None => Refresh(st.colors, st.replaced)
      case Some(i) =>
        assert forall j :: 0 <= j < |st.colors| ==> (IsFirstNear(st.colors, p, j) <==> j == i);
        Refresh(st.colors[i := Keypoint(st.colors[i].position, c)], true)
    else
      var r := Refresh(Sort(st.colors + [Keypoint(p, c)]), true);
      assert Keypoint(p, c) in multiset(r.colors);
      r
  }

  /** Once the flag is up, a new keypoint lands right after every keypoint at
      or before its position; the rest of the sorted list keeps its order. */
  lemma AddAfterReplaceInserts(st: Session, p: real, c: Rgb)
    requires st.replaced && Sorted(st.colors)
    ensures var j := UpperBound(st.colors, p);
            AddColor(st, p, c).colors == st.colors[..j] + [Keypoint(p, c)] + st.colors[j..]
  {
    AppendThenSort(st.colors, Keypoint(p, c));
  }

  /** From the initial session, adding at any p in [0.001, 0.999] is ignored:
      the list, the flag and the preview stay as they were, and only the list
      box gets filled. */
  lemma FirstAddAwayFromEndsIgnored(p: real, c: Rgb)
    requires Tolerance <= p <= 1.0 - Tolerance
    ensures AddColor(Init(), p, c) == Init().(listed := true)
  {
    var s := Init().colors;
    assert !Near(s[0].position, p) && !Near(s[1].position, p);
  }

  /** remove_color: with nothing selected the session is unchanged; otherwise
      the selected keypoint is dropped and the others keep their order. */
  function RemoveColor(st: Session, selection: Option<nat>): (r: Session)
    requires selection.Some? ==> selection.value < |st.colors|
    ensures selection.None? ==> r == st
    ensures selection.Some? ==> Consistent(r) && r.listed && r.replaced == st.replaced
    ensures selection.Some? ==> |r.colors| == |st.colors| - 1
    ensures selection.Some? ==> forall j :: 0 <= j < |r.colors| ==>
              r.colors[j] == st.colors[if j < selection.value then j else j + 1]
    ensures Sorted(st.colors) ==> Sorted(r.colors)
  {
    match selection
    case None => st
    case Some(i) => Refresh(st.colors[..i] + st.colors[i + 1..], st.replaced)
  }

  /** Removal is undone by putting the removed keypoint back at its index. */
  lemma RemoveThenReinsert(st: Session, i: nat)
    requires i < |st.colors|
    ensures var rest := RemoveColor(st, Some(i)).colors;
            rest[..i] + [st.colors[i]] + rest[i..] == st.colors
  {
    var s := st.colors;
    var rest := RemoveColor(st, Some(i)).colors;
    assert rest == s[..i] + s[i + 1..];
    assert rest[..i] == s[..i];
    assert rest[i..] == s[i + 1..];
    assert s == s[..i] + [s[i]] + s[i + 1..];
  }

  /** clear_all: once the user confirms, the list is emptied and the preview
      dropped; `replaced` is left as it was. */
  function ClearAll(st: Session, confirmed: bool): (r: Session)
    ensures confirmed ==> r.colors == [] && r.replaced == st.replaced && r.cmap.None? && r.listed
    ensures !confirmed ==> r == st
    ensures Sorted(st.colors) ==> Sorted(r.colors)
  {
    if confirmed then Refresh([], st.replaced) else st
  }

  /** The list after edit_color_position sets entry `i` to position `q`,
      before sorting. */
  function Moved(s: seq<Keypoint>, i: nat, q: real): seq<Keypoint>
    requires i < |s|
  {
    s[i := Keypoint(q, s[i].color)]
  }

  /** edit_color_position: with nothing selected or the dialog cancelled the
      session is unchanged; otherwise the selected keypoint takes the new
      position and the list is stably sorted. No colour changes. */
  function EditPosition(st: Session, selection: Option<nat>, newPosition: Option<real>): (r: Session)
    requires selection.Some? ==> selection.value < |st.colors|
    ensures selection.None? || newPosition.None? ==> r == st
    ensures selection.Some? && newPosition.Some? ==>
              var u := Moved(st.colors, selection.value, newPosition.value);
              && Consistent(r) && r.listed
              && r.replaced == st.replaced
              && Sorted(r.colors)
              && multiset(r.colors) == multiset(u)
              && (forall p :: OfPosition(r.colors, p) == OfPosition(u, p))
              && multiset(ColorsOf(r.colors)) == multiset(ColorsOf(st.colors))
    ensures Sorted(st.colors) ==> Sorted(r.colors)
  {
    if selection.None? || newPosition.None? then st
    else
      var u := Moved(st.colors, selection.value, newPosition.value);
      SortStable(u);
      SortKeepsColors(u);
      assert ColorsOf(u) == ColorsOf(st.colors);
      Refresh(Sort(u), st.replaced)
  }

  /** apply_color of edit_color_rgb: entry `idx` takes colour `c`. The index is
      taken when the dialog opens and the dialog is not modal, so the list may
      have shrunk meanwhile; Python then raises IndexError and nothing changes. */
  function ApplyColor(st: Session, idx: nat, c: Rgb): (r: Result<Session, EditError>)
    ensures r.Ok? <==> idx < |st.colors|
    ensures r.Err? ==> r.error == IndexError
    ensures r.Ok? ==> Consistent(r.value) && r.value.listed && r.value.replaced == st.replaced
    ensures r.Ok? ==> |r.value.colors| == |st.colors|
    ensures r.Ok? ==> PositionsOf(r.value.colors) == PositionsOf(st.colors)
    ensures r.Ok? ==> r.value.colors[idx].color == c
    ensures r.Ok? ==> forall j :: 0 <= j < |st.colors| && j != idx ==> r.value.colors[j] == st.colors[j]
    ensures r.Ok? && Sorted(st.colors) ==> Sorted(r.value.colors)
  {
    if idx < |st.colors| then
      Ok(Refresh(st.colors[idx := Keypoint(st.colors[idx].position, c)], st.replaced))
    else Err(IndexError)
  }

  /** Applying a colour and then applying the entry's original colour again
      gives back the session with its list box filled: apply changes one
      colour and nothing else. */
  lemma ApplyThenRestore(st: Session, idx: nat, c: Rgb)
    requires Consistent(st) && idx < |st.colors|
    ensures ApplyColor(ApplyColor(st, idx, c).value, idx, st.colors[idx].color) == Ok(st.(listed := true))
  {
    var s1 := ApplyColor(st, idx, c).value;
    var s2 := ApplyColor(s1, idx, st.colors[idx].color).value;
    assert s2.colors == st.colors;
  }

  /** The save buttons (numpy data and image) proceed only when the preview
      holds a colormap; in a consistent session that is exactly when the code
      export proceeds too, i.e. when there are at least two keypoints. */
  lemma SaveGateMatchesExport(st: Session)
    requires Consistent(st)
    ensures st.cmap.Some? <==> |st.colors| >= Gates.MinKeypoints
    ensures st.cmap.Some? <==> Gates.ExportData(st.colors).Ok?
  {
  }
}
