# Colormap creator: keypoint store

This project models the core of an interactive colormap creator, `ColorMapCreator` in
`colormap_creator.py`. The creator keeps a list of keypoints. Each keypoint pairs a
position in [0, 1] with an (r, g, b) colour whose channels are also in [0, 1]. A
`replaced` flag and a preview colormap are kept alongside the list. The user edits
the list with five buttons: add, remove, clear, edit position and edit colour. The
preview colormap and the code export are built only from lists with at least two
keypoints. Colours are shown as `#rrggbb` strings.

The model is functional. A `Session` holds the list, the flag, the preview
colormap and whether the list box has been filled. Each button is a pure function from one session to the next. Positions
and channels are Dafny `real`s.

Modules:

- `Keypoints` (keypoints.dfy): the `Rgb` and `Keypoint` datatypes, sortedness, and
  `Sort`. `Sort` is a stable sort by position, the model of Python's
  `list.sort(key=...)`. It is proved sorted, a permutation and stable. It is also
  proved to be the only sort with those properties.
- `Gates` (gates.dfy): the preview colormap (`Preview`) and the code export
  (`ExportData`). Both require at least two keypoints.
- `Display` (display.dfy): `int(c*255)` truncation, `'{:02x}'` formatting, the
  `#rrggbb` string and how it reads back, and the rows of the keypoint list.
- `Store` (store.dfy): the session and the five operations, with their contracts.
- `Transitions` (transitions.dfy): button presses as actions, runs of actions, and
  the invariant every reachable session keeps.
- `Outcomes` (outcomes.dfy): `Option` and `Result`.

## How the code behaves, where it differs from its own description

- `add_color` follows the code, not the comments above it.
  While `replaced` is false, a call looks for the first keypoint within 0.001 of
  the slider position. If one exists, its colour is overwritten and `replaced` is
  set. If none exists, nothing changes, and no keypoint is inserted. Once
  `replaced` is true, every call appends the new keypoint and re-sorts, with no
  tolerance check. Adding at 0.5 to the initial two-keypoint list is therefore
  ignored (`FirstAddAwayFromEndsIgnored`). Clearing the list before the first
  replacement leaves an editor that can never gain a keypoint
  (`ClearedBeforeReplaceStaysEmpty`).
- Keypoint positions need not be unique. Duplicates arise from appends after the
  flag flips and from repositioning. The proved ordering is only non-decreasing.
- The list box is empty when the program starts: neither `__init__` nor `setup_ui`
  calls `update_color_list`. Add always calls it (line 435). Remove, Clear, Edit
  Position and Apply call it whenever they change the list (lines 444, 453, 492
  and 613). From then on the list box has one row per keypoint. Before that,
  Remove, Edit Position and Edit Colour find no selection, and the model admits
  none (`Transitions.Admissible`). Removing or repositioning therefore always has
  a valid index. Repositioning cannot go out of range, because the dialog only
  returns values in [0, 1] or nothing. The one index error the code can actually
  raise is in the edit-colour dialog. That dialog records the index when it opens
  and is not modal, so the list can shrink before Apply is pressed. `ApplyColor`
  returns `IndexError` in that case, and the session is unchanged.

## Model

| member | source | states |
|---|---|---|
| Store.Init | colormap_creator.py:25-29 | The creator starts with exactly two keypoints, white (1,1,1) at 0.0 and black (0,0,0) at 1.0. `replaced` is false. The preview colormap exists, because `setup_ui` ends by building it at line 242. The list box is still empty. The session satisfies the invariant. |
| Store.FirstNear | colormap_creator.py:422-427 | The loop in add_color picks the first index whose position is strictly within 0.001 of p. It returns nothing exactly when no keypoint is that close. |
| Store.AddColor | colormap_creator.py:419-433 | While `replaced` is false, the length and every position stay the same. Only the first near keypoint takes the new colour, and all other entries are unchanged. The flag is raised iff some keypoint was near. With no near keypoint, the list, the flag and an up-to-date preview stay as they were, and the list box gets filled (line 435). Once `replaced` is true, the list grows by exactly one, is the old list plus (p, c) as a multiset, contains (p, c), and the flag stays up. Sortedness is preserved either way. |
| Store.AddAfterReplaceInserts | colormap_creator.py:431-433 | After the flag is up, appending and sorting a sorted list puts (p, c) right after every keypoint at or before p. The other entries keep their order. |
| Store.FirstAddAwayFromEndsIgnored | colormap_creator.py:421-427 | From the initial session, adding at any p in [0.001, 0.999] leaves the list, the flag and the preview exactly as they were. Only the list box gets filled (line 435). |
| Store.RemoveColor | colormap_creator.py:438-447 | With no selection the session is unchanged. With index i, the list shrinks by one and every other entry keeps its relative order (entry j is old j before i and old j+1 from i on). The flag is kept and sortedness is preserved. |
| Store.RemoveThenReinsert | colormap_creator.py:442-443 | Putting the removed keypoint back at its index restores the original list. |
| Store.ClearAll | colormap_creator.py:449-454 | Once confirmed, the list is empty, the preview is gone and `replaced` is untouched. Without confirmation nothing changes. A sorted list stays sorted. |
| Store.EditPosition | colormap_creator.py:474-493 | With no selection or a cancelled dialog the session is unchanged. Otherwise the result is sorted and is a permutation of the list with entry i moved to the new position. It keeps every group of same-position keypoints in order, so the sort is stable. No colour is added or lost, and the flag is kept. |
| Store.ApplyColor | colormap_creator.py:610-615 | Fails with IndexError exactly when the recorded index is past the end. Otherwise only the colour at idx changes, to c. All positions, all other entries, the length and the flag are unchanged, and sortedness is preserved. |
| Store.ApplyThenRestore | colormap_creator.py:610-612 | Applying a colour and then the entry's original colour gives back the original session, with its list box filled. |
| Store.SaveGateMatchesExport | colormap_creator.py:680-685 | In a session whose preview is up to date, saving is allowed (custom_cmap is not None) iff there are at least 2 keypoints, which is exactly when the code export proceeds. |
| Gates.Preview | colormap_creator.py:648-670 | A colormap is built iff the list has at least 2 keypoints. Its anchors are each keypoint's (position, colour), in list order. |
| Gates.ExportData | colormap_creator.py:730-739 | Export proceeds iff the list has at least 2 keypoints and otherwise fails with NotEnoughColors. The positions and colours lists have the list's length. |
| Gates.ExportRoundTrip | colormap_creator.py:738-739 | Zipping the exported positions and colours back gives exactly the keypoint list. |
| Gates.ExportMatchesPreview | colormap_creator.py:650-656 | The export and the preview gates agree. The exported lists zip to the preview's anchors, so the generated code builds the same colormap as the preview. |
| Keypoints.Sort | colormap_creator.py:433 | The sort used after an append or reposition returns a list of the same length that is non-decreasing by position and a permutation of its input. |
| Keypoints.SortStable | colormap_creator.py:491 | For every position, the keypoints at that position keep their original relative order, as Python's stable sort guarantees. |
| Keypoints.SortCharacterized | colormap_creator.py:432-433 | Any sorted list that keeps every same-position group of s in order is Sort(s). The sort is therefore fully determined by the two properties above. |
| Keypoints.SortSortedIsIdentity | colormap_creator.py:490-491 | Re-sorting an already sorted list changes nothing. |
| Keypoints.AppendThenSort | colormap_creator.py:432-433 | Appending k to a sorted list and sorting inserts k right after every keypoint whose position is at most k's. |
| Keypoints.SortKeepsColors | colormap_creator.py:490-491 | Sorting keeps the multiset of colours. |
| Display.Trunc | colormap_creator.py:376-378 | Python's int() on a float truncates toward zero. For x >= 0 the result n has n <= x < n+1. For x < 0 it has n-1 < x <= n. |
| Display.Channel255 | colormap_creator.py:460 | For a channel c >= 0 the shown value n is floor(c*255), that is n <= c*255 < n+1. For c in [0, 1] it lies in 0..255. Channel 1.0 shows 255 and channel 0.0 shows 0. |
| Display.HexNat | colormap_creator.py:461 | Lower-case hex digits of n with no leading zero. They read back as n, with one digit below 16 and two below 256. |
| Display.Hex02 | colormap_creator.py:375-379 | `'{:02x}'`: a non-negative n gives at least two lower-case hex digits that read back as n, and exactly two below 256. A negative n gives '-' followed by the digits of -n. No leading zero appears beyond the padding of a single digit. |
| Display.HexColor | colormap_creator.py:375-379 | For channels in [0, 1] the colour string is '#' plus six lower-case hex digits. It reads back as the colour's 0-255 triple. |
| Display.HexTripleReadsBack | colormap_creator.py:461 | Any triple in 0..255 formatted as `#{:02x}{:02x}{:02x}` is 7 characters long and parses back to the same triple. |
| Display.Brightness | colormap_creator.py:470 | With weights 299/587/114 over 1000, the brightness of a colour with channels in [0, 1] lies in [0, 1]. |
| Display.TextOnMonotone | colormap_creator.py:470-471 | Raising every channel can only switch a row's text from white to black, never back. |
| Display.ColorList | colormap_creator.py:456-472 | One row per keypoint, in list order. Each row's label shows the keypoint's 0-255 triple, and, for keypoints in range, its background string reads back as that same triple. The text is black exactly when brightness exceeds 0.5. |
| Transitions.Admissible | colormap_creator.py:159-163 | What the widgets guarantee. An admitted Add carries a slider position and a wheel colour in range. A Remove or Reposition selection names a row of the list box. So there is none before `update_color_list` first fills the box, and after that the box has one row per keypoint. The position dialog only answers in [0, 1] (484-487). Clear is always possible. The edit dialog opens only on a selection (518), so a Recolor also needs a filled list box. It is admitted for any in-range colour whatever its recorded index, because that index may be stale. |
| Transitions.Step | colormap_creator.py:177-192 | Each button runs its operation. A Recolor whose recorded index is past the end leaves the session unchanged, because Tk reports the IndexError from line 612 and lines 613-615 never run. An in-range Recolor sets that entry's colour. The preview stays consistent, a raised flag stays raised, and the list grows only by one, only through Add once the flag is up. A filled list box stays filled, and any press that changes the session leaves it filled. |
| Transitions.AddKeepsValid | colormap_creator.py:414-433 | Adding a slider position and a wheel colour, both in range, keeps every position and channel of the list in [0, 1]. |
| Transitions.EditKeepsValid | colormap_creator.py:484-491 | Moving a keypoint to a position in [0, 1] keeps every position and channel in range. |
| Transitions.ApplyKeepsValid | colormap_creator.py:610-612 | Applying an in-range colour keeps every position and channel in range. |
| Transitions.StepPreservesInv | colormap_creator.py:412-493 | Every button press keeps the list sorted, in range and previewed, and never lowers `replaced`. |
| Transitions.RunPreservesInv | colormap_creator.py:412-493 | Any sequence of button presses from a well-formed session ends in a well-formed session. A raised flag stays raised, and a filled list box stays filled. If the list box is still empty at the end, nothing has changed. |
| Transitions.Reachable | colormap_creator.py:25-29 | Every session reachable from the initial one is sorted, in range and up to date. It has a colormap iff it holds at least 2 keypoints. If its list box is still empty, it is the initial session. |
| Transitions.ClearedBeforeReplaceStaysEmpty | colormap_creator.py:449-454 | A list cleared before any colour was replaced stays empty, and the flag stays down, whatever the user presses afterwards. |

## Left out

- HSV conversion (`colorsys.hsv_to_rgb` and `rgb_to_hsv`) is a library whose code is not part of this model, and it works in floating point. The colour picked on the wheel is a parameter of Add and Recolor, assumed to have channels in [0, 1].
- Drawing the colour wheel and value bar, and mapping clicks to hue, saturation and value with `arctan2` and `sqrt`, are display-only float numerics.
- Matplotlib's interpolation between anchors and sampling the preview at 256 or 1000 points are left out. That code belongs to matplotlib and is not part of this model. The colormap is modelled as its anchor list.
- Matplotlib builds a colormap's lookup table only when the colormap is first used, and it rejects with a ValueError an anchor list whose first position is not 0.0 or whose last is not 1.0. Moving keypoint 0 to 0.5 with Edit Position produces such a list. The preview first uses the colormap when it is drawn at line 678, after `custom_cmap` has been set at line 657, so the error leaves the modelled session as it is. The model does not record that drawing the preview, or a later save, fails.
- File and clipboard I/O are left out: `np.save`, `plt.savefig`, writing the generated Python file, the code window and the clipboard. The Python code template is left out too. Only the data it embeds (`ExportData`) is modelled.
- Tk widgets, message boxes and dialogs are left out. Their answers become parameters: the list selection is `Option<nat>`, the clear confirmation is a `bool`, and the position dialog's answer is `Option<real>`. The 100 ms polling loop of the edit dialog is left out too.
- `cancel_edit` of the edit dialog and the HSV/RGB readouts only restore or show the wheel's current colour and never touch the keypoint list, so they are not modelled.
- The position slider's 0.01 resolution is not modelled: any position in [0, 1] is allowed.
- The `{:.2f}` position label and the `int(h*360)`-style HSV text are float-to-text formatting and are left out.
- The commented-out earlier versions of `add_color` and `edit_color_rgb` are dead code.
- Store.AddColor: the 0.001 test runs on exact reals, not on Python floats, and the two can disagree at the boundary. For example, move keypoint 0 to 0.011 with Edit Position, then add with the slider at 0.01. In Python `abs(0.011 - 0.01)` is 0.0009999999999999992, so the colour is overwritten and `replaced` is set. On reals the distance is exactly 0.001, so the model changes nothing and the flag stays down. Floats are not modelled.
- Display.TextOn: the `brightness > 0.5` test runs on exact reals. A colour whose floating-point brightness rounds across 0.5 can get the other text colour in the program.
- Display.Channel255: computes `c*255` on exact reals. Rounding of the floating-point product, which can move `int(c*255)` by one for some c, is not modelled.
