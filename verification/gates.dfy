/** The "at least two keypoints" gates of the creator: the preview colormap is
    built from the keypoint list only when it has two or more entries, and the
    code export refuses otherwise. */
module Gates {
  import opened Outcomes
  import opened Keypoints

  /** Fewest keypoints from which a colormap is built or exported. */
  const MinKeypoints: nat := 2

  /** A colormap as the anchors handed to matplotlib's
      LinearSegmentedColormap.from_list: zip(positions, colors). The
      interpolation matplotlib performs between anchors is not modelled. */
  datatype Colormap = Colormap(anchors: seq<(real, Rgb)>)

  /** The two parallel lists the code export writes out. */
  datatype Exported = Exported(positions: seq<real>, colors: seq<Rgb>)

  datatype ExportError = NotEnoughColors

  function Zip(ps: seq<real>, cs: seq<Rgb>): (z: seq<(real, Rgb)>)
    requires |ps| == |cs|
    ensures |z| == |ps|
    ensures forall i :: 0 <= i < |z| ==> z[i].0 == ps[i] && z[i].1 == cs[i]
  {
    seq(|ps|, i requires 0 <= i < |ps| => (ps[i], cs[i]))
  }

  /** Rebuilds keypoints from two parallel lists. */
  function FromLists(ps: seq<real>, cs: seq<Rgb>): (s: seq<Keypoint>)
    requires |ps| == |cs|
    ensures PositionsOf(s) == ps && ColorsOf(s) == cs
  {
    seq(|ps|, i requires 0 <= i < |ps| => Keypoint(ps[i], cs[i]))
  }

  /** The colormap update_colormap_preview stores in custom_cmap: present
      exactly when there are at least two keypoints, anchored at each
      keypoint's position with its colour, in list order. */
  function Preview(s: seq<Keypoint>): (r: Option<Colormap>)
    ensures r.Some? <==> |s| >= MinKeypoints
    ensures r.Some? ==> |r.value.anchors| == |s|
    ensures r.Some? ==> forall i :: 0 <= i < |s| ==>
              r.value.anchors[i] == (s[i].position, s[i].color)
  {
    if |s| >= MinKeypoints then Some(Colormap(Zip(PositionsOf(s), ColorsOf(s))))
    else None
  }

  /** The data export_python_code writes: refused with fewer than two
      keypoints, otherwise the positions and colours of the list. */
  function ExportData(s: seq<Keypoint>): (r: Result<Exported, ExportError>)
    ensures r.Ok? <==> |s| >= MinKeypoints
    ensures r.Err? ==> r.error == NotEnoughColors
    ensures r.Ok? ==> |r.value.positions| == |r.value.colors| == |s|
  {
    if |s| < MinKeypoints then Err(NotEnoughColors)
    else Ok(Exported(PositionsOf(s), ColorsOf(s)))
  }

  /** The exported lists describe the keypoint list exactly: zipping them
      back gives the list. */
  lemma ExportRoundTrip(s: seq<Keypoint>)
    requires |s| >= MinKeypoints
    ensures FromLists(ExportData(s).value.positions, ExportData(s).value.colors) == s
  {
    var e := ExportData(s).value;
    var t := FromLists(e.positions, e.colors);
    assert forall i :: 0 <= i < |s| ==> t[i] == Keypoint(t[i].position, t[i].color);
    assert forall i :: 0 <= i < |s| ==> t[i].position == PositionsOf(t)[i];
  }

  /** The exported code builds the same colormap as the preview: both gates
      agree, and the exported lists zip to the preview's anchors. */
  lemma ExportMatchesPreview(s: seq<Keypoint>)
    ensures ExportData(s).Ok? <==> Preview(s).Some?
    ensures ExportData(s).Ok? ==>
              Zip(ExportData(s).value.positions, ExportData(s).value.colors)
              == Preview(s).value.anchors
  {
  }
}
