/** Keypoints of a colormap (a position in the gradient and the colour anchored
    there) and the stable sort by position that the creator applies to its list. */
module Keypoints {

  /** A normalized (r, g, b) colour; every producer in the creator keeps the
      channels in [0, 1]. */
  datatype Rgb = Rgb(r: real, g: real, b: real)

  datatype Keypoint = Keypoint(position: real, color: Rgb)

  const White: Rgb := Rgb(1.0, 1.0, 1.0)
  const Black: Rgb := Rgb(0.0, 0.0, 0.0)

  predicate InUnit(x: real) {
    0.0 <= x <= 1.0
  }

  predicate ValidRgb(c: Rgb) {
    InUnit(c.r) && InUnit(c.g) && InUnit(c.b)
  }

  predicate ValidKeypoint(k: Keypoint) {
    InUnit(k.position) && ValidRgb(k.color)
  }

  predicate AllValid(s: seq<Keypoint>) {
    forall i :: 0 <= i < |s| ==> ValidKeypoint(s[i])
  }

  /** Non-decreasing by position. Equal positions are allowed: the creator can
      hold two keypoints at the same place. */
  predicate Sorted(s: seq<Keypoint>) {
    forall i, j :: 0 <= i < j < |s| ==> s[i].position <= s[j].position
  }

  function PositionsOf(s: seq<Keypoint>): seq<real> {
    seq(|s|, i requires 0 <= i < |s| => s[i].position)
  }

  function ColorsOf(s: seq<Keypoint>): seq<Rgb> {
    seq(|s|, i requires 0 <= i < |s| => s[i].color)
  }

  /** The keypoints of `s` whose position is exactly `p`, in their order in `s`.
      A sort is stable exactly when it keeps every such subsequence. */
  function OfPosition(s: seq<Keypoint>, p: real): seq<Keypoint> {
    if |s| == 0 then []
    else (if s[0].position == p then [s[0]] else []) + OfPosition(s[1..], p)
  }

  /** Inserts `k` into a list in front of the first keypoint whose position is
      not below `k`'s. */
  function Insert(k: Keypoint, s: seq<Keypoint>): (r: seq<Keypoint>)
    ensures |r| == |s| + 1
    ensures multiset(r) == multiset(s) + multiset{k}
    ensures Sorted(s) ==> Sorted(r)
    decreases |s|, 0
  {
    if |s| == 0 || k.position <= s[0].position then
      [k] + s
    else
      assert s == [s[0]] + s[1..];
      var t := Insert(k, s[1..]);
      assert Sorted(s) ==> Sorted([s[0]] + t) by {
        if Sorted(s) {
          InsertBelow(k, s[1..], s[0].position);
        }
      }
      [s[0]] + t
  }

  /** A bound below `k` and below every keypoint of `s` stays below every
      keypoint of Insert(k, s). */
  lemma InsertBelow(k: Keypoint, s: seq<Keypoint>, b: real)
    requires b <= k.position
    requires forall i :: 0 <= i < |s| ==> b <= s[i].position
    ensures forall i :: 0 <= i < |Insert(k, s)| ==> b <= Insert(k, s)[i].position
    decreases |s|, 1
  {
    var r := Insert(k, s);
    forall i | 0 <= i < |r|
      ensures b <= r[i].position
    {
      assert r[i] in multiset(r);
      assert r[i] in multiset(s) || r[i] == k;
    }
  }

  /** Stable sort by position, the model of `list.sort(key=lambda x: x['position'])`:
      Python's sort is stable, so keypoints at equal positions keep their order. */
  function Sort(s: seq<Keypoint>): (r: seq<Keypoint>)
    ensures |r| == |s|
    ensures multiset(r) == multiset(s)
    ensures Sorted(r)
  {
    if |s| == 0 then []
    else
      assert s == [s[0]] + s[1..];
      Insert(s[0], Sort(s[1..]))
  }

  lemma {:induction false} OfPositionConcat(a: seq<Keypoint>, b: seq<Keypoint>, p: real)
    ensures OfPosition(a + b, p) == OfPosition(a, p) + OfPosition(b, p)
    decreases |a|
  {
    if |a| == 0 {
      assert a + b == b;
    } else {
      var h := if a[0].position == p then [a[0]] else [];
      assert (a + b)[0] == a[0];
      assert (a + b)[1..] == a[1..] + b;
      calc {
        OfPosition(a + b, p);
        h + OfPosition(a[1..] + b, p);
        { OfPositionConcat(a[1..], b, p); }
        h + (OfPosition(a[1..], p) + OfPosition(b, p));
        OfPosition(a, p) + OfPosition(b, p);
      }
    }
  }

  lemma OfPositionMembers(s: seq<Keypoint>, p: real)
    ensures forall x :: x in OfPosition(s, p) ==> x in s && x.position == p
  {
  }

  lemma {:induction false} OfPositionInsert(k: Keypoint, s: seq<Keypoint>, p: real)
    ensures OfPosition(Insert(k, s), p)
         == (if k.position == p then [k] else []) + OfPosition(s, p)
    decreases |s|
  {
    if |s| == 0 || k.position <= s[0].position {
      assert ([k] + s)[1..] == s;
    } else {
      var t := Insert(k, s[1..]);
      assert ([s[0]] + t)[1..] == t;
      OfPositionInsert(k, s[1..], p);
    }
  }

  /** The sort keeps, for every position, the keypoints at that position in
      their original order: it is stable. */
  lemma {:induction false} SortStable(s: seq<Keypoint>)
    ensures forall p :: OfPosition(Sort(s), p) == OfPosition(s, p)
    decreases |s|
  {
    if |s| > 0 {
      SortStable(s[1..]);
      forall p
        ensures OfPosition(Sort(s), p) == OfPosition(s, p)
      {
        OfPositionInsert(s[0], Sort(s[1..]), p);
      }
    }
  }

  /** The first keypoint of a sorted list sits at its least position. */
  lemma SortedHeadLeast(a: seq<Keypoint>, p: real)
    requires Sorted(a) && |a| > 0
    requires OfPosition(a, p) != []
    ensures a[0].position <= p
  {
    OfPositionMembers(a, p);
    assert OfPosition(a, p)[0] in a;
  }

  lemma NonEmptyAtHead(s: seq<Keypoint>)
    requires |s| > 0
    ensures OfPosition(s, s[0].position) != []
  {
  }

  /** Two lists with equal heads that agree on every OfPosition agree on every
      OfPosition of their tails. */
  lemma OfPositionTails(a: seq<Keypoint>, b: seq<Keypoint>)
    requires |a| > 0 && |b| > 0 && a[0] == b[0]
    requires forall p :: OfPosition(a, p) == OfPosition(b, p)
    ensures forall q :: OfPosition(a[1..], q) == OfPosition(b[1..], q)
  {
    forall q
      ensures OfPosition(a[1..], q) == OfPosition(b[1..], q)
    {
      var h := if a[0].position == q then [a[0]] else [];
      assert OfPosition(a, q) == h + OfPosition(a[1..], q);
      assert OfPosition(b, q) == h + OfPosition(b[1..], q);
      assert OfPosition(a[1..], q) == OfPosition(a, q)[|h|..];
      assert OfPosition(b[1..], q) == OfPosition(b, q)[|h|..];
    }
  }

  /** Sortedness together with the per-position subsequences determines a list:
      two sorted lists that agree on every OfPosition are equal. */
  lemma {:induction false} SortedUnique(a: seq<Keypoint>, b: seq<Keypoint>)
    requires Sorted(a) && Sorted(b)
    requires forall p :: OfPosition(a, p) == OfPosition(b, p)
    ensures a == b
    decreases |a|
  {
    if |a| == 0 || |b| == 0 {
      var c := if |a| == 0 then b else a;
      if |c| > 0 {
        NonEmptyAtHead(c);
      }
    } else {
      var pa, pb := a[0].position, b[0].position;
      assert OfPosition(a, pa) != [];
      SortedHeadLeast(b, pa);
      assert OfPosition(b, pb) != [];
      SortedHeadLeast(a, pb);
      assert OfPosition(a, pa)[0] == a[0];
      assert OfPosition(b, pa)[0] == b[0];
      OfPositionTails(a, b);
      SortedUnique(a[1..], b[1..]);
      assert a == [a[0]] + a[1..];
      assert b == [b[0]] + b[1..];
    }
  }

  /** Sort is the only stable sort: any sorted list that keeps every
      per-position subsequence of `s` is Sort(s). */
  lemma SortCharacterized(s: seq<Keypoint>, r: seq<Keypoint>)
    requires Sorted(r)
    requires forall p :: OfPosition(r, p) == OfPosition(s, p)
    ensures r == Sort(s)
  {
    SortStable(s);
    SortedUnique(r, Sort(s));
  }

  /** Sorting an already sorted list changes nothing. */
  lemma SortSortedIsIdentity(s: seq<Keypoint>)
    requires Sorted(s)
    ensures Sort(s) == s
  {
    SortCharacterized(s, s);
  }

  /** Number of leading keypoints whose position is at most `p`; in a sorted
      list, the index just past the last keypoint at or before `p`. */
  function UpperBound(s: seq<Keypoint>, p: real): (j: nat)
    ensures j <= |s|
    ensures forall i :: 0 <= i < j ==> s[i].position <= p
    ensures j < |s| ==> p < s[j].position
  {
    if |s| == 0 || p < s[0].position then 0 else 1 + UpperBound(s[1..], p)
  }

  lemma OfPositionAbsent(s: seq<Keypoint>, p: real)
    requires forall i :: 0 <= i < |s| ==> s[i].position != p
    ensures OfPosition(s, p) == []
  {
  }

  /** Placing `k` at an index that separates the keypoints at or before its
      position from those after it keeps a sorted list sorted. */
  lemma SortedSplice(s: seq<Keypoint>, k: Keypoint, j: nat)
    requires Sorted(s) && j <= |s|
    requires forall i :: 0 <= i < j ==> s[i].position <= k.position
    requires j < |s| ==> k.position < s[j].position
    ensures Sorted(s[..j] + [k] + s[j..])
  {
    var r := s[..j] + [k] + s[j..];
    forall a, b | 0 <= a < b < |r|
      ensures r[a].position <= r[b].position
    {
      if b < j || a > j {
      } else if a == j {
        assert r[b] == s[b - 1];
      } else {
        assert r[a] == s[a];
        if b > j { assert r[b] == s[b - 1]; }
      }
    }
  }

  /** Placing `k` after every keypoint at its own position keeps every
      per-position subsequence of `s + [k]`. */
  lemma OfPositionSplice(s: seq<Keypoint>, k: Keypoint, j: nat, p: real)
    requires Sorted(s) && j <= |s|
    requires j < |s| ==> k.position < s[j].position
    ensures OfPosition(s[..j] + [k] + s[j..], p) == OfPosition(s + [k], p)
  {
    assert s == s[..j] + s[j..];
    OfPositionConcat(s[..j] + [k], s[j..], p);
    OfPositionConcat(s[..j], [k], p);
    OfPositionConcat(s[..j], s[j..], p);
    OfPositionConcat(s, [k], p);
    assert OfPosition([k], p) == (if k.position == p then [k] else []) + OfPosition([], p);
    if k.position == p {
      OfPositionAbsent(s[j..], p);
    }
  }

  /** Appending a keypoint to a sorted list and sorting places it right after
      every keypoint at or before its position, the rest of the list untouched. */
  lemma AppendThenSort(s: seq<Keypoint>, k: Keypoint)
    requires Sorted(s)
    ensures Sort(s + [k])
         == s[..UpperBound(s, k.position)] + [k] + s[UpperBound(s, k.position)..]
  {
    var j := UpperBound(s, k.position);
    var r := s[..j] + [k] + s[j..];
    SortedSplice(s, k, j);
    forall p
      ensures OfPosition(r, p) == OfPosition(s + [k], p)
    {
      OfPositionSplice(s, k, j, p);
    }
    SortCharacterized(s + [k], r);
  }

  /** Sorting keeps the colours: only the order of keypoints changes. */
  lemma {:induction false} SortKeepsColors(s: seq<Keypoint>)
    ensures multiset(ColorsOf(Sort(s))) == multiset(ColorsOf(s))
    decreases |s|
  {
    if |s| > 0 {
      SortKeepsColors(s[1..]);
      InsertColors(s[0], Sort(s[1..]));
      assert ColorsOf(s) == [s[0].color] + ColorsOf(s[1..]);
    }
  }

  lemma {:induction false} InsertColors(k: Keypoint, s: seq<Keypoint>)
    ensures multiset(ColorsOf(Insert(k, s))) == multiset{k.color} + multiset(ColorsOf(s))
    decreases |s|
  {
    if |s| == 0 || k.position <= s[0].position {
      assert ColorsOf([k] + s) == [k.color] + ColorsOf(s);
    } else {
      InsertColors(k, s[1..]);
      var t := Insert(k, s[1..]);
      assert ColorsOf([s[0]] + t) == [s[0].color] + ColorsOf(t);
      assert ColorsOf(s) == [s[0].color] + ColorsOf(s[1..]);
    }
  }
}
