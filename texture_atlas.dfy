/**
 * `TextureAtlas`: first-fit packing of sub-textures into one large texture.
 *
 * The atlas keeps a list of free rectangles.  `add` takes the first free rectangle into
 * which the texture fits strictly (narrower and lower), places the texture at its corner,
 * replaces the rectangle by the strip to the right of the texture, appends the strip below
 * it, and sorts the list by width.  The layout invariant proved here: free rectangles and
 * placed textures lie inside the atlas, never overlap one another, and their areas add up
 * to the atlas area.
 */
module TextureAtlas {
  import opened Wrappers

  /** `SimpleRect`: corner, width and height in texels. */
  datatype Rect = Rect(x: nat, y: nat, w: nat, h: nat)

  /** Two rectangles share at least one texel. */
  predicate Overlap(a: Rect, b: Rect)
  {
    a.x < b.x + b.w && b.x < a.x + a.w && a.y < b.y + b.h && b.y < a.y + a.h
  }

  /** `a` lies inside `b`. */
  predicate Within(a: Rect, b: Rect)
  {
    b.x <= a.x && a.x + a.w <= b.x + b.w && b.y <= a.y && a.y + a.h <= b.y + b.h
  }

  function Area(r: Rect): nat
  {
    r.w * r.h
  }

  /** The total area of a list of rectangles. */
  function TotalArea(s: seq<Rect>): nat
    decreases |s|
  {
    if s == [] then 0 else TotalArea(s[..|s| - 1]) + Area(s[|s| - 1])
  }

  ghost predicate PairwiseDisjoint(s: seq<Rect>)
  {
    forall i, j :: 0 <= i < j < |s| ==> !Overlap(s[i], s[j])
  }

  /** The fit test of `add`: strictly narrower and strictly lower than the space. */
  predicate FitsIn(w: nat, h: nat, space: Rect)
  {
    w < space.w && h < space.h
  }

  /** The loop of `add`: the first space, in list order, the texture fits into. */
  function FirstFit(spaces: seq<Rect>, w: nat, h: nat): (r: Option<nat>)
    ensures r.Some? ==> r.value < |spaces| && FitsIn(w, h, spaces[r.value])
    ensures r.Some? ==> forall k :: 0 <= k < r.value ==> !FitsIn(w, h, spaces[k])
    ensures r.None? ==> forall k :: 0 <= k < |spaces| ==> !FitsIn(w, h, spaces[k])
    decreases |spaces|
  {
    if spaces == [] then None
    else if FitsIn(w, h, spaces[0]) then Some(0)
    else match FirstFit(spaces[1..], w, h)
      case None => None
      case Some(k) => Some(k + 1)
  }

  /** Where the texture goes: the corner of the chosen space. */
  function Placement(space: Rect, w: nat, h: nat): Rect
  {
    Rect(space.x, space.y, w, h)
  }

  /** What is left of the chosen space to the right of the texture (the space itself, edited). */
  function RightPart(space: Rect, w: nat): Rect
    requires w <= space.w
  {
    Rect(space.x + w, space.y, space.w - w, space.h)
  }

  /** The strip below the texture, as wide as the texture (the appended rectangle). */
  function BelowPart(space: Rect, w: nat, h: nat): Rect
    requires h <= space.h
  {
    Rect(space.x, space.y + h, w, space.h - h)
  }

  /**
   * The four-way split: the texture, the right part and the strip below lie inside the
   * space, do not overlap one another, and their areas add up to the space's area.
   */
  lemma {:induction false} SplitPartitions(space: Rect, w: nat, h: nat)
    requires FitsIn(w, h, space)
    ensures var p, r, b := Placement(space, w, h), RightPart(space, w), BelowPart(space, w, h);
      Within(p, space) && Within(r, space) && Within(b, space)
      && !Overlap(p, r) && !Overlap(p, b) && !Overlap(r, b)
      && Area(p) + Area(r) + Area(b) == Area(space)
  {
    var W, H := space.w, space.h;
    calc {
      w * h + (W - w) * H + w * (H - h);
      { assert (W - w) * H == W * H - w * H; assert w * (H - h) == w * H - w * h; }
      W * H;
    }
  }

  /**
   * The strict test makes the exact-fit branches of `add` dead: a texture that fits is
   * never as wide or as high as its space, so only the four-way split runs.
   */
  lemma {:induction false} StrictFitRulesOutExactFit(spaces: seq<Rect>, w: nat, h: nat)
    requires FirstFit(spaces, w, h).Some?
    ensures var s := spaces[FirstFit(spaces, w, h).value]; w != s.w && h != s.h
  {
  }

  /** The space list after the split, before sorting. */
  function Carve(spaces: seq<Rect>, i: nat, w: nat, h: nat): (r: seq<Rect>)
    requires i < |spaces| && FitsIn(w, h, spaces[i])
    ensures |r| == |spaces| + 1
  {
    spaces[i := RightPart(spaces[i], w)] + [BelowPart(spaces[i], w, h)]
  }

  // ---- Sorting by width ----

  ghost predicate SortedByWidth(s: seq<Rect>)
  {
    forall i, j :: 0 <= i < j < |s| ==> s[i].w <= s[j].w
  }

  function InsertByWidth(x: Rect, s: seq<Rect>): (r: seq<Rect>)
    requires SortedByWidth(s)
    ensures SortedByWidth(r) && multiset(r) == multiset(s) + multiset{x} && |r| == |s| + 1
    decreases |s|
  {
    if s == [] || x.w <= s[0].w then [x] + s
    else
      var rest := InsertByWidth(x, s[1..]);
      assert s == [s[0]] + s[1..];
      HeadBelowInsert(x, s, rest);
      ConsSortedByWidth(s[0], rest);
      [s[0]] + rest
  }

  /** Every element of an insertion into the tail of a sorted list is at least as wide as its head, when x is. */
  lemma {:induction false} HeadBelowInsert(x: Rect, s: seq<Rect>, rest: seq<Rect>)
    requires SortedByWidth(s) && |s| > 0 && s[0].w <= x.w
    requires multiset(rest) == multiset(s[1..]) + multiset{x}
    ensures forall k :: 0 <= k < |rest| ==> s[0].w <= rest[k].w
  {
    forall k | 0 <= k < |rest| ensures s[0].w <= rest[k].w {
      assert rest[k] in multiset(rest);
      if rest[k] != x {
        assert rest[k] in multiset(s[1..]);
        var j :| 0 <= j < |s[1..]| && s[1..][j] == rest[k];
        assert s[j + 1] == rest[k];
      }
    }
  }

  /** A rectangle no wider than anything in a sorted list keeps it sorted in front. */
  lemma {:induction false} ConsSortedByWidth(a: Rect, rest: seq<Rect>)
    requires SortedByWidth(rest) && forall k :: 0 <= k < |rest| ==> a.w <= rest[k].w
    ensures SortedByWidth([a] + rest)
  {
    var r := [a] + rest;
    forall i, j | 0 <= i < j < |r| ensures r[i].w <= r[j].w {
      assert r[j] == rest[j - 1];
      if i > 0 {
        assert r[i] == rest[i - 1];
      }
    }
  }

  /**
   * The `std::sort` by width of `add`.  That sort is not stable, so spaces of equal width
   * may end in another order; this model keeps them in list order.
   */
  function SortByWidth(s: seq<Rect>): (r: seq<Rect>)
    ensures SortedByWidth(r) && multiset(r) == multiset(s) && |r| == |s|
    decreases |s|
  {
    if s == [] then []
    else
      assert s == [s[0]] + s[1..];
      InsertByWidth(s[0], SortByWidth(s[1..]))
  }

  /** Inserting keeps a list pairwise disjoint when the new rectangle overlaps none of it. */
  lemma {:induction false} InsertKeepsDisjoint(x: Rect, s: seq<Rect>)
    requires SortedByWidth(s) && PairwiseDisjoint(s)
    requires forall y :: y in s ==> !Overlap(x, y)
    ensures PairwiseDisjoint(InsertByWidth(x, s))
    decreases |s|
  {
    var r := InsertByWidth(x, s);
    if s == [] || x.w <= s[0].w {
      forall i, j | 0 <= i < j < |r| ensures !Overlap(r[i], r[j]) {
        if i == 0 {
          assert r[j] == s[j - 1];
        } else {
          assert r[i] == s[i - 1] && r[j] == s[j - 1];
        }
      }
    } else {
      var rest := InsertByWidth(x, s[1..]);
      assert s == [s[0]] + s[1..];
      assert PairwiseDisjoint(s[1..]) by {
        forall i, j | 0 <= i < j < |s| - 1 ensures !Overlap(s[1..][i], s[1..][j]) {
          assert s[1..][i] == s[i + 1] && s[1..][j] == s[j + 1];
        }
      }
      InsertKeepsDisjoint(x, s[1..]);
      forall i, j | 0 <= i < j < |r| ensures !Overlap(r[i], r[j]) {
        if i == 0 {
          assert r[j] == rest[j - 1] && rest[j - 1] in multiset(rest);
          if rest[j - 1] != x {
            assert rest[j - 1] in multiset(s[1..]);
            var k :| 0 <= k < |s[1..]| && s[1..][k] == rest[j - 1];
            assert s[k + 1] == rest[j - 1];
          } else {
            assert s[0] in s;
          }
        } else {
          assert r[i] == rest[i - 1] && r[j] == rest[j - 1];
        }
      }
    }
  }

  /** Sorting keeps a list pairwise disjoint. */
  lemma {:induction false} SortKeepsDisjoint(s: seq<Rect>)
    requires PairwiseDisjoint(s)
    ensures PairwiseDisjoint(SortByWidth(s))
    decreases |s|
  {
    if s != [] {
      assert s == [s[0]] + s[1..];
      var tail := s[1..];
      assert PairwiseDisjoint(tail) by {
        forall i, j | 0 <= i < j < |tail| ensures !Overlap(tail[i], tail[j]) {
          assert tail[i] == s[i + 1] && tail[j] == s[j + 1];
        }
      }
      SortKeepsDisjoint(tail);
      var sorted := SortByWidth(tail);
      forall y | y in sorted ensures !Overlap(s[0], y) {
        assert y in multiset(sorted);
        assert y in multiset(tail);
        var k :| 0 <= k < |tail| && tail[k] == y;
        assert s[k + 1] == y;
      }
      InsertKeepsDisjoint(s[0], sorted);
    }
  }

  lemma {:induction false} TotalAreaAppend(s: seq<Rect>, r: Rect)
    ensures TotalArea(s + [r]) == TotalArea(s) + Area(r)
  {
    assert (s + [r])[..|s|] == s;
  }

  lemma {:induction false} TotalAreaCons(r: Rect, s: seq<Rect>)
    ensures TotalArea([r] + s) == Area(r) + TotalArea(s)
    decreases |s|
  {
    if s != [] {
      var n := |s| - 1;
      assert ([r] + s)[..n + 1] == [r] + s[..n];
      TotalAreaCons(r, s[..n]);
    }
  }

  /** Replacing one rectangle changes the total area by the difference of the two areas. */
  lemma {:induction false} TotalAreaUpdate(s: seq<Rect>, i: nat, r: Rect)
    requires i < |s|
    ensures TotalArea(s[i := r]) + Area(s[i]) == TotalArea(s) + Area(r)
    decreases |s|
  {
    var n := |s| - 1;
    if i < n {
      assert s[i := r][..n] == s[..n][i := r];
      TotalAreaUpdate(s[..n], i, r);
    } else {
      assert s[i := r][..n] == s[..n];
    }
  }

  lemma {:induction false} InsertKeepsArea(x: Rect, s: seq<Rect>)
    requires SortedByWidth(s)
    ensures TotalArea(InsertByWidth(x, s)) == Area(x) + TotalArea(s)
    decreases |s|
  {
    if s == [] || x.w <= s[0].w {
      TotalAreaCons(x, s);
    } else {
      assert s == [s[0]] + s[1..];
      InsertKeepsArea(x, s[1..]);
      TotalAreaCons(s[0], InsertByWidth(x, s[1..]));
      TotalAreaCons(s[0], s[1..]);
    }
  }

  /** Sorting keeps the total area. */
  lemma {:induction false} SortKeepsArea(s: seq<Rect>)
    ensures TotalArea(SortByWidth(s)) == TotalArea(s)
    decreases |s|
  {
    if s != [] {
      assert s == [s[0]] + s[1..];
      SortKeepsArea(s[1..]);
      InsertKeepsArea(s[0], SortByWidth(s[1..]));
      TotalAreaCons(s[0], s[1..]);
    }
  }

  // ---- The layout invariant ----

  /**
   * Free spaces and placed textures lie inside the `width` x `height` atlas, no two of them
   * overlap, and together they cover the atlas area exactly.
   */
  ghost predicate Layout(width: nat, height: nat, spaces: seq<Rect>, placed: seq<Rect>)
  {
    (forall r :: r in spaces ==> Within(r, Rect(0, 0, width, height)))
    && (forall r :: r in placed ==> Within(r, Rect(0, 0, width, height)))
    && PairwiseDisjoint(spaces) && PairwiseDisjoint(placed)
    && (forall a, b :: a in spaces && b in placed ==> !Overlap(a, b))
    && TotalArea(spaces) + TotalArea(placed) == width * height
  }

  /** A new atlas: one free space covering it all, nothing placed. */
  lemma {:induction false} InitialLayout(width: nat, height: nat)
    ensures Layout(width, height, [Rect(0, 0, width, height)], [])
  {
    assert [Rect(0, 0, width, height)][..0] == [];
  }

  lemma {:induction false} WithinKeepsApart(a: Rect, b: Rect, c: Rect)
    requires Within(a, b) && !Overlap(b, c)
    ensures !Overlap(a, c) && !Overlap(c, a)
  {
  }

  /** Carving the chosen space keeps the layout, with the texture now among the placed rectangles. */
  lemma {:induction false} CarveKeepsLayout(width: nat, height: nat, spaces: seq<Rect>, placed: seq<Rect>, i: nat, w: nat, h: nat)
    requires Layout(width, height, spaces, placed)
    requires i < |spaces| && FitsIn(w, h, spaces[i])
    ensures Layout(width, height, Carve(spaces, i, w, h), placed + [Placement(spaces[i], w, h)])
  {
    var s := spaces[i];
    var p, r, b := Placement(s, w, h), RightPart(s, w), BelowPart(s, w, h);
    var spaces', placed' := Carve(spaces, i, w, h), placed + [p];
    SplitPartitions(s, w, h);
    assert s in spaces;
    forall x | x in spaces' ensures Within(x, Rect(0, 0, width, height)) {
      var k :| 0 <= k < |spaces'| && spaces'[k] == x;
      if k < |spaces| && k != i {
        assert spaces[k] in spaces;
      }
    }
    forall j, k | 0 <= j < k < |spaces'| ensures !Overlap(spaces'[j], spaces'[k]) {
      if j == i || k == i || k == |spaces| {
        if j != i && j < |spaces| {
          WithinKeepsApart(spaces'[k], s, spaces[j]);
        } else if k != i && k < |spaces| {
          WithinKeepsApart(spaces'[j], s, spaces[k]);
        }
      }
    }
    forall j, k | 0 <= j < k < |placed'| ensures !Overlap(placed'[j], placed'[k]) {
      if k == |placed| {
        assert placed[j] in placed;
        WithinKeepsApart(p, s, placed[j]);
      }
    }
    forall x, y | x in spaces' && y in placed' ensures !Overlap(x, y) {
      var k :| 0 <= k < |spaces'| && spaces'[k] == x;
      if y == p {
        if k < |spaces| && k != i {
          WithinKeepsApart(p, s, spaces[k]);
        }
      } else {
        assert y in placed;
        if k == i || k == |spaces| {
          WithinKeepsApart(x, s, y);
        } else {
          assert spaces[k] in spaces;
        }
      }
    }
    TotalAreaUpdate(spaces, i, r);
    TotalAreaAppend(spaces[i := r], b);
    TotalAreaAppend(placed, p);
  }

  /** Sorting the free list keeps the layout. */
  lemma {:induction false} SortKeepsLayout(width: nat, height: nat, spaces: seq<Rect>, placed: seq<Rect>)
    requires Layout(width, height, spaces, placed)
    ensures Layout(width, height, SortByWidth(spaces), placed)
  {
    var sorted := SortByWidth(spaces);
    forall x | x in sorted ensures x in spaces {
      assert x in multiset(sorted);
    }
    SortKeepsDisjoint(spaces);
    SortKeepsArea(spaces);
  }

  /** The whole of a successful `add` keeps the layout invariant. */
  lemma {:induction false} AddKeepsLayout(width: nat, height: nat, spaces: seq<Rect>, placed: seq<Rect>, i: nat, w: nat, h: nat)
    requires Layout(width, height, spaces, placed)
    requires i < |spaces| && FitsIn(w, h, spaces[i])
    ensures Layout(width, height, SortByWidth(Carve(spaces, i, w, h)), placed + [Placement(spaces[i], w, h)])
    ensures TotalArea(SortByWidth(Carve(spaces, i, w, h))) + w * h == TotalArea(spaces)
  {
    CarveKeepsLayout(width, height, spaces, placed, i, w, h);
    SortKeepsLayout(width, height, Carve(spaces, i, w, h), placed + [Placement(spaces[i], w, h)]);
    SortKeepsArea(Carve(spaces, i, w, h));
    TotalAreaAppend(placed, Placement(spaces[i], w, h));
  }

  // ---- The atlas ----

  class Atlas {
    const width: nat
    const height: nat
    const channels: nat
    var spaces: seq<Rect>
    /** The sub-textures placed so far, in order. */
    ghost var placed: seq<Rect>

    ghost predicate Valid()
      reads this
    {
      Layout(width, height, spaces, placed)
    }

    /** The constructor: one free space covering the whole atlas. */
    constructor (width: nat, height: nat, channels: nat)
      ensures Valid() && this.width == width && this.height == height && this.channels == channels
      ensures spaces == [Rect(0, 0, width, height)] && placed == []
    {
      this.width, this.height, this.channels := width, height, channels;
      spaces := [Rect(0, 0, width, height)];
      placed := [];
      new;
      InitialLayout(width, height);
    }

    /**
     * `add(width, height, channels, data, result)`: a channel mismatch or a texture that fits
     * no space returns false and changes nothing; otherwise the texture goes to the corner of
     * the first space it fits, the space is split and the list sorted by width.  The placed
     * rectangle is returned in place of the sub-texture's coordinates.
     */
    method Add(w: nat, h: nat, c: nat) returns (ok: bool, at: Option<Rect>)
      requires Valid()
      modifies this
      ensures Valid()
      ensures !ok <==> c != channels || FirstFit(old(spaces), w, h).None?
      ensures !ok ==> at.None? && spaces == old(spaces) && placed == old(placed)
      ensures ok ==> var i := FirstFit(old(spaces), w, h).value;
        at == Some(Placement(old(spaces)[i], w, h))
        && spaces == SortByWidth(Carve(old(spaces), i, w, h))
        && placed == old(placed) + [at.value]
    {
      if c != channels {
        return false, None;
      }
      var i := 0;
      while i < |spaces|
        invariant 0 <= i <= |spaces|
        invariant forall k :: 0 <= k < i ==> !FitsIn(w, h, spaces[k])
      {
        var space := spaces[i];
        if w < space.w && h < space.h {
          assert FirstFit(spaces, w, h) == Some(i) by {
            FirstFitIsLeast(spaces, w, h, i);
          }
          AddKeepsLayout(width, height, spaces, placed, i, w, h);
          var p := Placement(space, w, h);
          spaces := SortByWidth(spaces[i := RightPart(space, w)] + [BelowPart(space, w, h)]);
          placed := placed + [p];
          return true, Some(p);
        }
        i := i + 1;
      }
      return false, None;
    }
  }

  /** A fitting space with no fitting space before it is the first fit. */
  lemma {:induction false} FirstFitIsLeast(spaces: seq<Rect>, w: nat, h: nat, i: nat)
    requires i < |spaces| && FitsIn(w, h, spaces[i])
    requires forall k :: 0 <= k < i ==> !FitsIn(w, h, spaces[k])
    ensures FirstFit(spaces, w, h) == Some(i)
  {
    var r := FirstFit(spaces, w, h);
    assert r.Some?;
  }
}
