/**
 * An abstract model of the part of a python-pptx `Presentation` that the generator
 * touches: the slide layouts of the template, and the slide list (`prs.slides`,
 * held by python-pptx as the `_sldIdLst` element list of slide ids).
 *
 * A slide's placeholders are identified by their placeholder index `idx`; as in
 * python-pptx, the title shape of a slide is its first placeholder with idx 0.
 * A text frame is the list of its paragraphs' texts; a text frame always holds
 * at least one paragraph, so a cleared or fresh frame is `EMPTY_FRAME`.
 */
module Deck {
  import opened Wrappers

  /** A placeholder on a layout. `cloned` is false for the date, footer and
      slide-number placeholders, which `add_slide` does not copy onto the slide. */
  datatype LayoutPlaceholder = LayoutPlaceholder(idx: nat, cloned: bool)

  datatype Layout = Layout(placeholders: seq<LayoutPlaceholder>)

  /** A placeholder shape on a slide, with the paragraphs of its text frame. */
  datatype Placeholder = Placeholder(idx: nat, paragraphs: seq<string>)

  /** What a slide shows: the layout it was made from, its placeholders in
      shape order, the text boxes added to it (each as its paragraphs) and its
      speaker notes (None while the slide has no notes slide). */
  datatype Page = Page(layout: nat, placeholders: seq<Placeholder>,
                       textBoxes: seq<seq<string>>, notes: Option<string>)

  /** An entry of the slide-id list together with the slide it refers to. */
  datatype Slide = Slide(id: nat, page: Page)

  /** The paragraphs of a fresh or cleared text frame: one empty paragraph. */
  const EMPTY_FRAME: seq<string> := [""]

  /** The paragraphs of a cleared text frame after `lines` are written into it,
      the first as the frame's text and each later one as an added paragraph. A
      frame never loses its last paragraph. */
  function Frame(lines: seq<string>): (r: seq<string>)
    ensures |r| >= 1
    ensures lines != [] ==> r == lines
    ensures lines == [] ==> r == EMPTY_FRAME
  {
    if lines == [] then EMPTY_FRAME else lines
  }

  /** The placeholders `add_slide` copies from a layout onto a new slide, in order,
      each with an empty text frame. */
  function ClonePlaceholders(lps: seq<LayoutPlaceholder>): (r: seq<Placeholder>)
    ensures |r| <= |lps|
    ensures forall k :: 0 <= k < |r| ==> r[k].paragraphs == EMPTY_FRAME
  {
    if lps == [] then []
    else if lps[0].cloned then [Placeholder(lps[0].idx, EMPTY_FRAME)] + ClonePlaceholders(lps[1..])
    else ClonePlaceholders(lps[1..])
  }

  /** The positions, from `from` on and in increasing order, of the layout
      placeholders that `add_slide` copies. */
  function ClonedPositions(lps: seq<LayoutPlaceholder>, from: nat): (pos: seq<nat>)
    requires from <= |lps|
    decreases |lps| - from
    ensures forall k :: 0 <= k < |pos| ==> from <= pos[k] < |lps| && lps[pos[k]].cloned
    ensures forall k, l :: 0 <= k < l < |pos| ==> pos[k] < pos[l]
    ensures forall m :: from <= m < |lps| && lps[m].cloned ==> m in pos
  {
    if from == |lps| then []
    else if lps[from].cloned then [from] + ClonedPositions(lps, from + 1)
    else ClonedPositions(lps, from + 1)
  }

  /** `r` holds, in order, an empty-framed copy of the layout placeholder at each
      position of `pos`. */
  predicate CopiesAt(r: seq<Placeholder>, lps: seq<LayoutPlaceholder>, pos: seq<nat>) {
    |r| == |pos| && forall k :: 0 <= k < |r| ==> pos[k] < |lps| && r[k] == Placeholder(lps[pos[k]].idx, EMPTY_FRAME)
  }

  lemma CopiesCons(r: seq<Placeholder>, lps: seq<LayoutPlaceholder>, pos: seq<nat>, i: nat)
    requires CopiesAt(r, lps, pos) && i < |lps|
    ensures CopiesAt([Placeholder(lps[i].idx, EMPTY_FRAME)] + r, lps, [i] + pos)
  {
  }

  /** `add_slide` copies exactly the cloned layout placeholders, in layout order,
      each keeping its idx and getting an empty text frame. */
  lemma {:induction false} ClonePlaceholdersExact(lps: seq<LayoutPlaceholder>, from: nat)
    requires from <= |lps|
    decreases |lps| - from
    ensures CopiesAt(ClonePlaceholders(lps[from..]), lps, ClonedPositions(lps, from))
  {
    if from < |lps| {
      ClonePlaceholdersExact(lps, from + 1);
      var s := lps[from..];
      assert s[0] == lps[from];
      assert s[1..] == lps[from + 1..];
      var rest, pos' := ClonePlaceholders(lps[from + 1..]), ClonedPositions(lps, from + 1);
      if lps[from].cloned {
        assert ClonePlaceholders(s) == [Placeholder(lps[from].idx, EMPTY_FRAME)] + rest;
        assert ClonedPositions(lps, from) == [from] + pos';
        CopiesCons(rest, lps, pos', from);
      } else {
        assert ClonePlaceholders(s) == rest;
        assert ClonedPositions(lps, from) == pos';
      }
    }
  }

  /** The page of a slide that `add_slide` has just made from layout number `li`. */
  function NewPage(li: nat, layout: Layout): Page {
    Page(li, ClonePlaceholders(layout.placeholders), [], None)
  }

  /** A new slide has no text boxes and no notes, and holds the layout's cloned
      placeholders in layout order, each with its idx and an empty text frame. */
  lemma NewPageExact(li: nat, layout: Layout)
    ensures var p := NewPage(li, layout);
      p.layout == li && p.textBoxes == [] && p.notes == None
    ensures var p, pos := NewPage(li, layout), ClonedPositions(layout.placeholders, 0);
      |p.placeholders| == |pos|
      && forall k :: 0 <= k < |pos| ==> p.placeholders[k] == Placeholder(layout.placeholders[pos[k]].idx, EMPTY_FRAME)
  {
    ClonePlaceholdersExact(layout.placeholders, 0);
    assert layout.placeholders[0..] == layout.placeholders;
  }

  /** A new slide has more than one placeholder exactly when its layout has at
      least two placeholders that are copied. */
  lemma NewPageManyPlaceholders(li: nat, layout: Layout)
    ensures |NewPage(li, layout).placeholders| > 1 <==>
      exists m1, m2 :: 0 <= m1 < m2 < |layout.placeholders|
        && layout.placeholders[m1].cloned && layout.placeholders[m2].cloned
  {
    NewPageExact(li, layout);
    TwoClonedPositions(layout.placeholders);
  }

  lemma TwoClonedPositions(lps: seq<LayoutPlaceholder>)
    ensures |ClonedPositions(lps, 0)| > 1 <==>
      exists m1, m2 :: 0 <= m1 < m2 < |lps| && lps[m1].cloned && lps[m2].cloned
  {
    var pos := ClonedPositions(lps, 0);
    if |pos| > 1 {
      assert pos[0] < pos[1];
      assert lps[pos[0]].cloned && lps[pos[1]].cloned;
    }
    if exists m1, m2 :: 0 <= m1 < m2 < |lps| && lps[m1].cloned && lps[m2].cloned {
      var m1, m2 :| 0 <= m1 < m2 < |lps| && lps[m1].cloned && lps[m2].cloned;
      assert m1 in pos && m2 in pos;
    }
  }

  /** The first position whose placeholder index is (`equal`) or is not (`!equal`)
      `idx`. `FindIdx(phs, 0, true)` is python-pptx's `shapes.title`, `FindIdx(phs, 0, false)`
      the first non-title placeholder, `FindIdx(phs, k, true)` the lookup `placeholders[k]`. */
  function FindIdx(phs: seq<Placeholder>, idx: nat, equal: bool): (r: Option<nat>)
    ensures r.Some? ==> r.value < |phs| && (phs[r.value].idx == idx) == equal
    ensures r.Some? ==> forall j :: 0 <= j < r.value ==> (phs[j].idx == idx) != equal
    ensures r.None? ==> forall j :: 0 <= j < |phs| ==> (phs[j].idx == idx) != equal
  {
    if phs == [] then None
    else if (phs[0].idx == idx) == equal then Some(0)
    else match FindIdx(phs[1..], idx, equal)
      case None => None
      case Some(j) => Some(j + 1)
  }

  /** The search on a fresh slide finds a placeholder exactly when the layout has
      a cloned placeholder that matches. */
  lemma {:induction false} CloneFind(lps: seq<LayoutPlaceholder>, idx: nat, equal: bool)
    ensures FindIdx(ClonePlaceholders(lps), idx, equal).Some?
        <==> exists m :: 0 <= m < |lps| && lps[m].cloned && (lps[m].idx == idx) == equal
  {
    if lps != [] {
      CloneFind(lps[1..], idx, equal);
      var r := ClonePlaceholders(lps);
      if lps[0].cloned && (lps[0].idx == idx) == equal {
        assert r[0].idx == idx <==> equal;
      } else {
        var rest := ClonePlaceholders(lps[1..]);
        if lps[0].cloned {
          assert r == [Placeholder(lps[0].idx, EMPTY_FRAME)] + rest;
          assert r[1..] == rest;
        }
        if exists m :: 0 <= m < |lps| && lps[m].cloned && (lps[m].idx == idx) == equal {
          var m :| 0 <= m < |lps| && lps[m].cloned && (lps[m].idx == idx) == equal;
          assert lps[1..][m - 1] == lps[m];
        }
        if exists m :: 0 <= m < |lps| - 1 && lps[1..][m].cloned && (lps[1..][m].idx == idx) == equal {
          var m :| 0 <= m < |lps| - 1 && lps[1..][m].cloned && (lps[1..][m].idx == idx) == equal;
          assert lps[m + 1] == lps[1..][m];
        }
      }
    }
  }

  /** The search looks only at placeholder indices, so it gives the same answer
      on two placeholder lists with the same indices. */
  lemma {:induction false} FindIdxSameIdx(a: seq<Placeholder>, b: seq<Placeholder>, idx: nat, equal: bool)
    requires |a| == |b|
    requires forall k :: 0 <= k < |a| ==> a[k].idx == b[k].idx
    ensures FindIdx(a, idx, equal) == FindIdx(b, idx, equal)
  {
    if a != [] {
      FindIdxSameIdx(a[1..], b[1..], idx, equal);
    }
  }

  /** The ids in a slide-id list. */
  function Ids(s: seq<Slide>): set<nat> {
    set j | 0 <= j < |s| :: s[j].id
  }

  ghost predicate DistinctIds(s: seq<Slide>) {
    forall i, j :: 0 <= i < j < |s| ==> s[i].id != s[j].id
  }

  /** `max([255] + ids)`, the largest id in the list and at least 255. */
  function MaxId(s: seq<Slide>): (r: nat)
    ensures r >= 255
    ensures forall j :: 0 <= j < |s| ==> s[j].id <= r
    ensures r == 255 || exists j :: 0 <= j < |s| && s[j].id == r
  {
    if s == [] then 255
    else
      var m := MaxId(s[..|s| - 1]);
      assert forall j :: 0 <= j < |s| - 1 ==> s[..|s| - 1][j] == s[j];
      if s[|s| - 1].id > m then s[|s| - 1].id else m
  }

  /** The id python-pptx gives the next slide it adds. */
  function NextId(s: seq<Slide>): (r: nat)
    ensures r >= 256
    ensures r !in Ids(s)
  {
    MaxId(s) + 1
  }

  /** The first position of the entry with id `id`. */
  function PositionOf(s: seq<Slide>, id: nat): (p: nat)
    requires id in Ids(s)
    ensures p < |s| && s[p].id == id
    ensures forall j :: 0 <= j < p ==> s[j].id != id
  {
    if s[0].id == id then 0
    else
      assert id in Ids(s[1..]) by {
        var j :| 0 <= j < |s| && s[j].id == id;
        assert s[1..][j - 1] == s[j];
      }
      1 + PositionOf(s[1..], id)
  }

  /** The list after `_sldIdLst.remove` of the entry with id `id`. */
  function Without(s: seq<Slide>, id: nat): (r: seq<Slide>)
    requires id in Ids(s)
    ensures |r| == |s| - 1
    ensures forall k :: 0 <= k < |r| ==> r[k] == if k < PositionOf(s, id) then s[k] else s[k + 1]
    ensures DistinctIds(s) ==> id !in Ids(r)
  {
    var p := PositionOf(s, id);
    var r := s[..p] + s[p + 1..];
    assert forall k :: 0 <= k < |r| ==> r[k] == if k < p then s[k] else s[k + 1];
    r
  }

  /** Removing the entry with the id of the first entry removes the first entry. */
  lemma WithoutFirst(s: seq<Slide>)
    requires s != []
    ensures s[0].id in Ids(s)
    ensures Without(s, s[0].id) == s[1..]
  {
    assert s[0].id in Ids(s);
  }

  lemma WithoutKeepsDistinct(s: seq<Slide>, id: nat)
    requires id in Ids(s) && DistinctIds(s)
    ensures DistinctIds(Without(s, id))
  {
  }

  /** The presentation opened from the template. Its layouts are never changed;
      its slide list is, by `add_slide` and by removals from the slide-id list. */
  class Presentation {
    const layouts: seq<Layout>
    var slides: seq<Slide>

    /** A presentation's slide ids are unique. */
    ghost predicate Valid()
      reads this
    {
      DistinctIds(slides)
    }

    constructor Open(layouts: seq<Layout>, slides: seq<Slide>)
      requires DistinctIds(slides)
      ensures Valid()
      ensures this.layouts == layouts && this.slides == slides
    {
      this.layouts := layouts;
      this.slides := slides;
    }

    /** `prs.slides.add_slide(layouts[li])`: appends a new slide made from that layout
        under a fresh id, and gives its position. */
    method AddSlide(li: nat) returns (k: nat)
      requires Valid() && li < |layouts|
      modifies this
      ensures Valid()
      ensures k == |old(slides)|
      ensures slides == old(slides) + [Slide(NextId(old(slides)), NewPage(li, layouts[li]))]
    {
      k := |slides|;
      slides := slides + [Slide(NextId(slides), NewPage(li, layouts[li]))];
    }

    /** Stores the edited contents of the slide at position `k`; its id stays. */
    method SetPage(k: nat, page: Page)
      requires Valid() && k < |slides|
      modifies this
      ensures Valid()
      ensures slides == old(slides)[k := Slide(old(slides)[k].id, page)]
    {
      slides := slides[k := Slide(slides[k].id, page)];
    }

    /** `_sldIdLst.remove(entry)` for the entry with id `id`, which must be in the list. */
    method RemoveSldId(id: nat)
      requires Valid() && id in Ids(slides)
      modifies this
      ensures Valid()
      ensures id !in Ids(slides)
      ensures slides == Without(old(slides), id)
    {
      WithoutKeepsDistinct(slides, id);
      slides := Without(slides, id);
    }
  }
}
