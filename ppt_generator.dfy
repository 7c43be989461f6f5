/**
 * The alternative generator (`create_presentation`): every template slide is
 * removed first; the first entry gets layout 0, every later one layout 1; the
 * title shape gets the entry's title, and placeholder 1 its content when the
 * slide has more than one placeholder.
 */
module PptGenerator {
  import opened Wrappers
  import opened Deck

  /** One element of `slides_content`; a field is None when its key is absent. */
  datatype Entry = Entry(title: Option<string>, content: Option<string>)

  /** The exceptions `create_presentation` can raise: IndexError on the layout list,
      KeyError on the entry and KeyError on the slide's placeholder lookup. */
  datatype BuildError = NoSuchLayout(index: nat) | MissingKey(key: string) | NoPlaceholder(idx: nat)

  /** The layout used for entry number `k`. */
  function EntryLayout(k: nat): (li: nat)
    ensures li <= 1 && (li == 0 <==> k == 0)
  {
    if k == 0 then 0 else 1
  }

  /** The exception raised while filling page `p` from `e`, if any: assignments
      evaluate the entry's field before looking up the shape it goes into. */
  function FillError(p: Page, e: Entry): (r: Option<BuildError>)
    ensures r.None? <==>
      && (FindIdx(p.placeholders, 0, true).Some? ==> e.title.Some?)
      && (|p.placeholders| > 1 ==> e.content.Some? && FindIdx(p.placeholders, 1, true).Some?)
    ensures r == Some(MissingKey("title")) <==> FindIdx(p.placeholders, 0, true).Some? && e.title.None?
    ensures r.Some? ==> r.value.MissingKey? || r.value == NoPlaceholder(1)
  {
    if FindIdx(p.placeholders, 0, true).Some? && e.title.None? then Some(MissingKey("title"))
    else if |p.placeholders| > 1 && e.content.None? then Some(MissingKey("content"))
    else if |p.placeholders| > 1 && FindIdx(p.placeholders, 1, true).None? then Some(NoPlaceholder(1))
    else None
  }

  /** The exception raised while building the slide for entry number `k`, if any. */
  function EntryError(layouts: seq<Layout>, k: nat, e: Entry): (r: Option<BuildError>)
    ensures r == Some(NoSuchLayout(EntryLayout(k))) <==> EntryLayout(k) >= |layouts|
    ensures r.None? <==>
      EntryLayout(k) < |layouts| && FillError(NewPage(EntryLayout(k), layouts[EntryLayout(k)]), e).None?
  {
    var li := EntryLayout(k);
    if li >= |layouts| then Some(NoSuchLayout(li)) else FillError(NewPage(li, layouts[li]), e)
  }

  /** `q` is page `p` after it was filled from `e`: the title shape holds the title;
      when there is more than one placeholder, placeholder 1 holds the content;
      nothing else changed. */
  ghost predicate EntryShows(q: Page, p: Page, e: Entry) {
    var t := FindIdx(p.placeholders, 0, true);
    var one := if |p.placeholders| > 1 then FindIdx(p.placeholders, 1, true) else None;
    && q.layout == p.layout
    && q.textBoxes == p.textBoxes
    && q.notes == p.notes
    && |q.placeholders| == |p.placeholders|
    && forall k :: 0 <= k < |p.placeholders| ==>
         q.placeholders[k].idx == p.placeholders[k].idx
         && q.placeholders[k].paragraphs ==
              if t == Some(k) then [e.title.GetOr("")]
              else if one == Some(k) then [e.content.GetOr("")]
              else p.placeholders[k].paragraphs
  }

  /** The title and body steps of the loop, on the page of the slide just added. */
  method FillEntry(page: Page, e: Entry) returns (r: Result<Page, BuildError>)
    ensures r.Failure? <==> FillError(page, e).Some?
    ensures r.Failure? ==> r.error == FillError(page, e).value
    ensures r.Success? ==> EntryShows(r.value, page, e)
  {
    var phs := page.placeholders;
    var t := FindIdx(phs, 0, true);
    if t.Some? {
      if e.title.None? {
        return Failure(MissingKey("title"));
      }
      phs := phs[t.value := Placeholder(phs[t.value].idx, [e.title.value])];
    }
    if |phs| > 1 {
      if e.content.None? {
        return Failure(MissingKey("content"));
      }
      FindIdxSameIdx(phs, page.placeholders, 1, true);
      var one := FindIdx(phs, 1, true);
      if one.None? {
        return Failure(NoPlaceholder(1));
      }
      phs := phs[one.value := Placeholder(phs[one.value].idx, [e.content.value])];
    }
    return Success(Page(page.layout, phs, page.textBoxes, page.notes));
  }

  /** `remove_all_slides`: removes, one by one, every entry of a snapshot of the
      slide-id list taken before the first removal. */
  method RemoveAllSlides(prs: Presentation)
    requires prs.Valid()
    modifies prs
    ensures prs.Valid()
    ensures prs.slides == []
  {
    var snapshot := prs.slides;
    for i := 0 to |snapshot|
      invariant prs.Valid()
      invariant prs.slides == snapshot[i..]
    {
      WithoutFirst(prs.slides);
      prs.RemoveSldId(snapshot[i].id);
    }
  }

  /** The slides are, in order, those built from the entries. */
  ghost predicate ShowsEntries(slides: seq<Slide>, layouts: seq<Layout>, entries: seq<Entry>) {
    && |slides| == |entries|
    && forall k :: 0 <= k < |entries| ==>
         EntryLayout(k) < |layouts|
         && EntryShows(slides[k].page, NewPage(EntryLayout(k), layouts[EntryLayout(k)]), entries[k])
  }

  lemma ExtendShowsEntries(s: seq<Slide>, s': seq<Slide>, layouts: seq<Layout>, entries: seq<Entry>, i: nat)
    requires i < |entries| && ShowsEntries(s, layouts, entries[..i])
    requires EntryLayout(|s|) < |layouts|
    requires |s'| == |s| + 1 && s'[..|s|] == s
    requires EntryShows(s'[|s|].page, NewPage(EntryLayout(|s|), layouts[EntryLayout(|s|)]), entries[i])
    ensures ShowsEntries(s', layouts, entries[..i + 1])
  {
    forall j | 0 <= j < |s| ensures s'[j] == s[j] {
      assert s'[..|s|][j] == s'[j];
    }
    assert entries[..i + 1] == entries[..i] + [entries[i]];
  }

  /** No entry before position `k` raises an exception. */
  ghost predicate NoErrorBefore(layouts: seq<Layout>, entries: seq<Entry>, k: nat)
    requires k <= |entries|
  {
    forall j :: 0 <= j < k ==> EntryError(layouts, j, entries[j]).None?
  }

  /** `create_presentation` on the opened template `prs`. It fails with the exception
      of the first entry that raises one; otherwise the deck holds exactly one slide
      per entry, in order. */
  method CreatePresentation(prs: Presentation, entries: seq<Entry>) returns (err: Option<BuildError>)
    requires prs.Valid()
    modifies prs
    ensures prs.Valid()
    ensures err.None? <==> NoErrorBefore(prs.layouts, entries, |entries|)
    ensures err.Some? ==>
      exists k :: 0 <= k < |entries| && err == EntryError(prs.layouts, k, entries[k]) && NoErrorBefore(prs.layouts, entries, k)
    ensures err.None? ==> ShowsEntries(prs.slides, prs.layouts, entries)
  {
    RemoveAllSlides(prs);
    for i := 0 to |entries|
      invariant prs.Valid()
      invariant |prs.slides| == i
      invariant NoErrorBefore(prs.layouts, entries, i)
      invariant ShowsEntries(prs.slides, prs.layouts, entries[..i])
    {
      var li := if i == 0 then 0 else 1;
      if li >= |prs.layouts| {
        assert EntryError(prs.layouts, i, entries[i]) == Some(NoSuchLayout(li));
        return Some(NoSuchLayout(li));
      }
      ghost var before := prs.slides;
      var k := prs.AddSlide(li);
      var r := FillEntry(prs.slides[k].page, entries[i]);
      if r.Failure? {
        assert EntryError(prs.layouts, i, entries[i]) == Some(r.error);
        return Some(r.error);
      }
      prs.SetPage(k, r.value);
      ExtendShowsEntries(before, prs.slides, prs.layouts, entries, i);
    }
    assert entries[..|entries|] == entries;
    return None;
  }

  /** Two or more entries need a second layout: with fewer than two layouts some
      entry fails. */
  lemma ManyEntriesNeedTwoLayouts(layouts: seq<Layout>, entries: seq<Entry>)
    requires |entries| >= 2 && |layouts| < 2
    ensures !NoErrorBefore(layouts, entries, |entries|)
  {
    assert EntryError(layouts, 1, entries[1]) == Some(NoSuchLayout(1));
  }

  /** The first entry only reads layout 0: what happens to it does not depend on
      any later layout. */
  lemma FirstEntryReadsLayoutZero(layouts: seq<Layout>, e: Entry)
    requires |layouts| >= 1
    ensures EntryError(layouts, 0, e) == EntryError(layouts[..1], 0, e)
  {
  }

  /** The paragraphs of the placeholder with index 1, None when there is none. */
  function PlaceholderOneParagraphs(p: Page): Option<seq<string>> {
    match FindIdx(p.placeholders, 1, true)
    case Some(k) => Some(p.placeholders[k].paragraphs)
    case None => None
  }

  /** A built slide in terms of its layout: the title when the layout has a title
      placeholder, and placeholder 1 holds the content when more than one
      placeholder reached the slide, and keeps its empty frame otherwise. */
  lemma {:induction false} EntrySlideFromLayout(li: nat, layout: Layout, e: Entry, q: Page)
    requires EntryShows(q, NewPage(li, layout), e)
    ensures q.layout == li && q.textBoxes == [] && q.notes == None
    ensures |q.placeholders| > 1 <==>
      exists m1, m2 :: 0 <= m1 < m2 < |layout.placeholders|
        && layout.placeholders[m1].cloned && layout.placeholders[m2].cloned
    ensures FindIdx(q.placeholders, 0, true).Some? <==>
      exists m :: 0 <= m < |layout.placeholders| && layout.placeholders[m].cloned && layout.placeholders[m].idx == 0
    ensures FindIdx(q.placeholders, 0, true).Some? ==>
      q.placeholders[FindIdx(q.placeholders, 0, true).value].paragraphs == [e.title.GetOr("")]
    ensures |q.placeholders| > 1 && PlaceholderOneParagraphs(q).Some? ==>
      PlaceholderOneParagraphs(q).value == [e.content.GetOr("")]
    ensures |q.placeholders| <= 1 && PlaceholderOneParagraphs(q).Some? ==>
      PlaceholderOneParagraphs(q).value == EMPTY_FRAME
  {
    var p := NewPage(li, layout);
    FindIdxSameIdx(q.placeholders, p.placeholders, 0, true);
    FindIdxSameIdx(q.placeholders, p.placeholders, 1, true);
    CloneFind(layout.placeholders, 0, true);
    NewPageManyPlaceholders(li, layout);
  }
}
