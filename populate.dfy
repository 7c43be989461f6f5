/**
 * The deck-building part of the `/generate` endpoint: choosing a layout, adding
 * one slide per outline descriptor and filling its title, body and notes, then
 * dropping the template's own slides; and the sequence of steps from the text to
 * the finished deck.
 */
module Populate {
  import opened Wrappers
  import opened Deck
  import opened Outline
  import Prompt
  import Extract

  /** The first layout, from position `from` on, with two or more placeholders. */
  function FirstWithTwo(layouts: seq<Layout>, from: nat): (r: Option<nat>)
    requires from <= |layouts|
    decreases |layouts| - from
    ensures r.Some? ==> from <= r.value < |layouts| && |layouts[r.value].placeholders| >= 2
    ensures r.Some? ==> forall j :: from <= j < r.value ==> |layouts[j].placeholders| < 2
    ensures r.None? ==> forall j :: from <= j < |layouts| ==> |layouts[j].placeholders| < 2
  {
    if from == |layouts| then None
    else if |layouts[from].placeholders| >= 2 then Some(from)
    else FirstWithTwo(layouts, from + 1)
  }

  /** `choose_layout`: the least index of a layout with at least two placeholders,
      and 0 when there is none. */
  function ChooseLayout(layouts: seq<Layout>): (r: nat)
    ensures r < |layouts| || r == 0
    ensures (exists j :: 0 <= j < |layouts| && |layouts[j].placeholders| >= 2) ==>
      r < |layouts| && |layouts[r].placeholders| >= 2
      && forall j :: 0 <= j < r ==> |layouts[j].placeholders| < 2
    ensures (forall j :: 0 <= j < |layouts| ==> |layouts[j].placeholders| < 2) ==> r == 0
  {
    FirstWithTwo(layouts, 0).GetOr(0)
  }

  /** Writes `lines` into a cleared text frame: the first line becomes the frame's
      text, every later one an added paragraph. */
  method FillFrame(lines: seq<string>) returns (paragraphs: seq<string>)
    ensures lines != [] ==> paragraphs == lines
    ensures lines == [] ==> paragraphs == EMPTY_FRAME
  {
    paragraphs := EMPTY_FRAME;
    var first := true;
    for i := 0 to |lines|
      invariant first <==> i == 0
      invariant first ==> paragraphs == EMPTY_FRAME
      invariant !first ==> paragraphs == lines[..i]
    {
      if first {
        paragraphs := [lines[i]];
        first := false;
      } else {
        paragraphs := paragraphs + [lines[i]];
      }
    }
    if !first {
      assert lines[..|lines|] == lines;
    }
  }

  /** `q` is page `p` after it was filled from descriptor `d`: the title shape holds
      the title, the first non-title placeholder (or, when there is none, a new text
      box) holds one paragraph per content line, the notes are set when non-empty,
      and nothing else changed. */
  ghost predicate Shows(q: Page, p: Page, d: Descriptor) {
    var t := FindIdx(p.placeholders, 0, true);
    var b := FindIdx(p.placeholders, 0, false);
    && q.layout == p.layout
    && |q.placeholders| == |p.placeholders|
    && (forall k :: 0 <= k < |p.placeholders| ==>
          q.placeholders[k].idx == p.placeholders[k].idx
          && q.placeholders[k].paragraphs ==
               if t == Some(k) then [TitleOf(d)]
               else if b == Some(k) then Frame(ContentOf(d))
               else p.placeholders[k].paragraphs)
    && q.textBoxes == (if b.None? then p.textBoxes + [Frame(ContentOf(d))] else p.textBoxes)
    && q.notes == (if NotesOf(d) != "" then Some(NotesOf(d)) else p.notes)
  }

  /** The body of the loop for one descriptor, applied to the page of the slide
      just added. */
  method FillSlide(page: Page, d: Descriptor) returns (q: Page)
    ensures Shows(q, page, d)
  {
    var title, content, notes := TitleOf(d), ContentOf(d), NotesOf(d);
    var phs := page.placeholders;
    var t := FindIdx(phs, 0, true);
    if t.Some? {
      phs := phs[t.value := Placeholder(phs[t.value].idx, [title])];
    }
    FindIdxSameIdx(phs, page.placeholders, 0, false);
    var b := FindIdx(phs, 0, false);
    var boxes := page.textBoxes;
    if b.None? {
      var frame := FillFrame(content);
      boxes := boxes + [frame];
    } else {
      var frame := FillFrame(content);
      phs := phs[b.value := Placeholder(phs[b.value].idx, frame)];
    }
    var shownNotes := page.notes;
    if notes != "" {
      shownNotes := Some(notes);
    }
    q := Page(page.layout, phs, boxes, shownNotes);
  }

  /** The paragraphs of a page's title shape, None when it has none. */
  function TitleParagraphs(p: Page): Option<seq<string>> {
    match FindIdx(p.placeholders, 0, true)
    case Some(k) => Some(p.placeholders[k].paragraphs)
    case None => None
  }

  /** The paragraphs of a page's first non-title placeholder, None when it has none. */
  function BodyParagraphs(p: Page): Option<seq<string>> {
    match FindIdx(p.placeholders, 0, false)
    case Some(k) => Some(p.placeholders[k].paragraphs)
    case None => None
  }

  /** What a slide made from a layout and filled from a descriptor shows, in terms
      of the layout: the title when the layout has a title placeholder, the content
      lines in the first non-title placeholder or else in a single new text box,
      and the notes only when they are non-empty. */
  lemma {:induction false} FilledSlideFromLayout(li: nat, layout: Layout, d: Descriptor, q: Page)
    requires Shows(q, NewPage(li, layout), d)
    ensures q.layout == li
    ensures TitleParagraphs(q).Some? <==>
      exists m :: 0 <= m < |layout.placeholders| && layout.placeholders[m].cloned && layout.placeholders[m].idx == 0
    ensures TitleParagraphs(q).Some? ==> TitleParagraphs(q).value == [TitleOf(d)]
    ensures BodyParagraphs(q).Some? <==>
      exists m :: 0 <= m < |layout.placeholders| && layout.placeholders[m].cloned && layout.placeholders[m].idx != 0
    ensures BodyParagraphs(q).Some? ==> BodyParagraphs(q).value == Frame(ContentOf(d)) && q.textBoxes == []
    ensures BodyParagraphs(q).None? ==> q.textBoxes == [Frame(ContentOf(d))]
    ensures q.notes == if NotesOf(d) != "" then Some(NotesOf(d)) else None
  {
    var p := NewPage(li, layout);
    FindIdxSameIdx(q.placeholders, p.placeholders, 0, true);
    FindIdxSameIdx(q.placeholders, p.placeholders, 0, false);
    CloneFind(layout.placeholders, 0, true);
    CloneFind(layout.placeholders, 0, false);
  }

  /** `remove_first_n_slides`: removes the first entry of the slide-id list `n` times.
      When the list runs out first, `_sldIdLst[0]` raises and the list is left empty. */
  method RemoveFirstNSlides(prs: Presentation, n: nat) returns (ok: bool)
    requires prs.Valid()
    modifies prs
    ensures prs.Valid()
    ensures ok <==> n <= |old(prs.slides)|
    ensures prs.slides == if ok then old(prs.slides)[n..] else []
  {
    ghost var original := prs.slides;
    for i := 0 to n
      invariant prs.Valid()
      invariant i <= |original| && prs.slides == original[i..]
    {
      if prs.slides == [] {
        return false;
      }
      var id := prs.slides[0].id;
      WithoutFirst(prs.slides);
      prs.RemoveSldId(id);
    }
    return true;
  }

  /** One iteration of the loop: adds a slide made from layout `base` and fills
      it from descriptor `d`. */
  method AddFilledSlide(prs: Presentation, base: nat, d: Descriptor)
    requires prs.Valid() && base < |prs.layouts|
    modifies prs
    ensures prs.Valid()
    ensures |prs.slides| == |old(prs.slides)| + 1
    ensures prs.slides[..|old(prs.slides)|] == old(prs.slides)
    ensures prs.slides[|old(prs.slides)|].id == NextId(old(prs.slides))
    ensures Shows(prs.slides[|old(prs.slides)|].page, NewPage(base, prs.layouts[base]), d)
  {
    var k := prs.AddSlide(base);
    var page := FillSlide(prs.slides[k].page, d);
    prs.SetPage(k, page);
  }

  /** The slides `slides` are, in order, the slides made from layout `base` and
      filled from the descriptors of `outline`. */
  ghost predicate Built(slides: seq<Slide>, layouts: seq<Layout>, base: nat, outline: seq<Descriptor>) {
    && |slides| == |outline|
    && (outline != [] ==> base < |layouts|)
    && forall j :: 0 <= j < |outline| ==> Shows(slides[j].page, NewPage(base, layouts[base]), outline[j])
  }

  /** The slides `slides` are, in order, the slides made from the chosen layout and
      filled from the descriptors of `outline`. */
  ghost predicate ShowsOutline(slides: seq<Slide>, layouts: seq<Layout>, outline: seq<Descriptor>) {
    Built(slides, layouts, ChooseLayout(layouts), outline)
  }

  /** `generate_ppt`'s slide loop: appends one filled slide per descriptor, in order,
      after the slides already there. `prs.slide_layouts[base]` raises IndexError,
      before anything is added, when there is a descriptor and no such layout. */
  method AppendSlides(prs: Presentation, base: nat, outline: seq<Descriptor>) returns (ok: bool)
    requires prs.Valid()
    modifies prs
    ensures prs.Valid()
    ensures ok <==> outline == [] || base < |prs.layouts|
    ensures !ok ==> prs.slides == old(prs.slides)
    ensures ok ==> |old(prs.slides)| <= |prs.slides| && prs.slides[..|old(prs.slides)|] == old(prs.slides)
    ensures ok ==> Built(prs.slides[|old(prs.slides)|..], prs.layouts, base, outline)
    ensures ok ==> FreshAfter(prs.slides, |old(prs.slides)|, old(prs.slides))
  {
    ghost var original := prs.slides;
    var m := |prs.slides|;
    for i := 0 to |outline|
      invariant prs.Valid()
      invariant |prs.slides| == m + i && prs.slides[..m] == original
      invariant i > 0 ==> base < |prs.layouts|
      invariant Built(prs.slides[m..], prs.layouts, base, outline[..i])
      invariant FreshAfter(prs.slides, m, original)
    {
      if base >= |prs.layouts| {
        assert prs.slides == original;
        return false;
      }
      ghost var before := prs.slides;
      AddFilledSlide(prs, base, outline[i]);
      AppendKeeps(before, prs.slides, original, m, prs.layouts, base, outline, i);
    }
    assert outline[..|outline|] == outline;
    return true;
  }

  /** The deck building of `generate_ppt`: one slide per descriptor, in order, on the chosen
      layout, then the template's original slides removed. Fails, leaving the deck as
      it was, only when there is a descriptor and the template has no layout. */
  method GenerateDeck(prs: Presentation, outline: seq<Descriptor>) returns (ok: bool)
    requires prs.Valid()
    modifies prs
    ensures prs.Valid()
    ensures ok <==> outline == [] || prs.layouts != []
    ensures !ok ==> prs.slides == old(prs.slides)
    ensures ok ==> ShowsOutline(prs.slides, prs.layouts, outline)
    ensures ok ==> forall j :: 0 <= j < |prs.slides| ==> prs.slides[j].id !in Ids(old(prs.slides))
  {
    var base := ChooseLayout(prs.layouts);
    var toRemove := |prs.slides|;
    ok := AppendSlides(prs, base, outline);
    if !ok {
      return;
    }
    ghost var built := prs.slides;
    var removed := RemoveFirstNSlides(prs, toRemove);
    assert prs.slides == built[toRemove..];
  }

  /** The slides of `s` from position `m` on have ids that none of `original` has. */
  ghost predicate FreshAfter(s: seq<Slide>, m: nat, original: seq<Slide>) {
    forall t :: m <= t < |s| ==> s[t].id !in Ids(original)
  }

  /** One iteration of the loop keeps its invariants: the first `m` slides stay the
      original ones, the slides after them are the outline so far, and their ids
      are new. */
  lemma AppendKeeps(before: seq<Slide>, after: seq<Slide>, original: seq<Slide>, m: nat,
                    layouts: seq<Layout>, base: nat, outline: seq<Descriptor>, i: nat)
    requires m <= |before| && before[..m] == original && i < |outline|
    requires Built(before[m..], layouts, base, outline[..i]) && FreshAfter(before, m, original)
    requires base < |layouts|
    requires |after| == |before| + 1 && after[..|before|] == before
    requires after[|before|].id == NextId(before)
    requires Shows(after[|before|].page, NewPage(base, layouts[base]), outline[i])
    ensures after[..m] == original
    ensures Built(after[m..], layouts, base, outline[..i + 1])
    ensures FreshAfter(after, m, original)
  {
    assert after[..m] == after[..|before|][..m];
    FreshExtends(before, after, original, m);
    assert after[m..][..|before| - m] == before[m..];
    ExtendBuilt(before[m..], after[m..], layouts, base, outline[..i], outline[i]);
    assert outline[..i + 1] == outline[..i] + [outline[i]];
  }

  lemma FreshExtends(before: seq<Slide>, after: seq<Slide>, original: seq<Slide>, m: nat)
    requires m <= |before| && before[..m] == original && FreshAfter(before, m, original)
    requires |after| == |before| + 1 && after[..|before|] == before
    requires after[|before|].id == NextId(before)
    ensures FreshAfter(after, m, original)
  {
    forall j | 0 <= j < |original| ensures original[j].id != NextId(before) {
      assert before[j] == original[j];
    }
    forall t | m <= t < |before| ensures after[t] == before[t] {
      assert after[..|before|][t] == after[t];
    }
  }

  lemma ExtendBuilt(s: seq<Slide>, s': seq<Slide>, layouts: seq<Layout>, base: nat,
                    outline: seq<Descriptor>, d: Descriptor)
    requires Built(s, layouts, base, outline)
    requires base < |layouts|
    requires |s'| == |s| + 1 && s'[..|s|] == s
    requires Shows(s'[|s|].page, NewPage(base, layouts[base]), d)
    ensures Built(s', layouts, base, outline + [d])
  {
    forall j | 0 <= j < |s| ensures s'[j] == s[j] {
      assert s'[..|s|][j] == s'[j];
    }
  }

  datatype GenerateError =
    | UnsupportedProvider(message: string)
    | OutlineError(cause: Extract.ExtractError)
    | NoLayout

  /** The first steps of `generate_ppt`: the prompt, the provider's reply and the
      outline recovered from it. `reply(url, prompt)` stands for the chat-completion
      request. An unsupported provider is refused before any request; for a known
      one the outline is obtained exactly when the reply yields an object with a
      `slides` key. */
  function RequestOutline(text: string, guidance: string, provider: string,
                          reply: (string, string) -> string,
                          parse: string -> Option<JsonObject>): (r: Result<seq<Descriptor>, GenerateError>)
    ensures provider != "openai" && provider != "gemini" ==>
      r == Failure(UnsupportedProvider(Prompt.UNSUPPORTED_PROVIDER))
    ensures provider == "openai" || provider == "gemini" ==>
      var raw := reply(Prompt.ProviderUrl(provider).value, Prompt.BuildPrompt(text, guidance));
      && (r.Success? <==> Extract.ExtractJson(raw, parse).Some? && Extract.ExtractJson(raw, parse).value.slides.Some?)
      && (r.Success? ==> r.value == Extract.ExtractJson(raw, parse).value.slides.value)
      && (r.Failure? ==> r.error == OutlineError(Extract.SlidesOf(raw, parse).error))
      && (r == Failure(OutlineError(Extract.InvalidJson)) <==> Extract.ExtractJson(raw, parse).None?)
  {
    match Prompt.ProviderUrl(provider)
    case Failure(message) => Failure(UnsupportedProvider(message))
    case Success(url) =>
      match Extract.SlidesOf(reply(url, Prompt.BuildPrompt(text, guidance)), parse)
      case Success(outline) => Success(outline)
      case Failure(e) => Failure(OutlineError(e))
  }

  /** The endpoint from the form fields to the finished deck (without the file
      handling): the presentation `prs` is the opened template. */
  method GeneratePpt(prs: Presentation, text: string, guidance: string, provider: string,
                     reply: (string, string) -> string, parse: string -> Option<JsonObject>)
    returns (err: Option<GenerateError>)
    requires prs.Valid()
    modifies prs
    ensures prs.Valid()
    ensures err.Some? ==> prs.slides == old(prs.slides)
    ensures RequestOutline(text, guidance, provider, reply, parse).Failure? ==>
      err == Some(RequestOutline(text, guidance, provider, reply, parse).error)
    ensures RequestOutline(text, guidance, provider, reply, parse).Success? ==>
      var outline := RequestOutline(text, guidance, provider, reply, parse).value;
      && (err.None? <==> outline == [] || prs.layouts != [])
      && (err.Some? ==> err == Some(NoLayout))
      && (err.None? ==> ShowsOutline(prs.slides, prs.layouts, outline))
      && (err.None? ==> forall j :: 0 <= j < |prs.slides| ==> prs.slides[j].id !in Ids(old(prs.slides)))
  {
    var planned := RequestOutline(text, guidance, provider, reply, parse);
    if planned.Failure? {
      return Some(planned.error);
    }
    var ok := GenerateDeck(prs, planned.value);
    err := if ok then None else Some(NoLayout);
  }
}
