# PPT-Generator in Dafny

A Dafny model of the logic inside PPT-Generator, a small web service that turns text
into a PowerPoint deck. The service asks a language model for a JSON outline of
slides, then fills a user-supplied template with one slide per outline entry.

The model covers:

- the prompt sent to the model (`build_prompt`);
- the choice of chat-completion endpoint for a provider name;
- the recovery of the JSON object from the model's reply (`extract_json`: strip, take
  the text from the first `{` to the last `}`, fall back to the whole stripped text);
- the check that the object has a `slides` key;
- the deck-building part of the `/generate` endpoint: `choose_layout`, one new slide
  per descriptor with its title, body and notes filled, and `remove_first_n_slides`;
- the alternative generator of `app/ppt_generator.py`: `remove_all_slides` and
  `create_presentation`.

The python-pptx `Presentation` is an abstract model (module `Deck`):

- a class holding the template's layouts and the slide list;
- each slide is an entry of the slide-id list together with what it shows;
- what a slide shows is its placeholders (identified by placeholder index), the text
  boxes added to it, and its notes;
- a text frame is the list of its paragraphs; a fresh or cleared frame holds a single
  empty paragraph.

As in python-pptx:

- a slide's title shape is its first placeholder with index 0;
- `slide.placeholders[k]` looks a placeholder up by its index;
- `add_slide` gives the new slide the id `max(255, ids) + 1` and copies onto it every
  layout placeholder except the date, footer and slide-number ones.

Modules:

- `Wrappers`: Option and Result.
- `Deck`: the presentation model above.
- `Outline`: the parsed outline.
- `Prompt`: the prompt and the endpoint choice.
- `Extract`: the JSON recovery and the `slides` check.
- `Populate`: the `/generate` deck building and the endpoint as a whole.
- `PptGenerator`: `app/ppt_generator.py`.

The steps that touch the outside world are parameters:

- the chat-completion request is `reply(url, prompt)`, a function from the endpoint
  and prompt to the reply text;
- the JSON parser is `parse(s)`, None exactly where `json.loads(s)` raises, and
  otherwise the parsed object seen through its `slides` key.

## Model

| member | source | states |
|---|---|---|
| `Prompt.BuildPrompt` | app/main.py:46-54 | the prompt starts with the fixed instructions and a newline, and ends with `"\nINPUT:\n" + text + "\n\nRespond with JSON only."` |
| `Prompt.Compose` | app/main.py:53 | for any instruction block, the prompt starts with the block and a newline and ends with the input marker, the text and the closing line |
| `Prompt.ComposeGuidance` | app/main.py:52-53 | for any instruction block, the line `Use this guidance: <g>` follows it if and only if `g` is non-empty |
| `Prompt.GuidanceLineIffNonEmpty` | app/main.py:52-53 | the prompt contains the guidance line right after the instructions if and only if the guidance is non-empty |
| `Prompt.InputOf` | app/main.py:53 | text read back from a prompt sits between the head (instructions and guidance line) plus input marker and the closing line |
| `Prompt.InputRoundTrip` | app/main.py:52-53 | given the guidance, the input text is recovered exactly from the prompt |
| `Prompt.ProviderUrl` | app/main.py:20-25 | `openai` is sent to the https aipipe OpenAI endpoint and `gemini` to the http OpenRouter endpoint; any other name is the error `Unsupported provider` |
| `Prompt.ProviderUrlInjective` | app/main.py:20-23 | the two providers have different endpoints: the URL determines the provider |
| `Extract.TrimLeft` | app/main.py:58 | the result is a suffix of the input, what it dropped is all white space, and it does not start with white space |
| `Extract.TrimRight` | app/main.py:58 | the result is a prefix of the input, what it dropped is all white space, and it does not end with white space |
| `Extract.Strip` | app/main.py:58 | the stripped text is a slice of the input with only white space on either side, and neither starts nor ends with white space |
| `Extract.StripNoSpace` | app/main.py:58 | text that neither starts nor ends with white space is left unchanged |
| `Extract.StripIdempotent` | app/main.py:58 | stripping twice is stripping once |
| `Extract.FirstIndex` | app/main.py:61 | the position of the first occurrence of the character, or None (ValueError) when the character is absent |
| `Extract.LastIndex` | app/main.py:62 | the position of the last occurrence of the character, or None (ValueError) when the character is absent |
| `Extract.Candidate` | app/main.py:60-63 | no candidate exactly when the text lacks `{` or lacks `}`; otherwise the candidate is a contiguous slice of the text which, when not empty, begins with `{` and ends with `}` |
| `Extract.CandidateIsOutermostSlice` | app/main.py:61-64 | with a first `{` before a last `}`, the candidate is the contiguous slice between them, both included; it begins with `{` and ends with `}` |
| `Extract.CandidateEmpty` | app/main.py:63 | Python's slice `t[start:end+1]` is empty exactly when the last `}` comes before the first `{` |
| `Extract.ExtractJson` | app/main.py:57-67 | whatever `extract_json` returns is the parse of a contiguous slice of the stripped text |
| `Extract.ExtractFallsBack` | app/main.py:60-67 | without a `{` or a `}`, or when the candidate does not parse, the whole stripped text is parsed; a candidate that parses is the result |
| `Extract.BraceDelimitedIsItself` | app/main.py:61-67 | stripped text that begins with `{` and ends with `}` is its own candidate and is parsed as it is |
| `Extract.StripPadded` | app/main.py:58 | stripping prose around a non-empty part that neither starts nor ends with white space strips only the prose |
| `Extract.CandidateOfPadded` | app/main.py:61-63 | an object with no `{` before it and no `}` after it is its text's candidate |
| `Extract.PaddedObjectRecovered` | app/main.py:57-67 | an object embedded in prose with no `{` before it and no `}` after it is recovered as if it had been parsed alone |
| `Extract.CheckSlides` | app/main.py:93-94 | success if and only if the `slides` key is present; otherwise the error message is the fixed prefix followed by `raw[:500]`, the first `min(500, len(raw))` characters of the raw reply |
| `Extract.SlidesOf` | app/main.py:92-94 | the outline is obtained exactly when `extract_json` yields an object with a `slides` key, and is that value; an unparsable reply is exactly the JSON error, and an object without the key is the missing-slides error whose message is the fixed prefix followed by `raw[:500]` |
| `Populate.FirstWithTwo` | app/main.py:104-107 | the first layout from a position on with two or more placeholders, every layout skipped having fewer; None when there is none |
| `Populate.ChooseLayout` | app/main.py:102-108 | the least index of a layout with two or more placeholders, every earlier one having fewer; 0 when no layout qualifies |
| `Populate.FillFrame` | app/main.py:160-170 | a cleared frame written from the content lines holds exactly those lines as paragraphs, in order, and stays one empty paragraph when there are none |
| `Populate.FillSlide` | app/main.py:124-177 | the title shape gets the title (default `""`); the first non-title placeholder, or else one new text box, gets the content lines (default `[]`); notes are set only when non-empty; nothing else changes |
| `Populate.FilledSlideFromLayout` | app/main.py:131-177 | a slide made from a layout and filled has a title exactly when the layout has a copied title placeholder, the content in its body placeholder exactly when the layout has a copied non-title placeholder and otherwise in a single text box, and notes only when they are non-empty |
| `Populate.RemoveFirstNSlides` | app/main.py:114-117 | removing the first slide-id entry `n` times leaves `slides[n:]`; it fails, after emptying the list, when there are fewer than `n` slides |
| `Populate.AddFilledSlide` | app/main.py:128-177 | one iteration appends one slide with a fresh id, filled from the descriptor, and keeps every earlier slide |
| `Populate.AppendSlides` | app/main.py:123-180 | the loop keeps the template's slides, appends one filled slide per descriptor in outline order with ids the template's slides do not have, and raises IndexError, adding nothing, when there is a descriptor and no such layout |
| `Populate.GenerateDeck` | app/main.py:111-182 | the deck ends with exactly one slide per descriptor, in outline order, on the chosen layout, and none of the template's slides; it fails, leaving the deck unchanged, only for a non-empty outline and a template without layouts |
| `Populate.AppendKeeps` | app/main.py:123-182 | one iteration keeps the loop's invariants: the original slides stay in front, the appended slides are the outline so far, and their ids are new |
| `Populate.RequestOutline` | app/main.py:86-94 | an unknown provider fails before any request; for a known one the reply to the built prompt at that provider's endpoint yields the outline exactly when `extract_json` finds an object with a `slides` key; a failure is the outline error carrying `SlidesOf`'s error (with its quoted message), and it is the JSON error exactly when `extract_json` fails |
| `Populate.GeneratePpt` | app/main.py:86-182 | a failed request or check leaves the deck unchanged with that error; otherwise, when it succeeds, the deck holds exactly one slide per descriptor in outline order on the chosen layout, none with a template slide's id, and it fails with the deck unchanged only for a non-empty outline and a template without layouts |
| `Deck.ClonePlaceholders` | app/main.py:131 | `add_slide` copies at most the layout's placeholders onto the new slide, each with an empty text frame |
| `Deck.ClonedPositions` | app/main.py:131 | the positions, in increasing order, of exactly the layout placeholders `add_slide` copies |
| `Deck.ClonePlaceholdersExact` | app/main.py:131 | the copied placeholders correspond one to one, in layout order, to the copied layout placeholders, each keeping its idx and getting an empty text frame |
| `Deck.NewPageExact` | app/main.py:131 | the page of a new slide (`NewPage`) has no text boxes and no notes and holds exactly the copied layout placeholders, in order, with empty text frames |
| `Deck.NewPageManyPlaceholders` | app/ppt_generator.py:26 | a new slide has more than one placeholder if and only if its layout has two or more copied placeholders |
| `Deck.FindIdx` | app/main.py:134-145 | the first placeholder whose index is (or is not) the one sought, every earlier one failing the test; None when none passes |
| `Deck.CloneFind` | app/main.py:131-145 | a fresh slide has a matching placeholder exactly when its layout has a copied placeholder that matches |
| `Deck.FindIdxSameIdx` | app/main.py:134-145 | the placeholder searches depend only on placeholder indices, not on text |
| `Deck.Frame` | app/main.py:152-170 | a text frame is never without a paragraph: the given lines when there are some, otherwise the single empty paragraph of a cleared frame |
| `Deck.MaxId` | app/main.py:131 | the largest slide id, and at least 255 |
| `Deck.NextId` | app/main.py:131 | the id of a new slide is at least 256 and is not the id of any existing slide |
| `Deck.PositionOf` | app/main.py:116-117 | the first position of the slide-id entry with the given id |
| `Deck.Without` | app/main.py:117 | removing the entry with an id drops exactly the entry at that id's first position and keeps the others in order; with unique ids, the id is then gone |
| `Deck.WithoutFirst` | app/main.py:116-117 | removing the entry with the first entry's id removes the first entry |
| `Deck.WithoutKeepsDistinct` | app/main.py:117 | removing an entry keeps the slide ids unique |
| `Deck.Presentation.Open` | app/main.py:97 | opening a template keeps its layouts and slides |
| `Deck.Presentation.AddSlide` | app/main.py:131 | appends exactly one slide made from the layout under a fresh id; the earlier slides are unchanged |
| `Deck.Presentation.SetPage` | app/main.py:135 | editing a slide's text changes only that slide, and keeps its id |
| `Deck.Presentation.RemoveSldId` | app/main.py:117 | removes exactly the entry with that id, which is then no longer among the slide ids; the slide ids stay unique |
| `PptGenerator.EntryLayout` | app/ppt_generator.py:14-17 | entry 0 uses layout 0 and every later entry uses layout 1 |
| `PptGenerator.FillError` | app/ppt_generator.py:21-27 | filling succeeds exactly when a title shape has a `title` and, on a slide with more than one placeholder, there is a `content` and a placeholder 1; a missing title is reported first, and every failure is a KeyError |
| `PptGenerator.EntryError` | app/ppt_generator.py:14-27 | an entry fails with IndexError exactly when its layout number is out of range, and succeeds exactly when the layout exists and the slide made from it can be filled |
| `PptGenerator.FillEntry` | app/ppt_generator.py:21-27 | the title shape gets `title` and, when the slide has more than one placeholder, placeholder 1 gets `content`; KeyError for an absent key that is read and for a missing placeholder 1, in the order the source evaluates them |
| `PptGenerator.RemoveAllSlides` | app/ppt_generator.py:3-7 | removing every entry of a snapshot of the slide-id list empties it |
| `PptGenerator.CreatePresentation` | app/ppt_generator.py:9-29 | fails exactly when some entry raises, with the first such entry's exception; otherwise the deck holds exactly one slide per entry, in input order, none of the template's slides |
| `PptGenerator.ExtendShowsEntries` | app/ppt_generator.py:13-27 | appending the slide built from the next entry extends the built deck by that entry |
| `PptGenerator.ManyEntriesNeedTwoLayouts` | app/ppt_generator.py:14-17 | with two or more entries and fewer than two layouts, some entry fails |
| `PptGenerator.FirstEntryReadsLayoutZero` | app/ppt_generator.py:14-15 | the first entry's outcome depends only on layout 0 |
| `PptGenerator.EntrySlideFromLayout` | app/ppt_generator.py:19-27 | a built slide has a title exactly when its layout has a copied title placeholder, holding the title; it has more than one placeholder exactly when its layout has two or more copied ones, and then placeholder 1 holds the content, otherwise keeping its empty frame |

## Left out

- The web service around the logic is not modelled, because it is I/O: form parsing, temporary files, `FileResponse`, serving `index.html`, and `app/static`.
- The HTTP request is not modelled; it is the parameter `reply`, because it is network I/O. This covers the headers, the payload (including the `temperature` float and `max_tokens`), the timeout, and reading `choices[0].message.content`.
- The non-200 `Proxy error ...` string is left out with the HTTP request; it reaches the model only as reply text.
- `json.loads` is not modelled; it is the parameter `parse`.
- The parsed object is seen only through its `slides` key, and replies that parse to something other than an object are not modelled: for an array `"slides" in` tests membership, for a string it tests for a substring, and for a number, boolean or null it raises TypeError. Descriptor fields of the wrong JSON type are not modelled. A `slides` value that is not a list of objects is not modelled either: for `null`, a number or a boolean, the `len` in `print(len(slides_obj["slides"]))` raises TypeError before the slide loop starts, and an element that is not an object makes `.get` raise AttributeError.
- Exceptions raised while setting the title or the notes, which `generate_ppt` swallows, are not modelled; the model always sets them. One arises when the notes slide has no body placeholder, so that its notes text frame is `None`.
- The `print` diagnostics are left out, because they are output only. The one exception is `print(len(slides_obj["slides"]))`, which raises for a `slides` value without a length; that case is not modelled (see above).
- The text setter is modelled as making one paragraph, so the way python-pptx splits text containing line breaks into several paragraphs is not modelled.
- Paragraph levels, text-box geometry (`Inches`), fonts and the XML of the slide-id list are not modelled; the slide-id list is a sequence of ids.
- The notes slide is not modelled as a slide of its own; a slide's notes are a field.
- Placeholder shapes on a slide are modelled in layout order and other shapes are kept apart as text boxes, so shape order among them is not modelled.
- Which layout placeholders `add_slide` copies is an input (the `cloned` flag), not derived from placeholder types.
- `create_presentation` opening the template from a file is not modelled; the model starts from the opened presentation.
- `create_presentation`'s entries are modelled with string `title` and `content` fields. An entry whose `content` is a list, as in the `/generate` outline, is not modelled; the text setter would reject it.
- The text-box branch's inner `for i, b in enumerate(content_items)` rebinds the endpoint's loop variable `i`. This has no effect on the loop, so it is not modelled.
