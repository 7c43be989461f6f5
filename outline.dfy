/** The slide outline the language model is asked for, after JSON parsing. */
module Outline {
  import opened Wrappers

  /** One element of the outline's `slides` array. Each field is None when the
      key is absent from the JSON object. */
  datatype Descriptor = Descriptor(title: Option<string>, content: Option<seq<string>>,
                                   notes: Option<string>)

  /** A parsed JSON object, seen only through its `slides` key: None when the key
      is absent, else the descriptors it holds. */
  datatype JsonObject = JsonObject(slides: Option<seq<Descriptor>>)

  /** `s.get("title", "")` */
  function TitleOf(d: Descriptor): string { d.title.GetOr("") }

  /** `s.get("content", [])` */
  function ContentOf(d: Descriptor): seq<string> { d.content.GetOr([]) }

  /** `s.get("notes", "")` */
  function NotesOf(d: Descriptor): string { d.notes.GetOr("") }
}
