/** The instruction sent to the model (`build_prompt`) and the choice of
    chat-completion endpoint (the head of `call_openai_chat`). */
module Prompt {
  import opened Wrappers

  const INSTRUCTIONS: string :=
    "Convert the following text (markdown or prose) into a JSON object named 'slides'."
    + " The JSON object should look like: { \"slides\": [{\"title\":..., \"content\": [..], \"notes\": \"..\"}, ...] }"
    + " Do NOT add any extra text before/after the JSON. Content array items should be short bullet lines (max 20 words)."

  const GUIDANCE_LABEL: string := "Use this guidance: "
  const INPUT_MARKER: string := "\nINPUT:\n"
  const CLOSING: string := "\n\nRespond with JSON only."

  predicate StartsWith(s: string, prefix: string) {
    |prefix| <= |s| && s[..|prefix|] == prefix
  }

  predicate EndsWith(s: string, suffix: string) {
    |suffix| <= |s| && s[|s| - |suffix|..] == suffix
  }

  /** The line carrying the guidance: present only for non-empty guidance. */
  function GuidanceLine(guidance: string): string {
    if guidance != "" then GUIDANCE_LABEL + guidance + "\n" else ""
  }

  /** The prompt's layout around an instruction block `system`: it starts with the
      block and a newline, and ends with the input marker, the text and the
      closing line. */
  function Compose(system: string, text: string, guidance: string): (p: string)
    ensures StartsWith(p, system + "\n")
    ensures EndsWith(p, INPUT_MARKER + text + CLOSING)
    ensures EndsWith(p, CLOSING)
  {
    ConcatShape(system + "\n", GuidanceLine(guidance), INPUT_MARKER, text, CLOSING);
    system + "\n" + GuidanceLine(guidance) + INPUT_MARKER + text + CLOSING
  }

  /** `build_prompt(text, guidance)` */
  function BuildPrompt(text: string, guidance: string): (p: string)
    ensures StartsWith(p, INSTRUCTIONS + "\n")
    ensures EndsWith(p, INPUT_MARKER + text + CLOSING)
    ensures EndsWith(p, CLOSING)
  {
    Compose(INSTRUCTIONS, text, guidance)
  }

  /** Everything of the prompt before the input marker. */
  function Head(guidance: string): string {
    INSTRUCTIONS + "\n" + GuidanceLine(guidance)
  }

  /** The text of `p` between `before` and `after`, when `p` starts and ends with them. */
  function Between(p: string, before: string, after: string): (r: Option<string>)
    ensures r.Some? ==> p == before + r.value + after
  {
    if |before| + |after| <= |p| && p[..|before|] == before && p[|p| - |after|..] == after
    then
      var t := p[|before|..|p| - |after|];
      assert p == before + t + after;
      Some(t)
    else None
  }

  lemma BetweenOfConcat(before: string, t: string, after: string)
    ensures Between(before + t + after, before, after) == Some(t)
  {
    var p := before + t + after;
    assert p[..|before|] == before;
    assert p[|p| - |after|..] == after;
    assert p[|before|..|p| - |after|] == t;
  }

  lemma StartsWithConcat(a: string, b: string)
    ensures StartsWith(a + b, a)
  {
    assert (a + b)[..|a|] == a;
  }

  lemma EndsWithConcat(a: string, b: string)
    ensures EndsWith(a + b, b)
  {
    assert (a + b)[|a + b| - |b|..] == b;
  }

  /** A concatenation starts with its first part and ends with its last parts. */
  lemma ConcatShape(h: string, g: string, m: string, t: string, c: string)
    ensures StartsWith(h + g + m + t + c, h)
    ensures EndsWith(h + g + m + t + c, m + t + c)
    ensures EndsWith(h + g + m + t + c, c)
  {
    var p := h + g + m + t + c;
    assert p == h + (g + m + t + c);
    StartsWithConcat(h, g + m + t + c);
    assert p == (h + g) + (m + t + c);
    EndsWithConcat(h + g, m + t + c);
    EndsWithConcat(h + g + m + t, c);
  }

  /** Two strings that differ right after a common prefix `h` do not start alike. */
  lemma DifferAfter(h: string, x: string, y: string, p: string)
    requires x != [] && y != [] && x[0] != y[0]
    requires StartsWith(p, h + x)
    ensures !StartsWith(p, h + y)
  {
    assert p[|h|] == (h + x)[|h|] == x[0];
    assert (h + y)[|h|] == y[0];
  }

  lemma ComposeWithoutGuidance(system: string, text: string)
    ensures !StartsWith(Compose(system, text, ""), system + "\n" + GUIDANCE_LABEL + "" + "\n")
  {
    var h := system + "\n";
    var tail := INPUT_MARKER + text + CLOSING;
    var rest := GUIDANCE_LABEL + "" + "\n";
    assert h + rest == system + "\n" + GUIDANCE_LABEL + "" + "\n";
    assert Compose(system, text, "") == h + tail;
    StartsWithConcat(h, tail);
    assert tail[0] == '\n';
    assert rest[0] == 'U';
    DifferAfter(h, tail, rest, h + tail);
  }

  lemma ComposeWithGuidance(system: string, text: string, guidance: string)
    requires guidance != ""
    ensures StartsWith(Compose(system, text, guidance), system + "\n" + GUIDANCE_LABEL + guidance + "\n")
  {
    var h := system + "\n";
    var rest := GUIDANCE_LABEL + guidance + "\n";
    var tail := INPUT_MARKER + text + CLOSING;
    assert h + rest == system + "\n" + GUIDANCE_LABEL + guidance + "\n";
    assert Compose(system, text, guidance) == (h + rest) + tail;
    StartsWithConcat(h + rest, tail);
  }

  lemma ComposeGuidance(system: string, text: string, guidance: string)
    ensures StartsWith(Compose(system, text, guidance), system + "\n" + GUIDANCE_LABEL + guidance + "\n")
        <==> guidance != ""
  {
    if guidance == "" {
      ComposeWithoutGuidance(system, text);
    } else {
      ComposeWithGuidance(system, text, guidance);
    }
  }

  /** The guidance line `Use this guidance: <guidance>` follows the instructions
      if and only if the guidance is non-empty. */
  lemma GuidanceLineIffNonEmpty(text: string, guidance: string)
    ensures StartsWith(BuildPrompt(text, guidance), INSTRUCTIONS + "\n" + GUIDANCE_LABEL + guidance + "\n")
        <==> guidance != ""
  {
    ComposeGuidance(INSTRUCTIONS, text, guidance);
  }

  /** Reads the input text back out of a prompt built with the given guidance. */
  function InputOf(p: string, guidance: string): (r: Option<string>)
    ensures r.Some? ==> p == Head(guidance) + INPUT_MARKER + r.value + CLOSING
  {
    Between(p, Head(guidance) + INPUT_MARKER, CLOSING)
  }

  /** Given the guidance, the prompt determines the input text. */
  lemma InputRoundTrip(text: string, guidance: string)
    ensures InputOf(BuildPrompt(text, guidance), guidance) == Some(text)
  {
    BetweenOfConcat(Head(guidance) + INPUT_MARKER, text, CLOSING);
  }

  const OPENAI_URL: string := "https://aipipe.org/openai/v1/chat/completions"
  const GEMINI_URL: string := "http://aipipe.org/openrouter/v1/chat/completions"
  const UNSUPPORTED_PROVIDER: string := "Unsupported provider"

  /** The endpoint for a provider name; any name but the two known ones is refused
      before a request is built. */
  function ProviderUrl(provider: string): (r: Result<string, string>)
    ensures r.Success? <==> provider == "openai" || provider == "gemini"
    ensures r.Failure? ==> r.error == UNSUPPORTED_PROVIDER
    ensures provider == "openai" ==> r == Success(OPENAI_URL)
    ensures provider == "gemini" ==> r == Success(GEMINI_URL)
  {
    if provider == "openai" then Success(OPENAI_URL)
    else if provider == "gemini" then Success(GEMINI_URL)
    else Failure(UNSUPPORTED_PROVIDER)
  }

  /** Each supported provider has its own endpoint: the URL determines the provider. */
  lemma ProviderUrlInjective(a: string, b: string)
    requires ProviderUrl(a).Success? && ProviderUrl(a) == ProviderUrl(b)
    ensures a == b
  {
    assert OPENAI_URL[8] != GEMINI_URL[8];
  }
}
