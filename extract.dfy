/**
 * Recovering the outline from the model's reply: `extract_json` (strip the reply,
 * try the text from the first `{` to the last `}`, else the whole stripped text)
 * and the check that the parsed object has a `slides` key. The JSON parser
 * itself is a parameter: `parse(s)` is None exactly when `json.loads(s)` raises.
 */
module Extract {
  import opened Wrappers
  import opened Outline

  /** Python's `str.isspace` for one character: the characters `str.strip()` removes. */
  predicate IsSpace(c: char) {
    c == ' ' || ('\t' <= c <= '\r') || ('\U{1C}' <= c <= '\U{1F}')
    || c == '\U{85}' || c == '\U{A0}' || c == '\U{1680}' || ('\U{2000}' <= c <= '\U{200A}')
    || c == '\U{2028}' || c == '\U{2029}' || c == '\U{202F}' || c == '\U{205F}' || c == '\U{3000}'
  }

  /** Every character of `s` is white space. */
  predicate AllSpace(s: string) {
    forall k :: 0 <= k < |s| ==> IsSpace(s[k])
  }

  lemma AllSpaceCons(c: char, x: string)
    requires IsSpace(c) && AllSpace(x)
    ensures AllSpace([c] + x)
  {
    forall k | 0 <= k < |[c] + x| ensures IsSpace(([c] + x)[k]) {
      if k > 0 {
        assert ([c] + x)[k] == x[k - 1];
      }
    }
  }

  lemma AllSpaceSnoc(x: string, c: char)
    requires IsSpace(c) && AllSpace(x)
    ensures AllSpace(x + [c])
  {
    forall k | 0 <= k < |x + [c]| ensures IsSpace((x + [c])[k]) {
      if k < |x| {
        assert (x + [c])[k] == x[k];
      }
    }
  }

  /** `s.lstrip()` */
  function TrimLeft(s: string): (r: string)
    ensures |r| <= |s| && r == s[|s| - |r|..]
    ensures r == [] || !IsSpace(r[0])
    ensures AllSpace(s[..|s| - |r|])
  {
    if s == [] || !IsSpace(s[0]) then s
    else
      var r := TrimLeft(s[1..]);
      assert s[..|s| - |r|] == [s[0]] + s[1..][..|s| - 1 - |r|];
      AllSpaceCons(s[0], s[1..][..|s| - 1 - |r|]);
      r
  }

  /** `s.rstrip()` */
  function TrimRight(s: string): (r: string)
    ensures |r| <= |s| && r == s[..|r|]
    ensures r == [] || !IsSpace(r[|r| - 1])
    ensures AllSpace(s[|r|..])
  {
    if s == [] || !IsSpace(s[|s| - 1]) then s
    else
      var r := TrimRight(s[..|s| - 1]);
      assert s[|r|..] == s[..|s| - 1][|r|..] + [s[|s| - 1]];
      AllSpaceSnoc(s[..|s| - 1][|r|..], s[|s| - 1]);
      r
  }

  /** `s.strip()`: the slice of `s` left after dropping white space at both ends. */
  function Strip(s: string): (r: string)
    ensures exists i, j :: 0 <= i <= j <= |s| && r == s[i..j] && AllSpace(s[..i]) && AllSpace(s[j..])
    ensures r == [] || (!IsSpace(r[0]) && !IsSpace(r[|r| - 1]))
  {
    var l := TrimLeft(s);
    var r := TrimRight(l);
    StripSlice(s, l, r);
    r
  }

  /** Dropping a white-space prefix `s[..|s| - |l|]` and then a white-space suffix
      `l[|r|..]` leaves the slice `s[|s| - |l|..|s| - |l| + |r|]`. */
  lemma StripSlice(s: string, l: string, r: string)
    requires |l| <= |s| && l == s[|s| - |l|..] && AllSpace(s[..|s| - |l|])
    requires l == [] || !IsSpace(l[0])
    requires |r| <= |l| && r == l[..|r|] && AllSpace(l[|r|..])
    requires r == [] || !IsSpace(r[|r| - 1])
    ensures var i := |s| - |l|;
      && r == s[i..i + |r|] && AllSpace(s[..i]) && AllSpace(s[i + |r|..])
      && (r == [] || (!IsSpace(r[0]) && !IsSpace(r[|r| - 1])))
  {
    var i := |s| - |l|;
    assert l[|r|..] == s[i + |r|..];
    if r != [] {
      assert r[0] == l[0];
    }
  }

  /** Stripping text that neither starts nor ends with white space leaves it as it is. */
  lemma StripNoSpace(s: string)
    requires s == [] || (!IsSpace(s[0]) && !IsSpace(s[|s| - 1]))
    ensures Strip(s) == s
  {
  }

  /** Stripping is idempotent. */
  lemma StripIdempotent(s: string)
    ensures Strip(Strip(s)) == Strip(s)
  {
    StripNoSpace(Strip(s));
  }

  /** `s.index(c)`: the first position of `c`, None where Python raises ValueError. */
  function FirstIndex(s: string, c: char): (r: Option<nat>)
    ensures r.Some? ==> r.value < |s| && s[r.value] == c && forall j :: 0 <= j < r.value ==> s[j] != c
    ensures r.None? ==> forall j :: 0 <= j < |s| ==> s[j] != c
  {
    if s == [] then None
    else if s[0] == c then Some(0)
    else match FirstIndex(s[1..], c)
      case None => None
      case Some(j) => Some(j + 1)
  }

  /** `s.rindex(c)`: the last position of `c`, None where Python raises ValueError. */
  function LastIndex(s: string, c: char): (r: Option<nat>)
    ensures r.Some? ==> r.value < |s| && s[r.value] == c && forall j :: r.value < j < |s| ==> s[j] != c
    ensures r.None? ==> forall j :: 0 <= j < |s| ==> s[j] != c
  {
    if s == [] then None
    else if s[|s| - 1] == c then Some(|s| - 1)
    else
      var r := LastIndex(s[..|s| - 1], c);
      assert forall j :: 0 <= j < |s| - 1 ==> s[..|s| - 1][j] == s[j];
      r
  }

  /** The text handed first to the parser: `t[start:end+1]` for the first `{` and the
      last `}`; Python's slice is empty when that `}` comes before that `{`. None when
      `index` or `rindex` raises. */
  function Candidate(t: string): (r: Option<string>)
    ensures r.None? <==> (forall j :: 0 <= j < |t| ==> t[j] != '{') || (forall j :: 0 <= j < |t| ==> t[j] != '}')
    ensures r.Some? ==> exists i, j :: 0 <= i <= j <= |t| && r.value == t[i..j]
    ensures r.Some? && r.value != [] ==> r.value[0] == '{' && r.value[|r.value| - 1] == '}'
  {
    match (FirstIndex(t, '{'), LastIndex(t, '}'))
    case (Some(start), Some(end)) =>
      if end < start then
        assert t[0..0] == [];
        Some([])
      else
        var c := t[start..end + 1];
        assert c[0] == t[start] && c[|c| - 1] == t[end];
        Some(c)
    case _ => None
  }

  /** When the text has a `{` and, after the first one, a `}`, the candidate is the
      contiguous slice from the first `{` to the last `}`, both included. */
  lemma CandidateIsOutermostSlice(t: string, start: nat, end: nat)
    requires start < end < |t| && t[start] == '{' && t[end] == '}'
    requires forall j :: 0 <= j < start ==> t[j] != '{'
    requires forall j :: end < j < |t| ==> t[j] != '}'
    ensures Candidate(t) == Some(t[start..end + 1])
    ensures t[start..end + 1][0] == '{' && t[start..end + 1][end - start] == '}'
  {
    var f := FirstIndex(t, '{');
    var l := LastIndex(t, '}');
    assert f == Some(start);
    assert l == Some(end);
  }

  /** A last `}` before the first `{` gives the empty candidate, Python's empty
      slice `t[start:end+1]`. */
  lemma CandidateEmpty(t: string)
    ensures Candidate(t) == Some([]) <==>
      exists i, j :: 0 <= j < i < |t| && t[i] == '{' && t[j] == '}'
                     && (forall k :: 0 <= k < i ==> t[k] != '{') && (forall k :: j < k < |t| ==> t[k] != '}')
  {
    var f := FirstIndex(t, '{');
    var l := LastIndex(t, '}');
    if f.Some? && l.Some? && l.value >= f.value {
      assert t[f.value..l.value + 1][0] == '{';
    }
    if exists i, j :: 0 <= j < i < |t| && t[i] == '{' && t[j] == '}'
                     && (forall k :: 0 <= k < i ==> t[k] != '{') && (forall k :: j < k < |t| ==> t[k] != '}') {
      var i, j :| 0 <= j < i < |t| && t[i] == '{' && t[j] == '}'
                  && (forall k :: 0 <= k < i ==> t[k] != '{') && (forall k :: j < k < |t| ==> t[k] != '}');
      assert f == Some(i);
      assert l == Some(j);
    }
  }

  /** `extract_json(text)`; None when the final `json.loads` raises. Whatever it
      returns is the parse of a contiguous slice of the stripped text. */
  function ExtractJson(text: string, parse: string -> Option<JsonObject>): (r: Option<JsonObject>)
    ensures r.Some? ==> exists i, j :: 0 <= i <= j <= |Strip(text)| && r == parse(Strip(text)[i..j])
  {
    var t := Strip(text);
    assert t == t[0..|t|];
    match Candidate(t)
    case Some(c) =>
      if parse(c).Some? then
        SliceParsed(t, c, parse);
        parse(c)
      else parse(t)
    case None => parse(t)
  }

  lemma SliceParsed(t: string, c: string, parse: string -> Option<JsonObject>)
    requires exists i, j :: 0 <= i <= j <= |t| && c == t[i..j]
    ensures exists i, j :: 0 <= i <= j <= |t| && parse(c) == parse(t[i..j])
  {
    var i, j :| 0 <= i <= j <= |t| && c == t[i..j];
    assert parse(c) == parse(t[i..j]);
  }

  /** The fallback: with no `{` or no `}` in the stripped text, or with a candidate
      the parser refuses, the whole stripped text is parsed; a candidate the parser
      accepts is the result. */
  lemma ExtractFallsBack(text: string, parse: string -> Option<JsonObject>)
    ensures var t := Strip(text);
      (forall j :: 0 <= j < |t| ==> t[j] != '{') || (forall j :: 0 <= j < |t| ==> t[j] != '}')
      ==> ExtractJson(text, parse) == parse(t)
    ensures Candidate(Strip(text)).Some? && parse(Candidate(Strip(text)).value).None? ==>
      ExtractJson(text, parse) == parse(Strip(text))
    ensures Candidate(Strip(text)).Some? && parse(Candidate(Strip(text)).value).Some? ==>
      ExtractJson(text, parse) == parse(Candidate(Strip(text)).value)
  {
  }

  /** Stripped text that is already a brace-delimited object is parsed as it is. */
  lemma BraceDelimitedIsItself(text: string, parse: string -> Option<JsonObject>)
    requires |Strip(text)| >= 2 && Strip(text)[0] == '{' && Strip(text)[|Strip(text)| - 1] == '}'
    ensures Candidate(Strip(text)) == Some(Strip(text))
    ensures ExtractJson(text, parse) == parse(Strip(text))
  {
    var t := Strip(text);
    CandidateIsOutermostSlice(t, 0, |t| - 1);
    assert t[0..|t|] == t;
  }

  /** `lstrip` stops at the first character that is not white space. */
  lemma {:induction false} TrimLeftPadded(pre: string, obj: string, post: string)
    requires obj != [] && !IsSpace(obj[0])
    ensures TrimLeft(pre + obj + post) == TrimLeft(pre) + obj + post
  {
    if pre == [] {
      assert pre + obj + post == obj + post;
      TrimLeftKeeps(obj + post);
    } else if IsSpace(pre[0]) {
      var c, rest := pre[0], pre[1..];
      assert pre == [c] + rest;
      assert pre + obj + post == [c] + (rest + obj + post);
      TrimLeftPadded(rest, obj, post);
      TrimLeftDrops(c, rest + obj + post);
      TrimLeftDrops(c, rest);
    } else {
      TrimLeftKeeps(pre + obj + post);
    }
  }

  lemma TrimLeftKeeps(s: string)
    requires s != [] && !IsSpace(s[0])
    ensures TrimLeft(s) == s
  {
  }

  lemma TrimLeftDrops(c: char, rest: string)
    requires IsSpace(c)
    ensures TrimLeft([c] + rest) == TrimLeft(rest)
  {
    assert ([c] + rest)[1..] == rest;
  }

  /** `rstrip` stops at the last character that is not white space. */
  lemma {:induction false} TrimRightPadded(pre: string, obj: string, post: string)
    requires obj != [] && !IsSpace(obj[|obj| - 1])
    ensures TrimRight(pre + obj + post) == pre + obj + TrimRight(post)
  {
    if post == [] {
      assert pre + obj + post == pre + obj;
      TrimRightKeeps(pre + obj);
    } else if IsSpace(post[|post| - 1]) {
      var rest, c := post[..|post| - 1], post[|post| - 1];
      assert post == rest + [c];
      assert pre + obj + post == (pre + obj + rest) + [c];
      TrimRightPadded(pre, obj, rest);
      TrimRightDrops(pre + obj + rest, c);
      TrimRightDrops(rest, c);
    } else {
      TrimRightKeeps(pre + obj + post);
    }
  }

  lemma TrimRightKeeps(s: string)
    requires s != [] && !IsSpace(s[|s| - 1])
    ensures TrimRight(s) == s
  {
  }

  lemma TrimRightDrops(rest: string, c: char)
    requires IsSpace(c)
    ensures TrimRight(rest + [c]) == TrimRight(rest)
  {
    assert (rest + [c])[..|rest|] == rest;
  }

  lemma StripPadded(pre: string, obj: string, post: string)
    requires obj != [] && !IsSpace(obj[0]) && !IsSpace(obj[|obj| - 1])
    ensures Strip(pre + obj + post) == TrimLeft(pre) + obj + TrimRight(post)
  {
    TrimLeftPadded(pre, obj, post);
    TrimRightPadded(TrimLeft(pre), obj, post);
  }

  lemma SliceLacks(s: string, i: nat, j: nat, c: char)
    requires i <= j <= |s|
    requires forall k :: 0 <= k < |s| ==> s[k] != c
    ensures forall k :: 0 <= k < j - i ==> s[i..j][k] != c
  {
    forall k | 0 <= k < j - i ensures s[i..j][k] != c {
      assert s[i..j][k] == s[i + k];
    }
  }

  /** With no `{` before it and no `}` after it, an object is its text's candidate. */
  lemma CandidateOfPadded(a: string, obj: string, b: string)
    requires |obj| >= 2 && obj[0] == '{' && obj[|obj| - 1] == '}'
    requires forall j :: 0 <= j < |a| ==> a[j] != '{'
    requires forall j :: 0 <= j < |b| ==> b[j] != '}'
    ensures Candidate(a + obj + b) == Some(obj)
  {
    var t := a + obj + b;
    var start := |a|;
    var end := |a| + |obj| - 1;
    assert t[start..end + 1] == obj;
    forall j | 0 <= j < start ensures t[j] != '{' {
      assert t[j] == a[j];
    }
    forall j | end < j < |t| ensures t[j] != '}' {
      assert t[j] == b[j - end - 1];
    }
    CandidateIsOutermostSlice(t, start, end);
  }

  /** A JSON object surrounded by prose is recovered as if parsed alone, provided
      the prose before it holds no `{` and the prose after it holds no `}`. */
  lemma PaddedObjectRecovered(pre: string, obj: string, post: string, parse: string -> Option<JsonObject>)
    requires |obj| >= 2 && obj[0] == '{' && obj[|obj| - 1] == '}'
    requires forall j :: 0 <= j < |pre| ==> pre[j] != '{'
    requires forall j :: 0 <= j < |post| ==> post[j] != '}'
    requires parse(obj).Some?
    ensures ExtractJson(pre + obj + post, parse) == parse(obj)
  {
    var a := TrimLeft(pre);
    var b := TrimRight(post);
    StripPadded(pre, obj, post);
    SliceLacks(pre, |pre| - |a|, |pre|, '{');
    SliceLacks(post, 0, |b|, '}');
    CandidateOfPadded(a, obj, b);
    ExtractOfCandidate(pre + obj + post, a + obj + b, obj, parse);
  }

  lemma ExtractOfCandidate(text: string, t: string, c: string, parse: string -> Option<JsonObject>)
    requires Strip(text) == t && Candidate(t) == Some(c) && parse(c).Some?
    ensures ExtractJson(text, parse) == parse(c)
  {
  }

  const MISSING_SLIDES_PREFIX: string :=
    "LLM did not return a 'slides' key in the JSON. Response received: "

  datatype ExtractError = InvalidJson | MissingSlides(message: string)

  /** The `slides` check: an object without the key is an error quoting at most the
      first 500 characters of the raw reply. */
  function CheckSlides(obj: JsonObject, raw: string): (r: Result<seq<Descriptor>, ExtractError>)
    ensures r.Success? <==> obj.slides.Some?
    ensures r.Success? ==> r.value == obj.slides.value
    ensures r.Failure? ==> r.error.MissingSlides?
    ensures r.Failure? ==>
      var m := r.error.message;
      && |m| == |MISSING_SLIDES_PREFIX| + (if |raw| < 500 then |raw| else 500)
      && m[..|MISSING_SLIDES_PREFIX|] == MISSING_SLIDES_PREFIX
      && m[|MISSING_SLIDES_PREFIX|..] <= raw
    ensures r.Failure? ==> r.error == MissingSlides(MISSING_SLIDES_PREFIX + raw[..if |raw| < 500 then |raw| else 500])
  {
    match obj.slides
    case Some(s) => Success(s)
    case None =>
      var quoted := if |raw| < 500 then raw else raw[..500];
      assert quoted == raw[..if |raw| < 500 then |raw| else 500];
      assert (MISSING_SLIDES_PREFIX + quoted)[|MISSING_SLIDES_PREFIX|..] == quoted;
      Failure(MissingSlides(MISSING_SLIDES_PREFIX + quoted))
  }

  /** The steps of `generate_ppt` after the reply arrives: `extract_json`, then the
      `slides` check. An outline is obtained exactly when the reply yields an object
      with a `slides` key; a reply that does not parse is `InvalidJson`. */
  function SlidesOf(raw: string, parse: string -> Option<JsonObject>): (r: Result<seq<Descriptor>, ExtractError>)
    ensures r.Success? <==> ExtractJson(raw, parse).Some? && ExtractJson(raw, parse).value.slides.Some?
    ensures r.Success? ==> r.value == ExtractJson(raw, parse).value.slides.value
    ensures r == Failure(InvalidJson) <==> ExtractJson(raw, parse).None?
    ensures r.Failure? && ExtractJson(raw, parse).Some? ==>
      r.error == MissingSlides(MISSING_SLIDES_PREFIX + raw[..if |raw| < 500 then |raw| else 500])
  {
    match ExtractJson(raw, parse)
    case None => Failure(InvalidJson)
    case Some(obj) => CheckSlides(obj, raw)
  }
}
