/** The word input box: previewed words written back as editable lines,
    the rule that decides whether text or the image is submitted, and the
    counter of previewed words. */
module WordInput {
  import opened Wrappers
  import opened Text

  /** A word returned by the image preview. */
  datatype PreviewWord = PreviewWord(word: string, meaning: Option<string>)

  predicate HasMeaning(w: PreviewWord) {
    w.meaning.Some? && w.meaning.value != ""
  }

  /** One editable line: "word meaning", or the word alone. */
  function FormatLine(w: PreviewWord): string {
    if HasMeaning(w) then w.word + " " + w.meaning.value else w.word
  }

  function FormatLines(words: seq<PreviewWord>): (lines: seq<string>)
    ensures |lines| == |words|
    ensures forall k :: 0 <= k < |words| ==> lines[k] == FormatLine(words[k])
  {
    seq(|words|, k requires 0 <= k < |words| => FormatLine(words[k]))
  }

  /** `formatWordsToLines`: one line per word, joined by newlines. */
  function FormatWordsToLines(words: seq<PreviewWord>): string {
    Join(FormatLines(words), '\n')
  }

  /** A reference reading of one line, with no counterpart in the
      source: the word up to the first space, and the rest as the meaning.
      It exists only to state what the written text preserves (see
      `FormatRoundTrip`); the source itself sends the text on unparsed. */
  function ParseLine(line: string): (w: PreviewWord)
    decreases |line|
  {
    if |line| == 0 then PreviewWord("", None)
    else if line[0] == ' ' then PreviewWord("", Some(line[1..]))
    else
      var rest := ParseLine(line[1..]);
      PreviewWord([line[0]] + rest.word, rest.meaning)
  }

  /** What a line preserves of a word: a meaning only when it is not
      empty. Like `ParseLine`, a reference notion, not source code. */
  function Normalized(w: PreviewWord): PreviewWord {
    PreviewWord(w.word, if HasMeaning(w) then w.meaning else None)
  }

  lemma {:induction false} ParseWordThenRest(x: string, rest: string)
    requires ' ' !in x
    ensures ParseLine(x + " " + rest) == PreviewWord(x, Some(rest))
    ensures ParseLine(x) == PreviewWord(x, None)
    decreases |x|
  {
    if |x| > 0 {
      ParseWordThenRest(x[1..], rest);
      assert (x + " " + rest)[1..] == x[1..] + " " + rest;
      assert [x[0]] + x[1..] == x;
    } else {
      assert x + " " + rest == [' '] + rest;
    }
  }

  /** A line reads back as the word it was written from, for a word
      without spaces. */
  lemma ParseFormatLine(w: PreviewWord)
    requires ' ' !in w.word
    ensures ParseLine(FormatLine(w)) == Normalized(w)
  {
    ParseWordThenRest(w.word, if HasMeaning(w) then w.meaning.value else "");
  }

  /** The text written from a non-empty preview reads back, line by line,
      as the previewed words, when words have no spaces and nothing holds
      a newline. */
  lemma FormatRoundTrip(words: seq<PreviewWord>)
    requires |words| > 0
    requires forall k :: 0 <= k < |words| ==> ' ' !in words[k].word && '\n' !in words[k].word
    requires forall k :: 0 <= k < |words| ==> words[k].meaning.Some? ==> '\n' !in words[k].meaning.value
    ensures var lines := Split(FormatWordsToLines(words), '\n');
      && |lines| == |words|
      && forall k :: 0 <= k < |words| ==> ParseLine(lines[k]) == Normalized(words[k])
  {
    var lines := FormatLines(words);
    forall k | 0 <= k < |lines| ensures '\n' !in lines[k] {
      assert lines[k] == FormatLine(words[k]);
    }
    SplitJoin(lines, '\n');
    forall k | 0 <= k < |words| ensures ParseLine(lines[k]) == Normalized(words[k]) {
      ParseFormatLine(words[k]);
    }
  }

  /** What `handleSubmit` sends. */
  datatype Payload = Payload(text: Option<string>, imageUrl: Option<string>)

  /** `handleSubmit`: nothing without text or image; the trimmed text when
      there is any, and then never the image; otherwise the image alone. */
  function SubmitPayload(text: string, imageUrl: string): (p: Option<Payload>)
    ensures p.None? <==> AllSpace(text) && imageUrl == ""
    ensures p.Some? ==> (p.value.text.Some? <==> p.value.imageUrl.None?)
    ensures !AllSpace(text) ==> p == Some(Payload(Some(Trim(text)), None))
    ensures AllSpace(text) && imageUrl != "" ==> p == Some(Payload(None, Some(imageUrl)))
  {
    var trimmed := Trim(text);
    if trimmed != "" || imageUrl != "" then
      Some(Payload(if trimmed != "" then Some(trimmed) else None,
                   if trimmed != "" then None else if imageUrl != "" then Some(imageUrl) else None))
    else None
  }

  /** The submit button is enabled only with non-blank text and no
      pending request. */
  predicate SubmitEnabled(text: string, isLoading: bool) {
    Trim(text) != "" && !isLoading
  }

  /** The button never submits the image: whenever it is enabled, the
      payload is the trimmed text alone. */
  lemma EnabledSubmitSendsText(text: string, imageUrl: string, isLoading: bool)
    requires SubmitEnabled(text, isLoading)
    ensures SubmitPayload(text, imageUrl) == Some(Payload(Some(Trim(text)), None))
  {
  }

  datatype InputState = InputState(text: string, imageUrl: string, recognizedCount: nat, recognizing: bool)

  const Empty := InputState("", "", 0, false)

  /** Typing into the box: the text is replaced and the preview count
      cleared. */
  function Edit(s: InputState, newText: string): (r: InputState)
    ensures r.text == newText && r.recognizedCount == 0
    ensures r.imageUrl == s.imageUrl && r.recognizing == s.recognizing
  {
    if s.recognizedCount > 0 then s.(text := newText, recognizedCount := 0)
    else s.(text := newText)
  }

  /** A chosen image is kept and its preview starts. */
  function Upload(s: InputState, dataUrl: string): (r: InputState)
    ensures r == s.(imageUrl := dataUrl, recognizing := true)
  {
    s.(imageUrl := dataUrl, recognizing := true)
  }

  /** The preview's reply (`None` for a failure): found words replace the
      text and set the count; otherwise the count is cleared and the text
      kept. */
  function PreviewDone(s: InputState, reply: Option<seq<PreviewWord>>): (r: InputState)
    ensures !r.recognizing && r.imageUrl == s.imageUrl
    ensures reply.Some? && |reply.value| > 0 ==>
      r.text == FormatWordsToLines(reply.value) && r.recognizedCount == |reply.value|
    ensures reply.None? || |reply.value| == 0 ==> r.text == s.text && r.recognizedCount == 0
  {
    var done := s.(recognizing := false);
    match reply
    case Some(words) =>
      if |words| > 0 then done.(text := FormatWordsToLines(words), recognizedCount := |words|)
      else done.(recognizedCount := 0)
    case None => done.(recognizedCount := 0)
  }

  /** The written text starts with the first word. */
  lemma FormattedStartsWithWord(words: seq<PreviewWord>)
    requires |words| > 0 && |words[0].word| > 0
    ensures |FormatWordsToLines(words)| > 0 && FormatWordsToLines(words)[0] == words[0].word[0]
  {
    var lines := FormatLines(words);
    assert lines[0] == FormatLine(words[0]);
  }

  /** After a preview that found words, submitting sends the written text
      and not the image again, so the image is recognised only once. */
  lemma PreviewThenSubmitSendsText(s: InputState, dataUrl: string, words: seq<PreviewWord>)
    requires |words| > 0 && |words[0].word| > 0 && !IsSpace(words[0].word[0])
    ensures var r := PreviewDone(Upload(s, dataUrl), Some(words));
      && r.imageUrl == dataUrl
      && SubmitPayload(r.text, r.imageUrl) == Some(Payload(Some(Trim(FormatWordsToLines(words))), None))
  {
    FormattedStartsWithWord(words);
  }
}
