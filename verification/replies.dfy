/** The JSON values the chat model may send back as a message's `content`,
    and the shape normalisation each generation step applies to them before
    use. Parsing (`JSON.parse` after stripping a ```json fence) is foreign
    behaviour and enters as a parameter `parse`, `None` meaning it threw. */
module Replies {
  import opened Wrappers
  import opened Text

  /** A JSON value. `JNull` also stands for an absent (`undefined`) value.
      Numbers are integers: no rule below depends on fractions. */
  datatype Json =
    | JNull
    | JBool(b: bool)
    | JNum(n: int)
    | JStr(s: string)
    | JArr(items: seq<Json>)
    | JObj(fields: map<string, Json>)

  /** JavaScript truthiness. */
  predicate Truthy(j: Json) {
    match j
    case JNull => false
    case JBool(b) => b
    case JNum(n) => n != 0
    case JStr(s) => s != ""
    case _ => true
  }

  /** `item && typeof item === 'object'`: arrays and objects. */
  predicate ObjectLike(j: Json) {
    j.JArr? || j.JObj?
  }

  /** Property access `j?.key`; only objects carry named properties. */
  function Field(j: Json, key: string): (r: Option<Json>)
    ensures r.Some? <==> j.JObj? && key in j.fields
    ensures r.Some? ==> r.value == j.fields[key]
  {
    if j.JObj? && key in j.fields then Some(j.fields[key]) else None
  }

  /** `Array.isArray(j?.key) ? j.key : []` */
  function ArrayField(j: Json, key: string): (r: seq<Json>)
    ensures Field(j, key) == Some(JArr(r)) || (r == [] && !(Field(j, key).Some? && Field(j, key).value.JArr?))
  {
    match Field(j, key)
    case Some(JArr(xs)) => xs
    case _ => []
  }

  /** The text one content fragment contributes: a string item itself, else
      its `text` property when that is a string, else nothing. */
  function FragmentText(item: Json): string {
    match item
    case JStr(s) => s
    case _ =>
      (match Field(item, "text")
       case Some(JStr(t)) => t
       case _ => "")
  }

  /** The fragment texts that are not empty (`.filter(Boolean)`), in order. */
  function FragmentTexts(items: seq<Json>): (r: seq<string>)
    ensures |r| <= |items|
    ensures forall k :: 0 <= k < |r| ==> r[k] != ""
  {
    if |items| == 0 then []
    else
      var t := FragmentText(items[0]);
      (if t == "" then [] else [t]) + FragmentTexts(items[1..])
  }

  /** `textParts`: the non-empty fragment texts joined by newlines. */
  function TextParts(items: seq<Json>): string {
    Join(FragmentTexts(items), '\n')
  }

  /** Joining non-empty lines is empty exactly when there are none. */
  lemma JoinEmptyIff(lines: seq<string>, sep: char)
    requires forall k :: 0 <= k < |lines| ==> lines[k] != ""
    ensures Join(lines, sep) == "" <==> lines == []
  {
    if |lines| >= 2 {
      assert |Join(lines, sep)| >= |lines[0]| > 0;
    }
  }

  /** `textParts` is empty exactly when no fragment carries text. */
  lemma {:induction false} TextPartsEmptyIff(items: seq<Json>)
    ensures TextParts(items) == "" <==> forall k :: 0 <= k < |items| ==> FragmentText(items[k]) == ""
    decreases |items|
  {
    JoinEmptyIff(FragmentTexts(items), '\n');
    if |items| > 0 {
      TextPartsEmptyIff(items[1..]);
      JoinEmptyIff(FragmentTexts(items[1..]), '\n');
      forall k | 1 <= k < |items| ensures items[1..][k - 1] == items[k] { }
    }
  }

  /** `rawContent.find(item => item && typeof item === 'object')`. */
  function FirstObjectLike(items: seq<Json>): (r: Option<Json>)
    ensures r.None? <==> forall k :: 0 <= k < |items| ==> !ObjectLike(items[k])
    ensures r.Some? ==> exists k :: 0 <= k < |items| && items[k] == r.value
                          && ObjectLike(items[k])
                          && forall m :: 0 <= m < k ==> !ObjectLike(items[m])
  {
    if |items| == 0 then None
    else if ObjectLike(items[0]) then Some(items[0])
    else
      var r := FirstObjectLike(items[1..]);
      assert forall k :: 1 <= k < |items| ==> items[k] == items[1..][k - 1];
      assert r.Some? ==> exists k :: 1 <= k < |items| && items[k] == r.value
                          && ObjectLike(items[k])
                          && forall m :: 0 <= m < k ==> !ObjectLike(items[m]);
      r
  }

  /** `Array.isArray(parsed?.key) ? parsed.key : Array.isArray(parsed) ? parsed : []` */
  function ListOf(parsed: Json, key: string): (r: seq<Json>)
    ensures Field(parsed, key).Some? && Field(parsed, key).value.JArr? ==> r == Field(parsed, key).value.items
    ensures parsed.JArr? ==> r == parsed.items
    ensures !parsed.JArr? && !(Field(parsed, key).Some? && Field(parsed, key).value.JArr?) ==> r == []
  {
    if parsed.JArr? then parsed.items else ArrayField(parsed, key)
  }

  /** Parses `text` and takes the list from it; `None` when the parser throws. */
  function ParseList(text: string, parse: string -> Option<Json>, key: string): (r: Option<seq<Json>>)
    ensures r.None? <==> parse(text).None?
    ensures r.Some? ==> r.value == ListOf(parse(text).value, key)
  {
    match parse(text)
    case None => None
    case Some(p) => Some(ListOf(p, key))
  }

  /** The list a reply carries under `key` (`cards` or `words`), shared by
      card generation and text recognition: a string is parsed; an array of
      fragments is parsed from its joined text, or, with no text, the first
      object-like item is searched for the key; an object is searched for
      the key; anything else yields no entries. `None` when the parser
      throws. */
  function ExtractList(raw: Json, parse: string -> Option<Json>, key: string): (r: Option<seq<Json>>)
    ensures r.None? ==> raw.JStr? || (raw.JArr? && TextParts(raw.items) != "")
    ensures !ObjectLike(raw) && !raw.JStr? ==> r == Some([])
  {
    match raw
    case JStr(s) => ParseList(s, parse, key)
    case JArr(items) =>
      var text := TextParts(items);
      if text != "" then ParseList(text, parse, key)
      else
        (match FirstObjectLike(items)
         case Some(o) => Some(ArrayField(o, key))
         case None => Some([]))
    case JObj(_) => Some(ArrayField(raw, key))
    case _ => Some([])
  }

  /** The parsed card entries. A reply that cannot be parsed is caught and
      yields no entries: this step never fails. */
  function CardEntries(raw: Json, parse: string -> Option<Json>): (r: seq<Json>)
    ensures ExtractList(raw, parse, "cards").None? ==> r == []
    ensures ExtractList(raw, parse, "cards").Some? ==> r == ExtractList(raw, parse, "cards").value
  {
    ExtractList(raw, parse, "cards").GetOr([])
  }

  /** The parsed recognised-word entries; `None` is the thrown
      "Failed to parse recognized words". */
  function WordEntries(raw: Json, parse: string -> Option<Json>): (r: Option<seq<Json>>)
    ensures r.None? <==> ExtractList(raw, parse, "words").None?
    ensures r.None? ==> raw.JStr? || raw.JArr?
  {
    ExtractList(raw, parse, "words")
  }

  /** `generateStory`'s normalisation: a string is parsed; an array of
      fragments is parsed from its joined text, or else gives its first
      object-like item, or else the array itself; an object is taken as
      is; null and primitives fail ("Unsupported story response format").
      `None` is the thrown "Failed to generate story". */
  function NormaliseStory(raw: Json, parse: string -> Option<Json>): (r: Option<Json>)
    ensures !ObjectLike(raw) && !raw.JStr? ==> r.None?
    ensures raw.JStr? ==> r == parse(raw.s)
    ensures raw.JObj? ==> r == Some(raw)
  {
    match raw
    case JStr(s) => parse(s)
    case JArr(items) =>
      var text := TextParts(items);
      if text != "" then parse(text)
      else
        (match FirstObjectLike(items)
         case Some(o) => Some(o)
         case None => Some(raw))
    case JObj(_) => Some(raw)
    case _ => None
  }

  /** Card replies and story replies treat the same bad input differently:
      an unparseable string or a null reply gives no card entries without
      failing, but makes the story step fail. */
  lemma CardsTolerateWhatStoriesReject(s: string, parse: string -> Option<Json>)
    requires parse(s).None?
    ensures CardEntries(JStr(s), parse) == [] && NormaliseStory(JStr(s), parse).None?
    ensures CardEntries(JNull, parse) == [] && NormaliseStory(JNull, parse).None?
  {
  }

  /** An array holding one non-empty string fragment is read exactly like
      the string itself, by every step. */
  lemma SingleFragmentIsString(s: string, parse: string -> Option<Json>, key: string)
    requires s != ""
    ensures ExtractList(JArr([JStr(s)]), parse, key) == ExtractList(JStr(s), parse, key)
    ensures NormaliseStory(JArr([JStr(s)]), parse) == NormaliseStory(JStr(s), parse)
  {
    assert FragmentTexts([JStr(s)]) == [s] by {
      assert [JStr(s)][1..] == [];
    }
  }

  /** A `{text: …}` fragment contributes the same text as a bare string. */
  lemma TextObjectIsString(s: string, parse: string -> Option<Json>, key: string)
    requires s != ""
    ensures ExtractList(JArr([JObj(map["text" := JStr(s)])]), parse, key) == ExtractList(JStr(s), parse, key)
  {
    var o := JObj(map["text" := JStr(s)]);
    assert FragmentText(o) == s;
    assert FragmentTexts([o]) == [s] by {
      assert [o][1..] == [];
    }
  }

  /** An array of fragments without any text falls back to the first
      object-like item: for cards its `cards` array, for a story the item
      itself. */
  lemma TextlessArrayUsesFirstObject(items: seq<Json>, k: nat, parse: string -> Option<Json>)
    requires k < |items| && ObjectLike(items[k])
    requires forall m :: 0 <= m < |items| ==> FragmentText(items[m]) == ""
    requires forall m :: 0 <= m < k ==> !ObjectLike(items[m])
    ensures CardEntries(JArr(items), parse) == ArrayField(items[k], "cards")
    ensures NormaliseStory(JArr(items), parse) == Some(items[k])
  {
    TextPartsEmptyIff(items);
    var r := FirstObjectLike(items);
    var j :| 0 <= j < |items| && items[j] == r.value && ObjectLike(items[j])
             && forall m :: 0 <= m < j ==> !ObjectLike(items[m]);
    assert j == k;
  }
}
