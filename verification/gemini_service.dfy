/** The analysis request pipeline of services/geminiService.ts: the
    credential check, the choice of active slots, the assembly of the
    multimodal prompt, the cleaning of the response text and the
    pass-through of whatever the response parses to.

    The provider call (`generateContent`) and `JSON.parse` are parameters:
    the first maps the prompt parts to the response text (or to the message
    of the error it throws), the second maps a text to the value it parses
    to (or `None` when it throws). */
module GeminiService {
  import opened Wrappers
  import opened Text
  import opened Lists
  import opened Types

  const ApiKeyMissing: string := "API Key is missing"
  const NoThumbnails: string := "No thumbnails provided"
  const InvalidJson: string := "Invalid JSON response from AI"
  const DefaultNiche: string := "General Content"
  const DefaultMime: string := "image/png"
  const JsonFence: string := "```json"

  /** One element of the `parts` list sent to the provider. */
  datatype Part = TextPart(text: string) | InlineData(mimeType: string, data: string)

  /** The provider: the response's `text` (absent when the response has
      none) or the message of the error the call throws. */
  type Provider = seq<Part> -> Result<Option<string>, string>

  /** `JSON.parse`: the parsed value, or `None` when it throws. */
  type Parser = string -> Option<Json>

  /** What one call of `analyzeThumbnails` did: the parts it sent to the
      provider, if it got that far, and what it returned or threw. */
  datatype Outcome = Outcome(request: Option<seq<Part>>, result: Result<Json, string>)

  // ---------------------------------------------------------------------
  // Response cleaning (parseJSON)
  // ---------------------------------------------------------------------

  /** Every "```json" removed, then every "```", then `trim`. No fence
      survives, even one that the first removal glued together. */
  function Clean(text: string): (r: string)
    ensures !Contains(r, Fence)
  {
    var unfenced := RemoveAll(RemoveAll(text, JsonFence), Fence);
    RemoveFenceLeavesNone(RemoveAll(text, JsonFence));
    TrimKeepsAbsent(unfenced, Fence);
    Trim(unfenced)
  }

  /** Cleaning leaves backtick-free text as `trim` would. */
  lemma CleanTickFree(s: string)
    requires '`' !in s
    ensures Clean(s) == Trim(s)
  {
    RemoveAllKeepsPrefix(s, "", JsonFence);
    RemoveAllKeepsPrefix(s, "", Fence);
    assert s + "" == s;
  }

  /** A response wrapped in a "```json" ... "```" code fence cleans to the
      same text as the bare response. */
  lemma CleanFenced(s: string)
    requires '`' !in s
    ensures Clean(JsonFence + s + Fence) == Trim(s)
    ensures Clean(JsonFence + s + Fence) == Clean(s)
  {
    var wrapped := JsonFence + s + Fence;
    assert OccursAt(wrapped, JsonFence, 0);
    assert wrapped[|JsonFence|..] == s + Fence;
    assert RemoveAll(s + Fence, JsonFence) == s + Fence by {
      RemoveAllKeepsPrefix(s, Fence, JsonFence);
      assert !OccursAt(Fence, JsonFence, 0);
      assert Fence[1..][1..][1..] == "";
      assert RemoveAll(Fence, JsonFence) == Fence;
    }
    assert RemoveAll(s + Fence, Fence) == s by {
      RemoveAllKeepsPrefix(s, Fence, Fence);
      assert OccursAt(Fence, Fence, 0);
      assert s + "" == s;
    }
    CleanTickFree(s);
  }

  /** `parseJSON`: an absent text fails like any other exception inside
      the `try`, and so does a text `JSON.parse` rejects. */
  function ParseJson(text: Option<string>, parse: Parser): (r: Option<Json>)
    ensures text.None? ==> r.None?
    ensures text.Some? ==> r == parse(Clean(text.value))
  {
    match text
    case None => None
    case Some(t) => parse(Clean(t))
  }

  // ---------------------------------------------------------------------
  // Request assembly
  // ---------------------------------------------------------------------

  /** The slots handed to the provider: those whose `base64` is set. */
  function ActiveSlots(thumbnails: seq<Slot>): (r: seq<Slot>)
    ensures forall k :: 0 <= k < |r| ==> r[k].base64.Some? && r[k] in thumbnails
    ensures forall k :: 0 <= k < |thumbnails| && thumbnails[k].base64.Some? ==> thumbnails[k] in r
  {
    Filter(thumbnails, HasBase64)
  }

  /** `base64.split(',')[1]`: the second comma-separated field of the data
      URL, absent when there is no comma. */
  function Payload(base64: string): (r: Option<string>)
    ensures r.Some? <==> ',' in base64
    ensures r.Some? ==> ',' !in r.value
  {
    var fields := Split(base64, ',');
    if |fields| >= 2 then Some(fields[1]) else None
  }

  /** With a comma, the payload is the text between the first comma and
      the next comma or the end. */
  lemma PayloadAfterFirstComma(a: string, b: string)
    requires ',' !in a
    ensures Payload(a + [','] + b) == Some(Before(b, ','))
  {
    SplitAtFirstSeparator(a, b, ',');
    SplitHeadIsBefore(b, ',');
  }

  /** Without a comma there is no payload. */
  lemma PayloadWithoutComma(s: string)
    requires ',' !in s
    ensures Payload(s) == None
  {
  }

  /** The slot contributes an image: its payload is present and non-empty. */
  predicate HasImage(t: Slot)
    ensures HasImage(t) ==> t.base64.Some? && ',' in t.base64.value
    ensures HasImage(t) ==> Payload(t.base64.value).Some? && |Payload(t.base64.value).value| > 0
  {
    t.base64.Some? && Payload(t.base64.value).Some? && Payload(t.base64.value).value != ""
  }

  /** `thumb.file?.type || 'image/png'`. */
  function MimeType(t: Slot): (r: string)
    ensures r != ""
    ensures t.file.Some? && t.file.value.mimeType != "" ==> r == t.file.value.mimeType
    ensures t.file.None? || t.file.value.mimeType == "" ==> r == DefaultMime
  {
    match t.file
    case Some(f) => if f.mimeType != "" then f.mimeType else DefaultMime
    case None => DefaultMime
  }

  function Label(id: string): string {
    "Thumbnail " + id + ":"
  }

  /** `niche || "General Content"`. */
  function NicheLabel(niche: string): string {
    if niche == "" then DefaultNiche else niche
  }

  const ContextLead: string :=
    "You are an expert YouTube Strategist and Graphic Designer. \n    I will provide you "

  const ContextLead2: string := " for a video.\n    \n    Context:\n    - "

  const ContextMiddle: string := "\n    - "

  const ContextTask: string :=
    "\n"
    + "    \n"
    + "    Your task:\n"
    + "    1. Analyze each thumbnail (labeled A, B, C, etc.) based on Click-Through Rate (CTR) potential, legibility, emotional impact, and relevance to the title.\n"
    + "    2. Assign a score from 0-100 for each.\n"
    + "    3. List pros and cons for each.\n"
    + "    4. Select one clear overall winner.\n"
    + "    \n"
    + "    Return the result in strictly valid JSON format matching the schema provided.\n"
    + "    "

  function CountLine(count: nat): string {
    "with " + Decimal(count) + " thumbnail variations"
  }

  function TitleLine(title: string): string {
    "Video Title: \"" + title + "\""
  }

  function NicheLine(niche: string): string {
    "Channel Niche/Topic: \"" + NicheLabel(niche) + "\""
  }

  /** Where the three embedded lines sit in a text glued from seven pieces. */
  lemma PiecesOccur(a: string, x: string, b: string, y: string, c: string, z: string, d: string)
    ensures OccursAt(a + x + b + y + c + z + d, x, |a|)
    ensures OccursAt(a + x + b + y + c + z + d, y, |a + x + b|)
    ensures OccursAt(a + x + b + y + c + z + d, z, |a + x + b + y + c|)
  {
  }

  /** The instruction text opening the prompt. It embeds the number of
      active slots, the title exactly as typed, and the niche or its
      default. */
  function ContextText(count: nat, title: string, niche: string): (r: string)
    ensures Contains(r, CountLine(count))
    ensures Contains(r, TitleLine(title))
    ensures Contains(r, NicheLine(niche))
  {
    PiecesOccur(ContextLead, CountLine(count), ContextLead2, TitleLine(title),
      ContextMiddle, NicheLine(niche), ContextTask);
    ContextLead + CountLine(count) + ContextLead2 + TitleLine(title)
      + ContextMiddle + NicheLine(niche) + ContextTask
  }

  /** What one active slot adds to the prompt: a label and its image when
      the payload is non-empty, nothing otherwise. */
  function SlotParts(t: Slot): (r: seq<Part>)
    ensures |r| == if HasImage(t) then 2 else 0
    ensures HasImage(t) ==>
      && r[0] == TextPart("Thumbnail " + t.id + ":")
      && r[1].InlineData? && r[1].mimeType == MimeType(t) && r[1].data != ""
      && ',' !in r[1].data
  {
    if HasImage(t) then [TextPart(Label(t.id)), InlineData(MimeType(t), Payload(t.base64.value).value)]
    else []
  }

  /** The parts the `forEach` over the active slots appends: for each
      slot with a non-empty payload its label and image, in slot order. */
  function ImageParts(active: seq<Slot>): (r: seq<Part>)
    ensures |r| == 2 * |Filter(active, HasImage)|
    ensures forall k :: 0 <= k < |Filter(active, HasImage)| ==>
      r[2 * k..2 * k + 2] == SlotParts(Filter(active, HasImage)[k])
  {
    assert forall t :: |SlotParts(t)| == if HasImage(t) then 2 else 0;
    FlatMapLength(active, SlotParts, HasImage);
    forall k | 0 <= k < |Filter(active, HasImage)|
      ensures FlatMap(active, SlotParts)[2 * k..2 * k + 2] == SlotParts(Filter(active, HasImage)[k])
    {
      FlatMapPairs(active, SlotParts, HasImage, k);
    }
    FlatMap(active, SlotParts)
  }

  /** The `parts` list: the instruction text, then one label and one image
      per slot with a non-empty payload. */
  function BuildParts(title: string, niche: string, active: seq<Slot>): (r: seq<Part>)
    ensures |r| == 1 + 2 * |Filter(active, HasImage)|
    ensures r[0] == TextPart(ContextText(|active|, title, niche))
    ensures forall k :: 0 <= k < |Filter(active, HasImage)| ==>
      var t := Filter(active, HasImage)[k];
      r[1 + 2 * k] == TextPart(Label(t.id))
      && r[2 + 2 * k] == InlineData(MimeType(t), Payload(t.base64.value).value)
  {
    var r := [TextPart(ContextText(|active|, title, niche))] + ImageParts(active);
    forall k | 0 <= k < |Filter(active, HasImage)|
      ensures var t := Filter(active, HasImage)[k];
        r[1 + 2 * k] == TextPart(Label(t.id))
        && r[2 + 2 * k] == InlineData(MimeType(t), Payload(t.base64.value).value)
    {
      var t := Filter(active, HasImage)[k];
      assert ImageParts(active)[2 * k..2 * k + 2] == SlotParts(t);
      assert r[1 + 2 * k] == ImageParts(active)[2 * k..2 * k + 2][0];
      assert r[2 + 2 * k] == ImageParts(active)[2 * k..2 * k + 2][1];
    }
    r
  }

  // ---------------------------------------------------------------------
  // analyzeThumbnails
  // ---------------------------------------------------------------------

  /** `!apiKey`: the key is undefined or empty. */
  predicate KeyMissing(apiKey: Option<string>)
    ensures KeyMissing(apiKey) <==> apiKey == None || apiKey == Some("")
  {
    apiKey.None? || apiKey.value == ""
  }

  /** `analyzeThumbnails(title, niche, thumbnails)` with the environment's
      key, the provider and the parser made explicit. */
  function AnalyzeThumbnails(
    apiKey: Option<string>, title: string, niche: string, thumbnails: seq<Slot>,
    generate: Provider, parse: Parser): (o: Outcome)
    // the credential is checked first, before slots or the provider
    ensures KeyMissing(apiKey) ==> o == Outcome(None, Err(ApiKeyMissing))
    // then the slots: no slot with base64 means no call at all
    ensures !KeyMissing(apiKey) && (forall k :: 0 <= k < |thumbnails| ==> thumbnails[k].base64.None?)
      ==> o == Outcome(None, Err(NoThumbnails))
    // otherwise exactly one request, carrying the active slots in order
    ensures !KeyMissing(apiKey) && (exists k :: 0 <= k < |thumbnails| && thumbnails[k].base64.Some?)
      ==> o.request == Some(BuildParts(title, niche, ActiveSlots(thumbnails)))
    // a success is the parsed response itself, truthy and unchecked
    ensures o.result.Ok? ==>
      && o.request.Some?
      && generate(o.request.value).Ok?
      && ParseJson(generate(o.request.value).value, parse) == Some(o.result.value)
      && !IsFalsy(o.result.value)
    // and conversely every truthy parsed response is returned unchanged
    ensures o.request.Some? && generate(o.request.value).Ok?
      && ParseJson(generate(o.request.value).value, parse).Some?
      && !IsFalsy(ParseJson(generate(o.request.value).value, parse).value)
      ==> o.result == Ok(ParseJson(generate(o.request.value).value, parse).value)
    // a failure after the call is the provider's own error or the parse error
    ensures o.request.Some? && o.result.Err? ==>
      || generate(o.request.value) == Err(o.result.error)
      || o.result.error == InvalidJson
  {
    if KeyMissing(apiKey) then Outcome(None, Err(ApiKeyMissing))
    else
      var active := ActiveSlots(thumbnails);
      if |active| == 0 then
        assert forall k :: 0 <= k < |thumbnails| ==> thumbnails[k].base64.None?;
        Outcome(None, Err(NoThumbnails))
      else
        var parts := BuildParts(title, niche, active);
        var result :=
          match generate(parts)
          case Err(message) => Err(message)
          case Ok(text) =>
            var parsed := ParseJson(text, parse);
            if parsed.None? || IsFalsy(parsed.value) then Err(InvalidJson) else Ok(parsed.value);
        Outcome(Some(parts), result)
  }

  /** Any truthy value the response parses to is returned as is: an object
      of any keys in any order, an array, a non-empty string, a non-zero
      number or `true`. Nothing checks it against the report shape. */
  lemma ParsedValuePassesThrough(
    apiKey: Option<string>, title: string, niche: string, thumbnails: seq<Slot>,
    generate: Provider, parse: Parser, j: Json)
    requires !KeyMissing(apiKey)
    requires exists k :: 0 <= k < |thumbnails| && thumbnails[k].base64.Some?
    requires !IsFalsy(j)
    requires var parts := BuildParts(title, niche, ActiveSlots(thumbnails));
      generate(parts).Ok? && ParseJson(generate(parts).value, parse) == Some(j)
    ensures AnalyzeThumbnails(apiKey, title, niche, thumbnails, generate, parse).result == Ok(j)
  {
  }

  /** In particular any report the provider sends back is returned as is,
      even one whose winner was never submitted, whose slots differ from
      the request or whose scores lie outside 0-100. */
  lemma ReportPassesThrough(
    apiKey: Option<string>, title: string, niche: string, thumbnails: seq<Slot>,
    generate: Provider, parse: Parser, report: AnalysisResult)
    requires !KeyMissing(apiKey)
    requires exists k :: 0 <= k < |thumbnails| && thumbnails[k].base64.Some?
    requires var parts := BuildParts(title, niche, ActiveSlots(thumbnails));
      generate(parts).Ok? && ParseJson(generate(parts).value, parse) == Some(ReportToJson(report))
    ensures AnalyzeThumbnails(apiKey, title, niche, thumbnails, generate, parse).result
      == Ok(ReportToJson(report))
  {
    ParsedValuePassesThrough(apiKey, title, niche, thumbnails, generate, parse, ReportToJson(report));
  }

  /** The provider's error message reaches the caller unchanged. */
  lemma ProviderErrorRethrown(
    apiKey: Option<string>, title: string, niche: string, thumbnails: seq<Slot>,
    generate: Provider, parse: Parser, message: string)
    requires !KeyMissing(apiKey)
    requires exists k :: 0 <= k < |thumbnails| && thumbnails[k].base64.Some?
    requires generate(BuildParts(title, niche, ActiveSlots(thumbnails))) == Err(message)
    ensures AnalyzeThumbnails(apiKey, title, niche, thumbnails, generate, parse).result == Err(message)
  {
  }

  /** A response without text, a text the parser rejects, or one that
      parses to a falsy value all fail with the same message. */
  lemma UnusableResponseRejected(
    apiKey: Option<string>, title: string, niche: string, thumbnails: seq<Slot>,
    generate: Provider, parse: Parser)
    requires !KeyMissing(apiKey)
    requires exists k :: 0 <= k < |thumbnails| && thumbnails[k].base64.Some?
    requires var parts := BuildParts(title, niche, ActiveSlots(thumbnails));
      && generate(parts).Ok?
      && var parsed := ParseJson(generate(parts).value, parse);
         parsed.None? || IsFalsy(parsed.value)
    ensures AnalyzeThumbnails(apiKey, title, niche, thumbnails, generate, parse).result == Err(InvalidJson)
  {
  }

  /** Fencing the response text in "```json" ... "```" does not change the
      outcome, for response bodies without backticks. */
  lemma FencedResponseSameOutcome(
    apiKey: Option<string>, title: string, niche: string, thumbnails: seq<Slot>,
    body: string, parse: Parser)
    requires '`' !in body
    ensures
      var bare: Provider := parts => Ok(Some(body));
      var fenced: Provider := parts => Ok(Some(JsonFence + body + Fence));
      AnalyzeThumbnails(apiKey, title, niche, thumbnails, fenced, parse)
        == AnalyzeThumbnails(apiKey, title, niche, thumbnails, bare, parse)
  {
    CleanFenced(body);
  }
}
