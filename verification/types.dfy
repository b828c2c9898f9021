/** The record shapes of the application: one thumbnail slot, the
    browser file it holds, the JSON value an AI response parses to, and
    the report shape the application expects that value to have. */
module Types {
  import opened Wrappers

  /** A browser `File`, of which the model needs only the name and the
      declared MIME type (the empty string when the browser does not know
      it). */
  datatype File = File(name: string, mimeType: string)

  /** One of the five thumbnail positions. `previewUrl` and `base64` both
      hold the data URL produced when the image was read. */
  datatype Slot = Slot(
    id: string,
    file: Option<File>,
    previewUrl: Option<string>,
    base64: Option<string>)

  predicate HasFile(t: Slot) {
    t.file.Some?
  }

  predicate HasBase64(t: Slot) {
    t.base64.Some?
  }

  /** A value `JSON.parse` can return. Numbers are kept as reals; JSON has
      no NaN literal; a numeric literal too large for a double parses to
      an infinity, which a non-zero real stands for here. */
  datatype Json =
    | JNull
    | JBool(b: bool)
    | JNumber(n: real)
    | JString(s: string)
    | JArray(items: seq<Json>)
    | JObject(members: seq<(string, Json)>)

  /** JavaScript falsiness restricted to JSON values: `null`, `false`,
      `0` and the empty string. Arrays and objects, even empty ones, are
      truthy. */
  predicate IsFalsy(j: Json)
    ensures IsFalsy(j) ==> j in {JNull, JBool(false), JNumber(0.0), JString("")}
    ensures j in {JNull, JBool(false), JNumber(0.0), JString("")} ==> IsFalsy(j)
  {
    match j
    case JNull => true
    case JBool(b) => !b
    case JNumber(n) => n == 0.0
    case JString(s) => s == ""
    case JArray(_) => false
    case JObject(_) => false
  }

  /** One entry of `thumbnails` in a report. The declared score range
      0-100 is a comment in the source and is not enforced anywhere. */
  datatype SlotReport = SlotReport(
    slotId: string,
    score: real,
    critique: string,
    pros: seq<string>,
    cons: seq<string>)

  datatype AnalysisResult = AnalysisResult(
    overallWinner: string,
    summary: string,
    thumbnails: seq<SlotReport>)

  function StringsToJson(xs: seq<string>): (j: Json)
    ensures j.JArray? && |j.items| == |xs|
    ensures forall k :: 0 <= k < |xs| ==> j.items[k] == JString(xs[k])
  {
    JArray(seq(|xs|, k requires 0 <= k < |xs| => JString(xs[k])))
  }

  function SlotReportToJson(t: SlotReport): Json {
    JObject([
      ("slotId", JString(t.slotId)),
      ("score", JNumber(t.score)),
      ("critique", JString(t.critique)),
      ("pros", StringsToJson(t.pros)),
      ("cons", StringsToJson(t.cons))])
  }

  /** The JSON text of a report, as a schema-following response carries
      it. Every such value is truthy, whatever the fields hold. */
  function ReportToJson(r: AnalysisResult): (j: Json)
    ensures !IsFalsy(j)
    ensures j.JObject? && |j.members| == 3
    ensures j.members[0] == ("overallWinner", JString(r.overallWinner))
  {
    JObject([
      ("overallWinner", JString(r.overallWinner)),
      ("summary", JString(r.summary)),
      ("thumbnails", JArray(seq(|r.thumbnails|, k requires 0 <= k < |r.thumbnails| =>
        SlotReportToJson(r.thumbnails[k]))))])
  }
}
