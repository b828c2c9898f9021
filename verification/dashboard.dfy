/** The form logic of components/Dashboard.tsx: the five-slot list and
    its upload and remove updates, and `handleAnalyze`, the submit guard
    followed by the idle -> analyzing -> result-or-error sequence.

    React state updates are modelled as a sequence of committed states,
    and the asynchronous service call as a parameter mapping
    (title, niche, slots) to the returned value or the thrown message. */
module Dashboard {
  import opened Wrappers
  import opened Text
  import opened Lists
  import opened Types
  import GeminiService

  const TitleRequired: string := "Please enter a video title."
  const TooFewThumbnails: string := "Please upload at least 2 thumbnails to compare."
  const AnalysisFailed: string := "An error occurred during analysis."

  const SlotIds: seq<string> := ["A", "B", "C", "D", "E"]

  /** The dashboard's state hooks that the analysis logic touches. */
  datatype State = State(
    title: string,
    niche: string,
    thumbnails: seq<Slot>,
    isAnalyzing: bool,
    result: Option<Json>,
    error: Option<string>)

  /** The asynchronous `analyzeThumbnails` as seen by the dashboard. */
  type Service = (string, string, seq<Slot>) -> Result<Json, string>

  /** The arguments of one service call. */
  datatype Call = Call(title: string, niche: string, thumbnails: seq<Slot>)

  /** What one `handleAnalyze` did: the service calls it made and the
      states it committed, in order. */
  datatype Run = Run(calls: seq<Call>, states: seq<State>)

  predicate IsEmptySlot(t: Slot) {
    t.file.None? && t.previewUrl.None? && t.base64.None?
  }

  function EmptySlot(id: string): (t: Slot)
    ensures t.id == id && IsEmptySlot(t)
  {
    Slot(id, None, None, None)
  }

  /** The slot ids, in list order. */
  function Ids(slots: seq<Slot>): (r: seq<string>)
    ensures |r| == |slots|
    ensures forall k :: 0 <= k < |slots| ==> r[k] == slots[k].id
  {
    seq(|slots|, k requires 0 <= k < |slots| => slots[k].id)
  }

  /** The `thumbnails` state's initial value: five empty slots A to E. */
  function InitialThumbnails(): (r: seq<Slot>)
    ensures Ids(r) == SlotIds
    ensures forall k :: 0 <= k < |r| ==> IsEmptySlot(r[k])
  {
    seq(|SlotIds|, k requires 0 <= k < |SlotIds| => EmptySlot(SlotIds[k]))
  }

  /** `slots.map(t => t.id === id ? update(t) : t)` for an update that
      keeps the id. */
  function UpdateWhere(slots: seq<Slot>, id: string, update: Slot -> Slot): (r: seq<Slot>)
    requires forall t :: update(t).id == t.id
    ensures |r| == |slots| && Ids(r) == Ids(slots)
    ensures forall k :: 0 <= k < |slots| && slots[k].id == id ==> r[k] == update(slots[k])
    ensures forall k :: 0 <= k < |slots| && slots[k].id != id ==> r[k] == slots[k]
  {
    seq(|slots|, k requires 0 <= k < |slots| => if slots[k].id == id then update(slots[k]) else slots[k])
  }

  function Uploaded(file: File, data: string): Slot -> Slot {
    (t: Slot) => t.(file := Some(file), previewUrl := Some(data), base64 := Some(data))
  }

  function Cleared(): Slot -> Slot {
    (t: Slot) => t.(file := None, previewUrl := None, base64 := None)
  }

  /** `handleUpload(id, file, base64)`: the slot with that id gets the file,
      and the data URL as both preview and payload; every other slot, the
      length and the ids stay as they were. */
  function Upload(slots: seq<Slot>, id: string, file: File, data: string): (r: seq<Slot>)
    ensures |r| == |slots| && Ids(r) == Ids(slots)
    ensures forall k :: 0 <= k < |slots| && slots[k].id == id ==>
      r[k].file == Some(file) && r[k].previewUrl == Some(data) && r[k].base64 == Some(data)
    ensures forall k :: 0 <= k < |slots| && slots[k].id != id ==> r[k] == slots[k]
  {
    UpdateWhere(slots, id, Uploaded(file, data))
  }

  /** `handleRemove(id)`: the slot with that id is emptied; nothing else
      changes. */
  function Remove(slots: seq<Slot>, id: string): (r: seq<Slot>)
    ensures |r| == |slots| && Ids(r) == Ids(slots)
    ensures forall k :: 0 <= k < |slots| && slots[k].id == id ==> IsEmptySlot(r[k])
    ensures forall k :: 0 <= k < |slots| && slots[k].id != id ==> r[k] == slots[k]
  {
    UpdateWhere(slots, id, Cleared())
  }

  /** An id that names no slot leaves the list unchanged. */
  lemma UnknownIdNoChange(slots: seq<Slot>, id: string, file: File, data: string)
    requires id !in Ids(slots)
    ensures Upload(slots, id, file, data) == slots
    ensures Remove(slots, id) == slots
  {
    assert forall k :: 0 <= k < |slots| ==> slots[k].id != id by {
      forall k | 0 <= k < |slots| ensures slots[k].id != id {
        assert Ids(slots)[k] == slots[k].id;
      }
    }
  }

  /** Removing twice is removing once. */
  lemma RemoveIdempotent(slots: seq<Slot>, id: string)
    ensures Remove(Remove(slots, id), id) == Remove(slots, id)
  {
  }

  /** Removing erases an upload completely: upload then remove is remove. */
  lemma UploadThenRemove(slots: seq<Slot>, id: string, file: File, data: string)
    ensures Remove(Upload(slots, id, file, data), id) == Remove(slots, id)
  {
  }

  /** On the initial list, upload then remove gives back the initial list. */
  lemma UploadThenRemoveRestoresInitial(id: string, file: File, data: string)
    ensures Remove(Upload(InitialThumbnails(), id, file, data), id) == InitialThumbnails()
  {
    UploadThenRemove(InitialThumbnails(), id, file, data);
  }

  /** A user action on the slot list. */
  datatype Action = UploadAction(id: string, file: File, data: string) | RemoveAction(id: string)

  function Step(slots: seq<Slot>, a: Action): seq<Slot> {
    match a
    case UploadAction(id, file, data) => Upload(slots, id, file, data)
    case RemoveAction(id) => Remove(slots, id)
  }

  /** The list after a sequence of actions, applied in order. */
  function Replay(slots: seq<Slot>, actions: seq<Action>): seq<Slot>
    decreases |actions|
  {
    if |actions| == 0 then slots else Replay(Step(slots, actions[0]), actions[1..])
  }

  /** The file, the preview and the payload are present together or absent
      together. */
  predicate Consistent(t: Slot) {
    t.file.Some? == t.previewUrl.Some? == t.base64.Some?
  }

  predicate AllConsistent(slots: seq<Slot>) {
    forall k :: 0 <= k < |slots| ==> Consistent(slots[k])
  }

  /** Every reachable slot list keeps the ids A to E in order and the
      presence invariant in every slot. */
  lemma {:induction false} ReplayKeepsInvariant(slots: seq<Slot>, actions: seq<Action>)
    requires AllConsistent(slots)
    ensures Ids(Replay(slots, actions)) == Ids(slots)
    ensures AllConsistent(Replay(slots, actions))
    decreases |actions|
  {
    if |actions| > 0 {
      var next := Step(slots, actions[0]);
      assert AllConsistent(next);
      ReplayKeepsInvariant(next, actions[1..]);
    }
  }

  lemma ReachableSlots(actions: seq<Action>)
    ensures Ids(Replay(InitialThumbnails(), actions)) == SlotIds
    ensures AllConsistent(Replay(InitialThumbnails(), actions))
  {
    ReplayKeepsInvariant(InitialThumbnails(), actions);
  }

  /** `thumbnails.filter(t => t.file).length`. */
  function UploadedCount(slots: seq<Slot>): (n: nat)
    ensures n <= |slots|
    ensures n == 0 <==> forall k :: 0 <= k < |slots| ==> slots[k].file.None?
  {
    var kept := Filter(slots, HasFile);
    assert kept != [] ==> kept[0].file.Some? && kept[0] in slots;
    |kept|
  }

  /** Under the presence invariant the dashboard's count by file and the
      service's selection by payload pick the same slots. */
  lemma FileCountMatchesActive(slots: seq<Slot>)
    requires AllConsistent(slots)
    ensures Filter(slots, HasFile) == GeminiService.ActiveSlots(slots)
    ensures UploadedCount(slots) == |GeminiService.ActiveSlots(slots)|
  {
    FilterAgree(slots, HasFile, HasBase64);
  }

  /** `e.message || "An error occurred during analysis."`. */
  function ErrorMessage(message: string): (r: string)
    ensures r != ""
    ensures message != "" ==> r == message
    ensures message == "" ==> r == AnalysisFailed
  {
    if message == "" then AnalysisFailed else message
  }

  /** Title, niche and slots are the same in both states. */
  predicate SameForm(a: State, b: State) {
    a.title == b.title && a.niche == b.niche && a.thumbnails == b.thumbnails
  }

  /** The submit guard of `handleAnalyze`: the title check comes first,
      then the count of slots holding a file; `None` lets the submission
      through. */
  function GuardError(st: State): (r: Option<string>)
    ensures Trim(st.title) == "" ==> r == Some(TitleRequired)
    ensures Trim(st.title) != "" && UploadedCount(st.thumbnails) < 2 ==> r == Some(TooFewThumbnails)
    ensures r.None? <==> Trim(st.title) != "" && UploadedCount(st.thumbnails) >= 2
  {
    if Trim(st.title) == "" then Some(TitleRequired)
    else if UploadedCount(st.thumbnails) < 2 then Some(TooFewThumbnails)
    else None
  }

  /** `handleAnalyze`. A failed guard only sets the error. Otherwise the
      analyzing state is entered with error and result cleared, the
      service is called once with the title as typed, and the final state
      holds exactly one of result or error and is no longer analyzing.
      Title, niche and slots never change. */
  function HandleAnalyze(st: State, service: Service): (run: Run)
    ensures 1 <= |run.states| <= 2
    ensures SameForm(st, run.states[0]) && SameForm(st, run.states[|run.states| - 1])
    ensures GuardError(st).Some? ==> run == Run([], [st.(error := GuardError(st))])
    ensures GuardError(st).None? ==>
      && run.calls == [Call(st.title, st.niche, st.thumbnails)]
      && |run.states| == 2
      && run.states[0] == st.(isAnalyzing := true, error := None, result := None)
      && !run.states[1].isAnalyzing
      && (run.states[1].result.Some? != run.states[1].error.Some?)
      && (run.states[1].result.Some? <==> service(st.title, st.niche, st.thumbnails).Ok?)
      && (run.states[1].result.Some? ==>
            run.states[1].result.value == service(st.title, st.niche, st.thumbnails).value)
      && (run.states[1].error.Some? ==>
            run.states[1].error.value == ErrorMessage(service(st.title, st.niche, st.thumbnails).error))
  {
    var guard := GuardError(st);
    if guard.Some? then
      Run([], [st.(error := guard)])
    else
      var analyzing := st.(isAnalyzing := true, error := None, result := None);
      var settled :=
        match service(st.title, st.niche, st.thumbnails)
        case Ok(data) => analyzing.(result := Some(data))
        case Err(message) => analyzing.(error := Some(ErrorMessage(message)));
      Run([Call(st.title, st.niche, st.thumbnails)], [analyzing, settled.(isAnalyzing := false)])
  }

  /** The service as the dashboard calls it, for a fixed key, provider and
      parser. */
  function Wired(apiKey: Option<string>, generate: GeminiService.Provider, parse: GeminiService.Parser): Service {
    (title, niche, thumbnails) =>
      GeminiService.AnalyzeThumbnails(apiKey, title, niche, thumbnails, generate, parse).result
  }

  /** From a slot list satisfying the presence invariant, as every
      reachable one does (`ReachableSlots`), a submission that passes the
      guard always gets past the service's "no thumbnails" check to the
      provider call, and a result it shows is a truthy parsed value. */
  lemma GuardedSubmission(
    st: State, apiKey: Option<string>,
    generate: GeminiService.Provider, parse: GeminiService.Parser)
    requires AllConsistent(st.thumbnails)
    requires Trim(st.title) != "" && UploadedCount(st.thumbnails) >= 2
    requires !GeminiService.KeyMissing(apiKey)
    ensures GeminiService.AnalyzeThumbnails(apiKey, st.title, st.niche, st.thumbnails, generate, parse).request.Some?
    ensures
      var done := HandleAnalyze(st, Wired(apiKey, generate, parse)).states[1];
      done.result.Some? ==> !IsFalsy(done.result.value)
  {
    FileCountMatchesActive(st.thumbnails);
    var active := GeminiService.ActiveSlots(st.thumbnails);
    assert active[0] in st.thumbnails;
    var k :| 0 <= k < |st.thumbnails| && st.thumbnails[k] == active[0];
  }
}
