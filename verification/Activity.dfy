/** The activity timeline: one pass over the event log that renders, deduplicates and keeps order. */
module Activity {
  import opened Wrappers
  import opened PipelineEvents

  /** A stage transition is shown once. */
  datatype Transition = Transition(stage: Option<string>, item: Option<string>, attempt: Option<int>, status: string)

  /** What an event contributes to the timeline, apart from its id. */
  datatype Draft = Draft(
    kind: string,
    status: string,
    labelText: string,
    detail: Option<string>,
    stage: Option<string>,
    item: Option<string>,
    transition: Option<Transition>)

  datatype Entry = Entry(
    eventId: string,
    kind: string,
    status: string,
    labelText: string,
    occurredAt: Option<string>,
    stage: Option<string>,
    item: Option<string>,
    attempt: Option<int>,
    detail: Option<string>)

  // ----- Rendering one event -----

  predicate IsTerminalNode(t: Topology, stage: string, node: string) {
    if stage == "talking_head" then node in t.talkingHeadNodes
    else stage in t.terminalNode && t.terminalNode[stage] == node
  }

  function Suffix(status: string): string {
    if status == "waiting" then "is waiting"
    else if status == "retrying" then "is retrying"
    else status
  }

  function RenderProgress(t: Topology, e: Event): Option<Draft> {
    var status := Or(e.status, "running");
    var item := Present(Or(e.itemId, e.creatorId));
    if status == "progress" then
      if e.completedUnits.None? || e.totalUnits.None? then None
      else
        var completed, total := Decimal(e.completedUnits.value), Decimal(e.totalUnits.value);
        var name := if e.stageId in t.stageLabels then t.stageLabels[e.stageId] else Or(e.stageId, "Stage");
        Some(Draft("stage", status, name + ": " + completed + "/" + total,
          Some(completed + " of " + total + " units completed"), Present(e.stageId), item,
          Some(Transition(Present(e.stageId), item, e.attempt, status + ":" + completed))))
    else if status == "completed" && !IsTerminalNode(t, e.stageId, e.node) then None
    else
      var name := Or(e.stageLabel, Or(Lookup(t.stageLabels, e.stageId), Or(e.stageId, "Stage")));
      Some(Draft("stage", status, name + " " + Suffix(status), None, Present(e.stageId), item,
        Some(Transition(Present(e.stageId), item, e.attempt, status))))
  }

  /** The draft of an event, or None when the timeline skips it outright. */
  function Render(t: Topology, hasProgress: bool, e: Event): Option<Draft> {
    var stage, item := Present(e.stageId), Present(Or(e.itemId, e.creatorId));
    if hasProgress && e.eventType in ["node_start", "node_end", "item_update"] then None
    else if e.eventType == "run_start" then
      Some(Draft("run", "started", "Pipeline started", None, stage, item, None))
    else if e.eventType == "run_queued" then Some(Draft("run", "queued", "Run queued", None, stage, item, None))
    else if e.eventType == "job_started" then
      Some(Draft("run", "started", "Worker started execution", None, stage, item, None))
    else if e.eventType == "job_retry" then
      Some(Draft("run", "retrying", "Worker will retry the run", Present(e.error), stage, item, None))
    else if e.eventType == "progress_event" then RenderProgress(t, e)
    else if e.eventType == "awaiting_concept_edit" then
      Some(Draft("gate", "waiting", "Waiting for script review", None, Some("scripts"), item, None))
    else if e.eventType == "awaiting_approval" then
      Some(Draft("gate", "waiting", "Waiting for creator approval", None, Some("creator_previews"), item, None))
    else if e.eventType == "awaiting_review" then
      Some(Draft("gate", "waiting", "Plano criativo aguardando revisão", None, Some("review"), item, None))
    else if e.eventType == "creator_start" then
      Some(Draft("item", "started", "Creator generation started", None, stage, item, None))
    else if e.eventType == "creator_ready" then
      Some(Draft("item", "completed", "Creator ready", None, stage,
        if e.nestedCreatorId != "" then Some(e.nestedCreatorId) else item, None))
    else if e.eventType == "item_update" then
      Some(Draft("item", "progress", Or(e.labelText, "Clip updated"), None, stage,
        if e.nestedItemId != "" then Some(e.nestedItemId) else item, None))
    else if e.eventType == "run_end" then
      Some(Draft("run", "completed", "Pipeline completed", None, stage, item, None))
    else if e.eventType in ["error", "job_failed"] then
      Some(Draft("error", "failed", "Pipeline stopped with an error", Present(Or(e.message, e.error)), stage, item, None))
    else if e.eventType in ["node_start", "node_end"] then
      var status := if e.eventType == "node_start" then "started" else "completed";
      Some(Draft("stage", status, Or(e.labelText, Or(e.node, "Stage")) + " " + status, None,
        if e.node in t.nodeStage then Some(t.nodeStage[e.node]) else None, item, None))
    else None
  }

  // ----- The pass over the log, for any way of rendering events -----

  type Renderer = Event -> Option<Draft>

  datatype Timeline = Timeline(activity: seq<Entry>, ids: set<string>, transitions: set<Transition>)

  /** The id shown for the event at a position of the log. */
  function IdAt(e: Event, index: nat): string {
    if e.eventId != "" then e.eventId else "event-" + Decimal(index + 1)
  }

  function MakeEntry(e: Event, id: string, d: Draft): Entry {
    Entry(id, d.kind, d.status, d.labelText, e.occurredAt, d.stage, d.item, e.attempt, d.detail)
  }

  function Add(render: Renderer, s: Timeline, e: Event, index: nat): Timeline {
    match render(e)
    case None => s
    case Some(d) =>
      if d.transition.Some? && d.transition.value in s.transitions then s
      else
        var transitions := if d.transition.Some? then s.transitions + {d.transition.value} else s.transitions;
        var id := IdAt(e, index);
        if id in s.ids then s.(transitions := transitions)
        else Timeline(s.activity + [MakeEntry(e, id, d)], s.ids + {id}, transitions)
  }

  const EMPTY := Timeline([], {}, {})

  function Scan(render: Renderer, events: seq<Event>): Timeline {
    if events == [] then EMPTY
    else Add(render, Scan(render, events[..|events| - 1]), events[|events| - 1], |events| - 1)
  }

  predicate HasProgress(events: seq<Event>) {
    exists i :: 0 <= i < |events| && events[i].eventType == "progress_event"
  }

  function RendererFor(t: Topology, events: seq<Event>): Renderer {
    var hasProgress := HasProgress(events);
    e => Render(t, hasProgress, e)
  }

  /** Python's activity[-max(0, limit):]. */
  function Tail(activity: seq<Entry>, limit: int): seq<Entry> {
    var n := if limit > 0 then limit else 0;
    if n == 0 || n >= |activity| then activity else activity[|activity| - n..]
  }

  function Activities(t: Topology, events: seq<Event>, limit: int): seq<Entry> {
    Tail(Scan(RendererFor(t, events), events).activity, limit)
  }

  lemma ScanNext(render: Renderer, events: seq<Event>, index: nat)
    requires index < |events|
    ensures Scan(render, events[..index + 1]) == Add(render, Scan(render, events[..index]), events[index], index)
  {
    assert events[..index + 1][..index] == events[..index];
  }

  /** The loop's body on its three variables, for an event that is rendered. */
  method AddDraft(d: Draft, e: Event, index: nat, s: Timeline) returns (s': Timeline)
    ensures forall render: Renderer :: render(e) == Some(d) ==> s' == Add(render, s, e, index)
  {
    var activity, seenIds, seenTransitions := s.activity, s.ids, s.transitions;
    if d.transition.Some? {
      if d.transition.value in seenTransitions { return s; }
      seenTransitions := seenTransitions + {d.transition.value};
    }
    var id := if e.eventId != "" then e.eventId else "event-" + Decimal(index + 1);
    if id in seenIds { return Timeline(activity, seenIds, seenTransitions); }
    seenIds := seenIds + {id};
    activity := activity + [MakeEntry(e, id, d)];
    return Timeline(activity, seenIds, seenTransitions);
  }

  method BuildActivity(t: Topology, events: seq<Event>, limit: int) returns (result: seq<Entry>)
    ensures result == Activities(t, events, limit)
  {
    var render := RendererFor(t, events);
    var s := EMPTY;
    for index := 0 to |events|
      invariant s == Scan(render, events[..index])
    {
      ScanNext(render, events, index);
      var draft := render(events[index]);
      if draft.None? { continue; }
      s := AddDraft(draft.value, events[index], index, s);
    }
    assert events[..|events|] == events;
    var n := if limit > 0 then limit else 0;
    result := if n == 0 || n >= |s.activity| then s.activity else s.activity[|s.activity| - n..];
  }

  // ----- What the timeline is -----

  /** The event at position i is the first to show its transition. */
  ghost predicate FirstTransition(render: Renderer, events: seq<Event>, i: nat)
    requires i < |events| && render(events[i]).Some?
  {
    var key := render(events[i]).value.transition;
    key.Some? ==>
      forall j :: 0 <= j < i ==> !(render(events[j]).Some? && render(events[j]).value.transition == key)
  }

  /** Whether the event at position i is shown, without reference to the pass: it is rendered, its
      transition is new, and no earlier event that is shown has its id. */
  ghost predicate Shown(render: Renderer, events: seq<Event>, i: nat)
    requires i < |events|
    decreases i
  {
    && render(events[i]).Some? && FirstTransition(render, events, i)
    && forall j: nat :: j < i && Shown(render, events, j) ==> IdAt(events[j], j) != IdAt(events[i], i)
  }

  /** The entries of the shown events, in log order. */
  ghost function ShownEntries(render: Renderer, events: seq<Event>, n: nat): seq<Entry>
    requires n <= |events|
  {
    if n == 0 then []
    else
      ShownEntries(render, events, n - 1)
      + if Shown(render, events, n - 1) then
          [MakeEntry(events[n - 1], IdAt(events[n - 1], n - 1), render(events[n - 1]).value)]
        else []
  }

  /** The event at position j shows this transition. */
  ghost predicate ShowsTransition(render: Renderer, events: seq<Event>, j: nat, key: Transition) {
    j < |events| && render(events[j]).Some? && render(events[j]).value.transition == Some(key)
  }

  /** The event at position j is shown under this id. */
  ghost predicate UsesId(render: Renderer, events: seq<Event>, j: nat, id: string) {
    j < |events| && Shown(render, events, j) && IdAt(events[j], j) == id
  }

  /** After n events the transitions seen are those of the rendered events. */
  ghost predicate TracksTransitions(render: Renderer, events: seq<Event>, n: nat, transitions: set<Transition>) {
    forall key :: key in transitions <==> exists j: nat :: j < n && ShowsTransition(render, events, j, key)
  }

  /** After n events the ids in use are those of the shown events. */
  ghost predicate TracksIds(render: Renderer, events: seq<Event>, n: nat, ids: set<string>) {
    forall id :: id in ids <==> exists j: nat :: j < n && UsesId(render, events, j, id)
  }

  lemma AddTransitions(render: Renderer, events: seq<Event>, n: nat, s: Timeline)
    requires n < |events| && TracksTransitions(render, events, n, s.transitions)
    ensures TracksTransitions(render, events, n + 1, Add(render, s, events[n], n).transitions)
  {
    var transitions := Add(render, s, events[n], n).transitions;
    forall key ensures key in transitions <==> exists j: nat :: j < n + 1 && ShowsTransition(render, events, j, key) {
      assert key in transitions <==> key in s.transitions || ShowsTransition(render, events, n, key);
    }
  }

  lemma ShownIff(render: Renderer, events: seq<Event>, n: nat, s: Timeline)
    requires n < |events| && render(events[n]).Some?
    requires TracksTransitions(render, events, n, s.transitions) && TracksIds(render, events, n, s.ids)
    ensures
      var key := render(events[n]).value.transition;
      Shown(render, events, n) <==> !(key.Some? && key.value in s.transitions) && IdAt(events[n], n) !in s.ids
  {
    var key, id := render(events[n]).value.transition, IdAt(events[n], n);
    assert FirstTransition(render, events, n) <==> !(key.Some? && key.value in s.transitions) by {
      if key.Some? {
        assert forall j: nat :: j < n ==> (ShowsTransition(render, events, j, key.value)
          <==> render(events[j]).Some? && render(events[j]).value.transition == key);
      }
    }
    assert id in s.ids <==> exists j: nat :: j < n && Shown(render, events, j) && IdAt(events[j], j) == id by {
      if id in s.ids {
        var j: nat :| j < n && UsesId(render, events, j, id);
        assert Shown(render, events, j) && IdAt(events[j], j) == id;
      }
      if j: nat :| j < n && Shown(render, events, j) && IdAt(events[j], j) == id {
        assert UsesId(render, events, j, id);
      }
    }
  }

  lemma AddActivity(render: Renderer, events: seq<Event>, n: nat, s: Timeline)
    requires n < |events|
    requires TracksTransitions(render, events, n, s.transitions) && TracksIds(render, events, n, s.ids)
    ensures
      var s' := Add(render, s, events[n], n);
      if Shown(render, events, n) then
        && s'.activity == s.activity + [MakeEntry(events[n], IdAt(events[n], n), render(events[n]).value)]
        && s'.ids == s.ids + {IdAt(events[n], n)}
      else s'.activity == s.activity && s'.ids == s.ids
  {
    if render(events[n]).Some? { ShownIff(render, events, n, s); }
  }

  lemma AddIds(render: Renderer, events: seq<Event>, n: nat, ids: set<string>, ids': set<string>)
    requires n < |events| && TracksIds(render, events, n, ids)
    requires ids' == if Shown(render, events, n) then ids + {IdAt(events[n], n)} else ids
    ensures TracksIds(render, events, n + 1, ids')
  {
    forall id ensures id in ids' <==> exists j: nat :: j < n + 1 && UsesId(render, events, j, id) {
      assert id in ids' <==> id in ids || UsesId(render, events, n, id);
      if id in ids {
        var j: nat :| j < n && UsesId(render, events, j, id);
        assert j < n + 1 && UsesId(render, events, j, id);
      }
      if j: nat :| j < n + 1 && UsesId(render, events, j, id) {
        assert j == n || (j < n && id in ids);
      }
    }
  }

  lemma {:induction false} ScanTracks(render: Renderer, events: seq<Event>, n: nat)
    requires n <= |events|
    ensures TracksTransitions(render, events, n, Scan(render, events[..n]).transitions)
    ensures TracksIds(render, events, n, Scan(render, events[..n]).ids)
    ensures Scan(render, events[..n]).activity == ShownEntries(render, events, n)
  {
    if n > 0 {
      ScanTracks(render, events, n - 1);
      assert events[..n][..n - 1] == events[..n - 1];
      var s := Scan(render, events[..n - 1]);
      AddTransitions(render, events, n - 1, s);
      AddActivity(render, events, n - 1, s);
      AddIds(render, events, n - 1, s.ids, Scan(render, events[..n]).ids);
    }
  }

  // ----- Which events are shown and what is shown of them, field by field -----

  predicate Reports(e: Event, status: string) {
    e.eventType == "progress_event" && e.status == status
  }

  /** Events of the technical stream, superseded by progress events. */
  predicate Technical(e: Event) {
    e.eventType == "node_start" || e.eventType == "node_end" || e.eventType == "item_update"
  }

  predicate OfRun(e: Event) {
    e.eventType == "run_start" || e.eventType == "run_queued" || e.eventType == "job_started"
    || e.eventType == "job_retry" || e.eventType == "run_end"
  }

  predicate OfGate(e: Event) {
    e.eventType == "awaiting_concept_edit" || e.eventType == "awaiting_approval" || e.eventType == "awaiting_review"
  }

  predicate OfError(e: Event) {
    e.eventType == "error" || e.eventType == "job_failed"
  }

  predicate OfItem(e: Event) {
    e.eventType == "creator_start" || e.eventType == "creator_ready" || e.eventType == "item_update"
  }

  predicate OfStage(e: Event) {
    e.eventType == "progress_event" || e.eventType == "node_start" || e.eventType == "node_end"
  }

  /** The event's node is the one that ends its stage. */
  predicate EndsStage(t: Topology, e: Event) {
    if e.stageId == "talking_head" then e.node in t.talkingHeadNodes
    else e.stageId in t.terminalNode && t.terminalNode[e.stageId] == e.node
  }

  /** Never shown: types the timeline does not know, technical events in a log with progress events,
      unit progress without its numbers, and completions before the end of a stage. */
  predicate Hidden(t: Topology, hasProgress: bool, e: Event) {
    || !(OfRun(e) || OfGate(e) || OfError(e) || OfItem(e) || OfStage(e))
    || (hasProgress && Technical(e))
    || (Reports(e, "progress") && (e.completedUnits.None? || e.totalUnits.None?))
    || (Reports(e, "completed") && !EndsStage(t, e))
  }

  function KindOf(e: Event): string {
    if OfRun(e) then "run" else if OfGate(e) then "gate" else if OfError(e) then "error"
    else if OfItem(e) then "item" else "stage"
  }

  function StatusOf(e: Event): string {
    if e.eventType == "progress_event" then Or(e.status, "running")
    else if e.eventType == "run_queued" then "queued"
    else if e.eventType == "job_retry" then "retrying"
    else if e.eventType == "item_update" then "progress"
    else if e.eventType == "creator_ready" || e.eventType == "run_end" || e.eventType == "node_end" then "completed"
    else if OfGate(e) then "waiting" else if OfError(e) then "failed" else "started"
  }

  /** The stage shown: a gate's own, a node's, or the one the event names. */
  function StageOf(t: Topology, e: Event): Option<string> {
    if e.eventType == "awaiting_concept_edit" then Some("scripts")
    else if e.eventType == "awaiting_approval" then Some("creator_previews")
    else if e.eventType == "awaiting_review" then Some("review")
    else if e.eventType == "node_start" || e.eventType == "node_end" then
      if e.node in t.nodeStage then Some(t.nodeStage[e.node]) else None
    else Present(e.stageId)
  }

  /** The item shown: the one inside a creator or item event, or the one the event names. */
  function ItemOf(e: Event): Option<string> {
    var nested :=
      if e.eventType == "creator_ready" then e.nestedCreatorId
      else if e.eventType == "item_update" then e.nestedItemId else "";
    Present(Or(nested, Or(e.itemId, e.creatorId)))
  }

  function DetailOf(e: Event): Option<string> {
    if e.eventType == "job_retry" then Present(e.error)
    else if OfError(e) then Present(Or(e.message, e.error))
    else if Reports(e, "progress") && e.completedUnits.Some? && e.totalUnits.Some? then
      Some(Decimal(e.completedUnits.value) + " of " + Decimal(e.totalUnits.value) + " units completed")
    else None
  }

  /** The words for a status; any other stands for itself. */
  function Wording(status: string): string {
    if status == "waiting" || status == "retrying" then "is " + status else status
  }

  function FixedLabel(eventType: string): string {
    if eventType == "run_start" then "Pipeline started"
    else if eventType == "run_queued" then "Run queued"
    else if eventType == "job_started" then "Worker started execution"
    else if eventType == "job_retry" then "Worker will retry the run"
    else if eventType == "run_end" then "Pipeline completed"
    else if eventType == "awaiting_concept_edit" then "Waiting for script review"
    else if eventType == "awaiting_approval" then "Waiting for creator approval"
    else if eventType == "awaiting_review" then "Plano criativo aguardando revisão"
    else if eventType == "creator_start" then "Creator generation started"
    else if eventType == "creator_ready" then "Creator ready"
    else "Pipeline stopped with an error"
  }

  /** The label: a stage's name with its units or its status, a node's name with its status, an item's
      own label, or a fixed sentence. */
  function LabelOf(t: Topology, e: Event): string {
    if Reports(e, "progress") then
      if e.completedUnits.Some? && e.totalUnits.Some? then
        (if e.stageId in t.stageLabels then t.stageLabels[e.stageId] else Or(e.stageId, "Stage"))
        + ": " + Decimal(e.completedUnits.value) + "/" + Decimal(e.totalUnits.value)
      else ""
    else if e.eventType == "progress_event" then
      Or(e.stageLabel, Or(Lookup(t.stageLabels, e.stageId), Or(e.stageId, "Stage"))) + " " + Wording(StatusOf(e))
    else if e.eventType == "node_start" || e.eventType == "node_end" then
      Or(e.labelText, Or(e.node, "Stage")) + " " + StatusOf(e)
    else if e.eventType == "item_update" then Or(e.labelText, "Clip updated")
    else FixedLabel(e.eventType)
  }

  /** Two progress events show the same transition. */
  predicate SameTransition(e: Event, e': Event) {
    && e.eventType == "progress_event" && e'.eventType == "progress_event"
    && e.stageId == e'.stageId && Or(e.itemId, e.creatorId) == Or(e'.itemId, e'.creatorId)
    && e.attempt == e'.attempt && TransitionText(e) == TransitionText(e')
  }

  /** The status, with the completed units of unit progress. */
  function TransitionText(e: Event): string {
    if e.status == "progress" then
      "progress" + ":" + if e.completedUnits.Some? then Decimal(e.completedUnits.value) else ""
    else Or(e.status, "running")
  }

  lemma HiddenIsNotRendered(t: Topology, hasProgress: bool, e: Event)
    ensures Render(t, hasProgress, e).None? <==> Hidden(t, hasProgress, e)
  {
  }

  lemma RenderedKind(t: Topology, hasProgress: bool, e: Event)
    requires Render(t, hasProgress, e).Some?
    ensures Render(t, hasProgress, e).value.kind == KindOf(e)
  {
  }

  lemma RenderedStatus(t: Topology, hasProgress: bool, e: Event)
    requires Render(t, hasProgress, e).Some?
    ensures Render(t, hasProgress, e).value.status == StatusOf(e)
  {
  }

  lemma RenderedStage(t: Topology, hasProgress: bool, e: Event)
    requires Render(t, hasProgress, e).Some?
    ensures Render(t, hasProgress, e).value.stage == StageOf(t, e)
  {
    if OfRun(e) {
    } else if OfGate(e) {
    } else if OfStage(e) {
    } else if OfItem(e) {
    }
  }

  lemma RenderedItem(t: Topology, hasProgress: bool, e: Event)
    requires Render(t, hasProgress, e).Some?
    ensures Render(t, hasProgress, e).value.item == ItemOf(e)
  {
  }

  lemma RenderedDetail(t: Topology, hasProgress: bool, e: Event)
    requires Render(t, hasProgress, e).Some?
    ensures Render(t, hasProgress, e).value.detail == DetailOf(e)
  {
  }

  lemma RenderedLabel(t: Topology, hasProgress: bool, e: Event)
    requires Render(t, hasProgress, e).Some?
    ensures Render(t, hasProgress, e).value.labelText == LabelOf(t, e)
  {
    if e.eventType == "progress_event" { RenderedProgressLabel(t, e); }
  }

  lemma RenderedProgressLabel(t: Topology, e: Event)
    requires e.eventType == "progress_event" && RenderProgress(t, e).Some?
    ensures RenderProgress(t, e).value.labelText == LabelOf(t, e)
  {
  }

  lemma RenderedTransition(t: Topology, hasProgress: bool, e: Event)
    requires Render(t, hasProgress, e).Some?
    ensures Render(t, hasProgress, e).value.transition ==
      if e.eventType == "progress_event" then
        Some(Transition(Present(e.stageId), Present(Or(e.itemId, e.creatorId)), e.attempt, TransitionText(e)))
      else None
  {
  }

  /** What a viewer of the timeline is told of an event. */
  datatype Facts = Facts(
    kind: string, status: string, labelText: string, stage: Option<string>, item: Option<string>, detail: Option<string>,
    occurredAt: Option<string>, attempt: Option<int>)

  function FactsOf(t: Topology, e: Event): Facts {
    Facts(KindOf(e), StatusOf(e), LabelOf(t, e), StageOf(t, e), ItemOf(e), DetailOf(e), e.occurredAt, e.attempt)
  }

  function EntryFacts(entry: Entry): Facts {
    Facts(entry.kind, entry.status, entry.labelText, entry.stage, entry.item, entry.detail, entry.occurredAt, entry.attempt)
  }

  /** The rules of the timeline for one log. */
  datatype Rules = Rules(hidden: Event -> bool, same: (Event, Event) -> bool, facts: Event -> Facts)

  function RulesFor(t: Topology, hasProgress: bool): Rules {
    Rules((e: Event) => Hidden(t, hasProgress, e), (e: Event, e': Event) => SameTransition(e, e'),
          (e: Event) => FactsOf(t, e))
  }

  /** The renderer follows the rules on an event, and on two. */
  ghost predicate Follows(render: Renderer, rules: Rules, e: Event) {
    && (render(e).None? <==> rules.hidden(e))
    && (render(e).Some? ==> EntryFacts(MakeEntry(e, "", render(e).value)) == rules.facts(e))
  }

  ghost predicate FollowsOnBoth(render: Renderer, rules: Rules, e: Event, e': Event) {
    render(e).Some? && render(e').Some? ==>
      (rules.same(e, e') <==> render(e').value.transition.Some? && render(e).value.transition == render(e').value.transition)
  }

  lemma RenderFollows(t: Topology, hasProgress: bool, e: Event)
    ensures Follows((x: Event) => Render(t, hasProgress, x), RulesFor(t, hasProgress), e)
  {
    HiddenIsNotRendered(t, hasProgress, e);
    if Render(t, hasProgress, e).Some? {
      RenderedKind(t, hasProgress, e);
      RenderedStatus(t, hasProgress, e);
      RenderedStage(t, hasProgress, e);
      RenderedItem(t, hasProgress, e);
      RenderedDetail(t, hasProgress, e);
      RenderedLabel(t, hasProgress, e);
    }
  }

  lemma PresentInjective(a: string, b: string)
    ensures Present(a) == Present(b) <==> a == b
  {
  }

  lemma RenderFollowsOnBoth(t: Topology, hasProgress: bool, e: Event, e': Event)
    ensures FollowsOnBoth((x: Event) => Render(t, hasProgress, x), RulesFor(t, hasProgress), e, e')
  {
    if Render(t, hasProgress, e).Some? && Render(t, hasProgress, e').Some? {
      RenderedTransition(t, hasProgress, e);
      RenderedTransition(t, hasProgress, e');
      PresentInjective(e.stageId, e'.stageId);
      PresentInjective(Or(e.itemId, e.creatorId), Or(e'.itemId, e'.creatorId));
    }
  }

  /** Whether the event at position i is shown: it is not hidden, no earlier event that is not hidden
      shows its transition, and no earlier event that is shown has its id. */
  ghost predicate Visible(rules: Rules, events: seq<Event>, i: nat)
    requires i < |events|
    decreases i
  {
    && !rules.hidden(events[i])
    && (forall j :: 0 <= j < i && !rules.hidden(events[j]) ==> !rules.same(events[j], events[i]))
    && forall j: nat :: j < i && Visible(rules, events, j) ==> IdAt(events[j], j) != IdAt(events[i], i)
  }

  ghost predicate FollowsAll(render: Renderer, rules: Rules) {
    && (forall e :: Follows(render, rules, e))
    && (forall e, e' :: FollowsOnBoth(render, rules, e, e'))
  }

  lemma NewTransition(render: Renderer, rules: Rules, events: seq<Event>, i: nat)
    requires FollowsAll(render, rules) && i < |events| && render(events[i]).Some?
    ensures FirstTransition(render, events, i) <==>
      forall j :: 0 <= j < i && !rules.hidden(events[j]) ==> !rules.same(events[j], events[i])
  {
    forall j | 0 <= j < i
      ensures render(events[j]).Some? <==> !rules.hidden(events[j])
      ensures render(events[j]).Some? ==> (rules.same(events[j], events[i]) <==>
        render(events[i]).value.transition.Some? && render(events[j]).value.transition == render(events[i]).value.transition)
    {
      assert Follows(render, rules, events[j]);
      assert FollowsOnBoth(render, rules, events[j], events[i]);
    }
  }

  lemma {:induction false} VisibleIffShown(render: Renderer, rules: Rules, events: seq<Event>, i: nat)
    requires FollowsAll(render, rules) && i < |events|
    ensures Visible(rules, events, i) <==> Shown(render, events, i)
    decreases i
  {
    forall j: nat | j < i ensures Visible(rules, events, j) <==> Shown(render, events, j) {
      VisibleIffShown(render, rules, events, j);
    }
    assert Follows(render, rules, events[i]);
    if render(events[i]).Some? { NewTransition(render, rules, events, i); }
  }

  /** The positions below n with the property, in order. */
  ghost function Where(p: nat -> bool, n: nat): seq<nat> {
    if n == 0 then [] else Where(p, n - 1) + if p(n - 1) then [n - 1] else []
  }

  lemma {:induction false} WhereMeans(p: nat -> bool, n: nat, k: nat)
    ensures k in Where(p, n) <==> k < n && p(k)
  {
    if n > 0 { WhereMeans(p, n - 1, k); }
  }

  ghost function VisibleAt(rules: Rules, events: seq<Event>): nat -> bool {
    (k: nat) => k < |events| && Visible(rules, events, k)
  }

  /** The positions of the visible events among the first n, in log order. */
  ghost function VisiblePositions(rules: Rules, events: seq<Event>, n: nat): seq<nat> {
    Where(VisibleAt(rules, events), n)
  }

  /** The entries tell of the events at these positions, under their ids. */
  ghost predicate TellsOf(rules: Rules, events: seq<Event>, positions: seq<nat>, entries: seq<Entry>) {
    |entries| == |positions|
    && forall i :: 0 <= i < |entries| ==>
         && positions[i] < |events|
         && EntryFacts(entries[i]) == rules.facts(events[positions[i]])
         && entries[i].eventId ==
              (if events[positions[i]].eventId != "" then events[positions[i]].eventId
               else "event-" + Decimal(positions[i] + 1))
  }

  lemma TellsOfOneMore(rules: Rules, events: seq<Event>, positions: seq<nat>, entries: seq<Entry>, k: nat, entry: Entry)
    requires TellsOf(rules, events, positions, entries) && TellsOf(rules, events, [k], [entry])
    ensures TellsOf(rules, events, positions + [k], entries + [entry])
  {
    var one, many := [k], entries + [entry];
    assert one[0] == k && [entry][0] == entry;
  }

  lemma {:induction false} ShownAreVisible(render: Renderer, rules: Rules, events: seq<Event>, n: nat)
    requires FollowsAll(render, rules) && n <= |events|
    ensures TellsOf(rules, events, VisiblePositions(rules, events, n), ShownEntries(render, events, n))
  {
    if n > 0 {
      var k := n - 1;
      ShownAreVisible(render, rules, events, k);
      VisibleIffShown(render, rules, events, k);
      assert Follows(render, rules, events[k]);
      if Shown(render, events, k) {
        TellsOfOneMore(rules, events, VisiblePositions(rules, events, k), ShownEntries(render, events, k), k,
          MakeEntry(events[k], IdAt(events[k], k), render(events[k]).value));
      }
    }
  }

  /** For every log the timeline tells, in log order, of exactly the visible events: their kind, status,
      label, stage, item, detail, time and attempt as their type and fields prescribe. */
  lemma TimelineTellsOfVisibleEvents(t: Topology, events: seq<Event>)
    ensures
      var rules := RulesFor(t, exists i :: 0 <= i < |events| && events[i].eventType == "progress_event");
      TellsOf(rules, events, VisiblePositions(rules, events, |events|), Scan(RendererFor(t, events), events).activity)
  {
    var hasProgress := HasProgress(events);
    var render, rules := RendererFor(t, events), RulesFor(t, hasProgress);
    forall e ensures Follows(render, rules, e) {
      RenderFollows(t, hasProgress, e);
    }
    forall e, e' ensures FollowsOnBoth(render, rules, e, e') {
      RenderFollowsOnBoth(t, hasProgress, e, e');
    }
    assert events[..|events|] == events;
    ScanTracks(render, events, |events|);
    ShownAreVisible(render, rules, events, |events|);
  }

  lemma PositionsAreVisible(rules: Rules, events: seq<Event>, k: nat)
    ensures k in VisiblePositions(rules, events, |events|) <==> k < |events| && Visible(rules, events, k)
  {
    WhereMeans(VisibleAt(rules, events), |events|, k);
  }

  /** Neither an earlier transition nor an earlier id stands in the way of the event. */
  ghost predicate IsNew(rules: Rules, events: seq<Event>, k: nat)
    requires k < |events|
  {
    && (forall j :: 0 <= j < k && !rules.hidden(events[j]) ==> !rules.same(events[j], events[k]))
    && (forall j: nat :: j < k && Visible(rules, events, j) ==> IdAt(events[j], j) != IdAt(events[k], k))
  }

  lemma ShownWhenNew(rules: Rules, events: seq<Event>, k: nat)
    requires k < |events|
    ensures k in VisiblePositions(rules, events, |events|) <==> !rules.hidden(events[k]) && IsNew(rules, events, k)
  {
    PositionsAreVisible(rules, events, k);
  }

  /** A completion is told of exactly at the end of its stage, when its transition and id are new. */
  lemma CompletionIsShownAtTheEnd(t: Topology, hasProgress: bool, events: seq<Event>, k: nat)
    requires k < |events| && Reports(events[k], "completed")
    ensures
      var rules := RulesFor(t, hasProgress);
      k in VisiblePositions(rules, events, |events|) <==> EndsStage(t, events[k]) && IsNew(rules, events, k)
  {
    ShownWhenNew(RulesFor(t, hasProgress), events, k);
    CompletionHidden(t, hasProgress, events[k]);
  }

  lemma CompletionHidden(t: Topology, hasProgress: bool, e: Event)
    requires Reports(e, "completed")
    ensures Hidden(t, hasProgress, e) <==> !EndsStage(t, e)
  {
  }

  /** Once the log holds a progress event, no technical event is told of. */
  lemma TechnicalEventsGiveWay(t: Topology, events: seq<Event>, k: nat)
    requires k < |events| && Technical(events[k])
    ensures k !in VisiblePositions(RulesFor(t, true), events, |events|)
  {
    ShownWhenNew(RulesFor(t, true), events, k);
  }

  ghost predicate DistinctIds(s: Timeline) {
    && (forall i :: 0 <= i < |s.activity| ==> s.activity[i].eventId in s.ids)
    && (forall i, j :: 0 <= i < j < |s.activity| ==> s.activity[i].eventId != s.activity[j].eventId)
  }

  lemma AddKeepsDistinct(render: Renderer, s: Timeline, e: Event, index: nat)
    requires DistinctIds(s)
    ensures DistinctIds(Add(render, s, e, index))
  {
    var s' := Add(render, s, e, index);
    assert forall i :: 0 <= i < |s.activity| ==> s'.activity[i] == s.activity[i];
  }

  lemma {:induction false} IdsDistinct(render: Renderer, events: seq<Event>)
    ensures DistinctIds(Scan(render, events))
  {
    if events != [] {
      var n := |events| - 1;
      IdsDistinct(render, events[..n]);
      AddKeepsDistinct(render, Scan(render, events[..n]), events[n], n);
    }
  }

  /** Whatever the log and the limit, the result has pairwise distinct ids; it is the newest part of
      the full timeline, and it is cut to the limit exactly when the limit is positive. */
  lemma ResultShape(t: Topology, events: seq<Event>, limit: int)
    ensures
      var full := Scan(RendererFor(t, events), events).activity;
      var result := Activities(t, events, limit);
      && (forall i, j :: 0 <= i < j < |result| ==> result[i].eventId != result[j].eventId)
      && |result| <= |full| && result == full[|full| - |result|..]
      && (limit >= 1 ==> |result| == if |full| <= limit then |full| else limit)
      && (limit <= 0 ==> result == full)
      && (|result| <= (if limit > 0 then limit else 0) <==> limit >= 1 || full == [])
  {
    IdsDistinct(RendererFor(t, events), events);
  }

  // ----- Replay -----

  ghost predicate AllIdentified(events: seq<Event>) {
    forall i :: 0 <= i < |events| ==> events[i].eventId != ""
  }

  /** A log continued from a state; positions no longer matter once every event has an id. */
  function Continue(render: Renderer, s: Timeline, events: seq<Event>): Timeline {
    if events == [] then s else Add(render, Continue(render, s, events[..|events| - 1]), events[|events| - 1], 0)
  }

  lemma {:induction false} ScanContinues(render: Renderer, a: seq<Event>, b: seq<Event>)
    requires AllIdentified(b)
    ensures Scan(render, a + b) == Continue(render, Scan(render, a), b)
  {
    if b == [] {
      assert a + b == a;
    } else {
      var n := |b| - 1;
      assert (a + b)[..|a + b| - 1] == a + b[..n];
      ScanContinues(render, a, b[..n]);
    }
  }

  /** What the state remembers of every event it has processed. */
  ghost predicate Remembers(render: Renderer, s: Timeline, e: Event) {
    render(e).Some? ==>
      var key := render(e).value.transition;
      if key.Some? then key.value in s.transitions else e.eventId in s.ids
  }

  lemma {:induction false} ScanRemembers(render: Renderer, events: seq<Event>, e: Event)
    requires AllIdentified(events) && e in events
    ensures Remembers(render, Scan(render, events), e)
  {
    var n := |events| - 1;
    if e != events[n] {
      assert e in events[..n];
      ScanRemembers(render, events[..n], e);
    }
  }

  lemma {:induction false} ReplayIsAbsorbed(render: Renderer, s: Timeline, replay: seq<Event>)
    requires AllIdentified(replay) && forall e :: e in replay ==> Remembers(render, s, e)
    ensures Continue(render, s, replay) == s
  {
    if replay != [] {
      var n := |replay| - 1;
      ReplayIsAbsorbed(render, s, replay[..n]);
      assert replay[n] in replay;
    }
  }

  lemma SameRenderer(t: Topology, a: seq<Event>, replay: seq<Event>, b: seq<Event>)
    requires forall e :: e in replay ==> e in a
    ensures HasProgress(a + replay + b) == HasProgress(a + b)
  {
    if HasProgress(a + replay + b) {
      var i :| 0 <= i < |a + replay + b| && (a + replay + b)[i].eventType == "progress_event";
      var e := (a + replay + b)[i];
      assert e in a || e in b by {
        if |a| <= i < |a| + |replay| { assert e == replay[i - |a|]; }
        else if i < |a| { assert e == a[i]; } else { assert e == b[i - |a| - |replay|]; }
      }
      assert e in a + b;
    }
    if HasProgress(a + b) {
      var i :| 0 <= i < |a + b| && (a + b)[i].eventType == "progress_event";
      var e := (a + b)[i];
      assert e in a + replay + b by {
        if i < |a| { assert (a + replay + b)[i] == e; } else { assert (a + replay + b)[i + |replay|] == e; }
      }
    }
  }

  /** Replays are invisible: when every event carries an id, inserting any events that already
      occurred, anywhere after they occurred, leaves the timeline unchanged for every limit. */
  lemma ReplaysAreInvisible(t: Topology, a: seq<Event>, replay: seq<Event>, b: seq<Event>, limit: int)
    requires AllIdentified(a) && AllIdentified(b)
    requires forall e :: e in replay ==> e in a
    ensures Activities(t, a + replay + b, limit) == Activities(t, a + b, limit)
  {
    SameRenderer(t, a, replay, b);
    var render := RendererFor(t, a + b);
    assert RendererFor(t, a + replay + b) == render;
    forall i | 0 <= i < |replay| ensures replay[i].eventId != "" {
      assert replay[i] in a;
    }
    ScanContinues(render, a, replay);
    forall e | e in replay ensures Remembers(render, Scan(render, a), e) {
      ScanRemembers(render, a, e);
    }
    ReplayIsAbsorbed(render, Scan(render, a), replay);
    ScanContinues(render, a + replay, b);
    ScanContinues(render, a, b);
  }
}
