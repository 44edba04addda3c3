/** The progress snapshot: the event loop that tracks active operations and completed units, and the
    per-stage summary computed from it. */
module Progress {
  import opened Wrappers
  import opened PipelineEvents

  // ----- Reading one event -----

  datatype Lifecycle =
    | Units(completed: int, total: int)
    | Started
    | Waiting
    | Failed
    | Completed(terminal: bool)
    | Ignored

  /** What an event means to the loop: its stage, its lifecycle step, its item and its operation. */
  datatype Change = Change(stage: string, step: Lifecycle, item: Option<string>, operation: string)

  function ReadLifecycle(t: Topology, e: Event, stage: string): Lifecycle {
    var lifecycle :=
      if e.eventType == "progress_event" then e.status
      else if e.eventType == "node_start" then "started" else "completed";
    if lifecycle == "progress" then
      if e.completedUnits.Some? && e.totalUnits.Some? then Units(e.completedUnits.value, e.totalUnits.value)
      else Ignored
    else if lifecycle in ["started", "running", "retrying"] then Started
    else if lifecycle in ["waiting", "waiting_for_user"] then Waiting
    else if lifecycle in ["failed", "error"] then Failed
    else if lifecycle in ["completed", "done"] then
      Completed(stage == "talking_head" || (stage in t.terminalNode && t.terminalNode[stage] == e.node))
    else Ignored
  }

  /** None when the loop skips the event. */
  function Read(t: Topology, e: Event): Option<Change> {
    if e.eventType !in ["node_start", "node_end", "progress_event"] then None
    else
      var stage := Or(e.stageId, Lookup(t.nodeStage, e.node));
      if stage !in t.stageLabels then None
      else
        Some(Change(stage, ReadLifecycle(t, e, stage), Present(e.itemId),
          Or(e.operationId, e.node + ":" + Or(e.itemId, "batch"))))
  }

  // ----- The loop -----

  datatype StageStatus = Pending | Running | Paused | Broken | Done

  datatype Stage = Stage(status: StageStatus, completedUnits: int, failedUnits: nat, totalUnits: int)

  /** The loop's dictionaries: stages, active operations with their stage and item, and the units
      completed in each stage. */
  datatype State = State(
    stages: map<string, Stage>,
    active: map<string, (string, Option<string>)>,
    completed: map<string, set<string>>)

  const BATCH_STAGES := ["production", "talking_head", "product_demo", "qc", "assembly"]

  function Initial(t: Topology, totalItems: int): State {
    State(
      map id | id in t.stageLabels :: Stage(Pending, 0, 0, if id in BATCH_STAGES then totalItems else 1),
      map[],
      map id | id in t.stageLabels :: {})
  }

  predicate SameStages(s: State) {
    s.stages.Keys == s.completed.Keys
  }

  function UnitOf(c: Change): string {
    if c.item.Some? then c.item.value else "batch"
  }

  /** A completion that stands for the whole batch rather than for one unit. */
  predicate WholeBatch(row: Stage, c: Change) {
    c.item.None? && row.totalUnits > 1
  }

  function NextActive(active: map<string, (string, Option<string>)>, c: Change)
    : map<string, (string, Option<string>)>
  {
    match c.step
    case Started => active[c.operation := (c.stage, c.item)]
    case Failed => active - {c.operation}
    case Completed(_) => active - {c.operation}
    case _ => active
  }

  function NextUnits(units: set<string>, row: Stage, c: Change): set<string> {
    if c.step.Completed? && c.step.terminal && !WholeBatch(row, c) then units + {UnitOf(c)} else units
  }

  /** The stage's row after the change, given the units completed by then. */
  function NextRow(row: Stage, c: Change, units: set<string>): Stage {
    match c.step
    case Units(completed, total) =>
      row.(completedUnits := completed, totalUnits := total, status := if completed >= total then Done else Running)
    case Started => row.(status := Running)
    case Waiting => row.(status := Paused)
    case Failed => row.(status := Broken, failedUnits := row.failedUnits + 1)
    case Completed(terminal) =>
      if !terminal then row
      else row.(completedUnits := if WholeBatch(row, c) then row.totalUnits else |units|)
    case Ignored => row
  }

  function Step(s: State, c: Change): (s': State)
    requires SameStages(s) && c.stage in s.stages
    ensures SameStages(s') && s'.stages.Keys == s.stages.Keys
  {
    var row := s.stages[c.stage];
    var units := NextUnits(s.completed[c.stage], row, c);
    State(
      s.stages[c.stage := NextRow(row, c, units)],
      NextActive(s.active, c),
      s.completed[c.stage := units])
  }

  /** The dictionaries hold the stages of the topology. */
  predicate Ready(t: Topology, s: State) {
    SameStages(s) && s.stages.Keys == t.stageLabels.Keys
  }

  function StepEvent(t: Topology, s: State, e: Event): (s': State)
    requires Ready(t, s)
    ensures Ready(t, s')
  {
    match Read(t, e)
    case None => s
    case Some(c) => Step(s, c)
  }

  function Loop(t: Topology, s: State, events: seq<Event>): (s': State)
    requires Ready(t, s)
    ensures Ready(t, s')
  {
    if events == [] then s else StepEvent(t, Loop(t, s, events[..|events| - 1]), events[|events| - 1])
  }

  /** The body of the loop on the three dictionaries. */
  method ApplyChange(c: Change, s: State) returns (s': State)
    requires SameStages(s) && c.stage in s.stages
    ensures s' == Step(s, c)
  {
    var stages, active, completed := s.stages, s.active, s.completed;
    var stage := stages[c.stage];
    match c.step {
      case Units(done, total) =>
        stage := stage.(completedUnits := done, totalUnits := total);
        stage := stage.(status := if done >= total then Done else Running);
      case Started =>
        active := active[c.operation := (c.stage, c.item)];
        stage := stage.(status := Running);
      case Waiting =>
        stage := stage.(status := Paused);
      case Failed =>
        active := active - {c.operation};
        stage := stage.(status := Broken, failedUnits := stage.failedUnits + 1);
      case Completed(terminal) =>
        active := active - {c.operation};
        if terminal {
          if c.item.None? && stage.totalUnits > 1 {
            stage := stage.(completedUnits := stage.totalUnits);
          } else {
            completed := completed[c.stage := completed[c.stage] + {UnitOf(c)}];
            stage := stage.(completedUnits := |completed[c.stage]|);
          }
        }
      case Ignored =>
    }
    s' := State(stages[c.stage := stage], active, completed);
    assert s'.completed == Step(s, c).completed;
  }

  method RunLoop(t: Topology, events: seq<Event>, totalItems: int) returns (s: State)
    ensures s == Loop(t, Initial(t, totalItems), events)
  {
    s := Initial(t, totalItems);
    for i := 0 to |events|
      invariant Ready(t, s) && s == Loop(t, Initial(t, totalItems), events[..i])
    {
      assert events[..i + 1][..i] == events[..i];
      var read := Read(t, events[i]);
      if read.Some? {
        s := ApplyChange(read.value, s);
      }
    }
    assert events[..|events|] == events;
  }

  // ----- The per-stage summary -----

  /** The distinct units active in a stage, an operation without an item standing for itself. */
  function ActiveUnits(s: State, stage: string): set<string> {
    set o | o in s.active && s.active[o].0 == stage ::
      if s.active[o].1.Some? then s.active[o].1.value else o
  }

  /** The stage's status after the loop. */
  function Summarize(s: State, stage: string): StageStatus
    requires stage in s.stages
  {
    var row := s.stages[stage];
    if row.status == Broken then Broken
    else if ActiveUnits(s, stage) != {} then Running
    else if row.completedUnits != 0 && (row.totalUnits in [0, 1] || row.completedUnits >= row.totalUnits) then Done
    else row.status
  }

  // ----- What events say, field by field -----

  /** The event is about the stage: it names it, or names none and its node belongs to it. */
  predicate InStage(t: Topology, e: Event, stage: string) {
    if e.stageId != "" then e.stageId == stage
    else if e.node in t.nodeStage then t.nodeStage[e.node] == stage
    else stage == ""
  }

  predicate Reports(e: Event, status: string) {
    e.eventType == "progress_event" && e.status == status
  }

  predicate Begins(e: Event) {
    e.eventType == "node_start" || Reports(e, "started") || Reports(e, "running") || Reports(e, "retrying")
  }

  predicate Waits(e: Event) {
    Reports(e, "waiting") || Reports(e, "waiting_for_user")
  }

  predicate Fails(e: Event) {
    Reports(e, "failed") || Reports(e, "error")
  }

  predicate Finishes(e: Event) {
    e.eventType == "node_end" || Reports(e, "completed") || Reports(e, "done")
  }

  predicate CountsUnits(e: Event) {
    Reports(e, "progress") && e.completedUnits.Some? && e.totalUnits.Some?
  }

  /** The event's node is the one that completes the stage; for talking heads any node does. */
  predicate AtEnd(t: Topology, e: Event, stage: string) {
    stage == "talking_head" || (stage in t.terminalNode && t.terminalNode[stage] == e.node)
  }

  /** The operation the event belongs to: the one it names, or its node on its item or on the batch. */
  function OperationOf(e: Event): string {
    if e.operationId != "" then e.operationId
    else if e.itemId != "" then e.node + ":" + e.itemId
    else e.node + ":" + "batch"
  }

  /** The events of one stage, by what they say. */
  datatype View = View(
    begins: Event -> bool, waits: Event -> bool, fails: Event -> bool, counts: Event -> bool, completes: Event -> bool)
  {
    function SetsStatus(): Event -> bool {
      (e: Event) => begins(e) || waits(e) || fails(e) || counts(e)
    }

    function SetsCount(): Event -> bool {
      (e: Event) => counts(e) || completes(e)
    }
  }

  function EventsOf(t: Topology, stage: string): View {
    View(
      (e: Event) => InStage(t, e, stage) && Begins(e),
      (e: Event) => InStage(t, e, stage) && Waits(e),
      (e: Event) => InStage(t, e, stage) && Fails(e),
      (e: Event) => InStage(t, e, stage) && CountsUnits(e),
      (e: Event) => InStage(t, e, stage) && Finishes(e) && AtEnd(t, e, stage))
  }

  /** The reader understands the event as the view does. */
  ghost predicate Agrees(t: Topology, stage: string, v: View, e: Event) {
    var c := Read(t, e);
    var here := c.Some? && c.value.stage == stage;
    && v.begins(e) == (here && c.value.step.Started?)
    && v.waits(e) == (here && c.value.step.Waiting?)
    && v.fails(e) == (here && c.value.step.Failed?)
    && v.counts(e) == (here && c.value.step.Units?)
    && v.completes(e) == (here && c.value.step == Completed(true))
    && (v.counts(e) ==> e.completedUnits == Some(c.value.step.completed) && e.totalUnits == Some(c.value.step.total))
    && (here ==> c.value.item == Present(e.itemId))
  }

  lemma LifecycleMeans(t: Topology, e: Event, stage: string)
    requires e.eventType == "node_start" || e.eventType == "node_end" || e.eventType == "progress_event"
    ensures
      var step := ReadLifecycle(t, e, stage);
      && (step.Started? <==> Begins(e)) && (step.Waiting? <==> Waits(e)) && (step.Failed? <==> Fails(e))
      && (step.Units? <==> CountsUnits(e))
      && (step.Units? ==> e.completedUnits == Some(step.completed) && e.totalUnits == Some(step.total))
      && (step.Completed? <==> Finishes(e)) && (step.Completed? ==> step.terminal == AtEnd(t, e, stage))
  {
  }

  lemma StageMeans(t: Topology, e: Event, stage: string)
    ensures InStage(t, e, stage) <==> Or(e.stageId, Lookup(t.nodeStage, e.node)) == stage
  {
  }

  /** Every event is read as its fields say. */
  lemma ReadAsEventsSay(t: Topology, stage: string, e: Event)
    requires stage in t.stageLabels
    ensures Agrees(t, stage, EventsOf(t, stage), e)
  {
    StageMeans(t, e, stage);
    if e.eventType == "node_start" || e.eventType == "node_end" || e.eventType == "progress_event" {
      LifecycleMeans(t, e, stage);
    }
  }

  // ----- A stage's row as a function of the log -----

  /** The position of the last event with the property, if there is one. */
  function LastOf(events: seq<Event>, p: Event -> bool): Option<nat> {
    if events == [] then None
    else if p(events[|events| - 1]) then Some(|events| - 1)
    else LastOf(events[..|events| - 1], p)
  }

  lemma {:induction false} LastOfMeans(events: seq<Event>, p: Event -> bool)
    ensures
      match LastOf(events, p)
      case None => forall j :: 0 <= j < |events| ==> !p(events[j])
      case Some(k) => k < |events| && p(events[k]) && forall j :: k < j < |events| ==> !p(events[j])
  {
    if events != [] { LastOfMeans(events[..|events| - 1], p); }
  }

  lemma {:induction false} LastOfBelow(events: seq<Event>, p: Event -> bool)
    ensures LastOf(events, p).Some? ==> LastOf(events, p).value < |events| && p(events[LastOf(events, p).value])
  {
    if events != [] { LastOfBelow(events[..|events| - 1], p); }
  }

  function CountOf(events: seq<Event>, p: Event -> bool): nat {
    if events == [] then 0
    else CountOf(events[..|events| - 1], p) + if p(events[|events| - 1]) then 1 else 0
  }

  function StatusSet(v: View, e: Event): StageStatus {
    if v.fails(e) then Broken
    else if v.waits(e) then Paused
    else if v.begins(e) then Running
    else if e.completedUnits.Some? && e.totalUnits.Some? && e.completedUnits.value >= e.totalUnits.value then Done
    else Running
  }

  /** The stage's last reported status. */
  function LastStatus(v: View, events: seq<Event>): StageStatus {
    match LastOf(events, v.SetsStatus())
    case None => Pending
    case Some(k) => if k < |events| then StatusSet(v, events[k]) else Pending
  }

  /** The last reported total of the stage, or the one it began with. */
  function LastTotal(v: View, total: int, events: seq<Event>): int {
    match LastOf(events, v.counts)
    case None => total
    case Some(k) => if k < |events| && events[k].totalUnits.Some? then events[k].totalUnits.value else total
  }

  /** The event at position k completes one unit of the stage, not the whole batch. */
  predicate CompletesUnit(v: View, total: int, events: seq<Event>, k: nat)
    requires k < |events|
  {
    v.completes(events[k]) && (events[k].itemId != "" || LastTotal(v, total, events[..k]) <= 1)
  }

  ghost function DistinctUnits(v: View, total: int, events: seq<Event>): set<string> {
    set k: nat | k < |events| && CompletesUnit(v, total, events, k) :: Or(events[k].itemId, "batch")
  }

  /** The completed units, decided by the last event that counts: what it reports, the whole batch it
      completes, or the distinct units completed up to it. */
  ghost function LastCount(v: View, total: int, events: seq<Event>): int {
    match LastOf(events, v.SetsCount())
    case None => 0
    case Some(k) => if k < |events| then CountSet(v, total, events[..k + 1]) else 0
  }

  /** What the last event of the log, which counts, makes of the completed units. */
  ghost function CountSet(v: View, total: int, events: seq<Event>): int
    requires events != []
  {
    var n := |events| - 1;
    if v.counts(events[n]) then if events[n].completedUnits.Some? then events[n].completedUnits.value else 0
    else if CompletesUnit(v, total, events, n) then |DistinctUnits(v, total, events)|
    else LastTotal(v, total, events[..n])
  }

  /** The stage's row and its completed units as functions of the log. */
  ghost predicate Describes(s: State, v: View, total: int, events: seq<Event>, stage: string) {
    && stage in s.stages && stage in s.completed
    && s.stages[stage].status == LastStatus(v, events)
    && s.stages[stage].totalUnits == LastTotal(v, total, events)
    && s.stages[stage].completedUnits == LastCount(v, total, events)
    && s.stages[stage].failedUnits == CountOf(events, v.fails)
    && s.completed[stage] == DistinctUnits(v, total, events)
  }

  lemma LastStatusNext(v: View, events: seq<Event>)
    requires events != []
    ensures
      var n := |events| - 1;
      LastStatus(v, events) ==
        if v.SetsStatus()(events[n]) then StatusSet(v, events[n]) else LastStatus(v, events[..n])
  {
    LastOfBelow(events[..|events| - 1], v.SetsStatus());
  }

  lemma LastTotalNext(v: View, total: int, events: seq<Event>)
    requires events != []
    ensures
      var n := |events| - 1;
      LastTotal(v, total, events) ==
        if !v.counts(events[n]) then LastTotal(v, total, events[..n])
        else if events[n].totalUnits.Some? then events[n].totalUnits.value else total
  {
    LastOfBelow(events[..|events| - 1], v.counts);
  }

  lemma PrefixCompletes(v: View, total: int, events: seq<Event>, n: nat, k: nat)
    requires k < n <= |events|
    ensures CompletesUnit(v, total, events[..n], k) == CompletesUnit(v, total, events, k)
  {
    assert events[..n][..k] == events[..k];
  }

  lemma DistinctUnitsNext(v: View, total: int, events: seq<Event>)
    requires events != []
    ensures
      var n := |events| - 1;
      DistinctUnits(v, total, events) ==
        DistinctUnits(v, total, events[..n])
        + if CompletesUnit(v, total, events, n) then {Or(events[n].itemId, "batch")} else {}
  {
    var n := |events| - 1;
    var before := events[..n];
    forall u | u in DistinctUnits(v, total, before) ensures u in DistinctUnits(v, total, events) {
      var k: nat :| k < n && CompletesUnit(v, total, before, k) && Or(before[k].itemId, "batch") == u;
      PrefixCompletes(v, total, events, n, k);
      assert events[k] == before[k];
    }
    forall u | u in DistinctUnits(v, total, events)
      ensures u in DistinctUnits(v, total, before) || (CompletesUnit(v, total, events, n) && u == Or(events[n].itemId, "batch"))
    {
      var k: nat :| k < |events| && CompletesUnit(v, total, events, k) && Or(events[k].itemId, "batch") == u;
      if k < n {
        PrefixCompletes(v, total, events, n, k);
        assert before[k] == events[k];
      }
    }
  }

  lemma LastCountNext(v: View, total: int, events: seq<Event>)
    requires events != []
    ensures
      var n := |events| - 1;
      LastCount(v, total, events) ==
        if v.SetsCount()(events[n]) then CountSet(v, total, events) else LastCount(v, total, events[..n])
  {
    var n := |events| - 1;
    assert events[..n + 1] == events;
    LastOfBelow(events[..n], v.SetsCount());
    var last := LastOf(events[..n], v.SetsCount());
    if last.Some? { assert events[..n][..last.value + 1] == events[..last.value + 1]; }
  }

  lemma StepStatus(t: Topology, v: View, s: State, events: seq<Event>, stage: string)
    requires events != [] && Ready(t, s) && stage in s.stages && Agrees(t, stage, v, events[|events| - 1])
    requires s.stages[stage].status == LastStatus(v, events[..|events| - 1])
    ensures StepEvent(t, s, events[|events| - 1]).stages[stage].status == LastStatus(v, events)
  {
    LastStatusNext(v, events);
  }

  lemma StepTotal(t: Topology, v: View, s: State, total: int, events: seq<Event>, stage: string)
    requires events != [] && Ready(t, s) && stage in s.stages && Agrees(t, stage, v, events[|events| - 1])
    requires s.stages[stage].totalUnits == LastTotal(v, total, events[..|events| - 1])
    ensures StepEvent(t, s, events[|events| - 1]).stages[stage].totalUnits == LastTotal(v, total, events)
  {
    LastTotalNext(v, total, events);
  }

  lemma StepFailures(t: Topology, v: View, s: State, e: Event, stage: string)
    requires Ready(t, s) && stage in s.stages && Agrees(t, stage, v, e)
    ensures StepEvent(t, s, e).stages[stage].failedUnits == s.stages[stage].failedUnits + if v.fails(e) then 1 else 0
  {
  }

  lemma StepUnits(t: Topology, v: View, s: State, total: int, events: seq<Event>, stage: string)
    requires events != [] && Ready(t, s) && stage in s.stages && Agrees(t, stage, v, events[|events| - 1])
    requires s.completed[stage] == DistinctUnits(v, total, events[..|events| - 1])
    requires s.stages[stage].totalUnits == LastTotal(v, total, events[..|events| - 1])
    ensures StepEvent(t, s, events[|events| - 1]).completed[stage] == DistinctUnits(v, total, events)
  {
    DistinctUnitsNext(v, total, events);
    assert s.completed[stage] + {} == s.completed[stage];
  }

  lemma StepCount(t: Topology, v: View, s: State, total: int, events: seq<Event>, stage: string)
    requires events != [] && Ready(t, s) && Agrees(t, stage, v, events[|events| - 1])
    requires Describes(s, v, total, events[..|events| - 1], stage)
    ensures StepEvent(t, s, events[|events| - 1]).stages[stage].completedUnits == LastCount(v, total, events)
  {
    LastCountNext(v, total, events);
    StepUnits(t, v, s, total, events, stage);
  }

  lemma StepDescribes(t: Topology, v: View, s: State, total: int, events: seq<Event>, stage: string)
    requires events != [] && Ready(t, s) && Agrees(t, stage, v, events[|events| - 1])
    requires Describes(s, v, total, events[..|events| - 1], stage)
    ensures Describes(StepEvent(t, s, events[|events| - 1]), v, total, events, stage)
  {
    StepStatus(t, v, s, events, stage);
    StepTotal(t, v, s, total, events, stage);
    StepFailures(t, v, s, events[|events| - 1], stage);
    StepUnits(t, v, s, total, events, stage);
    StepCount(t, v, s, total, events, stage);
  }

  lemma {:induction false} LoopDescribes(t: Topology, v: View, s: State, events: seq<Event>, stage: string)
    requires Ready(t, s) && stage in s.stages && s.completed[stage] == {}
    requires s.stages[stage] == Stage(Pending, 0, 0, s.stages[stage].totalUnits)
    requires forall e :: Agrees(t, stage, v, e)
    ensures Describes(Loop(t, s, events), v, s.stages[stage].totalUnits, events, stage)
  {
    if events != [] {
      LoopDescribes(t, v, s, events[..|events| - 1], stage);
      StepDescribes(t, v, Loop(t, s, events[..|events| - 1]), s.stages[stage].totalUnits, events, stage);
    }
  }

  /** The total a stage begins with: the size of the batch in the stages that work item by item. */
  function FirstTotal(stage: string, totalItems: int): int {
    if stage == "production" || stage == "talking_head" || stage == "product_demo" || stage == "qc" || stage == "assembly"
    then totalItems else 1
  }

  lemma InitialRow(t: Topology, totalItems: int, stage: string)
    requires stage in t.stageLabels
    ensures Initial(t, totalItems).stages[stage] == Stage(Pending, 0, 0, FirstTotal(stage, totalItems))
  {
  }

  /** For every log, the loop leaves every stage with the last status its events report, the last total
      they report, the count its last counting event decides, and one failed unit for each of its
      failure events. */
  lemma RowIsWhatEventsSay(t: Topology, totalItems: int, events: seq<Event>, stage: string)
    requires stage in t.stageLabels
    ensures Describes(
      Loop(t, Initial(t, totalItems), events), EventsOf(t, stage), FirstTotal(stage, totalItems), events, stage)
  {
    var v := EventsOf(t, stage);
    forall e ensures Agrees(t, stage, v, e) {
      ReadAsEventsSay(t, stage, e);
    }
    InitialRow(t, totalItems, stage);
    LoopDescribes(t, v, Initial(t, totalItems), events, stage);
  }

  // ----- Active operations -----

  /** The events that begin or end an operation, whatever its stage. */
  datatype Work = Work(begins: Event -> bool, ends: Event -> bool) {
    function Touches(operation: string): Event -> bool {
      (e: Event) => (begins(e) || ends(e)) && OperationOf(e) == operation
    }
  }

  predicate Known(t: Topology, e: Event) {
    exists stage :: stage in t.stageLabels && InStage(t, e, stage)
  }

  function WorkOf(t: Topology): Work {
    Work((e: Event) => Known(t, e) && Begins(e), (e: Event) => Known(t, e) && (Finishes(e) || Fails(e)))
  }

  ghost predicate AgreesOnWork(t: Topology, w: Work, e: Event) {
    var c := Read(t, e);
    && w.begins(e) == (c.Some? && c.value.step.Started?)
    && w.ends(e) == (c.Some? && (c.value.step.Failed? || c.value.step.Completed?))
    && (c.Some? ==> c.value.operation == OperationOf(e) && c.value.item == Present(e.itemId) && InStage(t, e, c.value.stage))
  }

  lemma WorkAsEventsSay(t: Topology, e: Event)
    ensures AgreesOnWork(t, WorkOf(t), e)
  {
    var stage := Or(e.stageId, Lookup(t.nodeStage, e.node));
    StageMeans(t, e, stage);
    assert Known(t, e) <==> stage in t.stageLabels;
    if e.eventType == "node_start" || e.eventType == "node_end" || e.eventType == "progress_event" {
      LifecycleMeans(t, e, stage);
    }
  }

  /** The operation is recorded as active, with this stage and item, exactly when its last event begins
      it, and then with the stage and item of that event. */
  ghost predicate Tracks(t: Topology, w: Work, s: State, events: seq<Event>, operation: string) {
    var last := LastOf(events, w.Touches(operation));
    && (operation in s.active <==> last.Some? && last.value < |events| && w.begins(events[last.value]))
    && (operation in s.active ==>
          && InStage(t, events[last.value], s.active[operation].0)
          && s.active[operation].1 == Present(events[last.value].itemId))
  }

  lemma StepTracks(t: Topology, w: Work, s: State, events: seq<Event>, operation: string)
    requires events != [] && Ready(t, s) && AgreesOnWork(t, w, events[|events| - 1])
    requires Tracks(t, w, s, events[..|events| - 1], operation)
    ensures Tracks(t, w, StepEvent(t, s, events[|events| - 1]), events, operation)
  {
    LastOfBelow(events[..|events| - 1], w.Touches(operation));
  }

  lemma {:induction false} LoopTracks(t: Topology, w: Work, s: State, events: seq<Event>, operation: string)
    requires Ready(t, s) && s.active == map[] && forall e :: AgreesOnWork(t, w, e)
    ensures Tracks(t, w, Loop(t, s, events), events, operation)
  {
    if events != [] {
      LoopTracks(t, w, s, events[..|events| - 1], operation);
      StepTracks(t, w, Loop(t, s, events[..|events| - 1]), events, operation);
    }
  }

  /** For every log, an operation is active exactly when the last event that begins or ends it begins
      it, and it is then recorded with that event's stage and item. */
  lemma ActiveIffLastBegins(t: Topology, totalItems: int, events: seq<Event>, operation: string)
    ensures Tracks(t, WorkOf(t), Loop(t, Initial(t, totalItems), events), events, operation)
  {
    forall e ensures AgreesOnWork(t, WorkOf(t), e) {
      WorkAsEventsSay(t, e);
    }
    LoopTracks(t, WorkOf(t), Initial(t, totalItems), events, operation);
  }

  /** The event at position k begins an operation that no later event begins or ends. */
  ghost predicate LeftOpen(w: Work, events: seq<Event>, k: nat) {
    k < |events| && w.begins(events[k])
    && forall j :: k < j < |events| ==> !w.Touches(OperationOf(events[k]))(events[j])
  }

  /** The units of the operations left open in the stage. */
  ghost function OpenUnits(t: Topology, w: Work, events: seq<Event>, stage: string): set<string> {
    set k: nat | k < |events| && LeftOpen(w, events, k) && InStage(t, events[k], stage) :: Or(events[k].itemId, OperationOf(events[k]))
  }

  lemma OpenIsLast(w: Work, events: seq<Event>, k: nat)
    requires k < |events| && w.begins(events[k])
    ensures LeftOpen(w, events, k) <==> LastOf(events, w.Touches(OperationOf(events[k]))) == Some(k)
  {
    LastOfMeans(events, w.Touches(OperationOf(events[k])));
  }

  lemma OneStage(t: Topology, e: Event, stage: string, stage': string)
    requires InStage(t, e, stage) && InStage(t, e, stage')
    ensures stage == stage'
  {
  }

  lemma TrackedUnits(t: Topology, w: Work, s: State, events: seq<Event>, stage: string)
    requires forall o :: Tracks(t, w, s, events, o)
    ensures ActiveUnits(s, stage) == OpenUnits(t, w, events, stage)
  {
    forall u | u in ActiveUnits(s, stage) ensures u in OpenUnits(t, w, events, stage) {
      var o :| o in s.active && s.active[o].0 == stage && u == if s.active[o].1.Some? then s.active[o].1.value else o;
      assert Tracks(t, w, s, events, o);
      LastOfBelow(events, w.Touches(o));
      OpenIsLast(w, events, LastOf(events, w.Touches(o)).value);
    }
    forall u | u in OpenUnits(t, w, events, stage) ensures u in ActiveUnits(s, stage) {
      var k: nat :| k < |events| && LeftOpen(w, events, k) && InStage(t, events[k], stage)
        && u == Or(events[k].itemId, OperationOf(events[k]));
      var o := OperationOf(events[k]);
      assert Tracks(t, w, s, events, o);
      OpenIsLast(w, events, k);
      OneStage(t, events[k], stage, s.active[o].0);
    }
  }

  /** For every log, the active units of a stage are those of the operations left open in it. */
  lemma ActiveUnitsAreOpen(t: Topology, totalItems: int, events: seq<Event>, stage: string)
    ensures ActiveUnits(Loop(t, Initial(t, totalItems), events), stage) == OpenUnits(t, WorkOf(t), events, stage)
  {
    var s := Loop(t, Initial(t, totalItems), events);
    forall o ensures Tracks(t, WorkOf(t), s, events, o) {
      ActiveIffLastBegins(t, totalItems, events, o);
    }
    TrackedUnits(t, WorkOf(t), s, events, stage);
  }

  // ----- The status of a stage as a function of the log -----

  ghost function SummaryOf(v: View, total: int, events: seq<Event>, open: set<string>): StageStatus {
    var units, expected := LastCount(v, total, events), LastTotal(v, total, events);
    if LastStatus(v, events) == Broken then Broken
    else if open != {} then Running
    else if units != 0 && (0 <= expected <= 1 || units >= expected) then Done
    else LastStatus(v, events)
  }

  lemma DescribedSummary(s: State, v: View, total: int, events: seq<Event>, stage: string)
    requires Describes(s, v, total, events, stage)
    ensures Summarize(s, stage) == SummaryOf(v, total, events, ActiveUnits(s, stage))
  {
  }

  /** For every log and stage: failed when the last event that sets its status is a failure, else
      running when an operation is left open in it, else done when the counted units suffice, else
      the last reported status. */
  lemma SummaryIsWhatEventsSay(t: Topology, totalItems: int, events: seq<Event>, stage: string)
    requires stage in t.stageLabels
    ensures Summarize(Loop(t, Initial(t, totalItems), events), stage)
      == SummaryOf(EventsOf(t, stage), FirstTotal(stage, totalItems), events, OpenUnits(t, WorkOf(t), events, stage))
  {
    var s := Loop(t, Initial(t, totalItems), events);
    RowIsWhatEventsSay(t, totalItems, events, stage);
    ActiveUnitsAreOpen(t, totalItems, events, stage);
    DescribedSummary(s, EventsOf(t, stage), FirstTotal(stage, totalItems), events, stage);
  }

  // ----- Stages that complete item by item -----

  /** All completions of the stage name an item, and no event reports units directly. */
  ghost predicate OnlyItems(v: View, events: seq<Event>) {
    forall k :: 0 <= k < |events| ==> !v.counts(events[k]) && (v.completes(events[k]) ==> events[k].itemId != "")
  }

  ghost function CompletedItems(v: View, events: seq<Event>): set<string> {
    set k: nat | k < |events| && v.completes(events[k]) :: events[k].itemId
  }

  lemma ItemsAreUnits(v: View, total: int, events: seq<Event>)
    requires OnlyItems(v, events)
    ensures DistinctUnits(v, total, events) == CompletedItems(v, events)
  {
    forall k: nat | k < |events| ensures CompletesUnit(v, total, events, k) == v.completes(events[k]) {
    }
  }

  lemma OnlyItemsBefore(v: View, events: seq<Event>)
    requires events != [] && OnlyItems(v, events)
    ensures OnlyItems(v, events[..|events| - 1])
  {
    assert forall k :: 0 <= k < |events| - 1 ==> events[..|events| - 1][k] == events[k];
  }

  lemma {:induction false} TotalStays(v: View, total: int, events: seq<Event>)
    requires OnlyItems(v, events)
    ensures LastTotal(v, total, events) == total
  {
    if events != [] {
      OnlyItemsBefore(v, events);
      TotalStays(v, total, events[..|events| - 1]);
      LastTotalNext(v, total, events);
    }
  }

  lemma {:induction false} CountIsUnits(v: View, total: int, events: seq<Event>)
    requires OnlyItems(v, events)
    ensures LastCount(v, total, events) == |DistinctUnits(v, total, events)|
  {
    if events != [] {
      var before := events[..|events| - 1];
      OnlyItemsBefore(v, events);
      CountIsUnits(v, total, before);
      LastCountNext(v, total, events);
      DistinctUnitsNext(v, total, events);
      assert DistinctUnits(v, total, before) + {} == DistinctUnits(v, total, before);
    }
  }

  lemma CountIsItems(v: View, total: int, events: seq<Event>)
    requires OnlyItems(v, events)
    ensures LastCount(v, total, events) == |CompletedItems(v, events)| && LastTotal(v, total, events) == total
  {
    TotalStays(v, total, events);
    CountIsUnits(v, total, events);
    ItemsAreUnits(v, total, events);
  }

  /** In a stage with only item-tagged completions the completed units are the number of distinct
      items completed, so repeated and replayed completions of an item are not counted twice. */
  lemma CompletedUnitsAreDistinctItems(t: Topology, totalItems: int, events: seq<Event>, stage: string)
    requires stage in t.stageLabels && OnlyItems(EventsOf(t, stage), events)
    ensures Loop(t, Initial(t, totalItems), events).stages[stage].completedUnits
      == |CompletedItems(EventsOf(t, stage), events)|
  {
    RowIsWhatEventsSay(t, totalItems, events, stage);
    CountIsItems(EventsOf(t, stage), FirstTotal(stage, totalItems), events);
  }

  lemma {:induction false} NeverReportedDone(v: View, events: seq<Event>)
    requires OnlyItems(v, events)
    ensures LastStatus(v, events) != Done
  {
    LastOfMeans(events, v.SetsStatus());
  }

  /** A stage with only item-tagged completions, whose last status event is no failure and in which
      nothing is left open, is done exactly when at least as many distinct items as it expects have
      completed, and at least one. */
  lemma FinishedStageIsDone(t: Topology, totalItems: int, events: seq<Event>, stage: string)
    requires stage in t.stageLabels && OnlyItems(EventsOf(t, stage), events)
    requires LastStatus(EventsOf(t, stage), events) != Broken && OpenUnits(t, WorkOf(t), events, stage) == {}
    ensures
      var n := |CompletedItems(EventsOf(t, stage), events)|;
      Summarize(Loop(t, Initial(t, totalItems), events), stage) == Done <==> n > 0 && n >= FirstTotal(stage, totalItems)
  {
    SummaryIsWhatEventsSay(t, totalItems, events, stage);
    CountIsItems(EventsOf(t, stage), FirstTotal(stage, totalItems), events);
    NeverReportedDone(EventsOf(t, stage), events);
  }
}
