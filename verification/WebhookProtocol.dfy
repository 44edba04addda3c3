/** Webhook deliveries as processes that interleave with workers: each delivery reads the effect,
    then binds or updates it, then possibly fails it, in three separate transactions. */
module WebhookProtocol {
  import opened Wrappers
  import Text
  import PS = ProviderStatus
  import opened EffectLedger
  import opened EffectRuns

  datatype Event = Event(predictionId: string, status: string)

  datatype DeliveryError = Ledger(error: LedgerError) | PredictionMismatch | MissingPrediction | InvalidStatus

  function Canonical(rawStatus: string): string {
    var lowered := Text.Lower(Text.Strip(rawStatus));
    if lowered == "cancelled" then "canceled" else lowered
  }

  /** The event extracted from an authenticated payload. */
  function ParseEvent(rawId: string, rawStatus: string): Result<Event, DeliveryError> {
    var id, status := Text.Strip(rawId), Canonical(rawStatus);
    if id == "" then Err(MissingPrediction)
    else if status !in ["starting", "processing", "succeeded", "failed", "canceled"] then Err(InvalidStatus)
    else Ok(Event(id, status))
  }

  /** What authenticated events look like. */
  ghost predicate WellFormed(e: Event) {
    && e.predictionId != "" && Text.Trimmed(e.predictionId)
    && exists r: PS.Report :: e.status == r.Name()
  }

  lemma ParsedEventsAreWellFormed(rawId: string, rawStatus: string)
    requires ParseEvent(rawId, rawStatus).Ok?
    ensures WellFormed(ParseEvent(rawId, rawStatus).value)
    ensures PS.Parse(ParseEvent(rawId, rawStatus).value.status).Some?
  {
    Text.StripTrims(rawId);
    var status := ParseEvent(rawId, rawStatus).value.status;
    var r :=
      if status == "starting" then PS.Starting else if status == "processing" then PS.Processing
      else if status == "succeeded" then PS.Succeeded else if status == "failed" then PS.Failed else PS.Canceled;
    assert status == r.Name();
    PS.ParseSpelling(r, status);
  }

  /** The raw status says the report: its spelling, or the other spelling of canceled, in any case. */
  ghost predicate Says(rawStatus: string, r: PS.Report) {
    var said := Text.Lower(Text.Strip(rawStatus));
    said == r.Name() || (said == "cancelled" && r == PS.Canceled)
  }

  /** A payload is accepted exactly when it has a prediction id and says a report, and yields the
      trimmed id and the report's spelling. */
  lemma ParseEventIff(rawId: string, rawStatus: string)
    ensures
      var parsed := ParseEvent(rawId, rawStatus);
      && (parsed.Ok? <==> Text.Strip(rawId) != "" && exists r: PS.Report :: Says(rawStatus, r))
      && (forall r: PS.Report :: parsed.Ok? && Says(rawStatus, r) ==> parsed.value == Event(Text.Strip(rawId), r.Name()))
      && (parsed.Err? ==> parsed.error == if Text.Strip(rawId) == "" then MissingPrediction else InvalidStatus)
  {
    SpellingsFound(rawStatus);
  }

  lemma SpellingsFound(rawStatus: string)
    ensures
      var status := Canonical(rawStatus);
      && (status in ["starting", "processing", "succeeded", "failed", "canceled"] <==> exists r: PS.Report :: Says(rawStatus, r))
      && (forall r: PS.Report :: Says(rawStatus, r) ==> status == r.Name())
  {
    var status := Canonical(rawStatus);
    if status == "starting" { assert Says(rawStatus, PS.Starting); }
    else if status == "processing" { assert Says(rawStatus, PS.Processing); }
    else if status == "succeeded" { assert Says(rawStatus, PS.Succeeded); }
    else if status == "failed" { assert Says(rawStatus, PS.Failed); }
    else if status == "canceled" { assert Says(rawStatus, PS.Canceled); }
    forall r: PS.Report | Says(rawStatus, r) ensures status == r.Name() {
      if Text.Lower(Text.Strip(rawStatus)) == r.Name() { NotCancelled(r); }
    }
  }

  lemma NotCancelled(r: PS.Report)
    ensures r.Name() != "cancelled"
  {
    var other := "cancelled";
    assert |r.Name()| == |other| ==> r.Name()[0] != other[0];
  }

  // ----- One delivery -----

  /** A delivery in progress; the constructor is its program counter. */
  datatype Handler =
    | Fetching(key: string, event: Event)
    | Acting(key: string, event: Event, before: Effect)
    | Failing(key: string, event: Event, after: Effect, changed: bool)
    | Returned(key: string, event: Event, changed: bool)
    | Raised(key: string, event: Event, error: DeliveryError)

  const PREDICTION_ERROR := Some("ReplicatePredictionError")

  function ErrorTypeFor(e: Event): Option<string> {
    if e.status == "failed" || e.status == "canceled" then PREDICTION_ERROR else None
  }

  function Visible(row: Effect): (Status, Option<string>, Option<PS.Report>) {
    (row.status, row.operationId, row.providerStatus)
  }

  predicate Unsuccessful(row: Effect) {
    row.providerStatus.Some? && row.providerStatus.value.Unsuccessful()
  }

  /** The ledger transaction a delivery performs next, if it performs one that may write. */
  function NextOp(h: Handler): Option<Op> {
    match h
    case Acting(key, e, before) =>
      if before.operationId.None? then Some(DoBind(key, e.predictionId, e.status))
      else if before.operationId.value != e.predictionId then None
      else Some(DoUpdateStatus(key, e.status, ErrorTypeFor(e)))
    case Failing(key, e, after, changed) =>
      var reason := if after.providerStatus.Some? then after.providerStatus.value.Name() else "";
      Some(DoMarkFailed(key, "provider_" + reason, false, PREDICTION_ERROR))
    case _ => None
  }

  /** The decision taken on the row a write returned. */
  function Settle(key: string, e: Event, before: Effect, written: Step<Reservation>): Handler {
    match written.reply
    case Err(error) => Raised(key, e, Ledger(error))
    case Ok(reservation) =>
      var after := reservation.row;
      var changed := Visible(before) != Visible(after);
      if Unsuccessful(after) && after.status != Failed then Failing(key, e, after, changed)
      else Returned(key, e, changed)
  }

  /** One transaction of a delivery, with the local decisions that follow it. */
  function Advance(t: Tables, h: Handler): (Tables, Handler) {
    match h
    case Fetching(key, e) =>
      (match Get(t, key).reply
       case Err(error) => (t, Raised(key, e, Ledger(error)))
       case Ok(reservation) => (t, Acting(key, e, reservation.row)))
    case Acting(key, e, before) =>
      if before.operationId.None? then
        var written := BindOperation(t, key, e.predictionId, e.status);
        (written.tables, Settle(key, e, before, written))
      else if before.operationId.value != e.predictionId then (t, Raised(key, e, PredictionMismatch))
      else
        var written := UpdateStatus(t, key, e.status, ErrorTypeFor(e));
        (written.tables, Settle(key, e, before, written))
    case Failing(key, e, after, changed) =>
      var reason := if after.providerStatus.Some? then after.providerStatus.value.Name() else "";
      var written := MarkFailed(t, key, "provider_" + reason, false, PREDICTION_ERROR);
      (written.tables,
       match written.reply
       case Err(error) => Raised(key, e, Ledger(error))
       case Ok(_) => Returned(key, e, true))
    case _ => (t, h)
  }

  lemma AdvanceIsOneOp(t: Tables, h: Handler)
    ensures Advance(t, h).0 == if NextOp(h).Some? then Apply(t, NextOp(h).value) else t
    ensures Advance(t, h).0.quotas == t.quotas
    ensures Advance(t, h).1.key == h.key && Advance(t, h).1.event == h.event
  {
  }

  // ----- Deliveries and workers interleaved -----

  datatype System = System(ledger: Tables, handlers: seq<Handler>)

  /** A worker transaction, the arrival of a delivery, or one transaction of a delivery. */
  datatype Action = Work(op: Op) | Receive(key: string, event: Event) | Proceed(i: nat)

  function Next(s: System, a: Action): System {
    match a
    case Work(op) => s.(ledger := Apply(s.ledger, op))
    case Receive(key, event) => s.(handlers := s.handlers + [Fetching(key, event)])
    case Proceed(i) =>
      if i >= |s.handlers| then s
      else
        var (ledger, h) := Advance(s.ledger, s.handlers[i]);
        System(ledger, s.handlers[i := h])
  }

  function Reach(actions: seq<Action>): System {
    if actions == [] then System(EMPTY, [])
    else Next(Reach(actions[..|actions| - 1]), actions[|actions| - 1])
  }

  /** The ledger operations an action performs. */
  function OpsOf(s: System, a: Action): seq<Op> {
    match a
    case Work(op) => [op]
    case Receive(_, _) => []
    case Proceed(i) =>
      if i < |s.handlers| && NextOp(s.handlers[i]).Some? then [NextOp(s.handlers[i]).value] else []
  }

  function Trace(actions: seq<Action>): seq<Op> {
    if actions == [] then []
    else Trace(actions[..|actions| - 1]) + OpsOf(Reach(actions[..|actions| - 1]), actions[|actions| - 1])
  }

  lemma OneStep(s: System, a: Action)
    ensures OpsOf(s, a) == [] ==> Next(s, a).ledger == s.ledger
    ensures OpsOf(s, a) != [] ==> |OpsOf(s, a)| == 1 && Next(s, a).ledger == Apply(s.ledger, OpsOf(s, a)[0])
  {
    if a.Proceed? && a.i < |s.handlers| { AdvanceIsOneOp(s.ledger, s.handlers[a.i]); }
  }

  /** Any interleaving leaves the ledger as some run of ledger operations does, so everything
      proved about ledger runs holds of it. */
  lemma {:induction false} InterleavingIsLedgerRun(actions: seq<Action>)
    ensures Reach(actions).ledger == After(Trace(actions))
  {
    if actions != [] {
      var before, a := actions[..|actions| - 1], actions[|actions| - 1];
      InterleavingIsLedgerRun(before);
      OneStep(Reach(before), a);
      var ops := OpsOf(Reach(before), a);
      if ops == [] {
        assert Trace(before) + ops == Trace(before);
      } else {
        assert ops == [ops[0]];
        Snoc(Trace(before), ops[0]);
      }
    }
  }

  /** Under any interleaving no table constraint is ever at risk, and quota in use is exactly what the
      rows whose quota was not handed back charge. */
  lemma InterleavedLedgerIsSound(actions: seq<Action>)
    ensures
      var t := Reach(actions).ledger;
      && Constraints(t) && RowsInv(t)
      && forall p :: p in t.quotas ==> t.quotas[p].used == Total(t.effects - Released(Trace(actions)), p)
  {
    InterleavingIsLedgerRun(actions);
    QuotaConserved(Trace(actions));
    RunInvariant(Trace(actions));
  }

  /** No transaction of any delivery changes a quota, in any state. */
  lemma DeliveriesKeepQuotas(s: System, i: nat)
    ensures Next(s, Proceed(i)).ledger.quotas == s.ledger.quotas
  {
    if i < |s.handlers| { AdvanceIsOneOp(s.ledger, s.handlers[i]); }
  }

  /** Between any two moments of any interleaving rows only evolve. */
  lemma {:induction false} RowsEvolveInterleaved(actions: seq<Action>, i: nat, j: nat, key: string)
    requires i <= j <= |actions| && key in Reach(actions[..i]).ledger.effects
    ensures key in Reach(actions[..j]).ledger.effects
    ensures Evolves(Reach(actions[..i]).ledger.effects[key], Reach(actions[..j]).ledger.effects[key])
    decreases j
  {
    if i < j {
      RowsEvolveInterleaved(actions, i, j - 1, key);
      assert actions[..j][..j - 1] == actions[..j - 1];
      StepEvolves(Reach(actions[..j - 1]), actions[j - 1], key);
      EvolvesTransitive(
        Reach(actions[..i]).ledger.effects[key],
        Reach(actions[..j - 1]).ledger.effects[key],
        Reach(actions[..j]).ledger.effects[key]);
    }
  }

  lemma StepEvolves(s: System, a: Action, key: string)
    requires key in s.ledger.effects
    ensures key in Next(s, a).ledger.effects && Evolves(s.ledger.effects[key], Next(s, a).ledger.effects[key])
  {
    OneStep(s, a);
    if OpsOf(s, a) != [] { ApplyEvolves(s.ledger, OpsOf(s, a)[0], key); }
  }

  /** Succeeded and failed are absorbing under any interleaving, results never change, and a row
      holds a result exactly when it succeeded, with the provider status then succeeded too. */
  lemma FinalStatusIsAbsorbing(actions: seq<Action>, i: nat, j: nat, key: string)
    requires i <= j <= |actions| && key in Reach(actions[..i]).ledger.effects
    requires Reach(actions[..i]).ledger.effects[key].status in {Succeeded, Failed}
    ensures key in Reach(actions[..j]).ledger.effects
    ensures
      var early, late := Reach(actions[..i]).ledger.effects[key], Reach(actions[..j]).ledger.effects[key];
      && late.status == early.status && late.result == early.result
      && (late.status == Succeeded <==> late.result.Some?)
      && (late.status == Succeeded ==> late.providerStatus == Some(PS.Succeeded))
  {
    RowsEvolveInterleaved(actions, i, j, key);
    InterleavingIsLedgerRun(actions[..j]);
    RunInvariant(Trace(actions[..j]));
  }

  /** A delivery that decided to fail an effect which meanwhile succeeded or became uncertain
      raises and leaves the ledger as it is. */
  lemma LateFailureRaises(s: System, i: nat)
    requires i < |s.handlers| && s.handlers[i].Failing? && s.handlers[i].key in s.ledger.effects
    requires s.ledger.effects[s.handlers[i].key].status in {Succeeded, Uncertain}
    ensures Next(s, Proceed(i)).ledger == s.ledger
    ensures Next(s, Proceed(i)).handlers[i] == Raised(s.handlers[i].key, s.handlers[i].event, Ledger(UncertainEffect))
  {
  }

  // ----- What a delivery that returned guarantees -----

  /** The row carries the event: it is bound to the prediction, and its provider status is terminal or
      at least as advanced as the report, and terminal if the report was. */
  ghost predicate Carries(row: Effect, e: Event) {
    && row.operationId == Some(Text.Strip(e.predictionId))
    && row.providerStatus.Some? && PS.Parse(e.status).Some?
    && var report := PS.Parse(e.status).value;
       && (row.providerStatus.value.Terminal() || PS.Rank(Some(report)) <= PS.Rank(row.providerStatus))
       && (report.Terminal() ==> row.providerStatus.value.Terminal())
  }

  /** And if the report was unsuccessful, the effect has failed or the provider had succeeded. */
  ghost predicate Acknowledged(row: Effect, e: Event) {
    && Carries(row, e)
    && (EndsBadly(PS.Parse(e.status).value) ==>
          row.status == Failed || row.providerStatus == Some(PS.Succeeded))
  }

  ghost predicate HandlerInv(t: Tables, h: Handler) {
    match h
    case Fetching(_, _) => true
    case Acting(key, e, before) => key in t.effects && RowInv(before) && Evolves(before, t.effects[key])
    case Failing(key, e, after, _) =>
      key in t.effects && Evolves(after, t.effects[key]) && Carries(after, e)
    case Returned(key, e, _) => key in t.effects && Acknowledged(t.effects[key], e)
    case Raised(_, _, _) => true
  }

  ghost predicate HandlersInv(s: System) {
    forall i :: 0 <= i < |s.handlers| ==> HandlerInv(s.ledger, s.handlers[i])
  }

  lemma CarriesStable(a: Effect, b: Effect, e: Event)
    requires Evolves(a, b) && Carries(a, e)
    ensures Carries(b, e)
    ensures Acknowledged(a, e) ==> Acknowledged(b, e)
  {
  }

  lemma HandlerInvStable(s: System, a: Action, h: Handler)
    requires HandlerInv(s.ledger, h)
    ensures HandlerInv(Next(s, a).ledger, h)
  {
    if h.Acting? || h.Failing? || h.Returned? {
      StepEvolves(s, a, h.key);
      var row, row' := s.ledger.effects[h.key], Next(s, a).ledger.effects[h.key];
      match h {
        case Acting(_, _, before) => EvolvesTransitive(before, row, row');
        case Failing(_, _, after, _) => EvolvesTransitive(after, row, row');
        case _ => CarriesStable(row, row', h.event);
      }
    }
  }

  lemma BindCarries(t: Tables, key: string, e: Event)
    requires BindOperation(t, key, e.predictionId, e.status).reply.Ok?
    ensures
      var written := BindOperation(t, key, e.predictionId, e.status);
      && key in written.tables.effects && written.reply.value.row == written.tables.effects[key]
      && Carries(written.tables.effects[key], e)
  {
    PS.MergeAdvances(t.effects[key].providerStatus, PS.Parse(e.status).value);
  }

  lemma UpdateCarries(t: Tables, key: string, e: Event)
    requires UpdateStatus(t, key, e.status, ErrorTypeFor(e)).reply.Ok?
    requires t.effects[key].operationId == Some(e.predictionId) && Text.Trimmed(e.predictionId)
    ensures
      var written := UpdateStatus(t, key, e.status, ErrorTypeFor(e));
      && key in written.tables.effects && written.reply.value.row == written.tables.effects[key]
      && Carries(written.tables.effects[key], e)
  {
    PS.MergeAdvances(t.effects[key].providerStatus, PS.Parse(e.status).value);
    Text.StripFixed(e.predictionId);
  }

  lemma SettleKeepsInv(t: Tables, key: string, e: Event, before: Effect, written: Step<Reservation>)
    requires written.tables == t && written.reply.Ok?
    requires key in t.effects && written.reply.value.row == t.effects[key] && Carries(t.effects[key], e)
    ensures HandlerInv(t, Settle(key, e, before, written))
  {
  }

  lemma ActingKeepsInv(t: Tables, h: Handler)
    requires h.Acting? && HandlerInv(t, h)
    ensures HandlerInv(Advance(t, h).0, Advance(t, h).1)
  {
    var Acting(key, e, before) := h;
    if before.operationId.None? {
      var written := BindOperation(t, key, e.predictionId, e.status);
      if written.reply.Ok? {
        BindCarries(t, key, e);
        SettleKeepsInv(written.tables, key, e, before, written);
      }
    } else if before.operationId.value == e.predictionId {
      var written := UpdateStatus(t, key, e.status, ErrorTypeFor(e));
      if written.reply.Ok? {
        UpdateCarries(t, key, e);
        SettleKeepsInv(written.tables, key, e, before, written);
      }
    }
  }

  lemma FailureAcknowledges(t: Tables, h: Handler)
    requires h.Failing? && HandlerInv(t, h)
    ensures !Advance(t, h).1.Raised? ==>
      h.key in Advance(t, h).0.effects && Acknowledged(Advance(t, h).0.effects[h.key], h.event)
  {
    AdvanceIsOneOp(t, h);
    ApplyEvolves(t, NextOp(h).value, h.key);
    var row, row' := t.effects[h.key], Advance(t, h).0.effects[h.key];
    EvolvesTransitive(h.after, row, row');
    CarriesStable(h.after, row', h.event);
    assert !Advance(t, h).1.Raised? ==> row'.status == Failed;
  }

  lemma AdvanceKeepsInv(t: Tables, h: Handler)
    requires RowsInv(t) && HandlerInv(t, h)
    ensures HandlerInv(Advance(t, h).0, Advance(t, h).1)
  {
    match h {
      case Acting(_, _, _) => ActingKeepsInv(t, h);
      case Failing(_, _, _, _) => FailureAcknowledges(t, h);
      case _ =>
    }
  }

  lemma NextKeepsInv(s: System, a: Action)
    requires RowsInv(s.ledger) && HandlersInv(s)
    ensures HandlersInv(Next(s, a))
  {
    forall i | 0 <= i < |Next(s, a).handlers| ensures HandlerInv(Next(s, a).ledger, Next(s, a).handlers[i]) {
      if i < |s.handlers| {
        HandlerInvStable(s, a, s.handlers[i]);
        if a == Proceed(i) { AdvanceKeepsInv(s.ledger, s.handlers[i]); }
      }
    }
  }

  lemma {:induction false} ReachableHandlersInv(actions: seq<Action>)
    ensures HandlersInv(Reach(actions))
  {
    if actions != [] {
      var before, a := actions[..|actions| - 1], actions[|actions| - 1];
      ReachableHandlersInv(before);
      InterleavingIsLedgerRun(before);
      RunInvariant(Trace(before));
      NextKeepsInv(Reach(before), a);
    }
  }

  /** Under any interleaving, once a delivery has returned its event is never lost again: at every
      later moment the effect is bound to the event's prediction, its provider status is terminal or
      at least as advanced as the report, and an unsuccessful report has failed the effect unless the
      provider reported success. */
  lemma AcknowledgedEventIsKept(actions: seq<Action>, i: nat)
    requires i < |Reach(actions).handlers| && Reach(actions).handlers[i].Returned?
    ensures
      var h := Reach(actions).handlers[i];
      h.key in Reach(actions).ledger.effects && Acknowledged(Reach(actions).ledger.effects[h.key], h.event)
  {
    ReachableHandlersInv(actions);
  }

  // ----- A delivery that runs alone -----

  /** Three transactions always bring a delivery to its end. */
  function Finish(h: Handler): Result<bool, DeliveryError>
    requires h.Returned? || h.Raised?
  {
    if h.Returned? then Ok(h.changed) else Err(h.error)
  }

  /** A delivery run to its end without interference. */
  function Deliver(t: Tables, key: string, event: Event): (Tables, Result<bool, DeliveryError>) {
    var (t1, fetched) := Advance(t, Fetching(key, event));
    var (t2, written) := Advance(t1, fetched);
    var (t3, done) := Advance(t2, written);
    (t3, Finish(done))
  }

  method ApplyReplicateEvent(ledger: PostgresEffectLedger, key: string, event: Event)
    returns (r: Result<bool, DeliveryError>)
    modifies ledger
    ensures (ledger.Rows(), r) == Deliver(old(ledger.Rows()), key, event)
  {
    var fetched := ledger.GetEffect(key);
    if fetched.Err? { return Err(Ledger(fetched.error)); }
    var before := fetched.value.row;
    var written;
    if before.operationId.None? {
      written := ledger.Bind(key, event.predictionId, event.status);
    } else {
      if before.operationId.value != event.predictionId { return Err(PredictionMismatch); }
      written := ledger.ReportStatus(key, event.status, ErrorTypeFor(event));
    }
    if written.Err? { return Err(Ledger(written.error)); }
    var after := written.value.row;
    var changed := Visible(before) != Visible(after);
    if Unsuccessful(after) && after.status != Failed {
      var failed := ledger.Fail(key, "provider_" + after.providerStatus.value.Name(), false, PREDICTION_ERROR);
      if failed.Err? { return Err(Ledger(failed.error)); }
      changed := true;
    }
    return Ok(changed);
  }

  lemma ReachSnoc(actions: seq<Action>, a: Action)
    ensures Reach(actions + [a]) == Next(Reach(actions), a)
  {
    assert (actions + [a])[..|actions|] == actions;
  }

  lemma ProceedAdvances(s: System, i: nat)
    requires i < |s.handlers|
    ensures
      var s', advanced := Next(s, Proceed(i)), Advance(s.ledger, s.handlers[i]);
      |s'.handlers| == |s.handlers| && s'.handlers[i] == advanced.1 && s'.ledger == advanced.0
  {
  }

  lemma OneProceed(actions: seq<Action>, i: nat) returns (actions': seq<Action>)
    requires i < |Reach(actions).handlers|
    ensures
      var s, s' := Reach(actions), Reach(actions');
      var advanced := Advance(s.ledger, s.handlers[i]);
      i < |s'.handlers| && s'.handlers[i] == advanced.1 && s'.ledger == advanced.0
  {
    actions' := actions + [Proceed(i)];
    ReachSnoc(actions, Proceed(i));
    ProceedAdvances(Reach(actions), i);
  }

  lemma OneReceive(actions: seq<Action>, key: string, e: Event) returns (actions': seq<Action>)
    ensures
      var s, s' := Reach(actions), Reach(actions');
      && |s'.handlers| == |s.handlers| + 1 && s'.handlers[|s.handlers|] == Fetching(key, e) && s'.ledger == s.ledger
  {
    actions' := actions + [Receive(key, e)];
    ReachSnoc(actions, Receive(key, e));
  }

  /** A delivery that arrives after any interleaving and is not interrupted ends as a delivery that runs
      alone does. */
  lemma DeliveryRunsAlone(actions: seq<Action>, key: string, e: Event) returns (run: seq<Action>)
    ensures
      var before, after, i := Reach(actions), Reach(run), |Reach(actions).handlers|;
      && i < |after.handlers| && (after.handlers[i].Returned? || after.handlers[i].Raised?)
      && (after.ledger, Finish(after.handlers[i])) == Deliver(before.ledger, key, e)
  {
    var i := |Reach(actions).handlers|;
    var received := OneReceive(actions, key, e);
    var fetched := OneProceed(received, i);
    var written := OneProceed(fetched, i);
    run := OneProceed(written, i);
  }

  /** Exactly when a delivery that runs alone returns. */
  ghost predicate Deliverable(t: Tables, key: string, e: Event) {
    && key in t.effects && PS.Parse(e.status).Some?
    && var row := t.effects[key];
       if row.operationId.None? then
         Text.Strip(e.predictionId) != "" && Free(t, key, Text.Strip(e.predictionId))
       else
         && row.operationId.value == e.predictionId
         && !(row.status == Uncertain && EndsBadly(PS.Merge(row.providerStatus, PS.Parse(e.status).value)))
  }

  /** The provider failed or canceled the operation. */
  ghost predicate EndsBadly(r: PS.Report) {
    r == PS.Failed || r == PS.Canceled
  }

  /** A delivery returns exactly when it is deliverable, and then it reports whether status,
      operation id or provider status changed, touches no quota and no other row. */
  lemma DeliveryReturnsIff(t: Tables, key: string, e: Event)
    requires RowsInv(t)
    ensures Deliver(t, key, e).1.Ok? <==> Deliverable(t, key, e)
    ensures
      var (t', r) := Deliver(t, key, e);
      && t'.quotas == t.quotas && t'.effects.Keys == t.effects.Keys
      && (forall k :: k in t.effects && k != key ==> t'.effects[k] == t.effects[k])
      && (r.Ok? ==>
            var a, b := t.effects[key], t'.effects[key];
            r.value <==> a.status != b.status || a.operationId != b.operationId || a.providerStatus != b.providerStatus)
  {
    if key in t.effects {
      if t.effects[key].operationId.None? { UnboundDelivery(t, key, e); } else { BoundDelivery(t, key, e); }
    }
  }

  /** How a delivery ends once the row was written. */
  function Ending(written: Step<Reservation>, key: string, e: Event, before: Effect)
    : (Tables, Result<bool, DeliveryError>)
  {
    var (t', done) := Advance(written.tables, Settle(key, e, before, written));
    (t', Finish(done))
  }

  lemma UnboundSteps(t: Tables, key: string, e: Event)
    requires key in t.effects && t.effects[key].operationId.None?
    ensures Deliver(t, key, e) == Ending(BindOperation(t, key, e.predictionId, e.status), key, e, t.effects[key])
  {
  }

  lemma BoundSteps(t: Tables, key: string, e: Event)
    requires key in t.effects && t.effects[key].operationId == Some(e.predictionId)
    ensures Deliver(t, key, e) == Ending(UpdateStatus(t, key, e.status, ErrorTypeFor(e)), key, e, t.effects[key])
  {
  }

  /** The end of a delivery whose write left `after` under the key. */
  lemma EndingOf(t: Tables, key: string, e: Event, before: Effect)
    requires key in t.effects && (before.status == Failed ==> t.effects[key].status == Failed)
    ensures
      var after := t.effects[key];
      var (t', r) := Ending(Step(t, Ok(Reservation(key, after, false))), key, e, before);
      && (r.Ok? <==> !(Unsuccessful(after) && after.status in {Uncertain, Succeeded}))
      && key in t'.effects && t' == t.(effects := t.effects[key := t'.effects[key]])
      && t'.effects[key].operationId == after.operationId
      && t'.effects[key].providerStatus == after.providerStatus
      && (r.Err? ==> t' == t && r.error == Ledger(UncertainEffect))
      && (r.Ok? ==>
            && (Unsuccessful(after) ==> t'.effects[key].status == Failed)
            && (r.value <==> Visible(t'.effects[key]) != Visible(before)))
  {
  }

  /** What the row looks like after the write of a delivery. */
  ghost predicate WritesReport(t: Tables, written: Step<Reservation>, key: string, e: Event)
    requires key in t.effects
  {
    && key in written.tables.effects && PS.Parse(e.status).Some?
    && written == Step(written.tables, Ok(Reservation(key, written.tables.effects[key], false)))
    && written.tables == t.(effects := t.effects[key := written.tables.effects[key]])
    && var row, after := t.effects[key], written.tables.effects[key];
       && after.operationId == Some(Text.Strip(e.predictionId))
       && after.providerStatus == Some(PS.Merge(row.providerStatus, PS.Parse(e.status).value))
       && (row.status == Failed ==> after.status == Failed)
       && (row.status == Succeeded <==> after.status == Succeeded)
  }

  /** A succeeded effect keeps its provider status, so its write cannot look unsuccessful. */
  lemma SucceededStaysSuccessful(t: Tables, written: Step<Reservation>, key: string, e: Event)
    requires key in t.effects && RowInv(t.effects[key]) && WritesReport(t, written, key, e)
    requires written.tables.effects[key].status == Succeeded
    ensures !Unsuccessful(written.tables.effects[key])
  {
  }

  /** The row a returned delivery leaves has absorbed the report. */
  lemma AbsorbedReport(t: Tables, written: Step<Reservation>, key: string, e: Event)
    requires key in t.effects && WritesReport(t, written, key, e)
    ensures
      var status := written.tables.effects[key].providerStatus;
      status.Some? && PS.Merge(status, PS.Parse(e.status).value) == status.value
  {
    PS.MergeAdvances(t.effects[key].providerStatus, PS.Parse(e.status).value);
  }

  lemma WrittenDelivery(t: Tables, written: Step<Reservation>, key: string, e: Event)
    requires RowsInv(t) && key in t.effects && WritesReport(t, written, key, e)
    ensures
      var (t', r) := Ending(written, key, e, t.effects[key]);
      && (r.Ok? <==> !(written.tables.effects[key].status == Uncertain && Unsuccessful(written.tables.effects[key])))
      && key in t'.effects && t' == t.(effects := t.effects[key := t'.effects[key]])
      && (r.Ok? ==>
            && Settled(t', key, e)
            && (r.value <==> Visible(t'.effects[key]) != Visible(t.effects[key])))
  {
    AbsorbedReport(t, written, key, e);
    if written.tables.effects[key].status == Succeeded { SucceededStaysSuccessful(t, written, key, e); }
    EndingOf(written.tables, key, e, t.effects[key]);
  }

  lemma UnboundDelivery(t: Tables, key: string, e: Event)
    requires RowsInv(t) && key in t.effects && t.effects[key].operationId.None?
    ensures Deliver(t, key, e).1.Ok? <==> Deliverable(t, key, e)
    ensures
      var (t', r) := Deliver(t, key, e);
      && key in t'.effects && t' == t.(effects := t.effects[key := t'.effects[key]])
      && (r.Ok? ==>
            && Settled(t', key, e)
            && (r.value <==> Visible(t'.effects[key]) != Visible(t.effects[key])))
  {
    UnboundSteps(t, key, e);
    var written := BindOperation(t, key, e.predictionId, e.status);
    if written.reply.Ok? {
      assert WritesReport(t, written, key, e);
      WrittenDelivery(t, written, key, e);
    }
  }

  lemma BoundDelivery(t: Tables, key: string, e: Event)
    requires RowsInv(t) && key in t.effects && t.effects[key].operationId.Some?
    ensures Deliver(t, key, e).1.Ok? <==> Deliverable(t, key, e)
    ensures
      var (t', r) := Deliver(t, key, e);
      && key in t'.effects && t' == t.(effects := t.effects[key := t'.effects[key]])
      && (r.Ok? ==>
            && Settled(t', key, e)
            && (r.value <==> Visible(t'.effects[key]) != Visible(t.effects[key])))
  {
    if t.effects[key].operationId.value == e.predictionId {
      BoundSteps(t, key, e);
      Text.StripFixed(e.predictionId);
      var written := UpdateStatus(t, key, e.status, ErrorTypeFor(e));
      if written.reply.Ok? {
        assert WritesReport(t, written, key, e);
        WrittenDelivery(t, written, key, e);
      }
    }
  }

  // ----- What a delivery writes and raises -----

  /** The row after a write that was not or not yet followed by a failure. */
  ghost predicate WritesRow(before: Effect, row: Effect, e: Event) {
    && PS.Parse(e.status).Some?
    && row == before.(
         operationId := Some(Text.Strip(e.predictionId)),
         providerStatus := Some(PS.Merge(before.providerStatus, PS.Parse(e.status).value)),
         status := if before.operationId.None? && before.status == Uncertain then Reserved else before.status,
         errorType :=
           if before.operationId.Some? && (e.status == "failed" || e.status == "canceled")
           then Some("ReplicatePredictionError") else before.errorType)
  }

  /** The row after a delivery that returned: what the write left, failed with the provider's reason
      when the merged provider status is unsuccessful and the effect had not failed before. */
  ghost predicate DeliversRow(before: Effect, row: Effect, e: Event) {
    exists written: Effect :: WritesRow(before, written, e) && row == Finally(written)
  }

  ghost function Finally(written: Effect): Effect {
    if written.providerStatus.Some? && EndsBadly(written.providerStatus.value) && written.status != Failed then
      written.(
        status := Failed,
        error := Some("provider_" + written.providerStatus.value.Name()),
        errorType := Some("ReplicatePredictionError"))
    else written
  }

  lemma ShortError(r: PS.Report, error: string)
    requires error == "provider_" + r.Name()
    ensures Text.Truncate(error, 2000) == error
  {
    assert |r.Name()| <= 10;
  }

  lemma PredictionErrorFits(row: Effect)
    ensures WithErrorType(row, PREDICTION_ERROR) == row.(errorType := Some("ReplicatePredictionError"))
  {
    assert PREDICTION_ERROR.value != "" && |PREDICTION_ERROR.value| <= 200;
  }

  lemma EndingRow(t: Tables, key: string, e: Event, before: Effect)
    requires key in t.effects
    ensures
      var after := t.effects[key];
      var (t', r) := Ending(Step(t, Ok(Reservation(key, after, false))), key, e, before);
      && key in t'.effects
      && (r.Ok? ==> t'.effects[key] == Finally(after))
  {
    var after := t.effects[key];
    if Unsuccessful(after) && after.status != Failed {
      var error := "provider_" + after.providerStatus.value.Name();
      ShortError(after.providerStatus.value, error);
      PredictionErrorFits(after.(status := Failed, error := Some(error)));
    }
  }

  lemma BindWritesRow(t: Tables, key: string, e: Event)
    requires key in t.effects && t.effects[key].operationId.None?
    requires BindOperation(t, key, e.predictionId, e.status).reply.Ok?
    ensures
      var written := BindOperation(t, key, e.predictionId, e.status);
      && key in written.tables.effects && WritesRow(t.effects[key], written.tables.effects[key], e)
      && written == Step(written.tables, Ok(Reservation(key, written.tables.effects[key], false)))
  {
  }

  lemma UpdateWritesRow(t: Tables, key: string, e: Event)
    requires key in t.effects && t.effects[key].operationId == Some(e.predictionId) && Text.Trimmed(e.predictionId)
    requires UpdateStatus(t, key, e.status, ErrorTypeFor(e)).reply.Ok?
    ensures
      var written := UpdateStatus(t, key, e.status, ErrorTypeFor(e));
      && key in written.tables.effects && WritesRow(t.effects[key], written.tables.effects[key], e)
      && written == Step(written.tables, Ok(Reservation(key, written.tables.effects[key], false)))
  {
    Text.StripFixed(e.predictionId);
    var row := t.effects[key];
    PredictionErrorFits(row.(providerStatus := Some(PS.Merge(row.providerStatus, PS.Parse(e.status).value))));
  }

  /** A delivery that returned leaves exactly this row. */
  lemma DeliveryWrites(t: Tables, key: string, e: Event)
    requires RowsInv(t) && Deliver(t, key, e).1.Ok?
    ensures key in t.effects && key in Deliver(t, key, e).0.effects
    ensures DeliversRow(t.effects[key], Deliver(t, key, e).0.effects[key], e)
  {
    DeliveryReturnsIff(t, key, e);
    var row := t.effects[key];
    if row.operationId.None? {
      UnboundSteps(t, key, e);
      BindWritesRow(t, key, e);
      EndingRow(BindOperation(t, key, e.predictionId, e.status).tables, key, e, row);
    } else {
      BoundSteps(t, key, e);
      UpdateWritesRow(t, key, e);
      EndingRow(UpdateStatus(t, key, e.status, ErrorTypeFor(e)).tables, key, e, row);
    }
  }

  /** What a delivery that did not return raises, and that only the half-applied one wrote anything. */
  lemma DeliveryRaises(t: Tables, key: string, e: Event)
    requires RowsInv(t) && Deliver(t, key, e).1.Err?
    ensures
      var (t', r) := Deliver(t, key, e);
      && (key !in t.effects ==> r.error == Ledger(ValueError))
      && (key in t.effects ==>
            r.error ==
              if t.effects[key].operationId.Some? && t.effects[key].operationId.value != e.predictionId then PredictionMismatch
              else if t.effects[key].operationId.Some? && PS.Parse(e.status).Some? then Ledger(UncertainEffect)
              else Ledger(ValueError))
      && (r.error != Ledger(UncertainEffect) ==> t' == t)
  {
    if key in t.effects {
      DeliveryReturnsIff(t, key, e);
      if t.effects[key].operationId.None? {
        UnboundRaises(t, key, e);
      } else if t.effects[key].operationId.value == e.predictionId {
        BoundRaises(t, key, e);
      }
    }
  }

  lemma UnboundRaises(t: Tables, key: string, e: Event)
    requires key in t.effects && t.effects[key].operationId.None? && !Deliverable(t, key, e)
    ensures Deliver(t, key, e) == (t, Err(Ledger(ValueError)))
  {
    UnboundSteps(t, key, e);
    assert BindOperation(t, key, e.predictionId, e.status) == Step(t, Err(ValueError));
  }

  lemma BoundRaises(t: Tables, key: string, e: Event)
    requires RowsInv(t) && key in t.effects && t.effects[key].operationId == Some(e.predictionId)
    requires !Deliverable(t, key, e)
    ensures PS.Parse(e.status).None? ==> Deliver(t, key, e) == (t, Err(Ledger(ValueError)))
    ensures PS.Parse(e.status).Some? ==> Deliver(t, key, e).1 == Err(Ledger(UncertainEffect))
  {
    BoundSteps(t, key, e);
    if PS.Parse(e.status).Some? {
      UncertainBoundFailureIsHalfApplied(t, key, e);
    } else {
      assert UpdateStatus(t, key, e.status, ErrorTypeFor(e)) == Step(t, Err(ValueError));
    }
  }

  /** An unsuccessful report on an effect that is bound and uncertain is half applied: the provider
      status is stored, then the failure raises and the effect stays uncertain. */
  lemma UncertainBoundFailureIsHalfApplied(t: Tables, key: string, e: Event)
    requires RowsInv(t) && key in t.effects && t.effects[key].operationId == Some(e.predictionId)
    requires t.effects[key].status == Uncertain && PS.Parse(e.status).Some?
    requires EndsBadly(PS.Merge(t.effects[key].providerStatus, PS.Parse(e.status).value))
    ensures
      var (t', r) := Deliver(t, key, e);
      && r == Err(Ledger(UncertainEffect))
      && key in t'.effects && t'.effects[key].status == Uncertain
      && t'.effects[key].operationId == t.effects[key].operationId
      && t'.effects[key].providerStatus == Some(PS.Merge(t.effects[key].providerStatus, PS.Parse(e.status).value))
  {
    BoundSteps(t, key, e);
    EndingOf(UpdateStatus(t, key, e.status, ErrorTypeFor(e)).tables, key, e, t.effects[key]);
  }

  lemma BecomesUncertain(ops: seq<Op>, key: string, error: string) returns (run: seq<Op>)
    requires key in After(ops).effects && After(ops).effects[key].status == Reserved
    ensures Continues(run, ops) && RowsInv(After(run)) && key in After(run).effects
    ensures
      var row := After(run).effects[key];
      row == After(ops).effects[key].(status := Uncertain, error := row.error)
  {
    var op := DoMarkUncertain(key, error, None);
    run := ops + [op];
    Snoc(ops, op);
    RunInvariant(run);
  }

  /** Such effects occur: any run that left an effect reserved and bound continues, with a worker that
      loses track of it, to one in which it is uncertain with the same operation id, and an event
      whose report is then unsuccessful is half applied. */
  lemma HalfAppliedDeliveryHappens(ops: seq<Op>, key: string, error: string, e: Event) returns (run: seq<Op>)
    requires key in After(ops).effects && After(ops).effects[key].status == Reserved
    requires After(ops).effects[key].operationId == Some(e.predictionId) && PS.Parse(e.status).Some?
    requires EndsBadly(PS.Merge(After(ops).effects[key].providerStatus, PS.Parse(e.status).value))
    ensures Continues(run, ops)
    ensures
      var before, (t', r) := After(ops).effects[key], Deliver(After(run), key, e);
      && r == Err(Ledger(UncertainEffect))
      && key in t'.effects && t'.effects[key].status == Uncertain
      && t'.effects[key].operationId == before.operationId
      && t'.effects[key].providerStatus == Some(PS.Merge(before.providerStatus, PS.Parse(e.status).value))
  {
    run := BecomesUncertain(ops, key, error);
    UncertainBoundFailureIsHalfApplied(After(run), key, e);
  }

  /** A reserved and bound effect occurs for every key, provider and operation id. */
  lemma BoundEffectHappens(key: string, runId: string, provider: string, units: int, request: Json,
                           id: string, raw: string) returns (ops: seq<Op>)
    requires units > 0 && id != "" && Text.Trimmed(id) && PS.Parse(raw).Some?
    ensures key in After(ops).effects && After(ops).effects[key].status == Reserved
    ensures After(ops).effects[key].operationId == Some(id) && After(ops).effects[key].providerStatus == PS.Parse(raw)
  {
    Text.StripFixed(id);
    var reserved := ReservedEffectHappens(key, runId, provider, units, request);
    ops := BindReports(reserved, key, id, raw);
  }

  lemma ReservedEffectHappens(key: string, runId: string, provider: string, units: int, request: Json)
      returns (ops: seq<Op>)
    requires units > 0
    ensures After(ops).effects == map[key := Effect(runId, provider, units, request, Reserved, None, None, None, None, None)]
  {
    var limited := [] + [DoSetQuota(provider, units)];
    Snoc([], DoSetQuota(provider, units));
    assert After(limited) == Tables(map[provider := Quota(units, 0)], map[]);
    ops := limited + [DoReserve(key, runId, provider, units, request)];
    Snoc(limited, DoReserve(key, runId, provider, units, request));
  }

  /** If delivering an event returned, delivering it again returns False exactly when its prediction
      id has no surrounding whitespace, as every authenticated event's has; then nothing but the
      stored error type can differ. */
  lemma RedeliveryIsQuiet(t: Tables, key: string, e: Event)
    requires RowsInv(t) && Deliver(t, key, e).1.Ok?
    ensures
      var t1 := Deliver(t, key, e).0;
      var (t2, again) := Deliver(t1, key, e);
      && (again == Ok(false) <==> Text.Trimmed(e.predictionId))
      && (again == Ok(false) ==>
            && t2.quotas == t1.quotas && t2.effects.Keys == t1.effects.Keys
            && (forall k :: k in t1.effects && k != key ==> t2.effects[k] == t1.effects[k])
            && t2.effects[key] == t1.effects[key].(errorType := t2.effects[key].errorType))
  {
    var t1 := Deliver(t, key, e).0;
    DeliveryReturnsIff(t, key, e);
    Text.StripFixed(e.predictionId);
    if t.effects[key].operationId.None? { UnboundDelivery(t, key, e); } else { BoundDelivery(t, key, e); }
    SecondDelivery(t1, key, e);
  }

  /** The same after any interleaving of workers and other deliveries. */
  lemma RedeliveryIsQuietEverywhere(actions: seq<Action>, key: string, e: Event)
    requires Deliver(Reach(actions).ledger, key, e).1.Ok? && WellFormed(e)
    ensures Deliver(Deliver(Reach(actions).ledger, key, e).0, key, e).1 == Ok(false)
  {
    InterleavedLedgerIsSound(actions);
    RedeliveryIsQuiet(Reach(actions).ledger, key, e);
  }

  /** After a delivery that returned, the row is bound, its provider status has absorbed the report,
      and it is not waiting for a failure. */
  ghost predicate Settled(t: Tables, key: string, e: Event) {
    && key in t.effects && PS.Parse(e.status).Some?
    && var row := t.effects[key];
       && row.operationId == Some(Text.Strip(e.predictionId))
       && row.providerStatus.Some?
       && PS.Merge(row.providerStatus, PS.Parse(e.status).value) == row.providerStatus.value
       && (Unsuccessful(row) ==> row.status == Failed)
  }

  lemma SecondDelivery(t: Tables, key: string, e: Event)
    requires Settled(t, key, e)
    ensures
      var (t2, again) := Deliver(t, key, e);
      && (again == Ok(false) <==> Text.Strip(e.predictionId) == e.predictionId)
      && (again == Ok(false) ==>
            && t2.quotas == t.quotas && t2.effects.Keys == t.effects.Keys
            && (forall k :: k in t.effects && k != key ==> t2.effects[k] == t.effects[k])
            && t2.effects[key] == t.effects[key].(errorType := t2.effects[key].errorType))
  {
  }
}
