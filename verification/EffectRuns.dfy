/** Every finite run of ledger operations: what each row keeps, how quota is conserved,
    and how often a key can be created, released or change provider status. */
module EffectRuns {
  import opened Wrappers
  import Text
  import PS = ProviderStatus
  import opened EffectLedger

  datatype Op =
    | DoSetQuota(provider: string, limit: int)
    | DoReserve(key: string, runId: string, provider: string, units: int, request: Json)
    | DoMarkUncertain(key: string, error: string, errorType: Option<string>)
    | DoBind(key: string, rawId: string, rawStatus: string)
    | DoUpdateStatus(key: string, rawStatus: string, errorType: Option<string>)
    | DoMarkSucceeded(key: string, result: Json)
    | DoMarkFailed(key: string, error: string, release: bool, errorType: Option<string>)
    | DoMarkReconciled(key: string, result: Json)

  function Apply(t: Tables, op: Op): Tables {
    match op
    case DoSetQuota(provider, limit) => SetQuota(t, provider, limit).tables
    case DoReserve(key, runId, provider, units, request) => Reserve(t, key, runId, provider, units, request).tables
    case DoMarkUncertain(key, error, errorType) => MarkUncertain(t, key, error, errorType).tables
    case DoBind(key, rawId, rawStatus) => BindOperation(t, key, rawId, rawStatus).tables
    case DoUpdateStatus(key, rawStatus, errorType) => UpdateStatus(t, key, rawStatus, errorType).tables
    case DoMarkSucceeded(key, result) => MarkSucceeded(t, key, result).tables
    case DoMarkFailed(key, error, release, errorType) => MarkFailed(t, key, error, release, errorType).tables
    case DoMarkReconciled(key, result) => MarkReconciled(t, key, result).tables
  }

  const EMPTY := Tables(map[], map[])

  /** The ledger after a run that started with empty tables. */
  function After(ops: seq<Op>): Tables {
    if ops == [] then EMPTY else Apply(After(ops[..|ops| - 1]), ops[|ops| - 1])
  }

  /** The answer of an operation on an effect. */
  function Reply(t: Tables, op: Op): Result<Reservation, LedgerError>
    requires !op.DoSetQuota?
  {
    match op
    case DoReserve(key, runId, provider, units, request) => Reserve(t, key, runId, provider, units, request).reply
    case DoMarkUncertain(key, error, errorType) => MarkUncertain(t, key, error, errorType).reply
    case DoBind(key, rawId, rawStatus) => BindOperation(t, key, rawId, rawStatus).reply
    case DoUpdateStatus(key, rawStatus, errorType) => UpdateStatus(t, key, rawStatus, errorType).reply
    case DoMarkSucceeded(key, result) => MarkSucceeded(t, key, result).reply
    case DoMarkFailed(key, error, release, errorType) => MarkFailed(t, key, error, release, errorType).reply
    case DoMarkReconciled(key, result) => MarkReconciled(t, key, result).reply
  }

  /** When an operation is accepted, as opposed to raising. */
  ghost predicate Accepts(t: Tables, op: Op)
    requires !op.DoSetQuota?
  {
    var status := if op.key in t.effects then Some(t.effects[op.key].status) else None;
    match op
    case DoReserve(key, runId, provider, units, request) =>
      && units > 0 && provider in t.quotas
      && (status == None ==> t.quotas[provider].used + units <= t.quotas[provider].limit)
      && (status != None ==> status != Some(Uncertain) && Identified(t.effects[key], runId, provider, units, request))
    case DoMarkUncertain(_, _, _) => status != None
    case DoBind(key, rawId, rawStatus) =>
      && status != None && Text.Strip(rawId) != "" && PS.Parse(rawStatus).Some?
      && (t.effects[key].operationId == None || t.effects[key].operationId == Some(Text.Strip(rawId)))
      && Free(t, key, Text.Strip(rawId))
    case DoUpdateStatus(_, rawStatus, _) => status != None && PS.Parse(rawStatus).Some?
    case DoMarkSucceeded(_, _) => status == Some(Reserved) || status == Some(Succeeded)
    case DoMarkFailed(_, _, _, _) => status == Some(Reserved) || status == Some(Failed)
    case DoMarkReconciled(_, _) => status == Some(Uncertain)
  }

  /** No other effect of the same provider has the operation id. */
  ghost predicate Free(t: Tables, key: string, operationId: string)
    requires key in t.effects
  {
    forall k :: k in t.effects && k != key && t.effects[k].provider == t.effects[key].provider ==>
      t.effects[k].operationId != Some(operationId)
  }

  ghost predicate Identified(row: Effect, runId: string, provider: string, units: int, request: Json) {
    (row.runId, row.provider, row.units, row.request) == (runId, provider, units, request)
  }

  /** What an operation that is not accepted raises. */
  ghost function Refusal(t: Tables, op: Op): LedgerError
    requires !op.DoSetQuota?
  {
    match op
    case DoReserve(key, runId, provider, units, request) =>
      if units <= 0 then ValueError
      else if provider !in t.quotas || key !in t.effects then QuotaExceeded
      else if Identified(t.effects[key], runId, provider, units, request) then UncertainEffect
      else ValueError
    case DoMarkSucceeded(key, _) => if key in t.effects then UncertainEffect else ValueError
    case DoMarkFailed(key, _, _, _) => if key in t.effects then UncertainEffect else ValueError
    case DoMarkReconciled(_, _) => UncertainEffect
    case _ => ValueError
  }

  /** The text, or its first n characters if it is longer. */
  ghost predicate IsCut(text: string, cut: string, n: nat) {
    if |text| <= n then cut == text else |cut| == n && cut <= text
  }

  /** An error type given is stored, cut; none given leaves the stored one alone. */
  ghost predicate RecordsType(before: Effect, row: Effect, errorType: Option<string>) {
    if errorType.None? || errorType.value == "" then row.errorType == before.errorType
    else row.errorType.Some? && IsCut(errorType.value, row.errorType.value, 200)
  }

  /** The row moved to the status with the error recorded and nothing else changed. */
  ghost predicate RecordsError(before: Effect, row: Effect, status: Status, error: string, errorType: Option<string>) {
    && row == before.(status := status, error := row.error, errorType := row.errorType)
    && row.error.Some? && IsCut(error, row.error.value, 2000) && RecordsType(before, row, errorType)
  }

  /** What an accepted operation answers with: the whole row. */
  ghost predicate Delivers(t: Tables, op: Op, row: Effect)
    requires !op.DoSetQuota?
  {
    if op.key !in t.effects then
      op.DoReserve?
      && row == Effect(op.runId, op.provider, op.units, op.request, Reserved, None, None, None, None, None)
    else
      var before := t.effects[op.key];
      match op
      case DoReserve(_, _, _, _, _) => row == before
      case DoMarkUncertain(_, error, errorType) =>
        if before.status == Reserved then RecordsError(before, row, Uncertain, error, errorType) else row == before
      case DoBind(_, rawId, rawStatus) =>
        PS.Parse(rawStatus).Some? && row == before.(
          operationId := Some(Text.Strip(rawId)),
          providerStatus := Some(PS.Merge(before.providerStatus, PS.Parse(rawStatus).value)),
          status := if before.status == Uncertain then Reserved else before.status)
      case DoUpdateStatus(_, rawStatus, errorType) =>
        && PS.Parse(rawStatus).Some? && RecordsType(before, row, errorType)
        && row == before.(
             providerStatus := Some(PS.Merge(before.providerStatus, PS.Parse(rawStatus).value)),
             errorType := row.errorType)
      case DoMarkFailed(_, error, _, errorType) =>
        if before.status == Failed then row == before else RecordsError(before, row, Failed, error, errorType)
      case DoMarkSucceeded(_, result) => if before.status == Succeeded then row == before else Concluded(before, row, result)
      case DoMarkReconciled(_, result) => Concluded(before, row, result)
  }

  ghost predicate Concluded(before: Effect, row: Effect, result: Json) {
    row == before.(status := Succeeded, result := Some(result), providerStatus := Some(PS.Succeeded))
  }

  lemma TruncateCuts(text: string, n: nat)
    ensures IsCut(text, Text.Truncate(text, n), n)
  {
  }

  lemma WithErrorTypeRecords(row: Effect, errorType: Option<string>)
    ensures RecordsType(row, WithErrorType(row, errorType), errorType)
    ensures WithErrorType(row, errorType) == row.(errorType := WithErrorType(row, errorType).errorType)
  {
    if errorType.Some? { TruncateCuts(errorType.value, 200); }
  }

  /** The whole operation table: an operation answers exactly when it is accepted, with the row it
      should deliver, and otherwise raises the error it should. */
  lemma OperationsDeliver(t: Tables, op: Op)
    requires !op.DoSetQuota?
    ensures Reply(t, op).Ok? <==> Accepts(t, op)
    ensures Reply(t, op).Err? ==> Reply(t, op).error == Refusal(t, op)
    ensures Reply(t, op).Ok? ==> Delivers(t, op, Reply(t, op).value.row)
  {
    if op.key in t.effects && (op.DoMarkUncertain? || op.DoMarkFailed? || op.DoUpdateStatus?) {
      RecordingDelivers(t, op);
    }
  }

  lemma RecordingDelivers(t: Tables, op: Op)
    requires op.DoMarkUncertain? || op.DoMarkFailed? || op.DoUpdateStatus?
    requires op.key in t.effects
    ensures Reply(t, op).Ok? ==> Delivers(t, op, Reply(t, op).value.row)
  {
    var before := t.effects[op.key];
    match op {
      case DoMarkUncertain(_, error, errorType) =>
        TruncateCuts(error, 2000);
        WithErrorTypeRecords(before.(status := Uncertain, error := Some(Text.Truncate(error, 2000))), errorType);
      case DoMarkFailed(_, error, _, errorType) =>
        TruncateCuts(error, 2000);
        WithErrorTypeRecords(before.(status := Failed, error := Some(Text.Truncate(error, 2000))), errorType);
      case DoUpdateStatus(_, rawStatus, errorType) =>
        if PS.Parse(rawStatus).Some? {
          WithErrorTypeRecords(
            before.(providerStatus := Some(PS.Merge(before.providerStatus, PS.Parse(rawStatus).value))), errorType);
        }
    }
  }

  /** An accepted limit is stored and changes nothing else; a refused one changes nothing. */
  lemma SetQuotaStores(t: Tables, provider: string, limit: int)
    ensures
      var step := SetQuota(t, provider, limit);
      && (step.reply.Ok? ==>
            && provider in step.tables.quotas
            && step.tables.quotas[provider] == Quota(limit, if provider in t.quotas then t.quotas[provider].used else 0)
            && step.tables.quotas - {provider} == t.quotas - {provider}
            && step.tables.effects == t.effects)
      && (step.reply.Err? ==>
            step.tables == t && step.reply.error == if limit < 0 then ValueError else QuotaExceeded)
  {
  }

  /** Every operation is atomic: it raises and changes nothing, or it answers with the row as it is
      then stored under its key; it touches no other row, and no quota but that of the row's
      provider. */
  lemma OperationsAreAtomic(t: Tables, op: Op)
    requires !op.DoSetQuota?
    ensures
      var t', reply := Apply(t, op), Reply(t, op);
      && (reply.Err? ==> t' == t)
      && (reply.Ok? ==>
            && reply.value.effectKey == op.key && op.key in t'.effects
            && reply.value.row == t'.effects[op.key]
            && (reply.value.created <==> op.key !in t.effects)
            && (forall p :: p in t.quotas && p != reply.value.row.provider ==>
                  p in t'.quotas && t'.quotas[p] == t.quotas[p]))
      && t'.quotas.Keys == t.quotas.Keys
      && (forall k :: k in t.effects && k != op.key ==> k in t'.effects && t'.effects[k] == t.effects[k])
      && (forall k :: k in t'.effects && k != op.key ==> k in t.effects)
  {
    match op {
      case DoBind(_, _, _) =>
      case DoUpdateStatus(_, _, _) =>
      case DoMarkFailed(_, _, _, _) =>
      case DoMarkUncertain(_, _, _) =>
      case _ =>
    }
  }

  // ----- How one row may change -----

  /** What every later version of a row keeps of an earlier one. */
  ghost predicate Evolves(a: Effect, b: Effect) {
    && (a.runId, a.provider, a.units, a.request) == (b.runId, b.provider, b.units, b.request)
    && (a.status.Final() ==> b.status == a.status && b.result == a.result)
    && (a.operationId.Some? ==> b.operationId == a.operationId)
    && PS.Rank(a.providerStatus) <= PS.Rank(b.providerStatus)
    && (PS.Rank(a.providerStatus) == PS.Rank(b.providerStatus) ==> a.providerStatus == b.providerStatus)
    && (a.providerStatus.Some? && a.providerStatus.value.Terminal() && b.providerStatus != a.providerStatus
        ==> !a.status.Final() && b.status == Succeeded)
    && (a.status == Uncertain && b.status == Reserved ==> b.operationId.Some?)
  }

  lemma ApplyEvolves(t: Tables, op: Op, k: string)
    requires k in t.effects
    ensures k in Apply(t, op).effects && Evolves(t.effects[k], Apply(t, op).effects[k])
  {
    match op {
      case DoBind(key, rawId, rawStatus) => BindEvolves(t, key, rawId, rawStatus, k);
      case DoUpdateStatus(key, rawStatus, errorType) => UpdateEvolves(t, key, rawStatus, errorType, k);
      case DoMarkFailed(key, error, release, errorType) =>
      case DoMarkUncertain(key, error, errorType) =>
      case _ =>
    }
  }

  lemma BindEvolves(t: Tables, key: string, rawId: string, rawStatus: string, k: string)
    requires k in t.effects
    ensures
      var t' := BindOperation(t, key, rawId, rawStatus).tables;
      k in t'.effects && Evolves(t.effects[k], t'.effects[k])
  {
    if k == key && PS.Parse(rawStatus).Some? {
      PS.MergeAdvances(t.effects[k].providerStatus, PS.Parse(rawStatus).value);
    }
  }

  lemma UpdateEvolves(t: Tables, key: string, rawStatus: string, errorType: Option<string>, k: string)
    requires k in t.effects
    ensures
      var t' := UpdateStatus(t, key, rawStatus, errorType).tables;
      k in t'.effects && Evolves(t.effects[k], t'.effects[k])
  {
    if k == key && PS.Parse(rawStatus).Some? {
      PS.MergeAdvances(t.effects[k].providerStatus, PS.Parse(rawStatus).value);
    }
  }

  lemma EvolvesTransitive(a: Effect, b: Effect, c: Effect)
    requires Evolves(a, b) && Evolves(b, c)
    ensures Evolves(a, c)
  {
  }

  lemma PrefixOfPrefix(ops: seq<Op>, i: nat, j: nat)
    requires i <= j <= |ops|
    ensures ops[..j][..i] == ops[..i]
  {
  }

  /** Between any two moments of any run a row is never removed and only evolves: its identity
      is fixed, a final status and its result stay, a bound operation id stays, the provider
      status only advances, a terminal one gives way only to success, and a row that was
      uncertain and is reserved again carries an operation id. */
  lemma {:induction false} RowsEvolve(ops: seq<Op>, i: nat, j: nat, key: string)
    requires i <= j <= |ops|
    requires key in After(ops[..i]).effects
    ensures key in After(ops[..j]).effects
    ensures Evolves(After(ops[..i]).effects[key], After(ops[..j]).effects[key])
    decreases j
  {
    if i < j {
      RowsEvolve(ops, i, j - 1, key);
      PrefixOfPrefix(ops, j - 1, j);
      ApplyEvolves(After(ops[..j - 1]), ops[j - 1], key);
      EvolvesTransitive(After(ops[..i]).effects[key], After(ops[..j - 1]).effects[key], After(ops[..j]).effects[key]);
    }
  }

  // ----- Quota conservation -----

  /** The units that the given rows charge to a provider. */
  ghost function Total(rows: map<string, Effect>, provider: string): int {
    if rows == map[] then 0
    else
      var k :| k in rows;
      Share(rows[k], provider) + Total(rows - {k}, provider)
  }

  ghost function Share(row: Effect, provider: string): int {
    if row.provider == provider then row.units else 0
  }

  lemma {:induction false} TotalWithout(rows: map<string, Effect>, provider: string, k: string)
    requires k in rows
    ensures Total(rows, provider) == Share(rows[k], provider) + Total(rows - {k}, provider)
    decreases |rows|
  {
    var c :| c in rows && Total(rows, provider) == Share(rows[c], provider) + Total(rows - {c}, provider);
    if c != k {
      TotalWithout(rows - {c}, provider, k);
      TotalWithout(rows - {k}, provider, c);
      assert rows - {c} - {k} == rows - {k} - {c};
    }
  }

  lemma {:induction false} TotalUnaffected(a: map<string, Effect>, b: map<string, Effect>, provider: string)
    requires a.Keys == b.Keys
    requires forall k :: k in a ==> a[k].provider == b[k].provider && a[k].units == b[k].units
    ensures Total(a, provider) == Total(b, provider)
    decreases |a|
  {
    if a != map[] {
      var k :| k in a;
      TotalWithout(a, provider, k);
      TotalWithout(b, provider, k);
      TotalUnaffected(a - {k}, b - {k}, provider);
    }
  }

  lemma {:induction false} TotalNonNegative(rows: map<string, Effect>, provider: string)
    requires forall k :: k in rows ==> rows[k].units > 0
    ensures Total(rows, provider) >= 0
    decreases |rows|
  {
    if rows != map[] {
      var k :| k in rows;
      TotalWithout(rows, provider, k);
      TotalNonNegative(rows - {k}, provider);
    }
  }

  /** The step hands the effect's units back to its provider. */
  ghost predicate Releases(t: Tables, op: Op, key: string) {
    && op.DoMarkFailed? && op.release && op.key == key
    && key in t.effects && t.effects[key].status == Reserved
  }

  /** The keys whose quota was handed back during the run. */
  ghost function Released(ops: seq<Op>): set<string> {
    if ops == [] then {}
    else
      var before, op := ops[..|ops| - 1], ops[|ops| - 1];
      Released(before) + (if op.DoMarkFailed? && Releases(After(before), op, op.key) then {op.key} else {})
  }

  ghost function ReleaseCount(ops: seq<Op>, key: string): nat {
    if ops == [] then 0
    else
      var before, op := ops[..|ops| - 1], ops[|ops| - 1];
      ReleaseCount(before, key) + (if Releases(After(before), op, key) then 1 else 0)
  }

  ghost predicate RowInv(row: Effect) {
    && row.units > 0
    && (row.status == Succeeded <==> row.result.Some?)
    && (row.status == Succeeded ==> row.providerStatus == Some(PS.Succeeded))
    && (row.operationId.Some? ==>
          && row.providerStatus.Some?
          && row.operationId.value != "" && Text.Trimmed(row.operationId.value))
  }

  ghost predicate RowsInv(t: Tables) {
    forall k :: k in t.effects ==> RowInv(t.effects[k]) && t.effects[k].provider in t.quotas
  }

  /** The unique index over (provider, provider_operation_id). */
  ghost predicate OperationsUnique(t: Tables) {
    forall k, k' :: k in t.effects && k' in t.effects && k != k'
      && t.effects[k].provider == t.effects[k'].provider && t.effects[k].operationId.Some?
      ==> t.effects[k].operationId != t.effects[k'].operationId
  }

  /** Quota in use is exactly what the rows not handed back charge, and stays within the limit. */
  ghost predicate QuotasInv(t: Tables, released: set<string>) {
    && (forall k :: k in released ==> k in t.effects && t.effects[k].status == Failed)
    && forall p :: p in t.quotas ==>
         t.quotas[p].used == Total(t.effects - released, p) && t.quotas[p].used <= t.quotas[p].limit
  }

  lemma BindKeepsRow(t: Tables, key: string, rawId: string, rawStatus: string)
    requires key in t.effects && RowInv(t.effects[key])
    ensures key in BindOperation(t, key, rawId, rawStatus).tables.effects
    ensures RowInv(BindOperation(t, key, rawId, rawStatus).tables.effects[key])
  {
    Text.StripTrims(rawId);
  }

  lemma ApplyKeepsRow(t: Tables, op: Op, k: string)
    requires k in t.effects ==> RowInv(t.effects[k]) && t.effects[k].provider in t.quotas
    requires k in Apply(t, op).effects
    ensures RowInv(Apply(t, op).effects[k]) && Apply(t, op).effects[k].provider in Apply(t, op).quotas
  {
    if k in t.effects && (op.DoSetQuota? || op.key != k) { OtherRowsStay(t, op, k); }
    match op {
      case DoBind(key, rawId, rawStatus) => if k == key { BindKeepsRow(t, key, rawId, rawStatus); }
      case DoMarkFailed(_, _, _, _) =>
      case _ =>
    }
  }

  lemma ApplyKeepsRows(t: Tables, op: Op)
    requires RowsInv(t)
    ensures RowsInv(Apply(t, op))
  {
    forall k | k in Apply(t, op).effects
      ensures RowInv(Apply(t, op).effects[k]) && Apply(t, op).effects[k].provider in Apply(t, op).quotas
    {
      ApplyKeepsRow(t, op, k);
    }
  }

  /** A bound row was there before with the same provider, and bound alike unless this step bound it. */
  lemma BoundRowOrigin(t: Tables, op: Op, k: string)
    requires k in Apply(t, op).effects && Apply(t, op).effects[k].operationId.Some?
    ensures k in t.effects && t.effects[k].provider == Apply(t, op).effects[k].provider
    ensures t.effects[k].operationId == Apply(t, op).effects[k].operationId
      || (op.DoBind? && op.key == k && Apply(t, op).effects[k].operationId == Some(Text.Strip(op.rawId))
          && !BoundElsewhere(t, k, Text.Strip(op.rawId)))
  {
  }

  lemma ApplyKeepsUnique(t: Tables, op: Op)
    requires OperationsUnique(t)
    ensures OperationsUnique(Apply(t, op))
  {
    var rows := Apply(t, op).effects;
    forall k, k' | k in rows && k' in rows && k != k' && rows[k].provider == rows[k'].provider
      && rows[k].operationId.Some? && rows[k].operationId == rows[k'].operationId
      ensures false
    {
      BoundRowOrigin(t, op, k);
      BoundRowOrigin(t, op, k');
    }
  }

  lemma ApplyKeepsQuotas(t: Tables, op: Op, released: set<string>)
    requires RowsInv(t) && QuotasInv(t, released)
    ensures op.DoMarkFailed? && Releases(t, op, op.key) ==>
      op.key !in released && QuotasInv(Apply(t, op), released + {op.key})
    ensures !(op.DoMarkFailed? && Releases(t, op, op.key)) ==> QuotasInv(Apply(t, op), released)
  {
    var t' := Apply(t, op);
    forall k | k in released ensures k in t'.effects && t'.effects[k].status == Failed {
      ApplyEvolves(t, op, k);
    }
    if t'.effects.Keys != t.effects.Keys {
      ReserveCharges(t, op, released);
    } else if op.DoMarkFailed? && Releases(t, op, op.key) {
      ReleaseRefunds(t, op, released);
    } else {
      forall p | p in t'.quotas
        ensures t'.quotas[p].used == Total(t'.effects - released, p) && t'.quotas[p].used <= t'.quotas[p].limit
      {
        NoCharge(t, op, released, p);
      }
    }
  }

  lemma ReserveCharges(t: Tables, op: Op, released: set<string>)
    requires RowsInv(t) && QuotasInv(t, released) && Apply(t, op).effects.Keys != t.effects.Keys
    ensures op.DoReserve? && QuotasInv(Apply(t, op), released)
  {
    var t' := Apply(t, op);
    assert op.DoReserve? && op.key !in t.effects;
    assert op.key !in released;
    forall p | p in t'.quotas
      ensures t'.quotas[p].used == Total(t'.effects - released, p) && t'.quotas[p].used <= t'.quotas[p].limit
    {
      TotalWithout(t'.effects - released, p, op.key);
      assert t'.effects - released - {op.key} == t.effects - released;
    }
  }

  lemma ReleaseRefunds(t: Tables, op: Op, released: set<string>)
    requires RowsInv(t) && QuotasInv(t, released) && op.DoMarkFailed? && Releases(t, op, op.key)
    ensures op.key !in released && QuotasInv(Apply(t, op), released + {op.key})
  {
    var t' := Apply(t, op);
    forall p | p in t'.quotas
      ensures t'.quotas[p].used == Total(t'.effects - (released + {op.key}), p) && t'.quotas[p].used <= t'.quotas[p].limit
    {
      TotalWithout(t.effects - released, p, op.key);
      assert t'.effects - (released + {op.key}) == t.effects - released - {op.key};
    }
  }

  lemma NoCharge(t: Tables, op: Op, released: set<string>, p: string)
    requires RowsInv(t) && QuotasInv(t, released) && p in Apply(t, op).quotas
    requires Apply(t, op).effects.Keys == t.effects.Keys
    requires !(op.DoMarkFailed? && Releases(t, op, op.key))
    ensures Apply(t, op).quotas[p].used == Total(Apply(t, op).effects - released, p) <= Apply(t, op).quotas[p].limit
  {
    var t' := Apply(t, op);
    forall k | k in t.effects - released
      ensures t.effects[k].provider == t'.effects[k].provider && t.effects[k].units == t'.effects[k].units
    {
      ApplyEvolves(t, op, k);
    }
    TotalUnaffected(t.effects - released, t'.effects - released, p);
    QuotaUntouched(t, op, p);
    if p !in t.quotas { Unconfigured(t, released, p); }
  }

  lemma QuotaUntouched(t: Tables, op: Op, p: string)
    requires p in Apply(t, op).quotas && Apply(t, op).effects.Keys == t.effects.Keys
    requires !(op.DoMarkFailed? && Releases(t, op, op.key))
    ensures p in t.quotas ==>
      Apply(t, op).quotas[p].used == t.quotas[p].used
      && (t.quotas[p].used <= t.quotas[p].limit ==> t.quotas[p].used <= Apply(t, op).quotas[p].limit)
    ensures p !in t.quotas ==> Apply(t, op).quotas[p].used == 0 <= Apply(t, op).quotas[p].limit
  {
  }

  /** No row charges a provider that has no quota row. */
  lemma {:induction false} Unconfigured(t: Tables, released: set<string>, p: string)
    requires RowsInv(t) && p !in t.quotas
    ensures Total(t.effects - released, p) == 0
  {
    NoShare(t.effects - released, p);
  }

  lemma {:induction false} NoShare(rows: map<string, Effect>, p: string)
    requires forall k :: k in rows ==> rows[k].provider != p
    ensures Total(rows, p) == 0
    decreases |rows|
  {
    if rows != map[] {
      var k :| k in rows;
      TotalWithout(rows, p, k);
      NoShare(rows - {k}, p);
    }
  }

  lemma {:induction false} RunInvariant(ops: seq<Op>)
    ensures RowsInv(After(ops)) && OperationsUnique(After(ops)) && QuotasInv(After(ops), Released(ops))
  {
    if ops != [] {
      var before, op := ops[..|ops| - 1], ops[|ops| - 1];
      RunInvariant(before);
      ApplyKeepsRows(After(before), op);
      ApplyKeepsUnique(After(before), op);
      ApplyKeepsQuotas(After(before), op, Released(before));
      assert Released(before) + {} == Released(before);
    }
  }

  /** The CHECK constraints and the unique index of the two tables. */
  ghost predicate Constraints(t: Tables) {
    && (forall p :: p in t.quotas ==> 0 <= t.quotas[p].limit && 0 <= t.quotas[p].used <= t.quotas[p].limit)
    && (forall k :: k in t.effects ==> t.effects[k].units > 0)
    && OperationsUnique(t)
  }

  /** In every reachable ledger the quota in use is the total of the rows that were not handed
      back, and no table constraint is ever at risk. */
  lemma QuotaConserved(ops: seq<Op>)
    ensures Constraints(After(ops))
    ensures forall p :: p in After(ops).quotas ==>
      After(ops).quotas[p].used == Total(After(ops).effects - Released(ops), p)
  {
    RunInvariant(ops);
    var t := After(ops);
    forall p | p in t.quotas ensures 0 <= t.quotas[p].used {
      TotalNonNegative(t.effects - Released(ops), p);
    }
  }

  /** Charges still held against a provider: the rows of the run that were not handed back. */
  ghost function Outstanding(ops: seq<Op>, provider: string): int {
    Total(After(ops).effects - Released(ops), provider)
  }

  /** The last limit of a provider that covered the charges held when it was set. */
  ghost function LastLimit(ops: seq<Op>, provider: string): Option<int> {
    if ops == [] then None
    else
      var before, op := ops[..|ops| - 1], ops[|ops| - 1];
      if op.DoSetQuota? && op.provider == provider && 0 <= op.limit && Outstanding(before, provider) <= op.limit
      then Some(op.limit)
      else LastLimit(before, provider)
  }

  lemma LimitsKept(t: Tables, op: Op, p: string)
    requires !(op.DoSetQuota? && op.provider == p)
    ensures p in Apply(t, op).quotas <==> p in t.quotas
    ensures p in t.quotas ==> Apply(t, op).quotas[p].limit == t.quotas[p].limit
  {
  }

  lemma LimitAcceptedIff(ops: seq<Op>, provider: string, limit: int)
    ensures SetQuota(After(ops), provider, limit).reply.Ok? <==> 0 <= limit && Outstanding(ops, provider) <= limit
  {
    RunInvariant(ops);
    if provider !in After(ops).quotas { Unconfigured(After(ops), Released(ops), provider); }
  }

  /** After any run a provider has a quota row exactly when some limit was accepted for it, and the row
      holds the last one. */
  lemma {:induction false} LimitIsLastAccepted(ops: seq<Op>, provider: string)
    ensures provider in After(ops).quotas <==> LastLimit(ops, provider).Some?
    ensures provider in After(ops).quotas ==> After(ops).quotas[provider].limit == LastLimit(ops, provider).value
  {
    if ops != [] {
      var before, op := ops[..|ops| - 1], ops[|ops| - 1];
      LimitIsLastAccepted(before, provider);
      if op.DoSetQuota? && op.provider == provider {
        LimitAcceptedIff(before, provider, op.limit);
        SetQuotaStores(After(before), provider, op.limit);
      } else {
        LimitsKept(After(before), op, provider);
      }
    }
  }

  /** After any run a new effect is granted exactly when its units fit, beside the charges still held,
      in the last limit accepted for its provider, and a limit is accepted exactly when it covers
      those charges. */
  lemma GrantedIffItFits(ops: seq<Op>, key: string, runId: string, provider: string, units: int, request: Json, limit: int)
    ensures
      var t, last := After(ops), LastLimit(ops, provider);
      && (key !in t.effects ==>
            (Reserve(t, key, runId, provider, units, request).reply.Ok? <==>
               units > 0 && last.Some? && Outstanding(ops, provider) + units <= last.value))
      && (SetQuota(t, provider, limit).reply.Ok? <==> Outstanding(ops, provider) <= limit && 0 <= limit)
  {
    RunInvariant(ops);
    LimitIsLastAccepted(ops, provider);
    LimitAcceptedIff(ops, provider, limit);
  }

  /** A key's quota is handed back at most once, and exactly when it is among the released ones,
      all of which have failed. */
  lemma {:induction false} ReleasedAtMostOnce(ops: seq<Op>, key: string)
    ensures ReleaseCount(ops, key) == (if key in Released(ops) then 1 else 0)
    ensures key in Released(ops) ==> key in After(ops).effects && After(ops).effects[key].status == Failed
  {
    RunInvariant(ops);
    if ops != [] {
      var before, op := ops[..|ops| - 1], ops[|ops| - 1];
      ReleasedAtMostOnce(before, key);
    }
  }

  // ----- Creation -----

  /** The step answers with a reservation marked as newly created for the key. */
  ghost predicate Creates(t: Tables, op: Op, key: string) {
    && op.DoReserve?
    && var reply := Reserve(t, op.key, op.runId, op.provider, op.units, op.request).reply;
       reply.Ok? && reply.value.created && reply.value.effectKey == key
  }

  ghost function CreationCount(ops: seq<Op>, key: string): nat {
    if ops == [] then 0
    else
      var before, op := ops[..|ops| - 1], ops[|ops| - 1];
      CreationCount(before, key) + (if Creates(After(before), op, key) then 1 else 0)
  }

  /** Over any run a key is reported as created once if its row exists and never otherwise. */
  lemma {:induction false} CreatedExactlyOnce(ops: seq<Op>, key: string)
    ensures CreationCount(ops, key) == (if key in After(ops).effects then 1 else 0)
  {
    if ops != [] {
      var before, op := ops[..|ops| - 1], ops[|ops| - 1];
      CreatedExactlyOnce(before, key);
      if key in After(before).effects { ApplyEvolves(After(before), op, key); }
    }
  }

  /** Repeating the request that created a key, at any later moment of any run and however full
      the quota is by then, changes nothing: it returns the stored row as not created unless the
      effect is uncertain, and raises UncertainEffect exactly when it is. */
  lemma ReplayedReserve(ops: seq<Op>, i: nat, key: string)
    requires i < |ops| && Creates(After(ops[..i]), ops[i], key)
    ensures
      var t := After(ops);
      var replay := Reserve(t, key, ops[i].runId, ops[i].provider, ops[i].units, ops[i].request);
      && key in t.effects
      && replay.tables == t
      && (t.effects[key].status == Uncertain ==> replay.reply == Err(UncertainEffect))
      && (t.effects[key].status != Uncertain ==>
            replay.reply == Ok(Reservation(key, t.effects[key], false)))
  {
    PrefixOfPrefix(ops, i, i + 1);
    assert ops[..i + 1][..i] == ops[..i];
    assert ops[..|ops|] == ops;
    RowsEvolve(ops, i + 1, |ops|, key);
    RunInvariant(ops);
  }

  // ----- Provider status -----

  ghost predicate ChangesProviderStatus(t: Tables, op: Op, key: string) {
    && key in t.effects && key in Apply(t, op).effects
    && t.effects[key].providerStatus != Apply(t, op).effects[key].providerStatus
  }

  ghost function ProviderStatusChanges(ops: seq<Op>, key: string): nat {
    if ops == [] then 0
    else
      var before, op := ops[..|ops| - 1], ops[|ops| - 1];
      ProviderStatusChanges(before, key) + (if ChangesProviderStatus(After(before), op, key) then 1 else 0)
  }

  /** Over any run the provider status of an effect changes at most four times. */
  lemma {:induction false} AtMostFourChanges(ops: seq<Op>, key: string)
    ensures ProviderStatusChanges(ops, key) <= 4
    ensures key !in After(ops).effects ==> ProviderStatusChanges(ops, key) == 0
    ensures key in After(ops).effects ==>
      ProviderStatusChanges(ops, key) <= PS.Rank(After(ops).effects[key].providerStatus)
  {
    if ops != [] {
      var before, op := ops[..|ops| - 1], ops[|ops| - 1];
      AtMostFourChanges(before, key);
      if key in After(before).effects { ApplyEvolves(After(before), op, key); }
    }
  }

  /** The report an operation on the key hands to the merge, if it succeeds. */
  ghost function ReportOf(t: Tables, op: Op, key: string): seq<PS.Report> {
    if (op.DoBind? || op.DoUpdateStatus?) && op.key == key && Reply(t, op).Ok? && PS.Parse(op.rawStatus).Some?
    then [PS.Parse(op.rawStatus).value] else []
  }

  ghost function Reports(ops: seq<Op>, key: string): seq<PS.Report> {
    if ops == [] then []
    else Reports(ops[..|ops| - 1], key) + ReportOf(After(ops[..|ops| - 1]), ops[|ops| - 1], key)
  }

  lemma ApplyMerges(t: Tables, op: Op, key: string)
    requires key in t.effects && key in Apply(t, op).effects && Apply(t, op).effects[key].status != Succeeded
    ensures t.effects[key].status != Succeeded
    ensures
      var reports := ReportOf(t, op, key);
      Apply(t, op).effects[key].providerStatus ==
        if reports == [] then t.effects[key].providerStatus
        else Some(PS.Merge(t.effects[key].providerStatus, reports[0]))
  {
    ApplyEvolves(t, op, key);
    if op.DoSetQuota? || op.key != key { OtherRowsStay(t, op, key); }
  }

  lemma OtherRowsStay(t: Tables, op: Op, key: string)
    requires key in t.effects && (op.DoSetQuota? || op.key != key)
    ensures key in Apply(t, op).effects && Apply(t, op).effects[key] == t.effects[key]
  {
  }

  lemma FreshRow(t: Tables, op: Op, key: string)
    requires key !in t.effects
    ensures ReportOf(t, op, key) == []
    ensures key in Apply(t, op).effects ==> Apply(t, op).effects[key].providerStatus == None
  {
  }

  /** Until an effect succeeds, its provider status is the fold of the reports delivered for it, so
      the first terminal report or else the highest one, in whatever order they came. */
  lemma {:induction false} ProviderStatusIsFold(ops: seq<Op>, key: string)
    ensures key !in After(ops).effects ==> Reports(ops, key) == []
    ensures key in After(ops).effects && After(ops).effects[key].status != Succeeded ==>
      After(ops).effects[key].providerStatus == PS.Fold(Reports(ops, key))
  {
    if ops != [] {
      var before, op := ops[..|ops| - 1], ops[|ops| - 1];
      ProviderStatusIsFold(before, key);
      var t := After(before);
      if key in t.effects {
        ApplyEvolves(t, op, key);
        if Apply(t, op).effects[key].status != Succeeded {
          ApplyMerges(t, op, key);
          FoldSnoc(Reports(before, key), ReportOf(t, op, key));
        }
      } else {
        FreshRow(t, op, key);
      }
    }
  }

  lemma FoldSnoc(reports: seq<PS.Report>, last: seq<PS.Report>)
    requires |last| <= 1
    ensures PS.Fold(reports + last) ==
      if last == [] then PS.Fold(reports) else Some(PS.Merge(PS.Fold(reports), last[0]))
  {
    if last == [] {
      assert reports + last == reports;
    } else {
      assert (reports + last)[..|reports|] == reports;
    }
  }

  /** The run continues the given one with one more operation. */
  ghost predicate Continues(run: seq<Op>, ops: seq<Op>) {
    |run| == |ops| + 1 && run[..|ops|] == ops
  }

  /** The bound is met: any reserved, unreported effect can still go through four changes, by
      starting, being processed, being reported as unsuccessful, and then being concluded by the
      worker that holds its result. */
  lemma FourChangesHappen(ops: seq<Op>, key: string, id: string, raw: seq<string>, result: Json)
      returns (run: seq<Op>)
    requires key in After(ops).effects && After(ops).effects[key].status == Reserved
    requires After(ops).effects[key].operationId.None? && After(ops).effects[key].providerStatus.None?
    requires Text.Strip(id) != "" && !BoundElsewhere(After(ops), key, Text.Strip(id))
    requires |raw| == 3 && PS.Parse(raw[0]) == Some(PS.Starting) && PS.Parse(raw[1]) == Some(PS.Processing)
    requires PS.Parse(raw[2]).Some? && PS.Parse(raw[2]).value.Unsuccessful()
    ensures |run| == |ops| + 4 && run[..|ops|] == ops
    ensures ProviderStatusChanges(run, key) == ProviderStatusChanges(ops, key) + 4
    ensures key in After(run).effects && After(run).effects[key].status == Succeeded
  {
    var processed := GoesInFlight(ops, key, id, raw[0], raw[1]);
    run := FailsThenConcludes(processed, key, raw[2], result);
    PrefixOfPrefix(run, |ops|, |processed|);
  }

  lemma GoesInFlight(ops: seq<Op>, key: string, id: string, first: string, second: string) returns (run: seq<Op>)
    requires key in After(ops).effects && After(ops).effects[key].status == Reserved
    requires After(ops).effects[key].operationId.None? && After(ops).effects[key].providerStatus.None?
    requires Text.Strip(id) != "" && !BoundElsewhere(After(ops), key, Text.Strip(id))
    requires PS.Parse(first) == Some(PS.Starting) && PS.Parse(second) == Some(PS.Processing)
    ensures |run| == |ops| + 2 && run[..|ops|] == ops
    ensures ProviderStatusChanges(run, key) == ProviderStatusChanges(ops, key) + 2
    ensures key in After(run).effects && After(run).effects[key].status == Reserved
    ensures After(run).effects[key].providerStatus == Some(PS.Processing)
  {
    var bound := BindReports(ops, key, id, first);
    run := UpdateReports(bound, key, second, PS.Processing);
    PrefixOfPrefix(run, |ops|, |bound|);
  }

  lemma FailsThenConcludes(ops: seq<Op>, key: string, raw: string, result: Json) returns (run: seq<Op>)
    requires key in After(ops).effects && After(ops).effects[key].status == Reserved
    requires After(ops).effects[key].providerStatus == Some(PS.Processing)
    requires PS.Parse(raw).Some? && PS.Parse(raw).value.Unsuccessful()
    ensures |run| == |ops| + 2 && run[..|ops|] == ops
    ensures ProviderStatusChanges(run, key) == ProviderStatusChanges(ops, key) + 2
    ensures key in After(run).effects && After(run).effects[key].status == Succeeded
  {
    var failed := UpdateReports(ops, key, raw, PS.Parse(raw).value);
    run := Concludes(failed, key, result);
    PrefixOfPrefix(run, |ops|, |failed|);
  }

  lemma BindReports(ops: seq<Op>, key: string, id: string, raw: string) returns (run: seq<Op>)
    requires key in After(ops).effects && After(ops).effects[key].status == Reserved
    requires After(ops).effects[key].operationId.None? && After(ops).effects[key].providerStatus.None?
    requires Text.Strip(id) != "" && !BoundElsewhere(After(ops), key, Text.Strip(id)) && PS.Parse(raw).Some?
    ensures Continues(run, ops) && ProviderStatusChanges(run, key) == ProviderStatusChanges(ops, key) + 1
    ensures key in After(run).effects && After(run).effects[key].status == Reserved
    ensures After(run).effects[key].providerStatus == PS.Parse(raw)
    ensures After(run).effects[key].operationId == Some(Text.Strip(id))
  {
    run := ops + [DoBind(key, id, raw)];
    Snoc(ops, DoBind(key, id, raw));
  }

  lemma UpdateReports(ops: seq<Op>, key: string, raw: string, report: PS.Report) returns (run: seq<Op>)
    requires key in After(ops).effects && PS.Parse(raw) == Some(report)
    requires PS.Merge(After(ops).effects[key].providerStatus, report) == report
    requires After(ops).effects[key].providerStatus != Some(report)
    ensures Continues(run, ops) && ProviderStatusChanges(run, key) == ProviderStatusChanges(ops, key) + 1
    ensures key in After(run).effects
    ensures After(run).effects[key] == After(ops).effects[key].(providerStatus := Some(report))
  {
    run := ops + [DoUpdateStatus(key, raw, None)];
    Snoc(ops, DoUpdateStatus(key, raw, None));
  }

  lemma Concludes(ops: seq<Op>, key: string, result: Json) returns (run: seq<Op>)
    requires key in After(ops).effects && After(ops).effects[key].status == Reserved
    requires After(ops).effects[key].providerStatus != Some(PS.Succeeded)
    ensures Continues(run, ops) && ProviderStatusChanges(run, key) == ProviderStatusChanges(ops, key) + 1
    ensures key in After(run).effects && After(run).effects[key].status == Succeeded
  {
    run := ops + [DoMarkSucceeded(key, result)];
    Snoc(ops, DoMarkSucceeded(key, result));
  }

  lemma Snoc(ops: seq<Op>, op: Op)
    ensures After(ops + [op]) == Apply(After(ops), op)
    ensures forall key :: ProviderStatusChanges(ops + [op], key)
                          == ProviderStatusChanges(ops, key) + (if ChangesProviderStatus(After(ops), op, key) then 1 else 0)
  {
    assert (ops + [op])[..|ops|] == ops;
  }
}
