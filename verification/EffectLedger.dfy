/** The paid-effect ledger of one organization: quota and effect rows, every operation on them
    as one atomic step, and the class whose methods perform those steps in place. */
module EffectLedger {
  import opened Wrappers
  import Text
  import PS = ProviderStatus

  type Json = string

  datatype Status = Reserved | Uncertain | Succeeded | Failed {
    /** No operation leaves this status. */
    predicate Final() {
      Succeeded? || Failed?
    }
  }

  datatype Quota = Quota(limit: int, used: int)

  datatype Effect = Effect(
    runId: string,
    provider: string,
    units: int,
    request: Json,
    status: Status,
    result: Option<Json>,
    error: Option<string>,
    errorType: Option<string>,
    operationId: Option<string>,
    providerStatus: Option<PS.Report>)

  datatype Reservation = Reservation(effectKey: string, row: Effect, created: bool)

  datatype LedgerError = ValueError | QuotaExceeded | UncertainEffect

  /** The rows of provider_quotas and external_effects. */
  datatype Tables = Tables(quotas: map<string, Quota>, effects: map<string, Effect>)

  /** A committed transaction, or an unchanged ledger with the exception raised. */
  datatype Step<+T> = Step(tables: Tables, reply: Result<T, LedgerError>)

  function Raise<T>(t: Tables, e: LedgerError): Step<T> {
    Step(t, Err(e))
  }

  /** Return the stored row and change nothing. */
  function Existing(t: Tables, key: string): Step<Reservation>
    requires key in t.effects
  {
    Step(t, Ok(Reservation(key, t.effects[key], false)))
  }

  /** UPDATE ... RETURNING on one effect row. */
  function Write(t: Tables, key: string, row: Effect): Step<Reservation> {
    Step(t.(effects := t.effects[key := row]), Ok(Reservation(key, row, false)))
  }

  /** An error type is stored, cut to its column width, only when one is given. */
  function WithErrorType(row: Effect, errorType: Option<string>): Effect {
    if errorType.Some? && errorType.value != "" then
      row.(errorType := Some(Text.Truncate(errorType.value, 200)))
    else row
  }

  predicate BoundElsewhere(t: Tables, key: string, operationId: string)
    requires key in t.effects
  {
    exists k :: k in t.effects && k != key
      && t.effects[k].provider == t.effects[key].provider
      && t.effects[k].operationId == Some(operationId)
  }

  function Get(t: Tables, key: string): Step<Reservation> {
    if key !in t.effects then Raise(t, ValueError) else Existing(t, key)
  }

  function SetQuota(t: Tables, provider: string, limit: int): Step<()> {
    if limit < 0 then Raise(t, ValueError)
    else if provider !in t.quotas then Step(t.(quotas := t.quotas[provider := Quota(limit, 0)]), Ok(()))
    else if t.quotas[provider].used <= limit then
      Step(t.(quotas := t.quotas[provider := t.quotas[provider].(limit := limit)]), Ok(()))
    else Raise(t, QuotaExceeded)
  }

  function Reserve(t: Tables, key: string, runId: string, provider: string, units: int, request: Json)
    : Step<Reservation>
  {
    if units <= 0 then Raise(t, ValueError)
    else if provider !in t.quotas then Raise(t, QuotaExceeded)
    else if key in t.effects then
      var row := t.effects[key];
      if (row.runId, row.provider, row.units, row.request) != (runId, provider, units, request) then
        Raise(t, ValueError)
      else if row.status == Uncertain then Raise(t, UncertainEffect)
      else Existing(t, key)
    else
      var quota := t.quotas[provider];
      if quota.used + units > quota.limit then Raise(t, QuotaExceeded)
      else
        var row := Effect(runId, provider, units, request, Reserved, None, None, None, None, None);
        Step(
          Tables(t.quotas[provider := quota.(used := quota.used + units)], t.effects[key := row]),
          Ok(Reservation(key, row, true)))
  }

  function MarkUncertain(t: Tables, key: string, error: string, errorType: Option<string>): Step<Reservation> {
    if key !in t.effects then Raise(t, ValueError)
    else if t.effects[key].status != Reserved then Existing(t, key)
    else
      var row := t.effects[key].(status := Uncertain, error := Some(Text.Truncate(error, 2000)));
      Write(t, key, WithErrorType(row, errorType))
  }

  function BindOperation(t: Tables, key: string, rawId: string, rawStatus: string): Step<Reservation> {
    var operationId := Text.Strip(rawId);
    if operationId == "" || key !in t.effects then Raise(t, ValueError)
    else
      var row := t.effects[key];
      if row.operationId.Some? && row.operationId.value != operationId then Raise(t, ValueError)
      else if BoundElsewhere(t, key, operationId) then Raise(t, ValueError)
      else
        match PS.Parse(rawStatus)
        case None => Raise(t, ValueError)
        case Some(report) =>
          Write(t, key, row.(
            operationId := Some(operationId),
            providerStatus := Some(PS.Merge(row.providerStatus, report)),
            status := if row.status == Uncertain then Reserved else row.status))
  }

  function UpdateStatus(t: Tables, key: string, rawStatus: string, errorType: Option<string>): Step<Reservation> {
    if key !in t.effects then Raise(t, ValueError)
    else
      match PS.Parse(rawStatus)
      case None => Raise(t, ValueError)
      case Some(report) =>
        var row := t.effects[key];
        Write(t, key, WithErrorType(row.(providerStatus := Some(PS.Merge(row.providerStatus, report))), errorType))
  }

  function MarkSucceeded(t: Tables, key: string, result: Json): Step<Reservation> {
    if key !in t.effects then Raise(t, ValueError)
    else if t.effects[key].status == Reserved then
      Write(t, key, t.effects[key].(status := Succeeded, result := Some(result), providerStatus := Some(PS.Succeeded)))
    else if t.effects[key].status == Succeeded then Existing(t, key)
    else Raise(t, UncertainEffect)
  }

  function MarkFailed(t: Tables, key: string, error: string, release: bool, errorType: Option<string>)
    : Step<Reservation>
  {
    if key !in t.effects then Raise(t, ValueError)
    else if t.effects[key].status == Reserved then
      var row := WithErrorType(
        t.effects[key].(status := Failed, error := Some(Text.Truncate(error, 2000))), errorType);
      var written := Write(t, key, row);
      if release && row.provider in t.quotas then
        var quota := t.quotas[row.provider];
        written.(tables := written.tables.(
          quotas := t.quotas[row.provider := quota.(used := quota.used - row.units)]))
      else written
    else if t.effects[key].status == Failed then Existing(t, key)
    else Raise(t, UncertainEffect)
  }

  function MarkReconciled(t: Tables, key: string, result: Json): Step<Reservation> {
    if key in t.effects && t.effects[key].status == Uncertain then
      Write(t, key, t.effects[key].(status := Succeeded, result := Some(result), providerStatus := Some(PS.Succeeded)))
    else Raise(t, UncertainEffect)
  }

  /** The ledger object. Each method runs one transaction; a raised error leaves the rows alone. */
  class PostgresEffectLedger {
    var quotas: map<string, Quota>
    var effects: map<string, Effect>

    function Rows(): Tables
      reads this
    {
      Tables(quotas, effects)
    }

    constructor ()
      ensures Rows() == Tables(map[], map[])
    {
      quotas, effects := map[], map[];
    }

    method GetEffect(key: string) returns (r: Result<Reservation, LedgerError>)
      ensures r == Get(Rows(), key).reply
    {
      if key !in effects { return Err(ValueError); }
      return Ok(Reservation(key, effects[key], false));
    }

    method ConfigureQuota(provider: string, limit: int) returns (r: Result<(), LedgerError>)
      modifies this
      ensures Step(Rows(), r) == SetQuota(old(Rows()), provider, limit)
    {
      if limit < 0 { return Err(ValueError); }
      if provider in quotas {
        if quotas[provider].used > limit { return Err(QuotaExceeded); }
        quotas := quotas[provider := Quota(limit, quotas[provider].used)];
      } else {
        quotas := quotas[provider := Quota(limit, 0)];
      }
      return Ok(());
    }

    method ReserveEffect(key: string, runId: string, provider: string, units: int, request: Json)
      returns (r: Result<Reservation, LedgerError>)
      modifies this
      ensures Step(Rows(), r) == Reserve(old(Rows()), key, runId, provider, units, request)
    {
      if units <= 0 { return Err(ValueError); }
      if provider !in quotas { return Err(QuotaExceeded); }
      if key in effects {
        var existing := effects[key];
        if existing.runId != runId || existing.provider != provider
          || existing.units != units || existing.request != request {
          return Err(ValueError);
        }
        if existing.status == Uncertain { return Err(UncertainEffect); }
        return Ok(Reservation(key, existing, false));
      }
      var used := quotas[provider].used;
      if used + units > quotas[provider].limit { return Err(QuotaExceeded); }
      var row := Effect(runId, provider, units, request, Reserved, None, None, None, None, None);
      effects := effects[key := row];
      quotas := quotas[provider := quotas[provider].(used := used + units)];
      return Ok(Reservation(key, row, true));
    }

    method RecordUncertain(key: string, error: string, errorType: Option<string>)
      returns (r: Result<Reservation, LedgerError>)
      modifies this`effects
      ensures Step(Rows(), r) == MarkUncertain(old(Rows()), key, error, errorType)
    {
      if key !in effects { return Err(ValueError); }
      var row := effects[key];
      if row.status == Reserved {
        row := row.(status := Uncertain, error := Some(Text.Truncate(error, 2000)));
        row := WithErrorType(row, errorType);
        effects := effects[key := row];
      }
      return Ok(Reservation(key, row, false));
    }

    method Bind(key: string, rawId: string, rawStatus: string) returns (r: Result<Reservation, LedgerError>)
      modifies this`effects
      ensures Step(Rows(), r) == BindOperation(old(Rows()), key, rawId, rawStatus)
    {
      var operationId := Text.Strip(rawId);
      if operationId == "" { return Err(ValueError); }
      if key !in effects { return Err(ValueError); }
      var current := effects[key];
      if current.operationId != None && current.operationId != Some(operationId) { return Err(ValueError); }
      if BoundElsewhere(Tables(quotas, effects), key, operationId) { return Err(ValueError); }
      var report := PS.Parse(rawStatus);
      if report.None? { return Err(ValueError); }
      var updated := current.(operationId := Some(operationId));
      updated := updated.(providerStatus := Some(PS.Merge(current.providerStatus, report.value)));
      if current.status == Uncertain {
        updated := updated.(status := Reserved);
      }
      effects := effects[key := updated];
      return Ok(Reservation(key, updated, false));
    }

    method ReportStatus(key: string, rawStatus: string, errorType: Option<string>)
      returns (r: Result<Reservation, LedgerError>)
      modifies this`effects
      ensures Step(Rows(), r) == UpdateStatus(old(Rows()), key, rawStatus, errorType)
    {
      if key !in effects { return Err(ValueError); }
      var report := PS.Parse(rawStatus);
      if report.None? { return Err(ValueError); }
      var updated := effects[key];
      updated := updated.(providerStatus := Some(PS.Merge(updated.providerStatus, report.value)));
      updated := WithErrorType(updated, errorType);
      effects := effects[key := updated];
      return Ok(Reservation(key, updated, false));
    }

    method Succeed(key: string, result: Json) returns (r: Result<Reservation, LedgerError>)
      modifies this`effects
      ensures Step(Rows(), r) == MarkSucceeded(old(Rows()), key, result)
    {
      if key !in effects { return Err(ValueError); }
      var row := effects[key];
      if row.status == Reserved {
        row := row.(status := Succeeded, result := Some(result), providerStatus := Some(PS.Succeeded));
        effects := effects[key := row];
      } else if row.status != Succeeded {
        return Err(UncertainEffect);
      }
      return Ok(Reservation(key, row, false));
    }

    method Fail(key: string, error: string, release: bool, errorType: Option<string>)
      returns (r: Result<Reservation, LedgerError>)
      modifies this
      ensures Step(Rows(), r) == MarkFailed(old(Rows()), key, error, release, errorType)
    {
      if key !in effects { return Err(ValueError); }
      var row := effects[key];
      if row.status == Reserved {
        row := row.(status := Failed, error := Some(Text.Truncate(error, 2000)));
        row := WithErrorType(row, errorType);
        effects := effects[key := row];
        if release && row.provider in quotas {
          var quota := quotas[row.provider];
          quotas := quotas[row.provider := quota.(used := quota.used - row.units)];
        }
      } else if row.status != Failed {
        return Err(UncertainEffect);
      }
      return Ok(Reservation(key, row, false));
    }

    method Reconcile(key: string, result: Json) returns (r: Result<Reservation, LedgerError>)
      modifies this`effects
      ensures Step(Rows(), r) == MarkReconciled(old(Rows()), key, result)
    {
      if key !in effects || effects[key].status != Uncertain { return Err(UncertainEffect); }
      var row := effects[key].(status := Succeeded, result := Some(result), providerStatus := Some(PS.Succeeded));
      effects := effects[key := row];
      return Ok(Reservation(key, row, false));
    }
  }
}
