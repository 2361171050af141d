/**
 * One tenant-partitioned `background_job` table: its rows, and the column
 * assignments every statement of the worker performs on a row.
 * Ids, lease tokens and tenants are UUIDs, that is, 128-bit numbers; times are
 * milliseconds.
 */
module JobTable {
  import opened Common
  import JsonText

  type Uuid = id: nat | id < 0x1_0000_0000_0000_0000_0000_0000_0000_0000

  type JobType = JsonText.Text
  type JobId = Uuid
  type Token = Uuid
  type TenantId = Uuid

  datatype Status = Pending | Running | Succeeded | Failed

  datatype ErrorCode = HandlerError | PayloadInvalid | UnknownType | HandlerTimeout | LeaseLost

  datatype Row = Row(
    tenant: TenantId,
    kind: JobType,
    status: Status,
    attempts: nat,
    maxAttempts: nat,
    availableAt: int,
    token: Option<Token>,
    leaseExpiresAt: Option<int>,
    finishedAt: Option<int>,
    lastError: Option<ErrorCode>)
  {
    predicate Terminal() {
      status == Succeeded || status == Failed
    }
  }

  type Rows = map<JobId, Row>

  /** The column set a fenced update writes. */
  datatype Transition =
    | Renewal(expiresAt: int)
    | Success(finishedAt: int)
    | Reschedule(availableAt: int, code: ErrorCode)
    | TerminalFailure(finishedAt: int, code: ErrorCode)

  function NewRow(tenant: TenantId, kind: JobType, maxAttempts: nat, availableAt: int): Row {
    Row(tenant, kind, Pending, 0, maxAttempts, availableAt, None, None, None, None)
  }

  /** The update of a claim: a new attempt under a fresh lease. */
  function ClaimColumns(r: Row, token: Token, expiresAt: int): Row {
    r.(status := Running, attempts := r.attempts + 1, token := Some(token), leaseExpiresAt := Some(expiresAt))
  }

  function SetColumns(r: Row, t: Transition): Row {
    match t
    case Renewal(expiresAt) => r.(leaseExpiresAt := Some(expiresAt))
    case Success(finishedAt) =>
      r.(status := Succeeded, finishedAt := Some(finishedAt), token := None, leaseExpiresAt := None)
    case Reschedule(availableAt, code) =>
      r.(status := Pending, availableAt := availableAt, token := None, leaseExpiresAt := None, lastError := Some(code))
    case TerminalFailure(finishedAt, code) =>
      r.(status := Failed, finishedAt := Some(finishedAt), token := None, leaseExpiresAt := None,
         lastError := Some(code))
  }

  predicate Exhausted(r: Row) {
    r.attempts >= r.maxAttempts
  }

  /** The update of a recovery: back to the queue, or failed when no attempt is left. */
  function RecoverColumns(r: Row, now: int): Row {
    r.(status := if Exhausted(r) then Failed else Pending,
       finishedAt := if Exhausted(r) then Some(now) else None,
       availableAt := now, token := None, leaseExpiresAt := None, lastError := Some(LeaseLost))
  }

  /** The WHERE clause of every fenced update, apart from the job id. */
  predicate Fenced(r: Row, tenant: TenantId, token: Token, now: int) {
    && r.tenant == tenant
    && r.status == Running
    && r.token == Some(token)
    && r.leaseExpiresAt.Some? && now < r.leaseExpiresAt.value
  }

  /** One fenced update: the table afterwards, and whether a row matched. */
  function TransitionWhileLeased(rows: Rows, tenant: TenantId, job: JobId, token: Token, now: int, t: Transition)
    : (Rows, bool)
  {
    if job in rows && Fenced(rows[job], tenant, token, now)
    then (rows[job := SetColumns(rows[job], t)], true)
    else (rows, false)
  }

  /** The WHERE clause of the claim's select. */
  predicate Due(r: Row, tenant: TenantId, now: int) {
    r.tenant == tenant && r.status == Pending && r.availableAt <= now
  }

  /** The WHERE clause of the recovery's select. */
  predicate Expired(r: Row, tenant: TenantId, now: int) {
    r.tenant == tenant && r.status == Running && r.leaseExpiresAt.Some? && r.leaseExpiresAt.value <= now
  }

  /** The claim order: `available_at`, then `id`. */
  predicate Before(rows: Rows, a: JobId, b: JobId)
    requires a in rows && b in rows
  {
    rows[a].availableAt < rows[b].availableAt || (rows[a].availableAt == rows[b].availableAt && a < b)
  }
}
