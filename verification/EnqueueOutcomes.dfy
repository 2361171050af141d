/** What enqueuing accepts, and what it writes: the new job and its audit row, column by column. */
module EnqueueOutcomes {
  import opened Common
  import opened JsonText
  import opened CanonicalPayload
  import opened JobTable
  import opened JobEnqueue

  // ------------------------------------------------------------------- job type names

  /** A letter, then letters, digits and underscores. */
  predicate Segment(t: Text) {
    t != [] && 97 <= t[0] <= 122 &&
    forall i :: 0 <= i < |t| ==> 97 <= t[i] <= 122 || 48 <= t[i] <= 57 || t[i] == 95
  }

  predicate Segments(parts: seq<Text>) {
    forall i :: 0 <= i < |parts| ==> Segment(parts[i])
  }

  /** The parts with a dot between any two. */
  function Joined(parts: seq<Text>): Text {
    if parts == [] then [] else if |parts| == 1 then parts[0] else parts[0] + ([46] + Joined(parts[1..]))
  }

  /** A name read from inside its first segment splits into segments. */
  lemma {:induction false} NameSplits(t: Text, front: Text, dotted: bool) returns (parts: seq<Text>)
    requires Segment(front) && DottedName(t, dotted, true)
    ensures Segments(parts) && parts != [] && front + t == Joined(parts) && (dotted || |parts| >= 2)
    decreases |t|
  {
    hide Segment, Joined;
    if t == [] {
      parts := [front];
      OnePart(front);
    } else if t[0] == 46 {
      SegmentBegins(t[1..]);
      var more := NameSplits(t[2..], [t[1]], true);
      parts := [front] + more;
      FrontPart(front, t, more);
    } else {
      SegmentGrows(front, t[0]);
      parts := NameSplits(t[1..], front + [t[0]], dotted);
      assert front + t == (front + [t[0]]) + t[1..];
    }
  }

  lemma OnePart(front: Text)
    ensures front + [] == Joined([front])
  {
  }

  lemma SegmentBegins(t: Text)
    requires DottedName(t, true, false)
    ensures t != [] && Segment([t[0]]) && DottedName(t[1..], true, true)
  {
  }

  lemma SegmentGrows(front: Text, c: CodeUnit)
    requires Segment(front) && NameUnit(c)
    ensures Segment(front + [c])
  {
  }

  lemma FrontPart(front: Text, t: Text, more: seq<Text>)
    requires |t| >= 2 && t[0] == 46 && more != [] && [t[1]] + t[2..] == Joined(more)
    ensures front + t == Joined([front] + more)
  {
    var parts := [front] + more;
    assert parts[1..] == more;
    assert t == [46] + ([t[1]] + t[2..]);
  }

  lemma {:induction false} JoinedIsDotted(parts: seq<Text>, dotted: bool)
    requires Segments(parts) && parts != [] && (dotted || |parts| >= 2)
    ensures DottedName(Joined(parts), dotted, false)
    decreases |parts|
  {
    var first, more := parts[0], parts[1..];
    assert Segment(first);
    if more == [] {
      SegmentThen(first, [], dotted);
      assert first + [] == first;
    } else {
      JoinedIsDotted(more, true);
      assert ([46] + Joined(more))[1..] == Joined(more);
      assert DottedName([46] + Joined(more), dotted, true);
      SegmentThen(first, [46] + Joined(more), dotted);
    }
  }

  /** A segment is read whole. */
  lemma SegmentThen(s: Text, rest: Text, dotted: bool)
    requires Segment(s) && DottedName(rest, dotted, true)
    ensures DottedName(s + rest, dotted, false)
  {
    InsideThen(s[1..], rest, dotted);
    assert (s + rest)[1..] == s[1..] + rest;
  }

  lemma {:induction false} InsideThen(s: Text, rest: Text, dotted: bool)
    requires (forall i :: 0 <= i < |s| ==> 97 <= s[i] <= 122 || 48 <= s[i] <= 57 || s[i] == 95) && DottedName(rest, dotted, true)
    ensures DottedName(s + rest, dotted, true)
  {
    if s == [] {
      assert s + rest == rest;
    } else {
      InsideThen(s[1..], rest, dotted);
      assert (s + rest)[1..] == s[1..] + rest;
    }
  }

  /** A job type is two or more segments joined by dots, of at most 128 characters. */
  lemma JobTypeExactly(t: Text)
    ensures JobTypeName(t) <==> |t| <= 128 && exists parts: seq<Text> :: |parts| >= 2 && Segments(parts) && t == Joined(parts)
  {
    if JobTypeName(t) {
      assert t != [];
      var parts := NameSplits(t[1..], [t[0]], false);
      assert [t[0]] + t[1..] == t;
    }
    if exists parts: seq<Text> :: |parts| >= 2 && Segments(parts) && t == Joined(parts) {
      var parts: seq<Text> :| |parts| >= 2 && Segments(parts) && t == Joined(parts);
      JoinedIsDotted(parts, false);
    }
  }

  // ------------------------------------------------------------------------ validation

  /** The budget of a job: the caller's, else the definition's, else 3. */
  function Budget(registry: Registry, input: Input): int
    requires input.kind in registry
  {
    match (input.maxAttempts, registry[input.kind].maxAttempts)
    case (Some(n), _) => n
    case (None, Some(n)) => n
    case (None, None) => 3
  }

  /** The first check that fails decides; when none does, the payload is the definition's reading of it. */
  lemma ValidExactly(registry: Registry, input: Input)
    ensures Validate(registry, input) ==
              if !JobTypeName(input.kind) then Err(InvalidTypeName)
              else if input.kind !in registry then Err(UnregisteredType)
              else if |input.key| > 128 || (forall i :: 0 <= i < |input.key| ==> WhiteSpace(input.key[i])) then Err(InvalidKey)
              else if Budget(registry, input) < 1 || Budget(registry, input) > 10 then Err(InvalidMaxAttempts)
              else if input.schedule == InvalidDate then Err(InvalidAvailableAt)
              else
                var parsed := registry[input.kind].parse(input.payload);
                if parsed == None then Err(PayloadRejected)
                else
                  var text := SerializeJobPayload(parsed.value);
                  if text.Err? then Err(PayloadTooLarge(text.error.bytes)) else Ok(parsed.value)
  {
    hide DottedName, SerializeJobPayload;
  }

  // ------------------------------------------------------------------ what is written

  /** When a job is first due: the given time, or the database's when none is given. */
  function FirstDue(input: Input, w: World): int {
    if input.schedule.At? then input.schedule.time else w.dbNow
  }

  /**
   * An accepted new enqueue adds one row, with the caller's tenant, type, key, budget, schedule, actor and
   * request id and a payload that is the definition's reading up to member order; and one audit row of
   * the same tenant, actor, job and type.
   */
  lemma NewJobExactly(registry: Registry, t: Tables, c: Context, input: Input, w: World)
    requires Consistent(t) && Plausible(t, w) && ParsersWellFormed(registry) && WellFormed(input.payload)
    requires Enqueued(registry, t, c, input, w).1.Ok? && Enqueued(registry, t, c, input, w).1.value.created
    ensures input.kind in registry && registry[input.kind].parse(input.payload).Some?
    ensures var (t', r) := Enqueued(registry, t, c, input, w);
            var id := r.value.id;
      && id == w.freshId && id !in t.jobs && id in t'.jobs
      && t'.jobs[id] == Job(c.tenant, input.kind, input.key, t'.jobs[id].payload, Budget(registry, input),
                            FirstDue(input, w), c.actor, c.requestId)
      && Equivalent(t'.jobs[id].payload, registry[input.kind].parse(input.payload).value)
      && t'.jobs == t.jobs[id := t'.jobs[id]]
      && t'.audits == t.audits + [Audit(c.tenant, c.actor, id, input.kind)]
  {
    hide Enqueued, Consistent, HasKey, SerializeJobPayload, Canonicalize, Parse, Validate, JobTypeName,
         WellFormed, Equivalent;
    EnqueuedCases(registry, t, c, input, w);
    ValidExactly(registry, input);
    var parsed := Validate(registry, input).value;
    ValidatedWellFormed(registry, input);
    hide ParsersWellFormed;
    PayloadKept(parsed, w.reorder);
  }

  lemma PayloadKept(parsed: Json, reorder: Json -> Json)
    requires WellFormed(parsed)
    requires forall v {:trigger reorder(v)} :: WellFormed(v) ==> WellFormed(reorder(v)) && Equivalent(reorder(v), v)
    ensures Equivalent(reorder(Canonicalize(parsed)), parsed)
  {
    CanonicalWellFormed(parsed);
    var stored := reorder(Canonicalize(parsed));
    EquivalentCanonical(stored, Canonicalize(parsed));
    CanonicalIsEquivalent(parsed);
    EquivalentCanonical(Canonicalize(parsed), parsed);
    CanonicalEquivalent(stored, parsed);
  }

  /** A job of the tenant, of the type, under the idempotency key. */
  predicate IsJobFor(j: Job, c: Context, input: Input) {
    j.tenant == c.tenant && j.kind == input.kind && j.key == input.key
  }

  /**
   * A valid enqueue is a repeat exactly when the tenant has a job of that type under that key already, and whatever
   * job it answers with, new, repeated or in conflict, is that one.
   */
  lemma AnswersOwnJob(registry: Registry, t: Tables, c: Context, input: Input, w: World)
    requires Consistent(t) && ParsersWellFormed(registry) && WellFormed(input.payload) && Validate(registry, input).Ok?
    ensures var (t', r) := Enqueued(registry, t, c, input, w);
            var repeated := exists id :: id in t.jobs && IsJobFor(t.jobs[id], c, input);
      && (repeated <==> (r.Ok? && !r.value.created) || (r.Err? && r.error.Conflict?))
      && (r.Ok? ==> r.value.id in t'.jobs && IsJobFor(t'.jobs[r.value.id], c, input))
      && (r.Err? && r.error.Conflict? ==> r.error.id in t.jobs && IsJobFor(t.jobs[r.error.id], c, input))
      && (repeated ==> t' == t)
  {
    hide Consistent, SerializeJobPayload, Canonicalize, Parse, Validate, JobTypeName, WellFormed, ParsersWellFormed;
  }

  // -------------------------------------------------------------------- when it is due

  /** The row that the worker sees of a job nobody has claimed. */
  function RowOf(j: Job): Row
    requires j.maxAttempts >= 0
  {
    NewRow(j.tenant, j.kind, j.maxAttempts, j.availableAt)
  }

  /**
   * Whatever other transactions follow, a job is due to its tenant's workers exactly from the time it was
   * scheduled for: not before, and at every reading of the clock from then on.
   */
  lemma DueExactly(registry: Registry, t: Tables, c: Context, input: Input, w: World, txns: seq<Txn>,
                   tenant: TenantId, now: int)
    requires Consistent(t) && Plausible(t, w) && ParsersWellFormed(registry) && WellFormed(input.payload)
    requires Enqueued(registry, t, c, input, w).1.Ok? && Enqueued(registry, t, c, input, w).1.value.created
    requires AllSound(registry, Enqueued(registry, t, c, input, w).0, txns)
    ensures var later := RunAll(registry, Enqueued(registry, t, c, input, w).0, txns);
            w.freshId in later.jobs && later.jobs[w.freshId].maxAttempts >= 0 &&
            (Due(RowOf(later.jobs[w.freshId]), tenant, now) <==> tenant == c.tenant && FirstDue(input, w) <= now)
  {
    hide Consistent, ParsersWellFormed, Plausible, Enqueued, AllSound, RunAll, WellFormed, Equivalent;
    NewJobExactly(registry, t, c, input, w);
    EnqueueKeepsConsistent(registry, t, c, input, w);
    var t1 := Enqueued(registry, t, c, input, w).0;
    HistoryKeeps(registry, t1, txns);
    BudgetInRange(t1, w.freshId);
  }

  lemma BudgetInRange(t: Tables, id: JobId)
    requires Consistent(t) && id in t.jobs
    ensures 1 <= t.jobs[id].maxAttempts <= 10
  {
    hide KeysUnique, WellFormed, SerializeJobPayload, AuditedJobs;
  }
}
