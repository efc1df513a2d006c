/** Sync operations and the session status computed from them. Each store call is
    one atomic step on the table. */
module SyncOperations {
  import opened Text
  import opened Wrappers

  datatype Action = Upload | Download | Conflict | Noop

  datatype Status = Proposed | Transferring | Verified | Complete | Failed | Skipped

  datatype Operation = Operation(id: string, session: string, action: Action, status: Status,
                                 expectedHash: string, actualHash: string, target: string, bytes: int,
                                   failureCode: string)

  datatype SessionStatus = InTransfer | Done | Partial

  /** What RecalculateSyncSession writes. */
  datatype Summary = Summary(status: SessionStatus, uploaded: nat, downloaded: nat, conflicts: nat,
                             failureCode: string, finished: bool)

  datatype Error = NotFound | IdempotencyConflict | HashMismatch | CodeRequired | StoreFailure

  type Table = seq<Operation>

  /** The row with this session and id. */
  function Find(rows: Table, session: string, id: string): (r: Option<nat>)
    ensures r.Some? ==> r.value < |rows|
  {
    if rows == [] then None
    else if rows[0].session == session && rows[0].id == id then Some(0)
    else match Find(rows[1..], session, id) case None => None case Some(i) => Some(i + 1)
  }

  lemma {:induction false} FindFits(rows: Table, session: string, id: string)
    ensures match Find(rows, session, id)
            case Some(i) => i < |rows| && rows[i].session == session && rows[i].id == id
            case None => forall i | 0 <= i < |rows| :: !(rows[i].session == session && rows[i].id == id)
  {
    if rows != [] && !(rows[0].session == session && rows[0].id == id) {
      FindFits(rows[1..], session, id);
      assert forall i | 0 < i < |rows| :: rows[i] == rows[1..][i - 1];
    }
  }

  /*************** one operation ***************/

  /** CompleteSyncOperation on one row. */
  function Completing(op: Operation, actualHash: string, target: string, bytes: int): (Operation,
                      Result<Operation, Error>)
  {
    if op.status.Complete? then
      (op, if op.actualHash != actualHash || op.target != target then Err(IdempotencyConflict) else Ok(op))
    else if op.status.Failed? || op.status.Skipped? then
      (op, Err(IdempotencyConflict))
    else if op.expectedHash != "" && op.expectedHash != actualHash then
      (op.(status := Failed, actualHash := actualHash, failureCode := "hash_mismatch"), Err(HashMismatch))
    else
      var op' := op.(status := Complete, actualHash := actualHash, target := target, bytes := bytes);
      (op', Ok(op'))
  }

  /** FailSyncOperation on one row, its code already checked. */
  function Failing(op: Operation, failureCode: string, actualHash: string): (Operation, Result<Operation, Error>) {
    if op.status.Complete? then (op, Err(IdempotencyConflict))
    else
      var op' := op.(status := Failed, failureCode := failureCode, actualHash := actualHash);
      (op', Ok(op'))
  }

  /** At most this row was changed. */
  ghost predicate OnlyRow(before: Table, after: Table, i: nat) {
    i < |before| == |after| && forall j | 0 <= j < |before| && j != i :: after[j] == before[j]
  }

  /** Nothing is expected, or exactly this content. */
  predicate Expected(op: Operation, actualHash: string) {
    op.expectedHash == "" || op.expectedHash == actualHash
  }

  /** What completing does to its row, and how it is answered: expected content completes the
      operation, other content fails it, and what is decided stays. */
  ghost predicate Answers(op: Operation, now: Operation, actualHash: string, target: string, bytes: int, stored: bool,
                          r: Result<Operation, Error>)
  {
    match op.status
    case Complete =>
      now == op && r == if op.actualHash == actualHash && op.target == target then Ok(op) else Err(IdempotencyConflict)
    case Failed => now == op && r == Err(IdempotencyConflict)
    case Skipped => now == op && r == Err(IdempotencyConflict)
    case _ =>
      && (!stored ==> now == op && r.Err?)
      && (stored && Expected(op, actualHash) ==>
            r == Ok(now)
              && now == op.(status := Complete, actualHash := actualHash, target := target, bytes := bytes))
      && (!Expected(op, actualHash) ==> r == Err(HashMismatch))
      && (stored && !Expected(op, actualHash) ==>
            now == op.(status := Failed, actualHash := actualHash, failureCode := "hash_mismatch"))
  }

  /** Failing an operation: only a complete one refuses, and a code is needed. */
  ghost predicate Fails(op: Operation, now: Operation, failureCode: string, actualHash: string, stored: bool,
                        r: Result<Operation, Error>)
  {
    if Blank(failureCode) || !stored || op.status.Complete? then now == op && r.Err?
    else now == op.(status := Failed, failureCode := failureCode, actualHash := actualHash) && r == Ok(now)
  }

  predicate Terminal(status: Status) {
    status.Complete? || status.Failed? || status.Skipped?
  }

  /*************** the session ***************/

  function Count(rows: Table, session: string, counts: Operation -> bool): nat {
    if rows == [] then 0
    else (if rows[0].session == session && counts(rows[0]) then 1 else 0) + Count(rows[1..], session, counts)
  }

  predicate IsPending(op: Operation) { !Terminal(op.status) }

  predicate IsUpload(op: Operation) { op.action.Upload? && op.status.Complete? }

  predicate IsDownload(op: Operation) { op.action.Download? && op.status.Complete? }

  predicate IsConflict(op: Operation) { op.action.Conflict? }

  predicate IsFailure(op: Operation) { op.status.Failed? }

  function Recalculated(rows: Table, session: string): Summary {
    var pending := Count(rows, session, IsPending);
    var failures := Count(rows, session, IsFailure);
    Summary(
      if pending > 0 then InTransfer else if failures > 0 then Partial else Done,
      Count(rows, session, IsUpload), Count(rows, session, IsDownload), Count(rows, session, IsConflict),
      if pending == 0 && failures > 0 then "operation_failed" else "", pending == 0)
  }

  /** The operations of a session that are of some kind, by position. */
  ghost function Positions(rows: Table, session: string, counts: Operation -> bool): set<int> {
    set i | 0 <= i < |rows| && rows[i].session == session && counts(rows[i])
  }

  lemma {:induction false} CountAppend(a: Table, b: Table, session: string, counts: Operation -> bool)
    ensures Count(a + b, session, counts) == Count(a, session, counts) + Count(b, session, counts)
  {
    if a == [] {
      assert a + b == b;
    } else {
      CountAppend(a[1..], b, session, counts);
      assert (a + b)[1..] == a[1..] + b;
    }
  }

  lemma {:induction false} CountIsSize(rows: Table, session: string, counts: Operation -> bool)
    ensures Count(rows, session, counts) == |Positions(rows, session, counts)|
  {
    if rows == [] {
      assert Positions(rows, session, counts) == {};
    } else {
      var n := |rows| - 1;
      CountIsSize(rows[..n], session, counts);
      assert rows == rows[..n] + [rows[n]];
      CountAppend(rows[..n], [rows[n]], session, counts);
      assert Positions(rows, session, counts) == Positions(rows[..n], session, counts)
             + if rows[n].session == session && counts(rows[n]) then {n} else {};
    }
  }

  /** The summary tells how many operations there are of each kind, and whether any is open or failed. */
  ghost predicate Summarizes(rows: Table, session: string, s: Summary) {
    && s.uploaded == |set i | 0 <= i < |rows| && rows[i].session == session
                            && rows[i].action == Upload && rows[i].status == Complete|
    && s.downloaded == |set i | 0 <= i < |rows| && rows[i].session == session
                              && rows[i].action == Download && rows[i].status == Complete|
    && s.conflicts == |set i | 0 <= i < |rows| && rows[i].session == session && rows[i].action == Action.Conflict|
    && (s.finished <==> forall i | 0 <= i < |rows| && rows[i].session == session ::
            rows[i].status in {Complete, Failed, Skipped})
    && (s.status == InTransfer <==> !s.finished)
    && (s.status == Partial <==> s.finished && exists i ::
            0 <= i < |rows| && rows[i].session == session && rows[i].status == Failed)
    && s.failureCode == if s.status == Partial then "operation_failed" else ""
  }

  lemma {:induction false} CountZero(a: Table, session: string, counts: Operation -> bool)
    ensures Count(a, session, counts) == 0 <==> forall i | 0 <= i < |a| :: a[i].session == session ==> !counts(a[i])
  {
    if a != [] {
      CountZero(a[1..], session, counts);
      assert forall i | 0 < i < |a| :: a[i] == a[1..][i - 1];
    }
  }

  /** The counting queries give that summary. */
  lemma RecalculatedSummarizes(rows: Table, session: string)
    ensures Summarizes(rows, session, Recalculated(rows, session))
  {
    CountIsSize(rows, session, IsUpload);
    assert Positions(rows, session, IsUpload) ==
           set i | 0 <= i < |rows| && rows[i].session == session && rows[i].action == Upload
           && rows[i].status == Complete;
    CountIsSize(rows, session, IsDownload);
    assert Positions(rows, session, IsDownload) ==
           set i | 0 <= i < |rows| && rows[i].session == session && rows[i].action == Download
           && rows[i].status == Complete;
    CountIsSize(rows, session, IsConflict);
    assert Positions(rows, session, IsConflict) ==
           set i | 0 <= i < |rows| && rows[i].session == session && rows[i].action == Action.Conflict;
    CountZero(rows, session, IsPending);
    CountZero(rows, session, IsFailure);
  }

  /*************** the store ***************/

  /** Store calls that touch operations; recalculating a session changes none. */
  datatype Call =
    | InsertAll(added: Table)
    | CompleteOne(session: string, id: string, actualHash: string, target: string, bytes: int, stored: bool)
    | FailOne(session: string, id: string, failureCode: string, actualHash: string, stored: bool)

  function Apply(rows: Table, call: Call): Table {
    match call
    case InsertAll(added) => rows + added
    case CompleteOne(session, id, hash, target, bytes, stored) =>
      FindFits(rows, session, id);
      (match Find(rows, session, id)
       case Some(i) => if stored then rows[i := Completing(rows[i], hash, target, bytes).0] else rows
       case None => rows)
    case FailOne(session, id, code, hash, stored) =>
      FindFits(rows, session, id);
      (match Find(rows, session, id)
       case Some(i) => if stored && !Blank(code) then rows[i := Failing(rows[i], code, hash).0] else rows
       case None => rows)
  }

  class Store {
    var operations: Table
    var sessions: map<string, Summary>

    constructor ()
      ensures operations == [] && sessions == map[]
    {
      operations, sessions := [], map[];
    }

    /** The operations a new session is created with. */
    method InsertOperations(added: Table)
      modifies this
      ensures operations == old(operations) + added && sessions == old(sessions)
    {
      operations := operations + added;
    }

    method CompleteSyncOperation(session: string, id: string, actualHash: string, target: string, bytes: int,
                                 stored: bool)
      returns (r: Result<Operation, Error>)
      modifies this
      ensures sessions == old(sessions)
      ensures operations == Apply(old(operations), CompleteOne(session, id, actualHash, target, bytes, stored))
      ensures match Find(old(operations), session, id)
              case None => r == Err(NotFound)
              case Some(i) =>
                if stored || Completing(old(operations)[i], actualHash, target, bytes).0 == old(operations)[i]
                then r == Completing(old(operations)[i], actualHash, target, bytes).1 else r.Err?
      ensures match Find(old(operations), session, id)
              case None => operations == old(operations)
              case Some(i) =>
                && OnlyRow(old(operations), operations, i)
                && Answers(old(operations)[i], operations[i], actualHash, target, bytes, stored, r)
    {
      FindFits(operations, session, id);
      var found := Find(operations, session, id);
      if found.None? { return Err(NotFound); }
      var op := operations[found.value];
      if op.status.Complete? {
        return if op.actualHash != actualHash || op.target != target then Err(IdempotencyConflict) else Ok(op);
      }
      if op.status.Failed? || op.status.Skipped? { return Err(IdempotencyConflict); }
      if op.expectedHash != "" && op.expectedHash != actualHash {
        if stored {
          operations :=
            operations[found.value := op.(status := Failed, actualHash := actualHash, failureCode := "hash_mismatch")];
        }
        return Err(HashMismatch);
      }
      if !stored { return Err(StoreFailure); }
      op := op.(status := Complete, actualHash := actualHash, target := target, bytes := bytes);
      operations := operations[found.value := op];
      return Ok(op);
    }

    method FailSyncOperation(session: string, id: string, failureCode: string, actualHash: string, stored: bool)
      returns (r: Result<Operation, Error>)
      modifies this
      ensures sessions == old(sessions)
      ensures operations == Apply(old(operations), FailOne(session, id, failureCode, actualHash, stored))
      ensures Blank(failureCode) ==> r == Err(CodeRequired)
      ensures !stored ==> r.Err?
      ensures stored && !Blank(failureCode) ==>
                r == match Find(old(operations), session, id)
                     case None => Err(IdempotencyConflict)
                     case Some(i) => Failing(old(operations)[i], failureCode, actualHash).1
      ensures match Find(old(operations), session, id)
              case None => operations == old(operations)
              case Some(i) =>
                && OnlyRow(old(operations), operations, i)
                && Fails(old(operations)[i], operations[i], failureCode, actualHash, stored, r)
    {
      if Blank(failureCode) { return Err(CodeRequired); }
      if !stored { return Err(StoreFailure); }
      FindFits(operations, session, id);
      var found := Find(operations, session, id);
      if found.None? { return Err(IdempotencyConflict); }
      var op := operations[found.value];
      if op.status.Complete? { return Err(IdempotencyConflict); }
      op := op.(status := Failed, failureCode := failureCode, actualHash := actualHash);
      operations := operations[found.value := op];
      return Ok(op);
    }

    method RecalculateSyncSession(session: string) returns (r: Option<Summary>)
      modifies this
      ensures operations == old(operations)
      ensures session in old(sessions) ==>
                && r.Some? && sessions == old(sessions)[session := r.value]
                && r.value == Recalculated(operations, session) && Summarizes(operations, session, r.value)
      ensures session !in old(sessions) ==> r == None && sessions == old(sessions)
    {
      if session !in sessions { return None; }
      RecalculatedSummarizes(operations, session);
      sessions := sessions[session := Recalculated(operations, session)];
      r := Some(sessions[session]);
    }
  }

  /*************** runs ***************/

  function After(rows: Table, calls: seq<Call>): Table {
    if calls == [] then rows else Apply(After(rows, calls[..|calls| - 1]), calls[|calls| - 1])
  }

  /** Operations are inserted together with their session, never into an existing one. */
  predicate Legal(calls: seq<Call>, session: string) {
    forall i | 0 <= i < |calls| && calls[i].InsertAll? ::
      forall k | 0 <= k < |calls[i].added| :: calls[i].added[k].session != session
  }

  /** What time may do to an operation. */
  predicate Evolves(before: Operation, after: Operation) {
    && after.id == before.id && after.session == before.session && after.action == before.action
    && (before.status.Complete? ==> after == before)
    && (before.status.Failed? ==> after.status.Failed?)
    && (before.status.Skipped? ==> after.status.Skipped? || after.status.Failed?)
  }

  ghost predicate AllEvolve(before: Table, after: Table, session: string) {
    && |before| <= |after|
    && (forall i | 0 <= i < |before| :: Evolves(before[i], after[i]))
    && (forall i | |before| <= i < |after| :: after[i].session != session)
  }

  lemma ApplyEvolves(rows: Table, call: Call, session: string)
    requires Legal([call], session)
    ensures AllEvolve(rows, Apply(rows, call), session)
  {
    assert [call][0] == call;
    match call
    case InsertAll(_) =>
    case CompleteOne(s, id, _, _, _, _) => FindFits(rows, s, id);
    case FailOne(s, id, _, _, _) => FindFits(rows, s, id);
  }

  lemma EvolveChain(a: Table, b: Table, c: Table, session: string)
    requires AllEvolve(a, b, session) && AllEvolve(b, c, session)
    ensures AllEvolve(a, c, session)
  {
    forall i | |a| <= i < |c| ensures c[i].session != session {
      if i < |b| { assert Evolves(b[i], c[i]); }
    }
  }

  /** complete is final to the last field, failed and finished are final. */
  lemma {:induction false} RunEvolves(rows: Table, calls: seq<Call>, session: string)
    requires Legal(calls, session)
    ensures AllEvolve(rows, After(rows, calls), session)
  {
    if calls != [] {
      var (init, last) := (calls[..|calls| - 1], calls[|calls| - 1]);
      RunEvolves(rows, init, session);
      ApplyEvolves(After(rows, init), last, session);
      EvolveChain(rows, After(rows, init), After(rows, calls), session);
    }
  }

  /*************** only expected content completes ***************/

  /** A complete operation has the content that was expected of it. */
  predicate Honest(op: Operation) {
    op.status.Complete? ==> Expected(op, op.actualHash)
  }

  ghost predicate AllHonest(rows: Table) {
    forall i | 0 <= i < |rows| :: Honest(rows[i])
  }

  lemma ApplyStaysHonest(rows: Table, call: Call)
    requires AllHonest(rows) && (call.InsertAll? ==> AllHonest(call.added))
    ensures AllHonest(Apply(rows, call))
  {
    match call
    case InsertAll(_) =>
    case CompleteOne(s, id, _, _, _, _) => FindFits(rows, s, id);
    case FailOne(s, id, _, _, _) => FindFits(rows, s, id);
  }

  /** Over every run: when operations are inserted honestly, all stay honest. */
  lemma {:induction false} RunsStayHonest(rows: Table, calls: seq<Call>)
    requires AllHonest(rows) && forall i | 0 <= i < |calls| && calls[i].InsertAll? :: AllHonest(calls[i].added)
    ensures AllHonest(After(rows, calls))
  {
    if calls != [] {
      RunsStayHonest(rows, calls[..|calls| - 1]);
      ApplyStaysHonest(After(rows, calls[..|calls| - 1]), calls[|calls| - 1]);
    }
  }

  lemma ApplyCompletesExpected(rows: Table, call: Call, i: nat)
    requires i < |rows|
    ensures i < |Apply(rows, call)| && Apply(rows, call)[i].expectedHash == rows[i].expectedHash
    ensures !rows[i].status.Complete? && Apply(rows, call)[i].status.Complete? ==>
              Expected(rows[i], Apply(rows, call)[i].actualHash)
    ensures rows[i].status.Complete? ==> Apply(rows, call)[i] == rows[i]
  {
    match call
    case InsertAll(_) =>
    case CompleteOne(s, id, _, _, _, _) => FindFits(rows, s, id);
    case FailOne(s, id, _, _, _) => FindFits(rows, s, id);
  }

  /** Whatever is called: an operation that has become complete got the content it expected. */
  lemma {:induction false} CompletedAsExpected(rows: Table, calls: seq<Call>, i: nat)
    requires i < |rows|
    ensures i < |After(rows, calls)| && After(rows, calls)[i].expectedHash == rows[i].expectedHash
    ensures !rows[i].status.Complete? && After(rows, calls)[i].status.Complete? ==>
              Expected(rows[i], After(rows, calls)[i].actualHash)
  {
    if calls != [] {
      CompletedAsExpected(rows, calls[..|calls| - 1], i);
      ApplyCompletesExpected(After(rows, calls[..|calls| - 1]), calls[|calls| - 1], i);
    }
  }

  /*************** counts ***************/

  lemma {:induction false} CountOthers(a: Table, session: string, counts: Operation -> bool)
    requires forall i | 0 <= i < |a| :: a[i].session != session
    ensures Count(a, session, counts) == 0
  {
    if a != [] { CountOthers(a[1..], session, counts); }
  }

  lemma {:induction false} CountMonotone(a: Table, b: Table, session: string, counts: Operation -> bool)
    requires |a| == |b|
    requires forall i | 0 <= i < |a| :: a[i].session == b[i].session && (counts(a[i]) ==> counts(b[i]))
    ensures Count(a, session, counts) <= Count(b, session, counts)
  {
    if a != [] { CountMonotone(a[1..], b[1..], session, counts); }
  }

  lemma CountGrows(a: Table, b: Table, session: string, counts: Operation -> bool)
    requires AllEvolve(a, b, session) && forall i | 0 <= i < |a| :: counts(a[i]) ==> counts(b[i])
    ensures Count(a, session, counts) <= Count(b, session, counts)
  {
    assert b == b[..|a|] + b[|a|..];
    CountAppend(b[..|a|], b[|a|..], session, counts);
    CountMonotone(a, b[..|a|], session, counts);
  }

  lemma CountShrinks(a: Table, b: Table, session: string, counts: Operation -> bool)
    requires AllEvolve(a, b, session) && forall i | 0 <= i < |a| :: counts(b[i]) ==> counts(a[i])
    ensures Count(b, session, counts) <= Count(a, session, counts)
  {
    assert b == b[..|a|] + b[|a|..];
    CountAppend(b[..|a|], b[|a|..], session, counts);
    CountOthers(b[|a|..], session, counts);
    CountMonotone(b[..|a|], a, session, counts);
  }

  /** Over every run the pending count never rises and the totals never fall. */
  lemma TotalsAreMonotone(rows: Table, calls: seq<Call>, session: string)
    requires Legal(calls, session)
    ensures var after := After(rows, calls);
      && Count(after, session, IsPending) <= Count(rows, session, IsPending)
      && Count(after, session, IsUpload) >= Count(rows, session, IsUpload)
      && Count(after, session, IsDownload) >= Count(rows, session, IsDownload)
      && Count(after, session, IsFailure) >= Count(rows, session, IsFailure)
  {
    RunEvolves(rows, calls, session);
    var after := After(rows, calls);
    CountShrinks(rows, after, session, IsPending);
    CountGrows(rows, after, session, IsUpload);
    CountGrows(rows, after, session, IsDownload);
    CountGrows(rows, after, session, IsFailure);
  }

  /*************** replays ***************/

  /** A completed operation answers a repeat with itself, and anything else with a
      conflict, changing nothing, however much happened in between. */
  lemma ReplayedCompletion(rows: Table, calls: seq<Call>, i: nat, hash: string, target: string, bytes: int,
                           hash': string, target': string, bytes': int)
    requires i < |rows| && Legal(calls, rows[i].session) && Completing(rows[i], hash, target, bytes).1.Ok?
    ensures var op := Completing(rows[i], hash, target, bytes).0;
      var later := After(rows[i := op], calls);
      && |later| > i && later[i] == op
      && Completing(later[i], hash', target', bytes') ==
         (op, if hash' == hash && target' == target then Ok(op) else Err(IdempotencyConflict))
  {
    var op := Completing(rows[i], hash, target, bytes).0;
    RunEvolves(rows[i := op], calls, op.session);
    assert Evolves(rows[i := op][i], After(rows[i := op], calls)[i]);
  }

  /*************** finished sessions ***************/

  lemma StatusMeans(rows: Table, session: string)
    ensures Recalculated(rows, session).status.InTransfer? <==>
              exists i :: 0 <= i < |rows| && rows[i].session == session && IsPending(rows[i])
    ensures Recalculated(rows, session).status.Done? <==>
              forall i | 0 <= i < |rows| && rows[i].session == session ::
                  rows[i].status.Complete? || rows[i].status.Skipped?
  {
    CountZero(rows, session, IsPending);
    CountZero(rows, session, IsFailure);
  }

  /** A partial session stays partial. */
  lemma PartialIsFinal(rows: Table, calls: seq<Call>, session: string)
    requires Legal(calls, session) && Recalculated(rows, session).status.Partial?
    ensures Recalculated(After(rows, calls), session).status.Partial?
  {
    TotalsAreMonotone(rows, calls, session);
  }

  /** The operation id is the table's primary key. */
  predicate PrimaryKey(rows: Table) {
    forall i, j | 0 <= i < |rows| && 0 <= j < |rows| && rows[i].id == rows[j].id :: i == j
  }

  /** Whatever happens next, the session still counts as complete. */
  ghost predicate CompleteForGood(rows: Table, session: string) {
    forall calls: seq<Call> | Legal(calls, session) :: Recalculated(After(rows, calls), session).status.Done?
  }

  predicate NothingSkipped(rows: Table, session: string) {
    forall i | 0 <= i < |rows| && rows[i].session == session :: !rows[i].status.Skipped?
  }

  lemma CompleteStays(rows: Table, calls: seq<Call>, session: string)
    requires Legal(calls, session) && Recalculated(rows, session).status.Done? && NothingSkipped(rows, session)
    ensures Recalculated(After(rows, calls), session).status.Done?
  {
    StatusMeans(rows, session);
    RunEvolves(rows, calls, session);
    var after := After(rows, calls);
    forall i | 0 <= i < |after| && after[i].session == session ensures after[i].status.Complete? {
      assert i < |rows|;
      assert Evolves(rows[i], after[i]);
    }
    StatusMeans(after, session);
  }

  lemma SkippedCanFail(rows: Table, session: string, i: nat, call: Call)
    requires PrimaryKey(rows) && i < |rows| && rows[i].session == session && rows[i].status.Skipped?
    requires call == FailOne(session, rows[i].id, "x", "", true)
    ensures Legal([call], session) && |After(rows, [call])| > i && After(rows, [call])[i].status.Failed?
  {
    FindFits(rows, session, rows[i].id);
    var found := Find(rows, session, rows[i].id);
    assert found == Some(i);
    assert [call][..0] == [] && After(rows, []) == rows;
    assert TrimRight("x") == "x";
  }

  /** A complete session is final exactly when none of its operations was skipped:
      failing a skipped operation turns it into a partial one. */
  lemma CompleteIsFinalIffNothingSkipped(rows: Table, session: string)
    requires PrimaryKey(rows) && Recalculated(rows, session).status.Done?
    ensures CompleteForGood(rows, session) <==> NothingSkipped(rows, session)
  {
    if NothingSkipped(rows, session) {
      forall calls: seq<Call> | Legal(calls, session) ensures Recalculated(After(rows, calls), session).status.Done? {
        CompleteStays(rows, calls, session);
      }
    } else {
      var i :| 0 <= i < |rows| && rows[i].session == session && rows[i].status.Skipped?;
      var call := FailOne(session, rows[i].id, "x", "", true);
      SkippedCanFail(rows, session, i, call);
      RunEvolves(rows, [call], session);
      assert Evolves(rows[i], After(rows, [call])[i]);
      StatusMeans(After(rows, [call]), session);
      assert !Recalculated(After(rows, [call]), session).status.Done?;
    }
  }
}
