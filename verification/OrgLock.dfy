/**
 * Any number of transactions over any number of organizations, interleaved statement by
 * statement. Each takes its organization's row lock first; under that discipline every
 * interleaving is equivalent to running the operations whole, one at a time, in lock order.
 */
module OrgLock {
  import opened Wrappers
  import opened OrgTables
  import opened OrgRuns
  import opened OrgScripts

  type TxId = nat

  /**
   * What the operations do: the next statement after some snapshots, the effect and result of
   * the remaining statements over rows that do not change, and the effect and result of the whole.
   */
  datatype Service = Service(
    next: (Operation, int, seq<Tables>) -> Action,
    rest: (Operation, int, Tables, seq<Tables>, seq<OrgTables.Write>) -> (Tables, Outcome),
    whole: (Operation, int, Tables) -> (Tables, Outcome))
  {
    /** `rest` agrees with the next statement. */
    ghost predicate Follows(op: Operation, at: int, t: Tables, h: seq<Tables>, ws: seq<OrgTables.Write>) {
      rest(op, at, t, h, ws) ==
      match next(op, at, h)
      case Read => rest(op, at, t, h + [View(t, ws)], ws)
      case Write(w) => rest(op, at, t, h + [View(t, ws + [w])], ws + [w])
      case Finish(commit, outcome) => (if commit then View(t, ws) else t, outcome)
    }

    /** Whether to read on does not depend on the clock, which only the writes carry. */
    ghost predicate ReadsAlike(op: Operation, at: int, at': int, h: seq<Tables>) {
      next(op, at, h).Read? ==> next(op, at', h).Read?
    }

    /** `rest` follows the statements one by one, and from the start it is `whole`. */
    ghost predicate Lawful() {
      && (forall op, at, t :: rest(op, at, t, [], []) == whole(op, at, t))
      && (forall op, at, t, h, ws :: Follows(op, at, t, h, ws))
      && (forall op, at, at', h :: ReadsAlike(op, at, at', h))
    }
  }

  /** The rows after running `reqs` whole, one at a time. */
  function RunAlone(svc: Service, t: Tables, reqs: seq<Request>): Tables {
    if reqs == [] then t else svc.whole(Last(reqs).op, Last(reqs).at, RunAlone(svc, t, Front(reqs))).0
  }

  /** `at` is the clock of the first write, or of the end when nothing is written. */
  datatype Phase =
    | Waiting
    | Running(at: int, snapshots: seq<Tables>, writes: seq<OrgTables.Write>)
    | Ended(at: int, outcome: Outcome)
    | Aborted // lock timeout, deadlock or a lost connection: nothing was written

  datatype Transaction = Transaction(org: OrgId, op: Operation, phase: Phase)

  /** `log` lists the transactions in the order in which they took their lock. */
  datatype System = System(
    db: map<OrgId, Tables>, holder: map<OrgId, TxId>, txs: map<TxId, Transaction>, log: seq<TxId>, clock: int)

  datatype Event =
    | Begin(tx: TxId, org: OrgId, op: Operation)
    | Lock(tx: TxId)
    | Statement(tx: TxId)
    | End(tx: TxId)
    | Abort(tx: TxId)
    | Tick(clock: int)

  predicate IsRunning(s: System, id: TxId) {
    id in s.txs && s.txs[id].phase.Running?
  }

  /** The clock a transaction writes with: the present one, until its first write fixes it. */
  function ClockOf(s: System, id: TxId): int
    requires IsRunning(s, id)
  {
    if s.txs[id].phase.writes == [] then s.clock else s.txs[id].phase.at
  }

  function NextOf(svc: Service, s: System, id: TxId): Action
    requires IsRunning(s, id)
  {
    svc.next(s.txs[id].op, ClockOf(s, id), s.txs[id].phase.snapshots)
  }

  /** The clock an operation carries was read when it began, before it asked for the lock. */
  predicate CarriesClock(op: Operation, clock: int) {
    match op
    case Create(_, _, _, _, now) => now == clock
    case Reissue(_, _, _, now) => now == clock
    case Cancel(_, _, now) => now == clock
    case Accept(_, _, now) => now == clock
    case _ => true
  }

  function SetPhase(s: System, id: TxId, phase: Phase): System
    requires id in s.txs
  {
    s.(txs := s.txs[id := s.txs[id].(phase := phase)])
  }

  predicate CanLock(s: System, id: TxId) {
    id in s.txs && s.txs[id].phase.Waiting? && s.txs[id].org in s.db && s.txs[id].org !in s.holder
  }

  function TakeLock(s: System, id: TxId): System
    requires CanLock(s, id)
  {
    SetPhase(s, id, Running(s.clock, [], [])).(holder := s.holder[s.txs[id].org := id], log := s.log + [id])
  }

  predicate CanRun(svc: Service, s: System, id: TxId) {
    IsRunning(s, id) && s.txs[id].org in s.db && !NextOf(svc, s, id).Finish?
  }

  /** One statement: its snapshot joins the others, and a write becomes visible to its own transaction. */
  function RunStatement(svc: Service, s: System, id: TxId): System
    requires CanRun(svc, s, id)
  {
    var p, t := s.txs[id].phase, s.db[s.txs[id].org];
    var writes := match NextOf(svc, s, id) case Write(w) => p.writes + [w] case _ => p.writes;
    SetPhase(s, id, Running(ClockOf(s, id), p.snapshots + [View(t, writes)], writes))
  }

  predicate CanEnd(svc: Service, s: System, id: TxId) {
    IsRunning(s, id) && s.txs[id].org in s.db && NextOf(svc, s, id).Finish?
  }

  /** Commit or roll back, and let the lock go. */
  function EndTransaction(svc: Service, s: System, id: TxId): System
    requires CanEnd(svc, s, id)
  {
    var p, org, action := s.txs[id].phase, s.txs[id].org, NextOf(svc, s, id);
    var t := if action.commit then View(s.db[org], p.writes) else s.db[org];
    SetPhase(s, id, Ended(ClockOf(s, id), action.outcome)).(db := s.db[org := t], holder := s.holder - {org})
  }

  predicate CanAbort(s: System, id: TxId) {
    id in s.txs && (s.txs[id].phase.Waiting? || s.txs[id].phase.Running?)
  }

  function AbortTransaction(s: System, id: TxId): System
    requires CanAbort(s, id)
  {
    SetPhase(s, id, Aborted).(holder := if IsRunning(s, id) then s.holder - {s.txs[id].org} else s.holder)
  }

  predicate Enabled(svc: Service, s: System, e: Event) {
    match e
    case Begin(id, _, op) => id !in s.txs && CarriesClock(op, s.clock)
    case Lock(id) => CanLock(s, id)
    case Statement(id) => CanRun(svc, s, id)
    case End(id) => CanEnd(svc, s, id)
    case Abort(id) => CanAbort(s, id)
    case Tick(_) => true
  }

  function Do(svc: Service, s: System, e: Event): System
    requires Enabled(svc, s, e)
  {
    match e
    case Begin(id, org, op) => s.(txs := s.txs[id := Transaction(org, op, Waiting)])
    case Lock(id) => TakeLock(s, id)
    case Statement(id) => RunStatement(svc, s, id)
    case End(id) => EndTransaction(svc, s, id)
    case Abort(id) => AbortTransaction(s, id)
    case Tick(clock) => s.(clock := clock)
  }

  predicate Initial(s: System) {
    s.holder == map[] && s.txs == map[] && s.log == []
  }

  ghost predicate IsRun(svc: Service, ss: seq<System>, es: seq<Event>) {
    && |ss| == |es| + 1
    && Initial(ss[0])
    && forall k :: 0 <= k < |es| ==> Enabled(svc, ss[k], es[k]) && ss[k + 1] == Do(svc, ss[k], es[k])
  }

  // ── the sequential reading of a state ────────────────────────────────────

  predicate EndedOn(txs: map<TxId, Transaction>, id: TxId, org: OrgId) {
    id in txs && txs[id].phase.Ended? && txs[id].org == org
  }

  function RequestOf(tx: Transaction): Request
    requires tx.phase.Ended?
  {
    Request(tx.op, tx.phase.at)
  }

  /** The finished requests on `org`, in lock order. */
  function Finished(txs: map<TxId, Transaction>, log: seq<TxId>, org: OrgId): seq<Request> {
    if log == [] then []
    else
      var before := Finished(txs, Front(log), org);
      if EndedOn(txs, Last(log), org) then before + [RequestOf(txs[Last(log)])] else before
  }

  /** The whole database after running every finished operation alone, in lock order. */
  function RunWhole(svc: Service, db: map<OrgId, Tables>, txs: map<TxId, Transaction>, log: seq<TxId>)
    : map<OrgId, Tables>
  {
    if log == [] then db
    else
      var before := RunWhole(svc, db, txs, Front(log));
      var id := Last(log);
      if id in txs && txs[id].phase.Ended? && txs[id].org in before
      then before[txs[id].org := svc.whole(txs[id].op, txs[id].phase.at, before[txs[id].org]).0]
      else before
  }

  /** The result `log[p]` would get if every earlier operation had run whole before it. */
  function ResultAlone(svc: Service, db: map<OrgId, Tables>, txs: map<TxId, Transaction>, log: seq<TxId>,
      p: nat): Outcome
    requires p < |log| && log[p] in txs && txs[log[p]].phase.Ended? && txs[log[p]].org in db
  {
    var tx := txs[log[p]];
    svc.whole(tx.op, tx.phase.at, RunAlone(svc, db[tx.org], Finished(txs, log[..p], tx.org))).1
  }

  predicate HasEnded(txs: map<TxId, Transaction>, id: TxId) {
    id in txs && txs[id].phase.Ended?
  }

  ghost predicate RowsSequential(svc: Service, db: map<OrgId, Tables>, s: System) {
    && s.db.Keys == db.Keys
    && forall o :: o in db ==> s.db[o] == RunAlone(svc, db[o], Finished(s.txs, s.log, o))
  }

  ghost predicate ResultSequential(svc: Service, db: map<OrgId, Tables>, s: System, p: nat)
    requires p < |s.log| && HasEnded(s.txs, s.log[p])
  {
    && s.txs[s.log[p]].org in db
    && s.txs[s.log[p]].phase.outcome == ResultAlone(svc, db, s.txs, s.log, p)
  }

  /** Rows and results are those of the sequential run in lock order. */
  ghost predicate Sequential(svc: Service, db: map<OrgId, Tables>, s: System) {
    && RowsSequential(svc, db, s)
    && (forall p :: 0 <= p < |s.log| && HasEnded(s.txs, s.log[p]) ==> ResultSequential(svc, db, s, p))
    && (forall id :: HasEnded(s.txs, id) ==> id in s.log)
  }

  // ── reading the log ──────────────────────────────────────────────────────

  ghost predicate SameEnded(txs: map<TxId, Transaction>, txs': map<TxId, Transaction>) {
    forall id :: HasEnded(txs, id) || HasEnded(txs', id) ==> id in txs && id in txs' && txs'[id] == txs[id]
  }

  /** Only finished transactions matter to the sequential reading. */
  lemma {:induction false} SameReading(txs: map<TxId, Transaction>, txs': map<TxId, Transaction>, log: seq<TxId>,
      org: OrgId)
    requires SameEnded(txs, txs')
    ensures Finished(txs', log, org) == Finished(txs, log, org)
  {
    if log != [] {
      SameReading(txs, txs', Front(log), org);
      assert HasEnded(txs, Last(log)) <==> HasEnded(txs', Last(log));
    }
  }

  /** Running the whole database is running each organization on its own. */
  lemma {:induction false} WholeIsEach(svc: Service, db: map<OrgId, Tables>, txs: map<TxId, Transaction>,
      log: seq<TxId>)
    ensures RunWhole(svc, db, txs, log).Keys == db.Keys
    ensures forall org :: org in db ==>
                            RunWhole(svc, db, txs, log)[org] == RunAlone(svc, db[org], Finished(txs, log, org))
  {
    if log != [] {
      WholeIsEach(svc, db, txs, Front(log));
      forall org | org in db && EndedOn(txs, Last(log), org)
        ensures RunWhole(svc, db, txs, log)[org] == RunAlone(svc, db[org], Finished(txs, log, org))
      {
        var fs := Finished(txs, log, org);
        assert Front(fs) == Finished(txs, Front(log), org);
      }
    }
  }

  ghost predicate LogInOrder(s: System) {
    && (forall i, j :: 0 <= i < j < |s.log| ==> s.log[i] != s.log[j])
    && (forall id :: id in s.log ==> id in s.txs && !s.txs[id].phase.Waiting?)
  }

  /** `id` has its lock, and nobody took that organization's lock after it. */
  ghost predicate LatestOfItsOrg(s: System, id: TxId)
    requires id in s.txs
  {
    && id in s.log
    && forall i, j :: 0 <= i < j < |s.log| && s.log[i] == id && s.log[j] in s.txs ==>
          s.txs[s.log[j]].org != s.txs[id].org
  }

  /** Finishing the latest transaction of an organization appends it to that organization's reading only. */
  lemma {:induction false} FinishAppends(s: System, id: TxId, at: int, out: Outcome, n: nat, org: OrgId)
    requires LogInOrder(s) && IsRunning(s, id) && LatestOfItsOrg(s, id) && n <= |s.log|
    ensures var tx' := s.txs[id].(phase := Ended(at, out));
            var before := Finished(s.txs, s.log[..n], org);
            Finished(s.txs[id := tx'], s.log[..n], org) ==
            if id in s.log[..n] && org == tx'.org then before + [RequestOf(tx')] else before
  {
    if n > 0 {
      assert Front(s.log[..n]) == s.log[..n - 1];
      assert s.log[..n] == s.log[..n - 1] + [s.log[n - 1]];
      FinishAppends(s, id, at, out, n - 1, org);
      assert s.log[n - 1] in s.log;
    }
  }

  // ── the invariant ────────────────────────────────────────────────────────

  /** With clock `at`, the remaining statements lead where the whole operation leads. */
  ghost predicate LeadsThere(svc: Service, tx: Transaction, t: Tables, at: int)
    requires tx.phase.Running?
  {
    svc.rest(tx.op, at, t, tx.phase.snapshots, tx.phase.writes) == svc.whole(tx.op, at, t)
  }

  /** A running transaction holds its lock and leads there with every clock it may still write with. */
  ghost predicate OnCourse(svc: Service, s: System, id: TxId)
    requires IsRunning(s, id)
  {
    var tx := s.txs[id];
    && tx.org in s.db
    && tx.org in s.holder && s.holder[tx.org] == id
    && (forall at :: tx.phase.writes == [] || at == tx.phase.at ==> LeadsThere(svc, tx, s.db[tx.org], at))
    && LatestOfItsOrg(s, id)
  }

  /** Every lock has a running holder, and every running transaction is on course. */
  ghost predicate Locked(svc: Service, s: System) {
    && LogInOrder(s)
    && (forall o :: o in s.holder ==> IsRunning(s, s.holder[o]) && s.txs[s.holder[o]].org == o)
    && (forall id :: IsRunning(s, id) ==> OnCourse(svc, s, id))
  }

  ghost predicate Inv(svc: Service, db: map<OrgId, Tables>, s: System) {
    svc.Lawful() && Locked(svc, s) && Sequential(svc, db, s)
  }

  /** A step that finishes nothing and touches no row leaves the sequential reading as it was. */
  lemma QuietStep(svc: Service, db: map<OrgId, Tables>, s: System, s': System)
    requires Sequential(svc, db, s) && LogInOrder(s)
    requires SameEnded(s.txs, s'.txs) && s'.db == s.db
    requires s'.log == s.log || (|s'.log| > 0 && Front(s'.log) == s.log && !HasEnded(s'.txs, Last(s'.log)))
    ensures Sequential(svc, db, s')
  {
    forall o { SameReading(s.txs, s'.txs, s.log, o); }
    forall p | 0 <= p < |s'.log| && HasEnded(s'.txs, s'.log[p])
      ensures ResultSequential(svc, db, s', p)
    {
      assert p < |s.log| && s'.log[..p] == s.log[..p] && s'.log[p] == s.log[p];
      assert HasEnded(s.txs, s.log[p]) && ResultSequential(svc, db, s, p);
      SameReading(s.txs, s'.txs, s.log[..p], s.txs[s.log[p]].org);
    }
    forall id | HasEnded(s'.txs, id)
      ensures id in s'.log
    {
      assert HasEnded(s.txs, id);
      assert id in s.log && s.log <= s'.log;
    }
  }

  /** Another transaction's step leaves a running one on course. */
  lemma OthersStayOnCourse(svc: Service, s: System, s': System, id: TxId)
    requires IsRunning(s, id) && OnCourse(svc, s, id)
    requires id in s'.txs && s'.txs[id] == s.txs[id]
    requires s.txs[id].org in s'.db && s'.db[s.txs[id].org] == s.db[s.txs[id].org]
    requires s.txs[id].org in s'.holder && s'.holder[s.txs[id].org] == id
    requires forall j :: j in s.log ==> j in s.txs && j in s'.txs && s'.txs[j].org == s.txs[j].org
    requires s'.log == s.log || (|s'.log| > 0 && Front(s'.log) == s.log && Last(s'.log) in s'.txs
                                 && s'.txs[Last(s'.log)].org != s.txs[id].org)
    ensures OnCourse(svc, s', id)
  {
  }

  /** Only the end of a transaction changes the sequential reading. */
  lemma QuietEvent(svc: Service, db: map<OrgId, Tables>, s: System, e: Event)
    requires Sequential(svc, db, s) && LogInOrder(s) && Enabled(svc, s, e) && !e.End?
    ensures Sequential(svc, db, Do(svc, s, e))
  {
    var s' := Do(svc, s, e);
    assert SameEnded(s.txs, s'.txs);
    QuietStep(svc, db, s, s');
  }

  lemma BeginKeepsLocked(svc: Service, s: System, e: Event)
    requires Locked(svc, s) && Enabled(svc, s, e) && (e.Begin? || e.Tick?)
    ensures Locked(svc, Do(svc, s, e))
  {
    var s' := Do(svc, s, e);
    forall id | IsRunning(s', id)
      ensures OnCourse(svc, s', id)
    {
      OthersStayOnCourse(svc, s, s', id);
    }
  }

  lemma LockJoinsLog(svc: Service, s: System, id: TxId)
    requires svc.Lawful() && LogInOrder(s) && CanLock(s, id)
    ensures LogInOrder(TakeLock(s, id)) && OnCourse(svc, TakeLock(s, id), id)
  {
  }

  lemma LockKeepsLocked(svc: Service, s: System, id: TxId)
    requires svc.Lawful() && Locked(svc, s) && CanLock(s, id)
    ensures Locked(svc, TakeLock(s, id))
  {
    var s' := TakeLock(s, id);
    LockJoinsLog(svc, s, id);
    forall j | IsRunning(s', j) && j != id
      ensures OnCourse(svc, s', j)
    {
      assert OnCourse(svc, s, j);
      OthersStayOnCourse(svc, s, s', j);
    }
  }

  lemma StatementStaysOnCourse(svc: Service, s: System, id: TxId)
    requires svc.Lawful() && CanRun(svc, s, id) && OnCourse(svc, s, id)
    ensures OnCourse(svc, RunStatement(svc, s, id), id)
  {
    var tx, tx' := s.txs[id], RunStatement(svc, s, id).txs[id];
    forall at | tx'.phase.writes == [] || at == tx'.phase.at
      ensures LeadsThere(svc, tx', s.db[tx.org], at)
    {
      assert LeadsThere(svc, tx, s.db[tx.org], at);
      assert svc.Follows(tx.op, at, s.db[tx.org], tx.phase.snapshots, tx.phase.writes);
      assert svc.ReadsAlike(tx.op, ClockOf(s, id), at, tx.phase.snapshots);
    }
  }

  lemma StatementKeepsLocked(svc: Service, s: System, id: TxId)
    requires svc.Lawful() && Locked(svc, s) && CanRun(svc, s, id)
    ensures Locked(svc, RunStatement(svc, s, id))
  {
    var s' := RunStatement(svc, s, id);
    StatementStaysOnCourse(svc, s, id);
    forall j | IsRunning(s', j) && j != id
      ensures OnCourse(svc, s', j)
    {
      assert OnCourse(svc, s, j);
      OthersStayOnCourse(svc, s, s', j);
    }
  }

  lemma AbortKeepsLocked(svc: Service, s: System, id: TxId)
    requires Locked(svc, s) && CanAbort(s, id)
    ensures Locked(svc, AbortTransaction(s, id))
  {
    var s' := AbortTransaction(s, id);
    OthersKeepTheirLocks(svc, s, s', id);
  }

  /** Two running transactions hold the locks of two organizations, so one may let its own go. */
  lemma OthersKeepTheirLocks(svc: Service, s: System, s': System, id: TxId)
    requires forall j :: IsRunning(s, j) ==> OnCourse(svc, s, j)
    requires LogInOrder(s) && id in s.txs && s'.log == s.log
    requires s'.txs.Keys == s.txs.Keys && s'.txs[id].org == s.txs[id].org && !IsRunning(s', id)
    requires forall j :: j in s.txs && j != id ==> s'.txs[j] == s.txs[j]
    requires forall o :: o in s.db && o != s.txs[id].org ==> o in s'.db && s'.db[o] == s.db[o]
    requires IsRunning(s, id) || s'.db == s.db
    requires s'.holder == if IsRunning(s, id) then s.holder - {s.txs[id].org} else s.holder
    ensures forall j :: IsRunning(s', j) ==> OnCourse(svc, s', j)
  {
    forall j | IsRunning(s', j)
      ensures OnCourse(svc, s', j)
    {
      assert IsRunning(s, j) && OnCourse(svc, s, j);
      if IsRunning(s, id) {
        assert OnCourse(svc, s, id);
        assert s.txs[j].org != s.txs[id].org;
      }
      OthersStayOnCourse(svc, s, s', j);
    }
  }

  /** What a finishing transaction commits is what its operation does alone. */
  lemma EndCommits(svc: Service, s: System, id: TxId)
    requires svc.Lawful() && CanEnd(svc, s, id) && OnCourse(svc, s, id)
    ensures var tx, s' := s.txs[id], EndTransaction(svc, s, id);
            && s'.db == s.db[tx.org := svc.whole(tx.op, ClockOf(s, id), s.db[tx.org]).0]
            && s'.txs[id].phase.outcome == svc.whole(tx.op, ClockOf(s, id), s.db[tx.org]).1
  {
    var tx := s.txs[id];
    assert LeadsThere(svc, tx, s.db[tx.org], ClockOf(s, id));
    assert svc.Follows(tx.op, ClockOf(s, id), s.db[tx.org], tx.phase.snapshots, tx.phase.writes);
  }

  lemma EndKeepsRows(svc: Service, db: map<OrgId, Tables>, s: System, id: TxId, o: OrgId)
    requires svc.Lawful() && CanEnd(svc, s, id) && OnCourse(svc, s, id) && LogInOrder(s)
    requires RowsSequential(svc, db, s) && o in db
    ensures var s' := EndTransaction(svc, s, id); s'.db[o] == RunAlone(svc, db[o], Finished(s'.txs, s'.log, o))
  {
    var s' := EndTransaction(svc, s, id);
    var before := Finished(s.txs, s.log, o);
    EndCommits(svc, s, id);
    assert s.log[..|s.log|] == s.log;
    FinishAppends(s, id, ClockOf(s, id), NextOf(svc, s, id).outcome, |s.log|, o);
    if o == s.txs[id].org {
      assert Front(before + [RequestOf(s'.txs[id])]) == before;
    }
  }

  lemma {:induction false} NothingAfter(s: System, id: TxId, p: nat, n: nat)
    requires LogInOrder(s) && IsRunning(s, id) && LatestOfItsOrg(s, id) && p < n <= |s.log| && s.log[p] == id
    ensures Finished(s.txs, s.log[..n], s.txs[id].org) == Finished(s.txs, s.log[..p], s.txs[id].org)
  {
    assert Front(s.log[..n]) == s.log[..n - 1];
    assert s.log[n - 1] in s.log;
    if p + 1 < n {
      NothingAfter(s, id, p, n - 1);
    }
  }

  /** The finishing transaction gets the result it would get alone, at its place in lock order. */
  lemma EndResult(svc: Service, db: map<OrgId, Tables>, s: System, id: TxId, p: nat)
    requires svc.Lawful() && CanEnd(svc, s, id) && OnCourse(svc, s, id) && LogInOrder(s)
    requires RowsSequential(svc, db, s) && p < |s.log| && s.log[p] == id
    ensures ResultSequential(svc, db, EndTransaction(svc, s, id), p)
  {
    EndCommits(svc, s, id);
    FinishAppends(s, id, ClockOf(s, id), NextOf(svc, s, id).outcome, p, s.txs[id].org);
    NothingAfter(s, id, p, |s.log|);
    assert s.log[..|s.log|] == s.log;
    assert id !in s.log[..p];
  }

  /** Results handed out before stay what they were. */
  lemma EarlierResult(svc: Service, db: map<OrgId, Tables>, s: System, id: TxId, p: nat)
    requires CanEnd(svc, s, id) && OnCourse(svc, s, id) && LogInOrder(s)
    requires p < |s.log| && s.log[p] != id && HasEnded(s.txs, s.log[p]) && ResultSequential(svc, db, s, p)
    ensures ResultSequential(svc, db, EndTransaction(svc, s, id), p)
  {
    var org := s.txs[s.log[p]].org;
    FinishAppends(s, id, ClockOf(s, id), NextOf(svc, s, id).outcome, p, org);
    if id in s.log[..p] {
      var i :| 0 <= i < p && s.log[..p][i] == id;
      assert s.log[i] == id && s.log[p] in s.log;
    }
  }

  lemma EndKeepsSequential(svc: Service, db: map<OrgId, Tables>, s: System, id: TxId)
    requires svc.Lawful() && CanEnd(svc, s, id) && OnCourse(svc, s, id) && LogInOrder(s) && Sequential(svc, db, s)
    ensures Sequential(svc, db, EndTransaction(svc, s, id))
  {
    var s' := EndTransaction(svc, s, id);
    forall o | o in db { EndKeepsRows(svc, db, s, id, o); }
    forall p | 0 <= p < |s'.log| && HasEnded(s'.txs, s'.log[p])
      ensures ResultSequential(svc, db, s', p)
    {
      if s.log[p] == id {
        EndResult(svc, db, s, id, p);
      } else {
        EarlierResult(svc, db, s, id, p);
      }
    }
    assert forall j :: HasEnded(s'.txs, j) ==> j == id || HasEnded(s.txs, j);
  }

  lemma EndKeepsLocked(svc: Service, s: System, id: TxId)
    requires Locked(svc, s) && CanEnd(svc, s, id)
    ensures Locked(svc, EndTransaction(svc, s, id))
  {
    assert OnCourse(svc, s, id);
    OthersKeepTheirLocks(svc, s, EndTransaction(svc, s, id), id);
  }

  lemma StepKeepsLocked(svc: Service, s: System, e: Event)
    requires svc.Lawful() && Locked(svc, s) && Enabled(svc, s, e)
    ensures Locked(svc, Do(svc, s, e))
  {
    match e {
      case Lock(id) => LockKeepsLocked(svc, s, id);
      case Statement(id) => StatementKeepsLocked(svc, s, id);
      case End(id) => EndKeepsLocked(svc, s, id);
      case Abort(id) => AbortKeepsLocked(svc, s, id);
      case _ => BeginKeepsLocked(svc, s, e);
    }
  }

  lemma StepKeepsInv(svc: Service, db: map<OrgId, Tables>, s: System, e: Event)
    requires Inv(svc, db, s) && Enabled(svc, s, e)
    ensures Inv(svc, db, Do(svc, s, e))
  {
    StepKeepsLocked(svc, s, e);
    if e.End? {
      assert OnCourse(svc, s, e.tx);
      EndKeepsSequential(svc, db, s, e.tx);
    } else {
      QuietEvent(svc, db, s, e);
    }
  }

  lemma {:induction false} RunKeepsInv(svc: Service, ss: seq<System>, es: seq<Event>, k: nat)
    requires svc.Lawful() && IsRun(svc, ss, es) && k <= |es|
    ensures Inv(svc, ss[0].db, ss[k])
  {
    if k == 0 {
      assert forall o :: Finished(ss[0].txs, ss[0].log, o) == [];
    } else {
      RunKeepsInv(svc, ss, es, k - 1);
      StepKeepsInv(svc, ss[0].db, ss[k - 1], es[k - 1]);
    }
  }

  /**
   * However the statements of the transactions interleave, the committed rows and the result of
   * every finished transaction are those of running the operations whole, one at a time, in lock order.
   */
  lemma Serializable(svc: Service, ss: seq<System>, es: seq<Event>)
    requires svc.Lawful() && IsRun(svc, ss, es)
    ensures Sequential(svc, ss[0].db, Last(ss))
    ensures Last(ss).db == RunWhole(svc, ss[0].db, Last(ss).txs, Last(ss).log)
  {
    RunKeepsInv(svc, ss, es, |es|);
    WholeIsEach(svc, ss[0].db, Last(ss).txs, Last(ss).log);
  }
}
