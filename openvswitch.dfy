/**
 * The driver that every Ansible module of the repository runs: the row
 * search helper, the table of per-state operations merged over defaults,
 * and the run of one module invocation with its bounded commit retry.
 */
module OpenVSwitch {
  import opened Ovsdb

  const LogicalSwitch := "Logical_Switch"
  const LogicalSwitchPort := "Logical_Switch_Port"
  const OpenVSwitchTable := "Open_vSwitch"
  const SbGlobal := "SB_Global"
  const Connection := "Connection"

  /** At most this many transactions are built and committed per run. */
  const MaxAttempts := 3

  const DefaultFailureMessage := "OVSDB transaction failed"

  /** The first row, in iteration order, that satisfies `pred`. */
  function FindRow(db: Snapshot, table: string, pred: Row -> bool): (r: Option<Row>)
    ensures r.None? <==> forall i :: 0 <= i < |Rows(db, table)| ==> !pred(Rows(db, table)[i])
    ensures r.Some? ==> exists i :: 0 <= i < |Rows(db, table)| && Rows(db, table)[i] == r.value && FirstMatch(Rows(db, table), pred, i)
  {
    match FindIndex(Rows(db, table), pred, 0)
    case None => None
    case Some(i) => Some(Rows(db, table)[i])
  }

  /** Index `i` holds a match and no earlier index does. */
  ghost predicate FirstMatch(rows: seq<Row>, pred: Row -> bool, i: int)
  {
    0 <= i < |rows| && pred(rows[i]) && forall j :: 0 <= j < i ==> !pred(rows[j])
  }

  /** The search itself, from index `from` on, given that nothing before `from` matched. */
  function FindIndex(rows: seq<Row>, pred: Row -> bool, from: nat): (r: Option<nat>)
    requires from <= |rows|
    requires forall j :: 0 <= j < from ==> !pred(rows[j])
    ensures r.None? ==> forall j :: 0 <= j < |rows| ==> !pred(rows[j])
    ensures r.Some? ==> FirstMatch(rows, pred, r.value)
    decreases |rows| - from
  {
    if from == |rows| then None
    else if pred(rows[from]) then Some(from)
    else FindIndex(rows, pred, from + 1)
  }

  /** A row that is the first match is what the search returns. */
  lemma FindRowFirst(db: Snapshot, table: string, pred: Row -> bool, k: int)
    requires FirstMatch(Rows(db, table), pred, k)
    ensures FindRow(db, table, pred) == Some(Rows(db, table)[k])
  {
    var rows := Rows(db, table);
    var r := FindRow(db, table, pred);
    assert pred(rows[k]);
    var i :| 0 <= i < |rows| && rows[i] == r.value && FirstMatch(rows, pred, i);
    assert pred(rows[i]);
  }

  /** What `commit_block` can answer. */
  datatype Status = Unchanged | Success | TryAgain | Aborted | NotLocked | Error

  /** The status strings of the `ovs` library, as they appear in failure messages. */
  function StatusText(s: Status): string
  {
    match s
    case Unchanged => "unchanged"
    case Success => "success"
    case TryAgain => "try again"
    case Aborted => "aborted"
    case NotLocked => "not locked"
    case Error => "error"
  }

  /** How a run ends: `exit_json(changed=...)` or `fail_json(msg=...)`. */
  datatype RunResult = Exit(changed: bool) | Fail(msg: string)

  /** The text of the exception `six.next` raises on a table without rows
      (`str(StopIteration())`), which the run reports as its failure message. */
  const EmptyTableError := ""

  /** The text of the exception raised when a `module._ovs_vars` entry is missing. */
  function MissingVarError(name: string): string
  {
    "'" + name + "'"
  }

  /** A value, or the text of the Python exception raised while computing it. */
  datatype Raise<T> = Ok(value: T) | Raised(text: string)

  /** What `prepare` records in `module._ovs_vars`. */
  datatype Vars = Vars(
    switch: Option<Row>,
    port: Option<Row>,
    connection: Option<Row>,
    shouldAdd: bool,
    shouldReconfigure: bool)

  const NoVars := Vars(None, None, None, false, false)

  /** `prepare` either lets the run go on with what it recorded, or ends it. */
  datatype Prepared = Proceed(vars: Vars) | Stop(result: RunResult)

  /** Tables of interest and, per table, the columns of interest (none: all of them). */
  type Schema = map<string, set<string>>

  function RegisterColumns(schema: Schema, table: string, columns: set<string>): (r: Schema)
    ensures r.Keys == schema.Keys + {table}
    ensures r[table] == (if table in schema then schema[table] else {}) + columns
    ensures forall t :: t in schema && t != table ==> r[t] == schema[t]
  {
    schema[table := (if table in schema then schema[table] else {}) + columns]
  }

  function RegisterTable(schema: Schema, table: string): (r: Schema)
    ensures r.Keys == schema.Keys + {table} && r[table] == {}
    ensures forall t :: t in schema && t != table ==> r[t] == schema[t]
  {
    schema[table := {}]
  }

  /** The four operations of one state, for module parameters of type P. */
  datatype StateOps<!P> = StateOps(
    registerInterest: Schema -> Schema,
    prepare: (P, Snapshot) -> Prepared,
    buildTxn: (P, Vars, Snapshot) -> Raise<seq<Op>>,
    txnFailureMsg: (P, Vars) -> Raise<string>)

  /** The operations a module declares for one state; absent ones fall back to the defaults. */
  datatype PartialOps<!P> = PartialOps(
    registerInterest: Option<Schema -> Schema>,
    prepare: Option<(P, Snapshot) -> Prepared>,
    buildTxn: Option<(P, Vars, Snapshot) -> Raise<seq<Op>>>,
    txnFailureMsg: Option<(P, Vars) -> Raise<string>>)

  function NoOps<P>(): PartialOps<P>
  {
    PartialOps(None, None, None, None)
  }

  function DefaultOps<P>(): StateOps<P>
  {
    StateOps(
      s => s,
      (p, db) => Proceed(NoVars),
      (p, v, db) => Ok([]),
      (p, v) => Ok(DefaultFailureMessage))
  }

  /** `default_ops.copy()` updated with the operations the module declares. */
  function WithDefaults<P>(declared: PartialOps<P>): StateOps<P>
  {
    var d := DefaultOps<P>();
    StateOps(
      match declared.registerInterest case Some(f) => f case None => d.registerInterest,
      match declared.prepare case Some(f) => f case None => d.prepare,
      match declared.buildTxn case Some(f) => f case None => d.buildTxn,
      match declared.txnFailureMsg case Some(f) => f case None => d.txnFailureMsg)
  }

  /** `ops.get(state, {})`. */
  function Declared<P>(ops: map<string, PartialOps<P>>, state: string): PartialOps<P>
  {
    if state in ops then ops[state] else NoOps()
  }

  /** `make_module` builds, for every declared state, the defaults updated with
      the module's own operations for that state. */
  method MakeOpsTable<P>(states: seq<string>, ops: map<string, PartialOps<P>>)
    returns (table: map<string, StateOps<P>>)
    ensures table.Keys == set s | s in states
    ensures forall s :: s in table ==> table[s] == WithDefaults(Declared(ops, s))
  {
    table := map[];
    var i := 0;
    while i < |states|
      invariant 0 <= i <= |states|
      invariant table.Keys == set s | s in states[..i]
      invariant forall s :: s in table ==> table[s] == WithDefaults(Declared(ops, s))
    {
      var state := states[i];
      table := table[state := WithDefaults(Declared(ops, state))];
      assert states[..i + 1] == states[..i] + [state];
      i := i + 1;
    }
    assert states[..i] == states;
  }

  /** A declared operation overrides its default; an undeclared one is the default. */
  lemma OpsMerge<P>(ops: map<string, PartialOps<P>>, state: string)
    ensures var m := WithDefaults(Declared(ops, state));
      && (state in ops && ops[state].prepare.Some? ==> m.prepare == ops[state].prepare.value)
      && (state in ops && ops[state].buildTxn.Some? ==> m.buildTxn == ops[state].buildTxn.value)
      && (state in ops && ops[state].txnFailureMsg.Some? ==> m.txnFailureMsg == ops[state].txnFailureMsg.value)
      && (state in ops && ops[state].registerInterest.Some? ==> m.registerInterest == ops[state].registerInterest.value)
      && ((state !in ops || ops[state].prepare.None?) ==> m.prepare == DefaultOps<P>().prepare)
      && ((state !in ops || ops[state].buildTxn.None?) ==> m.buildTxn == DefaultOps<P>().buildTxn)
      && ((state !in ops || ops[state].txnFailureMsg.None?) ==> m.txnFailureMsg == DefaultOps<P>().txnFailureMsg)
      && ((state !in ops || ops[state].registerInterest.None?) ==> m.registerInterest == DefaultOps<P>().registerInterest)
  {
  }

  /** The default operations record nothing, stage nothing, and fail with the generic message. */
  lemma DefaultsAreInert<P>(p: P, v: Vars, db: Snapshot)
    ensures DefaultOps<P>().prepare(p, db) == Proceed(NoVars)
    ensures DefaultOps<P>().buildTxn(p, v, db) == Ok([])
    ensures DefaultOps<P>().txnFailureMsg(p, v) == Ok("OVSDB transaction failed")
  {
  }

  /** What a run does, in order, as far as the database session is concerned. */
  datatype Event =
    | RegisterInterest(schema: Schema)
    | OpenIdl
    | Sync
    | Prepare
    | Build(staged: seq<Op>)
    | Commit(status: Status)

  /** The end of a run: its result, the database after it, and what it did. */
  datatype Outcome = Outcome(result: RunResult, db: Snapshot, trace: seq<Event>)

  /** Number of commits the retry loop makes: it stops at the first status
      that is not TRY_AGAIN, and after `MaxAttempts` commits in any case. */
  function AttemptCount(server: seq<Status>): (n: nat)
    requires |server| >= MaxAttempts
    ensures 1 <= n <= MaxAttempts
    ensures forall i :: 0 <= i < n - 1 ==> server[i] == TryAgain
    ensures n < MaxAttempts ==> server[n - 1] != TryAgain
  {
    SettledAt(server, 0)
  }

  function SettledAt(server: seq<Status>, i: nat): (n: nat)
    requires |server| >= MaxAttempts && i < MaxAttempts
    requires forall j :: 0 <= j < i ==> server[j] == TryAgain
    ensures i < n <= MaxAttempts
    ensures forall j :: 0 <= j < n - 1 ==> server[j] == TryAgain
    ensures n < MaxAttempts ==> server[n - 1] != TryAgain
    decreases MaxAttempts - i
  {
    if i == MaxAttempts - 1 || server[i] != TryAgain then i + 1 else SettledAt(server, i + 1)
  }

  /** The events of the attempts answered by `statuses`: each builds a fresh
      transaction staging `staged`, then commits it. */
  function AttemptEvents(staged: seq<Op>, statuses: seq<Status>): (r: seq<Event>)
    ensures |r| == |statuses| + |statuses|
  {
    if statuses == [] then []
    else [Build(staged), Commit(statuses[0])] + AttemptEvents(staged, statuses[1..])
  }

  /** The event at position `i` of the attempts: builds at even positions,
      the commit of attempt `i / 2` at odd ones. */
  function AttemptEventAt(staged: seq<Op>, statuses: seq<Status>, i: nat): Event
    requires i < |statuses| + |statuses|
  {
    if i % 2 == 0 then Build(staged) else Commit(statuses[i / 2])
  }

  lemma {:induction false} AttemptEventsAt(staged: seq<Op>, statuses: seq<Status>, i: nat)
    requires i < |statuses| + |statuses|
    ensures AttemptEvents(staged, statuses)[i] == AttemptEventAt(staged, statuses, i)
    decreases i
  {
    var rest := AttemptEvents(staged, statuses[1..]);
    assert AttemptEvents(staged, statuses) == [Build(staged), Commit(statuses[0])] + rest;
    if i >= 2 {
      AttemptEventsAt(staged, statuses[1..], i - 2);
      assert (i - 2) % 2 == i % 2 && (i - 2) / 2 + 1 == i / 2;
      assert statuses[1..][(i - 2) / 2] == statuses[i / 2];
    }
  }

  /** Attempt `k` builds at position `2k` and commits, with answer `k`, right after. */
  lemma AttemptEventsShape(staged: seq<Op>, statuses: seq<Status>)
    ensures forall i :: 0 <= i < |statuses| + |statuses| ==>
      AttemptEvents(staged, statuses)[i] == AttemptEventAt(staged, statuses, i)
  {
    forall i | 0 <= i < |statuses| + |statuses|
      ensures AttemptEvents(staged, statuses)[i] == AttemptEventAt(staged, statuses, i)
    {
      AttemptEventsAt(staged, statuses, i);
    }
  }

  /** The events before any transaction: interest registered before the IDL
      is opened, the initial sync, then `prepare`. */
  function Opening(schema: Schema): seq<Event>
  {
    [RegisterInterest(schema), OpenIdl, Sync, Prepare]
  }

  /** One run of a module in the state whose operations are `op`. `sync` is the
      error of the initial sync, if it failed; `server` answers the commits in turn. */
  function Run<P>(op: StateOps<P>, params: P, db: Snapshot, sync: Option<string>,
                  checkMode: bool, server: seq<Status>): Outcome
    requires |server| >= MaxAttempts
  {
    var schema := op.registerInterest(map[]);
    if sync.Some? then Outcome(Fail(sync.value), db, [RegisterInterest(schema), OpenIdl, Sync])
    else
      var head := Opening(schema);
      match op.prepare(params, db)
      case Stop(r) => Outcome(r, db, head)
      case Proceed(vars) =>
        if checkMode then Outcome(Exit(true), db, head)
        else match op.buildTxn(params, vars, db)
          case Raised(e) => Outcome(Fail(e), db, head)
          case Ok(staged) =>
            var n := AttemptCount(server);
            var status := server[n - 1];
            var trace := head + AttemptEvents(staged, server[..n]);
            if status == Success then Outcome(Exit(true), ApplyAll(db, staged), trace)
            else if status == Unchanged then Outcome(Exit(false), db, trace)
            else match op.txnFailureMsg(params, vars)
              case Raised(e) => Outcome(Fail(e), db, trace)
              case Ok(m) => Outcome(Fail(m + ": " + StatusText(status)), db, trace)
  }

  /** `ovs_run_module`: selects the operations of the requested state, registers
      interest, syncs, prepares, and unless in check mode builds and commits a
      fresh transaction up to `MaxAttempts` times. */
  method RunModule<P>(table: map<string, StateOps<P>>, state: string, params: P, db: Snapshot,
                      sync: Option<string>, checkMode: bool, server: seq<Status>)
    returns (result: RunResult, final: Snapshot, trace: seq<Event>)
    requires state in table
    requires |server| >= MaxAttempts
    ensures Outcome(result, final, trace) == Run(table[state], params, db, sync, checkMode, server)
  {
    var op := table[state];
    final := db;
    var schema := op.registerInterest(map[]);
    trace := [RegisterInterest(schema), OpenIdl, Sync];
    if sync.Some? {
      result := Fail(sync.value);
      return;
    }
    var prepared := op.prepare(params, db);
    trace := trace + [Prepare];
    if prepared.Stop? {
      result := prepared.result;
      return;
    }
    var vars := prepared.vars;
    if checkMode {
      result := Exit(true);
      return;
    }
    ghost var head := trace;
    assert head == Opening(schema);
    ghost var planned := op.buildTxn(params, vars, db);
    var staged: seq<Op> := [];
    var status := TryAgain;
    var i := 0;
    while i < MaxAttempts
      invariant 0 <= i <= MaxAttempts
      invariant forall j :: 0 <= j < i ==> server[j] == TryAgain
      invariant i == 0 ==> trace == head
      invariant i > 0 ==> planned == Ok(staged) && trace == head + AttemptEvents(staged, server[..i])
      invariant i > 0 ==> status == server[i - 1]
    {
      var built := op.buildTxn(params, vars, db);
      if built.Raised? {
        result := Fail(built.text);
        return;
      }
      staged := built.value;
      status := server[i];
      assert server[..i + 1] == server[..i] + [status];
      AttemptEventsAppend(staged, server[..i], status);
      trace := trace + [Build(staged), Commit(status)];
      i := i + 1;
      if status == Success {
        break;
      } else if status != TryAgain {
        break;
      }
    }
    assert i == AttemptCount(server);
    assert planned == Ok(staged) && trace == Opening(schema) + AttemptEvents(staged, server[..i]);
    if status == Success {
      final := ApplyAll(db, staged);
      result := Exit(true);
    } else if status == Unchanged {
      result := Exit(false);
    } else {
      var msg := op.txnFailureMsg(params, vars);
      match msg
      case Raised(e) => result := Fail(e);
      case Ok(m) => result := Fail(m + ": " + StatusText(status));
    }
  }

  lemma {:induction false} AttemptEventsAppend(staged: seq<Op>, statuses: seq<Status>, s: Status)
    ensures AttemptEvents(staged, statuses + [s]) == AttemptEvents(staged, statuses) + [Build(staged), Commit(s)]
    decreases |statuses|
  {
    if statuses != [] {
      assert (statuses + [s])[1..] == statuses[1..] + [s];
      AttemptEventsAppend(staged, statuses[1..], s);
    }
  }

  /** Two TRY_AGAIN answers and then SUCCESS: exactly three attempts, each
      building a fresh transaction, and the run reports a change. */
  lemma RetryThenSuccess<P>(op: StateOps<P>, params: P, db: Snapshot, server: seq<Status>)
    requires |server| >= MaxAttempts
    requires server[0] == TryAgain && server[1] == TryAgain && server[2] == Success
    requires op.prepare(params, db).Proceed?
    requires op.buildTxn(params, op.prepare(params, db).vars, db).Ok?
    ensures var staged := op.buildTxn(params, op.prepare(params, db).vars, db).value;
      var o := Run(op, params, db, None, false, server);
      && o.result == Exit(true)
      && o.db == ApplyAll(db, staged)
      && o.trace == Opening(op.registerInterest(map[])) +
           [Build(staged), Commit(TryAgain), Build(staged), Commit(TryAgain), Build(staged), Commit(Success)]
  {
    var staged := op.buildTxn(params, op.prepare(params, db).vars, db).value;
    assert AttemptCount(server) == 3;
    var a := AttemptEvents(staged, server[..3]);
    AttemptEventsShape(staged, server[..3]);
    assert a[0] == Build(staged) && a[1] == Commit(server[0]);
    assert a[2] == Build(staged) && a[3] == Commit(server[1]);
    assert a[4] == Build(staged) && a[5] == Commit(server[2]);
  }

  /** Three TRY_AGAIN answers: the run fails after the third attempt and makes no fourth. */
  lemma RetriesExhausted<P>(op: StateOps<P>, params: P, db: Snapshot, server: seq<Status>)
    requires |server| >= MaxAttempts
    requires server[0] == TryAgain && server[1] == TryAgain && server[2] == TryAgain
    requires op.prepare(params, db).Proceed?
    requires op.buildTxn(params, op.prepare(params, db).vars, db).Ok?
    ensures var vars := op.prepare(params, db).vars;
      var staged := op.buildTxn(params, vars, db).value;
      var o := Run(op, params, db, None, false, server);
      && o.result.Fail?
      && (op.txnFailureMsg(params, vars).Ok? ==> o.result.msg == op.txnFailureMsg(params, vars).value + ": try again")
      && o.db == db
      && o.trace == Opening(op.registerInterest(map[])) +
           [Build(staged), Commit(TryAgain), Build(staged), Commit(TryAgain), Build(staged), Commit(TryAgain)]
  {
    var staged := op.buildTxn(params, op.prepare(params, db).vars, db).value;
    assert AttemptCount(server) == 3;
    var a := AttemptEvents(staged, server[..3]);
    AttemptEventsShape(staged, server[..3]);
    assert a[0] == Build(staged) && a[1] == Commit(server[0]);
    assert a[2] == Build(staged) && a[3] == Commit(server[1]);
    assert a[4] == Build(staged) && a[5] == Commit(server[2]);
  }

  /** The final status decides the result: SUCCESS reports a change, UNCHANGED
      reports none, anything else fails with "<failure message>: <status>";
      only SUCCESS changes the database. */
  lemma CommitOutcome<P>(op: StateOps<P>, params: P, db: Snapshot, server: seq<Status>)
    requires |server| >= MaxAttempts
    requires op.prepare(params, db).Proceed?
    requires op.buildTxn(params, op.prepare(params, db).vars, db).Ok?
    ensures var vars := op.prepare(params, db).vars;
      var status := server[AttemptCount(server) - 1];
      var o := Run(op, params, db, None, false, server);
      && (o.result == Exit(true) <==> status == Success)
      && (o.result == Exit(false) <==> status == Unchanged)
      && (status != Success && status != Unchanged && op.txnFailureMsg(params, vars).Ok? ==>
            o.result == Fail(op.txnFailureMsg(params, vars).value + ": " + StatusText(status)))
      && (status == Success ==> o.db == ApplyAll(db, op.buildTxn(params, vars, db).value))
      && (status != Success ==> o.db == db)
  {
  }

  /** A run that reports a change got past `prepare` (unless `prepare` itself
      reported the change), built its transaction, and committed it. */
  lemma ChangedRun<P>(op: StateOps<P>, params: P, db: Snapshot, server: seq<Status>)
    requires |server| >= MaxAttempts
    requires op.prepare(params, db) != Stop(Exit(true))
    requires Run(op, params, db, None, false, server).result == Exit(true)
    ensures op.prepare(params, db).Proceed?
    ensures op.buildTxn(params, op.prepare(params, db).vars, db).Ok?
    ensures Run(op, params, db, None, false, server).db ==
      ApplyAll(db, op.buildTxn(params, op.prepare(params, db).vars, db).value)
  {
  }

  /** A run whose `prepare` reports no change stops there: nothing is built or committed. */
  lemma SettledRun<P>(op: StateOps<P>, params: P, db: Snapshot, server: seq<Status>)
    requires |server| >= MaxAttempts
    requires op.prepare(params, db) == Stop(Exit(false))
    ensures Run(op, params, db, None, false, server) == Outcome(Exit(false), db, Opening(op.registerInterest(map[])))
  {
  }
  /** `op` settles after one commit: when `prepare` lets the run go on and the
      transaction builds, `prepare` on the committed database reports no change. */
  ghost predicate SettlesAfterCommit<P>(op: StateOps<P>, params: P, db: Snapshot)
  {
    op.prepare(params, db).Proceed? && op.buildTxn(params, op.prepare(params, db).vars, db).Ok? ==>
      op.prepare(params, ApplyAll(db, op.buildTxn(params, op.prepare(params, db).vars, db).value)) == Stop(Exit(false))
  }

  /** Running a state twice: for a state that settles after one commit, a run
      that reports a change is followed by one that reports none, builds no
      transaction and leaves the database as the first run committed it. */
  lemma ConvergesAfterChange<P>(op: StateOps<P>, params: P, db: Snapshot, server: seq<Status>, server2: seq<Status>)
    requires |server| >= MaxAttempts && |server2| >= MaxAttempts
    requires op.prepare(params, db) != Stop(Exit(true))
    requires SettlesAfterCommit(op, params, db)
    requires Run(op, params, db, None, false, server).result == Exit(true)
    ensures var db2 := Run(op, params, db, None, false, server).db;
      Run(op, params, db2, None, false, server2) == Outcome(Exit(false), db2, Opening(op.registerInterest(map[])))
  {
    ChangedRun(op, params, db, server);
    var db2 := ApplyAll(db, op.buildTxn(params, op.prepare(params, db).vars, db).value);
    SettledRun(op, params, db2, server2);
  }

  /** A run whose transaction builds and whose first commit succeeds reports a change. */
  lemma CommittedRun<P>(op: StateOps<P>, params: P, db: Snapshot, server: seq<Status>)
    requires |server| >= MaxAttempts && server[0] == Success
    requires op.prepare(params, db).Proceed?
    requires op.buildTxn(params, op.prepare(params, db).vars, db).Ok?
    ensures Run(op, params, db, None, false, server).result == Exit(true)
  {
    assert AttemptCount(server) == 1;
  }


  /** In check mode nothing is built or committed, the database is untouched,
      and a run that `prepare` lets through reports a change. */
  lemma CheckModeCommitsNothing<P>(op: StateOps<P>, params: P, db: Snapshot, server: seq<Status>)
    requires |server| >= MaxAttempts
    ensures var o := Run(op, params, db, None, true, server);
      && o.db == db
      && o.trace == Opening(op.registerInterest(map[]))
      && (op.prepare(params, db).Proceed? ==> o.result == Exit(true))
      && (op.prepare(params, db).Stop? ==> o.result == op.prepare(params, db).result)
  {
  }

  /** Interest is registered before the IDL is opened; `prepare` runs exactly
      once, before any transaction; there are at most `MaxAttempts` commits, and
      each commit is preceded by the build of a fresh transaction. */
  lemma RunOrder<P>(op: StateOps<P>, params: P, db: Snapshot, checkMode: bool, server: seq<Status>)
    requires |server| >= MaxAttempts
    ensures var o := Run(op, params, db, None, checkMode, server);
      && |Opening(op.registerInterest(map[]))| == 4
      && o.trace[..4] == Opening(op.registerInterest(map[]))
      && o.trace[0] == RegisterInterest(op.registerInterest(map[])) && o.trace[1] == OpenIdl
      && (forall i :: 0 <= i < |o.trace| && o.trace[i] == Prepare ==> i == 3)
      && |o.trace| <= 4 + 2 * MaxAttempts
      && (forall i :: 4 <= i < |o.trace| ==> (o.trace[i].Build? <==> i % 2 == 0))
      && (forall i :: 4 <= i < |o.trace| ==> (o.trace[i].Commit? <==> i % 2 == 1))
  {
    var o := Run(op, params, db, None, checkMode, server);
    var head := Opening(op.registerInterest(map[]));
    if |o.trace| > 4 {
      var vars := op.prepare(params, db).vars;
      var staged := op.buildTxn(params, vars, db).value;
      var n := AttemptCount(server);
      var a := AttemptEvents(staged, server[..n]);
      AttemptEventsShape(staged, server[..n]);
      assert o.trace == head + a;
      forall i | 4 <= i < |o.trace|
        ensures o.trace[i].Build? <==> i % 2 == 0
        ensures o.trace[i].Commit? <==> i % 2 == 1
      {
        assert o.trace[i] == a[i - 4];
        assert (i - 4) % 2 == i % 2;
      }
    }
  }
}
