/**
 * The ovn_sb_connection module: makes sure a Connection row with the given
 * target exists in the southbound database and is listed in the
 * `connections` of the SB_Global row (state present), or is gone from both
 * (state absent).
 */
module OvnSbConnection {
  import opened Ovsdb
  import opened OpenVSwitch

  const TargetColumn := "target"
  const ConnectionsColumn := "connections"

  datatype Params = Params(target: string)

  predicate Targets(row: Row, target: string)
  {
    StrColumn(row, TargetColumn) == target
  }

  function TargetPred(target: string): Row -> bool
  {
    r => Targets(r, target)
  }

  /** `row` is the first connection, in iteration order, with the target. */
  ghost predicate FirstWithTarget(db: Snapshot, target: string, row: Row)
  {
    exists i :: 0 <= i < |Rows(db, Connection)| && Rows(db, Connection)[i] == row &&
      FirstMatch(Rows(db, Connection), TargetPred(target), i)
  }

  /** No two connections share a target. */
  ghost predicate UniqueTargets(db: Snapshot)
  {
    forall i, j :: 0 <= i < j < |Rows(db, Connection)| ==>
      StrColumn(Rows(db, Connection)[i], TargetColumn) != StrColumn(Rows(db, Connection)[j], TargetColumn)
  }

  /** Some connection has the requested target. */
  ghost predicate Exists(db: Snapshot, target: string)
  {
    exists i :: 0 <= i < |Rows(db, Connection)| && Targets(Rows(db, Connection)[i], target)
  }

  /** `connection_exists`: records the first connection with the target, and
      ends the run unchanged when its presence already matches the requested state. */
  function ConnectionExists(p: Params, db: Snapshot, exitIfPresent: bool): Prepared
  {
    var connection := FindRow(db, Connection, TargetPred(p.target));
    if !(connection.Some? != exitIfPresent) then Stop(Exit(false))
    else Proceed(NoVars.(connection := connection))
  }

  function PreparePresent(p: Params, db: Snapshot): Prepared
  {
    ConnectionExists(p, db, true)
  }

  function PrepareAbsent(p: Params, db: Snapshot): Prepared
  {
    ConnectionExists(p, db, false)
  }

  /** `add_connection`: insert a connection with the target and add it to the
      `connections` of the first SB_Global row. */
  function AddConnection(p: Params, v: Vars, db: Snapshot): Raise<seq<Op>>
  {
    var uuid := db.nextUuid;
    match FirstRow(db, SbGlobal)
    case None => Raised(EmptyTableError)
    case Some(sbConfig) =>
      Ok([Insert(Connection, uuid),
          Update(Connection, uuid, SetColumn(TargetColumn, Str(p.target))),
          Update(SbGlobal, sbConfig.uuid, AddValue(ConnectionsColumn, uuid))])
  }

  /** `remove_connection`: take the recorded connection out of the SB_Global
      row's `connections`, then delete it. */
  function RemoveConnection(p: Params, v: Vars, db: Snapshot): Raise<seq<Op>>
  {
    match v.connection
    case None => Raised(MissingVarError("connection"))
    case Some(conn) =>
      match FirstRow(db, SbGlobal)
      case None => Raised(EmptyTableError)
      case Some(sbConfig) =>
        Ok([Update(SbGlobal, sbConfig.uuid, DelValue(ConnectionsColumn, conn.uuid)),
            Delete(Connection, conn.uuid)])
  }

  function CreateFailureMsg(p: Params, v: Vars): Raise<string>
  {
    Ok("Failed to create connection " + p.target)
  }

  function RemoveFailureMsg(p: Params, v: Vars): Raise<string>
  {
    match v.connection
    case Some(conn) => Ok("Failed to delete connection " + p.target + "(" + UuidText(conn.uuid) + ")")
    case None => Raised(MissingVarError("connection"))
  }

  function RegisterInterest(schema: Schema): Schema
  {
    RegisterColumns(RegisterColumns(schema, Connection, {TargetColumn}), SbGlobal, {ConnectionsColumn})
  }

  /** The `ops` argument the module passes to `make_module`. */
  function Ops(): map<string, PartialOps<Params>>
  {
    map[
      "present" := PartialOps(Some(RegisterInterest), Some(PreparePresent), Some(AddConnection), Some(CreateFailureMsg)),
      "absent" := PartialOps(Some(RegisterInterest), Some(PrepareAbsent), Some(RemoveConnection), Some(RemoveFailureMsg))
    ]
  }

  function PresentOps(): StateOps<Params> { WithDefaults(Declared(Ops(), "present")) }
  function AbsentOps(): StateOps<Params> { WithDefaults(Declared(Ops(), "absent")) }

  /** Present ends the run unchanged exactly when a connection with the target
      exists, absent exactly when none does; a run that goes on has recorded the
      first connection with the target, if there is one. */
  lemma PrepareDecision(p: Params, db: Snapshot)
    ensures PreparePresent(p, db) == Stop(Exit(false)) <==> Exists(db, p.target)
    ensures PrepareAbsent(p, db) == Stop(Exit(false)) <==> !Exists(db, p.target)
    ensures PreparePresent(p, db).Proceed? ==> PreparePresent(p, db).vars == NoVars
    ensures PrepareAbsent(p, db).Proceed? ==>
      var v := PrepareAbsent(p, db).vars;
      v == NoVars.(connection := v.connection) && v.connection.Some? && FirstWithTarget(db, p.target, v.connection.value)
  {
    var rows := Rows(db, Connection);
    assert forall i :: 0 <= i < |rows| ==> (TargetPred(p.target)(rows[i]) <==> Targets(rows[i], p.target));
  }

  /** Table by table, what committing the add path does. */
  lemma AddRows(p: Params, v: Vars, db: Snapshot)
    requires Valid(db)
    requires FirstRow(db, SbGlobal).Some?
    ensures AddConnection(p, v, db).Ok?
    ensures var db2 := ApplyAll(db, AddConnection(p, v, db).value);
      && Rows(db2, Connection) == Rows(db, Connection) + [Row(db.nextUuid, map[TargetColumn := Str(p.target)])]
      && Rows(db2, SbGlobal) == ChangeRows(Rows(db, SbGlobal), FirstRow(db, SbGlobal).value.uuid, AddValue(ConnectionsColumn, db.nextUuid))
      && (forall t :: t != Connection && t != SbGlobal ==> Rows(db2, t) == Rows(db, t))
      && Valid(db2)
  {
    var u := db.nextUuid;
    var ops := AddConnection(p, v, db).value;
    ApplyFew(db, ops[0], ops[1], ops[2]);
    assert ops == [ops[0], ops[1], ops[2]];
    var db1 := ApplyOp(db, ops[0]);
    var db2 := ApplyOp(db1, ops[1]);
    var rows := Rows(db, Connection);
    forall t, i | 0 <= i < |Rows(db, t)| ensures Rows(db, t)[i].uuid != u {
      assert t in db.tables && Rows(db, t)[i] == db.tables[t][i];
    }
    assert Rows(db1, Connection) == rows + [Row(u, map[])];
    assert Rows(db2, Connection) == rows + [Row(u, map[TargetColumn := Str(p.target)])];
    ApplyAllValid(db, ops);
  }

  /** What `add_connection` commits: one new connection with the target and a
      fresh identifier after the existing ones; the SB_Global row lists it in
      `connections` besides what it listed before; nothing else changes. */
  lemma AddEffect(p: Params, v: Vars, db: Snapshot)
    requires Valid(db)
    requires FirstRow(db, SbGlobal).Some?
    ensures AddConnection(p, v, db).Ok?
    ensures var db2 := ApplyAll(db, AddConnection(p, v, db).value);
      var sbConfig := FirstRow(db, SbGlobal).value;
      && Rows(db2, Connection) == Rows(db, Connection) + [Row(db.nextUuid, map[TargetColumn := Str(p.target)])]
      && FirstRow(db2, SbGlobal).Some?
      && FirstRow(db2, SbGlobal).value.uuid == sbConfig.uuid
      && RefsColumn(FirstRow(db2, SbGlobal).value, ConnectionsColumn) == RefsColumn(sbConfig, ConnectionsColumn) + {db.nextUuid}
      && (forall c :: c != ConnectionsColumn ==> (c in FirstRow(db2, SbGlobal).value.columns <==> c in sbConfig.columns))
      && (forall c :: c != ConnectionsColumn && c in sbConfig.columns ==> FirstRow(db2, SbGlobal).value.columns[c] == sbConfig.columns[c])
      && |Rows(db2, SbGlobal)| == |Rows(db, SbGlobal)|
      && (forall i :: 0 <= i < |Rows(db, SbGlobal)| && Rows(db, SbGlobal)[i].uuid != sbConfig.uuid ==>
            Rows(db2, SbGlobal)[i] == Rows(db, SbGlobal)[i])
      && (forall t :: t != Connection && t != SbGlobal ==> Rows(db2, t) == Rows(db, t))
      && Valid(db2)
  {
    AddRows(p, v, db);
  }

  /** Table by table, what committing the remove path does. */
  lemma RemoveRowsEffect(p: Params, v: Vars, db: Snapshot)
    requires v.connection.Some?
    requires FirstRow(db, SbGlobal).Some?
    ensures RemoveConnection(p, v, db).Ok?
    ensures var db2 := ApplyAll(db, RemoveConnection(p, v, db).value);
      && Rows(db2, Connection) == RemoveRows(Rows(db, Connection), v.connection.value.uuid)
      && Rows(db2, SbGlobal) == ChangeRows(Rows(db, SbGlobal), FirstRow(db, SbGlobal).value.uuid, DelValue(ConnectionsColumn, v.connection.value.uuid))
      && (forall t :: t != Connection && t != SbGlobal ==> Rows(db2, t) == Rows(db, t))
  {
    var ops := RemoveConnection(p, v, db).value;
    ApplyFew(db, ops[0], ops[1], ops[1]);
    assert ops == [ops[0], ops[1]];
  }

  /** What `remove_connection` commits: the recorded connection is gone from the
      SB_Global row's `connections`, whose other members remain, and from the
      Connection table, whose other rows remain in order; nothing else changes. */
  lemma RemoveEffect(p: Params, v: Vars, db: Snapshot)
    requires v.connection.Some?
    requires FirstRow(db, SbGlobal).Some?
    ensures RemoveConnection(p, v, db).Ok?
    ensures var db2 := ApplyAll(db, RemoveConnection(p, v, db).value);
      var sbConfig := FirstRow(db, SbGlobal).value;
      var conn := v.connection.value;
      && Rows(db2, Connection) == RemoveRows(Rows(db, Connection), conn.uuid)
      && FirstRow(db2, SbGlobal).Some?
      && FirstRow(db2, SbGlobal).value.uuid == sbConfig.uuid
      && RefsColumn(FirstRow(db2, SbGlobal).value, ConnectionsColumn) == RefsColumn(sbConfig, ConnectionsColumn) - {conn.uuid}
      && (forall c :: c != ConnectionsColumn ==> (c in FirstRow(db2, SbGlobal).value.columns <==> c in sbConfig.columns))
      && (forall c :: c != ConnectionsColumn && c in sbConfig.columns ==> FirstRow(db2, SbGlobal).value.columns[c] == sbConfig.columns[c])
      && (forall t :: t != Connection && t != SbGlobal ==> Rows(db2, t) == Rows(db, t))
  {
    RemoveRowsEffect(p, v, db);
  }


  /** Present twice: once `add_connection` has committed, `prepare_present` with
      the same target ends the run unchanged. */
  lemma AddIdempotent(p: Params, v: Vars, db: Snapshot)
    requires AddConnection(p, v, db).Ok?
    ensures PreparePresent(p, ApplyAll(db, AddConnection(p, v, db).value)) == Stop(Exit(false))
  {
    var u := db.nextUuid;
    var ops := AddConnection(p, v, db).value;
    ApplyFew(db, ops[0], ops[1], ops[2]);
    assert ops == [ops[0], ops[1], ops[2]];
    var db1 := ApplyOp(db, ops[0]);
    var db2 := ApplyOp(db1, ops[1]);
    var rows1 := Rows(db1, Connection);
    assert rows1[|rows1| - 1] == Row(u, map[]);
    var k := |rows1| - 1;
    assert Targets(Rows(db2, Connection)[k], p.target);
    assert Rows(ApplyOp(db2, ops[2]), Connection) == Rows(db2, Connection);
    PrepareDecision(p, ApplyOp(db2, ops[2]));
  }

  /** Absent twice: when targets are unique, once `remove_connection` has
      committed, no connection has the target and `prepare_absent` ends the run unchanged. */
  lemma RemoveIdempotent(p: Params, db: Snapshot)
    requires UniqueTargets(db)
    requires PrepareAbsent(p, db).Proceed?
    requires FirstRow(db, SbGlobal).Some?
    ensures RemoveConnection(p, PrepareAbsent(p, db).vars, db).Ok?
    ensures var db2 := ApplyAll(db, RemoveConnection(p, PrepareAbsent(p, db).vars, db).value);
      !Exists(db2, p.target) && PrepareAbsent(p, db2) == Stop(Exit(false))
  {
    var v := PrepareAbsent(p, db).vars;
    PrepareDecision(p, db);
    var row := v.connection.value;
    RemoveEffect(p, v, db);
    var db2 := ApplyAll(db, RemoveConnection(p, v, db).value);
    var rows := Rows(db, Connection);
    var i :| 0 <= i < |rows| && rows[i] == row && FirstMatch(rows, TargetPred(p.target), i);
    assert Targets(row, p.target);
    forall k | 0 <= k < |Rows(db2, Connection)| ensures !Targets(Rows(db2, Connection)[k], p.target) {
      var r := Rows(db2, Connection)[k];
      assert r in rows && r.uuid != row.uuid;
      var j :| 0 <= j < |rows| && rows[j] == r;
      assert j != i;
      if j < i {
        assert !TargetPred(p.target)(rows[j]);
      } else {
        assert StrColumn(rows[i], TargetColumn) != StrColumn(rows[j], TargetColumn);
      }
    }
    PrepareDecision(p, db2);
  }

  /** The failure messages name the target; the removal message also names the
      recorded connection's identifier. */
  lemma FailureMessages(p: Params, v: Vars)
    ensures CreateFailureMsg(p, v).Ok? && Embeds(CreateFailureMsg(p, v).value, p.target)
    ensures v.connection.Some? ==>
      && RemoveFailureMsg(p, v).Ok?
      && Embeds(RemoveFailureMsg(p, v).value, p.target)
      && Embeds(RemoveFailureMsg(p, v).value, UuidText(v.connection.value.uuid))
    ensures v.connection.None? ==> RemoveFailureMsg(p, v) == Raised("'connection'")
  {
    EmbedsMiddle("Failed to create connection ", p.target, "");
    assert "Failed to create connection " + p.target + "" == "Failed to create connection " + p.target;
    if v.connection.Some? {
      var u := UuidText(v.connection.value.uuid);
      var prefix := "Failed to delete connection ";
      EmbedsMiddle(prefix, p.target, "(" + u + ")");
      assert prefix + p.target + ("(" + u + ")") == prefix + p.target + "(" + u + ")";
      EmbedsMiddle(prefix + p.target + "(", u, ")");
    }
  }

  lemma Wiring(p: Params, v: Vars, db: Snapshot)
    ensures PresentOps().prepare(p, db) == PreparePresent(p, db)
    ensures PresentOps().buildTxn(p, v, db) == AddConnection(p, v, db)
    ensures PresentOps().txnFailureMsg(p, v) == CreateFailureMsg(p, v)
    ensures AbsentOps().prepare(p, db) == PrepareAbsent(p, db)
    ensures AbsentOps().buildTxn(p, v, db) == RemoveConnection(p, v, db)
    ensures AbsentOps().txnFailureMsg(p, v) == RemoveFailureMsg(p, v)
  {
  }

  /** Present twice through the driver: a run that reports a change is followed
      by a run that reports none and builds no transaction. */
  lemma PresentConverges(p: Params, db: Snapshot, server: seq<Status>, server2: seq<Status>)
    requires |server| >= MaxAttempts && |server2| >= MaxAttempts
    requires Run(PresentOps(), p, db, None, false, server).result == Exit(true)
    ensures var db2 := Run(PresentOps(), p, db, None, false, server).db;
      Run(PresentOps(), p, db2, None, false, server2) == Outcome(Exit(false), db2, Opening(RegisterInterest(map[])))
  {
    var op := PresentOps();
    Wiring(p, NoVars, db);
    var v := op.prepare(p, db).vars;
    Wiring(p, v, db);
    if op.prepare(p, db).Proceed? && op.buildTxn(p, v, db).Ok? {
      AddIdempotent(p, v, db);
      Wiring(p, v, ApplyAll(db, op.buildTxn(p, v, db).value));
    }
    ConvergesAfterChange(op, p, db, server, server2);
  }

  /** Absent twice through the driver, when targets are unique. */
  lemma AbsentConverges(p: Params, db: Snapshot, server: seq<Status>, server2: seq<Status>)
    requires UniqueTargets(db)
    requires |server| >= MaxAttempts && |server2| >= MaxAttempts
    requires Run(AbsentOps(), p, db, None, false, server).result == Exit(true)
    ensures var db2 := Run(AbsentOps(), p, db, None, false, server).db;
      Run(AbsentOps(), p, db2, None, false, server2) == Outcome(Exit(false), db2, Opening(RegisterInterest(map[])))
  {
    var op := AbsentOps();
    Wiring(p, NoVars, db);
    var v := op.prepare(p, db).vars;
    Wiring(p, v, db);
    if op.prepare(p, db).Proceed? && op.buildTxn(p, v, db).Ok? {
      RemoveIdempotent(p, db);
      Wiring(p, v, ApplyAll(db, op.buildTxn(p, v, db).value));
    }
    ConvergesAfterChange(op, p, db, server, server2);
  }
}
