/**
 * The ovn_logical_switch module: makes sure a logical switch with the given
 * name exists in the northbound database (state present) or does not
 * (state absent).
 */
module OvnLogicalSwitch {
  import opened Ovsdb
  import opened OpenVSwitch

  const NameColumn := "name"

  datatype Params = Params(name: string)

  /** The row is a logical switch with the requested name. */
  predicate Named(row: Row, name: string)
  {
    StrColumn(row, NameColumn) == name
  }

  function NamedPred(name: string): Row -> bool
  {
    r => Named(r, name)
  }

  /** `row` is the first logical switch, in iteration order, with the name. */
  ghost predicate FirstNamed(db: Snapshot, name: string, row: Row)
  {
    exists i :: 0 <= i < |Rows(db, LogicalSwitch)| && Rows(db, LogicalSwitch)[i] == row &&
      FirstMatch(Rows(db, LogicalSwitch), NamedPred(name), i)
  }

  /** No two logical switches share a name. */
  ghost predicate UniqueNames(db: Snapshot)
  {
    forall i, j :: 0 <= i < j < |Rows(db, LogicalSwitch)| ==>
      StrColumn(Rows(db, LogicalSwitch)[i], NameColumn) != StrColumn(Rows(db, LogicalSwitch)[j], NameColumn)
  }

  /** Some logical switch carries the requested name. */
  ghost predicate Exists(db: Snapshot, name: string)
  {
    exists i :: 0 <= i < |Rows(db, LogicalSwitch)| && Named(Rows(db, LogicalSwitch)[i], name)
  }

  /** `switch_exists`: records the first switch with the name, and ends the run
      unchanged when its presence already matches the requested state. */
  function SwitchExists(p: Params, db: Snapshot, exitIfPresent: bool): Prepared
  {
    var row := FindRow(db, LogicalSwitch, NamedPred(p.name));
    if !(row.Some? != exitIfPresent) then Stop(Exit(false))
    else Proceed(NoVars.(switch := row))
  }

  function PreparePresent(p: Params, db: Snapshot): Prepared
  {
    SwitchExists(p, db, true)
  }

  function PrepareAbsent(p: Params, db: Snapshot): Prepared
  {
    SwitchExists(p, db, false)
  }

  /** `add_switch`: insert a row and set its name. */
  function AddSwitch(p: Params, v: Vars, db: Snapshot): Raise<seq<Op>>
  {
    var uuid := db.nextUuid;
    Ok([Insert(LogicalSwitch, uuid), Update(LogicalSwitch, uuid, SetColumn(NameColumn, Str(p.name)))])
  }

  /** `remove_switch`: delete the row `prepare` recorded. */
  function RemoveSwitch(p: Params, v: Vars, db: Snapshot): Raise<seq<Op>>
  {
    match v.switch
    case Some(row) => Ok([Delete(LogicalSwitch, row.uuid)])
    case None => Raised(MissingVarError("switch"))
  }

  function CreateFailureMsg(p: Params, v: Vars): Raise<string>
  {
    Ok("Failed to create logical switch " + p.name)
  }

  function RemoveFailureMsg(p: Params, v: Vars): Raise<string>
  {
    match v.switch
    case Some(row) => Ok("Failed to delete logical switch " + p.name + "(" + UuidText(row.uuid) + ")")
    case None => Raised(MissingVarError("switch"))
  }

  function RegisterInterest(schema: Schema): Schema
  {
    RegisterColumns(schema, LogicalSwitch, {NameColumn})
  }

  /** The `ops` argument the module passes to `make_module`. */
  function Ops(): map<string, PartialOps<Params>>
  {
    map[
      "present" := PartialOps(Some(RegisterInterest), Some(PreparePresent), Some(AddSwitch), Some(CreateFailureMsg)),
      "absent" := PartialOps(Some(RegisterInterest), Some(PrepareAbsent), Some(RemoveSwitch), Some(RemoveFailureMsg))
    ]
  }

  function PresentOps(): StateOps<Params> { WithDefaults(Declared(Ops(), "present")) }
  function AbsentOps(): StateOps<Params> { WithDefaults(Declared(Ops(), "absent")) }

  /** Present ends the run unchanged exactly when a switch with the name
      exists, absent exactly when none does; a run that goes on has recorded
      the first switch with the name, if there is one. */
  lemma PrepareDecision(p: Params, db: Snapshot)
    ensures PreparePresent(p, db) == Stop(Exit(false)) <==> Exists(db, p.name)
    ensures PrepareAbsent(p, db) == Stop(Exit(false)) <==> !Exists(db, p.name)
    ensures PreparePresent(p, db).Proceed? ==> PreparePresent(p, db).vars == NoVars
    ensures PrepareAbsent(p, db).Proceed? ==>
      var v := PrepareAbsent(p, db).vars;
      v == NoVars.(switch := v.switch) && v.switch.Some? && FirstNamed(db, p.name, v.switch.value)
  {
    var rows := Rows(db, LogicalSwitch);
    var row := FindRow(db, LogicalSwitch, NamedPred(p.name));
    assert forall i :: 0 <= i < |rows| ==> (NamedPred(p.name)(rows[i]) <==> Named(rows[i], p.name));
  }

  /** What `add_switch` commits: exactly one new logical switch, carrying the
      requested name and a fresh identifier, after the existing ones; every
      other table is unchanged. */
  lemma AddEffect(p: Params, v: Vars, db: Snapshot)
    requires Valid(db)
    ensures AddSwitch(p, v, db).Ok?
    ensures var db2 := ApplyAll(db, AddSwitch(p, v, db).value);
      && Rows(db2, LogicalSwitch) == Rows(db, LogicalSwitch) + [Row(db.nextUuid, map[NameColumn := Str(p.name)])]
      && (forall t :: t != LogicalSwitch ==> Rows(db2, t) == Rows(db, t))
      && (forall t, i :: 0 <= i < |Rows(db, t)| ==> Rows(db, t)[i].uuid != db.nextUuid)
      && Valid(db2)
  {
    var u := db.nextUuid;
    var ops := AddSwitch(p, v, db).value;
    var db1 := ApplyOp(db, ops[0]);
    var db2 := ApplyOp(db1, ops[1]);
    ApplyFew(db, ops[0], ops[1], ops[1]);
    assert ops == [ops[0], ops[1]];
    var rows := Rows(db, LogicalSwitch);
    assert Rows(db1, LogicalSwitch) == rows + [Row(u, map[])];
    forall t, i | 0 <= i < |Rows(db, t)| ensures Rows(db, t)[i].uuid != u {
      assert t in db.tables && Rows(db, t)[i] == db.tables[t][i];
    }
    assert Rows(db2, LogicalSwitch) == rows + [Row(u, map[NameColumn := Str(p.name)])];
    ApplyAllValid(db, ops);
  }

  /** Present twice: once `add_switch` has committed, `prepare_present` with the
      same name ends the run unchanged. */
  lemma AddIdempotent(p: Params, v: Vars, db: Snapshot)
    ensures AddSwitch(p, v, db).Ok?
    ensures PreparePresent(p, ApplyAll(db, AddSwitch(p, v, db).value)) == Stop(Exit(false))
  {
    var u := db.nextUuid;
    var ops := AddSwitch(p, v, db).value;
    var db1 := ApplyOp(db, ops[0]);
    var db2 := ApplyOp(db1, ops[1]);
    ApplyFew(db, ops[0], ops[1], ops[1]);
    assert ops == [ops[0], ops[1]];
    var rows1 := Rows(db1, LogicalSwitch);
    assert rows1[|rows1| - 1] == Row(u, map[]);
    var k := |rows1| - 1;
    assert Named(Rows(db2, LogicalSwitch)[k], p.name);
    PrepareDecision(p, db2);
  }

  /** What `remove_switch` commits: the recorded switch's row is gone, the other
      switches remain in order, every other table is unchanged. */
  lemma RemoveEffect(p: Params, v: Vars, db: Snapshot)
    requires v.switch.Some?
    ensures RemoveSwitch(p, v, db).Ok?
    ensures var db2 := ApplyAll(db, RemoveSwitch(p, v, db).value);
      && Rows(db2, LogicalSwitch) == RemoveRows(Rows(db, LogicalSwitch), v.switch.value.uuid)
      && (forall t :: t != LogicalSwitch ==> Rows(db2, t) == Rows(db, t))
  {
    var ops := RemoveSwitch(p, v, db).value;
    ApplyFew(db, ops[0], ops[0], ops[0]);
    assert ops == [ops[0]];
  }

  /** Absent twice: when switch names are unique, once `remove_switch` has
      committed, no switch carries the name and `prepare_absent` ends the run unchanged. */
  lemma RemoveIdempotent(p: Params, db: Snapshot)
    requires UniqueNames(db)
    requires PrepareAbsent(p, db).Proceed?
    ensures RemoveSwitch(p, PrepareAbsent(p, db).vars, db).Ok?
    ensures var db2 := ApplyAll(db, RemoveSwitch(p, PrepareAbsent(p, db).vars, db).value);
      !Exists(db2, p.name) && PrepareAbsent(p, db2) == Stop(Exit(false))
  {
    var v := PrepareAbsent(p, db).vars;
    PrepareDecision(p, db);
    var row := v.switch.value;
    RemoveEffect(p, v, db);
    var db2 := ApplyAll(db, RemoveSwitch(p, v, db).value);
    var rows := Rows(db, LogicalSwitch);
    var i :| 0 <= i < |rows| && rows[i] == row && FirstMatch(rows, NamedPred(p.name), i);
    assert Named(row, p.name);
    forall k | 0 <= k < |Rows(db2, LogicalSwitch)| ensures !Named(Rows(db2, LogicalSwitch)[k], p.name) {
      var r := Rows(db2, LogicalSwitch)[k];
      assert r in rows && r.uuid != row.uuid;
      var j :| 0 <= j < |rows| && rows[j] == r;
      assert j != i;
      if j < i {
        assert !NamedPred(p.name)(rows[j]);
      } else {
        assert StrColumn(rows[i], NameColumn) != StrColumn(rows[j], NameColumn);
      }
    }
    PrepareDecision(p, db2);
  }

  /** The failure messages name the switch; the removal message also names the
      recorded row's identifier. */
  lemma FailureMessages(p: Params, v: Vars)
    ensures CreateFailureMsg(p, v).Ok? && Embeds(CreateFailureMsg(p, v).value, p.name)
    ensures v.switch.Some? ==>
      && RemoveFailureMsg(p, v).Ok?
      && Embeds(RemoveFailureMsg(p, v).value, p.name)
      && Embeds(RemoveFailureMsg(p, v).value, UuidText(v.switch.value.uuid))
    ensures v.switch.None? ==> RemoveFailureMsg(p, v) == Raised("'switch'")
  {
    EmbedsMiddle("Failed to create logical switch ", p.name, "");
    assert "Failed to create logical switch " + p.name + "" == "Failed to create logical switch " + p.name;
    if v.switch.Some? {
      var u := UuidText(v.switch.value.uuid);
      var prefix := "Failed to delete logical switch ";
      EmbedsMiddle(prefix, p.name, "(" + u + ")");
      assert prefix + p.name + ("(" + u + ")") == prefix + p.name + "(" + u + ")";
      EmbedsMiddle(prefix + p.name + "(", u, ")");
    }
  }

  lemma Wiring(p: Params, v: Vars, db: Snapshot)
    ensures PresentOps().prepare(p, db) == PreparePresent(p, db)
    ensures PresentOps().buildTxn(p, v, db) == AddSwitch(p, v, db)
    ensures PresentOps().txnFailureMsg(p, v) == CreateFailureMsg(p, v)
    ensures AbsentOps().prepare(p, db) == PrepareAbsent(p, db)
    ensures AbsentOps().buildTxn(p, v, db) == RemoveSwitch(p, v, db)
    ensures AbsentOps().txnFailureMsg(p, v) == RemoveFailureMsg(p, v)
  {
  }

  /** Present twice through the driver: a run that reports a change is followed
      by a run that reports none and builds no transaction. */
  lemma PresentConverges(p: Params, db: Snapshot, server: seq<Status>, server2: seq<Status>)
    requires |server| >= MaxAttempts && |server2| >= MaxAttempts
    requires Run(PresentOps(), p, db, None, false, server).result == Exit(true)
    ensures var db2 := Run(PresentOps(), p, db, None, false, server).db;
      Run(PresentOps(), p, db2, None, false, server2) == Outcome(Exit(false), db2, Opening(RegisterInterest(map[])))
  {
    var op := PresentOps();
    Wiring(p, NoVars, db);
    var v := op.prepare(p, db).vars;
    Wiring(p, v, db);
    if op.prepare(p, db).Proceed? && op.buildTxn(p, v, db).Ok? {
      AddIdempotent(p, v, db);
      Wiring(p, v, ApplyAll(db, op.buildTxn(p, v, db).value));
    }
    ConvergesAfterChange(op, p, db, server, server2);
  }

  /** Absent twice through the driver, when switch names are unique. */
  lemma AbsentConverges(p: Params, db: Snapshot, server: seq<Status>, server2: seq<Status>)
    requires UniqueNames(db)
    requires |server| >= MaxAttempts && |server2| >= MaxAttempts
    requires Run(AbsentOps(), p, db, None, false, server).result == Exit(true)
    ensures var db2 := Run(AbsentOps(), p, db, None, false, server).db;
      Run(AbsentOps(), p, db2, None, false, server2) == Outcome(Exit(false), db2, Opening(RegisterInterest(map[])))
  {
    var op := AbsentOps();
    Wiring(p, NoVars, db);
    var v := op.prepare(p, db).vars;
    Wiring(p, v, db);
    if op.prepare(p, db).Proceed? && op.buildTxn(p, v, db).Ok? {
      RemoveIdempotent(p, db);
      Wiring(p, v, ApplyAll(db, op.buildTxn(p, v, db).value));
    }
    ConvergesAfterChange(op, p, db, server, server2);
  }
}
