/**
 * The ovn_logical_switch_port module: makes sure a logical switch port with
 * the given name is attached to the given logical switch and carries the
 * requested `type` and `addresses` (state present). The absent state declares
 * no operation of its own and so runs the driver's defaults.
 */
module OvnLogicalSwitchPort {
  import opened Ovsdb
  import opened OpenVSwitch
  import OvnLogicalSwitch
  import opened SortedSets

  const NameColumn := OvnLogicalSwitch.NameColumn
  const PortsColumn := "ports"
  const TypeColumn := "type"
  const AddressesColumn := "addresses"

  datatype Params = Params(name: string, switch: string, portType: string, addresses: seq<string>)

  /** The port properties the module manages, in the order it visits them. */
  datatype Prop = PortType | Addresses

  const Props: seq<Prop> := [PortType, Addresses]

  function PropColumn(prop: Prop): string
  {
    match prop
    case PortType => TypeColumn
    case Addresses => AddressesColumn
  }

  /** The property as the port row holds it. */
  function Current(port: Row, prop: Prop): Datum
  {
    match prop
    case PortType => Str(StrColumn(port, TypeColumn))
    case Addresses => StrList(ListColumn(port, AddressesColumn))
  }

  /** The property as the module's parameters request it. */
  function Requested(p: Params, prop: Prop): Datum
  {
    match prop
    case PortType => Str(p.portType)
    case Addresses => StrList(p.addresses)
  }

  /** Every managed property already has the requested value. */
  predicate InSync(port: Row, p: Params)
  {
    forall i :: 0 <= i < |Props| ==> Current(port, Props[i]) == Requested(p, Props[i])
  }

  /** In column terms: the port's type and addresses are the requested ones. */
  lemma InSyncColumns(port: Row, p: Params)
    ensures InSync(port, p) <==> StrColumn(port, TypeColumn) == p.portType && ListColumn(port, AddressesColumn) == p.addresses
  {
    assert Props[0] == PortType && Props[1] == Addresses;
    assert Current(port, Props[0]) == Requested(p, Props[0]) <==> StrColumn(port, TypeColumn) == p.portType;
    assert Current(port, Props[1]) == Requested(p, Props[1]) <==> ListColumn(port, AddressesColumn) == p.addresses;
  }

  /** The `for ... else` of `prepare_present`: stops at the first property that
      differs, and reports whether none did. */
  method CheckProps(port: Row, p: Params) returns (same: bool)
    ensures same == InSync(port, p)
  {
    same := true;
    var i := 0;
    while i < |Props|
      invariant 0 <= i <= |Props|
      invariant forall j :: 0 <= j < i ==> Current(port, Props[j]) == Requested(p, Props[j])
    {
      if Current(port, Props[i]) != Requested(p, Props[i]) {
        same := false;
        break;
      }
      i := i + 1;
    }
  }

  function SwitchMissingMessage(switch: string): string
  {
    "Switch " + switch + " does not exist"
  }

  function ReassignMessage(port: Row): string
  {
    "Can't reassing port " + StrColumn(port, NameColumn)
  }

  /** `prepare_present`: the switch must exist; a port with the name that is
      attached to it and in sync ends the run unchanged, one that is attached
      but out of sync is reconfigured, one attached elsewhere fails the run, and
      a missing port is added. */
  function PreparePresent(p: Params, db: Snapshot): Prepared
  {
    match FindRow(db, LogicalSwitch, OvnLogicalSwitch.NamedPred(p.switch))
    case None => Stop(Fail(SwitchMissingMessage(p.switch)))
    case Some(switch) =>
      match FindRow(db, LogicalSwitchPort, OvnLogicalSwitch.NamedPred(p.name))
      case None => Proceed(NoVars.(switch := Some(switch), shouldAdd := true))
      case Some(port) =>
        if port.uuid in RefsColumn(switch, PortsColumn) then
          if InSync(port, p) then Stop(Exit(false))
          else Proceed(NoVars.(switch := Some(switch), port := Some(port), shouldReconfigure := true))
        else Stop(Fail(ReassignMessage(port)))
  }

  /** `row` is the first row of `table`, in iteration order, named `name`. */
  ghost predicate FirstNamedIn(db: Snapshot, table: string, name: string, row: Row)
  {
    exists i :: 0 <= i < |Rows(db, table)| && Rows(db, table)[i] == row &&
      FirstMatch(Rows(db, table), OvnLogicalSwitch.NamedPred(name), i)
  }

  /** Some row of `table` is named `name`. */
  ghost predicate NamedIn(db: Snapshot, table: string, name: string)
  {
    exists i :: 0 <= i < |Rows(db, table)| && OvnLogicalSwitch.Named(Rows(db, table)[i], name)
  }

  /** The first switch with the requested name lists the first port with the
      requested name among its ports. */
  ghost predicate Attached(db: Snapshot, p: Params)
  {
    exists switch, port ::
      FirstNamedIn(db, LogicalSwitch, p.switch, switch) &&
      FirstNamedIn(db, LogicalSwitchPort, p.name, port) &&
      port.uuid in RefsColumn(switch, PortsColumn)
  }

  /** Attached, and the port's properties are the requested ones. */
  ghost predicate Configured(db: Snapshot, p: Params)
  {
    exists switch, port ::
      FirstNamedIn(db, LogicalSwitch, p.switch, switch) &&
      FirstNamedIn(db, LogicalSwitchPort, p.name, port) &&
      port.uuid in RefsColumn(switch, PortsColumn) && InSync(port, p)
  }

  /** Looking a row up by name finds exactly the first row with that name. */
  lemma FindNamed(db: Snapshot, table: string, name: string)
    ensures FindRow(db, table, OvnLogicalSwitch.NamedPred(name)).None? <==> !NamedIn(db, table, name)
    ensures forall row :: FirstNamedIn(db, table, name, row) <==> FindRow(db, table, OvnLogicalSwitch.NamedPred(name)) == Some(row)
  {
    var rows := Rows(db, table);
    var pred := OvnLogicalSwitch.NamedPred(name);
    assert forall i :: 0 <= i < |rows| ==> (pred(rows[i]) <==> OvnLogicalSwitch.Named(rows[i], name));
    forall row | FirstNamedIn(db, table, name, row)
      ensures FindRow(db, table, pred) == Some(row)
    {
      var i :| 0 <= i < |rows| && rows[i] == row && FirstMatch(rows, pred, i);
      FindRowFirst(db, table, pred, i);
    }
  }

  /** The four outcomes of `prepare_present`, each tied to the state of the
      database that produces it. */
  lemma PrepareDecision(p: Params, db: Snapshot)
    ensures PreparePresent(p, db) == Stop(Fail(SwitchMissingMessage(p.switch))) <==> !NamedIn(db, LogicalSwitch, p.switch)
    ensures PreparePresent(p, db) == Stop(Exit(false)) <==> Configured(db, p)
    ensures PreparePresent(p, db) == Stop(Fail("Can't reassing port " + p.name)) <==>
            NamedIn(db, LogicalSwitch, p.switch) && NamedIn(db, LogicalSwitchPort, p.name) && !Attached(db, p)
    ensures PreparePresent(p, db).Stop? ==>
            PreparePresent(p, db) in {Stop(Exit(false)), Stop(Fail(SwitchMissingMessage(p.switch))),
                                      Stop(Fail("Can't reassing port " + p.name))}
    ensures PreparePresent(p, db).Proceed? ==>
      var v := PreparePresent(p, db).vars;
      && v.switch.Some? && FirstNamedIn(db, LogicalSwitch, p.switch, v.switch.value)
      && (v.shouldAdd <==> !NamedIn(db, LogicalSwitchPort, p.name))
      && (v.shouldReconfigure <==> !v.shouldAdd)
      && (v.shouldAdd ==> v == NoVars.(switch := v.switch, shouldAdd := true))
      && (v.shouldReconfigure ==>
            && v == NoVars.(switch := v.switch, port := v.port, shouldReconfigure := true)
            && v.port.Some? && FirstNamedIn(db, LogicalSwitchPort, p.name, v.port.value)
            && v.port.value.uuid in RefsColumn(v.switch.value, PortsColumn)
            && !InSync(v.port.value, p))
  {
    FindNamed(db, LogicalSwitch, p.switch);
    FindNamed(db, LogicalSwitchPort, p.name);
    var sw := FindRow(db, LogicalSwitch, OvnLogicalSwitch.NamedPred(p.switch));
    var port := FindRow(db, LogicalSwitchPort, OvnLogicalSwitch.NamedPred(p.name));
    var reassign := "Can't reassing port " + p.name;
    assert reassign[0] != SwitchMissingMessage(p.switch)[0];
    if port.Some? {
      assert OvnLogicalSwitch.NamedPred(p.name)(port.value);
      assert ReassignMessage(port.value) == reassign;
    }
  }

  /** The staged operations of the add path as written: insert a port, name it,
      and add it to the switch's ports. Its type and addresses are not set. */
  function AddPortOps(p: Params, switch: Row, uuid: Uuid): seq<Op>
  {
    [Insert(LogicalSwitchPort, uuid),
     Update(LogicalSwitchPort, uuid, SetColumn(NameColumn, Str(p.name))),
     Update(LogicalSwitch, switch.uuid, AddValue(PortsColumn, uuid))]
  }

  /** Setting one property to its requested value. */
  function PropChange(p: Params, prop: Prop): Change
  {
    SetColumn(PropColumn(prop), Requested(p, prop))
  }

  /** The settings of every managed property, in the order of `Props`. */
  function PropChanges(p: Params): (r: seq<Change>)
    ensures |r| == |Props|
  {
    seq(|Props|, i requires 0 <= i < |Props| => PropChange(p, Props[i]))
  }

  /** The loop of the reconfigure path: one assignment per property. */
  method StageReconfigure(p: Params, port: Row) returns (staged: seq<Op>)
    ensures staged == Updates(LogicalSwitchPort, port.uuid, PropChanges(p))
  {
    staged := [];
    var i := 0;
    while i < |Props|
      invariant 0 <= i <= |Props|
      invariant staged == Updates(LogicalSwitchPort, port.uuid, PropChanges(p)[..i])
    {
      staged := staged + [Update(LogicalSwitchPort, port.uuid, PropChange(p, Props[i]))];
      i := i + 1;
    }
  }

  /** `configure_port` as written: the add path leaves `type` and `addresses`
      at their defaults. */
  function ConfigurePortAsWritten(p: Params, v: Vars, db: Snapshot): Raise<seq<Op>>
  {
    match v.switch
    case None => Raised(MissingVarError("switch"))
    case Some(switch) =>
      if v.shouldAdd then Ok(AddPortOps(p, switch, db.nextUuid))
      else match v.port
        case None => Raised(MissingVarError("port"))
        case Some(port) =>
          if v.shouldReconfigure then Ok(Updates(LogicalSwitchPort, port.uuid, PropChanges(p)))
          else Ok([])
  }

  /** `configure_port` as evidently intended: a port that is added is also
      given the requested properties. */
  function ConfigurePort(p: Params, v: Vars, db: Snapshot): Raise<seq<Op>>
  {
    match v.switch
    case None => Raised(MissingVarError("switch"))
    case Some(switch) =>
      if v.shouldAdd then
        Ok(AddPortOps(p, switch, db.nextUuid) + Updates(LogicalSwitchPort, db.nextUuid, PropChanges(p)))
      else match v.port
        case None => Raised(MissingVarError("port"))
        case Some(port) =>
          if v.shouldReconfigure then Ok(Updates(LogicalSwitchPort, port.uuid, PropChanges(p)))
          else Ok([])
  }

  function RegisterInterest(schema: Schema): Schema
  {
    RegisterTable(RegisterColumns(schema, LogicalSwitch, {NameColumn, PortsColumn}), LogicalSwitchPort)
  }

  /** The `ops` argument the module passes to `make_module`: the present state
      keeps the default failure message, the absent state declares only
      `register_interest`. */
  function OpsWith(build: (Params, Vars, Snapshot) -> Raise<seq<Op>>): map<string, PartialOps<Params>>
  {
    map[
      "present" := PartialOps(Some(RegisterInterest), Some(PreparePresent), Some(build), None),
      "absent" := PartialOps(Some(RegisterInterest), None, None, None)
    ]
  }

  function AsWrittenPresentOps(): StateOps<Params> { WithDefaults(Declared(OpsWith(ConfigurePortAsWritten), "present")) }
  function PresentOps(): StateOps<Params> { WithDefaults(Declared(OpsWith(ConfigurePort), "present")) }
  function AbsentOps(): StateOps<Params> { WithDefaults(Declared(OpsWith(ConfigurePort), "absent")) }

  lemma Wiring(p: Params, v: Vars, db: Snapshot)
    ensures PresentOps().prepare(p, db) == PreparePresent(p, db)
    ensures PresentOps().buildTxn(p, v, db) == ConfigurePort(p, v, db)
    ensures AsWrittenPresentOps().prepare(p, db) == PreparePresent(p, db)
    ensures AsWrittenPresentOps().buildTxn(p, v, db) == ConfigurePortAsWritten(p, v, db)
    ensures PresentOps().txnFailureMsg(p, v) == Ok(DefaultFailureMessage)
    ensures AbsentOps().prepare(p, db) == Proceed(NoVars)
    ensures AbsentOps().buildTxn(p, v, db) == Ok([])
    ensures AbsentOps().txnFailureMsg(p, v) == Ok(DefaultFailureMessage)
  {
  }

  /** The absent state stages nothing, so no run of it changes the database. */
  lemma AbsentChangesNothing(p: Params, db: Snapshot, sync: Option<string>, checkMode: bool, server: seq<Status>)
    requires |server| >= MaxAttempts
    ensures Run(AbsentOps(), p, db, sync, checkMode, server).db == db
  {
    assert ApplyAll(db, []) == db;
  }

  /** Setting the properties of a row keeps its identifier and name and brings it in sync. */
  lemma PropChangesEffect(row: Row, p: Params)
    ensures var r := ChangeRowAll(row, PropChanges(p));
      && r.uuid == row.uuid && StrColumn(r, NameColumn) == StrColumn(row, NameColumn)
      && StrColumn(r, TypeColumn) == p.portType
      && ListColumn(r, AddressesColumn) == Canonical(p.addresses)
      && (InSync(r, p) <==> Ascending(p.addresses))
  {
    var cs := PropChanges(p);
    assert cs == [cs[0], cs[1]];
    assert cs[1..] == [cs[1]] && cs[1..][1..] == [];
    var r1 := ChangeRow(row, cs[0]);
    var r2 := ChangeRow(r1, cs[1]);
    assert ChangeRowAll(row, cs) == ChangeRowAll(r1, cs[1..]);
    assert ChangeRowAll(r1, cs[1..]) == ChangeRowAll(r2, cs[1..][1..]);
    InSyncColumns(r2, p);
    CanonicalFixes(p.addresses);
  }

  /** What the add path commits: one new port with the name and a fresh
      identifier after the existing ports, listed in the `ports` of every switch
      row with the recorded switch's identifier; every other row and table is
      unchanged. */
  lemma AddPortEffect(p: Params, switch: Row, db: Snapshot)
    requires Valid(db)
    ensures var db2 := ApplyAll(db, AddPortOps(p, switch, db.nextUuid));
      && Rows(db2, LogicalSwitchPort) == Rows(db, LogicalSwitchPort) + [Row(db.nextUuid, map[NameColumn := Str(p.name)])]
      && |Rows(db2, LogicalSwitch)| == |Rows(db, LogicalSwitch)|
      && (forall i :: 0 <= i < |Rows(db, LogicalSwitch)| ==>
            Rows(db2, LogicalSwitch)[i] ==
              if Rows(db, LogicalSwitch)[i].uuid == switch.uuid
              then ChangeRow(Rows(db, LogicalSwitch)[i], AddValue(PortsColumn, db.nextUuid))
              else Rows(db, LogicalSwitch)[i])
      && (forall t :: t != LogicalSwitch && t != LogicalSwitchPort ==> Rows(db2, t) == Rows(db, t))
      && Valid(db2) && db2.nextUuid == db.nextUuid + 1
  {
    var u := db.nextUuid;
    var ops := AddPortOps(p, switch, u);
    ApplyFew(db, ops[0], ops[1], ops[2]);
    var db1 := ApplyOp(db, ops[0]);
    var db2 := ApplyOp(db1, ops[1]);
    var rows := Rows(db, LogicalSwitchPort);
    forall i | 0 <= i < |rows| ensures rows[i].uuid != u {
      assert LogicalSwitchPort in db.tables && rows[i] == db.tables[LogicalSwitchPort][i];
    }
    assert Rows(db1, LogicalSwitchPort) == rows + [Row(u, map[])];
    assert Rows(db2, LogicalSwitchPort) == rows + [Row(u, map[NameColumn := Str(p.name)])];
    ApplyAllValid(db, ops);
  }

  /** Reconfiguring a port sets the properties of every port row with its
      identifier, keeping their names, and changes nothing else. */
  lemma ReconfigureEffect(p: Params, uuid: Uuid, db: Snapshot)
    ensures var db2 := ApplyAll(db, Updates(LogicalSwitchPort, uuid, PropChanges(p)));
      && |Rows(db2, LogicalSwitchPort)| == |Rows(db, LogicalSwitchPort)|
      && (forall i :: 0 <= i < |Rows(db, LogicalSwitchPort)| ==>
            var before := Rows(db, LogicalSwitchPort)[i];
            var after := Rows(db2, LogicalSwitchPort)[i];
            if before.uuid == uuid
            then
              && after.uuid == uuid && StrColumn(after, NameColumn) == StrColumn(before, NameColumn)
              && StrColumn(after, TypeColumn) == p.portType
              && ListColumn(after, AddressesColumn) == Canonical(p.addresses)
              && (InSync(after, p) <==> Ascending(p.addresses))
            else after == before)
      && (forall t :: t != LogicalSwitchPort ==> Rows(db2, t) == Rows(db, t))
      && db2.nextUuid == db.nextUuid
  {
    ApplyUpdates(db, LogicalSwitchPort, uuid, PropChanges(p));
    forall i | 0 <= i < |Rows(db, LogicalSwitchPort)| && Rows(db, LogicalSwitchPort)[i].uuid == uuid {
      PropChangesEffect(Rows(db, LogicalSwitchPort)[i], p);
    }
  }

  /** On a snapshot where the first switch with the name lists the first port
      with the name, `prepare_present` ends the run unchanged if that port is in
      sync, and otherwise goes on to reconfigure it. */
  lemma AttachedDecision(p: Params, db: Snapshot, i: int, j: int)
    requires FirstMatch(Rows(db, LogicalSwitch), OvnLogicalSwitch.NamedPred(p.switch), i)
    requires FirstMatch(Rows(db, LogicalSwitchPort), OvnLogicalSwitch.NamedPred(p.name), j)
    requires Rows(db, LogicalSwitchPort)[j].uuid in RefsColumn(Rows(db, LogicalSwitch)[i], PortsColumn)
    ensures var switch := Rows(db, LogicalSwitch)[i];
      var port := Rows(db, LogicalSwitchPort)[j];
      PreparePresent(p, db) ==
        if InSync(port, p) then Stop(Exit(false))
        else Proceed(NoVars.(switch := Some(switch), port := Some(port), shouldReconfigure := true))
  {
    FindRowFirst(db, LogicalSwitch, OvnLogicalSwitch.NamedPred(p.switch), i);
    FindRowFirst(db, LogicalSwitchPort, OvnLogicalSwitch.NamedPred(p.name), j);
  }

  /** Reconfiguring the first port with the name leaves it first with the name,
      in place, and in sync; the switches are untouched. */
  lemma ReconfiguredStaysFirst(p: Params, db: Snapshot, j: int)
    requires FirstMatch(Rows(db, LogicalSwitchPort), OvnLogicalSwitch.NamedPred(p.name), j)
    ensures var db2 := ApplyAll(db, Updates(LogicalSwitchPort, Rows(db, LogicalSwitchPort)[j].uuid, PropChanges(p)));
      && Rows(db2, LogicalSwitch) == Rows(db, LogicalSwitch)
      && FirstMatch(Rows(db2, LogicalSwitchPort), OvnLogicalSwitch.NamedPred(p.name), j)
      && Rows(db2, LogicalSwitchPort)[j].uuid == Rows(db, LogicalSwitchPort)[j].uuid
      && (InSync(Rows(db2, LogicalSwitchPort)[j], p) <==> Ascending(p.addresses))
  {
    var ports := Rows(db, LogicalSwitchPort);
    var portPred := OvnLogicalSwitch.NamedPred(p.name);
    ReconfigureEffect(p, ports[j].uuid, db);
    var ports2 := Rows(ApplyAll(db, Updates(LogicalSwitchPort, ports[j].uuid, PropChanges(p))), LogicalSwitchPort);
    forall k | 0 <= k < j ensures !portPred(ports2[k]) {
      assert !portPred(ports[k]);
      assert StrColumn(ports2[k], NameColumn) == StrColumn(ports[k], NameColumn);
    }
    assert portPred(ports2[j]) by {
      assert portPred(ports[j]);
    }
  }

  /** Present twice on the reconfigure path (the same in both versions of
      `configure_port`): once the new properties have committed,
      `prepare_present` ends the run unchanged. */
  lemma ReconfigureIdempotent(p: Params, db: Snapshot)
    requires PreparePresent(p, db).Proceed? && PreparePresent(p, db).vars.shouldReconfigure
    ensures var v := PreparePresent(p, db).vars;
      && ConfigurePort(p, v, db) == ConfigurePortAsWritten(p, v, db)
      && ConfigurePort(p, v, db).Ok?
      && var again := PreparePresent(p, ApplyAll(db, ConfigurePort(p, v, db).value));
      && (again == Stop(Exit(false)) <==> Ascending(p.addresses))
      && (!Ascending(p.addresses) ==>
            again.Proceed? && again.vars.shouldReconfigure && !again.vars.shouldAdd &&
            again.vars.switch.Some? && again.vars.port.Some?)
  {
    var switchPred := OvnLogicalSwitch.NamedPred(p.switch);
    var portPred := OvnLogicalSwitch.NamedPred(p.name);
    var switches := Rows(db, LogicalSwitch);
    var ports := Rows(db, LogicalSwitchPort);
    var switch := FindRow(db, LogicalSwitch, switchPred).value;
    var port := FindRow(db, LogicalSwitchPort, portPred).value;
    var v := PreparePresent(p, db).vars;
    assert v.switch == Some(switch) && v.port == Some(port) && !v.shouldAdd;
    var i :| 0 <= i < |switches| && switches[i] == switch && FirstMatch(switches, switchPred, i);
    var j :| 0 <= j < |ports| && ports[j] == port && FirstMatch(ports, portPred, j);
    ReconfiguredStaysFirst(p, db, j);
    AttachedDecision(p, ApplyAll(db, Updates(LogicalSwitchPort, port.uuid, PropChanges(p))), i, j);
  }

  /** The add path, from a snapshot where `prepare_present` chose to add: both
      versions stage the insertion, naming and attachment of a port with a fresh
      identifier, and the intended one then sets its properties. After the
      first three, the first switch with the name is at `i` and lists the new
      port, which is the first port with the name, at the end of the table,
      carrying only its name. */
  lemma AddedState(p: Params, db: Snapshot) returns (i: int)
    requires Valid(db)
    requires PreparePresent(p, db).Proceed? && PreparePresent(p, db).vars.shouldAdd
    ensures var v := PreparePresent(p, db).vars;
      var u := db.nextUuid;
      var n := |Rows(db, LogicalSwitchPort)|;
      && v.switch.Some?
      && ConfigurePortAsWritten(p, v, db) == Ok(AddPortOps(p, v.switch.value, u))
      && var db1 := ApplyAll(db, AddPortOps(p, v.switch.value, u));
      && FirstMatch(Rows(db1, LogicalSwitch), OvnLogicalSwitch.NamedPred(p.switch), i)
      && FirstMatch(Rows(db1, LogicalSwitchPort), OvnLogicalSwitch.NamedPred(p.name), n)
      && Rows(db1, LogicalSwitchPort)[n] == Row(u, map[NameColumn := Str(p.name)])
      && u in RefsColumn(Rows(db1, LogicalSwitch)[i], PortsColumn)
  {
    var switchPred := OvnLogicalSwitch.NamedPred(p.switch);
    var portPred := OvnLogicalSwitch.NamedPred(p.name);
    var switch := FindRow(db, LogicalSwitch, switchPred).value;
    assert FindRow(db, LogicalSwitchPort, portPred).None?;
    var u := db.nextUuid;
    var db1 := ApplyAll(db, AddPortOps(p, switch, u));
    AddPortEffect(p, switch, db);
    i := AddedSwitchFirst(p, db, switch, db1);
    AddedPortFirst(p, db, db1);
  }

  /** Present twice with `configure_port` as intended: once the added port has
      committed, `prepare_present` ends the run unchanged. */
  lemma AddIdempotent(p: Params, db: Snapshot)
    requires Valid(db)
    requires PreparePresent(p, db).Proceed? && PreparePresent(p, db).vars.shouldAdd
    ensures var v := PreparePresent(p, db).vars;
      && ConfigurePort(p, v, db).Ok?
      && var again := PreparePresent(p, ApplyAll(db, ConfigurePort(p, v, db).value));
      && (again == Stop(Exit(false)) <==> Ascending(p.addresses))
      && (!Ascending(p.addresses) ==>
            again.Proceed? && again.vars.shouldReconfigure && !again.vars.shouldAdd &&
            again.vars.switch.Some? && again.vars.port.Some?)
  {
    var i := AddedState(p, db);
    var switch := PreparePresent(p, db).vars.switch.value;
    var u := db.nextUuid;
    var n := |Rows(db, LogicalSwitchPort)|;
    var add := AddPortOps(p, switch, u);
    var props := Updates(LogicalSwitchPort, u, PropChanges(p));
    assert ConfigurePort(p, PreparePresent(p, db).vars, db) == Ok(add + props);
    ApplyAllConcat(db, add, props);
    var db1 := ApplyAll(db, add);
    ReconfiguredStaysFirst(p, db1, n);
    AttachedDecision(p, ApplyAll(db1, props), i, n);
  }

  /** After the add path, the first switch with the name is still where it was
      and lists the new port. */
  lemma AddedSwitchFirst(p: Params, db: Snapshot, switch: Row, db2: Snapshot) returns (i: int)
    requires FindRow(db, LogicalSwitch, OvnLogicalSwitch.NamedPred(p.switch)) == Some(switch)
    requires |Rows(db2, LogicalSwitch)| == |Rows(db, LogicalSwitch)|
    requires forall k :: 0 <= k < |Rows(db, LogicalSwitch)| ==>
      Rows(db2, LogicalSwitch)[k] ==
        if Rows(db, LogicalSwitch)[k].uuid == switch.uuid
        then ChangeRow(Rows(db, LogicalSwitch)[k], AddValue(PortsColumn, db.nextUuid))
        else Rows(db, LogicalSwitch)[k]
    ensures FirstMatch(Rows(db2, LogicalSwitch), OvnLogicalSwitch.NamedPred(p.switch), i)
    ensures db.nextUuid in RefsColumn(Rows(db2, LogicalSwitch)[i], PortsColumn)
  {
    var switchPred := OvnLogicalSwitch.NamedPred(p.switch);
    var switches := Rows(db, LogicalSwitch);
    var switches2 := Rows(db2, LogicalSwitch);
    i :| 0 <= i < |switches| && switches[i] == switch && FirstMatch(switches, switchPred, i);
    forall k | 0 <= k <= i ensures switchPred(switches2[k]) == switchPred(switches[k]) {
      assert StrColumn(switches2[k], NameColumn) == StrColumn(switches[k], NameColumn);
    }
  }

  /** After the add path, the new port, at the end of the table, is the first
      with the name. */
  lemma AddedPortFirst(p: Params, db: Snapshot, db2: Snapshot)
    requires FindRow(db, LogicalSwitchPort, OvnLogicalSwitch.NamedPred(p.name)).None?
    requires |Rows(db2, LogicalSwitchPort)| == |Rows(db, LogicalSwitchPort)| + 1
    requires forall k :: 0 <= k < |Rows(db, LogicalSwitchPort)| ==> Rows(db2, LogicalSwitchPort)[k] == Rows(db, LogicalSwitchPort)[k]
    requires StrColumn(Rows(db2, LogicalSwitchPort)[|Rows(db, LogicalSwitchPort)|], NameColumn) == p.name
    ensures FirstMatch(Rows(db2, LogicalSwitchPort), OvnLogicalSwitch.NamedPred(p.name), |Rows(db, LogicalSwitchPort)|)
  {
    var portPred := OvnLogicalSwitch.NamedPred(p.name);
    var ports := Rows(db, LogicalSwitchPort);
    assert forall k :: 0 <= k < |ports| ==> !portPred(ports[k]);
  }

  /** Second look at a port the as-written add path created: its row carries only the name. */
  lemma FreshPortDecision(p: Params, db: Snapshot, i: int, n: int)
    requires FirstMatch(Rows(db, LogicalSwitch), OvnLogicalSwitch.NamedPred(p.switch), i)
    requires FirstMatch(Rows(db, LogicalSwitchPort), OvnLogicalSwitch.NamedPred(p.name), n)
    requires Rows(db, LogicalSwitchPort)[n].columns == map[NameColumn := Str(p.name)]
    requires Rows(db, LogicalSwitchPort)[n].uuid in RefsColumn(Rows(db, LogicalSwitch)[i], PortsColumn)
    ensures var again := PreparePresent(p, db);
      && (again == Stop(Exit(false)) <==> p.portType == "" && p.addresses == [])
      && (again != Stop(Exit(false)) ==>
            && again.Proceed? && again.vars.shouldReconfigure && !again.vars.shouldAdd
            && again.vars.switch.Some?
            && again.vars.port == Some(Rows(db, LogicalSwitchPort)[n]))
  {
    var port := Rows(db, LogicalSwitchPort)[n];
    AttachedDecision(p, db, i, n);
    InSyncColumns(port, p);
    assert StrColumn(port, TypeColumn) == "" && ListColumn(port, AddressesColumn) == [];
  }

  /** The add path as written: once the added port has committed,
      `prepare_present` ends the run unchanged only when the requested type and
      addresses are the defaults; otherwise it goes on to reconfigure the port. */
  lemma AsWrittenAddLeavesDefaults(p: Params, db: Snapshot)
    requires Valid(db)
    requires PreparePresent(p, db).Proceed? && PreparePresent(p, db).vars.shouldAdd
    ensures var v := PreparePresent(p, db).vars;
      && ConfigurePortAsWritten(p, v, db).Ok?
      && var again := PreparePresent(p, ApplyAll(db, ConfigurePortAsWritten(p, v, db).value));
      && (again == Stop(Exit(false)) <==> p.portType == "" && p.addresses == [])
      && (again != Stop(Exit(false)) ==>
            && again.Proceed? && again.vars.shouldReconfigure && !again.vars.shouldAdd
            && again.vars.switch.Some?
            && again.vars.port == Some(Row(db.nextUuid, map[NameColumn := Str(p.name)])))
  {
    var v := PreparePresent(p, db).vars;
    var i := AddedState(p, db);
    var db1 := ApplyAll(db, AddPortOps(p, v.switch.value, db.nextUuid));
    FreshPortDecision(p, db1, i, |Rows(db, LogicalSwitchPort)|);
  }

  /** After either path of the corrected `configure_port` commits,
      `prepare_present` ends the run unchanged exactly when the requested
      addresses are strictly ascending; otherwise it reconfigures again. */
  lemma ConfiguredThenPrepared(p: Params, db: Snapshot)
    requires Valid(db)
    requires PreparePresent(p, db).Proceed?
    ensures var v := PreparePresent(p, db).vars;
      && ConfigurePort(p, v, db).Ok?
      && var db2 := ApplyAll(db, ConfigurePort(p, v, db).value);
      && var again := PreparePresent(p, db2);
      && (again == Stop(Exit(false)) <==> Ascending(p.addresses))
      && (!Ascending(p.addresses) ==>
            again.Proceed? && again.vars.shouldReconfigure && ConfigurePort(p, again.vars, db2).Ok?)
  {
    var v := PreparePresent(p, db).vars;
    if v.shouldAdd {
      AddIdempotent(p, db);
    } else {
      ReconfigureIdempotent(p, db);
    }
    var db2 := ApplyAll(db, ConfigurePort(p, v, db).value);
    var again := PreparePresent(p, db2);
    if !Ascending(p.addresses) {
      ReconfigureBuilds(p, again.vars, db2);
    }
  }

  /** The reconfigure path builds whenever a switch and a port are recorded. */
  lemma ReconfigureBuilds(p: Params, v: Vars, db: Snapshot)
    requires v.switch.Some? && v.port.Some? && !v.shouldAdd
    ensures ConfigurePort(p, v, db).Ok?
  {
  }


  /** Present twice through the driver, with `configure_port` as intended: a run
      that reports a change is followed by one that reports none and builds no
      transaction. */
  lemma PresentConverges(p: Params, db: Snapshot, server: seq<Status>, server2: seq<Status>)
    requires Valid(db)
    requires Ascending(p.addresses)
    requires |server| >= MaxAttempts && |server2| >= MaxAttempts
    requires Run(PresentOps(), p, db, None, false, server).result == Exit(true)
    ensures var db2 := Run(PresentOps(), p, db, None, false, server).db;
      Run(PresentOps(), p, db2, None, false, server2) == Outcome(Exit(false), db2, Opening(RegisterInterest(map[])))
  {
    var op := PresentOps();
    Wiring(p, NoVars, db);
    var v := op.prepare(p, db).vars;
    Wiring(p, v, db);
    if op.prepare(p, db).Proceed? {
      ConfiguredThenPrepared(p, db);
      Wiring(p, v, ApplyAll(db, op.buildTxn(p, v, db).value));
    }
    ConvergesAfterChange(op, p, db, server, server2);
  }

  /** Addresses that are not strictly ascending never settle: the column reads
      them back sorted and without repeats, so every run after a change finds
      them different and reconfigures the port again. */
  lemma UnsortedAddressesRepeat(p: Params, db: Snapshot, server: seq<Status>, server2: seq<Status>)
    requires Valid(db)
    requires !Ascending(p.addresses)
    requires |server| >= MaxAttempts && |server2| >= MaxAttempts && server2[0] == Success
    requires Run(PresentOps(), p, db, None, false, server).result == Exit(true)
    ensures var db2 := Run(PresentOps(), p, db, None, false, server).db;
      Run(PresentOps(), p, db2, None, false, server2).result == Exit(true)
  {
    var op := PresentOps();
    Wiring(p, NoVars, db);
    ChangedRun(op, p, db, server);
    var v := op.prepare(p, db).vars;
    Wiring(p, v, db);
    ConfiguredThenPrepared(p, db);
    var db2 := ApplyAll(db, op.buildTxn(p, v, db).value);
    var v2 := PreparePresent(p, db2).vars;
    Wiring(p, v2, db2);
    CommittedRun(op, p, db2, server2);
  }


  /** Present twice through the driver, with `configure_port` as written: when
      the first run added a port with a non-default type or addresses, the second
      run, if its first commit succeeds, reports a change again. */
  lemma AsWrittenRepeatsChange(p: Params, db: Snapshot, server: seq<Status>, server2: seq<Status>)
    requires Valid(db)
    requires PreparePresent(p, db).Proceed? && PreparePresent(p, db).vars.shouldAdd
    requires p.portType != "" || p.addresses != []
    requires |server| >= MaxAttempts && |server2| >= MaxAttempts && server2[0] == Success
    requires Run(AsWrittenPresentOps(), p, db, None, false, server).result == Exit(true)
    ensures var db2 := Run(AsWrittenPresentOps(), p, db, None, false, server).db;
      Run(AsWrittenPresentOps(), p, db2, None, false, server2).result == Exit(true)
  {
    var op := AsWrittenPresentOps();
    Wiring(p, NoVars, db);
    ChangedRun(op, p, db, server);
    var v := op.prepare(p, db).vars;
    Wiring(p, v, db);
    AsWrittenAddLeavesDefaults(p, db);
    var db2 := ApplyAll(db, op.buildTxn(p, v, db).value);
    assert PreparePresent(p, db2).Proceed?;
    var v2 := PreparePresent(p, db2).vars;
    Wiring(p, v2, db2);
    assert ConfigurePortAsWritten(p, v2, db2).Ok?;
    CommittedRun(op, p, db2, server2);
  }

  /** A concrete instance: one switch `sw0` and no port; asking for port `lsp0`
      of type `router` on it. The add run reports a change, and so does the next. */
  lemma AsWrittenExample()
    ensures var db := Snapshot(map[LogicalSwitch := [Row(0, map[NameColumn := Str("sw0")])]], 1);
      var p := Params("lsp0", "sw0", "router", []);
      var server := [Success, Success, Success];
      && Run(AsWrittenPresentOps(), p, db, None, false, server).result == Exit(true)
      && Run(AsWrittenPresentOps(), p, Run(AsWrittenPresentOps(), p, db, None, false, server).db, None, false, server).result == Exit(true)
  {
    var db := Snapshot(map[LogicalSwitch := [Row(0, map[NameColumn := Str("sw0")])]], 1);
    var p := Params("lsp0", "sw0", "router", []);
    var server := [Success, Success, Success];
    assert Rows(db, LogicalSwitchPort) == [];
    assert OvnLogicalSwitch.Named(Rows(db, LogicalSwitch)[0], "sw0");
    FindRowFirst(db, LogicalSwitch, OvnLogicalSwitch.NamedPred("sw0"), 0);
    assert PreparePresent(p, db).Proceed?;
    AsWrittenRepeatsChange(p, db, server, server);
  }
}
