/**
 * The ovn_controller module: keeps the OVN settings in the `external_ids`
 * column of the single Open_vSwitch configuration row in line with the
 * module's parameters (state present), or removes them (state absent).
 */
module OvnController {
  import opened Ovsdb
  import opened OpenVSwitch

  const ExternalIds := "external_ids"

  /** The module's parameters that map to `external_ids` keys. */
  datatype Arg = Remote | EncapType | EncapIp | BridgeMappings

  /** Module parameters; `None` is an omitted parameter. A dict parameter is
      its list of entries in iteration order. */
  datatype Params = Params(
    remote: Option<string>,
    encapType: Option<string>,
    encapIp: Option<string>,
    bridgeMappings: Option<seq<(string, string)>>)

  /** `required_args`, `optional_args` and `args`, in order. */
  const RequiredArgs: seq<Arg> := [Remote, EncapType, EncapIp]
  const OptionalArgs: seq<Arg> := [BridgeMappings]
  const Args: seq<Arg> := RequiredArgs + OptionalArgs

  function ArgName(a: Arg): string
  {
    match a
    case Remote => "remote"
    case EncapType => "encap_type"
    case EncapIp => "encap_ip"
    case BridgeMappings => "bridge_mappings"
  }

  /** The `external_ids` key that holds the argument. */
  function ExternalIdKey(a: Arg): string
  {
    match a
    case Remote => "ovn-remote"
    case EncapType => "ovn-encap-type"
    case EncapIp => "ovn-encap-ip"
    case BridgeMappings => "ovn-bridge-mappings"
  }

  /** The argument whose value the key holds, if any. */
  function ManagedArg(key: string): (r: Option<Arg>)
    ensures r.Some? ==> ExternalIdKey(r.value) == key
    ensures r.None? ==> forall a: Arg :: ExternalIdKey(a) != key
  {
    if key == "ovn-remote" then Some(Remote)
    else if key == "ovn-encap-type" then Some(EncapType)
    else if key == "ovn-encap-ip" then Some(EncapIp)
    else if key == "ovn-bridge-mappings" then Some(BridgeMappings)
    else None
  }

  /** The module manages exactly four `external_ids` keys, one per argument. */
  lemma ManagedKeys()
    ensures KeysOf(Args) == {"ovn-remote", "ovn-encap-type", "ovn-encap-ip", "ovn-bridge-mappings"}
    ensures forall a: Arg :: a in Args
    ensures forall a: Arg, b: Arg :: ExternalIdKey(a) == ExternalIdKey(b) ==> a == b
    ensures forall a: Arg :: a in RequiredArgs <==> a != BridgeMappings
  {
    assert Args == [Remote, EncapType, EncapIp, BridgeMappings];
    forall a: Arg ensures a in Args {
      assert a.Remote? || a.EncapType? || a.EncapIp? || a.BridgeMappings?;
    }
    var keys := {"ovn-remote", "ovn-encap-type", "ovn-encap-ip", "ovn-bridge-mappings"};
    forall k | k in keys ensures k in KeysOf(Args) {
      assert ExternalIdKey(ManagedArg(k).value) == k;
    }
  }


  function Pair(entry: (string, string)): string
  {
    entry.0 + ":" + entry.1
  }

  /** `serialize_dict`: the entries as `key:value`, joined by commas, in iteration order. */
  function SerializeDict(entries: seq<(string, string)>): (r: string)
    ensures r == "" <==> entries == []
  {
    if entries == [] then ""
    else if |entries| == 1 then Pair(entries[0])
    else Pair(entries[0]) + "," + SerializeDict(entries[1..])
  }

  /** The value an argument asks for: the parameter as given, serialized for
      the dict parameter, or `None` when it was omitted. */
  function Serialized(p: Params, a: Arg): (r: Option<string>)
    ensures r.None? <==> match a
                         case Remote => p.remote.None?
                         case EncapType => p.encapType.None?
                         case EncapIp => p.encapIp.None?
                         case BridgeMappings => p.bridgeMappings.None?
    ensures a == Remote ==> r == p.remote
    ensures a == EncapType ==> r == p.encapType
    ensures a == EncapIp ==> r == p.encapIp
    ensures a == BridgeMappings && r.Some? ==> r.value == SerializeDict(p.bridgeMappings.value)
  {
    match a
    case Remote => p.remote
    case EncapType => p.encapType
    case EncapIp => p.encapIp
    case BridgeMappings =>
      if p.bridgeMappings.Some? then Some(SerializeDict(p.bridgeMappings.value)) else None
  }

  /** The first required argument, in order, that was omitted. */
  function MissingRequired(p: Params): (r: Option<Arg>)
    ensures r.None? <==> forall a :: a in RequiredArgs ==> Serialized(p, a).Some?
    ensures r.Some? ==> r.value in RequiredArgs && Serialized(p, r.value).None?
    ensures r.Some? ==> exists k :: 0 <= k < |RequiredArgs| && RequiredArgs[k] == r.value &&
                         forall j :: 0 <= j < k ==> Serialized(p, RequiredArgs[j]).Some?
  {
    assert RequiredArgs[0] == Remote && RequiredArgs[1] == EncapType && RequiredArgs[2] == EncapIp;
    assert Serialized(p, Remote) == p.remote && Serialized(p, EncapType) == p.encapType && Serialized(p, EncapIp) == p.encapIp;
    if p.remote.None? then Some(Remote)
    else if p.encapType.None? then Some(EncapType)
    else if p.encapIp.None? then Some(EncapIp)
    else None
  }

  function RequiredMessage(a: Arg): string
  {
    ArgName(a) + " is required argument for state 'present'"
  }

  /** Every managed key already holds what its argument asks for (absent for an omitted one). */
  predicate InSync(p: Params, ids: map<string, string>)
  {
    forall a :: a in Args ==> Serialized(p, a) == Lookup(ids, ExternalIdKey(a))
  }

  /** `prepare_present`. */
  function PreparePresent(p: Params, db: Snapshot): Prepared
  {
    match MissingRequired(p)
    case Some(a) => Stop(Fail(RequiredMessage(a)))
    case None =>
      match FirstRow(db, OpenVSwitchTable)
      case None => Stop(Fail(EmptyTableError))
      case Some(config) =>
        if InSync(p, MapColumn(config, ExternalIds)) then Stop(Exit(false)) else Proceed(NoVars)
  }

  /** `prepare_absent`. */
  function PrepareAbsent(p: Params, db: Snapshot): Prepared
  {
    match FirstRow(db, OpenVSwitchTable)
    case None => Stop(Fail(EmptyTableError))
    case Some(config) =>
      if exists a :: a in Args && ExternalIdKey(a) in MapColumn(config, ExternalIds)
      then Proceed(NoVars) else Stop(Exit(false))
  }

  /** The `setkey`/`delkey` calls of `setup_ovn_controller` for the arguments `args`. */
  function SetupChanges(p: Params, args: seq<Arg>): (r: seq<Change>)
    ensures |r| == |args|
    ensures forall i :: 0 <= i < |args| ==> r[i].column == ExternalIds && (r[i].SetKey? || r[i].DelKey?)
    ensures forall i :: 0 <= i < |args| ==> r[i] == SetupChange(p, args[i])
  {
    if args == [] then []
    else
      [SetupChange(p, args[0])] + SetupChanges(p, args[1..])
  }

  /** `setkey` of the serialized value, or `delkey` for an omitted argument. */
  function SetupChange(p: Params, a: Arg): (c: Change)
    ensures c.column == ExternalIds && (c.SetKey? || c.DelKey?) && c.key == ExternalIdKey(a)
    ensures c.SetKey? <==> Serialized(p, a).Some?
    ensures c.SetKey? ==> c.val == Serialized(p, a).value
  {
    match Serialized(p, a)
    case Some(s) => SetKey(ExternalIds, ExternalIdKey(a), s)
    case None => DelKey(ExternalIds, ExternalIdKey(a))
  }

  /** The `delkey` calls of `remove_ovn_controller`: one per managed key present. */
  function RemoveChanges(ids: map<string, string>, args: seq<Arg>): (r: seq<Change>)
    ensures |r| <= |args|
    ensures forall i :: 0 <= i < |r| ==> r[i].column == ExternalIds && r[i].DelKey? && r[i].key in ids
  {
    if args == [] then []
    else if ExternalIdKey(args[0]) in ids then [DelKey(ExternalIds, ExternalIdKey(args[0]))] + RemoveChanges(ids, args[1..])
    else RemoveChanges(ids, args[1..])
  }

  /** `setup_ovn_controller`. */
  function SetupOvnController(p: Params, v: Vars, db: Snapshot): Raise<seq<Op>>
  {
    match FirstRow(db, OpenVSwitchTable)
    case None => Raised(EmptyTableError)
    case Some(config) => Ok(Updates(OpenVSwitchTable, config.uuid, SetupChanges(p, Args)))
  }

  /** `remove_ovn_controller`. */
  function RemoveOvnController(p: Params, v: Vars, db: Snapshot): Raise<seq<Op>>
  {
    match FirstRow(db, OpenVSwitchTable)
    case None => Raised(EmptyTableError)
    case Some(config) => Ok(Updates(OpenVSwitchTable, config.uuid, RemoveChanges(MapColumn(config, ExternalIds), Args)))
  }

  function SetupFailureMsg(p: Params, v: Vars): Raise<string>
  {
    Ok("Failed to setup OVN controller")
  }

  function RemoveFailureMsg(p: Params, v: Vars): Raise<string>
  {
    Ok("Failed to remove OVN controller")
  }

  function RegisterInterest(schema: Schema): Schema
  {
    RegisterColumns(schema, OpenVSwitchTable, {ExternalIds})
  }

  /** The `ops` argument the module passes to `make_module`. */
  function Ops(): map<string, PartialOps<Params>>
  {
    map[
      "present" := PartialOps(Some(RegisterInterest), Some(PreparePresent), Some(SetupOvnController), Some(SetupFailureMsg)),
      "absent" := PartialOps(Some(RegisterInterest), Some(PrepareAbsent), Some(RemoveOvnController), Some(RemoveFailureMsg))
    ]
  }

  /** The operations of each state once merged over the defaults. */
  function PresentOps(): StateOps<Params> { WithDefaults(Declared(Ops(), "present")) }
  function AbsentOps(): StateOps<Params> { WithDefaults(Declared(Ops(), "absent")) }

  /** `external_ids` after a sequence of `setkey`/`delkey` calls. */
  function ApplyKeyChanges(ids: map<string, string>, changes: seq<Change>): map<string, string>
    decreases |changes|
  {
    if changes == [] then ids
    else
      var next := match changes[0]
                  case SetKey(_, k, v) => ids[k := v]
                  case DelKey(_, k) => ids - {k}
                  case _ => ids;
      ApplyKeyChanges(next, changes[1..])
  }

  function KeysOf(args: seq<Arg>): set<string>
  {
    set a | a in args :: ExternalIdKey(a)
  }

  ghost predicate DistinctKeys(args: seq<Arg>)
  {
    forall i, j :: 0 <= i < j < |args| ==> ExternalIdKey(args[i]) != ExternalIdKey(args[j])
  }

  /** `setkey`/`delkey` on `external_ids` change that column and no other. */
  lemma {:induction false} KeyChangesOnRow(row: Row, changes: seq<Change>)
    requires forall i :: 0 <= i < |changes| ==> changes[i].column == ExternalIds && (changes[i].SetKey? || changes[i].DelKey?)
    ensures MapColumn(ChangeRowAll(row, changes), ExternalIds) == ApplyKeyChanges(MapColumn(row, ExternalIds), changes)
    ensures forall c :: c != ExternalIds ==> (c in ChangeRowAll(row, changes).columns <==> c in row.columns)
    ensures forall c :: c != ExternalIds && c in row.columns ==> ChangeRowAll(row, changes).columns[c] == row.columns[c]
    decreases |changes|
  {
    if changes != [] {
      KeyChangesOnRow(ChangeRow(row, changes[0]), changes[1..]);
    }
  }

  /** The keys of a non-empty argument list: the first argument's key and the rest's. */
  lemma KeysOfCons(args: seq<Arg>)
    requires args != []
    ensures KeysOf(args) == {ExternalIdKey(args[0])} + KeysOf(args[1..])
    ensures DistinctKeys(args) ==> DistinctKeys(args[1..]) && ExternalIdKey(args[0]) !in KeysOf(args[1..])
  {
    var rest := args[1..];
    forall k | k in KeysOf(args) ensures k in {ExternalIdKey(args[0])} + KeysOf(rest) {
      var a :| a in args && ExternalIdKey(a) == k;
      if a != args[0] {
        var j :| 0 <= j < |args| && args[j] == a;
        assert rest[j - 1] == a;
      }
    }
    forall k | k in KeysOf(rest) ensures k in KeysOf(args) {
      var a :| a in rest && ExternalIdKey(a) == k;
      assert a in args;
    }
    if DistinctKeys(args) {
      forall i, j | 0 <= i < j < |rest| ensures ExternalIdKey(rest[i]) != ExternalIdKey(rest[j]) {
        assert rest[i] == args[i + 1] && rest[j] == args[j + 1];
      }
      forall a | a in rest ensures ExternalIdKey(a) != ExternalIdKey(args[0]) {
        var j :| 0 <= j < |rest| && rest[j] == a;
        assert args[j + 1] == a;
      }
    }
  }

  /** The calls of `setup_ovn_controller` leave every managed key holding what
      its argument asks for (removed for an omitted argument) and every other key as it was. */
  lemma {:induction false} SetupChangesEffect(p: Params, ids: map<string, string>, args: seq<Arg>)
    requires DistinctKeys(args)
    ensures var r := ApplyKeyChanges(ids, SetupChanges(p, args));
      && (forall a :: a in args ==> Lookup(r, ExternalIdKey(a)) == Serialized(p, a))
      && (forall k :: k !in KeysOf(args) ==> Lookup(r, k) == Lookup(ids, k))
    decreases |args|
  {
    if args != [] {
      var a0, rest := args[0], args[1..];
      var changes := SetupChanges(p, args);
      assert changes == [SetupChange(p, a0)] + SetupChanges(p, rest);
      assert changes[1..] == SetupChanges(p, rest);
      var ids1 := match changes[0]
                  case SetKey(_, k, v) => ids[k := v]
                  case DelKey(_, k) => ids - {k}
                  case _ => ids;
      assert Lookup(ids1, ExternalIdKey(a0)) == Serialized(p, a0);
      assert forall k :: k != ExternalIdKey(a0) ==> Lookup(ids1, k) == Lookup(ids, k);
      KeysOfCons(args);
      SetupChangesEffect(p, ids1, rest);
      assert forall a :: a in args ==> a == a0 || a in rest;
    }
  }

  /** The calls of `remove_ovn_controller` delete exactly the managed keys
      present in `ids`; applied to `ids` itself they leave every other key alone. */
  lemma {:induction false} RemoveChangesEffect(m: map<string, string>, ids: map<string, string>, args: seq<Arg>)
    ensures ApplyKeyChanges(m, RemoveChanges(ids, args)) == m - (KeysOf(args) * ids.Keys)
    decreases |args|
  {
    if args == [] {
      assert KeysOf(args) == {};
      assert m - (KeysOf(args) * ids.Keys) == m;
    } else {
      var k0, rest := ExternalIdKey(args[0]), args[1..];
      KeysOfCons(args);
      if k0 in ids {
        var changes := RemoveChanges(ids, args);
        assert changes[0] == DelKey(ExternalIds, k0) && changes[1..] == RemoveChanges(ids, rest);
        RemoveChangesEffect(m - {k0}, ids, rest);
        assert (m - {k0}) - (KeysOf(rest) * ids.Keys) == m - (KeysOf(args) * ids.Keys);
      } else {
        RemoveChangesEffect(m, ids, rest);
        assert KeysOf(rest) * ids.Keys == KeysOf(args) * ids.Keys;
      }
    }
  }

  lemma ArgsDistinct()
    ensures DistinctKeys(Args)
  {
    assert Args == [Remote, EncapType, EncapIp, BridgeMappings];
    ManagedKeys();
  }

  /** What `setup_ovn_controller` commits: on the configuration row, each
      managed key holds its argument's value or is removed when the argument was
      omitted; every other key, column, row and table is unchanged. */
  lemma SetupEffect(p: Params, v: Vars, db: Snapshot)
    requires FirstRow(db, OpenVSwitchTable).Some?
    ensures SetupOvnController(p, v, db).Ok?
    ensures var config := FirstRow(db, OpenVSwitchTable).value;
      var db2 := ApplyAll(db, SetupOvnController(p, v, db).value);
      && FirstRow(db2, OpenVSwitchTable).Some?
      && var config2 := FirstRow(db2, OpenVSwitchTable).value;
      && config2.uuid == config.uuid
      && (forall a :: Lookup(MapColumn(config2, ExternalIds), ExternalIdKey(a)) == Serialized(p, a))
      && (forall k :: ManagedArg(k).None? ==> Lookup(MapColumn(config2, ExternalIds), k) == Lookup(MapColumn(config, ExternalIds), k))
      && (forall c :: c != ExternalIds ==> (c in config2.columns <==> c in config.columns))
      && (forall c :: c != ExternalIds && c in config.columns ==> config2.columns[c] == config.columns[c])
      && |Rows(db2, OpenVSwitchTable)| == |Rows(db, OpenVSwitchTable)|
      && (forall i :: 0 <= i < |Rows(db, OpenVSwitchTable)| && Rows(db, OpenVSwitchTable)[i].uuid != config.uuid ==>
            Rows(db2, OpenVSwitchTable)[i] == Rows(db, OpenVSwitchTable)[i])
      && (forall t :: t != OpenVSwitchTable ==> Rows(db2, t) == Rows(db, t))
  {
    var config := FirstRow(db, OpenVSwitchTable).value;
    var changes := SetupChanges(p, Args);
    ApplyUpdates(db, OpenVSwitchTable, config.uuid, changes);
    var db2 := ApplyAll(db, Updates(OpenVSwitchTable, config.uuid, changes));
    assert Rows(db2, OpenVSwitchTable)[0] == ChangeRowAll(config, changes);
    KeyChangesOnRow(config, changes);
    ArgsDistinct();
    ManagedKeys();
    SetupChangesEffect(p, MapColumn(config, ExternalIds), Args);
    forall k | ManagedArg(k).None? ensures k !in KeysOf(Args) {
    }
  }

  /** Idempotence: once the settings are committed, `prepare_present` with
      the same parameters reports no change. */
  lemma SetupIdempotent(p: Params, v: Vars, db: Snapshot)
    requires MissingRequired(p).None?
    requires FirstRow(db, OpenVSwitchTable).Some?
    ensures SetupOvnController(p, v, db).Ok?
    ensures PreparePresent(p, ApplyAll(db, SetupOvnController(p, v, db).value)) == Stop(Exit(false))
  {
    SetupEffect(p, v, db);
  }

  /** What `remove_ovn_controller` commits: the managed keys are gone from the
      configuration row, every other key, column, row and table is unchanged,
      and afterwards `prepare_absent` reports no change. */
  lemma RemoveEffect(p: Params, v: Vars, db: Snapshot)
    requires FirstRow(db, OpenVSwitchTable).Some?
    ensures RemoveOvnController(p, v, db).Ok?
    ensures var config := FirstRow(db, OpenVSwitchTable).value;
      var db2 := ApplyAll(db, RemoveOvnController(p, v, db).value);
      && FirstRow(db2, OpenVSwitchTable).Some?
      && var config2 := FirstRow(db2, OpenVSwitchTable).value;
      && config2.uuid == config.uuid
      && MapColumn(config2, ExternalIds) == MapColumn(config, ExternalIds) - {"ovn-remote", "ovn-encap-type", "ovn-encap-ip", "ovn-bridge-mappings"}
      && (forall c :: c != ExternalIds ==> (c in config2.columns <==> c in config.columns))
      && (forall c :: c != ExternalIds && c in config.columns ==> config2.columns[c] == config.columns[c])
      && |Rows(db2, OpenVSwitchTable)| == |Rows(db, OpenVSwitchTable)|
      && (forall i :: 0 <= i < |Rows(db, OpenVSwitchTable)| && Rows(db, OpenVSwitchTable)[i].uuid != config.uuid ==>
            Rows(db2, OpenVSwitchTable)[i] == Rows(db, OpenVSwitchTable)[i])
      && (forall t :: t != OpenVSwitchTable ==> Rows(db2, t) == Rows(db, t))
      && PrepareAbsent(p, db2) == Stop(Exit(false))
  {
    var config := FirstRow(db, OpenVSwitchTable).value;
    var ids := MapColumn(config, ExternalIds);
    var changes := RemoveChanges(ids, Args);
    ApplyUpdates(db, OpenVSwitchTable, config.uuid, changes);
    var db2 := ApplyAll(db, Updates(OpenVSwitchTable, config.uuid, changes));
    assert Rows(db2, OpenVSwitchTable)[0] == ChangeRowAll(config, changes);
    KeyChangesOnRow(config, changes);
    RemoveChangesEffect(ids, ids, Args);
    ArgsDistinct();
    var managed := {"ovn-remote", "ovn-encap-type", "ovn-encap-ip", "ovn-bridge-mappings"};
    assert ids - (managed * ids.Keys) == ids - managed;
    ManagedKeys();
  }

  /** `prepare_present` fails on the first omitted required argument, and
      otherwise reports no change exactly when every managed key already holds
      what its argument asks for. */
  lemma PreparePresentDecision(p: Params, db: Snapshot)
    ensures MissingRequired(p).Some? ==>
      PreparePresent(p, db) == Stop(Fail(ArgName(MissingRequired(p).value) + " is required argument for state 'present'"))
    ensures PreparePresent(p, db) == Stop(Exit(false)) <==>
      && MissingRequired(p).None?
      && FirstRow(db, OpenVSwitchTable).Some?
      && forall a :: a in Args ==> Serialized(p, a) == Lookup(MapColumn(FirstRow(db, OpenVSwitchTable).value, ExternalIds), ExternalIdKey(a))
    ensures PreparePresent(p, db).Proceed? ==> PreparePresent(p, db).vars == NoVars
  {
  }

  /** `prepare_absent` reports no change exactly when no managed key is set. */
  lemma PrepareAbsentDecision(p: Params, db: Snapshot)
    ensures PrepareAbsent(p, db) == Stop(Exit(false)) <==>
      && FirstRow(db, OpenVSwitchTable).Some?
      && forall a :: a in Args ==> Lookup(MapColumn(FirstRow(db, OpenVSwitchTable).value, ExternalIds), ExternalIdKey(a)).None?
  {
  }

  /** `serialize_dict` of an empty dict is the empty string; of one entry, `key:value`. */
  lemma SerializeDictSmall(k: string, v: string)
    ensures SerializeDict([]) == ""
    ensures SerializeDict([(k, v)]) == k + ":" + v
  {
  }

  lemma {:induction false} SetupChangesAppend(p: Params, args: seq<Arg>, a: Arg)
    ensures SetupChanges(p, args + [a]) == SetupChanges(p, args) + [SetupChange(p, a)]
    decreases |args|
  {
    if args != [] {
      assert (args + [a])[1..] == args[1..] + [a];
      SetupChangesAppend(p, args[1..], a);
    }
  }

  lemma {:induction false} RemoveChangesAppend(ids: map<string, string>, args: seq<Arg>, a: Arg)
    ensures RemoveChanges(ids, args + [a]) ==
      RemoveChanges(ids, args) + (if ExternalIdKey(a) in ids then [DelKey(ExternalIds, ExternalIdKey(a))] else [])
    decreases |args|
  {
    if args != [] {
      assert (args + [a])[1..] == args[1..] + [a];
      RemoveChangesAppend(ids, args[1..], a);
    }
  }

  /** The loop of `setup_ovn_controller`: one `setkey` or `delkey` on the
      configuration row per argument, in the order of `args`. */
  method StageSetup(p: Params, config: Row) returns (staged: seq<Op>)
    ensures staged == Updates(OpenVSwitchTable, config.uuid, SetupChanges(p, Args))
  {
    staged := [];
    var i := 0;
    while i < |Args|
      invariant 0 <= i <= |Args|
      invariant staged == Updates(OpenVSwitchTable, config.uuid, SetupChanges(p, Args[..i]))
    {
      var arg := Args[i];
      var serialized := Serialized(p, arg);
      if serialized.Some? {
        staged := staged + [Update(OpenVSwitchTable, config.uuid, SetKey(ExternalIds, ExternalIdKey(arg), serialized.value))];
      } else {
        staged := staged + [Update(OpenVSwitchTable, config.uuid, DelKey(ExternalIds, ExternalIdKey(arg)))];
      }
      assert Args[..i + 1] == Args[..i] + [arg];
      SetupChangesAppend(p, Args[..i], arg);
      UpdatesAppend(OpenVSwitchTable, config.uuid, SetupChanges(p, Args[..i]), SetupChange(p, arg));
      i := i + 1;
    }
    assert Args[..i] == Args;
  }

  /** The loop of `remove_ovn_controller`: one `delkey` per managed key present. */
  method StageRemove(config: Row) returns (staged: seq<Op>)
    ensures staged == Updates(OpenVSwitchTable, config.uuid, RemoveChanges(MapColumn(config, ExternalIds), Args))
  {
    var ids := MapColumn(config, ExternalIds);
    staged := [];
    var i := 0;
    while i < |Args|
      invariant 0 <= i <= |Args|
      invariant staged == Updates(OpenVSwitchTable, config.uuid, RemoveChanges(ids, Args[..i]))
    {
      var arg := Args[i];
      if ExternalIdKey(arg) in ids {
        staged := staged + [Update(OpenVSwitchTable, config.uuid, DelKey(ExternalIds, ExternalIdKey(arg)))];
      }
      assert Args[..i + 1] == Args[..i] + [arg];
      RemoveChangesAppend(ids, Args[..i], arg);
      UpdatesAppend(OpenVSwitchTable, config.uuid, RemoveChanges(ids, Args[..i]), DelKey(ExternalIds, ExternalIdKey(arg)));
      i := i + 1;
    }
    assert Args[..i] == Args;
  }

  /** Text before the first `sep`, and the text after it if `sep` occurs. */
  function SplitFirst(s: string, sep: char): (r: (string, Option<string>))
    ensures r.1.Some? ==> |r.1.value| < |s|
  {
    if s == [] then ([], None)
    else if s[0] == sep then ([], Some(s[1..]))
    else
      var (before, after) := SplitFirst(s[1..], sep);
      ([s[0]] + before, after)
  }

  function ParsePair(item: string): (string, string)
  {
    var (k, v) := SplitFirst(item, ':');
    (k, if v.Some? then v.value else "")
  }

  function ParseItems(s: string): seq<(string, string)>
    decreases |s|
  {
    var (item, rest) := SplitFirst(s, ',');
    [ParsePair(item)] + (if rest.Some? then ParseItems(rest.value) else [])
  }

  /** Reads a `serialize_dict` string back into its entries. */
  function ParseDict(s: string): seq<(string, string)>
  {
    if s == "" then [] else ParseItems(s)
  }

  lemma {:induction false} SplitFirstAt(before: string, sep: char, after: string)
    requires sep !in before
    ensures SplitFirst(before + [sep] + after, sep) == (before, Some(after))
    decreases |before|
  {
    if before != [] {
      assert (before + [sep] + after)[1..] == before[1..] + [sep] + after;
      assert (before + [sep] + after)[0] == before[0] && before[0] in before;
      SplitFirstAt(before[1..], sep, after);
      assert [before[0]] + before[1..] == before;
    }
  }

  lemma {:induction false} SplitFirstNone(s: string, sep: char)
    requires sep !in s
    ensures SplitFirst(s, sep) == (s, None)
    decreases |s|
  {
    if s != [] {
      assert s[0] in s;
      SplitFirstNone(s[1..], sep);
      assert [s[0]] + s[1..] == s;
    }
  }

  /** Entries whose keys hold neither ',' nor ':' and whose values hold no ','. */
  ghost predicate Plain(entries: seq<(string, string)>)
  {
    forall i :: 0 <= i < |entries| ==> ',' !in entries[i].0 && ':' !in entries[i].0 && ',' !in entries[i].1
  }

  /** One `key:value` item reads back as its entry and holds no ',' . */
  lemma PairRoundTrip(entry: (string, string))
    requires ',' !in entry.0 && ':' !in entry.0 && ',' !in entry.1
    ensures ParsePair(Pair(entry)) == entry
    ensures ',' !in Pair(entry)
  {
    assert Pair(entry) == entry.0 + [':'] + entry.1;
    SplitFirstAt(entry.0, ':', entry.1);
  }

  /** An item without ',' followed by ',' and more text reads as that item, then the rest. */
  lemma ParseItemsCons(item: string, tail: string)
    requires ',' !in item
    ensures ParseItems(item + [','] + tail) == [ParsePair(item)] + ParseItems(tail)
  {
    SplitFirstAt(item, ',', tail);
  }

  lemma PlainTail(entries: seq<(string, string)>)
    requires entries != [] && Plain(entries)
    ensures Plain(entries[1..])
  {
    forall i | 0 <= i < |entries[1..]| ensures ',' !in entries[1..][i].0 && ':' !in entries[1..][i].0 && ',' !in entries[1..][i].1 {
      assert entries[1..][i] == entries[i + 1];
    }
  }

  /** `serialize_dict` loses nothing when keys and values avoid its separators. */
  lemma {:induction false} SerializeDictRoundTrip(entries: seq<(string, string)>)
    requires Plain(entries)
    ensures ParseDict(SerializeDict(entries)) == entries
    decreases |entries|
  {
    if entries != [] {
      PairRoundTrip(entries[0]);
      var item := Pair(entries[0]);
      if |entries| == 1 {
        SplitFirstNone(item, ',');
      } else {
        var tail := SerializeDict(entries[1..]);
        assert SerializeDict(entries) == item + [','] + tail;
        ParseItemsCons(item, tail);
        PlainTail(entries);
        SerializeDictRoundTrip(entries[1..]);
        assert ParseDict(SerializeDict(entries)) == [entries[0]] + entries[1..];
        assert entries == [entries[0]] + entries[1..];
      }
    }
  }

  /** `make_module` wires `prepare_present`, `setup_ovn_controller` and its
      failure message for state present, and their counterparts for state absent. */
  lemma Wiring(p: Params, v: Vars, db: Snapshot)
    ensures PresentOps().prepare(p, db) == PreparePresent(p, db)
    ensures PresentOps().buildTxn(p, v, db) == SetupOvnController(p, v, db)
    ensures PresentOps().txnFailureMsg(p, v) == Ok("Failed to setup OVN controller")
    ensures AbsentOps().prepare(p, db) == PrepareAbsent(p, db)
    ensures AbsentOps().buildTxn(p, v, db) == RemoveOvnController(p, v, db)
    ensures AbsentOps().txnFailureMsg(p, v) == Ok("Failed to remove OVN controller")
  {
  }

  /** Present twice: a run that commits the settings is followed by a run with
      the same parameters that reports no change and builds no transaction. */
  lemma PresentConverges(p: Params, db: Snapshot, server: seq<Status>, server2: seq<Status>)
    requires |server| >= MaxAttempts && |server2| >= MaxAttempts
    requires Run(PresentOps(), p, db, None, false, server).result == Exit(true)
    ensures var db2 := Run(PresentOps(), p, db, None, false, server).db;
      Run(PresentOps(), p, db2, None, false, server2) == Outcome(Exit(false), db2, Opening(RegisterInterest(map[])))
  {
    var op := PresentOps();
    Wiring(p, NoVars, db);
    var v := op.prepare(p, db).vars;
    Wiring(p, v, db);
    if op.prepare(p, db).Proceed? && op.buildTxn(p, v, db).Ok? {
      SetupIdempotent(p, v, db);
      Wiring(p, v, ApplyAll(db, op.buildTxn(p, v, db).value));
    }
    ConvergesAfterChange(op, p, db, server, server2);
  }

  /** Absent twice: after a run that removes the settings, the next run
      reports no change and builds no transaction. */
  lemma AbsentConverges(p: Params, db: Snapshot, server: seq<Status>, server2: seq<Status>)
    requires |server| >= MaxAttempts && |server2| >= MaxAttempts
    requires Run(AbsentOps(), p, db, None, false, server).result == Exit(true)
    ensures var db2 := Run(AbsentOps(), p, db, None, false, server).db;
      Run(AbsentOps(), p, db2, None, false, server2) == Outcome(Exit(false), db2, Opening(RegisterInterest(map[])))
  {
    var op := AbsentOps();
    Wiring(p, NoVars, db);
    var v := op.prepare(p, db).vars;
    Wiring(p, v, db);
    if op.prepare(p, db).Proceed? && op.buildTxn(p, v, db).Ok? {
      RemoveEffect(p, v, db);
      Wiring(p, v, ApplyAll(db, op.buildTxn(p, v, db).value));
    }
    ConvergesAfterChange(op, p, db, server, server2);
  }
}
