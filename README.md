# ovn-ansible reconcilers, modelled in Dafny

ovn-ansible ships Ansible modules that drive OVN databases through the
`ovs` Python IDL. Four of them are modelled here:

- `ovn_controller` keeps the `ovn-*` keys of `Open_vSwitch.external_ids`.
- `ovn_logical_switch` manages a northbound logical switch.
- `ovn_logical_switch_port` manages a port on a logical switch.
- `ovn_sb_connection` manages a southbound `Connection` row, listed from `SB_Global`.

They share the driver in `module_utils/openvswitch.py`. That driver
merges each state's operations with defaults, registers schema
interest, syncs the replica, and runs `prepare`. Unless the run is in
check mode, it builds and commits a transaction up to three times while
the server answers "try again".

The files:

- `ovsdb.dfy`: the database as the modules see it. A snapshot maps each
  table to its rows in iteration order and holds a counter of fresh row
  identifiers. Transactions are staged operations: insert, delete, column
  assignment, `setkey`, `delkey`, `addvalue` and `delvalue`. Committing
  one applies them in order.
- `sorted_sets.dfy`: Python's string order, and the list a set column
  reads back as: its distinct elements in ascending order.
- `openvswitch.dfy`: the driver.
  - `find_row`, the operations table built by `make_module`, and the
    retry loop.
  - `RunModule` is the imperative run. It is proved equal to the
    specification function `Run`, which returns the result (exit with
    `changed`, or failure with a message), the committed snapshot, and
    the trace of IDL events.
  - The server's commit answers are an input. A sync failure is an
    optional message.
- `ovn_controller.dfy`, `ovn_logical_switch.dfy`, `ovn_sb_connection.dfy`
  and `ovn_logical_switch_port.dfy`: each module's `prepare`,
  `build_txn` and failure-message functions, and its operations table.
  Each has lemmas for:
  - what a commit does to the database;
  - when `prepare` ends the run unchanged;
  - convergence: a run that reports a change is followed by one that
    reports none and builds no transaction.

Python exceptions raised inside a module function are results, not
crashes:

- `KeyError` on `_ovs_vars`: its message is the quoted key.
- `StopIteration` from `six.next` on an empty table: its message is
  empty.

The driver turns either one into a failed run carrying that message.
`fail_json` and `exit_json` inside `prepare` end the run; they are the
`Stop` outcome of `prepare`.

Three points about the behaviour the model follows:

- Running present twice with the same parameters is meant to change the
  database once. `ovn_logical_switch_port` does not do this; see Findings.
- An entity already in the requested state ends the run inside `prepare`,
  before any transaction is built. The convergence lemmas state this, with
  a trace that stops after `prepare`.
- A list assigned to a set column, such as a port's `addresses`, is read
  back by the `ovs` library as its distinct elements in ascending order
  (`SortedSets.Canonical`). The module compares that list with the
  parameter as given, so the port module converges only for addresses given
  in that form.

## Model

| member | source | states |
|---|---|---|
| Ovsdb.FirstRow | library/ovn_sb_connection.py:63 | the first row in iteration order; none exactly when the table is empty, the case where `six.next` raises |
| Ovsdb.Lookup | library/ovn_controller.py:81 | `external_ids.get(key)` is present exactly when the key is in the map, with its value |
| Ovsdb.ChangeRow | library/ovn_controller.py:106-108 | `setkey` overwrites one key of the map, `delkey` drops one, `addvalue`/`delvalue` add or remove one reference, an assignment stores the value as the column holds it; only that column changes and the row identifier is kept |
| Ovsdb.Stored | library/ovn_logical_switch_port.py:99-101 | a list assigned to a column is held as a strictly ascending list with the same elements, unchanged when it was already strictly ascending; any other value is held as assigned |
| SortedSets.Canonical | library/ovn_logical_switch_port.py:74 | the list read back from a set column holds exactly the assigned elements, strictly ascending under Python string order |
| SortedSets.CanonicalFixes | library/ovn_logical_switch_port.py:74 | a list reads back unchanged exactly when it is already strictly ascending (sorted, no repeats) |
| Ovsdb.RemoveRows | library/ovn_logical_switch.py:48 | deleting a row leaves no row with that identifier and keeps every other row |
| Ovsdb.ApplyOp | module_utils/openvswitch.py:123 | committing one staged operation changes no table but its own |
| Ovsdb.ApplyAllValid | module_utils/openvswitch.py:123 | a committed transaction keeps every row identifier below the fresh-identifier counter, which never decreases, so inserted rows get identifiers no existing row carries |
| Ovsdb.ApplyUpdates | library/ovn_controller.py:100-108 | committing a series of changes to one row changes that row by all of them in order, and no other row, table or counter |
| OpenVSwitch.FindRow | module_utils/openvswitch.py:61-64 | `find_row` returns nothing exactly when no row satisfies the predicate, and otherwise the first row in iteration order that does |
| OpenVSwitch.FindIndex | module_utils/openvswitch.py:62-64 | the scan from a position on finds the first matching index, or proves that no row matches |
| OpenVSwitch.FindRowFirst | module_utils/openvswitch.py:61-64 | a row that is the first match is exactly what `find_row` returns |
| OpenVSwitch.RegisterColumns | library/ovn_logical_switch_port.py:44 | registering columns adds the table and unions the columns into its interest; other tables are untouched |
| OpenVSwitch.RegisterTable | library/ovn_logical_switch_port.py:45 | registering a whole table gives it the empty column set (all columns); other tables are untouched |
| OpenVSwitch.MakeOpsTable | module_utils/openvswitch.py:82-85 | the table has exactly the declared states as keys, and each entry is the defaults updated with the module's operations for that state |
| OpenVSwitch.OpsMerge | module_utils/openvswitch.py:84-85 | a declared operation overrides its default; an undeclared one (or an undeclared state) falls back to the default |
| OpenVSwitch.DefaultsAreInert | module_utils/openvswitch.py:67-72 | the default `prepare` records nothing, the default `build_txn` stages nothing, the default failure message is `OVSDB transaction failed` |
| OpenVSwitch.AttemptCount | module_utils/openvswitch.py:120-127 | between one and three attempts; every attempt but the last was answered "try again"; fewer than three only when the last answer was something else |
| OpenVSwitch.SettledAt | module_utils/openvswitch.py:120-127 | from a given attempt on, the attempt at which the loop stops, with the same properties |
| OpenVSwitch.AttemptEvents | module_utils/openvswitch.py:120-123 | each attempt contributes exactly two events |
| OpenVSwitch.AttemptEventsShape | module_utils/openvswitch.py:120-123 | event by event, each attempt builds a fresh transaction staging the same operations and then commits it, and the commit carries that attempt's answer |
| OpenVSwitch.RunModule | module_utils/openvswitch.py:92-144 | the imperative run (loop with `break`) has exactly the result, committed snapshot and event trace of the specification function `Run` |
| OpenVSwitch.RetryThenSuccess | module_utils/openvswitch.py:120-130 | two "try again" answers then success: three builds and commits, `changed` is true and the transaction is applied |
| OpenVSwitch.RetriesExhausted | module_utils/openvswitch.py:120-135 | three "try again" answers: the run fails with the failure message followed by `: try again`, and the database is unchanged |
| OpenVSwitch.CommitOutcome | module_utils/openvswitch.py:129-135 | the result is `changed=True` exactly on success (the transaction is applied), `changed=False` exactly on "unchanged", otherwise a failure `<message>: <status>`; the database changes only on success |
| OpenVSwitch.ChangedRun | module_utils/openvswitch.py:117-130 | a run that reports a change, when `prepare` did not itself report one, went past `prepare`, built its transaction and committed exactly that transaction |
| OpenVSwitch.SettledRun | module_utils/openvswitch.py:117-139 | a run whose `prepare` reports no change ends with the database as it was and a trace that stops after `prepare` |
| OpenVSwitch.CommittedRun | module_utils/openvswitch.py:119-130 | a run whose transaction builds and whose first commit succeeds reports a change |
| OpenVSwitch.ConvergesAfterChange | module_utils/openvswitch.py:117-139 | for a state that settles after one commit, a run that reports a change is followed by one that reports none, stops after `prepare` and leaves the database as committed |
| OpenVSwitch.CheckModeCommitsNothing | module_utils/openvswitch.py:119-137 | in check mode no transaction is built or committed; a run that `prepare` lets go on reports `changed=True` |
| OpenVSwitch.RunOrder | module_utils/openvswitch.py:105-127 | interest is registered before the IDL is opened and synced; `prepare` runs once, before any transaction; at most three builds and commits follow, alternating build then commit |
| OvnController.ManagedArg | library/ovn_controller.py:38-46 | maps an `external_ids` key back to the argument that manages it, and to none for an unmanaged key |
| OvnController.ManagedKeys | library/ovn_controller.py:38-57 | exactly the four keys `ovn-remote`, `ovn-encap-type`, `ovn-encap-ip`, `ovn-bridge-mappings` are managed, one per argument; all but bridge mappings are required |
| OvnController.ArgsDistinct | library/ovn_controller.py:55-57 | no two arguments share a key |
| OvnController.SerializeDict | library/ovn_controller.py:48-49 | the serialization is empty exactly for an empty dict |
| OvnController.SerializeDictSmall | library/ovn_controller.py:48-49 | one entry serializes as `key:value` |
| OvnController.PairRoundTrip | library/ovn_controller.py:48-49 | one `key:value` entry parses back to itself when the key avoids `,` and `:` and the value avoids `,` |
| OvnController.SerializeDictRoundTrip | library/ovn_controller.py:48-49 | when keys avoid `,` and `:` and values avoid `,`, the serialized string parses back to the same entries in order |
| OvnController.Serialized | library/ovn_controller.py:72-79 | an argument asks for no value exactly when its parameter was omitted; otherwise remote, encap type and encap IP ask for the parameter's string, and bridge mappings for the serialized dict |
| OvnController.MissingRequired | library/ovn_controller.py:65-68 | nothing is reported exactly when every required argument was given; otherwise the first omitted argument in `required_args` order |
| OvnController.PreparePresentDecision | library/ovn_controller.py:64-84 | an omitted required argument fails with `<arg> is required argument for state 'present'`; otherwise the run ends unchanged exactly when every managed key already holds what its argument asks for (omitted: absent) |
| OvnController.PrepareAbsentDecision | library/ovn_controller.py:87-94 | the absent run ends unchanged exactly when no managed key is set |
| OvnController.SetupChange | library/ovn_controller.py:101-108 | per argument, a `setkey` of the serialized value when given and a `delkey` of its key when omitted |
| OvnController.SetupChanges | library/ovn_controller.py:100-108 | one `external_ids` key change per argument, in order: the i-th is the `setkey` or `delkey` of the i-th argument |
| OvnController.RemoveChanges | library/ovn_controller.py:114-116 | only `delkey` calls, only for keys that are present |
| OvnController.KeyChangesOnRow | library/ovn_controller.py:106-108 | key changes on `external_ids` act on that map and leave every other column as it was |
| OvnController.SetupChangesEffect | library/ovn_controller.py:100-108 | after the setup calls, every managed key holds exactly what its argument asks for; every unmanaged key is untouched |
| OvnController.RemoveChangesEffect | library/ovn_controller.py:114-116 | the remove calls delete exactly the managed keys that were present and nothing else |
| OvnController.StageSetup | library/ovn_controller.py:100-108 | the loop stages exactly the setup changes on the configuration row, in argument order |
| OvnController.StageRemove | library/ovn_controller.py:114-116 | the loop stages exactly the removals of the managed keys present on the configuration row |
| OvnController.SetupEffect | library/ovn_controller.py:97-108 | the commit sets the managed keys on the first `Open_vSwitch` row as asked, keeps its other keys and columns, and changes nothing else |
| OvnController.SetupIdempotent | library/ovn_controller.py:64-108 | once the setup has committed, `prepare_present` with the same parameters ends the run unchanged |
| OvnController.RemoveEffect | library/ovn_controller.py:111-116 | the commit removes the managed keys from the first `Open_vSwitch` row, keeps everything else, and `prepare_absent` then ends the run unchanged |
| OvnController.Wiring | library/ovn_controller.py:133-146 | the present and absent states run the module's own prepare, build and failure-message functions |
| OvnController.PresentConverges | library/ovn_controller.py:64-108 | present twice: a run that reports a change is followed by one that reports none and stops after `prepare` |
| OvnController.AbsentConverges | library/ovn_controller.py:87-116 | absent twice: the same convergence |
| OvnLogicalSwitch.PrepareDecision | library/ovn_logical_switch.py:24-38 | present ends the run unchanged exactly when a switch has the name, absent exactly when none does; an absent run that goes on has recorded the first switch with the name |
| OvnLogicalSwitch.AddEffect | library/ovn_logical_switch.py:41-44 | the commit appends one switch with the name and a fresh identifier, changes no other table, and keeps identifiers fresh |
| OvnLogicalSwitch.AddIdempotent | library/ovn_logical_switch.py:24-44 | once the added switch has committed, `prepare_present` ends the run unchanged |
| OvnLogicalSwitch.RemoveEffect | library/ovn_logical_switch.py:47-48 | the commit removes the recorded switch, keeps the other switches, and changes no other table (the server's collection of the switch's ports is not modelled) |
| OvnLogicalSwitch.RemoveIdempotent | library/ovn_logical_switch.py:24-48 | with unique switch names, once the removal has committed no switch has the name and `prepare_absent` ends the run unchanged |
| OvnLogicalSwitch.FailureMessages | library/ovn_logical_switch.py:51-59 | the failure messages name the switch, and the removal message also names its identifier |
| OvnLogicalSwitch.Wiring | library/ovn_logical_switch.py:68-81 | the present and absent states run the module's own functions |
| OvnLogicalSwitch.PresentConverges | library/ovn_logical_switch.py:33-44 | present twice through the driver converges after one change |
| OvnLogicalSwitch.AbsentConverges | library/ovn_logical_switch.py:37-48 | absent twice through the driver converges after one change, with unique names |
| OvnSbConnection.PrepareDecision | library/ovn_sb_connection.py:41-55 | present ends the run unchanged exactly when a connection has the target, absent exactly when none does; an absent run that goes on has recorded the first connection with the target |
| OvnSbConnection.AddRows | library/ovn_sb_connection.py:58-64 | table by table: the connection list gains one row with the target, the `SB_Global` rows with the recorded identifier gain the new identifier in `connections`, other tables are unchanged, and identifiers stay fresh |
| OvnSbConnection.AddEffect | library/ovn_sb_connection.py:58-64 | the commit appends one connection with the target and a fresh identifier, and adds that identifier to the `connections` of the first `SB_Global` row, keeping its other members and columns and the other rows; nothing else changes |
| OvnSbConnection.RemoveRowsEffect | library/ovn_sb_connection.py:67-72 | table by table: the recorded connection's rows are deleted, the `SB_Global` rows with the recorded identifier lose it from `connections`, other tables are unchanged |
| OvnSbConnection.RemoveEffect | library/ovn_sb_connection.py:67-72 | the commit takes the recorded connection out of the first `SB_Global` row's `connections`, keeping the other members, and deletes its row, keeping the other connections |
| OvnSbConnection.AddIdempotent | library/ovn_sb_connection.py:41-64 | once the added connection has committed, `prepare_present` ends the run unchanged |
| OvnSbConnection.RemoveIdempotent | library/ovn_sb_connection.py:41-72 | with unique targets, once the removal has committed no connection has the target and `prepare_absent` ends the run unchanged |
| OvnSbConnection.FailureMessages | library/ovn_sb_connection.py:75-83 | the failure messages name the target, and the removal message also names the connection's identifier; without a recorded connection the removal message raises `KeyError` |
| OvnSbConnection.Wiring | library/ovn_sb_connection.py:92-105 | the present and absent states run the module's own functions |
| OvnSbConnection.PresentConverges | library/ovn_sb_connection.py:50-64 | present twice through the driver converges after one change |
| OvnSbConnection.AbsentConverges | library/ovn_sb_connection.py:54-72 | absent twice through the driver converges after one change, with unique targets |
| OvnLogicalSwitchPort.InSyncColumns | library/ovn_logical_switch_port.py:66-77 | the port is in sync exactly when its `type` and `addresses` equal the requested ones |
| OvnLogicalSwitchPort.CheckProps | library/ovn_logical_switch_port.py:66-77 | the `for`/`else` loop reports "no property differs" exactly when the port is in sync |
| OvnLogicalSwitchPort.FindNamed | library/ovn_logical_switch_port.py:59-61 | looking a row up by name finds nothing exactly when no row has the name, and otherwise exactly the first row with it |
| OvnLogicalSwitchPort.PrepareDecision | library/ovn_logical_switch_port.py:48-83 | `Switch <name> does not exist` exactly when no switch has the name; unchanged exactly when the first such switch lists the first port with the name and that port is in sync; the failure `Can't reassing port <name>` exactly when both exist but the switch does not list the port; no other stop; otherwise the run goes on, adding exactly when no port has the name and reconfiguring an out-of-sync attached port otherwise |
| OvnLogicalSwitchPort.StageReconfigure | library/ovn_logical_switch_port.py:99-101 | the loop stages one assignment per property, in order, on the recorded port |
| OvnLogicalSwitchPort.PropChangesEffect | library/ovn_logical_switch_port.py:99-101 | assigning the properties keeps the port's identifier and name, sets its type, and leaves its addresses reading back sorted without repeats; the port is then in sync exactly when the requested addresses were strictly ascending |
| OvnLogicalSwitchPort.AttachedDecision | library/ovn_logical_switch_port.py:59-79 | when the first switch with the name lists the first port with the name, `prepare_present` ends the run unchanged if that port is in sync and otherwise goes on to reconfigure that port on that switch |
| OvnLogicalSwitchPort.AddPortEffect | library/ovn_logical_switch_port.py:92-96 | the add path appends one port with the name (and only the name) and a fresh identifier, adds it to the `ports` of the recorded switch's rows, and changes nothing else |
| OvnLogicalSwitchPort.ReconfigureEffect | library/ovn_logical_switch_port.py:97-101 | the reconfigure path puts the requested type and the addresses (as the set column holds them) on the recorded port, keeps its name, and changes no other row or table; the port is in sync afterwards exactly when the addresses were strictly ascending |
| OvnLogicalSwitchPort.ReconfiguredStaysFirst | library/ovn_logical_switch_port.py:97-101 | reconfiguring a port leaves the switches as they were and keeps the port, with its identifier, the first one with its name; it is in sync exactly when the addresses were strictly ascending |
| OvnLogicalSwitchPort.ReconfigureIdempotent | library/ovn_logical_switch_port.py:59-101 | once a reconfiguration has committed, `prepare_present` ends the run unchanged exactly when the requested addresses are strictly ascending, and otherwise reconfigures again |
| OvnLogicalSwitchPort.AddedState | library/ovn_logical_switch_port.py:90-96 | after the add path, the recorded switch is still the first with its name, the new port (carrying only its name) is the first port with that name, and the switch lists it |
| OvnLogicalSwitchPort.FreshPortDecision | library/ovn_logical_switch_port.py:59-79 | a listed first port that carries only its name is in sync exactly when the requested type is `""` and the addresses are empty; otherwise `prepare_present` goes on to reconfigure it |
| OvnLogicalSwitchPort.AsWrittenAddLeavesDefaults | library/ovn_logical_switch_port.py:92-96 | after the add path as written, `prepare_present` ends the run unchanged exactly when the requested type is `""` and the addresses are empty; otherwise it goes on to reconfigure |
| OvnLogicalSwitchPort.AsWrittenRepeatsChange | library/ovn_logical_switch_port.py:92-96 | as written, a run that added a port with a non-default type or addresses is followed by a run that reports a change again |
| OvnLogicalSwitchPort.AsWrittenExample | library/ovn_logical_switch_port.py:92-96 | switch `sw0` with no ports, port `lsp0` of type `router`: both the first and the second present run report a change |
| OvnLogicalSwitchPort.AddIdempotent | library/ovn_logical_switch_port.py:92-96 | with the add path corrected to set the properties, once the added port has committed, `prepare_present` ends the run unchanged exactly when the requested addresses are strictly ascending, and otherwise reconfigures |
| OvnLogicalSwitchPort.ConfiguredThenPrepared | library/ovn_logical_switch_port.py:59-101 | after either corrected path commits, `prepare_present` ends the run unchanged exactly when the requested addresses are strictly ascending; otherwise it reconfigures, and that transaction builds |
| OvnLogicalSwitchPort.PresentConverges | library/ovn_logical_switch_port.py:48-101 | with the corrected add path and strictly ascending addresses, present twice through the driver converges after one change |
| OvnLogicalSwitchPort.UnsortedAddressesRepeat | library/ovn_logical_switch_port.py:66-101 | with addresses that are not strictly ascending, a run that reports a change is followed by a run that reports a change again, however often present runs |
| OvnLogicalSwitchPort.Wiring | library/ovn_logical_switch_port.py:128-141 | the present state runs `prepare_present` and `configure_port` with the default failure message; the absent state runs only the defaults |
| OvnLogicalSwitchPort.AbsentChangesNothing | library/ovn_logical_switch_port.py:135-140 | the absent state stages nothing, so no run of it changes the database |

## Left out

- Replication is not modelled: the Idl, the JSON-RPC session and the
  server's commit processing. The replica is a given snapshot, and
  commit answers are an input.
- The snapshot is not refreshed between retries. The model rebuilds the
  same staged operations from the same snapshot on each attempt.
- `wait_for_db_change` is not modelled: the poller, the clock and the
  10-second deadline. Its only effect on a run is an optional failure
  message.
- Row identifiers are naturals, not 128-bit UUIDs. Failure messages
  print them in decimal.
- Status strings are those of the `ovs` library, which is not part of
  this model.
- An empty transaction's answer ("unchanged") is whatever the server
  input says.
- Not modelled:
  - `HAS_OVS` and the "library is not installed" failure;
  - schema and socket path construction;
  - `idl.close()`;
  - `module.log`;
  - argument parsing and its choices and defaults.

  Parameters arrive already parsed.
- Schema interest is recorded only as a trace event. It does not filter
  what the snapshot holds.
- OvnController.SerializeDict: a Python dict is modelled as a sequence
  of entries in iteration order. Duplicate keys are not excluded.
- OvnController.SerializeDictRoundTrip: holds only for keys and values
  without separators, because `serialize_dict` does no escaping.
- OvnLogicalSwitch.RemoveIdempotent and OvnSbConnection.RemoveIdempotent
  assume unique names or targets. With duplicates, `find_row` finds the
  next one on the following run.
- OvnLogicalSwitch.AbsentConverges and OvnSbConnection.AbsentConverges
  have the same assumption.
- The `ovn_logical_switch_port` module's `prepare_absent` is left out. It
  calls `port_exists`, which the module does not define, and the absent
  state does not use it.
- `remove_port` and `remove_failure_msg` are left out. They are not
  wired to any state, and `remove_port` deletes the switch rather than
  the port.
- `create_failure_msg` is left out. It is commented out, so the present
  state fails with the default message.
- The port's `addresses` column is held as a set, and the `ovs` library
  reads it back sorted, each address once. The module compares that list
  in order with the parameter. The `ovs` library is not part of this
  model; `Ovsdb.Stored` states the behaviour assumed of it.
- OvnLogicalSwitchPort.PresentConverges requires strictly ascending
  addresses, because with any other list the module never settles.
  OvnLogicalSwitchPort.UnsortedAddressesRepeat proves that case.
- OvnLogicalSwitch.RemoveEffect: the server's garbage collection is not
  modelled. `Logical_Switch_Port` rows are referenced only from a switch's
  `ports`, so the same commit also deletes the removed switch's ports.
  The lemma's "no other table changes" holds for the model only.
- Ovsdb.RemoveRows: its contract states which rows remain, not that they
  keep their order. The body keeps them in order.

## Findings

| source | as written | input that shows it | evidently intended | confidence | as-written member | corrected member |
|---|---|---|---|---|---|---|
| library/ovn_logical_switch_port.py:92-96 | the add path inserts the port, sets its name and attaches it to the switch, but never sets `type` or `addresses` | one switch `sw0` and no ports; present with name `lsp0`, switch `sw0`, type `router`: the first run adds the port and reports a change, the second finds type `""` instead of `router`, reconfigures and reports a change again | a port that is added carries the requested type and addresses, so that present run twice changes once (for addresses given strictly ascending), as `prepare_present` compares exactly those properties | not executed | OvnLogicalSwitchPort.AsWrittenRepeatsChange | OvnLogicalSwitchPort.AddIdempotent |
