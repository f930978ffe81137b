/**
 * An abstract view of the OVSDB client machinery that the Ansible modules use
 * through the `ovs` Python library: a replicated snapshot of the database
 * (table name -> rows in iteration order) and the operations a transaction
 * stages against it. The replication protocol itself is not modelled: a
 * snapshot is simply given, and a committed transaction is applied to it.
 */
module Ovsdb {
  import SortedSets

  datatype Option<T> = None | Some(value: T)

  /** Row identifiers. The server's 128-bit UUIDs are abstracted to naturals. */
  type Uuid = nat

  /** A column value: a string scalar, a set of row references, a string map,
      or a list of strings (the Python IDL hands set columns out as lists). */
  datatype Datum =
    | Str(s: string)
    | Refs(refs: set<Uuid>)
    | StrMap(entries: map<string, string>)
    | StrList(items: seq<string>)

  datatype Row = Row(uuid: Uuid, columns: map<string, Datum>)

  /** The replica: rows of every table in iteration order, and the next
      identifier the server hands out to an inserted row. */
  datatype Snapshot = Snapshot(tables: map<string, seq<Row>>, nextUuid: Uuid)

  /** Every row identifier was handed out before `nextUuid`. */
  ghost predicate Valid(db: Snapshot)
  {
    forall t, i :: t in db.tables && 0 <= i < |db.tables[t]| ==> db.tables[t][i].uuid < db.nextUuid
  }

  /** Rows of a table in iteration order; a table that is not replicated has none. */
  function Rows(db: Snapshot, table: string): seq<Row>
  {
    if table in db.tables then db.tables[table] else []
  }

  /** The first row of a table in iteration order (`six.next(six.itervalues(rows))`). */
  function FirstRow(db: Snapshot, table: string): (r: Option<Row>)
    ensures r.None? <==> Rows(db, table) == []
    ensures r.Some? ==> r.value == Rows(db, table)[0]
  {
    var rows := Rows(db, table);
    if rows == [] then None else Some(rows[0])
  }

  /** Column readers. A column that was never written holds its type's
      default value: the empty string, set, map or list. */
  function StrColumn(row: Row, column: string): string
  {
    if column in row.columns && row.columns[column].Str? then row.columns[column].s else ""
  }

  function RefsColumn(row: Row, column: string): set<Uuid>
  {
    if column in row.columns && row.columns[column].Refs? then row.columns[column].refs else {}
  }

  function MapColumn(row: Row, column: string): map<string, string>
  {
    if column in row.columns && row.columns[column].StrMap? then row.columns[column].entries else map[]
  }

  function ListColumn(row: Row, column: string): seq<string>
  {
    if column in row.columns && row.columns[column].StrList? then row.columns[column].items else []
  }

  /** `dict.get(key)` on a string map. */
  function Lookup(m: map<string, string>, key: string): (r: Option<string>)
    ensures r.Some? <==> key in m
    ensures r.Some? ==> r.value == m[key]
  {
    if key in m then Some(m[key]) else None
  }

  /** A change to one column of one row: a plain assignment, `setkey`,
      `delkey`, `addvalue` or `delvalue`. */
  datatype Change =
    | SetColumn(column: string, value: Datum)
    | SetKey(column: string, key: string, val: string)
    | DelKey(column: string, key: string)
    | AddValue(column: string, ref: Uuid)
    | DelValue(column: string, ref: Uuid)

  /** An operation staged in a transaction. */
  datatype Op =
    | Insert(table: string, uuid: Uuid)
    | Delete(table: string, uuid: Uuid)
    | Update(table: string, uuid: Uuid, change: Change)

  /** What a column holds once assigned `v`. A list of strings goes into a
      set column, so it is held, and read back, as its distinct elements in
      ascending order; any other value is held as assigned. */
  function Stored(v: Datum): (r: Datum)
    ensures v.StrList? ==> r.StrList? && SortedSets.Ascending(r.items) && forall x :: x in r.items <==> x in v.items
    ensures v.StrList? && SortedSets.Ascending(v.items) ==> r == v
    ensures !v.StrList? ==> r == v
  {
    if v.StrList? then
      SortedSets.CanonicalFixes(v.items);
      StrList(SortedSets.Canonical(v.items))
    else v
  }

  /** The row after one change: an assignment stores the value, `setkey`
      overwrites one key, `delkey` drops one, `addvalue` and `delvalue` add or
      remove one reference; the identifier and the other columns are kept. */
  function ChangeRow(row: Row, change: Change): (r: Row)
    ensures r.uuid == row.uuid
    ensures forall c :: c != change.column ==> (c in r.columns <==> c in row.columns)
    ensures forall c :: c != change.column && c in row.columns ==> r.columns[c] == row.columns[c]
    ensures change.column in r.columns
    ensures change.SetColumn? ==> r.columns[change.column] == Stored(change.value)
    ensures change.SetKey? ==> MapColumn(r, change.column) == MapColumn(row, change.column)[change.key := change.val]
    ensures change.DelKey? ==> MapColumn(r, change.column) == MapColumn(row, change.column) - {change.key}
    ensures change.AddValue? ==> RefsColumn(r, change.column) == RefsColumn(row, change.column) + {change.ref}
    ensures change.DelValue? ==> RefsColumn(r, change.column) == RefsColumn(row, change.column) - {change.ref}
  {
    match change
    case SetColumn(c, v) => row.(columns := row.columns[c := Stored(v)])
    case SetKey(c, k, v) => row.(columns := row.columns[c := StrMap(MapColumn(row, c)[k := v])])
    case DelKey(c, k) => row.(columns := row.columns[c := StrMap(MapColumn(row, c) - {k})])
    case AddValue(c, u) => row.(columns := row.columns[c := Refs(RefsColumn(row, c) + {u})])
    case DelValue(c, u) => row.(columns := row.columns[c := Refs(RefsColumn(row, c) - {u})])
  }

  /** Applies a change to every row carrying the given identifier. */
  function ChangeRows(rows: seq<Row>, uuid: Uuid, change: Change): (r: seq<Row>)
    ensures |r| == |rows|
    ensures forall i :: 0 <= i < |rows| ==> r[i] == if rows[i].uuid == uuid then ChangeRow(rows[i], change) else rows[i]
  {
    seq(|rows|, i requires 0 <= i < |rows| => if rows[i].uuid == uuid then ChangeRow(rows[i], change) else rows[i])
  }

  /** The rows that do not carry the given identifier, in order. */
  function RemoveRows(rows: seq<Row>, uuid: Uuid): (r: seq<Row>)
    ensures forall i :: 0 <= i < |r| ==> r[i].uuid != uuid && r[i] in rows
    ensures forall row :: row in rows && row.uuid != uuid ==> row in r
  {
    if rows == [] then []
    else if rows[0].uuid == uuid then RemoveRows(rows[1..], uuid)
    else [rows[0]] + RemoveRows(rows[1..], uuid)
  }

  /** The effect of one staged operation once the transaction commits. */
  function ApplyOp(db: Snapshot, op: Op): (r: Snapshot)
    ensures forall t :: t != op.table ==> Rows(r, t) == Rows(db, t)
  {
    match op
    case Insert(t, u) =>
      Snapshot(db.tables[t := Rows(db, t) + [Row(u, map[])]],
               if u < db.nextUuid then db.nextUuid else u + 1)
    case Delete(t, u) =>
      db.(tables := db.tables[t := RemoveRows(Rows(db, t), u)])
    case Update(t, u, ch) =>
      db.(tables := db.tables[t := ChangeRows(Rows(db, t), u, ch)])
  }

  /** The effect of a whole transaction, operation by operation in staging order. */
  function ApplyAll(db: Snapshot, ops: seq<Op>): Snapshot
    decreases |ops|
  {
    if ops == [] then db else ApplyAll(ApplyOp(db, ops[0]), ops[1..])
  }

  /** A committed transaction keeps every identifier below `nextUuid`. */
  lemma {:induction false} ApplyAllValid(db: Snapshot, ops: seq<Op>)
    requires Valid(db)
    ensures Valid(ApplyAll(db, ops))
    ensures ApplyAll(db, ops).nextUuid >= db.nextUuid
    decreases |ops|
  {
    if ops != [] {
      var db1 := ApplyOp(db, ops[0]);
      forall t, i | t in db1.tables && 0 <= i < |db1.tables[t]|
        ensures db1.tables[t][i].uuid < db1.nextUuid
      {
        assert Rows(db1, t)[i] == db1.tables[t][i];
        if t != ops[0].table {
          assert Rows(db, t)[i] == db1.tables[t][i];
        } else {
          match ops[0]
          case Insert(_, _) =>
            if i < |Rows(db, t)| { assert db1.tables[t][i] == Rows(db, t)[i]; }
          case Delete(_, u) =>
            assert db1.tables[t][i] in Rows(db, t);
          case Update(_, u, ch) =>
            assert db1.tables[t][i].uuid == Rows(db, t)[i].uuid;
        }
      }
      ApplyAllValid(db1, ops[1..]);
    }
  }

  /** Operations that touch no table of `tables` leave those tables' rows alone. */
  lemma {:induction false} ApplyAllElsewhere(db: Snapshot, ops: seq<Op>, t: string)
    requires forall i :: 0 <= i < |ops| ==> ops[i].table != t
    ensures Rows(ApplyAll(db, ops), t) == Rows(db, t)
    decreases |ops|
  {
    if ops != [] {
      ApplyAllElsewhere(ApplyOp(db, ops[0]), ops[1..], t);
    }
  }

  /** A transaction staged in two parts commits as the first part followed by the second. */
  lemma {:induction false} ApplyAllConcat(db: Snapshot, a: seq<Op>, b: seq<Op>)
    ensures ApplyAll(db, a + b) == ApplyAll(ApplyAll(db, a), b)
    decreases |a|
  {
    if a == [] {
      assert a + b == b;
    } else {
      assert (a + b)[1..] == a[1..] + b;
      ApplyAllConcat(ApplyOp(db, a[0]), a[1..], b);
    }
  }

  /** Transactions of one, two and three operations, spelled out. */
  lemma ApplyFew(db: Snapshot, a: Op, b: Op, c: Op)
    ensures ApplyAll(db, [a]) == ApplyOp(db, a)
    ensures ApplyAll(db, [a, b]) == ApplyOp(ApplyOp(db, a), b)
    ensures ApplyAll(db, [a, b, c]) == ApplyOp(ApplyOp(ApplyOp(db, a), b), c)
  {
    assert [a][1..] == [] && [a, b][1..] == [b] && [a, b, c][1..] == [b, c];
    assert ApplyAll(ApplyOp(db, a), [b]) == ApplyOp(ApplyOp(db, a), b) by {
      assert [b][1..] == [];
    }
    assert ApplyAll(ApplyOp(ApplyOp(db, a), b), [c]) == ApplyOp(ApplyOp(ApplyOp(db, a), b), c) by {
      assert [c][1..] == [];
    }
    assert ApplyAll(ApplyOp(db, a), [b, c]) == ApplyAll(ApplyOp(ApplyOp(db, a), b), [c]) by {
      assert [b, c][1..] == [c];
    }
  }

  /** The changes to one row, applied in order. */
  function ChangeRowAll(row: Row, changes: seq<Change>): (r: Row)
    ensures r.uuid == row.uuid
    decreases |changes|
  {
    if changes == [] then row else ChangeRowAll(ChangeRow(row, changes[0]), changes[1..])
  }

  /** The update operations that stage `changes` on row `uuid` of `table`. */
  function Updates(table: string, uuid: Uuid, changes: seq<Change>): (ops: seq<Op>)
    ensures |ops| == |changes|
    ensures forall i :: 0 <= i < |changes| ==> ops[i] == Update(table, uuid, changes[i])
  {
    seq(|changes|, i requires 0 <= i < |changes| => Update(table, uuid, changes[i]))
  }

  lemma UpdatesAppend(table: string, uuid: Uuid, changes: seq<Change>, c: Change)
    ensures Updates(table, uuid, changes + [c]) == Updates(table, uuid, changes) + [Update(table, uuid, c)]
  {
  }

  /** Committing updates of one row changes that row, in place, by all of them
      in order, and no other row and no other table. */
  lemma {:induction false} ApplyUpdates(db: Snapshot, table: string, uuid: Uuid, changes: seq<Change>)
    ensures var r := ApplyAll(db, Updates(table, uuid, changes));
      && |Rows(r, table)| == |Rows(db, table)|
      && (forall i :: 0 <= i < |Rows(db, table)| ==>
            Rows(r, table)[i] == if Rows(db, table)[i].uuid == uuid then ChangeRowAll(Rows(db, table)[i], changes) else Rows(db, table)[i])
      && (forall t :: t != table ==> Rows(r, t) == Rows(db, t))
      && r.nextUuid == db.nextUuid
    decreases |changes|
  {
    if changes != [] {
      var db1 := ApplyOp(db, Update(table, uuid, changes[0]));
      assert Updates(table, uuid, changes)[1..] == Updates(table, uuid, changes[1..]);
      ApplyUpdates(db1, table, uuid, changes[1..]);
    }
  }

  /** Decimal text of a row identifier, as it appears in failure messages. */
  function UuidText(u: Uuid): (r: string)
    ensures |r| > 0
  {
    if u < 10 then [DigitChar(u)] else UuidText(u / 10) + [DigitChar(u % 10)]
  }

  function DigitChar(d: nat): char
    requires d < 10
  {
    "0123456789"[d]
  }

  /** `part` occurs in `s`. */
  predicate Embeds(s: string, part: string)
  {
    part <= s || (s != [] && Embeds(s[1..], part))
  }

  /** Whatever stands between a prefix and a suffix occurs in the whole. */
  lemma {:induction false} EmbedsMiddle(before: string, part: string, after: string)
    ensures Embeds(before + part + after, part)
    decreases |before|
  {
    if before == [] {
      assert before + part + after == part + after;
    } else {
      assert (before + part + after)[1..] == before[1..] + part + after;
      EmbedsMiddle(before[1..], part, after);
    }
  }
}
