/** The database session: a unit of work with `autoflush=False`. Added rows stay
    pending, invisible to queries, until a flush inserts them; only a commit
    makes the flushed rows permanent. */
module UnitOfWork {
  import opened Wrappers
  import opened Tables

  /** What the session has to write: a row added to it, or a vehicle marked for
      deletion. A deal's carrier is still nullable here; the column is not. */
  datatype Row =
    | LoadRow(newLoad: Load)
    | VehicleRow(newVehicle: Vehicle)
    | CarrierRow(newCarrier: Carrier)
    | MatchRow(newMatch: Match)
    | DealRow(load: nat, vehicle: nat, carrier: Option<nat>, price: int, currency: string)
    | SampleRow(sample: PriceSample)
    | PositionRow(position: Position)
    | VehicleDeletion(deleted: nat)

  /** The constraints a write is checked against: unique (source, external_id)
      with NULLs never colliding, unique (load, vehicle) pairs, foreign keys, and
      the NOT NULL carrier of a deal. A DELETE is refused while a row of a table
      with a foreign key to vehicles holds the id. */
  predicate Admits(t: Db, row: Row) {
    match row
    case LoadRow(l) => l.externalId.Some? ==> FindLoad(t.loads, l.source, l.externalId.value).None?
    case VehicleRow(v) =>
      && (v.externalId.Some? ==> FindVehicle(t.vehicles, v.source, v.externalId.value).None?)
      && (v.carrier.Some? ==> v.carrier.value < |t.carriers|)
    case CarrierRow(_) => true
    case MatchRow(m) =>
      m.load < |t.loads| && HasVehicle(t, m.vehicle) && FindMatch(t.matches, m.load, m.vehicle).None?
    case DealRow(load, vehicle, carrier, _, _) =>
      load < |t.loads| && HasVehicle(t, vehicle) && carrier.Some? && carrier.value < |t.carriers|
    case SampleRow(_) => true
    case PositionRow(p) => HasVehicle(t, p.vehicle)
    case VehicleDeletion(v) =>
      && HasVehicle(t, v)
      && (forall i | 0 <= i < |t.matches| :: t.matches[i].vehicle != v)
      && (forall i | 0 <= i < |t.deals| :: t.deals[i].vehicle != v)
      && (forall i | 0 <= i < |t.positions| :: t.positions[i].vehicle != v)
  }

  function WriteRow(t: Db, row: Row): Db
    requires Admits(t, row)
  {
    match row
    case LoadRow(l) => t.(loads := t.loads + [l])
    case VehicleRow(v) => t.(vehicles := t.vehicles + [Some(v)])
    case CarrierRow(c) => t.(carriers := t.carriers + [c])
    case MatchRow(m) => t.(matches := t.matches + [m])
    case DealRow(load, vehicle, carrier, price, currency) =>
      t.(deals := t.deals + [Deal(load, vehicle, carrier.value, price, currency, DealBooked)])
    case SampleRow(s) => t.(samples := t.samples + [s])
    case PositionRow(p) => t.(positions := t.positions + [p])
    case VehicleDeletion(v) => t.(vehicles := t.vehicles[v := None])
  }

  /** Rows to add, nothing to delete. */
  ghost predicate OnlyInserts(rows: seq<Row>) {
    forall i | 0 <= i < |rows| :: !rows[i].VehicleDeletion?
  }

  /** A flush inserts the pending rows in order; the first violation fails it. */
  function FlushRows(t: Db, rows: seq<Row>): Option<Db> {
    if rows == [] then Some(t)
    else
      var before := FlushRows(t, rows[..|rows| - 1]);
      var row := rows[|rows| - 1];
      if before.Some? && Admits(before.value, row) then Some(WriteRow(before.value, row)) else None
  }

  lemma FlushOneMore(t: Db, rows: seq<Row>, row: Row)
    ensures FlushRows(t, rows + [row]) ==
            (var before := FlushRows(t, rows);
             if before.Some? && Admits(before.value, row) then Some(WriteRow(before.value, row)) else None)
  {
    assert (rows + [row])[..|rows + [row]| - 1] == rows;
  }

  lemma FlushOne(t: Db, row: Row)
    ensures FlushRows(t, [row]) == if Admits(t, row) then Some(WriteRow(t, row)) else None
  {
    FlushOneMore(t, [], row);
    assert [] + [row] == [row];
  }

  lemma {:induction false} FlushPrefixFails(t: Db, rows: seq<Row>, n: nat)
    requires n <= |rows| && FlushRows(t, rows[..n]).None?
    ensures FlushRows(t, rows).None?
    decreases |rows| - n
  {
    if n < |rows| {
      FlushOneMore(t, rows[..n], rows[n]);
      assert rows[..n + 1] == rows[..n] + [rows[n]];
      FlushPrefixFails(t, rows, n + 1);
    } else {
      assert rows[..n] == rows;
    }
  }

  /** Rows are only added and keep their place and value, except that a vehicle may
      become a hole. */
  ghost predicate Grows(t: Db, u: Db) {
    && t.loads <= u.loads && t.carriers <= u.carriers && t.matches <= u.matches
    && t.deals <= u.deals && t.samples <= u.samples && t.positions <= u.positions && t.feedback == u.feedback
    && |t.vehicles| <= |u.vehicles|
    && forall v | 0 <= v < |t.vehicles| :: u.vehicles[v] == t.vehicles[v] || u.vehicles[v].None?
  }

  lemma WriteGrows(t: Db, row: Row)
    requires Admits(t, row)
    ensures Grows(t, WriteRow(t, row))
    ensures !row.VehicleDeletion? ==> t.vehicles <= WriteRow(t, row).vehicles
  {
  }

  lemma GrowsTransitive(t: Db, u: Db, w: Db)
    requires Grows(t, u) && Grows(u, w)
    ensures Grows(t, w)
  {
    forall v | 0 <= v < |t.vehicles| ensures w.vehicles[v] == t.vehicles[v] || w.vehicles[v].None? {
      assert w.vehicles[v] == u.vehicles[v] || w.vehicles[v].None?;
    }
  }

  /** Tables only grow in a flush; without a deletion vehicles do, too. */
  lemma {:induction false} FlushAppends(t: Db, rows: seq<Row>)
    requires FlushRows(t, rows).Some?
    ensures Grows(t, FlushRows(t, rows).value)
    ensures OnlyInserts(rows) ==> t.vehicles <= FlushRows(t, rows).value.vehicles
  {
    if rows != [] {
      hide Grows, Admits, WriteRow;
      var front, last := rows[..|rows| - 1], rows[|rows| - 1];
      FlushAppends(t, front);
      var before := FlushRows(t, front).value;
      WriteGrows(before, last);
      GrowsTransitive(t, before, WriteRow(before, last));
      assert OnlyInserts(rows) ==> OnlyInserts(front) && !last.VehicleDeletion?;
    } else {
      assert Grows(t, t);
    }
  }

  class Session {
    /** What the last commit left in the database. */
    var db: Db
    /** What the open transaction sees: `db` with its flushed rows and changes. */
    var tx: Db
    /** Rows added since the last flush. */
    var pending: seq<Row>

    /** No transaction in progress. */
    ghost predicate Idle()
      reads this
    {
      tx == db && pending == []
    }

    constructor (db: Db)
      ensures this.db == db && Idle()
    {
      this.db, tx, pending := db, db, [];
    }

    method Add(row: Row)
      modifies `pending
      ensures pending == old(pending) + [row]
    {
      pending := pending + [row];
    }

    /** `session.delete(...)` of a vehicle. */
    method Delete(vehicle: nat)
      modifies `pending
      ensures pending == old(pending) + [VehicleDeletion(vehicle)]
    {
      pending := pending + [VehicleDeletion(vehicle)];
    }

    method Rollback()
      modifies `tx, `pending
      ensures Idle()
    {
      tx, pending := db, [];
    }

    /** A violated constraint rolls the transaction back. */
    method Flush() returns (ok: bool)
      modifies `tx, `pending
      ensures ok <==> FlushRows(old(tx), old(pending)).Some?
      ensures ok ==> tx == FlushRows(old(tx), old(pending)).value && pending == []
      ensures !ok ==> Idle()
    {
      var view := tx;
      for i := 0 to |pending|
        invariant tx == old(tx) && pending == old(pending)
        invariant FlushRows(tx, pending[..i]) == Some(view)
      {
        FlushOneMore(tx, pending[..i], pending[i]);
        assert pending[..i + 1] == pending[..i] + [pending[i]];
        if !Admits(view, pending[i]) {
          FlushPrefixFails(tx, pending, i + 1);
          Rollback();
          return false;
        }
        view := WriteRow(view, pending[i]);
      }
      assert pending[..|pending|] == pending;
      tx, pending := view, [];
      return true;
    }

    method Commit() returns (ok: bool)
      modifies this
      ensures Idle()
      ensures ok <==> FlushRows(old(tx), old(pending)).Some?
      ensures db == if ok then FlushRows(old(tx), old(pending)).value else old(db)
    {
      ok := Flush();
      if ok {
        db := tx;
      }
    }
  }
}
