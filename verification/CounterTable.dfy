/**
  The database side of the counter: one Postgres table, the statement batch that
  creates it and the one statement that advances it
  (crates/adapter-counter-store-postgres/src/lib.rs).

  BIGINT is 64 bits wide and its addition fails instead of wrapping around.
 */
module CounterTable {
  import opened Wrappers

  const BIGINT_MAX: int := 0x7FFF_FFFF_FFFF_FFFF
  const BIGINT_MIN: int := -0x8000_0000_0000_0000

  type BigInt = v: int | BIGINT_MIN <= v <= BIGINT_MAX

  /** The id of the only row the program reads or writes. */
  const COUNTER_ID: int := 1

  datatype Database = NoTable | Counters(rows: map<int, BigInt>)

  /** What a caller can see of an attempt that did not deliver a value. */
  datatype DbError = ConnectFailed | NoSuchTable | NoSuchRow | OutOfRange | ReplyLost

  datatype Reply<+T> = Committed(value: T) | Refused(error: DbError)

  function Stored(db: Database): Option<BigInt> {
    if db.Counters? && COUNTER_ID in db.rows then Some(db.rows[COUNTER_ID]) else None
  }

  function CreateTableIfMissing(db: Database): Database {
    if db.NoTable? then Counters(map[]) else db
  }

  function InsertRowIfMissing(db: Database): Database
    requires db.Counters?
  {
    if COUNTER_ID in db.rows then db else Counters(db.rows[COUNTER_ID := 0])
  }

  /** INIT_SQL: both statements run as one batch, hence in one transaction. */
  function InitSql(db: Database): Database {
    InsertRowIfMissing(CreateTableIfMissing(db))
  }

  /** UPDATE ... RETURNING as the server runs it; zero rows make `query_one` an error. */
  function Update(db: Database): (Database, Reply<BigInt>) {
    if db.NoTable? then (db, Refused(NoSuchTable))
    else if COUNTER_ID !in db.rows then (db, Refused(NoSuchRow))
    else if db.rows[COUNTER_ID] == BIGINT_MAX then (db, Refused(OutOfRange))
    else
      var value: BigInt := db.rows[COUNTER_ID] + 1;
      (Counters(db.rows[COUNTER_ID := value]), Committed(value))
  }

  /** The one statement on the one row: it is row 1, a BIGINT ends at 2^63 - 1, and every
      case in which no value comes back leaves the database alone. */
  lemma UpdateOfRowOne(rows: map<int, BigInt>)
    ensures Update(NoTable) == (NoTable, Refused(NoSuchTable))
    ensures 1 !in rows ==> Update(Counters(rows)) == (Counters(rows), Refused(NoSuchRow))
    ensures 1 in rows && rows[1] == 9223372036854775807 ==>
              Update(Counters(rows)) == (Counters(rows), Refused(OutOfRange))
    ensures 1 in rows && rows[1] < 9223372036854775807 ==>
              var (after, reply) := Update(Counters(rows));
              after == Counters(rows[1 := rows[1] + 1]) && reply == Committed(rows[1] + 1)
    ensures Update(Counters(map[1 := -9223372036854775808])).1 == Committed(-9223372036854775807)
  {
  }

  /** INIT_SQL creates what is missing and nothing else. */
  lemma InitCreatesRowOne(rows: map<int, BigInt>)
    ensures InitSql(NoTable) == Counters(map[1 := 0])
    ensures InitSql(Counters(rows)) == Counters(if 1 in rows then rows else rows[1 := 0])
  {
  }

  /** One transaction of any session. */
  datatype Statement = Init | Increment

  function Execute(db: Database, statements: seq<Statement>): Database
    decreases |statements|
  {
    if statements == [] then db
    else
      var next := match statements[0] { case Init => InitSql(db) case Increment => Update(db).0 };
      Execute(next, statements[1..])
  }

  function Increments(statements: seq<Statement>): nat {
    if statements == [] then 0
    else (if statements[0].Increment? then 1 else 0) + Increments(statements[1..])
  }

  function Min(a: int, b: int): int {
    if a < b then a else b
  }

  /** However initialisation interleaves with updates, an existing row counts the
      updates (up to the column's maximum) and no other row is touched. */
  lemma {:induction false} InitNeverChangesARow(db: Database, statements: seq<Statement>)
    requires Stored(db).Some?
    ensures var after := Execute(db, statements);
            && Stored(after) == Some(Min(BIGINT_MAX, Stored(db).value + Increments(statements)))
            && after.rows - {COUNTER_ID} == db.rows - {COUNTER_ID}
    decreases |statements|
  {
    if statements != [] {
      var next := match statements[0] { case Init => InitSql(db) case Increment => Update(db).0 };
      assert next.rows - {COUNTER_ID} == db.rows - {COUNTER_ID};
      InitNeverChangesARow(next, statements[1..]);
    }
  }

  /** A lost table or row starts again at 0 with the first initialisation and
      ignores every update before it; the updates after it count from 1. */
  lemma {:induction false} CountingRestartsAtInit(db: Database, before: nat, statements: seq<Statement>)
    requires Stored(db).None?
    requires before < |statements| && statements[before].Init?
    requires forall i :: 0 <= i < before ==> statements[i].Increment?
    ensures Stored(Execute(db, statements)) == Some(Min(BIGINT_MAX, Increments(statements[before + 1..])))
  {
    if before == 0 {
      InitNeverChangesARow(InitSql(db), statements[1..]);
    } else {
      assert Update(db).0 == db;
      CountingRestartsAtInit(db, before - 1, statements[1..]);
      assert statements[1..][before..] == statements[before + 1..];
    }
  }
}
