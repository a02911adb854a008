/**
 * The load step: the aggregate replaces the contents of table project_fot
 * (create if absent, delete every row, append the new rows), and the table is
 * read back ordered by total_payment descending.  The table's id column is
 * INTEGER PRIMARY KEY AUTOINCREMENT, so ids keep growing across deletes.
 */
module Storage {
  import opened Wrappers
  import opened Payroll

  /** A row of project_fot; analysisDate is the database clock's reading for the load (a parameter here). */
  datatype StoredRow = StoredRow(id: int, projectId: int, totalHours: int, totalPayment: int, analysisDate: int)

  datatype LoadError = NoDataToLoad

  /** The persistent state of project_fot: whether it exists, its rows in id order,
      and the table's AUTOINCREMENT sequence entry (the largest id ever issued, 0 at first). */
  datatype TableState = TableState(created: bool, rows: seq<StoredRow>, lastId: int)

  ghost predicate IdsIncreasing(rows: seq<StoredRow>)
  {
    forall i, j :: 0 <= i < j < |rows| ==> rows[i].id < rows[j].id
  }

  ghost predicate ValidState(t: TableState)
  {
    && t.lastId >= 0
    && (!t.created ==> t.rows == [] && t.lastId == 0)
    && IdsIncreasing(t.rows)
    && (forall r :: r in t.rows ==> 0 < r.id <= t.lastId)
  }

  /** The (project_id, total_hours, total_payment) content of rows, without ids and dates. */
  function Content(rows: seq<StoredRow>): seq<Summary>
  {
    seq(|rows|, i requires 0 <= i < |rows| => Summary(rows[i].projectId, rows[i].totalHours, rows[i].totalPayment))
  }

  /** The rows an append of xs produces when the next id is firstId. */
  function NewRows(xs: seq<Summary>, firstId: int, now: int): seq<StoredRow>
  {
    seq(|xs|, i requires 0 <= i < |xs| =>
      StoredRow(firstId + i, xs[i].projectId, xs[i].totalHours, xs[i].totalPayment, now))
  }

  /** What a load does to the table: an absent or empty aggregate is refused; otherwise the
      table exists afterwards and holds exactly the new rows, with fresh ids. */
  function Loaded(t: TableState, stats: Option<seq<Summary>>, now: int): (r: Result<TableState, LoadError>)
    requires ValidState(t)
    ensures r.Failure? <==> stats.None? || stats.value == []
    ensures r.Success? ==> ValidState(r.value) && r.value.created
  {
    if stats.None? || stats.value == [] then Failure(NoDataToLoad)
    else
      var xs := stats.value;
      Success(TableState(true, NewRows(xs, t.lastId + 1, now), t.lastId + |xs|))
  }

  /** After a successful load the table's content is exactly the aggregate, every id is new
      (larger than any id issued before) and no earlier row survives. */
  lemma LoadReplacesContents(t: TableState, stats: Option<seq<Summary>>, now: int)
    requires ValidState(t)
    requires stats.Some? && stats.value != []
    ensures Content(Loaded(t, stats, now).value.rows) == stats.value
    ensures forall r :: r in Loaded(t, stats, now).value.rows ==> r.id > t.lastId && r !in t.rows
    ensures Loaded(t, stats, now).value.lastId == t.lastId + |stats.value|
  {
    var rows := Loaded(t, stats, now).value.rows;
    forall r | r in rows ensures r.id > t.lastId && r !in t.rows {
      var i :| 0 <= i < |rows| && rows[i] == r;
    }
  }

  /** Loading the same aggregate twice gives the same content as loading it once,
      but the second load issues ids above all those of the first. */
  lemma ReloadKeepsContentRenewsIds(t: TableState, xs: seq<Summary>, now1: int, now2: int)
    requires ValidState(t) && xs != []
    ensures Loaded(t, Some(xs), now1).Success?
    ensures Loaded(Loaded(t, Some(xs), now1).value, Some(xs), now2).Success?
    ensures Content(Loaded(Loaded(t, Some(xs), now1).value, Some(xs), now2).value.rows)
         == Content(Loaded(t, Some(xs), now1).value.rows)
    ensures forall r1, r2 ::
      r1 in Loaded(t, Some(xs), now1).value.rows && r2 in Loaded(Loaded(t, Some(xs), now1).value, Some(xs), now2).value.rows
      ==> r1.id < r2.id
  {
    var once := Loaded(t, Some(xs), now1).value;
    LoadReplacesContents(t, Some(xs), now1);
    LoadReplacesContents(once, Some(xs), now2);
  }

  /** The transform step never hands the loader an aggregate it refuses. */
  lemma TransformOutputIsLoadable(es: seq<Employee>, ps: seq<Assignment>, rs: seq<Rate>, t: TableState, now: int)
    requires ValidState(t)
    requires ps != [] && es != [] && rs != []
    ensures Loaded(t, Some(Transform(es, ps, rs).value), now).Success?
  {
  }

  // ---------------------------------------------------------------------------
  // SELECT * FROM project_fot ORDER BY total_payment DESC

  ghost predicate PaymentNonIncreasing(rows: seq<StoredRow>)
  {
    forall i, j :: 0 <= i < j < |rows| ==> rows[i].totalPayment >= rows[j].totalPayment
  }

  function InsertByPayment(x: StoredRow, s: seq<StoredRow>): (r: seq<StoredRow>)
    requires PaymentNonIncreasing(s)
    ensures PaymentNonIncreasing(r)
    ensures multiset(r) == multiset(s) + multiset{x}
    ensures r[0] == x || (s != [] && r[0] == s[0])
  {
    if s == [] || x.totalPayment >= s[0].totalPayment then [x] + s
    else
      var t := InsertByPayment(x, s[1..]);
      assert s == [s[0]] + s[1..];
      assert s[0].totalPayment >= t[0].totalPayment;
      [s[0]] + t
  }

  /** The read-back order: a permutation of the rows with total_payment never increasing.
      SQL leaves the order of equal payments open; this one keeps table order among them. */
  function OrderByPaymentDesc(rows: seq<StoredRow>): (r: seq<StoredRow>)
    ensures PaymentNonIncreasing(r)
    ensures multiset(r) == multiset(rows)
  {
    if rows == [] then []
    else
      assert rows == [rows[0]] + rows[1..];
      InsertByPayment(rows[0], OrderByPaymentDesc(rows[1..]))
  }

  /** The table project_fot as the loader and the report generator see it. */
  class ProjectFotTable {
    var created: bool
    var rows: seq<StoredRow>
    var lastId: int

    function State(): TableState
      reads this
    {
      TableState(created, rows, lastId)
    }

    ghost predicate Valid()
      reads this
    {
      ValidState(State())
    }

    /** A database file in which project_fot has never been created. */
    constructor ()
      ensures Valid() && State() == TableState(false, [], 0)
    {
      created, rows, lastId := false, [], 0;
    }

    /** CREATE TABLE IF NOT EXISTS project_fot (...) */
    method CreateIfNotExists()
      requires Valid()
      modifies this
      ensures Valid() && State() == old(State()).(created := true)
    {
      created := true;
    }

    /** DELETE FROM project_fot: every row goes, the sequence entry stays. */
    method DeleteAll()
      requires Valid() && created
      modifies this
      ensures Valid() && State() == old(State()).(rows := [])
    {
      rows := [];
    }

    /** One INSERT without an id: AUTOINCREMENT issues one more than the largest id ever issued
        (every id present is at most that, by Valid). */
    method Insert(s: Summary, now: int) returns (id: int)
      requires Valid() && created
      modifies this
      ensures Valid() && created
      ensures id == old(lastId) + 1 && lastId == id
      ensures forall r :: r in old(rows) ==> r.id < id
      ensures rows == old(rows) + [StoredRow(id, s.projectId, s.totalHours, s.totalPayment, now)]
    {
      id := lastId + 1;
      rows := rows + [StoredRow(id, s.projectId, s.totalHours, s.totalPayment, now)];
      lastId := id;
    }

    /** load_to_database: refuse an absent or empty aggregate, otherwise create the table if
        needed, delete every row and append the aggregate row by row; returns the row count. */
    method Load(stats: Option<seq<Summary>>, now: int) returns (result: Result<nat, LoadError>)
      requires Valid()
      modifies this
      ensures Valid()
      ensures result.Failure? <==> stats.None? || stats.value == []
      ensures result.Failure? ==> State() == old(State())
      ensures result.Success? ==> result.value == |stats.value|
      ensures Loaded(old(State()), stats, now) == if result.Success? then Success(State()) else Failure(NoDataToLoad)
    {
      if stats.None? || stats.value == [] {
        return Failure(NoDataToLoad);
      }
      var xs := stats.value;
      CreateIfNotExists();
      DeleteAll();
      ghost var firstId := lastId + 1;
      var i := 0;
      while i < |xs|
        invariant 0 <= i <= |xs|
        invariant Valid() && created
        invariant lastId == firstId - 1 + i
        invariant rows == NewRows(xs[..i], firstId, now)
      {
        var _ := Insert(xs[i], now);
        assert xs[..i + 1] == xs[..i] + [xs[i]];
        i := i + 1;
      }
      assert xs[..i] == xs;
      result := Success(|xs|);
    }

    /** SELECT * FROM project_fot ORDER BY total_payment DESC; the query needs the table to exist. */
    function ReadBack(): (r: seq<StoredRow>)
      requires created
      reads this
      ensures multiset(r) == multiset(rows)
      ensures PaymentNonIncreasing(r)
    {
      OrderByPaymentDesc(rows)
    }
  }
}
