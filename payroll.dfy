/**
 * The transform step of the payroll (FOT) pipeline: project-hours rows are
 * left-joined to the employee roster on employee_id, then to the rate card on
 * position; each row gets payment = hours_worked * rate_per_hour (missing when
 * either join missed); rows are grouped by project_id, summing hours and
 * payments with missing payments skipped, keys in ascending order.
 */
module Payroll {
  import opened Wrappers

  datatype Employee = Employee(employeeId: int, position: string)
  datatype Assignment = Assignment(projectId: int, employeeId: int, hoursWorked: int)
  datatype Rate = Rate(position: string, ratePerHour: int)

  /** One row of the merged table; `None` is a cell a left join could not fill. */
  datatype MergedRow = MergedRow(
    projectId: int,
    employeeId: int,
    hoursWorked: int,
    position: Option<string>,
    ratePerHour: Option<int>,
    payment: Option<int>)

  /** One row of the aggregate handed to the loader. */
  datatype Summary = Summary(projectId: int, totalHours: int, totalPayment: int)

  /** pandas refuses to merge a table that has no key column, as an empty record list yields. */
  datatype TransformError = MissingKeyColumn

  // ---------------------------------------------------------------------------
  // Left join to the roster on employee_id

  /** The roster rows whose employee_id is `id`, in roster order. */
  function EmployeeMatches(es: seq<Employee>, id: int): (ms: seq<Employee>)
    ensures forall e :: e in ms <==> e in es && e.employeeId == id
    ensures |ms| <= |es|
  {
    if es == [] then []
    else (if es[0].employeeId == id then [es[0]] else []) + EmployeeMatches(es[1..], id)
  }

  /** The rows one assignment contributes to the first merge: one per matching employee, or one with nulls. */
  function JoinEmployee(p: Assignment, es: seq<Employee>): seq<MergedRow>
  {
    var ms := EmployeeMatches(es, p.employeeId);
    if ms == [] then [MergedRow(p.projectId, p.employeeId, p.hoursWorked, None, None, None)]
    else
      seq(|ms|, i requires 0 <= i < |ms| =>
            MergedRow(p.projectId, p.employeeId, p.hoursWorked, Some(ms[i].position), None, None))
  }

  /** merge(projects, employees, on='employee_id', how='left'): every project row is kept
      (with its project_id, employee_id and hours_worked), no other such row appears, and the
      merged rows carry exactly the project ids of the input. */
  function JoinEmployees(ps: seq<Assignment>, es: seq<Employee>): (r: seq<MergedRow>)
    ensures |r| >= |ps|
    ensures RowAssignments(r) == Assignments(ps)
    ensures RowProjects(r) == AssignmentProjects(ps)
  {
    if ps == [] then []
    else
      var head, tail := JoinEmployee(ps[0], es), JoinEmployees(ps[1..], es);
      JoinEmployeeKeepsRow(ps[0], es);
      RowSetsAppend(head, tail);
      assert ps == [ps[0]] + ps[1..];
      assert AssignmentProjects(ps) == {ps[0].projectId} + AssignmentProjects(ps[1..]);
      assert Assignments(ps) == {ps[0]} + Assignments(ps[1..]);
      head + tail
  }

  // ---------------------------------------------------------------------------
  // Left join to the rate card on position

  /** The rate-card rows whose position is `pos`, in rate-card order. */
  function RateMatches(rs: seq<Rate>, pos: string): (ms: seq<Rate>)
    ensures forall r :: r in ms <==> r in rs && r.position == pos
    ensures |ms| <= |rs|
  {
    if rs == [] then []
    else (if rs[0].position == pos then [rs[0]] else []) + RateMatches(rs[1..], pos)
  }

  /** A row whose position is missing matches no rate-card row (every rate-card position is a string). */
  function JoinRate(row: MergedRow, rs: seq<Rate>): seq<MergedRow>
  {
    var ms := if row.position.Some? then RateMatches(rs, row.position.value) else [];
    if ms == [] then [row.(ratePerHour := None)]
    else
      seq(|ms|, i requires 0 <= i < |ms| => row.(ratePerHour := Some(ms[i].ratePerHour)))
  }

  /** merge(merged, rates, on='position', how='left'): every row is kept, the rows carry
      exactly the project-hours rows of those joined, and so the same project ids. */
  function JoinRates(rows: seq<MergedRow>, rs: seq<Rate>): (r: seq<MergedRow>)
    ensures |r| >= |rows|
    ensures RowAssignments(r) == RowAssignments(rows)
    ensures RowProjects(r) == RowProjects(rows)
  {
    if rows == [] then []
    else
      var head, tail := JoinRate(rows[0], rs), JoinRates(rows[1..], rs);
      JoinRateKeepsRow(rows[0], rs);
      RowSetsAppend(head, tail);
      assert rows == [rows[0]] + rows[1..];
      RowSetsAppend([rows[0]], rows[1..]);
      assert RowAssignments([rows[0]]) == {AssignmentOf(rows[0])};
      assert RowProjects([rows[0]]) == {rows[0].projectId};
      head + tail
  }

  // ---------------------------------------------------------------------------
  // The payment column

  /** hours * rate, missing when the rate is missing. */
  function PaymentOf(row: MergedRow): Option<int>
  {
    if row.ratePerHour.Some? then Some(row.hoursWorked * row.ratePerHour.value) else None
  }

  /** merged['payment'] = merged['hours_worked'] * merged['rate_per_hour']: a missing rate
      gives a missing payment, and no other column changes. */
  function WithPayments(rows: seq<MergedRow>): (r: seq<MergedRow>)
    ensures |r| == |rows|
    ensures forall i :: 0 <= i < |rows| ==> r[i].(payment := rows[i].payment) == rows[i]
    ensures forall i :: 0 <= i < |rows| ==> (r[i].payment.Some? <==> rows[i].ratePerHour.Some?)
    ensures forall i :: 0 <= i < |rows| && r[i].payment.Some? ==>
      r[i].payment.value == rows[i].hoursWorked * rows[i].ratePerHour.value
  {
    seq(|rows|, i requires 0 <= i < |rows| => rows[i].(payment := PaymentOf(rows[i])))
  }

  /** The merged table: both left joins and the payment column.  Whatever the keys, no
      project-hours row is dropped or altered, none is invented, and the project ids are
      exactly those of the input. */
  function Merge(ps: seq<Assignment>, es: seq<Employee>, rs: seq<Rate>): (r: seq<MergedRow>)
    ensures |r| >= |ps|
    ensures RowAssignments(r) == Assignments(ps)
    ensures RowProjects(r) == AssignmentProjects(ps)
  {
    var joined := JoinRates(JoinEmployees(ps, es), rs);
    WithPaymentsKeepsRows(joined);
    WithPayments(joined)
  }

  // ---------------------------------------------------------------------------
  // Group by project_id

  ghost predicate StrictlyIncreasing(s: seq<int>)
  {
    forall i, j :: 0 <= i < j < |s| ==> s[i] < s[j]
  }

  /** Adds `x` to a sorted key list unless it is already there. */
  function InsertKey(x: int, s: seq<int>): (r: seq<int>)
    requires StrictlyIncreasing(s)
    ensures StrictlyIncreasing(r)
    ensures forall k :: k in r <==> k == x || k in s
  {
    if s == [] then [x]
    else if x < s[0] then [x] + s
    else if x == s[0] then s
    else
      var t := InsertKey(x, s[1..]);
      assert forall k :: k in t ==> s[0] < k by {
        forall k | k in t ensures s[0] < k {
          if k != x {
            var j :| 0 <= j < |s[1..]| && s[1..][j] == k;
            assert s[j + 1] == k;
          }
        }
      }
      assert forall j :: 0 <= j < |t| ==> s[0] < t[j] by {
        forall j | 0 <= j < |t| ensures s[0] < t[j] { assert t[j] in t; }
      }
      assert s == [s[0]] + s[1..];
      [s[0]] + t
  }

  /** The distinct keys of `xs` in ascending order, as groupby produces them. */
  function SortedKeys(xs: seq<int>): (r: seq<int>)
    ensures StrictlyIncreasing(r)
    ensures forall k :: k in r <==> k in xs
  {
    if xs == [] then [] else InsertKey(xs[0], SortedKeys(xs[1..]))
  }

  /** The project_id column; its values are exactly the table's project ids. */
  function ProjectIds(rows: seq<MergedRow>): (ids: seq<int>)
    ensures forall k :: k in ids <==> k in RowProjects(rows)
  {
    var ids := seq(|rows|, i requires 0 <= i < |rows| => rows[i].projectId);
    forall k | k in RowProjects(rows) ensures k in ids {
      var row :| row in rows && row.projectId == k;
      var i :| 0 <= i < |rows| && rows[i] == row;
      assert ids[i] == k;
    }
    ids
  }

  /** Sum of hours_worked over the rows of project `k`. */
  function HoursOf(rows: seq<MergedRow>, k: int): int
  {
    if rows == [] then 0
    else (if rows[0].projectId == k then rows[0].hoursWorked else 0) + HoursOf(rows[1..], k)
  }

  /** Sum of payment over the rows of project `k`, missing payments skipped. */
  function PaymentsOf(rows: seq<MergedRow>, k: int): int
  {
    if rows == [] then 0
    else (if rows[0].projectId == k && rows[0].payment.Some? then rows[0].payment.value else 0)
         + PaymentsOf(rows[1..], k)
  }

  function SummaryIds(sums: seq<Summary>): seq<int>
  {
    seq(|sums|, i requires 0 <= i < |sums| => sums[i].projectId)
  }

  /** groupby('project_id').agg(total_hours = sum, total_payment = sum).reset_index() */
  function GroupByProject(rows: seq<MergedRow>): (r: seq<Summary>)
    ensures StrictlyIncreasing(SummaryIds(r))
    ensures forall k :: k in SummaryIds(r) <==> k in RowProjects(rows)
    ensures forall i :: 0 <= i < |r| ==>
      r[i].totalHours == HoursOf(rows, r[i].projectId) && r[i].totalPayment == PaymentsOf(rows, r[i].projectId)
  {
    var keys := SortedKeys(ProjectIds(rows));
    var r := seq(|keys|, i requires 0 <= i < |keys| =>
      Summary(keys[i], HoursOf(rows, keys[i]), PaymentsOf(rows, keys[i])));
    assert SummaryIds(r) == keys;
    r
  }

  /** The whole transform step. */
  function Transform(es: seq<Employee>, ps: seq<Assignment>, rs: seq<Rate>): (r: Result<seq<Summary>, TransformError>)
    ensures r.Failure? <==> ps == [] || es == [] || rs == []
    ensures r.Success? ==> r.value != []
  {
    if ps == [] || es == [] || rs == [] then Failure(MissingKeyColumn)
    else
      assert ps[0].projectId in AssignmentProjects(ps);
      Success(GroupByProject(Merge(ps, es, rs)))
  }

  // ---------------------------------------------------------------------------
  // Reference definitions: one merged row per assignment, by key lookup

  /** Keys the source assumes unique; with duplicates pandas fans a row out into several. */
  ghost predicate UniqueEmployeeIds(es: seq<Employee>)
  {
    forall i, j :: 0 <= i < j < |es| ==> es[i].employeeId != es[j].employeeId
  }

  ghost predicate UniquePositions(rs: seq<Rate>)
  {
    forall i, j :: 0 <= i < j < |rs| ==> rs[i].position != rs[j].position
  }

  function PositionOf(es: seq<Employee>, id: int): Option<string>
  {
    var ms := EmployeeMatches(es, id);
    if ms == [] then None else Some(ms[0].position)
  }

  function RateOf(rs: seq<Rate>, pos: string): Option<int>
  {
    var ms := RateMatches(rs, pos);
    if ms == [] then None else Some(ms[0].ratePerHour)
  }

  /** The single row a left join on unique keys gives for `p`. */
  function MergedRowFor(p: Assignment, es: seq<Employee>, rs: seq<Rate>): MergedRow
  {
    var pos := PositionOf(es, p.employeeId);
    var rate := if pos.Some? then RateOf(rs, pos.value) else None;
    MergedRow(p.projectId, p.employeeId, p.hoursWorked, pos, rate,
              if rate.Some? then Some(p.hoursWorked * rate.value) else None)
  }

  /** What `p` adds to its project's total payment: hours * rate when both joins match, else nothing. */
  function Contribution(p: Assignment, es: seq<Employee>, rs: seq<Rate>): int
  {
    var pos := PositionOf(es, p.employeeId);
    var rate := if pos.Some? then RateOf(rs, pos.value) else None;
    if rate.Some? then p.hoursWorked * rate.value else 0
  }

  /** Sum of hours_worked over the input assignments of project `k`. */
  function AssignedHours(ps: seq<Assignment>, k: int): int
  {
    if ps == [] then 0
    else (if ps[0].projectId == k then ps[0].hoursWorked else 0) + AssignedHours(ps[1..], k)
  }

  /** Sum of contributions over the input assignments of project `k`. */
  function AssignedPayments(ps: seq<Assignment>, es: seq<Employee>, rs: seq<Rate>, k: int): int
  {
    if ps == [] then 0
    else (if ps[0].projectId == k then Contribution(ps[0], es, rs) else 0) + AssignedPayments(ps[1..], es, rs, k)
  }

  // ---------------------------------------------------------------------------
  // Lemmas about the joins

  lemma {:induction false} JoinRatesAppend(a: seq<MergedRow>, b: seq<MergedRow>, rs: seq<Rate>)
    ensures JoinRates(a + b, rs) == JoinRates(a, rs) + JoinRates(b, rs)
  {
    if a == [] {
      assert a + b == b;
    } else {
      assert (a + b)[0] == a[0];
      assert (a + b)[1..] == a[1..] + b;
      JoinRatesAppend(a[1..], b, rs);
    }
  }

  lemma {:induction false} NoEmployeeMatches(es: seq<Employee>, id: int)
    requires forall e :: e in es ==> e.employeeId != id
    ensures EmployeeMatches(es, id) == []
  {
    if es != [] {
      NoEmployeeMatches(es[1..], id);
    }
  }

  lemma {:induction false} NoRateMatches(rs: seq<Rate>, pos: string)
    requires forall r :: r in rs ==> r.position != pos
    ensures RateMatches(rs, pos) == []
  {
    if rs != [] {
      NoRateMatches(rs[1..], pos);
    }
  }

  lemma {:induction false} UniqueEmployeeMatch(es: seq<Employee>, id: int)
    requires UniqueEmployeeIds(es)
    ensures |EmployeeMatches(es, id)| <= 1
  {
    if es != [] {
      UniqueEmployeeMatch(es[1..], id);
      if es[0].employeeId == id {
        forall e | e in es[1..] ensures e.employeeId != id {
          var j :| 0 <= j < |es[1..]| && es[1..][j] == e;
          assert es[j + 1] == e;
        }
        NoEmployeeMatches(es[1..], id);
      }
    }
  }

  lemma {:induction false} UniqueRateMatch(rs: seq<Rate>, pos: string)
    requires UniquePositions(rs)
    ensures |RateMatches(rs, pos)| <= 1
  {
    if rs != [] {
      UniqueRateMatch(rs[1..], pos);
      if rs[0].position == pos {
        forall r | r in rs[1..] ensures r.position != pos {
          var j :| 0 <= j < |rs[1..]| && rs[1..][j] == r;
          assert rs[j + 1] == r;
        }
        NoRateMatches(rs[1..], pos);
      }
    }
  }

  /** With unique keys, the merge is row for row: same length, row i is the lookup row of assignment i. */
  lemma {:induction false} MergeIsRowwise(ps: seq<Assignment>, es: seq<Employee>, rs: seq<Rate>)
    requires UniqueEmployeeIds(es) && UniquePositions(rs)
    ensures |Merge(ps, es, rs)| == |ps|
    ensures forall i :: 0 <= i < |ps| ==> Merge(ps, es, rs)[i] == MergedRowFor(ps[i], es, rs)
  {
    JoinsAreRowwise(ps, es, rs);
    LookupRowsAt(ps, es, rs);
  }

  /** With unique keys, one assignment yields exactly one row through both joins. */
  lemma JoinOneRow(p: Assignment, es: seq<Employee>, rs: seq<Rate>)
    requires UniqueEmployeeIds(es) && UniquePositions(rs)
    ensures JoinRates(JoinEmployee(p, es), rs) == [MergedRowFor(p, es, rs).(payment := None)]
  {
    UniqueEmployeeMatch(es, p.employeeId);
    var row := JoinEmployee(p, es);
    assert |row| == 1;
    if row[0].position.Some? {
      UniqueRateMatch(rs, row[0].position.value);
    }
    assert JoinRates(row, rs) == JoinRate(row[0], rs) + JoinRates([], rs);
  }

  /** The rows both joins give, one lookup row per assignment, before the payment column. */
  function LookupRows(ps: seq<Assignment>, es: seq<Employee>, rs: seq<Rate>): seq<MergedRow>
  {
    if ps == [] then [] else [MergedRowFor(ps[0], es, rs).(payment := None)] + LookupRows(ps[1..], es, rs)
  }

  lemma {:induction false} LookupRowsAt(ps: seq<Assignment>, es: seq<Employee>, rs: seq<Rate>)
    ensures |LookupRows(ps, es, rs)| == |ps|
    ensures forall i :: 0 <= i < |ps| ==> LookupRows(ps, es, rs)[i] == MergedRowFor(ps[i], es, rs).(payment := None)
  {
    if ps != [] {
      LookupRowsAt(ps[1..], es, rs);
      forall i | 0 < i < |ps|
        ensures LookupRows(ps, es, rs)[i] == MergedRowFor(ps[i], es, rs).(payment := None)
      {
        assert ps[1..][i - 1] == ps[i];
      }
    }
  }

  lemma {:induction false} JoinsAreRowwise(ps: seq<Assignment>, es: seq<Employee>, rs: seq<Rate>)
    requires UniqueEmployeeIds(es) && UniquePositions(rs)
    ensures JoinRates(JoinEmployees(ps, es), rs) == LookupRows(ps, es, rs)
  {
    if ps != [] {
      JoinOneRow(ps[0], es, rs);
      JoinRatesAppend(JoinEmployee(ps[0], es), JoinEmployees(ps[1..], es), rs);
      JoinsAreRowwise(ps[1..], es, rs);
    }
  }

  /** A merged row has a payment exactly when its employee is in the roster and that
      employee's position has a rate, and then the payment is hours * rate. */
  lemma PaymentPresentIffBothJoinsMatch(ps: seq<Assignment>, es: seq<Employee>, rs: seq<Rate>, i: int)
    requires UniqueEmployeeIds(es) && UniquePositions(rs)
    requires 0 <= i < |ps|
    ensures |Merge(ps, es, rs)| == |ps|
    ensures Merge(ps, es, rs)[i].payment.Some? <==>
      exists e, r :: e in es && r in rs && e.employeeId == ps[i].employeeId && r.position == e.position
    ensures forall e, r :: e in es && r in rs && e.employeeId == ps[i].employeeId && r.position == e.position ==>
      Merge(ps, es, rs)[i].payment == Some(ps[i].hoursWorked * r.ratePerHour)
  {
    MergeIsRowwise(ps, es, rs);
    var p := ps[i];
    UniqueEmployeeMatch(es, p.employeeId);
    var ems := EmployeeMatches(es, p.employeeId);
    if ems != [] {
      assert ems[0] in ems;
      UniqueRateMatch(rs, ems[0].position);
      var rms := RateMatches(rs, ems[0].position);
      if rms != [] {
        assert rms[0] in rms;
      }
      forall e, r | e in es && r in rs && e.employeeId == p.employeeId && r.position == e.position
        ensures e == ems[0] && r == rms[0]
      {
        assert e in ems;
        assert r in rms;
      }
    }
  }

  // ---------------------------------------------------------------------------
  // Lemmas about the aggregate

  /** Project ids of a table, as a set. */
  ghost function AssignmentProjects(ps: seq<Assignment>): set<int>
  {
    set p | p in ps :: p.projectId
  }

  ghost function RowProjects(rows: seq<MergedRow>): set<int>
  {
    set r | r in rows :: r.projectId
  }

  /** The project-hours row a merged row descends from: its first three columns. */
  function AssignmentOf(row: MergedRow): Assignment
  {
    Assignment(row.projectId, row.employeeId, row.hoursWorked)
  }

  /** The project-hours rows of a table, as a set. */
  ghost function Assignments(ps: seq<Assignment>): set<Assignment>
  {
    set p | p in ps
  }

  /** The project-hours rows the merged rows descend from, as a set. */
  ghost function RowAssignments(rows: seq<MergedRow>): set<Assignment>
  {
    set r | r in rows :: AssignmentOf(r)
  }

  lemma RowSetsAppend(a: seq<MergedRow>, b: seq<MergedRow>)
    ensures RowProjects(a + b) == RowProjects(a) + RowProjects(b)
    ensures RowAssignments(a + b) == RowAssignments(a) + RowAssignments(b)
  {
    forall k | k in RowProjects(a + b) ensures k in RowProjects(a) + RowProjects(b) {
      var r :| r in a + b && r.projectId == k;
    }
    forall x | x in RowAssignments(a + b) ensures x in RowAssignments(a) + RowAssignments(b) {
      var r :| r in a + b && AssignmentOf(r) == x;
    }
  }

  lemma JoinEmployeeKeepsRow(p: Assignment, es: seq<Employee>)
    ensures RowProjects(JoinEmployee(p, es)) == {p.projectId}
    ensures RowAssignments(JoinEmployee(p, es)) == {p}
  {
    var head := JoinEmployee(p, es);
    assert head[0] in head;
    assert forall r :: r in head ==> r.projectId == p.projectId;
    assert forall r :: r in head ==> AssignmentOf(r) == p;
  }

  lemma JoinRateKeepsRow(row: MergedRow, rs: seq<Rate>)
    ensures RowProjects(JoinRate(row, rs)) == {row.projectId}
    ensures RowAssignments(JoinRate(row, rs)) == {AssignmentOf(row)}
  {
    var head := JoinRate(row, rs);
    assert head[0] in head;
    assert forall r :: r in head ==> r.projectId == row.projectId;
    assert forall r :: r in head ==> AssignmentOf(r) == AssignmentOf(row);
  }

  /** The payment column changes neither the project-hours rows nor the project ids. */
  lemma WithPaymentsKeepsRows(rows: seq<MergedRow>)
    ensures RowProjects(WithPayments(rows)) == RowProjects(rows)
    ensures RowAssignments(WithPayments(rows)) == RowAssignments(rows)
  {
    var r := WithPayments(rows);
    forall i | 0 <= i < |rows|
      ensures r[i].projectId == rows[i].projectId && AssignmentOf(r[i]) == AssignmentOf(rows[i])
    {
      assert r[i].(payment := rows[i].payment) == rows[i];
    }
    forall row | row in r ensures row.projectId in RowProjects(rows) && AssignmentOf(row) in RowAssignments(rows) {
      var i :| 0 <= i < |r| && r[i] == row;
      assert rows[i] in rows;
    }
    forall row | row in rows ensures row.projectId in RowProjects(r) && AssignmentOf(row) in RowAssignments(r) {
      var i :| 0 <= i < |rows| && rows[i] == row;
      assert r[i] in r;
    }
  }

  /** The aggregate has one row per distinct project id of the input, in ascending order,
      whether or not any of that project's joins matched. */
  lemma OneRowPerProject(es: seq<Employee>, ps: seq<Assignment>, rs: seq<Rate>)
    requires ps != [] && es != [] && rs != []
    ensures StrictlyIncreasing(SummaryIds(Transform(es, ps, rs).value))
    ensures forall k :: k in SummaryIds(Transform(es, ps, rs).value) <==> exists p :: p in ps && p.projectId == k
  {
  }

  lemma {:induction false} HoursOfRowwise(rows: seq<MergedRow>, ps: seq<Assignment>, es: seq<Employee>, rs: seq<Rate>, k: int)
    requires |rows| == |ps|
    requires forall i :: 0 <= i < |ps| ==> rows[i] == MergedRowFor(ps[i], es, rs)
    ensures HoursOf(rows, k) == AssignedHours(ps, k)
    ensures PaymentsOf(rows, k) == AssignedPayments(ps, es, rs, k)
  {
    if ps != [] {
      HoursOfRowwise(rows[1..], ps[1..], es, rs, k);
    }
  }

  /** With unique keys, a project's total_hours is the sum of hours_worked over all its input rows
      (matched or not) and its total_payment the sum of hours * rate over its rows whose joins both matched. */
  lemma TotalsAreSumsOverAssignments(es: seq<Employee>, ps: seq<Assignment>, rs: seq<Rate>)
    requires UniqueEmployeeIds(es) && UniquePositions(rs)
    requires ps != [] && es != [] && rs != []
    ensures forall s :: s in Transform(es, ps, rs).value ==>
      s.totalHours == AssignedHours(ps, s.projectId) && s.totalPayment == AssignedPayments(ps, es, rs, s.projectId)
  {
    MergeIsRowwise(ps, es, rs);
    forall k {
      HoursOfRowwise(Merge(ps, es, rs), ps, es, rs, k);
    }
  }

  lemma {:induction false} NoContributionWithoutEmployee(ps: seq<Assignment>, es: seq<Employee>, rs: seq<Rate>, k: int)
    requires forall p, e :: p in ps && p.projectId == k && e in es ==> e.employeeId != p.employeeId
    ensures AssignedPayments(ps, es, rs, k) == 0
  {
    if ps != [] {
      if ps[0].projectId == k {
        forall e | e in es ensures e.employeeId != ps[0].employeeId {
          assert ps[0] in ps;
        }
        NoEmployeeMatches(es, ps[0].employeeId);
      }
      NoContributionWithoutEmployee(ps[1..], es, rs, k);
    }
  }

  /** A project none of whose employees is on the roster still appears, with its hours summed
      and total_payment 0 (not missing). */
  lemma UnrosteredProjectPaysZero(es: seq<Employee>, ps: seq<Assignment>, rs: seq<Rate>, k: int)
    requires UniqueEmployeeIds(es) && UniquePositions(rs)
    requires ps != [] && es != [] && rs != []
    requires exists p :: p in ps && p.projectId == k
    requires forall p, e :: p in ps && p.projectId == k && e in es ==> e.employeeId != p.employeeId
    ensures k in SummaryIds(Transform(es, ps, rs).value)
    ensures forall s :: s in Transform(es, ps, rs).value && s.projectId == k ==>
      s.totalHours == AssignedHours(ps, k) && s.totalPayment == 0
  {
    OneRowPerProject(es, ps, rs);
    TotalsAreSumsOverAssignments(es, ps, rs);
    NoContributionWithoutEmployee(ps, es, rs, k);
  }

  /** The worked example: two employees, two rates, three single-row projects. */
  lemma WorkedExample()
    ensures Transform(ExampleRoster(), ExampleAssignments(), ExampleRates())
      == Success([Summary(1, 10, 500), Summary(2, 5, 150), Summary(3, 8, 400)])
  {
    ExampleMerge();
    ExampleGroup();
  }

  function ExampleRoster(): seq<Employee> { [Employee(1, "developer"), Employee(2, "qa")] }
  function ExampleAssignments(): seq<Assignment> { [Assignment(1, 1, 10), Assignment(2, 2, 5), Assignment(3, 1, 8)] }
  function ExampleRates(): seq<Rate> { [Rate("developer", 50), Rate("qa", 30)] }
  function ExampleMerged(): seq<MergedRow>
  {
    [MergedRow(1, 1, 10, Some("developer"), Some(50), Some(500)),
     MergedRow(2, 2, 5, Some("qa"), Some(30), Some(150)),
     MergedRow(3, 1, 8, Some("developer"), Some(50), Some(400))]
  }

  lemma ExampleMerge()
    ensures Merge(ExampleAssignments(), ExampleRoster(), ExampleRates()) == ExampleMerged()
  {
    var es, ps, rs := ExampleRoster(), ExampleAssignments(), ExampleRates();
    assert UniqueEmployeeIds(es) && UniquePositions(rs);
    assert es[1..] == [es[1]] && es[1..][1..] == [];
    assert rs[1..] == [rs[1]] && rs[1..][1..] == [];
    assert EmployeeMatches(es, 1) == [es[0]];
    assert EmployeeMatches(es, 2) == [es[1]];
    assert "developer" != "qa" by { assert "developer"[0] != "qa"[0]; }
    assert RateMatches(rs, "developer") == [rs[0]];
    assert RateMatches(rs, "qa") == [rs[1]];
    var want := ExampleMerged();
    assert MergedRowFor(ps[0], es, rs) == want[0];
    assert MergedRowFor(ps[1], es, rs) == want[1];
    assert MergedRowFor(ps[2], es, rs) == want[2];
    MergeIsRowwise(ps, es, rs);
  }

  lemma ExampleGroup()
    ensures GroupByProject(ExampleMerged()) == [Summary(1, 10, 500), Summary(2, 5, 150), Summary(3, 8, 400)]
  {
    ExampleKeys();
    ExampleSums();
  }

  lemma ExampleKeys()
    ensures SortedKeys(ProjectIds(ExampleMerged())) == [1, 2, 3]
  {
    var m := ExampleMerged();
    assert ProjectIds(m) == [1, 2, 3];
    assert [1, 2, 3][1..] == [2, 3] && [2, 3][1..] == [3] && [3][1..] == [];
    assert SortedKeys([3]) == [3];
    assert InsertKey(2, [3]) == [2, 3];
    assert InsertKey(1, [2, 3]) == [1, 2, 3];
  }

  lemma ExampleSums()
    ensures HoursOf(ExampleMerged(), 1) == 10 && PaymentsOf(ExampleMerged(), 1) == 500
    ensures HoursOf(ExampleMerged(), 2) == 5 && PaymentsOf(ExampleMerged(), 2) == 150
    ensures HoursOf(ExampleMerged(), 3) == 8 && PaymentsOf(ExampleMerged(), 3) == 400
  {
    var m := ExampleMerged();
    assert m[1..] == [m[1], m[2]] && m[1..][1..] == [m[2]] && m[1..][1..][1..] == [];
  }
}
