/**
 * The synthetic data generator: a roster of 100 employees with positions from a
 * fixed list, one hourly rate per position, and 1 to 3 project records per
 * employee with consecutive project ids.  Every random draw is an input here.
 */
module Generation {
  import opened Wrappers
  import opened Payroll

  const Positions: seq<string> := ["manager", "developer", "analyst", "designer", "qa", "hr", "support"]
  const RosterSize: nat := 100

  // ---------------------------------------------------------------------------
  // generate_employees_data

  /** choices[i] is the index in Positions that random.choice picked for employee i + 1. */
  function GenerateEmployees(choices: seq<nat>): (es: seq<Employee>)
    requires |choices| == RosterSize
    requires forall i :: 0 <= i < |choices| ==> choices[i] < |Positions|
    ensures |es| == RosterSize
    ensures forall i :: 0 <= i < |es| ==> es[i].employeeId == i + 1 && es[i].position in Positions
    ensures forall i :: 0 <= i < |es| ==> es[i].position == Positions[choices[i]]
    ensures UniqueEmployeeIds(es)
  {
    seq(RosterSize, i requires 0 <= i < RosterSize => Employee(i + 1, Positions[choices[i]]))
  }

  // ---------------------------------------------------------------------------
  // generate_rates_data

  lemma PositionsDistinct()
    ensures forall i, j :: 0 <= i < j < |Positions| ==> Positions[i] != Positions[j]
  {
    forall i, j | 0 <= i < j < |Positions| ensures Positions[i] != Positions[j] {
      assert Positions[i][0] != Positions[j][0] || |Positions[i]| != |Positions[j]|
          || Positions[i][1] != Positions[j][1];
    }
  }

  /** draws[i] is the random.randint(20, 100) drawn for Positions[i]. */
  function GenerateRates(draws: seq<int>): (rs: seq<Rate>)
    requires |draws| == |Positions|
    requires forall i :: 0 <= i < |draws| ==> 20 <= draws[i] <= 100
    ensures |rs| == |Positions|
    ensures forall i :: 0 <= i < |rs| ==> rs[i].position == Positions[i] && 20 <= rs[i].ratePerHour <= 100
    ensures forall i :: 0 <= i < |rs| ==> rs[i].ratePerHour == draws[i]
    ensures UniquePositions(rs)
  {
    PositionsDistinct();
    seq(|Positions|, i requires 0 <= i < |Positions| => Rate(Positions[i], draws[i]))
  }

  // ---------------------------------------------------------------------------
  // generate_projects_data

  /** hours[i] holds the hours drawn for employee i's projects; its length is the
      random.randint(1, 3) project count drawn for that employee. */
  ghost predicate ValidDraws(employees: seq<Employee>, hours: seq<seq<int>>)
  {
    && |hours| == |employees|
    && (forall i :: 0 <= i < |hours| ==> 1 <= |hours[i]| <= 3)
    && (forall i, j :: 0 <= i < |hours| && 0 <= j < |hours[i]| ==> 5 <= hours[i][j] <= 40)
  }

  /** The records one employee contributes, the first with project id firstId. */
  function Block(employeeId: int, hs: seq<int>, firstId: int): seq<Assignment>
  {
    seq(|hs|, j requires 0 <= j < |hs| => Assignment(firstId + j, employeeId, hs[j]))
  }

  /** The records generated for the employees in order: the k-th record has project id
      k + 1, so the ids run 1..N in emission order and no two records share one. */
  function Projects(employees: seq<Employee>, hours: seq<seq<int>>): (r: seq<Assignment>)
    requires |hours| == |employees|
    ensures forall k :: 0 <= k < |r| ==> r[k].projectId == k + 1
  {
    if employees == [] then []
    else
      var n := |employees|;
      var prior := Projects(employees[..n - 1], hours[..n - 1]);
      prior + Block(employees[n - 1].employeeId, hours[n - 1], |prior| + 1)
  }

  lemma BlockExtends(employeeId: int, hs: seq<int>, firstId: int, j: int)
    requires 0 <= j < |hs|
    ensures Block(employeeId, hs[..j + 1], firstId)
         == Block(employeeId, hs[..j], firstId) + [Assignment(firstId + j, employeeId, hs[j])]
  {
  }

  lemma ProjectsExtends(employees: seq<Employee>, hours: seq<seq<int>>, i: int)
    requires |hours| == |employees| && 0 <= i < |employees|
    ensures var prior := Projects(employees[..i], hours[..i]);
      Projects(employees[..i + 1], hours[..i + 1]) == prior + Block(employees[i].employeeId, hours[i], |prior| + 1)
  {
    assert employees[..i + 1][..i] == employees[..i];
    assert hours[..i + 1][..i] == hours[..i];
  }

  method GenerateProjects(employees: seq<Employee>, hours: seq<seq<int>>) returns (records: seq<Assignment>)
    requires ValidDraws(employees, hours)
    ensures records == Projects(employees, hours)
  {
    records := [];
    var projectIdCounter := 1;
    var i := 0;
    while i < |employees|
      invariant 0 <= i <= |employees|
      invariant records == Projects(employees[..i], hours[..i])
      invariant projectIdCounter == |records| + 1
    {
      var numProjects := |hours[i]|;
      ghost var prior := records;
      var j := 0;
      while j < numProjects
        invariant 0 <= j <= numProjects
        invariant records == prior + Block(employees[i].employeeId, hours[i][..j], |prior| + 1)
        invariant projectIdCounter == |records| + 1
      {
        var hoursWorked := hours[i][j];
        BlockExtends(employees[i].employeeId, hours[i], |prior| + 1, j);
        records := records + [Assignment(projectIdCounter, employees[i].employeeId, hoursWorked)];
        projectIdCounter := projectIdCounter + 1;
        j := j + 1;
      }
      assert hours[i][..j] == hours[i];
      ProjectsExtends(employees, hours, i);
      i := i + 1;
    }
    assert employees[..i] == employees && hours[..i] == hours;
  }

  // ---------------------------------------------------------------------------
  // Properties of the generated records

  /** Every employee contributes 1 to 3 records, so there are between |employees| and 3 * |employees|. */
  lemma {:induction false} ProjectCountBounds(employees: seq<Employee>, hours: seq<seq<int>>)
    requires ValidDraws(employees, hours)
    ensures |employees| <= |Projects(employees, hours)| <= 3 * |employees|
  {
    if employees != [] {
      var n := |employees|;
      assert ValidDraws(employees[..n - 1], hours[..n - 1]);
      ProjectCountBounds(employees[..n - 1], hours[..n - 1]);
    }
  }

  /** Every record has hours in [5, 40] and the id of an employee of the roster. */
  lemma {:induction false} RecordsFromRoster(employees: seq<Employee>, hours: seq<seq<int>>)
    requires ValidDraws(employees, hours)
    ensures forall k :: 0 <= k < |Projects(employees, hours)| ==>
      5 <= Projects(employees, hours)[k].hoursWorked <= 40 &&
      exists e :: e in employees && e.employeeId == Projects(employees, hours)[k].employeeId
  {
    if employees != [] {
      var n := |employees|;
      assert ValidDraws(employees[..n - 1], hours[..n - 1]);
      RecordsFromRoster(employees[..n - 1], hours[..n - 1]);
      var r := Projects(employees, hours);
      var prior := Projects(employees[..n - 1], hours[..n - 1]);
      forall k | 0 <= k < |r|
        ensures 5 <= r[k].hoursWorked <= 40 && exists e :: e in employees && e.employeeId == r[k].employeeId
      {
        if k < |prior| {
          assert r[k] == prior[k];
          var e :| e in employees[..n - 1] && e.employeeId == r[k].employeeId;
          assert e in employees;
        } else {
          assert employees[n - 1] in employees;
        }
      }
    }
  }

  /** Employee i's records come right after those of the employees before it, as one
      consecutive block in roster order. */
  lemma {:induction false} RecordsInRosterOrder(employees: seq<Employee>, hours: seq<seq<int>>, i: int)
    requires |hours| == |employees| && 0 <= i < |employees|
    ensures var before := |Projects(employees[..i], hours[..i])|;
      before + |hours[i]| <= |Projects(employees, hours)| &&
      Projects(employees, hours)[before..before + |hours[i]|] == Block(employees[i].employeeId, hours[i], before + 1)
  {
    var n := |employees|;
    var prior := Projects(employees[..n - 1], hours[..n - 1]);
    if i < n - 1 {
      RecordsInRosterOrder(employees[..n - 1], hours[..n - 1], i);
      assert employees[..n - 1][..i] == employees[..i];
      assert hours[..n - 1][..i] == hours[..i];
      assert Projects(employees, hours)[..|prior|] == prior;
    } else {
      assert employees[..i] == employees[..n - 1];
      assert hours[..i] == hours[..n - 1];
    }
  }

  /** When every record's employee is on the roster and every roster position has a rate
      (keys unique), both joins match on every row. */
  lemma RowsJoinWhenKeysCovered(ps: seq<Assignment>, es: seq<Employee>, rs: seq<Rate>, k: int, e: Employee, r: Rate)
    requires UniqueEmployeeIds(es) && UniquePositions(rs)
    requires 0 <= k < |ps|
    requires e in es && e.employeeId == ps[k].employeeId
    requires r in rs && r.position == e.position
    ensures |Merge(ps, es, rs)| == |ps|
    ensures Merge(ps, es, rs)[k].payment == Some(ps[k].hoursWorked * r.ratePerHour)
  {
    PaymentPresentIffBothJoinsMatch(ps, es, rs, k);
  }

  /** The rate drawn for employee `id`'s position, for a roster built from `choices`. */
  function DrawnRate(choices: seq<nat>, draws: seq<int>, id: int): int
    requires |choices| == RosterSize && forall i :: 0 <= i < |choices| ==> choices[i] < |Positions|
    requires |draws| == |Positions|
    requires 1 <= id <= RosterSize
  {
    draws[choices[id - 1]]
  }

  lemma GeneratedKeysCovered(choices: seq<nat>, draws: seq<int>, id: int)
    requires |choices| == RosterSize && forall i :: 0 <= i < |choices| ==> choices[i] < |Positions|
    requires |draws| == |Positions| && forall i :: 0 <= i < |draws| ==> 20 <= draws[i] <= 100
    requires 1 <= id <= RosterSize
    ensures var es, rs := GenerateEmployees(choices), GenerateRates(draws);
      es[id - 1] in es && es[id - 1].employeeId == id &&
      rs[choices[id - 1]] in rs && rs[choices[id - 1]].position == es[id - 1].position &&
      rs[choices[id - 1]].ratePerHour == DrawnRate(choices, draws, id)
  {
  }

  lemma GeneratedRowJoins(choices: seq<nat>, draws: seq<int>, hours: seq<seq<int>>, k: int)
    requires |choices| == RosterSize && forall i :: 0 <= i < |choices| ==> choices[i] < |Positions|
    requires |draws| == |Positions| && forall i :: 0 <= i < |draws| ==> 20 <= draws[i] <= 100
    requires ValidDraws(GenerateEmployees(choices), hours)
    requires 0 <= k < |Projects(GenerateEmployees(choices), hours)|
    ensures var es, rs := GenerateEmployees(choices), GenerateRates(draws);
      var ps := Projects(es, hours);
      |Merge(ps, es, rs)| == |ps| &&
      1 <= ps[k].employeeId <= RosterSize &&
      Merge(ps, es, rs)[k].payment == Some(ps[k].hoursWorked * DrawnRate(choices, draws, ps[k].employeeId))
  {
    var es, rs := GenerateEmployees(choices), GenerateRates(draws);
    var ps := Projects(es, hours);
    RecordsFromRoster(es, hours);
    var id := ps[k].employeeId;
    var e :| e in es && e.employeeId == id;
    var m :| 0 <= m < |es| && es[m] == e;
    GeneratedKeysCovered(choices, draws, id);
    RowsJoinWhenKeysCovered(ps, es, rs, k, es[id - 1], rs[choices[id - 1]]);
  }

  /** For generated data both left joins always match: the merged table has one row per
      record and each row's payment is its hours times the rate drawn for the employee's position. */
  lemma GeneratedRowsAllJoin(choices: seq<nat>, draws: seq<int>, hours: seq<seq<int>>)
    requires |choices| == RosterSize && forall i :: 0 <= i < |choices| ==> choices[i] < |Positions|
    requires |draws| == |Positions| && forall i :: 0 <= i < |draws| ==> 20 <= draws[i] <= 100
    requires ValidDraws(GenerateEmployees(choices), hours)
    ensures var es, rs := GenerateEmployees(choices), GenerateRates(draws);
      var ps := Projects(es, hours);
      |Merge(ps, es, rs)| == |ps| &&
      forall k :: 0 <= k < |ps| ==>
        1 <= ps[k].employeeId <= RosterSize &&
        Merge(ps, es, rs)[k].payment == Some(ps[k].hoursWorked * DrawnRate(choices, draws, ps[k].employeeId))
  {
    var es, rs := GenerateEmployees(choices), GenerateRates(draws);
    var ps := Projects(es, hours);
    var merged := Merge(ps, es, rs);
    MergeIsRowwise(ps, es, rs);
    assert |merged| == |ps|;
    forall k | 0 <= k < |ps|
      ensures 1 <= ps[k].employeeId <= RosterSize
      ensures merged[k].payment == Some(ps[k].hoursWorked * DrawnRate(choices, draws, ps[k].employeeId))
    {
      GeneratedRowJoins(choices, draws, hours, k);
    }
  }

  /** The generated inputs are never empty, so the transform step accepts them. */
  lemma GeneratedDataTransforms(choices: seq<nat>, draws: seq<int>, hours: seq<seq<int>>)
    requires |choices| == RosterSize && forall i :: 0 <= i < |choices| ==> choices[i] < |Positions|
    requires |draws| == |Positions| && forall i :: 0 <= i < |draws| ==> 20 <= draws[i] <= 100
    requires ValidDraws(GenerateEmployees(choices), hours)
    ensures Transform(GenerateEmployees(choices), Projects(GenerateEmployees(choices), hours), GenerateRates(draws)).Success?
  {
    ProjectCountBounds(GenerateEmployees(choices), hours);
  }
}
