# Payroll (FOT) pipeline — Dafny model

This project models the logic at the centre of a daily batch pipeline. The pipeline computes each project's payroll fund (FOT): the hours worked on the project and the wages paid for them. It also models the script that generates the pipeline's test data.

- **Transform** (`Payroll`, `payroll.dfy`): project-hours rows are left-joined to the employee roster on `employee_id`, then to the rate card on `position`. Each row gets `payment = hours_worked * rate_per_hour`, which is missing when either join found nothing. The rows are then grouped by `project_id` with ascending keys. `total_hours` and `total_payment` are sums, and missing payments are skipped. The joins are modelled with pandas' fan-out: a row joins every matching row on the right, in right-table order. Uniqueness of `employee_id` and `position` is therefore a hypothesis of the lemmas, not a precondition of the functions.
- **Load** (`Storage`, `storage.dfy`): the table `project_fot` is a class. Its state is an "exists" flag, the rows in id order, and the table's AUTOINCREMENT sequence entry. `Load` refuses an absent or empty aggregate and leaves the table unchanged. Otherwise it creates the table if needed, deletes every row, and inserts the aggregate row by row. It is proved against the pure state function `Loaded`. The read-back `ORDER BY total_payment DESC` is a function on the rows, proved to be a permutation whose payments never increase.
- **Data generation** (`Generation`, `generation.dfy`): the roster (ids 1..100, a position from the seven-element list), the rate card (one rate in [20, 100] per position), and the project records (a loop with a running project-id counter). Every `random` draw is an input whose range is a precondition.
- `Wrappers` (`wrappers.dfy`) holds `Option` (a missing cell) and `Result` (a failing step).

Behaviour of the code worth noting:
- The transform fails (`MissingKeyColumn`) when any of its three inputs is an empty record list. pandas builds a frame with no columns from an empty list, and `merge` on a missing key column raises.
- The code opens no explicit transaction. The DELETE starts the connection's implicit transaction and the inserts are committed in it. The model treats a load as one atomic step.
- The code does not require project_id to be unique per assignment row; the aggregation sums rows that share an id.

## Model

| member | source | states |
|---|---|---|
| Payroll.EmployeeMatches | fot_analysis_dag.py:128 | the roster rows a project row joins with are exactly those with its employee_id |
| Payroll.RateMatches | fot_analysis_dag.py:129 | the rate-card rows a merged row joins with are exactly those with its position |
| Payroll.JoinEmployees | fot_analysis_dag.py:128 | whatever the keys, the left join to the roster has at least as many rows as the input, every input row's (project_id, employee_id, hours_worked) appears in it, every joined row carries the triple of some input row, and so the project ids are exactly the input's |
| Payroll.JoinRates | fot_analysis_dag.py:129 | whatever the keys, the left join to the rate card has at least as many rows as its input, and its rows carry exactly the (project_id, employee_id, hours_worked) triples, and so the project ids, of the rows joined |
| Payroll.WithPayments | fot_analysis_dag.py:131 | the payment column: same rows, no other column changed, a payment present exactly when the rate is, and then equal to hours_worked * rate_per_hour |
| Payroll.Merge | fot_analysis_dag.py:128-131 | whatever the keys, the merged table is never shorter than the project-hours table, every project-hours row appears in it with its three columns unchanged, no other such triple appears, and its project ids are exactly the input's |
| Payroll.MergeIsRowwise | fot_analysis_dag.py:128-131 | with unique employee_id and position, the merged table has exactly one row per input row, in input order, equal to the row obtained by looking up the employee's position and that position's rate |
| Payroll.PaymentPresentIffBothJoinsMatch | fot_analysis_dag.py:131 | a merged row has a payment iff its employee is on the roster and that employee's position has a rate, and the payment is then hours_worked * rate_per_hour |
| Payroll.InsertKey | fot_analysis_dag.py:133 | adding a key to a strictly ascending key list keeps it strictly ascending and adds exactly that key |
| Payroll.SortedKeys | fot_analysis_dag.py:133 | the group keys are the distinct project ids of the rows, strictly ascending |
| Payroll.GroupByProject | fot_analysis_dag.py:133-136 | one output row per distinct project_id of the merged rows, ascending, carrying that project's hours sum and its payment sum with missing payments skipped |
| Payroll.Transform | fot_analysis_dag.py:122-136 | the step fails exactly when one of its three inputs is empty; a successful aggregate is never empty |
| Payroll.OneRowPerProject | fot_analysis_dag.py:133-136 | the aggregate has one row per distinct input project_id, in ascending order, whether or not that project's joins matched |
| Payroll.TotalsAreSumsOverAssignments | fot_analysis_dag.py:133-135 | with unique keys, total_hours is the sum of hours over all the project's input rows, matched or not, and total_payment is the sum of hours * rate over the rows whose joins both matched |
| Payroll.UnrosteredProjectPaysZero | fot_analysis_dag.py:128-135 | a project none of whose employees is on the roster still appears, with its hours summed and total_payment 0, not missing |
| Payroll.WorkedExample | fot_analysis_dag.py:111-136 | roster {1 developer, 2 qa}, rates {developer 50, qa 30} and rows (p1,e1,10), (p2,e2,5), (p3,e1,8) aggregate to (1,10,500), (2,5,150), (3,8,400) |
| Storage.Loaded | fot_analysis_dag.py:164-191 | a load is refused iff the aggregate is absent or empty; a successful load leaves the table existing and consistent (ids increasing and never above the sequence entry) |
| Storage.LoadReplacesContents | fot_analysis_dag.py:174-191 | after a load the table's (project_id, total_hours, total_payment) rows are exactly the aggregate; every id is above every id issued before, so no earlier row survives |
| Storage.ReloadKeepsContentRenewsIds | fot_analysis_dag.py:174-191 | loading the same aggregate twice gives the same content as loading it once, and every id of the second load is above every id of the first |
| Storage.TransformOutputIsLoadable | fot_analysis_dag.py:159-165 | the loader never refuses an aggregate the transform produced |
| Storage.InsertByPayment | fot_analysis_dag.py:200 | inserting a row into a list ordered by non-increasing payment keeps it ordered and adds exactly that row |
| Storage.OrderByPaymentDesc | fot_analysis_dag.py:237-240 | the ORDER BY total_payment DESC result is a permutation of the rows whose payments never increase |
| Storage.ProjectFotTable.ReadBack | fot_analysis_dag.py:200-202 | the read-back of an existing table is a permutation of its rows whose payments never increase |
| Storage.ProjectFotTable.constructor | fot_analysis_dag.py:170 | a database in which project_fot has never been created: no table, no rows, sequence entry 0 (a table that does not exist has no sequence entry) |
| Storage.ProjectFotTable.CreateIfNotExists | fot_analysis_dag.py:174-185 | the table exists afterwards; rows and sequence entry are untouched |
| Storage.ProjectFotTable.DeleteAll | fot_analysis_dag.py:188 | every row is deleted and the AUTOINCREMENT sequence entry is kept |
| Storage.ProjectFotTable.Insert | fot_analysis_dag.py:191 | an insert without id gets one more than the largest id ever issued, above every present id, and is appended |
| Storage.ProjectFotTable.Load | fot_analysis_dag.py:151-211 | absent or empty aggregate: error, table unchanged; otherwise the new state is `Loaded` of the old one and the result is the row count |
| Generation.GenerateEmployees | lw_03/dags/data_generation.py:17-34 | 100 employees with ids 1..100 in order, employee i + 1 holding the position picked by the i-th draw, always one of the seven listed; ids unique |
| Generation.PositionsDistinct | lw_03/dags/data_generation.py:45 | the seven positions are pairwise distinct |
| Generation.GenerateRates | lw_03/dags/data_generation.py:41-53 | one rate per listed position, in list order, equal to that position's draw and so in [20, 100]; positions unique |
| Generation.GenerateProjects | lw_03/dags/data_generation.py:61-84 | the counter loop produces exactly the records of `Projects`: each employee's block of records in roster order, ids counting from 1 |
| Generation.Projects | lw_03/dags/data_generation.py:65-77 | the generated records, one block per employee in roster order; the k-th record has project_id k + 1, so the ids are 1..N in emission order and pairwise distinct |
| Generation.ProjectCountBounds | lw_03/dags/data_generation.py:68-70 | with 1 to 3 records per employee, N lies between the roster size and three times it |
| Generation.RecordsFromRoster | lw_03/dags/data_generation.py:68-75 | every record has hours_worked in [5, 40] and the employee_id of a roster employee |
| Generation.RecordsInRosterOrder | lw_03/dags/data_generation.py:68-77 | employee i's records form one consecutive block right after those of the employees before it |
| Generation.GeneratedRowsAllJoin | lw_03/dags/data_generation.py:17-77 | for generated data both joins match on every row: one merged row per record, with payment hours times the rate drawn for the employee's position |
| Generation.GeneratedDataTransforms | lw_03/dags/data_generation.py:125-129 | the generated inputs are never empty, so the transform step succeeds on them |

## Left out

- Orchestrator wiring is not modelled: DAG and operator definitions, task dependencies, XCom push and pull, and retry and e-mail-on-failure settings. Values passed through XCom become parameters. The aggregate handed to the loader is an `Option`, and an absent one is `None`. The transform's three inputs are plain record sequences: an absent extractor result is not modelled separately, because pandas builds the same frame with no columns from it as from an empty list, and the merge fails the same way (`MissingKeyColumn`).
- File reading in the extractors (CSV, Excel, JSON) and all file writing in the generator are I/O. The model starts and ends with in-memory record sequences.
- Opening, committing and closing the SQLite connection are not modelled. Only the table's state is. An interruption between the delete and the insert is not modelled either; a load is one atomic step.
- The report text, CSV export and e-mail composition are not modelled. They use the wall clock, float formatting, file writes and a mail service.
- `generate_statistics` only prints counts, a float mean and a float total, so it is not modelled.
- `random` is not modelled. Its draws are inputs: an index into the position list per employee, one rate per position, and a list of 1 to 3 hour values per employee. The length of that list is the project-count draw.
- The clock behind `analysis_date DEFAULT CURRENT_TIMESTAMP` is the parameter `now`.
- Storage.NewRows: one load stamps all its rows with the single clock reading `now`. SQLite reads `CURRENT_TIMESTAMP` once per inserted row, so the rows of one load may carry different `analysis_date` values; no proved property depends on the dates.
- Hours, rates and payments are unbounded integers, not floats or SQLite REAL. pandas turns a column with missing values into floats; the sums are the same for the integer data the generator produces.
- Storage.ProjectFotTable.Insert: SQLite issues the larger of the sequence entry and the largest present id, plus one. The model issues the sequence entry plus one; `Valid` keeps every present id at or below the entry, so the two agree. Running out of 64-bit ids (SQLITE_FULL) is not modelled.
- Storage.OrderByPaymentDesc: SQL leaves the order of rows with equal total_payment unspecified. The model keeps table order among them, so it is one admissible order, not every one.
- Payroll.TotalsAreSumsOverAssignments: stated for unique employee_id and position only. With duplicate keys, pandas fans rows out, and the model's `Merge` does the same; the contract of `Merge` and the lemma `OneRowPerProject` hold without uniqueness.
- pandas matches a missing position with a missing position in the rate card. Rate-card positions are strings here and never missing, so a row whose employee was not found never gets a rate.
