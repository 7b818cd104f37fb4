# Employee Store — a Dafny model

This project models the storage core of a small employee record keeper: the
JSON-file store `STORAGEJSON` and its two exceptions, `EmployeeNotFoundError`
and `InvalidEmployeeDataError`. The store keeps an ordered list of employee
records. Each record has an id, a name, a position, a salary and a list of
skills. The store offers six operations: add, remove, update salary, search
by position, search by skill and list all. Ids are issued as the largest stored
id plus one, or 1 for an empty store.

Every operation loads the whole file (a load writes an empty list to a missing
file) and works on the loaded list. Add, remove and update salary then either
write the whole list back or raise an error. The three queries (search by
position, search by skill, list all) only load: they never write the list back,
and the two searches raise when they find nothing. The model treats the file as a
value, `JsonFile = Missing | Written(records)`. Each operation is a pure
function from the file and its arguments to an `Outcome`: the file as it stands
afterwards, plus either the operation's value or a `StoreError`
(`EmployeeNotFound(id)` or `InvalidEmployeeData(field)`).

- `records.dfy` (module `Records`): the record datatype, the errors, the
  collection predicates (`HasId`, `UniqueIds`) and the pure list operations.
  These are the order-preserving filter used by removal and by search by
  position, the per-occurrence skill scan, and the salary overwrite.
- `storage_json.dfy` (module `StorageJson`): loading, id issue, the six
  operations, lemmas about their results, and loop versions of the three
  scans in `update_salary`, `find_by_skill` and `find_by_position`, each
  proved equal to its functional definition.
- `history.dfy` (module `StoreHistory`): sequences of operations. It proves
  that unique, positive ids and non-empty names hold after any sequence
  started from no file, and it proves a worked example of two adds, a search, an
  update and a removal.

Behaviour of the code that the model keeps:

- `add_employee` calls `get_emp_id` before validating. That call loads the
  file, so a missing file is created even when the add then fails.
- The name is checked before the salary.
- `remove_employee` detects "not found" by comparing list lengths before and
  after filtering. The model does the same, and `RemoveEmployeeFails` proves
  this is exactly "no record has the id". The filter drops every record with
  that id.
- `update_salary` overwrites the salary of every record with a matching id.
  It does not validate the new salary, so a salary of zero or less can be
  stored. Salary > 0 is therefore not an invariant of the store, even though
  `add_employee` refuses such a salary (storage/storage_json.py:86-87); the
  model follows the code
  (`UpdateStoresNonPositiveSalary`).
- `find_by_skill` reports a record once for each occurrence of the skill in
  its skills list (`ReportedOncePerOccurrence`, `DuplicateSkillReportedTwice`).
- Nothing in the code makes stored ids positive or unique. Those properties
  hold only for stores built by these operations. `WellFormed` states them
  and `RunKeepsWellFormed` proves they are preserved.

## Model

| member | source | states |
|---|---|---|
| Records.Filter | storage/storage_json.py:104 | the list comprehension that keeps the records a criterion selects is never longer than its input (membership and order are stated by the lemmas below) |
| Records.FilterAppend | storage/storage_json.py:104 | filtering a concatenation is the concatenation of the filtered parts, so the list comprehension keeps the relative order of the records it keeps |
| Records.FilterMembers | storage/storage_json.py:104 | a record is kept exactly when it is in the list and satisfies the criterion |
| Records.FilterKeepsLength | storage/storage_json.py:104-106 | the filtered list is as long as the input exactly when every record satisfies the criterion |
| Records.FilterKeepsAll | storage/storage_json.py:104 | a criterion that every record satisfies returns the list unchanged |
| Records.FilterKeepsIdsUnique | storage/storage_json.py:104 | filtering a list with unique ids yields a list with unique ids |
| Records.DropOnlyHolder | storage/storage_json.py:104 | when only the record at `k` carries its id, dropping that id gives exactly `es[..k] + es[k+1..]` |
| Records.DropUniqueId | storage/storage_json.py:104 | with unique ids, dropping the records whose id is `es[k].id` gives exactly `es[..k] + es[k+1..]` |
| Records.Occurrences | storage/storage_json.py:143-144 | the count of a skill in a skills list is at most the list's length, and is positive exactly when the skill is listed |
| Records.OccurrencesIsMultiplicity | storage/storage_json.py:143-144 | the count of a skill is its multiplicity in the skills list, so the inner loop matches once per listed copy |
| Records.SkillHits | storage/storage_json.py:142-148 | the skill scan reports nothing exactly when no record lists the skill |
| Records.SkillHitsMembers | storage/storage_json.py:142-146 | a record is reported exactly when it is stored and lists the skill |
| Records.SkillHitsAppend | storage/storage_json.py:142-146 | scanning a concatenation gives the scan of the first part followed by the scan of the second, so reports come in file order |
| Records.ReportedOncePerOccurrence | storage/storage_json.py:142-146 | in any store, a record at any position is reported, at its place in file order, exactly as many times as the skill occurs in its skills list |
| Records.DuplicateSkillReportedTwice | storage/storage_json.py:143-146 | an example: a one-record store whose skills list is exactly the skill twice reports that record twice |
| Records.SalaryUpdated | storage/storage_json.py:123-125 | the per-record step of the salary update keeps id, name, position and skills, and gives the new salary exactly when the record has the id, the old one otherwise |
| Records.SetSalary | storage/storage_json.py:122-125 | the overwrite keeps length, ids, names, positions and skills of every record and changes the salary of exactly the records with the id; it keeps ids unique, and with no record carrying the id it changes nothing |
| StorageJson.Load | storage/storage_json.py:57-63 | after a load the file exists and holds what was read; an existing file is not changed; a missing file reads as the empty list |
| StorageJson.MaxId | storage/storage_json.py:75 | the maximum of a non-empty list's ids is one of its ids and is at least every id |
| StorageJson.GetEmpId | storage/storage_json.py:72-76 | the issued id is 1 for an empty store; otherwise it is one above a stored id and above every stored id, so no record carries it |
| StorageJson.AddEmployee | storage/storage_json.py:78-97 | empty name fails with `InvalidEmployeeData("name")`; otherwise salary <= 0 fails with `InvalidEmployeeData("salary")`; on failure the stored list is unchanged; on success the old list is kept as a prefix and one record with the issued id and the given fields is appended; unique ids stay unique |
| StorageJson.RemoveEmployee | storage/storage_json.py:99-110 | failure is `EmployeeNotFound(id)` and leaves the stored list unchanged; success shortens the list |
| StorageJson.UpdateSalary | storage/storage_json.py:112-130 | fails with `EmployeeNotFound(id)` exactly when no record has the id, writing nothing new; on success every matching record gets the new salary and all else is kept in place |
| StorageJson.FindByPosition | storage/storage_json.py:151-167 | the stored list is unchanged; failure is `InvalidEmployeeData("position")`; success reports at least one record |
| StorageJson.FindBySkill | storage/storage_json.py:132-149 | the stored list is unchanged; it fails, with `InvalidEmployeeData("skill")`, exactly when no record lists the skill |
| StorageJson.ListAllEmployees | storage/storage_json.py:169-174 | never fails and returns exactly the stored list, which is the empty list for a missing file |
| StorageJson.RemoveEmployeeFails | storage/storage_json.py:103-106 | removal raises exactly when no stored record carries the id |
| StorageJson.RemoveEmployeeKeepsOthers | storage/storage_json.py:104-110 | a successful removal keeps exactly the records with another id; with unique ids it deletes the one record at some position `k`, keeps the rest in order, shrinks the list by one and keeps ids unique |
| StorageJson.FindByPositionReports | storage/storage_json.py:156-167 | the search fails exactly when no record holds the position, and otherwise reports exactly the records holding it |
| StorageJson.FindBySkillReports | storage/storage_json.py:139-149 | a successful search reports exactly the records that list the skill |
| StorageJson.UpdateSalaryScan | storage/storage_json.py:121-127 | the loop's flag is set exactly when some record has the id, and the loop's in-place updates produce the salary overwrite |
| StorageJson.ScanSkills | storage/storage_json.py:143-146 | the inner loop over one record's skills reports that record once per occurrence of the skill |
| StorageJson.FindBySkillScan | storage/storage_json.py:140-148 | the nested loop's reports are the skill scan, and its flag is set exactly when some record lists the skill |
| StorageJson.FindByPositionScan | storage/storage_json.py:157-166 | the loop's reports are the position filter, in file order, and its flag is set exactly when something was reported |
| StoreHistory.AddKeepsWellFormed | storage/storage_json.py:78-97 | add preserves unique positive ids and non-empty names |
| StoreHistory.RemoveKeepsWellFormed | storage/storage_json.py:99-110 | remove preserves unique positive ids and non-empty names |
| StoreHistory.StepKeepsWellFormed | storage/storage_json.py:78-174 | every operation, failing or not, preserves unique positive ids and non-empty names |
| StoreHistory.RunKeepsWellFormed | storage/storage_json.py:78-174 | any sequence of operations preserves unique positive ids and non-empty names |
| StoreHistory.FreshStoreStaysWellFormed | storage/storage_json.py:57-63 | every store reached from a missing file has unique positive ids and non-empty names |
| StoreHistory.UpdateStoresNonPositiveSalary | storage/storage_json.py:120-125 | for any existing id, a salary of zero or less that add refuses with `InvalidEmployeeData("salary")` is accepted and stored by a salary update |
| StoreHistory.UpdateSalaryTwice | storage/storage_json.py:120-130 | repeating a successful salary update succeeds again and leaves the file as the first update left it |
| StoreHistory.AddThenList | storage/storage_json.py:88-97 | after a valid add, listing returns the old records followed by the new record with the issued id |
| StoreHistory.RemoveThenNextId | storage/storage_json.py:72-76 | in a well-formed store (unique positive ids, non-empty names), after a successful removal the removed id is absent and the next issued id is not above the one issued before |
| StoreHistory.AliceThenBobAdded | storage/storage_json.py:72-97 | adding Alice to a missing store gives her id 1; adding Bob next gives him id 2 after her |
| StoreHistory.BothFoundAsEng | storage/storage_json.py:156-167 | searching position "Eng" reports Alice then Bob |
| StoreHistory.AliceRaised | storage/storage_json.py:120-130 | updating id 1 to 1500 changes only Alice's salary |
| StoreHistory.AliceRemoved | storage/storage_json.py:103-110 | removing id 1 leaves only Bob |
| StoreHistory.AliceAndBob | storage/storage_json.py:78-174 | the walk-through in one statement: after both adds the list is Alice then Bob and both are found by position "Eng"; after the update Alice's salary is 1500; after removing id 1 only Bob is listed |

## Left out

- File I/O: `open`, `os.path.exists`, JSON encoding and decoding, and `save_to_file` are reduced to the `JsonFile` value. A malformed file is a fatal, unhandled case in the code and is not modelled.
- The `print` calls in `remove_employee`, `update_salary` and the two searches produce no state. The searches are modelled as returning the records they would print, one per printed line.
- The module-level `employee_id_counter` is never used.
- The exceptions' message text is not modelled; an error carries only the id or the field.
- Salary is a float in the code; here it is an unbounded integer, so floating-point comparison and rounding are not modelled.
- Records are typed values. JSON entries with missing keys or wrongly typed fields cannot arise, nor can the type error Python raises when a string salary is compared with 0.
- employee_app.py (the menu loop and input parsing) is not part of this model. It passes the salary as a raw string, which is a front-end concern.
- main.py (wiring) is not part of this model.
- storage/employee_storage.py, the abstract interface, declares the same six operations with no behaviour and is not modelled separately.
- StorageJson.RemoveEmployee: its own contract states only the failure case and that success shortens the list. Membership, order and the exact one-record drop are stated by `RemoveEmployeeFails` and `RemoveEmployeeKeepsOthers`.
- StorageJson.FindByPosition: its own contract does not state which records are reported. That is stated by `FindByPositionReports`, and the order by `FindByPositionScan` together with `FilterAppend`.
- StorageJson.FindBySkill: its own contract does not state which records are reported. That is stated by `FindBySkillReports` and `SkillHitsMembers`, and the per-occurrence order by `FindBySkillScan` and `SkillHitsAppend`.
