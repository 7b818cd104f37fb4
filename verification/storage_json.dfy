/**
 The JSON-file employee store. The file is a value (`JsonFile`); every operation
 loads it (a load writes an empty list to a missing file) and works on the loaded
 list. Add, remove and update salary then either write the whole list back or
 raise one of the two store errors; the three queries (search by position, search
 by skill, list all) only load. Each operation returns the file as it stands
 afterwards together with its value or error.
 */
module StorageJson {
  import opened Records

  /** The backing file: not created yet, or holding a list of records. */
  datatype JsonFile = Missing | Written(records: seq<Employee>)

  /** The file after an operation, and what the operation returned or raised. */
  datatype Outcome<T> = Outcome(file: JsonFile, result: Result<T>)

  /** `load_from_file`: a missing file is first written as an empty list; then the file is read. */
  function Load(f: JsonFile): (r: (JsonFile, seq<Employee>))
    ensures r.0 == Written(r.1)
    ensures f.Written? ==> r.0 == f
    ensures f.Missing? ==> r.1 == []
  {
    match f
    case Missing => (Written([]), [])
    case Written(rs) => (f, rs)
  }

  /** The list a load of `f` reads. */
  function Contents(f: JsonFile): seq<Employee> {
    Load(f).1
  }

  /** The largest id in a non-empty list. */
  function MaxId(es: seq<Employee>): (m: int)
    requires es != []
    ensures HasId(es, m)
    ensures forall i :: 0 <= i < |es| ==> es[i].id <= m
  {
    if |es| == 1 then es[0].id
    else
      var rest := MaxId(es[1..]);
      if es[0].id >= rest then es[0].id else rest
  }

  /** `get_emp_id`: 1 for an empty store, otherwise one more than the largest id on file.
      The id is above every id on file, so no record carries it yet. */
  function GetEmpId(f: JsonFile): (r: (JsonFile, int))
    ensures r.0 == Written(Contents(f))
    ensures Contents(f) == [] ==> r.1 == 1
    ensures Contents(f) != [] ==> HasId(Contents(f), r.1 - 1)
    ensures forall i :: 0 <= i < |Contents(f)| ==> Contents(f)[i].id < r.1
    ensures !HasId(Contents(f), r.1)
  {
    var (f1, data) := Load(f);
    if data == [] then (f1, 1) else (f1, MaxId(data) + 1)
  }

  /** `add_employee`: the id is drawn first (which creates a missing file), then the
      name and the salary are checked in that order, and only then is the new record
      appended and the whole list written back. */
  function AddEmployee(f: JsonFile, name: string, position: string, salary: int, skills: seq<string>)
    : (r: Outcome<()>)
    ensures r.result.Ok? <==> name != [] && salary > 0
    ensures name == [] ==> r.result == Err(InvalidEmployeeData("name"))
    ensures name != [] && salary <= 0 ==> r.result == Err(InvalidEmployeeData("salary"))
    ensures r.result.Err? ==> r.file == Written(Contents(f))
    ensures r.result.Ok? ==>
              var es := Contents(f);
              && r.file.Written?
              && |r.file.records| == |es| + 1
              && r.file.records[..|es|] == es
              && r.file.records[|es|] == Employee(GetEmpId(f).1, name, position, salary, skills)
    ensures UniqueIds(Contents(f)) ==> UniqueIds(Contents(r.file))
  {
    var (f1, id) := GetEmpId(f);
    if name == [] then Outcome(f1, Err(InvalidEmployeeData("name")))
    else if salary <= 0 then Outcome(f1, Err(InvalidEmployeeData("salary")))
    else
      var (_, data) := Load(f1);
      Outcome(Written(data + [Employee(id, name, position, salary, skills)]), Ok(()))
  }

  /** `remove_employee`: keep the records whose id differs; if that kept everything,
      raise `EmployeeNotFoundError` without writing, else write the kept records. */
  function RemoveEmployee(f: JsonFile, id: int): (r: Outcome<()>)
    ensures r.file.Written?
    ensures r.result.Err? ==> r.result.error == EmployeeNotFound(id) && r.file == Written(Contents(f))
    ensures r.result.Ok? ==> |r.file.records| < |Contents(f)|
  {
    var (f1, data) := Load(f);
    var kept := Filter(data, IdOtherThan(id));
    if |data| == |kept| then Outcome(f1, Err(EmployeeNotFound(id)))
    else Outcome(Written(kept), Ok(()))
  }

  /** `update_salary`: every record with the id gets the new salary, which is not
      validated; with no such record `EmployeeNotFoundError` is raised and nothing is written. */
  function UpdateSalary(f: JsonFile, id: int, salary: int): (r: Outcome<()>)
    ensures r.result.Err? <==> !HasId(Contents(f), id)
    ensures r.result.Err? ==> r.result.error == EmployeeNotFound(id) && r.file == Written(Contents(f))
    ensures r.result.Ok? ==>
              var es := Contents(f);
              && r.file.Written?
              && |r.file.records| == |es|
              && forall i :: 0 <= i < |es| ==>
                   r.file.records[i] == (if es[i].id == id then es[i].(salary := salary) else es[i])
  {
    var (f1, data) := Load(f);
    if HasId(data, id) then Outcome(Written(SetSalary(data, id, salary)), Ok(()))
    else Outcome(f1, Err(EmployeeNotFound(id)))
  }

  /** `find_by_position`: the records holding exactly `position`, in file order;
      none at all raises `InvalidEmployeeDataError("position")`. The records are not changed. */
  function FindByPosition(f: JsonFile, position: string): (r: Outcome<seq<Employee>>)
    ensures r.file == Written(Contents(f))
    ensures r.result.Err? ==> r.result.error == InvalidEmployeeData("position")
    ensures r.result.Ok? ==> r.result.value != []
  {
    var (f1, data) := Load(f);
    var hits := Filter(data, PositionIs(position));
    if hits == [] then Outcome(f1, Err(InvalidEmployeeData("position"))) else Outcome(f1, Ok(hits))
  }

  /** `find_by_skill`: each record once per occurrence of `skill` in its skills list;
      none at all raises `InvalidEmployeeDataError("skill")`. The records are not changed. */
  function FindBySkill(f: JsonFile, skill: string): (r: Outcome<seq<Employee>>)
    ensures r.file == Written(Contents(f))
    ensures r.result.Err? <==> forall i :: 0 <= i < |Contents(f)| ==> skill !in Contents(f)[i].skills
    ensures r.result.Err? ==> r.result.error == InvalidEmployeeData("skill")
  {
    var (f1, data) := Load(f);
    var hits := SkillHits(data, skill);
    if hits == [] then Outcome(f1, Err(InvalidEmployeeData("skill"))) else Outcome(f1, Ok(hits))
  }

  /** `list_all_employees`: the stored list exactly as loaded; it cannot fail. */
  function ListAllEmployees(f: JsonFile): (r: Outcome<seq<Employee>>)
    ensures r.file.Written? && r.result == Ok(r.file.records)
    ensures f.Written? ==> r.file == f
    ensures f.Missing? ==> r.result.value == []
  {
    var (f1, data) := Load(f);
    Outcome(f1, Ok(data))
  }

  /** A store raises `EmployeeNotFoundError` on removal exactly when no record carries the id. */
  lemma RemoveEmployeeFails(f: JsonFile, id: int)
    ensures RemoveEmployee(f, id).result.Err? <==> !HasId(Contents(f), id)
  {
    var es := Contents(f);
    FilterKeepsLength(es, IdOtherThan(id));
  }

  /** A successful removal keeps, in order, exactly the records with another id; with
      unique ids it deletes the single record with the id, so the list shrinks by one. */
  lemma RemoveEmployeeKeepsOthers(f: JsonFile, id: int)
    requires RemoveEmployee(f, id).result.Ok?
    ensures forall e :: e in RemoveEmployee(f, id).file.records <==> e in Contents(f) && e.id != id
    ensures UniqueIds(Contents(f)) ==>
              exists k :: 0 <= k < |Contents(f)| && Contents(f)[k].id == id
                        && RemoveEmployee(f, id).file.records == Contents(f)[..k] + Contents(f)[k + 1..]
    ensures UniqueIds(Contents(f)) ==> |RemoveEmployee(f, id).file.records| == |Contents(f)| - 1
    ensures UniqueIds(Contents(f)) ==> UniqueIds(RemoveEmployee(f, id).file.records)
  {
    var es := Contents(f);
    var c := IdOtherThan(id);
    var rs := RemoveEmployee(f, id).file.records;
    assert rs == Filter(es, c);
    forall e ensures e in rs <==> e in es && e.id != id {
      FilterMembers(es, c, e);
    }
    if UniqueIds(es) {
      RemoveEmployeeFails(f, id);
      var k :| 0 <= k < |es| && es[k].id == id;
      DropUniqueId(es, k);
      FilterKeepsIdsUnique(es, c);
    }
  }

  /** A search by position reports exactly the records holding that position, and fails
      exactly when no record holds it. */
  lemma FindByPositionReports(f: JsonFile, position: string)
    ensures FindByPosition(f, position).result.Err? <==>
              forall i :: 0 <= i < |Contents(f)| ==> Contents(f)[i].position != position
    ensures FindByPosition(f, position).result.Ok? ==>
              forall e :: e in FindByPosition(f, position).result.value <==>
                            e in Contents(f) && e.position == position
  {
    var es := Contents(f);
    var c := PositionIs(position);
    forall e ensures e in Filter(es, c) <==> e in es && e.position == position {
      FilterMembers(es, c, e);
    }
    if Filter(es, c) == [] {
      forall i | 0 <= i < |es| ensures es[i].position != position {
        assert es[i] in es;
      }
    } else {
      assert Filter(es, c)[0] in Filter(es, c);
    }
  }

  /** A search by skill reports exactly the records listing that skill. */
  lemma FindBySkillReports(f: JsonFile, skill: string)
    ensures FindBySkill(f, skill).result.Ok? ==>
              forall e :: e in FindBySkill(f, skill).result.value <==> e in Contents(f) && skill in e.skills
  {
    forall e ensures e in SkillHits(Contents(f), skill) <==> e in Contents(f) && skill in e.skills {
      SkillHitsMembers(Contents(f), skill, e);
    }
  }

  /** The loop of `update_salary`: overwrite the salary of each matching record in place
      and remember whether any matched. */
  method UpdateSalaryScan(es: seq<Employee>, id: int, salary: int) returns (updated: seq<Employee>, found: bool)
    ensures found <==> HasId(es, id)
    ensures updated == SetSalary(es, id, salary)
  {
    updated := es;
    found := false;
    var i := 0;
    while i < |es|
      invariant 0 <= i <= |es|
      invariant |updated| == |es|
      invariant found <==> exists j :: 0 <= j < i && es[j].id == id
      invariant forall j :: 0 <= j < i ==> updated[j] == SalaryUpdated(es[j], id, salary)
      invariant forall j :: i <= j < |es| ==> updated[j] == es[j]
    {
      if es[i].id == id {
        found := true;
        updated := updated[i := es[i].(salary := salary)];
      }
      i := i + 1;
    }
  }

  /** The inner loop of `find_by_skill`: one report of `e` per occurrence of `skill`
      in its skills list. */
  method ScanSkills(e: Employee, skill: string) returns (run: seq<Employee>)
    ensures run == Repeat(e, Occurrences(e.skills, skill))
  {
    run := [];
    var j := 0;
    while j < |e.skills|
      invariant 0 <= j <= |e.skills|
      invariant run == Repeat(e, Occurrences(e.skills[..j], skill))
    {
      assert e.skills[..j + 1][..j] == e.skills[..j];
      if e.skills[j] == skill {
        run := run + [e];
      }
      j := j + 1;
    }
    assert e.skills[..j] == e.skills;
  }

  /** The nested loop of `find_by_skill`: walk every record and every skill of it,
      reporting the record at each match. */
  method FindBySkillScan(es: seq<Employee>, skill: string) returns (reported: seq<Employee>, found: bool)
    ensures reported == SkillHits(es, skill)
    ensures found <==> exists i :: 0 <= i < |es| && skill in es[i].skills
  {
    reported := [];
    found := false;
    var i := 0;
    while i < |es|
      invariant 0 <= i <= |es|
      invariant reported == SkillHits(es[..i], skill)
      invariant found <==> reported != []
    {
      var run := ScanSkills(es[i], skill);
      found := found || run != [];
      assert es[..i + 1][..i] == es[..i];
      reported := reported + run;
      i := i + 1;
    }
    assert es[..i] == es;
  }

  /** The loop of `find_by_position`: report each record holding the position, in order. */
  method FindByPositionScan(es: seq<Employee>, position: string) returns (reported: seq<Employee>, found: bool)
    ensures reported == Filter(es, PositionIs(position))
    ensures found <==> reported != []
  {
    reported := [];
    found := false;
    var i := 0;
    while i < |es|
      invariant 0 <= i <= |es|
      invariant reported == Filter(es[..i], PositionIs(position))
      invariant found <==> reported != []
    {
      FilterAppend(es[..i], [es[i]], PositionIs(position));
      assert es[..i + 1] == es[..i] + [es[i]];
      if es[i].position == position {
        found := true;
        reported := reported + [es[i]];
      }
      i := i + 1;
    }
    assert es[..i] == es;
  }
}
