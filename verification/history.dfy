/**
 Sequences of store operations as a user drives them, one after another, each
 starting from the file the previous one left. The invariant the store keeps
 across any such sequence: ids are unique and positive and every name is
 non-empty. Salary is not part of it: `update_salary` accepts any value.
 */
module StoreHistory {
  import opened Records
  import opened StorageJson

  /** One call into the store. */
  datatype Command =
    | Add(name: string, position: string, salary: int, skills: seq<string>)
    | Remove(id: int)
    | SetSalaryOf(id: int, salary: int)
    | SearchPosition(position: string)
    | SearchSkill(skill: string)
    | ListAll

  /** The file after one command, whether it succeeded or raised. */
  function Step(f: JsonFile, c: Command): JsonFile {
    match c
    case Add(name, position, salary, skills) => AddEmployee(f, name, position, salary, skills).file
    case Remove(id) => RemoveEmployee(f, id).file
    case SetSalaryOf(id, salary) => UpdateSalary(f, id, salary).file
    case SearchPosition(position) => FindByPosition(f, position).file
    case SearchSkill(skill) => FindBySkill(f, skill).file
    case ListAll => ListAllEmployees(f).file
  }

  /** The file after a sequence of commands. */
  function Run(f: JsonFile, cs: seq<Command>): JsonFile
    decreases |cs|
  {
    if cs == [] then f else Run(Step(f, cs[0]), cs[1..])
  }

  /** What the store keeps true of its records. */
  predicate WellFormed(es: seq<Employee>) {
    && UniqueIds(es)
    && (forall i :: 0 <= i < |es| ==> es[i].id >= 1)
    && (forall i :: 0 <= i < |es| ==> es[i].name != [])
  }

  /** A successful add appends a record with a positive id and a non-empty name. */
  lemma AddKeepsWellFormed(f: JsonFile, name: string, position: string, salary: int, skills: seq<string>)
    requires WellFormed(Contents(f))
    ensures WellFormed(Contents(AddEmployee(f, name, position, salary, skills).file))
  {
    var es := Contents(f);
    var id := GetEmpId(f).1;
    assert id >= 1 by {
      if es != [] {
        assert es[0].id < id;
      }
    }
    var r := AddEmployee(f, name, position, salary, skills);
    if r.result.Ok? {
      var rs := r.file.records;
      assert rs == es + [Employee(id, name, position, salary, skills)] by {
        assert rs == rs[..|es|] + [rs[|es|]];
      }
    }
  }

  /** A removal only drops records. */
  lemma RemoveKeepsWellFormed(f: JsonFile, id: int)
    requires WellFormed(Contents(f))
    ensures WellFormed(Contents(RemoveEmployee(f, id).file))
  {
    var es := Contents(f);
    var r := RemoveEmployee(f, id);
    if r.result.Ok? {
      RemoveEmployeeKeepsOthers(f, id);
      var rs := r.file.records;
      forall i | 0 <= i < |rs| ensures rs[i].id >= 1 && rs[i].name != [] {
        assert rs[i] in es;
      }
    }
  }

  /** Each command keeps the store well formed. */
  lemma StepKeepsWellFormed(f: JsonFile, c: Command)
    requires WellFormed(Contents(f))
    ensures WellFormed(Contents(Step(f, c)))
  {
    match c
    case Add(name, position, salary, skills) => AddKeepsWellFormed(f, name, position, salary, skills);
    case Remove(id) => RemoveKeepsWellFormed(f, id);
    case SetSalaryOf(_, _) =>
    case SearchPosition(_) =>
    case SearchSkill(_) =>
    case ListAll =>
  }

  /** Any sequence of commands keeps the store well formed. */
  lemma {:induction false} RunKeepsWellFormed(f: JsonFile, cs: seq<Command>)
    requires WellFormed(Contents(f))
    ensures WellFormed(Contents(Run(f, cs)))
    decreases |cs|
  {
    if cs != [] {
      StepKeepsWellFormed(f, cs[0]);
      RunKeepsWellFormed(Step(f, cs[0]), cs[1..]);
    }
  }

  /** Starting from no file at all, every store ever reached is well formed. */
  lemma FreshStoreStaysWellFormed(cs: seq<Command>)
    ensures WellFormed(Contents(Run(Missing, cs)))
  {
    RunKeepsWellFormed(Missing, cs);
  }

  /** A salary that `add_employee` refuses is stored by `update_salary` for any existing id. */
  lemma UpdateStoresNonPositiveSalary(f: JsonFile, id: int, name: string, position: string, salary: int, skills: seq<string>)
    requires HasId(Contents(f), id)
    requires name != [] && salary <= 0
    ensures AddEmployee(f, name, position, salary, skills).result == Err(InvalidEmployeeData("salary"))
    ensures UpdateSalary(f, id, salary).result.Ok?
    ensures exists i :: 0 <= i < |Contents(UpdateSalary(f, id, salary).file)|
                        && Contents(UpdateSalary(f, id, salary).file)[i].salary == salary
  {
    var es := Contents(f);
    var i :| 0 <= i < |es| && es[i].id == id;
    assert Contents(UpdateSalary(f, id, salary).file)[i].salary == salary;
  }

  /** Repeating a salary update leaves the same file and succeeds again. */
  lemma UpdateSalaryTwice(f: JsonFile, id: int, salary: int)
    requires HasId(Contents(f), id)
    ensures var f1 := UpdateSalary(f, id, salary).file;
            UpdateSalary(f1, id, salary) == Outcome(f1, Ok(()))
  {
    var es := Contents(f);
    var f1 := UpdateSalary(f, id, salary).file;
    var i :| 0 <= i < |es| && es[i].id == id;
    assert Contents(f1)[i].id == id;
    var rs := Contents(UpdateSalary(f1, id, salary).file);
    assert rs == Contents(f1);
  }

  /** Adding and then listing shows the old records followed by the new one with the
      next id; the listing does not change the file. */
  lemma AddThenList(f: JsonFile, name: string, position: string, salary: int, skills: seq<string>)
    requires name != [] && salary > 0
    ensures ListAllEmployees(AddEmployee(f, name, position, salary, skills).file).result
            == Ok(Contents(f) + [Employee(GetEmpId(f).1, name, position, salary, skills)])
  {
    var es := Contents(f);
    var rs := AddEmployee(f, name, position, salary, skills).file.records;
    assert rs == rs[..|es|] + [rs[|es|]];
  }

  /** After a successful removal the id is gone and the next id drawn is not above the old one. */
  lemma RemoveThenNextId(f: JsonFile, id: int)
    requires WellFormed(Contents(f))
    requires RemoveEmployee(f, id).result.Ok?
    ensures !HasId(Contents(RemoveEmployee(f, id).file), id)
    ensures GetEmpId(RemoveEmployee(f, id).file).1 <= GetEmpId(f).1
  {
    var es := Contents(f);
    var f2 := RemoveEmployee(f, id).file;
    var rs := Contents(f2);
    RemoveEmployeeKeepsOthers(f, id);
    forall i | 0 <= i < |rs| ensures rs[i].id != id {
      assert rs[i] in rs;
    }
    if rs != [] {
      var m :| 0 <= m < |rs| && rs[m].id == GetEmpId(f2).1 - 1;
      assert rs[m] in rs;
      var k :| 0 <= k < |es| && es[k] == rs[m];
      assert es[k].id < GetEmpId(f).1;
    } else {
      assert es != [];
      assert es[0].id < GetEmpId(f).1;
    }
  }

  const alice := Employee(1, "Alice", "Eng", 1000, ["go"])
  const bob := Employee(2, "Bob", "Eng", 2000, ["go", "rust"])

  /** Alice gets id 1 in a store that does not exist yet, then Bob gets id 2. */
  lemma AliceThenBobAdded()
    ensures AddEmployee(Missing, "Alice", "Eng", 1000, ["go"]).file == Written([alice])
    ensures AddEmployee(Written([alice]), "Bob", "Eng", 2000, ["go", "rust"]).file == Written([alice, bob])
  {
    assert MaxId([alice]) == 1;
  }

  /** Both are found by position "Eng". */
  lemma BothFoundAsEng()
    ensures FindByPosition(Written([alice, bob]), "Eng").result == Ok([alice, bob])
  {
    var c := PositionIs("Eng");
    assert Filter([bob], c) == [bob] by {
      assert [bob][1..] == [];
    }
    assert Filter([alice, bob], c) == [alice, bob] by {
      assert [alice, bob][1..] == [bob];
    }
  }

  /** Alice's salary becomes 1500; Bob's record is untouched. */
  lemma AliceRaised()
    ensures UpdateSalary(Written([alice, bob]), 1, 1500).file == Written([alice.(salary := 1500), bob])
  {
    assert [alice, bob][0].id == 1;
  }

  /** Removing id 1 leaves only Bob. */
  lemma AliceRemoved()
    ensures RemoveEmployee(Written([alice.(salary := 1500), bob]), 1).file == Written([bob])
  {
    var alice' := alice.(salary := 1500);
    var c := IdOtherThan(1);
    assert Filter([bob], c) == [bob] by {
      assert [bob][1..] == [];
    }
    assert Filter([alice', bob], c) == [bob] by {
      assert [alice', bob][1..] == [bob];
    }
  }

  /** The walk-through: Alice and Bob are added to an empty store, found by position,
      Alice's salary is raised, and after removing Alice only Bob is listed. */
  lemma AliceAndBob()
    ensures
      var f1 := AddEmployee(Missing, "Alice", "Eng", 1000, ["go"]).file;
      var f2 := AddEmployee(f1, "Bob", "Eng", 2000, ["go", "rust"]).file;
      var f3 := UpdateSalary(f2, 1, 1500).file;
      var f4 := RemoveEmployee(f3, 1).file;
      && ListAllEmployees(f2).result == Ok([alice, bob])
      && FindByPosition(f2, "Eng").result == Ok([alice, bob])
      && ListAllEmployees(f3).result == Ok([alice.(salary := 1500), bob])
      && ListAllEmployees(f4).result == Ok([bob])
  {
    AliceThenBobAdded();
    BothFoundAsEng();
    AliceRaised();
    AliceRemoved();
  }
}
