/**
 Employee records, the two errors the store raises, and the pure sequence
 operations the store is built from: the order-preserving filters behind
 removal and search by position, the per-occurrence scan behind search by
 skill, and the in-place salary overwrite.
 */
module Records {

  /** One stored record: the keyed structure `id`, `name`, `position`, `salary`, `skills`.
      Salary is a whole number here (see README). */
  datatype Employee = Employee(id: int, name: string, position: string, salary: int, skills: seq<string>)

  /** `EmployeeNotFoundError(emp_id)` and `InvalidEmployeeDataError(field)`. */
  datatype StoreError =
    | EmployeeNotFound(id: int)
    | InvalidEmployeeData(field: string)

  /** Either the operation's value or the error it raised. */
  datatype Result<T> = Ok(value: T) | Err(error: StoreError)

  /** Some record of the collection carries `id`. */
  predicate HasId(es: seq<Employee>, id: int) {
    exists i :: 0 <= i < |es| && es[i].id == id
  }

  /** No two records of the collection share an id. */
  predicate UniqueIds(es: seq<Employee>) {
    forall i, j :: 0 <= i < j < |es| ==> es[i].id != es[j].id
  }

  /** What a filter keeps: records whose id differs from a given one (removal),
      or records holding exactly a given position (search by position). */
  datatype Criterion = IdOtherThan(id: int) | PositionIs(position: string)

  predicate Selects(c: Criterion, e: Employee) {
    match c
    case IdOtherThan(id) => e.id != id
    case PositionIs(p) => e.position == p
  }

  /** The records of `es` that `c` selects, in collection order. */
  function Filter(es: seq<Employee>, c: Criterion): (r: seq<Employee>)
    ensures |r| <= |es|
  {
    if es == [] then []
    else
      var rest := Filter(es[1..], c);
      (if Selects(c, es[0]) then [es[0]] else []) + rest
  }

  /** The filter keeps the full length exactly when it selects every record. */
  lemma {:induction false} FilterKeepsLength(es: seq<Employee>, c: Criterion)
    ensures |Filter(es, c)| == |es| <==> forall i :: 0 <= i < |es| ==> Selects(c, es[i])
  {
    if es != [] {
      var tail := es[1..];
      FilterKeepsLength(tail, c);
      assert forall i :: 1 <= i < |es| ==> es[i] == tail[i - 1];
    }
  }

  /** A record is kept exactly when it is in the collection and selected. */
  lemma {:induction false} FilterMembers(es: seq<Employee>, c: Criterion, e: Employee)
    ensures e in Filter(es, c) <==> e in es && Selects(c, e)
  {
    if es != [] {
      assert es == [es[0]] + es[1..];
      FilterMembers(es[1..], c, e);
    }
  }

  /** Filtering distributes over concatenation, so it keeps the relative order of what it keeps. */
  lemma {:induction false} FilterAppend(a: seq<Employee>, b: seq<Employee>, c: Criterion)
    ensures Filter(a + b, c) == Filter(a, c) + Filter(b, c)
  {
    if a == [] {
      assert a + b == b;
    } else {
      var ab := a + b;
      assert ab[0] == a[0];
      assert ab[1..] == a[1..] + b;
      FilterAppend(a[1..], b, c);
      var head := if Selects(c, a[0]) then [a[0]] else [];
      assert Filter(ab, c) == head + Filter(a[1..] + b, c);
      assert Filter(a, c) == head + Filter(a[1..], c);
    }
  }

  /** A filter that selects every record returns the collection unchanged. */
  lemma {:induction false} FilterKeepsAll(es: seq<Employee>, c: Criterion)
    requires forall i :: 0 <= i < |es| ==> Selects(c, es[i])
    ensures Filter(es, c) == es
  {
    if es != [] {
      assert forall i :: 0 <= i < |es[1..]| ==> es[1..][i] == es[i + 1];
      FilterKeepsAll(es[1..], c);
    }
  }

  /** Dropping the first record keeps ids unique. */
  lemma UniqueTail(es: seq<Employee>)
    requires es != [] && UniqueIds(es)
    ensures UniqueIds(es[1..])
  {
    var tail := es[1..];
    forall i, j | 0 <= i < j < |tail| ensures tail[i].id != tail[j].id {
      assert tail[i] == es[i + 1] && tail[j] == es[j + 1];
    }
  }

  /** Putting a record with a new id in front keeps ids unique. */
  lemma UniqueCons(e: Employee, rest: seq<Employee>)
    requires UniqueIds(rest)
    requires forall j :: 0 <= j < |rest| ==> rest[j].id != e.id
    ensures UniqueIds([e] + rest)
  {
    var r := [e] + rest;
    forall i, j | 0 <= i < j < |r| ensures r[i].id != r[j].id {
      assert r[j] == rest[j - 1];
      if i > 0 {
        assert r[i] == rest[i - 1];
      }
    }
  }

  /** Filtering never creates a duplicate id. */
  lemma {:induction false} FilterKeepsIdsUnique(es: seq<Employee>, c: Criterion)
    requires UniqueIds(es)
    ensures UniqueIds(Filter(es, c))
  {
    if es != [] {
      var tail := es[1..];
      UniqueTail(es);
      FilterKeepsIdsUnique(tail, c);
      var rest := Filter(tail, c);
      if Selects(c, es[0]) {
        forall j | 0 <= j < |rest| ensures rest[j].id != es[0].id {
          FilterMembers(tail, c, rest[j]);
          var k :| 0 <= k < |tail| && tail[k] == rest[j];
          assert es[k + 1] == rest[j];
        }
        UniqueCons(es[0], rest);
      }
    }
  }

  /** Filtering out one unselected record between two fully selected parts joins the parts. */
  lemma FilterDropsOne(before: seq<Employee>, x: Employee, after: seq<Employee>, c: Criterion)
    requires Filter(before, c) == before && Filter(after, c) == after
    requires !Selects(c, x)
    ensures Filter(before + ([x] + after), c) == before + after
  {
    FilterAppend([x], after, c);
    assert [x][1..] == [];
    FilterAppend(before, [x] + after, c);
  }

  /** When only the record at `k` carries its id, dropping that id removes exactly
      the record at `k` and keeps the others in order. */
  lemma DropOnlyHolder(es: seq<Employee>, k: int)
    requires 0 <= k < |es|
    requires forall i :: 0 <= i < |es| && i != k ==> es[i].id != es[k].id
    ensures Filter(es, IdOtherThan(es[k].id)) == es[..k] + es[k + 1..]
  {
    var c := IdOtherThan(es[k].id);
    var before, after := es[..k], es[k + 1..];
    forall i | 0 <= i < |before| ensures Selects(c, before[i]) {
      assert before[i] == es[i];
    }
    FilterKeepsAll(before, c);
    forall i | 0 <= i < |after| ensures Selects(c, after[i]) {
      assert after[i] == es[k + 1 + i];
    }
    FilterKeepsAll(after, c);
    FilterDropsOne(before, es[k], after, c);
    SplitAt(es, k);
  }

  /** In a collection with unique ids, dropping the records with id `es[k].id`
      removes exactly the record at position `k` and keeps the others in order. */
  lemma DropUniqueId(es: seq<Employee>, k: int)
    requires UniqueIds(es)
    requires 0 <= k < |es|
    ensures Filter(es, IdOtherThan(es[k].id)) == es[..k] + es[k + 1..]
  {
    forall i | 0 <= i < |es| && i != k ensures es[i].id != es[k].id {
      if i < k {
        assert es[i].id != es[k].id;
      } else {
        assert es[k].id != es[i].id;
      }
    }
    DropOnlyHolder(es, k);
  }

  /** A list is its part before `k`, the record at `k`, and its part after `k`. */
  lemma SplitAt(es: seq<Employee>, k: int)
    requires 0 <= k < |es|
    ensures es == es[..k] + ([es[k]] + es[k + 1..])
  {
  }

  /** How often `skill` occurs in a skills list. */
  function Occurrences(skills: seq<string>, skill: string): (n: nat)
    ensures n <= |skills|
    ensures n > 0 <==> skill in skills
  {
    if skills == [] then 0
    else
      var init, last := skills[..|skills| - 1], skills[|skills| - 1];
      assert skills == init + [last];
      Occurrences(init, skill) + (if last == skill then 1 else 0)
  }

  /** The count is the skill's multiplicity in the skills list. */
  lemma {:induction false} OccurrencesIsMultiplicity(skills: seq<string>, skill: string)
    ensures Occurrences(skills, skill) == multiset(skills)[skill]
  {
    if skills != [] {
      var init, last := skills[..|skills| - 1], skills[|skills| - 1];
      assert skills == init + [last];
      OccurrencesIsMultiplicity(init, skill);
    }
  }

  /** `e` reported `n` times. */
  function Repeat(e: Employee, n: nat): (r: seq<Employee>)
    ensures |r| == n
    ensures forall i :: 0 <= i < n ==> r[i] == e
    ensures forall x :: x in r <==> n > 0 && x == e
  {
    if n == 0 then [] else [e] + Repeat(e, n - 1)
  }

  /** The reports of a scan for `skill`: each record once per occurrence of `skill`
      in its skills list, in collection order. */
  function SkillHits(es: seq<Employee>, skill: string): (r: seq<Employee>)
    ensures r == [] <==> forall i :: 0 <= i < |es| ==> skill !in es[i].skills
  {
    if es == [] then []
    else
      var init, last := es[..|es| - 1], es[|es| - 1];
      assert es == init + [last];
      SkillHits(init, skill) + Repeat(last, Occurrences(last.skills, skill))
  }

  /** A record is reported exactly when it is in the collection and lists `skill`. */
  lemma {:induction false} SkillHitsMembers(es: seq<Employee>, skill: string, e: Employee)
    ensures e in SkillHits(es, skill) <==> e in es && skill in e.skills
  {
    if es != [] {
      var init, last := es[..|es| - 1], es[|es| - 1];
      assert es == init + [last];
      SkillHitsMembers(init, skill, e);
    }
  }

  /** The scan of a concatenation is the concatenation of the scans. */
  lemma {:induction false} SkillHitsAppend(a: seq<Employee>, b: seq<Employee>, skill: string)
    ensures SkillHits(a + b, skill) == SkillHits(a, skill) + SkillHits(b, skill)
  {
    if b == [] {
      assert a + b == a;
    } else {
      var init, last := b[..|b| - 1], b[|b| - 1];
      assert (a + b)[..|a + b| - 1] == a + init;
      assert (a + b)[|a + b| - 1] == last;
      SkillHitsAppend(a, init, skill);
    }
  }

  /** A record whose skills list names `skill` twice is reported twice. */
  lemma DuplicateSkillReportedTwice(e: Employee, skill: string)
    requires e.skills == [skill, skill]
    ensures SkillHits([e], skill) == [e, e]
  {
    assert [e][..0] == [];
    assert e.skills[..1] == [skill];
    assert e.skills[..1][..0] == [];
    assert Occurrences(e.skills, skill) == 2;
    assert Repeat(e, 2) == [e] + Repeat(e, 1);
    assert Repeat(e, 1) == [e];
  }

  /** A record anywhere in a store is reported once per occurrence of `skill` in its
      skills list, between the reports for the records before it and after it. */
  lemma ReportedOncePerOccurrence(a: seq<Employee>, e: Employee, b: seq<Employee>, skill: string)
    ensures SkillHits(a + [e] + b, skill)
            == SkillHits(a, skill) + Repeat(e, Occurrences(e.skills, skill)) + SkillHits(b, skill)
  {
    SkillHitsAppend(a + [e], b, skill);
    assert (a + [e])[..|a + [e]| - 1] == a;
  }

  /** `e` after `update_salary(id, salary)` has looked at it. */
  function SalaryUpdated(e: Employee, id: int, salary: int): (r: Employee)
    ensures r.id == e.id && r.name == e.name && r.position == e.position && r.skills == e.skills
    ensures r.salary == salary <== e.id == id
    ensures e.id != id ==> r == e
  {
    if e.id == id then e.(salary := salary) else e
  }

  /** Every record with id `id` gets salary `salary`; nothing else changes. */
  function SetSalary(es: seq<Employee>, id: int, salary: int): (r: seq<Employee>)
    ensures |r| == |es|
    ensures forall i :: 0 <= i < |es| ==>
              && r[i].id == es[i].id
              && r[i].name == es[i].name
              && r[i].position == es[i].position
              && r[i].skills == es[i].skills
              && r[i].salary == (if es[i].id == id then salary else es[i].salary)
    ensures UniqueIds(es) ==> UniqueIds(r)
    ensures !HasId(es, id) ==> r == es
  {
    seq(|es|, i requires 0 <= i < |es| => SalaryUpdated(es[i], id, salary))
  }
}
