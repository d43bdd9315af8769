/** The roster of the bookkeeping tool: employees with their salary log and
    partners with their profit shares, and the store that the add, edit and
    remove operations update in place. */
module Roster {
  import opened Common

  /** One line of an employee's salary log. */
  datatype SalaryEntry = SalaryEntry(salary: real, date: nat, reason: string)

  datatype Employee = Employee(
    id: nat,
    name: string,
    position: string,
    salary: real,
    startDate: nat,
    salaryHistory: seq<SalaryEntry>)

  datatype Partner = Partner(
    id: nat,
    name: string,
    share: real,             // percentage of the net profit
    personalExpenses: real,
    personalGains: real)

  /** Outcome of a roster operation; everything but Ok leaves the roster unchanged. */
  datatype Status = Ok | ValidationError | ShareLimitExceeded | NotFound

  const InitialHireReason: string := "Embauche initiale"
  const DefaultChangeReason: string := "Modification de salaire"

  /** The partners' shares may add up to at most this many percent. */
  const ShareLimit: real := 100.0

  /** The current salary is the one of the latest salary-log entry. */
  predicate SalaryConsistent(e: Employee) {
    |e.salaryHistory| > 0 && e.salary == e.salaryHistory[|e.salaryHistory| - 1].salary
  }

  predicate AllSalariesConsistent(es: seq<Employee>) {
    forall i :: 0 <= i < |es| ==> SalaryConsistent(es[i])
  }

  /** The sum of the partners' shares. */
  function TotalShare(ps: seq<Partner>): real {
    if ps == [] then 0.0 else ps[0].share + TotalShare(ps[1..])
  }

  /** The sum of the shares of every partner except the one at `index`. */
  function SharesExcept(ps: seq<Partner>, index: int): (r: real)
    ensures 0 <= index < |ps| ==> r + ps[index].share == TotalShare(ps)
    ensures (index < 0 || index >= |ps|) ==> r == TotalShare(ps)
  {
    if ps == [] then 0.0
    else (if index == 0 then 0.0 else ps[0].share) + SharesExcept(ps[1..], index - 1)
  }

  /** The invariant that adding and editing partners keep. */
  predicate SharesValid(ps: seq<Partner>) {
    (forall i :: 0 <= i < |ps| ==> ps[i].share > 0.0) && TotalShare(ps) <= ShareLimit
  }

  /** The employee that `addEmployee` creates. */
  function Hire(id: nat, name: string, position: string, salary: real, startDate: nat, date: nat): (e: Employee)
    ensures e.id == id && e.name == name && e.position == position && e.startDate == startDate
    ensures e.salary == salary
    ensures |e.salaryHistory| == 1 && e.salaryHistory[0].salary == salary
    ensures e.salaryHistory[0].date == date && e.salaryHistory[0].reason == InitialHireReason
    ensures SalaryConsistent(e)
  {
    Employee(id, name, position, salary, startDate, [SalaryEntry(salary, date, InitialHireReason)])
  }

  /** The employee as `saveEmployeeChanges` leaves it: name and position are
      overwritten; the salary log grows by one entry only when the salary changes. */
  function Revised(e: Employee, name: string, position: string, newSalary: real, reason: string, date: nat): (r: Employee)
    ensures r.id == e.id && r.startDate == e.startDate
    ensures r.name == name && r.position == position && r.salary == newSalary
    ensures |r.salaryHistory| == |e.salaryHistory| + (if newSalary != e.salary then 1 else 0)
    ensures r.salaryHistory[..|e.salaryHistory|] == e.salaryHistory
    ensures newSalary != e.salary ==>
      r.salaryHistory[|e.salaryHistory|] ==
        SalaryEntry(newSalary, date, if reason == [] then DefaultChangeReason else reason)
    ensures SalaryConsistent(e) ==> SalaryConsistent(r)
  {
    var renamed := e.(name := name, position := position);
    if newSalary != e.salary then
      renamed.(salary := newSalary,
               salaryHistory := e.salaryHistory +
                 [SalaryEntry(newSalary, date, if reason == [] then DefaultChangeReason else reason)])
    else
      renamed
  }

  lemma {:induction false} TotalShareConcat(a: seq<Partner>, b: seq<Partner>)
    ensures TotalShare(a + b) == TotalShare(a) + TotalShare(b)
  {
    if a == [] {
      assert a + b == b;
    } else {
      assert (a + b)[1..] == a[1..] + b;
      TotalShareConcat(a[1..], b);
    }
  }

  /** Leaving one partner out of the sum is the sum of the roster without that partner. */
  lemma {:induction false} SharesExceptSplit(ps: seq<Partner>, index: int)
    requires 0 <= index < |ps|
    ensures SharesExcept(ps, index) == TotalShare(ps[..index] + ps[index + 1..])
  {
    if index == 0 {
      assert ps[..0] + ps[1..] == ps[1..];
    } else {
      SharesExceptSplit(ps[1..], index - 1);
      assert ps[..index] + ps[index + 1..] == [ps[0]] + (ps[1..][..index - 1] + ps[1..][index..]);
    }
  }

  /** The sum that leaves out `index` does not see what is stored at `index`. */
  lemma {:induction false} SharesExceptUpdate(ps: seq<Partner>, index: int, p: Partner)
    requires 0 <= index < |ps|
    ensures SharesExcept(ps[index := p], index) == SharesExcept(ps, index)
  {
    if index > 0 {
      assert ps[index := p][1..] == ps[1..][index - 1 := p];
      SharesExceptUpdate(ps[1..], index - 1, p);
    } else {
      assert ps[index := p][1..] == ps[1..];
    }
  }

  /** Adding a partner that passes the check of `addPartner` keeps the share invariant. */
  lemma AddPartnerKeepsShares(ps: seq<Partner>, p: Partner)
    requires SharesValid(ps)
    requires p.share > 0.0 && TotalShare(ps) + p.share <= ShareLimit
    ensures SharesValid(ps + [p])
    ensures TotalShare(ps + [p]) == TotalShare(ps) + p.share
  {
    TotalShareConcat(ps, [p]);
    assert TotalShare([p]) == p.share;
  }

  /** Replacing a partner that passes the check of `savePartnerChanges` keeps the share invariant. */
  lemma EditPartnerKeepsShares(ps: seq<Partner>, index: nat, p: Partner)
    requires SharesValid(ps) && index < |ps|
    requires p.share > 0.0 && SharesExcept(ps, index) + p.share <= ShareLimit
    ensures SharesValid(ps[index := p])
    ensures TotalShare(ps[index := p]) == SharesExcept(ps, index) + p.share
  {
    SharesExceptSplit(ps[index := p], index);
    SharesExceptUpdate(ps, index, p);
  }

  /** Removing a partner keeps the share invariant, since every share is positive. */
  lemma RemovePartnerKeepsShares(ps: seq<Partner>, index: nat)
    requires SharesValid(ps)
    ensures SharesValid(RemoveAt(ps, index))
    ensures index < |ps| ==> TotalShare(RemoveAt(ps, index)) == TotalShare(ps) - ps[index].share
  {
    if index < |ps| {
      SharesExceptSplit(ps, index);
    }
  }

  /** A partner at 60% leaves no room for a second one at 50%. */
  lemma ShareLimitExample(first: Partner, second: Partner)
    requires first.share == 60.0 && second.share == 50.0
    ensures SharesValid([first])
    ensures TotalShare([first]) + second.share > ShareLimit
  {
  }

  /** The in-memory roster, as the script keeps it in its `employees` and `partners` arrays. */
  class RosterStore {
    var employees: seq<Employee>
    var partners: seq<Partner>

    /** What the operations below keep once it holds (storage may load anything). */
    ghost predicate Valid()
      reads this
    {
      AllSalariesConsistent(employees) && SharesValid(partners)
    }

    constructor ()
      ensures employees == [] && partners == []
      ensures Valid()
    {
      employees := [];
      partners := [];
    }

    /** `addEmployee`: the date of the first log entry is passed in. */
    method AddEmployee(id: nat, name: string, position: string, salary: real, startDate: Option<nat>, date: nat)
      returns (status: Status)
      modifies this
      ensures status == (if name != [] && position != [] && salary > 0.0 && startDate.Some? then Ok else ValidationError)
      ensures status == Ok ==>
        employees == old(employees) + [Hire(id, name, position, salary, startDate.value, date)]
      ensures status != Ok ==> employees == old(employees)
      ensures partners == old(partners)
      ensures old(Valid()) ==> Valid()
    {
      if name != [] && position != [] && salary > 0.0 && startDate.Some? {
        var e := Hire(id, name, position, salary, startDate.value, date);
        employees := employees + [e];
        status := Ok;
      } else {
        status := ValidationError;
      }
    }

    /** `saveEmployeeChanges` on the employee at `index`. */
    method SaveEmployeeChanges(index: nat, name: string, position: string, newSalary: real, reason: string, date: nat)
      returns (status: Status)
      modifies this
      ensures status == (if !(name != [] && position != [] && newSalary > 0.0) then ValidationError
                         else if index >= |old(employees)| then NotFound
                         else Ok)
      ensures status == Ok ==>
        employees == old(employees)[index := Revised(old(employees)[index], name, position, newSalary, reason, date)]
      ensures status != Ok ==> employees == old(employees)
      ensures partners == old(partners)
      ensures old(Valid()) ==> Valid()
    {
      if !(name != [] && position != [] && newSalary > 0.0) {
        status := ValidationError;
      } else if index >= |employees| {
        status := NotFound;
      } else {
        employees := employees[index := Revised(employees[index], name, position, newSalary, reason, date)];
        status := Ok;
      }
    }

    /** `removeEmployee`: removes the employee at `index`; an index past the end changes nothing. */
    method RemoveEmployee(index: nat)
      modifies this
      ensures employees == RemoveAt(old(employees), index)
      ensures partners == old(partners)
      ensures old(Valid()) ==> Valid()
    {
      employees := RemoveAt(employees, index);
    }

    /** `addPartner`: rejects an empty name or a non-positive share, then a
        share that would take the total over the limit. */
    method AddPartner(id: nat, name: string, share: real, personalExpenses: real, personalGains: real)
      returns (status: Status)
      modifies this
      ensures status == (if name == [] || share <= 0.0 then ValidationError
                         else if TotalShare(old(partners)) + share > ShareLimit then ShareLimitExceeded
                         else Ok)
      ensures status == Ok ==>
        partners == old(partners) + [Partner(id, name, share, personalExpenses, personalGains)]
      ensures status != Ok ==> partners == old(partners)
      ensures employees == old(employees)
      ensures old(Valid()) ==> Valid()
    {
      if name == [] || share <= 0.0 {
        return ValidationError;
      }
      var totalCurrentShares := TotalShare(partners);
      if totalCurrentShares + share > ShareLimit {
        return ShareLimitExceeded;
      }
      var p := Partner(id, name, share, personalExpenses, personalGains);
      if Valid() {
        AddPartnerKeepsShares(partners, p);
      }
      partners := partners + [p];
      status := Ok;
    }

    /** `savePartnerChanges`: the share check leaves out the edited partner's
        old share; id and personal gains are kept. */
    method SavePartnerChanges(index: nat, name: string, share: real, personalExpenses: real)
      returns (status: Status)
      modifies this
      ensures status == (if name == [] || share <= 0.0 then ValidationError
                         else if index >= |old(partners)| then NotFound
                         else if SharesExcept(old(partners), index) + share > ShareLimit then ShareLimitExceeded
                         else Ok)
      ensures status == Ok ==>
        partners == old(partners)[index := old(partners)[index].(name := name, share := share,
                                                                 personalExpenses := personalExpenses)]
      ensures status != Ok ==> partners == old(partners)
      ensures employees == old(employees)
      ensures old(Valid()) ==> Valid()
    {
      if name == [] || share <= 0.0 {
        return ValidationError;
      }
      if index >= |partners| {
        return NotFound;
      }
      var otherPartnersShares := SharesExcept(partners, index);
      if otherPartnersShares + share > ShareLimit {
        return ShareLimitExceeded;
      }
      var p := partners[index].(name := name, share := share, personalExpenses := personalExpenses);
      if Valid() {
        EditPartnerKeepsShares(partners, index, p);
      }
      partners := partners[index := p];
      status := Ok;
    }

    /** `removePartner`: removes the partner at `index`; an index past the end changes nothing. */
    method RemovePartner(index: nat)
      modifies this
      ensures partners == RemoveAt(old(partners), index)
      ensures employees == old(employees)
      ensures old(Valid()) ==> Valid()
    {
      if Valid() {
        RemovePartnerKeepsShares(partners, index);
      }
      partners := RemoveAt(partners, index);
    }
  }
}
