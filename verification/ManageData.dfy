/**
 * The transaction built from a dictionary of data-entry changes, and what the
 * network makes of it: all its operations, or nothing.
 */
module ManageData {
  import opened Prelude
  import opened Dicts
  import opened Utf8

  const MAX_BYTES: nat := 64
  const MAX_OPERATIONS: nat := 100

  // What to write (Some) or delete (None) under each name.
  type Changes = Dict<string, Option<string>>

  datatype Operation = Operation(name: string, value: Option<string>)

  function Operations(changes: Changes, n: nat): seq<Operation>
    requires n <= |changes.order| && forall name | name in changes.order :: name in changes.at
  {
    if n == 0 then []
    else Operations(changes, n - 1) + [Operation(changes.order[n - 1], changes.at[changes.order[n - 1]])]
  }

  function Plan(changes: Changes): seq<Operation>
    requires forall name | name in changes.order :: name in changes.at
  {
    Operations(changes, |changes.order|)
  }

  method BuildManageDataTransaction(changes: Changes) returns (transaction: seq<Operation>)
    requires changes.Valid()
    ensures transaction == Plan(changes)
  {
    transaction := [];
    for i := 0 to |changes.order|
      invariant transaction == Operations(changes, i)
    {
      var name := changes.order[i];
      transaction := transaction + [Operation(name, changes.at[name])];
    }
  }

  // room: how many more entries the account's reserve allows.
  datatype Account = Account(data: map<string, string>, room: int)

  // 1 to 64 bytes of printable ASCII.
  predicate IsEntryName(name: string) {
    0 < ByteLength(name) <= MAX_BYTES && IsPlainAscii(name)
  }

  // None when the operation cannot be built or the network refuses it.
  function Perform(a: Account, op: Operation): Option<Account> {
    if !IsEntryName(op.name) then None
    else
      match op.value
      case None =>
        if op.name !in a.data then None else Some(Account(a.data - {op.name}, a.room + 1))
      case Some(value) =>
        if ByteLength(value) > MAX_BYTES then None
        else if op.name in a.data then Some(a.(data := a.data[op.name := value]))
        else if a.room <= 0 then None
        else Some(Account(a.data[op.name := value], a.room - 1))
  }

  function Run(a: Account, ops: seq<Operation>): Option<Account> {
    if ops == [] then Some(a)
    else
      match Run(a, ops[..|ops| - 1])
      case None => None
      case Some(b) => Perform(b, ops[|ops| - 1])
  }

  function Submit(a: Account, ops: seq<Operation>): Option<Account> {
    if ops == [] || |ops| > MAX_OPERATIONS then None else Run(a, ops)
  }

  // ------------------------------------------------------- what is accepted

  // The entries with the changes made.
  function Publish(data: map<string, string>, changes: map<string, Option<string>>): map<string, string> {
    map name | name in data.Keys + changes.Keys && (name in changes ==> changes[name].Some?) ::
      if name in changes then changes[name].value else data[name]
  }

  predicate Fits(data: map<string, string>, name: string, value: Option<string>) {
    && IsEntryName(name)
    && (if value.None? then name in data else ByteLength(value.value) <= MAX_BYTES)
  }

  predicate AllFit(data: map<string, string>, changes: map<string, Option<string>>) {
    forall name | name in changes :: Fits(data, name, changes[name])
  }

  predicate IsNew(data: map<string, string>, name: string, value: Option<string>) {
    value.Some? && name !in data
  }

  // How many entries the first n changes add.
  function Opened(data: map<string, string>, changes: Changes, n: nat): int
    requires n <= |changes.order| && forall name | name in changes.order :: name in changes.at
  {
    if n == 0 then 0
    else
      var name := changes.order[n - 1];
      Opened(data, changes, n - 1)
      + if changes.at[name].None? then 0 - 1 else if IsNew(data, name, changes.at[name]) then 1 else 0
  }

  // At no point of the first n changes have more entries been added than the reserve allows.
  predicate ReserveAllows(data: map<string, string>, changes: Changes, n: nat, room: int)
    requires n <= |changes.order| && forall name | name in changes.order :: name in changes.at
  {
    n == 0 || (ReserveAllows(data, changes, n - 1, room) && Opened(data, changes, n) <= room)
  }

  // The first n changes are made, at this name.
  ghost predicate MadeAt(data: map<string, string>, changes: Changes, n: nat, now: map<string, string>, name: string)
    requires n <= |changes.order| && forall x | x in changes.order :: x in changes.at
  {
    if name in changes.order[..n]
    then (name in now <==> changes.at[name].Some?) && (name in now ==> now[name] == changes.at[name].value)
    else (name in now <==> name in data) && (name in now ==> now[name] == data[name])
  }

  predicate FirstFit(data: map<string, string>, changes: Changes, n: nat)
    requires n <= |changes.order| && forall name | name in changes.order :: name in changes.at
  {
    n == 0 || (FirstFit(data, changes, n - 1) && Fits(data, changes.order[n - 1], changes.at[changes.order[n - 1]]))
  }

  lemma {:induction false} FirstFitAt(data: map<string, string>, changes: Changes, n: nat)
    requires changes.Valid() && n <= |changes.order|
    ensures FirstFit(data, changes, n)
       <==> forall i | 0 <= i < n :: Fits(data, changes.order[i], changes.at[changes.order[i]])
  {
    if n == 0 {
    } else {
      FirstFitAt(data, changes, n - 1);
    }
  }

  ghost predicate Made(data: map<string, string>, changes: Changes, n: nat, now: map<string, string>)
    requires n <= |changes.order| && forall x | x in changes.order :: x in changes.at
  {
    forall name :: MadeAt(data, changes, n, now, name)
  }

  lemma PerformMakes(data: map<string, string>, changes: Changes, n: nat, now: Account)
    requires changes.Valid() && n < |changes.order| && Made(data, changes, n, now.data)
    ensures var name := changes.order[n];
      var after := Perform(now, Operation(name, changes.at[name]));
      && (after.Some? <==> Fits(data, name, changes.at[name]) && (IsNew(data, name, changes.at[name]) ==> now.room > 0))
      && (after.Some? ==> after.value.room == now.room - (Opened(data, changes, n + 1) - Opened(data, changes, n)))
      && (after.Some? ==> Made(data, changes, n + 1, after.value.data))
  {
    var name := changes.order[n];
    assert name !in changes.order[..n];
    assert MadeAt(data, changes, n, now.data, name);
    var after := Perform(now, Operation(name, changes.at[name]));
    if after.Some? {
      var m := n + 1;
      forall x
        ensures MadeAt(data, changes, m, after.value.data, x)
      {
        assert MadeAt(data, changes, n, now.data, x);
        assert changes.order[..m] == changes.order[..n] + [name];
      }
    }
  }

  lemma {:induction false} PlanSize(changes: Changes, n: nat)
    requires n <= |changes.order| && forall name | name in changes.order :: name in changes.at
    ensures |Operations(changes, n)| == n
  {
    if n == 0 {
    } else {
      PlanSize(changes, n - 1);
    }
  }

  // Running the first n changes, one by one.
  function RunFirst(a: Account, changes: Changes, n: nat): Option<Account>
    requires n <= |changes.order| && forall name | name in changes.order :: name in changes.at
  {
    if n == 0 then Some(a)
    else
      match RunFirst(a, changes, n - 1)
      case None => None
      case Some(b) => Perform(b, Operation(changes.order[n - 1], changes.at[changes.order[n - 1]]))
  }

  lemma {:induction false} RunIsRunFirst(a: Account, changes: Changes, n: nat)
    requires n <= |changes.order| && forall name | name in changes.order :: name in changes.at
    ensures Run(a, Operations(changes, n)) == RunFirst(a, changes, n)
  {
    if n == 0 {
    } else {
      RunIsRunFirst(a, changes, n - 1);
      var front := Operations(changes, n - 1);
      assert Operations(changes, n)[..|front|] == front;
    }
  }

  // What running the first n changes comes to.
  ghost predicate ComesTo(a: Account, changes: Changes, n: nat, after: Option<Account>)
    requires changes.Valid() && n <= |changes.order|
  {
    && (after.Some? <==> FirstFit(a.data, changes, n) && ReserveAllows(a.data, changes, n, a.room))
    && (after.Some? ==> after.value.room == a.room - Opened(a.data, changes, n))
    && (after.Some? ==> Made(a.data, changes, n, after.value.data))
  }

  lemma OneMoreComesTo(a: Account, changes: Changes, n: nat, before: Option<Account>)
    requires changes.Valid() && n < |changes.order| && a.room >= 0 && ComesTo(a, changes, n, before)
    ensures var name := changes.order[n];
      ComesTo(a, changes, n + 1,
              if before.None? then None else Perform(before.value, Operation(name, changes.at[name])))
  {
    if before.Some? {
      PerformMakes(a.data, changes, n, before.value);
    }
  }

  lemma {:induction false} RunMakes(a: Account, changes: Changes, n: nat)
    requires changes.Valid() && n <= |changes.order| && a.room >= 0
    ensures ComesTo(a, changes, n, RunFirst(a, changes, n))
  {
    if n == 0 {
    } else {
      RunMakes(a, changes, n - 1);
      OneMoreComesTo(a, changes, n - 1, RunFirst(a, changes, n - 1));
    }
  }

  /** The transaction is accepted if and only if it has 1 to 100 operations, names
      are 1 to 64 bytes of printable ASCII, values at most 64 bytes of UTF-8, only entries that are there are
      deleted, and the reserve allows each new one in turn.  Then the account
      has exactly the changes made. */
  lemma SubmitIff(a: Account, changes: Changes)
    requires changes.Valid() && a.room >= 0
    ensures Submit(a, Plan(changes)).Some?
      <==> && 0 < |changes.order| <= MAX_OPERATIONS
           && AllFit(a.data, changes.at)
           && ReserveAllows(a.data, changes, |changes.order|, a.room)
    ensures Submit(a, Plan(changes)).Some? ==> Submit(a, Plan(changes)).value.data == Publish(a.data, changes.at)
  {
    var n := |changes.order|;
    PlanSize(changes, n);
    RunMakes(a, changes, n);
    RunIsRunFirst(a, changes, n);
    AllFitIsFirstFit(a.data, changes);
    if Run(a, Plan(changes)).Some? {
      MadeIsPublished(a.data, changes, Run(a, Plan(changes)).value.data);
    }
  }

  lemma AllFitIsFirstFit(data: map<string, string>, changes: Changes)
    requires changes.Valid()
    ensures AllFit(data, changes.at) <==> FirstFit(data, changes, |changes.order|)
  {
    FirstFitAt(data, changes, |changes.order|);
    assert forall name :: name in changes.at <==> name in changes.order;
  }

  lemma MadeIsPublished(data: map<string, string>, changes: Changes, now: map<string, string>)
    requires changes.Valid() && Made(data, changes, |changes.order|, now)
    ensures now == Publish(data, changes.at)
  {
    var n := |changes.order|;
    assert changes.order[..n] == changes.order;
    forall name
      ensures name in now <==> name in Publish(data, changes.at)
      ensures name in now ==> now[name] == Publish(data, changes.at)[name]
    {
      assert MadeAt(data, changes, n, now, name);
      assert name in changes.at <==> name in changes.order;
    }
  }
}
