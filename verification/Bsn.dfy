/**
 * The BSN edit session: an account's data entries under edit, the index of the
 * numbers in use for each key, and the data-entry changes that publish the edit.
 */
module Bsn {
  import opened Prelude
  import opened Dicts
  import opened Tags
  import opened ManageData
  import Decimal

  datatype Action = Keep | Added | Changed | Removed

  datatype Row = Row(value: string, action: Action, oldValue: Option<string>)

  type Numbers = map<string, set<nat>>

  datatype Session = Session(rows: Dict<Tag, Row>, numbers: Numbers)

  // A call's effect; error is the exception it raises, the session what it leaves behind.
  datatype Outcome = Outcome(session: Session, error: Option<Error>)

  // --------------------------------------------------------------- the session

  // The numbers in use; an absent key reads as the empty set.
  function NumbersOf(numbers: Numbers, key: string): set<nat> {
    if key in numbers then numbers[key] else {}
  }

  function WithNumber(numbers: Numbers, t: Tag): Numbers {
    if t.num.Some? && t.num.value != 0
    then numbers[t.key := NumbersOf(numbers, t.key) + {t.num.value}]
    else numbers
  }

  function Load(rows: seq<(Tag, string)>): Session {
    if rows == [] then Session(Empty(), map[])
    else
      var s := Load(rows[..|rows| - 1]);
      var (t, value) := rows[|rows| - 1];
      Session(s.rows.Put(t, Row(value, Keep, None)), WithNumber(s.numbers, t))
  }

  function From(used: set<nat>, n: nat): set<nat> {
    set x | x in used && x >= n
  }

  function NextFree(used: set<nat>, n: nat): nat
    decreases From(used, n)
  {
    if n in used then
      assert n in From(used, n) && n !in From(used, n + 1);
      NextFree(used, n + 1)
    else n
  }

  function MakeTag(known: seq<string>, s: Session, name: string): Result<Tag, Error> {
    match ParseTag(known, name)
    case Err(e) => Err(e)
    case Ok(t) => Ok(if t.num.None? then Tag(t.key, Some(NextFree(NumbersOf(s.numbers, t.key), 1))) else t)
  }

  function ChangeValue(row: Row, value: string): Row {
    Row(value, Changed, Some(row.value))
  }

  function AddRow(known: seq<string>, s: Session, name: string, value: string): Outcome {
    match MakeTag(known, s, name)
    case Err(e) => Outcome(s, Some(e))
    case Ok(t) =>
      var row := if t in s.rows.at then ChangeValue(s.rows.at[t], value) else Row(value, Added, None);
      Outcome(Session(s.rows.Put(t, row), WithNumber(s.numbers, t)), None)
  }

  function DeleteRow(known: seq<string>, s: Session, name: string): Outcome {
    match ParseTag(known, name)
    case Err(e) => Outcome(s, Some(e))
    case Ok(t) =>
      var rows := if t in s.rows.at then s.rows.Put(t, s.rows.at[t].(action := Removed)) else s.rows;
      if t.num.None? || t.num.value == 0 then Outcome(Session(rows, s.numbers), None)
      else
        var used := NumbersOf(s.numbers, t.key);
        if t.num.value !in used then Outcome(Session(rows, s.numbers), Some(KeyError))
        else Outcome(Session(rows, s.numbers[t.key := used - {t.num.value}]), None)
  }

  function DiffOf(rows: Dict<Tag, Row>, n: nat): Changes
    requires n <= |rows.order| && forall t | t in rows.order :: t in rows.at
  {
    if n == 0 then Empty()
    else
      var t := rows.order[n - 1];
      var row := rows.at[t];
      if row.action == Keep then DiffOf(rows, n - 1)
      else DiffOf(rows, n - 1).Put(Print(t), if row.action == Removed then None else Some(row.value))
  }

  class BsnData {
    const known: seq<string>
    var rows: Dict<Tag, Row>
    var numbers: Numbers

    ghost function State(): Session
      reads this
    {
      Session(rows, numbers)
    }

    constructor (data: seq<(Tag, string)>)
      ensures State() == Load(data)
      ensures known == KNOWN_TAGS
    {
      known := KNOWN_TAGS;
      rows, numbers := Empty(), map[];
      new;
      for i := 0 to |data|
        invariant State() == Load(data[..i])
        invariant known == KNOWN_TAGS
      {
        assert data[..i + 1][..i] == data[..i];
        var (t, value) := data[i];
        rows := rows.Put(t, Row(value, Keep, None));
        if t.num.Some? && t.num.value != 0 {
          numbers := numbers[t.key := NumbersOf(numbers, t.key) + {t.num.value}];
        }
      }
      assert data[..|data|] == data;
    }

    // The least positive number not in use for the key.
    method GetNextNum(key: string) returns (num: nat)
      ensures num == NextFree(NumbersOf(numbers, key), 1)
      ensures num > 0 && num !in NumbersOf(numbers, key)
      ensures forall n | 0 < n < num :: n in NumbersOf(numbers, key)
    {
      var used := NumbersOf(numbers, key);
      num := 1;
      while num in used
        invariant num > 0 && NextFree(used, 1) == NextFree(used, num)
        invariant forall n | 0 < n < num :: n in used
        decreases From(used, num)
      {
        assert num in From(used, num) && num !in From(used, num + 1);
        num := num + 1;
      }
    }

    method AddNewDataRow(name: string, value: string) returns (error: Option<Error>)
      modifies this
      ensures Outcome(State(), error) == AddRow(known, old(State()), name, value)
    {
      var parsed := Tags.Parse(known, name);
      if parsed.Err? {
        return Some(parsed.error);
      }
      var t := parsed.value;
      if t.num.None? {
        var num := GetNextNum(t.key);
        t := Tag(t.key, Some(num));
      }
      if t in rows.at {
        rows := rows.Put(t, ChangeValue(rows.at[t], value));
      } else {
        rows := rows.Put(t, Row(value, Added, None));
      }
      if t.num.value != 0 {
        numbers := numbers[t.key := NumbersOf(numbers, t.key) + {t.num.value}];
      }
      return None;
    }

    method DelDataRow(name: string) returns (error: Option<Error>)
      modifies this
      ensures Outcome(State(), error) == DeleteRow(known, old(State()), name)
    {
      var parsed := Tags.Parse(known, name);
      if parsed.Err? {
        return Some(parsed.error);
      }
      var t := parsed.value;
      if t in rows.at {
        rows := rows.Put(t, rows.at[t].(action := Removed));
      }
      if t.num.Some? && t.num.value != 0 {
        if t.num.value !in NumbersOf(numbers, t.key) {
          return Some(KeyError);
        }
        numbers := numbers[t.key := NumbersOf(numbers, t.key) - {t.num.value}];
      }
      return None;
    }

    method GenData() returns (data: Changes)
      requires rows.Valid()
      ensures data == DiffOf(rows, |rows.order|)
    {
      data := Empty();
      for i := 0 to |rows.order|
        invariant data == DiffOf(rows, i)
      {
        var t := rows.order[i];
        var row := rows.at[t];
        if row.action != Keep {
          if row.action == Removed {
            data := data.Put(Print(t), None);
          } else {
            data := data.Put(Print(t), Some(row.value));
          }
        }
      }
    }
  }

  // ------------------------------------------------------- the edits of a session

  // One line of the editor: a value for a tag, or its deletion.
  datatype Edit = Add(name: string, value: string) | Delete(name: string)

  function CheckText(s: string): Option<Error> {
    if |s| > MAX_LENGTH then Some(LengthError) else if s == "" then Some(EmptyText) else None
  }

  function Apply(known: seq<string>, s: Session, edit: Edit): Outcome {
    if CheckText(edit.name).Some? then Outcome(s, CheckText(edit.name))
    else
      match edit
      case Add(name, value) =>
        if CheckText(value).Some? then Outcome(s, CheckText(value)) else AddRow(known, s, name, value)
      case Delete(name) => DeleteRow(known, s, name)
  }

  // The session after the edits, failed ones included.
  function Edited(known: seq<string>, s: Session, edits: seq<Edit>): Session {
    if edits == [] then s
    else Apply(known, Edited(known, s, edits[..|edits| - 1]), edits[|edits| - 1]).session
  }

  // Rows for an account's entries; an unreadable name or value fails the whole load.
  function RowsOf(known: seq<string>, account: Dict<string, string>, n: nat): Result<seq<(Tag, string)>, Error>
    requires n <= |account.order| && forall name | name in account.order :: name in account.at
  {
    if n == 0 then Ok([])
    else
      match RowsOf(known, account, n - 1)
      case Err(e) => Err(e)
      case Ok(rows) =>
        var name := account.order[n - 1];
        match ParseTag(known, name)
        case Err(e) => Err(e)
        case Ok(t) =>
          match CheckText(account.at[name])
          case Some(e) => Err(e)
          case None => Ok(rows + [(t, account.at[name])])
  }

  // ----------------------------------------------------------- the number index

  predicate IsLive(s: Session, t: Tag) {
    t in s.rows.at && s.rows.at[t].action != Removed
  }

  /** The index of a key is the set of positive numbers of its rows that are not removed. */
  ghost predicate IndexAgrees(s: Session) {
    forall key: string, n: nat :: AgreesAt(s, key, n)
  }

  predicate AgreesAt(s: Session, key: string, n: nat) {
    n in NumbersOf(s.numbers, key) <==> n > 0 && IsLive(s, Tag(key, Some(n)))
  }

  ghost predicate Consistent(known: seq<string>, s: Session) {
    && s.rows.Valid()
    && IndexAgrees(s)
    && forall t | t in s.rows.at :: WellFormed(known, t)
  }

  lemma {:induction false} NextFreeIsLeast(used: set<nat>, n: nat)
    ensures NextFree(used, n) >= n && NextFree(used, n) !in used
    ensures forall m | n <= m < NextFree(used, n) :: m in used
    decreases From(used, n)
  {
    if n in used {
      assert n in From(used, n) && n !in From(used, n + 1);
      NextFreeIsLeast(used, n + 1);
    }
  }

  lemma MadeIsWellFormed(known: seq<string>, s: Session, name: string)
    requires MakeTag(known, s, name).Ok?
    ensures WellFormed(known, MakeTag(known, s, name).value)
  {
    ParsedIsWellFormed(known, name);
  }

  lemma PutLiveKeepsIndex(s: Session, t: Tag, row: Row)
    requires IndexAgrees(s) && row.action != Removed
    ensures IndexAgrees(Session(s.rows.Put(t, row), WithNumber(s.numbers, t)))
  {
    var after := Session(s.rows.Put(t, row), WithNumber(s.numbers, t));
    forall key: string, n: nat
      ensures AgreesAt(after, key, n)
    {
      assert AgreesAt(s, key, n);
      if Tag(key, Some(n)) == t {
        assert IsLive(after, t);
      } else {
        assert IsLive(after, Tag(key, Some(n))) <==> IsLive(s, Tag(key, Some(n)));
      }
    }
  }

  // Marking a row removed and dropping its number from the index go together.
  lemma RemoveKeepsIndex(s: Session, t: Tag)
    requires IndexAgrees(s) && t in s.rows.at
    ensures var rows := s.rows.Put(t, s.rows.at[t].(action := Removed));
      IndexAgrees(Session(rows, if t.num.None? || t.num.value == 0 then s.numbers
                                else s.numbers[t.key := NumbersOf(s.numbers, t.key) - {t.num.value}]))
  {
    var rows := s.rows.Put(t, s.rows.at[t].(action := Removed));
    var after := Session(rows, if t.num.None? || t.num.value == 0 then s.numbers
                               else s.numbers[t.key := NumbersOf(s.numbers, t.key) - {t.num.value}]);
    forall key: string, n: nat
      ensures AgreesAt(after, key, n)
    {
      assert AgreesAt(s, key, n);
      if Tag(key, Some(n)) != t {
        assert IsLive(after, Tag(key, Some(n))) <==> IsLive(s, Tag(key, Some(n)));
      }
    }
  }

  lemma AddKeepsIndex(known: seq<string>, s: Session, name: string, value: string)
    requires Consistent(known, s)
    ensures Consistent(known, AddRow(known, s, name, value).session)
    ensures AddRow(known, s, name, value).error.Some? ==> AddRow(known, s, name, value).session == s
  {
    if MakeTag(known, s, name).Ok? {
      MadeIsWellFormed(known, s, name);
      var t := MakeTag(known, s, name).value;
      PutLiveKeepsIndex(s, t, AddRow(known, s, name, value).session.rows.at[t]);
    }
  }

  /** A delete fails exactly when its number is positive and its row not live,
      and then changes nothing. */
  lemma DeleteKeepsIndex(known: seq<string>, s: Session, name: string)
    requires Consistent(known, s)
    ensures Consistent(known, DeleteRow(known, s, name).session)
    ensures DeleteRow(known, s, name).error.Some? ==> DeleteRow(known, s, name).session == s
    ensures DeleteRow(known, s, name).error == Some(KeyError)
       <==> var parsed := ParseTag(known, name);
            parsed.Ok? && parsed.value.num.Some? && parsed.value.num.value > 0 && !IsLive(s, parsed.value)
  {
    if ParseTag(known, name).Ok? {
      var t := ParseTag(known, name).value;
      ParsedIsWellFormed(known, name);
      if t.num.Some? {
        assert AgreesAt(s, t.key, t.num.value);
      }
      if t in s.rows.at {
        RemoveKeepsIndex(s, t);
        if s.rows.at[t].action == Removed {
          assert s.rows.at[t := s.rows.at[t].(action := Removed)] == s.rows.at;
        }
      }
    }
  }

  /** Every edit keeps the index in step with the rows, a failing one included:
      a failing edit changes nothing at all. */
  lemma ApplyKeepsIndex(known: seq<string>, s: Session, edit: Edit)
    requires Consistent(known, s)
    ensures Consistent(known, Apply(known, s, edit).session)
    ensures Apply(known, s, edit).error.Some? ==> Apply(known, s, edit).session == s
  {
    match edit
    case Add(name, value) => AddKeepsIndex(known, s, name, value);
    case Delete(name) => DeleteKeepsIndex(known, s, name);
  }

  /** An add without a number takes the least positive one that no live row of
      the key uses, so it never overwrites a live row. */
  lemma UnnumberedAddIsFresh(known: seq<string>, s: Session, name: string)
    requires Consistent(known, s) && ParseTag(known, name).Ok? && ParseTag(known, name).value.num.None?
    ensures var made := MakeTag(known, s, name);
      && made.Ok? && made.value.key == ParseTag(known, name).value.key
      && made.value.num.Some? && made.value.num.value > 0
      && !IsLive(s, made.value)
      && forall n: nat | 0 < n < made.value.num.value :: IsLive(s, Tag(made.value.key, Some(n)))
  {
    var key := ParseTag(known, name).value.key;
    var used := NumbersOf(s.numbers, key);
    NextFreeIsLeast(used, 1);
    forall n: nat | 0 < n <= NextFree(used, 1)
      ensures IsLive(s, Tag(key, Some(n))) <==> n < NextFree(used, 1)
    {
      assert AgreesAt(s, key, n);
    }
  }

  lemma {:induction false} LoadIsConsistent(known: seq<string>, rows: seq<(Tag, string)>)
    requires forall i | 0 <= i < |rows| :: WellFormed(known, rows[i].0)
    ensures Consistent(known, Load(rows))
    ensures forall t | t in Load(rows).rows.at :: Load(rows).rows.at[t].action == Keep
  {
    if rows == [] {
    } else {
      LoadIsConsistent(known, rows[..|rows| - 1]);
      var (t, value) := rows[|rows| - 1];
      PutLiveKeepsIndex(Load(rows[..|rows| - 1]), t, Row(value, Keep, None));
    }
  }

  lemma {:induction false} EditedIsConsistent(known: seq<string>, s: Session, edits: seq<Edit>)
    requires Consistent(known, s)
    ensures Consistent(known, Edited(known, s, edits))
  {
    if edits == [] {
    } else {
      EditedIsConsistent(known, s, edits[..|edits| - 1]);
      ApplyKeepsIndex(known, Edited(known, s, edits[..|edits| - 1]), edits[|edits| - 1]);
    }
  }

  // -------------------------------------------------------- what an edit does

  // Every row but the tag's is as before.
  ghost predicate OthersStay(before: Session, after: Session, t: Tag) {
    forall x: Tag | x != t :: RowStays(before, after, x)
  }

  predicate RowStays(before: Session, after: Session, x: Tag) {
    (x in after.rows.at <==> x in before.rows.at) && (x in before.rows.at ==> after.rows.at[x] == before.rows.at[x])
  }

  /** A delete without error leaves the tag the name parses to without a live row,
      its row, if it had one, marked removed with its value, and every other row as
      it was. */
  lemma DeleteRemoves(known: seq<string>, s: Session, name: string)
    requires DeleteRow(known, s, name).error.None?
    ensures ParseTag(known, name).Ok?
    ensures var t := ParseTag(known, name).value;
      var after := DeleteRow(known, s, name).session;
      && !IsLive(after, t) && OthersStay(s, after, t)
      && (t in after.rows.at <==> t in s.rows.at)
      && (t in s.rows.at ==> after.rows.at[t] == Row(s.rows.at[t].value, Removed, s.rows.at[t].oldValue))
  {
  }

  /** An add without error leaves the tag made of the name, which is the one it
      parses to if that has a number, live with exactly the given value, as a new
      row or as a change of the old one, and every other row as it was. */
  lemma AddSets(known: seq<string>, s: Session, name: string, value: string)
    requires AddRow(known, s, name, value).error.None?
    ensures ParseTag(known, name).Ok? && MakeTag(known, s, name).Ok?
    ensures var t := MakeTag(known, s, name).value;
      var after := AddRow(known, s, name, value).session;
      && t.key == ParseTag(known, name).value.key && t.num.Some?
      && (ParseTag(known, name).value.num.Some? ==> t == ParseTag(known, name).value)
      && IsLive(after, t) && after.rows.at[t].value == value && OthersStay(s, after, t)
      && after.rows.at[t] == if t in s.rows.at then Row(value, Changed, Some(s.rows.at[t].value))
                             else Row(value, Added, None)
  {
  }

  /** A line of the editor is taken if and only if its name has 1 to 64 characters
      that are not all digits, and: it gives a value of 1 to 64 characters, or it
      deletes and does not name a positive number without a live row. */
  lemma EditIsTakenIff(known: seq<string>, s: Session, edit: Edit)
    requires Consistent(known, s)
    ensures Apply(known, s, edit).error.None?
      <==> && 1 <= |edit.name| <= 64 && !Decimal.AllDigits(edit.name)
           && match edit
              case Add(_, value) => 1 <= |value| <= 64
              case Delete(name) =>
                ParseTag(known, name).Ok? ==>
                  var t := ParseTag(known, name).value;
                  t.num.None? || t.num.value == 0 || IsLive(s, t)
  {
    ParseFailsIff(known, edit.name);
    if edit.Delete? {
      DeleteKeepsIndex(known, s, edit.name);
    }
  }
}
