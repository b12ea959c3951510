/**
 * Publishing a BSN edit session: when is the transaction built from its changes
 * accepted, and when does it leave the account as the session shows it?
 */
module BsnPublish {
  import opened Prelude
  import opened Dicts
  import opened Tags
  import opened Bsn
  import opened BsnDiff
  import opened ManageData
  import opened Utf8
  import Decimal

  // The account after the session's transaction; None when the network refuses it.
  function Sent(account: Entries, room: nat, s: Session): Option<Account>
    requires s.rows.Valid() && ChangesOf(s).Valid()
  {
    Submit(Account(account.at, room), Plan(ChangesOf(s)))
  }

  /** The transaction is accepted, and the account then has exactly the session's live rows. */
  ghost predicate Publishes(account: Entries, room: nat, s: Session)
    requires s.rows.Valid() && ChangesOf(s).Valid()
  {
    Sent(account, room, s).Some? && ShowsExactly(Sent(account, room, s).value.data, s)
  }

  predicate RemovedAreThere(account: Entries, s: Session) {
    forall t | t in s.rows.at && s.rows.at[t].action == Removed :: Print(t) in account.at
  }

  predicate NamesFit(s: Session) {
    forall t | t in s.rows.at && s.rows.at[t].action != Keep :: IsEntryName(Print(t))
  }

  predicate IsWritten(row: Row) {
    row.action == Added || row.action == Changed
  }

  predicate ValuesFit(s: Session) {
    forall t | t in s.rows.at && IsWritten(s.rows.at[t]) :: ByteLength(s.rows.at[t].value) <= MAX_BYTES
  }

  // The changes make one transaction, and the reserve allows the new entries in turn.
  predicate SizeFits(account: Entries, room: nat, s: Session)
    requires s.rows.Valid() && ChangesOf(s).Valid()
  {
    var changes := ChangesOf(s);
    0 < |changes.order| <= MAX_OPERATIONS && ReserveAllows(account.at, changes, |changes.order|, room)
  }

  predicate MayPublish(account: Entries, room: nat, s: Session)
    requires s.rows.Valid() && ChangesOf(s).Valid()
  {
    && NoZeroClash(s) && RemovedAreThere(account, s) && NamesFit(s) && ValuesFit(s)
    && SizeFits(account, room, s)
  }

  // ------------------------------------------------------- reading off the changes

  lemma {:induction false} DiffIsValid(rows: Dict<Tag, Row>, n: nat)
    requires rows.Valid() && n <= |rows.order|
    ensures DiffOf(rows, n).Valid()
  {
    if n == 0 {
    } else {
      DiffIsValid(rows, n - 1);
    }
  }

  predicate MakesChange(row: Row, change: Option<string>) {
    row.action != Keep && change == if row.action == Removed then None else Some(row.value)
  }

  // A name in the changes comes from a changed row; a deletion from a removed one.
  lemma {:induction false} ChangeNamesRow(rows: Dict<Tag, Row>, n: nat, name: string)
    requires rows.Valid() && n <= |rows.order| && name in DiffOf(rows, n).at
    ensures exists t :: t in rows.at && Print(t) == name && MakesChange(rows.at[t], DiffOf(rows, n).at[name])
  {
    var t := rows.order[n - 1];
    assert t in rows.order;
    if rows.at[t].action == Keep || Print(t) != name {
      ChangeNamesRow(rows, n - 1, name);
    }
  }

  lemma {:induction false} ChangedRowIsNamed(rows: Dict<Tag, Row>, n: nat, i: nat)
    requires rows.Valid() && i < n <= |rows.order| && rows.at[rows.order[i]].action != Keep
    ensures Print(rows.order[i]) in DiffOf(rows, n).at
  {
    if i < n - 1 {
      ChangedRowIsNamed(rows, n - 1, i);
    }
  }

  // A removed row whose name the account does not have stands in the changes as a deletion.
  lemma RemovedIsDeleted(known: seq<string>, account: Entries, s: Session, t: Tag)
    requires Tracks(known, account, s) && t in s.rows.at && s.rows.at[t].action == Removed
    requires Print(t) !in account.at
    ensures Print(t) in ChangesOf(s).at && ChangesOf(s).at[Print(t)] == None
  {
    assert RowMatches(account, t, s.rows.at[t]);
    var i := LastOfItsName(known, account, s, t);
    LastChangeDecides(s.rows, |s.rows.order|, i);
  }

  // A written row stands in the changes with its value.
  lemma WrittenIsWritten(known: seq<string>, account: Entries, s: Session, t: Tag)
    requires Tracks(known, account, s) && t in s.rows.at && IsWritten(s.rows.at[t])
    ensures Print(t) in ChangesOf(s).at && ChangesOf(s).at[Print(t)] == Some(s.rows.at[t].value)
  {
    assert RowMatches(account, t, s.rows.at[t]);
    var i := LastOfItsName(known, account, s, t);
    LastChangeDecides(s.rows, |s.rows.order|, i);
  }

  lemma ChangesFitIff(known: seq<string>, account: Entries, s: Session)
    requires Tracks(known, account, s) && ChangesOf(s).Valid()
    ensures AllFit(account.at, ChangesOf(s).at) <==> RemovedAreThere(account, s) && NamesFit(s) && ValuesFit(s)
  {
    var changes := ChangesOf(s);
    if RemovedAreThere(account, s) && NamesFit(s) && ValuesFit(s) {
      forall name | name in changes.at
        ensures Fits(account.at, name, changes.at[name])
      {
        ChangeNamesRow(s.rows, |s.rows.order|, name);
      }
    }
    if AllFit(account.at, changes.at) {
      FittingNames(s);
      FittingRows(known, account, s);
    }
  }

  lemma FittingRows(known: seq<string>, account: Entries, s: Session)
    requires Tracks(known, account, s) && AllFit(account.at, ChangesOf(s).at)
    ensures RemovedAreThere(account, s) && ValuesFit(s)
  {
    forall t | t in s.rows.at && s.rows.at[t].action == Removed
      ensures Print(t) in account.at
    {
      if Print(t) !in account.at {
        RemovedIsDeleted(known, account, s, t);
      }
    }
    forall t | t in s.rows.at && IsWritten(s.rows.at[t])
      ensures ByteLength(s.rows.at[t].value) <= MAX_BYTES
    {
      WrittenIsWritten(known, account, s, t);
    }
  }

  lemma FittingNames(s: Session)
    requires s.rows.Valid() && forall name | name in ChangesOf(s).at :: IsEntryName(name)
    ensures NamesFit(s)
  {
    forall t | t in s.rows.at && s.rows.at[t].action != Keep
      ensures IsEntryName(Print(t))
    {
      assert t in s.rows.order;
      var i :| 0 <= i < |s.rows.order| && s.rows.order[i] == t;
      ChangedRowIsNamed(s.rows, |s.rows.order|, i);
    }
  }

  lemma EditedFits(known: seq<string>, account: Entries, edits: seq<Edit>)
    requires account.Valid() && Start(known, account).Some?
    ensures var s := Edited(known, Start(known, account).value, edits);
      Consistent(known, s) && ChangesOf(s).Valid()
  {
    var start := Start(known, account).value;
    StartIsConsistent(known, account);
    EditedIsConsistent(known, start, edits);
    var s := Edited(known, start, edits);
    DiffIsValid(s.rows, |s.rows.order|);
  }

  lemma SentIff(account: Entries, room: nat, s: Session)
    requires s.rows.Valid() && ChangesOf(s).Valid()
    ensures Sent(account, room, s).Some? <==> AllFit(account.at, ChangesOf(s).at) && SizeFits(account, room, s)
    ensures Sent(account, room, s).Some? ==> Sent(account, room, s).value.data == Published(account, s)
  {
    SubmitIff(Account(account.at, room), ChangesOf(s));
  }

  lemma CanonicalPublishesIff(known: seq<string>, account: Entries, room: nat, s: Session)
    requires Tracks(known, account, s) && AllCanonical(known, account) && ChangesOf(s).Valid()
    ensures Publishes(account, room, s) <==> MayPublish(account, room, s)
  {
    SentIff(account, room, s);
    ChangesFitIff(known, account, s);
    FaithfulIffNoClash(known, account, s);
  }

  lemma OddNeverPublishes(known: seq<string>, account: Entries, room: nat, s: Session)
    requires Consistent(known, s) && !AllCanonical(known, account) && ChangesOf(s).Valid()
    ensures !Publishes(account, room, s)
  {
    var name :| name in account.at && !Canonical(known, name);
    SentIff(account, room, s);
    OddNameIsStuck(known, account, s, name);
  }

  /** After any edits of any account that loads, the built transaction is accepted
      and leaves exactly the session's live rows, if and only if: every entry's
      name prints back to itself; no live unnumbered row is shadowed by a number
      0; every removed row's name is on the account; every changed row's name is
      printable ASCII of at most 64 bytes; every written value has at most 64
      bytes, which are fewer characters outside ASCII; and the changes make one transaction of at most 100
      operations that the reserve allows. */
  lemma PublishesIff(known: seq<string>, account: Entries, room: nat, edits: seq<Edit>)
    requires account.Valid() && Start(known, account).Some?
    ensures var s := Edited(known, Start(known, account).value, edits);
      && s.rows.Valid() && ChangesOf(s).Valid()
      && (Publishes(account, room, s) <==> AllCanonical(known, account) && MayPublish(account, room, s))
  {
    var start := Start(known, account).value;
    EditedFits(known, account, edits);
    if AllCanonical(known, account) {
      StartTracks(known, account);
      EditedTracks(known, account, start, edits);
      CanonicalPublishesIff(known, account, room, Edited(known, start, edits));
    } else {
      OddNeverPublishes(known, account, room, Edited(known, start, edits));
    }
  }

  // ---------------------------------------------------------- ordinary sessions

  predicate NamesZero(known: seq<string>, edit: Edit) {
    ParseTag(known, edit.name).Ok? && ParseTag(known, edit.name).value.num == Some(0)
  }

  predicate NoneNamesZero(known: seq<string>, edits: seq<Edit>) {
    forall edit | edit in edits :: !NamesZero(known, edit)
  }

  ghost predicate HasNoZero(s: Session) {
    forall t | t in s.rows.at :: t.num != Some(0)
  }

  lemma {:induction false} NoZeroRows(known: seq<string>, s: Session, edits: seq<Edit>)
    requires Consistent(known, s) && HasNoZero(s) && NoneNamesZero(known, edits)
    ensures HasNoZero(Edited(known, s, edits))
  {
    if edits == [] {
    } else {
      var front, edit := edits[..|edits| - 1], edits[|edits| - 1];
      assert edit in edits && !NamesZero(known, edit);
      NoZeroRows(known, s, front);
      EditedIsConsistent(known, s, front);
      var before := Edited(known, s, front);
      if edit.Add? && MakeTag(known, before, edit.name).Ok? {
        NextFreeIsLeast(NumbersOf(before.numbers, ParseTag(known, edit.name).value.key), 1);
      }
    }
  }

  // A set whose every element is the image of another's element is no larger.
  lemma {:induction false} CoveredIsNoLarger<A, B>(f: A -> B, s: set<A>, images: set<B>)
    requires forall b | b in images :: exists a :: a in s && f(a) == b
    ensures |images| <= |s|
  {
    if s == {} {
      assert images == {};
    } else {
      var a :| a in s;
      CoveredIsNoLarger(f, s - {a}, images - {f(a)});
      assert |images - {f(a)}| >= |images| - 1;
    }
  }

  lemma {:induction false} Below(k: nat) returns (s: set<nat>)
    ensures forall m: nat :: m in s <==> 0 < m <= k
    ensures |s| == k
  {
    if k == 0 {
      s := {};
    } else {
      s := Below(k - 1);
      assert k !in s;
      s := s + {k};
    }
  }

  function NumOf(t: Tag): nat {
    if t.num.Some? then t.num.value else 0
  }

  // The number given to an unnumbered add is at most one more than there are rows.
  lemma NextFreeIsSmall(known: seq<string>, s: Session, key: string)
    requires Consistent(known, s)
    ensures NextFree(NumbersOf(s.numbers, key), 1) <= |s.rows.at| + 1
  {
    var used := NumbersOf(s.numbers, key);
    var n := NextFree(used, 1);
    NextFreeIsLeast(used, 1);
    var below := Below(n - 1);
    forall m | m in below
      ensures exists t :: t in s.rows.at.Keys && NumOf(t) == m
    {
      assert AgreesAt(s, key, m);
      assert NumOf(Tag(key, Some(m))) == m;
    }
    CoveredIsNoLarger(NumOf, s.rows.at.Keys, below);
  }

  lemma {:induction false} PrintGrows(m: nat, n: nat)
    requires m <= n
    ensures |Decimal.Print(m)| <= |Decimal.Print(n)|
  {
    if m < 10 {
      Decimal.ParsePrint(n);
    } else {
      PrintGrows(m / 10, n / 10);
    }
  }

  // Printable ASCII that fits, with a number of at most `most` if it has none.
  predicate AddedFits(known: seq<string>, name: string, most: nat) {
    var parsed := ParseTag(known, name);
    parsed.Ok? ==>
      if parsed.value.num.Some? then IsEntryName(Print(parsed.value))
      else IsPlainAscii(parsed.value.key) && |parsed.value.key| + |Decimal.Print(most)| <= MAX_BYTES
  }

  predicate IsEntryOf(account: Entries, name: string) {
    name in account.at && IsEntryName(name)
  }

  // The edit asks for nothing that the transaction could not carry: a deletion
  // names an entry of the account, an added name and value fit.
  predicate EditFits(known: seq<string>, account: Entries, edit: Edit, most: nat) {
    match edit
    case Add(name, value) => AddedFits(known, name, most) && ByteLength(value) <= MAX_BYTES
    case Delete(name) => ParseTag(known, name).Ok? ==> IsEntryOf(account, Print(ParseTag(known, name).value))
  }

  ghost predicate RowFits(account: Entries, t: Tag, row: Row) {
    && (row.action == Removed ==> Print(t) in account.at)
    && (row.action != Keep ==> IsEntryName(Print(t)))
    && (IsWritten(row) ==> ByteLength(row.value) <= MAX_BYTES)
  }

  ghost predicate RowsFit(account: Entries, s: Session) {
    forall t | t in s.rows.at :: RowFits(account, t, s.rows.at[t])
  }

  ghost function ChangedTags(s: Session): set<Tag> {
    set t | t in s.rows.at && s.rows.at[t].action != Keep
  }

  lemma {:induction false} DigitsArePlain(n: nat)
    ensures IsPlainAscii(Decimal.Print(n))
  {
    if n < 10 {
      assert IsPlainAscii(Decimal.Print(n)[..0]);
    } else {
      DigitsArePlain(n / 10);
      assert Decimal.Print(n)[..|Decimal.Print(n)| - 1] == Decimal.Print(n / 10);
    }
  }

  lemma PrintedIsPlain(key: string, n: nat)
    requires IsPlainAscii(key) && key != [] && |key| + |Decimal.Print(n)| <= MAX_BYTES
    ensures IsEntryName(key) && IsEntryName(key + Decimal.Print(n))
  {
    var digits := Decimal.Print(n);
    DigitsArePlain(n);
    PlainAsciiConcat(key, digits);
    PlainAsciiBytes(key);
    PlainAsciiBytes(key + digits);
  }

  lemma AddedNameFits(known: seq<string>, s: Session, name: string, most: nat)
    requires Consistent(known, s) && |s.rows.at| < most
    requires AddedFits(known, name, most) && MakeTag(known, s, name).Ok?
    ensures IsEntryName(Print(MakeTag(known, s, name).value))
  {
    var t := ParseTag(known, name).value;
    ParsedIsWellFormed(known, name);
    if t.num.None? {
      var n := NextFree(NumbersOf(s.numbers, t.key), 1);
      NextFreeIsSmall(known, s, t.key);
      PrintGrows(n, most);
      PrintedIsPlain(t.key, n);
      NextFreeIsLeast(NumbersOf(s.numbers, t.key), 1);
    }
  }

  // The tag that an edit touches.
  function Touched(known: seq<string>, s: Session, edit: Edit): set<Tag> {
    var tag := if edit.Add? then MakeTag(known, s, edit.name) else ParseTag(known, edit.name);
    if tag.Ok? then {tag.value} else {}
  }

  lemma ApplyTouches(known: seq<string>, s: Session, edit: Edit)
    ensures var after := Apply(known, s, edit).session;
      && after.rows.at.Keys <= s.rows.at.Keys + Touched(known, s, edit)
      && ChangedTags(after) <= ChangedTags(s) + Touched(known, s, edit)
  {
  }

  lemma PutFits(account: Entries, rows: Dict<Tag, Row>, t: Tag, row: Row)
    requires RowsFit(account, Session(rows, map[])) && RowFits(account, t, row)
    ensures RowsFit(account, Session(rows.Put(t, row), map[]))
  {
  }

  lemma SameRowsFit(account: Entries, s: Session, rows: Dict<Tag, Row>)
    requires s.rows == rows
    ensures RowsFit(account, s) <==> RowsFit(account, Session(rows, map[]))
  {
  }

  lemma AddFits(known: seq<string>, account: Entries, s: Session, name: string, value: string, most: nat)
    requires Consistent(known, s) && RowsFit(account, s) && |s.rows.at| < most
    requires AddedFits(known, name, most) && ByteLength(value) <= MAX_BYTES
    ensures RowsFit(account, AddRow(known, s, name, value).session)
  {
    if MakeTag(known, s, name).Ok? {
      var t := MakeTag(known, s, name).value;
      var after := AddRow(known, s, name, value).session;
      AddedNameFits(known, s, name, most);
      SameRowsFit(account, s, s.rows);
      PutFits(account, s.rows, t, after.rows.at[t]);
      SameRowsFit(account, after, s.rows.Put(t, after.rows.at[t]));
    }
  }

  lemma DeleteFits(known: seq<string>, account: Entries, s: Session, name: string)
    requires RowsFit(account, s)
    requires ParseTag(known, name).Ok? ==> IsEntryOf(account, Print(ParseTag(known, name).value))
    ensures RowsFit(account, DeleteRow(known, s, name).session)
  {
    if ParseTag(known, name).Ok? && ParseTag(known, name).value in s.rows.at {
      var t := ParseTag(known, name).value;
      var after := DeleteRow(known, s, name).session;
      SameRowsFit(account, s, s.rows);
      PutFits(account, s.rows, t, s.rows.at[t].(action := Removed));
      SameRowsFit(account, after, s.rows.Put(t, s.rows.at[t].(action := Removed)));
    }
  }

  lemma ApplyFits(known: seq<string>, account: Entries, s: Session, edit: Edit, most: nat)
    requires Consistent(known, s) && RowsFit(account, s) && |s.rows.at| < most
    requires EditFits(known, account, edit, most)
    ensures RowsFit(account, Apply(known, s, edit).session)
  {
    match edit
    case Add(name, value) => AddFits(known, account, s, name, value, most);
    case Delete(name) => DeleteFits(known, account, s, name);
  }

  predicate AllEditsFit(known: seq<string>, account: Entries, edits: seq<Edit>, most: nat) {
    forall edit | edit in edits :: EditFits(known, account, edit, most)
  }

  lemma GrowsByOne<T>(after: set<T>, before: set<T>, touched: set<T>)
    requires after <= before + touched && |touched| <= 1
    ensures |after| <= |before| + 1
  {
    SubsetIsNoLarger(after, before + touched);
    assert |before + touched| <= |before| + |touched| by {
      assert before + touched == before + (touched - before);
      SubsetIsNoLarger(touched - before, touched);
    }
  }

  lemma TouchedIsOne(known: seq<string>, s: Session, edit: Edit)
    ensures |Touched(known, s, edit)| <= 1
  {
  }

  lemma {:induction false} EditedRowsFit(known: seq<string>, account: Entries, s: Session, edits: seq<Edit>, most: nat)
    requires Consistent(known, s) && RowsFit(account, s) && |s.rows.at| + |edits| <= most
    requires AllEditsFit(known, account, edits, most)
    ensures RowsFit(account, Edited(known, s, edits))
    ensures |Edited(known, s, edits).rows.at| <= |s.rows.at| + |edits|
    ensures |ChangedTags(Edited(known, s, edits))| <= |ChangedTags(s)| + |edits|
  {
    if edits == [] {
    } else {
      var front, edit := edits[..|edits| - 1], edits[|edits| - 1];
      EditedRowsFit(known, account, s, front, most);
      EditedIsConsistent(known, s, front);
      var before := Edited(known, s, front);
      ApplyFits(known, account, before, edit, most);
      ApplyTouches(known, before, edit);
      TouchedIsOne(known, before, edit);
      var after := Apply(known, before, edit).session;
      GrowsByOne(after.rows.at.Keys, before.rows.at.Keys, Touched(known, before, edit));
      GrowsByOne(ChangedTags(after), ChangedTags(before), Touched(known, before, edit));
    }
  }

  lemma ChangesAreFew(s: Session)
    requires s.rows.Valid() && ChangesOf(s).Valid()
    ensures |ChangesOf(s).order| <= |ChangedTags(s)|
  {
    forall name | name in ChangesOf(s).at
      ensures exists t :: t in ChangedTags(s) && Print(t) == name
    {
      ChangeNamesRow(s.rows, |s.rows.order|, name);
      var t :| t in s.rows.at && Print(t) == name && MakesChange(s.rows.at[t], ChangesOf(s).at[name]);
      assert t in ChangedTags(s);
    }
    CoveredIsNoLarger(Print, ChangedTags(s), ChangesOf(s).at.Keys);
    OrderSize(ChangesOf(s));
  }

  lemma {:induction false} FewFitReserve(data: map<string, string>, changes: Changes, n: nat, room: nat)
    requires changes.Valid() && n <= |changes.order| && n <= room
    ensures ReserveAllows(data, changes, n, room) && Opened(data, changes, n) <= n
  {
    if n == 0 {
    } else {
      FewFitReserve(data, changes, n - 1, room);
    }
  }

  lemma {:induction false} LoadIsSmall(rows: seq<(Tag, string)>)
    ensures |Load(rows).rows.at| <= |rows|
  {
    if rows == [] {
    } else {
      LoadIsSmall(rows[..|rows| - 1]);
      var before := Load(rows[..|rows| - 1]).rows.at;
      GrowsByOne(Load(rows).rows.at.Keys, before.Keys, {rows[|rows| - 1].0});
    }
  }

  // How a session starts out.
  ghost predicate IsFresh(known: seq<string>, account: Entries, start: Session) {
    && Consistent(known, start) && HasNoZero(start)
    && ChangedTags(start) == {} && |start.rows.at| <= |account.order|
  }

  lemma StartIsFresh(known: seq<string>, account: Entries, start: Session)
    requires account.Valid() && Start(known, account) == Some(start) && AllCanonical(known, account)
    ensures IsFresh(known, account, start)
  {
    var rows := RowsOf(known, account, |account.order|).value;
    StartTracks(known, account);
    RowsOfAreWellFormed(known, account, |account.order|);
    LoadIsConsistent(known, rows);
    LoadIsSmall(rows);
  }

  lemma FreshRowsFit(known: seq<string>, account: Entries, start: Session)
    requires IsFresh(known, account, start)
    ensures RowsFit(account, start)
  {
    forall t | t in start.rows.at
      ensures RowFits(account, t, start.rows.at[t])
    {
      assert t !in ChangedTags(start);
    }
  }

  ghost predicate HasChange(s: Session) {
    exists t :: t in s.rows.at && s.rows.at[t].action != Keep
  }

  lemma OrdinaryMayPublish(account: Entries, room: nat, s: Session, edits: nat)
    requires s.rows.Valid() && ChangesOf(s).Valid()
    requires IsOrdinary(account, s, edits) && HasChange(s)
    requires edits <= MAX_OPERATIONS && edits <= room
    ensures MayPublish(account, room, s)
  {
    ChangesAreFew(s);
    FewFitReserve(account.at, ChangesOf(s), |ChangesOf(s).order|, room);
    var t :| t in s.rows.at && s.rows.at[t].action != Keep;
    assert t in s.rows.order;
    var i :| 0 <= i < |s.rows.order| && s.rows.order[i] == t;
    ChangedRowIsNamed(s.rows, |s.rows.order|, i);
  }

  /** For an account whose names all print back, a session always publishes what
      it shows if it has a change to publish, at most 100 edits, none of which
      writes a number 0, deletes a name the account does not have, adds a name that
      is not printable ASCII or grows over 64 bytes, or writes a value of more than
      64 bytes, and the reserve allows as many entries. */
  lemma OrdinaryEditsPublish(known: seq<string>, account: Entries, room: nat, start: Session, edits: seq<Edit>)
    requires account.Valid() && Start(known, account) == Some(start) && AllCanonical(known, account)
    requires AllEditsFit(known, account, edits, |account.order| + |edits|) && NoneNamesZero(known, edits)
    requires |edits| <= MAX_OPERATIONS && |edits| <= room && HasChange(Edited(known, start, edits))
    ensures var s := Edited(known, start, edits);
      s.rows.Valid() && ChangesOf(s).Valid() && Publishes(account, room, s)
  {
    StartIsFresh(known, account, start);
    FreshEditsMayPublish(known, account, room, start, edits, |account.order| + |edits|);
    MayPublishSuffices(known, account, room, start, edits);
  }

  lemma MayPublishSuffices(known: seq<string>, account: Entries, room: nat, start: Session, edits: seq<Edit>)
    requires account.Valid() && Start(known, account) == Some(start) && AllCanonical(known, account)
    requires Edited(known, start, edits).rows.Valid() && ChangesOf(Edited(known, start, edits)).Valid()
    requires MayPublish(account, room, Edited(known, start, edits))
    ensures Publishes(account, room, Edited(known, start, edits))
  {
    PublishesIff(known, account, room, edits);
  }

  lemma FreshEditsMayPublish(known: seq<string>, account: Entries, room: nat, start: Session, edits: seq<Edit>,
                             most: nat)
    requires IsFresh(known, account, start) && NoneNamesZero(known, edits)
    requires AllEditsFit(known, account, edits, most) && most == |account.order| + |edits|
    requires |edits| <= MAX_OPERATIONS && |edits| <= room && HasChange(Edited(known, start, edits))
    ensures Edited(known, start, edits).rows.Valid() && ChangesOf(Edited(known, start, edits)).Valid()
    ensures MayPublish(account, room, Edited(known, start, edits))
  {
    EditedIsConsistent(known, start, edits);
    DiffIsValid(Edited(known, start, edits).rows, |Edited(known, start, edits).rows.order|);
    EditsStayOrdinary(known, account, start, edits, most);
    OrdinaryMayPublish(account, room, Edited(known, start, edits), |edits|);
  }

  // What is known of a session after ordinary edits.
  ghost predicate IsOrdinary(account: Entries, s: Session, edits: nat) {
    RowsFit(account, s) && HasNoZero(s) && |ChangedTags(s)| <= edits
  }

  lemma EditsStayOrdinary(known: seq<string>, account: Entries, start: Session, edits: seq<Edit>, most: nat)
    requires IsFresh(known, account, start) && NoneNamesZero(known, edits)
    requires AllEditsFit(known, account, edits, most) && most == |account.order| + |edits|
    ensures IsOrdinary(account, Edited(known, start, edits), |edits|)
  {
    FreshRowsFit(known, account, start);
    EditedRowsFit(known, account, start, edits, most);
    NoZeroRows(known, start, edits);
  }

  // ------------------------------------------------------- sessions that fail

  lemma StartOfOneEntry(known: seq<string>, key: string, value: string)
    requires WellFormed(known, Tag(key, None)) && CheckText(value).None?
    ensures var account: Entries := Dict([key], map[key := value]);
      && account.Valid()
      && Start(known, account)
         == Some(Session(Dict([Tag(key, None)], map[Tag(key, None) := Row(value, Keep, None)]), map[]))
  {
    var account: Entries := Dict([key], map[key := value]);
    var t := Tag(key, None);
    ParsePrint(known, t);
    assert Print(t) == key;
    assert RowsOf(known, account, 0) == Ok([]);
    assert account.order[0] == key && [] + [(t, value)] == [(t, value)];
    assert RowsOf(known, account, 1) == Ok([(t, value)]);
    assert [(t, value)][..0] == [];
    assert Load([(t, value)][..0]) == Session(Empty(), map[]);
    var row := Row(value, Keep, None);
    var s := Load([(t, value)]);
    assert s == Session(Empty<Tag, Row>().Put(t, row), WithNumber(map[], t));
    assert Empty<Tag, Row>().Put(t, row).order == [t];
    assert Empty<Tag, Row>().Put(t, row).at == map[t := row];
    assert Start(known, account) == Some(s);
  }

  /** The number 0 does clash: on an account with the one entry `key`, adding
      another value under `key0` overwrites that entry, while the session still
      shows the old value under the unnumbered name. */
  lemma ZeroOverwrites(known: seq<string>, room: nat, key: string, value: string, other: string)
    requires WellFormed(known, Tag(key, None)) && |key| < MAX_LENGTH && value != other
    requires CheckText(value).None? && CheckText(other).None?
    ensures var account: Entries := Dict([key], map[key := value]);
      && account.Valid() && Start(known, account).Some?
      && var s := Edited(known, Start(known, account).value, [Add(key + "0", other)]);
         && s.rows.Valid() && ChangesOf(s).Valid() && !Publishes(account, room, s)
         && IsLive(s, Tag(key, None)) && s.rows.at[Tag(key, None)].value == value
  {
    var account: Entries := Dict([key], map[key := value]);
    var t, zero := Tag(key, None), Tag(key, Some(0));
    StartOfOneEntry(known, key, value);
    var start := Start(known, account).value;
    assert "0"[..0] == [];
    assert Decimal.Parse("0") == 0;
    ParseOf(known, key, "0");
    assert ParseTag(known, key + "0") == Ok(zero);
    var edits := [Add(key + "0", other)];
    OneEdit(known, start, edits[0]);
    var s := Edited(known, start, edits);
    assert s.rows == start.rows.Put(zero, Row(other, Added, None));
    PublishesIff(known, account, room, edits);
    assert t in s.rows.at && !NoZeroClash(s);
  }

  lemma OneEdit(known: seq<string>, s: Session, edit: Edit)
    ensures Edited(known, s, [edit]) == Apply(known, s, edit).session
  {
    assert [edit][..0] == [];
  }

  lemma TwoEdits(known: seq<string>, s: Session, first: Edit, second: Edit)
    ensures Edited(known, s, [first, second]) == Apply(known, Apply(known, s, first).session, second).session
  {
    assert [first, second][..1] == [first];
    OneEdit(known, s, first);
  }

  const NO_ENTRIES: Entries := Dict([], map[])

  lemma EmptyStart(known: seq<string>)
    ensures NO_ENTRIES.Valid() && Start(known, NO_ENTRIES) == Some(Session(Empty(), map[]))
  {
    assert RowsOf(known, NO_ENTRIES, 0) == Ok([]);
  }

  lemma FirstAdd(known: seq<string>, key: string, value: string)
    requires WellFormed(known, Tag(key, None)) && CheckText(key).None? && CheckText(value).None?
    ensures var s := Apply(known, Session(Empty(), map[]), Add(key, value)).session;
      var t := Tag(key, Some(1));
      s.rows == Empty<Tag, Row>().Put(t, Row(value, Added, None)) && s.numbers == map[key := {1}]
  {
    var empty := Session(Empty(), map[]);
    ParsePrint(known, Tag(key, None));
    assert Print(Tag(key, None)) == key;
    assert NextFree({}, 1) == 1;
    assert NumbersOf(empty.numbers, key) + {1} == {1};
    assert MakeTag(known, empty, key) == Ok(Tag(key, Some(1)));
  }

  lemma FirstNumberParses(known: seq<string>, key: string)
    requires WellFormed(known, Tag(key, None))
    ensures ParseTag(known, key + "1") == Ok(Tag(key, Some(1)))
  {
    assert "1"[..0] == [];
    assert Decimal.Parse("1") == 1;
    ParseOf(known, key, "1");
  }

  /** A row added and deleted again in one session stays among the changes as a
      deletion of an entry the account never had: the transaction is refused. */
  lemma AddedThenDeletedIsRefused(known: seq<string>, room: nat, key: string, value: string)
    requires WellFormed(known, Tag(key, None)) && |key| < MAX_LENGTH && CheckText(value).None?
    ensures Start(known, NO_ENTRIES).Some?
    ensures var s := Edited(known, Start(known, NO_ENTRIES).value, [Add(key, value), Delete(key + "1")]);
      s.rows.Valid() && ChangesOf(s).Valid() && !RemovedAreThere(NO_ENTRIES, s) && Sent(NO_ENTRIES, room, s).None?
  {
    EmptyStart(known);
    var start := Start(known, NO_ENTRIES).value;
    var t := Tag(key, Some(1));
    FirstAdd(known, key, value);
    var added := Apply(known, start, Add(key, value)).session;
    FirstNumberParses(known, key);
    TwoEdits(known, start, Add(key, value), Delete(key + "1"));
    var edits := [Add(key, value), Delete(key + "1")];
    EditedFits(known, NO_ENTRIES, edits);
    var s := Edited(known, start, edits);
    assert t in s.rows.at && s.rows.at[t].action == Removed;
    StartTracks(known, NO_ENTRIES);
    EditedTracks(known, NO_ENTRIES, start, edits);
    ChangesFitIff(known, NO_ENTRIES, s);
    SentIff(NO_ENTRIES, room, s);
  }

  // The editor takes the first line of a session on an empty account, and the
  // transaction is refused for its name or its value.
  ghost predicate TakenButRefused(known: seq<string>, room: nat, key: string, value: string) {
    var start := Session(Empty(), map[]);
    var s := Edited(known, start, [Add(key, value)]);
    && NO_ENTRIES.Valid() && Start(known, NO_ENTRIES) == Some(start)
    && Apply(known, start, Add(key, value)).error.None?
    && s.rows.Valid() && ChangesOf(s).Valid() && Sent(NO_ENTRIES, room, s).None?
  }

  lemma FirstLineIsRefused(known: seq<string>, room: nat, key: string, value: string)
    requires WellFormed(known, Tag(key, None)) && CheckText(value).None?
    requires !IsEntryName(key + "1") || ByteLength(value) > MAX_BYTES
    ensures TakenButRefused(known, room, key, value)
  {
    EmptyStart(known);
    var start := Start(known, NO_ENTRIES).value;
    var t := Tag(key, Some(1));
    FirstAdd(known, key, value);
    ParsePrint(known, Tag(key, None));
    assert Print(Tag(key, None)) == key && Print(t) == key + "1";
    OneEdit(known, start, Add(key, value));
    var edits := [Add(key, value)];
    EditedFits(known, NO_ENTRIES, edits);
    var s := Edited(known, start, edits);
    assert t in s.rows.at && s.rows.at[t] == Row(value, Added, None);
    StartTracks(known, NO_ENTRIES);
    EditedTracks(known, NO_ENTRIES, start, edits);
    ChangesFitIff(known, NO_ENTRIES, s);
    SentIff(NO_ENTRIES, room, s);
  }

  /** A key of 64 letters passes every check, but the number it is given makes its
      name too long: the transaction is refused. */
  lemma LongNameIsRefused(known: seq<string>, room: nat, key: string, value: string)
    requires WellFormed(known, Tag(key, None)) && |key| == MAX_LENGTH && CheckText(value).None?
    ensures TakenButRefused(known, room, key, value)
  {
    ByteLengthBounds(key + "1");
    FirstLineIsRefused(known, room, key, value);
  }

  /** So does a key that is not printable ASCII, such as a Cyrillic one. */
  lemma ForeignNameIsRefused(known: seq<string>, room: nat, key: string, value: string)
    requires WellFormed(known, Tag(key, None)) && !IsPlainAscii(key) && CheckText(value).None?
    ensures TakenButRefused(known, room, key, value)
  {
    PlainAsciiConcat(key, "1");
    FirstLineIsRefused(known, room, key, value);
  }

  /** The editor counts characters, the transaction bytes: a value of 33 to 64
      Cyrillic letters is taken and then refused. */
  lemma WideValueIsRefused(known: seq<string>, room: nat, key: string, value: string)
    requires WellFormed(known, Tag(key, None)) && IsCyrillic(value) && 32 < |value| <= MAX_LENGTH
    ensures TakenButRefused(known, room, key, value)
  {
    CyrillicBytes(value);
    FirstLineIsRefused(known, room, key, value);
  }
}
