/**
 * What the changes generated by a BSN edit session say: when do they, once all
 * made, turn the account's entries into what the session shows?
 */
module BsnDiff {
  import opened Prelude
  import opened Dicts
  import opened Tags
  import opened Bsn
  import opened ManageData
  import Decimal

  type Entries = Dict<string, string>

  function Start(known: seq<string>, account: Entries): Option<Session>
    requires forall name | name in account.order :: name in account.at
  {
    match RowsOf(known, account, |account.order|)
    case Ok(rows) => Some(Load(rows))
    case Err(_) => None
  }

  function ChangesOf(s: Session): Changes
    requires forall t | t in s.rows.order :: t in s.rows.at
  {
    DiffOf(s.rows, |s.rows.order|)
  }

  function Published(account: Entries, s: Session): map<string, string>
    requires forall t | t in s.rows.order :: t in s.rows.at
  {
    Publish(account.at, ChangesOf(s).at)
  }

  /** The entries show every live row under its printed name with its value, and
      have no name that is not the name of a live row. */
  ghost predicate ShowsExactly(entries: map<string, string>, s: Session) {
    && (forall t | IsLive(s, t) :: Print(t) in entries && entries[Print(t)] == s.rows.at[t].value)
    && (forall name | name in entries :: exists t :: IsLive(s, t) && Print(t) == name)
  }

  ghost predicate Faithful(account: Entries, s: Session)
    requires s.rows.Valid()
  {
    ShowsExactly(Published(account, s), s)
  }

  /** A live row without a number is not shadowed by a row of the same key with
      the number 0, which prints to the same name. */
  predicate NoZeroClash(s: Session) {
    forall t | t in s.rows.at && t.num.None? && IsLive(s, t) && Tag(t.key, Some(0)) in s.rows.at ::
      IsLive(s, Tag(t.key, Some(0))) && s.rows.at[Tag(t.key, Some(0))].value == s.rows.at[t].value
  }

  ghost predicate AllCanonical(known: seq<string>, account: Entries) {
    forall name | name in account.at :: Canonical(known, name)
  }

  // ------------------------------------------------- reading off the changes

  lemma {:induction false} DiffNamesRows(rows: Dict<Tag, Row>, n: nat, name: string)
    requires rows.Valid() && n <= |rows.order| && name in DiffOf(rows, n).at
    ensures exists i :: 0 <= i < n && rows.at[rows.order[i]].action != Keep && Print(rows.order[i]) == name
  {
    var t := rows.order[n - 1];
    if rows.at[t].action == Keep || Print(t) != name {
      DiffNamesRows(rows, n - 1, name);
    }
  }

  // The last changed row that prints to a name decides its fate.
  lemma {:induction false} LastChangeDecides(rows: Dict<Tag, Row>, n: nat, i: nat)
    requires rows.Valid() && i < n <= |rows.order| && rows.at[rows.order[i]].action != Keep
    requires forall j | i < j < n ::
      rows.at[rows.order[j]].action == Keep || Print(rows.order[j]) != Print(rows.order[i])
    ensures var row := rows.at[rows.order[i]];
      && Print(rows.order[i]) in DiffOf(rows, n).at
      && DiffOf(rows, n).at[Print(rows.order[i])] == if row.action == Removed then None else Some(row.value)
  {
    if n > i + 1 {
      LastChangeDecides(rows, n - 1, i);
    }
  }

  // ------------------------------------------- sessions over canonical names

  // Untouched rows are entries; a row without a number is an entry, untouched or removed.
  ghost predicate RowMatches(account: Entries, t: Tag, row: Row) {
    row.action == Keep || t.num.None? ==>
      && t.num != Some(0) && Print(t) in account.at
      && row.action in {Keep, Removed}
      && (row.action == Keep ==> row.value == account.at[Print(t)])
  }

  // A row without a number comes before the row of its key with number 0.
  ghost predicate ZeroComesLater(order: seq<Tag>) {
    forall i, j | 0 <= i < j < |order| && order[i].num == Some(0) :: order[j] != Tag(order[i].key, None)
  }

  ghost predicate Tracks(known: seq<string>, account: Entries, s: Session) {
    && Consistent(known, s)
    && (forall name | name in account.at :: ParseTag(known, name).Ok? && ParseTag(known, name).value in s.rows.at)
    && (forall t | t in s.rows.at :: RowMatches(account, t, s.rows.at[t]))
    && ZeroComesLater(s.rows.order)
  }

  lemma PutTracks(known: seq<string>, account: Entries, s: Session, t: Tag, row: Row, after: Session)
    requires Tracks(known, account, s) && Consistent(known, after) && after.rows == s.rows.Put(t, row)
    requires RowMatches(account, t, row) && (t in s.rows.at || t.num.Some?)
    ensures Tracks(known, account, after)
  {
  }

  lemma ApplyTracks(known: seq<string>, account: Entries, s: Session, edit: Edit)
    requires Tracks(known, account, s)
    ensures Tracks(known, account, Apply(known, s, edit).session)
  {
    ApplyKeepsIndex(known, s, edit);
    var after := Apply(known, s, edit).session;
    if after.rows != s.rows {
      match edit
      case Add(name, value) =>
        var t := MakeTag(known, s, name).value;
        PutTracks(known, account, s, t, after.rows.at[t], after);
      case Delete(name) =>
        var t := ParseTag(known, name).value;
        assert RowMatches(account, t, s.rows.at[t]);
        PutTracks(known, account, s, t, s.rows.at[t].(action := Removed), after);
    }
  }

  lemma {:induction false} EditedTracks(known: seq<string>, account: Entries, s: Session, edits: seq<Edit>)
    requires Tracks(known, account, s)
    ensures Tracks(known, account, Edited(known, s, edits))
  {
    if edits == [] {
    } else {
      EditedTracks(known, account, s, edits[..|edits| - 1]);
      ApplyTracks(known, account, Edited(known, s, edits[..|edits| - 1]), edits[|edits| - 1]);
    }
  }

  lemma {:induction false} RowsOfAreWellFormed(known: seq<string>, account: Entries, n: nat)
    requires account.Valid() && n <= |account.order| && RowsOf(known, account, n).Ok?
    ensures var rows := RowsOf(known, account, n).value;
      && |rows| == n
      && forall i | 0 <= i < n ::
           WellFormed(known, rows[i].0)
           && ParseTag(known, account.order[i]) == Ok(rows[i].0) && rows[i].1 == account.at[account.order[i]]
  {
    if n == 0 {
    } else {
      RowsOfAreWellFormed(known, account, n - 1);
      ParsedIsWellFormed(known, account.order[n - 1]);
    }
  }

  // The rows of a load: one for each tag listed, untouched, in the order of first appearance.
  lemma {:induction false} LoadedRows(rows: seq<(Tag, string)>)
    ensures forall i | 0 <= i < |rows| :: rows[i].0 in Load(rows).rows.at
    ensures forall t | t in Load(rows).rows.at ::
      exists i :: 0 <= i < |rows| && rows[i].0 == t && Load(rows).rows.at[t] == Row(rows[i].1, Keep, None)
  {
    if rows == [] {
    } else {
      var front, last := rows[..|rows| - 1], rows[|rows| - 1];
      LoadedRows(front);
      forall i | 0 <= i < |rows|
        ensures rows[i].0 in Load(rows).rows.at
      {
        assert i < |front| ==> front[i] == rows[i];
      }
      forall t | t in Load(rows).rows.at
        ensures exists i :: 0 <= i < |rows| && rows[i].0 == t && Load(rows).rows.at[t] == Row(rows[i].1, Keep, None)
      {
        if t == last.0 {
          assert rows[|rows| - 1].0 == t;
        } else {
          var i :| 0 <= i < |front| && front[i].0 == t && Load(front).rows.at[t] == Row(front[i].1, Keep, None);
          assert rows[i] == front[i];
        }
      }
    }
  }

  // Every row of a load over canonical names is one of the account's entries, untouched.
  lemma LoadedRowMatches(known: seq<string>, account: Entries, t: Tag)
    requires account.Valid() && Start(known, account).Some? && AllCanonical(known, account)
    requires t in Start(known, account).value.rows.at
    ensures var row := Start(known, account).value.rows.at[t];
      t.num != Some(0) && row.action == Keep && Print(t) in account.at && row.value == account.at[Print(t)]
  {
    var n := |account.order|;
    var rows := RowsOf(known, account, n).value;
    RowsOfAreWellFormed(known, account, n);
    LoadedRows(rows);
    var i :| 0 <= i < n && rows[i].0 == t && Load(rows).rows.at[t] == Row(rows[i].1, Keep, None);
    var name := account.order[i];
    assert name in account.at;
    assert Canonical(known, name) && Print(t) == name;
    ParsePrint(known, t);
    assert Normal(t) == t;
  }

  lemma LoadedHasRow(known: seq<string>, account: Entries, name: string)
    requires account.Valid() && Start(known, account).Some? && name in account.at
    ensures ParseTag(known, name).Ok? && ParseTag(known, name).value in Start(known, account).value.rows.at
  {
    var n := |account.order|;
    var rows := RowsOf(known, account, n).value;
    RowsOfAreWellFormed(known, account, n);
    LoadedRows(rows);
    assert name in account.order;
    var i :| 0 <= i < n && account.order[i] == name;
    assert rows[i].0 in Load(rows).rows.at;
  }

  lemma StartIsConsistent(known: seq<string>, account: Entries)
    requires account.Valid() && Start(known, account).Some?
    ensures Consistent(known, Start(known, account).value)
  {
    RowsOfAreWellFormed(known, account, |account.order|);
    LoadIsConsistent(known, RowsOf(known, account, |account.order|).value);
  }

  lemma StartTracks(known: seq<string>, account: Entries)
    requires account.Valid() && Start(known, account).Some? && AllCanonical(known, account)
    ensures Tracks(known, account, Start(known, account).value)
    ensures forall t | t in Start(known, account).value.rows.at :: t.num != Some(0)
  {
    var s := Start(known, account).value;
    StartIsConsistent(known, account);
    forall name | name in account.at
      ensures ParseTag(known, name).Ok? && ParseTag(known, name).value in s.rows.at
    {
      LoadedHasRow(known, account, name);
    }
    forall t | t in s.rows.at
      ensures t.num != Some(0) && RowMatches(account, t, s.rows.at[t])
    {
      LoadedRowMatches(known, account, t);
    }
    forall i | 0 <= i < |s.rows.order|
      ensures s.rows.order[i].num != Some(0)
    {
      assert s.rows.order[i] in s.rows.at;
    }
  }

  // ---------------------------------------------------------- the fate of a name

  // Rows printing to one name: the tag it parses to, and that key with number 0.
  lemma SameName(known: seq<string>, a: Tag, b: Tag)
    requires WellFormed(known, a) && WellFormed(known, b) && Print(a) == Print(b) && a != b
    ensures a.key == b.key && ((a.num == None && b.num == Some(0)) || (a.num == Some(0) && b.num == None))
  {
    PrintInjective(known, a, b);
  }

  // A row is the last of its name unless it has no number and number 0 is also there.
  lemma LastOfItsName(known: seq<string>, account: Entries, s: Session, t: Tag) returns (i: nat)
    requires Tracks(known, account, s) && t in s.rows.at
    requires t.num.None? ==> Tag(t.key, Some(0)) !in s.rows.at
    ensures i < |s.rows.order| && s.rows.order[i] == t
    ensures forall j | i < j < |s.rows.order| :: Print(s.rows.order[j]) != Print(t)
    ensures t.num != Some(0) ==> forall j | 0 <= j < |s.rows.order| && j != i :: Print(s.rows.order[j]) != Print(t)
  {
    var rows := s.rows;
    assert t in rows.order;
    i :| 0 <= i < |rows.order| && rows.order[i] == t;
    forall j | 0 <= j < |rows.order| && j != i && Print(rows.order[j]) == Print(t)
      ensures rows.order[j] == Tag(t.key, None) && t.num == Some(0) && j < i
    {
      assert rows.order[j] in rows.at && rows.order[j] != t;
      SameName(known, t, rows.order[j]);
    }
  }

  lemma RowDecides(known: seq<string>, account: Entries, s: Session, t: Tag)
    requires Tracks(known, account, s) && t in s.rows.at
    requires t.num.None? ==> Tag(t.key, Some(0)) !in s.rows.at
    ensures Print(t) in Published(account, s) <==> IsLive(s, t)
    ensures IsLive(s, t) ==> Published(account, s)[Print(t)] == s.rows.at[t].value
  {
    var rows := s.rows;
    var n := |rows.order|;
    var i := LastOfItsName(known, account, s, t);
    if rows.at[t].action == Keep {
      if Print(t) in DiffOf(rows, n).at {
        DiffNamesRows(rows, n, Print(t));
      }
    } else {
      LastChangeDecides(rows, n, i);
    }
  }

  // A row that decides the name of a given row: itself, or the one with number 0.
  function Decider(s: Session, t: Tag): Tag {
    if t.num.None? && Tag(t.key, Some(0)) in s.rows.at then Tag(t.key, Some(0)) else t
  }

  lemma DeciderDecides(known: seq<string>, account: Entries, s: Session, t: Tag)
    requires Tracks(known, account, s) && t in s.rows.at
    ensures var d := Decider(s, t);
      && d in s.rows.at && Print(d) == Print(t)
      && (Print(t) in Published(account, s) <==> IsLive(s, d))
      && (IsLive(s, d) ==> Published(account, s)[Print(t)] == s.rows.at[d].value)
  {
    RowDecides(known, account, s, Decider(s, t));
  }

  // Every published entry is the name of some row.
  lemma PublishedNamesRow(known: seq<string>, account: Entries, s: Session, name: string)
    requires Tracks(known, account, s) && AllCanonical(known, account) && name in Published(account, s)
    ensures exists t :: t in s.rows.at && Print(t) == name
  {
    var rows := s.rows;
    if name in DiffOf(rows, |rows.order|).at {
      DiffNamesRows(rows, |rows.order|, name);
      var i :| 0 <= i < |rows.order| && rows.at[rows.order[i]].action != Keep && Print(rows.order[i]) == name;
      assert rows.order[i] in rows.at;
    } else {
      assert Canonical(known, name);
      assert ParseTag(known, name).value in rows.at;
    }
  }

  lemma FaithfulWithoutClash(known: seq<string>, account: Entries, s: Session)
    requires Tracks(known, account, s) && AllCanonical(known, account) && NoZeroClash(s)
    ensures Faithful(account, s)
  {
    var published := Published(account, s);
    forall t | IsLive(s, t)
      ensures Print(t) in published && published[Print(t)] == s.rows.at[t].value
    {
      DeciderDecides(known, account, s, t);
    }
    forall name | name in published
      ensures exists t :: IsLive(s, t) && Print(t) == name
    {
      PublishedNamesRow(known, account, s, name);
      var t :| t in s.rows.at && Print(t) == name;
      DeciderDecides(known, account, s, t);
      assert IsLive(s, Decider(s, t)) && Print(Decider(s, t)) == name;
    }
  }

  lemma FaithfulIffNoClash(known: seq<string>, account: Entries, s: Session)
    requires Tracks(known, account, s) && AllCanonical(known, account)
    ensures Faithful(account, s) <==> NoZeroClash(s)
  {
    if NoZeroClash(s) {
      FaithfulWithoutClash(known, account, s);
    }
    if Faithful(account, s) {
      forall t | t in s.rows.at && t.num.None? && IsLive(s, t) && Tag(t.key, Some(0)) in s.rows.at
        ensures IsLive(s, Tag(t.key, Some(0))) && s.rows.at[Tag(t.key, Some(0))].value == s.rows.at[t].value
      {
        DeciderDecides(known, account, s, t);
      }
    }
  }

  /** An entry whose name does not print back survives every edit, though no row
      shows it. */
  lemma OddNameIsStuck(known: seq<string>, account: Entries, s: Session, name: string)
    requires Consistent(known, s) && name in account.at && !Canonical(known, name)
    ensures name in Published(account, s)
    ensures forall t | t in s.rows.at :: Print(t) != name
  {
    forall t | t in s.rows.at
      ensures Print(t) != name
    {
      ParsePrint(known, t);
    }
    if name in ChangesOf(s).at {
      DiffNamesRows(s.rows, |s.rows.order|, name);
    }
  }
}
