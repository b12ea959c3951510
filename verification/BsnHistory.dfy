/**
 * A BSN session as a history: what is published under a name is what the last
 * edit that named it said.
 */
module BsnHistory {
  import opened Prelude
  import opened Dicts
  import opened Tags
  import opened Bsn
  import opened BsnDiff
  import opened BsnPublish
  import opened ManageData
  import Decimal

  // The name of the entry that an edit is about.
  function NameOf(known: seq<string>, s: Session, edit: Edit): Option<string> {
    var tag := if edit.Add? then MakeTag(known, s, edit.name) else ParseTag(known, edit.name);
    if tag.Ok? then Some(Print(tag.value)) else None
  }

  // What the last edit taken that is about this entry says: a value, or None for a
  // deletion; None if there is no such edit.
  function Fate(known: seq<string>, start: Session, edits: seq<Edit>, name: string): Option<Option<string>> {
    if edits == [] then None
    else
      var front, edit := edits[..|edits| - 1], edits[|edits| - 1];
      var before := Edited(known, start, front);
      if Apply(known, before, edit).error.None? && NameOf(known, before, edit) == Some(name)
      then Some(if edit.Add? then Some(edit.value) else None)
      else Fate(known, start, front, name)
  }

  function Expected(known: seq<string>, account: Entries, start: Session, edits: seq<Edit>, name: string)
    : Option<string>
  {
    match Fate(known, start, edits, name)
    case Some(value) => value
    case None => if name in account.at then Some(account.at[name]) else None
  }

  // The value the session shows under a name.
  function LiveAt(known: seq<string>, s: Session, name: string): Option<string> {
    if Canonical(known, name) && IsLive(s, ParseTag(known, name).value)
    then Some(s.rows.at[ParseTag(known, name).value].value) else None
  }

  // Without the number 0 only one tag prints to a name.
  lemma TagOfName(known: seq<string>, t: Tag)
    requires WellFormed(known, t) && t.num != Some(0)
    ensures Canonical(known, Print(t)) && ParseTag(known, Print(t)) == Ok(t)
  {
    ParsePrint(known, t);
  }

  lemma TouchesOnly(known: seq<string>, s: Session, after: Session, t: Tag, name: string)
    requires WellFormed(known, t) && t.num != Some(0) && OthersStay(s, after, t)
    ensures Print(t) != name ==> LiveAt(known, after, name) == LiveAt(known, s, name)
    ensures Print(t) == name ==>
      LiveAt(known, after, name) == if IsLive(after, t) then Some(after.rows.at[t].value) else None
  {
    TagOfName(known, t);
    if Print(t) != name && Canonical(known, name) {
      assert ParseTag(known, name).value != t;
      assert RowStays(s, after, ParseTag(known, name).value);
    }
  }

  lemma EditSays(known: seq<string>, s: Session, edit: Edit, name: string)
    requires Consistent(known, s) && !NamesZero(known, edit)
    ensures LiveAt(known, Apply(known, s, edit).session, name)
         == if Apply(known, s, edit).error.None? && NameOf(known, s, edit) == Some(name)
            then (if edit.Add? then Some(edit.value) else None)
            else LiveAt(known, s, name)
  {
    ApplyKeepsIndex(known, s, edit);
    if Apply(known, s, edit).error.None? {
      match edit
      case Add(n, value) =>
        AddSets(known, s, n, value);
        MadeIsWellFormed(known, s, n);
        NextFreeIsLeast(NumbersOf(s.numbers, ParseTag(known, n).value.key), 1);
        TouchesOnly(known, s, AddRow(known, s, n, value).session, MakeTag(known, s, n).value, name);
      case Delete(n) =>
        DeleteRemoves(known, s, n);
        ParsedIsWellFormed(known, n);
        TouchesOnly(known, s, DeleteRow(known, s, n).session, ParseTag(known, n).value, name);
    }
  }

  lemma {:induction false} SessionSays(known: seq<string>, start: Session, edits: seq<Edit>, name: string)
    requires Consistent(known, start) && NoneNamesZero(known, edits)
    ensures LiveAt(known, Edited(known, start, edits), name)
         == match Fate(known, start, edits, name)
            case Some(value) => value
            case None => LiveAt(known, start, name)
  {
    if edits == [] {
    } else {
      var front := edits[..|edits| - 1];
      SessionSays(known, start, front, name);
      EditedIsConsistent(known, start, front);
      EditSays(known, Edited(known, start, front), edits[|edits| - 1], name);
    }
  }

  lemma ShownIsLive(known: seq<string>, entries: map<string, string>, s: Session, name: string)
    requires Consistent(known, s) && HasNoZero(s) && ShowsExactly(entries, s)
    ensures name in entries <==> LiveAt(known, s, name).Some?
    ensures name in entries ==> LiveAt(known, s, name) == Some(entries[name])
  {
    if name in entries {
      var t :| IsLive(s, t) && Print(t) == name;
      TagOfName(known, t);
    }
  }

  // A session starts out showing the account.
  lemma StartShows(known: seq<string>, account: Entries, name: string)
    requires account.Valid() && Start(known, account).Some? && AllCanonical(known, account)
    ensures LiveAt(known, Start(known, account).value, name)
         == if name in account.at then Some(account.at[name]) else None
  {
    var start := Start(known, account).value;
    StartTracks(known, account);
    if name in account.at {
      LoadedHasRow(known, account, name);
      LoadedRowMatches(known, account, ParseTag(known, name).value);
    } else if Canonical(known, name) && ParseTag(known, name).value in start.rows.at {
      LoadedRowMatches(known, account, ParseTag(known, name).value);
    }
  }

  /** For an account whose names print back and edits that never name a number 0:
      under every name the changed account has the value that the last edit about
      it gave, nothing if that edit deleted it, and what was there before if no edit
      was about it. */
  lemma PublishedIsLastEdit(known: seq<string>, account: Entries, room: nat, edits: seq<Edit>, name: string)
    requires account.Valid() && Start(known, account).Some? && AllCanonical(known, account)
    requires NoneNamesZero(known, edits)
    ensures var start := Start(known, account).value;
      var s := Edited(known, start, edits);
      var expected := Expected(known, account, start, edits, name);
      && s.rows.Valid() && ChangesOf(s).Valid()
      && (name in Published(account, s) <==> expected.Some?)
      && (name in Published(account, s) ==> Published(account, s)[name] == expected.value)
      && (Sent(account, room, s).Some? ==> Sent(account, room, s).value.data == Published(account, s))
  {
    var start := Start(known, account).value;
    var s := Edited(known, start, edits);
    EditedFits(known, account, edits);
    SessionShows(known, account, start, edits, s);
    ShownIsLive(known, Published(account, s), s, name);
    SessionSays(known, start, edits, name);
    StartShows(known, account, name);
    SentIff(account, room, s);
  }

  lemma SessionShows(known: seq<string>, account: Entries, start: Session, edits: seq<Edit>, s: Session)
    requires account.Valid() && Start(known, account) == Some(start) && AllCanonical(known, account)
    requires NoneNamesZero(known, edits) && s == Edited(known, start, edits)
    ensures Consistent(known, start) && Consistent(known, s) && HasNoZero(s)
    ensures s.rows.Valid() && ShowsExactly(Published(account, s), s)
  {
    StartIsFresh(known, account, start);
    StartTracks(known, account);
    EditedTracks(known, account, start, edits);
    NoZeroRows(known, start, edits);
    FaithfulIffNoClash(known, account, s);
  }

  /** With the number 0 the last edit may not count: deleting `key0` on an account
      with the one entry `key` is taken, is about that entry, and leaves it. */
  lemma ZeroDeleteIsLost(known: seq<string>, key: string, value: string)
    requires WellFormed(known, Tag(key, None)) && |key| < MAX_LENGTH && CheckText(value).None?
    ensures var account: Entries := Dict([key], map[key := value]);
      && account.Valid() && Start(known, account).Some?
      && var start := Start(known, account).value;
         var edit := Delete(key + "0");
         && Apply(known, start, edit).error.None? && NameOf(known, start, edit) == Some(key)
         && Edited(known, start, [edit]) == start
         && start.rows.Valid() && key in Published(account, start) && Published(account, start)[key] == value
  {
    var account: Entries := Dict([key], map[key := value]);
    StartOfOneEntry(known, key, value);
    var start := Start(known, account).value;
    assert "0"[..0] == [];
    assert Decimal.Parse("0") == 0;
    ParseOf(known, key, "0");
    OneEdit(known, start, Delete(key + "0"));
    assert Print(Tag(key, Some(0))) == key;
    assert DiffOf(start.rows, 1) == Empty();
  }
}
