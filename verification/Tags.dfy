/**
 * BSN tags: a key and an optional number suffix, parsed from and printed to the
 * name of a data entry.  Everything here holds for any table of known spellings.
 */
module Tags {
  import opened Prelude
  import Decimal

  const MAX_LENGTH: nat := 64

  const KNOWN_TAGS: seq<string> := [
    "Name", "About", "Website", "OneFamily", "Spouse", "Guardian", "Ward", "Sympathy", "Love", "Divorce",
    "A", "B", "C", "D", "Employer", "Employee", "Contractor", "Client", "Partnership", "Collaboration",
    "OwnerMinority", "OwnerMajority", "Owner", "OwnershipFull", "OwnershipMajority", "WelcomeGuest", "FactionMember"]

  datatype Tag = Tag(key: string, num: Option<nat>)

  datatype Error = EmptyTag | LengthError | EmptyText | KeyError

  function LowerChar(c: char): char {
    if 'A' <= c <= 'Z' then (c as int + 32) as char else c
  }

  function Lower(s: string): string {
    if s == [] then [] else [LowerChar(s[0])] + Lower(s[1..])
  }

  // The known spelling of a lower-cased key; a later one wins, as in a dict.
  function Spelling(known: seq<string>, lower: string): Option<string> {
    if known == [] then None
    else if Lower(known[|known| - 1]) == lower then Some(known[|known| - 1])
    else Spelling(known[..|known| - 1], lower)
  }

  function Canon(known: seq<string>, key: string): string {
    match Spelling(known, Lower(key))
    case Some(spelt) => spelt
    case None => key
  }

  // Where the trailing digits start.
  function LetterCount(s: string): (n: nat)
    ensures n <= |s| && Decimal.AllDigits(s[n..])
  {
    if s == [] then 0
    else if Decimal.IsDigit(s[|s| - 1]) then LetterCount(s[..|s| - 1])
    else |s|
  }

  function ParseTag(known: seq<string>, raw: string): Result<Tag, Error> {
    var n := LetterCount(raw);
    if n == 0 then Err(EmptyTag)
    else if n > MAX_LENGTH then Err(LengthError)
    else Ok(Tag(Canon(known, raw[..n]), if n == |raw| then None else Some(Decimal.Parse(raw[n..]))))
  }

  // Number 0 prints like no number.
  function Print(t: Tag): string {
    t.key + if t.num.Some? && t.num.value != 0 then Decimal.Print(t.num.value) else ""
  }

  method Parse(known: seq<string>, raw: string) returns (r: Result<Tag, Error>)
    ensures r == ParseTag(known, raw)
  {
    var digits := "";
    var stopIndex := 0;
    var index := 0;
    assert raw[..|raw|] == raw;
    while index < |raw|
      invariant 0 <= index <= |raw| && stopIndex == 0
      invariant digits == raw[|raw| - index..]
      invariant LetterCount(raw) == LetterCount(raw[..|raw| - index])
    {
      var c := raw[|raw| - 1 - index];
      assert raw[..|raw| - index][..|raw| - index - 1] == raw[..|raw| - index - 1];
      if Decimal.IsDigit(c) {
        digits := [c] + digits;
      } else {
        stopIndex := |raw| - index;
        break;
      }
      index := index + 1;
    }
    var letters := raw[..stopIndex];
    if letters == "" {
      return Err(EmptyTag);
    }
    if |letters| > MAX_LENGTH {
      return Err(LengthError);
    }
    assert digits == raw[stopIndex..];
    r := Ok(Tag(Canon(known, letters), if digits != "" then Some(Decimal.Parse(digits)) else None));
  }

  // What parsing yields: a key in its known spelling that ends in no digit.
  ghost predicate WellFormed(known: seq<string>, t: Tag) {
    && 0 < |t.key| <= MAX_LENGTH
    && !Decimal.IsDigit(t.key[|t.key| - 1])
    && Canon(known, t.key) == t.key
  }

  function Normal(t: Tag): Tag {
    if t.num == Some(0) then Tag(t.key, None) else t
  }

  // The name is read as a tag that prints back to it.
  predicate Canonical(known: seq<string>, name: string) {
    ParseTag(known, name).Ok? && Print(ParseTag(known, name).value) == name
  }

  lemma {:induction false} LowerAt(s: string)
    ensures |Lower(s)| == |s|
    ensures forall i | 0 <= i < |s| :: Lower(s)[i] == LowerChar(s[i])
  {
    if s == [] {
    } else {
      LowerAt(s[1..]);
    }
  }

  lemma {:induction false} SpellingMatches(known: seq<string>, lower: string)
    ensures Spelling(known, lower).Some? ==> Lower(Spelling(known, lower).value) == lower
  {
    if known == [] {
    } else {
      SpellingMatches(known[..|known| - 1], lower);
    }
  }

  lemma CanonKeepsShape(known: seq<string>, key: string)
    requires key != [] && !Decimal.IsDigit(key[|key| - 1])
    ensures |Canon(known, key)| == |key| && !Decimal.IsDigit(Canon(known, key)[|key| - 1])
    ensures Canon(known, Canon(known, key)) == Canon(known, key)
  {
    var spelt := Canon(known, key);
    SpellingMatches(known, Lower(key));
    LowerAt(key);
    LowerAt(spelt);
    assert Lower(spelt) == Lower(key);
    assert LowerChar(spelt[|key| - 1]) == LowerChar(key[|key| - 1]);
  }

  lemma {:induction false} LettersEndInLetter(s: string)
    ensures LetterCount(s) > 0 ==> !Decimal.IsDigit(s[LetterCount(s) - 1])
  {
    if s != [] && Decimal.IsDigit(s[|s| - 1]) {
      LettersEndInLetter(s[..|s| - 1]);
    }
  }

  lemma ParsedIsWellFormed(known: seq<string>, raw: string)
    requires ParseTag(known, raw).Ok?
    ensures WellFormed(known, ParseTag(known, raw).value)
  {
    LettersEndInLetter(raw);
    CanonKeepsShape(known, raw[..LetterCount(raw)]);
  }

  lemma {:induction false} LetterCountOf(key: string, digits: string)
    requires key != [] && !Decimal.IsDigit(key[|key| - 1]) && Decimal.AllDigits(digits)
    ensures LetterCount(key + digits) == |key|
  {
    var s := key + digits;
    if digits == [] {
      assert s == key;
    } else {
      assert s[..|s| - 1] == key + digits[..|digits| - 1];
      assert s[|s| - 1] == digits[|digits| - 1];
      LetterCountOf(key, digits[..|digits| - 1]);
    }
  }

  lemma ParseOf(known: seq<string>, key: string, digits: string)
    requires 0 < |key| <= MAX_LENGTH && !Decimal.IsDigit(key[|key| - 1]) && Decimal.AllDigits(digits)
    ensures ParseTag(known, key + digits)
         == Ok(Tag(Canon(known, key), if digits == "" then None else Some(Decimal.Parse(digits))))
  {
    LetterCountOf(key, digits);
    assert (key + digits)[..|key|] == key && (key + digits)[|key|..] == digits;
  }

  /** Parsing undoes printing, up to the number 0 that printing drops. */
  lemma ParsePrint(known: seq<string>, t: Tag)
    requires WellFormed(known, t)
    ensures ParseTag(known, Print(t)) == Ok(Normal(t))
    ensures Canonical(known, Print(t))
  {
    if t.num.Some? && t.num.value != 0 {
      Decimal.ParsePrint(t.num.value);
      ParseOf(known, t.key, Decimal.Print(t.num.value));
    } else {
      ParseOf(known, t.key, "");
      assert t.key + "" == t.key;
    }
  }

  lemma PrintInjective(known: seq<string>, a: Tag, b: Tag)
    requires WellFormed(known, a) && WellFormed(known, b)
    ensures Print(a) == Print(b) <==> Normal(a) == Normal(b)
  {
    ParsePrint(known, a);
    ParsePrint(known, b);
  }

  lemma PrintedPartsIff(key: string, digits: string, letters: string)
    requires |key| == |letters| && Decimal.AllDigits(digits)
    ensures Print(Tag(key, if digits == "" then None else Some(Decimal.Parse(digits)))) == letters + digits
       <==> key == letters && (digits != "" ==> digits[0] != '0')
  {
    var printed := Print(Tag(key, if digits == "" then None else Some(Decimal.Parse(digits))));
    assert printed[..|key|] == key && (letters + digits)[..|key|] == letters;
    if digits != "" {
      var tail := if Decimal.Parse(digits) == 0 then "" else Decimal.Print(Decimal.Parse(digits));
      assert printed == key + tail;
      assert printed[|key|..] == tail && (letters + digits)[|key|..] == digits;
      if digits[0] != '0' {
        Decimal.ParseIsPositive(digits);
        Decimal.PrintParse(digits);
      } else if tail != "" {
        Decimal.PrintHasNoLeadingZero(Decimal.Parse(digits));
        assert tail != digits;
      }
    }
  }

  /** A name, split before its trailing digits, prints back to itself exactly when
      its letters are few enough and in their known spelling, and its number, if
      it has one, does not start with a zero. */
  lemma CanonicalIff(known: seq<string>, letters: string, digits: string)
    requires letters != "" && !Decimal.IsDigit(letters[|letters| - 1]) && Decimal.AllDigits(digits)
    ensures Canonical(known, letters + digits)
       <==> |letters| <= MAX_LENGTH && Canon(known, letters) == letters && (digits != "" ==> digits[0] != '0')
  {
    if |letters| <= MAX_LENGTH {
      ParseOf(known, letters, digits);
      CanonKeepsShape(known, letters);
      PrintedPartsIff(Canon(known, letters), digits, letters);
    } else {
      LetterCountOf(letters, digits);
    }
  }

  lemma {:induction false} NoLettersIff(s: string)
    ensures LetterCount(s) == 0 <==> Decimal.AllDigits(s)
  {
    if s == [] {
    } else {
      var front := s[..|s| - 1];
      NoLettersIff(front);
      assert s == front + [s[|s| - 1]];
    }
  }

  /** Which names are refused, and how: one without a letter, and one with more than
      64 characters before its trailing digits. */
  lemma ParseFailsIff(known: seq<string>, raw: string)
    ensures ParseTag(known, raw) == Err(EmptyTag) <==> Decimal.AllDigits(raw)
    ensures ParseTag(known, raw).Ok? && |raw| > 64 ==> Decimal.AllDigits(raw[64..])
    ensures |raw| <= 64 ==> (ParseTag(known, raw).Ok? <==> !Decimal.AllDigits(raw))
    ensures ParseTag(known, raw).Ok? || ParseTag(known, raw).error in {EmptyTag, LengthError}
  {
    NoLettersIff(raw);
    if LetterCount(raw) <= 64 < |raw| {
      assert forall i | 0 <= i < |raw[64..]| :: raw[64..][i] == raw[LetterCount(raw)..][64 - LetterCount(raw) + i];
    }
  }

  // The same text but for the case of ASCII letters.
  predicate SameLetters(a: string, b: string) {
    && |a| == |b|
    && forall i | 0 <= i < |a| ::
         || a[i] == b[i]
         || ('A' <= a[i] <= 'Z' && b[i] as int == a[i] as int + 32)
         || ('A' <= b[i] <= 'Z' && a[i] as int == b[i] as int + 32)
  }

  lemma LowerIsSameLetters(a: string, b: string)
    ensures Lower(a) == Lower(b) <==> SameLetters(a, b)
  {
    LowerAt(a);
    LowerAt(b);
    if Lower(a) == Lower(b) {
      forall i | 0 <= i < |a|
        ensures LowerChar(a[i]) == LowerChar(b[i])
      {
        assert Lower(a)[i] == Lower(b)[i];
      }
    }
  }

  lemma {:induction false} SpellingIsLast(known: seq<string>, i: nat, lower: string)
    requires i < |known| && Lower(known[i]) == lower
    requires forall j | i < j < |known| :: Lower(known[j]) != lower
    ensures Spelling(known, lower) == Some(known[i])
  {
    if i == |known| - 1 {
    } else {
      SpellingIsLast(known[..|known| - 1], i, lower);
    }
  }

  /** A name is read as the known tag it spells in any case, or else as it stands,
      with its trailing digits as the number. */
  lemma ParseIsCaseBlind(known: seq<string>, letters: string, digits: string)
    requires 0 < |letters| <= 64 && !Decimal.IsDigit(letters[|letters| - 1]) && Decimal.AllDigits(digits)
    ensures var num := if digits == "" then None else Some(Decimal.Parse(digits));
      && (forall i | 0 <= i < |known| && SameLetters(known[i], letters)
            && (forall j | i < j < |known| :: !SameLetters(known[j], letters)) ::
            ParseTag(known, letters + digits) == Ok(Tag(known[i], num)))
      && ((forall i | 0 <= i < |known| :: !SameLetters(known[i], letters)) ==>
            ParseTag(known, letters + digits) == Ok(Tag(letters, num)))
  {
    ParseOf(known, letters, digits);
    var lower := Lower(letters);
    forall i | 0 <= i < |known|
      ensures Lower(known[i]) == lower <==> SameLetters(known[i], letters)
    {
      LowerIsSameLetters(known[i], letters);
    }
    forall i | 0 <= i < |known| && SameLetters(known[i], letters)
        && (forall j | i < j < |known| :: !SameLetters(known[j], letters))
      ensures Canon(known, letters) == known[i]
    {
      SpellingIsLast(known, i, lower);
    }
    if Spelling(known, lower).Some? {
      SpellingIsKnown(known, lower);
    }
  }

  lemma {:induction false} SpellingIsKnown(known: seq<string>, lower: string)
    requires Spelling(known, lower).Some?
    ensures exists i :: 0 <= i < |known| && known[i] == Spelling(known, lower).value && Lower(known[i]) == lower
  {
    var n := |known| - 1;
    if Lower(known[n]) == lower {
    } else {
      SpellingIsKnown(known[..n], lower);
      var i :| 0 <= i < n && known[..n][i] == Spelling(known, lower).value && Lower(known[..n][i]) == lower;
      assert known[i] == known[..n][i];
    }
  }
}
