/**
 * The multi-signature planner: the target signers it chooses, the three-phase
 * diff it emits, and what running the emitted operations does to the account.
 */
module Signers {
  import opened Prelude
  import opened Dicts
  import Decimal
  import Sorting

  const SIGNER_LIMIT: nat := 21
  const MASTER_WEIGHT := 15
  const THRESHOLD := 15
  const MASTER_KEY_PREFIX := "master_key_"

  datatype Signer = Signer(key: string, weight: int)

  type SignerDict = Dict<string, int>

  // ---------------------------------------------------------------- the target

  function CountChar(s: string, c: char): nat {
    if s == [] then 0 else (if s[0] == c then 1 else 0) + CountChar(s[1..], c)
  }

  function UpTo(s: string, c: char): string {
    if s == [] || s[0] == c then [] else [s[0]] + UpTo(s[1..], c)
  }

  predicate IsMasterKeyName(name: string) {
    MASTER_KEY_PREFIX <= name && CountChar(name, '_') == 3
  }

  // The part between the second and the third underscore, as `int` reads it.
  function NamedWeight(name: string): Option<int>
    requires IsMasterKeyName(name)
  {
    Decimal.ParseInt(UpTo(name[|MASTER_KEY_PREFIX|..], '_'))
  }

  // None when some matching name carries no integer (the source's ValueError).
  function NamedSigners(data: seq<(string, string)>): Option<SignerDict> {
    if data == [] then Some(Empty())
    else
      var (name, value) := data[|data| - 1];
      match NamedSigners(data[..|data| - 1])
      case None => None
      case Some(d) =>
        if !IsMasterKeyName(name) then Some(d)
        else match NamedWeight(name)
          case None => None
          case Some(w) => Some(d.Put(value, w))
  }

  function LexLeq(a: string, b: string): bool {
    a == [] || (b != [] && (a[0] < b[0] || (a[0] == b[0] && LexLeq(a[1..], b[1..]))))
  }

  // Heavier first, and among equal weights the larger key first.
  predicate RanksBefore(a: Signer, b: Signer) {
    b.weight < a.weight || (b.weight == a.weight && LexLeq(b.key, a.key))
  }

  function Without(signers: seq<Signer>, key: string): seq<Signer> {
    if signers == [] then []
    else (if signers[0].key == key then [] else [signers[0]]) + Without(signers[1..], key)
  }

  function Candidates(issuerSigners: seq<Signer>, issuer: string): seq<Signer> {
    Without(Sorting.Sort(RanksBefore, issuerSigners), issuer)
  }

  function Fill(base: SignerDict, candidates: seq<Signer>): SignerDict {
    if candidates == [] then base
    else
      var d := Fill(base, candidates[..|candidates| - 1]);
      var key := candidates[|candidates| - 1].key;
      if |d.order| < SIGNER_LIMIT && key !in d.at then d.Put(key, 1) else d
  }

  function Base(data: seq<(string, string)>, self: string): Option<SignerDict> {
    match NamedSigners(data)
    case None => None
    case Some(d) => Some(if self in d.at then d else d.Put(self, MASTER_WEIGHT))
  }

  function Target(data: seq<(string, string)>, self: string, issuerSigners: seq<Signer>, issuer: string)
    : Option<SignerDict>
  {
    match Base(data, self)
    case None => None
    case Some(base) => Some(Fill(base, Candidates(issuerSigners, issuer)))
  }

  method SelectTarget(data: seq<(string, string)>, self: string, issuerSigners: seq<Signer>, issuer: string)
    returns (target: Option<SignerDict>)
    ensures target == Target(data, self, issuerSigners, issuer)
  {
    var candidates := Candidates(issuerSigners, issuer);
    var signers: SignerDict := Empty();
    for i := 0 to |data|
      invariant NamedSigners(data[..i]) == Some(signers)
    {
      var (name, value) := data[i];
      assert data[..i + 1][..i] == data[..i];
      if IsMasterKeyName(name) {
        match NamedWeight(name)
        case None =>
          NamedSignersFails(data, i + 1);
          return None;
        case Some(w) => signers := signers.Put(value, w);
      }
    }
    assert data[..|data|] == data;
    if self !in signers.at {
      signers := signers.Put(self, MASTER_WEIGHT);
    }
    ghost var base := signers;
    for i := 0 to |candidates|
      invariant signers == Fill(base, candidates[..i])
    {
      assert candidates[..i + 1][..i] == candidates[..i];
      if |signers.order| < SIGNER_LIMIT {
        if candidates[i].key !in signers.at {
          signers := signers.Put(candidates[i].key, 1);
        }
      }
    }
    assert candidates[..|candidates|] == candidates;
    target := Some(signers);
  }

  lemma {:induction false} NamedSignersFails(data: seq<(string, string)>, n: nat)
    requires n <= |data| && NamedSigners(data[..n]).None?
    ensures NamedSigners(data).None?
    decreases |data| - n
  {
    if n < |data| {
      assert data[..n + 1][..n] == data[..n];
      NamedSignersFails(data, n + 1);
    } else {
      assert data[..n] == data;
    }
  }

  lemma {:induction false} NamedSignersValid(data: seq<(string, string)>)
    requires NamedSigners(data).Some?
    ensures NamedSigners(data).value.Valid()
  {
    if data == [] {
    } else {
      NamedSignersValid(data[..|data| - 1]);
    }
  }

  lemma {:induction false} LexTotal(a: string, b: string)
    ensures LexLeq(a, b) || LexLeq(b, a)
  {
    if a != [] && b != [] {
      LexTotal(a[1..], b[1..]);
    }
  }

  lemma {:induction false} LexTransitive(a: string, b: string, c: string)
    requires LexLeq(a, b) && LexLeq(b, c)
    ensures LexLeq(a, c)
  {
    if a != [] && a[0] == b[0] == c[0] {
      LexTransitive(a[1..], b[1..], c[1..]);
    }
  }

  lemma RankIsTotal()
    ensures Sorting.TotalPreorder(RanksBefore)
  {
    forall a, b
      ensures RanksBefore(a, b) || RanksBefore(b, a)
    {
      LexTotal(a.key, b.key);
    }
    forall a, b, c | RanksBefore(a, b) && RanksBefore(b, c)
      ensures RanksBefore(a, c)
    {
      if a.weight == b.weight == c.weight {
        LexTransitive(c.key, b.key, a.key);
      }
    }
  }

  lemma {:induction false} WithoutExact(signers: seq<Signer>, key: string, s: Signer)
    requires Sorting.Sorted(RanksBefore, signers)
    ensures Sorting.Sorted(RanksBefore, Without(signers, key))
    ensures s in Without(signers, key) <==> s in signers && s.key != key
  {
    if signers == [] {
    } else {
      var head, tail := signers[0], signers[1..];
      assert signers == [head] + tail;
      WithoutExact(tail, key, s);
      forall j | 0 <= j < |Without(tail, key)|
        ensures RanksBefore(head, Without(tail, key)[j])
      {
        WithoutExact(tail, key, Without(tail, key)[j]);
      }
    }
  }

  // Key k was reached before any candidate that d lacks.
  ghost predicate Admits(candidates: seq<Signer>, d: SignerDict, k: string) {
    exists i :: 0 <= i < |candidates| && candidates[i].key == k && (forall j | 0 <= j < i :: candidates[j].key in d.at)
  }

  lemma {:induction false} FillKeepsBase(base: SignerDict, candidates: seq<Signer>)
    requires base.Valid()
    ensures Fill(base, candidates).Valid()
    ensures forall k | k in base.at :: k in Fill(base, candidates).at && Fill(base, candidates).at[k] == base.at[k]
    ensures forall k | k in Fill(base, candidates).at && k !in base.at :: Fill(base, candidates).at[k] == 1
    ensures |Fill(base, candidates).order| <= SIGNER_LIMIT || Fill(base, candidates).order == base.order
  {
    if candidates == [] {
    } else {
      FillKeepsBase(base, candidates[..|candidates| - 1]);
    }
  }

  // A candidate is left out only when the table is full.
  lemma {:induction false} FillIsComplete(base: SignerDict, candidates: seq<Signer>, c: Signer)
    requires base.Valid() && c in candidates
    ensures c.key in Fill(base, candidates).at || |Fill(base, candidates).order| >= SIGNER_LIMIT
  {
    var front := candidates[..|candidates| - 1];
    assert candidates == front + [candidates[|candidates| - 1]];
    if c in front {
      FillIsComplete(base, front, c);
    }
  }

  // What was added was reached before anything that was left out.
  lemma {:induction false} FillIsGreedy(base: SignerDict, candidates: seq<Signer>, k: string)
    requires base.Valid() && k in Fill(base, candidates).at && k !in base.at
    ensures Admits(candidates, Fill(base, candidates), k)
  {
    var n := |candidates| - 1;
    var front, last := candidates[..n], candidates[n];
    var before, after := Fill(base, front), Fill(base, candidates);
    if k in before.at {
      FillIsGreedy(base, front, k);
      var i :| 0 <= i < |front| && front[i].key == k && (forall j | 0 <= j < i :: front[j].key in before.at);
      assert candidates[i].key == k;
      forall j | 0 <= j < i
        ensures candidates[j].key in after.at
      {
        assert front[j].key in before.at;
      }
    } else {
      forall j | 0 <= j < n
        ensures candidates[j].key in after.at
      {
        assert front[j] in front;
        FillIsComplete(base, front, front[j]);
      }
      assert candidates[n].key == k;
    }
  }

  lemma AdmittedRanksFirst(candidates: seq<Signer>, d: SignerDict, s: Signer, k: string) returns (t: Signer)
    requires Sorting.Sorted(RanksBefore, candidates) && Admits(candidates, d, k)
    requires s in candidates && s.key !in d.at
    ensures t in candidates && t.key == k && RanksBefore(t, s)
  {
    var i :| 0 <= i < |candidates| && candidates[i].key == k && (forall j | 0 <= j < i :: candidates[j].key in d.at);
    t := candidates[i];
    var j :| 0 <= j < |candidates| && candidates[j] == s;
    if i == j {
      LexTotal(s.key, s.key);
    }
  }

  lemma CandidateIff(issuerSigners: seq<Signer>, issuer: string, s: Signer)
    ensures Sorting.Sorted(RanksBefore, Candidates(issuerSigners, issuer))
    ensures s in Candidates(issuerSigners, issuer) <==> s in issuerSigners && s.key != issuer
  {
    RankIsTotal();
    Sorting.SortSorts(RanksBefore, issuerSigners);
    Sorting.SortMembers(RanksBefore, issuerSigners, s);
    WithoutExact(Sorting.Sort(RanksBefore, issuerSigners), issuer, s);
  }

  // The issuer signer behind an added key ranks no later than one left out.
  lemma AddedRanksFirst(base: SignerDict, issuerSigners: seq<Signer>, issuer: string, s: Signer, k: string)
    returns (t: Signer)
    requires base.Valid()
    requires var d := Fill(base, Candidates(issuerSigners, issuer));
      s in issuerSigners && s.key != issuer && s.key !in d.at && k in d.at && k !in base.at
    ensures t in issuerSigners && t.key == k && t.key != issuer && RanksBefore(t, s)
  {
    var candidates := Candidates(issuerSigners, issuer);
    FillIsGreedy(base, candidates, k);
    CandidateIff(issuerSigners, issuer, s);
    t := AdmittedRanksFirst(candidates, Fill(base, candidates), s, k);
    CandidateIff(issuerSigners, issuer, t);
  }

  // Text a is not greater than b: a prefix of it, or smaller where they first differ.
  ghost predicate TextLeq(a: string, b: string) {
    a <= b || exists i :: 0 <= i < |a| && i < |b| && a[..i] == b[..i] && a[i] < b[i]
  }

  lemma {:induction false} LexIsText(a: string, b: string)
    ensures LexLeq(a, b) <==> TextLeq(a, b)
  {
    if a == [] || b == [] {
    } else if a[0] != b[0] {
      assert a[..0] == b[..0];
      assert forall i | 0 < i <= |a| && i <= |b| :: a[..i][0] == a[0] && b[..i][0] == b[0];
    } else {
      LexIsText(a[1..], b[1..]);
      TextTail(a, b);
    }
  }

  lemma TextTail(a: string, b: string)
    requires a != [] && b != [] && a[0] == b[0]
    ensures TextLeq(a, b) <==> TextLeq(a[1..], b[1..])
  {
    assert a == [a[0]] + a[1..] && b == [b[0]] + b[1..];
    if i :| 0 <= i < |a| && i < |b| && a[..i] == b[..i] && a[i] < b[i] {
      assert a[1..][..i - 1] == a[..i][1..] && b[1..][..i - 1] == b[..i][1..];
      assert a[1..][i - 1] < b[1..][i - 1];
    }
    if i :| 0 <= i < |a[1..]| && i < |b[1..]| && a[1..][..i] == b[1..][..i] && a[1..][i] < b[1..][i] {
      assert a[..i + 1] == [a[0]] + a[1..][..i] && b[..i + 1] == [b[0]] + b[1..][..i];
      assert a[i + 1] < b[i + 1];
    }
  }

  // Heavier, or as heavy with a key that is not smaller.
  ghost predicate Outranks(t: Signer, s: Signer) {
    t.weight > s.weight || (t.weight == s.weight && TextLeq(s.key, t.key))
  }

  lemma RankIsOutrank(t: Signer, s: Signer)
    ensures RanksBefore(t, s) <==> Outranks(t, s)
  {
    LexIsText(s.key, t.key);
  }

  // An issuer signer with this key, other than the issuer, that is not outranked by s.
  ghost predicate StandsBefore(issuerSigners: seq<Signer>, issuer: string, k: string, s: Signer) {
    exists t :: t in issuerSigners && t.key == k && k != issuer && Outranks(t, s)
  }

  // An issuer signer can be left out of the target only in favour of better ones.
  ghost predicate JustlyLeftOut(base: SignerDict, target: SignerDict, issuerSigners: seq<Signer>, issuer: string,
                                s: Signer) {
    && |target.order| >= 21
    && forall k | k in target.at && k !in base.at :: StandsBefore(issuerSigners, issuer, k, s)
  }

  lemma {:induction false} AddedAreCandidates(base: SignerDict, candidates: seq<Signer>, k: string)
    requires k in Fill(base, candidates).at && k !in base.at
    ensures exists c :: c in candidates && c.key == k
  {
    var front := candidates[..|candidates| - 1];
    if k in Fill(base, front).at {
      AddedAreCandidates(base, front, k);
      var c :| c in front && c.key == k;
      assert c in candidates;
    } else {
      assert candidates[|candidates| - 1] in candidates;
    }
  }

  /** The target keeps every named signer with its weight, always holds the
      account's own key, and completes the table to 21 with signers of the issuer,
      other than the issuer, at weight 1.  One is left out only when the table is
      full, and then every signer added is heavier, or as heavy with a key that is
      not smaller. */
  lemma TargetIsBestFill(data: seq<(string, string)>, self: string, issuerSigners: seq<Signer>, issuer: string)
    requires Target(data, self, issuerSigners, issuer).Some?
    ensures var base := Base(data, self).value;
      var target := Target(data, self, issuerSigners, issuer).value;
      && target.Valid()
      && self in target.at
      && (forall k | k in base.at :: k in target.at && target.at[k] == base.at[k])
      && (forall k | k in target.at && k !in base.at ::
            target.at[k] == 1 && k != issuer && exists t :: t in issuerSigners && t.key == k)
      && (|target.order| <= 21 || target.order == base.order)
      && (forall s | s in issuerSigners && s.key != issuer && s.key !in target.at ::
            JustlyLeftOut(base, target, issuerSigners, issuer, s))
  {
    NamedSignersValid(data);
    var base := Base(data, self).value;
    var candidates := Candidates(issuerSigners, issuer);
    var target := Target(data, self, issuerSigners, issuer).value;
    FillKeepsBase(base, candidates);
    forall k | k in target.at && k !in base.at
      ensures k != issuer && exists t :: t in issuerSigners && t.key == k
    {
      AddedAreCandidates(base, candidates, k);
      var c :| c in candidates && c.key == k;
      CandidateIff(issuerSigners, issuer, c);
    }
    forall s | s in issuerSigners && s.key != issuer && s.key !in target.at
      ensures JustlyLeftOut(base, target, issuerSigners, issuer, s)
    {
      CandidateIff(issuerSigners, issuer, s);
      FillIsComplete(base, candidates, s);
      forall k | k in target.at && k !in base.at
        ensures StandsBefore(issuerSigners, issuer, k, s)
      {
        var t := AddedRanksFirst(base, issuerSigners, issuer, s, k);
        RankIsOutrank(t, s);
      }
    }
  }

  // ---------------------------------------------------------- who is named

  lemma {:induction false} CountCharConcat(a: string, b: string, c: char)
    ensures CountChar(a + b, c) == CountChar(a, c) + CountChar(b, c)
  {
    if a == [] {
      assert a + b == b;
    } else {
      assert (a + b)[1..] == a[1..] + b;
      CountCharConcat(a[1..], b, c);
    }
  }

  lemma {:induction false} CountIsZero(s: string, c: char)
    ensures CountChar(s, c) == 0 <==> c !in s
  {
    if s == [] {
    } else {
      CountIsZero(s[1..], c);
      assert s == [s[0]] + s[1..];
    }
  }

  lemma {:induction false} UpToSplits(s: string, c: char)
    ensures c !in UpTo(s, c) && |UpTo(s, c)| <= |s| && s[..|UpTo(s, c)|] == UpTo(s, c)
    ensures |UpTo(s, c)| < |s| ==> s[|UpTo(s, c)|] == c
    ensures c !in s ==> UpTo(s, c) == s
  {
    if s == [] || s[0] == c {
    } else {
      UpToSplits(s[1..], c);
      assert s == [s[0]] + s[1..];
      assert s[..|UpTo(s, c)|] == [s[0]] + s[1..][..|UpTo(s[1..], c)|];
    }
  }

  lemma UpToIs(mid: string, tail: string)
    requires '_' !in mid
    ensures UpTo(mid + "_" + tail, '_') == mid
  {
    var s := mid + "_" + tail;
    UpToSplits(s, '_');
    var read := UpTo(s, '_');
    assert forall i | 0 <= i < |mid| :: s[i] == mid[i] && s[i] in mid;
    assert forall i | 0 <= i < |read| :: s[..|read|][i] == s[i] && read[i] in read;
    assert s[|mid|] == '_';
    assert mid == s[..|mid|];
  }

  // The name spelt out: the prefix, the weight, and anything after, with no more underscores.
  ghost predicate Spells(name: string, weight: string, tail: string) {
    name == "master_key_" + (weight + "_" + tail) && '_' !in weight && '_' !in tail
  }

  /** A data entry names a signer exactly when its name is `master_key_`, a weight
      and a tail parted by one more underscore; the weight is read as an integer. */
  lemma MasterKeyNameIff(name: string)
    ensures IsMasterKeyName(name) <==> exists weight, tail :: Spells(name, weight, tail)
    ensures forall weight, tail | Spells(name, weight, tail) ::
      IsMasterKeyName(name) && NamedWeight(name) == Decimal.ParseInt(weight)
  {
    forall weight, tail | Spells(name, weight, tail)
      ensures IsMasterKeyName(name) && NamedWeight(name) == Decimal.ParseInt(weight)
    {
      SpeltIsName(name, weight, tail);
    }
    if IsMasterKeyName(name) {
      NameIsSpelt(name);
    }
  }

  lemma PrefixCount()
    ensures CountChar("master_key_", '_') == 2
  {
    assert "master_key_" == "master" + "_" + "key" + "_";
    SpeltCount("master", "key");
    CountCharConcat("master" + "_" + "key", "_", '_');
    CountIsZero("master", '_');
    CountIsZero("key", '_');
    assert "_"[1..] == [];
  }

  lemma SpeltCount(weight: string, tail: string)
    ensures CountChar(weight + "_" + tail, '_') == CountChar(weight, '_') + 1 + CountChar(tail, '_')
  {
    CountCharConcat(weight + "_", tail, '_');
    CountCharConcat(weight, "_", '_');
    assert "_"[1..] == [];
  }

  lemma SpeltIsName(name: string, weight: string, tail: string)
    requires Spells(name, weight, tail)
    ensures IsMasterKeyName(name) && NamedWeight(name) == Decimal.ParseInt(weight)
  {
    var rest := weight + "_" + tail;
    PrefixCount();
    SpeltCount(weight, tail);
    CountIsZero(weight, '_');
    CountIsZero(tail, '_');
    CountCharConcat("master_key_", rest, '_');
    assert name[|MASTER_KEY_PREFIX|..] == rest;
    UpToIs(weight, tail);
  }

  lemma NameIsSpelt(name: string)
    requires IsMasterKeyName(name)
    ensures exists weight, tail :: Spells(name, weight, tail)
  {
    var rest := name[|MASTER_KEY_PREFIX|..];
    assert name == "master_key_" + rest;
    PrefixCount();
    CountCharConcat("master_key_", rest, '_');
    var weight, tail := OneUnderscore(rest);
    assert rest == weight + "_" + tail;
    assert Spells(name, weight, tail);
  }

  // A text with one underscore is parted by it.
  lemma OneUnderscore(rest: string) returns (weight: string, tail: string)
    requires CountChar(rest, '_') == 1
    ensures rest == weight + "_" + tail && '_' !in weight && '_' !in tail
  {
    CountIsZero(rest, '_');
    UpToSplits(rest, '_');
    weight := UpTo(rest, '_');
    assert |weight| == |rest| ==> rest == weight;
    tail := rest[|weight| + 1..];
    assert rest == weight + "_" + tail;
    SpeltCount(weight, tail);
    CountIsZero(weight, '_');
    CountIsZero(tail, '_');
  }

  // Entry i is the last that names this key.
  ghost predicate NamesLast(data: seq<(string, string)>, i: nat, key: string)
    requires i < |data|
  {
    && IsMasterKeyName(data[i].0) && data[i].1 == key
    && forall j | i < j < |data| :: !(IsMasterKeyName(data[j].0) && data[j].1 == key)
  }

  /** The named signers are the values of the matching entries, each with the weight
      in the last name that has it; the account itself gets 15 if nobody names it. */
  lemma {:induction false} NamedByLast(data: seq<(string, string)>, key: string)
    requires NamedSigners(data).Some?
    ensures key in NamedSigners(data).value.at <==> exists i :: 0 <= i < |data| && NamesLast(data, i, key)
    ensures forall i | 0 <= i < |data| && NamesLast(data, i, key) ::
      key in NamedSigners(data).value.at && NamedWeight(data[i].0) == Some(NamedSigners(data).value.at[key])
  {
    if data == [] {
    } else {
      var n := |data| - 1;
      NamedByLast(data[..n], key);
      if IsMasterKeyName(data[n].0) && data[n].1 == key {
        assert NamesLast(data, n, key);
      } else {
        NamesLastBefore(data, key);
        var front := data[..n];
        if i :| 0 <= i < |data| && NamesLast(data, i, key) {
          assert NamesLast(front, i, key);
        }
        if i :| 0 <= i < |front| && NamesLast(front, i, key) {
          assert NamesLast(data, i, key);
        }
      }
    }
  }

  // An entry that does not name the key does not change who names it last.
  lemma NamesLastBefore(data: seq<(string, string)>, key: string)
    requires data != [] && !(IsMasterKeyName(data[|data| - 1].0) && data[|data| - 1].1 == key)
    ensures !NamesLast(data, |data| - 1, key)
    ensures forall i | 0 <= i < |data| - 1 :: NamesLast(data[..|data| - 1], i, key) <==> NamesLast(data, i, key)
    ensures forall i | 0 <= i < |data| - 1 :: data[..|data| - 1][i] == data[i]
  {
    var front := data[..|data| - 1];
    forall i | 0 <= i < |front|
      ensures NamesLast(front, i, key) <==> NamesLast(data, i, key)
    {
      assert forall j | i < j < |front| :: front[j] == data[j];
    }
  }

  lemma BaseIsNamed(data: seq<(string, string)>, self: string, key: string)
    requires Base(data, self).Some?
    ensures var base := Base(data, self).value.at;
      && (key in base <==> key == self || exists i :: 0 <= i < |data| && NamesLast(data, i, key))
      && (forall i | 0 <= i < |data| && NamesLast(data, i, key) ::
            key in base && NamedWeight(data[i].0) == Some(base[key]))
      && ((forall i | 0 <= i < |data| :: !NamesLast(data, i, self)) ==> self in base && base[self] == 15)
  {
    NamedByLast(data, key);
    NamedByLast(data, self);
  }

  // ------------------------------------------------------------------ the diff

  function Select(keys: seq<string>, pick: string -> Option<int>): seq<Signer> {
    if keys == [] then []
    else
      var k := keys[|keys| - 1];
      Select(keys[..|keys| - 1], pick) + if pick(k).Some? then [Signer(k, pick(k).value)] else []
  }

  function Removal(target: map<string, int>): string -> Option<int> {
    k => if k in target then None else Some(0)
  }

  function Change(current: map<string, int>, target: map<string, int>): string -> Option<int> {
    k => if k in current && k in target && target[k] != current[k] then Some(target[k]) else None
  }

  function Addition(current: map<string, int>, target: map<string, int>): string -> Option<int> {
    k => if k !in current && k in target then Some(target[k]) else None
  }

  function Diff(current: SignerDict, target: SignerDict): seq<Signer> {
    Select(current.order, Removal(target.at))
    + Select(current.order, Change(current.at, target.at))
    + Select(target.order, Addition(current.at, target.at))
  }

  lemma SelectStep(keys: seq<string>, pick: string -> Option<int>, i: nat)
    requires i < |keys|
    ensures Select(keys[..i + 1], pick)
         == Select(keys[..i], pick) + if pick(keys[i]).Some? then [Signer(keys[i], pick(keys[i]).value)] else []
  {
    assert keys[..i + 1][..i] == keys[..i];
  }

  // Step 1: current signers that the target lacks get weight 0.
  method Removals(current: SignerDict, target: SignerDict) returns (updates: seq<Signer>)
    requires current.Valid()
    ensures updates == Select(current.order, Removal(target.at))
  {
    updates := [];
    for i := 0 to |current.order|
      invariant updates == Select(current.order[..i], Removal(target.at))
    {
      SelectStep(current.order, Removal(target.at), i);
      if current.order[i] !in target.at {
        updates := updates + [Signer(current.order[i], 0)];
      }
    }
    assert current.order[..|current.order|] == current.order;
  }

  // Step 2: signers of both tables whose weight differs get the target's.
  method Changes(current: SignerDict, target: SignerDict) returns (updates: seq<Signer>)
    requires current.Valid()
    ensures updates == Select(current.order, Change(current.at, target.at))
  {
    updates := [];
    for i := 0 to |current.order|
      invariant updates == Select(current.order[..i], Change(current.at, target.at))
    {
      SelectStep(current.order, Change(current.at, target.at), i);
      var key := current.order[i];
      assert key in current.at;
      if key in target.at && target.at[key] != current.at[key] {
        updates := updates + [Signer(key, target.at[key])];
      }
    }
    assert current.order[..|current.order|] == current.order;
  }

  // Step 3: target signers that the account lacks are added.
  method Additions(current: SignerDict, target: SignerDict) returns (updates: seq<Signer>)
    requires target.Valid()
    ensures updates == Select(target.order, Addition(current.at, target.at))
  {
    updates := [];
    for i := 0 to |target.order|
      invariant updates == Select(target.order[..i], Addition(current.at, target.at))
    {
      SelectStep(target.order, Addition(current.at, target.at), i);
      var key := target.order[i];
      assert key in target.at;
      if key !in current.at {
        updates := updates + [Signer(key, target.at[key])];
      }
    }
    assert target.order[..|target.order|] == target.order;
  }

  method UpdatedSigners(current: SignerDict, target: SignerDict) returns (updates: seq<Signer>)
    requires current.Valid() && target.Valid()
    ensures updates == Diff(current, target)
  {
    var removals := Removals(current, target);
    var changes := Changes(current, target);
    var additions := Additions(current, target);
    updates := removals + changes + additions;
  }

  ghost predicate DistinctKeys(updates: seq<Signer>) {
    forall i, j | 0 <= i < j < |updates| :: updates[i].key != updates[j].key
  }

  lemma {:induction false} SelectExact(keys: seq<string>, pick: string -> Option<int>)
    requires NoDuplicates(keys)
    ensures DistinctKeys(Select(keys, pick))
    ensures forall s :: s in Select(keys, pick) <==> s.key in keys && pick(s.key) == Some(s.weight)
  {
    if keys == [] {
    } else {
      var front := keys[..|keys| - 1];
      SelectExact(front, pick);
      assert keys == front + [keys[|keys| - 1]];
    }
  }

  /** The diff names exactly the keys on which the two tables differ, each once,
      with weight 0 for a key the target lacks and the target's weight otherwise. */
  lemma DiffNamesExactlyTheChanges(current: SignerDict, target: SignerDict)
    requires current.Valid() && target.Valid()
    ensures DistinctKeys(Diff(current, target))
    ensures forall s :: s in Diff(current, target) <==>
      || (s.key in current.at && s.key !in target.at && s.weight == 0)
      || (s.key in target.at && s.weight == target.at[s.key]
          && (s.key in current.at ==> current.at[s.key] != target.at[s.key]))
  {
    SelectExact(current.order, Removal(target.at));
    SelectExact(current.order, Change(current.at, target.at));
    SelectExact(target.order, Addition(current.at, target.at));
    var r := Select(current.order, Removal(target.at));
    var c := Select(current.order, Change(current.at, target.at));
    var a := Select(target.order, Addition(current.at, target.at));
    assert forall s | s in r :: s.key !in target.at;
    assert forall s | s in c :: s.key in target.at && s.key in current.at;
    assert forall s | s in a :: s.key !in current.at;
    forall i, j | 0 <= i < j < |r + c + a|
      ensures (r + c + a)[i].key != (r + c + a)[j].key
    {
      var x, y := (r + c + a)[i], (r + c + a)[j];
      assert i < |r| ==> x in r;
      assert |r| <= i < |r| + |c| ==> x in c;
      assert |r| <= j < |r| + |c| ==> y in c;
      assert |r| + |c| <= j ==> y in a;
    }
  }

  // ---------------------------------------------------------- running the plan

  const MAX_WEIGHT := 255
  const MAX_OTHER_SIGNERS: nat := 20
  const MAX_OPERATIONS: nat := 100

  datatype Thresholds = Thresholds(low: int, med: int, high: int)

  datatype Operation =
    | SetMasterWeight(weight: int)
    | SetSigner(key: string, weight: int)
    | SetThresholds(thresholds: Thresholds)

  // room: how many more entries the account's reserve allows.
  datatype Account = Account(signers: map<string, int>, thresholds: Thresholds, room: int)

  function SignerOperation(self: string, s: Signer): Operation {
    if s.key == self then SetMasterWeight(s.weight) else SetSigner(s.key, s.weight)
  }

  function SignerOperations(self: string, updates: seq<Signer>): seq<Operation> {
    if updates == [] then []
    else SignerOperations(self, updates[..|updates| - 1]) + [SignerOperation(self, updates[|updates| - 1])]
  }

  lemma {:induction false} SignerOperationsPrefix(self: string, updates: seq<Signer>, n: nat)
    requires n <= |updates|
    ensures |SignerOperations(self, updates)| == |updates|
    ensures SignerOperations(self, updates)[..n] == SignerOperations(self, updates[..n])
    ensures n < |updates| ==> SignerOperations(self, updates)[n] == SignerOperation(self, updates[n])
  {
    if updates == [] {
    } else {
      var front := updates[..|updates| - 1];
      if n < |updates| {
        SignerOperationsPrefix(self, front, n);
        assert front[..n] == updates[..n];
      } else {
        SignerOperationsPrefix(self, front, |front|);
        assert updates[..n] == updates;
      }
    }
  }

  const ALL_THRESHOLDS := Thresholds(THRESHOLD, THRESHOLD, THRESHOLD)

  function Plan(self: string, current: SignerDict, target: SignerDict, thresholds: Thresholds): seq<Operation> {
    SignerOperations(self, Diff(current, target))
    + if thresholds.med != THRESHOLD then [SetThresholds(ALL_THRESHOLDS)] else []
  }

  method BuildOperations(self: string, current: SignerDict, target: SignerDict, thresholds: Thresholds)
    returns (operations: seq<Operation>)
    requires current.Valid() && target.Valid()
    ensures operations == Plan(self, current, target, thresholds)
  {
    var updates := UpdatedSigners(current, target);
    operations := [];
    for i := 0 to |updates|
      invariant operations == SignerOperations(self, updates[..i])
    {
      assert updates[..i + 1][..i] == updates[..i];
      if updates[i].key == self {
        operations := operations + [SetMasterWeight(updates[i].weight)];
      } else {
        operations := operations + [SetSigner(updates[i].key, updates[i].weight)];
      }
    }
    assert updates[..|updates|] == updates;
    if thresholds.med != THRESHOLD {
      operations := operations + [SetThresholds(ALL_THRESHOLDS)];
    }
  }

  function Others(self: string, signers: map<string, int>): set<string> {
    signers.Keys - {self}
  }

  predicate IsWeight(w: int) {
    0 <= w <= MAX_WEIGHT
  }

  // The network's reading of an operation it accepts: weight 0 deletes a signer,
  // but the master key is never deleted, it only gets weight 0.
  function Effect(self: string, account: Account, op: Operation): Account {
    match op
    case SetMasterWeight(w) => account.(signers := account.signers[self := w])
    case SetSigner(k, w) => Account(SignersAfter(account.signers, k, w), account.thresholds, RoomAfter(account, k, w))
    case SetThresholds(t) => account.(thresholds := t)
  }

  function SignersAfter(signers: map<string, int>, key: string, weight: int): map<string, int> {
    if weight == 0 then signers - {key} else signers[key := weight]
  }

  function RoomAfter(account: Account, key: string, weight: int): int {
    if weight == 0 then account.room + if key in account.signers then 1 else 0
    else account.room - if key in account.signers then 0 else 1
  }

  // What the network refuses: a weight that is no byte, a signer that is no public
  // key or the account itself, and a new signer beyond the limit or the reserve.
  predicate Refuses(isAddress: string -> bool, self: string, account: Account, op: Operation) {
    match op
    case SetMasterWeight(w) => !IsWeight(w)
    case SetSigner(k, w) =>
      || k == self || !isAddress(k) || !IsWeight(w)
      || (w != 0 && k !in account.signers
          && (|Others(self, account.signers)| >= MAX_OTHER_SIGNERS || account.room <= 0))
    case SetThresholds(t) => !IsWeight(t.low) || !IsWeight(t.med) || !IsWeight(t.high)
  }

  // None when the network refuses some operation, and with it the transaction.
  function Run(isAddress: string -> bool, self: string, account: Account, ops: seq<Operation>): Option<Account> {
    if ops == [] then Some(account)
    else
      match Run(isAddress, self, account, ops[..|ops| - 1])
      case None => None
      case Some(now) =>
        if Refuses(isAddress, self, now, ops[|ops| - 1]) then None else Some(Effect(self, now, ops[|ops| - 1]))
  }

  // A transaction has 1 to 100 operations.
  function Submit(isAddress: string -> bool, self: string, account: Account, ops: seq<Operation>): Option<Account> {
    if ops == [] || |ops| > MAX_OPERATIONS then None else Run(isAddress, self, account, ops)
  }

  // The effects alone, refused or not.
  function Outcome(self: string, account: Account, ops: seq<Operation>): Account {
    if ops == [] then account
    else Effect(self, Outcome(self, account, ops[..|ops| - 1]), ops[|ops| - 1])
  }

  ghost predicate AcceptsAt(isAddress: string -> bool, self: string, account: Account, ops: seq<Operation>, n: nat)
    requires n < |ops|
  {
    !Refuses(isAddress, self, Outcome(self, account, ops[..n]), ops[n])
  }

  lemma {:induction false} RunIsOutcome(isAddress: string -> bool, self: string, account: Account, ops: seq<Operation>)
    ensures Run(isAddress, self, account, ops).Some?
       <==> forall n | 0 <= n < |ops| :: AcceptsAt(isAddress, self, account, ops, n)
    ensures Run(isAddress, self, account, ops).Some? ==>
      Run(isAddress, self, account, ops).value == Outcome(self, account, ops)
  {
    if ops == [] {
    } else {
      var front := ops[..|ops| - 1];
      RunIsOutcome(isAddress, self, account, front);
      forall n | 0 <= n < |front|
        ensures AcceptsAt(isAddress, self, account, front, n) <==> AcceptsAt(isAddress, self, account, ops, n)
      {
        assert front[..n] == ops[..n];
      }
      assert AcceptsAt(isAddress, self, account, ops, |front|)
        <==> !Refuses(isAddress, self, Outcome(self, account, front), ops[|front|]);
    }
  }

  predicate SparesMaster(self: string, ops: seq<Operation>) {
    forall n | 0 <= n < |ops| && ops[n].SetSigner? :: ops[n].key != self
  }

  lemma OneMore(s: set<string>, x: string)
    ensures |s + {x}| == |s| + if x in s then 0 else 1
    ensures |s - {x}| == |s| - if x in s then 1 else 0
  {
    if x in s {
      assert s + {x} == s;
    } else {
      assert s - {x} == s;
    }
  }

  lemma OthersAfter(self: string, signers: map<string, int>, key: string, weight: int)
    requires key != self
    ensures var before := Others(self, signers);
      && Others(self, SignersAfter(signers, key, weight)) == (if weight == 0 then before - {key} else before + {key})
      && (key in before <==> key in signers)
  {
  }

  lemma OthersAfterMaster(self: string, signers: map<string, int>, weight: int)
    ensures Others(self, signers[self := weight]) == Others(self, signers)
  {
  }

  lemma EffectKeepsRoom(self: string, account: Account, op: Operation)
    requires op.SetSigner? ==> op.key != self
    ensures var after := Effect(self, account, op);
      after.room + |Others(self, after.signers)| == account.room + |Others(self, account.signers)|
  {
    match op
    case SetMasterWeight(w) => OthersAfterMaster(self, account.signers, w);
    case SetSigner(k, w) =>
      OthersAfter(self, account.signers, k, w);
      OneMore(Others(self, account.signers), k);
    case SetThresholds(_) =>
  }

  // Every signer but the master's occupies one entry.
  lemma {:induction false} RoomIsKept(self: string, account: Account, ops: seq<Operation>)
    requires SparesMaster(self, ops)
    ensures var after := Outcome(self, account, ops);
      after.room + |Others(self, after.signers)| == account.room + |Others(self, account.signers)|
  {
    if ops == [] {
    } else {
      var front := ops[..|ops| - 1];
      RoomIsKept(self, account, front);
      EffectKeepsRoom(self, Outcome(self, account, front), ops[|ops| - 1]);
    }
  }

  ghost predicate WithinLimits(self: string, account: Account) {
    |Others(self, account.signers)| <= MAX_OTHER_SIGNERS && account.room >= 0
  }

  lemma AcceptedEffectStaysWithin(isAddress: string -> bool, self: string, account: Account, op: Operation)
    requires WithinLimits(self, account) && !Refuses(isAddress, self, account, op)
    ensures WithinLimits(self, Effect(self, account, op))
  {
    match op
    case SetMasterWeight(w) => OthersAfterMaster(self, account.signers, w);
    case SetSigner(k, w) =>
      OthersAfter(self, account.signers, k, w);
      OneMore(Others(self, account.signers), k);
    case SetThresholds(_) =>
  }

  lemma {:induction false} RunStaysWithin(isAddress: string -> bool, self: string, account: Account,
                                          ops: seq<Operation>)
    requires WithinLimits(self, account) && Run(isAddress, self, account, ops).Some?
    ensures WithinLimits(self, Run(isAddress, self, account, ops).value)
  {
    if ops == [] {
    } else {
      var front := ops[..|ops| - 1];
      RunStaysWithin(isAddress, self, account, front);
      AcceptedEffectStaysWithin(isAddress, self, Run(isAddress, self, account, front).value, ops[|ops| - 1]);
    }
  }

  // What is left of a key's weight after an update of it.
  ghost predicate HasWeight(self: string, signers: map<string, int>, key: string, weight: int) {
    && (key in signers <==> weight != 0 || key == self)
    && (key in signers ==> signers[key] == weight)
  }

  ghost predicate SameAt(a: map<string, int>, b: map<string, int>, key: string) {
    (key in a <==> key in b) && (key in a ==> a[key] == b[key])
  }

  lemma EffectAt(self: string, account: Account, s: Signer, key: string)
    ensures var after := Effect(self, account, SignerOperation(self, s));
      && after.thresholds == account.thresholds
      && (if s.key == key then HasWeight(self, after.signers, key, s.weight)
          else SameAt(after.signers, account.signers, key))
  {
  }

  // The effect of a list of updates with distinct keys, key by key.
  lemma {:induction false} OutcomeAt(self: string, account: Account, updates: seq<Signer>, key: string)
    requires DistinctKeys(updates)
    ensures var after := Outcome(self, account, SignerOperations(self, updates));
      && after.thresholds == account.thresholds
      && ((forall s | s in updates :: s.key != key) ==> SameAt(after.signers, account.signers, key))
      && (forall s | s in updates && s.key == key :: HasWeight(self, after.signers, key, s.weight))
  {
    if updates == [] {
    } else {
      var front, last := updates[..|updates| - 1], updates[|updates| - 1];
      assert updates == front + [last];
      OutcomeSnoc(self, account, updates);
      OutcomeAt(self, account, front, key);
      EffectAt(self, Outcome(self, account, SignerOperations(self, front)), last, key);
    }
  }

  lemma OutcomeSnoc(self: string, account: Account, updates: seq<Signer>)
    requires updates != []
    ensures var front, last := updates[..|updates| - 1], updates[|updates| - 1];
      Outcome(self, account, SignerOperations(self, updates))
      == Effect(self, Outcome(self, account, SignerOperations(self, front)), SignerOperation(self, last))
  {
    var ops := SignerOperations(self, updates[..|updates| - 1]);
    assert SignerOperations(self, updates)[..|ops|] == ops;
  }

  lemma {:induction false} OperationsSpareMaster(self: string, updates: seq<Signer>)
    ensures SparesMaster(self, SignerOperations(self, updates))
  {
    if updates == [] {
    } else {
      OperationsSpareMaster(self, updates[..|updates| - 1]);
    }
  }

  // The network keeps no other signer with weight 0.
  predicate DropsNobody(self: string, current: map<string, int>, target: map<string, int>) {
    forall k | k in target && k != self && target[k] == 0 :: k in current && current[k] == 0
  }

  // The target's weight, if any, stands after the effects; weight 0 of another signer does not.
  ghost predicate ReachedAt(self: string, current: map<string, int>, target: map<string, int>, after: map<string,
                            int>, k: string) {
    if k !in target then k !in after
    else (k in after && after[k] == target[k]) <==> (k != self && target[k] == 0 ==> k in current && current[k] == 0)
  }

  lemma OutcomeReachesAt(self: string, current: SignerDict, target: SignerDict, start: Account, k: string)
    requires current.Valid() && target.Valid() && self in target.at && start.signers == current.at
    ensures ReachedAt(self, current.at, target.at,
                      Outcome(self, start, SignerOperations(self, Diff(current, target))).signers, k)
  {
    var updates := Diff(current, target);
    DiffNamesExactlyTheChanges(current, target);
    OutcomeAt(self, start, updates, k);
    if k in current.at && k !in target.at {
      assert Signer(k, 0) in updates;
    } else if k in target.at && (k in current.at ==> current.at[k] != target.at[k]) {
      assert Signer(k, target.at[k]) in updates;
    }
  }

  lemma ReachedIff(self: string, current: map<string, int>, target: map<string, int>, after: map<string, int>)
    requires forall k :: ReachedAt(self, current, target, after, k)
    ensures after == target <==> DropsNobody(self, current, target)
  {
    if DropsNobody(self, current, target) {
      forall k
        ensures k in after <==> k in target
        ensures k in target ==> k in after && after[k] == target[k]
      {
        assert ReachedAt(self, current, target, after, k);
      }
      assert after == target;
    } else {
      var k :| k in target && k != self && target[k] == 0 && !(k in current && current[k] == 0);
      assert ReachedAt(self, current, target, after, k);
    }
  }

  // The effects of the signer operations reach the target's table.
  lemma OutcomeReachesIff(self: string, current: SignerDict, target: SignerDict, start: Account)
    requires current.Valid() && target.Valid() && self in target.at && start.signers == current.at
    ensures var after := Outcome(self, start, SignerOperations(self, Diff(current, target)));
      && after.thresholds == start.thresholds
      && (after.signers == target.at <==> DropsNobody(self, current.at, target.at))
  {
    var after := Outcome(self, start, SignerOperations(self, Diff(current, target)));
    DiffNamesExactlyTheChanges(current, target);
    OutcomeAt(self, start, Diff(current, target), self);
    forall k
      ensures ReachedAt(self, current.at, target.at, after.signers, k)
    {
      OutcomeReachesAt(self, current, target, start, k);
    }
    ReachedIff(self, current.at, target.at, after.signers);
  }

  // After n signer operations every key is a current one, or every key is a target one.
  lemma PrefixKeys(self: string, current: SignerDict, target: SignerDict, start: Account, n: nat)
    requires current.Valid() && target.Valid() && self in target.at && start.signers == current.at
    requires n <= |Diff(current, target)|
    ensures var now := Outcome(self, start, SignerOperations(self, Diff(current, target)[..n])).signers;
      now.Keys <= current.at.Keys || now.Keys <= target.at.Keys
  {
    var removals := Select(current.order, Removal(target.at));
    var early := removals + Select(current.order, Change(current.at, target.at));
    var updates := Diff(current, target);
    var prefix := updates[..n];
    DiffNamesExactlyTheChanges(current, target);
    SelectExact(current.order, Removal(target.at));
    SelectExact(current.order, Change(current.at, target.at));
    assert early <= updates;
    var now := Outcome(self, start, SignerOperations(self, prefix)).signers;
    if n <= |early| {
      assert prefix == early[..n];
      assert forall s | s in prefix :: s in early && s.key in current.at;
      forall k | k in now
        ensures k in current.at
      {
        OutcomeAt(self, start, prefix, k);
      }
    } else {
      assert removals <= prefix;
      forall k | k in now
        ensures k in target.at
      {
        OutcomeAt(self, start, prefix, k);
        assert k in current.at && k !in target.at ==> Signer(k, 0) in removals;
      }
    }
  }

  // ------------------------------------------------- when the plan is accepted

  // Key k is one the diff names.
  predicate Differs(current: map<string, int>, target: map<string, int>, k: string) {
    (k in current <==> k !in target) || (k in current && k in target && current[k] != target[k])
  }

  // What the plan changes, it changes to weights and keys the network knows.
  ghost predicate WellTyped(isAddress: string -> bool, self: string, current: map<string, int>, target: map<string,
                            int>) {
    forall k | Differs(current, target, k) ::
      && (k in target ==> IsWeight(target[k]))
      && (k != self ==> isAddress(k))
  }

  // The target has no more signers than the network and the reserve allow.
  predicate FitsLimits(self: string, current: map<string, int>, target: map<string, int>, room: int) {
    && |Others(self, target)| <= MAX_OTHER_SIGNERS
    && |Others(self, target)| - |Others(self, current)| <= room
  }

  lemma UpdateDiffers(current: SignerDict, target: SignerDict, s: Signer)
    requires current.Valid() && target.Valid() && s in Diff(current, target)
    ensures Differs(current.at, target.at, s.key)
    ensures s.weight == if s.key in target.at then target.at[s.key] else 0
  {
    DiffNamesExactlyTheChanges(current, target);
  }

  lemma NewOthers(self: string, now: map<string, int>, key: string, weight: int, current: map<string, int>,
                  target: map<string, int>)
    requires key != self && weight != 0 && key !in now && key !in current
    requires var next := SignersAfter(now, key, weight); next.Keys <= current.Keys || next.Keys <= target.Keys
    ensures |Others(self, now)| + 1 <= |Others(self, target)|
  {
    OthersAfter(self, now, key, weight);
    OneMore(Others(self, now), key);
    var next := SignersAfter(now, key, weight);
    assert key in next;
    SubsetIsNoLarger(Others(self, next), Others(self, target));
  }

  lemma NotYetCurrent(self: string, current: SignerDict, target: SignerDict, start: Account, n: nat)
    requires current.Valid() && target.Valid() && start.signers == current.at && n < |Diff(current, target)|
    requires Diff(current, target)[n].key
      !in Outcome(self, start, SignerOperations(self, Diff(current, target)[..n])).signers
    ensures Diff(current, target)[n].key !in current.at
  {
    var updates := Diff(current, target);
    DiffNamesExactlyTheChanges(current, target);
    OutcomeAt(self, start, updates[..n], updates[n].key);
    assert forall r | r in updates[..n] :: r.key != updates[n].key;
  }

  // A new signer is one of the target's.
  lemma NewSignerIsTargets(self: string, current: SignerDict, target: SignerDict, start: Account, n: nat)
    requires current.Valid() && target.Valid() && self in target.at && start.signers == current.at
    requires n < |Diff(current, target)|
    requires var s := Diff(current, target)[n];
      s.key != self && s.weight != 0
      && s.key !in Outcome(self, start, SignerOperations(self, Diff(current, target)[..n])).signers
    ensures var now := Outcome(self, start, SignerOperations(self, Diff(current, target)[..n]));
      |Others(self, now.signers)| + 1 <= |Others(self, target.at)|
  {
    var updates := Diff(current, target);
    var s := updates[n];
    var now := Outcome(self, start, SignerOperations(self, updates[..n]));
    NotYetCurrent(self, current, target, start, n);
    assert updates[..n + 1][..n] == updates[..n];
    OutcomeSnoc(self, start, updates[..n + 1]);
    PrefixKeys(self, current, target, start, n + 1);
    NewOthers(self, now.signers, s.key, s.weight, current.at, target.at);
  }

  // So it finds a place.
  lemma NewSignerFits(self: string, current: SignerDict, target: SignerDict, start: Account, n: nat)
    requires current.Valid() && target.Valid() && self in target.at && start.signers == current.at
    requires FitsLimits(self, current.at, target.at, start.room)
    requires n < |Diff(current, target)|
    requires var s := Diff(current, target)[n];
      s.key != self && s.weight != 0
      && s.key !in Outcome(self, start, SignerOperations(self, Diff(current, target)[..n])).signers
    ensures var now := Outcome(self, start, SignerOperations(self, Diff(current, target)[..n]));
      |Others(self, now.signers)| < MAX_OTHER_SIGNERS && now.room > 0
  {
    var before := Diff(current, target)[..n];
    NewSignerIsTargets(self, current, target, start, n);
    OperationsSpareMaster(self, before);
    RoomIsKept(self, start, SignerOperations(self, before));
  }

  lemma PlanIsAccepted(isAddress: string -> bool, self: string, current: SignerDict, target: SignerDict, start: Account)
    requires current.Valid() && target.Valid() && self in target.at && start.signers == current.at
    requires WellTyped(isAddress, self, current.at, target.at)
    requires FitsLimits(self, current.at, target.at, start.room)
    ensures Run(isAddress, self, start, SignerOperations(self, Diff(current, target))).Some?
  {
    var updates := Diff(current, target);
    var ops := SignerOperations(self, updates);
    SignerOperationsPrefix(self, updates, |updates|);
    forall n | 0 <= n < |ops|
      ensures AcceptsAt(isAddress, self, start, ops, n)
    {
      SignerOperationsPrefix(self, updates, n);
      var s := updates[n];
      assert s in updates;
      UpdateDiffers(current, target, s);
      var now := Outcome(self, start, ops[..n]);
      if s.key != self && s.weight != 0 && s.key !in now.signers {
        NewSignerFits(self, current, target, start, n);
      }
    }
    RunIsOutcome(isAddress, self, start, ops);
  }

  lemma AcceptedPlanIsWellTyped(isAddress: string -> bool, self: string, current: SignerDict, target: SignerDict,
                                start: Account)
    requires current.Valid() && target.Valid() && self in target.at
    requires Run(isAddress, self, start, SignerOperations(self, Diff(current, target))).Some?
    ensures WellTyped(isAddress, self, current.at, target.at)
  {
    var updates := Diff(current, target);
    var ops := SignerOperations(self, updates);
    SignerOperationsPrefix(self, updates, |updates|);
    RunIsOutcome(isAddress, self, start, ops);
    DiffNamesExactlyTheChanges(current, target);
    forall k | Differs(current.at, target.at, k)
      ensures (k in target.at ==> IsWeight(target.at[k])) && (k != self ==> isAddress(k))
    {
      var s := Signer(k, if k in target.at then target.at[k] else 0);
      assert s in updates;
      var n :| 0 <= n < |updates| && updates[n] == s;
      SignerOperationsPrefix(self, updates, n);
      assert AcceptsAt(isAddress, self, start, ops, n);
    }
  }

  lemma AcceptedPlanFits(isAddress: string -> bool, self: string, current: SignerDict, target: SignerDict,
                         start: Account)
    requires current.Valid() && target.Valid() && self in target.at && start.signers == current.at
    requires WithinLimits(self, start) && DropsNobody(self, current.at, target.at)
    requires Run(isAddress, self, start, SignerOperations(self, Diff(current, target))).Some?
    ensures FitsLimits(self, current.at, target.at, start.room)
  {
    var ops := SignerOperations(self, Diff(current, target));
    RunIsOutcome(isAddress, self, start, ops);
    OutcomeReachesIff(self, current, target, start);
    RunStaysWithin(isAddress, self, start, ops);
    OperationsSpareMaster(self, Diff(current, target));
    RoomIsKept(self, start, ops);
  }

  // The accounts the plan is made for: no more signers than the network allows, and room for some more.
  function Before(current: SignerDict, thresholds: Thresholds, room: nat): Account {
    Account(current.at, thresholds, room)
  }

  lemma PlanRun(isAddress: string -> bool, self: string, current: SignerDict, target: SignerDict, start: Account)
    requires current.Valid() && target.Valid()
    ensures var ops := SignerOperations(self, Diff(current, target));
      var mid := Run(isAddress, self, start, ops);
      Run(isAddress, self, start, Plan(self, current, target, start.thresholds))
      == if start.thresholds.med == THRESHOLD || mid.None? then mid
         else Some(mid.value.(thresholds := ALL_THRESHOLDS))
  {
    var ops := SignerOperations(self, Diff(current, target));
    var plan := Plan(self, current, target, start.thresholds);
    if start.thresholds.med != THRESHOLD {
      assert plan[..|plan| - 1] == ops;
    } else {
      assert plan == ops;
    }
  }

  // The account is left with the target's signers and all thresholds at 15.
  ghost predicate IsReached(after: Option<Account>, target: SignerDict) {
    after.Some? && after.value.signers == target.at && after.value.thresholds == ALL_THRESHOLDS
  }

  /** The whole plan is accepted and reaches the target. */
  ghost predicate ReachesTarget(isAddress: string -> bool, self: string, current: SignerDict, target: SignerDict,
                                thresholds: Thresholds, room: nat)
    requires current.Valid() && target.Valid()
  {
    var plan := Plan(self, current, target, thresholds);
    IsReached(Submit(isAddress, self, Before(current, thresholds, room), plan), target)
  }

  lemma RunReachesIff(isAddress: string -> bool, self: string, current: SignerDict, target: SignerDict,
                      thresholds: Thresholds, room: nat)
    requires current.Valid() && target.Valid() && self in target.at
    requires |Others(self, current.at)| <= MAX_OTHER_SIGNERS
    ensures var plan := Plan(self, current, target, thresholds);
      IsReached(Run(isAddress, self, Before(current, thresholds, room), plan), target)
      <==> && WellTyped(isAddress, self, current.at, target.at)
           && FitsLimits(self, current.at, target.at, room)
           && DropsNobody(self, current.at, target.at)
           && (thresholds.med == THRESHOLD ==> thresholds.low == thresholds.high == THRESHOLD)
  {
    var start := Before(current, thresholds, room);
    var ops := SignerOperations(self, Diff(current, target));
    PlanRun(isAddress, self, current, target, start);
    RunIsOutcome(isAddress, self, start, ops);
    OutcomeReachesIff(self, current, target, start);
    if WellTyped(isAddress, self, current.at, target.at) && FitsLimits(self, current.at, target.at, room) {
      PlanIsAccepted(isAddress, self, current, target, start);
    }
    if Run(isAddress, self, start, ops).Some? {
      AcceptedPlanIsWellTyped(isAddress, self, current, target, start);
      if DropsNobody(self, current.at, target.at) {
        AcceptedPlanFits(isAddress, self, current, target, start);
      }
    }
  }

  lemma {:induction false} SelectSize(keys: seq<string>, pick: string -> Option<int>)
    ensures |Select(keys, pick)| <= |keys|
  {
    if keys == [] {
    } else {
      SelectSize(keys[..|keys| - 1], pick);
    }
  }

  lemma OrderBound(self: string, d: SignerDict)
    requires d.Valid()
    ensures |d.order| <= |Others(self, d.at)| + 1
  {
    OrderSize(d);
    OneMore(d.at.Keys, self);
  }

  lemma DiffSize(current: SignerDict, target: SignerDict)
    ensures |Diff(current, target)| <= 2 * |current.order| + |target.order|
  {
    SelectSize(current.order, Removal(target.at));
    SelectSize(current.order, Change(current.at, target.at));
    SelectSize(target.order, Addition(current.at, target.at));
  }

  lemma PlanIsShort(self: string, current: SignerDict, target: SignerDict, thresholds: Thresholds)
    requires current.Valid() && target.Valid()
    requires |Others(self, current.at)| <= MAX_OTHER_SIGNERS && |Others(self, target.at)| <= MAX_OTHER_SIGNERS
    ensures |Plan(self, current, target, thresholds)| <= MAX_OPERATIONS
  {
    OrderBound(self, current);
    OrderBound(self, target);
    DiffSize(current, target);
    PlanSize(self, current, target, thresholds);
  }

  lemma PlanSize(self: string, current: SignerDict, target: SignerDict, thresholds: Thresholds)
    ensures |Plan(self, current, target, thresholds)| <= |Diff(current, target)| + 1
  {
    SignerOperationsPrefix(self, Diff(current, target), 0);
  }

  // There is something to do.
  predicate NeedsPlan(current: map<string, int>, target: map<string, int>, thresholds: Thresholds) {
    current != target || thresholds.med != THRESHOLD
  }

  lemma DiffIsEmptyIff(current: SignerDict, target: SignerDict)
    requires current.Valid() && target.Valid()
    ensures Diff(current, target) == [] <==> current.at == target.at
  {
    var updates := Diff(current, target);
    if updates == [] {
      forall k
        ensures k in current.at <==> k in target.at
        ensures k in current.at && k in target.at ==> current.at[k] == target.at[k]
      {
        if Differs(current.at, target.at, k) {
          DiffNames(current, target, k);
        }
      }
    } else {
      UpdateDiffers(current, target, updates[0]);
    }
  }

  lemma DiffNames(current: SignerDict, target: SignerDict, k: string)
    requires current.Valid() && target.Valid() && Differs(current.at, target.at, k)
    ensures Signer(k, if k in target.at then target.at[k] else 0) in Diff(current, target)
  {
    DiffNamesExactlyTheChanges(current, target);
  }

  lemma PlanIsEmptyIff(self: string, current: SignerDict, target: SignerDict, thresholds: Thresholds)
    requires current.Valid() && target.Valid()
    ensures Plan(self, current, target, thresholds) == [] <==> !NeedsPlan(current.at, target.at, thresholds)
  {
    DiffIsEmptyIff(current, target);
    SignerOperationsPrefix(self, Diff(current, target), 0);
  }

  /** The emitted transaction is accepted, turns the current signers into exactly
      the target and leaves all three thresholds at 15, if and only if: there is
      something to do; every changed weight is a byte and every changed key a
      public key; the target has at most 20 signers besides the account's own and
      the reserve allows them; no other signer is to get weight 0; and an account
      whose medium threshold is 15 already has the others at 15. */
  lemma PlanReachesTargetIff(isAddress: string -> bool, self: string, current: SignerDict, target: SignerDict,
                             thresholds: Thresholds, room: nat)
    requires current.Valid() && target.Valid() && self in target.at
    requires |Others(self, current.at)| <= MAX_OTHER_SIGNERS
    ensures ReachesTarget(isAddress, self, current, target, thresholds, room)
      <==> && NeedsPlan(current.at, target.at, thresholds)
           && WellTyped(isAddress, self, current.at, target.at)
           && FitsLimits(self, current.at, target.at, room)
           && DropsNobody(self, current.at, target.at)
           && (thresholds.med == THRESHOLD ==> thresholds.low == thresholds.high == THRESHOLD)
  {
    RunReachesIff(isAddress, self, current, target, thresholds, room);
    PlanIsEmptyIff(self, current, target, thresholds);
    if FitsLimits(self, current.at, target.at, room) {
      PlanIsShort(self, current, target, thresholds);
    }
  }

  /** An entry may name any integer as a weight: one outside 1 to 255 for another
      signer, such as 0, 300 or -1, keeps the plan from its target. */
  lemma OddWeightFails(isAddress: string -> bool, self: string, key: string, weight: int, room: nat)
    requires key != self && !(0 < weight <= MAX_WEIGHT)
    ensures var current: SignerDict := Dict([self], map[self := MASTER_WEIGHT]);
      var target := current.Put(key, weight);
      current.Valid() && target.Valid() && !ReachesTarget(isAddress, self, current, target, ALL_THRESHOLDS, room)
  {
    var current: SignerDict := Dict([self], map[self := MASTER_WEIGHT]);
    var target := current.Put(key, weight);
    assert Others(self, current.at) == {};
    PlanReachesTargetIff(isAddress, self, current, target, ALL_THRESHOLDS, room);
    assert Differs(current.at, target.at, key);
  }

  // ------------------------------------------------ the plan, from the account's data

  predicate IsGoodWeight(w: int) {
    0 < w <= MAX_WEIGHT
  }

  // Every entry that names a signer names a public key with a positive byte.
  predicate NamesGoodSigners(isAddress: string -> bool, data: seq<(string, string)>) {
    forall i | 0 <= i < |data| && IsMasterKeyName(data[i].0) ::
      isAddress(data[i].1) && NamedWeight(data[i].0).Some? && IsGoodWeight(NamedWeight(data[i].0).value)
  }

  ghost predicate HoldsGoodSigners(isAddress: string -> bool, self: string, d: SignerDict) {
    d.Valid() && forall k | k in d.at :: IsGoodWeight(d.at[k]) && (k != self ==> isAddress(k))
  }

  lemma {:induction false} NamedSignersAreGood(isAddress: string -> bool, self: string, data: seq<(string, string)>)
    requires NamesGoodSigners(isAddress, data)
    ensures NamedSigners(data).Some? && HoldsGoodSigners(isAddress, self, NamedSigners(data).value)
  {
    if data == [] {
    } else {
      var front, last := data[..|data| - 1], data[|data| - 1];
      assert forall i | 0 <= i < |front| :: front[i] == data[i];
      NamedSignersAreGood(isAddress, self, front);
      assert data[|data| - 1] == last;
    }
  }

  lemma {:induction false} FilledAreGood(isAddress: string -> bool, self: string, base: SignerDict,
                                         candidates: seq<Signer>)
    requires HoldsGoodSigners(isAddress, self, base) && forall s | s in candidates :: isAddress(s.key)
    ensures HoldsGoodSigners(isAddress, self, Fill(base, candidates))
  {
    if candidates == [] {
    } else {
      var front, last := candidates[..|candidates| - 1], candidates[|candidates| - 1];
      assert candidates == front + [last];
      FilledAreGood(isAddress, self, base, front);
    }
  }

  lemma OthersCount(self: string, d: SignerDict)
    requires d.Valid() && self in d.at
    ensures |Others(self, d.at)| == |d.order| - 1
  {
    OrderSize(d);
    OneMore(d.at.Keys, self);
  }

  lemma GoodDataTarget(isAddress: string -> bool, data: seq<(string, string)>, self: string,
                       issuerSigners: seq<Signer>, issuer: string)
    requires NamesGoodSigners(isAddress, data)
    requires forall s | s in issuerSigners && s.key != issuer :: isAddress(s.key)
    requires Base(data, self).Some? ==> |Base(data, self).value.order| <= SIGNER_LIMIT
    ensures var target := Target(data, self, issuerSigners, issuer);
      && target.Some? && HoldsGoodSigners(isAddress, self, target.value)
      && self in target.value.at && |target.value.order| <= SIGNER_LIMIT
  {
    NamedSignersAreGood(isAddress, self, data);
    var base := Base(data, self).value;
    assert HoldsGoodSigners(isAddress, self, base);
    var candidates := Candidates(issuerSigners, issuer);
    forall s | s in candidates
      ensures isAddress(s.key)
    {
      CandidateIff(issuerSigners, issuer, s);
    }
    FilledAreGood(isAddress, self, base, candidates);
    FillKeepsBase(base, candidates);
  }

  lemma GoodTargetIsWellTyped(isAddress: string -> bool, self: string, current: SignerDict, target: SignerDict)
    requires forall k | k in current.at && k != self :: isAddress(k)
    requires HoldsGoodSigners(isAddress, self, target)
    ensures WellTyped(isAddress, self, current.at, target.at) && DropsNobody(self, current.at, target.at)
  {
    forall k | Differs(current.at, target.at, k)
      ensures (k in target.at ==> IsWeight(target.at[k])) && (k != self ==> isAddress(k))
    {
    }
  }

  lemma GoodTargetFits(self: string, current: SignerDict, target: SignerDict, room: nat)
    requires target.Valid() && self in target.at && |target.order| <= SIGNER_LIMIT
    requires |target.order| - 1 - |Others(self, current.at)| <= room
    ensures FitsLimits(self, current.at, target.at, room)
  {
    OthersCount(self, target);
  }

  // Nothing is left to do.
  ghost predicate IsThere(self: string, current: SignerDict, target: SignerDict, thresholds: Thresholds)
    requires current.Valid() && target.Valid()
  {
    && current.at == target.at && thresholds == ALL_THRESHOLDS
    && Plan(self, current, target, thresholds) == []
  }

  lemma GoodTargetIsReached(isAddress: string -> bool, self: string, current: SignerDict, target: SignerDict,
                            thresholds: Thresholds, room: nat)
    requires current.Valid() && forall k | k in current.at && k != self :: isAddress(k)
    requires |Others(self, current.at)| <= MAX_OTHER_SIGNERS
    requires HoldsGoodSigners(isAddress, self, target) && self in target.at && |target.order| <= SIGNER_LIMIT
    requires |target.order| - 1 - |Others(self, current.at)| <= room
    requires thresholds.med == THRESHOLD ==> thresholds.low == thresholds.high == THRESHOLD
    ensures ReachesTarget(isAddress, self, current, target, thresholds, room)
         || IsThere(self, current, target, thresholds)
  {
    GoodTargetFits(self, current, target, room);
    GoodTargetIsWellTyped(isAddress, self, current, target);
    PlanIsEmptyIff(self, current, target, thresholds);
    PlanReachesTargetIff(isAddress, self, current, target, thresholds, room);
  }

  /** From the account's data: if every entry that names a signer names a public
      key with a weight of 1 to 255, at most 21 signers are named (the account
      included), the reserve allows the target and the thresholds are not stuck,
      then the emitted transaction is accepted and reaches the target, unless the
      account is already there and the transaction is empty. */
  lemma GoodDataReachesTarget(isAddress: string -> bool, data: seq<(string, string)>, self: string,
                              issuerSigners: seq<Signer>, issuer: string,
                              current: SignerDict, thresholds: Thresholds, room: nat)
    requires NamesGoodSigners(isAddress, data)
    requires forall s | s in issuerSigners && s.key != issuer :: isAddress(s.key)
    requires current.Valid() && forall k | k in current.at && k != self :: isAddress(k)
    requires |Others(self, current.at)| <= MAX_OTHER_SIGNERS
    requires Base(data, self).Some? ==> |Base(data, self).value.order| <= SIGNER_LIMIT
    requires var target := Target(data, self, issuerSigners, issuer);
      target.Some? ==> |target.value.order| - 1 - |Others(self, current.at)| <= room
    requires thresholds.med == THRESHOLD ==> thresholds.low == thresholds.high == THRESHOLD
    ensures Target(data, self, issuerSigners, issuer).Some?
    ensures var target := Target(data, self, issuerSigners, issuer).value;
      && target.Valid()
      && (ReachesTarget(isAddress, self, current, target, thresholds, room)
          || IsThere(self, current, target, thresholds))
  {
    GoodDataTarget(isAddress, data, self, issuerSigners, issuer);
    GoodTargetIsReached(isAddress, self, current, Target(data, self, issuerSigners, issuer).value, thresholds, room);
  }

  // ------------------------------------------------ who controls the account

  // The weight of these signers together.
  function TotalOf(keys: seq<string>, weights: map<string, int>): int
    requires forall k | k in keys :: k in weights
  {
    if keys == [] then 0 else TotalOf(keys[..|keys| - 1], weights) + weights[keys[|keys| - 1]]
  }

  // Some signers together reach the threshold.
  ghost predicate IsControlled(signers: map<string, int>, threshold: int) {
    exists group: seq<string> :: Reaches(group, signers, threshold)
  }

  ghost predicate Reaches(group: seq<string>, signers: map<string, int>, threshold: int) {
    NoDuplicates(group) && (forall k | k in group :: k in signers) && TotalOf(group, signers) >= threshold
  }

  lemma {:induction false} SameTotal(keys: seq<string>, a: map<string, int>, b: map<string, int>)
    requires forall k | k in keys :: k in a && k in b && a[k] == b[k]
    ensures TotalOf(keys, a) == TotalOf(keys, b)
  {
    if keys == [] {
    } else {
      var last := keys[|keys| - 1];
      assert last in keys;
      SameTotal(keys[..|keys| - 1], a, b);
    }
  }

  lemma {:induction false} TotalWithout(keys: seq<string>, i: nat, weights: map<string, int>)
    requires i < |keys| && forall k | k in keys :: k in weights
    ensures TotalOf(keys, weights) == TotalOf(keys[..i] + keys[i + 1..], weights) + weights[keys[i]]
  {
    var n := |keys| - 1;
    var rest := keys[..i] + keys[i + 1..];
    if i == n {
      assert rest == keys[..n];
    } else {
      var front := keys[..n];
      TotalWithout(front, i, weights);
      assert rest[..|rest| - 1] == front[..i] + front[i + 1..];
      assert rest[|rest| - 1] == keys[n];
    }
  }

  lemma RestOfGroup(group: seq<string>, i: nat, keys: seq<string>)
    requires NoDuplicates(group) && i < |group| && keys != [] && group[i] == keys[|keys| - 1]
    requires forall k | k in group :: k in keys
    ensures var rest := group[..i] + group[i + 1..];
      NoDuplicates(rest) && forall k | k in rest :: k in group && k in keys[..|keys| - 1]
  {
    var rest := group[..i] + group[i + 1..];
    forall k | k in rest
      ensures k in group && k in keys[..|keys| - 1]
    {
      var j :| 0 <= j < |rest| && rest[j] == k;
      assert group[if j < i then j else j + 1] == k;
      assert keys == keys[..|keys| - 1] + [keys[|keys| - 1]];
    }
  }

  lemma {:induction false} GroupTotal(group: seq<string>, keys: seq<string>, weights: map<string, int>)
    requires NoDuplicates(group) && NoDuplicates(keys)
    requires forall k | k in group :: k in keys
    requires forall k | k in keys :: k in weights && weights[k] >= 0
    ensures TotalOf(group, weights) <= TotalOf(keys, weights)
  {
    assert group != [] ==> group[0] in keys;
    if keys == [] {
    } else {
      var front, last := keys[..|keys| - 1], keys[|keys| - 1];
      assert keys == front + [last];
      if last in group {
        var i :| 0 <= i < |group| && group[i] == last;
        var rest := group[..i] + group[i + 1..];
        TotalWithout(group, i, weights);
        RestOfGroup(group, i, keys);
        GroupTotal(rest, front, weights);
      } else {
        GroupTotal(group, front, weights);
      }
    }
  }

  // Without negative weights, all signers together decide.
  lemma ControlledIff(d: SignerDict, threshold: int)
    requires d.Valid() && forall k | k in d.at :: d.at[k] >= 0
    ensures IsControlled(d.at, threshold) <==> TotalOf(d.order, d.at) >= threshold
  {
    if TotalOf(d.order, d.at) >= threshold {
      assert Reaches(d.order, d.at, threshold);
    } else {
      forall group: seq<string>
        ensures !Reaches(group, d.at, threshold)
      {
        if NoDuplicates(group) && forall k | k in group :: k in d.at {
          GroupTotal(group, d.order, d.at);
        }
      }
    }
  }

  lemma PutTotal(d: SignerDict, key: string, weight: int)
    requires d.Valid() && key !in d.at
    ensures var after := d.Put(key, weight);
      after.Valid() && TotalOf(after.order, after.at) == TotalOf(d.order, d.at) + weight
  {
    var after := d.Put(key, weight);
    assert after.order[..|d.order|] == d.order;
    SameTotal(d.order, d.at, after.at);
  }

  lemma {:induction false} FillTotal(base: SignerDict, candidates: seq<Signer>)
    requires base.Valid()
    ensures Fill(base, candidates).Valid() && |Fill(base, candidates).order| >= |base.order|
    ensures var d := Fill(base, candidates);
      TotalOf(d.order, d.at) == TotalOf(base.order, base.at) + |d.order| - |base.order|
  {
    if candidates == [] {
    } else {
      var front, key := candidates[..|candidates| - 1], candidates[|candidates| - 1].key;
      FillTotal(base, front);
      var before := Fill(base, front);
      if |before.order| < SIGNER_LIMIT && key !in before.at {
        PutTotal(before, key, 1);
      }
    }
  }

  /** Once the target is reached and the thresholds are 15, the account can still
      be controlled if and only if the named weights and one for each signer added
      come to 15; that is so whenever the own key is not named with less than 15. */
  lemma ControlIsKeptIff(data: seq<(string, string)>, self: string, issuerSigners: seq<Signer>, issuer: string)
    requires Target(data, self, issuerSigners, issuer).Some?
    requires forall k | k in Base(data, self).value.at :: Base(data, self).value.at[k] >= 0
    ensures var base := Base(data, self).value;
      var target := Target(data, self, issuerSigners, issuer).value;
      && base.Valid() && self in base.at
      && (IsControlled(target.at, THRESHOLD)
          <==> TotalOf(base.order, base.at) + |target.order| - |base.order| >= THRESHOLD)
      && (base.at[self] >= THRESHOLD ==> IsControlled(target.at, THRESHOLD))
  {
    NamedSignersValid(data);
    var base := Base(data, self).value;
    var candidates := Candidates(issuerSigners, issuer);
    var target := Target(data, self, issuerSigners, issuer).value;
    FillTotal(base, candidates);
    FillKeepsBase(base, candidates);
    ControlledIff(target, THRESHOLD);
    if base.at[self] >= THRESHOLD {
      OwnWeightControls(self, target.at);
    }
  }

  lemma OwnWeightControls(self: string, signers: map<string, int>)
    requires self in signers && signers[self] >= THRESHOLD
    ensures IsControlled(signers, THRESHOLD)
  {
    assert [self][..0] == [];
    assert Reaches([self], signers, THRESHOLD);
  }

  /** An account that names its own key with a weight under 15, and nobody else,
      is locked out by its own plan. */
  lemma LowOwnWeightLocksOut(isAddress: string -> bool, self: string, name: string, issuer: string, room: nat)
    requires IsMasterKeyName(name) && NamedWeight(name).Some? && 0 <= NamedWeight(name).value < THRESHOLD
    ensures var target := Target([(name, self)], self, [], issuer);
      var current: SignerDict := Dict([self], map[self := 1]);
      && target.Some? && target.value.Valid() && current.Valid()
      && ReachesTarget(isAddress, self, current, target.value, Thresholds(0, 0, 0), room)
      && !IsControlled(target.value.at, THRESHOLD)
  {
    var w := NamedWeight(name).value;
    var data := [(name, self)];
    var current: SignerDict := Dict([self], map[self := 1]);
    assert data[..0] == [];
    assert NamedSigners(data[..0]) == Some(Empty());
    var empty: SignerDict := Empty();
    assert empty.Put(self, w).order == [self] && empty.Put(self, w).at == map[self := w];
    assert NamedSigners(data) == Some(empty.Put(self, w));
    assert Candidates([], issuer) == [];
    var target: SignerDict := Dict([self], map[self := w]);
    assert Target(data, self, [], issuer) == Some(target);
    assert Others(self, target.at) == {} && Others(self, current.at) == {};
    PlanReachesTargetIff(isAddress, self, current, target, Thresholds(0, 0, 0), room);
    assert [self][..0] == [];
    ControlledIff(target, THRESHOLD);
  }

  // The trailing threshold operation, if any, leaves the signers alone.
  lemma PlanPrefix(self: string, current: SignerDict, target: SignerDict, account: Account, n: nat)
    requires n <= |Plan(self, current, target, account.thresholds)|
    ensures var updates := Diff(current, target);
      Outcome(self, account, Plan(self, current, target, account.thresholds)[..n]).signers
      == Outcome(self, account, SignerOperations(self, updates[..if n > |updates| then |updates| else n])).signers
  {
    var plan := Plan(self, current, target, account.thresholds);
    var updates := Diff(current, target);
    var m := if n > |updates| then |updates| else n;
    SignerOperationsPrefix(self, updates, |updates|);
    SignerOperationsPrefix(self, updates, m);
    var ops := plan[..m];
    assert ops == SignerOperations(self, updates[..m]);
    if n > m {
      assert plan[..n] == ops + [SetThresholds(ALL_THRESHOLDS)];
      assert plan[..n][..m] == ops;
    }
  }

  /** At no point during the run does the account hold more signers than the
      larger of the two tables: removals come first, additions last. */
  lemma PrefixSignerBound(isAddress: string -> bool, self: string, current: SignerDict, target: SignerDict,
                          thresholds: Thresholds, room: nat, n: nat)
    requires current.Valid() && target.Valid() && self in target.at
    requires n <= |Plan(self, current, target, thresholds)|
    requires Run(isAddress, self, Before(current, thresholds, room), Plan(self, current, target, thresholds)[..n]).Some?
    ensures var plan := Plan(self, current, target, thresholds);
      var now := Run(isAddress, self, Before(current, thresholds, room), plan[..n]).value;
      |now.signers| <= (if |current.at| < |target.at| then |target.at| else |current.at|)
  {
    var start := Before(current, thresholds, room);
    var m := if n > |Diff(current, target)| then |Diff(current, target)| else n;
    RunIsOutcome(isAddress, self, start, Plan(self, current, target, thresholds)[..n]);
    PlanPrefix(self, current, target, start, n);
    PrefixKeys(self, current, target, start, m);
    var now := Outcome(self, start, SignerOperations(self, Diff(current, target)[..m])).signers;
    if now.Keys <= current.at.Keys {
      SubsetIsNoLarger(now.Keys, current.at.Keys);
    } else {
      SubsetIsNoLarger(now.Keys, target.at.Keys);
    }
  }
}
