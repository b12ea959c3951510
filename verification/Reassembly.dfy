/**
 * Reassembly of a transaction that Telegram split over several messages: a long
 * part is appended to a buffer and its handler sleeps; a short text takes the
 * buffer along, and so does a sleeper that wakes.
 */
module Reassembly {
  import opened Prelude

  const LONG_TEXT: nat := 4096

  // The buffer, and the texts handlers went on to check, in order.
  datatype State = State(part: string, proceeded: seq<string>)

  function Receive(s: State, text: string): State {
    if |text| >= LONG_TEXT then s.(part := s.part + text)
    else State("", s.proceeded + [s.part + text])
  }

  // A sleeper that finds the buffer empty returns; otherwise it puts the buffer
  // before the text to check, which by then is the buffer itself.
  function Wake(s: State): State {
    if s.part == "" then s else State("", s.proceeded + [s.part + s.part])
  }

  datatype Outcome = Sleeps | Returns | Proceeds(text: string)

  function Recorded(proceeded: seq<string>, outcome: Outcome): seq<string> {
    if outcome.Proceeds? then proceeded + [outcome.text] else proceeded
  }

  class Session {
    var partXdr: string

    constructor ()
      ensures partXdr == ""
    {
      partXdr := "";
    }

    // A handler up to its sleep, or to the end if the text is short.
    method CheckXdr(text: string, ghost proceeded: seq<string>) returns (outcome: Outcome)
      modifies this
      ensures State(partXdr, Recorded(proceeded, outcome)) == Receive(State(old(partXdr), proceeded), text)
      ensures outcome.Sleeps? <==> |text| >= LONG_TEXT
    {
      if |text| >= LONG_TEXT {
        partXdr := partXdr + text;
        return Sleeps;
      }
      var checkXdr := text;
      if partXdr != "" {
        checkXdr := partXdr + checkXdr;
        partXdr := "";
      }
      assert checkXdr == old(partXdr) + text;
      return Proceeds(checkXdr);
    }

    // The handler after its sleep.
    method Resume(ghost proceeded: seq<string>) returns (outcome: Outcome)
      modifies this
      ensures State(partXdr, Recorded(proceeded, outcome)) == Wake(State(old(partXdr), proceeded))
      ensures !outcome.Sleeps?
    {
      if |partXdr| == 0 {
        return Returns;
      }
      var checkXdr := partXdr;
      checkXdr := partXdr + checkXdr;
      partXdr := "";
      return Proceeds(checkXdr);
    }
  }

  // ---------------------------------------------------------------- schedules

  // A message arrives, or the handler of the i-th long part wakes.
  datatype Event = Message(text: string) | WakeUp(part: nat)

  predicate IsLong(e: Event) {
    e.Message? && |e.text| >= LONG_TEXT
  }

  predicate IsTail(e: Event) {
    e.Message? && |e.text| < LONG_TEXT
  }

  function Next(s: State, e: Event): State {
    match e
    case Message(text) => Receive(s, text)
    case WakeUp(_) => Wake(s)
  }

  function Run(events: seq<Event>, n: nat): State
    requires n <= |events|
  {
    if n == 0 then State("", []) else Next(Run(events, n - 1), events[n - 1])
  }

  function LongCount(events: seq<Event>, n: nat): nat
    requires n <= |events|
  {
    if n == 0 then 0 else LongCount(events, n - 1) + if IsLong(events[n - 1]) then 1 else 0
  }

  // The whole text, as it was before it was split.
  function Full(events: seq<Event>, n: nat): string
    requires n <= |events|
  {
    if n == 0 then "" else Full(events, n - 1) + if events[n - 1].Message? then events[n - 1].text else ""
  }

  ghost predicate TailIsLast(events: seq<Event>) {
    forall n, m | 0 <= n < m < |events| && IsTail(events[n]) :: events[m].WakeUp?
  }

  ghost predicate WakesFollowParts(events: seq<Event>) {
    forall n | 0 <= n < |events| && events[n].WakeUp? :: events[n].part < LongCount(events, n)
  }

  // The handler of the n-th event's part wakes later.
  ghost predicate Wakes(events: seq<Event>, n: nat)
    requires n < |events|
  {
    exists m :: n < m < |events| && events[m] == WakeUp(LongCount(events, n))
  }

  ghost predicate EverySleeperWakes(events: seq<Event>) {
    forall n | 0 <= n < |events| && IsLong(events[n]) :: Wakes(events, n)
  }

  /** A complete schedule of one split text: long parts, then possibly one short
      tail, and the handler of every long part wakes after its part arrived. */
  ghost predicate IsSchedule(events: seq<Event>) {
    TailIsLast(events) && WakesFollowParts(events) && EverySleeperWakes(events)
  }

  // Exactly one handler goes on, with the text as it was, and the buffer is empty.
  ghost predicate Reassembles(events: seq<Event>) {
    Run(events, |events|) == State("", [Full(events, |events|)])
  }

  // The short tail arrives before any sleeper wakes.
  ghost predicate TailComesFirst(events: seq<Event>) {
    exists n :: 0 <= n < |events| && IsTail(events[n]) && (forall m | 0 <= m < n :: !events[m].WakeUp?)
  }

  lemma {:induction false} BeforeAnyWake(events: seq<Event>, n: nat)
    requires n <= |events| && forall m | 0 <= m < n :: IsLong(events[m])
    ensures Run(events, n) == State(Full(events, n), [])
    ensures LongCount(events, n) == n && (n > 0 ==> Full(events, n) != "")
  {
    if n == 0 {
    } else {
      BeforeAnyWake(events, n - 1);
    }
  }

  ghost predicate OnlyWakeUps(events: seq<Event>, n: nat, m: nat)
    requires n <= m <= |events|
  {
    forall k | n <= k < m :: events[k].WakeUp?
  }

  lemma {:induction false} OnlyWakes(events: seq<Event>, n: nat, m: nat)
    requires n <= m <= |events| && OnlyWakeUps(events, n, m)
    ensures Full(events, m) == Full(events, n)
    ensures Run(events, n).part == "" ==> Run(events, m) == Run(events, n)
  {
    if n < m {
      OnlyWakes(events, n, m - 1);
    }
  }

  // Nothing is taken back, and a buffer is only emptied by going on with it.
  lemma {:induction false} EmptyingProceeds(events: seq<Event>, n: nat, m: nat)
    requires n <= m <= |events|
    ensures |Run(events, n).proceeded| <= |Run(events, m).proceeded|
    ensures Run(events, n).part != "" && Run(events, m).part == "" ==>
      |Run(events, n).proceeded| < |Run(events, m).proceeded|
  {
    if n < m {
      EmptyingProceeds(events, n, m - 1);
    }
  }

  lemma TailFirstReassembles(events: seq<Event>)
    requires TailIsLast(events) && TailComesFirst(events)
    ensures Reassembles(events)
  {
    var n :| 0 <= n < |events| && IsTail(events[n]) && (forall m | 0 <= m < n :: !events[m].WakeUp?);
    forall m | 0 <= m < n
      ensures IsLong(events[m])
    {
      assert !IsTail(events[m]);
    }
    BeforeAnyWake(events, n);
    assert Run(events, n + 1) == State("", [Full(events, n + 1)]);
    OnlyWakes(events, n + 1, |events|);
  }

  // The first wake-up finds the parts that arrived before it and goes on with them twice.
  lemma FirstWakeDoubles(events: seq<Event>, n: nat) returns (text: string)
    requires WakesFollowParts(events) && n < |events| && events[n].WakeUp?
    requires forall m | 0 <= m < n :: IsLong(events[m])
    ensures text == Full(events, n + 1) + Full(events, n + 1) && text != Full(events, n + 1)
    ensures Run(events, n + 1) == State("", [text])
  {
    BeforeAnyWake(events, n);
    assert Run(events, n + 1) == Wake(Run(events, n));
    text := Full(events, n) + Full(events, n);
    assert |text| > |Full(events, n)|;
  }

  // A part that arrives makes a handler go on, sooner or later.
  lemma PartProceeds(events: seq<Event>, n: nat)
    requires n < |events| && IsLong(events[n]) && Wakes(events, n)
    ensures |Run(events, n).proceeded| < |Run(events, |events|).proceeded|
  {
    var m :| n < m < |events| && events[m] == WakeUp(LongCount(events, n));
    assert Run(events, n + 1) == Receive(Run(events, n), events[n].text);
    assert Run(events, m + 1) == Wake(Run(events, m));
    EmptyingProceeds(events, n + 1, m + 1);
    EmptyingProceeds(events, m + 1, |events|);
  }

  // So does a short text.
  lemma TailProceeds(events: seq<Event>, n: nat)
    requires n < |events| && IsTail(events[n])
    ensures |Run(events, n).proceeded| < |Run(events, |events|).proceeded|
  {
    assert Run(events, n + 1) == Receive(Run(events, n), events[n].text);
    EmptyingProceeds(events, n + 1, |events|);
  }

  // Nobody else goes on.
  lemma LoneWakeSpoils(events: seq<Event>, n: nat, text: string)
    requires n <= |events| && OnlyWakeUps(events, n, |events|)
    requires Run(events, n) == State("", [text]) && text != Full(events, n)
    ensures !Reassembles(events)
  {
    OnlyWakes(events, n, |events|);
    assert [text][0] != [Full(events, n)][0];
  }

  // Somebody else goes on too.
  lemma LateMessageSpoils(events: seq<Event>, n: nat, k: nat)
    requires EverySleeperWakes(events) && n < k < |events| && events[k].Message?
    requires |Run(events, n + 1).proceeded| == 1
    ensures !Reassembles(events)
  {
    EmptyingProceeds(events, n + 1, k);
    if IsLong(events[k]) {
      PartProceeds(events, k);
    } else {
      TailProceeds(events, k);
    }
  }

  lemma NextMessage(events: seq<Event>, n: nat) returns (k: nat)
    requires n <= |events|
    ensures n <= k <= |events| && (k < |events| ==> events[k].Message?)
    ensures OnlyWakeUps(events, n, k)
  {
    k := n;
    while k < |events| && events[k].WakeUp?
      invariant n <= k <= |events| && OnlyWakeUps(events, n, k)
    {
      k := k + 1;
    }
  }

  lemma EarlyWakeSpoils(events: seq<Event>, n: nat, text: string)
    requires EverySleeperWakes(events) && n < |events|
    requires Run(events, n + 1) == State("", [text]) && text != Full(events, n + 1)
    ensures !Reassembles(events)
  {
    var k := NextMessage(events, n + 1);
    if k < |events| {
      LateMessageSpoils(events, n, k);
    } else {
      LoneWakeSpoils(events, n + 1, text);
    }
  }

  /** A split text is put together again, by exactly one handler, if and only if
      its short tail arrives before any sleeper wakes. */
  lemma ReassemblesIff(events: seq<Event>)
    requires IsSchedule(events)
    ensures Reassembles(events) <==> TailComesFirst(events)
  {
    if TailComesFirst(events) {
      TailFirstReassembles(events);
    } else if exists n :: 0 <= n < |events| && events[n].WakeUp? {
      var n := FirstWake(events);
      forall m | 0 <= m < n
        ensures IsLong(events[m])
      {
        assert !IsTail(events[m]);
      }
      var text := FirstWakeDoubles(events, n);
      EarlyWakeSpoils(events, n, text);
    } else if events != [] {
      assert !IsTail(events[0]);
      NeverWoken(events);
    }
  }

  lemma FirstWake(events: seq<Event>) returns (n: nat)
    requires exists n :: 0 <= n < |events| && events[n].WakeUp?
    ensures n < |events| && events[n].WakeUp? && forall m | 0 <= m < n :: !events[m].WakeUp?
  {
    n := 0;
    while !events[n].WakeUp?
      invariant n < |events| && forall m | 0 <= m < n :: !events[m].WakeUp?
      decreases |events| - n
    {
      n := n + 1;
    }
  }

  // A part whose handler never wakes is no schedule.
  lemma NeverWoken(events: seq<Event>)
    requires events != [] && IsLong(events[0]) && forall n | 0 <= n < |events| :: !events[n].WakeUp?
    ensures !EverySleeperWakes(events)
  {
    assert !Wakes(events, 0);
  }

  /** A text of one long message alone, such as a long transaction relayed by
      WalletConnect, is always checked twice over. */
  lemma LoneLongMessageDoubles(text: string)
    requires |text| >= 4096
    ensures IsSchedule([Message(text), WakeUp(0)])
    ensures Run([Message(text), WakeUp(0)], 2) == State("", [text + text])
  {
    var events := [Message(text), WakeUp(0)];
    assert LongCount(events, 0) == 0 && LongCount(events, 1) == 1;
    assert events[1] == WakeUp(LongCount(events, 0));
    assert Run(events, 0) == State("", []);
    assert Wakes(events, 0);
    assert Run(events, 1) == State("" + text, []);
    assert "" + text == text;
    assert Run(events, 2) == Wake(Run(events, 1));
  }
}
