/**
 * Sealed boxes handed to the web app for decryption: one expiring Redis key a
 * request, one a user naming it, and the two queues that tell the bot.
 * Each bot call, web request or worker run is one atomic step.
 */
module SealedBoxes {
  import opened Prelude

  type User = int

  const SEALEDBOX_TTL := 600.0
  const MAX_PLAINTEXT_BYTES: nat := 10 * 1024 * 1024

  datatype Status = Pending | Completed | RelayPending

  // plaintext: the size of what is stored for a relay; 0 when there is nothing to decode.
  datatype Box = Box(user: User, status: Status, expiry: real, plaintext: nat)

  datatype Pointer = Pointer(token: string, expiry: real)

  datatype Message = Message(token: string, user: User)

  // used: the tokens ever handed out; the queues keep every message ever pushed.
  datatype State = State(
    now: real,
    boxes: map<string, Box>,
    pointers: map<User, Pointer>,
    used: set<string>,
    completed: seq<Message>,
    relayed: seq<Message>)

  // lag: how much later than the request the user key is written.  requester: the
  // user that the web request's init data proves, if any.
  datatype Step =
    | Tick(elapsed: real)
    | Publish(user: User, token: string, lag: real)
    | ClearUser(user: User)
    | Complete(token: string, requester: Option<User>)
    | Relay(token: string, requester: Option<User>, size: nat)
    | CompletedWorker(message: Message)
    | RelayWorker(message: Message)

  const INITIAL := State(0.0, map[], map[], {}, [], [])

  // Keys past their expiry read as absent.
  predicate LiveBox(s: State, token: string) {
    token in s.boxes && s.now < s.boxes[token].expiry
  }

  predicate LivePointer(s: State, user: User) {
    user in s.pointers && s.now < s.pointers[user].expiry
  }

  function Clear(s: State, user: User): State {
    if LivePointer(s, user)
    then s.(boxes := s.boxes - {s.pointers[user].token}, pointers := s.pointers - {user})
    else s.(pointers := s.pointers - {user})
  }

  predicate IsOpenTo(s: State, token: string, requester: Option<User>) {
    LiveBox(s, token) && requester == Some(s.boxes[token].user) && s.boxes[token].status == Pending
  }

  function Put(s: State, user: User, token: string, lag: real): State {
    s.(boxes := s.boxes[token := Box(user, Pending, s.now + SEALEDBOX_TTL, 0)],
       pointers := s.pointers[user := Pointer(token, s.now + lag + SEALEDBOX_TTL)],
       used := s.used + {token})
  }

  function Mark(s: State, token: string, status: Status, plaintext: nat): State
    requires token in s.boxes
  {
    s.(boxes := s.boxes[token := s.boxes[token].(status := status, plaintext := plaintext)])
  }

  predicate Delivers(s: State, m: Message, status: Status) {
    LiveBox(s, m.token) && s.boxes[m.token].user == m.user && s.boxes[m.token].status == status
  }

  // What is stored can be sent: it decodes, is not empty and not too large.
  predicate HasPayload(box: Box) {
    0 < box.plaintext <= MAX_PLAINTEXT_BYTES
  }

  // A relayed box goes, and the user's key with it if it still names the box.
  function Drop(s: State, m: Message): State {
    s.(boxes := s.boxes - {m.token},
       pointers :=
         if LivePointer(s, m.user) && s.pointers[m.user].token == m.token then s.pointers - {m.user} else s.pointers)
  }

  // A step that is refused changes nothing; a fresh token never repeats.
  function Next(s: State, step: Step): State {
    match step
    case Tick(elapsed) => if elapsed >= 0.0 then s.(now := s.now + elapsed) else s
    case Publish(user, token, lag) => if token in s.used || lag < 0.0 then s else Put(Clear(s, user), user, token, lag)
    case ClearUser(user) => Clear(s, user)
    case Complete(token, requester) =>
      if !IsOpenTo(s, token, requester) then s
      else Mark(s, token, Completed, 0).(completed := s.completed + [Message(token, s.boxes[token].user)])
    case Relay(token, requester, size) =>
      if !IsOpenTo(s, token, requester) || size == 0 || size > MAX_PLAINTEXT_BYTES then s
      else
        Mark(s, token, RelayPending, size).(relayed := s.relayed + [Message(token, s.boxes[token].user)])
    case CompletedWorker(m) => if Delivers(s, m, Completed) then Clear(s, m.user) else s
    case RelayWorker(m) =>
      if Delivers(s, m, RelayPending) && HasPayload(s.boxes[m.token]) then Drop(s, m) else s
  }

  // What the web app replies: success or an HTTP error.
  datatype Reply = Accepted | Refused(code: nat)

  // The Redis keys and the two queues.
  class Store {
    var now: real
    var boxes: map<string, Box>
    var pointers: map<User, Pointer>
    ghost var used: set<string>
    var completed: seq<Message>
    var relayed: seq<Message>

    ghost function Current(): State
      reads this
    {
      State(now, boxes, pointers, used, completed, relayed)
    }

    constructor ()
      ensures Current() == INITIAL
    {
      now, boxes, pointers, used, completed, relayed := 0.0, map[], map[], {}, [], [];
    }

    method ClearPendingSealedBox(user: User) returns (cleared: bool)
      modifies this
      ensures Current() == Clear(old(Current()), user)
      ensures cleared == LivePointer(old(Current()), user)
    {
      cleared := user in pointers && now < pointers[user].expiry;
      if cleared {
        boxes := boxes - {pointers[user].token};
      }
      pointers := pointers - {user};
    }

    // The token is new: it holds 160 random bits.
    method PublishPendingSealedBox(user: User, token: string, lag: real)
      requires token !in used && lag >= 0.0
      modifies this
      ensures Current() == Next(old(Current()), Publish(user, token, lag))
    {
      var cleared := ClearPendingSealedBox(user);
      boxes := boxes[token := Box(user, Pending, now + SEALEDBOX_TTL, 0)];
      pointers := pointers[user := Pointer(token, now + lag + SEALEDBOX_TTL)];
      used := used + {token};
    }

    method OwnedSealedBoxRequest(token: string, requester: Option<User>) returns (reply: Reply)
      ensures reply.Accepted? <==> LiveBox(Current(), token) && requester == Some(boxes[token].user)
      ensures reply.Refused? ==>
        reply.code == if !LiveBox(Current(), token) then 404 else if requester.None? then 401 else 403
    {
      if token !in boxes || now >= boxes[token].expiry {
        return Refused(404);
      }
      if requester.None? {
        return Refused(401);
      }
      if requester.value != boxes[token].user {
        return Refused(403);
      }
      return Accepted;
    }

    method CompleteSealedBox(token: string, requester: Option<User>) returns (reply: Reply)
      modifies this
      ensures Current() == Next(old(Current()), Complete(token, requester))
      ensures reply.Accepted? <==> IsOpenTo(old(Current()), token, requester)
    {
      reply := OwnedSealedBoxRequest(token, requester);
      if reply.Refused? {
        return;
      }
      if boxes[token].status != Pending {
        return Refused(409);
      }
      var user := boxes[token].user;
      boxes := boxes[token := boxes[token].(status := Completed, plaintext := 0)];
      completed := completed + [Message(token, user)];
    }

    method RelaySealedBox(token: string, requester: Option<User>, size: nat) returns (reply: Reply)
      modifies this
      ensures Current() == Next(old(Current()), Relay(token, requester, size))
      ensures reply.Accepted? <==>
        IsOpenTo(old(Current()), token, requester) && 0 < size <= MAX_PLAINTEXT_BYTES
    {
      reply := OwnedSealedBoxRequest(token, requester);
      if reply.Refused? {
        return;
      }
      if boxes[token].status != Pending {
        return Refused(409);
      }
      if size == 0 {
        return Refused(400);
      }
      if size > MAX_PLAINTEXT_BYTES {
        return Refused(413);
      }
      var user := boxes[token].user;
      boxes := boxes[token := boxes[token].(status := RelayPending, plaintext := size)];
      relayed := relayed + [Message(token, user)];
    }

    method HandleSealedBoxCompleted(message: Message)
      modifies this
      ensures Current() == Next(old(Current()), CompletedWorker(message))
    {
      var token := message.token;
      if token in boxes && now < boxes[token].expiry {
        if boxes[token].user == message.user && boxes[token].status == Completed {
          var cleared := ClearPendingSealedBox(message.user);
        }
      }
    }

    method HandleSealedBoxRelay(message: Message)
      modifies this
      ensures Current() == Next(old(Current()), RelayWorker(message))
    {
      var token := message.token;
      if token !in boxes || now >= boxes[token].expiry {
        return;
      }
      if boxes[token].user != message.user || boxes[token].status != RelayPending {
        return;
      }
      if boxes[token].plaintext == 0 || boxes[token].plaintext > MAX_PLAINTEXT_BYTES {
        return;
      }
      var isActive := false;
      if message.user in pointers && now < pointers[message.user].expiry {
        isActive := pointers[message.user].token == token;
      }
      boxes := boxes - {token};
      if isActive {
        pointers := pointers - {message.user};
      }
    }
  }

  function Run(s: State, steps: seq<Step>): State {
    if steps == [] then s else Next(Run(s, steps[..|steps| - 1]), steps[|steps| - 1])
  }

  // ---------------------------------------------- one live sealed box a user

  // The box is its user's newest: the key of the user names it and expires no earlier.
  predicate Pointed(s: State, token: string)
    requires token in s.boxes
  {
    var user := s.boxes[token].user;
    user in s.pointers && s.pointers[user].token == token && s.pointers[user].expiry >= s.boxes[token].expiry
  }

  /** A request that has not expired is the one its user's key names. */
  ghost predicate PointersAgree(s: State) {
    && (forall token | LiveBox(s, token) :: Pointed(s, token))
    && (forall user | user in s.pointers && s.pointers[user].token in s.boxes ::
          s.boxes[s.pointers[user].token].user == user)
    && s.boxes.Keys <= s.used
    && (forall user | user in s.pointers :: s.pointers[user].token in s.used)
  }

  lemma ClearKeepsPointers(s: State, user: User)
    requires PointersAgree(s)
    ensures PointersAgree(Clear(s, user))
    ensures forall token | LiveBox(Clear(s, user), token) :: Clear(s, user).boxes[token].user != user
  {
    var next := Clear(s, user);
    forall token | LiveBox(next, token)
      ensures Pointed(next, token) && next.boxes[token].user != user
    {
      assert LiveBox(s, token) && Pointed(s, token);
    }
  }

  lemma PutKeepsPointers(s: State, user: User, token: string, lag: real)
    requires PointersAgree(s) && token !in s.used && lag >= 0.0
    requires forall t | LiveBox(s, t) :: s.boxes[t].user != user
    ensures PointersAgree(Put(s, user, token, lag))
  {
    var next := Put(s, user, token, lag);
    forall t | LiveBox(next, t)
      ensures Pointed(next, t)
    {
      assert t != token ==> LiveBox(s, t) && Pointed(s, t);
    }
  }

  lemma MarkKeepsPointers(s: State, token: string, status: Status, plaintext: nat)
    requires PointersAgree(s) && token in s.boxes
    ensures PointersAgree(Mark(s, token, status, plaintext))
  {
    var next := Mark(s, token, status, plaintext);
    forall t | LiveBox(next, t)
      ensures Pointed(next, t)
    {
      assert LiveBox(s, t) && Pointed(s, t);
    }
  }

  lemma DropKeepsPointers(s: State, m: Message)
    requires PointersAgree(s) && Delivers(s, m, RelayPending)
    ensures PointersAgree(Drop(s, m))
  {
    var next := Drop(s, m);
    forall t | LiveBox(next, t)
      ensures Pointed(next, t)
    {
      assert LiveBox(s, t) && Pointed(s, t) && Pointed(s, m.token);
    }
  }

  lemma NextKeepsPointers(s: State, step: Step)
    requires PointersAgree(s)
    ensures PointersAgree(Next(s, step))
  {
    match step
    case Tick(elapsed) =>
      assert forall t | elapsed >= 0.0 && LiveBox(Next(s, step), t) :: LiveBox(s, t);
    case Publish(user, token, lag) =>
      ClearKeepsPointers(s, user);
      if token !in s.used && lag >= 0.0 {
        PutKeepsPointers(Clear(s, user), user, token, lag);
      }
    case ClearUser(user) => ClearKeepsPointers(s, user);
    case Complete(token, requester) =>
      if IsOpenTo(s, token, requester) {
        MarkKeepsPointers(s, token, Completed, 0);
        SameBoxes(Mark(s, token, Completed, 0), Next(s, step));
      }
    case Relay(token, requester, size) =>
      if IsOpenTo(s, token, requester) {
        MarkKeepsPointers(s, token, RelayPending, size);
        if Next(s, step) != s {
          SameBoxes(Mark(s, token, RelayPending, size), Next(s, step));
        }
      }
    case CompletedWorker(m) => ClearKeepsPointers(s, m.user);
    case RelayWorker(m) =>
      if Delivers(s, m, RelayPending) {
        DropKeepsPointers(s, m);
      }
  }

  lemma SameBoxes(s: State, next: State)
    requires PointersAgree(s)
    requires next.now == s.now && next.boxes == s.boxes && next.pointers == s.pointers && next.used == s.used
    ensures PointersAgree(next)
  {
    forall t | LiveBox(next, t)
      ensures Pointed(next, t)
    {
      assert LiveBox(s, t) && Pointed(s, t);
    }
  }

  lemma {:induction false} RunKeepsPointers(steps: seq<Step>)
    ensures PointersAgree(Run(INITIAL, steps))
  {
    if steps == [] {
    } else {
      RunKeepsPointers(steps[..|steps| - 1]);
      NextKeepsPointers(Run(INITIAL, steps[..|steps| - 1]), steps[|steps| - 1]);
    }
  }

  /** In every run a user has at most one live request, the user's key names
      it and outlives it, and clearing leaves the user none. */
  lemma OneLiveBoxPerUser(steps: seq<Step>, token: string)
    requires LiveBox(Run(INITIAL, steps), token)
    ensures var s := Run(INITIAL, steps);
      var user := s.boxes[token].user;
      && LivePointer(s, user) && s.pointers[user].token == token
      && (forall other | LiveBox(s, other) && s.boxes[other].user == user :: other == token)
      && (forall other | LiveBox(Clear(s, user), other) :: Clear(s, user).boxes[other].user != user)
  {
    var s := Run(INITIAL, steps);
    RunKeepsPointers(steps);
    ClearKeepsPointers(s, s.boxes[token].user);
    forall other | LiveBox(s, other)
      ensures Pointed(s, other)
    {
    }
  }

  ghost predicate RelaysHavePayload(s: State) {
    forall token | token in s.boxes && s.boxes[token].status == RelayPending :: HasPayload(s.boxes[token])
  }

  /** A request that waits for its relay always has a plaintext that can be sent,
      so the relay worker never has to ignore it for its payload. */
  lemma {:induction false} RelaysAlwaysHavePayload(steps: seq<Step>)
    ensures RelaysHavePayload(Run(INITIAL, steps))
  {
    if steps == [] {
    } else {
      RelaysAlwaysHavePayload(steps[..|steps| - 1]);
    }
  }

  // ------------------------------------------------------ at-most-once hand-off

  function Count(queue: seq<Message>, token: string): nat {
    if queue == [] then 0
    else Count(queue[..|queue| - 1], token) + if queue[|queue| - 1].token == token then 1 else 0
  }

  function Handed(s: State, token: string): nat {
    Count(s.completed, token) + Count(s.relayed, token)
  }

  // A token that was handed off is in use and no longer pending.
  predicate HandedOnce(s: State, token: string) {
    && (token in s.boxes ==> token in s.used)
    && Handed(s, token) <= 1
    && (Handed(s, token) == 1 ==> token in s.used && (token in s.boxes ==> s.boxes[token].status != Pending))
  }

  lemma CountPush(queue: seq<Message>, m: Message, token: string)
    ensures Count(queue + [m], token) == Count(queue, token) + if m.token == token then 1 else 0
  {
    assert (queue + [m])[..|queue|] == queue;
  }

  lemma CompleteKeepsHandedOnce(s: State, other: string, requester: Option<User>, token: string)
    requires HandedOnce(s, token)
    ensures HandedOnce(Next(s, Complete(other, requester)), token)
  {
    if IsOpenTo(s, other, requester) {
      CountPush(s.completed, Message(other, s.boxes[other].user), token);
    }
  }

  lemma RelayKeepsHandedOnce(s: State, other: string, requester: Option<User>, size: nat, token: string)
    requires HandedOnce(s, token)
    ensures HandedOnce(Next(s, Relay(other, requester, size)), token)
  {
    if IsOpenTo(s, other, requester) {
      CountPush(s.relayed, Message(other, s.boxes[other].user), token);
    }
  }

  lemma NextKeepsHandedOnce(s: State, step: Step, token: string)
    requires HandedOnce(s, token)
    ensures HandedOnce(Next(s, step), token)
  {
    if step.Complete? {
      CompleteKeepsHandedOnce(s, step.token, step.requester, token);
    } else if step.Relay? {
      RelayKeepsHandedOnce(s, step.token, step.requester, step.size, token);
    } else {
      var next := Next(s, step);
      assert Handed(next, token) == Handed(s, token);
      assert token in next.boxes && token in s.used ==> token in s.boxes && next.boxes[token] == s.boxes[token];
    }
  }

  /** Every run pushes at most one message for a token over both queues together,
      and a token that was handed off is pending no more. */
  lemma {:induction false} HandOffAtMostOnce(steps: seq<Step>, token: string)
    ensures HandedOnce(Run(INITIAL, steps), token)
  {
    if steps == [] {
    } else {
      HandOffAtMostOnce(steps[..|steps| - 1], token);
      NextKeepsHandedOnce(Run(INITIAL, steps[..|steps| - 1]), steps[|steps| - 1], token);
    }
  }

  predicate IsPending(s: State, token: string) {
    token in s.boxes && s.boxes[token].status == Pending
  }

  /** A token once handed out that is no longer pending never is again. */
  lemma {:induction false} NeverPendingAgain(s: State, steps: seq<Step>, token: string)
    requires token in s.used && !IsPending(s, token)
    ensures token in Run(s, steps).used && !IsPending(Run(s, steps), token)
  {
    if steps == [] {
    } else {
      NeverPendingAgain(s, steps[..|steps| - 1], token);
    }
  }

  // ---------------------------------------------------------- whose messages they are

  // The user of the step that published the request.
  function PublisherOf(steps: seq<Step>, token: string): Option<User> {
    if steps == [] then None
    else
      var before := PublisherOf(steps[..|steps| - 1], token);
      if before.Some? then before
      else
        match steps[|steps| - 1]
        case Publish(user, t, lag) => if t == token && lag >= 0.0 then Some(user) else None
        case _ => None
  }

  ghost predicate BelongsToPublisher(s: State, steps: seq<Step>, token: string) {
    && (token in s.used <==> PublisherOf(steps, token).Some?)
    && (token in s.boxes ==> token in s.used && Some(s.boxes[token].user) == PublisherOf(steps, token))
  }

  lemma {:induction false} AllBelongToPublisher(steps: seq<Step>, token: string)
    ensures BelongsToPublisher(Run(INITIAL, steps), steps, token)
  {
    if steps == [] {
    } else {
      AllBelongToPublisher(steps[..|steps| - 1], token);
    }
  }

  // The step is the owner's completion, or relay, of the request in the message.
  predicate IsCompletion(step: Step, m: Message) {
    step == Complete(m.token, Some(m.user))
  }

  predicate IsRelay(step: Step, m: Message) {
    step.Relay? && step.token == m.token && step.requester == Some(m.user) && 0 < step.size <= 10_485_760
  }

  /** In every run, each message carries the user its request was published for and
      was pushed by that user: on the first queue by a completion, on the second by
      a relay of 1 byte to 10 MiB. */
  lemma {:induction false} MessagesAreOwners(steps: seq<Step>, m: Message)
    ensures m in Run(INITIAL, steps).completed ==>
      PublisherOf(steps, m.token) == Some(m.user) && exists k :: 0 <= k < |steps| && IsCompletion(steps[k], m)
    ensures m in Run(INITIAL, steps).relayed ==>
      PublisherOf(steps, m.token) == Some(m.user) && exists k :: 0 <= k < |steps| && IsRelay(steps[k], m)
  {
    if steps == [] {
    } else {
      var n := |steps| - 1;
      var front := steps[..n];
      var s := Run(INITIAL, front);
      MessagesAreOwners(front, m);
      AllBelongToPublisher(front, m.token);
      if m in s.completed {
        var k :| 0 <= k < |front| && IsCompletion(front[k], m);
        assert IsCompletion(steps[k], m);
      } else if m in Run(INITIAL, steps).completed {
        assert IsCompletion(steps[n], m);
      }
      if m in s.relayed {
        var k :| 0 <= k < |front| && IsRelay(front[k], m);
        assert IsRelay(steps[k], m);
      } else if m in Run(INITIAL, steps).relayed {
        assert IsRelay(steps[n], m);
      }
    }
  }

  // Which of the owner's requests is still open.
  predicate IsOpen(s: State, token: string) {
    token in s.boxes && s.now < s.boxes[token].expiry && s.boxes[token].status == Pending
  }

  /** The owner of an open request may hand it off, either way: a completion pushes
      exactly one message, on the first queue; a relay of 1 byte to 10 MiB pushes
      exactly one, on the second; and the request is open no more.  Nobody else's
      step pushes anything. */
  lemma OwnerMayHandOff(steps: seq<Step>, token: string, requester: Option<User>, size: nat)
    requires IsOpen(Run(INITIAL, steps), token)
    ensures PublisherOf(steps, token).Some?
    ensures var s := Run(INITIAL, steps);
      var user := PublisherOf(steps, token).value;
      var m := Message(token, user);
      var completed, relayed := Next(s, Complete(token, requester)), Next(s, Relay(token, requester, size));
      && (if requester == Some(user)
          then completed.completed == s.completed + [m] && completed.relayed == s.relayed && !IsOpen(completed, token)
          else completed == s)
      && (if requester == Some(user) && 0 < size <= 10_485_760
          then relayed.relayed == s.relayed + [m] && relayed.completed == s.completed && !IsOpen(relayed, token)
          else relayed == s)
  {
    AllBelongToPublisher(steps, token);
  }

  /** A new request is open for 600 seconds, and its user's only live one. */
  lemma PublishOpens(steps: seq<Step>, user: User, token: string, lag: real)
    requires token !in Run(INITIAL, steps).used && lag >= 0.0
    ensures var next := Next(Run(INITIAL, steps), Publish(user, token, lag));
      && token in next.boxes && next.boxes[token] == Box(user, Pending, next.now + 600.0, 0) && IsOpen(next, token)
      && forall other | LiveBox(next, other) && next.boxes[other].user == user :: other == token
  {
    RunKeepsPointers(steps);
    ClearKeepsPointers(Run(INITIAL, steps), user);
    assert forall other | other != token && LiveBox(Next(Run(INITIAL, steps), Publish(user, token, lag)), other) ::
      LiveBox(Clear(Run(INITIAL, steps), user), other);
  }

  /** A worker that gets the message of a completed request of the user it names
      leaves that user no live request; one that gets the message of a relay removes
      the request; and a message that does not fit the request changes nothing. */
  lemma WorkersRemove(steps: seq<Step>, m: Message)
    ensures var s := Run(INITIAL, steps);
      var fits := m.token in s.boxes && s.now < s.boxes[m.token].expiry && s.boxes[m.token].user == m.user;
      var completed, relayed := Next(s, CompletedWorker(m)), Next(s, RelayWorker(m));
      && (if fits && s.boxes[m.token].status == Completed
          then forall other | LiveBox(completed, other) :: completed.boxes[other].user != m.user
          else completed == s)
      && (if fits && s.boxes[m.token].status == RelayPending
          then relayed.boxes == s.boxes - {m.token}
          else relayed == s)
  {
    RunKeepsPointers(steps);
    RelaysAlwaysHavePayload(steps);
    ClearKeepsPointers(Run(INITIAL, steps), m.user);
  }
}
