/**
 * Transactions handed to the web app for signing: an expiring Redis hash each,
 * and the queue of signed ones.  Each bot call, web request or worker run is
 * one atomic step.
 */
module SignRequests {
  import opened Prelude

  type User = int

  const TX_TTL := 600.0

  datatype Tx = Tx(user: User, signed: bool, expiry: real)

  datatype Message = Message(txId: string, user: User)

  // authenticated: the web app holds a bot token and so checks who asks.
  datatype State = State(now: real, authenticated: bool, txs: map<string, Tx>, used: set<string>, queue: seq<Message>)

  datatype Step =
    | Tick(elapsed: real)
    | Publish(user: User, txId: string)
    | ClearUser(user: User)
    | Submit(txId: string, requester: Option<User>)
    | Remove(txId: string)

  function Initial(authenticated: bool): State {
    State(0.0, authenticated, map[], {}, [])
  }

  // A hash past its expiry reads as absent, to a scan as well.
  predicate IsLiveOf(s: State, txId: string, user: User) {
    txId in s.txs && s.now < s.txs[txId].expiry && s.txs[txId].user == user
  }

  predicate MaySubmit(s: State, txId: string, requester: Option<User>) {
    && txId in s.txs && s.now < s.txs[txId].expiry
    && !s.txs[txId].signed
    && (s.authenticated ==> requester == Some(s.txs[txId].user))
  }

  function Next(s: State, step: Step): State {
    match step
    case Tick(elapsed) => if elapsed >= 0.0 then s.(now := s.now + elapsed) else s
    case Publish(user, txId) =>
      if txId in s.used then s
      else s.(txs := s.txs[txId := Tx(user, false, s.now + TX_TTL)], used := s.used + {txId})
    case ClearUser(user) =>
      s.(txs := map txId | txId in s.txs && !IsLiveOf(s, txId, user) :: s.txs[txId])
    case Submit(txId, requester) =>
      if !MaySubmit(s, txId, requester) then s
      else
        s.(txs := s.txs[txId := s.txs[txId].(signed := true)],
           queue := s.queue + [Message(txId, s.txs[txId].user)])
    case Remove(txId) => s.(txs := s.txs - {txId})
  }

  // What the web app replies: success or an HTTP error.
  datatype Reply = Accepted | Refused(code: nat)

  // The Redis hashes and the queue of signed transactions.
  class Store {
    const authenticated: bool
    var now: real
    var txs: map<string, Tx>
    ghost var used: set<string>
    var queue: seq<Message>

    ghost function Current(): State
      reads this
    {
      State(now, authenticated, txs, used, queue)
    }

    constructor (authenticated: bool)
      ensures Current() == Initial(authenticated)
    {
      this.authenticated := authenticated;
      now, txs, used, queue := 0.0, map[], {}, [];
    }

    // The id is new: it holds 80 random bits.
    method PublishPendingTx(user: User, txId: string)
      requires txId !in used
      modifies this
      ensures Current() == Next(old(Current()), Publish(user, txId))
    {
      txs := txs[txId := Tx(user, false, now + TX_TTL)];
      used := used + {txId};
    }

    method ClearPendingTx(user: User) returns (deleted: nat)
      modifies this
      ensures Current() == Next(old(Current()), ClearUser(user))
      ensures deleted == |set txId | txId in old(txs) && IsLiveOf(old(Current()), txId, user)|
    {
      deleted := 0;
      var keys := txs.Keys;
      ghost var before := Current();
      ghost var gone: set<string> := {};
      while keys != {}
        invariant keys <= txs.Keys
        invariant used == before.used && now == before.now && queue == before.queue
        invariant forall k | k in txs :: k in before.txs && txs[k] == before.txs[k]
        invariant forall k | k in before.txs :: k in txs <==> k in keys || !IsLiveOf(before, k, user)
        invariant forall k :: k in gone <==> k !in keys && IsLiveOf(before, k, user)
        invariant deleted == |gone|
        decreases keys
      {
        var key :| key in keys;
        if now < txs[key].expiry && txs[key].user == user {
          txs := txs - {key};
          deleted := deleted + 1;
          gone := gone + {key};
        }
        keys := keys - {key};
      }
      assert gone == set txId | txId in before.txs && IsLiveOf(before, txId, user);
      assert txs == map k | k in before.txs && !IsLiveOf(before, k, user) :: before.txs[k];
    }

    // requester is the user proved by the request's init data, if any.
    method SubmitSignedTransaction(txId: string, requester: Option<User>) returns (reply: Reply)
      modifies this
      ensures Current() == Next(old(Current()), Submit(txId, requester))
      ensures reply.Accepted? <==> MaySubmit(old(Current()), txId, requester)
      ensures txId !in old(txs) || now >= old(txs)[txId].expiry ==> reply == Refused(404)
      ensures txId in old(txs) && now < old(txs)[txId].expiry ==>
        (old(txs)[txId].signed ==> reply == Refused(400))
        && (reply == Refused(401) <==> !old(txs)[txId].signed && authenticated && requester.None?)
        && (reply == Refused(403) <==>
              !old(txs)[txId].signed && authenticated && requester.Some? && requester.value != old(txs)[txId].user)
    {
      if txId !in txs || now >= txs[txId].expiry {
        return Refused(404);
      }
      if txs[txId].signed {
        return Refused(400);
      }
      var user := txs[txId].user;
      if authenticated {
        if requester.None? {
          return Refused(401);
        }
        if requester.value != user {
          return Refused(403);
        }
      }
      txs := txs[txId := txs[txId].(signed := true)];
      queue := queue + [Message(txId, user)];
      return Accepted;
    }
  }

  function Run(s: State, steps: seq<Step>): State {
    if steps == [] then s else Next(Run(s, steps[..|steps| - 1]), steps[|steps| - 1])
  }

  function Count(queue: seq<Message>, txId: string): nat {
    if queue == [] then 0
    else Count(queue[..|queue| - 1], txId) + if queue[|queue| - 1].txId == txId then 1 else 0
  }

  // A transaction that was handed off is in use and no longer pending.
  predicate HandedOnce(s: State, txId: string) {
    && (txId in s.txs ==> txId in s.used)
    && Count(s.queue, txId) <= 1
    && (Count(s.queue, txId) == 1 ==> txId in s.used && (txId in s.txs ==> s.txs[txId].signed))
  }

  lemma NextKeepsHandedOnce(s: State, step: Step, txId: string)
    requires HandedOnce(s, txId)
    ensures HandedOnce(Next(s, step), txId)
  {
    if step.Submit? && step.txId in s.txs {
      var m := Message(step.txId, s.txs[step.txId].user);
      assert (s.queue + [m])[..|s.queue|] == s.queue;
    }
  }

  /** Every run pushes at most one message for a transaction, and one that was
      handed off is pending no more. */
  lemma {:induction false} HandOffAtMostOnce(authenticated: bool, steps: seq<Step>, txId: string)
    ensures HandedOnce(Run(Initial(authenticated), steps), txId)
  {
    if steps == [] {
    } else {
      HandOffAtMostOnce(authenticated, steps[..|steps| - 1], txId);
      NextKeepsHandedOnce(Run(Initial(authenticated), steps[..|steps| - 1]), steps[|steps| - 1], txId);
    }
  }

  /** A transaction once handed out that is no longer pending never is again. */
  lemma {:induction false} NeverPendingAgain(s: State, steps: seq<Step>, txId: string)
    requires txId in s.used && (txId in s.txs ==> s.txs[txId].signed)
    ensures txId in Run(s, steps).used && (txId in Run(s, steps).txs ==> Run(s, steps).txs[txId].signed)
  {
    if steps == [] {
    } else {
      NeverPendingAgain(s, steps[..|steps| - 1], txId);
    }
  }

  // ---------------------------------------------------------- whose messages they are

  // The user of the step that published the transaction.
  function PublisherOf(steps: seq<Step>, txId: string): Option<User> {
    if steps == [] then None
    else
      var before := PublisherOf(steps[..|steps| - 1], txId);
      if before.Some? then before
      else
        match steps[|steps| - 1]
        case Publish(user, id) => if id == txId then Some(user) else None
        case _ => None
  }

  // A transaction belongs to the user it was published for; once signed it is queued.
  ghost predicate BelongsToPublisher(s: State, steps: seq<Step>, txId: string) {
    && (txId in s.used <==> PublisherOf(steps, txId).Some?)
    && (txId in s.txs ==> txId in s.used && Some(s.txs[txId].user) == PublisherOf(steps, txId))
    && (txId in s.txs && s.txs[txId].signed ==> Count(s.queue, txId) > 0)
  }

  lemma CountPush(queue: seq<Message>, m: Message, txId: string)
    ensures Count(queue + [m], txId) == Count(queue, txId) + if m.txId == txId then 1 else 0
  {
    assert (queue + [m])[..|queue|] == queue;
  }

  lemma {:induction false} AllBelongToPublisher(authenticated: bool, steps: seq<Step>, txId: string)
    ensures BelongsToPublisher(Run(Initial(authenticated), steps), steps, txId)
    ensures Run(Initial(authenticated), steps).authenticated == authenticated
  {
    if steps == [] {
    } else {
      var front, step := steps[..|steps| - 1], steps[|steps| - 1];
      AllBelongToPublisher(authenticated, front, txId);
      var s := Run(Initial(authenticated), front);
      if step.Submit? && step.txId in s.txs {
        CountPush(s.queue, Message(step.txId, s.txs[step.txId].user), txId);
      }
    }
  }

  // A message about a transaction of the user it names, pushed by a submission that,
  // where users are checked, that user made.
  ghost predicate IsOwners(authenticated: bool, steps: seq<Step>, m: Message) {
    && PublisherOf(steps, m.txId) == Some(m.user)
    && exists k :: 0 <= k < |steps| && IsSubmission(authenticated, steps[k], m)
  }

  ghost predicate IsSubmission(authenticated: bool, step: Step, m: Message) {
    step.Submit? && step.txId == m.txId && (authenticated ==> step.requester == Some(m.user))
  }

  lemma OwnersStay(authenticated: bool, steps: seq<Step>, m: Message)
    requires steps != [] && IsOwners(authenticated, steps[..|steps| - 1], m)
    ensures IsOwners(authenticated, steps, m)
  {
    var front := steps[..|steps| - 1];
    var k :| 0 <= k < |front| && IsSubmission(authenticated, front[k], m);
    assert steps[k] == front[k];
  }

  /** In every run, each queued message carries the user its transaction was
      published for, and was pushed by a submission of that very user wherever the
      web app checks who asks. */
  lemma {:induction false} MessagesAreOwners(authenticated: bool, steps: seq<Step>, m: Message)
    requires m in Run(Initial(authenticated), steps).queue
    ensures IsOwners(authenticated, steps, m)
  {
    var front, step := steps[..|steps| - 1], steps[|steps| - 1];
    var s := Run(Initial(authenticated), front);
    if m in s.queue {
      MessagesAreOwners(authenticated, front, m);
      OwnersStay(authenticated, steps, m);
    } else {
      AllBelongToPublisher(authenticated, front, m.txId);
      assert Run(Initial(authenticated), steps).queue == s.queue + [m];
      assert IsSubmission(authenticated, steps[|steps| - 1], m);
    }
  }

  /** A submission by the user a live transaction was published for, of one that no
      message is about yet, pushes exactly one message, and nobody else's does
      where users are checked. */
  lemma OwnerMaySubmit(authenticated: bool, steps: seq<Step>, txId: string, requester: Option<User>)
    requires var s := Run(Initial(authenticated), steps);
      txId in s.txs && s.now < s.txs[txId].expiry && Count(s.queue, txId) == 0
    ensures PublisherOf(steps, txId).Some?
    ensures var s := Run(Initial(authenticated), steps);
      var user := PublisherOf(steps, txId).value;
      Next(s, Submit(txId, requester)).queue
      == if !authenticated || requester == Some(user) then s.queue + [Message(txId, user)] else s.queue
  {
    AllBelongToPublisher(authenticated, steps, txId);
  }

  /** What publishing and clearing do: a new transaction is pending for 600 seconds;
      clearing removes the user's unexpired ones and no others. */
  lemma PublishAndClear(s: State, user: User, txId: string)
    ensures txId !in s.used ==> Next(s, Publish(user, txId)).txs == s.txs[txId := Tx(user, false, s.now + 600.0)]
    ensures var after := Next(s, ClearUser(user)).txs;
      && (txId in after <==> txId in s.txs && !(s.txs[txId].user == user && s.now < s.txs[txId].expiry))
      && (txId in after ==> after[txId] == s.txs[txId])
  {
  }
}
