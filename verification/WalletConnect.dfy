/**
 * The WalletConnect signing protocol: sign-request handlers that wait in a
 * shared table, one form state a user, and signing callbacks that read the form
 * state and answer a waiting handler.  A step is what happens between two
 * suspension points; any interleaving of the steps is a run.
 */
module WalletConnect {
  import opened Prelude

  type Id = nat
  type User = int

  // A validated sign request; id is the dApp's own request id.
  datatype Request = Request(user: User, id: string, xdr: string)

  datatype Response = Signed(requestId: string,
                             xdr: Option<string>) | Failed(requestId: string) | TimedOut(requestId: string)

  datatype Status = Waiting | Answered(response: Response) | Aborted

  // A user's form state: the pair of ids is written in one update, the transaction in another.
  datatype Form = Form(ids: Option<(Id, string)>, xdr: Option<string>)

  // A signing callback past its read of the form state.
  datatype Callback = Callback(user: User, internalId: Id, requestId: string, xdr: Option<string>)

  datatype State = State(
    requests: map<Id, Request>,
    handlers: map<Id, Status>,
    pending: map<Id, Option<Response>>,
    forms: map<User, Form>,
    callbacks: map<Id, Callback>)

  datatype Step =
    | Arrive(internalId: Id, request: Request)
    | WriteIds(internalId: Id)
    | WriteXdr(internalId: Id)
    | OtherXdr(user: User, xdr: string)
    | ClearForm(user: User)
    | Sign(callback: Id, user: User)
    | Respond(callback: Id, ok: bool)
    | Return(internalId: Id)
    | Timeout(internalId: Id)
    | Abort(internalId: Id)

  const INITIAL := State(map[], map[], map[], map[], map[])

  function FormOf(s: State, user: User): Form {
    if user in s.forms then s.forms[user] else Form(None, None)
  }

  function Finish(s: State, id: Id, status: Status): State {
    s.(handlers := s.handlers[id := status], pending := s.pending - {id})
  }

  // A step that is not possible changes nothing; a fresh internal id never repeats.
  function Next(s: State, step: Step): State {
    match step
    case Arrive(id, request) =>
      if id in s.requests then s
      else
        s.(requests := s.requests[id := request], handlers := s.handlers[id := Waiting],
           pending := s.pending[id := None])
    case WriteIds(id) =>
      if id !in s.handlers || s.handlers[id] != Waiting || id !in s.requests then s
      else
        var r := s.requests[id];
        s.(forms := s.forms[r.user := FormOf(s, r.user).(ids := Some((id, r.id)))])
    case WriteXdr(id) =>
      if id !in s.handlers || s.handlers[id] != Waiting || id !in s.requests then s
      else
        var r := s.requests[id];
        s.(forms := s.forms[r.user := FormOf(s, r.user).(xdr := Some(r.xdr))])
    case OtherXdr(user, xdr) =>
      s.(forms := s.forms[user := FormOf(s, user).(xdr := Some(xdr))])
    case ClearForm(user) =>
      s.(forms := s.forms[user := Form(None, None)])
    case Sign(callback, user) =>
      (match FormOf(s, user).ids
       case None => s
       case Some((id, requestId)) =>
         if callback in s.callbacks then s
         else s.(callbacks := s.callbacks[callback := Callback(user, id, requestId, FormOf(s, user).xdr)]))
    case Respond(callback, ok) =>
      if callback !in s.callbacks || s.callbacks[callback].internalId !in s.pending then s
      else
        var c := s.callbacks[callback];
        var response := if ok then Signed(c.requestId, c.xdr) else Failed(c.requestId);
        s.(pending := s.pending[c.internalId := Some(response)])
    case Return(id) =>
      if id in s.pending && s.pending[id].Some? then Finish(s, id, Answered(s.pending[id].value)) else s
    case Timeout(id) =>
      if id in s.pending && id in s.requests then Finish(s, id, Answered(TimedOut(s.requests[id].id))) else s
    case Abort(id) =>
      if id in s.pending then Finish(s, id, Aborted) else s
  }

  // The bot's own part of the state: the shared table and the form storage.  The
  // ghost fields record what the suspended handlers and callbacks hold.
  class Bot {
    var pending: map<Id, Option<Response>>
    var forms: map<User, Form>
    ghost var requests: map<Id, Request>
    ghost var handlers: map<Id, Status>
    ghost var callbacks: map<Id, Callback>

    ghost function Current(): State
      reads this
    {
      State(requests, handlers, pending, forms, callbacks)
    }

    ghost predicate IsWaiting(id: Id, request: Request)
      reads this
    {
      id in requests && requests[id] == request && id in handlers && handlers[id] == Waiting
    }

    constructor ()
      ensures Current() == INITIAL
    {
      pending, forms, requests, handlers, callbacks := map[], map[], map[], map[], map[];
    }

    method UpdateForm(user: User, ids: Option<(Id, string)>, xdr: Option<string>)
      modifies this`forms
      ensures var form := FormOf(old(Current()), user);
        forms == old(forms)[user := Form(if ids.Some? then ids else form.ids, if xdr.Some? then xdr else form.xdr)]
    {
      var form := if user in forms then forms[user] else Form(None, None);
      forms := forms[user := Form(if ids.Some? then ids else form.ids, if xdr.Some? then xdr else form.xdr)];
    }

    // A handler up to its entry in the table; a request that lacks a part is refused.
    method HandleSignRequest(id: Id, user: User, xdr: string, requestId: string) returns (accepted: bool)
      requires id !in requests
      modifies this
      ensures accepted <==> user != 0 && xdr != "" && requestId != ""
      ensures Current() ==
        if accepted then Next(old(Current()), Arrive(id, Request(user, requestId, xdr))) else old(Current())
    {
      if user == 0 || xdr == "" || requestId == "" {
        return false;
      }
      pending := pending[id := None];
      requests := requests[id := Request(user, requestId, xdr)];
      handlers := handlers[id := Waiting];
      return true;
    }

    method RequestWcSignature(id: Id, request: Request)
      requires IsWaiting(id, request)
      modifies this
      ensures Current() == Next(old(Current()), WriteIds(id))
    {
      UpdateForm(request.user, Some((id, request.id)), None);
    }

    method CheckXdr(id: Id, request: Request)
      requires IsWaiting(id, request)
      modifies this
      ensures Current() == Next(old(Current()), WriteXdr(id))
    {
      UpdateForm(request.user, None, Some(request.xdr));
    }

    // A signing callback up to its first suspension; without ids it can answer nobody.
    method ReadForm(callback: Id, user: User) returns (read: Option<Callback>)
      requires callback !in callbacks
      modifies this`callbacks
      ensures Current() == Next(old(Current()), Sign(callback, user))
      ensures read.Some? ==> callback in callbacks && callbacks[callback] == read.value
    {
      var form := if user in forms then forms[user] else Form(None, None);
      if form.ids.None? {
        return None;
      }
      read := Some(Callback(user, form.ids.value.0, form.ids.value.1, form.xdr));
      callbacks := callbacks[callback := read.value];
    }

    method RespondTo(ghost callback: Id, read: Callback, ok: bool)
      requires callback in callbacks && callbacks[callback] == read
      modifies this`pending
      ensures Current() == Next(old(Current()), Respond(callback, ok))
    {
      if read.internalId in pending {
        var response := if ok then Signed(read.requestId, read.xdr) else Failed(read.requestId);
        pending := pending[read.internalId := Some(response)];
      }
    }

    // A handler whose event was set returns what the table holds for it.
    method ReturnResult(id: Id) returns (response: Response)
      requires id in pending && pending[id].Some?
      modifies this
      ensures Current() == Next(old(Current()), Return(id))
      ensures handlers[id] == Answered(response)
    {
      response := pending[id].value;
      pending := pending - {id};
      handlers := handlers[id := Answered(response)];
    }

    method TimeOut(id: Id, request: Request) returns (response: Response)
      requires IsWaiting(id, request) && id in pending
      modifies this
      ensures Current() == Next(old(Current()), Timeout(id))
      ensures handlers[id] == Answered(response)
    {
      response := TimedOut(request.id);
      pending := pending - {id};
      handlers := handlers[id := Answered(response)];
    }
  }

  // The state before step n of a run.
  function At(steps: seq<Step>, n: nat): State
    requires n <= |steps|
  {
    if n == 0 then INITIAL else Next(At(steps, n - 1), steps[n - 1])
  }

  // ------------------------------------------------------ no cross-talk of ids

  // An internal id and the request id it is answered with belong to one request of the user.
  ghost predicate Belongs(s: State, user: User, id: Id, requestId: string) {
    id in s.requests && s.requests[id].id == requestId && s.requests[id].user == user
  }

  // The table holds exactly the handlers that still wait.
  ghost predicate TableInv(s: State) {
    && s.handlers.Keys == s.requests.Keys
    && forall id :: id in s.pending <==> id in s.handlers && s.handlers[id] == Waiting
  }

  ghost predicate FormsInv(s: State) {
    forall user | user in s.forms && s.forms[user].ids.Some? ::
      Belongs(s, user, s.forms[user].ids.value.0, s.forms[user].ids.value.1)
  }

  ghost predicate CallbacksInv(s: State) {
    forall c | c in s.callbacks :: Belongs(s, s.callbacks[c].user, s.callbacks[c].internalId, s.callbacks[c].requestId)
  }

  ghost predicate AnswersInv(s: State) {
    && (forall id | id in s.pending && s.pending[id].Some? ::
          id in s.requests && s.pending[id].value.requestId == s.requests[id].id)
    && (forall id | id in s.handlers && s.handlers[id].Answered? ::
          id in s.requests && s.handlers[id].response.requestId == s.requests[id].id)
  }

  ghost predicate Inv(s: State) {
    TableInv(s) && FormsInv(s) && CallbacksInv(s) && AnswersInv(s)
  }

  lemma NextKeepsTable(s: State, step: Step)
    requires TableInv(s)
    ensures TableInv(Next(s, step))
    ensures forall id | id in s.requests :: id in Next(s, step).requests && Next(s, step).requests[id] == s.requests[id]
  {
    match step
    case Arrive(_, _) =>
    case Return(_) =>
    case Timeout(_) =>
    case Abort(_) =>
    case _ =>
  }

  lemma NextKeepsForms(s: State, step: Step)
    requires TableInv(s) && FormsInv(s)
    ensures FormsInv(Next(s, step))
  {
    match step
    case WriteIds(id) =>
    case WriteXdr(id) =>
    case _ =>
  }

  lemma NextKeepsCallbacks(s: State, step: Step)
    requires FormsInv(s) && CallbacksInv(s)
    ensures CallbacksInv(Next(s, step))
  {
    match step
    case Sign(_, _) =>
    case Arrive(_, _) =>
    case _ =>
  }

  lemma NextKeepsAnswers(s: State, step: Step)
    requires TableInv(s) && CallbacksInv(s) && AnswersInv(s)
    ensures AnswersInv(Next(s, step))
  {
    match step
    case Respond(_, _) =>
    case Return(_) =>
    case Timeout(_) =>
    case _ =>
  }

  lemma {:induction false} AtKeepsInv(steps: seq<Step>, n: nat)
    requires n <= |steps|
    ensures Inv(At(steps, n))
  {
    if n == 0 {
    } else {
      var s, step := At(steps, n - 1), steps[n - 1];
      AtKeepsInv(steps, n - 1);
      NextKeepsTable(s, step);
      NextKeepsForms(s, step);
      NextKeepsCallbacks(s, step);
      NextKeepsAnswers(s, step);
    }
  }

  /** Under any interleaving, a handler that returns an answer returns one with
      the request id of its own request, and the table holds exactly the
      handlers that are still waiting. */
  lemma NoCrossTalk(steps: seq<Step>, n: nat, id: Id)
    requires n <= |steps|
    ensures var s := At(steps, n);
      && (id in s.handlers && s.handlers[id].Answered? ==>
            id in s.requests && s.handlers[id].response.requestId == s.requests[id].id)
      && (id in s.pending <==> id in s.handlers && s.handlers[id] == Waiting)
  {
    AtKeepsInv(steps, n);
  }

  /** Whoever answers a waiting handler signed for the user it asked. */
  lemma OnlyTheUserAnswers(steps: seq<Step>, n: nat, callback: Id)
    requires n <= |steps| && callback in At(steps, n).callbacks
    ensures var s := At(steps, n);
      var c := s.callbacks[callback];
      c.internalId in s.requests && s.requests[c.internalId].user == c.user
  {
    AtKeepsInv(steps, n);
    var c := At(steps, n).callbacks[callback];
    assert Belongs(At(steps, n), c.user, c.internalId, c.requestId);
  }

  lemma FinishedStep(s: State, step: Step, id: Id)
    requires TableInv(s) && id in s.handlers && s.handlers[id] != Waiting
    ensures var next := Next(s, step); id in next.handlers && next.handlers[id] == s.handlers[id] && id !in next.pending
  {
    assert id !in s.pending && id in s.requests;
  }

  /** Once a handler has finished nothing changes its outcome: a callback that
      signs after the timeout, or twice, reaches nobody. */
  lemma {:induction false} FinishedStaysFinished(steps: seq<Step>, m: nat, n: nat, id: Id)
    requires m <= n <= |steps| && id in At(steps, m).handlers && At(steps, m).handlers[id] != Waiting
    ensures id in At(steps, n).handlers
    ensures At(steps, n).handlers[id] == At(steps, m).handlers[id] && id !in At(steps, n).pending
  {
    if m == n {
      AtKeepsInv(steps, n);
    } else {
      FinishedStaysFinished(steps, m, n - 1, id);
      AtKeepsInv(steps, n - 1);
      FinishedStep(At(steps, n - 1), steps[n - 1], id);
    }
  }

  // ------------------------------------------------------- reading a schedule

  // The request that first arrived under this internal id.
  function ArrivalOf(steps: seq<Step>, n: nat, id: Id): Option<Request>
    requires n <= |steps|
  {
    if n == 0 then None
    else if ArrivalOf(steps, n - 1, id).Some? then ArrivalOf(steps, n - 1, id)
    else if steps[n - 1].Arrive? && steps[n - 1].internalId == id then Some(steps[n - 1].request)
    else None
  }

  predicate IsWaitingAt(steps: seq<Step>, n: nat, id: Id)
    requires n <= |steps|
  {
    id in At(steps, n).handlers && At(steps, n).handlers[id] == Waiting
  }

  // The handler of a request of this user is there to take the step.
  predicate ActsFor(steps: seq<Step>, k: nat, id: Id, user: User)
    requires k <= |steps|
  {
    IsWaitingAt(steps, k, id) && ArrivalOf(steps, k, id).Some? && ArrivalOf(steps, k, id).value.user == user
  }

  predicate WritesIds(steps: seq<Step>, k: nat, user: User)
    requires k < |steps|
  {
    steps[k].WriteIds? && ActsFor(steps, k, steps[k].internalId, user)
  }

  predicate WritesXdr(steps: seq<Step>, k: nat, user: User)
    requires k < |steps|
  {
    || (steps[k].WriteXdr? && ActsFor(steps, k, steps[k].internalId, user))
    || (steps[k].OtherXdr? && steps[k].user == user)
  }

  // The last step before n that wrote ids to the user's form, if it was not cleared since.
  function LastIds(steps: seq<Step>, n: nat, user: User): Option<nat>
    requires n <= |steps|
  {
    if n == 0 || steps[n - 1] == ClearForm(user) then None
    else if WritesIds(steps, n - 1, user) then Some(n - 1)
    else LastIds(steps, n - 1, user)
  }

  // Likewise for the transaction.
  function LastXdr(steps: seq<Step>, n: nat, user: User): Option<nat>
    requires n <= |steps|
  {
    if n == 0 || steps[n - 1] == ClearForm(user) then None
    else if WritesXdr(steps, n - 1, user) then Some(n - 1)
    else LastXdr(steps, n - 1, user)
  }

  // What a step that writes a transaction writes.
  function TextAt(steps: seq<Step>, k: nat): Option<string>
    requires k < |steps|
  {
    if steps[k].OtherXdr? then Some(steps[k].xdr)
    else if steps[k].WriteXdr? && ArrivalOf(steps, k, steps[k].internalId).Some?
    then Some(ArrivalOf(steps, k, steps[k].internalId).value.xdr)
    else None
  }

  lemma {:induction false} ArrivalStays(steps: seq<Step>, m: nat, n: nat, id: Id)
    requires m <= n <= |steps| && ArrivalOf(steps, m, id).Some?
    ensures ArrivalOf(steps, n, id) == ArrivalOf(steps, m, id)
  {
    if m == n {
    } else {
      ArrivalStays(steps, m, n - 1, id);
    }
  }

  lemma {:induction false} RequestsArrived(steps: seq<Step>, n: nat, id: Id)
    requires n <= |steps|
    ensures id in At(steps, n).requests <==> ArrivalOf(steps, n, id).Some?
    ensures id in At(steps, n).requests ==> ArrivalOf(steps, n, id) == Some(At(steps, n).requests[id])
  {
    if n == 0 {
    } else {
      RequestsArrived(steps, n - 1, id);
      RequestsStep(At(steps, n - 1), steps[n - 1], id);
    }
  }

  lemma RequestsStep(s: State, step: Step, id: Id)
    ensures id in Next(s, step).requests
       <==> id in s.requests || (step.Arrive? && step.internalId == id)
    ensures id in Next(s, step).requests ==>
      Next(s, step).requests[id] == if id in s.requests then s.requests[id] else step.request
  {
  }

  lemma {:induction false} LastIdsFacts(steps: seq<Step>, n: nat, user: User)
    requires n <= |steps| && LastIds(steps, n, user).Some?
    ensures var i := LastIds(steps, n, user).value;
      && i < n && WritesIds(steps, i, user)
      && forall m | i < m < n :: steps[m] != ClearForm(user) && !WritesIds(steps, m, user)
  {
    if !WritesIds(steps, n - 1, user) {
      LastIdsFacts(steps, n - 1, user);
    }
  }

  lemma {:induction false} LastXdrFacts(steps: seq<Step>, n: nat, user: User)
    requires n <= |steps| && LastXdr(steps, n, user).Some?
    ensures LastXdr(steps, n, user).value < n && WritesXdr(steps, LastXdr(steps, n, user).value, user)
  {
    if !WritesXdr(steps, n - 1, user) {
      LastXdrFacts(steps, n - 1, user);
    }
  }

  // The form as the schedule tells it.
  function ScheduledForm(steps: seq<Step>, n: nat, user: User): Form
    requires n <= |steps|
  {
    var i, j := LastIds(steps, n, user), LastXdr(steps, n, user);
    Form(
      if i.Some? && i.value < n then IdsAt(steps, i.value) else None,
      if j.Some? && j.value < n then TextAt(steps, j.value) else None)
  }

  function IdsAt(steps: seq<Step>, k: nat): Option<(Id, string)>
    requires k < |steps|
  {
    if steps[k].WriteIds? && ArrivalOf(steps, k, steps[k].internalId).Some?
    then Some((steps[k].internalId, ArrivalOf(steps, k, steps[k].internalId).value.id))
    else None
  }

  lemma FormStep(steps: seq<Step>, n: nat, user: User)
    requires n < |steps|
    ensures var before, after := FormOf(At(steps, n), user), FormOf(At(steps, n + 1), user);
      && after.ids == (if steps[n] == ClearForm(user) then None
                       else if WritesIds(steps, n, user) then IdsAt(steps, n) else before.ids)
      && after.xdr == (if steps[n] == ClearForm(user) then None
                       else if WritesXdr(steps, n, user) then TextAt(steps, n) else before.xdr)
  {
    var s, step := At(steps, n), steps[n];
    if step.WriteIds? || step.WriteXdr? {
      RequestsArrived(steps, n, step.internalId);
    }
    assert At(steps, n + 1) == Next(s, step);
  }

  lemma {:induction false} FormIsScheduled(steps: seq<Step>, n: nat, user: User)
    requires n <= |steps|
    ensures FormOf(At(steps, n), user) == ScheduledForm(steps, n, user)
  {
    if n == 0 {
    } else {
      FormIsScheduled(steps, n - 1, user);
      FormStep(steps, n - 1, user);
      if LastIds(steps, n - 1, user).Some? {
        LastIdsFacts(steps, n - 1, user);
      }
      if LastXdr(steps, n - 1, user).Some? {
        LastXdrFacts(steps, n - 1, user);
      }
    }
  }

  // The step that started a callback: the first of its name that found ids in the form.
  function StartOf(steps: seq<Step>, n: nat, callback: Id): Option<nat>
    requires n <= |steps|
  {
    if n == 0 then None
    else if StartOf(steps, n - 1, callback).Some? then StartOf(steps, n - 1, callback)
    else if steps[n - 1].Sign? && steps[n - 1].callback == callback && LastIds(steps, n - 1, steps[n - 1].user).Some?
    then Some(n - 1)
    else None
  }

  /** Before the signing step k, the user's form last got its ids from a request
      and its transaction from a write of the same text, neither cleared since. */
  predicate InSchedule(steps: seq<Step>, k: nat)
    requires k < |steps| && steps[k].Sign?
  {
    var user := steps[k].user;
    var i, j := LastIds(steps, k, user), LastXdr(steps, k, user);
    i.Some? && i.value < k && steps[i.value].WriteIds? ==>
      && j.Some? && j.value < k
      && ArrivalOf(steps, k, steps[i.value].internalId).Some?
      && TextAt(steps, j.value) == Some(ArrivalOf(steps, k, steps[i.value].internalId).value.xdr)
  }

  // A callback holds what the form held when it started.
  ghost predicate StartedFrom(steps: seq<Step>, k: nat, c: Callback)
    requires k < |steps|
  {
    && steps[k].Sign? && c.user == steps[k].user
    && var form := ScheduledForm(steps, k, c.user);
       form.ids == Some((c.internalId, c.requestId)) && form.xdr == c.xdr
  }

  lemma IdsAreScheduled(steps: seq<Step>, n: nat, user: User)
    requires n <= |steps|
    ensures ScheduledForm(steps, n, user).ids.Some? <==> LastIds(steps, n, user).Some?
  {
    if LastIds(steps, n, user).Some? {
      LastIdsFacts(steps, n, user);
    }
  }

  lemma CallbacksStep(s: State, step: Step, callback: Id)
    ensures callback in s.callbacks ==>
      callback in Next(s, step).callbacks && Next(s, step).callbacks[callback] == s.callbacks[callback]
    ensures callback !in s.callbacks ==>
      (callback in Next(s, step).callbacks
       <==> step.Sign? && step.callback == callback && FormOf(s, step.user).ids.Some?)
    ensures callback !in s.callbacks && callback in Next(s, step).callbacks ==>
      var form := FormOf(s, step.user);
      Next(s, step).callbacks[callback] == Callback(step.user, form.ids.value.0, form.ids.value.1, form.xdr)
  {
  }

  lemma {:induction false} CallbackIsStarted(steps: seq<Step>, n: nat, callback: Id)
    requires n <= |steps|
    ensures callback in At(steps, n).callbacks <==> StartOf(steps, n, callback).Some?
    ensures callback in At(steps, n).callbacks ==>
      && StartOf(steps, n, callback).value < n
      && StartedFrom(steps, StartOf(steps, n, callback).value, At(steps, n).callbacks[callback])
  {
    if n == 0 {
    } else {
      CallbackIsStarted(steps, n - 1, callback);
      CallbacksStep(At(steps, n - 1), steps[n - 1], callback);
      if steps[n - 1].Sign? {
        FormIsScheduled(steps, n - 1, steps[n - 1].user);
        IdsAreScheduled(steps, n - 1, steps[n - 1].user);
      }
    }
  }

  // ---------------------------------------------------- cross-talk of payloads

  // The callback holds the transaction of the request it answers.
  ghost predicate HoldsOwn(s: State, callback: Id)
    requires callback in s.callbacks
  {
    var c := s.callbacks[callback];
    c.internalId in s.requests && c.xdr == Some(s.requests[c.internalId].xdr)
  }

  lemma HoldsOwnIff(steps: seq<Step>, n: nat, callback: Id)
    requires n <= |steps| && callback in At(steps, n).callbacks
    ensures StartOf(steps, n, callback).Some? && StartOf(steps, n, callback).value < n
    ensures steps[StartOf(steps, n, callback).value].Sign?
    ensures HoldsOwn(At(steps, n), callback) <==> InSchedule(steps, StartOf(steps, n, callback).value)
  {
    var s := At(steps, n);
    var c := s.callbacks[callback];
    CallbackIsStarted(steps, n, callback);
    var k := StartOf(steps, n, callback).value;
    LastIdsFacts(steps, k, c.user);
    var i := LastIds(steps, k, c.user).value;
    assert steps[i].internalId == c.internalId;
    ArrivalStays(steps, i, k, c.internalId);
    ArrivalStays(steps, k, n, c.internalId);
    RequestsArrived(steps, n, c.internalId);
    if LastXdr(steps, k, c.user).Some? {
      LastXdrFacts(steps, k, c.user);
    }
  }

  predicate StartedInSchedule(steps: seq<Step>, n: nat, callback: Id)
    requires n <= |steps|
  {
    var k := StartOf(steps, n, callback);
    k.Some? ==> k.value < n && steps[k.value].Sign? && InSchedule(steps, k.value)
  }

  ghost predicate AllHoldOwn(s: State) {
    forall c | c in s.callbacks :: HoldsOwn(s, c)
  }

  ghost predicate AllInSchedule(steps: seq<Step>, n: nat)
    requires n <= |steps|
  {
    forall c: Id :: StartedInSchedule(steps, n, c)
  }

  lemma StartedIff(steps: seq<Step>, n: nat, c: Id)
    requires n <= |steps|
    ensures StartedInSchedule(steps, n, c) <==> (c in At(steps, n).callbacks ==> HoldsOwn(At(steps, n), c))
  {
    CallbackIsStarted(steps, n, c);
    if c in At(steps, n).callbacks {
      HoldsOwnIff(steps, n, c);
    }
  }

  /** All signatures started in a run are over the transaction of the request
      they answer if and only if the schedule was right at each start: the last
      write of ids and the last write of a transaction to the user's form before
      it carried the same request's text. */
  lemma PayloadsMatchIff(steps: seq<Step>)
    ensures AllHoldOwn(At(steps, |steps|)) <==> AllInSchedule(steps, |steps|)
  {
    var n := |steps|;
    var s := At(steps, n);
    if AllHoldOwn(s) {
      forall c: Id
        ensures StartedInSchedule(steps, n, c)
      {
        StartedIff(steps, n, c);
      }
    } else {
      var c :| c in s.callbacks && !HoldsOwn(s, c);
      StartedIff(steps, n, c);
      assert !StartedInSchedule(steps, n, c);
    }
  }

  // ------------------------------------------------------ what is answered

  // Every signature handed out or waiting is over its own request's transaction.
  ghost predicate SignaturesMatch(s: State) {
    && (forall id | id in s.pending && s.pending[id].Some? :: ResponseMatches(s, id, s.pending[id].value))
    && (forall id | id in s.handlers && s.handlers[id].Answered? :: ResponseMatches(s, id, s.handlers[id].response))
  }

  predicate ResponseMatches(s: State, id: Id, response: Response) {
    response.Signed? ==> id in s.requests && response.xdr == Some(s.requests[id].xdr)
  }

  // The step sets a signature as the result of a handler that still waits.
  predicate Answers(s: State, step: Step) {
    && step.Respond? && step.ok && step.callback in s.callbacks
    && s.callbacks[step.callback].internalId in s.pending
  }

  lemma ResponseStays(s: State, step: Step, id: Id, response: Response)
    requires ResponseMatches(s, id, response)
    ensures ResponseMatches(Next(s, step), id, response)
  {
    RequestsStep(s, step, id);
  }

  lemma RespondIff(s: State, callback: Id, ok: bool)
    requires Inv(s) && SignaturesMatch(s)
    ensures SignaturesMatch(Next(s, Respond(callback, ok)))
       <==> (Answers(s, Respond(callback, ok)) ==> HoldsOwn(s, callback))
  {
    if callback in s.callbacks && s.callbacks[callback].internalId in s.pending {
      var c := s.callbacks[callback];
      var next := Next(s, Respond(callback, ok));
      assert next.pending[c.internalId].Some?;
      assert Belongs(s, c.user, c.internalId, c.requestId);
      assert forall id | id in s.pending && id != c.internalId :: next.pending[id] == s.pending[id];
    }
  }

  lemma OtherStepsKeepSignatures(s: State, step: Step)
    requires Inv(s) && SignaturesMatch(s) && !step.Respond?
    ensures SignaturesMatch(Next(s, step))
  {
    var next := Next(s, step);
    forall id | id in next.pending && next.pending[id].Some?
      ensures ResponseMatches(next, id, next.pending[id].value)
    {
      assert id in s.pending && next.pending[id] == s.pending[id];
      ResponseStays(s, step, id, next.pending[id].value);
    }
    forall id | id in next.handlers && next.handlers[id].Answered?
      ensures ResponseMatches(next, id, next.handlers[id].response)
    {
      if id in s.handlers && next.handlers[id] == s.handlers[id] {
        ResponseStays(s, step, id, next.handlers[id].response);
      } else if step.Return? {
        ResponseStays(s, step, id, s.pending[id].value);
      }
    }
  }

  // Step m, if it answers a waiting handler with a signature, does so for a start in schedule.
  predicate AnswersInSchedule(steps: seq<Step>, m: nat)
    requires m < |steps|
  {
    Answers(At(steps, m), steps[m]) ==> StartedInSchedule(steps, m, steps[m].callback)
  }

  lemma AnswersInScheduleIff(steps: seq<Step>, m: nat)
    requires m < |steps|
    ensures AnswersInSchedule(steps, m)
       <==> (Answers(At(steps, m), steps[m]) ==> HoldsOwn(At(steps, m), steps[m].callback))
  {
    if Answers(At(steps, m), steps[m]) {
      StartedIff(steps, m, steps[m].callback);
    }
  }

  // At every time up to step n.
  ghost predicate AlwaysMatch(steps: seq<Step>, n: nat)
    requires n <= |steps|
  {
    SignaturesMatch(At(steps, n)) && (n > 0 ==> AlwaysMatch(steps, n - 1))
  }

  predicate AllAnswersInSchedule(steps: seq<Step>, n: nat)
    requires n <= |steps|
  {
    n > 0 ==> AnswersInSchedule(steps, n - 1) && AllAnswersInSchedule(steps, n - 1)
  }

  lemma OneMoreMatches(steps: seq<Step>, n: nat)
    requires n < |steps| && SignaturesMatch(At(steps, n))
    ensures SignaturesMatch(At(steps, n + 1)) <==> AnswersInSchedule(steps, n)
  {
    var s, step := At(steps, n), steps[n];
    AtKeepsInv(steps, n);
    AnswersInScheduleIff(steps, n);
    if step.Respond? {
      RespondIff(s, step.callback, step.ok);
    } else {
      OtherStepsKeepSignatures(s, step);
    }
  }

  /** At no point of a run does a handler get a signature over another request's
      transaction, if and only if every signature that reaches a waiting handler
      was started in schedule. */
  lemma {:induction false} AnswersMatchIff(steps: seq<Step>, n: nat)
    requires n <= |steps|
    ensures AlwaysMatch(steps, n) <==> AllAnswersInSchedule(steps, n)
  {
    if n == 0 {
    } else {
      AnswersMatchIff(steps, n - 1);
      if AlwaysMatch(steps, n - 1) {
        OneMoreMatches(steps, n - 1);
      }
    }
  }

  // ------------------------------------------------------ where answers come from

  // Step m is a callback's answer to this request: the callback was started by an
  // earlier signing of the user the request names, and holds its ids.
  ghost predicate IsAnswerOf(steps: seq<Step>, m: nat, n: nat, id: Id, ok: bool)
    requires m < n <= |steps|
  {
    && steps[m].Respond? && steps[m].ok == ok
    && ArrivalOf(steps, n, id).Some?
    && (exists k: nat :: IsStartOf(steps, k, m, steps[m].callback, ArrivalOf(steps, n, id).value.user))
    && steps[m].callback in At(steps, m).callbacks
    && At(steps, m).callbacks[steps[m].callback].internalId == id
  }

  ghost predicate IsStartOf(steps: seq<Step>, k: nat, m: nat, callback: Id, user: User)
    requires m <= |steps|
  {
    k < m && steps[k] == Sign(callback, user)
  }

  // What a handler was answered, by n steps, can be traced to the step it came from.
  ghost predicate Traced(steps: seq<Step>, n: nat, id: Id, response: Response)
    requires n <= |steps|
  {
    match response
    case Signed(_, _) => exists m: nat :: m < n && IsAnswerOf(steps, m, n, id, true)
    case Failed(_) => exists m: nat :: m < n && IsAnswerOf(steps, m, n, id, false)
    case TimedOut(requestId) =>
      && (exists m: nat :: m < n && steps[m] == Timeout(id))
      && ArrivalOf(steps, n, id).Some? && requestId == ArrivalOf(steps, n, id).value.id
  }

  lemma TracedStays(steps: seq<Step>, n: nat, id: Id, response: Response)
    requires n < |steps| && Traced(steps, n, id, response)
    ensures Traced(steps, n + 1, id, response)
  {
    if ArrivalOf(steps, n, id).Some? {
      ArrivalStays(steps, n, n + 1, id);
    }
    match response
    case Signed(_, _) =>
      var m: nat :| m < n && IsAnswerOf(steps, m, n, id, true);
      assert IsAnswerOf(steps, m, n + 1, id, true);
    case Failed(_) =>
      var m: nat :| m < n && IsAnswerOf(steps, m, n, id, false);
      assert IsAnswerOf(steps, m, n + 1, id, false);
    case TimedOut(_) =>
      var m: nat :| m < n && steps[m] == Timeout(id);
  }

  // A result in the table was set by a callback; a timeout never is one.
  ghost predicate PendingTraced(steps: seq<Step>, n: nat, id: Id)
    requires n <= |steps|
  {
    var s := At(steps, n);
    id in s.pending && s.pending[id].Some? ==>
      !s.pending[id].value.TimedOut? && Traced(steps, n, id, s.pending[id].value)
  }

  ghost predicate AnswerTraced(steps: seq<Step>, n: nat, id: Id)
    requires n <= |steps|
  {
    var s := At(steps, n);
    id in s.handlers && s.handlers[id].Answered? ==> Traced(steps, n, id, s.handlers[id].response)
  }

  lemma RespondIsTraced(steps: seq<Step>, n: nat, id: Id)
    requires n < |steps| && steps[n].Respond? && steps[n].callback in At(steps, n).callbacks
    requires At(steps, n).callbacks[steps[n].callback].internalId == id
    ensures IsAnswerOf(steps, n, n + 1, id, steps[n].ok)
  {
    var c := At(steps, n).callbacks[steps[n].callback];
    AtKeepsInv(steps, n);
    assert Belongs(At(steps, n), c.user, c.internalId, c.requestId);
    RequestsArrived(steps, n, id);
    ArrivalStays(steps, n, n + 1, id);
    CallbackIsStarted(steps, n, steps[n].callback);
    StartIsSign(steps, n, steps[n].callback);
    var k := StartOf(steps, n, steps[n].callback).value;
    assert IsStartOf(steps, k, n, steps[n].callback, c.user);
  }

  // What one step does to the table and to a handler.
  lemma TableStep(s: State, step: Step, id: Id)
    requires TableInv(s)
    ensures id in Next(s, step).pending && Next(s, step).pending[id].Some? ==>
      || (id in s.pending && Next(s, step).pending[id] == s.pending[id])
      || (step.Respond? && step.callback in s.callbacks && s.callbacks[step.callback].internalId == id
          && (if step.ok then Next(s, step).pending[id].value.Signed? else Next(s, step).pending[id].value.Failed?))
    ensures id in Next(s, step).handlers && Next(s, step).handlers[id].Answered? ==>
      || (id in s.handlers && Next(s, step).handlers[id] == s.handlers[id])
      || (step == Return(id) && id in s.pending && s.pending[id] == Some(Next(s, step).handlers[id].response))
      || (step == Timeout(id) && id in s.requests && Next(s, step).handlers[id].response == TimedOut(s.requests[id].id))
  {
  }

  lemma StepIsTraced(steps: seq<Step>, n: nat, id: Id)
    requires n < |steps| && PendingTraced(steps, n, id) && AnswerTraced(steps, n, id)
    ensures PendingTraced(steps, n + 1, id) && AnswerTraced(steps, n + 1, id)
  {
    var s, step, next := At(steps, n), steps[n], At(steps, n + 1);
    AtKeepsInv(steps, n);
    TableStep(s, step, id);
    if id in next.pending && next.pending[id].Some? {
      if id in s.pending && next.pending[id] == s.pending[id] {
        TracedStays(steps, n, id, s.pending[id].value);
      } else {
        RespondIsTraced(steps, n, id);
      }
    }
    if id in next.handlers && next.handlers[id].Answered? {
      if id in s.handlers && next.handlers[id] == s.handlers[id] {
        TracedStays(steps, n, id, s.handlers[id].response);
      } else if step == Return(id) {
        TracedStays(steps, n, id, next.handlers[id].response);
      } else {
        RequestsArrived(steps, n, id);
        ArrivalStays(steps, n, n + 1, id);
      }
    }
  }

  lemma {:induction false} AnswersAreTraced(steps: seq<Step>, n: nat, id: Id)
    requires n <= |steps|
    ensures PendingTraced(steps, n, id) && AnswerTraced(steps, n, id)
  {
    if n == 0 {
    } else {
      AnswersAreTraced(steps, n - 1, id);
      StepIsTraced(steps, n - 1, id);
    }
  }

  /** In every run, a handler is answered with a signature only after a callback
      that its own user's signing started has responded with success; with a
      failure only after one has responded with failure; and as timed out only
      after its timeout, under the request id that arrived. */
  lemma SignedNeedsSignature(steps: seq<Step>, n: nat, id: Id)
    requires n <= |steps| && id in At(steps, n).handlers && At(steps, n).handlers[id].Answered?
    ensures match At(steps, n).handlers[id].response
      case Signed(_, _) => exists m: nat :: m < n && IsAnswerOf(steps, m, n, id, true)
      case Failed(_) => exists m: nat :: m < n && IsAnswerOf(steps, m, n, id, false)
      case TimedOut(requestId) =>
        && (exists m: nat :: m < n && steps[m] == Timeout(id))
        && ArrivalOf(steps, n, id).Some? && requestId == ArrivalOf(steps, n, id).value.id
  {
    AnswersAreTraced(steps, n, id);
  }

  // What a step makes of a waiting handler.
  ghost predicate GoesOn(s: State, step: Step, next: State, id: Id, requestId: string)
    requires id in s.pending
  {
    && id in next.handlers
    && if step == Timeout(id) then
         next.handlers[id] == Answered(TimedOut(requestId)) && id !in next.pending
       else if step == Return(id) && s.pending[id].Some? then
         next.handlers[id] == Answered(s.pending[id].value) && id !in next.pending
       else if step == Abort(id) then
         next.handlers[id] == Aborted && id !in next.pending
       else
         && next.handlers[id] == Waiting && id in next.pending
         && next.pending[id] == if AnswersTo(s, step, id) then Some(ResultOf(s, step)) else s.pending[id]
  }

  predicate AnswersTo(s: State, step: Step, id: Id) {
    step.Respond? && step.callback in s.callbacks && s.callbacks[step.callback].internalId == id
  }

  function ResultOf(s: State, step: Step): Response
    requires step.Respond? && step.callback in s.callbacks
  {
    var c := s.callbacks[step.callback];
    if step.ok then Signed(c.requestId, c.xdr) else Failed(c.requestId)
  }

  lemma FinishGoesOn(s: State, step: Step, id: Id)
    requires TableInv(s) && id in s.pending && id in s.requests
    requires step.Timeout? || step.Return? || step.Abort?
    ensures GoesOn(s, step, Next(s, step), id, s.requests[id].id)
  {
  }

  lemma RespondGoesOn(s: State, step: Step, id: Id)
    requires TableInv(s) && id in s.pending && id in s.requests && step.Respond?
    ensures GoesOn(s, step, Next(s, step), id, s.requests[id].id)
  {
  }

  lemma NextGoesOn(s: State, step: Step, id: Id)
    requires TableInv(s) && id in s.pending && id in s.requests
    ensures GoesOn(s, step, Next(s, step), id, s.requests[id].id)
  {
    if step.Timeout? || step.Return? || step.Abort? {
      FinishGoesOn(s, step, id);
    } else if step.Respond? {
      RespondGoesOn(s, step, id);
    }
  }

  /** How a waiting handler goes on: a timeout answers it as timed out under the
      request id that arrived; a return hands on the result in the table; an abort
      answers nothing; a callback that responds to it sets the result in the table,
      with its signature or its failure; and no other step touches it. */
  lemma WaitingGoesOn(steps: seq<Step>, n: nat, id: Id)
    requires n < |steps| && IsWaitingAt(steps, n, id)
    ensures ArrivalOf(steps, n, id).Some? && id in At(steps, n).pending
    ensures GoesOn(At(steps, n), steps[n], At(steps, n + 1), id, ArrivalOf(steps, n, id).value.id)
  {
    AtKeepsInv(steps, n);
    RequestsArrived(steps, n, id);
    NextGoesOn(At(steps, n), steps[n], id);
  }

  // ------------------------------------------------------ one request at a time

  /** A user's requests do not overlap. */
  ghost predicate OneAtATime(steps: seq<Step>) {
    forall n: nat, user: User, a: Id, b: Id
      | n <= |steps| && ActsFor(steps, n, a, user) && ActsFor(steps, n, b, user) :: a == b
  }

  // A handler writes its ids before its transaction, as the code does.
  ghost predicate IdsComeFirst(steps: seq<Step>) {
    forall j: nat, user: User | j < |steps| && steps[j].WriteXdr? && ActsFor(steps, j, steps[j].internalId, user) ::
      exists i: nat ::
        i < j && steps[i] == WriteIds(steps[j].internalId) && ActsFor(steps, i, steps[j].internalId, user)
  }

  // The user signs after the handler has written the transaction, and loads no other in between.
  ghost predicate SignsWhatIsAsked(steps: seq<Step>, k: nat)
    requires k < |steps| && steps[k].Sign?
  {
    var user := steps[k].user;
    var i := LastIds(steps, k, user);
    i.Some? && i.value < k && steps[i.value].WriteIds? ==> exists j: nat :: WrittenSince(steps, i.value, j, k, user)
  }

  ghost predicate WrittenSince(steps: seq<Step>, i: nat, j: nat, k: nat, user: User)
    requires i < k <= |steps| && steps[i].WriteIds?
  {
    && i < j < k && steps[j] == WriteXdr(steps[i].internalId) && ActsFor(steps, j, steps[i].internalId, user)
    && forall m | j < m < k :: !(steps[m].OtherXdr? && steps[m].user == user)
  }

  lemma WaitedBefore(steps: seq<Step>, m: nat, n: nat, id: Id)
    requires m <= n <= |steps| && id in At(steps, m).handlers && IsWaitingAt(steps, n, id)
    ensures IsWaitingAt(steps, m, id)
  {
    if At(steps, m).handlers[id] != Waiting {
      FinishedStaysFinished(steps, m, n, id);
    }
  }

  lemma WaitingStep(s: State, step: Step, id: Id)
    requires id in s.handlers
    ensures id in Next(s, step).handlers
  {
  }

  lemma {:induction false} LastXdrIsLater(steps: seq<Step>, j: nat, n: nat, user: User)
    requires j < n <= |steps| && WritesXdr(steps, j, user)
    requires forall m | j < m < n :: steps[m] != ClearForm(user)
    ensures LastXdr(steps, n, user).Some? && j <= LastXdr(steps, n, user).value < n
    ensures WritesXdr(steps, LastXdr(steps, n, user).value, user)
  {
    if n == j + 1 {
    } else {
      LastXdrIsLater(steps, j, n - 1, user);
    }
  }

  // Another request's handler cannot have written between.
  lemma OnlyOwnWrite(steps: seq<Step>, i: nat, j: nat, k: nat, user: User)
    requires OneAtATime(steps) && IdsComeFirst(steps)
    requires k <= |steps| && LastIds(steps, k, user) == Some(i) && i < j < k
    requires steps[j].WriteXdr? && ActsFor(steps, j, steps[j].internalId, user)
    ensures steps[i].WriteIds? && steps[j].internalId == steps[i].internalId
  {
    LastIdsFacts(steps, k, user);
    var a, b := steps[i].internalId, steps[j].internalId;
    var h: nat :| h < j && steps[h] == WriteIds(b) && ActsFor(steps, h, b, user);
    assert WritesIds(steps, h, user);
    if h < i {
      ActedBetween(steps, h, i, j, b, user);
      assert ActsFor(steps, i, a, user);
    }
  }

  lemma ActedBetween(steps: seq<Step>, h: nat, i: nat, j: nat, id: Id, user: User)
    requires h <= i <= j <= |steps| && ActsFor(steps, h, id, user) && ActsFor(steps, j, id, user)
    ensures ActsFor(steps, i, id, user)
  {
    StillThere(steps, h, i, id);
    WaitedBefore(steps, i, j, id);
    ArrivalStays(steps, h, i, id);
  }

  lemma {:induction false} StillThere(steps: seq<Step>, m: nat, n: nat, id: Id)
    requires m <= n <= |steps| && id in At(steps, m).handlers
    ensures id in At(steps, n).handlers
  {
    if m == n {
    } else {
      StillThere(steps, m, n - 1, id);
      WaitingStep(At(steps, n - 1), steps[n - 1], id);
    }
  }

  lemma OwnTextIsWritten(steps: seq<Step>, i: nat, j: nat, k: nat)
    requires i < j < k <= |steps| && steps[i].WriteIds? && steps[j].WriteXdr?
    requires steps[j].internalId == steps[i].internalId
    requires ArrivalOf(steps, i, steps[i].internalId).Some?
    ensures ArrivalOf(steps, k, steps[i].internalId).Some?
    ensures TextAt(steps, j) == Some(ArrivalOf(steps, k, steps[i].internalId).value.xdr)
  {
    ArrivalStays(steps, i, j, steps[i].internalId);
    ArrivalStays(steps, j, k, steps[i].internalId);
  }

  lemma SequentialInSchedule(steps: seq<Step>, k: nat)
    requires OneAtATime(steps) && IdsComeFirst(steps)
    requires k < |steps| && steps[k].Sign? && SignsWhatIsAsked(steps, k)
    ensures InSchedule(steps, k)
  {
    var user := steps[k].user;
    if LastIds(steps, k, user).Some? {
      var i := LastIds(steps, k, user).value;
      LastIdsFacts(steps, k, user);
      var j: nat :| WrittenSince(steps, i, j, k, user);
      LastXdrIsLater(steps, j, k, user);
      var last := LastXdr(steps, k, user).value;
      assert steps[last].WriteXdr?;
      OnlyOwnWrite(steps, i, last, k, user);
      OwnTextIsWritten(steps, i, last, k);
    }
  }

  lemma {:induction false} SequentialAnswers(steps: seq<Step>, n: nat)
    requires n <= |steps| && forall k: nat | k < |steps| && steps[k].Sign? :: InSchedule(steps, k)
    ensures AllAnswersInSchedule(steps, n)
  {
    if n == 0 {
    } else {
      SequentialAnswers(steps, n - 1);
      if steps[n - 1].Respond? {
        StartIsSign(steps, n - 1, steps[n - 1].callback);
      }
    }
  }

  /** When no user's requests overlap and each signing follows the writing of the
      request it answers, every signature in the run is over the transaction of
      its own request. */
  lemma SequentialRequestsMatch(steps: seq<Step>)
    requires OneAtATime(steps) && IdsComeFirst(steps)
    requires forall k: nat | k < |steps| && steps[k].Sign? :: SignsWhatIsAsked(steps, k)
    ensures AlwaysMatch(steps, |steps|)
    ensures AllHoldOwn(At(steps, |steps|))
  {
    forall k: nat | k < |steps| && steps[k].Sign?
      ensures InSchedule(steps, k)
    {
      SequentialInSchedule(steps, k);
    }
    forall c: Id
      ensures StartedInSchedule(steps, |steps|, c)
    {
      StartIsSign(steps, |steps|, c);
    }
    SequentialAnswers(steps, |steps|);
    PayloadsMatchIff(steps);
    AnswersMatchIff(steps, |steps|);
  }

  lemma {:induction false} StartIsSign(steps: seq<Step>, n: nat, callback: Id)
    requires n <= |steps|
    ensures var k := StartOf(steps, n, callback);
      k.Some? ==> k.value < n && steps[k.value].Sign? && steps[k.value].callback == callback
  {
    if n == 0 {
    } else {
      StartIsSign(steps, n - 1, callback);
    }
  }

  // Both requests have arrived; ids and transactions are then written crosswise.
  lemma CrossedForm(user: User, a: Request, b: Request, s: State)
    requires a.user == b.user == user
    requires s.requests == map[1 := a, 2 := b] && s.handlers == map[1 := Waiting, 2 := Waiting]
    ensures var t := Next(Next(Next(Next(s, WriteIds(1)), WriteIds(2)), WriteXdr(2)), WriteXdr(1));
      && FormOf(t, user) == Form(Some((2, b.id)), Some(a.xdr))
      && t == s.(forms := t.forms)
  {
  }

  lemma AnswerFromForm(user: User, a: Request, b: Request, s: State)
    requires FormOf(s, user) == Form(Some((2, b.id)), Some(a.xdr)) && 9 !in s.callbacks && 2 in s.pending
    ensures var t := Next(Next(Next(s, Sign(9, user)), Respond(9, true)), Return(2));
      2 in t.handlers && t.handlers[2] == Answered(Signed(b.id, Some(a.xdr)))
  {
    var s1 := Next(s, Sign(9, user));
    assert s1.callbacks[9] == Callback(user, 2, b.id, Some(a.xdr));
    var s2 := Next(s1, Respond(9, true));
    assert s2.pending[2] == Some(Signed(b.id, Some(a.xdr)));
  }

  lemma AtStep(steps: seq<Step>, n: nat)
    requires n < |steps|
    ensures At(steps, n + 1) == Next(At(steps, n), steps[n])
  {
  }

  /** The ids and the transaction of a request are written separately, so two
      overlapping requests of one user can be crossed: here the handler of
      the second request is answered, under its own request id, with a
      signature over the first request's transaction. */
  lemma OverlapCrossesPayloads(user: User, a: Request, b: Request)
    requires a.user == b.user == user
    ensures var steps := [Arrive(1, a), Arrive(2, b), WriteIds(1), WriteIds(2), WriteXdr(2), WriteXdr(1),
                          Sign(9, user), Respond(9, true), Return(2)];
      2 in At(steps, 9).handlers && At(steps, 9).handlers[2] == Answered(Signed(b.id, Some(a.xdr)))
  {
    var steps := [Arrive(1, a), Arrive(2, b), WriteIds(1), WriteIds(2), WriteXdr(2), WriteXdr(1),
                  Sign(9, user), Respond(9, true), Return(2)];
    var s := At(steps, 2);
    assert At(steps, 1) == Next(INITIAL, Arrive(1, a));
    AtStep(steps, 1);
    assert s.requests == map[1 := a, 2 := b] && s.handlers == map[1 := Waiting, 2 := Waiting];
    CrossedForm(user, a, b, s);
    var t := At(steps, 6);
    AtStep(steps, 2);
    AtStep(steps, 3);
    AtStep(steps, 4);
    AtStep(steps, 5);
    AnswerFromForm(user, a, b, t);
    AtStep(steps, 6);
    AtStep(steps, 7);
    AtStep(steps, 8);
  }
}
