/**
 * Lending energy to a wallet while it is swept: how much TRX is delegated, that
 * the undo takes back the same, and when the sweep is triggered.
 */
module Energy {
  import opened Prelude
  import opened Dicts

  const TRX_TO_SUN: int := 1_000_000

  // Python's `int(x)`.
  function Truncate(x: real): int {
    if x >= 0.0 then x.Floor else 0 - (0.0 - x).Floor
  }

  // None is the ZeroDivisionError.
  function AmountInTrx(need: int, limit: int, weight: int): Option<int> {
    if weight == 0 || limit == 0 then None
    else Some(Truncate(need as real / (limit as real / weight as real)) + 1)
  }

  // The energy that this much TRX is worth.
  function Worth(trx: int, limit: int, weight: int): real
    requires weight != 0
  {
    trx as real * (limit as real / weight as real)
  }

  lemma QuotientOf(x: real, per: real, n: int)
    requires per > 0.0
    ensures x / per < n as real <==> x < n as real * per
    ensures x / per <= n as real <==> x <= n as real * per
  {
    var q := x / per;
    assert q * per == x;
    var d := n as real - q;
    assert n as real * per - x == d * per;
    if d > 0.0 {
      assert d * per > 0.0;
    } else if d < 0.0 {
      assert d * per < 0.0;
    }
  }

  /** The TRX delegated are worth more than the energy needed, and they are the
      fewest that are: one TRX less would not be worth more. */
  lemma AmountIsLeast(need: nat, limit: int, weight: int)
    requires limit > 0 && weight > 0
    ensures AmountInTrx(need, limit, weight).Some?
    ensures var trx := AmountInTrx(need, limit, weight).value;
      trx >= 1 && Worth(trx - 1, limit, weight) <= need as real < Worth(trx, limit, weight)
  {
    var per := limit as real / weight as real;
    PerIsPositive(limit as real, weight as real);
    var q := need as real / per;
    QuotientOf(need as real, per, 0);
    QuotientOf(need as real, per, q.Floor + 1);
    FloorIsBelow(need as real, per);
  }

  lemma PerIsPositive(limit: real, weight: real)
    requires limit > 0.0 && weight > 0.0
    ensures limit / weight > 0.0
  {
    var per := limit / weight;
    assert per * weight == limit;
  }

  lemma FloorIsBelow(x: real, per: real)
    requires per > 0.0
    ensures (x / per).Floor as real * per <= x
  {
    var q := x / per;
    assert q * per == x;
    assert (q - q.Floor as real) * per >= 0.0;
  }

  // ------------------------------------------------------------- one wallet

  // What reached the chain, in SUN, in order.
  datatype Tx = Delegate(sun: int) | Undelegate(sun: int)

  // How building, broadcasting and awaiting a transaction goes. A broadcast or
  // a wait that raises may or may not leave the transaction on the chain.
  datatype Outcome = BuildRaises | BroadcastRaises(landed: bool) | WaitRaises(landed: bool) | Confirmed

  predicate Landed(o: Outcome) {
    match o
    case BuildRaises => false
    case BroadcastRaises(landed) => landed
    case WaitRaises(landed) => landed
    case Confirmed => true
  }

  // An account's energy as it was fetched, and the TRX remembered as delegated.
  datatype Energy = Energy(totalLimit: int, totalWeight: int, limit: int, used: int, need: int, delegated: int)

  function Amount(e: Energy): Option<int> {
    AmountInTrx(e.need, e.totalLimit, e.totalWeight)
  }

  // The checks made before anything is sent pass.
  predicate MaySend(e: Energy, undo: bool) {
    (undo || e.need <= e.limit - e.used) && Amount(e).Some?
  }

  // An undo takes back the amount remembered, if it is positive.
  function UndoAmount(e: Energy): int
    requires Amount(e).Some?
  {
    if e.delegated > 0 then e.delegated else Amount(e).value
  }

  predicate Returns(e: Energy, undo: bool, outcome: Outcome) {
    MaySend(e, undo) && outcome.Confirmed?
  }

  function Sends(e: Energy, undo: bool, outcome: Outcome): seq<Tx> {
    if !MaySend(e, undo) || !Landed(outcome) then []
    else if undo then [Undelegate(UndoAmount(e) * TRX_TO_SUN)]
    else [Delegate(Amount(e).value * TRX_TO_SUN)]
  }

  // The amount is remembered once the delegation is built, whatever becomes of it.
  function After(e: Energy, undo: bool, outcome: Outcome): Energy {
    if !undo && MaySend(e, undo) && !outcome.BuildRaises? then e.(delegated := Amount(e).value) else e
  }

  class EnergyObject {
    const totalLimit: int
    const totalWeight: int
    const limit: int
    const used: int
    const need: int
    var delegated: int

    ghost function Value(): Energy
      reads this
    {
      Energy(totalLimit, totalWeight, limit, used, need, delegated)
    }

    constructor (totalLimit: int, totalWeight: int, limit: int, used: int, need: int)
      ensures Value() == Energy(totalLimit, totalWeight, limit, used, need, 0)
    {
      this.totalLimit, this.totalWeight := totalLimit, totalWeight;
      this.limit, this.used, this.need, delegated := limit, used, need, 0;
    }

    // `sent` is what this call put on the chain; `ok` is false when it raised.
    method DelegateEnergy(undo: bool, outcome: Outcome) returns (ok: bool, sent: seq<Tx>)
      modifies this
      ensures ok == Returns(old(Value()), undo, outcome)
      ensures sent == Sends(old(Value()), undo, outcome)
      ensures Value() == After(old(Value()), undo, outcome)
    {
      if need > limit - used && !undo {
        return false, [];
      }
      var inTrx := AmountInTrx(need, totalLimit, totalWeight);
      if inTrx.None? {
        return false, [];
      }
      var tx;
      if undo {
        var energyUndo := if delegated > 0 then delegated else inTrx.value;
        if outcome.BuildRaises? {
          return false, [];
        }
        tx := Undelegate(energyUndo * TRX_TO_SUN);
      } else {
        if outcome.BuildRaises? {
          return false, [];
        }
        tx := Delegate(inTrx.value * TRX_TO_SUN);
        delegated := inTrx.value;
      }
      return outcome.Confirmed?, if Landed(outcome) then [tx] else [];
    }
  }

  datatype Transfer = Sent | NotSent | Raises

  // Finished is the source's False or True; Raised is any error that leaves the sweep.
  datatype Exit = Finished(success: bool) | Raised

  // afterSend is false when booking the transfer or reporting it raises.
  datatype Course = Course(freeNet: int, amount: real, delegate: Outcome, transfer: Transfer, afterSend: bool,
                           undo: Outcome)

  predicate Starts(c: Course) {
    c.freeNet >= 500 && c.amount > 0.0
  }

  // What a sweep puts on the chain: its delegation and, if that returned, the undo
  // computed from what the object then remembers.
  function SweepSends(e: Energy, c: Course): seq<Tx> {
    if !Starts(c) then []
    else
      Sends(e, false, c.delegate)
      + if Returns(e, false, c.delegate) then Sends(After(e, false, c.delegate), true, c.undo) else []
  }

  // The end of a sweep: the guards, then delegate, send and, in any case, undo.
  method Sweep(energy: EnergyObject, course: Course) returns (exit: Exit, sent: seq<Tx>)
    modifies energy
    ensures sent == SweepSends(old(energy.Value()), course)
    ensures energy.Value() ==
      if Starts(course) then After(old(energy.Value()), false, course.delegate) else old(energy.Value())
    ensures exit == Finished(true) <==>
      && Starts(course) && Returns(old(energy.Value()), false, course.delegate)
      && course.transfer.Sent? && course.afterSend && course.undo.Confirmed?
    ensures exit == Finished(false) <==>
      Starts(course) ==>
        (&& Returns(old(energy.Value()), false, course.delegate)
         && course.transfer.NotSent? && course.afterSend && course.undo.Confirmed?)
  {
    if course.freeNet < 500 {
      return Finished(false), [];
    }
    if course.amount <= 0.0 {
      return Finished(false), [];
    }
    var delegated;
    delegated, sent := energy.DelegateEnergy(false, course.delegate);
    if !delegated {
      return Raised, sent;
    }
    match course.transfer {
      case Sent => exit := if course.afterSend then Finished(true) else Raised;
      case NotSent => exit := if course.afterSend then Finished(false) else Raised;
      case Raises => exit := Raised;
    }
    var undone, back := energy.DelegateEnergy(true, course.undo);
    sent := sent + back;
    if !undone {
      exit := Raised;
    }
  }

  // How much stays delegated after these transactions, in SUN.
  function Lent(txs: seq<Tx>): int {
    if txs == [] then 0 else Lent(txs[..|txs| - 1]) + Signed(txs[|txs| - 1])
  }

  function Signed(tx: Tx): int {
    match tx
    case Delegate(sun) => sun
    case Undelegate(sun) => 0 - sun
  }

  /** Whatever an object remembers from before, a sweep leaves nothing delegated,
      unless its delegation landed although it raised, or its undo did not land. */
  lemma SweepLent(e: Energy, c: Course)
    ensures Lent(SweepSends(e, c)) ==
      if Starts(c) && MaySend(e, false) && Landed(c.delegate) && !(c.delegate.Confirmed? && Landed(c.undo))
      then Amount(e).value * TRX_TO_SUN else 0
  {
    if Starts(c) && MaySend(e, false) && Landed(c.delegate) {
      var sun := Amount(e).value * TRX_TO_SUN;
      assert UndoAmount(After(e, false, c.delegate)) == Amount(e).value;
      assert [Delegate(sun)][..0] == [] && [Delegate(sun), Undelegate(sun)][..1] == [Delegate(sun)];
      assert Lent([Delegate(sun)]) == sun;
    }
  }

  lemma AmountInIntegers(need: nat, limit: int, weight: int, trx: int)
    requires limit > 0 && weight > 0 && AmountInTrx(need, limit, weight) == Some(trx)
    ensures (trx - 1) * limit <= need * weight < trx * limit
  {
    AmountIsLeast(need, limit, weight);
    ScaledUp(trx - 1, limit, weight);
    ScaledUp(trx, limit, weight);
    assert (Worth(trx, limit, weight) - need as real) * weight as real > 0.0;
    assert (need as real - Worth(trx - 1, limit, weight)) * weight as real >= 0.0;
  }

  lemma ScaledUp(trx: int, limit: int, weight: int)
    requires weight != 0
    ensures Worth(trx, limit, weight) * weight as real == (trx * limit) as real
  {
    var per := limit as real / weight as real;
    assert per * weight as real == limit as real;
    assert trx as real * per * weight as real == trx as real * (per * weight as real);
  }

  // The outcomes after which a transaction is on the chain.
  const ON_CHAIN := {BroadcastRaises(true), WaitRaises(true), Confirmed}

  /** A sweep delegates if and only if the wallet has 500 units of bandwidth and
      something to send, the master can spare the energy needed and the delegation
      reaches the chain. It then delegates the least TRX that are worth more than
      the need, and the undo, due if the delegation was confirmed, takes back as many. */
  lemma SweepDelegatesIff(e: Energy, c: Course) returns (trx: int)
    requires e.need >= 0 && e.totalLimit > 0 && e.totalWeight > 0
    ensures (trx - 1) * e.totalLimit <= e.need * e.totalWeight < trx * e.totalLimit
    ensures SweepSends(e, c) != [] <==>
      && c.freeNet >= 500 && c.amount > 0.0 && e.need <= e.limit - e.used
      && c.delegate in ON_CHAIN
    ensures SweepSends(e, c) != [] ==>
      (SweepSends(e, c) == [Delegate(trx * 1_000_000)] + if c.delegate == Confirmed && c.undo in ON_CHAIN
                                                         then [Undelegate(trx * 1_000_000)] else [])
  {
    AmountIsLeast(e.need, e.totalLimit, e.totalWeight);
    trx := Amount(e).value;
    AmountInIntegers(e.need, e.totalLimit, e.totalWeight, trx);
  }

  // --------------------------------------------------------- overlapping sweeps

  datatype Entry = Entry(sweep: nat, tx: Tx)

  // Sweeps in progress may share an object, or each have fetched their own.
  datatype World = World(objects: map<nat, Energy>, sweeps: map<nat, nat>, lending: set<nat>, chain: seq<Entry>)

  datatype Step =
    | Fetch(id: nat, energy: Energy)
    | Begin(sweep: nat, id: nat, outcome: Outcome)
    | End(sweep: nat, outcome: Outcome)

  const NOTHING := World(map[], map[], {}, [])

  function Entries(sweep: nat, txs: seq<Tx>): seq<Entry> {
    if txs == [] then [] else Entries(sweep, txs[..|txs| - 1]) + [Entry(sweep, txs[|txs| - 1])]
  }

  predicate Begins(w: World, step: Step) {
    step.Begin? && step.sweep !in w.sweeps && step.id in w.objects
  }

  // The undo of a sweep whose delegation returned.
  predicate Ends(w: World, step: Step) {
    step.End? && step.sweep in w.lending && step.sweep in w.sweeps && w.sweeps[step.sweep] in w.objects
  }

  // A step that is not possible changes nothing.
  function Next(w: World, step: Step): World {
    match step
    case Fetch(id, energy) =>
      if id in w.objects then w else w.(objects := w.objects[id := energy.(delegated := 0)])
    case Begin(sweep, id, outcome) =>
      if !Begins(w, step) then w
      else
        var e := w.objects[id];
        World(w.objects[id := After(e, false, outcome)], w.sweeps[sweep := id],
              if Returns(e, false, outcome) then w.lending + {sweep} else w.lending,
              w.chain + Entries(sweep, Sends(e, false, outcome)))
    case End(sweep, outcome) =>
      if !Ends(w, step) then w
      else
        var id := w.sweeps[sweep];
        var e := w.objects[id];
        World(w.objects[id := After(e, true, outcome)], w.sweeps, w.lending - {sweep},
              w.chain + Entries(sweep, Sends(e, true, outcome)))
  }

  function At(steps: seq<Step>, n: nat): World
    requires n <= |steps|
  {
    if n == 0 then NOTHING else Next(At(steps, n - 1), steps[n - 1])
  }

  function NetOf(chain: seq<Entry>, sweep: nat): int {
    if chain == [] then 0
    else
      NetOf(chain[..|chain| - 1], sweep)
      + if chain[|chain| - 1].sweep == sweep then Signed(chain[|chain| - 1].tx) else 0
  }

  // The sweep's delegation landed and no undo of it has.
  predicate Owes(steps: seq<Step>, n: nat, sweep: nat)
    requires n <= |steps|
  {
    if n == 0 then false
    else
      var w, step := At(steps, n - 1), steps[n - 1];
      if Begins(w, step) && step.sweep == sweep then MaySend(w.objects[step.id], false) && Landed(step.outcome)
      else if Ends(w, step) && step.sweep == sweep then Owes(steps, n - 1, sweep) && !Landed(step.outcome)
      else Owes(steps, n - 1, sweep)
  }

  function AmountOf(w: World, sweep: nat): int {
    if sweep in w.sweeps && w.sweeps[sweep] in w.objects && Amount(w.objects[w.sweeps[sweep]]).Some?
    then Amount(w.objects[w.sweeps[sweep]]).value else 0
  }

  // What an object remembers is nothing or the amount it always computes.
  predicate Remembers(e: Energy) {
    e.delegated == 0 || (Amount(e).Some? && e.delegated == Amount(e).value)
  }

  ghost predicate Sane(w: World) {
    && (forall o | o in w.objects :: Remembers(w.objects[o]))
    && (forall s | s in w.sweeps :: w.sweeps[s] in w.objects)
    && (forall s | s in w.lending :: s in w.sweeps && Amount(w.objects[w.sweeps[s]]).Some?)
  }

  lemma NextIsSane(w: World, step: Step)
    requires Sane(w)
    ensures Sane(Next(w, step))
  {
  }

  lemma {:induction false} AtIsSane(steps: seq<Step>, n: nat)
    requires n <= |steps|
    ensures Sane(At(steps, n))
  {
    if n == 0 {
    } else {
      AtIsSane(steps, n - 1);
      NextIsSane(At(steps, n - 1), steps[n - 1]);
    }
  }

  lemma AmountStays(w: World, step: Step, sweep: nat)
    requires Sane(w) && sweep in w.sweeps
    ensures sweep in Next(w, step).sweeps && AmountOf(Next(w, step), sweep) == AmountOf(w, sweep)
  {
  }

  // What one step adds to the chain for a sweep.
  function Added(w: World, step: Step, sweep: nat): int {
    if Begins(w, step) && step.sweep == sweep && MaySend(w.objects[step.id], false) && Landed(step.outcome)
    then Amount(w.objects[step.id]).value * TRX_TO_SUN
    else if Ends(w, step) && step.sweep == sweep && MaySend(w.objects[w.sweeps[sweep]], true) && Landed(step.outcome)
    then 0 - UndoAmount(w.objects[w.sweeps[sweep]]) * TRX_TO_SUN
    else 0
  }

  lemma NetOfPush(chain: seq<Entry>, sweep: nat, tx: Tx, other: nat)
    ensures Entries(sweep, [tx]) == [Entry(sweep, tx)]
    ensures NetOf(chain + [Entry(sweep, tx)], other) == NetOf(chain, other) + if sweep == other then Signed(tx) else 0
  {
    assert [tx][..0] == [];
    assert (chain + [Entry(sweep, tx)])[..|chain|] == chain;
  }

  lemma NetStep(w: World, step: Step, sweep: nat)
    ensures NetOf(Next(w, step).chain, sweep) == NetOf(w.chain, sweep) + Added(w, step, sweep)
  {
    assert w.chain + [] == w.chain;
    if Begins(w, step) && Sends(w.objects[step.id], false, step.outcome) != [] {
      NetOfPush(w.chain, step.sweep, Sends(w.objects[step.id], false, step.outcome)[0], sweep);
    } else if Ends(w, step) && Sends(w.objects[w.sweeps[step.sweep]], true, step.outcome) != [] {
      NetOfPush(w.chain, step.sweep, Sends(w.objects[w.sweeps[step.sweep]], true, step.outcome)[0], sweep);
    }
  }

  lemma {:induction false} OnlyBegunOwe(steps: seq<Step>, n: nat, sweep: nat)
    requires n <= |steps|
    ensures Owes(steps, n, sweep) ==> sweep in At(steps, n).sweeps
    ensures sweep in At(steps, n).lending ==> Owes(steps, n, sweep)
  {
    if n == 0 {
    } else {
      OnlyBegunOwe(steps, n - 1, sweep);
      AtIsSane(steps, n - 1);
    }
  }

  /** However sweeps overlap, and whether or not they share an object, what the
      chain shows for a sweep at any time is exactly its own amount while its
      delegation is out, and nothing before and after: every undo takes back what
      its own sweep delegated, and never more. */
  lemma {:induction false} EachSweepOwesItsOwn(steps: seq<Step>, n: nat, sweep: nat)
    requires n <= |steps|
    ensures NetOf(At(steps, n).chain, sweep)
         == if Owes(steps, n, sweep) then AmountOf(At(steps, n), sweep) * TRX_TO_SUN else 0
  {
    if n == 0 {
    } else {
      var w, step := At(steps, n - 1), steps[n - 1];
      EachSweepOwesItsOwn(steps, n - 1, sweep);
      OnlyBegunOwe(steps, n - 1, sweep);
      AtIsSane(steps, n - 1);
      NetStep(w, step, sweep);
      if sweep in w.sweeps {
        AmountStays(w, step, sweep);
      }
    }
  }

  /** However sweeps overlap, energy is out only for a sweep whose object said the
      master could spare it. */
  lemma {:induction false} OwedWasSpare(steps: seq<Step>, n: nat, sweep: nat)
    requires n <= |steps| && Owes(steps, n, sweep)
    ensures var w := At(steps, n);
      && sweep in w.sweeps && w.sweeps[sweep] in w.objects
      && w.objects[w.sweeps[sweep]].need <= w.objects[w.sweeps[sweep]].limit - w.objects[w.sweeps[sweep]].used
  {
    var w, step := At(steps, n - 1), steps[n - 1];
    if Begins(w, step) && step.sweep == sweep {
    } else {
      OwedWasSpare(steps, n - 1, sweep);
    }
  }

  ghost predicate Priced(e: Energy) {
    e.need >= 0 && e.totalLimit > 0 && e.totalWeight > 0
  }

  lemma {:induction false} ObjectsArePriced(steps: seq<Step>, n: nat)
    requires n <= |steps| && forall k | 0 <= k < |steps| && steps[k].Fetch? :: Priced(steps[k].energy)
    ensures forall o | o in At(steps, n).objects :: Priced(At(steps, n).objects[o])
  {
    if n == 0 {
    } else {
      ObjectsArePriced(steps, n - 1);
    }
  }

  /** With positive network totals, no undo ever takes back more than is out. */
  lemma NeverOverdrawn(steps: seq<Step>, n: nat, sweep: nat)
    requires n <= |steps| && forall k | 0 <= k < |steps| && steps[k].Fetch? :: Priced(steps[k].energy)
    ensures NetOf(At(steps, n).chain, sweep) >= 0
  {
    var w := At(steps, n);
    EachSweepOwesItsOwn(steps, n, sweep);
    ObjectsArePriced(steps, n);
    if sweep in w.sweeps && w.sweeps[sweep] in w.objects {
      var e := w.objects[w.sweeps[sweep]];
      AmountIsLeast(e.need, e.totalLimit, e.totalWeight);
    }
  }

  // --------------------------------------------------------------- in all

  function Total(chain: seq<Entry>): int {
    if chain == [] then 0 else Total(chain[..|chain| - 1]) + Signed(chain[|chain| - 1].tx)
  }

  // The sweeps in the order they began.
  function Begun(steps: seq<Step>, n: nat): seq<nat>
    requires n <= |steps|
  {
    if n == 0 then []
    else Begun(steps, n - 1) + if Begins(At(steps, n - 1), steps[n - 1]) then [steps[n - 1].sweep] else []
  }

  function SumOwed(steps: seq<Step>, n: nat, sweeps: seq<nat>): int
    requires n <= |steps|
  {
    if sweeps == [] then 0
    else
      var last := sweeps[|sweeps| - 1];
      SumOwed(steps, n, sweeps[..|sweeps| - 1])
      + if Owes(steps, n, last) then AmountOf(At(steps, n), last) * TRX_TO_SUN else 0
  }

  function SumNet(chain: seq<Entry>, sweeps: seq<nat>): int {
    if sweeps == [] then 0 else SumNet(chain, sweeps[..|sweeps| - 1]) + NetOf(chain, sweeps[|sweeps| - 1])
  }

  lemma {:induction false} SumNetPush(chain: seq<Entry>, e: Entry, sweeps: seq<nat>)
    requires NoDuplicates(sweeps)
    ensures SumNet(chain + [e], sweeps) == SumNet(chain, sweeps) + if e.sweep in sweeps then Signed(e.tx) else 0
  {
    if sweeps == [] {
    } else {
      var front, last := sweeps[..|sweeps| - 1], sweeps[|sweeps| - 1];
      assert sweeps == front + [last];
      SumNetPush(chain, e, front);
      NetOfPush(chain, e.sweep, e.tx, last);
      assert e == Entry(e.sweep, e.tx);
      assert last !in front;
    }
  }

  lemma {:induction false} NothingNets(sweeps: seq<nat>)
    ensures SumNet([], sweeps) == 0
  {
    if sweeps == [] {
    } else {
      NothingNets(sweeps[..|sweeps| - 1]);
    }
  }

  lemma {:induction false} TotalIsSumNet(chain: seq<Entry>, sweeps: seq<nat>)
    requires NoDuplicates(sweeps) && forall e | e in chain :: e.sweep in sweeps
    ensures Total(chain) == SumNet(chain, sweeps)
  {
    if chain == [] {
      NothingNets(sweeps);
    } else {
      var front, last := chain[..|chain| - 1], chain[|chain| - 1];
      assert chain == front + [last];
      TotalIsSumNet(front, sweeps);
      SumNetPush(front, last, sweeps);
    }
  }

  lemma {:induction false} SumNetIsOwed(steps: seq<Step>, n: nat, sweeps: seq<nat>)
    requires n <= |steps|
    ensures SumNet(At(steps, n).chain, sweeps) == SumOwed(steps, n, sweeps)
  {
    if sweeps == [] {
    } else {
      SumNetIsOwed(steps, n, sweeps[..|sweeps| - 1]);
      EachSweepOwesItsOwn(steps, n, sweeps[|sweeps| - 1]);
    }
  }

  lemma EntriesAreOf(sweep: nat, txs: seq<Tx>)
    requires |txs| <= 1
    ensures forall e | e in Entries(sweep, txs) :: e.sweep == sweep
  {
    if txs != [] {
      assert txs[..0] == [];
    }
  }

  lemma {:induction false} BegunAreOnce(steps: seq<Step>, n: nat)
    requires n <= |steps|
    ensures NoDuplicates(Begun(steps, n))
    ensures forall s :: s in Begun(steps, n) <==> s in At(steps, n).sweeps
    ensures forall e | e in At(steps, n).chain :: e.sweep in Begun(steps, n)
  {
    if n == 0 {
    } else {
      var w, step := At(steps, n - 1), steps[n - 1];
      BegunAreOnce(steps, n - 1);
      if Begins(w, step) {
        EntriesAreOf(step.sweep, Sends(w.objects[step.id], false, step.outcome));
      } else if Ends(w, step) {
        EntriesAreOf(step.sweep, Sends(w.objects[w.sweeps[step.sweep]], true, step.outcome));
      }
    }
  }

  /** At any time all that is delegated is the sum of what the sweeps that still
      owe have delegated: everything else has come back. */
  lemma LentIsOwed(steps: seq<Step>, n: nat)
    requires n <= |steps|
    ensures Total(At(steps, n).chain) == SumOwed(steps, n, Begun(steps, n))
  {
    BegunAreOnce(steps, n);
    TotalIsSumNet(At(steps, n).chain, Begun(steps, n));
    SumNetIsOwed(steps, n, Begun(steps, n));
  }

  // ------------------------------------------------------------- the watcher

  const FULL_ENERGY: int := 150_000

  // A reading of the master's energy, or its failure, and whether the message
  // about a full energy, if one is due, gets through.
  datatype Reading = Reading(energy: Option<int>, announced: bool)

  // The latest reading that did not fail.
  function Latest(readings: seq<Reading>, n: nat): Option<int>
    requires n <= |readings|
  {
    if n == 0 then None
    else if readings[n - 1].energy.Some? then readings[n - 1].energy
    else Latest(readings, n - 1)
  }

  predicate IsFull(energy: Option<int>) {
    energy.Some? && energy.value > FULL_ENERGY
  }

  // A full reading whose predecessor, if any, was not full.
  predicate IsCrossing(readings: seq<Reading>, i: nat)
    requires i < |readings|
  {
    IsFull(readings[i].energy) && !IsFull(Latest(readings, i))
  }

  // A crossing whose message fails is used up all the same: no sweep follows it.
  method Watch(readings: seq<Reading>) returns (sweeps: seq<nat>)
    ensures forall i | 0 <= i < |readings| :: i in sweeps <==> IsCrossing(readings, i) && readings[i].announced
    ensures forall k | 0 <= k < |sweeps| :: sweeps[k] < |readings|
    ensures forall k, l | 0 <= k < l < |sweeps| :: sweeps[k] < sweeps[l]
  {
    sweeps := [];
    var lastEnergy := 0;
    var n := 0;
    while n < |readings|
      invariant 0 <= n <= |readings|
      invariant lastEnergy > FULL_ENERGY <==> IsFull(Latest(readings, n))
      invariant forall i | 0 <= i < n :: i in sweeps <==> IsCrossing(readings, i) && readings[i].announced
      invariant forall k | 0 <= k < |sweeps| :: sweeps[k] < n
      invariant forall k, l | 0 <= k < l < |sweeps| :: sweeps[k] < sweeps[l]
    {
      if readings[n].energy.Some? {
        var current := readings[n].energy.value;
        if current > FULL_ENERGY >= lastEnergy {
          lastEnergy := current;
          if readings[n].announced {
            sweeps := sweeps + [n];
          }
        } else if lastEnergy > FULL_ENERGY >= current {
          lastEnergy := 0;
        }
      }
      n := n + 1;
    }
  }

  // Reading j is the last before reading i that did not fail.
  ghost predicate IsLatest(readings: seq<Reading>, j: nat, i: nat)
    requires j < i <= |readings|
  {
    readings[j].energy.Some? && forall k | j < k < i :: readings[k].energy.None?
  }

  /** A crossing is a reading above 150000 whose latest predecessor, if there is
      one, was not. */
  lemma CrossingIff(readings: seq<Reading>, i: nat)
    requires i < |readings|
    ensures IsCrossing(readings, i) <==>
      && readings[i].energy.Some? && readings[i].energy.value > 150_000
      && forall j | 0 <= j < i && IsLatest(readings, j, i) :: readings[j].energy.value <= 150_000
  {
    LatestIs(readings, i);
  }

  lemma {:induction false} LatestIs(readings: seq<Reading>, i: nat)
    requires i <= |readings|
    ensures forall j | 0 <= j < i && IsLatest(readings, j, i) :: readings[j].energy == Latest(readings, i)
    ensures Latest(readings, i).Some? ==> exists j :: 0 <= j < i && IsLatest(readings, j, i)
  {
    if i == 0 {
    } else if readings[i - 1].energy.Some? {
      assert IsLatest(readings, i - 1, i);
    } else {
      LatestIs(readings, i - 1);
      forall j | 0 <= j < i - 1
        ensures IsLatest(readings, j, i) <==> IsLatest(readings, j, i - 1)
      {
        FailedReadingIsSkipped(readings, j, i);
      }
      if Latest(readings, i - 1).Some? {
        var j :| 0 <= j < i - 1 && IsLatest(readings, j, i - 1);
        assert IsLatest(readings, j, i);
      }
    }
  }

  lemma FailedReadingIsSkipped(readings: seq<Reading>, j: nat, i: nat)
    requires j < i - 1 && i <= |readings| && readings[i - 1].energy.None?
    ensures IsLatest(readings, j, i) <==> IsLatest(readings, j, i - 1)
  {
    assert IsLatest(readings, j, i - 1) ==> forall k | j < k < i :: k == i - 1 || readings[k].energy.None?;
  }

  /** Between two crossings the energy was seen drained. */
  lemma {:induction false} DrainedBetween(readings: seq<Reading>, i: nat, j: nat) returns (k: nat)
    requires i < j < |readings| && IsFull(readings[i].energy) && !IsFull(Latest(readings, j))
    ensures i < k < j && readings[k].energy.Some? && readings[k].energy.value <= 150_000
  {
    if readings[j - 1].energy.Some? {
      k := j - 1;
    } else {
      k := DrainedBetween(readings, i, j - 1);
    }
  }
}
