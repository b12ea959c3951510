/**
 * The account wind-down planner and a small ledger to run its operations on:
 * drain every trustline of the doomed account into the master account, close
 * it, delete every data entry, and merge.
 */
module WindDown {
  import opened Prelude
  import opened Dicts

  const MAX_LIMIT: nat := 0x7FFF_FFFF_FFFF_FFFF
  const MAX_OPERATIONS: nat := 100

  datatype Asset = Asset(code: string, issuer: string)

  // One record of Horizon's `balances`; amounts are in stroops.
  datatype Balance = Native(amount: nat) | Issued(asset: Asset, amount: nat) | PoolShare(pool: string, amount: nat)

  datatype Party = Master | Doomed

  datatype Operation =
    | ChangeTrust(source: Party, asset: Asset, limit: nat)
    | Payment(source: Party, destination: Party, asset: Asset, amount: nat)
    | RemoveData(source: Party, name: string)
    | Merge(source: Party, destination: Party)

  // --------------------------------------------------------------- the planner

  // Pool shares carry no asset code: reading one is the source's KeyError.
  predicate HasPoolShare(balances: seq<Balance>) {
    exists i :: 0 <= i < |balances| && balances[i].PoolShare?
  }

  function Held(balances: seq<Balance>): set<Asset> {
    set i | 0 <= i < |balances| && balances[i].Issued? :: balances[i].asset
  }

  function DrainOne(balance: Balance, held: set<Asset>): seq<Operation> {
    if !balance.Issued? then []
    else
      (if balance.amount == 0 then []
       else
         (if balance.asset in held then [] else [ChangeTrust(Master, balance.asset, MAX_LIMIT)])
         + [Payment(Doomed, Master, balance.asset, balance.amount)])
      + [ChangeTrust(Doomed, balance.asset, 0)]
  }

  function DrainAll(balances: seq<Balance>, held: set<Asset>): seq<Operation> {
    if balances == [] then []
    else DrainAll(balances[..|balances| - 1], held) + DrainOne(balances[|balances| - 1], held)
  }

  function RemoveAll(names: seq<string>): seq<Operation> {
    if names == [] then [] else RemoveAll(names[..|names| - 1]) + [RemoveData(Doomed, names[|names| - 1])]
  }

  function Plan(balances: seq<Balance>, names: seq<string>, masterBalances: seq<Balance>): Option<seq<Operation>> {
    if HasPoolShare(balances) || HasPoolShare(masterBalances) then None
    else Some(DrainAll(balances, Held(masterBalances)) + RemoveAll(names) + [Merge(Doomed, Master)])
  }

  method Trustlines(balances: seq<Balance>) returns (trustlines: Option<set<Asset>>)
    ensures trustlines == if HasPoolShare(balances) then None else Some(Held(balances))
  {
    var assets: set<Asset> := {};
    for i := 0 to |balances|
      invariant !HasPoolShare(balances[..i])
      invariant assets == Held(balances[..i])
    {
      match balances[i]
      case Native(_) =>
      case PoolShare(_, _) => return None;
      case Issued(asset, _) => assets := assets + {asset};
    }
    assert balances[..|balances|] == balances;
    trustlines := Some(assets);
  }

  method AppendDrain(transaction: seq<Operation>, balance: Balance, trustlines: set<Asset>)
    returns (ops: seq<Operation>)
    requires !balance.PoolShare?
    ensures ops == transaction + DrainOne(balance, trustlines)
  {
    ops := transaction;
    if balance.Issued? {
      if balance.amount > 0 {
        if balance.asset !in trustlines {
          ops := ops + [ChangeTrust(Master, balance.asset, MAX_LIMIT)];
        }
        ops := ops + [Payment(Doomed, Master, balance.asset, balance.amount)];
      }
      ops := ops + [ChangeTrust(Doomed, balance.asset, 0)];
    }
  }

  lemma DrainStep(balances: seq<Balance>, held: set<Asset>, i: nat)
    requires i < |balances|
    ensures DrainAll(balances[..i + 1], held) == DrainAll(balances[..i], held) + DrainOne(balances[i], held)
  {
    assert balances[..i + 1][..i] == balances[..i];
  }

  method Drain(balances: seq<Balance>, trustlines: set<Asset>) returns (transaction: Option<seq<Operation>>)
    ensures transaction == if HasPoolShare(balances) then None else Some(DrainAll(balances, trustlines))
  {
    var ops: seq<Operation> := [];
    var i := 0;
    while i < |balances|
      invariant 0 <= i <= |balances|
      invariant forall k | 0 <= k < i :: !balances[k].PoolShare?
      invariant ops == DrainAll(balances[..i], trustlines)
    {
      if balances[i].PoolShare? {
        return None;
      }
      DrainStep(balances, trustlines, i);
      ops := AppendDrain(ops, balances[i], trustlines);
      i := i + 1;
    }
    assert balances[..i] == balances;
    transaction := Some(ops);
  }

  method PlanDeletion(balances: seq<Balance>, names: seq<string>, masterBalances: seq<Balance>)
    returns (plan: Option<seq<Operation>>)
    ensures plan == Plan(balances, names, masterBalances)
  {
    var trustlines := Trustlines(masterBalances);
    if trustlines.None? {
      return None;
    }
    var drained := Drain(balances, trustlines.value);
    if drained.None? {
      return None;
    }
    var transaction := drained.value;
    for i := 0 to |names|
      invariant transaction == drained.value + RemoveAll(names[..i])
    {
      assert names[..i + 1][..i] == names[..i];
      transaction := transaction + [RemoveData(Doomed, names[i])];
    }
    assert names[..|names|] == names;
    plan := Some(transaction + [Merge(Doomed, Master)]);
  }

  // ---------------------------------------------------------------- the ledger

  datatype Line = Line(balance: nat, limit: nat, authorized: bool, buying: nat, selling: nat)

  // others: offers and pool shares, which block a merge, as the issuer's immutable
  // flag does; room: how many more entries the reserve allows.
  datatype Account = Account(
    id: string, native: nat, nativeBuying: nat, lines: map<Asset, Line>, data: set<string>,
    others: nat, room: nat, immutable: bool)

  // The issuers that exist, and those whose new trustlines start unauthorized.
  datatype Network = Network(issuers: set<string>, restricted: set<string>)

  type Ledger = map<Party, Account>

  function Trust(net: Network, a: Account, asset: Asset, limit: nat): Option<Account> {
    if asset.issuer == a.id then None
    else if asset in a.lines then
      var line := a.lines[asset];
      if limit < line.balance + line.buying then None
      else if limit == 0 then Some(a.(lines := a.lines - {asset}, room := a.room + 1))
      else Some(a.(lines := a.lines[asset := line.(limit := limit)]))
    else if limit == 0 || asset.issuer !in net.issuers || a.room == 0 then None
    else Some(a.(lines := a.lines[asset := Line(0, limit, asset.issuer !in net.restricted, 0, 0)], room := a.room - 1))
  }

  function Debit(a: Account, asset: Asset, amount: nat): Option<Account> {
    if asset.issuer == a.id then Some(a)
    else if asset !in a.lines then None
    else
      var line := a.lines[asset];
      if !line.authorized || line.balance < amount + line.selling then None
      else Some(a.(lines := a.lines[asset := line.(balance := line.balance - amount)]))
  }

  function Credit(a: Account, asset: Asset, amount: nat): Option<Account> {
    if asset.issuer == a.id then Some(a)
    else if asset !in a.lines then None
    else
      var line := a.lines[asset];
      if !line.authorized || line.balance + line.buying + amount > line.limit then None
      else Some(a.(lines := a.lines[asset := line.(balance := line.balance + amount)]))
  }

  // Nothing but trustlines and data entries keeps the account from merging.
  predicate IsFree(a: Account) {
    a.others == 0 && !a.immutable
  }

  // Balance and native buying liabilities stay within 64 bits.
  predicate TakesNative(a: Account, amount: nat) {
    a.native + a.nativeBuying + amount <= MAX_LIMIT
  }

  // None when the network refuses the operation.
  function Step(net: Network, ledger: Ledger, op: Operation): Option<Ledger> {
    if op.source !in ledger then None
    else
      var source := ledger[op.source];
      match op
      case ChangeTrust(p, asset, limit) =>
        (match Trust(net, source, asset, limit)
         case None => None
         case Some(a) => Some(ledger[p := a]))
      case Payment(p, q, asset, amount) =>
        if amount == 0 || q !in ledger then None
        else (match Debit(source, asset, amount)
              case None => None
              case Some(a) =>
                var debited := ledger[p := a];
                match Credit(debited[q], asset, amount)
                case None => None
                case Some(b) => Some(debited[q := b]))
      case RemoveData(p, name) =>
        if name !in source.data then None
        else Some(ledger[p := source.(data := source.data - {name}, room := source.room + 1)])
      case Merge(p, q) =>
        if p == q || q !in ledger || source.lines != map[] || source.data != {} || !IsFree(source) then None
        else if !TakesNative(ledger[q], source.native) then None
        else Some((ledger - {p})[q := ledger[q].(native := ledger[q].native + source.native)])
  }

  function Run(net: Network, ledger: Ledger, ops: seq<Operation>): Option<Ledger> {
    if ops == [] then Some(ledger)
    else match Step(net, ledger, ops[0])
      case None => None
      case Some(next) => Run(net, next, ops[1..])
  }

  // A transaction of 1 to 100 operations is run as a whole or not at all.
  function Submit(net: Network, ledger: Ledger, ops: seq<Operation>): Option<Ledger> {
    if ops == [] || |ops| > MAX_OPERATIONS then None else Run(net, ledger, ops)
  }

  lemma {:induction false} RunConcat(net: Network, ledger: Ledger, a: seq<Operation>, b: seq<Operation>)
    ensures Run(net, ledger, a + b)
         == match Run(net, ledger, a) case None => None case Some(mid) => Run(net, mid, b)
  {
    if a == [] {
      assert a + b == b;
    } else {
      assert (a + b)[1..] == a[1..] + b;
      match Step(net, ledger, a[0])
      case None =>
      case Some(next) => RunConcat(net, next, a[1..], b);
    }
  }

  function BalanceOf(ledger: Ledger, p: Party, asset: Asset): nat {
    if p in ledger then Holding(ledger[p], asset) else 0
  }

  function Total(ledger: Ledger, asset: Asset): nat {
    BalanceOf(ledger, Master, asset) + BalanceOf(ledger, Doomed, asset)
  }

  function NativeTotal(ledger: Ledger): nat {
    (if Master in ledger then ledger[Master].native else 0) + (if Doomed in ledger then ledger[Doomed].native else 0)
  }

  // Nobody holds a trustline in an asset of their own.
  ghost predicate Sound(ledger: Ledger) {
    forall p | p in ledger :: SoundAccount(ledger[p])
  }

  function Holding(a: Account, asset: Asset): nat {
    if asset in a.lines then a.lines[asset].balance else 0
  }

  ghost predicate SoundAccount(a: Account) {
    forall asset | asset in a.lines :: asset.issuer != a.id
  }

  // What an operation on one account may change: its holding of one asset.
  ghost predicate Moves(a: Account, b: Account, asset: Asset, change: int) {
    && b.id == a.id && b.native == a.native
    && (SoundAccount(a) ==> SoundAccount(b))
    && (forall x: Asset :: Holding(b, x) == Holding(a, x) + if x == asset then change else 0)
  }

  lemma AccountMoves(net: Network, a: Account, asset: Asset, amount: nat)
    ensures Trust(net, a, asset, amount).Some? ==> Moves(a, Trust(net, a, asset, amount).value, asset, 0)
    ensures Debit(a, asset, amount).Some? && asset.issuer != a.id ==>
      Moves(a, Debit(a, asset, amount).value, asset, 0 - amount)
    ensures Credit(a, asset, amount).Some? && asset.issuer != a.id ==>
      Moves(a, Credit(a, asset, amount).value, asset, amount)
    ensures Debit(a, asset, amount).Some? && asset.issuer == a.id ==> Debit(a, asset, amount).value == a
    ensures Credit(a, asset, amount).Some? && asset.issuer == a.id ==> Credit(a, asset, amount).value == a
  {
  }

  lemma ReplaceAccount(ledger: Ledger, p: Party, a: Account, asset: Asset)
    requires p in ledger
    ensures Total(ledger[p := a], asset) == Total(ledger, asset) - Holding(ledger[p], asset) + Holding(a, asset)
    ensures NativeTotal(ledger[p := a]) == NativeTotal(ledger) - ledger[p].native + a.native
  {
    assert p == Master || p == Doomed;
  }

  // Same parties, same ids, same totals.
  ghost predicate Conserved(ledger: Ledger, next: Ledger, asset: Asset) {
    && Sound(next)
    && Total(next, asset) == Total(ledger, asset)
    && NativeTotal(next) == NativeTotal(ledger)
    && next.Keys <= ledger.Keys
    && (forall p | p in next :: next[p].id == ledger[p].id)
  }

  lemma MergeConserves(net: Network, ledger: Ledger, op: Operation, asset: Asset)
    requires op.Merge? && Sound(ledger) && Step(net, ledger, op).Some?
    ensures Conserved(ledger, Step(net, ledger, op).value, asset)
  {
    var p, q := op.source, op.destination;
    var next := Step(net, ledger, op).value;
    assert p == Master || p == Doomed;
    assert q == Master || q == Doomed;
    assert Holding(ledger[p], asset) == 0 && Holding(next[q], asset) == Holding(ledger[q], asset);
    assert SoundAccount(next[q]);
  }

  lemma PaymentConserves(net: Network, ledger: Ledger, op: Operation, asset: Asset)
    requires op.Payment? && Sound(ledger) && Step(net, ledger, op).Some?
    requires forall p | p in ledger :: asset.issuer != ledger[p].id
    ensures Conserved(ledger, Step(net, ledger, op).value, asset)
  {
    var p, q := op.source, op.destination;
    var debited := Debit(ledger[p], op.asset, op.amount).value;
    AccountMoves(net, ledger[p], op.asset, op.amount);
    ReplaceAccount(ledger, p, debited, asset);
    var mid := ledger[p := debited];
    assert forall r | r in mid :: mid[r].id == ledger[r].id && SoundAccount(mid[r]);
    var credited := Credit(mid[q], op.asset, op.amount).value;
    AccountMoves(net, mid[q], op.asset, op.amount);
    ReplaceAccount(mid, q, credited, asset);
    assert forall r | r in mid[q := credited] ::
      mid[q := credited][r].id == ledger[r].id && SoundAccount(mid[q := credited][r]);
    assert Holding(debited, asset) + (if asset == op.asset then op.amount else 0) == Holding(ledger[p], asset);
    assert Holding(credited, asset) == Holding(mid[q], asset) + (if asset == op.asset then op.amount else 0);
  }

  lemma StepConserves(net: Network, ledger: Ledger, op: Operation, asset: Asset)
    requires Sound(ledger) && Step(net, ledger, op).Some?
    requires forall p | p in ledger :: asset.issuer != ledger[p].id
    ensures Conserved(ledger, Step(net, ledger, op).value, asset)
  {
    var next := Step(net, ledger, op).value;
    match op
    case ChangeTrust(p, x, limit) =>
      AccountMoves(net, ledger[p], x, limit);
      assert Moves(ledger[p], next[p], x, 0);
      assert Holding(next[p], asset) == Holding(ledger[p], asset);
      ReplaceAccount(ledger, p, next[p], asset);
    case Payment(_, _, _, _) =>
      PaymentConserves(net, ledger, op, asset);
    case RemoveData(p, _) =>
      ReplaceAccount(ledger, p, next[p], asset);
      assert SoundAccount(next[p]);
    case Merge(_, _) =>
      MergeConserves(net, ledger, op, asset);
  }

  /** However the run goes on, no prefix of any operation list creates or loses
      a unit of an asset that neither account issues, nor of the native one. */
  lemma {:induction false} PrefixConserves(net: Network, ledger: Ledger, ops: seq<Operation>, n: nat, asset: Asset)
    requires Sound(ledger) && n <= |ops| && Run(net, ledger, ops).Some?
    requires forall p | p in ledger :: asset.issuer != ledger[p].id
    ensures var mid := Run(net, ledger, ops[..n]);
      && mid.Some?
      && Total(mid.value, asset) == Total(ledger, asset)
      && NativeTotal(mid.value) == NativeTotal(ledger)
  {
    if n == 0 {
    } else {
      StepConserves(net, ledger, ops[0], asset);
      assert ops[..n][1..] == ops[1..][..n - 1];
      PrefixConserves(net, Step(net, ledger, ops[0]).value, ops[1..], n - 1, asset);
    }
  }

  // ------------------------------------------------------------ when it drains

  // Horizon's list shows the account: each trustline once, with its balance.
  ghost predicate Shows(balances: seq<Balance>, a: Account) {
    && !HasPoolShare(balances)
    && (forall i, j | 0 <= i < j < |balances| && balances[i].Issued? && balances[j].Issued? ::
          balances[i].asset != balances[j].asset)
    && Held(balances) == a.lines.Keys
    && (forall i | 0 <= i < |balances| && balances[i].Issued? ::
          balances[i].asset in a.lines && a.lines[balances[i].asset].balance == balances[i].amount)
  }

  predicate CanTake(net: Network, master: Account, asset: Asset, amount: nat) {
    if asset in master.lines then
      var line := master.lines[asset];
      line.authorized && line.balance + line.buying + amount <= line.limit
    else
      && asset.issuer != master.id && asset.issuer in net.issuers && asset.issuer !in net.restricted
      && amount <= MAX_LIMIT
  }

  // The trustline can be emptied into the master account and closed.
  predicate LineDrains(net: Network, master: Account, doomed: Account, asset: Asset)
    requires asset in doomed.lines
  {
    var line := doomed.lines[asset];
    && line.buying == 0
    && (line.balance > 0 ==> line.authorized && line.selling == 0 && CanTake(net, master, asset, line.balance))
  }

  // The master account must open a trustline to take this asset.
  predicate Needs(master: Account, doomed: Account, asset: Asset) {
    asset in doomed.lines && doomed.lines[asset].balance > 0 && asset !in master.lines
  }

  function Missing(master: Account, doomed: Account): set<Asset> {
    set asset | asset in doomed.lines && Needs(master, doomed, asset)
  }

  ghost predicate Drainable(net: Network, ledger: Ledger)
    requires Master in ledger && Doomed in ledger
  {
    var master, doomed := ledger[Master], ledger[Doomed];
    && (forall asset | asset in doomed.lines :: LineDrains(net, master, doomed, asset))
    && |Missing(master, doomed)| <= master.room
  }

  function Received(master: Account, asset: Asset, line: Line): Account {
    if line.balance == 0 then master
    else if asset in master.lines then
      var own := master.lines[asset];
      master.(lines := master.lines[asset := own.(balance := own.balance + line.balance)])
    else
      master.(lines := master.lines[asset := Line(line.balance, MAX_LIMIT, true, 0, 0)],
              room := if master.room == 0 then 0 else master.room - 1)
  }

  function Closed(doomed: Account, asset: Asset): Account {
    doomed.(lines := doomed.lines - {asset}, room := doomed.room + 1)
  }

  lemma DrainOneRuns(net: Network, ledger: Ledger, balance: Balance, held: set<Asset>)
    requires ledger.Keys == {Master, Doomed} && Sound(ledger) && balance.Issued?
    requires balance.asset in ledger[Doomed].lines && ledger[Doomed].lines[balance.asset].balance == balance.amount
    requires balance.asset in held <==> balance.asset in ledger[Master].lines
    ensures var master, doomed := ledger[Master], ledger[Doomed];
      var line := doomed.lines[balance.asset];
      Run(net, ledger, DrainOne(balance, held))
      == if LineDrains(net, master, doomed, balance.asset)
            && (Needs(master, doomed, balance.asset) ==> master.room > 0)
         then Some(map[Master := Received(master, balance.asset, line), Doomed := Closed(doomed, balance.asset)])
         else None
  {
    var master, doomed := ledger[Master], ledger[Doomed];
    var asset := balance.asset;
    var line := doomed.lines[asset];
    var close := ChangeTrust(Doomed, asset, 0);
    var ops := DrainOne(balance, held);
    if balance.amount == 0 {
      assert ops == [close];
      assert Run(net, ledger, ops) == Step(net, ledger, close);
      assert ledger[Doomed := Closed(doomed, asset)] == map[Master := master, Doomed := Closed(doomed, asset)];
    } else {
      var pay := Payment(Doomed, Master, asset, balance.amount);
      var open := ChangeTrust(Master, asset, MAX_LIMIT);
      if asset in held {
        assert ops == [pay, close] && ops[1..] == [close];
        PayAndCloseRuns(net, ledger, asset);
      } else {
        assert ops == [open, pay, close] && ops[1..] == [pay, close];
        if Step(net, ledger, open).Some? {
          var mid := Step(net, ledger, open).value;
          PayAndCloseRuns(net, mid, asset);
          assert mid[Master].lines[asset := Line(line.balance, MAX_LIMIT, true, 0, 0)]
              == master.lines[asset := Line(line.balance, MAX_LIMIT, true, 0, 0)];
        }
      }
    }
  }

  lemma PayAndCloseRuns(net: Network, ledger: Ledger, asset: Asset)
    requires ledger.Keys == {Master, Doomed}
    requires asset in ledger[Doomed].lines && asset.issuer != ledger[Doomed].id
    requires ledger[Doomed].lines[asset].balance > 0
    requires asset in ledger[Master].lines && asset.issuer != ledger[Master].id
    ensures var master, doomed := ledger[Master], ledger[Doomed];
      var line, own := doomed.lines[asset], master.lines[asset];
      Run(net, ledger, [Payment(Doomed, Master, asset, line.balance), ChangeTrust(Doomed, asset, 0)])
      == if line.authorized && line.selling == 0 && line.buying == 0
            && own.authorized && own.balance + own.buying + line.balance <= own.limit
         then Some(map[Master := master.(lines := master.lines[asset := own.(balance := own.balance + line.balance)]),
                       Doomed := Closed(doomed, asset)])
         else None
  {
    var master, doomed := ledger[Master], ledger[Doomed];
    var line, own := doomed.lines[asset], master.lines[asset];
    var pay, close := Payment(Doomed, Master, asset, line.balance), ChangeTrust(Doomed, asset, 0);
    assert [pay, close][1..] == [close];
    match Step(net, ledger, pay)
    case None =>
    case Some(mid) =>
      assert mid[Doomed].lines == doomed.lines[asset := line.(balance := 0)];
      assert mid[Doomed].lines - {asset} == doomed.lines - {asset};
      assert [close][1..] == [];
      assert Run(net, ledger, [pay, close]) == Run(net, mid, [close]);
      assert Run(net, mid, [close]) == Step(net, mid, close);
      if line.buying == 0 {
        assert Trust(net, mid[Doomed], asset, 0) == Some(Closed(doomed, asset));
        assert Step(net, mid, close) == Some(mid[Doomed := Closed(doomed, asset)]);
        assert mid[Doomed := Closed(doomed, asset)]
            == map[Master := master.(lines := master.lines[asset := own.(balance := own.balance + line.balance)]),
                   Doomed := Closed(doomed, asset)];
      }
  }

  // The two accounts after the balances have been drained one by one.
  function Drained(master: Account, doomed: Account, balances: seq<Balance>): (Account, Account)
    requires forall i | 0 <= i < |balances| && balances[i].Issued? :: balances[i].asset in doomed.lines
  {
    if balances == [] then (master, doomed)
    else
      var before := Drained(master, doomed, balances[..|balances| - 1]);
      match balances[|balances| - 1]
      case Issued(asset, _) => (Received(before.0, asset, doomed.lines[asset]), Closed(before.1, asset))
      case _ => before
  }

  // Distinct trustlines of the account, each with its balance.
  ghost predicate Lists(balances: seq<Balance>, a: Account) {
    && !HasPoolShare(balances)
    && (forall i, j | 0 <= i < j < |balances| && balances[i].Issued? && balances[j].Issued? ::
          balances[i].asset != balances[j].asset)
    && (forall i | 0 <= i < |balances| && balances[i].Issued? ::
          balances[i].asset in a.lines && a.lines[balances[i].asset].balance == balances[i].amount)
  }

  lemma HeldStep(balances: seq<Balance>)
    requires balances != []
    ensures var front, last := balances[..|balances| - 1], balances[|balances| - 1];
      Held(balances) == Held(front) + if last.Issued? then {last.asset} else {}
  {
    var front, last := balances[..|balances| - 1], balances[|balances| - 1];
    assert balances == front + [last];
    forall asset | asset in Held(front)
      ensures asset in Held(balances)
    {
      var i :| 0 <= i < |front| && front[i].Issued? && front[i].asset == asset;
      assert balances[i] == front[i];
    }
    forall asset | asset in Held(balances)
      ensures asset in Held(front) || (last.Issued? && asset == last.asset)
    {
      var i :| 0 <= i < |balances| && balances[i].Issued? && balances[i].asset == asset;
      assert i < |front| ==> front[i] == balances[i];
    }
    assert last.Issued? ==> balances[|balances| - 1].asset in Held(balances);
  }

  lemma ListsPrefix(balances: seq<Balance>, a: Account)
    requires balances != [] && Lists(balances, a)
    ensures var front, last := balances[..|balances| - 1], balances[|balances| - 1];
      Lists(front, a) && (last.Issued? ==> last.asset !in Held(front))
  {
    var front := balances[..|balances| - 1];
    assert forall i | 0 <= i < |front| :: front[i] == balances[i];
  }

  function RoomLeft(room: nat, used: nat): nat {
    if used <= room then room - used else 0
  }

  function Opened(master: Account, doomed: Account, balances: seq<Balance>): nat {
    if balances == [] then 0
    else
      var last := balances[|balances| - 1];
      Opened(master, doomed, balances[..|balances| - 1])
      + if last.Issued? && Needs(master, doomed, last.asset) then 1 else 0
  }

  lemma {:induction false} OpenedIsMissing(master: Account, doomed: Account, balances: seq<Balance>)
    requires Lists(balances, doomed)
    ensures Opened(master, doomed, balances) == |set asset | asset in Held(balances) && Needs(master, doomed, asset)|
  {
    if balances == [] {
      assert Held(balances) == {};
    } else {
      var front, last := balances[..|balances| - 1], balances[|balances| - 1];
      HeldStep(balances);
      ListsPrefix(balances, doomed);
      OpenedIsMissing(master, doomed, front);
      var before := set asset | asset in Held(front) && Needs(master, doomed, asset);
      var after := set asset | asset in Held(balances) && Needs(master, doomed, asset);
      if last.Issued? && Needs(master, doomed, last.asset) {
        assert after == before + {last.asset};
      } else {
        assert after == before;
      }
    }
  }

  // The master account once the trustlines in `done` have been emptied into it.
  ghost predicate MasterAfter(master: Account, doomed: Account, done: set<Asset>, m: Account) {
    && m.id == master.id && m.native == master.native && m.nativeBuying == master.nativeBuying && m.data == master.data
    && m.others == master.others && m.immutable == master.immutable
    && (forall asset :: asset in m.lines <==> asset in master.lines || (asset in done && Needs(master, doomed, asset)))
    && (forall asset | asset in m.lines && asset !in done :: m.lines[asset] == master.lines[asset])
    && (forall asset | asset in m.lines && asset in done ::
          m.lines[asset].balance == Holding(master, asset) + Holding(doomed, asset))
  }

  ghost predicate DoomedAfter(doomed: Account, done: set<Asset>, d: Account) {
    && d.id == doomed.id && d.native == doomed.native && d.data == doomed.data
    && d.others == doomed.others && d.immutable == doomed.immutable
    && d.lines == doomed.lines - done
  }

  lemma ReceivedStep(master: Account, doomed: Account, done: set<Asset>, m: Account, asset: Asset)
    requires MasterAfter(master, doomed, done, m) && asset in doomed.lines && asset !in done
    ensures MasterAfter(master, doomed, done + {asset}, Received(m, asset, doomed.lines[asset]))
  {
    var line := doomed.lines[asset];
    var after := Received(m, asset, line);
    if line.balance == 0 {
      assert after == m;
    } else {
      assert after.lines.Keys == m.lines.Keys + {asset};
      assert asset in m.lines <==> asset in master.lines;
      assert after.lines[asset].balance == Holding(master, asset) + line.balance;
      assert forall x | x in m.lines && x != asset :: after.lines[x] == m.lines[x];
    }
  }

  lemma {:induction false} DrainedAt(master: Account, doomed: Account, balances: seq<Balance>)
    requires Lists(balances, doomed)
    ensures MasterAfter(master, doomed, Held(balances), Drained(master, doomed, balances).0)
    ensures Drained(master, doomed, balances).0.room == RoomLeft(master.room, Opened(master, doomed, balances))
    ensures DoomedAfter(doomed, Held(balances), Drained(master, doomed, balances).1)
  {
    if balances == [] {
      assert Held(balances) == {};
      assert doomed.lines - {} == doomed.lines;
    } else {
      var front, last := balances[..|balances| - 1], balances[|balances| - 1];
      HeldStep(balances);
      ListsPrefix(balances, doomed);
      DrainedAt(master, doomed, front);
      if last.Issued? {
        ReceivedStep(master, doomed, Held(front), Drained(master, doomed, front).0, last.asset);
        assert (doomed.lines - Held(front)) - {last.asset} == doomed.lines - Held(balances);
      }
    }
  }

  // The listed trustlines all drain, and the master can afford those it misses.
  ghost predicate PrefixDrains(net: Network, master: Account, doomed: Account, balances: seq<Balance>) {
    && (forall asset | asset in Held(balances) :: asset in doomed.lines && LineDrains(net, master, doomed, asset))
    && Opened(master, doomed, balances) <= master.room
  }

  lemma {:induction false} DrainAllRuns(net: Network, ledger: Ledger, balances: seq<Balance>)
    requires ledger.Keys == {Master, Doomed} && Sound(ledger)
    requires Lists(balances, ledger[Doomed])
    ensures var master, doomed := ledger[Master], ledger[Doomed];
      var (m, d) := Drained(master, doomed, balances);
      Run(net, ledger, DrainAll(balances, master.lines.Keys))
      == if PrefixDrains(net, master, doomed, balances) then Some(map[Master := m, Doomed := d]) else None
  {
    var master, doomed := ledger[Master], ledger[Doomed];
    if balances == [] {
      assert Held(balances) == {};
      assert ledger == map[Master := master, Doomed := doomed];
    } else {
      var front, last := balances[..|balances| - 1], balances[|balances| - 1];
      var held := master.lines.Keys;
      HeldStep(balances);
      ListsPrefix(balances, doomed);
      DrainAllRuns(net, ledger, front);
      RunConcat(net, ledger, DrainAll(front, held), DrainOne(last, held));
      if last.Issued? && PrefixDrains(net, master, doomed, front) {
        DrainLastRuns(net, ledger, balances);
      }
    }
  }

  // Draining other trustlines does not change whether this one drains.
  lemma DrainsAlike(net: Network, master: Account, doomed: Account, done: set<Asset>, m: Account, d: Account,
                    asset: Asset)
    requires MasterAfter(master, doomed, done, m) && DoomedAfter(doomed, done, d)
    requires asset in doomed.lines && asset !in done
    ensures asset in d.lines && d.lines[asset] == doomed.lines[asset]
    ensures asset in m.lines <==> asset in master.lines
    ensures LineDrains(net, m, d, asset) <==> LineDrains(net, master, doomed, asset)
    ensures Needs(m, d, asset) <==> Needs(master, doomed, asset)
  {
    assert asset in m.lines <==> asset in master.lines;
    assert asset in m.lines ==> m.lines[asset] == master.lines[asset];
  }

  lemma DrainedIsSound(net: Network, master: Account, doomed: Account, done: set<Asset>, m: Account, d: Account)
    requires SoundAccount(master) && SoundAccount(doomed)
    requires MasterAfter(master, doomed, done, m) && DoomedAfter(doomed, done, d)
    requires forall x | x in done :: x in doomed.lines && LineDrains(net, master, doomed, x)
    ensures SoundAccount(m) && SoundAccount(d)
  {
    forall x | x in m.lines
      ensures x.issuer != m.id
    {
      if x !in master.lines {
        assert Needs(master, doomed, x) && LineDrains(net, master, doomed, x);
      }
    }
  }

  lemma DrainLastRuns(net: Network, ledger: Ledger, balances: seq<Balance>)
    requires ledger.Keys == {Master, Doomed} && Sound(ledger)
    requires balances != [] && balances[|balances| - 1].Issued? && Lists(balances, ledger[Doomed])
    requires PrefixDrains(net, ledger[Master], ledger[Doomed], balances[..|balances| - 1])
    ensures var master, doomed := ledger[Master], ledger[Doomed];
      var front, last := balances[..|balances| - 1], balances[|balances| - 1];
      var before, after := Drained(master, doomed, front), Drained(master, doomed, balances);
      Run(net, map[Master := before.0, Doomed := before.1], DrainOne(last, master.lines.Keys))
      == if LineDrains(net, master, doomed, last.asset) && Opened(master, doomed, balances) <= master.room
         then Some(map[Master := after.0, Doomed := after.1])
         else None
  {
    var master, doomed := ledger[Master], ledger[Doomed];
    var front, last := balances[..|balances| - 1], balances[|balances| - 1];
    var (m, d) := Drained(master, doomed, front);
    ListsPrefix(balances, doomed);
    DrainedAt(master, doomed, front);
    DrainsAlike(net, master, doomed, Held(front), m, d, last.asset);
    DrainedIsSound(net, master, doomed, Held(front), m, d);
    var mid: Ledger := map[Master := m, Doomed := d];
    assert Sound(mid);
    DrainOneRuns(net, mid, last, master.lines.Keys);
  }

  lemma {:induction false} RemoveAllRuns(net: Network, ledger: Ledger, names: seq<string>)
    requires Doomed in ledger && NoDuplicates(names)
    requires forall name | name in names :: name in ledger[Doomed].data
    ensures var doomed := ledger[Doomed];
      Run(net, ledger, RemoveAll(names))
      == Some(ledger[Doomed := doomed.(data := doomed.data - (set name | name in names),
                                       room := doomed.room + |names|)])
  {
    var doomed := ledger[Doomed];
    if names == [] {
      assert doomed.data - (set name | name in names) == doomed.data;
      assert ledger[Doomed := doomed] == ledger;
    } else {
      var front, last := names[..|names| - 1], names[|names| - 1];
      var step := RemoveData(Doomed, last);
      RemoveAllRuns(net, ledger, front);
      RunConcat(net, ledger, RemoveAll(front), [step]);
      var mid := Run(net, ledger, RemoveAll(front)).value;
      assert [step][1..] == [];
      assert Run(net, mid, [step]) == Step(net, mid, step);
      assert last in mid[Doomed].data;
      var gone := doomed.data - (set name | name in names);
      assert mid[Doomed].data - {last} == gone;
      assert Step(net, mid, step) == Some(mid[Doomed := doomed.(data := gone, room := doomed.room + |names|)]);
      assert mid[Doomed := doomed.(data := gone, room := doomed.room + |names|)]
          == ledger[Doomed := doomed.(data := gone, room := doomed.room + |names|)];
    }
  }

  lemma MergeRuns(net: Network, bare: Ledger)
    requires bare.Keys == {Master, Doomed} && bare[Doomed].lines == map[] && bare[Doomed].data == {}
    ensures Run(net, bare, [Merge(Doomed, Master)])
         == if !IsFree(bare[Doomed]) || !TakesNative(bare[Master], bare[Doomed].native) then None
            else Some(map[Master := bare[Master].(native := bare[Master].native + bare[Doomed].native)])
  {
    var merge := Merge(Doomed, Master);
    assert [merge][1..] == [];
    assert Run(net, bare, [merge]) == Step(net, bare, merge);
    var master := bare[Master].(native := bare[Master].native + bare[Doomed].native);
    assert (bare - {Doomed})[Master := master] == map[Master := master];
  }

  lemma FinalHoldings(master: Account, doomed: Account, m: Account)
    requires MasterAfter(master, doomed, doomed.lines.Keys, m)
    ensures m.lines.Keys == master.lines.Keys + Missing(master, doomed)
    ensures forall asset: Asset :: Holding(m, asset) == Holding(master, asset) + Holding(doomed, asset)
  {
  }

  // The whole run, in terms of the drained master account.
  lemma DeletionRuns(net: Network, ledger: Ledger, balances: seq<Balance>, names: seq<string>)
    requires ledger.Keys == {Master, Doomed} && Sound(ledger) && Shows(balances, ledger[Doomed])
    requires NoDuplicates(names) && (set name | name in names) == ledger[Doomed].data
    ensures var master, doomed := ledger[Master], ledger[Doomed];
      var m := Drained(master, doomed, balances).0;
      Run(net, ledger, DrainAll(balances, master.lines.Keys) + RemoveAll(names) + [Merge(Doomed, Master)])
      == if PrefixDrains(net, master, doomed, balances) && IsFree(doomed) && TakesNative(master, doomed.native)
         then Some(map[Master := m.(native := m.native + doomed.native)])
         else None
  {
    var master, doomed := ledger[Master], ledger[Doomed];
    var drain, remove, merge := DrainAll(balances, master.lines.Keys), RemoveAll(names), Merge(Doomed, Master);
    DrainAllRuns(net, ledger, balances);
    RunConcat(net, ledger, drain + remove, [merge]);
    RunConcat(net, ledger, drain, remove);
    if PrefixDrains(net, master, doomed, balances) {
      DrainedAt(master, doomed, balances);
      var mid := Run(net, ledger, drain).value;
      RemoveAllRuns(net, mid, names);
      var bare := Run(net, mid, remove).value;
      assert bare[Doomed].data == {} && bare[Master] == mid[Master];
      MergeRuns(net, bare);
    }
  }

  // Two distinct accounts, and the Horizon views the planner was given of them.
  ghost predicate Prepared(ledger: Ledger, balances: seq<Balance>, names: seq<string>, masterBalances: seq<Balance>) {
    && ledger.Keys == {Master, Doomed} && Sound(ledger)
    && Shows(balances, ledger[Doomed]) && Shows(masterBalances, ledger[Master])
    && NoDuplicates(names) && (set name | name in names) == ledger[Doomed].data
  }

  /** The emitted transaction is accepted from its first to its last operation
      if and only if every trustline of the doomed account can be emptied into
      the master account, the master can afford the trustlines it misses and take
      the native balance, no offer or pool share hangs on the account, which is
      not immutable, and there are at most 100 operations. */
  lemma DeletionRunsIff(net: Network, ledger: Ledger, balances: seq<Balance>, names: seq<string>,
                        masterBalances: seq<Balance>)
    requires Prepared(ledger, balances, names, masterBalances)
    ensures Plan(balances, names, masterBalances).Some?
    ensures var plan := Plan(balances, names, masterBalances).value;
      Submit(net, ledger, plan).Some?
      <==> && Drainable(net, ledger) && IsFree(ledger[Doomed])
           && TakesNative(ledger[Master], ledger[Doomed].native) && |plan| <= MAX_OPERATIONS
  {
    var master, doomed := ledger[Master], ledger[Doomed];
    DeletionRuns(net, ledger, balances, names);
    OpenedIsMissing(master, doomed, balances);
    assert (set asset | asset in Held(balances) && Needs(master, doomed, asset)) == Missing(master, doomed);
  }

  /** Neither account may hold a pool share: then there is no plan at all. */
  lemma PoolShareFails(balances: seq<Balance>, names: seq<string>, masterBalances: seq<Balance>)
    ensures Plan(balances, names, masterBalances).None?
      <==> exists i :: (0 <= i < |balances| && balances[i].PoolShare?)
                       || (0 <= i < |masterBalances| && masterBalances[i].PoolShare?)
  {
    if HasPoolShare(balances) {
      var i :| 0 <= i < |balances| && balances[i].PoolShare?;
    }
    if HasPoolShare(masterBalances) {
      var i :| 0 <= i < |masterBalances| && masterBalances[i].PoolShare?;
    }
  }

  /** A run that is accepted leaves the master account alone on the ledger, with
      every unit of every asset the two accounts held and of their native
      balances, and with exactly the trustlines it missed added. */
  lemma DeletionGathersEverything(net: Network, ledger: Ledger, balances: seq<Balance>, names: seq<string>,
                                  masterBalances: seq<Balance>)
    requires Prepared(ledger, balances, names, masterBalances)
    requires Plan(balances, names, masterBalances).Some?
    requires Submit(net, ledger, Plan(balances, names, masterBalances).value).Some?
    ensures var after := Submit(net, ledger, Plan(balances, names, masterBalances).value).value;
      && after.Keys == {Master}
      && after[Master].native == NativeTotal(ledger)
      && after[Master].data == ledger[Master].data
      && after[Master].lines.Keys == ledger[Master].lines.Keys + Missing(ledger[Master], ledger[Doomed])
      && forall asset: Asset :: Holding(after[Master], asset) == Total(ledger, asset)
  {
    var master, doomed := ledger[Master], ledger[Doomed];
    DeletionRuns(net, ledger, balances, names);
    DrainedAt(master, doomed, balances);
    var m := Drained(master, doomed, balances).0;
    FinalHoldings(master, doomed, m);
    forall asset: Asset
      ensures Holding(m.(native := m.native + doomed.native), asset) == Total(ledger, asset)
    {
      assert Holding(m, asset) == Holding(master, asset) + Holding(doomed, asset);
    }
  }
}
