/**
 * Soroban invocation trees: the depth-annotated flattening, the free-wallet
 * check and the transfer preview, which all walk the same trees.
 */
module Invocations {
  import opened Prelude

  // An argument as the decoders see it; I128 carries the signed high and the unsigned low word.
  datatype Arg = Address(account: string) | I128(hi: int, lo: nat) | OtherArg

  datatype Call = Call(contract: string, name: string, args: seq<Arg>)

  // A node without a call invokes something other than a contract function.
  datatype Invocation = Invocation(call: Option<Call>, subs: seq<Invocation>)

  datatype Entry = Entry(contract: string, name: string, depth: nat)

  // Auth entries may lack a root invocation; host is the contract the host function invokes, if any.
  datatype Operation =
    | InvokeHost(host: Option<string>, auth: seq<Option<Invocation>>)
    | Payment(code: string)
    | OtherOperation(typeName: string)

  const TRANSFER := "transfer"

  // -------------------------------------------------------------- flattening

  function IterInvocation(inv: Invocation, depth: nat): seq<Entry>
    decreases inv, 1
  {
    (if inv.call.Some? then [Entry(inv.call.value.contract, inv.call.value.name, depth)] else [])
    + IterAll(inv.subs, depth + 1)
  }

  function IterAll(invs: seq<Invocation>, depth: nat): seq<Entry>
    decreases invs, 0
  {
    if invs == [] then [] else IterInvocation(invs[0], depth) + IterAll(invs[1..], depth)
  }

  function Roots(auth: seq<Option<Invocation>>): seq<Invocation> {
    if auth == [] then []
    else (if auth[0].Some? then [auth[0].value] else []) + Roots(auth[1..])
  }

  function CollectAuth(auth: seq<Option<Invocation>>): seq<Entry> {
    if auth == [] then []
    else (if auth[0].Some? then IterInvocation(auth[0].value, 0) else []) + CollectAuth(auth[1..])
  }

  function CollectInvocations(operations: seq<Operation>): seq<Entry> {
    if operations == [] then []
    else
      (if operations[0].InvokeHost? then CollectAuth(operations[0].auth) else [])
      + CollectInvocations(operations[1..])
  }

  function AllRoots(operations: seq<Operation>): seq<Invocation> {
    if operations == [] then []
    else (if operations[0].InvokeHost? then Roots(operations[0].auth) else []) + AllRoots(operations[1..])
  }

  lemma {:induction false} IterConcat(a: seq<Invocation>, b: seq<Invocation>, depth: nat)
    ensures IterAll(a + b, depth) == IterAll(a, depth) + IterAll(b, depth)
  {
    if a == [] {
      assert a + b == b;
    } else {
      assert (a + b)[1..] == a[1..] + b;
      IterConcat(a[1..], b, depth);
    }
  }

  lemma {:induction false} CollectAuthIsIterAll(auth: seq<Option<Invocation>>)
    ensures CollectAuth(auth) == IterAll(Roots(auth), 0)
  {
    if auth == [] {
    } else {
      CollectAuthIsIterAll(auth[1..]);
      if auth[0].Some? {
        assert Roots(auth)[0] == auth[0].value && Roots(auth)[1..] == Roots(auth[1..]);
      } else {
        assert Roots(auth) == Roots(auth[1..]);
      }
    }
  }

  // The collected list is the flattening of all the roots of all the operations.
  lemma {:induction false} CollectIsIterAll(operations: seq<Operation>)
    ensures CollectInvocations(operations) == IterAll(AllRoots(operations), 0)
  {
    if operations == [] {
    } else {
      CollectIsIterAll(operations[1..]);
      if operations[0].InvokeHost? {
        CollectAuthIsIterAll(operations[0].auth);
        IterConcat(Roots(operations[0].auth), AllRoots(operations[1..]), 0);
      } else {
        assert AllRoots(operations) == AllRoots(operations[1..]);
      }
    }
  }

  // ------------------------------------------------- the flattening determines the trees

  // A tree whose every node names a contract function, without the arguments.
  datatype Shape = Shape(contract: string, name: string, subs: seq<Shape>)

  ghost predicate Complete(invs: seq<Invocation>) {
    invs != [] ==> invs[0].call.Some? && Complete(invs[0].subs) && Complete(invs[1..])
  }

  function Shapes(invs: seq<Invocation>): seq<Shape>
    requires Complete(invs)
  {
    if invs == [] then []
    else [Shape(invs[0].call.value.contract, invs[0].call.value.name, Shapes(invs[0].subs))] + Shapes(invs[1..])
  }

  function Flatten(shapes: seq<Shape>, depth: nat): seq<Entry> {
    if shapes == [] then []
    else
      [Entry(shapes[0].contract, shapes[0].name, depth)]
      + Flatten(shapes[0].subs, depth + 1)
      + Flatten(shapes[1..], depth)
  }

  function Size(shapes: seq<Shape>): nat {
    if shapes == [] then 0 else 1 + Size(shapes[0].subs) + Size(shapes[1..])
  }

  // Reads back the siblings at the given depth; also returns what follows them.
  function Rebuild(entries: seq<Entry>, depth: nat): (r: (seq<Shape>, seq<Entry>))
    ensures |r.1| <= |entries|
    decreases |entries|
  {
    if entries == [] || entries[0].depth != depth then ([], entries)
    else
      var (subs, afterSubs) := Rebuild(entries[1..], depth + 1);
      var (siblings, rest) := Rebuild(afterSubs, depth);
      ([Shape(entries[0].contract, entries[0].name, subs)] + siblings, rest)
  }

  // Depths start at 0 and grow by at most one from an entry to the next.
  ghost predicate WellNested(entries: seq<Entry>) {
    && (entries != [] ==> entries[0].depth == 0)
    && NoJump(entries)
  }

  ghost predicate NoJump(entries: seq<Entry>) {
    forall i, j | 0 <= i && j == i + 1 < |entries| :: entries[j].depth <= entries[i].depth + 1
  }

  lemma {:induction false} IterIsFlatten(invs: seq<Invocation>, depth: nat)
    requires Complete(invs)
    ensures IterAll(invs, depth) == Flatten(Shapes(invs), depth)
  {
    if invs == [] {
    } else {
      IterIsFlatten(invs[0].subs, depth + 1);
      IterIsFlatten(invs[1..], depth);
      assert Shapes(invs)[1..] == Shapes(invs[1..]);
    }
  }

  lemma NoJumpTail(entries: seq<Entry>)
    requires NoJump(entries) && entries != []
    ensures NoJump(entries[1..])
    ensures entries[1..] != [] ==> entries[1..][0].depth <= entries[0].depth + 1
  {
    assert forall i | 0 <= i < |entries[1..]| :: entries[1..][i] == entries[i + 1];
  }

  lemma Regroup(head: Entry, a: seq<Entry>, b: seq<Entry>, c: seq<Entry>)
    ensures [head] + (a + (b + c)) == ([head] + a + b) + c
  {
  }

  lemma FlattenCons(head: Entry, subs: seq<Shape>, siblings: seq<Shape>, depth: nat)
    requires head.depth == depth
    ensures Flatten([Shape(head.contract, head.name, subs)] + siblings, depth)
         == [head] + Flatten(subs, depth + 1) + Flatten(siblings, depth)
  {
    var shapes := [Shape(head.contract, head.name, subs)] + siblings;
    assert shapes[1..] == siblings;
  }

  lemma FlattenSplit(shapes: seq<Shape>, depth: nat, tail: seq<Entry>)
    requires shapes != []
    ensures var head := Entry(shapes[0].contract, shapes[0].name, depth);
      Flatten(shapes, depth) + tail
      == [head] + (Flatten(shapes[0].subs, depth + 1) + (Flatten(shapes[1..], depth) + tail))
  {
    Regroup(Entry(shapes[0].contract, shapes[0].name, depth),
            Flatten(shapes[0].subs, depth + 1), Flatten(shapes[1..], depth), tail);
  }

  // What follows a run of siblings starts no deeper than they do.
  lemma AfterSiblings(shapes: seq<Shape>, depth: nat, tail: seq<Entry>)
    requires tail == [] || tail[0].depth < depth
    ensures var more := Flatten(shapes, depth) + tail; more == [] || more[0].depth <= depth
  {
    if shapes == [] {
      assert Flatten(shapes, depth) + tail == tail;
    } else {
      FlattenSplit(shapes, depth, tail);
    }
  }

  lemma RebuildCons(head: Entry, later: seq<Entry>, depth: nat, subs: seq<Shape>, more: seq<Entry>,
                    siblings: seq<Shape>, tail: seq<Entry>)
    requires head.depth == depth
    requires Rebuild(later, depth + 1) == (subs, more) && Rebuild(more, depth) == (siblings, tail)
    ensures Rebuild([head] + later, depth) == ([Shape(head.contract, head.name, subs)] + siblings, tail)
  {
    assert ([head] + later)[1..] == later;
  }

  lemma {:induction false} RebuildFlatten(shapes: seq<Shape>, depth: nat, tail: seq<Entry>)
    requires tail == [] || tail[0].depth < depth
    ensures Rebuild(Flatten(shapes, depth) + tail, depth) == (shapes, tail)
  {
    if shapes == [] {
      assert Flatten(shapes, depth) + tail == tail;
    } else {
      var more := Flatten(shapes[1..], depth) + tail;
      AfterSiblings(shapes[1..], depth, tail);
      RebuildFlatten(shapes[0].subs, depth + 1, more);
      RebuildFlatten(shapes[1..], depth, tail);
      FlattenSplit(shapes, depth, tail);
      RebuildCons(Entry(shapes[0].contract, shapes[0].name, depth), Flatten(shapes[0].subs, depth + 1) + more,
                  depth, shapes[0].subs, more, shapes[1..], tail);
      assert shapes == [shapes[0]] + shapes[1..];
    }
  }

  lemma FlattenBuilt(entries: seq<Entry>, depth: nat, subs: seq<Shape>, more: seq<Entry>, siblings: seq<Shape>,
                     rest: seq<Entry>)
    requires entries != [] && entries[0].depth == depth
    requires entries[1..] == Flatten(subs, depth + 1) + more && more == Flatten(siblings, depth) + rest
    ensures entries == Flatten([Shape(entries[0].contract, entries[0].name, subs)] + siblings, depth) + rest
  {
    FlattenCons(entries[0], subs, siblings, depth);
    Regroup(entries[0], Flatten(subs, depth + 1), Flatten(siblings, depth), rest);
    assert entries == [entries[0]] + entries[1..];
  }

  // What reading siblings back at a depth must return.
  ghost predicate ReadsBack(entries: seq<Entry>, depth: nat, r: (seq<Shape>, seq<Entry>)) {
    && entries == Flatten(r.0, depth) + r.1
    && NoJump(r.1)
    && (r.1 != [] ==> r.1[0].depth < depth)
  }

  lemma {:induction false} FlattenRebuild(entries: seq<Entry>, depth: nat)
    requires NoJump(entries) && (entries != [] ==> entries[0].depth <= depth)
    ensures ReadsBack(entries, depth, Rebuild(entries, depth))
    decreases |entries|
  {
    if entries != [] && entries[0].depth == depth {
      NoJumpTail(entries);
      var later := entries[1..];
      FlattenRebuild(later, depth + 1);
      var below := Rebuild(later, depth + 1);
      FlattenRebuild(below.1, depth);
      var beside := Rebuild(below.1, depth);
      FlattenBuilt(entries, depth, below.0, below.1, beside.0, beside.1);
      assert Rebuild(entries, depth) == ([Shape(entries[0].contract, entries[0].name, below.0)] + beside.0, beside.1);
    } else {
      assert Rebuild(entries, depth) == ([], entries);
      assert Flatten([], depth) + entries == entries;
    }
  }

  lemma {:induction false} FlattenNests(shapes: seq<Shape>, depth: nat)
    ensures NoJump(Flatten(shapes, depth))
    ensures forall i | 0 <= i < |Flatten(shapes, depth)| :: Flatten(shapes, depth)[i].depth >= depth
    ensures shapes != [] ==> Flatten(shapes, depth) != [] && Flatten(shapes, depth)[0].depth == depth
    ensures |Flatten(shapes, depth)| == Size(shapes)
  {
    if shapes == [] {
    } else {
      var head := [Entry(shapes[0].contract, shapes[0].name, depth)];
      var below, more := Flatten(shapes[0].subs, depth + 1), Flatten(shapes[1..], depth);
      FlattenNests(shapes[0].subs, depth + 1);
      FlattenNests(shapes[1..], depth);
      var entries := head + below + more;
      forall i, j | 0 <= i && j == i + 1 < |entries|
        ensures entries[j].depth <= entries[i].depth + 1
      {
        if 1 <= i < |below| {
          assert entries[i] == below[i - 1] && entries[i + 1] == below[i];
        } else if i > |below| {
          var k := i - 1 - |below|;
          assert entries[i] == more[k] && entries[i + 1] == more[k + 1];
        } else if i == |below| > 0 {
          assert entries[i] == below[i - 1];
        }
      }
    }
  }

  /** The flattening of trees whose every node calls a contract determines the
      trees, up to the arguments it does not show; it has one entry a node. */
  lemma FlatteningDeterminesTrees(a: seq<Invocation>, b: seq<Invocation>)
    requires Complete(a) && Complete(b)
    ensures IterAll(a, 0) == IterAll(b, 0) <==> Shapes(a) == Shapes(b)
    ensures Rebuild(IterAll(a, 0), 0) == (Shapes(a), [])
    ensures |IterAll(a, 0)| == Size(Shapes(a))
  {
    IterIsFlatten(a, 0);
    IterIsFlatten(b, 0);
    RebuildFlatten(Shapes(a), 0, []);
    RebuildFlatten(Shapes(b), 0, []);
    FlattenNests(Shapes(a), 0);
    assert Flatten(Shapes(a), 0) + [] == Flatten(Shapes(a), 0);
    assert Flatten(Shapes(b), 0) + [] == Flatten(Shapes(b), 0);
  }

  /** The lists that are flattenings are exactly the well nested ones, and
      rebuilding such a list and flattening it again gives it back. */
  lemma FlatteningsAreWellNested(entries: seq<Entry>)
    ensures WellNested(entries) <==> exists shapes :: Flatten(shapes, 0) == entries
    ensures WellNested(entries) ==> Flatten(Rebuild(entries, 0).0, 0) == entries
  {
    if WellNested(entries) {
      FlattenRebuild(entries, 0);
      assert Flatten(Rebuild(entries, 0).0, 0) == entries;
    } else {
      forall shapes
        ensures Flatten(shapes, 0) != entries
      {
        FlattenNests(shapes, 0);
      }
    }
  }

  /** With nodes that call no contract the flattening is never unique: a hidden
      leaf can be added to any trees without a trace. */
  lemma HiddenLeafLeavesNoTrace(invs: seq<Invocation>, depth: nat)
    ensures IterAll(invs + [Invocation(None, [])], depth) == IterAll(invs, depth)
    ensures invs + [Invocation(None, [])] != invs
  {
    var leaf := Invocation(None, []);
    IterConcat(invs, [leaf], depth);
    assert [leaf][1..] == [];
    assert IterInvocation(leaf, depth) == IterAll(leaf.subs, depth + 1) == [];
    assert |invs + [leaf]| == |invs| + 1;
  }

  // ------------------------------------------------------ the free-wallet check

  function CheckSubInvocations(subs: seq<Invocation>, forbidden: string): bool {
    if subs == [] then true
    else if subs[0].call.None? then false
    else if subs[0].call.value.name != TRANSFER then false
    else if subs[0].call.value.contract == forbidden then false
    else if subs[0].subs != [] && !CheckSubInvocations(subs[0].subs, forbidden) then false
    else CheckSubInvocations(subs[1..], forbidden)
  }

  // Every node of the trees, at any depth.
  function Nodes(invs: seq<Invocation>): set<Invocation> {
    if invs == [] then {} else {invs[0]} + Nodes(invs[0].subs) + Nodes(invs[1..])
  }

  predicate IsAllowedTransfer(node: Invocation, forbidden: string) {
    node.call.Some? && node.call.value.name == TRANSFER && node.call.value.contract != forbidden
  }

  lemma {:induction false} CheckIsForEveryNode(subs: seq<Invocation>, forbidden: string)
    ensures CheckSubInvocations(subs, forbidden)
       <==> forall node | node in Nodes(subs) :: IsAllowedTransfer(node, forbidden)
  {
    if subs == [] {
    } else {
      CheckIsForEveryNode(subs[0].subs, forbidden);
      CheckIsForEveryNode(subs[1..], forbidden);
      assert Nodes([]) == {} && (subs[0].subs == [] ==> Nodes(subs[0].subs) == {});
      assert subs[0] in Nodes(subs);
    }
  }

  ghost predicate RootIsSafe(root: Option<Invocation>, forbidden: string) {
    && root.Some?
    && (root.value.call.Some? ==> root.value.call.value.contract != forbidden)
    && (forall node | node in Nodes(root.value.subs) :: IsAllowedTransfer(node, forbidden))
  }

  /** Safe for a free wallet: the host call and every root avoid the forbidden
      contract, every node below a root is a transfer on another contract, every
      root is present, and at least one has something below it. */
  ghost predicate SafeForFree(op: Operation, forbidden: string)
    requires op.InvokeHost?
  {
    && op.host != Some(forbidden)
    && (forall i | 0 <= i < |op.auth| :: RootIsSafe(op.auth[i], forbidden))
    && (exists i :: 0 <= i < |op.auth| && op.auth[i].Some? && op.auth[i].value.subs != [])
  }

  method IsSafeForFree(op: Operation, forbidden: string) returns (safe: bool)
    requires op.InvokeHost?
    ensures safe <==> SafeForFree(op, forbidden)
  {
    if op.host.Some? && op.host.value == forbidden {
      return false;
    }
    if op.auth == [] {
      return false;
    }
    var foundSubInvocation := false;
    for i := 0 to |op.auth|
      invariant op.host != Some(forbidden)
      invariant forall k | 0 <= k < i :: RootIsSafe(op.auth[k], forbidden)
      invariant foundSubInvocation <==> exists k :: 0 <= k < i && op.auth[k].Some? && op.auth[k].value.subs != []
    {
      if op.auth[i].None? {
        return false;
      }
      var root := op.auth[i].value;
      CheckIsForEveryNode(root.subs, forbidden);
      if root.call.Some? && root.call.value.contract == forbidden {
        return false;
      }
      if root.subs != [] {
        foundSubInvocation := true;
      }
      if !CheckSubInvocations(root.subs, forbidden) {
        assert !RootIsSafe(op.auth[i], forbidden);
        return false;
      }
    }
    return foundSubInvocation;
  }

  // Besides payments, which have a rule of their own.
  const ALLOWED_OPERATIONS := ["ManageData", "ChangeTrust", "Clawback", "SetTrustLineFlags"]

  // Any payment but one in an asset with the code of the native asset.
  ghost predicate Allowed(op: Operation, forbidden: string) {
    match op
    case InvokeHost(_, _) => SafeForFree(op, forbidden)
    case Payment(code) => code != "XLM"
    case OtherOperation(typeName) => typeName in ALLOWED_OPERATIONS
  }

  /** A free account's transaction is accepted exactly when all its operations are. */
  method AllOperationsAllowed(operations: seq<Operation>, forbidden: string) returns (allowed: bool)
    ensures allowed <==> forall i | 0 <= i < |operations| :: Allowed(operations[i], forbidden)
  {
    allowed := true;
    var i := 0;
    while i < |operations|
      invariant 0 <= i <= |operations|
      invariant allowed
      invariant forall k | 0 <= k < i :: Allowed(operations[k], forbidden)
    {
      match operations[i] {
        case InvokeHost(_, _) =>
          allowed := IsSafeForFree(operations[i], forbidden);
        case Payment(code) =>
          allowed := code != "XLM";
        case OtherOperation(typeName) =>
          allowed := typeName in ALLOWED_OPERATIONS;
      }
      if !allowed {
        assert !Allowed(operations[i], forbidden);
        break;
      }
      i := i + 1;
    }
  }

  /** What a free account may send: no payment in an asset with the code of the
      native one, nothing but payments, data entries, trustlines, clawbacks and
      trustline flags, and invocations that are safe. */
  lemma FreeAccountRules(op: Operation, forbidden: string)
    ensures op.Payment? ==> (Allowed(op, forbidden) <==> op.code != "XLM")
    ensures op.OtherOperation? ==>
      (Allowed(op, forbidden)
       <==> op.typeName == "ManageData" || op.typeName == "ChangeTrust" || op.typeName == "Clawback"
            || op.typeName == "SetTrustLineFlags")
    ensures op.InvokeHost? ==> (Allowed(op, forbidden) <==> SafeForFree(op, forbidden))
  {
  }

  predicate IsAllowedEntry(e: Entry, forbidden: string) {
    e.contract != forbidden && (e.depth > 0 ==> e.name == TRANSFER)
  }

  // Below a root the check reads the trees and the flattening alike.
  lemma {:induction false} CheckReadsFlattening(subs: seq<Invocation>, depth: nat, forbidden: string)
    requires Complete(subs) && depth > 0
    ensures CheckSubInvocations(subs, forbidden)
       <==> forall e | e in IterAll(subs, depth) :: IsAllowedEntry(e, forbidden)
    ensures forall e | e in IterAll(subs, depth) :: e.depth > 0
    ensures subs == [] <==> IterAll(subs, depth) == []
  {
    if subs == [] {
    } else {
      var head := Entry(subs[0].call.value.contract, subs[0].call.value.name, depth);
      CheckReadsFlattening(subs[0].subs, depth + 1, forbidden);
      CheckReadsFlattening(subs[1..], depth, forbidden);
      assert IterAll(subs, depth) == [head] + IterAll(subs[0].subs, depth + 1) + IterAll(subs[1..], depth);
      assert head in IterAll(subs, depth);
    }
  }

  ghost predicate CompleteRoots(auth: seq<Option<Invocation>>) {
    forall i | 0 <= i < |auth| :: auth[i].Some? && Complete([auth[i].value])
  }

  lemma {:induction false} CollectAuthEntries(auth: seq<Option<Invocation>>, forbidden: string)
    requires CompleteRoots(auth)
    ensures (forall e | e in CollectAuth(auth) :: IsAllowedEntry(e, forbidden))
       <==> (forall i | 0 <= i < |auth| :: RootIsSafe(auth[i], forbidden))
    ensures (exists e :: e in CollectAuth(auth) && e.depth > 0)
       <==> (exists i :: 0 <= i < |auth| && auth[i].Some? && auth[i].value.subs != [])
  {
    if auth == [] {
    } else {
      var rest, root := auth[1..], auth[0].value;
      assert forall i | 0 <= i < |rest| :: rest[i] == auth[i + 1];
      assert auth == [auth[0]] + rest;
      CollectAuthEntries(rest, forbidden);
      assert Complete([root]);
      CheckReadsFlattening(root.subs, 1, forbidden);
      CheckIsForEveryNode(root.subs, forbidden);
      var head := Entry(root.call.value.contract, root.call.value.name, 0);
      var below := IterAll(root.subs, 1);
      assert CollectAuth(auth) == ([head] + below) + CollectAuth(rest);
      assert below != [] ==> below[0] in below && below[0] in CollectAuth(auth);
      assert (forall e | e in [head] + below :: IsAllowedEntry(e, forbidden)) <==> RootIsSafe(auth[0], forbidden) by {
        assert head in [head] + below;
      }
    }
  }

  /** When every root is present and every node calls a contract, the check can
      be read off the flattening alone: some entry lies below a root, all such
      entries are transfers, and none names the forbidden contract. */
  lemma CheckAgreesWithFlattening(op: Operation, forbidden: string)
    requires op.InvokeHost? && CompleteRoots(op.auth)
    ensures SafeForFree(op, forbidden)
       <==> && op.host != Some(forbidden)
            && (forall e | e in CollectInvocations([op]) :: IsAllowedEntry(e, forbidden))
            && (exists e :: e in CollectInvocations([op]) && e.depth > 0)
  {
    assert [op][1..] == [];
    assert CollectInvocations([op]) == CollectAuth(op.auth);
    CollectAuthEntries(op.auth, forbidden);
  }

  // -------------------------------------------------------- the transfer preview

  // A rendered line, before its parts are formatted.
  datatype Line = Transfer(token: string, source: string, destination: string, amount: int)

  function DecodeAddress(arg: Arg): Option<string> {
    match arg
    case Address(account) => Some(account)
    case _ => None
  }

  function DecodeAmount(arg: Arg): Option<int> {
    match arg
    case I128(hi, lo) => Some(hi * 0x1_0000_0000_0000_0000 + lo)
    case _ => None
  }

  function RenderSingle(call: Call): Option<Line> {
    if |call.args| < 3 then None
    else
      match (DecodeAddress(call.args[0]), DecodeAddress(call.args[1]), DecodeAmount(call.args[2]))
      case (Some(source), Some(destination), Some(amount)) => Some(Transfer(call.contract, source, destination, amount))
      case _ => None
  }

  function RenderCall(call: Call): seq<Line> {
    if call.name == TRANSFER && RenderSingle(call).Some? then [RenderSingle(call).value] else []
  }

  // The lines for everything strictly below an invocation: its argument is the list of its children.
  function RenderBelow(subs: seq<Invocation>): seq<Line> {
    if subs == [] then []
    else
      (if subs[0].call.Some? then RenderCall(subs[0].call.value) else [])
      + RenderBelow(subs[0].subs)
      + RenderBelow(subs[1..])
  }

  function RenderAuth(auth: seq<Option<Invocation>>): seq<Line> {
    if auth == [] then []
    else (if auth[0].Some? then RenderBelow(auth[0].value.subs) else []) + RenderAuth(auth[1..])
  }

  function Render(operations: seq<Operation>): seq<Line> {
    if operations == [] then []
    else (if operations[0].InvokeHost? then RenderAuth(operations[0].auth) else []) + Render(operations[1..])
  }

  // Calls with their arguments, in the order of the flattening.
  function CallsOf(invs: seq<Invocation>): seq<Call> {
    if invs == [] then []
    else (if invs[0].call.Some? then [invs[0].call.value] else []) + CallsOf(invs[0].subs) + CallsOf(invs[1..])
  }

  function CallsBelow(roots: seq<Invocation>): seq<Call> {
    if roots == [] then [] else CallsOf(roots[0].subs) + CallsBelow(roots[1..])
  }

  function Deep(entries: seq<Entry>): seq<Entry> {
    if entries == [] then []
    else (if entries[0].depth > 0 then [entries[0]] else []) + Deep(entries[1..])
  }

  function RenderCalls(calls: seq<Call>): seq<Line> {
    if calls == [] then [] else RenderCall(calls[0]) + RenderCalls(calls[1..])
  }

  // The entries are the calls, one by one.
  ghost predicate Mirrors(entries: seq<Entry>, calls: seq<Call>) {
    && |entries| == |calls|
    && forall i | 0 <= i < |entries| :: entries[i].contract == calls[i].contract && entries[i].name == calls[i].name
  }

  lemma {:induction false} RenderCallsConcat(a: seq<Call>, b: seq<Call>)
    ensures RenderCalls(a + b) == RenderCalls(a) + RenderCalls(b)
  {
    if a == [] {
      assert a + b == b;
    } else {
      assert (a + b)[1..] == a[1..] + b;
      RenderCallsConcat(a[1..], b);
    }
  }

  lemma {:induction false} DeepConcat(a: seq<Entry>, b: seq<Entry>)
    ensures Deep(a + b) == Deep(a) + Deep(b)
  {
    if a == [] {
      assert a + b == b;
    } else {
      assert (a + b)[1..] == a[1..] + b;
      DeepConcat(a[1..], b);
    }
  }

  lemma {:induction false} RenderBelowIsRenderCalls(invs: seq<Invocation>)
    ensures RenderBelow(invs) == RenderCalls(CallsOf(invs))
  {
    if invs == [] {
    } else {
      RenderBelowIsRenderCalls(invs[0].subs);
      RenderBelowIsRenderCalls(invs[1..]);
      var head := if invs[0].call.Some? then [invs[0].call.value] else [];
      RenderCallsConcat(head + CallsOf(invs[0].subs), CallsOf(invs[1..]));
      RenderCallsConcat(head, CallsOf(invs[0].subs));
      assert head != [] ==> head[1..] == [];
    }
  }

  lemma MirrorsConcat(a: seq<Entry>, b: seq<Entry>, x: seq<Call>, y: seq<Call>)
    requires Mirrors(a, x) && Mirrors(b, y)
    ensures Mirrors(a + b, x + y)
  {
  }

  function HeadEntry(inv: Invocation, depth: nat): seq<Entry> {
    if inv.call.Some? then [Entry(inv.call.value.contract, inv.call.value.name, depth)] else []
  }

  function HeadCall(inv: Invocation): seq<Call> {
    if inv.call.Some? then [inv.call.value] else []
  }

  lemma {:induction false} EntriesMirrorCalls(invs: seq<Invocation>, depth: nat)
    ensures Mirrors(IterAll(invs, depth), CallsOf(invs))
  {
    if invs == [] {
    } else {
      EntriesMirrorCalls(invs[0].subs, depth + 1);
      EntriesMirrorCalls(invs[1..], depth);
      MirrorsConcat(HeadEntry(invs[0], depth), IterAll(invs[0].subs, depth + 1),
                    HeadCall(invs[0]), CallsOf(invs[0].subs));
      MirrorsConcat(IterInvocation(invs[0], depth), IterAll(invs[1..], depth),
                    HeadCall(invs[0]) + CallsOf(invs[0].subs), CallsOf(invs[1..]));
    }
  }

  lemma {:induction false} EveryEntryIsDeep(invs: seq<Invocation>, depth: nat)
    requires depth > 0
    ensures Deep(IterAll(invs, depth)) == IterAll(invs, depth)
  {
    if invs == [] {
    } else {
      var head := HeadEntry(invs[0], depth);
      EveryEntryIsDeep(invs[0].subs, depth + 1);
      EveryEntryIsDeep(invs[1..], depth);
      DeepConcat(IterInvocation(invs[0], depth), IterAll(invs[1..], depth));
      DeepConcat(head, IterAll(invs[0].subs, depth + 1));
      assert head != [] ==> head[1..] == [];
      assert Deep(head) == head;
    }
  }

  lemma {:induction false} DeepEntriesMirrorCalls(roots: seq<Invocation>)
    ensures Mirrors(Deep(IterAll(roots, 0)), CallsBelow(roots))
  {
    if roots == [] {
    } else {
      DeepEntriesMirrorCalls(roots[1..]);
      DeepBelowRoot(roots[0]);
      DeepConcat(IterInvocation(roots[0], 0), IterAll(roots[1..], 0));
      EntriesMirrorCalls(roots[0].subs, 1);
      MirrorsConcat(IterAll(roots[0].subs, 1), Deep(IterAll(roots[1..], 0)),
                    CallsOf(roots[0].subs), CallsBelow(roots[1..]));
    }
  }

  lemma DeepBelowRoot(root: Invocation)
    ensures Deep(IterInvocation(root, 0)) == IterAll(root.subs, 1)
  {
    var head := HeadEntry(root, 0);
    EveryEntryIsDeep(root.subs, 1);
    DeepConcat(head, IterAll(root.subs, 1));
    assert head != [] ==> head[1..] == [];
    assert Deep(head) == [];
  }

  lemma {:induction false} CallsBelowConcat(a: seq<Invocation>, b: seq<Invocation>)
    ensures CallsBelow(a + b) == CallsBelow(a) + CallsBelow(b)
  {
    if a == [] {
      assert a + b == b;
    } else {
      assert (a + b)[1..] == a[1..] + b;
      CallsBelowConcat(a[1..], b);
    }
  }

  lemma {:induction false} RenderAuthIsRenderCalls(auth: seq<Option<Invocation>>)
    ensures RenderAuth(auth) == RenderCalls(CallsBelow(Roots(auth)))
  {
    if auth == [] {
    } else {
      RenderAuthIsRenderCalls(auth[1..]);
      if auth[0].Some? {
        var root := auth[0].value;
        assert Roots(auth)[0] == root && Roots(auth)[1..] == Roots(auth[1..]);
        RenderBelowIsRenderCalls(root.subs);
        RenderCallsConcat(CallsOf(root.subs), CallsBelow(Roots(auth[1..])));
      } else {
        assert Roots(auth) == Roots(auth[1..]);
      }
    }
  }

  lemma {:induction false} RenderIsRenderCalls(operations: seq<Operation>)
    ensures Render(operations) == RenderCalls(CallsBelow(AllRoots(operations)))
  {
    if operations == [] {
    } else {
      RenderIsRenderCalls(operations[1..]);
      if operations[0].InvokeHost? {
        RenderAuthIsRenderCalls(operations[0].auth);
        CallsBelowConcat(Roots(operations[0].auth), AllRoots(operations[1..]));
        RenderCallsConcat(CallsBelow(Roots(operations[0].auth)), CallsBelow(AllRoots(operations[1..])));
      } else {
        assert AllRoots(operations) == AllRoots(operations[1..]);
      }
    }
  }

  lemma {:induction false} RenderCallsLength(calls: seq<Call>)
    ensures |RenderCalls(calls)| <= |calls|
    ensures |RenderCalls(calls)| == |calls| <==> forall i | 0 <= i < |calls| :: RenderCall(calls[i]) != []
    ensures |RenderCalls(calls)| == |calls| ==>
      forall i | 0 <= i < |calls| :: [RenderCalls(calls)[i]] == RenderCall(calls[i])
  {
    if calls == [] {
    } else {
      RenderCallsLength(calls[1..]);
      assert forall i | 0 <= i < |calls[1..]| :: calls[1..][i] == calls[i + 1];
      assert calls == [calls[0]] + calls[1..];
    }
  }

  // At least three arguments, of which the first three are addresses and an amount.
  predicate HasTransferArgs(call: Call) {
    |call.args| >= 3 && call.args[0].Address? && call.args[1].Address? && call.args[2].I128?
  }

  // The line says what the call does: the token is its contract, the money goes from
  // the first argument to the second, and its amount is the third, two words put together.
  predicate Tells(line: Line, call: Call)
    requires HasTransferArgs(call)
  {
    && line.token == call.contract
    && line.source == call.args[0].account
    && line.destination == call.args[1].account
    && line.amount == call.args[2].hi * 18_446_744_073_709_551_616 + call.args[2].lo
  }

  /** A call has a line if and only if it is a transfer whose first three arguments
      are addresses and an amount, and the line tells what they say. */
  lemma LineTells(call: Call)
    ensures RenderCall(call) != [] <==> call.name == "transfer" && HasTransferArgs(call)
    ensures RenderCall(call) != [] ==> |RenderCall(call)| == 1 && Tells(RenderCall(call)[0], call)
  {
  }

  /** The preview shows no more lines than the flattening has entries below the
      roots.  It shows as many if and only if each of these is a transfer whose
      arguments decode; then line and entry agree place by place, and each line
      tells what its call does. */
  lemma PreviewIsCompleteIff(operations: seq<Operation>)
    ensures var entries, lines := Deep(CollectInvocations(operations)), Render(operations);
      var calls := CallsBelow(AllRoots(operations));
      && Mirrors(entries, calls)
      && |lines| <= |entries|
      && (|lines| == |entries| <==>
            forall i | 0 <= i < |calls| :: calls[i].name == "transfer" && HasTransferArgs(calls[i]))
      && (|lines| == |entries| ==>
            forall i | 0 <= i < |lines| ::
              lines[i].token == entries[i].contract && HasTransferArgs(calls[i]) && Tells(lines[i], calls[i]))
  {
    var calls := CallsBelow(AllRoots(operations));
    CollectIsIterAll(operations);
    DeepEntriesMirrorCalls(AllRoots(operations));
    RenderIsRenderCalls(operations);
    RenderCallsLength(calls);
    forall i | 0 <= i < |calls|
      ensures calls[i].name == TRANSFER && RenderSingle(calls[i]).Some?
         <==> calls[i].name == "transfer" && HasTransferArgs(calls[i])
    {
      LineTells(calls[i]);
    }
    forall i | 0 <= i < |calls| && |RenderCalls(calls)| == |calls|
      ensures HasTransferArgs(calls[i]) && Tells(RenderCalls(calls)[i], calls[i])
    {
      assert [RenderCalls(calls)[i]][0] == RenderCall(calls[i])[0];
      LineTells(calls[i]);
    }
  }

  // In an accepted operation every call below a root is a transfer.
  lemma {:induction false} CallsAreNodes(invs: seq<Invocation>, call: Call)
    requires call in CallsOf(invs)
    ensures exists n :: n in Nodes(invs) && n.call == Some(call)
  {
    if call in CallsOf(invs[0].subs) {
      CallsAreNodes(invs[0].subs, call);
    } else if call in CallsOf(invs[1..]) {
      CallsAreNodes(invs[1..], call);
    } else {
      assert invs[0].call == Some(call) && invs[0] in Nodes(invs);
    }
  }

  lemma {:induction false} CallsBelowRoots(auth: seq<Option<Invocation>>, call: Call)
    requires call in CallsBelow(Roots(auth))
    ensures exists i :: 0 <= i < |auth| && auth[i].Some? && call in CallsOf(auth[i].value.subs)
  {
    if auth[0].Some? && call in CallsOf(auth[0].value.subs) {
    } else {
      assert call in CallsBelow(Roots(auth[1..])) by {
        if auth[0].Some? {
          assert Roots(auth)[0] == auth[0].value && Roots(auth)[1..] == Roots(auth[1..]);
        } else {
          assert Roots(auth) == Roots(auth[1..]);
        }
      }
      CallsBelowRoots(auth[1..], call);
      var i :| 0 <= i < |auth[1..]| && auth[1..][i].Some? && call in CallsOf(auth[1..][i].value.subs);
      assert auth[i + 1] == auth[1..][i];
    }
  }

  /** For an operation the free-wallet check accepts, the preview misses nothing
      unless some transfer's arguments fail to decode. */
  lemma AcceptedPreviewIsComplete(op: Operation, forbidden: string)
    requires op.InvokeHost? && SafeForFree(op, forbidden)
    ensures |Render([op])| == |Deep(CollectInvocations([op]))|
       <==> forall i | 0 <= i < |CallsBelow(AllRoots([op]))| :: HasTransferArgs(CallsBelow(AllRoots([op]))[i])
  {
    var calls := CallsBelow(AllRoots([op]));
    PreviewIsCompleteIff([op]);
    assert [op][1..] == [] && AllRoots([op]) == Roots(op.auth);
    forall i | 0 <= i < |calls|
      ensures calls[i].name == TRANSFER
    {
      CallsBelowRoots(op.auth, calls[i]);
      var k :| 0 <= k < |op.auth| && op.auth[k].Some? && calls[i] in CallsOf(op.auth[k].value.subs);
      assert RootIsSafe(op.auth[k], forbidden);
      CallsAreNodes(op.auth[k].value.subs, calls[i]);
    }
  }
}
