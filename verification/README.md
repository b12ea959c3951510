# Verified model of the wallet bot's planners, checks, protocols and codecs

This project models, in Dafny, the parts of the MTL wallet bot in which several
steps have to fit together, and proves what those parts keep.  Each module models
one component; run `dafny verify dfyconfig.toml` to check them all.

| module | component |
|---|---|
| `Signers` | choosing an account's signers, the three-phase signer diff, and the effect of running the emitted operations |
| `WindDown` | the operation list that drains and merges an account, run on a small ledger |
| `Invocations` | Soroban invocation trees: flattening, free-wallet check, transfer preview |
| `TtlCache` | the bounded cache of token names |
| `Tags`, `Bsn`, `BsnDiff`, `BsnPublish`, `BsnHistory` | the BSN edit session: tag syntax, number index, generated changes, publishing them, and what becomes of each edit |
| `ManageData` | the transaction of data-entry changes, run on a small ledger |
| `Recommend` | recommendation entries and the name of the next one |
| `WalletConnect` | sign-request handlers, form states and signing callbacks under any interleaving |
| `SealedBoxes`, `SignRequests` | expiring requests handed to the web app and the queues back |
| `Reassembly` | putting a split transaction text together again |
| `Throttle` | rate-limiting buckets over whole runs |
| `Energy` | delegated energy: amount, pairing with its undo, trigger of the sweep |
| `Codec` | JSON codecs of offers and balances |
| `Prelude`, `Dicts`, `Sorting`, `Decimal`, `Utf8` | options, insertion-ordered dictionaries, stable sorting, decimal printing and parsing, encoded length |

Code that changes things step by step is written as methods and classes that do
the same, proved against specification functions; the lemmas then speak about
those functions.  Exceptions are results (`Option`, `Result`, an exit or a reply).
Clocks, random tokens, network outcomes and the records of Horizon are parameters.

## What the proofs show about the code

Most of the promised properties hold.  Where one does not, the code is modelled as
it is, and the exact condition is proved:

* The signer plan is accepted and reaches its target exactly when there is something
  to do, every changed weight is a byte and every changed key a public key, the
  target has at most 20 signers besides the account and the reserve allows them, no
  other signer is to get weight 0, and an account whose medium threshold is 15 has the
  others at 15 too (`Signers.PlanReachesTargetIff`).  For an account already at its
  target the emitted transaction has no operations and is not valid.  A data entry may name any integer as a weight,
  so none of this is given (`Signers.OddWeightFails`);
  `Signers.GoodDataReachesTarget` says what the account's data must be like.
* The plan sets all thresholds to 15 whatever the weights are: an account that names
  its own key with less than 15 and too little else locks itself out
  (`Signers.LowOwnWeightLocksOut`, exact condition `Signers.ControlIsKeptIff`).
* Nodes that call no contract function leave no trace in the flattening, so it
  determines the trees only without them (`Invocations.HiddenLeafLeavesNoTrace`).
* Storing an existing key into a full cache evicts another entry, unless the key is
  itself the oldest (`TtlCache.OverwriteOfFullCacheEvicts`).
* A data entry whose name does not print back (a different spelling of a known tag,
  a number with a leading zero) can be neither changed nor deleted by a BSN edit
  session (`BsnDiff.OddNameIsStuck`), and a tag with the number 0 prints to the name
  of the unnumbered tag (`BsnPublish.ZeroOverwrites`), so that deleting such a name is
  taken without an error and deletes nothing (`BsnHistory.ZeroDeleteIsLost`).
* The transaction of a BSN session is refused as a whole when a row was added and
  deleted again (`BsnPublish.AddedThenDeletedIsRefused`), when a number makes a name
  too long (`LongNameIsRefused`), when a name is not printable ASCII
  (`ForeignNameIsRefused`), and when a value of at most 64 characters has more than 64
  bytes (`WideValueIsRefused`): the editor counts characters, the network bytes.
  `BsnPublish.PublishesIff` gives the exact condition for a session to be published.
* Deleting the same numbered BSN row twice raises `KeyError`, which the caller does
  not catch; the session's rows and index stay consistent (`Bsn.DeleteKeepsIndex`).
* WalletConnect answers always carry the right request id, but the ids and the
  transaction of a request are written to the form state separately: two overlapping
  requests of one user can be answered with each other's transaction
  (`WalletConnect.OverlapCrossesPayloads`).  The exact condition on the schedule is
  `PayloadsMatchIff` and `AnswersMatchIff`; requests one at a time are safe
  (`SequentialRequestsMatch`).
* A split transaction is reassembled exactly when its short tail arrives before any
  sleeper wakes; a single long text is always checked doubled
  (`Reassembly.ReassemblesIff`, `LoneLongMessageDoubles`).
* Throttling spaces passed calls only under a strictly increasing clock: calls at the
  same instant all pass (`Throttle.FrozenClockPasses`, exact condition
  `Throttle.PassedIff`).  Calls under different throttling keys share a bucket exactly
  as `Throttle.CollideIff` says.
* The energy undo takes back exactly what was delegated, but is skipped when the
  delegation raises after it has reached the chain (`Energy.SweepLent`).
* A balance survives encoding and decoding only if a native one carries the code
  `XLM`; every decoded one does (`Codec.BalanceRoundTripIff`).

## Model

| member | source | states |
|---|---|---|
| `Signers.SelectTarget` | bot/other/stellar_tools.py:1108-1141 | the loops over data entries and issuer signers compute the target table, or fail where a matching name holds no integer |
| `Signers.TargetIsBestFill` | bot/other/stellar_tools.py:1108-1141 | the target keeps every named signer and its weight, holds the own key, and is completed to 21 with weight-1 keys of issuer signers; one is left out only when the table is full and every added key is that of an issuer signer with more weight, or with the same weight and a key not smaller character by character |
| `Signers.MasterKeyNameIff` | bot/other/stellar_tools.py:1124-1131 | a data entry names a signer if and only if its name is `master_key_`, a weight and a tail parted by one more underscore, and the weight is read as an integer |
| `Signers.NamedByLast` | bot/other/stellar_tools.py:1124-1131 | the named signers are the values of the matching entries, each with the weight in the last name that has it |
| `Signers.BaseIsNamed` | bot/other/stellar_tools.py:1124-1133 | the table before it is filled holds the named signers and the account itself, with 15 if nobody names it |
| `Signers.Removals` | bot/other/stellar_tools.py:1148-1151 | step 1 emits weight 0 for exactly the current signers the target lacks, in order |
| `Signers.Changes` | bot/other/stellar_tools.py:1153-1156 | step 2 emits the target's weight for exactly the shared signers whose weight differs |
| `Signers.Additions` | bot/other/stellar_tools.py:1158-1161 | step 3 emits exactly the target signers the account lacks |
| `Signers.UpdatedSigners` | bot/other/stellar_tools.py:1143-1161 | the three phases one after another make up the diff |
| `Signers.DiffNamesExactlyTheChanges` | bot/other/stellar_tools.py:1143-1161 | no key appears twice and no unchanged key appears; an entry is in the diff if and only if it is a removal, a new weight or an addition |
| `Signers.BuildOperations` | bot/other/stellar_tools.py:1173-1184 | the loop turns the diff into operations, the own key into a master weight, followed by the thresholds unless the medium one is 15 |
| `Signers.PlanReachesTargetIff` | bot/other/stellar_tools.py:1143-1184 | the emitted transaction is accepted and yields exactly the target signers and all thresholds 15, if and only if there is something to do, changed weights are bytes and changed keys public keys, the target fits the signer limit and the reserve, no foreign signer is to get weight 0, and an account with medium threshold 15 has the others at 15 |
| `Signers.OddWeightFails` | bot/other/stellar_tools.py:1127-1130 | naming another signer with a weight outside 1 to 255 keeps the plan from its target |
| `Signers.GoodDataReachesTarget` | bot/other/stellar_tools.py:1101-1186 | from the account's data to the end of the run: good names, at most 21 of them, enough reserve and thresholds that are not stuck make the whole plan accepted and reach the target, unless the account is already there |
| `Signers.ControlIsKeptIff` | bot/other/stellar_tools.py:1124-1184 | at thresholds of 15 some signers of the target reach them if and only if the named weights and one for each added signer come to 15; the own key named with 15 or not at all is enough |
| `Signers.LowOwnWeightLocksOut` | bot/other/stellar_tools.py:1125-1133 | an account naming only its own key, with less than 15, reaches its target and is out of control |
| `Signers.PrefixSignerBound` | bot/other/stellar_tools.py:1145-1179 | after every accepted prefix of the operations the account has at most as many signers as the larger table |
| `WindDown.Trustlines` | bot/other/stellar_tools.py:490-494 | the set of assets the master account holds, or failure on a pool share |
| `WindDown.AppendDrain` | bot/other/stellar_tools.py:496-518 | one balance appends: trustline if missing, payment, closing, as its amount and the master's trustlines require |
| `WindDown.Drain` | bot/other/stellar_tools.py:496-518 | the loop over all balances, or failure on a pool share |
| `WindDown.PlanDeletion` | bot/other/stellar_tools.py:490-528 | the whole operation list: drains, data removals, merge |
| `WindDown.PoolShareFails` | bot/other/stellar_tools.py:490-498 | there is no plan if and only if one of the two accounts holds a pool share |
| `WindDown.StepConserves` | bot/other/stellar_tools.py:505-528 | one accepted operation changes neither the total of an asset nor of the native balance over the two accounts |
| `WindDown.PrefixConserves` | bot/other/stellar_tools.py:496-528 | after every prefix of an accepted run both totals are what they were |
| `WindDown.DeletionRunsIff` | bot/other/stellar_tools.py:490-528 | the transaction is accepted if and only if each trustline can be emptied into the master, the master can afford those it misses and take the native balance, no offer or pool share hangs on the account, it is not immutable, and there are at most 100 operations |
| `WindDown.DeletionGathersEverything` | bot/other/stellar_tools.py:490-528 | an accepted run ends in the merge, with every unit of every asset on the master and only the missing trustlines added |
| `Invocations.CollectIsIterAll` | bot/other/soroban_render.py:248-263 | the collected list is the flattening of all roots of all invoke operations |
| `Invocations.FlatteningDeterminesTrees` | bot/other/soroban_render.py:224-237 | for trees whose every node calls a contract, equal flattenings mean equal trees, the rebuild function returns them, and the length is the node count |
| `Invocations.FlatteningsAreWellNested` | bot/other/soroban_render.py:224-263 | a list is a flattening if and only if its depths start at 0 and never jump, and flattening the rebuilt trees gives the list back |
| `Invocations.HiddenLeafLeavesNoTrace` | bot/other/soroban_render.py:224-237 | a leaf without a contract call can be added to any trees without changing the flattening |
| `Invocations.CheckIsForEveryNode` | bot/other/soroban_render.py:325-343 | the recursive check holds if and only if every node at any depth is a transfer on another contract |
| `Invocations.IsSafeForFree` | bot/other/soroban_render.py:277-322 | the loop with its early returns decides the declarative meaning of "safe for a free wallet" |
| `Invocations.AllOperationsAllowed` | bot/other/stellar_tools.py:260-280 | the operation loop accepts if and only if every operation is allowed |
| `Invocations.FreeAccountRules` | bot/other/stellar_tools.py:260-280 | a free account may pay in anything but XLM, use four kinds of operations, and invoke what the check finds safe |
| `Invocations.CheckAgreesWithFlattening` | bot/other/soroban_render.py:277-343 | with all roots present and all nodes calling contracts, the check can be read off the flattened entries |
| `Invocations.PreviewIsCompleteIff` | bot/other/soroban_render.py:346-400 | the preview has a line for every flattened entry of depth 1 or more, in order, if and only if each is a transfer with two addresses and an amount as its first three arguments; each line then has the first as its source, the second as its destination and hi * 2^64 + lo of the third as its amount |
| `Invocations.LineTells` | bot/other/soroban_render.py:346-376 | any call has a line if and only if it is a transfer with such arguments, and the line tells what they say |
| `Invocations.AcceptedPreviewIsComplete` | bot/other/soroban_render.py:325-376 | for an accepted operation the preview is complete if and only if all transfer arguments decode |
| `TtlCache.Cache.constructor` | bot/other/soroban_render.py:102-106 | a new cache is empty |
| `TtlCache.Cache.Get` | bot/other/soroban_render.py:108-117 | a hit is the stored value not older than the time to live; an expired entry is dropped |
| `TtlCache.Cache.Set` | bot/other/soroban_render.py:119-124 | a full cache first loses an oldest entry; fails only on an empty cache of size 0 |
| `TtlCache.Cache.Oldest` | bot/other/soroban_render.py:122 | the loop finds an entry with the least time stamp |
| `TtlCache.CapacityIsKept` | bot/other/soroban_render.py:119-124 | after any run the cache holds at most maxsize entries |
| `TtlCache.HitIsLatest` | bot/other/soroban_render.py:108-124 | whatever is stored under a key is what was last set for it |
| `TtlCache.HitIsFresh` | bot/other/soroban_render.py:108-117 | what is found is at most ttl old and the value last set; a lookup drops the key if it is older, and never anything else |
| `TtlCache.RecentAlwaysHits` | bot/other/soroban_render.py:101-124 | a key young enough and followed by fewer than maxsize sets is always found |
| `TtlCache.OverwriteOfFullCacheEvicts` | bot/other/soroban_render.py:121-124 | overwriting in a full cache loses at most one other entry, one whenever the key is not oldest, and none when the key alone is |
| `Tags.Parse` | bot/routers/bsn.py:147-166 | the scan from the right splits letters from trailing digits, with both errors |
| `Tags.ParseFailsIff` | bot/routers/bsn.py:147-166 | a name is empty for the parser if and only if it is all digits, and one of up to 64 characters parses if and only if it is not |
| `Tags.ParseIsCaseBlind` | bot/routers/bsn.py:147-166 | a name whose letters are a known tag's but for case gets that tag's spelling, any other keeps its own, and the trailing digits are its number |
| `Tags.ParsedIsWellFormed` | bot/routers/bsn.py:147-166 | a parsed key has 1 to 64 characters, its known spelling, and no trailing digit |
| `Tags.ParsePrint` | bot/routers/bsn.py:136-166 | parsing undoes printing, up to the number 0 |
| `Tags.PrintInjective` | bot/routers/bsn.py:136-137 | two tags print alike if and only if they differ at most in "no number" against 0 |
| `Tags.CanonicalIff` | bot/routers/bsn.py:136-166 | a name prints back to itself if and only if its letters are in known spelling, at most 64, and its number has no leading zero |
| `Bsn.BsnData.constructor` | bot/routers/bsn.py:214-222 | the loop loads rows and number index from the account's rows |
| `Bsn.BsnData.GetNextNum` | bot/routers/bsn.py:224-228 | terminates with the least positive number not in use |
| `Bsn.BsnData.AddNewDataRow` | bot/routers/bsn.py:230-244 | adds or changes the row and indexes its number; an unreadable name changes nothing |
| `Bsn.BsnData.DelDataRow` | bot/routers/bsn.py:246-251 | marks the row removed and drops its number, or raises the KeyError of `remove` |
| `Bsn.BsnData.GenData` | bot/routers/bsn.py:391-397 | the ordered dictionary built from the changed rows, None for a removed one |
| `Bsn.DeleteRemoves` | bot/routers/bsn.py:246-251 | after a delete without error the row the name parses to is not live, and every other row is as it was |
| `Bsn.AddSets` | bot/routers/bsn.py:230-244 | after an add without error the row made is live with the value given, marked as new or changed, and every other row is as it was |
| `Bsn.EditIsTakenIff` | bot/routers/bsn.py:336-362 | a line is taken if and only if its name has 1 to 64 characters that are not all digits, an added value 1 to 64, and it does not delete a positive number without a live row |
| `Bsn.LoadIsConsistent` | bot/routers/bsn.py:214-222 | after loading, each key's numbers are exactly the positive numbers of its rows |
| `Bsn.AddKeepsIndex` | bot/routers/bsn.py:230-244 | an add keeps index and rows in agreement |
| `Bsn.DeleteKeepsIndex` | bot/routers/bsn.py:246-251 | a delete keeps them in agreement; it raises KeyError if and only if its number is positive and its row not live, and then has changed nothing |
| `Bsn.ApplyKeepsIndex` | bot/routers/bsn.py:336-362 | every line of the editor keeps them in agreement, a failing one changes nothing |
| `Bsn.EditedIsConsistent` | bot/routers/bsn.py:445-455 | so does every sequence of lines |
| `Bsn.UnnumberedAddIsFresh` | bot/routers/bsn.py:224-244 | an add without a number takes the least positive one no live row uses, so it overwrites no live row |
| `BsnDiff.FaithfulIffNoClash` | bot/routers/bsn.py:391-397 | the generated changes, once made, show exactly the live rows if and only if no live unnumbered row is shadowed by a number 0 |
| `ManageData.BuildManageDataTransaction` | bot/infrastructure/services/stellar_service.py:420-430 | the loop appends one operation for every item, in order |
| `ManageData.SubmitIff` | bot/infrastructure/services/stellar_service.py:427-428 | the transaction is accepted if and only if it has 1 to 100 operations, names are 1 to 64 bytes of printable ASCII, values at most 64 bytes of UTF-8, only existing entries are deleted and the reserve allows the new ones in turn; then exactly the changes are made |
| `BsnPublish.PublishesIff` | bot/routers/bsn.py:391-426 | after any edits the transaction is accepted and leaves exactly the live rows, if and only if every on-chain name prints back, no live unnumbered row is shadowed by a number 0, removed rows are on the account, changed names are printable ASCII of at most 64 bytes, written values have at most 64 bytes, and size and reserve allow it |
| `BsnPublish.OrdinaryEditsPublish` | bot/routers/bsn.py:183-257 | conditions on the edits alone under which a session always publishes exactly its live rows |
| `BsnHistory.PublishedIsLastEdit` | bot/routers/bsn.py:183-257 | over a whole session a published name has the value of the last taken edit about it, is absent if that was a delete, and has the account's value if there was none |
| `BsnHistory.ZeroDeleteIsLost` | bot/routers/bsn.py:246-251 | deleting a name with the number 0 is taken, is about the unnumbered entry, and leaves it published |
| `BsnDiff.OddNameIsStuck` | bot/routers/bsn.py:391-397 | an entry whose name does not print back survives every edit and is shown by no row |
| `BsnPublish.ZeroOverwrites` | bot/routers/bsn.py:136-140 | a concrete edit with number 0 that overwrites an unnumbered entry the session still shows unchanged |
| `BsnPublish.AddedThenDeletedIsRefused` | bot/routers/bsn.py:246-251 | a row added and deleted in one session makes the transaction delete an entry the account never had: it is refused |
| `BsnPublish.LongNameIsRefused` | bot/routers/bsn.py:230-244 | a 64-letter key passes every check, but its number makes the name too long: the transaction is refused |
| `BsnPublish.ForeignNameIsRefused` | bot/routers/bsn.py:110-120 | a key that is not printable ASCII passes every check and its transaction is refused |
| `BsnPublish.WideValueIsRefused` | bot/routers/bsn.py:110-124 | a value of 33 to 64 Cyrillic letters passes the check of 64 characters and its transaction is refused |
| `Recommend.CollectRecommendations` | bot/routers/mtlap.py:25-41 | the loop collects and sorts the recommendations and tracks the maximum index |
| `Recommend.CollectionIsSorted` | bot/routers/mtlap.py:25-41 | the result holds exactly the account's recommendations, as often as found, by ascending index |
| `Recommend.IndexOfIff` | bot/routers/mtlap.py:25-41 | which names are recommendations, and of which index |
| `Recommend.MaxIndexIsMax` | bot/routers/mtlap.py:25-41 | the maximum is the index of a recommendation and no other's is greater |
| `Recommend.NewKeyIsFresh` | bot/routers/mtlap.py:215-218 | the new key is on no account entry, whatever others exist, and becomes the maximum once written |
| `Decimal.ParsePrint` | bot/routers/bsn.py:137-165 | int(str(n)) is n for every natural number |
| `Decimal.ParseDropsZero` | bot/routers/bsn.py:147-166 | a leading zero does not count |
| `Decimal.PrintParse` | bot/routers/bsn.py:137-165 | str(int(s)) is s for digits without a leading zero |
| `Decimal.ParsePrintInt` | bot/other/mytypes.py:166-203 | the same for signed integers carried as strings |
| `WalletConnect.Bot.HandleSignRequest` | bot/other/faststream_tools.py:398-424 | a request lacking a part is refused; any other is entered in the table |
| `WalletConnect.Bot.UpdateForm` | bot/other/faststream_tools.py:358-366 | updating form data keeps the fields it does not name |
| `WalletConnect.Bot.RequestWcSignature` | bot/other/faststream_tools.py:358-366 | the pair of ids is written to the user's form in one update |
| `WalletConnect.Bot.CheckXdr` | bot/other/faststream_tools.py:371 | the transaction is written to the form in a separate one |
| `WalletConnect.Bot.ReadForm` | bot/other/faststream_tools.py:249-256 | a signing callback reads ids and transaction at one moment |
| `WalletConnect.Bot.RespondTo` | bot/other/faststream_tools.py:279-284 | it answers the handler if that still waits, and nobody otherwise |
| `WalletConnect.Bot.ReturnResult` | bot/other/faststream_tools.py:442-456 | a woken handler returns its table entry and removes it |
| `WalletConnect.Bot.TimeOut` | bot/other/faststream_tools.py:448-456 | a timed-out one answers with its own request id and removes its entry |
| `WalletConnect.NoCrossTalk` | bot/other/faststream_tools.py:241-456 | under any interleaving every returned answer has the request id of its own request, and the table's keys are exactly the waiting handlers |
| `WalletConnect.OnlyTheUserAnswers` | bot/other/faststream_tools.py:249-284 | whoever answers a handler signed for the user it asked |
| `WalletConnect.FinishedStaysFinished` | bot/other/faststream_tools.py:281-284 | late or repeated signatures change nothing for a finished handler |
| `WalletConnect.SignedNeedsSignature` | bot/other/faststream_tools.py:241-456 | in every run a handler that answered with a signature, or with a failure, was answered by a callback that the user of its request had started and that ended so; one that answered with a time-out did so at its own time-out, under the request id that arrived |
| `WalletConnect.WaitingGoesOn` | bot/other/faststream_tools.py:442-456 | a waiting handler goes on only at its time-out, its abort, its return or an answer to it, and with exactly that outcome |
| `WalletConnect.PayloadsMatchIff` | bot/other/faststream_tools.py:249-252 | all signatures of a run are over the transaction of the request they answer if and only if, before each one's start, the last write of ids and the last write of a transaction to the form carried the same request's text |
| `WalletConnect.AnswersMatchIff` | bot/other/faststream_tools.py:241-456 | at no point does a handler get a signature over another request's transaction, if and only if every signature that reaches a waiting handler was started in such a schedule |
| `WalletConnect.SequentialRequestsMatch` | bot/other/faststream_tools.py:241-456 | with one request of a user at a time, each signed after its transaction is written, all signatures match |
| `WalletConnect.OverlapCrossesPayloads` | bot/other/faststream_tools.py:358-371 | a run of two overlapping requests in which the second is answered with the first one's transaction |
| `SealedBoxes.Store.ClearPendingSealedBox` | bot/other/faststream_tools.py:219-235 | deletes the request the live user key names, and that key |
| `SealedBoxes.Store.PublishPendingSealedBox` | bot/other/faststream_tools.py:185-216 | clears, then stores request and user key |
| `SealedBoxes.Store.OwnedSealedBoxRequest` | webapp/app.py:262-282 | accepts exactly the owner of a live request; otherwise 404, 401 or 403 in that order |
| `SealedBoxes.Store.CompleteSealedBox` | webapp/app.py:316-331 | a pending request of its owner is completed and queued once; anything else changes nothing |
| `SealedBoxes.Store.RelaySealedBox` | webapp/app.py:334-362 | likewise for a relay of 1 byte to 10 MiB |
| `SealedBoxes.Store.HandleSealedBoxCompleted` | bot/infrastructure/workers/sealedbox_worker.py:36-69 | a message that matches a completed request clears the user's request |
| `SealedBoxes.Store.HandleSealedBoxRelay` | bot/infrastructure/workers/sealedbox_worker.py:76-138 | a delivered relay removes the request, and the user key only if it names it; a missing or oversized payload is ignored |
| `SealedBoxes.RelaysAlwaysHavePayload` | webapp/app.py:346-358 | in every run a request waiting for its relay has a payload of 1 byte to 10 MiB |
| `SealedBoxes.OneLiveBoxPerUser` | bot/other/faststream_tools.py:198-235 | in every run a user has at most one unexpired request, the user key names it and outlives it, and clearing leaves none |
| `SealedBoxes.HandOffAtMostOnce` | webapp/app.py:322-360 | every run pushes at most one message a token over both queues together |
| `SealedBoxes.NeverPendingAgain` | webapp/app.py:323-358 | a token that stopped being pending never is again |
| `SealedBoxes.PublishOpens` | bot/other/faststream_tools.py:198-216 | a new request is open for 600 seconds and its user's only live one |
| `SealedBoxes.MessagesAreOwners` | webapp/app.py:262-362 | in every run each message of a queue comes from a step of its own kind that the request's publisher made, and carries that user |
| `SealedBoxes.OwnerMayHandOff` | webapp/app.py:262-362 | on an open request a step of its publisher pushes exactly one message to its own queue and closes it; anybody else's changes nothing |
| `SealedBoxes.WorkersRemove` | bot/infrastructure/workers/sealedbox_worker.py:36-138 | a fitting message removes the request, or all live ones of the user; any other changes nothing |
| `SignRequests.Store.PublishPendingTx` | bot/other/faststream_tools.py:118-146 | stores a pending transaction with its expiry |
| `SignRequests.Store.ClearPendingTx` | bot/other/faststream_tools.py:171-182 | the scan deletes exactly the user's unexpired transactions and counts them |
| `SignRequests.Store.SubmitSignedTransaction` | webapp/app.py:211-259 | accepts exactly a live pending transaction whose requester, where checked, is its owner; marks and queues it; otherwise 404, 400, 401 or 403 in that order |
| `SignRequests.HandOffAtMostOnce` | webapp/app.py:224-256 | every run pushes at most one message a transaction, and a pushed one is not pending |
| `SignRequests.NeverPendingAgain` | webapp/app.py:228-252 | a transaction that stopped being pending never is again |
| `SignRequests.MessagesAreOwners` | webapp/app.py:224-256 | where users are checked, every queued message of a run comes from a submission by the user who published that transaction, and carries that user |
| `SignRequests.OwnerMaySubmit` | webapp/app.py:224-256 | a submission of a live transaction not handed off before adds exactly one message if its requester published it or nobody is checked, and nothing otherwise |
| `SignRequests.PublishAndClear` | bot/other/faststream_tools.py:118-182 | publishing stores one transaction for 600 seconds; clearing removes exactly the user's unexpired ones |
| `Reassembly.Session.CheckXdr` | bot/routers/sign.py:796-818 | a handler up to its sleep, or to the text it goes on with |
| `Reassembly.Session.Resume` | bot/routers/sign.py:807-818 | the handler after its sleep: it prepends the buffer to the buffer |
| `Reassembly.ReassemblesIff` | bot/routers/sign.py:796-818 | in every complete schedule exactly one handler goes on, with the exact concatenation, and the buffer ends empty, if and only if the short tail arrives before any sleeper wakes |
| `Reassembly.LoneLongMessageDoubles` | bot/routers/sign.py:801-818 | a single long text is checked twice over |
| `Throttle.ThrottleManager.Throttle` | bot/middleware/throttling.py:147-191 | whether the call passes and the bucket it leaves, written on rejection too |
| `Throttle.PassedIff` | bot/middleware/throttling.py:171-173 | over any run a call passes if and only if it is the bucket's first, or the previous one, passed or not, is at least the rate or at most 0 ago |
| `Throttle.ZeroRateIsFree` | bot/middleware/throttling.py:154-155 | a rate of 0 always passes and writes no bucket |
| `Throttle.BucketRecords` | bot/middleware/throttling.py:171-182 | after every call, passed or not, its bucket holds its rate, its time and the time since the previous one |
| `Throttle.PassedAreApart` | bot/middleware/throttling.py:171-177 | under a clock that strictly increases on the bucket, a passed call is at least its rate after every earlier call on it |
| `Throttle.WindowBound` | bot/middleware/throttling.py:157-191 | the calls that pass on a bucket inside any window are at most its length / rate + 1 |
| `Throttle.ExceededCountsRejections` | bot/middleware/throttling.py:179-182 | EXCEEDED_COUNT is one plus the rejections since the last passed call |
| `Throttle.FrozenClockPasses` | bot/middleware/throttling.py:173 | at a standing clock every call passes |
| `Throttle.OneKeySeparates` | bot/middleware/throttling.py:158-161 | under one key different users and chats never share a bucket |
| `Throttle.CollideIff` | bot/middleware/throttling.py:158-161 | two calls share a bucket if and only if chat, key and user agree, or one has no user and its key is the other's with an underscore and that user's number |
| `Throttle.KeysMayCollide` | bot/middleware/throttling.py:158-161 | the family of calls under different keys that do |
| `Energy.AmountIsLeast` | bot/other/tron_tools.py:41-51 | the TRX delegated are the fewest worth more than the energy needed, so the surplus is at most one TRX |
| `Energy.EnergyObject.DelegateEnergy` | bot/other/tron_tools.py:741-793 | what reaches the chain and what is remembered, for every way building, broadcasting and waiting can go |
| `Energy.Sweep` | bot/routers/inout.py:1318-1384 | the exit for every course of a sweep; on every exit after a returned delegation, failed sends and errors included, the undo takes back exactly the amount delegated |
| `Energy.SweepLent` | bot/routers/inout.py:1337-1384 | whatever the object remembers from before, a sweep leaves nothing delegated, unless its delegation landed although it raised or its undo did not land |
| `Energy.SweepDelegatesIff` | bot/routers/inout.py:1318-1384 | a sweep delegates if and only if the bandwidth is at least 500, there is something to send, the energy needed is at most limit minus used, and the delegation reaches the chain; it delegates the least TRX worth more than the need, in SUN, and the undo takes back as many |
| `Energy.EachSweepOwesItsOwn` | bot/routers/inout.py:1337-1384 | in every interleaving of sweeps, sharing energy objects or not, the chain shows for a sweep exactly its own amount while its delegation is out, and nothing otherwise |
| `Energy.OwedWasSpare` | bot/other/tron_tools.py:741-744 | in every interleaving energy is out only for a sweep whose object said it could be spared |
| `Energy.LentIsOwed` | bot/routers/inout.py:1337-1384 | at any time all that is delegated is the sum over the sweeps that still owe |
| `Energy.NeverOverdrawn` | bot/routers/inout.py:1380-1384 | no undo takes back more than its sweep has out |
| `Energy.Watch` | bot/routers/inout.py:1468-1493 | the loop starts a sweep at exactly the readings that cross 150000 upwards and whose message gets through |
| `Energy.CrossingIff` | bot/routers/inout.py:1476-1491 | a crossing is a reading above 150000 whose latest predecessor that did not fail, if any, was not |
| `Energy.DrainedBetween` | bot/routers/inout.py:1476-1491 | between two crossings the energy was read at or below 150000 |
| `Codec.FirstSuccess` | bot/other/mytypes.py:36-42 | a union yields its first alternative that does not raise, and raises if and only if all do |
| `Codec.FromListPointwise` | bot/other/mytypes.py:64-66 | a list decodes element by element; one bad element fails it |
| `Codec.ScalarsWritten` | bot/other/mytypes.py:20-66 | null for what is absent, and otherwise the text, the number, the truth value or the printed number |
| `Codec.ScalarsRead` | bot/other/mytypes.py:20-66 | each scalar is read from its own kind of JSON and from null, and from nothing else |
| `Codec.SmallFields` | bot/other/mytypes.py:69-147 | the JSON names of the fields of assets, references and prices |
| `Codec.LinkFields` | bot/other/mytypes.py:107-302 | the JSON names of the fields of links and lists of offers |
| `Codec.OfferRoundTrip` | bot/other/mytypes.py:163-234 | decoding undoes encoding for every offer, decimal-string ids and absent fields included |
| `Codec.RecordsRoundTrip` | bot/other/mytypes.py:241-255 | and for record lists of any length |
| `Codec.OffersRoundTrip` | bot/other/mytypes.py:150-302 | and for every tree of offers |
| `Codec.OffersReencode` | bot/other/mytypes.py:287-302 | decode, encode, decode is decode, for any JSON |
| `Codec.BalanceRoundTripIff` | bot/other/mytypes.py:319-382 | a balance comes back if and only if a native one has the code XLM |
| `Codec.DecodedBalanceIsNormal` | bot/other/mytypes.py:343-344 | every decoded balance is such a one |
| `Codec.BalanceReencode` | bot/other/mytypes.py:319-382 | decode, encode, decode is decode, despite the native rule |

## Left out

- Everything of the user interface: Telegram handlers, keyboards, localisation, logging, HTML pages.
- Calls to Horizon, Tron, TON, Soroban RPC, Grist, Mongo and HTTP: their results are parameters.
- stellar_sdk internals, XDR bytes, signatures, fees, sequence numbers and sponsorship: a plan is a list of abstract operations.
- `WindDown.DeletionRunsIff`: assumes the account and the master account are different; a merge refused for a sequence number too far ahead or for sponsored entries is outside the ledger, and so are fees.
- `BsnPublish.PublishesIff`: the account's entries are those the session was loaded from; changes made to the account in between are not modelled.
- Reserves are a number of entries an account can still open; the native balance behind it is not modelled.
- `Signers.PlanReachesTargetIff`: which strings are public keys is a parameter; that the account's own signatures suffice for the transaction is not modelled.
- Signer data entries and account data are taken as already decoded; base64 decoding is not modelled.
- Unicode: only ASCII digits count as digits and only ASCII letters are lower-cased; lengths and encoded lengths are those of the whole of Unicode. That Python's `int` accepts blanks and underscores is not modelled.
- Known tags are a parameter of every lemma about tags and sessions, so these hold for any table; the object uses the repository's.
- A BSN row is a value inside the row dictionary instead of an aliased object, since no row is shared; the jsonpickle round trip of a session between messages and the substitution of `@` names by accounts are not modelled. The `KeyError` of a repeated delete also loses the earlier lines of the same message, because the session is not saved; the lemmas cover this as the session before the message.
- `BsnHistory.PublishedIsLastEdit`: for accounts whose names all print back and edits that name no number 0; `BsnDiff.OddNameIsStuck` and `BsnHistory.ZeroDeleteIsLost` say what happens to the others.
- `Recommend.CollectRecommendations`: sorts by a stable sorting function instead of in place.
- Interleavings inside one Redis call sequence: each bot call, web request and worker run of `SealedBoxes` and `SignRequests` is one atomic step; tokens and ids are fresh.
- `WalletConnect`: internal ids are fresh and the id pair is written in one update; a run may order the steps of a handler in more ways than the code does. A signed transaction is identified with the one the user was shown, and `method` and the submission to Horizon are not modelled.
- The worker for signed transactions (bot/infrastructure/workers/signing_worker.py) is only the removal of the stored transaction.
- `Reassembly.Session.CheckXdr`: reading and writing the buffer (bot/routers/sign.py:796-804) is one step. Two handlers interleaved between the read and the write lose a part, which no lemma here covers.
- Floats are exact reals: `_format_amount`, `float2str`, price rounding and digits of printed amounts are not modelled.
- `Invocations.PreviewIsCompleteIff`: a line is its token, parties and amount before formatting and name look-up.
- `Energy.Sweep`: starts at the free-bandwidth guard; the earlier balance guard and TRX top-ups are effects of other services. No conservation of USDT or of its database record is claimed.
- `Energy.Watch`: the endless loop is a loop over the readings so far; a failed reading is a missing one, and a sweep is its start.
- `Codec.OffersRoundTrip`: printing and parsing points in time is any pair of functions of which the second undoes the first; fields have their declared types. The other response classes of the file repeat the same combinators.
- Throttle buckets do not expire, as in the code; the order of the chat and the user check in the middleware is not modelled.
- Retry middleware, `CountingLock`, pagination, connection counters, error-message look-up: only easy members.
