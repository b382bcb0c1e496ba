# Treasury: verified models

A Dafny model of the parts of the treasury application where a mistake would move money, leak a secret or show a wrong
number, with proofs of what those parts promise. `dafny verify dfyconfig.toml` checks everything.

| file | what it models |
|---|---|
| `BulkPayment.dfy`, `BulkPaymentRuns.dfy`, `BulkPaymentProgress.dfy`, `BulkPaymentCode.dfy` | the bulk payment contract: storage credits, payment lists, approval, batched payout; its invariants over every run; how far payouts get; its methods |
| `BulkPaymentTransfers.dfy`, `BulkPaymentFunds.dfy`, `BulkPaymentExamples.dfy` | the argument texts of its transfers and what a reader makes of them; the funds that come in and leave, asset by asset; concrete runs |
| `BlockLookup.dfy`, `BalanceSearch.dfy` | finding a block height by timestamp through cache, recorded rows and binary search; finding the block in which a balance changed |
| `Redaction.dfy`, `Utf8.dfy`, `Ascii.dfy` | redaction of secrets in JSON and in text that may be JSON, the two replacement patterns included, and truncation on UTF-8 boundaries |
| `CanonicalList.dfy`, `JsonPrinter.dfy`, `JsonReader.dfy`, `JsonText.dfy`, `JsonValue.dfy` | the canonical JSON text behind a payment list id, as client and backend write it; JSON values, strings and flat objects, written and read |
| `Nep413.dfy` | the bytes hashed for a NEP-413 signature and the versioned nonce |
| `AssetBuckets.dfy`, `SourceMerge.dfy`, `AssetView.dfy` | available, locked and earning amounts, their totals, the merge by source, weights and sorting |
| `LockupSchedule.dfy`, `ReleaseInterval.dfy` | the next unlock date and the wording of a release interval |
| `AccountId.dfy`, `MemberList.dfy` | the account id pattern and input sanitiser; the duplicate member check |
| `TestingBackfill.dfy` | the backfill of the testing flag |
| `DialogSuspend.dfy` | dialogs that step aside for the wallet popup, and the overlay count |
| `Sorting.dfy`, `Grouping.dfy`, `Sequences.dfy`, `Wrappers.dfy` | stable sorting by a comparator, grouping by a key, filters and sums; the `Option` type |

Code that works by steps is modelled by methods with loops, arrays and classes, each proved against a function of its
inputs or its old state; the properties are then proved about that function. Library code that the repository only
calls (JSON reader and printer, the two replacement patterns, `localeCompare`, Unicode lower-casing) enters as function
parameters, with the assumptions on them written as `requires`. Time, gas, network answers and the iteration order of
hash sets are parameters too.

## Results worth knowing

- The token callbacks of the bulk payment contract do not look at the account that calls them, and `approve_list` takes
  NEAR for a list in any token. An approval brings the list's own asset exactly when it is `approve_list` on a native
  list, `ft_on_transfer` called by the list's token, or `mt_on_transfer` called by intents.near on an intents list
  (`ApprovalBackedIff`). Over runs in which every approval does, every asset is conserved (`AssetConserved`);
  `UnbackedApproval` is a run in which one does not.
- The argument texts of token payouts are built without escapes from recipients that nothing checks. The called contract
  reads what was meant exactly when token and recipient hold no character that JSON strings must escape
  (`TransferReadsIff`); `RecipientReadAsTwoFields` gives an instance where it reads something else. `FundsConserved` and
  `AssetConserved` speak of texts that meet this condition.
- In every run each account was paid, over all transfers of a list with plain texts, the sum of the paid payments that
  name it (`PaidToRecipients`); the receiver is read off the transfer, whatever the kind of token.
- What is left of an approved list can be completed exactly when each payment left is payable, and then any sequence of
  calls with enough payouts in it completes it, each needing gas for one payment only (`CompletesIff`,
  `PayoutsComplete`). A recipient that does not parse keeps everything from its payment on pending in every run
  (`UnpayableBlocks`); `UnpayableList` is such a run.
- A recorded row below block 129265430 that carries the target timestamp is answered although it is below the search
  floor. Cached or not, that is the only way an answer can differ from "the least block from the floor"
  (`AnswerIsLeastIff`); `RowBelowFloorIsAnswered` gives an instance.
- The search for the block of a balance change always ends where the balance begins to be the expected one, but that is
  the first such block exactly when the way to it by halving is clear (`FirstIff`): a skipped height behind the change
  can hide it (`SkippedHidesFirst`).
- For the balances that the backend serves, the available and the locked row of an asset equal its metrics
  (`ServedRowsAgree`). The earning row leaves out exactly the stakes of which everything was unstaked and waits to be
  withdrawn (`ServedEarningGap`, `EarningRowDiffers`).
- Client and backend sort recipients differently (`localeCompare` against byte order). They compute one list id exactly
  when the two comparators decide every two payments of the list alike (`ClientAndBackendAgreeIff`); `a-b` and `a_b` are
  two recipients they may not (`ClientAndBackendDiffer`).
- A JSON reader finds in the list text exactly the four members with the payments sorted by recipient, and no shorter
  text reads the same (`CanonicalReads`).
- The duplicate member check is exact for every order of the members exactly when no id that occurs at least twice ties
  with a different id (`ExactInEveryOrderIff`); otherwise a duplicate can go unreported (`TiesCanHideDuplicates`). The
  positions it reports are positions after sorting (`PositionsWhenSorted`, `ReportedPositionMoves`).

Where code and documentation differ the model follows the code: list ids may hold upper-case hexadecimal digits
(`contracts/bulk-payment/docs` asks for lower case), there is no failed payment status and no retry, the list text
contains a timestamp (the contract's README leaves it out), and the block search returns the first block that is not
before the target rather than the closest one.

## Model

| member | source | states |
|---|---|---|
| BulkPayment.StorageCostExactIff | contracts/bulk-payment/src/lib.rs:122-148 | checked arithmetic overflows exactly beyond a stated number of records; up to there the 10% are added without rounding and the price is proportional |
| BulkPayment.ListIdIff | contracts/bulk-payment/src/lib.rs:209-211 | a list id is 64 hexadecimal digits in either case |
| BulkPaymentRuns.PayoutPaysPrefix | contracts/bulk-payment/src/lib.rs:419-498 | on a list paid up to k a payout that does not panic pays exactly the payments from k to some m, sends exactly their transfers in order, at least one if any is pending, and stops early only for lack of gas |
| BulkPaymentRuns.ExecKeepsInv | contracts/bulk-payment/src/lib.rs:160-553 | every call, panicking or not, keeps the invariant: credits and records add up to what was bought, each list is paid front to back with exactly its transfers sent, and exactly the approved lists were brought an amount, their total |
| BulkPaymentRuns.RunKeepsInv | contracts/bulk-payment/src/lib.rs:102-782 | the invariant holds after every run of calls |
| BulkPaymentFunds.FundsConserved | contracts/bulk-payment/src/lib.rs:313-519 | in every run an approved list was brought its exact total and no other list was brought or sent anything; with plain texts, what was brought plus the NEAR the contract attached of its own equals what left plus what is pending, in every asset, exactly when it was brought in the list's asset or was nothing |
| BulkPaymentFunds.ApprovalBackedIff | contracts/bulk-payment/src/lib.rs:313-782 | an approval brings the list's own asset exactly when method and calling account fit that asset, whatever sender or token it names |
| BulkPaymentFunds.AssetConserved | contracts/bulk-payment/src/lib.rs:313-782 | over runs whose approvals all do, with plain texts, what came in of an asset over all lists plus what the contract attached of its own equals what left in all transfers plus what approved lists still owe |
| BulkPaymentFunds.AttachedCovered | contracts/bulk-payment/src/lib.rs:459-490 | in every run the NEAR attached to token transfers is at most one yoctoNEAR for each record of a list, and those are no more than the records bought for the submitters |
| BulkPaymentExamples.UnbackedApproval | contracts/bulk-payment/src/lib.rs:604-662 | a run in which a list is approved and owes 5 of a token of which nothing came in |
| BulkPaymentRuns.CreditsConserved | contracts/bulk-payment/src/lib.rs:183-279 | in every run an account's credits plus the records of its lists equal the records bought for it |
| BulkPaymentFunds.PaidExactlyOnce | contracts/bulk-payment/src/lib.rs:390-519 | in every run the transfers sent for a list are those of a prefix of its payments, each once and in order, and that prefix is what is marked paid; each transfer with plain texts moves the payment's amount of the list's asset to the payment's recipient, read off the transfer alone |
| BulkPaymentFunds.PaidToRecipients | contracts/bulk-payment/src/lib.rs:390-519 | in every run what the transfers of a list with plain texts pay to each account, in the list's asset, is the sum of the list's paid payments that name the account |
| BulkPaymentRuns.RunEvolves | contracts/bulk-payment/src/lib.rs:228-553 | between any two moments of a run approval and rejection are final, recipients, amounts and order are fixed, and a paid payment keeps its block |
| BulkPaymentRuns.DecidedIff | contracts/bulk-payment/src/lib.rs:313-782 | the calls that approve a waiting list are exactly: `approve_list` by its submitter with its total in NEAR, `ft_on_transfer` by any account naming the submitter and the total, `mt_on_transfer` by any account naming the list's token and the total (the last two without a deposit); only its submitter's `reject_list` rejects it |
| BulkPaymentRuns.CreditsSpentBy | contracts/bulk-payment/src/lib.rs:245-279 | credits drop only by a new list's records, and only when the account itself or the contract account submits it |
| BulkPaymentTransfers.TransferReadsIff | contracts/bulk-payment/src/lib.rs:442-492 | the argument text of a token payout is read as the intended token, receiver, amount and memo exactly when token and recipient hold no character that JSON strings must escape |
| BulkPaymentTransfers.RecipientReadAsTwoFields | contracts/bulk-payment/src/lib.rs:448-455 | a recipient with quotes whose text is read with a shorter memo and one more field |
| BulkPaymentTransfers.PlainCarries | contracts/bulk-payment/src/lib.rs:442-492 | where the texts are plain, the transfer read from the text moves the payment's amount of the list's asset |
| BulkPaymentTransfers.PlainPaysRecipient | contracts/bulk-payment/src/lib.rs:442-492 | where the texts are plain, the receiver read off a transfer (the account of a NEAR transfer, the receiver of a token transfer or what follows `WITHDRAW_TO:` in a withdrawal memo) is the payment's recipient, and token transfers attach one yoctoNEAR |
| BulkPaymentTransfers.WithdrawalFields | contracts/bulk-payment/src/lib.rs:442-455 | a withdrawal names the recipient as receiver, or for tokens whose account ends with `.omft.near` the token as receiver and the recipient in the memo |
| BulkPaymentTransfers.AssetOfNames | contracts/bulk-payment/src/lib.rs:442-482 | three token ids stand for NEAR, the prefix `nep141:` for a token of intents.near, and every other id for the token's contract |
| JsonText.UnescapedReadsIff | contracts/bulk-payment/src/lib.rs:448-482 | an object written without escapes is read back field by field exactly when no name and no value needs one |
| BulkPaymentProgress.PayoutProgress | contracts/bulk-payment/src/lib.rs:504-519 | the returned number is what is still pending, and it is smaller than before while anything was pending |
| BulkPaymentProgress.LacksGasIff | contracts/bulk-payment/src/lib.rs:407-441 | a payout of an approved list panics for lack of gas exactly when something is pending and the first check finds less than 18 TGas for NEAR or 65 TGas for tokens |
| BulkPaymentProgress.PayableIff | contracts/bulk-payment/src/lib.rs:465-482 | a payment can be paid exactly when its list pays an intents token, or the recipient of NEAR, or else the token's contract, is an account id by the length limits and the pattern |
| BulkPaymentProgress.PayoutsComplete | contracts/bulk-payment/src/lib.rs:375-386 | from any moment at which what is left of an approved list is payable, with whatever other calls in between, each payout call with gas for one payment brings the list at least one payment closer to its end |
| BulkPaymentProgress.CompletesIff | contracts/bulk-payment/src/lib.rs:375-519 | a list can be completed by some calls, and is completed by all calls with enough payouts among them, exactly when each payment left is payable |
| BulkPaymentProgress.AmplePayoutCompletesIff | contracts/bulk-payment/src/lib.rs:390-519 | one call with gas at each check it can make pays everything left exactly when every payment left is payable, and panics otherwise |
| BulkPaymentProgress.UnpayableBlocks | contracts/bulk-payment/src/lib.rs:465-482 | a payment that does not parse keeps itself and all behind it pending in every run |
| BulkPaymentExamples.UnpayableList | contracts/bulk-payment/src/lib.rs:465-471 | a run that approves a native list for the recipient `A`: the payment stays pending whatever calls follow, and a payout with enough gas panics |
| BulkPaymentCode.TotalAmount | contracts/bulk-payment/src/lib.rs:332-338 | the checked fold is the sum, or nothing exactly when the sum needs more than 128 bits |
| BulkPaymentCode.PayLoop | contracts/bulk-payment/src/lib.rs:419-498 | the payment loop with its gas checks computes the payout function |
| BulkPaymentCode.BulkPaymentContract.BuyStorage | contracts/bulk-payment/src/lib.rs:161-206 | goes through exactly with the exact price, 2376 * 10^18 for each of at most 14321648439433437 records; raises the beneficiary's credits by the records and nobody else's; keeps the invariant of all runs; a panic changes nothing |
| BulkPaymentCode.BulkPaymentContract.SubmitList | contracts/bulk-payment/src/lib.rs:228-309 | goes through exactly for a new well-formed id and payments the submitter's credits cover; takes one credit for each payment, adds the list in the order of the inputs and leaves every other list and account alone; keeps the invariant |
| BulkPaymentCode.BulkPaymentContract.ApproveList | contracts/bulk-payment/src/lib.rs:313-360 | an approval changes one waiting list's status and nothing else a caller sees, for its submitter and its exact total; keeps the invariant |
| BulkPaymentCode.BulkPaymentContract.FtOnTransfer | contracts/bulk-payment/src/lib.rs:604-662 | likewise for a token callback that names the submitter and the exact total |
| BulkPaymentCode.BulkPaymentContract.MtOnTransfer | contracts/bulk-payment/src/lib.rs:691-782 | likewise for a multi-token callback that names the list's token and the exact total |
| BulkPaymentCode.BulkPaymentContract.PayoutBatch | contracts/bulk-payment/src/lib.rs:390-519 | pays a stretch of payments right after those paid before, sends exactly their transfers in order, touches no other list and returns what is left, less than before; before and after, each account was paid for a list with plain texts the sum of the paid payments naming it; keeps the invariant |
| BulkPaymentCode.BulkPaymentContract.RejectList | contracts/bulk-payment/src/lib.rs:532-556 | goes through exactly for the submitter of a waiting list and changes only its status; keeps the invariant |
| BlockLookup.BinarySearch | nt-be/src/app_state.rs:535-619 | answers the least block at or above the floor that is not before the target, errors exactly as stated, stays within 64 bits at every step and probes at most floor(log2(window)) + 1 blocks, also on chains with skipped heights |
| BlockLookup.LeastIsStable | nt-be/src/app_state.rs:464-466 | appending blocks never changes which block is the least one, so caching it is sound |
| BlockLookup.AppState.FindBlockHeight | nt-be/src/app_state.rs:450-522 | one layered lookup is a lookup step of the state machine, stores only successes and refuses exactly the dates without 64-bit nanoseconds |
| BlockLookup.NextKeepsInv | nt-be/src/app_state.rs:450-522 | appends, inserts of true rows, evictions and lookups keep every cached height justified |
| BlockLookup.AnswerIsLeast | nt-be/src/app_state.rs:450-522 | anywhere in a run an answered height is the least block from the floor unless it is a recorded row below the floor with exactly the target timestamp |
| BlockLookup.AnswerIsLeastIff | nt-be/src/app_state.rs:450-522 | an answer, cached or not, is the least block exactly when no row below the floor carried the target timestamp at the lookup that first gave it |
| BlockLookup.AnswersNeverChange | nt-be/src/app_state.rs:450-522 | while no row below the floor carries the target's timestamp, any two answers to one target in one run are equal and right, however far the chain grew in between |
| BlockLookup.RowBelowFloorIsAnswered | nt-be/src/app_state.rs:467-496 | an instance where a row below the floor is answered instead of the least block |
| BalanceSearch.FindBalanceChangeBlock | nt-be/src/handlers/balance_changes/binary_search.rs:28-104 | an answer lies in the range and carries the expected balance, and unless it is the start the height before it does not, whatever the balances do and whichever heights were skipped; nothing is found exactly when the range is empty or ends with another balance; an error names the end, the start or a height that failed |
| BalanceSearch.FirstIff | nt-be/src/handlers/balance_changes/binary_search.rs:56-103 | the answer is the first block with the balance exactly when it is the start or each midpoint on the way to it is answered, with the balance if it lies behind it |
| BalanceSearch.SettledIsFirst | nt-be/src/handlers/balance_changes/binary_search.rs:56-103 | a balance that stays once reached, on heights that all exist from there on, is found where it is reached |
| BalanceSearch.SkippedHidesFirst | nt-be/src/handlers/balance_changes/binary_search.rs:69-86 | a range in which a skipped height makes a later block the answer |
| Redaction.Sanitize | nt-be/src/observability.rs:239-255 | the recursion between text and tree terminates on every input, by the longest string leaf and the tree |
| Redaction.ReaderFaithful | nt-be/src/observability.rs:239-243 | a JSON reader for which every text is longer than each string in it, so that with it the recursion terminates on every input |
| Redaction.RedactJsonValue | nt-be/src/observability.rs:214-235 | the loops over entries and items compute the redaction |
| Redaction.SanitizeSensitiveText | nt-be/src/observability.rs:239-255 | parse, redact, print, mask and truncate compute the sanitised text; it has every property that the pair pattern, and every property that the JWT pattern, gives its outputs, as far as the later steps keep it |
| Redaction.RedactedIsClean | nt-be/src/observability.rs:214-255 | every string of a redacted value outside sensitive keys, at any depth, is clean of pairs and of JWTs in that sense |
| Redaction.PlainTextMasked | nt-be/src/observability.rs:243-254 | text that is not JSON comes out with pairs replaced first and JWTs second, unchanged by truncation if short |
| Redaction.PairIsMasked | nt-be/src/observability.rs:247-251 | an instance: `token=abc` comes out as `token=[REDACTED]`, without any letter of the secret |
| Redaction.SensitiveIffSpelling | nt-be/src/observability.rs:193-205 | an ASCII key is sensitive exactly when it spells one of the seven names, whatever its case and wherever underscores, hyphens and dots stand |
| Redaction.SeparatorsOnly | nt-be/src/observability.rs:200-205 | a character makes no difference to a key exactly when it is an underscore, a hyphen or a dot |
| Redaction.RedactAt | nt-be/src/observability.rs:214-235 | at every path of the result: the marker at a sensitive entry, nothing below it, and the redaction of what was there everywhere else |
| Redaction.SourceKeysMasked | nt-be/src/observability.rs:193-223 | with the backend's key list an entry holds the marker exactly when its key spells a sensitive name, and is redacted otherwise |
| Redaction.ShapeKept | nt-be/src/observability.rs:214-235 | at every depth outside sensitive entries object keys, array lengths and all scalars but strings are kept |
| Redaction.RedactHides | nt-be/src/observability.rs:214-235 | values that differ only under sensitive keys redact to the same value |
| Redaction.SanitizeHides | nt-be/src/observability.rs:239-255 | texts that differ only under sensitive keys, at any depth of text inside text, sanitise to the same text |
| Redaction.SecondPassUnchanged | nt-be/src/observability.rs:208-255 | a second pass changes nothing when every exposed string, or what it sanitises to, is not JSON, fits 1024 bytes and holds nothing for the two patterns to replace |
| Redaction.SanitizedLength | nt-be/src/observability.rs:254-269 | sanitised text never exceeds 1038 bytes |
| Utf8.FittingIsGreatest | nt-be/src/observability.rs:262-266 | the cut keeps the greatest number of whole code points within the limit and leaves at most 3 bytes unused |
| Utf8.BoundaryIsPrefixEnd | nt-be/src/observability.rs:263 | a byte position is a character boundary exactly when it ends a prefix of whole code points |
| Utf8.CutBytes | nt-be/src/observability.rs:257-269 | the byte loop produces the encoding of the greatest fitting prefix plus the suffix, or the text unchanged |
| Utf8.TruncateSanitizedText | nt-be/src/observability.rs:257-269 | 1024 bytes or fewer are unchanged; of more, the first 1021 to 1024 are kept and the suffix makes at most 1038 |
| Utf8.EncodeInjective | nt-be/src/observability.rs:257-269 | different texts have different bytes |
| CanonicalList.CanonicalReads | nt-be/src/handlers/bulkpayment/submit.rs:47-79 | a JSON reader finds in the text an object of exactly four members in this order: `payments`, an array with one object of amount and recipient for each payment, sorted by recipient with ties in input order; `submitter` and `token_id`, those strings; `timestamp`, a number of that value; no shorter text reads so |
| CanonicalList.ListTextInjective | e2e-tests/bulk-payment/dao-bulk-payment-flow.js:111-118 | the JSON text determines payments, submitter, timestamp and token, with all JSON escapes |
| CanonicalList.CodePointsAsBytes | nt-be/src/handlers/bulkpayment/submit.rs:61-66 | comparing recipients by code points is comparing their UTF-8 bytes, which is what the backend does |
| JsonPrinter.ParsePrinted | nt-be/src/handlers/bulkpayment/submit.rs:75 | every JSON value whose numbers are natural is read back from its text |
| JsonPrinter.PrintIsShortest | nt-be/src/handlers/bulkpayment/submit.rs:75 | no text that reads as the same value is shorter: no white space, no needless escape |
| JsonText.EscapesInLowerCase | nt-be/src/handlers/bulkpayment/submit.rs:75 | escapes hold no upper-case letter |
| CanonicalList.CanonicalIdentifies | e2e-tests/bulk-payment/dao-bulk-payment-flow.js:107-121 | two lists have one text exactly when submitter, token and timestamp agree and payments that tie come in the same order in both; without ties of different payments, exactly when the payments are the same in any order |
| CanonicalList.OrderFreeIff | e2e-tests/bulk-payment/dao-bulk-payment-flow.js:108-109 | the text is the same for every order of the payments exactly when no two different payments tie in the sort |
| CanonicalList.ClientAndBackendAgreeIff | nt-be/src/handlers/bulkpayment/submit.rs:47-79 | for every list, client and backend text agree exactly when their comparators decide every two of its payments, the earlier first, alike |
| CanonicalList.ClientAndBackendDiffer | nt-be/src/handlers/bulkpayment/submit.rs:47-79 | a list of `a-b` and `a_b` whose text differs between byte order and any client order that puts `a_b` first |
| Nep413.DeserializeSerialized | e2e-tests/bulk-payment/dao-bulk-payment-flow.js:136-162 | reading a serialised payload returns it and consumes exactly its bytes |
| Nep413.SerializeDeserialized | nt-be/examples/full_confidential_shield.rs:63-69 | whatever reads as a payload is exactly its serialisation |
| Nep413.DecodePreHashed | e2e-tests/bulk-payment/dao-bulk-payment-flow.js:161-169 | the tag and the payload are read back from the bytes to be hashed |
| Nep413.PreHashInjective | e2e-tests/bulk-payment/dao-bulk-payment-flow.js:161-169 | the bytes of two different payloads differ and neither begins with the other |
| Nep413.SignedInjective | nt-be/examples/full_confidential_shield.rs:115-134 | two signing requests hash the same bytes exactly when message, nonce and recipient are the same |
| Nep413.SmallestBytes | nt-be/examples/full_confidential_shield.rs:115-134 | an instance, byte by byte: tag, length and text of the message, nonce, length and text of the recipient, and no callback |
| Nep413.DataToHash | e2e-tests/bulk-payment/dao-bulk-payment-flow.js:152-169 | the buffer with the tag followed by the payload is the byte string proved injective |
| Nep413.BytesToSign | nt-be/examples/full_confidential_shield.rs:121-131 | the field-by-field vector of the other signer is the same byte string |
| Nep413.BuildNonce | nt-be/examples/full_confidential_shield.rs:100-112 | the 32 bytes filled in place read back as magic, version, salt, deadline, issue time and tail |
| Nep413.ReadWrittenNonce | nt-be/examples/full_confidential_shield.rs:105-110 | writing the fields and reading them back returns every field |
| Nep413.WriteReadNonce | nt-be/examples/full_confidential_shield.rs:105-110 | every 32 bytes are exactly their fields written back, so no byte lies outside a field |
| Nep413.NanosecondsExactIff | nt-be/examples/full_confidential_shield.rs:101-102 | a time is recovered exactly when its nanoseconds fit 64 unsigned bits; otherwise whole multiples of 2^64 are lost |
| AssetBuckets.VestedBuckets | nt-fe/components/assets-table.tsx:98-143 | the three buckets of a vested balance hold the larger of the total and what is staked or locked; the two locked computations agree |
| AssetBuckets.AgreesWithLibrary | nt-fe/lib/balance.ts:128-164 | the table's buckets equal the shared library's, which counts staked tokens as locked |
| AssetBuckets.ViewShowsAvailable | nt-fe/components/assets-table.tsx:112-117 | the available view shows what is available of a network unless it is a lockup |
| AssetBuckets.BucketsConserveIff | nt-fe/components/assets-table.tsx:98-143 | the buckets add up to the balance exactly under a stated condition on residency, restriction and total |
| AssetBuckets.GetAssetMetrics | nt-fe/components/assets-table.tsx:145-180 | the accumulating loop computes the sums and the flags; where one price and one number of decimals apply, each sum times the units in a token is the sum of the raw amounts times the price |
| AssetBuckets.WorthOfTokens | nt-fe/components/assets-table.tsx:93-95 | at a positive price k whole tokens of any number of decimals are worth k times the price, and worth is additive in the raw amount |
| AssetBuckets.TwoTokensWorth | nt-fe/components/assets-table.tsx:93-95 | an instance: two tokens of six decimals at a price of 5 are worth 10 |
| AssetBuckets.RowTotals | nt-fe/components/assets-table.tsx:1819-1922 | the row totals are the sums over the listed networks, worth their raw amounts times the price likewise |
| AssetBuckets.AvailableRowTotalIff | nt-fe/components/assets-table.tsx:1819-1876 | the available row equals the metric exactly when no priced network has a negative available amount |
| AssetBuckets.ServedRowsAgree | nt-be/src/handlers/user/assets.rs:600-800 | for balances as the backend serves them, the available and the locked row always equal the metrics |
| AssetBuckets.ServedEarningGap | nt-be/src/handlers/user/staking.rs:350-410 | for them, what the earning row is short of the metric is exactly the stakes that only wait to be withdrawn |
| AssetBuckets.LockedRowTotalIff | nt-fe/components/assets-table.tsx:1826-1894 | the locked row equals the metric exactly when no priced network left out has a negative locked amount |
| AssetBuckets.EarningRowGap | nt-fe/components/assets-table.tsx:1839-1922 | what the earning row is short of the metric is exactly the value of idle staking balances |
| AssetBuckets.EarningRowDiffers | nt-fe/components/assets-table.tsx:1839-1922 | a served stake of which all was unstaked: 1 in the metric, 0 in the row |
| AssetBuckets.FlagsAgainstRows | nt-fe/components/assets-table.tsx:167-169 | an asset is shown as available exactly when its row lists a network; its locked row lists one exactly when it is shown as locked or a lockup has something available; it is shown as earning exactly when its row lists one or an idle stake is positive |
| SourceMerge.SourceKeyIff | nt-fe/components/assets-table.tsx:735-744 | two networks share a key exactly when their network names agree, both have a lockup instance or neither has and they reside in the same place, and their contracts agree, an asset without one standing for itself; network names hold no colon |
| Grouping.KeysInOrder | nt-fe/components/assets-table.tsx:749-768 | merged entries come in the order in which their keys first occur |
| Grouping.GroupsConserve | nt-fe/components/assets-table.tsx:751-766 | the sums over all keys add up to the sum over all networks |
| Grouping.SumOfKeyOrderFree | nt-fe/components/assets-table.tsx:751-766 | a key's total does not depend on the order of the networks |
| SourceMerge.MergeAvailableNetworks | nt-fe/components/assets-table.tsx:746-769 | the in-place map merge yields one entry per key, with its first network and the sum of its amounts, and loses nothing |
| AssetView.ViewIsSortedPermutation | nt-fe/components/assets-table.tsx:1402-1506 | the displayed rows are the filtered assets, each once, sorted by the chosen key, ties in input order |
| AssetView.ShownOrder | nt-fe/components/assets-table.tsx:1466-1506 | for each of the nine keys the rows ascend or descend in the number, or the id, that the key names |
| AssetView.ShownIff | nt-fe/components/assets-table.tsx:1402-1482 | an asset is shown exactly when it has the view's flag, with its metrics, its percentage of the view's total, and what its lockups released and its stakes hand back |
| AssetView.MetricsOfLast | nt-fe/components/assets-table.tsx:1344-1353 | the metrics behind an id are those of the last asset with that id |
| AssetView.WeightsAddUp | nt-fe/components/assets-table.tsx:1411-1482 | the weights add up to 100 when the view's total is positive and are all 0 otherwise |
| AssetView.WeightsInRangeIff | nt-fe/components/assets-table.tsx:1402-1506 | all weights of a view lie between 0 and 100 exactly when its total is not positive or no shown asset has a negative value |
| LockupSchedule.NextUnlock | nt-fe/components/lockup-details-modal.tsx:128-138 | the stepping loop terminates and stops at the closed-form round |
| LockupSchedule.StopRoundIsUnique | nt-fe/components/lockup-details-modal.tsx:131-138 | the closed form max(1, floor((now - start) / interval) + 1), capped at the total, is the only round where the loop can stop |
| LockupSchedule.NextOrReleased | nt-fe/components/lockup-details-modal.tsx:140-147 | no round lies ahead exactly when the total is positive and its last round is past |
| LockupSchedule.CalculateNextFtUnlockDate | nt-fe/components/lockup-details-modal.tsx:110-149 | shows the earliest round after now; completed exactly when there is a last round and it is past, so that every round is; and not available exactly for unusable arguments |
| ReleaseInterval.SplitSeconds | nt-fe/components/lockup-details-modal.tsx:80-97 | the greedy loop yields a canonical split of exactly the given seconds |
| ReleaseInterval.CanonicalUnique | nt-fe/components/lockup-details-modal.tsx:80-97 | the canonical split of a number of seconds is unique |
| ReleaseInterval.CanonicalFewest | nt-fe/components/lockup-details-modal.tsx:80-97 | no split of the same seconds uses fewer pieces |
| ReleaseInterval.FormatReleaseInterval | nt-fe/components/lockup-details-modal.tsx:71-108 | the wording means exactly the given seconds, with the month and quarter wordings exactly for theirs |
| AccountId.PatternIffSeparated | nt-fe/components/account-id-input.tsx:19-25 | the nested pattern accepts exactly the words with allowed characters, alphanumeric ends and no two adjacent separators |
| AccountId.JoinedRecognises | nt-fe/components/account-id-input.tsx:23 | repeating word-and-separator before a word adds exactly that separator to the language |
| AccountId.SanitizerSettles | nt-fe/components/account-id-input.tsx:81-87 | sanitised input has at most 64 characters, all allowed, is not changed again, and an acceptable id is never changed |
| AccountId.CaseIsIgnored | nt-fe/components/account-id-input.tsx:81-87 | inputs that differ only in the case of ASCII letters sanitise alike |
| AccountId.NothingIsLost | nt-fe/components/account-id-input.tsx:81-87 | the result holds the lower case of exactly the characters at the positions whose lower case an account id may hold, in order, up to the 64th |
| AccountId.AcceptedIff | nt-fe/components/account-id-input.tsx:19-25 | length limits and pattern together, as one pass over the characters |
| MemberList.CheckDuplicates | nt-fe/components/member-input.tsx:42-58 | sorts the array in place and reports exactly the positions equal to their predecessor |
| MemberList.RepeatsCount | nt-fe/components/member-input.tsx:46-57 | issues never exceed members minus distinct ids, and equal it exactly when equal ids stand together |
| MemberList.ExactInEveryOrderIff | nt-fe/components/member-input.tsx:42-58 | for every order of the members the issues are one per surplus member, exactly when no id that occurs at least twice ties with a different id of the list |
| MemberList.CheckIsExact | nt-fe/components/member-input.tsx:42-58 | when no repeated id ties with another, an issue is raised exactly when two members share an id, one per surplus member |
| MemberList.CheckIsSound | nt-fe/components/member-input.tsx:42-58 | with any comparator an issue means a real duplicate |
| MemberList.TiesCanHideDuplicates | nt-fe/components/member-input.tsx:43-45 | under any comparator that ties two different ids, one between two of the other hides the duplicate |
| MemberList.PositionsWhenSorted | nt-fe/components/member-input.tsx:42-58 | sorting leaves the members in place exactly when they were entered in order, and the reported positions are then their own |
| MemberList.ReportedPositionMoves | nt-fe/components/member-input.tsx:42-58 | three members for which the reported position is that of a member without a duplicate |
| TestingBackfill.MarkExplicitDaos | nt-be/examples/mark_testing_daos.rs:20-66 | whatever the iteration order, turns on exactly the listed flags and counts each id in its counter |
| TestingBackfill.BackfillFromPolicyMembers | nt-be/examples/mark_testing_daos.rs:68-132 | whatever the row order, turns on exactly the flags the rule asks for and counts each row |
| TestingBackfill.ExplicitFoldCounts | nt-be/examples/mark_testing_daos.rs:25-63 | the counters of the first loop depend on the set of ids, not on the order |
| TestingBackfill.RowFoldCounts | nt-be/examples/mark_testing_daos.rs:84-129 | the counters of the second loop depend on the rows, not on the order |
| TestingBackfill.Backfill | nt-be/examples/mark_testing_daos.rs:135-152 | both loops together give the final flags and counters read off the tables before the run |
| TestingBackfill.FlagAfterIff | nt-be/src/services/testing_accounts.rs:11-25 | a flag is on afterwards exactly when it was on, or the id is listed, or its members are known, there are some and all of them are testing accounts; no row appears and no flag is turned off |
| TestingBackfill.CountersSum | nt-be/examples/mark_testing_daos.rs:11-18 | the five counters sum to the listed ids plus the tracked rows |
| TestingBackfill.SecondRun | nt-be/examples/mark_testing_daos.rs:135-152 | an immediate second run marks nothing, changes no flag and repeats the missing and skipped counts |
| DialogSuspend.Application.Check | nt-fe/components/modal.tsx:29-34 | runs the effect of every dialog; during the popup no dialog is shown and none loses its own open state |
| DialogSuspend.Application.HandleOpenChange | nt-fe/components/modal.tsx:82-89 | outside the popup the dialog is shown exactly if that was asked, and no other dialog and no overlay changes; during the popup nothing changes |
| DialogSuspend.Application.HandleStateChange | nt-fe/components/modal.tsx:168-176 | the overlay count stays the number of dialogs that pushed one; only this dialog's mark changes, to what it was told, and being told twice counts once |
| DialogSuspend.StepKeepsInv | nt-fe/components/modal.tsx:37-89 | every event, mounting and unmounting included, keeps saved states in step with the popup and the overlay count equal to the overlays pushed and not popped |
| DialogSuspend.RunKeepsInv | nt-fe/components/modal.tsx:37-176 | in every reachable state no dialog is shown during the popup, and the overlay count is the number of mounted dialogs that pushed one exactly when the content of every unmounted dialog reported its close |
| DialogSuspend.PopupRestores | nt-fe/components/modal.tsx:65-79 | after the popup a dialog that is still mounted: an uncontrolled one is open exactly if it was before; a controlled one exactly if it was before or its parent holds it open |
| Sorting.StableSortSorted | nt-fe/components/member-input.tsx:43-45 | the sort the model uses for library sorts is sorted |
| Sorting.StableSortKeepsTies | nt-fe/components/assets-table.tsx:1496-1506 | it keeps the order of tied elements |
| Sorting.SortsAlikeIff | nt-be/src/handlers/bulkpayment/submit.rs:47-79 | two comparators sort a sequence alike exactly when they decide its pairs alike |
| Sorting.SortsEqualIff | e2e-tests/bulk-payment/dao-bulk-payment-flow.js:108-109 | two sequences sort to the same one exactly when tied elements come in the same order in both |
| Sorting.SortForgetsOrder | e2e-tests/bulk-payment/dao-bulk-payment-flow.js:108-109 | it forgets the input order when ties are equalities |

## Left out

- BulkPaymentFunds.ApprovalBackedIff: a callback is taken to bring tokens of the account that calls it; whether that account is a token contract that has moved them is not modelled.
- BulkPaymentTransfers.TransferReadsIff: the reader knows objects of strings without white space; of any other text it reads nothing. What a called contract does with fields it does not expect is not part of this model.
- Bulk payment: storage staking, and what happens to a promise after it is detached. That methods without the payable mark refuse a deposit comes from the contract framework.
- Bulk payment: views and logs, and the backend worker that calls `payout_batch`; amounts of single payments are natural numbers, only sums are held to 128 bits.
- BalanceSearch.FindBalanceChangeBlock: the node is assumed to answer alike whenever it is asked about a height; balances are rationals.
- AssetBuckets.ServedRowsAgree: what the backend serves is stated as a predicate read off its handlers; saturating sums of pools are not modelled.
- Redaction.Sanitize: the JSON reader, the printer and the two replacement patterns are parameters; the only assumption is that a JSON text is longer than each string in it, and `JsonReader` gives a reader that meets it (it sets no limit on depth and keeps repeated keys). What the patterns match is part of the parameters: the model proves that they are applied to every text that comes out, and in which order.
- Redaction.RedactJsonValue: returns the redacted value instead of overwriting a tree that has one owner; aliasing cannot arise there.
- Redaction.SensitiveIffSpelling: speaks of ASCII keys; other letters go through the lower-casing parameter.
- BlockLookup.AppState.FindBlockHeight: database errors and the expiry time of cache entries (an entry may vanish at any step); rows are assumed to hold true timestamps, and block timestamps to fit 63 bits.
- JsonPrinter.ParsePrinted: numbers are natural numbers, as the list text has no others.
- CanonicalList.CanonicalIdentifies: strings are sequences of Unicode scalar values, so lone surrogates of JavaScript strings are not modelled; SHA-256 is not modelled.
- Nep413.BuildNonce: follows release arithmetic, where the product wraps around; a debug build would stop instead. Signing and SHA-256 are not modelled.
- AssetBuckets.GetAssetMetrics: USD values are exact rationals; rounding of `toNumber` is not modelled.
- AssetView.ViewIsSortedPermutation: React memoisation, rendering and the choice of default sort are not modelled.
- LockupSchedule.CalculateNextFtUnlockDate: seconds are integers; the formatting of the date and fractional arguments are not modelled.
- AccountId.SanitizerSettles: lengths are counted in characters; the asynchronous existence check is not modelled.
- AccountId.NothingIsLost: speaks of inputs of ASCII characters and of others whose lower case has nothing an account id may hold; a few others, such as the Kelvin sign, lower-case to an ASCII letter.
- MemberList.CheckDuplicates: the other form validations; the library sort is modelled by its stable result.
- TestingBackfill.Backfill: database errors between statements and other writers at the same time.
- DialogSuspend.Application.HandleOpenChange: a controlled dialog's parent is assumed to follow the request; React scheduling is not modelled.
- Pagination, wizards, quota display, configuration, routing and most of the user interface are not modelled.
