# Proofs about prices, keys, amounts, change logs and the bridge

A Dafny model of five parts of the repository and proofs of what they promise:

* **Prices** (`price/main.go`): the continued-fraction parser. `Convergents`, `Approximation`, `BestInRange`,
  `NegativePrices`, `Price`.
* **Amounts** (`amount/main.go`, `ValueToStellar` of the bridge): fixed-point parsing and printing. `Rationals`,
  `Decimal`, `Amount`.
* **Key strings** (`strkey/main.go`, `crc16/main.go`): base 32 (RFC 4648, section 6) and CRC-16/XMODEM. `Bits`, `Folds`,
  `Base32`, `Crc16Table`, `Crc16`, `Crc16Errors`, `Crc16Division`, `StrKey`, `StrKeyErrors`.
* **Change logs** (`meta/bundle.go`, `xdr/ledger_key.go` and its neighbours). `Ledger`, `Meta`, `MetaQueries`, `MetaReplay`.
* **The Bitcoin and Ethereum bridge** (`services/bifrost`): tables and handlers as code (`BifrostTables`,
  `BifrostDatabase`, `BifrostHandling`, `BifrostServer`), what they do for a user when their calls work and when one fails
  (`BifrostService`), and any number of servers that share one database and stop
  anywhere, as a system of steps (`BifrostProtocol`) with what holds over all its runs (`BifrostOnce`,
  `BifrostDeposits`, `BifrostCredit`, `BifrostCoverage`, `BifrostBlocks`, `BifrostAddresses`, and `BifrostLoss`, runs that
  lose a deposit). `BifrostRefinement` shows that what the handlers and listeners do by themselves are runs of that system,
  step for call and outcome for outcome.

`dafny verify dfyconfig.toml` checks everything.

## How the code is represented

* A `big.Rat` is a numerator over a positive denominator, not always in lowest terms. The running `number` of the price
  parser keeps its value and its denominator strictly decreases.
* `uint16` and `byte` are bit-vectors. Prices are cut to 32 bits and address indices to 32 bits where the code does it.
* In the loops of `price/main.go`, `crc16/main.go`, `meta/bundle.go` and the bridge the methods keep the source's loops and
  early returns; each is tied to a function, and the lemmas are about that function.
* A call of the database is told what becomes of it: `Done`, `FailedBefore` (nothing changed) or `FailedAfter` (the
  change was made and the answer was lost). Refused inserts such as texts that are too long for their column are
  failures of this kind. Each transaction of the database is one step.
* The endless loops of the bridge take a list of turns of any length. Blocks, the clock and the client are
  parameters: a block may carry any deposits and may be delivered any number of times, to any number of listeners.
* The history in the step system (what was delivered, returned, lost, and so on) is a record for the theorems; no step
  looks at it.

## Where the code does not do what its comments say

* `price/main.go:28-31` promises the best approximation within 32 bits. Fractions between two convergents are never tried:
  600000000.22 becomes 600000000/1 although 1800000001/3 is closer (`Price.NotAlwaysBestInRange`). The result is the best
  among all fractions with at most its denominator, and has the smallest residual |x D - N| of all within 32 bits
  (`Price.ParsedPrice`); it is the best within 32 bits exactly if one intermediate fraction is not closer
  (`Price.ClosestInRangeExactlyWhen`).
* Only the upper bound is checked (`price/main.go:79`), so a negative price can lose its high bits
  (`Price.NegativePriceWraps`). A reduced negative fraction whose denominator fits comes back exactly when its numerator is
  at least -2^31 (`Price.NegativePriceRecovers`); any other negative number gives a best approximation exactly when the
  number times the returned denominator is above -2^31 - 1/2 (`Price.NegativePrice`).
* `meta/bundle.go:73-74` promises the state just before the operation. `StateBefore` gives the state before the last change
  at or before the operation (`MetaReplay.StateBeforeIsBeforeLast`). This is the state before the operation exactly when, if
  the operation changes the key, the first change of the operation and the last change but one name the same state, and
  otherwise the last change of the key before the operation and the last but one do (`MetaReplay.StateBeforeExactlyWhen`).
  So it is, if the operation changes the key once; it need not be, if it changes it twice
  (`MetaReplay.StateBeforeOfTwo`) or leaves it alone (`MetaReplay.StateBeforeMissesFee`).
* `services/bifrost/database/main.go` says that `IncrementAddressIndex` returns the value before it is incremented; the
  code returns the value after it, cut to 32 bits (`BifrostDatabase.PostgresDatabase.IncrementAddressIndex`).
* `services/bifrost/server/server.go:183` asks for a key that begins with 'G'. With the version bytes of `strkey/main.go`
  there is none (`StrKey.NoKeyBeginsWithG`). The bridge's model therefore leaves open which keys are accepted.
* `services/bifrost/bitcoin/main.go` says that the listener tracks only P2PKH payments; the code takes payments to public
  keys as well (`BifrostServer.Server.ProcessOutputs`).
* A transaction that was recorded but not queued is skipped when its block comes again, so that it is lost
  (`BifrostOnce.LostExactlyWhen`, `BifrostOnce.LostForGood`, and a run that does it: `BifrostLoss.DepositCanBeLost`).
* `services/bifrost/database/postgres.go:361-398` marks a row before the caller has it. If the answer is lost the payment is
  marked and never returned again (`BifrostOnce.TakenInVainExactlyWhen`, and a run that does it:
  `BifrostLoss.PaymentCanBeLost`). `BifrostOnce.Fates` puts both losses together.
* A listener that starts from the current block of Ethereum, and listeners that start while the counter is zero, can leave
  blocks out (`BifrostCoverage.CoverageExactlyWhen`, and a run that does it: `BifrostCoverage.BlocksCanBeSkipped`).

## Model

| member | source | states |
|---|---|---|
| Price.ContinuedFraction | price/main.go:38-101 | the loop over `fractions` and `number` returns what the recurrence over exact rationals returns, with the same errors, and ends |
| Price.ParsedPrice | price/main.go:28-34 | for every text of a number x that is not negative: a price N/D comes out exactly when x lies between 1/(2^31-1) and 2^31-1; it fits in 31 bits, is in lowest terms, is closer than or as close as every fraction with at most its denominator, is off by less than 1/D^2, and no fraction within 31 bits has a smaller residual than its own, which is how far x D is from N; otherwise the error is that there is no approximation |
| Price.ClosestInRangeExactlyWhen | price/main.go:28-31 | the price that comes out is the closest within 31 bits if and only if the last intermediate fraction that fits is not closer |
| Price.RefusedTexts | price/main.go:39-51 | what is refused for its form is exactly what writes no number with at most twenty digits, the dot being counted, and which of the two errors it gives |
| Price.ParseRecovers | price/main.go:63-101 | every n/d in lowest terms with 1 <= n, d <= 2^31-1 is returned exactly from any text with that value |
| Price.NotAlwaysBestInRange | price/main.go:28-31 | an input for which a closer fraction within 32 bits exists |
| Price.NegativePrice | price/main.go:63-100 | for every text of a negative number x: a price comes out exactly when x < -2^-31; it has the denominator D, and the low 32 bits of the numerator, of a fraction with the smallest residual; and it is in lowest terms and a best approximation exactly when x times D is above -2^31 - 1/2 |
| Price.NegativePriceRecovers | price/main.go:63-100 | a negative n/d in lowest terms with d <= 2^31-1 is returned exactly when n >= -2^31, from any text with that value |
| Price.SmallNegativePrice | price/main.go:63-100 | so every number from -1 to below -2^-31 gives a best approximation |
| Price.NegativePriceWraps | price/main.go:97-100 | -3000000000 is returned as 1294967296/1 |
| Convergents.AdvanceRecovers | price/main.go:72-77 | one turn keeps x = (p h + q h')/(p k + q k') up to sign |
| Convergents.AdvanceFlipsDet | price/main.go:74-77 | one turn turns the determinant h k' - h' k into its negative |
| Convergents.LoopStates | price/main.go:63-89 | every state of the loop has determinant 1 or -1, alternating, and gives back the number that was parsed |
| Convergents.LeftOverShrinks | price/main.go:73-87 | the remaining denominator is smaller after each turn |
| Convergents.DenominatorsGrow | price/main.go:76-77 | after m turns the denominator is at least the m-th Fibonacci number, and fits in 31 bits |
| Convergents.AtMostFortySixTurns | price/main.go:63-89 | no input takes more than 46 turns |
| Approximation.SmallestResidual | price/main.go:72-79 | no fraction with a denominator below the next convergent's has a smaller residual (Lagrange) |
| Approximation.SmallestResidualByNumerator | price/main.go:72-79 | nor does a fraction with a numerator below the next convergent's |
| Approximation.RefusedDenominator | price/main.go:64-81 | when the loop stops early the denominator it refuses is larger than the one it returns |
| Approximation.BestApproximation | price/main.go:57-101 | no fraction p/q with 1 <= q <= D is closer to x than the result N/D |
| Approximation.LowestTermsAndError | price/main.go:91-100 | N and D have no common divisor, and an inexact result is off by less than 1/D^2 |
| Approximation.SucceedsExactlyInRange | price/main.go:64-95 | for x >= 0 the parser succeeds exactly when 1/(2^31-1) <= x <= 2^31-1 |
| Approximation.ExactRecovery | price/main.go:63-89 | the loop reaches n/d itself when n/d is x in lowest terms and fits |
| BestInRange.SmallestInRange | price/main.go:63-89 | of all fractions within 31 bits none has a smaller residual than the last convergent of a number that is not negative |
| BestInRange.BestInRangeExactlyWhen | price/main.go:28-31 | the last convergent is the best of all fractions within 32 bits if and only if the last intermediate fraction that fits is not closer, which is one comparison of products |
| Amount.ParseInt64Meaning | amount/main.go:63-83 | parsing succeeds with i exactly on a well-formed text whose value is i units of 10^-7 and i is an int64 |
| Amount.ParseInt64Errors | amount/main.go:63-83 | an error of form exactly for texts that write no number with at most twenty digits, too precise exactly for numbers that are no whole number of units, out of bounds exactly for the others that are no int64 |
| Amount.RoundTrip | amount/main.go:63-125 | ParseInt64(StringFromInt64(v)) = v for every int64, the smallest included |
| Amount.AmountText | amount/main.go:121-125 | amounts are written with seven decimals, no needless zero in front, and a sign exactly if they are below zero |
| Amount.IntStringAccepted | amount/main.go:85-88 | refused is exactly what writes no number or has a dot |
| Amount.IntStringDivided | amount/main.go:85-113 | digit strings of any length are divided by exactly 10^7 |
| Amount.IntStringAgrees | amount/main.go:85-125 | on the shortest writing of an integer of any size the text function gives the fixed-point printing |
| Amount.BtcCreditParsed | services/bifrost/bitcoin/transaction.go:9-13 | the text of a satoshi value parses to a tenth of it, rounded half away from zero |
| Amount.EthCreditParsed | services/bifrost/ethereum/transaction.go:9-13 | the same for wei and 10^11, and the text parses exactly when the credit is an int64 |
| Amount.CreditsConserved | services/bifrost/bitcoin/transaction.go:9-13 | over any list of n deposits ten times the credits differ from the deposits by at most 5n satoshi |
| Decimal.RoundedIsNearest | amount/main.go:121-125 | printing to a number of decimals is off by at most half a unit, and half a unit goes away from zero |
| Decimal.SetStringOfFloatString | amount/main.go:120-125 | what is printed reads back as the rounded value |
| Decimal.AcceptedTexts | amount/main.go:30-36 | the texts that are accepted are the writings of numbers with at most twenty digits, the dot being counted |
| Decimal.UnreadTexts | amount/main.go:68-71 | of texts of digits and dots, exactly those with two dots or without a digit are not read |
| Decimal.TextIsRead | amount/main.go:68-71 | every writing of a number, of any length, is read as that number |
| Decimal.PrintedText | amount/main.go:121-125 | what is printed has the decimals asked for, no needless zero, and a sign exactly for numbers below zero |
| Crc16Table.TableCorrect | crc16/main.go:59-92 | each of the 256 entries is the register after eight zero bits from the index in its high byte |
| Crc16.TurnFeedsByte | crc16/main.go:98-100 | one turn of the table-driven loop takes the register through the eight bits of the byte |
| Crc16.LookUp | crc16/main.go:99 | the table at i holds the closed form of eight steps |
| Crc16.Checksum | crc16/main.go:95-108 | the table-driven checksum is bit-serial division from a zero register, stored low byte first, for every message |
| Crc16.Validate | crc16/main.go:112-122 | accepts exactly the right two bytes |
| Crc16Division.FeedDivides | crc16/main.go:98-100 | feeding bits is long division by x^16 + x^12 + x^5 + 1, with a quotient |
| Crc16Division.ChecksumIsRemainder | crc16/main.go:95-108 | sixteen bits are the checksum if and only if they are what division of the message times x^16 leaves |
| Crc16Errors.CrcLinear | crc16/main.go:95-108 | the checksum of the exclusive or of two messages of one length is the exclusive or of their checksums |
| Crc16Errors.BurstDetected | crc16/main.go:95-108 | two different messages of one length that differ only within sixteen consecutive bits have different checksums |
| Crc16Errors.TailChangesHighByte | crc16/main.go:95-108 | a change within the last four bits changes the high byte of the checksum |
| Crc16Errors.TailShows | crc16/main.go:95-108 | a change within the last t bits, t at most eleven, shows in the bits of the checksum that are stored twelve bits or more after the t-th last bit |
| Base32.DecodeEncode | strkey/main.go:95 | every string of bytes comes back from its encoding |
| Base32.Alphabet | strkey/main.go:95 | the alphabet in its order |
| Base32.LineBreaksIgnored | strkey/main.go:152-156 | a line break anywhere changes nothing |
| Base32.EncodeDecode | strkey/main.go:152-156 | a readable text is the encoding of what it reads as if and only if it has no line breaks and the dropped bits are zero |
| Base32.ReplaceChar | strkey/main.go:152-156 | replacing a character of a readable text without line breaks keeps it readable, changes only its five bits, and changes nothing exactly when the characters agree on the kept bits |
| StrKey.CheckValidVersionByte | strkey/main.go:129-147 | accepts the four version bytes 3, 18, 19 and 23 times eight, and no other |
| StrKey.Encode | strkey/main.go:80-97 | builds version, payload and checksum in a buffer and encodes it, or refuses the version |
| StrKey.Decode | strkey/main.go:39-67 | the order of the checks and their errors |
| StrKey.RoundTrip | strkey/main.go:39-125 | a key reads back under its own version, under another valid version gives the version error, and Version finds its version; for every payload |
| StrKey.VersionBeforeChecksum | strkey/main.go:45-64 | which error a text gives: a text of another version gives the version error even if its checksum is wrong, and a checksum error means the right version and no payload that the text encodes |
| StrKey.ParsesExactlyWhen | keypair/main.go:75-92 | what parses as an address or else as a seed is exactly what holds one of them with its checksum |
| StrKey.ReadableIsEncoded | strkey/main.go:39-105 | what can be read is the key of what was read if and only if it has no line breaks and the dropped bits are zero; on one line without padding always |
| StrKeyErrors.DamageShows | strkey/main.go:48-62 | twelve neighbouring bits cannot change without the checksum failing, within the data, within the checksum or across the border |
| StrKeyErrors.ThirteenBitsEscape | strkey/main.go:48-62 | thirteen can: for any data there are other bytes with a valid checksum that differ only within thirteen bits across the border |
| StrKeyErrors.TwoReplacementsNoticed | strkey/main.go:39-67 | after replacing or swapping two neighbouring characters the text is refused, or reads as before, which it cannot with lengths divisible by five |
| StrKeyErrors.ReplacementNoticed | strkey/main.go:39-67 | replacing one character makes reading fail under every version, except where the characters agree on the kept bits; with lengths divisible by five there is no exception |
| StrKey.FirstLetter | strkey/main.go:19-34 | keys begin with D, S, T or X by their version, after any line breaks |
| StrKey.NoKeyBeginsWithG | services/bifrost/server/server.go:181-187 | no text that parses as an address or seed begins with 'G' |
| Ledger.AccountId.Equals | xdr/account_id.go:29-42 | is equality |
| Ledger.Asset.Equals | xdr/asset.go:88-106 | is equality |
| Ledger.LedgerKey.Equals | xdr/ledger_key.go:11-36 | is equality, for all four kinds of key |
| Ledger.KeyOfEntry | xdr/ledger_entry.go:6-43 | an entry has a key exactly if it is of the kind of the key and has its account, name, offer or asset |
| Ledger.EntriesShareKey | xdr/ledger_entry.go:6-43 | two entries have the same key exactly if their kinds and these fields agree |
| Ledger.KeyOfChange | xdr/ledger_entry_change.go:12-29 | so for changes: that of an entry has its key, a removal the key it removes |
| Meta.FilterChanges | meta/bundle.go:118-129 | the changes of one key in their order: those about an entry of its kind with its fields, and no others |
| Meta.OperationsMetas | meta/bundle.go:108-115 | the operations of either version |
| Meta.ChangesUpto | meta/bundle.go:133-150 | fee, transaction and operations through maxOp, filtered |
| Meta.Changes | meta/bundle.go:38-40 | the same through operation 2^31-1 |
| Meta.InitialState | meta/bundle.go:18-34 | the first change of the key decides; an entry that is returned is of the kind of the key and has its fields |
| Meta.StateAfter | meta/bundle.go:44-71 | the last change of the key decides; a lone state is the panic; an entry that is returned is of the kind of the key and has its fields |
| Meta.StateBefore | meta/bundle.go:75-105 | the last but one change of the key decides; an entry that is returned is of the kind of the key and has its fields |
| MetaQueries.LogInOrder | meta/bundle.go:133-150 | the log is fee, then transaction, then one operation after the other up to the one asked for |
| MetaQueries.FilteredInOrder | meta/bundle.go:118-129 | the changes that are looked at are all those about the entry with the key, field by field, in their order |
| MetaQueries.FirstDecides | meta/bundle.go:18-34 | the first change in the log about the entry decides the initial state; for every log |
| MetaQueries.LastDecides | meta/bundle.go:44-71 | the last one decides StateAfter; for every log |
| MetaQueries.LastButOneDecides | meta/bundle.go:75-105 | the last but one decides StateBefore; for every log |
| MetaQueries.OnlyOneDecides | meta/bundle.go:82-86 | if there is only one, StateBefore answers that there was no entry |
| MetaQueries.NotFound | meta/bundle.go:21-23 | if there is none, every query answers that nothing was found |
| MetaReplay.ReplayAtKey | meta/bundle.go:118-150 | replay of a whole log, seen at one key, is replay of the filtered log; for every log |
| MetaReplay.StateAfterIsReplay | meta/bundle.go:42-71 | on well-formed logs StateAfter is plain replay through the operation if the log changes the key by then, and the error otherwise |
| MetaReplay.InitialStateIsBefore | meta/bundle.go:15-34 | on well-formed logs InitialState is the entry before the bundle, or the error if the key is not in the log |
| MetaReplay.StateBeforeIsBeforeLast | meta/bundle.go:73-105 | StateBefore is the entry before the last change of the key at or before the operation |
| MetaReplay.StateBeforeExactlyWhen | meta/bundle.go:73-105 | for every operation and key: StateBefore is replay through the operation before if and only if the changes of the key in the log name the same state at two places |
| MetaReplay.StateBeforeIsReplay | meta/bundle.go:73-105 | if the operation changes the key exactly once, StateBefore is replay through the operation before |
| MetaReplay.StateBeforeOfTwo | meta/bundle.go:73-105 | if the operation updates the key twice, StateBefore is the state between the two updates |
| MetaReplay.StateBeforeSkips | meta/bundle.go:73-105 | an operation that does not touch the key does not count |
| MetaReplay.StateBeforeMissesFee | meta/bundle.go:73-105 | a family of logs on which StateBefore is not replay through the operation before |
| BifrostDatabase.PostgresDatabase.CreateAddressAssociation | services/bifrost/database/postgres.go:148-161 | inserts unless address or key is taken, under each outcome |
| BifrostDatabase.PostgresDatabase.GetAssociationByChainAddress | services/bifrost/database/postgres.go:163-178 | the row of chain and address, or nothing |
| BifrostDatabase.PostgresDatabase.AddProcessedTransaction | services/bifrost/database/postgres.go:197-205 | records the key once and says whether it was there |
| BifrostDatabase.PostgresDatabase.IncrementAddressIndex | services/bifrost/database/postgres.go:207-254 | increments, returns the new value cut to 32 bits, and fails from 2^32 on |
| BifrostDatabase.PostgresDatabase.GetBlockToProcess | services/bifrost/database/postgres.go:288-307 | zero, or the block after the saved one |
| BifrostDatabase.PostgresDatabase.SaveLastProcessedBlock | services/bifrost/database/postgres.go:309-345 | saves only larger numbers |
| BifrostDatabase.PostgresDatabase.QueueAdd | services/bifrost/database/postgres.go:349-359 | adds a row unless transaction and asset are queued, without error in both cases |
| BifrostDatabase.PostgresDatabase.QueuePool | services/bifrost/database/postgres.go:363-398 | marks and returns the first row that is not pooled |
| BifrostServer.Server.OnNewBitcoinTransaction | services/bifrost/server/bitcoin_rail.go:23-75 | the tables and the error after one Bitcoin deposit, under each outcome of its three calls |
| BifrostServer.Server.OnNewEthereumTransaction | services/bifrost/server/ethereum_rail.go:18-70 | the same for an Ethereum transaction |
| BifrostServer.Server.ProcessOutputs | services/bifrost/bitcoin/listener.go:143-175 | the outputs that pay a single key, in order, up to the first error |
| BifrostServer.Server.ProcessBitcoinBlock | services/bifrost/bitcoin/listener.go:130-181 | the deposits of a block in order, up to the first error |
| BifrostServer.Server.ProcessEthereumBlock | services/bifrost/ethereum/listener.go:126-158 | the same, without contract creations |
| BifrostServer.Server.ProcessBitcoinBlocks | services/bifrost/bitcoin/listener.go:55-104 | the loop: retry on errors, save, go on even if saving failed |
| BifrostServer.Server.ProcessEthereumBlocks | services/bifrost/ethereum/listener.go:43-100 | the loop, which waits at block zero, saves the number asked for and goes on after the number of the block |
| BifrostServer.Server.StartBitcoinListener | services/bifrost/bitcoin/listener.go:15-53 | starts at the block after the saved one, or at the current one while nothing is saved, and when it fails |
| BifrostServer.Server.StartEthereumListener | services/bifrost/ethereum/listener.go:14-41 | the same, with zero for the current block |
| BifrostServer.Server.PoolTransactionsQueue | services/bifrost/server/queue.go:9-32 | what the loop starts and what it leaves in the queue, for every list of outcomes |
| BifrostServer.Server.GenerateAddress | services/bifrost/server/server.go:178-246 | takes an index, makes the address, binds it to the key |
| BifrostServer.PaysWhom | services/bifrost/bitcoin/listener.go:146-163 | an output counts exactly if it pays to a public key or to the hash of one, with one address |
| BifrostServer.OutputAddsDeposit | services/bifrost/bitcoin/listener.go:143-175 | each such output adds one deposit at the end, with its value and address, and no other output does |
| BifrostServer.TransactionAddsDeposits | services/bifrost/bitcoin/listener.go:140-176 | a block's transactions add their deposits one after the other |
| BifrostServer.DepositsOfBitcoinBlock | services/bifrost/bitcoin/listener.go:130-181 | the deposits of a block are the payments in all of its transactions |
| BifrostServer.DepositsOfEthereumBlock | services/bifrost/ethereum/listener.go:126-158 | the deposits of a block are its transactions that have a receiver |
| BifrostServer.TransferAddsDeposit | services/bifrost/ethereum/listener.go:136-155 | each of them adds one deposit at the end |
| BifrostServer.TurnsAreAboutBlocks | services/bifrost/ethereum/listener.go:54-99 | a turn of a listener's loop is about the deposits of the block that was fetched, with the outcomes it is told |
| BifrostService.DepositQueued | services/bifrost/server/bitcoin_rail.go:23-75 | for both chains: when all calls work, a deposit of at least the minimum to an associated address whose transaction is not recorded is recorded with its address, and the queue gets one row with its hash, asset, amount and the key of the address, unless it has one |
| BifrostService.FaultyHandler | services/bifrost/server/ethereum_rail.go:41-63 | for such a deposit the handler returns without error exactly if all three calls worked, and what is left behind when one failed |
| BifrostService.NotDue | services/bifrost/server/bitcoin_rail.go:24-58 | any other deposit changes nothing, and when the handler returns an error for it |
| BifrostService.FirstDueIsQueued | services/bifrost/bitcoin/listener.go:130-181 | when all calls work, of the deposits of one transaction in a block the first one that qualifies is queued |
| BifrostService.FaultlessBlock | services/bifrost/ethereum/listener.go:126-158 | and a block is handled without error, all its large enough deposits to associated addresses are recorded, and what is recorded for the first time is queued |
| BifrostService.FaultlessListener | services/bifrost/bitcoin/listener.go:62-103 | without faults the listener of either chain takes one block after the other, saves the last one, records every large enough deposit to an associated address, and queues what it records |
| BifrostService.StartsWhatItTakes | services/bifrost/server/queue.go:12-31 | for every list of outcomes: each call that reaches the database takes the first row that waits, those whose answer arrives are started, in order, and the others go on waiting |
| BifrostService.FaultlessPool | services/bifrost/server/queue.go:12-31 | when all calls work the first rows that wait are started, as many as there are turns |
| BifrostService.AddressExactlyWhen | services/bifrost/server/server.go:178-246 | an address is handed out exactly if the key is accepted, both calls work, an index is left, an address can be made, and address and key are new; then it is the one for the next index, and its row, the only one, is new |
| BifrostService.NoAddress | services/bifrost/server/server.go:217-228 | if none is handed out no row is new, unless only the answer was lost |
| BifrostHandling.RedeliveryChangesNothing | services/bifrost/bitcoin/main.go:21-27 | a block handled without error can be handled again, in part and with any faults, without any change |
| BifrostHandling.StartedOnce | services/bifrost/server/queue.go:12-31 | what the loop starts are rows of the queue in their order, each once; they and all rows before them are pooled, and nothing else changes |
| BifrostHandling.LaterOutputsIgnored | services/bifrost/server/bitcoin_rail.go:19-22 | after one output of a transaction was handled the others change nothing |
| BifrostRefinement.HandlerRuns | services/bifrost/server/bitcoin_rail.go:23-75 | a handler's call is a run of at most three steps with the same result, and the steps have the outcomes of its calls |
| BifrostRefinement.TurnRuns | services/bifrost/bitcoin/listener.go:62-103 | a turn of a listener's loop is a run with the same result: the block is fetched, its deposits are handled in turn, and it is finished and saved, or not, with the outcomes of the calls |
| BifrostRefinement.ListenerRuns | services/bifrost/ethereum/listener.go:54-99 | so are all turns together, each with its own outcomes |
| BifrostRefinement.PoolRuns | services/bifrost/server/queue.go:12-31 | turns of the loop that empties the queue are one step each, with the outcome of its call, and the steps return exactly the payments that the loop starts |
| BifrostRefinement.RequestRuns | services/bifrost/server/server.go:178-246 | a request for an address is a run of at most three steps with the same result and the outcomes of its calls; none if the key is not accepted |
| BifrostRefinement.StartRuns | services/bifrost/bitcoin/listener.go:32-49 | a listener starts after the saved block, and while none is saved at the block count, or for Ethereum at zero |
| BifrostProtocol.HistoryOfBlocks | services/bifrost/ethereum/listener.go:54-99 | what the history counts as delivered are the blocks that were fetched, and as handled those that a listener finished |
| BifrostOnce.AtMostOnce | services/bifrost/database/postgres.go:361-398 | in every run QueuePool returns each payment at most once |
| BifrostOnce.Accounting | services/bifrost/server/bitcoin_rail.go:45-68 | in every run a transaction is recorded exactly if it is queued, on its way to the queue by one listener, or lost, and these exclude each other |
| BifrostOnce.LostExactlyWhen | services/bifrost/server/bitcoin_rail.go:46-68 | a transaction is recorded but neither queued nor on its way exactly if a fault hit this transaction between its record and the queue |
| BifrostOnce.OneRow | services/bifrost/database/schema.go:47-62 | a transaction has no row or exactly one row in the queue |
| BifrostOnce.NothingLost | services/bifrost/server/bitcoin_rail.go:46-68 | nothing is lost exactly in the runs without a fault between record and queue, and then everything served is queued or on its way |
| BifrostOnce.TakenInVainExactlyWhen | services/bifrost/database/postgres.go:361-398 | in every run, a payment is marked as pooled and was not returned exactly if some call of QueuePool took it and lost its answer |
| BifrostOnce.Fates | services/bifrost/server/bitcoin_rail.go:46-68 | in every run, a recorded transaction has exactly one of five fates: hit by a fault before the queue, on its way there, waiting there, returned for payment, or taken in vain |
| BifrostOnce.LostForGood | services/bifrost/server/ethereum_rail.go:41-63 | what is lost is never queued later |
| BifrostLoss.DepositCanBeLost | services/bifrost/server/bitcoin_rail.go:46-68 | a run from the start after which an associated, large enough deposit is recorded, its block is handled and passed, and no later run queues it |
| BifrostLoss.PaymentCanBeLost | services/bifrost/server/queue.go:12-31 | a run from the start after which an associated, large enough deposit is queued, and no later run returns its payment |
| BifrostDeposits.HandledDeposits | services/bifrost/server/bitcoin_rail.go:29-68 | a large enough deposit of a handled block that was not passed over is recorded, and unless a fault hit it or a listener is about to queue it, exactly one row of the queue is about it |
| BifrostDeposits.MissedExactlyWhen | services/bifrost/server/bitcoin_rail.go:35-43 | in every run a deposit counts as passed over exactly if some handler looked it up while no association had its address |
| BifrostDeposits.AssociatedDeposits | services/bifrost/server/bitcoin_rail.go:29-68 | so is every deposit whose address was associated before it was passed over, once a block with it was handled |
| BifrostDeposits.DeliveredAgain | services/bifrost/server/ethereum_rail.go:25-63 | and every deposit, passed over before or not, in a block that a listener gets after the address was associated and finishes |
| BifrostCredit.CreditSound | services/bifrost/server/bitcoin_rail.go:30-65 | in every run each row of the queue pays a delivered deposit of at least the minimum, with its value and asset, to the one key of the address it was paid to |
| BifrostCredit.AssociationsStay | services/bifrost/database/schema.go:9-19 | associations are one to one and never change |
| BifrostCredit.BitcoinRowIsWorth | services/bifrost/bitcoin/transaction.go:9-13 | the text of a Bitcoin row parses to a tenth of its deposit, off by at most half a unit |
| BifrostCredit.EthereumRowIsWorth | services/bifrost/ethereum/transaction.go:9-13 | the text of an Ethereum row parses to its deposit's wei over 10^11, off by at most half a unit, if that is an int64 |
| BifrostCoverage.Coverage | services/bifrost/bitcoin/listener.go:62-103 | once the counter is not zero and no listener leaves anything out, every block from there up to the counter was handled without error, in every later run |
| BifrostBlocks.PassedBlocksCredited | services/bifrost/bitcoin/listener.go:62-103 | if then the clients deliver the blocks of the chain, every large enough deposit in each of those blocks was passed over for want of an association, or is recorded and, unless a fault hit it or a listener is about to queue it, in exactly one row |
| BifrostBlocks.AssociatedBlocksCredited | services/bifrost/bitcoin/listener.go:62-103 | and if its address was associated before it was passed over, it is recorded and in exactly one row, with the same two exceptions |
| BifrostCoverage.CounterGrows | services/bifrost/database/postgres.go:309-345 | the saved counter never decreases |
| BifrostCoverage.LeavingOutSkips | services/bifrost/ethereum/listener.go:43-100 | a listener that leaves something out, wherever it is in its loop, can bring the counter past a block nobody handled |
| BifrostCoverage.CoverageExactlyWhen | services/bifrost/ethereum/listener.go:54-99 | whenever the counter is not zero, every later run covers all blocks if and only if no listener leaves anything out |
| BifrostCoverage.BlocksCanBeSkipped | services/bifrost/ethereum/listener.go:43-100 | a run from the start in which two listeners start at zero and the counter passes a block nobody handled |
| BifrostAddresses.IndexNeverRepeats | services/bifrost/database/postgres.go:207-254 | in every run no index is handed out twice for a chain, and none after zero |
| BifrostAddresses.IndicesBelongToOne | services/bifrost/server/server.go:189-215 | two associations of a chain have different indices |

## Left out

- `xdr` marshalling, and the other fields of ledger entries: the queries look at keys only. A key or change of an unknown
  kind, on which the code panics, cannot be written down.
- `SetAccount`, `SetData`, `SetOffer` and `SetTrustline` of `xdr/ledger_key.go`: each overwrites its receiver with a constructor.
- Appending to `b.FeeMeta` in `meta/bundle.go:136-146` may write into spare room of the slice behind it; logs are values here.
- Base32.Decode: does not model that some versions of Go's library do not look at what follows the padding; it is section 6 of
  RFC 4648 with the line breaks and the non-canonical last bits that the library accepts. The same holds of what is proved
  about reading texts with padding: Base32.EncodeDecode, StrKey.Decode and StrKey.ReadableIsEncoded.
- Price.ParsedPrice: is not about negative numbers, which `Price.NegativePrice` and `Price.NegativePriceRecovers` are about.
- Price.NegativePrice: numerators below -2^63, which texts of twenty digits can give, are cut to their low 32 bits here; what
  `big.Int.Int64` does with them is documented as undefined.
- BifrostServer.Server.GenerateAddress: takes as a parameter whether the key is accepted. With the test of
  `services/bifrost/server/server.go:181-187` written out no key is, and nothing more could be said about addresses.
- `price.StringFromFloat64`, and the formats of `big.Rat.SetString` that the regular expressions shut out.
- `MustParse`, `MustEncode` and `MustDecode`: they turn errors into panics.
- The width of block numbers (`uint64`, `int64` in the clients): block numbers are natural numbers.
- Comparing the genesis block or the network number in `Start`: what comes out of it is a parameter.
- Column lengths of the schema: an insert they refuse is one of the failures that any call may have.
- The text of SQL, locks, connection pools: each transaction of the database is one step.
- Addresses from BIP-32 keys and Keccak: any function of chain and index.
- `ConfigureAccount` and Horizon: the model ends where a payment is returned by the queue.
- Server-sent events and their table: nothing else depends on them.
- `ResetBlockCounters`: used by stress tests only; with it the counter would go back.
