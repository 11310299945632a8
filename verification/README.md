# Verified model of the landslidevm runner and its deployment tools

This project models, in Dafny, the stateful parts of a network runner and its tools, and proves what
every run of them keeps:

- the account-sequence protocol of the contract deployers: sign with a local counter, broadcast
  without waiting, poll until the transaction is reported, bump the counter before the next one;
- the submit-and-drain loop of the key-value test, pruning one backing array in place against a store
  that changes while it is queried;
- the two-goroutine shutdown handshake;
- reading code ids out of transaction results, the second implementation of the paired deployment in
  the andromeda tool, the offline payload generator with the opposite bumping discipline, the slice
  aliasing of the key-value transactions, and the per-node port assignment.

`dafny verify dfyconfig.toml` checks everything. Nothing here runs the Go program.

## How it is organised

Values and pure specification first, then the objects that refine it, then theorems.

- `GoWords` fixes the integer widths. `TxEvents` reads transaction results. `ChainModel` is the chain
  that a process faces, `Submission` one sign-broadcast-wait, `DeployCalls` the deployer's calls and
  whole programs (`Run`) as functions of the world.
- `ChainClients`, `ChainServices`, `ContractDeployers` and `Andromeda` hold the classes of the source.
  Each method is proved to change the real fields exactly as the specification function says, so every
  theorem about `Run` is one about the objects.
- `DeployHistory` and `DeployResults` hold of every program in every environment.
  `SequenceDiscipline`, `SequenceTheorems` and `SequenceExactness` say when sequences are right, in runs
  that complete and in runs that end early; `SequenceSuccess` says when programs complete, and
  `StaleSequence` when a wrong signature goes unnoticed. `AndromedaDivergence` exhibits runs in which
  the two deployers part.
- `KVStore`, `KVDrain` and `KVTheorems`: the drain as a function of the answers, the in-place loop
  proved against it, and its behaviour against an honest and against a finished store.
- `Shutdown`, `NodePorts`, `GoSlices`, `PayloadGen` stand alone.

## What is assumed of the surroundings

- The chain executes a transaction only if its sequence is the one expected of the sender, and then
  expects the next; it may execute, refuse or drop anything in its pool at any moment
  (`ChainModel.Deliver`). A query by hash answers with the first inclusion of those bytes. Encoding and
  hashing are injective, so a transaction is its own hash.
- RPC outcomes, reply losses and timing are an arbitrary function of the call number (`Env.weather`),
  as are the content of files and which transactions the SDK builds without error, both of which may
  change between calls. A broadcast may reach the
  pool although its reply is lost. Whether a node takes bytes again that it has already executed is part
  of that function: a node whose mempool cache still holds them answers with an error, one that has
  evicted them, or another node, takes them. The one result that depends on it says so (`Takes`).
- Only this process signs for its accounts. A program starts with an empty pool and everything signed
  so far confirmed (`Settled`), and the chain has room below 2^64 for what the program executes of each
  account, so S + u + 2p below 2^64 for a synchronised list of deploys (`RoomFor`, `Room`). The keyring refuses a name
  or address it already holds, so distinct accounts have distinct addresses.
- In `tools/` a zap `Fatal` ends the process: the model's `Exit`. In `internal/` a `log.Fatal` only
  logs and returns, which the retry loops there rely on.
- The key-value application splits a transaction at its first '=' and overwrites the key; it answers a
  query with the key asked for, and with an empty value when the key is absent.
- Keys and values drawn by the key-value test contain no '=' and are not empty, as the random text it
  draws never does and never is; the theorems that need this say so (`PlainKeys`, `FreshKeys`).
- A node fetched under a name goes by that name, which `RunNodes` states as a hypothesis (`OwnNames`).
- A signal is delivered only while the handler is registered.

## What the proofs found

- The flag discipline is exact, for runs that complete and for runs that end early. A call is refused by
  the guard unless its signer's counter is level (flag set) or one behind (flag clear, or a bare
  `Upload`). Everything signed before the first refused call is right; if that call is reached and can
  sign, its first signing is wrong; if it cannot sign, the process ends there.
- A list that starts with `Upload` right after a synchronisation is wrong: it signs S + 1 where the chain
  expects S, and never completes. Any list of uploads and pairs that starts with a pair is right, with
  the flag set at the start and not set again.
- A stale sequence can go unnoticed, if the node takes executed bytes again. Setting the flag again after
  uploading a file, and deploying the same file at the same gas price, always signs a stale sequence. In
  an otherwise prompt environment the program completes if and only if the file has not changed in
  between and the node takes the bytes, which the chain has already executed, into its pool again: the
  wait then finds the earlier result under their hash. A node that still remembers them answers with an
  error, and a changed file makes bytes that are refused; either way the process ends.
- The two paired deployments are not equivalent. White_whale parses the code id of the instantiate result
  and ends the process if it does not parse; andromeda returns it unparsed and goes on. So both end in the
  same world and agree on completion if and only if every reported id parses, and the worlds alone are
  equal if and only if every id but that of the last pair of the list parses. A successful instantiate
  result that names the contract but carries no code id sets them apart (`DivergenceHappens`).
- Although `UploadAndInstantiate` overwrites the extraction error, no instantiate transaction is ever
  signed with an id that was not extracted: a failed extraction leaves an empty text, which never parses.
- A gas price of 2^63 or more ends the process in a panic; below that gas is exactly twice the fee.
- A drain that finishes during its last attempt is not reported, and that happens
  (`EmptiedUnannounced`). A drain against the finished store
  stops at the first entry whose key was later written with another value.
- Shutdown panics in exactly one situation: a signal delivered between the close of the signals
  channel and `signal.Reset`. The comment above `GracefulShutdown` says that nothing happens if the
  signals channel is closed; the code would go on to send on the second channel. The model follows the
  code, in which only `GracefulShutdown` itself closes the channel, so the case does not arise.
- The gRPC ports are 9090 + i up to 56446 nodes and distinct up to 65536, where uint16 wraps.

## Model

| member | source | states |
|---|---|---|
| SequenceTheorems.AllowedProgram | tools/white_whale/internal/deployer.go:42-141 | Every program of calls that passes the caller's guard, in every environment and commit timing: each signing carries the sequence the chain expects with nothing else in flight; per account the committed and signed sequences are S, S+1, ... without gap or repeat, at most the last signed one open; completion means all committed, and the flag and counters are as predicted |
| SequenceExactness.SyncedDeployProgram | tools/white_whale/internal/query.go:87-104 | Synchronise, then a list beginning with UploadAndInstantiate: all signings right from any initial counter; u uploads and p pairs commit S .. S+u+2p-1; afterwards the flag is clear and the counter is S+u+2p-1 |
| SequenceExactness.EveryRunIsRightUpToTheRefusedCall | tools/white_whale/internal/deployer.go:32-141 | Every run of every program, completed or halted, including SetFirstDeploy, SetAccount and leading Uploads: all signings before the first refused call are right; if that call is reached and can sign, its first signing is wrong and on record; if it cannot sign, the process ends there |
| SequenceExactness.RunWrongIffRefusedCallSigns | tools/white_whale/internal/deployer.go:32-141 | A run signed something wrong if and only if it reached a refused call and that call could sign |
| SequenceExactness.SigningCallRightIffAllowed | tools/white_whale/internal/deployer.go:42-141 | One call, completed or not: if it signs at all, all it signed, and already its first signing, is right if and only if the guard allowed it |
| SequenceExactness.RightCallWasAllowed | tools/white_whale/internal/deployer.go:42-141 | From any world, a call that completed or signed, and signed only right transactions, found its signer's counter as the guard demands |
| SequenceExactness.FirstSigningIsFirst | tools/white_whale/internal/deployer.go:42-116 | Whether a call signs, and what it signs first, can be read off the state before it; a deploying call that signs nothing ends the process |
| SequenceExactness.CompletedProgramRightIffAllowed | tools/white_whale/internal/deployer.go:32-141 | Of a completed program all signings were right if and only if every call was allowed |
| SequenceExactness.LeadingUploadIsWrong | tools/white_whale/internal/deployer.go:58-85 | A list that begins with a bare Upload right after a synchronisation never completes; the one transaction it can sign is at S + 1 where the chain expects S, and it signs it exactly when the synchronisation succeeds and the Upload can be signed |
| SequenceExactness.UnexpectedNeverConfirmed | tools/white_whale/internal/rpc.go:29-49 | A transaction at an unexpected sequence, whose bytes have not succeeded before, is never confirmed, whatever the chain does |
| SequenceExactness.AheadNeverConfirmed | tools/white_whale/internal/rpc.go:29-49 | In particular one signed ahead of the chain's sequence |
| SequenceSuccess.CooperativeProgramSucceedsIffAllowed | tools/white_whale/internal/deployer.go:42-141 | When everything is signed, every reply is good, and every wait sees the head of the pool taken up and executed, at any time and with any good results and ids, a program completes with right signings only if and only if the guard allows it |
| SequenceSuccess.CooperativeProgramRightIffAllowed | tools/white_whale/internal/deployer.go:42-141 | There, with known signers, the signatures alone tell: only right ones if and only if the guard allows the program; an allowed one completes, and any other signs wrong at its first refused call |
| SequenceSuccess.WaitSucceeds | tools/white_whale/internal/rpc.go:29-49 | The polls return a good result of a new transaction if one of them comes after the chain took it up |
| SequenceSuccess.PromptIsCooperative | tools/white_whale/internal/rpc.go:29-49 | Environments that take up the head of the pool at every call, with arbitrary good results, are of this kind |
| StaleSequence.StaleSequenceGoesUnnoticedIffTakenAgain | tools/white_whale/internal/deployer.go:37-40 | Upload, set the flag, deploy the same file again: a stale sequence is always signed, and in an otherwise prompt environment the program completes if and only if the file is unchanged and the node takes the executed bytes into its pool again |
| SequenceExactness.SyncedDeployListAllowedIff | tools/white_whale/internal/deployer.go:42-85 | After a synchronisation a list of deploys passes the guard if and only if it does not begin with a bare Upload; its weight is u + 2p |
| SequenceExactness.DeployListAllowedIff | tools/white_whale/internal/deployer.go:42-85 | The same from a level counter and a set flag, with the final flag and standing |
| SequenceSuccess.AllowedCompletes | tools/white_whale/internal/deployer.go:58-141 | An allowed program does not fail on its own: it completes in every such environment |
| SequenceDiscipline.StepAllowed | tools/white_whale/internal/deployer.go:42-141 | The inductive step: an allowed call signs only right transactions, and on completion flag set still means level and flag clear one behind, per account, with the chain moved by the call's weight |
| SequenceDiscipline.UploadLands | tools/white_whale/internal/deployer.go:58-85 | An Upload from a counter one behind signs right and leaves it one behind, one transaction later |
| SequenceDiscipline.PairLands | tools/white_whale/internal/deployer.go:87-141 | A pair from a level counter with the flag set, or one behind with it clear, signs right twice and ends one behind with the flag clear |
| SequenceDiscipline.SyncAllowed | tools/white_whale/internal/query.go:69-104 | A synchronisation makes the account level, whatever its counter was, and touches no other account |
| SequenceTheorems.SubmissionGapless | tools/white_whale/internal/uploader.go:58-80 | A right submission extends the record of signed and committed sequences by one number, or leaves exactly one open |
| SequenceTheorems.RunGapless | tools/white_whale/internal/deployer.go:42-141 | The record has no gap or repeat at every point of a run that an allowed program can stop at |
| DeployHistory.ProgramLogged | tools/white_whale/internal/deployer.go:87-141 | In every run of every program nothing is signed before everything signed earlier was confirmed with code 0, and every instantiate transaction uses the number extracted from the store result confirmed just before it |
| DeployHistory.StoreLogged | tools/white_whale/internal/deployer.go:100-110 | The overwritten extraction error is harmless: an id is obtained only from a successful extraction and is the number its text denotes |
| DeployResults.CompletedPair | tools/white_whale/internal/deployer.go:87-141 | A returning pair confirmed exactly the file's bytes at the asked gas price and then the payload for the id the first result reports, at 2000000, at consecutive sequences; it returns what the second result reports |
| DeployResults.CompletedUpload | tools/white_whale/internal/deployer.go:58-85 | A returning Upload confirmed exactly the file's bytes at the successor of the counter, returns the reported id, and leaves the flag |
| DeployResults.SubmitSignsIff | tools/white_whale/internal/uploader.go:58-62 | A submission signs exactly the transaction of the account's counter if the key is held, the price does not panic and the SDK takes it, and does nothing at all otherwise |
| DeployResults.DeployContractSignsIff | tools/white_whale/internal/uploader.go:32-62 | It signs the file's bytes for the account's address, and does nothing for an unreadable or empty file, an unknown account or a refused transaction |
| DeployResults.InstantiateContractSignsIff | tools/white_whale/internal/uploader.go:84-108 | The same for instantiation |
| Submission.SubmitRight | tools/white_whale/internal/uploader.go:32-124 | From the expected sequence one submission signs right, and if the process goes on exactly this transaction was executed |
| Submission.WaitFollowsFate | tools/white_whale/internal/rpc.go:29-49 | Polling returns success only if the awaited transaction was executed, at the expected sequence, for any interleaving of chain and polls |
| Submission.SubmitShape | tools/white_whale/internal/uploader.go:32-124 | Whatever the counters: at most one signing, no counter touched, confirmed exactly when the process goes on, and only with code 0 |
| Submission.WaitShape | tools/white_whale/internal/rpc.go:29-49 | At most n polls are made, and a returned result has code 0 |
| ChainModel.AdvanceLone | tools/white_whale/internal/rpc.go:12-49 | A transaction broadcast to an idle pool is waiting, dropped, refused or executed, and executed only at the expected sequence |
| ChainModel.AdvanceKeepsPast | tools/white_whale/internal/query.go:69-84 | Whatever is in its pool and whatever it does, the chain by itself keeps every success at a sequence it has moved past |
| ChainModel.SuccessMeansExecuted | tools/white_whale/internal/rpc.go:29-49 | A code-0 answer for bytes that had not succeeded before means they were executed |
| ChainClients.ChainClient.constructor | tools/white_whale/internal/chain_client.go:52-70 | A new client has no accounts and no keys |
| ChainClients.ChainClient.AddAccount | tools/white_whale/internal/chain_client.go:72-93 | Adds exactly the given account under its derived address, and fails exactly when derivation fails or the keyring holds the name or address |
| ChainClients.ChainClient.GetAccount | tools/white_whale/internal/chain_client.go:100-104 | Answers the map's entry, and nothing for an unknown name |
| ChainClients.ChainClient.IncreaseSequence | tools/white_whale/internal/chain_client.go:106-116 | Increments one account's sequence with uint64 wrap, changes nothing else, and fails exactly for an unknown name |
| ChainClients.ChainClient.SetSequence | tools/white_whale/internal/chain_client.go:118-128 | Sets one account's sequence, changes nothing else, and fails exactly for an unknown name |
| ChainClients.ChainClient.GetSignedTxBytes | tools/white_whale/internal/chain_client.go:130-182 | Signs with the number and sequence now in the account map, the override or 100000 as fee and exactly twice that as gas, without wrap; panics exactly for overrides from 2^63; fails exactly for an unknown key or account, or when the SDK refuses that very transaction |
| ChainServices.ChainService.constructor | tools/white_whale/internal/uploader.go:21-27 | A new service on a client and a connection has signed and confirmed nothing |
| ChainServices.ChainService.BroadCastTxAsync | tools/white_whale/internal/rpc.go:12-27 | One broadcast: it succeeds exactly when the reply arrives with code 0; the transaction is in the pool when the node took it, also when the reply is lost |
| ChainServices.ChainService.WaitTx | tools/white_whale/internal/rpc.go:29-49 | If poll k of thirty is the first answered, its result is returned when the code is 0 and the call ends otherwise, after exactly k + 1 polls; it ends after exactly thirty when none is answered |
| Submission.WaitFindsFirst | tools/white_whale/internal/rpc.go:32-46 | With any number of polls, the first answered one decides |
| Submission.WaitAnswers | tools/white_whale/internal/rpc.go:29-49 | The wait that the theorems about submissions speak of is that of thirty polls |
| ChainServices.ChainService.DeployContract | tools/white_whale/internal/uploader.go:29-81 | All effects on accounts, ledger and record, and every early exit, equal the specification |
| ChainServices.ChainService.InstantiateContract | tools/white_whale/internal/uploader.go:83-124 | The same for instantiation |
| ChainServices.ChainService.UpdateAccountSequence | tools/white_whale/internal/query.go:15-104 | Sets the account's counter to the sequence the chain reports exactly when the account is known and the reply arrives with code 0 and decodes; a value that cannot be decoded is returned as an error, every other failure ends the process, and neither touches a counter |
| ChainServices.ChainService.AddressesAreOwn | tools/white_whale/internal/chain_client.go:72-93 | The accounts of a client have distinct addresses held under their own names, as the sequence theorems need |
| ContractDeployers.ContractDeployer.constructor | tools/white_whale/internal/deployer.go:21-30 | Starts with the flag set |
| ContractDeployers.ContractDeployer.SetAccount | tools/white_whale/internal/deployer.go:32-35 | Replaces the signer and nothing else |
| ContractDeployers.ContractDeployer.SetFirstDeploy | tools/white_whale/internal/deployer.go:37-40 | Replaces the flag and nothing else |
| ContractDeployers.ContractDeployer.IncreaseSequence | tools/white_whale/internal/deployer.go:42-56 | Only clears the flag the first time, bumps the signer's counter afterwards |
| ContractDeployers.ContractDeployer.Upload | tools/white_whale/internal/deployer.go:58-85 | The object's call equals the specified call on world and result; the flag is untouched |
| ContractDeployers.ContractDeployer.UploadAndInstantiate | tools/white_whale/internal/deployer.go:87-141 | The object's call equals the specified call on world, flag and result |
| TxEvents.ExtractResultTxDetails | tools/white_whale/internal/deployer.go:143-175 | For every event list: only the first event of kind "store_code" or "instantiate" counts, the last attribute of each key in it is taken, and extraction fails exactly when there is no such event or both values are empty |
| TxEvents.DetailsOfFirstRelevant | tools/white_whale/internal/deployer.go:151-172 | The details that the theorems about deployments speak of are that extraction |
| TxEvents.UsualResult | tools/white_whale/internal/deployer.go:151-172 | In the usual shape of a result the leading "message" event is skipped |
| TxEvents.ParseUintIff | tools/white_whale/internal/deployer.go:78-82 | A text parses to n if and only if n is below 2^64 and the text is the decimal text of n, digit by digit from n / 10 and n % 10, behind any number of zeros |
| TxEvents.ParseUintFailsIff | tools/white_whale/internal/deployer.go:105-110 | Parsing fails if and only if the text is empty, has a character that is no digit, or is the text of a number from 2^64 on |
| TxEvents.ParseUintInstances | tools/white_whale/internal/deployer.go:78-82 | "12" is 12, "00907" is 907; the empty text, "0x1f" and "-1" fail |
| TxEvents.LastValueIsLast | tools/white_whale/internal/deployer.go:153-160 | The value read for a key is that of its last attribute, or empty when there is none |
| Andromeda.Tool.constructor | tools/andromeda/main.go:27 | The global flag starts set |
| Andromeda.Tool.UploadAndInstantiate | tools/andromeda/main.go:392-447 | The tool's function with its global flag equals its specification on world, flag and result |
| Andromeda.CompletedDeploy | tools/andromeda/main.go:392-447 | A returning deployment confirmed exactly the file's bytes and then the payload for the id the first result reports, at consecutive sequences, and returns the very texts of the second result, parsable or not |
| Andromeda.SameStep | tools/andromeda/main.go:401-446 | From equal counters and flags one pair leaves the same world and flag in both tools; they differ only in that white_whale insists on parsing the last id |
| Andromeda.SameRun | tools/andromeda/main.go:392-447 | For every list of pairs in every environment: both tools end in the same world and agree on completion if and only if every reported code id parses; the worlds alone are equal if and only if every id but that of the last pair does; the flags always agree and white_whale's signings are a prefix of andromeda's |
| Andromeda.ToolMoves | tools/andromeda/main.go:401-429 | With the flag clear, a non-empty list always leaves another world behind: it signs, or at least bumps the counter |
| Andromeda.OneReportEach | tools/andromeda/main.go:392-447 | The tool reports once for each pair it completed, for all of them exactly when it ran to the end |
| AndromedaDivergence.OnePairDiverges | tools/white_whale/internal/deployer.go:122-140 | If the instantiate result carries no code id, one pair returns in andromeda and ends the process in white_whale |
| AndromedaDivergence.TwoPairsEndApart | tools/andromeda/main.go:437-446 | If another pair follows, the two tools end in different worlds, whatever it meets |
| AndromedaDivergence.DivergenceHappens | tools/andromeda/main.go:437-446 | A concrete new chain, account and environment on which both happen |
| PayloadGen.GeneratePayloads | tools/payload_gen/main.go:50-64 | The run on the client equals its specification in payloads, accounts and how far it gets |
| PayloadGen.GeneratedSequence | tools/payload_gen/main.go:50-64 | Each payload carries start plus the position of its slot, skipped slots included |
| PayloadGen.GeneratedContent | tools/payload_gen/main.go:50-64 | Each payload carries its slot's message and fee, twice that as gas, and the account's number |
| PayloadGen.GeneratedCounter | tools/payload_gen/main.go:50-64 | The counter of a completed run ends one past the last slot, all slots with a message are signed, and no other account or field changes |
| PayloadGen.GeneratorBumpsAfter | tools/payload_gen/main.go:50-64 | A completed run that skips no slot signs the sequences of the bump-after discipline and ends at its counter |
| PayloadGen.SameSequences | tools/payload_gen/main.go:50-64 | Bumping after signing and bumping before all but the first sign the same sequences for every start and number, wrap included; final counters differ by one unless nothing was signed |
| PayloadGen.BumpAfterIsPlus | tools/payload_gen/main.go:50-64 | The bump-after discipline in closed form: start, start + 1, ..., wrap included |
| PayloadGen.DeployersSignAsGenerator | tools/white_whale/internal/deployer.go:42-141 | A completed deployer program of u uploads and p pairs, and a completed generator run over u + 2p slots from the same start, sign the same sequences, and the deployer's counter ends one behind the generator's |
| KVDrain.ABCIQuery | internal/kvstore.go:85-108 | No error exactly when the node answered with code 0, this key and this value |
| KVDrain.SubmitAll | internal/kvstore.go:38-60 | Broadcasts key, '=', value of each draw in order, stops at the first without a code-0 reply, and otherwise holds draw i in cell i |
| KVDrain.AllTakenIff | internal/kvstore.go:44-52 | The submission loop finishes if and only if every text is replied to with code 0 |
| KVDrain.DeleteAt | internal/kvstore.go:79 | Removal within one backing array, cell by cell: earlier cells stay, later ones move down, and the cell that falls off the end and all behind it keep their value |
| KVDrain.DeletionPopsTheHead | internal/kvstore.go:71-81 | Deleting cell 0 in place pops the head of the queue, and the stale tail cells all hold the last entry |
| KVDrain.PruneAttempt | internal/kvstore.go:71-81 | The inner loop with its `i--` and `break` refines dropping found heads of a sequence |
| KVDrain.DrainInPlace | internal/kvstore.go:65-82 | The outer loop equals the specified drain in live cells, queries and announcement |
| KVDrain.GenerateTXSAsync | internal/kvstore.go:30-83 | The whole function: what it broadcasts; the live cells are the last draws and the stale cells the very last; removals, queries and announcement are those of thirty attempts, with at most num + 30 queries; and against a node that has applied exactly the texts sent, the list is emptied and announced if and only if no key was drawn with two values |
| KVDrain.RoundTrip | internal/kvstore.go:38-107 | The last of these, about the texts and the drain |
| KVStore.DrainShape | internal/kvstore.go:65-82 | Whatever the node answers, every removed entry was found by a query with its exact key and value, each query removes an entry or ends its attempt, and at most one query per attempt misses |
| KVStore.AnnouncedIffSomeAttemptBeginsEmpty | internal/kvstore.go:65-70 | Success is announced if and only if some attempt begins with an empty list |
| KVStore.AnnouncedIff | internal/kvstore.go:65-70 | In terms of the last attempt: a drain that finishes during it is not announced |
| KVStore.EmptiedUnannounced | internal/kvstore.go:65-82 | It happens: a node that is down for 29 queries and then has the one entry; the list is emptied and nothing announced |
| KVStore.LastWriterWins | internal/kvstore.go:85-108 | After applying all transactions in order a key has the value of its last writer |
| KVTheorems.EveryAttemptTracksPrefix | internal/kvstore.go:65-82 | For any commit order, each attempt stays within the prefix committed when its last query was answered, and without faults reaches at least the prefix committed when it began |
| KVTheorems.DrainRemovesOnlyCommitted | internal/kvstore.go:65-82 | Over the whole drain no entry is removed past the longest prefix committed when its last query was answered |
| KVTheorems.DrainCompletes | internal/kvstore.go:65-82 | If all is committed when some attempt but the last begins without faults, the list is emptied and success announced |
| KVTheorems.FaultlessAttemptStopsAtPrefix | internal/kvstore.go:71-81 | Without faults an attempt stops exactly at the prefix committed when its last query was answered |
| KVTheorems.HitIffCommitted | internal/kvstore.go:85-108 | With distinct new keys a query succeeds if and only if it does not fail and its entry was committed |
| KVTheorems.HitIffLastCommitted | internal/kvstore.go:85-108 | For colliding keys too: a query succeeds if and only if it does not fail and the last committed entry with its key has its value, or none has the key and the store had the value from the start |
| KVTheorems.DrainRemovesOnlyMatched | internal/kvstore.go:65-82 | For colliding keys too: every removed entry was matched, when the last query was answered, by a committed entry with the same key and value, or by the store from the start |
| KVTheorems.DrainStopsAtOverwritten | internal/kvstore.go:65-107 | Against the finished store, whatever the commit order, the drain stops exactly at the first entry overwritten in that order, and empties the list, and announces it, if and only if no key was submitted with two values |
| KVTheorems.DrainStopsAtOverwrittenLater | internal/kvstore.go:38-107 | The same when transactions commit in the order submitted: it stops at the first entry that a later one overwrote |
| KVTheorems.StaleOnFinishedStore | internal/kvstore.go:85-108 | On the finished store an entry is stale if and only if it was overwritten, and none is if and only if no key has two values |
| KVTheorems.OverwrittenIffStale | internal/kvstore.go:85-108 | An entry's query fails on the finished store if and only if the last committed entry with its key has another value |
| GoSlices.Append | internal/helpers.go:53 | Go's append: in place when the capacity suffices, else in a new array; the first operand keeps its bytes |
| GoSlices.MakeTxKV | internal/helpers.go:49-54 | Whatever the spare capacities, key and value keep their bytes and the text is key, '=', value; it shares the key's array exactly when the capacity suffices |
| GoSlices.SplitRecoversIff | internal/helpers.go:49-54 | Splitting the text at the first '=' gives key and value back if and only if the key has no '=' |
| Shutdown.ShutdownPanicsIffSignalInWindow | internal/helpers.go:23-47 | Over all interleavings Stop is called at most once and only after a signal was received, each channel is closed at most once, and the process panics if and only if a signal lands between the close and signal.Reset |
| Shutdown.ShutdownCompletes | internal/helpers.go:23-47 | At most nine program steps; a run that is stuck although a signal was sent has finished, with one Stop and both channels closed |
| Shutdown.SignalsAreDelivered | internal/helpers.go:24-35 | Signals can arrive exactly from Notify to Reset, and every one that does not panic is delivered |
| Shutdown.StepKeepsInv | internal/helpers.go:23-47 | The inductive invariant, and that a signal in the window is the only step that panics |
| Shutdown.StuckIff | internal/helpers.go:24-40 | No step of the program is enabled exactly when it has finished or still waits for a first signal |
| Shutdown.WindowIsReachable | internal/helpers.go:26-30 | A run that does panic |
| NodePorts.RunNodes | cmd/main.go:188-277 | Both loops: the array stored for node i is the VM configuration around the application configuration with its API port as RPC port and the advertised 9090 + i as gRPC port, in terms of the encoders alone; no two nodes share an array; the run succeeds exactly when every step does |
| NodePorts.BytesTellPorts | internal/config.go:14-22 | With injective encoders the stored bytes tell both ports |
| NodePorts.ConfigureNodes | cmd/main.go:200-235 | The two configuration objects, one holding a reference to the other's JSON, are overwritten for every node, and every array stored for an earlier node keeps its bytes |
| NodePorts.AdvertiseNodes | cmd/main.go:258-274 | The second loop advertises 9090 + i, modulo 2^16, for node i |
| NodePorts.PortsIff | cmd/main.go:203-235 | The ports are 9090 + i if and only if there are at most 56446 nodes, and distinct if and only if at most 65536 |

## Left out

- RPC and HTTP transport, timers, file copying, the network runner and command-line setup: replies and readiness are arbitrary inputs.
- Cryptography, bech32, protobuf and JSON encoding: a signed transaction is a record and its own hash; the chain id, denomination, label and funds are constants of it.
- A caller that goes on after a synchronisation returned an error: both tools' `main` functions end the process then, and so do programs here.
- Consensus, mempool ordering, bank and gas accounting and contract execution: only the sequence rule, the pool and the index of results are modelled; a result's events are arbitrary.
- Other processes signing for the same accounts, and runs whose pool is not empty at the start.
- Counters that wrap at 2^64 during a run: the client's increment wraps in the model, but the sequence theorems require room below 2^64 on the chain.
- Deferred calls after a panic of `Stop`, and signals that arrive while no handler is registered, which end the process by default.
- The listener's log line, and the second and third signal kinds: all kinds are one.
- The other fields of the VM configuration: they are the same for every node and part of its encoder.
- Repeated node names, for which the stored configurations overwrite one another.
- The error results of the generator's later increments, which the source ignores and which cannot occur for an account that exists.
- The fixed deployment scripts in the two tools' `main` functions, genesis data, hard-coded payloads and balance tables: finite constants.
- `Info`, `Commit`, `Query`, `CheckTX`, balance queries and the loops of `RunWASMTests`: straight-line checks of remote answers.
- The random text of keys and values: drawn pairs are arbitrary inputs.
