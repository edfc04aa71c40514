# PPREV off-chain verification

A Dafny model of the off-chain half of PPREV, a protocol in which a prover notarises a TLS session with a
registry and a notary signs statements about what the registry answered. The model covers the code whose
correctness the rest depends on:

- `Schedule`, `Pump`, `Driving`, `Link`: the emulated network link of the prover. The delivery schedule is a class; the
  concurrent reader and writer are a state machine over their single steps; `Driving` is what a scheduler's turns do to
  it, and that fair turns carry a whole source over; the class `Link` runs the two loops on mutable fields under an
  arbitrary scheduler.
- `Calendar`, `Settlement`: the two calendar algorithms against a day-by-day calendar, and the settlement date
  rule that the policy verifier and the mock notary decide separately.
- `NonceFile`, `NonceStore`: the append-only nonce file, its parser, and every run of a notary that starts, signs,
  exits and loses power.
- `Merkle`, `Attestation`: the tree over an attestation's body fields and the encoding that compares its root.
- `Pieces`, `Layout`, `LayoutLaws`, `LayoutGeometry`, `Shape`, `TitleShape`: the fixed-layout title response, its
  byte ranges, and the notarised exchange derived from it; `RecordLayout`, `RecordLaws`: the same for the records
  of the Apply and Settle sources; `ResponseText`: the whole text of either response.
- `Field`, `Circuit`: field-element encodings, circuit parameters, public inputs.
- `Presentation`, `Prover`: the policy verifier's checks, and why an honest prover passes them.
- `Signing`, `Evidence`, `PolicyVerifier`, `MockNotary`, `NotaryRuns`: the three signing phases over one nonce store,
  what each statement needs value by value, and whole lifetimes of both notaries.
- `Session`: the race that ends a notarisation attempt, and the retry loop.
- `HttpRequest`, `HttpPrinting`: the registry's incremental request parser and read loop.
- `Probe`: the runs of bytes in which two responses differ.
- `Wrappers`, `Bytes`, `Text`: results, bytes and UTF-8, searching, splitting and numerals.

To verify the project: `dafny verify dfyconfig.toml` (Dafny 4.11).

## Conventions and assumptions

- Code that changes state is a class or a method with loops, proved against a function or a declarative predicate;
  what the code promises is then proved about those as lemmas.
- Rust `Result` and `Option` values become `Result` and `Option`; error texts are dropped, error cases are kept.
- Hashes, signatures, EIP-712 digests, Groth16 verification, Poseidon and the verification of a presentation against
  trusted roots are parameters. No collision-freeness is assumed: binding results hand over the collision otherwise.
- What a verified presentation yields is `Presentation.Output`. The checks require, as the verification library
  ensures, that its transcript has the attested length and authenticates only bytes it holds (`Consistent`).
- Link times are exact reals; the original rounds `f64` seconds. Taking room, stamping and queueing a chunk, and
  notifying are separate steps; stamping and queueing are one, and so are finding the queue empty and starting to wait
  (both loops run in one task, which only suspends at its awaits). A notification wakes the waiting writer, or is
  stored, once, for the next wait. The semaphore has one acquirer, the reader.
- A successful sync confirms the line appended before it. One kind of power loss keeps the whole file up to that line
  and may leave any bytes behind it; the other (`Wreckage`) keeps nothing but the confirmed lines, with any bytes
  around them. Safety holds under both.
- Unsigned and signed 64-bit values are `U64` and `I64`. Additions that can leave their range wrap around, as they do
  in the repository's release build (a build with overflow checks aborts there instead): the mock notary's local time
  (`MockLocalTime`) and the clock tolerance (`LatestConnection`). In the request parser an overflowing body end
  aborts in any build (`Aborts`), since a wrapped end lies before its start.
- No error of a library holds a `PreprocessingStalled`: the prover makes that error itself, in two places.
- `hide` statements keep function bodies out of proofs that do not need them; nothing is assumed.

## What turned out to be conditional

- The two settlement date rules do not accept the same dates for every input: `Settlement.WrappedEngagement` and
  `Settlement.WrappedOffset` each give one where they differ, and `Settlement.AcceptAlikeIff` says exactly, in terms of
  the three arguments, when they accept alike.
- Counting commitments proves a bijection exactly when the expected targets are distinct
  (`Presentation.CountsMeanPermutation`); every layout's are (`Presentation.ExpectedDistinct`).
- A request is answered exactly if some read ends between the end of the request and the size limit
  (`HttpRequest.ServeStream`); within the limit the way the stream is cut does not matter.
- The bound of the link's queue is needed: a smaller queue deadlocks (`Pump.SmallQueueBlocks`).
- A write that stops inside a line costs no second signature, but no later start can read the file
  (`NonceStore.TornWriteEndsRestarts`), unless a power loss drops the torn bytes (`NonceStore.WreckageCanReopen`).
- Identifiers of different lengths can open one counterparty commitment (`MockNotary.LeadingZeroOpensToo`), and lists
  of different lengths can share a Merkle root (`Merkle.LengthsCanCoincide`).

## Model

| member | source | states |
|---|---|---|
| `Schedule.FreeAtClosedForm` | offchain/crates/pprev-prover/src/netem.rs:60-68 | after any calls the link is free at the maximum, over all chunks k, of the read time of k plus the serialisation times of k and all later chunks |
| `Schedule.TransmissionsDoNotOverlap` | offchain/crates/pprev-prover/src/netem.rs:43-68 | chunks leave one at a time, none before it was read, and arrive in order |
| `Schedule.BulkTransfer` | offchain/crates/pprev-prover/src/netem.rs:435-445 | chunks read together finish after total size over bandwidth plus delay |
| `Schedule.Schedule.DeliverAt` | offchain/crates/pprev-prover/src/netem.rs:60-68 | the delivery time returned is the closed form over the whole history plus the delay |
| `Schedule.BitsOnTheLink` | offchain/crates/pprev-prover/src/netem.rs:35-40 | the time a chunk holds the link, times the bits per second, is eight times its bytes; without a limit it is zero |
| `Schedule.ValidLinks` | offchain/crates/pprev-prover/src/netem.rs:136-146 | which links are refused: no bandwidth at all, or a queue outside 16384 to 1073741824 bytes |
| `Pump.StepKeepsInv` | offchain/crates/pprev-prover/src/netem.rs:79-132 | every step of reader, writer, clock or socket keeps FIFO order, conservation of room, the counter, the schedule's stamps and the absence of lost wake-ups |
| `Pump.LinkIsSafe` | offchain/crates/pprev-prover/src/netem.rs:79-132 | over every interleaving: delivered bytes are a prefix of those read, permits plus queued bytes plus held chunks equal the queue size, and after the shutdown everything read was delivered and counted |
| `Pump.NoByteIsEarly` | offchain/crates/pprev-prover/src/netem.rs:88-108 | the writer begins no chunk before the closed form of its delivery time |
| `Pump.NeverStuck` | offchain/crates/pprev-prover/src/netem.rs:88-146 | with validated parameters, some side can step, or the writer waits for a delivery time only, or the link is empty with all room free and waits for its source |
| `Pump.SmallQueueBlocks` | offchain/crates/pprev-prover/src/netem.rs:136-146 | a queue smaller than a chunk has a run after which nothing but time passes, so the bound of validation is needed |
| `Pump.InternalStepsFinish` | offchain/crates/pprev-prover/src/netem.rs:79-132 | every step of either side uses up a bound, so no interleaving goes round in circles |
| `Pump.Drains` | offchain/crates/pprev-prover/src/netem.rs:79-132 | from every reachable state, steps of the two sides and passing time alone deliver everything read, and end the link if its source ended |
| `Pump.NoLivelock` | offchain/crates/pprev-prover/src/netem.rs:79-132 | without new input, the number of steps of both sides is bounded over every run |
| `Pump.QuietIsDrained` | offchain/crates/pprev-prover/src/netem.rs:79-132 | where neither side can step and no delivery time is awaited, everything read has been delivered, and the link has ended if its source had |
| `Pump.EveryScheduleDrains` | offchain/crates/pprev-prover/src/netem.rs:79-132 | over every schedule of the two sides and the clock, from every reachable state: the sides take boundedly many steps, and once the link is quiet everything read has been delivered and the link has ended if its source had |
| `Driving.TurnPays` | offchain/crates/pprev-prover/src/netem.rs:79-132 | a turn without a failure keeps the link's invariant and its stamps within reach of the clock, and whenever a side moves it uses up a bound in the length of the source |
| `Driving.FairTurnsDeliver` | offchain/crates/pprev-prover/src/netem.rs:79-132 | 72 turns for each byte of the source and 66 more, taken by reader, writer and clock in rotation without a failure, deliver and count the whole source, free all room and end the link |
| `Driving.FailureEndsIt` | offchain/crates/pprev-prover/src/netem.rs:79-132 | a socket that fails fails the link, and no later turn changes anything |
| `Link.Link.PushBack` | offchain/crates/pprev-prover/src/netem.rs:109-129 | the chunk, or the end marker, gets the schedule's stamp and joins the queue |
| `Link.Link.RunReader` | offchain/crates/pprev-prover/src/netem.rs:109-129 | the reader's loop moves exactly unless it waits for more room than is free; the step is the one due, and keeps the invariant |
| `Link.Link.RunWriter` | offchain/crates/pprev-prover/src/netem.rs:88-108 | the writer's loop moves exactly unless it waits unwoken or for a delivery time that has not come; the step is the one due, and keeps the invariant |
| `Link.Link.TakeTurn` | offchain/crates/pprev-prover/src/netem.rs:79-132 | one turn moves its side exactly unless that has ended or must wait, takes from the source what it reads, and leads where the turn leads |
| `Link.Link.Drive` | offchain/crates/pprev-prover/src/netem.rs:79-132 | both loops under any scheduler end where its turns lead, by a run of the step system: the output is a prefix of the source, no room is lost, a normal end means that the whole source was delivered and counted and all room is free, and fair turns, a number linear in the source's length, do end it |
| `Calendar.NextDayCounts` | offchain/crates/pprev-notary/src/mock.rs:298-304 | the day number of a date's successor is one more, for every date |
| `Calendar.CountOfReference` | offchain/crates/pprev-notary/src/mock.rs:264-305 | the day count agrees with a day-by-day Gregorian calendar from 1970-01-01, in both directions of time |
| `Calendar.CivilInvertsCount` | offchain/crates/pprev-types/src/calendar.rs:9-21 | days-to-date inverts date-to-days on every date |
| `Calendar.CivilFromDaysIsReference` | offchain/crates/pprev-types/src/calendar.rs:9-21 | days-to-date is the day-by-day calendar, for every day, and date-to-days inverts it |
| `Calendar.SuccessorDay` | offchain/crates/pprev-types/src/calendar.rs:9-21 | the date of day n+1 is the calendar successor of the date of day n |
| `Settlement.PrintThenParse` | offchain/crates/pprev-prover/src/bin/gen-phase-sample.rs:111-116 | printing the date of a day as YYYY-MM-DD and parsing it gives the day back |
| `Settlement.ParseThenPrint` | offchain/crates/pprev-notary/src/mock.rs:264-305 | every date string accepted is the printed form of the day it denotes |
| `Settlement.DayNumberIff` | offchain/crates/pprev-notary/src/mock.rs:264-296 | a string is read as the date of its digits exactly if it has the shape of one and is one, and refused as ill-formed or as no date otherwise |
| `Settlement.YmdIncreases` | offchain/crates/pprev-types/src/calendar.rs:9-21 | later days have larger Y * 10000 + M * 100 + D |
| `Settlement.YmdOfDaysDefined` | offchain/crates/pprev-types/src/calendar.rs:19-20 | a day converts exactly if it lies in the years 0000 to 9999, and then fits 27 bits |
| `Settlement.EngagementDate` | offchain/crates/pprev-types/src/calendar.rs:25-34 | when expiry less lock window plus offset is hour h, minute mi, second s of a date in the years 0 to 9999, counted as ((days * 24 + h) * 60 + mi) * 60 + s, the engagement day is that date in both pieces of code |
| `Settlement.EngagementHasDate` | offchain/crates/pprev-types/src/calendar.rs:25-34 | and every engagement day is that of such a date and time of day |
| `Settlement.SettlesFromEngagement` | offchain/crates/pprev-notary/src/mock.rs:216-228 | a record date passes either rule exactly if it is not before the local date of the engagement, year by year, month by month, day by day |
| `Settlement.RulesAgree` | offchain/crates/pprev-notary/src/mock.rs:216-228 | whenever the engagement day exists, the two settlement rules give the same answer for every record date |
| `Settlement.AcceptAlikeIff` | offchain/crates/pprev-notary/src/mock.rs:216-228 | the two rules accept the same record dates exactly if the lock is longer than the expiry, or the wrapped local day lies past the last printable date, or nothing leaves the signed range and the day does not lie before the first |
| `Settlement.WrappedEngagement` | offchain/crates/pprev-notary/src/mock.rs:220-224 | an engagement time past the signed range is refused by one rule for every date and accepted by the other for every date |
| `Settlement.WrappedOffset` | offchain/crates/pprev-notary/src/mock.rs:223 | the same disagreement where only the zone's offset leaves the signed range |
| `Settlement.EngagementDayInRange` | offchain/crates/pprev-types/src/calendar.rs:25-34 | none of the conversion's intermediate values overflows on a day that the engagement rule converts, and its result fits 32 bits |
| `NonceFile.RecordedIsLoaded` | offchain/crates/pprev-notary/src/nonces.rs:21-41 | if a file with a recorded line loads, the nonce is loaded, whatever was torn or appended around it |
| `NonceFile.TornLineStays` | offchain/crates/pprev-notary/src/nonces.rs:21-41 | a torn line followed by a complete record never parses again |
| `NonceFile.LogReadsBack` | offchain/crates/pprev-notary/src/nonces.rs:57-66 | a file of complete records loads as exactly its nonces |
| `NonceFile.LoadsExactly` | offchain/crates/pprev-notary/src/nonces.rs:21-41 | a file opens exactly if every line, decoded and trimmed, spells 32 bytes in 64 hexadecimal digits, and then holds exactly those; otherwise the error is the 1-based number of the first line that does not |
| `NonceFile.OpenRefusesTornTail` | offchain/crates/pprev-notary/src/nonces.rs:31-37 | a clean log with a record cut short behind it is refused with the number of that line, wherever between its first and its last digit the cut is |
| `NonceFile.LinesEndAtNewlines` | offchain/crates/pprev-notary/src/nonces.rs:30 | where the lines of a file end, and what they lose at the end |
| `NonceFile.RecordLineIs` | offchain/crates/pprev-notary/src/nonces.rs:57-66 | a record is 64 lower-case hexadecimal digits, high digit first, and a newline |
| `NonceStore.Store.Open` | offchain/crates/pprev-notary/src/nonces.rs:21-41 | loads exactly what the file spells, or reports the first line that spells no nonce (`NonceFile.LoadsExactly`) |
| `NonceStore.Store.Record` | offchain/crates/pprev-notary/src/nonces.rs:57-66 | appends the line, has it confirmed, and only then remembers the nonce, for every way the append can end |
| `NonceStore.RecordingIs` | offchain/crates/pprev-notary/src/nonces.rs:57-66 | what an append leaves in the file and in memory, for every way it can end |
| `NonceStore.OneSignaturePerNonce` | offchain/crates/pprev-notary/src/nonces.rs:18-66 | over every run of starts, requests, partial and unconfirmed writes, exits and power losses of both kinds: signed nonces are distinct, durable, and known to a restart that opens |
| `NonceStore.NextKeepsInv` | offchain/crates/pprev-notary/src/nonces.rs:18-66 | every event keeps signed nonces distinct, durable and known to a running notary |
| `NonceStore.RestartKnowsTheLog` | offchain/crates/pprev-notary/src/nonces.rs:21-41 | without failures a restart refuses exactly what was signed |
| `NonceStore.RunStaysRefused` | offchain/crates/pprev-notary/src/nonces.rs:21-41 | a file whose durable part cannot be read stays unreadable over every later run that keeps the durable bytes |
| `NonceStore.TornWriteEndsRestarts` | offchain/crates/pprev-notary/src/nonces.rs:57-66 | after a torn write and one more record, no later run that keeps the durable bytes opens the file |
| `NonceStore.WreckageCanReopen` | offchain/crates/pprev-notary/src/nonces.rs:21-41 | where a power loss leaves nothing but the confirmed lines, the file opens again as exactly their nonces |
| `Merkle.SplitPointIsPower` | offchain/crates/pprev-prover/src/e1.rs:126-140 | the recursion splits at a power of two (below n and at least half of it, by the function's contract) |
| `Merkle.PairUpKeepsRoot` | offchain/crates/pprev-prover/src/e1.rs:126-140 | hashing one layer does not change the recursive root |
| `Merkle.MerkleRoot` | offchain/crates/pprev-prover/src/e1.rs:126-140 | the layer loop ends and computes the recursive tree of RFC 6962, section 2.1, without its prefixes; no leaves is an error |
| `Merkle.SmallTrees` | offchain/crates/pprev-prover/src/e1.rs:126-140 | which way round one, two and three leaves are hashed |
| `Merkle.RootBinds` | offchain/crates/pprev-prover/src/e1.rs:126-140 | different leaf lists of one length with one root hand over a collision of the node hash |
| `Merkle.LengthsCanCoincide` | offchain/crates/pprev-prover/src/e1.rs:126-140 | lists of different lengths can share a root |
| `Attestation.SortSorts` | offchain/crates/pprev-prover/src/e1.rs:155-184 | sorting by id is sorted and a permutation |
| `Attestation.SortIsStable` | offchain/crates/pprev-prover/src/e1.rs:155-184 | fields with equal ids keep their order |
| `Attestation.Encode` | offchain/crates/pprev-prover/src/e1.rs:143-208 | collects every body field, sorts by id, computes the root and compares it with the header's, with the algorithm and signature checks in order |
| `Attestation.OrderDoesNotMatter` | offchain/crates/pprev-prover/src/e1.rs:155-184 | with distinct ids, the result does not depend on the order of extensions and commitments in the body |
| `Attestation.HeaderRootBinds` | offchain/crates/pprev-prover/src/e1.rs:185-208 | two accepted attestations with one header root and equally many fields have the same contents, or show a hash collision |
| `Attestation.EncodedFields` | offchain/crates/pprev-prover/src/e1.rs:155-208 | an accepted encoding holds each field of the body exactly once, under its own kind with the leaf hash of that kind and its data, and nothing else; its root is the header's |
| `Attestation.SignerOf` | offchain/crates/pprev-prover/src/e1.rs:185-208 | the signer is recovered from the signature with v 0 or 1 turned into 27 or 28, 27 and more kept, and no other byte changed |
| `Attestation.EncodeErrors` | offchain/crates/pprev-prover/src/e1.rs:143-208 | which attestations are refused for their algorithms and their signature's length, and in which order |
| `Pieces.PadValue` | offchain/crates/pprev-types/src/layout.rs:285-304 | succeeds exactly on printable values within the width; the result has the width, starts with the value and is padding after it |
| `Pieces.PrintableChars` | offchain/crates/pprev-types/src/layout.rs:285-304 | a value is printable exactly if its characters lie between the space and the tilde and none is a quote or a backslash |
| `Pieces.InValueIff` | offchain/crates/pprev-types/src/layout.rs:217-218 | a byte belongs to a value exactly if a value's range covers it |
| `Pieces.Writer.Literal` | offchain/crates/pprev-types/src/layout.rs:308-317 | appends and reports where the bytes landed |
| `Pieces.Writer.WriteString` | offchain/crates/pprev-types/src/layout.rs:325-330 | quotes a value and reports the value without its quotes |
| `Layout.RenderResponse` | offchain/crates/pprev-types/src/layout.rs:148-215 | renders the head and body whose pieces have the reported ranges, or gives the first error |
| `LayoutLaws.RendersIff` | offchain/crates/pprev-types/src/layout.rs:148-215 | exactly which accounts and records render |
| `LayoutLaws.LayoutInvariance` | offchain/crates/pprev-types/src/layout.rs:217-233 | every rendered response has the template's length and ranges and its bytes outside the values |
| `LayoutLaws.ResponseReadsBack` | offchain/crates/pprev-types/src/layout.rs:148-215 | slicing a response at the template's ranges gives the padded account, property and each owner slot |
| `LayoutGeometry.OwnerSlotsAreEven` | offchain/crates/pprev-types/src/layout.rs:166-211 | slot k starts at k * (width + 3), the owners' length is (slots - 1) * stride + width, and quote, comma, quote stand between slots of every response |
| `TitleShape.MakeShape` | offchain/crates/pprev-types/src/layout.rs:237-248 | the shape of a validated layout always exists and is built from the template |
| `TitleShape.ShapeIsSound` | offchain/crates/pprev-types/src/layout.rs:70-86 | revealed and hidden ranges are in bounds and pairwise disjoint, and no hidden range is empty |
| `TitleShape.ResponseReveals` | offchain/crates/pprev-types/src/layout.rs:217-248 | every response shows the template's bytes at every revealed range |
| `RecordLayout.Validate` | offchain/crates/pprev-types/src/record.rs:91-121 | accepts exactly well-formed layouts with distinct plain keys, and names the first bad field |
| `RecordLayout.RenderResponse` | offchain/crates/pprev-types/src/record.rs:156-203 | renders the response whose pieces have the reported ranges, or gives the first error |
| `RecordLaws.RendersIff` | offchain/crates/pprev-types/src/record.rs:156-203 | exactly which records render |
| `RecordLaws.LayoutInvariance` | offchain/crates/pprev-types/src/record.rs:205-213 | every response has the template's length and ranges and its bytes outside the values |
| `RecordLaws.ResponseReadsBack` | offchain/crates/pprev-types/src/record.rs:156-203 | slicing at the template's ranges gives the padded account and every padded field value |
| `RecordLaws.MakeShape` | offchain/crates/pprev-types/src/record.rs:216-227 | the shape of a valid layout always exists and is built from the template |
| `RecordLaws.ShapeIsSound` | offchain/crates/pprev-types/src/record.rs:55-69 | revealed and hidden ranges are in bounds and pairwise disjoint; hidden are the account and every field |
| `RecordLaws.ResponseReveals` | offchain/crates/pprev-types/src/record.rs:205-227 | every response shows the template's bytes at every revealed range |
| `RecordLaws.KeyFindsField` | offchain/crates/pprev-types/src/record.rs:143-148 | in a valid layout a key names one field |
| `RecordLaws.WordIsShown` | offchain/crates/pprev-types/src/record.rs:231-238 | a field's word is the zero extension of what every response with that value shows in the field's range |
| `ResponseText.TitleText` | offchain/crates/pprev-types/src/layout.rs:148-215 | a title response byte by byte: status line, headers with the body's length in decimal, then the record with every padded value behind its own key |
| `ResponseText.TitleReveals` | offchain/crates/pprev-types/src/layout.rs:70-86 | at the revealed ranges stand status and content type and the seven keys, in order |
| `ResponseText.TitleExchange` | offchain/crates/pprev-types/src/layout.rs:237-248 | the server, the request line and the template of a title shape |
| `ResponseText.RecordText` | offchain/crates/pprev-types/src/record.rs:156-203 | a record response byte by byte, every padded value behind its own key |
| `ResponseText.RecordReveals` | offchain/crates/pprev-types/src/record.rs:55-69 | at the revealed ranges stand status and content type and every key, in order |
| `ResponseText.RecordExchange` | offchain/crates/pprev-types/src/record.rs:216-227 | the server, the request line and the template of a record shape |
| `Field.BigEndianInjective` | offchain/crates/pprev-types/src/field.rs:15-26 | bytes of known length are determined by their big-endian value |
| `Field.LimbsAreElements` | offchain/crates/pprev-types/src/field.rs:15-21 | both halves are below the field order |
| `Field.LimbsDenote` | offchain/crates/pprev-types/src/field.rs:15-21 | the halves, most significant first, denote the word |
| `Field.LimbsInjective` | offchain/crates/pprev-types/src/field.rs:13-21 | equal halves come from equal words |
| `Field.BindAlikeIff` | offchain/crates/pprev-types/src/field.rs:24-26 | two digests bind alike exactly if they differ by a multiple of the field order |
| `Field.FieldElementInjective` | offchain/crates/pprev-types/src/circuit.rs:118-122 | accepted words have canonical numerals of their own |
| `Circuit.FromLayout` | offchain/crates/pprev-types/src/circuit.rs:58-80 | never fails on a validated layout, the even-spacing check included, and gives the closed form |
| `Circuit.PropertyIdWord` | offchain/crates/pprev-types/src/layout.rs:253-262 | exists exactly for acceptable identifiers of a layout at most 32 bytes wide |
| `Circuit.WordShowsTheResponse` | offchain/crates/pprev-types/src/layout.rs:250-262 | two identifiers have one word exactly if they stand alike in a response |
| `Circuit.PropertyIdWordIs` | offchain/crates/pprev-types/src/layout.rs:253-262 | the word byte by byte: the identifier, the layout's padding up to its width, zeros |
| `Circuit.PhiRInputs` | offchain/crates/pprev-types/src/circuit.rs:32-45 | the loop pushes the limbs of every word in order, then bind |
| `Circuit.PhiAInputs` | offchain/crates/pprev-types/src/circuit.rs:158-166 | limbs, c_B, amount, bind |
| `Circuit.PhiSInputs` | offchain/crates/pprev-types/src/circuit.rs:210-224 | limbs, c_B, engagement day, bind |
| `Circuit.PhiRDenotes` | offchain/crates/pprev-types/src/circuit.rs:32-45 | what each of the nine inputs denotes, in the circuit's order |
| `Circuit.PhiADenotes` | offchain/crates/pprev-types/src/circuit.rs:137-166 | what each of the seven inputs denotes, in the circuit's order |
| `Circuit.PhiSDenotes` | offchain/crates/pprev-types/src/circuit.rs:186-224 | what each of the eleven inputs denotes, in the circuit's order |
| `Circuit.PhiRBinds` | offchain/crates/pprev-types/src/circuit.rs:13-45 | all inputs are field elements; equal inputs mean equal words and digests equal modulo r, and conversely |
| `Circuit.PhiABinds` | offchain/crates/pprev-types/src/circuit.rs:137-166 | the same for phi_A, with c_B and the amount fixed exactly |
| `Circuit.PhiSBinds` | offchain/crates/pprev-types/src/circuit.rs:186-224 | the same for phi_S, with c_B and the day fixed exactly |
| `Circuit.PhiRExact` | offchain/crates/pprev-types/src/circuit.rs:13-45 | the inputs of phi_R are the one list of canonical numerals that denotes the three hashes, the property and the digest modulo r in this order |
| `Circuit.PhiAExact` | offchain/crates/pprev-types/src/circuit.rs:137-166 | phi_A takes exactly the amounts below 2^96 and the canonical c_B; its inputs are the one list of canonical numerals for these values in this order |
| `Circuit.PhiSExact` | offchain/crates/pprev-types/src/circuit.rs:186-224 | the same for phi_S, with days below 2^27 |
| `Circuit.EngagementDayFits` | offchain/crates/pprev-types/src/circuit.rs:193-196 | every engagement day passes the 27-bit check, so only a non-canonical c_B is refused |
| `Presentation.CheckTimes` | offchain/crates/pprev-notary/src/presentation.rs:158-169 | accepts exactly attested times at most the tolerance before and at most the session bound after the connection time, with the wrap-around of the tolerance |
| `Presentation.CheckRevealed` | offchain/crates/pprev-notary/src/presentation.rs:245-269 | what is authenticated is the first line of the request and the revealed ranges of the response, nothing else, with the template's bytes |
| `Presentation.CheckCounts` | offchain/crates/pprev-notary/src/presentation.rs:271-294 | the number of commitments is right and each expected one appears once |
| `Presentation.CollectHashes` | offchain/crates/pprev-notary/src/presentation.rs:300-314 | returns for every hidden range the hash of its commitment, if all are 32 bytes |
| `Presentation.CheckShape` | offchain/crates/pprev-notary/src/presentation.rs:201-315 | accepts exactly if every check holds, with the attested time and the hidden hashes |
| `Presentation.CountsMeanPermutation` | offchain/crates/pprev-notary/src/presentation.rs:283-294 | matching counts are a permutation of the expected commitments exactly when those are distinct |
| `Presentation.ExpectedDistinct` | offchain/crates/pprev-notary/src/presentation.rs:273-282 | a sound shape calls for distinct commitments |
| `Presentation.AcceptedIsBijection` | offchain/crates/pprev-notary/src/presentation.rs:271-308 | an accepted attestation commits to the layout's ranges and nothing else, each exactly once |
| `Presentation.AttestedTimeIs` | offchain/crates/pprev-notary/src/presentation.rs:124-142 | the attested time is t exactly if one extension is named pprev.t_att and holds the eight bytes of t, most significant first |
| `Presentation.AcceptedIff` | offchain/crates/pprev-notary/src/presentation.rs:201-315 | a presentation passes exactly if it is by the expected notary and of the expected server and length, has one attested time at most five seconds before and at most the session bound after the connection, authenticates the request line and the revealed bytes and no other byte, as the shape has them, and commits by SHA-256 once to each of its parts and to nothing else |
| `Presentation.HonestPasses` | offchain/crates/pprev-notary/src/presentation.rs:195-315 | a truthful presentation with those commitments passes exactly if its times do |
| `Prover.Commit` | offchain/crates/pprev-prover/src/session.rs:523-548 | commits, once the transcript follows the shape, to exactly what the verifier expects |
| `Prover.HonestTitleAccepted` | offchain/crates/pprev-prover/src/session.rs:523-548 | every renderable title response is accepted from an honest prover in time, for every layout |
| `Prover.HonestRecordAccepted` | offchain/crates/pprev-prover/src/session.rs:523-548 | and so is every renderable record response |
| `Signing.HandleKeepsSafe` | offchain/crates/pprev-notary/src/register.rs:111-178 | one request keeps signatures justified and nonces distinct and remembered |
| `Signing.ServingIsSafe` | offchain/crates/pprev-notary/src/phases.rs:77-194 | over every sequence of requests of all phases: each signature has a policy of its own phase, the attested time and a proof over attested hashes and its own digest; nonces are distinct across phases and none was known before |
| `Signing.SignedRestsOnAttestation` | offchain/crates/pprev-notary/src/register.rs:122-178 | the hashes behind a signed statement are those of the only commitments to its policy's ranges in an attestation of this notary |
| `Evidence.RegisterJustified` | offchain/crates/pprev-notary/src/register.rs:122-171 | x_R may be signed exactly if its policy is a Register policy, the property's word is the statement's, the presentation passes with the statement's time, and the proof verifies for the hashes committed to at the account's, the owners' and the property's places, the statement's property and the statement's own digest |
| `Evidence.ApplyJustified` | offchain/crates/pprev-notary/src/phases.rs:77-121 | x_A: for the hashes at the account's place and at the one field's, the statement's c_B and amount and its own digest |
| `Evidence.SettleJustified` | offchain/crates/pprev-notary/src/phases.rs:129-189 | x_S: for the hashes at the three fields' places, the statement's property and c_B, the engagement day and its own digest, with the notation an identifier |
| `PolicyVerifier.PolicyVerifier.WithPhases` | offchain/crates/pprev-notary/src/register.rs:98-108 | sets the Apply and Settle policies and the lock window, nothing else |
| `PolicyVerifier.PolicyVerifier.RecordAndSign` | offchain/crates/pprev-notary/src/register.rs:111-114 | records the nonce, and signs only if that succeeded |
| `PolicyVerifier.PolicyVerifier.CheckRegister` | offchain/crates/pprev-notary/src/register.rs:122-171 | passes exactly justified Register requests with a new nonce |
| `PolicyVerifier.PolicyVerifier.SignRegister` | offchain/crates/pprev-notary/src/register.rs:122-178 | returns the key's signature of the digest of x_R itself, exactly if the request is justified, its nonce is new, the append is synced and the key signs; is one step of the signing state machine, and a refused request changes nothing |
| `PolicyVerifier.PolicyVerifier.CheckApply` | offchain/crates/pprev-notary/src/phases.rs:77-121 | passes exactly justified Apply requests with a new nonce |
| `PolicyVerifier.PolicyVerifier.SignApply` | offchain/crates/pprev-notary/src/phases.rs:77-126 | returns the key's signature of the digest of x_A itself, exactly if the request is justified, its nonce is new, the append is synced and the key signs; is one step of the signing state machine, and a refused request changes nothing |
| `PolicyVerifier.PolicyVerifier.CheckDay` | offchain/crates/pprev-notary/src/phases.rs:143-153 | the lock window, nonce, subject and expiry checks, and the engagement day |
| `PolicyVerifier.PolicyVerifier.CheckSettle` | offchain/crates/pprev-notary/src/phases.rs:129-189 | passes exactly justified Settle requests with a new nonce |
| `PolicyVerifier.PolicyVerifier.SignSettle` | offchain/crates/pprev-notary/src/phases.rs:129-194 | returns the key's signature of the digest of x_S itself, exactly if the request is justified, its nonce is new, the append is synced and the key signs; is one step of the signing state machine, and a refused request changes nothing |
| `MockNotary.BeLimbs` | offchain/crates/pprev-notary/src/mock.rs:36-43 | four limbs below 2^64 that denote the word's value |
| `MockNotary.Commitment` | offchain/crates/pprev-notary/src/mock.rs:23-34 | hashes the identifier and the salt, refusing long identifiers and non-canonical salts |
| `MockNotary.CommitmentDefined` | offchain/crates/pprev-notary/src/mock.rs:23-34 | a commitment exists exactly for identifiers of at most 31 bytes and salts below the field order |
| `MockNotary.CommitmentBinds` | offchain/crates/pprev-notary/src/mock.rs:20-34 | a commitment fixes the salt and the identifier's value, and so the identifier among those of its width, unless its openings are a collision of the hash |
| `MockNotary.LeadingZeroOpensToo` | offchain/crates/pprev-notary/src/mock.rs:23-34 | a leading zero byte is invisible to the commitment |
| `MockNotary.PropertyWordsAgree` | offchain/crates/pprev-notary/src/mock.rs:251-261 | the mock notary's word of a padded identifier is the layout's |
| `MockNotary.MockNotary.Sign` | offchain/crates/pprev-notary/src/mock.rs:245-248 | an accepted request is recorded and then signed, as one step of the mock notary's state machine |
| `MockNotary.MockNotary.SignApply` | offchain/crates/pprev-notary/src/mock.rs:147-189 | returns the key's signature of the digest of x_A at the clock's time, exactly if phi_A holds on the record, the nonce is new, the append is synced and the key signs; a refused request changes nothing |
| `MockNotary.MockNotary.SignSettle` | offchain/crates/pprev-notary/src/mock.rs:192-243 | the same for x_S and phi_S |
| `MockNotary.MockMeetsPhiA` | offchain/crates/pprev-notary/src/mock.rs:147-189 | on a 256-bit income the mock notary accepts exactly if c_B opens to the account and the rent is at most the income divided by the multiple; the overflow check refuses nothing more |
| `MockNotary.MockMeetsPhiS` | offchain/crates/pprev-notary/src/mock.rs:192-243 | with an engagement day, the mock notary accepts exactly what phi_S demands of its public inputs |
| `NotaryRuns.StepFollows` | offchain/crates/pprev-notary/src/nonces.rs:18-66 | a refused request changes nothing, and every other event of a notary's life is one step of the nonce store's machine |
| `NotaryRuns.EveryLifeIsSafe` | offchain/crates/pprev-notary/src/nonces.rs:18-66 | over every sequence of starts, requests, failing appends, exits and power losses: signed requests were accepted, share no nonce, are durable, and known to a start that reads the file |
| `NotaryRuns.HandleIsReceive` | offchain/crates/pprev-notary/src/register.rs:111-178 | the policy verifier's handling of a request is one event of such a life |
| `NotaryRuns.VerifierIsSafe` | offchain/crates/pprev-notary/src/phases.rs:77-194 | over all its lives, every statement the policy verifier signs is justified and no nonce is signed twice, across phases and restarts |
| `NotaryRuns.MockHandleIsReceive` | offchain/crates/pprev-notary/src/mock.rs:147-248 | the mock notary's handling of a request is one event of such a life |
| `NotaryRuns.MockIsSafe` | offchain/crates/pprev-notary/src/mock.rs:147-248 | over all its lives, every statement the mock notary signs met its predicate and no nonce is signed twice |
| `Session.AdvanceKeepsOrder` | offchain/crates/pprev-prover/src/session.rs:443-473 | however the prover is polled: it contacts the registry only after setting the flag, returns success only then, and its own stall only before |
| `Session.ProverCourse` | offchain/crates/pprev-prover/src/session.rs:443-473 | what the prover returns, and whether the flag is set and the registry contacted, for each way its operations can end |
| `Session.StepKeepsInv` | offchain/crates/pprev-prover/src/session.rs:216-331 | every event of the race keeps the account of how the attempt stands and how it ends |
| `Session.StallsAreCuts` | offchain/crates/pprev-prover/src/session.rs:229-392 | an attempt ends in a stall exactly if it was cut, and then the registry was never reached |
| `Session.FinalStaysFinal` | offchain/crates/pprev-prover/src/session.rs:347-392 | a final failure, or a driver that failed, is never turned into a stall |
| `Session.EndOfRace` | offchain/crates/pprev-prover/src/session.rs:347-392 | which failed attempts are stalls, over every race, from the links of the prover's error and of the driver's alone: none behind preprocessing or a driver that failed otherwise, none whose first link of tlsn says User or Config, any that holds one of six I/O kinds or the closed multiplexer, an Internal one exactly with a closing driver, and nothing else but the prover's own stall and its silence with a closing driver |
| `Session.RaceMoves` | offchain/crates/pprev-prover/src/session.rs:216-331 | when the race goes on and when it ends: it waits for nothing that has come |
| `Session.StallsDoNotContact` | offchain/crates/pprev-prover/src/session.rs:216-255 | an attempt that is retried did not contact the registry |
| `Session.WithRetries` | offchain/crates/pprev-prover/src/session.rs:688-727 | all passes but the last are stalls, so at most the last reached the registry; at most max_retries + 1 passes, attempts = stalls + 1 on success, and which error is returned when; with the largest 32-bit max_retries the counter wraps and stalls alone never end the loop |
| `HttpRequest.AnswersAreStable` | mock-registry/src/lib.rs:344-387 | once the parser answers, it gives the same answer on every extension |
| `HttpRequest.ReadRequest` | mock-registry/src/lib.rs:409-430 | the loop ends at the first read whose buffer is too large or parses, or when the client closes |
| `HttpRequest.ServeStream` | mock-registry/src/lib.rs:414-429 | how the loop ends in terms of the stream and the reads, exactly; within the size limit the cutting does not matter |
| `HttpRequest.ChunkingDoesNotMatter` | mock-registry/src/lib.rs:414-429 | within the size limit some read catches an answer exactly if the whole stream has one |
| `HttpRequest.EarlyRequestsAreAnswered` | mock-registry/src/lib.rs:414-429 | a request complete a chunk before the limit is answered however the stream is cut and whatever follows |
| `HttpRequest.ContentLengthNames` | mock-registry/src/lib.rs:370-373 | the length is looked up under content-length, in either case of every letter |
| `HttpRequest.FirstValueIs` | mock-registry/src/lib.rs:370-373 | and is that of the first header so named |
| `HttpRequest.SizesAre` | mock-registry/src/lib.rs:370-376 | which lengths are read from numerals, with a plus sign or without |
| `HttpPrinting.PrintThenParse` | mock-registry/src/lib.rs:344-387 | the parser reads back method, target, headers and body of every request a client writes, whatever follows |
| `HttpPrinting.PrefixIsIncomplete` | mock-registry/src/lib.rs:344-387 | until its last byte has come, a request is incomplete |
| `HttpPrinting.HeaderIs` | mock-registry/src/lib.rs:361-369 | a header is split at its first colon and both parts are trimmed; a line without a colon is none |
| `HttpPrinting.LoginIsRead` | offchain/crates/pprev-prover/src/login.rs:33-36 | the registry reads the login request that the prover writes, its body to the announced length, whatever follows |
| `HttpPrinting.ShapeLineIsRead` | offchain/crates/pprev-types/src/layout.rs:136-138 | the request line of a shape is read as a GET of its path |
| `HttpPrinting.VersionDecides` | mock-registry/src/lib.rs:350-361 | a request is refused for its version exactly if the third word of its first line is not HTTP/1.1, whatever the headers say |
| `Probe.DifferenceOf` | offchain/crates/pprev-prover/src/probe.rs:117-144 | the runs are sorted, separated and cover exactly the differing positions; the counts are the numbers of differing positions in all, before and behind the head's end |
| `Probe.HeadLength` | offchain/crates/pprev-prover/src/probe.rs:121-124 | the head ends with the first blank line, its four bytes included, or with the response |
| `Probe.RunsAreMaximal` | offchain/crates/pprev-prover/src/probe.rs:126-131 | all bytes of a run differ and its neighbours do not |
| `Probe.RunsAreUnique` | offchain/crates/pprev-prover/src/probe.rs:126-131 | no other list of runs has these properties |

## Left out

- TLS, MPC-TLS, certificates, sockets and the verification of presentations: other libraries; only their outcomes appear.
- Hash functions, Poseidon, ECDSA, EIP-712 encoding, Groth16 and its reading of proofs and keys: parameters.
- The Solidity contract and the circom circuits: phi_S's date rule appears only as the comparison of Y * 10000 + M * 100 + D values.
- Floating-point rounding of link times, timings, byte counters, logging, JSON records, command lines and child processes.
- Loading of layouts and policies from JSON: the model starts from the loaded values and their validation.
- Two processes that share one nonce file, and a file changed by anything but the notary and a power loss.
- The proxy around the two directions of a link (accepting, half-closing, dropping): each direction is modelled alone.
- The Merkle leaf hash's type names and domain tags (`FieldKind::type_name`, `domain`): the leaf hash is a parameter.
- Measurement and pricing scripts, result rendering, and the text of error messages.
- The openings of hidden fields and the building of a presentation: they read what `Prover.Commit` committed to.
- The registry's routes, tokens and sent log: table look-ups around the parser.
- Session.WithRetries: watches a given number of passes, since with the largest `max_retries` the loop need not end.
- Session.StepKeepsInv: an error is the list of its links; where in its chain a stall stands is not distinguished, since the code only ever puts one there as an outermost error or under added context.
- Settlement.YmdOfDaysDefined: it converts any integer day; `Settlement.EngagementDayInRange` shows that on every day the engagement rule converts nothing overflows.
- HttpRequest.ReadRequest: a read that fails ends the loop like a close; the error itself is not modelled.
