# Verified models of the freight venue's protocols

A venue sells truck capacity between parties that do not trust it or one another. What keeps it honest is a set of
tamper-evidence protocols: a hash-chained ledger, witnesses that cosign it and compare notes, root keys that announce
their successors in advance, registries that are held to what they sign. This project models those protocols in Dafny
and proves what they promise, for every input, every run and every hostile party the promise is made against.

Where the original changes state step by step, the model is a class or a method with a loop, proved equal to a function
on values; the theorems then speak of the function. Hashes are symbolic terms over what they hash, so equal hashes mean
equal content. A signature is the key under which it verifies over the very thing that carries it. Instants are whole
milliseconds and days whole numbers. What the network, the clock, random numbers and files supply is an argument.

## The modules

- `Sequences`, `Strings`, `Wrappers`: the stable sort, joining and splitting, decimal numerals, option and result.
- `RootLog`, `RootLogTheorems`, `RootLogAncestors`, `RootLogPins`: pre-rotated root keys and the walk from a pinned root, forward and backward.
- `RegulatorStore`: a registry's copy of each regulator's key log.
- `VenueKeys`, `Chain`, `ChainTheorems`, `RootTrust`, `Recovery`, `ResealOrder`: certificates, the ledger, verifying a chain, recovering from a compromised key, where reseals stand.
- `Witness`, `WitnessCore`, `WitnessTheorems`, `GossipTheorems`, `VenueNames`, `HonestVenue`, `HonestVenueGuards`, `Accusations`, `WitnessedAsOf`: receipts, the witness process, what cosigning and gossip guarantee, also under several venue names, what an honest venue can be accused of and when it is safe, how far a publication is vouched for.
- `Registry`, `Accountability`, `UpstreamHistory`, `Assurance`, `RegistryService`, `Standing`: public records, who may be convicted of a false word, how long an insurer's word holds, standing over a window, unanimity.
- `Canonical`, `CanonicalTheorems`: the text every hash and signature is over.
- `X12`, `X12Theorems`, `LoadTender`, `LoadTenderTheorems`: EDI interchanges and the 204 load tender.
- `RateLimiter`, `RateLimiterResidues`, `RateLimiterWindows`, `Exposure`, `ControlStore`, `Issuance`: the stateful guards.

## Where a promise needs a condition

Each of these is a lemma with the input that shows it, beside the theorem that holds under the condition.

- Cosigning is extension for slices of a book in any order. A server that offers two entries at the witness's own position can defeat the check, because only the first of them is compared (`WitnessTheorems.TwoEntriesAtTheHeadDefeatTheCheck`); a cosigned head descends exactly when the last one does (`CosignedDescendsExactlyWhen`).
- A poll fetches the head and then the entries, and nothing holds the book still in between. A witness records a fork of an honest venue exactly when the entries are those of another moment than the head (`WitnessTheorems.TornReadIsAFork`, `Accusations.TearingHappens`); over all runs, one fork for each such poll and no other (`HonestVenue.HonestVenueIsNeverAccused`).
- No run makes a witness record an equivocation of an honest venue, as long as every peer key it pins is an honest witness's. A pinned peer that signs a false hash convicts the venue exactly at positions the witness has verified (`Accusations.ColludingPeerConvictsExactlyWhen`).
- An honest venue is never held to have broken a promise if (1) every promise lodged with a witness is one it gave, (2) a poll reads head and entries together and signs what is on the book then, (3) `watch` judges by a receipt no newer than the last poll, and (4) breaches are reported only once some witness holds them (`HonestVenueGuards.GivenPromisesAreNeverHeldBroken`, which then excludes forks too; under 2-4 alone, whatever is held broken was never given, `PromptRunsAccuseOfNothingGiven`). None of the four is checked: `watch` never verifies the venue's signature on a promise (`Accusations.ForgedPromiseAccusesAtLodging`, `ForgedPromiseAccusesAtAPoll`, `ForgedDeadlineAccuses`); a poll may read before a deadline and sign after it (`PollStraddlingTheDeadlineAccuses`); a receipt signed on demand is newer than the last poll (`LodgingAfterReceiptOnDemandAccuses`); a reported breach is believed (`UnwarrantedReportAccuses`). Over all runs, exactly when: `HonestVenue.HonestVenueIsNeverAccused`.
- A conflict at a position the witness already receipted, shown under another name for the venue, makes no proof: the original dereferences an undefined one (`GossipTheorems.ConflictAcrossVenueNames`). So a venue that names itself as it likes is always noticed at the lower latest receipt, and escapes with a failed round exactly when the witness's own receipt there bears another name (`VenueNames.HistoriesUnderAnyNamesAreFoundOutOrFail`).
- A larger root log never walks less far forward when it extends the smaller one in order. In arbitrary order that holds exactly when sequence numbers strictly increase along the walk (`RootLogTheorems.ArrangementIrrelevantIffStrict`). Backward it can walk less far: the first event of a predecessor's name and number is taken before its signature is looked at, so an unsigned one in front hides it (`RootLogAncestors.UnsignedEventHidesAnAncestor`). A larger log keeps every root exactly when each ancestor comes first in it (`RootsKeptExactlyWhenFirst`).
- `pinRegulator` looks neither at a predecessor the establishment names (`RegulatorStore.EstablishmentMayNameAPredecessor`; exactly then walks complain, `RegulatorLogsWalkClean`) nor at the name its key gives itself: the pinned root keeps unsigned events out exactly when that is the thumbprint (`ForgersKeptOutExactlyWhenNamed`). Nor does anything refuse negative numbers (`NegativeNumbersAreTakenExactlyWhen`).
- The comment on `verifyChain` speaks of a later RESEAL; the code lets any trusted RESEAL cover its range, also one written before the compromised entry (`ResealOrder.ResealBeforehandExcusesACompromisedEntry`, `UntrustedAppendVerifiesExactlyWhen`). When the two readings agree: `ReadingsAgreeExactlyWhen`. A KEY_ROTATION stands whoever signs it, a compromised key included (`RotationVerifiesExactlyWhen`).
- Accountability needs receipt days that are not before publication (`UpstreamHistory.BackdatedReceiptConvictsAnHonestMirror`, exactly: `TruthfulMirrorsAreSafeExactlyWhen`), and filed days that are not before the filing (exactly: `HonestInsurersAreSafeExactlyWhen`). An insurer's own disclosure counts against mirrors under its filed day, so it convicts a mirror of a registry that received the notice late (`InsurersWordConvictsALaggingRegistrysMirror`).
- An insurer's word assures coverage to the millisecond of the notice period, while cancellations take effect at midnight: notice counted in days can cut in up to a day earlier (`Assurance.DayCountedNoticeCutsIn`). `DayCountedNoticeAssuresExactly` gives the moment up to which coverage is assured, `WindowHoldsExactlyWhen` the words whose window holds.
- A mirror of a remote upstream whose reading comes back "not found" keeps its old copy and moves its sync time all the same, and can be convicted for it (`RegistryService.NotFoundConvictsAnHonestMirror`, `NotFoundConvictsExactlyWhen`). One that is frozen honestly signs the moment of freezing, not of its last sync, and can be convicted for that (`HonestFreezeOfAStaleCopyIsConvicted`, `FreezeConvictsExactlyWhen`). Over all runs: `ConvictableExactlyWhenOvertaken`.
- Good standing at both ends of a window does not show a gap inside it (`Standing.GapInsideTheWindow`); `AdequateThroughoutIff` says what to check instead.
- Canonical text loses array holes (`CanonicalTheorems.HoleIsLost`) and is unambiguous exactly without them.
- A line break inside X12 data passes the delimiter guard and is deleted on reading (`X12Theorems.LineBreaksAreLost`, `ComesBackExactlyWhenUnbroken`). With nothing to send there is no GS, and a delimiter in a party's id passes too (`SeparatorInTheSenderIsNotRefused`, `EmptyInterchangeIsUnguarded`).
- Forgetting idle buckets changes decisions, and lets a caller exceed the window's bound, when 60,001 ms do not refill a bucket (`RateLimiter.ForgottenCallersExceedTheBound`). For whole capacities that is exact (`DropsAreHarmlessExactlyWhen`), and for a server's settings (`ServersAreHarmlessExactlyWhen`). A fractional capacity can fall short of it and be harmless (`RateLimiterResidues.HarmlessShortOfAFullBucket`); for every rate, what decides is the residue of a token, for decisions (`DropsAreHarmlessExactlyWhenResiduesReach`) and for the bound (`RateLimiterWindows.WindowsAreBoundedExactlyWhenResiduesReach`), from any state and already from a new limiter (`NewLimitersAreSafeExactlyWhenResiduesReach`).
- A proof of control is said to be bound to a key by its thumbprint, but `issue` compares it with the name the presented key gives itself, which nothing compares with the key. Whoever intercepts an answered challenge, or an attestation, mints on it for a key of its own by calling that key by the other's thumbprint (`Issuance.InterceptedAnswerServesAnotherKey`, `AnothersNameMintsOnAnothersProof`). The proof is bound to the key exactly when the key presented names itself by its own thumbprint, or in a rotation (`IssueBindsExactlyWhenNamed`, `RotationBinds`; over all runs `BoundExactlyWhenNamed`, `AttestedExactlyWhenNamed`, `ProofsAreBoundToTheKey`).
- One proof backs one credential when `issue` is one step and at least one try is allowed (`Issuance.FirstTryIsNeverCounted`). The original waits for vetting between judging the proof and spending it (`InterleavedIssuesShareAChallenge`); and an attestation whose id is empty is never recorded as spent, so it mints again and again, and only such a one does (`AttestationMintsAgainExactlyWhenUnnumbered`).

## Model

| member | source | states |
|---|---|---|
| RootLog.WalkRootLog | src/protocol/venue-keys.ts:81-114 | the walk as it runs, over any log however hostile, ends and is the walk function |
| RootLog.WalkBackward | src/protocol/venue-keys.ts:93-102 | the loop to predecessors stops on every log, including cyclic ones, and collects what the backward function says |
| RootLog.FindStartEvent | src/protocol/venue-keys.ts:84 | finds the first self-signed event of the pinned key |
| RootLogTheorems.WalkEndsWhereChainEnds | src/protocol/venue-keys.ts:103-113 | the current root of a walk is the last of its forward chain, and every root of that chain is trusted |
| RootLogAncestors.WalkTrustsExactly | src/protocol/venue-keys.ts:81-114 | a walk that finds its start trusts exactly the roots of its forward and its backward chain, one that does not the pin alone |
| RootLogTheorems.NoLogHijacksARoot | src/protocol/venue-keys.ts:70-114 | walks from one pinned root over any two logs are prefixes of one another, if each key self-signs at most one event |
| RootLogTheorems.LargerLogWalksFurther | src/protocol/venue-keys.ts:103-113 | adding events to a log, in any places, never ends the forward walk earlier |
| RootLogAncestors.NoLogInventsAnAncestor | src/protocol/venue-keys.ts:92-102 | backward walks from one pinned root over any two logs are prefixes of one another, if each key self-signs at most one event |
| RootLogAncestors.AncestorsKeptExactlyWhenFirst | src/protocol/venue-keys.ts:93-101 | a larger log keeps every ancestor exactly when each comes first in it of the events of its name and number |
| RootLogAncestors.RootsKeptExactlyWhenFirst | src/protocol/venue-keys.ts:81-114 | a log with more events, in any places, leaves every trusted root trusted exactly then |
| RootLogAncestors.UnsignedEventHidesAnAncestor | src/protocol/venue-keys.ts:95-99 | any ancestor is hidden by an unsigned event of its name and number put in front, and its root is trusted no more |
| RootLogTheorems.ArrangementIrrelevantIffStrict | src/protocol/venue-keys.ts:83 | rearranging a log is sure not to shorten the walk exactly when sequence numbers strictly increase along it |
| RootLogTheorems.TiedSuccessorCanBeHidden | src/protocol/venue-keys.ts:83 | a successor sharing its predecessor's number can be hidden by putting it first |
| RootLogPins.WalkDescribesLog | src/protocol/venue-keys.ts:81-114 | on a well-formed log, from any root of it and any permutation, every root is trusted, with the declared compromise times, and nothing is rejected |
| RootLogPins.PinDoesNotMatter | src/protocol/venue-keys.ts:77-81 | two pins on one well-formed log give the same walk, whatever the arrangement |
| RegulatorStore.Registry.constructor | src/registry/store.ts:35-45 | a registry begins with the regulators stored |
| RegulatorStore.Registry.PinRegulator | src/registry/store.ts:54-60 | pins an establishment event once; refuses another root for a known regulator and changes nothing then |
| RegulatorStore.Registry.AcceptRegulatorEvent | src/registry/store.ts:62-71 | takes an event in exactly when the walk from the first root accepts it; otherwise leaves the log alone |
| RegulatorStore.AcceptedIffExtends | src/registry/store.ts:65-69 | an event is accepted exactly when it comes after the whole log and succeeds its last event |
| RegulatorStore.EveryRunKeepsLines | src/registry/store.ts:54-71 | over any calls, with keys that sign once, a log is one strictly ascending line of succession exactly when its first root is named by its thumbprint and no event in it has a negative number |
| RegulatorStore.RegulatorLogsAreAppendOnly | src/registry/store.ts:53-71 | whatever calls are made, what a registry held is a prefix of what it holds later, its first root unchanged |
| RegulatorStore.RegulatorLogsWalkClean | src/registry/store.ts:61-71 | a well-named stored log walks to its last event, and with nothing rejected exactly when its first event names no predecessor |
| RegulatorStore.RegistriesNeverFork | src/registry/store.ts:61-71 | two registries bootstrapped alike hold logs of which one is a prefix of the other |
| RegulatorStore.EstablishmentMayNameAPredecessor | src/registry/store.ts:55 | an establishment event naming a predecessor is pinned, and every walk then complains |
| RegulatorStore.ForgersKeptOutExactlyWhenNamed | src/registry/store.ts:55-68 | every pinnable root keeps unsigned later events out exactly when its key names itself by its thumbprint |
| RegulatorStore.MisnamedLogAcceptsExactly | src/registry/store.ts:62-69 | on a misnamed root, exactly the events carrying that name are taken in, signed or not |
| RegulatorStore.NegativeNumbersAreTakenExactlyWhen | src/registry/store.ts:62-69 | on a well-named root, exactly which unsigned events numbered below it are taken in |
| VenueKeys.Resolver.constructor | src/protocol/venue-keys.ts:196-252 | a resolver walks the known root log from the pin and takes the known certificates and revocations as far as the walk bears them out |
| VenueKeys.AddAllHolds | src/protocol/venue-keys.ts:224-250 | of the certificates presented, exactly the properly signed are held, each under the key it certifies |
| VenueKeys.Resolver.Add | src/protocol/venue-keys.ts:224-231 | files a certificate exactly when a walked root signed it, once |
| VenueKeys.Resolver.Revoke | src/protocol/venue-keys.ts:232-238 | a revocation counts exactly when a walked root, still trusted then, signed it |
| VenueKeys.Resolver.ExtendRoots | src/protocol/venue-keys.ts:239-244 | extends the log by what it lacks and walks it again from the pin |
| VenueKeys.FirstTrustedFinds | src/protocol/venue-keys.ts:203-213 | the certificate used for a key is one whose issuing root was still trusted, if there is one |
| Chain.Ledger.constructor | src/ledger/chain.ts:56-63 | a stored ledger opens as it is, an empty one is founded by a GENESIS entry |
| Chain.Ledger.Append | src/ledger/chain.ts:68-78 | the new entry is numbered by position, chained to the head, signed, and added at the end |
| Chain.Ledger.Slice | src/ledger/chain.ts:83-85 | exactly the entries from a position on |
| Chain.Ledger.Truncate | src/ledger/chain.ts:107-110 | exactly the entries up to a position remain |
| Chain.Ledger.ForkView | src/ledger/chain.ts:92-105 | the alternative book is the shared prefix followed by the kept entries, sealed again |
| Chain.VerifyChain | src/ledger/chain.ts:191-199 | accepts exactly the chained ledgers wholly signed by the key, else names the first bad entry |
| ChainTheorems.HashFixesHistory | src/protocol/ledger-hash.ts:13-15 | equal hashes in two chains stand at one height over one history |
| ChainTheorems.SameHeadSameHistory | src/ledger/chain.ts:191-199 | two chains with one last hash are one history, entry for entry |
| ChainTheorems.HashesTellHistories | src/protocol/ledger-hash.ts:13-15 | chains that differ at or below a position, and only those, show different hashes there |
| ChainTheorems.EveryRunKeepsABook | src/ledger/chain.ts:68-110 | every run of appends and roll-backs keeps a chain numbered by position |
| ChainTheorems.ForkIsBook | src/ledger/chain.ts:86-105 | the alternative book verifies too, shares the real prefix, and says what the kept entries say |
| ChainTheorems.ForkPartsWhereContentsPart | src/ledger/chain.ts:86-105 | the two books show one hash at a later position exactly when their contents agree up to it |
| RootTrust.CollectRoots | src/ledger/chain.ts:154-160 | the roots a chain itself proves from the pin |
| RootTrust.CollectKeys | src/ledger/chain.ts:161-169 | succeeds exactly when all certificates and revocations carried are signed by trusted roots, and then holds exactly those |
| RootTrust.MarkRange | src/ledger/chain.ts:183-185 | marks exactly the numbers of a reseal's range |
| RootTrust.CheckEntry | src/ledger/chain.ts:173-181 | finds no defect exactly when the entry is linked and signed by a certified key, and says whether that key was trusted then |
| RootTrust.CheckEntries | src/ledger/chain.ts:170-189 | the second pass passes exactly the chained and signed chains and names exactly the entries that do not stand |
| RootTrust.VerifyFromRoot | src/ledger/chain.ts:147-190 | root-mode verification accepts exactly the chains whose links, hashes, certificates, revocations and signatures hold and whose every entry was trusted, is a rotation, or is resealed |
| Recovery.RotationRestoresExactlyWhenDoubtsAreResealed | src/ledger/chain.ts:130-189 | any signed and linked chain, however many of its entries have fallen, verifies after a rotation and whatever the successor then writes exactly when a clear old reseal or one of the successor's covers every entry in doubt |
| Recovery.RotationAndResealRestoreTheChain | src/ledger/chain.ts:130-141 | so a compromise followed by a rotation and, then or later, one covering reseal always verifies again |
| ResealOrder.ReadingsAgreeExactlyWhen | src/ledger/chain.ts:130-189 | the code's reading of reseals and that of its comment agree on every entry exactly when whatever a trusted reseal excuses a later one also covers |
| ResealOrder.VerdictsAgreeExactlyWhen | src/ledger/chain.ts:130-189 | the same for the verdict on a chain that verifies |
| ResealOrder.BackwardResealsAreLater | src/ledger/chain.ts:182-185 | reseals that reach no further than the entry before them make the two verdicts agree |
| ResealOrder.UntrustedAppendVerifiesExactlyWhen | src/ledger/chain.ts:182-188 | an entry added under a key no longer trusted verifies exactly when a trusted reseal already there covers its number, and never as the comment has it |
| ResealOrder.RotationVerifiesExactlyWhen | src/ledger/chain.ts:161-182 | a KEY_ROTATION without a revocation, added to a chain that verifies, verifies exactly when a certificate of the chain or its own is for the key that signed it, trusted or not, and its own is a root's |
| ResealOrder.ResealBeforehandExcusesACompromisedEntry | src/ledger/chain.ts:182-188 | a chain that verifies with a compromised entry resealed beforehand |
| WitnessCore.SettlePromises | src/protocol/witness-core.ts:155-171 | one pass sorts the promises into resolved, broken and still watched, in order |
| WitnessCore.SettlePending | src/protocol/witness-core.ts:172-180 | one pass sorts the notices lodged without a promise into those on the chain and those still pending, in order |
| WitnessCore.Core.constructor | src/protocol/witness-core.ts:39-41 | a witness begins with nothing |
| GossipTheorems.LatestReceiptStands | src/protocol/witness-core.ts:64-66 | there is a latest receipt once anything is verified, and it is the witness's own word for a position it verified |
| GossipTheorems.LatestMayBeLow | src/protocol/witness-core.ts:64-217 | asked for a position, the receipt for it becomes the latest, however low, exactly when there was none for it |
| WitnessCore.Core.ExamineServed | src/protocol/witness-core.ts:78-103 | what is verified of the entries served, or the reason they are a fork |
| WitnessCore.Core.Poll | src/protocol/witness-core.ts:69-125 | one round: the whole new state and outcome, for every answer of the venue |
| WitnessCore.Core.CheckWatched | src/protocol/witness-core.ts:152-171 | promises seen are resolved, those overdue at this receipt are broken and halt the witness |
| WitnessCore.Core.Watch | src/protocol/witness-core.ts:130-145 | a promise, or a notice never acknowledged, is kept once, and all kept are judged at once by the latest receipt |
| WitnessCore.Core.ReceiveBroken | src/protocol/witness-core.ts:184-192 | a breach reported is recorded, once for a notice, and halts the witness |
| WitnessCore.Core.ReceiptFor | src/protocol/witness-core.ts:205-217 | the receipt for a verified position, signed and kept if new |
| WitnessCore.Core.RecordProof | src/protocol/witness-core.ts:286-289 | a conflict is recorded once and halts the witness |
| WitnessCore.Core.ReceiveGossip | src/protocol/witness-core.ts:255-274 | a peer's receipt is compared at its position, and a difference becomes a proof |
| WitnessCore.Core.ReceiveProof | src/protocol/witness-core.ts:276-284 | a proof is recorded exactly when it verifies |
| WitnessCore.Core.GossipWith | src/protocol/witness-core.ts:228-251 | one peer's turn: both witnesses' new states and the outcome |
| WitnessTheorems.PollCosignsExactlyExtensions | src/protocol/witness-core.ts:78-124 | against any book, a poll cosigns exactly a strict extension of what was verified, `seen` then holds exactly its hashes, and a rolled-back or diverging book is a fork |
| WitnessTheorems.TornReadIsAFork | src/protocol/witness-core.ts:73-109 | of a book that has grown, the head of one moment and the entries of another are a fork exactly when the moments differ |
| WitnessTheorems.EveryRunOfPollsExtends | src/protocol/witness-core.ts:69-125 | over any polls of any books, the witness ends with one book extending its first, on which every receipt it issued stands |
| WitnessTheorems.AnyCosignedHeadDescends | src/protocol/witness-core.ts:85-101 | against arbitrary answers with one entry at its position, a cosigned head descends from the last one |
| WitnessTheorems.CosignedDescendsExactlyWhen | src/protocol/witness-core.ts:85-101 | against arbitrary answers, a cosigned head descends from the last one exactly when the last entry offered at its position does |
| WitnessTheorems.TwoEntriesAtTheHeadDefeatTheCheck | src/protocol/witness-core.ts:87-95 | with two entries there, a head that does not descend can be cosigned |
| GossipTheorems.ReceiptForVerifiedPosition | src/protocol/witness-core.ts:204-217 | asked for a position it verified, a witness answers with its hash there and learns nothing |
| GossipTheorems.GossipedDetectsDifference | src/protocol/witness-core.ts:255-274 | a peer's genuine receipt is turned into a verifying proof exactly when it differs from what was verified there |
| GossipTheorems.GossipFindsExactlyTheEquivocations | src/protocol/witness-core.ts:219-274 | one round yields a verifying proof and halts the detector exactly when the views differ at or below the lower latest receipt |
| GossipTheorems.TwoBooksAreFoundOut | src/protocol/witness-core.ts:69-274 | two new witnesses, each polled over one of two books in any run, make a verifying proof in one round of gossip exactly when the books differ up to the shorter of their cosigned positions |
| GossipTheorems.EveryRunKeepsWitness | src/protocol/witness-core.ts:69-289 | through polls of one book, gossip, receipts on demand, lodgings, proofs and reports in any order, a witness knows a beginning of the book and signs for nothing else |
| GossipTheorems.AnyHistoriesAreFoundOut | src/protocol/witness-core.ts:69-289 | after any such histories over two books, one round of gossip makes a verifying proof exactly when the books differ up to the lower latest receipt |
| GossipTheorems.ConflictAcrossVenueNames | src/protocol/witness-core.ts:266-271 | a conflict under another venue name fails exactly when the witness holds a receipt at that position |
| VenueNames.GossipedUnderAnyName | src/protocol/witness-core.ts:255-274 | a peer's genuine receipt that differs, under any venue name, makes a proof exactly when the witness holds no receipt of its own there under another name, and otherwise fails |
| VenueNames.EveryRunKeepsVoice | src/protocol/witness-core.ts:69-289 | through any history of one book under any names that are not empty, a witness knows a beginning of it and signs for nothing else |
| VenueNames.HistoriesUnderAnyNamesAreFoundOutOrFail | src/protocol/witness-core.ts:69-289 | after any histories over two books under any such names, one round of gossip notices exactly a difference up to the lower latest receipt, and makes a verifying proof of it exactly unless the witness's own receipt there bears another name than the one compared |
| HonestVenue.HonestVenueIsNeverAccused | src/protocol/witness-core.ts:69-289 | in every run of an honest venue with honest witnesses pinned, with polls that read entries at another moment than the head and sign late, and promises and reports from anybody, no witness records an equivocation and all agree; its forks are one for each poll that read at two moments; a promise is held broken exactly when some check missed it on the book verified, past its time by receipt and clock, or somebody reported it |
| HonestVenue.StepAccuses | src/protocol/witness-core.ts:110-192 | one step records a promise as broken exactly when its check misses it so, or it reports it |
| HonestVenue.StepForks | src/protocol/witness-core.ts:69-110 | one step records a fork exactly when it is a poll of a grown book that read head and entries at different moments |
| HonestVenueGuards.FoundedSystemIsHonest | src/protocol/witness-core.ts:34-41 | a founded ledger with any new witnesses that know one another is such a system, with nothing held against it |
| HonestVenue.CosigningPoll | src/protocol/witness-core.ts:117-123 | a cosigning poll of an honest book leaves the witness knowing all of it, with nothing due missing |
| HonestVenue.NoProofVerifies | src/protocol/witness-core.ts:276-284 | no proof of equivocation made of genuine receipts verifies against an honest venue |
| HonestVenueGuards.PromptRunsAccuseOfNothingGiven | src/protocol/witness-core.ts:69-192 | if polls read head and entries together and sign what is on the book now, lodgings are judged by receipts no newer than the last poll and reports pass on what is held, every promise held broken is one the venue never gave |
| HonestVenueGuards.GivenPromisesAreNeverHeldBroken | src/protocol/witness-core.ts:69-192 | and if every promise lodged is one it gave, no witness ever holds anything against it, forks included |
| Accusations.ForgedPromiseAccusesAtLodging | src/protocol/witness-core.ts:130-171 | a promise never given, lodged with a deadline before the latest receipt, is held broken at once |
| Accusations.ForgedDeadlineAccuses | src/protocol/witness-core.ts:130-171 | so is a promise given and still in time, lodged under an earlier deadline |
| Accusations.ForgedPromiseAccusesAtAPoll | src/protocol/witness-core.ts:110-171 | a promise never given, lodged before any receipt is past its deadline, is held broken at the next poll that cosigns |
| Accusations.ForgeryHappens | src/protocol/witness-core.ts:69-171 | a run from the founding in which it happens, with every step prompt |
| Accusations.UnwarrantedReportAccuses | src/protocol/witness-core.ts:184-192 | a reported breach is believed unseen |
| Accusations.LodgingAccusesOnlyByAYoungReceipt | src/protocol/witness-core.ts:130-171 | a lodging accuses of a promise the venue gave only by a receipt younger than the last poll |
| Accusations.LodgingAfterReceiptOnDemandAccuses | src/protocol/witness-core.ts:130-217 | an honest system, a promise kept on the book, a receipt signed on demand, and lodging the promise accuses the venue |
| Accusations.LodgingHappens | src/protocol/witness-core.ts:130-217 | a run of an honest system in which it does |
| Accusations.PollStraddlingTheDeadlineAccuses | src/protocol/witness-core.ts:69-125 | reading before the venue keeps its promise and signing after the deadline accuses it, though the entry is on the book |
| Accusations.StraddlingHappens | src/protocol/witness-core.ts:69-125 | a run of an honest system in which it does |
| Accusations.TornReadAccuses | src/protocol/witness-core.ts:73-109 | the head read, the venue's append, the entries read: the witness records a fork of an honest venue |
| Accusations.TearingHappens | src/protocol/witness-core.ts:73-109 | a run from the founding in which it does |
| Accusations.ColludingPeerConvictsExactlyWhen | src/protocol/witness-core.ts:255-274 | a pinned peer that signs what it likes convicts an honest venue exactly by a false hash at a position the witness has verified |
| WitnessedAsOf.Tabulate | src/protocol/witness.ts:113-114 | the table of each witness's latest receipt, in order of first appearance |
| WitnessedAsOf.WitnessedAsOf | src/protocol/witness.ts:104-121 | the answer for any publication, keys and policy |
| WitnessedAsOf.TimeIsTheGreatestVouchedFor | src/protocol/witness.ts:96-121 | a quorum exactly when enough pinned witnesses signed this head and all required are among them; the time is the greatest that many vouch for |
| WitnessedAsOf.MoreReceiptsNeverLower | src/protocol/witness.ts:104-121 | more receipts never lose the quorum or lower the time |
| WitnessedAsOf.UncountedReceiptsChangeNothing | src/protocol/witness.ts:109-114 | unpinned, mismatched and repeated receipts change nothing |
| WitnessedAsOf.StricterPolicyNeverRaises | src/protocol/witness.ts:106-120 | asking for more witnesses never raises the time |
| Accountability.ShownMembers | src/protocol/registry.ts:609-611 | the evidence a record gives is exactly its dated cancellations |
| Accountability.ContradictedBy | src/protocol/registry.ts:629-641 | a proof against a mirror exactly when some evidence damns it, and then by the first that does |
| Accountability.InsurerContradictedBy | src/protocol/registry.ts:800-809 | the same against an insurer, by filed days |
| UpstreamHistory.StaysGone | src/protocol/registry.ts:621-628 | in every orderly history a policy once cancelled by a day stays cancelled by it while shown |
| UpstreamHistory.PublishedByThen | src/protocol/registry.ts:633-638 | a cancellation received on an earlier day is in whatever the upstream publishes |
| UpstreamHistory.TrueWordsMakeTrueEvidence | src/protocol/registry.ts:609-611 | a word that shows what the upstream published makes only true evidence |
| UpstreamHistory.HonestMirrorIsNeverConvicted | src/protocol/registry.ts:621-641 | a mirror that claims a sync no later than what it serves is never convicted by true evidence |
| UpstreamHistory.FrozenLiarIsConvicted | src/protocol/registry.ts:621-641 | a mirror frozen before a cancellation and claiming a later day than its receipt is convicted by any one word showing it |
| UpstreamHistory.ConvictableExactlyWhenExposed | src/protocol/registry.ts:621-641 | whoever shows the record of one moment and claims a sync can be convicted by true evidence exactly when a later event publishes a cancellation it lacks, received before the claimed day and outlasting the instant |
| UpstreamHistory.TruthfulMirrorsAreSafeExactlyWhen | src/protocol/registry.ts:621-641 | mirrors that say truly when they synced are safe exactly when no cancellation is published under a receipt day earlier than some moment before it |
| UpstreamHistory.BackdatedReceiptConvictsAnHonestMirror | src/protocol/registry.ts:609-635 | without truthful receipt days an honest mirror can be convicted |
| UpstreamHistory.InsurersWordConvictsALaggingRegistrysMirror | src/protocol/registry.ts:811-813 | an insurer's disclosure convicts a mirror that lacks it exactly when the sync day is after the filed day |
| UpstreamHistory.HonestInsurerIsNeverConvicted | src/protocol/registry.ts:800-809 | an insurer that discloses its latest notice is never convicted by evidence of its own filings |
| UpstreamHistory.HonestInsurersAreSafeExactlyWhen | src/protocol/registry.ts:800-809 | insurers that disclose their latest notice are safe from evidence of their own filings exactly when no notice is filed under a day earlier than some moment before it, cancelling sooner than what there was to disclose |
| UpstreamHistory.ConcealingInsurerIsConvicted | src/protocol/registry.ts:800-809 | one that signs on a later day without an earlier notice is convicted by any word showing it |
| Assurance.WordAssuresCoverage | src/protocol/registry.ts:645-652 | before the assured moment no cancellation of the insurer's is in effect, whatever it filed or files later |
| Assurance.StandsWhileAssured | src/protocol/registry.ts:731-736 | the insurer's own standing never refuses inside the assured window |
| Assurance.DayCountedNoticeCutsIn | src/protocol/registry.ts:731-736 | with notice counted in days, a cancellation can take effect inside the assured window |
| Assurance.DayCountedNoticeAssuresExactly | src/protocol/registry.ts:731-736 | with notice counted in days, the word assures coverage, whatever the insurer files, exactly before the first midnight a notice filed after it can take effect at, or the disclosed cancellation |
| Assurance.WindowHoldsExactlyWhen | src/protocol/registry.ts:731-736 | exactly which words' computed windows hold then |
| RegistryService.Service.constructor | src/registry/service.ts:33-40 | a mirror starts unfrozen and never synced |
| RegistryService.Service.SyncEntity | src/registry/service.ts:47-60 | a copy young enough is kept; a failed read leaves copy and time alone; a good one replaces both |
| RegistryService.Service.Attest | src/registry/service.ts:66-78 | the signed word, its record and its claimed sync, in every mode |
| RegistryService.Service.Freeze | src/registry/service.ts:96-98 | freezes the present records with the present time, or thaws |
| RegistryService.EveryRunKnowsItsAges | src/registry/service.ts:43-98 | over any run, not-found answers included, the copy held and the copy frozen show what the upstream published when each was read |
| RegistryService.ConvictableExactlyWhenOvertaken | src/registry/service.ts:43-98 | after any run the next word can be convicted exactly when it is made from some record and an event since that was read exposes it to the claimed sync |
| RegistryService.UnfrozenMirrorIsNeverConvicted | src/registry/service.ts:43-78 | as long as no reading came back not found, an unfrozen mirror that ever synced signs words no true evidence convicts |
| RegistryService.NotFoundConvictsAnHonestMirror | src/registry/service.ts:52-54 | a not-found reading moves the sync time over an old copy, and the mirror is convicted for a cancellation it missed |
| RegistryService.NotFoundConvictsExactlyWhen | src/registry/service.ts:52-54 | exactly when it can be |
| RegistryService.FrozenAtTheTruthIsNeverConvicted | src/registry/service.ts:22-26 | a mirror frozen at the true record and saying so is merely stale |
| RegistryService.HonestFreezeOfAStaleCopyIsConvicted | src/registry/service.ts:66-98 | a remote mirror frozen without claiming currency can be convicted for its freezing time |
| RegistryService.FreezeConvictsExactlyWhen | src/registry/service.ts:66-98 | a current mirror frozen, honestly or not, can be convicted exactly when an event since its last reading exposes it to the day it then claims |
| Standing.StandingCoversWindow | src/protocol/registry.ts:237-264 | if no filing takes effect inside the window, good standing through its end is adequate insurance at every instant of it |
| Standing.AdequateThroughoutIff | src/protocol/registry.ts:188-217 | insurance is adequate throughout exactly when it is at the start and whenever a filing is cancelled inside |
| Standing.GapInsideTheWindow | src/protocol/registry.ts:255-263 | both ends adequate and a gap between |
| Standing.Unanimity | src/identity/verifier.ts:118-203 | in standing exactly when every registry's word shows it and the insurer's genuine word, if any, does not deny it |
| Standing.LiveCheckMeans | src/identity/verifier.ts:168-202 | without an insurer's word: all in standing, lowest figures, broker authority by all |
| Standing.FiguresAreTheLowestShown | src/identity/verifier.ts:198-202 | each figure is shown by some registry and by none lower |
| Standing.MoreRegistriesNeverHelp | src/identity/verifier.ts:118-127 | adding registries never turns a refusal into standing, raises a figure or grants broker authority |
| Standing.OrderIsIgnored | src/identity/verifier.ts:168-202 | order and repetition of registries make no difference |
| CanonicalTheorems.ReadsBack | src/protocol/canonical.ts:11-36 | a reader recovers the logical object from the text, in front of anything that may follow a value, exactly when the value has no array hole |
| CanonicalTheorems.TextsAgreeExactlyOnMeaning | src/protocol/canonical.ts:2-10 | two values have one text exactly when they are one logical object |
| CanonicalTheorems.SameMeaningSameText | src/protocol/canonical.ts:2-10 | whoever holds the same logical object computes the same text |
| CanonicalTheorems.StringReadsBack | src/protocol/canonical.ts:14-15 | an escaped string reads back, lone surrogates and control characters included |
| CanonicalTheorems.SortKeeps | src/protocol/canonical.ts:27-29 | sorting members by key keeps them and puts them in increasing order of code units |
| CanonicalTheorems.RefusedExactlyWhenUnsupported | src/protocol/canonical.ts:16-34 | refused exactly when undefined itself or holding an unsupported or non-finite value somewhere |
| CanonicalTheorems.HoleIsLost | src/protocol/canonical.ts:24-26 | an array with one hole has the text of the empty array |
| X12Theorems.WrappedIsWell | src/edi/x12.ts:102-104 | a wrapped set is its body between an ST and an SE of one control number, and the SE counts the whole |
| X12.GroupSets | src/edi/x12.ts:98-108 | sets wrapped ST to SE join the group of their functional id in order |
| X12Theorems.GroupReads | src/edi/x12.ts:112-237 | a group laid out from GS to GE, printed and read with no set open, adds exactly its sets and no problem |
| X12Theorems.SetReads | src/edi/x12.ts:102-237 | a wrapped set, printed and read, becomes one parsed set and no problem |
| X12.LayOut | src/edi/x12.ts:109-117 | the segments of all groups, GS to GE, after the ISA |
| X12.Interchange | src/edi/x12.ts:91-119 | the interchange text, or refusal if an element holds a delimiter |
| X12.ParseX12 | src/edi/x12.ts:211-237 | the reading of any text: delimiters, segments, sets and every structural problem |
| X12Theorems.InterchangeRoundTrip | src/edi/x12.ts:75-237 | what is not refused is read back exactly when no printed element holds a separator, terminator or line break; then with the delimiters, no problems, and the sets group by group |
| X12Theorems.ComesBackExactlyWhenUnbroken | src/edi/x12.ts:75-237 | with any set to send, exactly when no printed element holds a line break |
| X12Theorems.IntactExactlyWhen | src/edi/x12.ts:74-97 | what the guard leaves open: line breaks, and the parties when there is no GS to guard them |
| X12Theorems.ParsedAreClean | src/edi/x12.ts:211-217 | no element of a segment parsed from any text holds a line break or a delimiter it was cut at |
| X12Theorems.GroupingIsStable | src/edi/x12.ts:98-109 | one group per functional id in order of first appearance, holding exactly its sets in their order |
| X12Theorems.IsaShowsDelimiters | src/edi/x12.ts:95-97 | the fixed widths put the delimiters where the reader looks |
| X12Theorems.PartiesAreSafe | src/edi/x12.ts:82-89 | the guard on GS covers the unguarded ISA |
| X12Theorems.LinesJoin | src/edi/x12.ts:88-212 | the line breaks between segments are gone after reading |
| X12Theorems.LineBreaksAreLost | src/edi/x12.ts:74-212 | a note is never refused for a line break, and comes back from an interchange exactly when it holds none |
| X12Theorems.EmptyInterchangeIsUnguarded | src/edi/x12.ts:82-97 | an interchange of nothing is never refused, and comes back exactly when the parties fit the ISA and hold no line break |
| X12Theorems.SeparatorInTheSenderIsNotRefused | src/edi/x12.ts:82-97 | a separator for a sender id is printed, and does not come back |
| Strings.SplitUndoesJoin | src/edi/x12.ts:217 | splitting undoes joining when no part holds the separator |
| Strings.DecimalReadsBack | src/edi/x12.ts:225 | a printed count reads back as the number |
| LoadTender.Tender204 | src/edi/x12.ts:134-160 | the tender's segments for any terms and options |
| LoadTender.Read204 | src/edi/x12.ts:240-262 | what a reader learns of any segments |
| LoadTenderTheorems.TenderReads | src/edi/x12.ts:134-262 | the printed tender reads as its terms: reference, rate in cents, weight, miles, commodity, references, stops and windows to the minute |
| LoadTenderTheorems.TenderRoundTrip | src/edi/x12.ts:91-262 | the same through a whole interchange |
| LoadTenderTheorems.InstantReadsBack | src/edi/x12.ts:249 | an instant printed as date and time reads back as that instant to the minute |
| LoadTenderTheorems.WholeMinutesComeBack | src/edi/x12.ts:249 | and so as it was exactly when it is a whole minute |
| LoadTenderTheorems.RateReadsBack | src/edi/x12.ts:159-258 | a rate comes back as it was exactly when it is whole cents |
| RateLimiter.Limiter.constructor | src/protocol/rpc.ts:42-43 | a limiter starts without buckets |
| RateLimiter.Limiter.Allow | src/protocol/rpc.ts:44-53 | one call's verdict and the buckets after it |
| RateLimiter.Limiter.DropIdle | src/protocol/rpc.ts:51 | exactly the buckets idle over a minute go |
| RateLimiter.PassedArePaidFor | src/protocol/rpc.ts:40-54 | for every rate, the calls a limiter that forgets nothing lets through are covered by the level at the start and what refills since |
| RateLimiter.KeepingAllBoundsWindows | src/protocol/rpc.ts:40-54 | for every rate, such a limiter lets at most capacity plus the window's refill through in any window |
| RateLimiter.WindowBound | src/protocol/rpc.ts:40-54 | the limiter that drops idle buckets keeps that bound, in any window, after any history, if 60,001 ms fill a bucket |
| RateLimiter.DroppingChangesNoDecision | src/protocol/rpc.ts:51 | then dropping idle buckets changes no decision |
| RateLimiter.DropsAreHarmlessExactlyWhen | src/protocol/rpc.ts:51 | for whole capacities, dropping changes no decision of any run, and bounds every window, exactly when 60,001 ms refill the bucket |
| RateLimiter.ForgottenCallersExceedTheBound | src/protocol/rpc.ts:44-53 | otherwise, among more than ten thousand callers, one gets two full bursts through inside the window |
| RateLimiter.SmallBucketsAreHarmless | src/protocol/rpc.ts:44-53 | a bucket of less than one token never lets dropping matter |
| RateLimiterResidues.DropsAreHarmlessExactlyWhenResiduesReach | src/protocol/rpc.ts:44-53 | for every rate, dropping changes no decision of any run exactly when each residue of a caller that takes every whole token, and what refills in 60,001 ms, make up a full bucket |
| RateLimiterWindows.WindowsAreBoundedExactlyWhenResiduesReach | src/protocol/rpc.ts:40-54 | for every rate, every window is bounded by capacity plus refill exactly then |
| RateLimiterWindows.CyclesExceedTheBound | src/protocol/rpc.ts:44-53 | otherwise a caller forgotten often enough gets more than its window's bound through |
| RateLimiterWindows.NewLimitersAreSafeExactlyWhenResiduesReach | src/protocol/rpc.ts:40-54 | for every rate, a new limiter decides every run as if it forgot nothing, and bounds every window after any run, exactly when residues reach |
| RateLimiterResidues.HarmlessShortOfAFullBucket | src/protocol/rpc.ts:51 | a fractional capacity that misses being refilled by half a token, and decides every call alike |
| RateLimiter.ServersAreHarmlessExactlyWhen | src/protocol/rpc.ts:90 | for a server's settings, exactly from two calls in 60,001 ms |
| Exposure.ExposureBook.constructor | src/mandate/exposure.ts:18-20 | a book starts from its stored state |
| Exposure.ExposureBook.Once | src/mandate/exposure.ts:26-31 | an operation with a reference is applied once |
| Exposure.ExposureBook.Add | src/mandate/exposure.ts:41-48 | the book after an add |
| Exposure.ExposureBook.Release | src/mandate/exposure.ts:49-58 | the book after a release |
| Exposure.ReplayIsHarmless | src/mandate/exposure.ts:12-58 | over any repetition, each balance is the sum of deals added and not released |
| Exposure.ReleaseStaysBalanced | src/mandate/exposure.ts:49-58 | a release takes out exactly what its add put in; no clamp bites |
| Exposure.OpenMeans | src/mandate/exposure.ts:26-31 | the open deals are those added and never released, each once |
| Exposure.BookTotalsAgree | src/mandate/exposure.ts:41-58 | after any orderly operations, the book's balances added up over all parties, or over all days, are the total of the open deals |
| Exposure.CapsHold | src/mandate/engine.ts:91-102 | if every add follows an allowed evaluation on that book, the caps hold in every state |
| ControlStore.ControlStore.constructor | src/identity/control-store.ts:67-79 | a store starts from its stored rows |
| ControlStore.ControlStore.Issue | src/identity/control-store.ts:98-113 | a fresh row bound to entity and key |
| ControlStore.ControlStore.Verify | src/identity/control-store.ts:116-133 | the verdict on an answer and the row after it, in every case |
| ControlStore.SatisfiedExactlyWhenAccepted | src/identity/control-store.ts:98-165 | over any run a challenge is reported satisfied exactly when an answer was accepted since it was last sent and it has not been swept |
| ControlStore.SeenExactlyWhenSpent | src/identity/control-store.ts:146-165 | over any run an id counts as seen exactly when some step spent it; sweeping does not forget it, and the empty id is never recorded |
| ControlStore.ControlStore.Consume | src/identity/control-store.ts:146-153 | spends a challenge, an id, or both |
| ControlStore.ControlStore.Sweep | src/identity/control-store.ts:157-165 | exactly the challenges over for long enough go |
| ControlStore.AttestationTakenExactlyWhenVouched | src/protocol/control.ts:158-173 | a verifier's statement is taken exactly when pinned, signed, about this entity and key, in date and unspent |
| Issuance.Issuer.constructor | src/identity/issuer.ts:50-72 | an issuer opens the credentials and statuses stored |
| Issuance.Issuer.Issue | src/identity/issuer.ts:102-156 | outcome and state of an issue taken as one step |
| Issuance.Issuer.Rotate | src/identity/issuer.ts:189-261 | outcome and state of a rotation; a proof of control is spent before standing is checked |
| Issuance.Issuer.Revoke | src/identity/issuer.ts:263-269 | only a known credential is revoked |
| Issuance.ControlGivesBasis | src/protocol/control.ts:138-174 | a proof that passes was unused, about this entity and about the name the key goes by in that check, and is spent afterwards |
| Issuance.EveryRunKeeps | src/identity/control-store.ts:98-165 | over any run every row is traced to the steps that earned it, every credential to the step that minted it and the name its proof was judged for, and what a credential rests on stays spent |
| Issuance.OneProofOneCredential | src/identity/issuer.ts:121-154 | every credential traces to one step that judged its proof for the key's stated name in an issue and its thumbprint in a rotation; a contact challenge it rests on was sent for its entity and that name and answered in time within the allowed tries; no other credential rests on that proof |
| Issuance.IssueBindsExactlyWhenNamed | src/identity/issuer.ts:124-130 | a proof about one key's thumbprint, accepted by an issue, gives a credential for that key exactly when the key presented names itself by its thumbprint |
| Issuance.RotationBinds | src/identity/issuer.ts:196-228 | accepted by a rotation, it always does |
| Issuance.AnothersNameMintsOnAnothersProof | src/protocol/control.ts:14-177 | any other key, called by the first one's name, mints on the same proof exactly unless the entity has a current credential for yet another key |
| Issuance.InterceptedAnswerServesAnotherKey | src/protocol/control.ts:14-177 | a run in which a challenge sent for one key, and answered, ends as a credential for another |
| Issuance.BoundExactlyWhenNamed | src/identity/issuer.ts:124-196 | over any run, a credential on a challenge sent for a key's thumbprint is for that key exactly when its minting step was a rotation or presented a key that names itself by its thumbprint |
| Issuance.AttestedExactlyWhenNamed | src/identity/issuer.ts:124-196 | the same for a credential on a verifier's attestation |
| Issuance.ProofsAreBoundToTheKey | src/protocol/control.ts:13-21 | in a run whose every issue presents a key so named, every challenge or attestation a credential rests on was about that credential's own key |
| Issuance.AnswerOutlivesCode | src/identity/control-store.ts:140-143 | an answered challenge proves control however late it is presented |
| Issuance.FirstTryIsNeverCounted | src/identity/control-store.ts:123-132 | the first answer is judged before the try limit, so a limit of none still allows one |
| Issuance.InterleavedIssuesShareAChallenge | src/identity/issuer.ts:125-154 | two issues that both evaluate before either completes both mint on one challenge |
| Issuance.AttestationMintsAgainExactlyWhenUnnumbered | src/identity/control-store.ts:146-153 | an attestation presented again mints a second credential exactly when its id is empty; otherwise it is refused as replayed |

## Left out

- HTTP, timers, TLS, file persistence and fsync: their results are arguments.
- Ed25519, SHA-256 and JWS encoding: signatures are a relation and hashes are terms; a JWS with its payload attached is not modelled, only detached ones.
- WitnessCore.Core.GossipWith: one peer's turn; the loop over peers and unreachable peers repeat it. Broadcasting a proof is a separate step of the peer that receives it.
- WitnessCore.Core.Poll: one poll ends before the next begins; `signBlindly`, a fault of the simulator, is left out.
- Chain.Ledger.constructor: reading the stored file is an argument, and payload members no check reads are one text.
- VenueKeys.Resolver.Add: two certificates are the same when they are equal, where the original compares root signatures.
- Filer registration, licensing and their contradiction checks in src/protocol/registry.ts and src/registry/store.ts, regulator and filer words of record.
- UpstreamHistory.FrozenLiarIsConvicted: the policy must be shown in the frozen record and the evidence must carry that cancellation's own receipt day; a later notice that advances the date replaces it.
- Standing.Unanimity: whether the insurer's word is of record is an argument, and with no registry at all the bare-store case is not modelled.
- Rates, balances, tokens and cents are real numbers where the original has floating point; its rounding is not modelled.
- Numbers in Canonical are the numerals JSON writes for them, so zero and minus zero are one; objects are their own enumerable members, so a Date is an empty object.
- X12.ParseX12: a count that is not plain decimal digits is read as not a number, where JavaScript also takes forms such as `3.0`.
- LoadTender.Tender204: the rate's text in the NTE note is in rounded cents; the two agree for whole cents and the note is not read back.
- LoadTender.Read204: a numeral outside plain decimal digits is read as not a number, where JavaScript also takes other forms.
- The 990 and 214 bodies of src/edi/x12.ts and `interchangesFor`: the same printing with other constants.
- X12Theorems.InterchangeRoundTrip: for delimiters that are neither letters, digits, spaces nor line breaks, and bodies whose segments have ids other than the envelope's own.
- RateLimiter.WindowBound: for clocks that do not go back.
- Issuance.OneProofOneCredential: challenge and credential ids are fresh.
- ControlStore.ControlStore.Issue: the cooldown between challenges is its caller's check and is not modelled.
- Issuance.Issuer.Rotate: the comparison of signed claims with the request is one flag; `reissueUnder` and lineage queries are not modelled.
- The mandate engine's clauses other than exposure, renewals, risk and premiums, the artifact verdict table, the venue's negotiation and recovery, the console, agents and simulator.
