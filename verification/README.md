# DecisionLedger: a verified model of the framework core

DecisionLedger decides submissions through deterministic rules and policy gates, stores each decision
as a bundle, and must later be able to say who a decision was about, why it came out as it did, and
what evidence it rested on. This project models the parts of it that carry those promises and proves
them, for all inputs, all runs or all reachable states.

Four groups of modules, each named after the part of the program it models:

- **The identity graph.** `Identity`, `Projection`, `History`, `ProjectMembership`, `ProjectionLaws`:
  relationships asserted by decisions and journal events folded into validity intervals. The references are
  `Identity.IsInterval`, which says what an interval is without folding anything, and `History.Joined`, which
  says of two ids and an instant, from the events and identities alone, whether they are joined. `Incremental`,
  `MembershipTables`, `MembershipBatches`, `MembershipStore`, `Interleaving`, `InterleavedRuns`: the same
  projection kept up to date write by write, in batches and by interleaved processes, and exactly when that
  agrees with a rebuild. `Linked`: the ids linked to a subject, as a closure. `Timeline`: a
  subject's decisions read page by page while more arrive.
- **The decision algebra.** `Combinator`, `Predicates`, `Submissions`, `Enforcement`, `Intake`: predicates
  over evidence, bypass rules, the gate set, the two levels of enforcement, and the phases of a decision.
  `PredicateLaws`, `GateLaws`, `DecisionLaws`, `BundleLaws` say what each of these comes to over the inputs
  themselves; `EnforcementLaws`, `IntakeLaws` relate decisions to one another.
- **The ledger as a state machine.** `Registry`, `Replay`, `ReplayLaws`, `LedgerRuns`: start-up, registration
  writes, swaps, decisions in flight and bundle writes by any number of processes, and what replay then
  computes and finds. `Resolutions`: concurrent human resolutions. `Ndjson`, `NdjsonLaws`: batches.
- **The evidence path.** `Evidence`, `EvidenceLaws`: retrieval and merging. `Passages`, `PassageLaws`,
  `Chunks`, `ChunkLaws`: whether a document holds a passage, and how documents are cut. `Artifacts`,
  `Escrow`, `EscrowLaws`: what is kept and verified later.

`Wrappers`, `Sorting` and `Texts` hold the shared vocabulary.

Conventions. Instants are integers; ids (UUIDs, compared as PostgreSQL and Python compare them) are
natural numbers. SHA-256, UTF-8, UUIDv5 (section 5.5 of RFC 9562), the content address of a
registration, gate answers, document providers and the batch parser are function parameters. A SQL
table is a map, a set or a sequence; `ON CONFLICT DO NOTHING` is insertion when absent. Confidence is a
real number. A raised error is a value of `Result` or `Option`. What concurrency can do is modelled by
steps of a state machine (`LedgerRuns`, `Resolutions`) or by a sequence of growing states (`Timeline`,
`Escrow`).

What the proofs found where the code falls short of a plain reading of its promises. Each property below
has the exact condition under which it holds, and a concrete input or run on which it fails:

- An asserted relationship that is back-dated or future-dated can leave the stored projection different
  from its rebuild: `MembershipTables.WriteKeepsSync`, and it does in `MembershipTables.BackDatedWriteFails`.
- A bundle is stored by one statement and its relationships opened by others, so processes can overtake one
  another: `InterleavedRuns.RunEndsInSync`, and they do in `InterleavedRuns.OvertakenWriteFails`.
- `write_many` with one decision id twice in a batch opens the relationships of a bundle that is not stored:
  `MembershipBatches.BatchAgrees` says when that shows, and it does in `MembershipBatches.RepeatedIdFails`.
- A decision can gain a second terminal resolution: `Resolutions.AtMostOneTerminal`, and it does in
  `Resolutions.TwoResolutionsHappen`. The realized action is unaffected.
- The enforcement of a non-deterministic gate can differ from the older single-pass resolver:
  `EnforcementLaws.CascadeMatchesSinglePass`, and it does in `EnforcementLaws.EvidenceRuleDiffers`.
- A passage that already carries an artifact digest when a provider returns it keeps it when nothing is
  escrowed for it, although `escrow_documents` documents `artifact_hash` as what the escrow returned:
  `EscrowLaws.VerifiesForever`, and such a reference does not verify in `EscrowLaws.ForeignHashFails`.
- `assign_spans` documents that repeated text is located where a chunk has it:
  `Chunks.LocatedAsTheyStand`, and it is not in `Chunks.RepeatIsMislocated`.

## Model

| member | source | states |
|---|---|---|
| `ProjectMembership.ProjectMembership` | core/identity.py:430-530 | The projection shows two ids joined at an instant if and only if the last event about them up to it, by time and then by place in the journal, merges or relates them, or an identity relates them later than it, or no event is about them and an identity relates them; every interval opens at such an event or assertion, in its orientation, and ends at a detach or unrelate; rows come in the stated order, none twice; and they are exactly the order-free intervals |
| `History.ShowsWhatIsJoined` | core/identity.py:436-452 | The same equivalence for any set of the intervals the operations describe, over events and identities only |
| `Projection.FoldMeaning` | core/identity.py:487-518 | The intervals the fold emits or leaves open are exactly those of the order-free definition: one per run of openings, from its first opening to the next closing |
| `Projection.PointInTime` | core/identity.py:436-452 | An interval of a link covers an instant exactly when the last operation on the link at or before it, in (time, assertions before journal, position) order, relates or merges |
| `Projection.IntervalsAreDisjoint` | core/identity.py:393-423 | Intervals of one link never overlap, so at most one is open, and none fails the validator |
| `ProjectionLaws.ProjectionDependsOnAssertions` | core/identity.py:449-458 | Two lists of identities asserting the same relationships at the same instants give the identical projection: order and repetition change nothing |
| `Incremental.InsertIsRebuild` | app/audit/store.py:264-281 | Insert-unless-open on a link yields the rebuilt intervals if and only if the new assertion is timely: with an open row, it changes nothing the fold sees; without one, no closing stands at its instant or later |
| `MembershipTables.WriteKeepsSync` | app/audit/store.py:405-445 | Writing a bundle, nothing between its two statements, keeps the stored projection equal to the fold of journal and bundles if and only if every relationship it asserts is timely |
| `MembershipTables.BackDatedWriteFails` | app/audit/store.py:264-281 | A journal that ends a relationship at 20 and a bundle asserting it at 5: in sync before, not timely, and not in sync after |
| `MembershipTables.LaterIsTimely` | app/audit/entity_journal.py:232-266 | An assertion later than every journal event on its link, and not earlier than any assertion on it, is timely |
| `MembershipTables.RunStaysInSync` | app/audit/store.py:430-436 | Over any run of writes in time order, appends that rebuild, and rebuilds, the stored projection is at every point the rebuilt one |
| `Interleaving.InterleavedEndsInSync` | app/audit/store.py:430-436 | Bundles stored and rows opened in any order since the projection was in sync leave it in sync if and only if on every link they are serial: on an open link every assertion is redundant, on another the first row opened is after every closing and no other assertion earlier than it counts |
| `InterleavedRuns.RunEndsInSync` | app/audit/store.py:405-445 | A run of processes that store a bundle and open its rows in separate steps, with appends and rebuilds between, and with nothing left to open, ends in sync if and only if what was stored and opened since the last rebuild is serial on every link |
| `InterleavedRuns.OvertakenWriteFails` | app/audit/store.py:430-436 | A run of two processes that store bundles relating the same subjects at 1 and at 2, the second opening its row first: it leaves nothing to open and ends out of sync |
| `InterleavedRuns.AloneIsWrite` | app/audit/store.py:405-445 | Undisturbed, the steps in which a process stores a bundle and opens its rows leave exactly the tables of one write, and nothing to open |
| `MembershipStore.BundleStore.Write` | app/audit/store.py:405-445 | A bundle of a new id adds exactly its identity's relationships, open from the instant it was established, that have no open row yet; a known id changes nothing; and exactly when that keeps the tables in sync |
| `MembershipStore.BundleStore.WriteMany` | app/audit/store.py:447-489 | The tables after a batch; with distinct ids, those of the single writes in order |
| `MembershipBatches.BatchAgrees` | app/audit/store.py:470-488 | Any batch leaves the tables of the single writes if and only if, on each link not open yet, the first row it opens is the first row of the bundles stored, or neither has one |
| `MembershipBatches.BatchIsWrites` | app/audit/store.py:447-489 | A batch of bundles with distinct ids leaves the tables of the single writes |
| `MembershipBatches.RepeatedPair` | app/audit/store.py:470-488 | A batch of two bundles under one new id agrees with single writes if and only if the first write leaves each of the second's links open |
| `MembershipBatches.RepeatedIdFails` | app/audit/store.py:470-488 | Decision 7 without an identity, then decision 7 relating 1 to 2, in one batch: the tables differ from those of the single writes |
| `MembershipStore.EntityJournal.Append` | app/audit/entity_journal.py:127-205 | An event of an undeclared type, or that the ledger cannot store, refuses the batch, the first such event being reported, and changes nothing; otherwise the events are appended and, by default, the projection rebuilt into agreement |
| `MembershipStore.EntityJournal.Rebuild` | app/audit/entity_journal.py:232-266 | The stored projection becomes exactly the fold of its sources, strictly sorted |
| `MembershipStore.OrderIsIrrelevant` | app/audit/entity_journal.py:241-256 | Reading the asserting bundles in `created_at` order reads the same assertions as any order |
| `MembershipStore.SyncShowsWhatIsJoined` | app/audit/entity_journal.py:232-266 | Tables in sync show two ids joined at an instant if and only if the stored events and the identities of the stored bundles say they are, by the same rule, and every row is traced to what opened and ended it |
| `Linked.Merged` | core/identity.py:564-577 | The frontier search terminates and returns exactly the ids joined to a seed by undirected paths of current merges, whatever extra or closed intervals the oracle returns |
| `Linked.LinkedEntities` | core/identity.py:533-593 | The answer maps exactly the merged ids to none, and exactly the ids related by the asked type to that type |
| `Linked.RelatedIsNotOwn` | core/identity.py:590-593 | Related ids are never the subject's own, so the final subtraction removes nothing |
| `Linked.RelatedSymmetric` | core/identity.py:579-593 | Being linked by a relationship type is symmetric between identity classes |
| `Linked.AnswerIsPerClass` | core/identity.py:533-562 | Every id merged with the subject gets the same answer, map for map |
| `Timeline.PageIsExact` | app/audit/store.py:749-783 | A page holds, newest first, at most the limit of the linked subjects' decisions, of the reasoner if one is asked for, after the cursor; every such decision left out comes after the page's last, and none is left out of a page that is not full |
| `Timeline.WalkIsComplete` | app/audit/store.py:692-783 | Paging to a page that is not full, while decisions arrive between pages, yields every matching decision present at the start exactly once, only matching ones, in strictly descending order |
| `Timeline.WalkFinishes` | app/audit/store.py:692-783 | A walk with room for more rows than the table holds in the end has met a page that is not full |
| `Combinator.MostRestrictive` | core/gate/combinator.py:65-88 | The result is one of the candidates and none is stricter; nothing only when there is no candidate |
| `Predicates.VerdictIsLocal` | core/gate/predicate.py:224-262 | A predicate's verdict, true, false or the specific error, depends only on the fields it references |
| `Predicates.VerdictIsMonotone` | core/gate/predicate.py:286-332 | Adding features never changes a verdict reached without error |
| `Predicates.NegationDistributes` | core/gate/predicate.py:151-183 | Negating `AllOf` is `AnyOf` of the negations and conversely, errors preserved |
| `PredicateLaws.OrderingLaws` | core/gate/predicate.py:315-332 | On numbers, `Lt` is closed downwards and `Gt` upwards, neither holds at its bound, exactly one of `Lt`, `Equal` and `Gt` holds, `Le` is `Lt` or `Equal`, `Ge` is not `Lt`, and integers and floats compare as reals |
| `PredicateLaws.LessIsInhabited` | core/gate/predicate.py:326-327 | Below every bound there is a number that `Lt` admits |
| `PredicateLaws.OrderingErrs` | core/gate/predicate.py:318-320 | An ordering fails to evaluate exactly on a value that is no number, booleans included, and names the field, the value and the operator |
| `PredicateLaws.EqualityLaws` | core/gate/predicate.py:296-317 | Equality keeps booleans, numbers and texts apart; `In` holds when some value is equal; `NotEqual` and `NotIn` are the negations |
| `PredicateLaws.AllIsFirstDecisive` | core/gate/predicate.py:241-242 | `AllOf` holds if and only if every child does, and otherwise is the first child that fails to hold or to evaluate |
| `PredicateLaws.AnyIsFirstDecisive` | core/gate/predicate.py:243-244 | `AnyOf` fails if and only if every child does, and otherwise is the first child that holds or fails to evaluate |
| `PredicateLaws.ReferencedAreMentioned` | core/gate/predicate.py:248-262 | The referenced fields are exactly those some comparison in the tree is about |
| `Submissions.EvaluateBypass` | core/submission.py:416-438 | The check holds if and only if the predicate evaluates to true, carries exactly the error it evaluates to, and records exactly the values the evidence has in the fields the predicate mentions |
| `Submissions.ObservationsSuffice` | core/submission.py:428-438 | Evaluating a rule on its recorded observations alone gives the same check |
| `Submissions.MatchingBypassRule` | core/submission.py:385-413 | A strictest rule that holds; none exactly when none holds |
| `Submissions.MatchingIsFirst` | core/submission.py:412-413 | That rule stands before every other that holds and is as strict |
| `Submissions.CompetingInOrder` | core/submission.py:441-465 | Exactly one check per registered rule other than the cited one, in registration order |
| `Submissions.AcceptedExactly` | core/submission.py:311-382 | A submission is accepted if and only if it is for the registration's reasoner, a record cites a registered rule with its action, recordable, at the pinned version, a native subject is the one its namespace derives, gate contexts and bound gates match, and a gated request has a gate to run; and then the cited rule is returned, none when gated |
| `BundleLaws.RefusedExactly` | core/submission.py:350-382 | A refused submission gets the code of the first condition it fails, each condition stated over the submission and the registration |
| `BundleLaws.AcceptedByAll` | app/submit.py:245-265 | Intake accepts a submission if and only if it violates no condition and no composed gate, bound or mandated, refuses the configuration sent to it, an empty one when none is; a violation comes before a refusal, and the first refusing gate of the set is reported |
| `BundleLaws.GateSetIs` | core/submission.py:297-308 | The gate set is the registration's gates in order, with their configuration, mandatory if bound so or mandated, and then the other mandated gates, sorted, mandatory and without configuration |
| `GateLaws.GateIsExact` | app/enforcement/resolver.py:115-227 | For every output: HOLD by Tier 1 without output or verdict; BLOCK by Tier 2 for the probe control of a gate that is not deterministic; HOLD by Tier 4 for such a gate under 0.60 when HOLD or BLOCK is permitted or nothing is; HOLD by Tier 5 for evidence with a jurisdiction when the conflict control is there, the gate escalates with "jurisdiction" or "conflict" in any ASCII case, or two different groups each share a jurisdiction with the evidence; otherwise the strictest permitted action, HOLD for none |
| `DecisionLaws.DecisionIsExact` | app/enforcement/resolver.py:235-393 | A decision is the strictest of exactly the actions that enter: the proposal, every mandatory gate's, the floors of a record, every advisory gate's, or what a novel entity makes of them; its rule is the one those inputs call for; it fails only for a record without its check and when nothing enters |
| `DecisionLaws.CreditIsExact` | app/enforcement/resolver.py:396-432 | The decision-level rule is credited if and only if it set the action; otherwise the first record enforced as that action answers, and without one nobody |
| `Enforcement.ResolveDecision` | app/enforcement/resolver.py:235-338 | The method's decision is the combination that `DecisionLaws.DecisionIsExact` characterises |
| `Enforcement.BypassRules` | app/enforcement/resolver.py:341-393 | The terms gain HOLD for an unmet citation, a floor no milder than any stricter rule that holds, and nothing else; the credit goes to the stricter rule, to the unmet citation on a tie, and to nobody when there is no floor |
| `Enforcement.FirstCredit` | app/enforcement/resolver.py:428-432 | The rule of the first record whose enforced action is the final one, and none without such a record |
| `EnforcementLaws.TwoLevelsRefineCascade` | app/enforcement/resolver.py:157-227 | With one advisory gate, no proposal and no mandatory gate, action and credited rule are those of tiers 1 to 6 run in order, each tier stated over the output's fields and the evidence |
| `EnforcementLaws.CascadeMatchesSinglePass` | tests/app/test_enforcement.py:677-712 | For a non-deterministic gate the cascade agrees with the single-pass resolver it replaced if and only if the evidence rule does not apply |
| `EnforcementLaws.EvidenceRuleDiffers` | tests/app/test_enforcement.py:677-712 | An output that flags a conflict on evidence without jurisdictions: the single pass holds it, the cascade allows it |
| `EnforcementLaws.OrderIsInvisible` | app/enforcement/resolver.py:288-313 | Records with the same members, so any permutation, give the same action and decision-level rule |
| `EnforcementLaws.ProposalBinds` | app/enforcement/resolver.py:277-313 | The decision is at least the proposal, whatever the gate records, none included |
| `EnforcementLaws.NothingRelaxes` | app/enforcement/resolver.py:277-313 | The decision is at least every mandatory action and, gated and not novel, every advisory action |
| `Intake.RunGateSet` | app/submit.py:354-402 | One record per binding, in binding order, each of its own gate's answer; what each records is `BundleLaws.RecordsAre` |
| `BundleLaws.RecordsAre` | app/submit.py:298-321 | One record for every gate of the set, mandatory gates first, each part in the set's order; a gate that runs records its own answer, or that it failed, and what the tiers make of it; advisory gates run exactly when the decision is gated and no mandatory gate blocks, and are otherwise skipped with nothing recorded |
| `BundleLaws.BundleIs` | app/submit.py:230-351 | The bundle of an accepted submission: that submission, the records of the gate set, for a record the check of a rule it may cite and one of every other rule, each saying what the evidence makes of it, and the decision these come to |
| `Intake.Decide` | app/submit.py:191-351 | The phases, with the loops over gates and fields, build the bundle `BundleLaws.BundleIs` describes |
| `IntakeLaws.ShortCircuitIsInvisible` | app/submit.py:309-320 | Running the advisory gates a mandatory BLOCK skipped, whatever they answer, leaves action and decision-level rule unchanged |
| `IntakeLaws.BlockAbsorbs` | app/submit.py:414-420 | Once a mandatory gate blocks, the decision is BLOCK with no decision-level rule, whatever the advisory records |
| `IntakeLaws.FailedGateHolds` | app/submit.py:381-402 | A gate that failed and was not skipped forces at least HOLD |
| `IntakeLaws.GateSetGrows` | core/submission.py:278-308 | Mandating more gates keeps every mandatory gate, keeps or upgrades every advisory one, and adds no advisory one |
| `IntakeLaws.MandatingNeverRelaxes` | core/submission.py:297-308 | With gate answers fixed and both submissions accepted, mandating more gates keeps or raises the action, in both modes |
| `IntakeLaws.LenientCitationGainsNothing` | app/enforcement/resolver.py:352-393 | Whichever rule a valid record cites, the decision is at least the action of the rule `matching_bypass_rule` would choose |
| `IntakeLaws.MatchingCitationAddsNoFloor` | core/submission.py:385-413 | Citing that rule adds no floor, and with no mandatory gate yields exactly its action |
| `Registry.RegistrationSnapshots.Record` | app/audit/registrations.py:96-128 | A version's snapshot is inserted once, never replaced, and the version is the content address |
| `Registry.ApiRegistrations.Save` | app/audit/registrations.py:259-326 | Snapshot and registry row are stored together, the snapshot only when absent |
| `Registry.ApiRegistrations.Load` | app/audit/registrations.py:213-257 | An entry is returned if and only if some registry row names a stored snapshot that gives it, and entries are strictly sorted by reasoner when snapshots are filed under their own |
| `Registry.LiveReasonerRegistry.Entries` | app/reasoner_registry.py:214-217 | Exactly the served entries, each once, sorted by reasoner |
| `Registry.LiveReasonerRegistry.Register` | app/reasoner_registry.py:219-265 | A declared reasoner is refused, an unchanged registration writes nothing, any other is stored and then served; the whole new state of map and tables |
| `Replay.ReplayBundle` | app/audit/store.py:864-939 | The loops over gates and rules compute the replay `ReplayLaws.ReplayRecomputes` describes |
| `ReplayLaws.ReplayRecomputes` | app/audit/store.py:878-939 | For every bundle and registration: each gate that was enforced is reported with its stored action and the action the tiers make of its stored output under the registration's groups, each skipped one with neither; every check is evaluated again on the stored evidence; and the action and rule reported are the decision these come to |
| `ReplayLaws.MatchedExactly` | app/audit/store.py:222-230 | Replay matches if and only if every stored gate action, the cited rule's verdict, every other rule's verdict and the action are the ones computed again |
| `ReplayLaws.ReplayFails` | app/audit/store.py:917-924 | Replay fails only for a record stored without its check, or when no action enters |
| `ReplayLaws.AlteredDoesNotMatch` | app/audit/store.py:891-909 | A bundle whose gate flags a jurisdiction conflict and is stored as allowed: the gate is replayed as HOLD and the bundle does not match, under any registration |
| `Replay.ReplayReproduces` | app/audit/store.py:864-939 | Replaying a decided bundle against a registration with the same enforcement profile reproduces its action, its rule, every gate's action and every bypass check |
| `LedgerRuns.StepKeepsInv` | app/reasoner_registry.py:241-265 | Every step of every process keeps: served entries and in-flight registrations have their snapshots, and stored bundles cite the version they were decided under |
| `LedgerRuns.StartUpServes` | app/bootstrap.py:139-152 | Start-up serves exactly the declared and the stored registrations, each under its reasoner and with a snapshot; it is refused, changing nothing, if and only if two of them are for one reasoner |
| `LedgerRuns.BegunIsKept` | app/reasoner_registry.py:219-265 | A decision begun between two writes of its reasoner's registration is stored under the one it began with, although the second is served by then; both have their snapshots |
| `LedgerRuns.RunKeepsInv` | app/audit/registrations.py:259-326 | Over any run no snapshot and no stored bundle ever changes |
| `LedgerRuns.ReplayHoldsOverEveryRun` | app/audit/store.py:651-682 | In every reachable state and from every process, each stored bundle's version has a snapshot equal to the registration it was decided under, and replaying it matches |
| `Resolutions.ResolutionJournal.ResolveDecision` | app/api/decisions.py:640-675 | Undisturbed, a resolution is refused exactly when not resolvable or already realized, and otherwise appends the next attempt and realizes its action |
| `Resolutions.ResolutionJournal.RealizedAction` | app/audit/resolution_journal.py:173-202 | The decision's own ALLOW or BLOCK; otherwise the ALLOW or BLOCK of the attempt of the least sequence that has one, and nothing when none has |
| `Resolutions.Undisturbed` | app/api/decisions.py:640-675 | The three steps of a resolver no other disturbs append the decision's next attempt, unless its action is realized already, and leave no trace otherwise |
| `Resolutions.RealizedIsPermanent` | app/audit/resolution_journal.py:195-202 | Under any interleaving of resolvers, attempt numbers stay 0 to n-1 and a realized action is that action forever |
| `Resolutions.SecondResolution` | app/api/decisions.py:647-657 | An insert follows an already realized action if and only if its resolver counted more attempts than it saw at its check |
| `Resolutions.AtMostOneTerminal` | app/api/decisions.py:647-675 | Over any run a decision keeps at most one terminal resolution if and only if no insert on it came from a resolver that counted more attempts than it saw at its check |
| `Resolutions.TwoResolutionsHappen` | app/api/decisions.py:647-675 | A run of two resolvers that stores two terminal resolutions of one decision |
| `Ndjson.CutIsUnique` | app/api/decisions.py:164-171 | Cutting a body at line feeds is the one way to write it as pieces without line feeds joined by line feeds |
| `Ndjson.LinesMeaning` | app/api/decisions.py:149-180 | The lines are exactly the non-blank pieces without their trailing carriage return, under their 1-based positions, in order |
| `Ndjson.NdjsonLines` | app/api/decisions.py:162-180 | The loop returns those lines, or refuses exactly when there are more than a batch may hold |
| `Ndjson.BodyParsesBack` | app/client.py:257 | A client's body parses back to its lines numbered 1 to n if and only if no line holds a line feed, is blank, or ends in a carriage return |
| `NdjsonLaws.LinesExactly` | app/api/decisions.py:149-180 | However a body is written as pieces without byte 10 joined by it, its lines are the pieces less one byte 13 at their end that hold something other than the six ASCII spaces, under their 1-based positions, in order |
| `NdjsonLaws.BatchExactly` | app/api/decisions.py:269-369 | A batch is refused for its size, its number of lines, having none, or a submission its sender may not make, in that order; otherwise each line is rejected with its parser's or its decision's code, or as a gated submission, or recorded, in line order |
| `NdjsonLaws.WrittenInOrder` | app/api/decisions.py:356-357 | The bundles written are those of the recorded lines, each once, in line order |
| `Ndjson.RecordBatch` | app/api/decisions.py:269-369 | With lines decided in any order, each as a decision of its own, the results are those of `NdjsonLaws.BatchExactly`, the bundles written are theirs, and recorded plus rejected is the number of lines |
| `Evidence.FilterIsIntersection` | gates/policy_rag/src/policy_rag_gate/gate.py:340-372 | The filter admits exactly the jurisdictions both sides admit, is never an empty list, and a corpus goes unqueried exactly when that is nothing |
| `Evidence.CheckContract` | gates/policy_rag/src/policy_rag_gate/gate.py:375-450 | An answer passes if and only if it is labelled with its corpus and provider, is within the quota, and every passage has its text's digest, its corpus, provider and tier, its place as rank, and at least the provenance the binding asks for |
| `Evidence.Merge` | gates/policy_rag/src/policy_rag_gate/gate.py:594-608 | The merge loop keeps exactly the first passage of each key and counts the repeats by corpus and in total |
| `Evidence.RetrieveEvidence` | gates/policy_rag/src/policy_rag_gate/gate.py:521-617 | Retrieval fails exactly when some queried corpus fails or breaks the contract; otherwise records, passages and merges are those of the answers |
| `EvidenceLaws.RetrievalIs` | gates/policy_rag/src/policy_rag_gate/gate.py:521-617 | A successful retrieval asked each corpus, in the binding's order, under exactly the admitted jurisdictions, or not at all when there are none; every answer is as contracted; one query is recorded for each with what it returned; and the passages merged are exactly those answered |
| `EvidenceLaws.KeptFirst` | gates/policy_rag/src/policy_rag_gate/gate.py:594-608 | The kept passages are those at exactly the positions where a key first occurs, in order |
| `EvidenceLaws.EachKeptOnce` | gates/policy_rag/src/policy_rag_gate/gate.py:593-608 | Of the passages retrieved with one content digest and one jurisdiction, one is kept |
| `EvidenceLaws.RefsAre` | gates/policy_rag/src/policy_rag_gate/gate.py:320-337 | Each passage's reference has its document, its jurisdiction if it names one, its digest and its escrowed document's digest |
| `EvidenceLaws.MergingConserves` | gates/policy_rag/src/policy_rag_gate/gate.py:609-617 | For every corpus, returned equals kept plus merged |
| `EvidenceLaws.AnsweredConforms` | gates/policy_rag/src/policy_rag_gate/gate.py:421-442 | What the contract and a binding that names each corpus once guarantee of the answers: labels, tiers and ranks in place, one answer per corpus |
| `EvidenceLaws.KeptHasPrecedence` | gates/policy_rag/src/policy_rag_gate/gate.py:531-540 | A kept passage comes first by tier, then binding order, then rank among all retrieved with its key |
| `EvidenceLaws.MergingIsInvisible` | app/enforcement/resolver.py:202-217 | Merging changes neither the union of jurisdictions nor the action and rule enforcement reaches on the gate's output |
| `Passages.GreedyIsExact` | gates/policy_rag/src/policy_rag_gate/gate.py:772-781 | Taking each paragraph at its first occurrence succeeds if and only if the paragraphs can be placed in order without overlap |
| `PassageLaws.SplitIsUnique` | gates/policy_rag/src/policy_rag_gate/gate.py:773 | The split is the one way to cut a text into pieces joined by two line feeds, each followed by the first such break after its start |
| `PassageLaws.HoldsExactly` | gates/policy_rag/src/policy_rag_gate/gate.py:752-781 | A document holds a passage with a span if and only if the span is within it and its text has the passage's digest, and one without if and only if the pieces of its text that are not white space can be read in the document, one wholly after another |
| `Passages.PassageHolds` | gates/policy_rag/src/policy_rag_gate/gate.py:752-781 | The method decides that |
| `Passages.ContiguousHolds` | gates/policy_rag/src/policy_rag_gate/gate.py:755-759 | Any contiguous passage holds, with its span or without |
| `Chunks.MergeShort` | gates/policy_rag/src/policy_rag_gate/corpus_loader.py:246-257 | The index loop merges each short section into one with the section after it |
| `ChunkLaws.MergedExactly` | gates/policy_rag/src/policy_rag_gate/corpus_loader.py:246-257 | Every section goes, in order, into exactly one merged section: with the next one, after a blank line, if and only if it has under 30 words and is not the last, and else alone; words are counted by their ends |
| `ChunkLaws.KeptExactly` | gates/policy_rag/src/policy_rag_gate/corpus_loader.py:259-271 | Each merged section that is not white space becomes one chunk, in order, with its path and text |
| `Chunks.AssignSpans` | gates/policy_rag/src/policy_rag_gate/corpus_loader.py:494-511 | In place, each chunk gets the offsets of its first occurrence after the previous one located, or none |
| `Chunks.SpansFit` | gates/policy_rag/src/policy_rag_gate/corpus_loader.py:494-511 | Spans are in bounds, hold the chunk's text, and are increasing and disjoint; nothing else of a chunk changes |
| `Chunks.LocatedAsTheyStand` | gates/policy_rag/src/policy_rag_gate/corpus_loader.py:494-511 | Given where each chunk stands in the body, if anywhere, every span given is the chunk's own, and none for a chunk that stands nowhere, if and only if no copy of a chunk's text starts between the end of the last chunk that stands before it and its own place, nor after that end when it stands nowhere |
| `Chunks.RepeatIsMislocated` | gates/policy_rag/src/policy_rag_gate/corpus_loader.py:246-257 | A body of three short sections, the last two alike: the first two merge into a chunk that stands nowhere, and the last, standing at 19, is located at 12 |
| `Chunks.ChunksHold` | gates/policy_rag/src/policy_rag_gate/corpus_loader.py:246-271 | Every chunk cut from sections that are slices of the body, merged or not, located or not, holds in that body when cited |
| `Artifacts.ArtifactStore.Put` | app/audit/artifacts.py:102-156 | A blank label is refused, a disabled escrow stores nothing, and otherwise the content's digest is returned and a row added only when absent |
| `Artifacts.ArtifactStore.Get` | app/audit/artifacts.py:158-175 | The bytes held under a digest; a malformed one is held by no row |
| `Artifacts.ArtifactStore.Held` | app/audit/artifacts.py:177-193 | Exactly the asked digests that are held |
| `Escrow.DocumentsOnce` | gates/policy_rag/src/policy_rag_gate/gate.py:695-700 | Each document cited is fetched and put once |
| `Escrow.EscrowDocuments` | gates/policy_rag/src/policy_rag_gate/gate.py:657-730 | It succeeds if and only if each passage's corpus was queried, as the last query for it has it, its provider is installed and, if it fetches documents, fetches that document, of the version asked for, with its text's digest and still holding the passage; then each passage cites the digest of that text, unchanged if none is fetched, and the escrow is the old one with those documents put, in the order first cited; failing, with the first few put |
| `Escrow.Verify` | gates/policy_rag/src/policy_rag_gate/gate.py:931-969 | One status per reference: past the snapshot, or without one, not verifiable; intact if and only if it has the digest of the passage at its place and the content held under its artifact digest, with that digest, decodes to a text that holds that passage; its source changed if and only if that text does not; otherwise not verifiable |
| `EscrowLaws.AfterIsSupplied` | gates/policy_rag/src/policy_rag_gate/gate.py:700-722 | After the call the escrow keeps what it held, and holds content under a digest if and only if it held it before or the call fetched it, absent a SHA-256 collision |
| `EscrowLaws.FetchedIsIntact` | gates/policy_rag/src/policy_rag_gate/gate.py:700-730 | A passage whose document was fetched and put is intact right after the call |
| `EscrowLaws.StatusIsPermanent` | gates/policy_rag/src/policy_rag_gate/gate.py:954-969 | A status other than not verifiable is the same in every later state of the escrow |
| `EscrowLaws.VerifiesForever` | gates/policy_rag/src/policy_rag_gate/gate.py:723-730 | `Escrow.Verify` reports every reference that carries a digest intact, in every later state of the escrow, if and only if, for every passage with its own digest from a provider that fetches no documents, content held before the call or fetched by it under that digest decodes to a text that holds the passage |
| `EscrowLaws.EscrowEvidence` | gates/policy_rag/src/policy_rag_gate/gate.py:1307-1316 | The same, as what a successful call of the gate's escrow step leaves, of the escrow before it |
| `EscrowLaws.ForeignHashFails` | gates/policy_rag/src/policy_rag_gate/gate.py:723-730 | One passage with its own digest, a provider that fetches no documents and an empty escrow: escrowed without error, and not verifiable |

## Left out

- Log text, override logs, latencies, rendered prompts and messages: only actions, rules and counts are kept.
- JSON and Pydantic: stored values reload unchanged, and numbers that compare equal are equal.
- PostgreSQL and Elasticsearch themselves: statements are atomic and succeed; a process that dies between the statements of one write, and any schema constraint beyond the keys named here, is not modelled.
- Embeddings, ranking, the LLM call and prompt templates: a gate invocation is an arbitrary output or a failure; a provider's answer is an arbitrary value held to the evidence contract.
- The identity resolver's own calls and retries: a decision carries an arbitrary valid identity or none.
- `derive_entity_id`: a function parameter; nothing here depends on its bits.
- The `edges` oracle is faithful to one projection for the length of a call: a journal append between two frontier steps of one call is not modelled.
- The content address of a registration is assumed to separate the registrations of one reasoner that a run mentions (`LedgerRuns.Addresses`).
- Live verification (`_live_status`, `_fetch_now`): it reports what a provider holds at that moment, which nothing stored determines.
- Markdown parsing in `chunk_document`: chunks start from the raw sections; where removing a title line makes a section other than a slice of the body, `Chunks.ChunksHold` does not apply.
- `assign_chunk_ids`, `chunk_id`, `manifest_hash`, `content_digest`: digests of joined fields, with easy properties only.
- The order of dictionary values where the program sorts them afterwards.
- `_held`, the tiered report's floor on a verdict: a one-step instance of the combinator.
- Upper-case letters outside ASCII in escalation reasons: `GateLaws.Says` looks for two ASCII words.
- Two reasoners declaring one namespace differently, which start-up also refuses: `LedgerRuns.StartUpServes` is about reasoner ids.
- Lone surrogates and other text UTF-8 cannot encode: encoding is total here.
- Routes, authentication keys, problem documents, settings, entry points, the evaluation suite, schema export and conformance checks: plumbing with easy properties.
- `Escrow.EscrowDocuments`: providers answer as functions of their arguments, and no other process puts content between the puts of one call.
- `MembershipStore.EntityJournal.Append`: which values the ledger cannot store (`storage_problem`) is a function parameter.
- `MembershipStore.BundleStore.WriteMany`: interleaving with other processes is modelled for the writes of single bundles only.
- `Ndjson.RecordBatch`: the semaphore's width and what happens when storing the batch fails are not modelled.
