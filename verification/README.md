# Proofs about OMEM's record format, erasure and commons

An append-only record is worth keeping only if whatever is derived from it follows from it exactly.
This project models the pieces of the repository that make such derivations and proves what each is
for, over all inputs and all runs:

* the Testimony Record validator: inclusion proofs, CBOR, the canonical form and its digest,
  timestamps, the checks and the level ladder (`MerkleTree`, `InclusionProof`, `Utf8`, `Cbor`,
  `CborEncoding`, `CborLanguage`, `CborTruncation`, `Json`, `JsonReader`, `JsonShortest`,
  `CanonicalForm`, `Calendar`, `TestimonyRecord`, `Validator`, `Assurance`, `Levels`);
* erasure of a person from the op log, and the spelling and contradiction rules of the same server
  (`OpLog`, `Erasure`, `ForgetEntity`, `Spelling`, `SlugWords`, `Contradictions`);
* the commons: a contributor, a collector, the pool and its releases (`Wilson`, `CommonsTokens`,
  `Contribution`, `Collector`, `PublishedIsKept`, `Pooling`, `PooledBank`, `Ledger`, `Release`,
  `ReleaseRecomputes`);
* the exporter, against the validator beside it (`Export`, `Gathering`, `ExporterInvariant`,
  `RunRecords`, `RunActs`, `Numbering`, `UtcTime`, `ExportedRecord`, `RecordReads`,
  `ExportApproval`, `ExportLevel`);
* the narrow conflict query and the belief diff (`NarrowConflicts`, `BeliefDiff`).

`Wrappers`, `Hashing` and `Ordering` are shared. Code that changes things step by step is a method or
a class method proved against a function or predicate of the inputs or the old state; what the
program promises is then proved of that function.

SHA-256 is an arbitrary function. A theorem that needs collision resistance names the finite set of
messages the two computations hash and asks that no two of those collide. Square roots are any
function that squares back to its argument, and rates are reals.

## Where the code is not what its documentation or neighbour expects

* Negative leaf indices pass the range test of `reconstruct_root` and are walked
  (`InclusionProof.Outcome`); a CBOR number or string cut short is read all the same, at any depth,
  and `CborTruncation.FinalIffWithin` tells such a success from a final one; a break byte where an
  item is due, and an unsigned number or a tag without one, are let pass although section 3 of
  RFC 8949 has no such items (`CborLanguage.ReadsExactlyEncodings`); a month 00 reads as December, a
  day early in leap years, and a month past 12 raises (`Calendar.UncheckedMonths`).
* `_negation_counterpart` is described as involutive; `Contradictions.CounterpartReturnsIff` gives the
  exact exceptions. `canonical_form` does not always settle at once (`Spelling.OnceSettlesIff`).
* `conflicts_for` is described as equal to the filtered full scan for any candidate; it is so exactly
  when any two open claims in conflict share a raw subject (`NarrowConflicts.WholeAnswerIff`), which
  merging two names can break (`MergedNamesCanHideAConflict`).
* An erasure can be refused when a surviving op names a removed coreference or split as a claim, and
  only then (`Erasure.PrunedLogReplaysIff`).
* Two requests to forget need not commute: a request refused on the log as it stands can be granted
  once another has been. On `ForgetEntity.COREFERENCE_SUPERSEDED` the order decides whether a person
  stays on record (`OrderCanShow`); `OrderIsHiddenIff` says exactly when it does not matter.
* A published pattern can be passed over by the collector, by the rounding of its base rate
  (`PublishedIsKept.RoundingLosesARow`), and a population past ten million is refused
  (`MinedVerdict`).
* `latest_per_instance` speaks of the newest snapshot; it is the newest that grants the use asked for
  (`Ledger.LatestIsNewest`).
* The exporter's approval names only the first action it unlocked, so an approved repair with a
  further high-risk action fails the validator at TR-3 (`ExportLevel.TwoHighRiskActions`). It writes
  no scope entry, so an export without decisions fails there too (`ExportLevel.ExportLevel`).

## Model

| member | source | states |
|---|---|---|
| InclusionProof.ReconstructRoot | scripts/testimony_validate.py:318-343 | the two loops compute the walk over the registers `fn`, `sn`, refusals included, for every index and size; both end, and the inner guard `fn != 0` never ends the inner one |
| InclusionProof.WalkIsFromTop | scripts/testimony_validate.py:328-343 | the bottom-up loop and the top-down recursion of section 2.1.3.1 of RFC 9162 reach the same root, or both reach none, for every leaf position, tree size and path |
| InclusionProof.Complete | scripts/testimony_validate.py:318-343 | for every non-empty tree and every leaf in it, the audit path reconstructs the root of section 2.1.1 of RFC 9162 |
| InclusionProof.Sound | scripts/testimony_validate.py:318-343 | unless two of the messages hashed collide, a proof that yields the root of a tree is for the leaf at that position and is its audit path |
| InclusionProof.Outcome | scripts/testimony_validate.py:326-343 | a root is returned exactly when the index is inside the tree and the path has the one length that position and size determine; otherwise which refusal, negative indices and empty trees included |
| InclusionProof.StepsIsDepth | scripts/testimony_validate.py:329-340 | the path length the loop consumes is the depth of that leaf in the tree |
| Utf8.DecodesExactlyTheEncoded | scripts/testimony_validate.py:276-277 | strict UTF-8 decoding accepts exactly what encoding writes, and returns what was written |
| CborEncoding.HeadRoundTrip | scripts/testimony_validate.py:253-267 | a head written in any legal width is read back: its major type, its number and the index past it |
| Cbor.Load | scripts/testimony_validate.py:251-304 | one item as the recursive decoder reads it, for every byte string and index |
| Cbor.LoadArray | scripts/testimony_validate.py:278-286 | definite and indefinite arrays, item by item |
| Cbor.LoadMap | scripts/testimony_validate.py:287-295 | definite and indefinite maps, assigned pair by pair into a dict |
| Cbor.Decode | scripts/testimony_validate.py:251-304 | wherever decoding succeeds the index was inside the input and has strictly advanced |
| CborEncoding.RoundTrip | scripts/testimony_validate.py:251-304 | any encoding of a value, in any legal width and in definite or indefinite form, decodes to that value with tags stripped and to the index just past it, whatever follows |
| CborEncoding.MapRoundTrip | scripts/testimony_validate.py:287-295 | a map, of definite or indefinite length, comes back member for member exactly when its keys are distinct as Python compares them (true equals 1) |
| CborEncoding.PutAssigns | scripts/testimony_validate.py:287-295 | assigning into a dict changes what its key leads to and nothing else; keys keep their places and first spellings |
| CborLanguage.ReadsExactlyEncodings | scripts/testimony_validate.py:251-304 | inside its input the reader accepts exactly the encodings, each as the value it encodes: every width, definite and indefinite, nested, tagged, and the oddities it lets pass (a break byte where an item is due, an unsigned number or a tag without one) |
| CborTruncation.FinalIffWithin | scripts/testimony_validate.py:251-304 | for every byte string and index: a success stands whatever bytes follow exactly when the index returned is within the input |
| CborTruncation.DecodeKept | scripts/testimony_validate.py:251-304 | what is read within the input is read alike in every longer input |
| CborTruncation.DecodeChanges | scripts/testimony_validate.py:251-304 | what is read past the end, from a number or a string cut short at any depth, is read otherwise or refused once one more byte follows, whichever byte but zero |
| CborTruncation.TruncatedHeadIsRead | scripts/testimony_validate.py:258-259 | such a success exists: a two-byte number with nothing after it is read as zero, with the index past the end |
| JsonReader.EscapedReads | scripts/testimony_validate.py:191-193 | a reader of the string grammar of section 7 of RFC 8259, written without the writer, gets back every string from what is written for it |
| JsonReader.DumpReads | scripts/testimony_validate.py:191-193 | a reader of that grammar gets back every value from its compact text and stops where that ends, whatever follows that cannot go on with a number |
| JsonReader.LoadsDump | scripts/testimony_validate.py:191-193 | read as a whole, the compact text of a value is that value |
| JsonShortest.DumpIsShortest | scripts/testimony_validate.py:191-193 | no text that reads as a value is shorter than what is written for it: nothing is escaped, signed or spelled out without need |
| JsonShortest.EscapesAreSmall | scripts/testimony_validate.py:191-193 | hexadecimal digits in escapes are small letters |
| CanonicalForm.DumpIsInjective | scripts/testimony_validate.py:191-193 | so compact JSON text determines the value it was written from |
| CanonicalForm.NormalIsTidy | scripts/testimony_validate.py:162-188 | what is printed holds no underscore-prefixed member at any depth, its members ascend by code point, and nothing else has changed |
| CanonicalForm.CanonicalReads | scripts/testimony_validate.py:162-193 | read as JSON, a canonical string is the entry with its annotations dropped and its members in order |
| CanonicalForm.RefusedIff | scripts/testimony_validate.py:162-188 | refused exactly for an integer beyond 2^53 either way, at any depth but inside an annotation |
| CanonicalForm.BeforeIff | scripts/testimony_validate.py:191-193 | members are sorted by code points: one name is before another exactly when it is a prefix of it or has the lesser character where they first differ |
| CanonicalForm.CanonicalIffSame | scripts/testimony_validate.py:162-193 | two entries have one canonical string exactly when they are the same JSON value once underscore-prefixed members are dropped and member order is ignored, at every depth |
| CanonicalForm.SamePortability | scripts/testimony_validate.py:162-188 | annotations and member order cannot make a value refusable, or stop it being so |
| CanonicalForm.DumpOnOneLine | scripts/testimony_validate.py:191-198 | canonical text holds no raw newline |
| CanonicalForm.JoinIsInjective | scripts/testimony_validate.py:196-198 | the newline join of non-empty lines without newlines loses nothing |
| CanonicalForm.LinesOfJoin | scripts/testimony_validate.py:196-198 | split at newlines, such a join gives back the lines |
| CanonicalForm.MessageReads | scripts/testimony_validate.py:196-198 | what is hashed, decoded, split into lines and read as JSON, is the entries covered, in order and less their annotations |
| CanonicalForm.MessageIffSame | scripts/testimony_validate.py:196-198 | two lists of entries are hashed as one message exactly when they hold the same content, entry by entry and in order |
| CanonicalForm.DigestIffSame | scripts/testimony_validate.py:196-198 | equal digests mean the same content, unless the two messages collide |
| Assurance.HexReadsBack | scripts/testimony_validate.py:196-198 | a digest printed in hexadecimal reads back byte for byte |
| Validator.Report.Failures | scripts/testimony_validate.py:504-505 | exactly the failing checks of a level |
| Validator.Report.Climb | scripts/testimony_validate.py:1388-1394 | climbs to the level with nothing failing at it or below it |
| Validator.IdMap | scripts/testimony_validate.py:741 | the id map: the last entry recorded under each id, ids compared as dict keys |
| Validator.ReusedIds | scripts/testimony_validate.py:721-725 | exactly the ids used again, and none exactly when ids are unique |
| Validator.OutOfOrder | scripts/testimony_validate.py:732-738 | whether every `at` that is a string is no earlier than the one before it |
| Validator.Failing | scripts/testimony_validate.py:752-759 | exactly the lines whose entry fails a test |
| Validator.CheckLines | scripts/testimony_validate.py:721-738 | adds the verdicts on reused ids, on RFC 3339 write times and on their order |
| Validator.CheckReferences | scripts/testimony_validate.py:743-794 | adds the verdicts on stated evidence, cited evidence and retained sides |
| Validator.ByType | scripts/testimony_validate.py:740 | exactly the entries of a type, in order |
| Validator.CheckActions | scripts/testimony_validate.py:820-943 | adds the verdicts on whether a record of a system that acts holds a decision, on approvals of executed high-risk decisions and on approvers |
| Validator.CheckIntegrity | scripts/testimony_validate.py:1159-1207 | adds the verdicts on coverage and on recomputed digests |
| Validator.Validate | scripts/testimony_validate.py:649-1395 | the report and the level reached, whatever the checks not modelled come to |
| Levels.LevelExactly | scripts/testimony_validate.py:649-1395 | every level exactly, said of the lines as written: a record has TR-1, TR-2, TR-3 or TR-4 if and only if it has the level below, the checks not modelled pass at it, and what that level asks of ids, times, references, approvals, approvers and digests holds |
| Levels.FalsyAre | scripts/testimony_validate.py:752-943 | what the checks take for missing: nothing, null, false, zero, and what is empty |
| Assurance.ReachedIsLongestPrefix | scripts/testimony_validate.py:1388-1394 | the level is the longest prefix of the ladder with no failing check |
| Assurance.ByIdFinds | scripts/testimony_validate.py:721-741 | with unique ids the id map finds each entry under its own id |
| Assurance.LinesAreInOrder | scripts/testimony_validate.py:721-738 | in every record that reaches TR-1 ids are unique, every `at` is a timestamp, and none is earlier than one before it |
| Assurance.CitedIsThere | scripts/testimony_validate.py:752-774 | in every record that reaches TR-2, whatever a belief cites is borne by an evidence entry in the record |
| Assurance.SidesAreThere | scripts/testimony_validate.py:776-794 | and a conflict keeps at least two sides, each borne by a belief in the record |
| Assurance.APersonApproved | scripts/testimony_validate.py:905-943 | in every record that reaches TR-3, each executed high-risk decision with a non-empty id has an approval in the record that names it, by a named human who is not its proposer |
| Assurance.CanonicalAnnotated | scripts/testimony_validate.py:181-198 | the line numbers a reader adds change no canonical string |
| Assurance.SharedIntegrityAgrees | scripts/testimony_validate.py:1159-1207 | two records at TR-4 that share an integrity entry hold the same content under every id it covers, unless the covered messages collide |
| Assurance.DeletionShows | scripts/testimony_validate.py:721-1207 | delete an entry that an integrity entry covers and the record no longer reaches TR-4, whatever the other checks say |
| Assurance.ReplacementShows | scripts/testimony_validate.py:721-1207 | replace it by one of different content and the record no longer reaches TR-4, unless the covered messages collide |
| Calendar.DaysAreElapsed | scripts/testimony_validate.py:440-445 | the closed form counts the civil days since the first of January of year zero, one year and one month at a time, for every year |
| Calendar.NextDayIsOneMore | scripts/testimony_validate.py:440-446 | from one civil day to the next is one day: month ends, 29 February, centuries and year ends alike |
| Calendar.DaysOrderDates | scripts/testimony_validate.py:440-446 | the day count orders valid dates as the calendar does and tells different dates apart |
| Calendar.PrintedReads | scripts/testimony_validate.py:427-439 | every valid timestamp, printed, matches the pattern and reads back field by field |
| Calendar.ReadsIff | scripts/testimony_validate.py:427-439 | a text is read as a timestamp exactly when it is one, field for field, in one of the styles the pattern leaves open (T or t, Z or z, a newline at the end) |
| Calendar.FractionIsDecimal | scripts/testimony_validate.py:446 | a fraction is read digit by digit, each worth a tenth of the one before |
| Calendar.OffsetIsAShift | scripts/testimony_validate.py:447-450 | a clock at an offset reads that many minutes more, or less, at the same instant than one at UTC |
| Calendar.SecondsAreTheInstant | scripts/testimony_validate.py:431-451 | a timestamp with a valid date is read as the instant it denotes, fraction and offset included |
| Calendar.ComparesAsInstants | scripts/testimony_validate.py:431-451 | two valid timestamps compare as instants whatever their offsets |
| Calendar.NextDaySameTime | scripts/testimony_validate.py:431-451 | the same time of day on the next civil day is exactly 86400 seconds later |
| Calendar.UncheckedMonths | scripts/testimony_validate.py:440-445 | the reader raises exactly for months past twelve; month zero reads as December of that year, a day early in a leap year |
| Erasure.ErasedIsLeast | server/api.py:425-466 | what is erased is closed under the direct, retract, supersede, derive, split and event rules and is inside every closed set |
| Erasure.ErasedOnlyIfForced | server/api.py:425-466 | nothing else goes: every erased row references the entity or is forced out by a rule |
| Erasure.EventsForceNothing | server/api.py:447-466 | a removed event never forces a further derivation out |
| Erasure.ErasedTwice | server/api.py:421-466 | erasing two people at once erases what the first request does and then what the second does in what was left |
| Erasure.ForgettingIsConfluent | server/api.py:421-482 | forgetting two people in either order leaves the same rows and the same redacted labels, and forgetting one twice is forgetting them once |
| Erasure.ReferenceSurvives | server/api.py:438-486 | whatever a surviving row names survives, unless it names as a claim the id of a removed coreference or split |
| OpLog.NamedBy | server/api.py:254-303 | who may name an entity, an agent, a claim, an antecedent or a coreference, and where |
| Erasure.PrunedLogReplaysIff | server/api.py:473-489 | the pruned log replays exactly when no surviving row names as a claim the id of a removed coreference or split |
| ForgetEntity.RemoveDirect | server/api.py:421-433 | the rows that reference the entity, the claims they recorded and the coreferences that name it |
| ForgetEntity.FollowReferences | server/api.py:439-452 | one pass over the rows removes only what is forced, and changes nothing exactly when nothing is left to force |
| ForgetEntity.EventReferences | server/api.py:456-461 | for each event, whether a removed and whether a kept derivation cites it |
| ForgetEntity.FollowEvents | server/api.py:462-466 | removes the events cited only by removed derivations |
| ForgetEntity.FindErased | server/api.py:421-468 | the order-dependent loop ends with exactly the least closed set, and with the events cited by both a removed and a kept derivation |
| ForgetEntity.RedactedIffBoth | server/api.py:467-468 | of the events left, the redacted ones are those a removed derivation cites |
| ForgetEntity.Prune | server/api.py:478-482 | the rows left, in order and relabelled, and how many labels were redacted |
| ForgetEntity.ScratchReplay | server/api.py:473-486 | accepts exactly the logs in which every reference points to an earlier op |
| ForgetEntity.Project.Forget | server/api.py:394-489 | the whole request: the log after it, the refusal given, and the counts reported |
| ForgetEntity.GrantedRequest | server/api.py:421-482 | after a granted request the erased rows are gone, each event left that an erased derivation cites reads "[erased on request]", every other row is the row it was, all in the order they had, and the labels counted are those events |
| ForgetEntity.NeverRefused | server/api.py:473-489 | when no derivation, retraction or supersession names a coreference or split, erasure is never refused and leaves such a log again |
| ForgetEntity.OrderIsHiddenIff | server/api.py:394-489 | on any keyed log that replays, two requests leave one log in either order, refusals read as no change, exactly when the refusals allow it: both granted alone and together (or leaving the same), or only one granted alone and both together leaving no more than it |
| ForgetEntity.OrderCanShow | server/api.py:394-489 | a log on which they do not: asked for before bob, ann stays on record; asked for after him, she goes |
| ForgetEntity.ForgetAgain | server/api.py:394-489 | a repeated request leaves the log as the first did, granted or refused |
| ForgetEntity.ForgetInAnyOrder | server/api.py:394-489 | in particular the order never shows when no derivation, retraction or supersession names a coreference or split |
| ForgetEntity.SupersededCoreferenceRefuses | server/api.py:429-486 | a log that replays but whose erasure is refused: a surviving supersession would name a coreference that goes |
| Spelling.SlugIsSettled | server/api.py:188-190 | a slug is lowercase letters, digits, colons and single underscores, with none at either end |
| Spelling.OnceSettlesIff | server/api.py:155-196 | one application of the canonical form settles the spelling exactly when the input carries the `not:` prefix or its slug does not begin `not:_` |
| Spelling.TwiceSettles | server/api.py:155-196 | two applications always reach a fixed point |
| SlugWords.SlugIsItsWords | server/api.py:188-190 | a slug is exactly the words of its text, in small letters and joined by underscores, where a word is a run of letters, digits and colons |
| SlugWords.SameSlugIff | server/api.py:188-190 | two texts have one slug exactly when they have the same words, whatever their case, spacing and punctuation |
| SlugWords.FormIsItsWords | server/api.py:155-196 | the canonical form of any text: its words behind the denial if there is one, or the text itself when it has no words or is reserved |
| SlugWords.OneSpelling | server/api.py:155-196 | so propositions of one sign and the same words share one canonical form, which is those words |
| Contradictions.CounterpartReturnsIff | server/api.py:199-210 | a token is its counterpart's counterpart exactly when it does not begin `not:not:` and is not `not:RETRACTED` |
| Contradictions.Project.ApplyOp | server/api.py:254-301 | the registry after an op; a refused op changes nothing |
| Contradictions.Project.Record | server/api.py:304-307 | an op is logged exactly when it was accepted |
| Contradictions.Project.Boot | server/api.py:603-617 | a project brought from an empty registry to where its log leads |
| Contradictions.EveryRunAgrees | server/api.py:213-299 | after any run the list, the index and the engine hold the same unordered pairs: the declared ones and the negation pairs of what was asserted, no more and no fewer |
| Contradictions.ContradictsIff | server/api.py:212-303 | after any run two different tokens contradict exactly when some op declared them so or asserted one of which the other is the denial |
| Contradictions.AssertedIsOpposed | server/api.py:267-289 | whatever was asserted or superseding, its denial contradicts it from then on |
| Contradictions.RestartRebuilds | server/api.py:304-307 | replaying the accepted ops rebuilds the registry, list order included |
| Contradictions.DenialIsFound | server/conflict_narrow.py:25-83 | after any run of ops, what was asserted and its denial, both open about one referent and under a subject in common, are a conflict the narrow query finds, whichever of the two it is asked about |
| NarrowConflicts.Neighbours | server/conflict_narrow.py:50-55 | exactly the open claims that share a raw subject with an open candidate |
| NarrowConflicts.ConflictsFor | server/conflict_narrow.py:25-83 | for any candidates, exactly the conflicting pairs that touch a candidate and whose two sides both share a raw subject with an open candidate; the ordering skip loses none of them |
| NarrowConflicts.TouchingMeans | server/conflict_narrow.py:58-83 | a conflict touching a candidate is of two different claims, neither a retraction, about one referent, with contradicting propositions |
| NarrowConflicts.NearIsTouching | server/conflict_narrow.py:25-83 | never a pair the full scan would not give |
| NarrowConflicts.AllOpenIsEverything | server/api.py:3842-3849 | asked about every open claim it gives every conflict between claims that have a subject, and no other |
| NarrowConflicts.WholeAnswerIff | server/conflict_narrow.py:25-83 | for any open claims under distinct ids: it gives the filtered full scan for every candidate list exactly when any two open claims in conflict share a raw subject |
| NarrowConflicts.SharedSubjectsLoseNothing | server/conflict_narrow.py:25-83 | in particular whenever claims about one referent share a raw subject |
| NarrowConflicts.MergedNamesCanHideAConflict | server/conflict_narrow.py:26-31 | claims on which that fails: two merged names and a claim under each, though the documentation promises the same pairs for any candidate |
| BeliefDiff.Beliefs | server/beliefdiff.py:84-110 | the two lists, in order and under their caps |
| BeliefDiff.ListedNewestFirst | server/beliefdiff.py:84-110 | each list is newest first, and what the cap of a hundred leaves out is no newer than anything listed |
| BeliefDiff.BeganOrEnded | server/beliefdiff.py:84-110 | what appeared is what began since then and holds now, what closed is what held then and ended since, all of it below the cap |
| BeliefDiff.DiffIsAPatch | server/beliefdiff.py:84-110 | below the cap, what was open less what closed plus what appeared is exactly what is open now, for any viewer, and no belief is in both lists |
| BeliefDiff.NoBeliefsListedIff | server/beliefdiff.py:84-110 | nothing is listed exactly when nothing changed, cap or no cap |
| BeliefDiff.ClassMapOf | server/beliefdiff.py:68-74 | every entity of a class is led to its class, and no other entity to any |
| BeliefDiff.Joined | server/beliefdiff.py:136-146 | exactly the classes of two or more that the other partition splits |
| BeliefDiff.NoneJoinedIff | server/beliefdiff.py:136-146 | no class is listed exactly when every pair of one referent in the one partition is one referent in the other |
| BeliefDiff.ConflictView | server/beliefdiff.py:112-127 | only conflicts both of whose sides the viewer sees, all of them below the cap, and none exactly when there is none |
| BeliefDiff.Diff | server/beliefdiff.py:77-154 | new conflicts are those of now and not of then, resolved ones those of then and not of now, both shown, ascending and all of them below the cap; merged and split are exactly the classes of two or more that the other time keeps apart; and `quiet` holds exactly when beliefs, conflicts and referents seen by the viewer are the same at both times |
| Wilson.WilsonIsSmallerRoot | scripts/commons_contribute.py:225-237 | the bound is the smaller root t of (k/n - t)^2 = z^2 t (1 - t) / n, and lies between zero and the rate seen |
| Wilson.BoundInFigures | scripts/commons_contribute.py:225-237 | the equation in figures, z being 1.96 |
| Wilson.WilsonGrowsWithSupport | scripts/commons_contribute.py:225-237 | more support among as many trials never lowers the bound |
| Wilson.WilsonGrowsWithTrials | scripts/commons_contribute.py:225-237 | the same rate over more trials never lowers the bound |
| Wilson.LiftIsReal | scripts/commons_contribute.py:464-466 | what passes the lift test on the bound passes it on the raw rate |
| Contribution.Contributor.Observe | scripts/commons_contribute.py:314-335 | the bank after a call, with what was kept before a refusal |
| Contribution.RecordedMeans | scripts/commons_contribute.py:314-335 | a call takes up the tokens given until one is not allowed or is opposed by what its subject holds by then; those before it stay, and a call without a label takes up none |
| Contribution.EveryRunIsSound | scripts/commons_contribute.py:314-335 | over every run of observations, refused ones included, only checked tokens are held, each by somebody, and nobody holds a token and its opposite |
| CommonsTokens.AllowedIff | scripts/commons_contribute.py:175-222 | a token passes exactly when, one leading `not:` aside, it is of small letters and underscores, is no relation, is not empty, every run of letters in it is in the vocabulary, and it is at most 64 characters long |
| Contribution.Contributor.RowsOf | scripts/commons_contribute.py:443-476 | the rows of one antecedent, test by test |
| Contribution.Contributor.Patterns | scripts/commons_contribute.py:413-479 | rows of exactly the pairs that clear the bar, each once and strongest first; below the cap all of them, at the cap none weaker than one left out |
| Contribution.StrongestFirst | scripts/commons_contribute.py:477-479 | rows run from the most supported, then by antecedent, then by consequent |
| PublishedIsKept.CountsFit | scripts/commons_contribute.py:451-456 | support and refutation together never exceed the holders |
| PublishedIsKept.NeverBothWays | scripts/commons_contribute.py:443-476 | a pattern and its denial are never both mined |
| PublishedIsKept.PopularityMeans | scripts/commons_contribute.py:426-440 | the base rate of a token, affirmed or denied, is the share of those who hold it among those who hold it or its opposite, and there is none when nobody does |
| PublishedIsKept.ClearsIff | scripts/commons_contribute.py:443-466 | in counts of holders, exactly when a pattern is published |
| PublishedIsKept.RowMeans | scripts/commons_contribute.py:443-476 | what a published row counts: at least three hold its antecedent, at least three of them its consequent, at three in five of those decided, and its base is the nearest four-place decimal |
| PublishedIsKept.PublishedBeatsPopularity | scripts/commons_contribute.py:464-466 | in counts of holders, every mined pattern beats the share its consequent has in everyone who decided by at least 0.1 |
| Collector.Validate | server/commons.py:650-722 | the loop of the door: the first refusal refuses everything, and what is not a pattern is passed over |
| Collector.LetInIff | server/commons.py:650-722 | a contribution is let in exactly when it holds nothing to refuse, and then its kept rows are exactly those that pass, in order |
| Collector.JudgedIff | server/commons.py:664-720 | exactly what is refused and exactly what is kept; the rest is passed over |
| Collector.KeptMeans | server/commons.py:676-718 | what is kept is built from the vocabulary, meets the floor and the rate, and beats its base rate by the lift in raw rate |
| PublishedIsKept.MinedVerdict | server/commons.py:676-718 | a mined row is refused exactly past ten million people, and otherwise kept exactly when its lift survives rounding the base rate to four places |
| PublishedIsKept.PublishedPassesTheDoor | server/commons.py:650-722 | after any run over at most ten million people the collector refuses nothing published, and keeps in order the rows whose lift survives rounding |
| PublishedIsKept.NothingLostWithMargin | server/commons.py:650-722 | and keeps all of them when each has the margin of 0.00005 that rounding can take |
| PublishedIsKept.RoundingLosesARow | server/commons.py:717-718 | the margin is needed: for any two behaviours there is a run of observations that publishes a row which the door lets the rest through without |
| Pooling.AddOwn | server/commons.py:1004-1008 | own rows added up pair by pair, unpublishable tokens left out |
| Pooling.AddInstance | server/commons.py:1009-1019 | one instance added: its first publishable row for each pair |
| Pooling.Merged | server/commons.py:986-1029 | exactly one row for each pair with enough behind it, with the exact sums over own rows and each instance's first row, widest first |
| PooledBank.BankForgetsArrival | server/commons.py:986-1029 | the bank is one list whatever order the contributors come in |
| PooledBank.NobodySpoke | server/commons.py:986-990 | a pair nobody sent comes to nothing |
| PooledBank.OwnRowCounts | server/commons.py:1004-1008 | one more own row adds its counts and one source to its pair if it is publishable, and nothing to any other |
| PooledBank.InstanceCounts | server/commons.py:1009-1019 | one more instance adds the counts of its first publishable row for a pair and one source, and nothing where it has none |
| PooledBank.BankMeans | server/commons.py:1020-1027 | a pair is in the bank exactly when somebody sent it, at least three support it and its counts are not all zero, at the nearest three-place decimal to its pooled rate |
| PooledBank.WidestFirst | server/commons.py:1028-1029 | the bank is in order of people, then rate, then pair, and holds no pair twice |
| PooledBank.PooledRateBetween | server/commons.py:1020-1027 | a pooled rate lies between the lowest and the highest of its contributors' rates |
| PooledBank.ValidatedIsPooled | server/commons.py:1020-1027 | a pair whose every counted row passed the door is in the bank, at a rate of at least 0.6 |
| PooledBank.NothingValidatedIsDropped | server/commons.py:1004-1027 | when every row sent passed the door, every pair anybody sent is in the bank, whatever counts the collector adds of its own; without own rows, at a rate of at least 0.6 |
| Ledger.Commons.LatestPerInstance | server/commons.py:818-837 | the newest usable snapshot of each instance |
| Ledger.Commons.Withdraw | server/commons.py:788-809 | the instance is marked gone, its rows stay, and how many there are |
| Ledger.LatestIsNewest | server/commons.py:818-837 | an instance is read exactly when it has a usable row, by the newest such row |
| Ledger.WithdrawalLasts | server/commons.py:788-837 | after a withdrawal nothing sent before or later brings the instance back, for any use |
| Release.ContributionRows | server/commons.py:1398-1422 | every contribution once, in order of instance, rows sorted, with their digest |
| Release.MakeRelease | server/commons.py:1425-1449 | the manifest, the text and the contributions of a release |
| Release.EntrySays | server/commons.py:1408-1419 | a contribution in a release holds its rows sorted by antecedent and consequent, and their digest |
| Release.ManifestSays | server/commons.py:1432-1449 | a manifest holds the format, the digest of the text, and who contributed what |
| Release.CheckContributions | server/commons.py:1466-1475 | exactly the missing, extra and altered contributions |
| Release.VerifyRelease | server/commons.py:1452-1494 | exactly the problems that show, and whether there is none |
| ReleaseRecomputes.SortKeepsFirst | server/commons.py:1408-1419 | sorting an instance's rows leaves it speaking for each pair by the same row |
| ReleaseRecomputes.CorpusIsTheBank | server/commons.py:1425-1431 | the corpus published is the bank of the newest usable snapshots themselves |
| ReleaseRecomputes.OwnReleaseVerifies | server/commons.py:1425-1494 | a release verifies on its own manifest, contributions and text, in whatever order the contributions are held |
| ReleaseRecomputes.OnlyTheReleaseVerifies | server/commons.py:1452-1494 | and on nothing else: with no problem reported, the contributions and the text are those released, unless digests collide |
| Gathering.Exporter.CiteSource | scripts/export_testimony.py:95-127 | one evidence entry for each source, dated by the earliest citation |
| Gathering.Exporter.EvidenceForBelief | scripts/export_testimony.py:129-171 | every source known for a belief, in order |
| Gathering.Exporter.Recall | scripts/export_testimony.py:175-200 | a belief and what it cites, once for each assertion |
| RunRecords.EveryMentionIsCited | scripts/export_testimony.py:129-200 | after any run each remembered belief is entered as it was first answered and its evidence has one id for its source and one for each event or assertion with a non-empty id that it rests on, in that order; each id names an entry with the text, kind and earliest date of what was mentioned |
| RunRecords.EveryMemoryIsABelief | scripts/export_testimony.py:175-200 | the beliefs entered are exactly the answers remembered, each once |
| RunRecords.SameIdIff | scripts/export_testimony.py:95-171 | two mentions, of one belief or of two, get one id exactly when they are of one source, one event or one antecedent |
| RunRecords.OnlyMentionsAreEvidence | scripts/export_testimony.py:95-171 | and there is no evidence in the record that nobody mentioned |
| Gathering.Exporter.Contradiction | scripts/export_testimony.py:203-221 | a conflict between the sides that are in the record, dated by the latest of them |
| RunActs.EveryContestIsWeighed | scripts/export_testimony.py:203-221 | after any run a contest with two sides remembered by then is in the record with exactly those sides, dated by the latest, and one with fewer is not |
| ExporterInvariant.VerdictKeepsGood | scripts/export_testimony.py:237-258 | entering a verdict keeps names distinct and references present |
| RunActs.EveryVerdictIsADecision | scripts/export_testimony.py:237-258 | after any run each verdict of the gate is in the record as an unexecuted decision of a model, with its risk and time |
| Gathering.Exporter.Repair | scripts/export_testimony.py:259-307 | the decisions of a repair, all naming one approval, which names the first of them |
| RunActs.EveryRepairIsWritten | scripts/export_testimony.py:259-307 | after any run each repair that ran something is in the record: a decision for each action, in order, and one approval they name when somebody approved |
| ExporterInvariant.EveryRunIsGood | scripts/export_testimony.py:89-307 | over every run of answers names are distinct, and whatever an entry refers to is there and dated no later than it |
| Numbering.Renumber | scripts/export_testimony.py:318-337 | the two passes: new names in reading order, then the references to them |
| Numbering.NamedByPlace | scripts/export_testimony.py:318-326 | beliefs keep their names, and any other entry is named by its type and its place among those of its type |
| Numbering.SortHolds | scripts/export_testimony.py:311-317 | reading order loses and adds nothing and follows time, then rank |
| Numbering.ReadingOrder | scripts/export_testimony.py:311-317 | time first, at one time the types in their order, and within a type as gathered: for every list there is one such order |
| Numbering.SortedCitesAbove | scripts/export_testimony.py:311-317 | in reading order evidence stands above the belief that cites it, sides above their conflict and an approval above what it unlocked |
| Numbering.RenumberingIsSubstitution | scripts/export_testimony.py:318-337 | renumbering is one simultaneous substitution on every name and reference, and keeps different names different |
| Numbering.RenumberedCitesAbove | scripts/export_testimony.py:318-337 | after renumbering every reference still stands above, at the renamed entry |
| Numbering.RenumberedDistinct | scripts/export_testimony.py:318-326 | new names are distinct |
| ExportedRecord.GoodSettles | scripts/export_testimony.py:311-337 | the entries written have distinct ids, references that point upwards and times that do not decrease |
| UtcTime.UtcReads | scripts/export_testimony.py:52-54 | in the years 1970 to 9999 the text printed for a time is an RFC 3339 timestamp that reads back as that time |
| UtcTime.UtcInOrder | scripts/export_testimony.py:52-54 | and later times never print before earlier ones |
| UtcTime.UtcPrints | scripts/export_testimony.py:52-54 | so the exporter's own clock is one that prints any such times as the theorems below ask |
| ExportedRecord.WrittenInTimeOrder | scripts/export_testimony.py:311-363 | the `at` strings written are non-decreasing |
| ExportedRecord.WrittenDigestMatches | scripts/export_testimony.py:339-363 | the validator recomputes the digest written from what it covers, despite its own annotations |
| RecordReads.RecordReads | scripts/export_testimony.py:311-363 | read back as JSON members the record is what was gathered, in reading order and renumbered, line by line, and then one integrity entry over all of it |
| RecordReads.ExtraRead | scripts/export_testimony.py:104-221 | whatever else was known of an entry is written under its own name |
| ExportedRecord.ExportConforms | scripts/testimony_validate.py:721-1207 | whatever the memory answers, the record passes the checks on ids, write times, order, stated and cited evidence and sides, and those on integrity exactly when there was something to write |
| ExportedRecord.ExportReachesTR2 | scripts/export_testimony.py:89-363 | an export reaches TR-2 whenever the checks not modelled pass at TR-1 and TR-2 |
| ExportApproval.RunPassesIff | scripts/export_testimony.py:259-307 | the acts gathered pass the approval checks exactly when every repair ran at most its first action at high risk, approved by somebody named who is not its proposer |
| ExportApproval.RunDecidesIff | scripts/export_testimony.py:237-307 | a decision is gathered exactly when the gate gave a verdict or a repair ran something |
| ExportApproval.RenumberingKeepsPassing | scripts/export_testimony.py:318-337 | numbering changes nothing about that |
| ExportLevel.ExportActionsPassIff | scripts/testimony_validate.py:820-943 | the record written passes the checks on actions exactly when it holds a decision and every repair passes |
| ExportLevel.UnpassedFallsShort | scripts/export_testimony.py:89-363 | otherwise it falls short of TR-3, whatever the checks not modelled come to |
| ExportLevel.ExportLevel | scripts/export_testimony.py:89-363 | the level of an export when the checks not modelled pass: TR-4 exactly when something was decided and every repair passes, and TR-2 otherwise, an empty export included |
| ExportLevel.TwoHighRiskActions | scripts/export_testimony.py:264-307 | the export of one approved repair of two high-risk actions falls short of TR-3, whatever the checks not modelled come to |

## Left out

- Validator.Validate: `others`, the verdicts of the checks not modelled, is an argument and not computed from the record, because those checks (enumerations, required members, specification versions, observations, signatures, anchors, receipts, RFC 3161 tokens) carry none of the properties proved; every theorem about levels holds for all of them.
- Validator.CheckReferences: does not add the verdict on a decision's inputs, nor those on contradicted beliefs and resolved conflicts; they are among `others`.
- Validator.CheckActions: does not add the verdicts at TR-1 on scope entries, nor those at TR-3 on risk sources, refusals and outcomes; they are among `others`.
- BeliefDiff.Beliefs: does not say how a belief closed and by whom, which the engine is asked for one belief at a time.
- BeliefDiff.Diff: does not state the order in which merged and split classes are printed nor their cap.
- Collector.Validate: speaks of a list of patterns whose fields have the right JSON types; the refusals for a payload that is no object, a malformed instance id, a malformed frame and fields of the wrong type come before or beside the tests modelled and depend on nothing else.
- Release.MakeRelease: leaves out the members of a manifest that no verification reads: date, licence, terms, floor and the counts.
- Floating-point numbers in the canonical form, and lone surrogates, which Python cannot encode: JSON numbers are integers, refused beyond 2^53 as the source does.
- Floating-point rounding of rates and bounds: they are reals, and only the explicit `round` calls round.
- Records on which `validate` raises instead of reporting (an unhashable id, an approver that is not an object): the modelled check fails there. Blank and comment lines are not modelled, so an entry's line is its position.
- Detail texts and the `basis` of a check.
- Python's recursion limit in `load`.
- Unicode digits, which the timestamp pattern and `int` also accept; timestamps use ASCII digits.
- The engine: it accepts an op exactly when what the op names was recorded by an earlier one; whether it accepts an assertion, which propositions contradict and how subjects reduce to referents are parameters elsewhere.
- `_forget_entity` beyond the op log: projection purges, evidence redaction, encryption, the erasure ledger row and the rebuilt project.
- `canonical_form` outside ASCII: Unicode normalisation, case folding and word characters.
- Everything `apply_op` does besides the registry and the op log, the graph and candidate projections, and truth maintenance.
- In `conflicts_for`, a partition view or the engine reduces subjects: one reduction function stands for both.
- Exceptions raised by the engine in the belief diff.
- The closed vocabulary itself: a parameter shared by contributor and collector, whose two copies are the same list in the source.
- Frames, size bands and calibration rows of a contribution.
- Reading observations from a CSV or a record, the identity file and sending.
- The SQL of the ledger: stored rows are a sequence in order of arrival, and clocks do not go back.
- The digest of a release's rows covers a float; digests of rows, of texts and the printed corpus are parameters, as is the aggregation version.
- Release and `verify_release` do not protect the `received` time of a contribution, which no digest covers; the theorems speak of instances, rows and text.
- How the exporter's client calls the server, the risk registry, which answers come in what order, times below a second, and members of an entry that hold no reference and decide no modelled check: they are arguments.
- How a time prints: a parameter that must print the times gathered as timestamps, later ones no earlier. The exporter's own printing is modelled for the years 1970 to 9999; past them it raises.
- HTTP, authentication, storage, connectors, extraction, scoring, dashboards and demos.
