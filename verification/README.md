# Verification model of the TelHawk stack

This project models the parts of the TelHawk stack whose behaviour is hardest to see by reading, and proves what they
are for. `dafny verify dfyconfig.toml` checks all of it (Dafny 4.11).

**The event synthesiser against its checker** (`cli/internal/seeder`). A detection rule carries a recursive filter
(`and`, `or`, `not` over `eq`, `in`, `contains`, `gt`, ...). The generator writes nested maps in place, with random
choices, so that the event meets the filter; an independent evaluator, `MatchesFilter`, then judges the event. The model
has both: the heap of maps (`EventMaps`), the evaluator (`Filters`), the values that can be drawn (`ValueGen`), the pass
over a filter as a function of the draws (`Generation`, `Outcomes`, `Seeding`), the imperative code proved equal to it
(`Synthesizer`, `Enricher`, `RuleGenerator`), and the rule validator (`Rules`). What the functions answer is also said
without them: every comparison and every compound verdict in `Verdicts`, the verdict on a batch in `BatchVerdicts`, the
fields an enriched event holds in `OcsfFields`, and in `ParsedFilters` what a rule's JSON text asks for. An event is a map from paths to cells: a
value, or "there is a map here". Values keep Go's dynamic types apart (`int`, `int64`, `float64`), because interface
equality does. Random draws are a parameter, `Choices`, that any function may inhabit, keyed by the filter node and
attempt, so "for every draw" is "for every `Choices`". A panic is a result (`None`, or `ok == false`): a write through a
value that is no map, a list or an object compared with its like, a list or an object as the key of a map. *Passes*
means judged, without a panic, to match.

The main results there: every event created for a supported filter passes it, for every draw (`CreatedEventsMatch`);
every event seeded from a template passes too and holds exactly the seeds, whatever branch it takes
(`SeededEventsMatch`); generating and validating a whole servable rule ends in acceptance (`ServeEventCountRule`,
`ServeValueCountRule`).

A filter is *supported* when: field names are led by one dot, none reaching into another; siblings of an `and` are on
different fields; an `or` or `in` is not empty; values are scalar; the operators are `eq`, `in`, `contains`, `gt`,
`gte`, `lt` above 0, `lte` from 0; and a `not` is over simple conditions (or `and`/`or` of them on other fields) whose
excluded values are hashable wherever they are put into a map, whose fallback texts are not themselves excluded, and
whose `ne` values are what all draws write. It is *settled* when no branch of an `or` compares with a list or an object.

An event_count rule is *servable* (`EventCountServable`) when all of the following hold:

- its count operator is `gt`, `gte` or `eq`, its threshold is at least 1 (and whole for `eq`), and the multiplier is at
  least 1;
- its filter is supported and settled, and the fields of the filter and the group_by fields together are led by one dot,
  none reaching into another;
- every group_by override or generated value is a scalar;
- no field lies under `category_uid`, `category_name` or `class_name`, or none lies under `class_uid` (`Unstamped`);
- the seeds decide (`SeedsDecide`): what a `not` outside any `or` writes at a group_by field is the same for all draws,
  and in the branches of an `or` a group_by field is looked at by `eq`, `in` and `contains` only and by no `not`.

A value_count rule is servable (`ValueCountServable`) under the first four conditions, for the count field and the
addresses of the two endpoints as well, when its count field is neither in the filter nor a group_by field, and where
the filter writes a group_by field all draws write the same (`Pinned`: outside any `or`, and not drawn from a list of
different values).

These are not conveniences. `LeafExact`, `GroupExact` and `NegLeafExact` prove for the single steps that the draws
always succeed *exactly* under these conditions; `OnlyTextExactly` and `PinnedExactly` say exactly when all draws write
the same; without `or`, `SeedsKeptExactly` proves that seeds are kept exactly under `SeedsDecide`, and `CountExact` when
a threshold is met. `Limits` and `RuleLimits` give the failing inputs: among them `ExcludedListPanics`,
`ListSeedIsNeverAccepted`, `UnsettledOrIsFragile` and `ReachingIntoAFieldPanics`, and for group_by fields
`UnsteadyRuleIsRejected` (with `UnsteadyRule`), `ComparisonInOrIsRefused` (with `ComparedRule`), `NotInOrOverwrites` and
`UnpinnedRuleIsRejected`; for stamped fields `StampedFieldIsJudgedByStamp` and `CategoryNumberIsRefused`, for the count
field `CountFieldIsOverwritten`. "Exactly" is relative to the draws of the model: any text may come up as a word, while
gofakeit draws from a fixed dictionary, which may lack the text that a witness needs; and numbers are exact, while in
float64 a threshold beyond 2^53 plus one is the threshold again. The rule shipped in
`alerting/dist/rules/indicator_removal_logs.json` has an `and` of two `contains` on one field, the case
`SharedFieldLastWriteWins` decides.

**The usage collector as a protocol** (`common/hecstats`). Recording, the swap that starts a flush, the writes of a
flush and the merge-back of a failed one interleave freely, with any number of flushes at once. `CollectorRuns` proves
over all runs that nothing recorded is lost or counted twice and that no batch has two owners, `CollectorAddresses`
which client addresses survive every interleaving; `HecCollector` and `HecStore` prove the methods against the same
functions, and that the rolling window read back from expiring counters is the sum of the writes themselves.

**Roles, scopes and sessions** (`authenticate`). `Rbac` turns scope and ordinal checks into permission plus tree
containment, from which transitivity follows; `RoleRows` proves that grouping the rows of the roles join undoes the
join, and flattening the groups gives the rows back; `Sessions` characterises, over all runs of the service, exactly
when a token is accepted, `Accounts` ties that to the calls of the run (which password hash, roles and email were set
last for an account, and that every accepted token was earned with that password), and `SessionService` proves the
methods over the shared records of the in-memory repository against that machine. The token results assume the law `Crypto.Sound` of signing and verifying; `SoundCrypto` shows that
it can be kept.

**Smaller machines.** The acknowledgement gauge under interleaving (`Acks`, `AckManager`), the field validator against
the field extractor (`FieldRules`, `FieldValidator`), and the jittered event times (`Timing`).

Every lemma carries `{:induction false}`: inductions are written out, none is left to the verifier's heuristic.

Where code and documentation disagree the model follows the code. Findings that are stated as theorems:

- `CanActInScope`, and with it `CanManageUser` and `CanResetPassword`, dereferences a nil organization for a client user
  without one, exactly when the target is of that client and has an organization (`PanicsExactly`,
  `GoverningPanicsExactly`).
- A list or an object as a value is parsed but not handled: a `not` over `eq` with one panics in every run
  (`ExcludedListPanics`), and events that share one as a group_by value are never accepted: the consistency check panics
  on them (`ListSeedIsNeverAccepted`, `ValidateGroupByConsistency`).
- `ValidateRule` rejects a `fields_order` entry written with its leading dot, although extraction normalises it
  (`ValidationExactly`, `DotLedEntryIsRejected`).
- `FlushBatch` treats a batch whose count is zero as written, so an address can vanish. For counts that are not negative
  it is safe in every interleaving exactly if it was recorded at least once with a count above zero
  (`AddressSurvivesExactly`). No caller in the repository records zero: ingest/internal/handlers/hec_handler.go:158
  returns first when there are no events, and line 274 passes 1.
- Completing or failing an acknowledgement twice lowers the pending gauge for good (`GaugeExactly`).
- The access token that `RefreshToken` returns is filed under no session, so `ValidateToken` rejects it unless the user
  also logged in during that second (`RefreshedTokenExactly`); over the in-memory repository no accepted token is ever
  flagged as stale (`NothingIsEverStale`).
- To a user without a protected role, a permission whose resource contains a colon is listed but not granted by its name,
  unless a colon-free one has the same name (`CanExactly`); a user with a protected role is granted every name, listed or
  not. `AgreementIsExact` says for all users where list and check agree.
- A rule that groups by a field its filter has in a `not` is served with a fresh text per event, so its batch is
  inconsistent for some draws, unless only one text can come up (`UnsteadyRuleIsRejected`, `SeedsKeptExactly`); a
  comparison in a branch of an `or` takes every seed for compatible and may then refuse it
  (`ComparisonInOrIsRefused`).
- A condition on a field that another condition reaches into makes the generator panic when it comes first
  (`ReachingIntoAFieldPanics`) and wipes out the other one when it comes second (`ReachedFieldIsLost`).
- A `type` that is the empty text is parsed as a compound filter and then taken for a condition on the field "", which
  never matches, whatever conditions it has (`EmptyTypeNeverMatches`).

## Model

| member | source | states |
|---|---|---|
| Events.WriterAgreesWithReader | cli/internal/seeder/field_generator.go:202-232 | the writer and the reader of a field name walk the same path if and only if the name is led by exactly one dot |
| Events.PartsInjective | cli/internal/seeder/field_generator.go:224-232 | two dot-led names with the same parts are the same name |
| Events.SetThenGet | cli/internal/seeder/rules.go:337-356 | what is written at a field is read back, and a write at an incomparable path is not noticed |
| Events.SetTwice | cli/internal/seeder/field_generator.go:202-221 | the second of two writes at one field wins entirely |
| Events.SetCommutes | cli/internal/seeder/field_generator.go:202-221 | writes at incomparable paths commute, panics included |
| Events.SetConforms | cli/internal/seeder/field_generator.go:202-221 | over fields none of which reaches into another a write never panics and changes exactly its field |
| EventMaps.EventMap.SetFieldValue | cli/internal/seeder/field_generator.go:202-221 | the walk over nested maps, which creates what is missing, panics exactly where the path is blocked and otherwise leaves the maps spelling the written event |
| EventMaps.EventMap.GetFieldValue | cli/internal/seeder/rules.go:337-356 | the walk down the maps finds what the event holds at the field, nil where there is nothing |
| EventMaps.OpenedThenPut | cli/internal/seeder/field_generator.go:202-221 | opening the maps on the way and putting the value is one write at the path |
| Filters.VerdictsAreMatches | cli/internal/seeder/rules.go:295-334 | when the evaluation, which stops at the first settling condition, does not panic, its verdict is the meaning of the filter, whatever the order of the conditions |
| Filters.CalmIsJudged | cli/internal/seeder/rules.go:295-334 | it does not panic when no condition compares a list or an object with its like |
| Filters.DecidedVerdicts | cli/internal/seeder/rules.go:295-334 | a verdict that rests on values the event holds is the verdict of the filter |
| Filters.DecidedIsMonotone | cli/internal/seeder/rules.go:295-334 | adding fields to an event cannot overturn such a verdict |
| Filters.NotFreeMatchIsDecided | cli/internal/seeder/rules.go:295-334 | without `not` every match rests on held values |
| Filters.NotFreeMatchIsMonotone | cli/internal/seeder/rules.go:295-334 | an event that matches a filter without `not` is never judged otherwise with fields added, and passes if no list or object is compared with |
| Verdicts.NumbersAreCompared | cli/internal/seeder/rules.go:359-415 | `gt`, `gte`, `lt` and `lte` compare numbers as numbers, an int and a float of the same number alike |
| Verdicts.NumberLaws | cli/internal/seeder/rules.go:359-415 | `gte` denies `lt`, `gt` denies `lte`, equal numbers meet both `gte` and `lte`, and swapping the sides swaps `gt` and `lt` |
| Verdicts.OnlyNumbersAreCompared | cli/internal/seeder/rules.go:398-415 | a comparison with anything else on either side does not match |
| Verdicts.EqualityIsIdentity | cli/internal/seeder/rules.go:359-395 | `eq` and `ne` ask for the same value of the same type, and panic between two lists or two objects |
| Verdicts.InIsMembership | cli/internal/seeder/rules.go:359-395 | `in` is membership, and panics when a list or an object meets its like among the items |
| Verdicts.ContainsIsOfTexts | cli/internal/seeder/rules.go:359-395 | `contains` says that one text is the other with something before and after; between anything but texts it does not match |
| Verdicts.OtherwiseRefused | cli/internal/seeder/rules.go:359-395 | a missing field, a regular expression, an unknown operator and `in` without a list match nothing |
| Verdicts.AndVerdict | cli/internal/seeder/rules.go:295-334 | `and` matches exactly if all conditions do, and fails exactly at a first one that does not, after those that match |
| Verdicts.OrVerdict | cli/internal/seeder/rules.go:295-334 | the same for `or`, which matches at the first condition that does |
| Verdicts.NotVerdict | cli/internal/seeder/rules.go:295-334 | `not` matches exactly if all conditions fail, and fails at the first that matches |
| Synthesizer.MatchesFilter | cli/internal/seeder/rules.go:295-334 | the recursive evaluator over the maps returns the verdict on the event they spell, and panics exactly where that does |
| ValueGen.CmdLineWith | cli/internal/seeder/event_generator.go:476-519 | the command line built around a substring contains it |
| ValueGen.PathWith | cli/internal/seeder/event_generator.go:522-535 | the path built around a substring contains it |
| ValueGen.ContainingString | cli/internal/seeder/event_generator.go:449-473 | the text written for `contains` contains the wanted text, whatever the field |
| ValueGen.LeafExact | cli/internal/seeder/event_generator.go:218-252 | over exact numbers, every value drawn for a condition is accepted by the checker if and only if operator and value are among the supported ones, with the exact thresholds for `lt` and `lte` |
| ValueGen.FirstAvoidingIsFirst | cli/internal/seeder/event_generator.go:340-400 | the search of 100 tries yields the first draw that avoids every substring, or none when all fail |
| ValueGen.FailingTextFails | cli/internal/seeder/event_generator.go:304-424 | for the described groups hashing the excluded values does not panic, and the one value written for a field of a `not` fails every condition on that field, whatever the 100 tries find |
| ValueGen.OnlyTextExactly | cli/internal/seeder/event_generator.go:304-424 | all draws write one and the same text for a field of a `not`, or all panic, if and only if a stated check on the field and its conditions says so; any text may be drawn as a word |
| ValueGen.GroupExact | cli/internal/seeder/event_generator.go:304-424 | the text written for a field of a `not` always fails all its conditions, `ne` included, and generating it never panics, if and only if the group is one of the described ones; any text may be drawn as a word |
| ValueGen.GroupWitness | cli/internal/seeder/event_generator.go:304-424 | for every other group there are draws with which generating panics or some condition still holds |
| ValueGen.FailingSimpleTextFails | cli/internal/seeder/event_generator.go:427-446 | the text written to fail a single condition fails it, and generating it does not panic |
| ValueGen.NegLeafExact | cli/internal/seeder/event_generator.go:427-446 | it does so for every draw if and only if the condition is one of the described ones, whose listed values are hashable; any text may be drawn as a word |
| ValueGen.NegLeafWitness | cli/internal/seeder/event_generator.go:560-642 | for every other condition some draws make generating panic or satisfy it |
| Generation.FirstOccurrencesIsOrder | cli/internal/seeder/event_generator.go:284-301 | grouping the conditions of a `not` by field visits every field once |
| Generation.ApplySound | cli/internal/seeder/event_generator.go:186-252 | serving a supported filter does not panic, meets the filter for reasons held in the event, and touches no other field |
| Generation.DenySound | cli/internal/seeder/event_generator.go:256-281 | serving the negation of a filter makes the event refuse it and touches no other field |
| Generation.NotSound | cli/internal/seeder/event_generator.go:284-301 | after a `not` has been served none of its conditions matches, in any iteration order over the fields |
| Generation.DenyFieldsSound | cli/internal/seeder/event_generator.go:284-301 | each grouped field ends with its own failing value, whatever the order |
| Generation.CreatedEventsMatch | cli/internal/seeder/event_generator.go:38-45 | every created event is judged, without a panic, to match, for every supported filter and every draw |
| Limits.SharedFieldLastWriteWins | cli/internal/seeder/event_generator.go:186-215 | two conditions of an `and` on one field are always passed if and only if the first accepts every value the second can write |
| Limits.ReachingIntoAFieldPanics | cli/internal/seeder/field_generator.go:202-221 | a condition on a field that a later one reaches into makes every run panic, unless it writes a JSON object |
| Limits.ReachedFieldIsLost | cli/internal/seeder/field_generator.go:202-221 | in the other order an event is produced, and it never matches |
| Limits.ExcludedListPanics | cli/internal/seeder/event_generator.go:403-413 | a `not` over `eq` with a list or an object panics for every draw |
| Limits.ListSeedIsNeverAccepted | cli/internal/seeder/validator.go:156-181 | events that share a list or an object in a group_by field are never accepted |
| Limits.UnsettledOrIsFragile | cli/internal/seeder/rules.go:295-334 | an event passing a supported filter whose `or` compares with a list or an object can panic once a field is added |
| Limits.NestedNotNeverMatches | cli/internal/seeder/event_generator.go:256-281 | a `not` directly inside a `not` is served as the inner one, so the created event never matches |
| Limits.UndecidedNotIsFragile | cli/internal/seeder/rules.go:313-320 | a `not` that holds because a field is missing is lost when the field is added |
| Limits.EveryBranchIsServed | cli/internal/seeder/event_generator.go:194-200 | every branch of an `or` is served by some draws |
| Limits.EveryOrderComesUp | cli/internal/seeder/event_generator.go:284-301 | every order over the fields of a `not` comes up |
| Limits.AnyBranchWhenNoneFits | cli/internal/seeder/event_generator.go:72-84 | when no branch of an `or` fits the seeds, every branch is served by some draws |
| Limits.OtherSeedsAreIgnored | cli/internal/seeder/event_generator.go:64-105 | outside an `or`, seeds of other fields make no difference |
| Synthesizer.ApplyFilter | cli/internal/seeder/event_generator.go:186-252 | the in-place recursion leaves the maps spelling what the draws specify, and stops exactly where that panics |
| Synthesizer.ApplyNonMatchingFilter | cli/internal/seeder/event_generator.go:256-281 | the same for the negation of a filter |
| Synthesizer.ApplyNonMatchingConditions | cli/internal/seeder/event_generator.go:284-301 | the same for the conditions of a `not`: compound ones first, then one value per field |
| Synthesizer.ApplyFilterWithSeed | cli/internal/seeder/event_generator.go:64-105 | the same for the pass that prefers seeds |
| Synthesizer.CreateEventMatchingFilter | cli/internal/seeder/event_generator.go:38-45 | a fresh event, changed nowhere else |
| Synthesizer.CreateEventMatchingFilterWithSeed | cli/internal/seeder/event_generator.go:49-61 | seeds first, then the filter |
| Synthesizer.ApplyGroupByValues | cli/internal/seeder/event_generator.go:664-674 | fields that hold something keep it, missing ones get their seed |
| Outcomes.ApplyLeaves | cli/internal/seeder/event_generator.go:186-252 | what the pass leaves at a field is the value written last by the condition or `not` on that field, or what was there |
| Outcomes.OutcomeIsScalar | cli/internal/seeder/event_generator.go:186-252 | a supported filter writes scalars only |
| Outcomes.PinnedExactly | cli/internal/seeder/event_generator.go:186-301 | without `or`, all draws leave the same at a field if and only if the field is pinned |
| Seeding.FindBranchIsFirst | cli/internal/seeder/event_generator.go:108-115 | the chosen branch is the first compatible one, none is reported only when no branch is compatible, and the search panics only at a branch whose comparison does |
| Seeding.FitIsCompatible | cli/internal/seeder/event_generator.go:118-182 | where the condition-by-condition check of a branch does not panic it decides compatibility |
| Seeding.TemplateSeedsAreCompatible | cli/internal/seeder/event_generator.go:118-182 | seeds read off an event that meets the filter are compatible with it if no `not` asks for an undecided operator on a seeded field; without `or`, only then |
| Seeding.CreatedIsMolded | cli/internal/seeder/event_generator.go:38-45 | a created event holds what each of its `not`s wrote |
| Seeding.TemplateSeedsSuit | cli/internal/seeder/event_generator.go:64-105 | when the seeds decide, seeds read off a created event are accepted by the conditions outside any `or`, written again by the `not`s there, and compatible with every `or` |
| Seeding.SeededSound | cli/internal/seeder/event_generator.go:64-105 | a filter that the seeds suit is met with every seed still in place, even if another branch is picked |
| Seeding.SeededEventsMatch | cli/internal/seeder/event_generator.go:49-182 | when the seeds decide, every event seeded from a template is judged, without a panic, to match the filter and holds exactly the seed at every group_by field |
| Seeding.FillKeepsSeeded | cli/internal/seeder/event_generator.go:664-674 | applyGroupByValues changes nothing in a seeded event |
| Seeding.FillHolds | cli/internal/seeder/event_generator.go:664-674 | filling in keeps what is held and gives every missing group_by field its value |
| Enrichment.EnrichedGrows | cli/internal/seeder/ocsf_enrichment.go:79-332 | enrichEvent changes nothing that is there except under category_uid, category_name and class_name |
| Enrichment.NetworkEnrichedGrows | cli/internal/seeder/ocsf_enrichment.go:27-76 | enrichNetworkEvent changes nothing that is there |
| Enrichment.EnrichmentKeeps | cli/internal/seeder/ocsf_enrichment.go:22-332 | both enrichers keep the value at every field when none of an event's fields is stamped, or none lies under the class |
| Enrichment.EnrichedStillMatches | cli/internal/seeder/ocsf_enrichment.go:22-332 | an event passing a filter without `not` is not judged otherwise after either enricher when the filter avoids the stamped keys, and still passes unless the filter compares with a list or an object |
| Enrichment.StampsWin | cli/internal/seeder/ocsf_enrichment.go:79-332 | on the stamped keys the event class decides, whatever the event held there |
| OcsfFields.EnrichedIsComplete | cli/internal/seeder/ocsf_enrichment.go:79-332 | an event with an int or float class comes out with device, severity, metadata, time and category; with a known class also with class name, activity and the fields of its class, and the category is the class divided by 1000 |
| OcsfFields.ClassIsNamed | cli/internal/seeder/ocsf_enrichment.go:79-332 | category and class are named after the class |
| OcsfFields.ActivityIsFilled | cli/internal/seeder/ocsf_enrichment.go:79-332 | a missing activity and severity are those of the class; a failed logon is more severe |
| OcsfFields.LogonStatusIsFilled | cli/internal/seeder/ocsf_enrichment.go:79-332 | a logon without a status is a failure if its status_id is the int 2, a success otherwise |
| OcsfFields.LogonHasSession | cli/internal/seeder/ocsf_enrichment.go:79-332 | a logon by an actor that is a map has a session |
| OcsfFields.TimeIsFilled | cli/internal/seeder/ocsf_enrichment.go:79-332 | an event with a class and without a time gets the current one |
| OcsfFields.NetworkEnrichedHasEndpoints | cli/internal/seeder/ocsf_enrichment.go:27-76 | in a network event every endpoint that is a map has address, port, name and identifier |
| OcsfFields.EndpointAddressIsShared | cli/internal/seeder/ocsf_enrichment.go:27-76 | a missing address is the one the batch shares, which the first event draws |
| OcsfFields.BothEnrichersComplete | cli/internal/seeder/rule_generator.go:187-191 | after both enrichers an event is complete, its endpoints included |
| Enricher.EnrichEvent | cli/internal/seeder/ocsf_enrichment.go:22-24 | the in-place insertions leave the maps spelling the specified enriched event, which is complete for its class |
| Enricher.EnrichNetworkEvent | cli/internal/seeder/ocsf_enrichment.go:27-76 | the same for the endpoints, with the group_by values the first event extends |
| Rules.CeilExact | cli/internal/seeder/rule_generator.go:216-235 | when a rounded-up number exceeds or reaches a threshold |
| Rules.CountExact | cli/internal/seeder/rule_generator.go:216-235 | for every threshold and multiplier the computed number of events meets the validator's comparison exactly under a stated condition |
| Rules.CountSuffices | cli/internal/seeder/rule_generator.go:216-235 | it does, and is at least one, when threshold and multiplier are at least one (and an `eq` threshold is whole) |
| Rules.CountExactBelow | cli/internal/seeder/rule_generator.go:216-235 | for `lt` and `lte`, for which too many events are generated, the number meets the comparison exactly under a stated condition |
| Rules.UniqueValueInjective | cli/internal/seeder/field_generator.go:179-199 | different events get different values, in every format |
| Rules.TemplateMeets | cli/internal/seeder/rule_generator.go:80-100 | the template event meets the filter and is molded, and the values read off it are scalar seeds that fit it, over the same group_by fields |
| Rules.CountEventIsOfRule | cli/internal/seeder/rule_generator.go:91-129 | every event of a servable event_count rule meets the filter and shares the group_by values, after enrichment |
| Rules.EventCountRuleIsAccepted | cli/internal/seeder/validator.go:11-96 | such a batch passes the rule validator, with every event passing the filter |
| BatchVerdicts.EventCountVerdict | cli/internal/seeder/validator.go:11-96 | each answer exactly: refused when empty, when nothing passes, or when the number of events does not stand to the threshold as gt, gte, eq, lt or lte says; accepted when, besides, the group_by values agree and nothing panics |
| Rules.NetworkSeedsStay | cli/internal/seeder/ocsf_enrichment.go:27-76 | the first event never replaces a group_by value |
| Rules.FilledShares | cli/internal/seeder/rule_generator.go:160-185 | at a group_by field every event holds what the filter writes there for all draws, or the generated value |
| Rules.ValueEventIsOfRule | cli/internal/seeder/rule_generator.go:160-213 | every event of a servable value_count rule meets the filter, shares the group_by values, also those its filter fixes, and holds its own count value |
| Rules.ValueEventsAreDistinct | cli/internal/seeder/validator.go:99-153 | n such events have exactly n distinct values in the count field, and counting them does not panic |
| Rules.ValueCountRuleIsAccepted | cli/internal/seeder/validator.go:11-153 | such a batch passes the rule validator |
| BatchVerdicts.ValueCountVerdict | cli/internal/seeder/validator.go:11-153 | the same for value_count, of the size of the set of values the events hold |
| BatchVerdicts.GroupVerdictExactly | cli/internal/seeder/validator.go:156-181 | the group_by check panics exactly when the first event holds a list or an object there, and otherwise accepts exactly when all events agree |
| Rules.OverrideIsKept | cli/internal/seeder/rule_generator.go:91-116 | a group_by field that the filter leaves alone holds the override or generated value |
| RuleGenerator.GenerateGroupByValues | cli/internal/seeder/field_generator.go:24-40 | one value per group_by field, an override by name or a generated one; an empty name panics |
| RuleGenerator.TakeFromTemplate | cli/internal/seeder/rule_generator.go:91-100 | the values the template holds take over the generated ones |
| RuleGenerator.GenerateForEventCount | cli/internal/seeder/rule_generator.go:58-129 | the loop produces exactly the computed number of events, each what its draws specify and complete for its class; on a servable rule, as listed above, it does not fail, and group_by fields that the filter leaves alone hold their override or generated value in every event |
| RuleGenerator.ChainIsOfRule | cli/internal/seeder/rule_generator.go:132-213 | across the loop that hands the group_by values from event to event, every event is one of the rule |
| RuleGenerator.GenerateForValueCount | cli/internal/seeder/rule_generator.go:132-213 | the same for value_count, where each event may extend the group_by values for the next, and network events have complete endpoints |
| RuleGenerator.ValidateGroupByConsistency | cli/internal/seeder/validator.go:156-181 | panics exactly when the first event holds a list or an object at a group_by field, and otherwise accepts exactly the batches whose events agree with the first one on every group_by field |
| RuleGenerator.CountDistinct | cli/internal/seeder/validator.go:99-153 | the number of different values the events hold at a field; panics exactly when one of them is a list or an object |
| RuleGenerator.ValidateEventsMatchRule | cli/internal/seeder/validator.go:11-181 | the loops over the maps return the verdict specified on the events, and panic exactly where that says so |
| RuleGenerator.ServeEventCountRule | cli/internal/seeder/rule_generator.go:41-129 | generating a servable event_count rule, as listed above, and validating the result ends in acceptance, for every draw |
| RuleGenerator.ServeValueCountRule | cli/internal/seeder/rule_generator.go:132-213 | the same for a servable value_count rule |
| SeedsKept.SeedsKeptExactly | cli/internal/seeder/event_generator.go:49-105 | without `or`, every seeded event of every template passes and keeps its seeds if and only if what each `not` writes at the seeded fields does not depend on the draws |
| SeedsKept.UnsteadyOverwrites | cli/internal/seeder/event_generator.go:85-87 | at such a field a seeded pass leaves the text of the `not`, whatever the seed |
| RuleLimits.UnsteadyRuleIsRejected | cli/internal/seeder/event_generator.go:284-301 | for an event_count rule without `or` that is servable but for an unsteady group_by field, some draws make two events that no accepted batch contains |
| RuleLimits.UnsteadyRule | cli/internal/seeder/event_generator.go:284-301 | a `not` over `eq` on the group_by field is such a rule |
| RuleLimits.ComparisonInOrIsRefused | cli/internal/seeder/event_generator.go:161-182 | a seed that a `gt` in the first branch refuses is kept all the same, and the event is judged not to match |
| RuleLimits.ComparedRule | cli/internal/seeder/event_generator.go:108-182 | a supported, settled filter of that kind, and a template whose seed it is |
| RuleLimits.NotInOrOverwrites | cli/internal/seeder/event_generator.go:133-148 | a `not` in a branch is taken for compatible and writes different texts over the seed |
| RuleLimits.StampedFieldIsJudgedByStamp | cli/internal/seeder/ocsf_enrichment.go:79-332 | with a known class a condition on a stamped field is judged by the stamp alone |
| RuleLimits.CategoryNumberIsRefused | cli/internal/seeder/ocsf_enrichment.go:79-332 | `eq` with a decoded number on the category never passes |
| RuleLimits.UnpinnedRuleIsRejected | cli/internal/seeder/rule_generator.go:160-213 | for a value_count rule without `or` whose filter writes a group_by field that is not pinned, some draws make two events that no accepted batch contains |
| RuleLimits.CountFieldIsOverwritten | cli/internal/seeder/rule_generator.go:183-185 | a condition on the count field is judged by the event's own count value |
| HecUsage.BatchUpdate.Add | common/hecstats/hecstats.go:139-146 | the accumulated count, addresses and last address after one event |
| HecUsage.LastStaysKnown | common/hecstats/collector.go:109-121 | whatever is recorded and merged, the last address is one of the addresses, and there is none only if none was recorded |
| HecCollector.Collector.Record | common/hecstats/collector.go:51-62 | only the token's usage changes; other batches are neither changed nor shared |
| HecCollector.Collector.SwapOut | common/hecstats/collector.go:84-89 | the accumulated batches are handed over whole and nothing stays behind |
| HecCollector.Collector.MergeBack | common/hecstats/collector.go:109-121 | a failed batch is added to what was accumulated meanwhile, or becomes the token's batch itself |
| HecCollector.Collector.Stats | common/hecstats/collector.go:149-158 | the counts not yet flushed, per token |
| HecCollector.Collector.Flush | common/hecstats/collector.go:84-134 | after a flush with arbitrary failures the store has every successful batch once, and the failed ones are accumulated as they were |
| HecCollector.FlushConserves | common/hecstats/collector.go:84-134 | what the flush wrote and what it put back add up to what was there |
| HecStore.UsageStore.FlushBatch | common/hecstats/hecstats.go:150-202 | the write reaches the store whole or not at all; an empty batch is not written; every counter still sums its writes |
| HecStore.UsageStore.RecordUsage | common/hecstats/hecstats.go:78-120 | the same for the direct write of one request |
| HecStore.UsageStore.GetStats | common/hecstats/hecstats.go:205-277 | total, current hour, last 24 hour buckets and addresses since local midnight, each as a sum over the writes themselves and between instants of the clock: no counter in the window has expired |
| HecStore.UsageStore.LiveInWindow | common/hecstats/hecstats.go:170-173 | no hourly counter expires while it can be read |
| HecStore.WindowsNest | common/hecstats/hecstats.go:267-277 | for counts that are not negative the current hour is within the window and the window within the total |
| HecStore.WindowInTime | common/hecstats/hecstats.go:210-215 | the window counts every write of the last 23 hours and none that is 24 hours old |
| HecStore.DayInTime | common/hecstats/hecstats.go:82-83 | a write until now counts as today's exactly if it came at or after local midnight |
| HecStore.HourInTime | common/hecstats/hecstats.go:81-82 | a bucket h hours back holds what was written since h hours before the start of the current hour |
| HecStore.CountInTime | common/hecstats/hecstats.go:210-215 | the sum of the buckets is the sum of the writes between two instants |
| HecStore.IpsInTime | common/hecstats/hecstats.go:205-277 | the addresses of a day are those of the writes between two midnights |
| CollectorRuns.StepKeepsOwned | common/hecstats/collector.go:51-134 | every step keeps that each batch has exactly one owner, the collector's map under its token or one flush |
| CollectorRuns.StepConserves | common/hecstats/collector.go:51-134 | a step changes what is known of a token only by what it records |
| CollectorRuns.NothingLostOrDoubled | common/hecstats/collector.go:51-134 | over every run, recorded equals stored plus accumulated plus held by flushes, per token |
| CollectorRuns.QuietMeansStored | common/hecstats/collector.go:136-145 | once nothing is accumulated and no flush is under way the store has everything |
| CollectorRuns.QuietMeansReported | common/hecstats/hecstats.go:262-264 | and then the reported total is what was recorded |
| CollectorRuns.StepsAreTheMethods | common/hecstats/collector.go:51-134 | the steps change the accumulated usage as the methods' contracts say |
| CollectorAddresses.StepKeepsAddresses | common/hecstats/hecstats.go:150-153 | a step keeps every known address of a token if and only if it does not drop a zero-count batch of the token that alone knows one of its addresses |
| CollectorAddresses.NoAddressLost | common/hecstats/collector.go:51-134 | for counts that are not negative, over every run, an address recorded with a count above zero stays known, and only recorded ones are known |
| CollectorAddresses.LosingRun | common/hecstats/hecstats.go:150-153 | any recordings can be interleaved so that an address they bring only with a count of zero is lost |
| CollectorAddresses.AddressSurvivesExactly | common/hecstats/collector.go:51-134 | for counts that are not negative, an address is known after every run over the given recordings if and only if one of them brings it with a count above zero |
| Rbac.LowestOrdinalIsLeast | authenticate/internal/models/user.go:247-257 | the ordinal is the least of the roles that count, 100 at most |
| Rbac.ComputeLowestOrdinal | authenticate/internal/models/user.go:249-257 | the loop computes it |
| Rbac.GetPermissions | authenticate/internal/models/user.go:365-382 | the nested loops list the permission names of the roles that count, first occurrences in order |
| Rbac.DistinctHasNoDuplicates | authenticate/internal/models/user.go:364-382 | the list has every name and no name twice |
| Rbac.StringMatchesName | authenticate/internal/models/rbac.go:184-190 | splitting a permission string gives a permission's two halves if and only if it spells the permission and the resource has no colon |
| Rbac.CanExactly | authenticate/internal/models/user.go:221-235 | without a protected role, Can grants exactly the names of held permissions with a colon-free resource |
| Rbac.ListAgreesWithCan | authenticate/internal/models/user.go:364-382 | for colon-free resources the list and the check agree |
| Rbac.AgreementIsExact | authenticate/internal/models/user.go:221-244 | for all users list and check agree on a name exactly when: it is listed, for a user with a protected role; it is not listed or held under a colon-free resource, for any other |
| Rbac.CanInFull | authenticate/internal/models/user.go:221-244 | for every user Can grants exactly the colon-free names held in a role not revoked, and everything to a protected role of ordinal zero |
| Rbac.RevokedCountsForNothing | authenticate/internal/models/user.go:221-257 | a revoked assignment changes no grant, no listing and no ordinal |
| Rbac.PanicsExactly | authenticate/internal/models/user.go:444-453 | when CanActInScope dereferences a nil organization |
| Rbac.GoverningPanicsExactly | authenticate/internal/models/user.go:279-327 | when CanManageUser and CanResetPassword do |
| Rbac.InsideIsAnOrder | authenticate/internal/models/rbac.go:8-16 | containment on the platform, organization, client tree is a partial order |
| Rbac.ActsInsideItsSubtree | authenticate/internal/models/user.go:388-459 | CanActInScope is permission plus containment in the subtree of the user's scope |
| Rbac.ScopeIsMonotone | authenticate/internal/models/user.go:388-459 | it is closed downward in the target and antitone in the user's depth |
| Rbac.GovernsExactly | authenticate/internal/models/user.go:271-301 | managing is permission, no protection, ordinal and containment, nothing else |
| Rbac.ManagingAndResettingExactly | authenticate/internal/models/user.go:279-327 | managing asks for users:update and resetting for users:reset_password; both for an unprotected target, an ordinal no higher and containment |
| Rbac.ManagingAndResettingAreTransitive | authenticate/internal/models/user.go:279-327 | CanManageUser and CanResetPassword are transitive |
| Rbac.MutualGovernorsArePeers | authenticate/internal/models/user.go:279-327 | users who manage each other have the same scope and ordinal and no protected role |
| Rbac.AssigningDoesNotEscalate | authenticate/internal/models/user.go:334-351 | an assignable role takes nobody out of one's reach and does not strengthen oneself |
| Rbac.AssigningExactly | authenticate/internal/models/user.go:334-351 | assignable are exactly the unprotected roles, by users:assign_roles, that are no stronger than an active role of one's own (or than none) |
| RoleRows.TakeRow | authenticate/internal/repository/postgres.go:222-267 | one row creates or extends exactly its assignment |
| RoleRows.GroupRows | authenticate/internal/repository/postgres.go:186-278 | the loop over map and order computes the grouping |
| RoleRows.GroupingIsFaithful | authenticate/internal/repository/postgres.go:186-278 | every assignment once, in first-occurrence order, with exactly its non-null permissions in row order |
| RoleRows.GroupingUndoesTheJoin | authenticate/internal/repository/postgres.go:186-278 | grouping the left join of any assignments gives them back |
| RoleRows.FlatteningUndoesTheGrouping | authenticate/internal/repository/postgres.go:156-278 | flattening what was grouped from rows sorted by assignment gives the rows back |
| RoleRows.CanExactlyWhatTheRowsSay | authenticate/internal/repository/postgres.go:258-267 | the loaded user can do exactly what some row's resource and action say |
| SoundCrypto.SoundCryptoExists | authenticate/pkg/tokens/jwt.go:42-87 | some way of signing and verifying keeps the law the token results assume |
| Sessions.RunsKeepIndexed | authenticate/internal/repository/memory.go:28-91 | over every run of the service the two user indexes file the same accounts |
| Sessions.SessionLife | authenticate/internal/service/auth_service.go:201-218 | a session stays as its login opened it and is revoked exactly when a later step revoked it |
| Sessions.SessionsComeFromLogins | authenticate/internal/service/auth_service.go:139-218 | every filed session was opened by a successful login |
| Sessions.ValidExactlyWhileOpen | authenticate/internal/service/auth_service.go:270-306 | a token may be accepted for a user if and only if a login less than fifteen minutes old issued it to that user, its session is not revoked and the user exists |
| Sessions.RevokedNeverRefreshes | authenticate/internal/service/auth_service.go:239-247 | a revoked refresh token never refreshes again |
| Sessions.RevokedNeverValidates | authenticate/internal/service/auth_service.go:308-310 | the access token of a revoked session is not accepted again unless the same user opened another session in the same second |
| Sessions.DeletedUserIsLockedOut | authenticate/internal/service/auth_service.go:417-443 | no token of a deleted user is accepted or refreshed |
| Sessions.RefreshedTokenExactly | authenticate/internal/service/auth_service.go:239-268 | a refreshed token may be accepted for a user if and only if it names that user and the session of a login with the same claims in the second of the refresh is still open |
| Sessions.NothingIsEverStale | authenticate/internal/service/auth_service.go:289-305 | over the in-memory repository no accepted token is flagged as stale |
| Accounts.AccountAsSet | authenticate/internal/service/auth_service.go:73-137 | an account that was created and not deleted holds the hash, roles and email that its creation or the last call changing them set |
| Accounts.AccountWasCreated | authenticate/internal/service/auth_service.go:73-137 | every account there was created by a call and not deleted since |
| Accounts.LoginOpensExactly | authenticate/internal/service/auth_service.go:139-237 | over every run a login opens a session exactly when its password matches the hash last set for the account of that name; session and token are that user's, with the roles last set, for seven days |
| Accounts.TokensAreEarned | authenticate/internal/service/auth_service.go:270-306 | a token may be accepted for a user if and only if the user was created and not deleted, and a login less than fifteen minutes old, with a password that matched the hash last set, issued it and its session is not revoked |
| Accounts.RefreshIsEarned | authenticate/internal/service/auth_service.go:239-268 | a refresh token is answered if and only if such a login got it less than seven days ago, it was not revoked and the user exists; the new token has the roles last set |
| SessionService.InMemoryRepository.ValidIsIndexed | authenticate/internal/repository/memory.go:11-17 | records shared by the two indexes are what the state machine calls indexed |
| SessionService.InMemoryRepository.GetSessionByAccessToken | authenticate/internal/repository/memory.go:112-122 | the search comes upon a session with the token, or there is none |
| SessionService.InMemoryRepository.UpdateUser | authenticate/internal/repository/memory.go:80-91 | filing a record again under its own keys changes neither index |
| SessionService.AuthService.CreateUser | authenticate/internal/service/auth_service.go:73-137 | is the state machine's step, fails exactly when the name is taken, and files the account as given, with the viewer's role for none |
| SessionService.AuthService.Login | authenticate/internal/service/auth_service.go:139-237 | is the state machine's step; there is a token exactly when the name is filed, its record active and the password matches its hash, and then it is that user's, filed for seven days |
| SessionService.AuthService.RefreshToken | authenticate/internal/service/auth_service.go:239-268 | answers exactly for an unrevoked, unexpired session of a filed user |
| SessionService.AuthService.ValidateToken | authenticate/internal/service/auth_service.go:270-306 | gives an answer the state machine allows; a valid one names the claims' user, filed, with an unrevoked and unexpired session of that token |
| SessionService.AuthService.RevokeToken | authenticate/internal/service/auth_service.go:308-310 | is the state machine's step on the shared record, which is stamped as revoked |
| SessionService.AuthService.UpdateUserDetails | authenticate/internal/service/auth_service.go:381-415 | is the state machine's step, seen through both indexes: the email unless empty, the roles if given, never the password |
| SessionService.AuthService.ResetPassword | authenticate/internal/service/auth_service.go:445-485 | is the state machine's step, seen through both indexes: the record has the new hash and its old roles |
| SessionService.AuthService.DeleteUser | authenticate/internal/service/auth_service.go:417-443 | is the state machine's step: neither index files the user any more; the sessions stay |
| Acks.StepMovesGap | ingest/internal/ack/manager.go:47-148 | the gap between gauge and map changes only when a final acknowledgement is finished again |
| Acks.GaugeExactly | ingest/internal/ack/manager.go:47-148 | over every run the gauge is GetPending less the half-done creations and the repeated finishes, so it is right exactly when there are none |
| Acks.GaugeIsPending | ingest/internal/ack/manager.go:47-117 | it is right when every identifier is finished at most once and no creation is half way |
| Acks.KeptWithinTtl | ingest/internal/ack/manager.go:135-148 | over every run an acknowledgement touched within the ttl is still filed, and a final one stays final |
| Acks.StatusIsAsCalled | ingest/internal/ack/manager.go:67-89 | over every run a filed acknowledgement has the status of the last call that finished it, and is pending if there is none |
| Acks.CleanupExactly | ingest/internal/ack/manager.go:135-148 | a cleanup leaves exactly what was touched within the ttl, unchanged |
| AckManager.Manager.File | ingest/internal/ack/manager.go:47-59 | is the protocol's insertion step: the identifier is pending |
| AckManager.Manager.IncrementGauge | ingest/internal/ack/manager.go:61 | is the protocol's step that ends a creation |
| AckManager.Manager.Finish | ingest/internal/ack/manager.go:67-89 | is the protocol's finishing step on the shared record: status and time are those of the call, the gauge is one lower, no other record changes |
| AckManager.Manager.Query | ingest/internal/ack/manager.go:92-104 | answers for exactly the filed identifiers among those asked |
| AckManager.Manager.GetPending | ingest/internal/ack/manager.go:107-118 | the loop over the map counts the pending acknowledgements |
| AckManager.Manager.Cleanup | ingest/internal/ack/manager.go:135-148 | the sweep removes exactly the expired acknowledgements and lowers the gauge by the pending ones among them |
| FieldRules.FilterReportIsComplete | common/fields/validator.go:117-137 | the validation of a filter reports exactly the invalid fields that extraction finds in it |
| FieldRules.ModelReportIsComplete | common/fields/validator.go:59-114 | the same for the whole model section |
| FieldRules.ValidationAgreesWithExtraction | common/fields/validator.go:43-56 | when no fields_order entry begins with a dot, a rule is accepted exactly when every extracted field is valid |
| FieldRules.ValidationExactly | common/fields/validator.go:140-163 | for a table without double dots acceptance is: every extracted field valid and no entry beginning with a dot |
| FieldRules.DotLedEntryIsRejected | common/fields/validator.go:153-155 | a valid field written with its dot in fields_order is rejected although extraction finds it valid |
| FieldRules.DotLedOrderingIsRejected | common/fields/validator.go:140-163 | such a view, for every valid dotted field |
| FieldRules.ParsedFieldsAreExtracted | cli/internal/seeder/rules.go:210-250 | every field a parsed filter can read is among those extracted from its source; it names no other but "", for an empty type |
| FieldRules.EmptyTypeNeverMatches | cli/internal/seeder/rules.go:210-250 | a filter whose type is the empty text matches nothing |
| FieldRules.VerdictReadsOnlyItsFields | cli/internal/seeder/rules.go:295-334 | the verdict, panics included, depends only on the fields the filter reads |
| FieldRules.AcceptedRulesReadValidFields | common/fields/validator.go:43-56 | the verdict of an accepted rule's filter, panics included, depends on valid fields only |
| ParsedFilters.CompoundAsNamed | cli/internal/seeder/rules.go:210-250 | a parsed `and`, `or` or `not` holds its source's conditions in order and judges as its name says; an unknown name matches nothing |
| ParsedFilters.ComparedAsNamed | cli/internal/seeder/rules.go:210-250 | a parsed comparison compares numbers as its name says |
| ParsedFilters.TextsAsNamed | cli/internal/seeder/rules.go:210-250 | the same for `eq`, `ne` and `contains` on texts |
| ParsedFilters.ListedAsNamed | cli/internal/seeder/rules.go:210-250 | the same for `in` |
| ParsedFilters.RefusedExactly | cli/internal/seeder/rules.go:210-250 | parsing fails exactly for a condition without field or operator and for a compound filter with a condition that is no object or fails |
| ParsedFilters.FieldsAreFound | common/fields/validator.go:182-274 | from a rule with a field in every place, the model's filters, steps, group_by and count field and the view, extraction finds all and nothing else |
| ParsedFilters.PlacesAreReported | common/fields/validator.go:43-163 | in such a rule without a valid field validation reports each with its place, in order |
| ParsedFilters.AggregationIsNoField | common/fields/validator.go:167-179 | the seven names of aggregations in fields_order are neither checked nor extracted |
| ParsedFilters.ValidPathsExactly | common/fields/fields.go:161-180 | a path is valid exactly if, with its dot, it is in the table or extends one of the prefixes; the dot may be left out |
| FieldValidator.ValidationError.ValidateFilter | common/fields/validator.go:117-137 | the recursion appends the specified reports, in order, after those already there |
| FieldValidator.ValidateRule | common/fields/validator.go:43-56 | returns nil exactly when there is nothing to report, and otherwise the whole report |
| FieldValidator.ExtractFields | common/fields/validator.go:182-274 | the shared set collects exactly the rule's fields |
| FieldValidator.ParseQueryFilter | cli/internal/seeder/rules.go:210-250 | the loop that stops at the first failure returns the specified filter or error |
| Timing.CalculateJitteredTime | cli/pkg/attacks/t1110.go:117-143 | the time lies in the window before now |
| Timing.ClampsRarelyFire | cli/pkg/attacks/t1110.go:134-139 | the upper clamp never fires, the lower one only for the first event |
| Timing.Separation | cli/internal/seeder/event_generator.go:16-35 | two events are as far apart as their even positions, but for 0.8 intervals and a nanosecond |
| Timing.OrderFollowsIndex | cli/pkg/attacks/t1110.go:115-143 | time follows index for every jitter, strictly from an interval of five nanoseconds on |
| Timing.WindowIsCovered | cli/pkg/attacks/t1110.go:115-143 | the first and the last event lie near the ends of the window |
| Timing.JitterFollowsDraw | cli/pkg/attacks/t1110.go:117-143 | an event is off its even position by 0.4 intervals times its draw, but for two nanoseconds |
| Timing.DrawsSpread | cli/pkg/attacks/t1110.go:117-143 | two draws for an event after the first differ in time by 0.4 intervals times their difference, but for three nanoseconds |

## Left out

- Filters.Compare: numbers are reals, so float64 rounding is not modelled; JSON objects as filter values are one opaque value.
- Filters.Matches: the checker's view of a nil event map is not modelled separately from the empty one.
- ValueGen.SimpleValue: the text of Go's `%v` formatting and the regular-expression heuristic are parameters (`Choices.render`, `Choices.regexText`); outside a `not` the generator does not aim at a checkable result for `ne`, `regex` and `matches`, so they are not supported there.
- GoStrings.ToLower: lower-casing is ASCII only.
- ValueGen.FirstAvoiding: the 100-try search loops are recursive functions on values, since they change no state.
- ValueGen.LeafExact: exact numbers; in float64 `gt` and `lt` fail for thresholds beyond 2^53.
- ValueGen.GroupWitness: the draws may use any text as a word, where the program has a fixed dictionary.
- ValueGen.NegLeafWitness: the draws may use any text as a word here too.
- ValueGen.NegLeafExact: exact over any texts as words; that the condition suffices does not depend on it.
- ValueGen.GroupExact: exact over any texts as words, as above.
- ValueGen.OnlyTextExactly: the same.
- Rules.CountSuffices: lt and lte count operators, for which the generator does not aim at a checkable count, are left out of the end-to-end results, as are thresholds and multipliers below one.
- Seeding.SeededEventsMatch: sufficient but not exact for filters with `or`, whose branches may look at a group_by field with `eq`, `in` and `contains` only.
- Rules.CountEventIsOfRule: servable rules only, as listed above; whether a batch is accepted when a field lies under a stamped key and the stamp happens to satisfy every condition is left out.
- Rules.ValueEventIsOfRule: servable rules only, as listed above; an endpoint address added by the first event is allowed for. A group_by field that every branch of an `or` writes alike is not counted as pinned.
- RuleGenerator.GenerateForEventCount: starts from a parsed rule and generated group_by values; reading the rule's parameters, wrapping events with time and source type, and the fixed tables behind generated field values are not modelled (`Env.gen` stands for any of them).
- Enricher.EnrichEvent: the literals inserted per class are written as data and a loop over them; map insertion order, which Go does not expose, is fixed.
- EventMaps.EventMap.SetFieldValue: a JSON object written as a filter value or a seed is opaque, so a write below it is a panic here, where the program writes into the object; no supported filter writes one, and within a schema no field reaches into another. Only maps reached from the event are modelled; two events never share a nested map, as in the source, where each one is built afresh.
- CollectorAddresses.AddressSurvivesExactly: negative counts, which no caller records, are left out. Nothing is claimed about which address is the last one, since a merge-back overwrites it with that of the failed batch.
- CollectorRuns.NothingLostOrDoubled: a write is all or nothing, as the pipeline of the source intends; counts are unbounded integers; the ticker, the context timeout and Stop's waiting are not modelled beyond the steps they cause.
- HecStore.UsageStore.GetStats: the hash of ingest instances, the last-used fields, the daily counter and key spelling are left out; one clock with a fixed zone offset that does not go back serves writers, readers and expiry.
- HecCollector.Collector.Flush: one flush without interference; the interleavings are the subject of CollectorRuns.
- Rbac.ActsInsideItsSubtree: the lookup from client to organization is a function that gives a client at most one organization, and client scopes carry the owning organization.
- RoleRows.GroupRows: an assignment record is a value in the map, since nothing else refers to it; columns that no permission check reads are left out, and so is the query itself.
- Sessions.Next: each service call is one atomic step, while the program locks only inside single repository calls, so that Login, ValidateToken and UpdateUserDetails can interleave there; disabling accounts and audit logging are left out; time is in seconds; identifiers and refresh tokens are fresh, and hashing, signing and verifying are parameters with the law `Crypto.Sound`.
- SessionService.AuthService.UpdateUserDetails: usernames and identifiers are constants, as no service call changes them; renaming through the repository alone would leave the old index entry.
- Acks.Next: one clock that does not go back; the count of completed acknowledgements, which only grows, is left out.
- FieldRules.IsValidField: the field table and the prefixes are parameters, required to be free of double dots where stated, as the shipped ones are.
- Timing.CalculateJitteredTime: arithmetic is exact instead of float64, and the conversion to an integer drops the fraction.
- HTTP handlers, command line, storage queries, messaging, configuration, migrations and the front end: plumbing around the modelled parts.
- HEC tokens, organizations and clients as records, OCSF type validation by reflection, and the other attack generators: easy members that would add no harder property.
