# Tracey: a model of its protocols and codecs

This project models the parts of the Tracey agent that compute something hard to get right, and proves what they
guarantee over all inputs and all runs. Each source file has its own module; state that the agent updates in place is
a class whose methods are proved against specification functions, and the results about whole runs are lemmas about
those functions.

- **`Aer`** (with `Bits`, `Machine`) is the AER event codec of `src/aer.rs`: stable sort, timestamp deltas, unsigned
  LEB128 varints (section 7.6 of the DWARF 5 standard), little-endian base time. Encoder and decoder are loops proved
  against `Encode` and `Decode`; the main results are the round trip to the unique stable sort, the classification of
  every prefix of an encoding, and the round trip of whatever was decoded.
- **`Coordination`, `Scores`, `Election`, `FleetViews`, `Ranking`** are the leader election of `src/coordination.rs`: the
  presence map, the weighted ranking, proxy and exporter, the role epoch. The candidates are met in an arbitrary
  order, as a hash map yields them, and the role is nevertheless proved to be a function of the live map. `Scores`
  says what the weights and readings mean for rank and exporter in the records' own numbers. `Election`
  has the fleets whose members agree on the scores, `FleetViews` those whose members see different latencies.
- **`Planning`, `Assessment`, `Retries`, `Schedule`, `SortedLists`** are the assessment client of
  `src/continuum_assessment.rs`: plan validation, the due slice, division of the inventory by hash, progress, backoff,
  what the failure streaks count over runs, and whole runs against a server.
- **`Gossip`, `Payloads`, `Sanitize`** are the bookkeeping of `src/discovery.rs`: signatures and what they bind, the
  observed-peer ring, the send round, the three sanitisers.
- **`Embedded`, `Text`** are the Linux text decoders of `src/embedded.rs`.
- **`Inventory`**, **`Autoscaler`**, **`ProbeBackoff`** are the stateful loops of `src/inventory.rs`,
  `src/autoscaler.rs` and `src/probe_backoff.rs`.
- **`Lists`** and **`Machine`** hold the shared vocabulary.

## Conventions

- Machine integers are bounded naturals with saturation, truncation and shifts written out; `usize` is 64 bits wide.
  Bytes of the codec are naturals below 256; `Bits` proves that its masks, shifts and ors are the arithmetic used.
- Scores, percentages and ratios are reals.
- Clock readings, replies, recruit answers, sensor values and hash functions are inputs. A statement with a hash
  parameter therefore holds for every hash. Where a loop reads the clock several times the event carries each reading;
  a purge reads it for every entry.
- Strings are sequences of characters. Where the code counts bytes or slices at a byte, the UTF-8 width is modelled.
- `sort_by_key`, `sort_by` and `sort_unstable` are library calls in the source; here they are one
  stable insertion sort, proved for each use to give the only result its specification allows.

## Where the code does something unexpected

- An empty event list encodes to zero bytes, which the decoder refuses (`Aer.EncodingDecodesIffNonEmpty`).
- Every agent sees itself at latency 0, which flatters it in its own election. A fleet therefore elects the
  configured number of coordinators, and a single rank-0 controller, on every pattern of latencies if and only if
  latency carries no weight (`FleetViews.AlwaysExactIff`); the shipped weight is 1.5 (src/config.rs:2077-2081). For
  any positive weight and any hash of the ids some fleet elects one agent too many, each of them at rank 0
  (`FleetViews.OwnLatencyCanSplit`). It never elects too few (`FleetViews.FleetNeverElectsTooFew`), and elects
  exactly enough when nobody leads in its own view alone (`FleetViews.FleetElectsExactlyIff`). One fleet does so on
  every pattern of latencies if and only if nobody outside the latency-free leaders would lead with itself at latency
  0 and all others as slow as can be (`FleetViews.ElectsExactlyAlwaysIff`); with the shipped weights that is so only
  for fleets no larger than the leader limit (`FleetViews.ShippedElectsExactlyIff`).
- The assessment loop reads the clock before the plan fetch and tests the slot on that reading after it
  (src/continuum_assessment.rs:575-588), so a slice can begin after the slot, and nothing tests the end of a slice's
  own window. For every plan with nothing completed `Schedule.LateRun` is such a run. A slice begins inside the slot
  exactly when no fetch in between ended after it (`Schedule.ExecutionsBeginIff`), and inside its own window exactly
  when every started slice that is over by then is completed (`Schedule.OwnWindowIff`).
- The signed payload joins its fields with bars, and a bar inside a field can be read as the joint. An announcement
  is determined by its payload exactly when id, version, addresses, operating system and architecture hold no bar
  (`Payloads.PayloadBindsIff`); the announcement checks admit bars (src/discovery.rs:402-469). A legacy payload can
  equal a current one exactly when its id is the other id and version joined by a bar (`Payloads.SignedTextIff`).
  Neither a comma inside a tag nor an empty address is told from two tags or no address
  (`Payloads.PayloadLeavesOpen`).
- The epoch's parity gives the role only until the epoch saturates; the exact condition is `Election.EpochParityIff`.
- The passed cycle deadline never brings a plan fetch forward, because the attempt gate is set to the same time as the
  poll interval (`Schedule.GateAloneDecides`).
- An expired agent record suppresses reports until the next cleanup (`Inventory.ExpiredAgentStillSuppresses`).
- The "no unused hosts" branch of the autoscaler is reachable exactly when the host list repeats itself enough
  (`Autoscaler.RanOutReachableIff`).
- A mount table whose writer also escapes the number sign, as `\043`, decodes to what was written exactly for names
  without one (`Embedded.HashComesBackIff`); getmntent(3) does not list that code.

Three more are facts about functions alone, on inputs that the program as shipped does not give them:

- A sanitiser limit of zero lets one entry through (`Sanitize.LimitKeptIff`); both limits are clamped to at least 1
  (src/config.rs:936-937 and 987).
- An agent with a blank version signs one payload and is checked against another (`Gossip.BuiltIsAcceptedIff`); the
  announced version is the build constant (src/lib.rs:523-530).
- A probe base delay that is not a whole number of milliseconds is changed by rounding
  (`ProbeBackoff.FirstDelayIsBaseIff`, `ProbeBackoff.DelayBounds`); both callers pass whole milliseconds
  (src/refiner_tracking.rs:73-80, src/prometheus_export.rs:325).

## Model

| member | source | states |
|---|---|---|
| Bits.MasksAreArithmetic | src/aer.rs:88-94 | on 64-bit words the encoder's mask, or and shift are remainder, sum and quotient by 128 |
| Bits.AccumulatorOrIsPlus | src/aer.rs:96-111 | or-ing a shifted payload into an accumulator of fewer bits is adding it |
| Bits.ReaderAccumulatorFits | src/aer.rs:97-105 | at every turn of the reading loop the accumulator holds fewer bits than the shift, as the previous row asks |
| Aer.VarintIsGroup | src/aer.rs:88-94 | the bytes written for a number are one LEB128 group (continuation bit on all but the last) that stands for that number |
| Aer.VarintIsShortest | src/aer.rs:88-94 | no group for the same number is shorter, and the only one as short is the one written |
| Aer.VarintByteAt | src/aer.rs:88-94 | byte i of a varint holds seven bits from 7i on, with the top bit set on all but the last |
| Aer.U64VarintLength | src/aer.rs:88-94 | a u64 takes at most ten bytes |
| Aer.WriteVarint | src/aer.rs:88-94 | the loop appends exactly the group of its argument to the buffer |
| Aer.ReadVarint | src/aer.rs:96-111 | the loop returns the first group modulo 2^64 with its length, overflow after ten continuation bytes, truncation otherwise |
| Aer.VarintFailsIff | src/aer.rs:96-111 | overflow exactly for ten continuation bytes, truncated exactly for fewer bytes that all continue |
| Aer.AccumulateStep | src/aer.rs:100-105 | one turn of the accumulator holds the group read so far modulo 2^64, high bits of a tenth byte lost |
| Aer.VarintRoundTrip | src/aer.rs:88-111 | a written varint is read back whole, whatever follows it |
| Aer.VarintCut | src/aer.rs:96-111 | every strict prefix of a written varint is truncated, never an overflow or a smaller number |
| Aer.StableSortSorts | src/aer.rs:32-33 | the sort orders by timestamp and keeps the order of events with equal timestamps |
| Aer.StableSortIsUnique | src/aer.rs:32-33 | a sorted rearrangement that keeps equal timestamps in order is unique |
| Aer.WriteEvent | src/aer.rs:41-47 | appends delta, address and value as three varints |
| Aer.EncodeEvents | src/aer.rs:27-50 | the pushing loop produces magic, little-endian base time and the sorted events, or nothing for no events |
| Aer.ReadEvent | src/aer.rs:69-83 | reads three varints, saturates the time, truncates address and value, passes the first error on |
| Aer.DecodeEvents | src/aer.rs:53-86 | the loop equals header check followed by decoding event after event, with the first error found |
| Aer.HeaderRoundTrip | src/aer.rs:37-38 | header and base time are read back for any body |
| Aer.EncodedHeader | src/aer.rs:35-38 | an encoding begins with the bytes of "AER1" and its earliest timestamp, lowest byte first |
| Aer.EventIsThreeGroups | src/aer.rs:41-47 | an event is written as three groups that stand for time difference, address and value, in that order |
| Aer.AnyGroupsRead | src/aer.rs:69-83 | any three groups, hand-made ones included, read as an event: time saturated, address and value cut to their low bits |
| Aer.EventRoundTrip | src/aer.rs:42-82 | one written event is read back exactly; no saturation, truncation or overflow takes part |
| Aer.RoundTrip | src/aer.rs:27-86 | decoding the encoding of any non-empty list gives its stable sort by timestamp |
| Aer.EncodingDecodesIffNonEmpty | src/aer.rs:28-56 | an encoding decodes exactly when the list is not empty; the empty one is truncated |
| Aer.EncodingIdentifiesSort | src/aer.rs:27-50 | two lists share an encoding exactly when they have the same stable sort |
| Aer.PrefixAtBoundary | src/aer.rs:53-111 | an encoding cut between events decodes to the matching prefix of the sorted events |
| Aer.PrefixElsewhere | src/aer.rs:53-111 | an encoding cut anywhere else is truncated: no overflow, no wrong magic, no invented event |
| Aer.EventCut | src/aer.rs:69-83 | an event cut inside any of its three varints is truncated |
| Aer.BodyCut | src/aer.rs:69-111 | a body cut off every event boundary is truncated |
| Aer.DecodedIsSorted | src/aer.rs:77-82 | any accepted bytes give non-decreasing timestamps, none before the base |
| Aer.DecodeThenReencode | src/aer.rs:27-111 | events decoded from any bytes, hand-made ones included, survive encoding and decoding unchanged |
| Coordination.Coordinator.constructor | src/coordination.rs:82-116 | a fresh agent leads nothing, at epoch 0 with an empty map; the record it would file has latency 0; the invariant holds |
| Coordination.Coordinator.UpdatePrometheusProbe | src/coordination.rs:128-137 | stores the probe, copies it into the own record if there is one, keeps role and invariant |
| Coordination.Coordinator.RecordPresence | src/coordination.rs:140-164 | what is filed, field by field, the saturated age as latency; every other record and the role stay; the own record stays local unless the agent's own id is announced |
| Coordination.Coordinator.Refresh | src/coordination.rs:244-269 | the map becomes the live map; an own record newly put in is written out field by field |
| Coordination.LiveIsCurrent | src/coordination.rs:244-269 | which records the live map keeps and what it changes in the own one; all are within the TTL after the write-back |
| Coordination.Values | src/coordination.rs:281-284 | lists every record of the map once, in an order left open |
| Coordination.RankCandidates | src/coordination.rs:281-289 | whatever that order, the sort gives a ranking of the map by score descending, then id ascending |
| Ranking.SortRanks | src/coordination.rs:285-289 | sorting any listing of a set by a strict total order ranks the set |
| Ranking.RankingIsUnique | src/coordination.rs:285-289 | a set has one ranking, so iteration order cannot matter |
| Ranking.PlaceIsAhead | src/coordination.rs:293-299 | a candidate's place is the number of candidates ahead of it |
| Ranking.StringLessIff | src/coordination.rs:288 | ids are ordered by their first difference, a proper prefix first |
| Coordination.LeadersArePrefix | src/coordination.rs:291-299 | the leader prefix holds exactly the agents whose rank is below the leader count, each at its rank |
| Coordination.PositionIsRank | src/coordination.rs:293-299 | the search for the own id in the prefix finds the rank, or nothing when the agent does not lead |
| Coordination.ProxyIsProxy | src/coordination.rs:437-446 | the chosen proxy has the least latency among the leaders, ties going to the better rank |
| Coordination.ExporterIsExporter | src/coordination.rs:395-421 | the chosen exporter precedes all others: ready first, then export score, then id; it is ready when any candidate is |
| Coordination.ChoicesAreUnique | src/coordination.rs:395-446 | at most one record satisfies the proxy definition, and at most one the exporter definition |
| Scores.RankOrderIff | src/coordination.rs:281-361 | of two candidates the one whose weighted sum is larger ranks higher, between equals the smaller id |
| Scores.MoreCoresRankHigher | src/coordination.rs:352-361 | with a positive weight more cores rank strictly higher, all else equal |
| Scores.LowerLatencyRanksHigher | src/coordination.rs:352-361 | so does a lower latency |
| Scores.HigherHashRanksHigher | src/coordination.rs:352-361 | so does a higher hash score |
| Scores.BetterTagsRankHigher | src/coordination.rs:352-361 | so do tags worth more |
| Scores.SmallerIdRanksHigher | src/coordination.rs:285-289 | between candidates alike the smaller id ranks strictly higher |
| Scores.ReadyBeatsUnready | src/coordination.rs:415-416 | the exporter has a ready probe if any candidate has |
| Scores.ReadyExporterHasLargestSum | src/coordination.rs:407-435 | no ready candidate has a larger sum of inverse probe latency, bandwidth logarithm and rank score than the exporter, nor an equal one with a smaller id |
| Scores.UnreadyExporterHasLargestScore | src/coordination.rs:407-418 | without ready probes the largest rank score decides, then the id |
| Scores.SlowerProbeNeverExports | src/coordination.rs:416-435 | of two ready candidates alike but for probe latency the slower is never the exporter |
| Scores.NarrowerNeverExports | src/coordination.rs:416-435 | nor is the one of smaller bandwidth |
| Scores.LargerIdNeverExports | src/coordination.rs:418 | of two candidates alike but for the id the larger is never the exporter |
| Scores.FasterProbeKeepsExporter | src/coordination.rs:423-435 | a faster probe leaves the exporter in place |
| Coordination.Elect | src/coordination.rs:281-302 | leader count, own position, proxy and exporter are those of the map |
| Coordination.Coordinator.Apply | src/coordination.rs:304-339 | takes up the role, counts the flip, mirrors the role in the own record, keeps the invariant |
| Coordination.NextRoleDecided | src/coordination.rs:304-332 | the new role says what the election of that map decided, field by field |
| Coordination.NextRoleFlips | src/coordination.rs:304-316 | the epoch moves exactly on a flip, and epoch, parity and rank stay consistent with the role |
| Coordination.Coordinator.Evaluate | src/coordination.rs:239-340 | one election: the live map alone decides the role, the map becomes it with the own record mirroring the role, every record left is within the TTL, the epoch counts flips, and without foreign use of its id the agent saw itself at latency 0 |
| Election.MirrorIsStable | src/coordination.rs:334-339 | writing the role back copies role, epoch, time and probe, keeps the map current and loses no record at the same time |
| Election.ReelectionIsStable | src/coordination.rs:239-340 | an election with nothing new heard and nothing expired changes neither role nor rank nor proxy, so the epoch stays |
| Election.RankCountsIds | src/coordination.rs:285-299 | a rank counts the ids whose records are better |
| Election.SameScoresSameLeaders | src/coordination.rs:281-299 | maps with the same ids and scores give every id the same rank and the same leadership |
| Election.RankOrder | src/coordination.rs:285-299 | the ids of a map can be listed so that each stands at its rank and the first ones lead |
| Election.LeadersCount | src/coordination.rs:291-295 | exactly min(max(1, max_coordinators), n) of n candidates lead, written out |
| Election.FleetElectsCount | src/coordination.rs:281-316 | in a fleet that agrees on the scores exactly that many agents become coordinator |
| Election.FleetRanksOnce | src/coordination.rs:293-316 | in such a fleet every rank below the leader count is held by exactly one agent |
| Election.FleetHasOneController | src/coordination.rs:293-316 | in such a fleet exactly one agent is the rank-0 coordinator |
| Election.HigherScoreHelps | src/coordination.rs:281-299 | raising one weighted score never worsens that agent's rank or costs it the lead |
| Election.LowerLatencyHelps | src/coordination.rs:352-361 | lowering one latency never worsens that agent's rank or costs it the lead, for non-negative weights |
| Election.MoreCoresHelp | src/coordination.rs:352-361 | nor do more cores |
| Election.HigherHashOrTagsHelp | src/coordination.rs:352-361 | nor do a higher hash score or tags worth more |
| FleetViews.LatencyBlindViewsAgree | src/coordination.rs:352-361 | without weight on latency, views that differ in latency and bookkeeping only agree on the scores |
| FleetViews.OwnViewFlatters | src/coordination.rs:248-299 | in its own view, itself at latency 0, an agent ranks no worse than in the map without latencies |
| FleetViews.FleetNeverElectsTooFew | src/coordination.rs:239-340 | for every pattern of latencies at least the leader count of agents lead, among them all leaders of the latency-free map, and someone holds rank 0 |
| FleetViews.FleetElectsExactlyIff | src/coordination.rs:239-340 | for one pattern of latencies, exactly the leader count lead if and only if no agent leads in its own view without leading in the latency-free map |
| FleetViews.ElectsExactlyAlwaysIff | src/coordination.rs:239-361 | one fleet elects exactly the leader count on every pattern of latencies if and only if no agent outside the latency-free leaders leads with itself at 0 and all others at the largest latency |
| FleetViews.OutweighedElectsExactlyIff | src/coordination.rs:291-361 | where that advantage outweighs all other differences, this holds exactly for fleets no larger than the leader limit |
| FleetViews.ShippedElectsExactlyIff | src/config.rs:2074-2086 | with the shipped weights, up to a million cores and tags worth up to a thousand, it does |
| FleetViews.OwnLatencyCanSplit | src/coordination.rs:248-299 | for every positive latency weight, leader limit and hash of the ids there is a fleet of one agent more than may lead, on live maps of announced records, in which each elects itself at rank 0 |
| FleetViews.AlwaysExactIff | src/coordination.rs:239-361 | every fleet elects exactly the leader count, and exactly one controller, if and only if latency has no weight; other weights and the hash do not matter |
| FleetViews.HearPeers | src/coordination.rs:82-164 | a fresh agent that hears each peer once holds exactly their records |
| FleetViews.ElectSelf | src/coordination.rs:82-340 | the split as a run: such an agent, hearing peers of its own hash score, elects itself at rank 0 on that live map |
| Election.EpochParityIff | src/coordination.rs:304-308 | the epoch is odd exactly for coordinators if and only if there were at most 2^64-1 flips or the agent leads |
| Planning.ValidatePlan | src/continuum_assessment.rs:839-888 | accepts exactly the valid plans, and otherwise names the first rule broken |
| Planning.SlicesOkStep | src/continuum_assessment.rs:864-886 | the checks on one more slice succeed exactly when the longer prefix is in order |
| Planning.IndexesArePermutation | src/continuum_assessment.rs:864-874 | the slice indexes of a valid plan are a permutation of 0..slice_count-1 |
| Planning.OneTaker | src/continuum_assessment.rs:1963-1971 | under a valid plan every item of every kind belongs to exactly one slice |
| Planning.SelectedIsAll | src/continuum_assessment.rs:1137-1178 | over the slices, one list of items is selected with exactly its multiplicities |
| Planning.SelectKeepsOrder | src/continuum_assessment.rs:1137-1178 | a slice's records stand in the order of the cache |
| Planning.SliceTakesIff | src/continuum_assessment.rs:1137-1178 | which records of each kind a slice takes: those whose hash of kind and name leaves its index |
| Planning.SlicesConserveInventory | src/continuum_assessment.rs:1137-1178 | conservation: the reports over all slices carry the whole cache, every record once |
| SortedLists.SortDedupIsIncreasing | src/continuum_assessment.rs:965-966 | sort and dedup give the strictly increasing list of the same numbers |
| SortedLists.IncreasingIsUnique | src/continuum_assessment.rs:965-966 | that list is unique |
| Assessment.BackoffBounds | src/continuum_assessment.rs:1008-1024 | for any jitter the delay lies in [base, 300000 + base/3) |
| Assessment.BackoffGrows | src/continuum_assessment.rs:1008-1024 | until the cap each longer streak gives a longer delay, for any two jitters |
| Assessment.BackoffCapIff | src/continuum_assessment.rs:1008-1024 | the cap is reached exactly from the sixth failure, or the fifth when not retryable |
| Assessment.IngestKeepsCompleted | src/continuum_assessment.rs:920-971 | taking in a plan keeps every completed slice, adds the marked ones, and counts them |
| Assessment.DueIsFirstIncomplete | src/continuum_assessment.rs:653-663 | in a valid plan the due slice is the first incomplete one; none is due exactly when every started slice is completed |
| Assessment.AssessmentRuntime.constructor | src/continuum_assessment.rs:516-554 | the client starts without plan, progress, streaks or waiting times |
| Assessment.MergeCompleted | src/continuum_assessment.rs:954-966 | pushing the known slices that are missing, then sort and dedup, gives the sorted union |
| Assessment.AssessmentRuntime.IngestPlan | src/continuum_assessment.rs:920-971 | plan and progress after taking in a plan, first or later |
| Assessment.AssessmentRuntime.Fetch | src/continuum_assessment.rs:607-651 | the client after a plan reply, as the transition that the next rows and the run results are about |
| Assessment.AssessmentRuntime.Execute | src/continuum_assessment.rs:665-777 | the client after a report reply: failed, invalid, refused, stale or accepted |
| Assessment.AssessmentRuntime.ValidateResponse | src/continuum_assessment.rs:890-918 | accepts exactly the responses for this agent, this request and consistent counts |
| Assessment.AssessmentRuntime.RunTick | src/continuum_assessment.rs:575-597 | one turn: a fetch if due and allowed, then a report if a slice is due and allowed |
| Retries.PlanStreakCounts | src/continuum_assessment.rs:607-651 | over every run the plan streak is the number of failed fetches since the last success, saturated; the next fetch is set a poll interval after a success, and after n failures min(base * 2^min(n-1,5), 300000) plus the hash modulo base/3 later, base fixed by the reply |
| Retries.ReportStreakCounts | src/continuum_assessment.rs:665-729 | the same for reports, where acceptance and a stale plan start afresh |
| Retries.FailuresAreTrailing | src/continuum_assessment.rs:617-646 | the count is the longest run of failures that ends the log |
| Retries.HeldAfterFetch | src/continuum_assessment.rs:643-971 | a plan taken in is held, with its header in the progress, field by field; a failed fetch changes neither |
| Retries.HeldAfterReport | src/continuum_assessment.rs:705-976 | a reply that fits the request replaces plan and progress, accepted or not; any other leaves them |
| Retries.FlaggedIff | src/continuum_assessment.rs:934-939 | the completed slices of a first plan are those that it marks |
| Schedule.FetchTracks | src/continuum_assessment.rs:607-651 | a fetch loses no completed slice and believes no more than the server holds as done |
| Schedule.DueFacts | src/continuum_assessment.rs:653-663 | what is due, read off the original plan: not completed, started, in the slot, all earlier ones completed |
| Schedule.ReportTracks | src/continuum_assessment.rs:973-993 | a tick loses no completed slice, and after an accepted report the client knows all that the server holds |
| Schedule.ExecutedIsNext | src/continuum_assessment.rs:588-597 | an execution, whatever becomes of its reply, is decided inside the slot and not before its slice starts, and comes after all that earlier ones left behind |
| Schedule.ExecutedLeavesBehind | src/continuum_assessment.rs:653-777 | after an execution all slices before it are completed, and it too once it was accepted |
| Schedule.InvStep | src/continuum_assessment.rs:575-597 | every tick against an echoing server keeps the run invariant |
| Schedule.RunInv | src/continuum_assessment.rs:575-597 | the run invariant holds after every run |
| Schedule.SlicesRunInPlanOrder | src/continuum_assessment.rs:575-597 | over every run all executions, refused and lost ones included, are in plan order, strictly later than any accepted one, and decided on a clock reading inside the slot and not before their slice starts |
| Schedule.ExecutionsBeginIff | src/continuum_assessment.rs:575-597 | over every run no execution begins before its slice starts, and it begins inside the slot exactly when no plan fetch in between ended after the slot |
| Schedule.OwnWindowIff | src/continuum_assessment.rs:653-663 | the chosen slice begins inside its own window exactly when every slice that had started and is over by then is completed |
| Schedule.LateRun | src/continuum_assessment.rs:575-588 | for every plan with nothing completed, a run whose first slice begins after the slot, and after its own window if the plan has two slices |
| Schedule.ReportOfPlan | src/continuum_assessment.rs:1137-1178 | what is reported for a slice is the selection of the plan as first drawn up, whichever echo the client holds |
| Schedule.RunConservesInventory | src/continuum_assessment.rs:575-597 | once as many reports are accepted as the plan has slices, they carry the whole cache together, every record once |
| Schedule.CompletedNeverLost | src/continuum_assessment.rs:920-993 | over every run a completed slice stays completed |
| Schedule.RemainingDecreases | src/continuum_assessment.rs:653-777 | every accepted slice strictly shrinks the set still to run, and no tick enlarges it |
| Schedule.DueIff | src/continuum_assessment.rs:653-663 | within the slot something is due exactly when a started slice remains; nothing is due once none remains |
| Schedule.LastSliceMeansAll | src/continuum_assessment.rs:653-777 | a run accepts at most slice_count slices, and accepting the last in plan order leaves none |
| Schedule.NextAttemptIsLater | src/continuum_assessment.rs:607-651 | whatever the reply, a fetch puts the next attempt off by the gap, and nothing else moves it |
| Schedule.FetchesAreSpaced | src/continuum_assessment.rs:575-651 | over every run a fetch starts at least min(15000, poll interval) ms after any earlier one finished |
| Schedule.GateAloneDecides | src/continuum_assessment.rs:575-585 | in every reachable state the attempt gate alone decides whether a plan is fetched |
| Schedule.FailedReportWaits | src/continuum_assessment.rs:588-729 | however many ticks lie between, the next report comes at least 15000 ms after a failed or refused one |
| Embedded.OneMoreCode | src/embedded.rs:1685-1690 | replacing one more code after a pass is a pass that knows it: no replacement creates a code that is replaced later |
| Embedded.UnescapeIsOnePass | src/embedded.rs:1685-1690 | on every string the four sequential replacements equal a single left-to-right pass |
| Embedded.UnescapeUndoesEscape | src/embedded.rs:1685-1690 | decoding undoes the escaping of space, tab, newline and backslash on every string |
| Embedded.EscapeUndoesUnescapeIff | src/embedded.rs:1685-1690 | escaping a decoded string gives the raw one back exactly when the raw one is well escaped |
| Embedded.HashComesBackIff | src/embedded.rs:1685-1690 | with the number sign escaped as well, decoding gives the name back exactly when it holds none |
| Text.FindParens | src/embedded.rs:1626-1631 | first opening and last closing parenthesis enclose the name, whatever it contains |
| Text.SplitJoin | src/embedded.rs:1633 | splitting at whitespace undoes joining fields, whatever whitespace follows |
| Text.ParseDecimal | src/embedded.rs:1637-1638 | a u64 printed in decimal parses to itself |
| Embedded.StatParens | src/embedded.rs:1626-1632 | where the parentheses of a stat line are found |
| Embedded.ParseInvertsStatLine | src/embedded.rs:1625-1640 | on every stat line the parser returns name, field 14 and field 15, and fails exactly when one is missing or not a u64 |
| Embedded.ParseReturnsTimes | src/embedded.rs:1625-1640 | the kernel's own line gives back the name and the two times |
| Embedded.ParseIsSound | src/embedded.rs:1625-1640 | any accepted text splits around the name returned, with at least 13 fields that give the two times |
| Inventory.Worker.constructor | src/inventory.rs:40-47 | the worker starts with empty maps and no reports |
| Inventory.Worker.RecordAgent | src/inventory.rs:61-64 | an agent record changes that agent's time alone and reports nothing |
| Inventory.Worker.RecordHost | src/inventory.rs:65-88 | when a host observation is reported, and what each map holds after it |
| Inventory.Worker.CleanupTick | src/inventory.rs:54-58 | a cleanup, reading the clock for every entry, reports nothing and keeps in each of the three maps exactly the entries within its own time |
| Inventory.PurgeIsUnobservable | src/inventory.rs:54-87 | a run emits the same reports as one that never purges its report times |
| Inventory.AgentsMapIsKnown | src/inventory.rs:54-64 | the agent map is the trace's agents with no cleanup since that found them expired |
| Inventory.ReportMapIsLastReport | src/inventory.rs:70-76 | the report map holds each host's last report |
| Inventory.ReportedIff | src/inventory.rs:65-88 | a host is reported exactly when no agent is known and its last report is at least the resend time old, stated on the trace |
| Inventory.ReportsAreSpaced | src/inventory.rs:70-76 | over every run two reports for one host are at least the resend time apart |
| Inventory.NoReportForLiveAgent | src/inventory.rs:54-88 | no report for a host whose agent was recorded less than the agent TTL ago |
| Inventory.ExpiredAgentStillSuppresses | src/inventory.rs:54-70 | the converse fails: after any number of cleanups, none of which found it expired, an agent record suppresses reports however late |
| Inventory.ExpiredBetweenCleanups | src/inventory.rs:54-70 | a run of that kind, with a cleanup just before the record expires |
| Autoscaler.RequestedByCount | src/autoscaler.rs:186-238 | one host for one or two raised signals, two for three or four, three for five or six, as far as the list goes |
| Autoscaler.RequestedMonotone | src/autoscaler.rs:186-238 | more pressure never asks for fewer hosts, and never for more than three |
| Autoscaler.FreshTickTakes | src/autoscaler.rs:186-287 | a fresh controller's tick whose requests succeed takes exactly that many, names and room permitting |
| Autoscaler.NextUnused | src/autoscaler.rs:251-255 | with the first k distinct hosts taken, the search finds the next one, or none |
| Autoscaler.Scaler.constructor | src/autoscaler.rs:149 | nothing is recruited at the start |
| Autoscaler.Scaler.RecruitNext | src/autoscaler.rs:251-285 | asks the next distinct host and takes it exactly on success |
| Autoscaler.Scaler.Recruit | src/autoscaler.rs:246-287 | the loop asks for the next distinct hosts in order and stops for exactly one of the four reasons it reports |
| Autoscaler.Scaler.RunTick | src/autoscaler.rs:232-287 | which hosts a tick asks for, which it gets and what it reports; the set stays a prefix of the distinct hosts |
| Autoscaler.NeverMoreThanThree | src/autoscaler.rs:232-287 | over every run at most min(3, distinct hosts) hosts are taken |
| Autoscaler.RecruitedIsPrefix | src/autoscaler.rs:246-287 | over every run the recruited hosts, in order, are a prefix of the distinct list, none twice |
| Autoscaler.GrowsByAtMost | src/autoscaler.rs:246-287 | a tick adds at most max_recruits_per_tick hosts and gives none up |
| Autoscaler.TakesIff | src/autoscaler.rs:232-287 | a tick takes a host exactly when the controller wants one, one is unused and the first request succeeds |
| Autoscaler.RunTakesIff | src/autoscaler.rs:186-287 | a run recruits a host if and only if some tick has a controller, a reading at its threshold, a host configured, room for one, and a first request that succeeds |
| Autoscaler.BusyRun | src/autoscaler.rs:246-287 | runs of a busy controller take one host after another until none is left |
| Autoscaler.RanOutReachableIff | src/autoscaler.rs:251-262 | the branch without unused hosts is reachable exactly when there are fewer distinct hosts than min(3, entries) |
| Gossip.ToHex | src/discovery.rs:1264-1272 | the loop writes the two hexadecimal digits of every byte |
| Gossip.HexShape | src/discovery.rs:1264-1272 | two lower-case hexadecimal digits a byte, so 64 for 32 bytes |
| Gossip.HexReadsBack | src/discovery.rs:1264-1272 | read as numbers, digits 2i and 2i+1 are the high and low half of byte i |
| Gossip.HexIsInjective | src/discovery.rs:1264-1272 | different bytes never share their hexadecimal form |
| Gossip.NormalizeEq | src/discovery.rs:1274-1283 | the xor loop returns true exactly on equal strings |
| Gossip.ValidSignature | src/discovery.rs:348-399 | accepts exactly the hexadecimal keyed hash of the signed text |
| Gossip.SignedTextIs | src/discovery.rs:1165-1257 | that text, field by field: id, version if not blank, then thirteen texts in their order, joined by bars |
| Gossip.PayloadsDiffer | src/discovery.rs:1165-1257 | current and legacy payload of the same fields are never the same string |
| Gossip.BuiltIsAcceptedIff | src/discovery.rs:304-399 | an own announcement is accepted under the same key exactly when its version is not blank, a collision of the two payloads aside |
| Payloads.JoinDeterminesIff | src/discovery.rs:1191-1208 | a join of at least two parts determines them, among lists as long, exactly when none contains the separator |
| Payloads.JoinIsInjective | src/discovery.rs:1191-1208 | joining separator-free parts loses nothing, whatever the lengths |
| Payloads.PayloadBindsFields | src/discovery.rs:1165-1208 | any announcement, bars of its own or not, that shares the payload of a bar-free one agrees on every signed text: tags as joined by commas, missing version and addresses as empty |
| Payloads.PayloadBindsIff | src/discovery.rs:1165-1208 | with bar-free tags, a payload determines the signed texts exactly when id, version, addresses, operating system and architecture hold no bar |
| Payloads.BarInTagCanShift | src/discovery.rs:1191-1208 | a bar in a tag can let every text move one place |
| Payloads.SignedTextIff | src/discovery.rs:348-399 | which announcements, in either payload format, are checked against the text of a versioned bar-free one |
| Payloads.TagsAreBoundIff | src/discovery.rs:1201 | tags that are not empty and hold no comma are bound exactly |
| Payloads.PayloadLeavesOpen | src/discovery.rs:1191-1208 | a tag with a comma and two tags, an empty address and none, share a payload |
| Gossip.ObservedPeers.constructor | src/discovery.rs:233-242 | no peer is observed at the start |
| Gossip.ObservedPeers.Observe | src/discovery.rs:233-242 | a new peer goes to the back, the oldest leaves at 128, the set stays the index of the queue |
| Gossip.AdmittedStep | src/discovery.rs:233-242 | the queue is the last 128 admissions of everything received |
| Gossip.QueueHasNoRepeats | src/discovery.rs:233-242 | after any sequence of peers the queue has no duplicates |
| Gossip.SendRound | src/discovery.rs:155-170 | one send to every configured or observed target, once each, in order of first mention |
| Sanitize.KeepFirst | src/discovery.rs:1012-1088 | the shared loop keeps exactly the first max(limit, 1) valid entries in arrival order |
| Sanitize.SurvivorPositions | src/discovery.rs:1012-1088 | survivors stand in arrival order and every valid entry is among them |
| Sanitize.SurvivorsLoseNone | src/discovery.rs:1012-1163 | a list of valid entries loses none |
| Sanitize.FaultSurvivesIff | src/discovery.rs:1119-1131 | a fault survives exactly when its three identifiers hold text and fit 256, 128 and 64 bytes, whatever else it carries |
| Sanitize.FaultIsNormalised | src/discovery.rs:1132-1138 | what a surviving fault keeps: count and times; identifiers without outer whitespace; labels also with 'A' to 'Z' lowered; risks clamped |
| Sanitize.BanSurvivesIff | src/discovery.rs:1016-1030 | when a ban survives, with all but its address unchanged |
| Sanitize.ProbeSurvivesIff | src/discovery.rs:1056-1073 | when a probe survives, and what it keeps |
| Sanitize.FirstSixteenPorts | src/discovery.rs:1065-1072 | the ports kept are the positive ones among the first entries that make sixteen of them |
| Sanitize.ByteLenAdds | src/discovery.rs:1017 | byte lengths add up, so the length of a text is that of its characters |
| Sanitize.KeepFirstIdempotent | src/discovery.rs:1012-1163 | for an idempotent filter, sanitising twice is sanitising once |
| Sanitize.LimitKeptIff | src/discovery.rs:1031-1034 | the limit is kept exactly when it is positive or nothing survives |
| Sanitize.BanAdvertisement.SanitizeAnnouncement | src/discovery.rs:1006-1088 | bans and probes become their first valid entries |
| Sanitize.FaultAdvertisement.SanitizeFaultAnnouncement | src/discovery.rs:1106-1163 | faults become their first valid entries |
| Sanitize.PortsAreClean | src/discovery.rs:1065-1072 | ports are strictly increasing, positive, at most 16, from the input, and none is lost below the limit |
| Sanitize.CleanPortsIdempotent | src/discovery.rs:1065-1072 | cleaning ports again changes nothing |
| Sanitize.KeptBansAreLive | src/discovery.rs:1016-1034 | kept bans name a jail and a canonical address and are in force; live ones are all kept |
| Sanitize.KeptProbesAreNormal | src/discovery.rs:1056-1077 | kept probes have a canonical address, a plausible time and clean ports; live ones are all kept |
| Sanitize.KeptFaultsAreNormal | src/discovery.rs:1118-1144 | kept faults have trimmed identifiers, lower-case labels and risks in [0, 1] |
| Sanitize.BanFilterIdempotent | src/discovery.rs:1016-1034 | a kept ban would be kept again unchanged at the same time |
| Sanitize.ProbeFilterIdempotent | src/discovery.rs:1056-1077 | so would a kept probe |
| Sanitize.FaultFilterIdempotent | src/discovery.rs:1118-1144 | so would a kept fault |
| Sanitize.NormalIsStable | src/discovery.rs:1133-1137 | trimming and lowering a label twice is doing it once |
| Text.TrimIdempotent | src/discovery.rs:1064 | trimming leaves no whitespace at the ends and is idempotent |
| Text.TrimIsTrimmed | src/discovery.rs:1064 | trimming removes outer whitespace, all of it, and nothing else |
| Text.BlankIff | src/continuum_assessment.rs:840 | a text is blank exactly when every character is whitespace |
| Text.DecimalIsCanonical | src/discovery.rs:1195 | numbers are written without leading zeros |
| ProbeBackoff.AdaptiveProbeBackoff.constructor | src/probe_backoff.rs:16-29 | a zero base becomes 250 ms, and the maximum is at least the base |
| ProbeBackoff.AdaptiveProbeBackoff.RecordOutcome | src/probe_backoff.rs:31-44 | the saturating 32-bit counter yields the delay that the whole outcome history determines |
| ProbeBackoff.RunIsTrailing | src/probe_backoff.rs:32-37 | the counter stands for the longest run of equal outcomes that ends the history |
| ProbeBackoff.RunStep | src/probe_backoff.rs:32-37 | an equal outcome lengthens the run by one, another starts a new one |
| ProbeBackoff.ClosedForm | src/probe_backoff.rs:39-50 | for whole milliseconds the delay is min(max, base * 2^min(6, (r-1)/2)), r being the length of that run |
| ProbeBackoff.RoundedForm | src/probe_backoff.rs:39-50 | the same for every base below 2^64 ms, rounded down to milliseconds but to no less than one |
| ProbeBackoff.DelayBounds | src/probe_backoff.rs:39-50 | for all durations no delay exceeds the maximum, and none falls below the base if and only if the base is whole milliseconds within u64 or below one millisecond |
| ProbeBackoff.DelayGrowsAlongRun | src/probe_backoff.rs:39-50 | repeating an outcome never shortens the delay, for any durations |
| ProbeBackoff.DelayResetsOnChange | src/probe_backoff.rs:34-43 | a changed outcome brings back the delay of a fresh start |
| ProbeBackoff.DelaySettles | src/probe_backoff.rs:41-43 | from thirteen equal outcomes on, past counter saturation too, the delay no longer moves |
| ProbeBackoff.FirstDelayIsBaseIff | src/probe_backoff.rs:47-50 | the first delay is the base exactly for whole-millisecond bases in range and sub-millisecond bases that are also the maximum |

## Left out

- Floating point: scores, percentages, ratios and risks are reals, so rounding and NaN are not captured; with NaN or
  rounding collisions the ranking comparison of the source need not be a strict order.
- The tag score (src/coordination.rs:363-393) and `ln_1p` are open parameters of the election; the results hold for
  every choice, but nothing is said about particular tags.
- Election.FleetElectsCount: assumes that the agents' views agree on ids and scores, as do `FleetRanksOnce` and
  `FleetHasOneController`; `FleetViews` says what holds when latencies differ, and exactly when these three fail then.
- FleetViews.AlwaysExactIff: concerns views with the same ids. Views that differ in their ids, as while announcements
  are in flight, are not modelled.
- Election.LowerLatencyHelps: the weights are taken as non-negative, as src/config.rs:1085-1094 clamps them.
- Hashes and message authentication codes (blake3, the default hasher) are uninterpreted functions; no claim is made
  about collisions or strength.
- Payloads.PayloadBindsIff: takes tags and digests as bar-free. Digests are, being hexadecimal; whether a bar in a tag
  can be read as a joint depends on the other texts, as `BarInTagCanShift` shows, and no condition is given for it.
- Payloads.SignedTextIff: takes a version that is not a plain number; for such a version a time stamp could be read
  in its place. A ban, fault or probe advertisement is bound only as far as its digest is.
- Sanitize.BanFilterIdempotent: takes for granted that printed IP addresses parse back to themselves; the address
  parser is not part of this model.
- Schedule.SlicesRunInPlanOrder: concerns one plan and a server that echoes it. A report whose reply is lost is sent
  again, so "at most once" counts the replies that the client accepted. Progress carried from one cycle into the next
  is not modelled.
- Schedule.ExecutionsBeginIff: an execution begins when its report is prepared; how long the inventory scan and the
  request then take is not part of this model. The clock is taken not to run backwards during a fetch.
- Schedule.FetchesAreSpaced: holds below the end of the 64-bit millisecond clock, where attempt times saturate.
- Inventory.ReportsAreSpaced: the clock is monotone, as the source's `Instant` is.
- Escapes other than the four of getmntent(3), and the line loop around `unescape_mount`.
- Sorting is a specified function, not the library's in-place algorithm.
- JSON, the lossy announcement parser, semantic validation of announcements, target parsing, governance gates and the
  Slurm snapshot in discovery.
- Report bodies, summaries, statistics, communication counters, the mirror and the inventory digest in the assessment
  client; collection of the inventory itself, which cannot fail in the source.
- Sockets, HTTP, tasks and channels: each loop body is a step with its results as inputs. What the loops log or
  publish as snapshots is left out.
- The GPU, dashboard, command line, configuration, governance, security and authentication files.
