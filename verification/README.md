# Barn: a verified model

Barn ships the log files that `svlogd` writes on application machines to a central
rsync target. This project models five parts of the repository in Dafny and proves what
they promise:

- **Log shipping** (`LogShipping.dfy`, `Rounds.dfy`, `Decisions.dfy`, `BarnAgent.dfy`,
  `Helpers.dfy`, `ChannelSelector.dfy`, `SvlogdNames.dfy`). `barn-agent` looks for the newest
  run of local files that the target lacks and sends it in order. It runs against a directory
  that `svlogd` keeps changing, and with two targets to choose from. `LogShipping` is the
  protocol as a transition system with a program counter, and environment steps between any two
  agent steps. `Rounds` is about its whole rounds: what ends them, and what a heartbeat proves.
  `Decisions` traces every branch taken back to what the agent saw of the world. `BarnAgent` is
  the agent's code, method by method; its ghost `run` shows that it only takes protocol steps,
  and that each iteration is one round.
- **Unordered matching** (`Matchings.dfy`, `MaxBipartiteMatch.dfy`, `UnorderedElementsAre.dfy`).
  The vendored Google Mock decides `UnorderedElementsAre` by a maximum bipartite matching,
  found by depth-first search for augmenting paths over two mutable vectors.
- **Mock expectations** (`Expectations.dfy`). Three recursive traversals of the shared graph
  of prerequisites take shortcuts that are right only under an invariant of all call histories;
  a ledger says which calls of a history are accepted, and in what order they can come.
- **Logging settings** (`Configurations.dfy`, `TypedConfigurations.dfy`, `HitCounters.dfy`,
  `WildCards.dfy`). From the vendored easylogging++: the settings repository, the compressed
  index built from it, every-n-th hit counters, and wildcard matching.
- **Metrics monitor** (`MetricsMonitor.dfy`). A receiver and a timer share a bounded ring buffer.

`dafny verify dfyconfig.toml` checks everything.

## Assumptions about the environment of the agent

- A log file name is `@`, a TAI64N label of 24 hexadecimal digits, and possibly a suffix such as
  `.s` or `.u` (barn-agent/src/files.cpp:48). No two files in the directory have one label, so
  names are modelled as numbers; `SvlogdNames.LogDirectoryAscends` shows that the sorted listing
  is then in ascending order of these. A file that changes its suffix while it is listed,
  shipped or looked for is assumed away.
- Names increase with time and never recur (README.md:66-69, README.md:76).
- `svlogd` deletes the oldest file first; the clock does not run backwards.
- A dry run that succeeds reports exactly the listed files that still exist and are not on
  the target. It may fail. Whether rsync works is part of the world: it may change at any moment.
- A ship that succeeds puts the file on the target. One that fails may or may not have done
  so: the proofs do not need a failed ship to leave the target unchanged.
- Only this agent writes to its directory on a target. What is there at the start is arbitrary.

## Where the code does not do what its text says

- `setRemainingToDefault` is documented to set only what is not set. When Global has no value
  of a kind, it overwrites every level. `Configurations.ValueSurvivesDefaultsIff` gives the exact
  condition, for every kind, under which a level's own value survives, and
  `DefaultsOverwriteExplicitValue` an input where it does not.
- Its formats for Debug, Error, Fatal, Verbose and Trace are never installed on a list that `set`
  has made (`LevelFormatsAreDead`): `DebugFormatIsNotInstalled` is an input, and `RemainingMeans`
  says when a format for one level would be.
- A default metric that nobody reports is documented to be published as zero
  (barn-agent/src/metrics.h:16-17). The first publication, on a timer that is due at once, comes
  before any defaults are in the buffer; in a later interval that overflows, a default may be
  overwritten. `MetricsMonitor.UnreportedIsPublishedAsZeroIff` gives the exact condition for every
  publication of every run, and `FirstPublicationIsEmpty` and `FloodDropsDefault` an input each.
- The compressed index can lose a level's value when the repository was not filled Global first.
  `TypedConfigurations.AgreesIffFirstMatchesGlobal` gives the exact condition, and
  `IndexCanLoseAValue` an input. Histories that start with `setToDefault` are safe.
- `validateEveryN` works for a threshold n exactly when n is at most 100000
  (`HitCounters.EveryNthIffWithinBound`).
- A local file older than one already on the target is never shipped to it. The comment at
  barn-agent/src/barn-agent.cpp:126-136 intends this. `LogShipping.StrandedOnlyByTheStart` shows
  that such files can only be there from the start.
- `query_candidates` is described as looking for files older than the latest on the target
  (barn-agent/src/barn-agent.cpp:102-107). The code looks for newer ones, and so does the model.

## Model

| member | source | states |
|---|---|---|
| LogShipping.StrandedOnlyByTheStart | barn-agent/src/barn-agent.cpp:55-206 | in any run, for either target, the stranded local files (missing there behind a newer file that is there) are exactly those stranded before and not yet deleted: none is added and none is ever shipped |
| LogShipping.NoStrandingForever | barn-agent/src/barn-agent.cpp:55-206 | once the local files on a target precede those not on it, they do in every later state, whatever happens on either target |
| LogShipping.NoStrandingIsNoneStranded | barn-agent/src/barn-agent.cpp:126-136 | the ordering of shipped before unshipped is the absence of stranded files |
| LogShipping.StepKeepsInv | barn-agent/src/barn-agent.cpp:55-206 | every step of agent or environment keeps the inductive invariant, keeps the stranded files but for deletions, and reuses no name |
| LogShipping.AgentStepKeepsInv | barn-agent/src/barn-agent.cpp:55-206 | every agent step keeps the invariant, the directory, and the stranded files of both targets |
| LogShipping.ShipStepKeepsInv | barn-agent/src/barn-agent.cpp:172-184 | a ship keeps the invariant whether or not the file landed and whatever rsync reports |
| LogShipping.RunKeepsInv | barn-agent/src/barn-agent.cpp:39-48 | every reachable state satisfies the invariant |
| LogShipping.EnvStepIsLater | README.md:66-79 | appending newer names and deleting the oldest leaves an upper part of the old directory, plus new names |
| LogShipping.LaterStrandsNothing | barn-agent/src/barn-agent.cpp:126-136 | interference strands no file and frees only what it deletes |
| LogShipping.ShippedFileStrandsNothing | barn-agent/src/barn-agent.cpp:168-185 | shipping the current candidate, the oldest missing one, strands nothing on either target |
| LogShipping.LandingKeepsBatch | barn-agent/src/barn-agent.cpp:172-184 | after a landing every local file up to the listing is on the target, still to be tried, or was stranded before |
| LogShipping.LosingKeepsBatch | barn-agent/src/barn-agent.cpp:175-177 | a failed candidate that is gone locally may be passed over |
| LogShipping.LandingKeepsUntried | barn-agent/src/barn-agent.cpp:168-185 | the candidates not yet tried stay off the target and ahead of everything on it |
| LogShipping.InterferenceKeepsBatch | barn-agent/src/barn-agent.cpp:168-185 | the loop invariant of the shipping loop survives any interference between its steps |
| LogShipping.TailOfKept | barn-agent/src/helpers.cpp:65-79 | the common tail of an ascending list and its kept part is the newest run of kept elements |
| LogShipping.CandidatesAreNewerThanTarget | barn-agent/src/barn-agent.cpp:126-137 | while the listed files exist, the candidates are exactly those newer than the newest listed file on the target |
| LogShipping.QueryFindsAllMissing | barn-agent/src/barn-agent.cpp:108-147 | in a reachable state without stranded files the candidates are all surviving listed files missing on the target, even if the oldest vanished after the listing |
| LogShipping.QueryMissesOnlyStranded | barn-agent/src/barn-agent.cpp:108-147 | in general the candidates miss only stranded files |
| LogShipping.CandidatesAreNotStranded | barn-agent/src/barn-agent.cpp:126-137 | no candidate is behind a file on the target |
| LogShipping.CandidatesAreMissing | barn-agent/src/rsync.cpp:92-118 | every candidate is listed, still local and not on the target |
| LogShipping.QueryKeepsInv | barn-agent/src/barn-agent.cpp:137-163 | the queried candidates start the shipping loop in its invariant, and sorting them again changes nothing |
| LogShipping.SortNamesSorts | barn-agent/src/barn-agent.cpp:163 | sorting yields an ascending permutation |
| LogShipping.NeverShipsTwice | barn-agent/test/barn-agent-test.cpp:150-156 | in every reachable state the file about to be shipped is not on the target |
| Rounds.StopFileHaltsShipping | barn-agent/src/files.cpp:66-85 | a round that finds the stop file when it lists the directory ships nothing to either target up to its end, which is a heartbeat for nothing to ship |
| LogShipping.ProcessedAreSentOrLost | barn-agent/src/barn-agent.cpp:165-185 | at any point the tried candidates are a prefix, each counted once as shipped (and on the target) or lost (and not local), and the two counts add up to its length |
| LogShipping.RotatedCoversLost | barn-agent/src/barn-agent.cpp:174-202 | in every round the rotated count is at least the lost count |
| LogShipping.CompletedLoopCatchesUp | barn-agent/src/barn-agent.cpp:168-185 | without stranded files on the target: when the loop ends without a retryable failure, every local file up to the listing is on the target |
| Rounds.QuietRoundShipsEverything | barn-agent/src/barn-agent.cpp:55-206 | from its pick on, a round to a target without stranded files, with an idle directory, no stop file at its listing and no failure, however long it takes, is due its heartbeat within |local| + 4 agent steps; then the whole directory is on the target and a round on it has no candidates |
| Rounds.QuietRoundStaysOnItsWay | barn-agent/src/barn-agent.cpp:108-206 | at every point of such a round the agent steps taken and those still possible are at most |local| + 4, the listing is the whole directory, and all candidates tried so far are sent |
| Rounds.QuietRoundCanMove | barn-agent/src/barn-agent.cpp:55-206 | until the heartbeat of such a round is due the agent has a next step, and while rsync works and no stop file is there that step keeps the round quiet |
| Rounds.HeartbeatsAreEarned | barn-agent/src/barn-agent.cpp:63-98 | every heartbeat ever made on the selector ends a round that had earned it: its count found files sent, which were on the target, or its query had no candidates; the state has only waited since |
| Rounds.FinishingIsEarned | barn-agent/src/barn-agent.cpp:63-98 | an agent about to heartbeat has been so ever since a state that earned it |
| Rounds.EveryEndIsOfARound | barn-agent/src/barn-agent.cpp:63-98 | a round ends with a heartbeat it has earned since it began, recorded at that moment; or with a dry run of a nonempty listing while rsync fails; or with a shipment of which nothing was sent; the failures add no call |
| Rounds.OneRoundBegun | barn-agent/src/barn-agent.cpp:39-48 | a run that is idle up to a pick, active after it and idle again has begun exactly one more round |
| LogShipping.SelectorIsItsCalls | barn-agent/src/channel_selector.h:76-103 | in every reachable state the calls on the selector are in time order and make up its state |
| Decisions.ListingIsTheDirectory | barn-agent/src/files.cpp:72-85 | in every run a listing is the whole directory of its moment, or nothing if the stop file was there |
| Decisions.CandidatesWereMissing | barn-agent/src/barn-agent.cpp:108-147 | in every run the candidates being shipped are exactly the listed files that a working dry run found missing along with all listed after them, in ascending order |
| Decisions.QueryFindsMissingTail | barn-agent/src/barn-agent.cpp:126-147 | one query finds exactly these files |
| Decisions.CheckedFileHasFailed | barn-agent/src/barn-agent.cpp:172-175 | a file is looked for only after rsync failed on it or it was not there to send |
| Decisions.LoopStopsAtFileStillThere | barn-agent/src/barn-agent.cpp:172-181 | the shipping loop stops early only at a file that was still there when it was looked for |
| Decisions.SentFileWasShipped | barn-agent/src/barn-agent.cpp:172-184 | a file counts as sent only if it was there and rsync worked on it |
| Decisions.LostFileWasGone | barn-agent/src/barn-agent.cpp:175-177 | a file counts as lost only if it was gone when it was looked for |
| Decisions.SingleChannelIsThePrimary | barn-agent/src/barn-agent.cpp:235-236 | without failover every round of every run is to the primary, no selector is called and the secondary never changes |
| Decisions.TargetIsTheSelectors | barn-agent/src/channel_selector.h:82-103 | with failover every round is, from its pick to its end, to the primary exactly while the selector is on the primary |
| Decisions.RoundStartsWithPick | barn-agent/src/barn-agent.cpp:59 | a round starts with one pick at its moment, if there is failover |
| Decisions.AgentFailsOverIffQuiet | barn-agent/src/channel_selector.h:82-92 | in any run a round goes to the secondary exactly when the patience has passed since the start and since every heartbeat on, or return to, the primary |
| Decisions.AgentReturnsIffWaited | barn-agent/src/channel_selector.h:94-101 | on the secondary, a round goes back to the primary exactly when the patience has passed since the switch |
| LogShipping.CallKeepsSelectorInv | barn-agent/src/channel_selector.h:76-103 | the recorded calls stay in time order and explain the selector |
| BarnAgent.Agent.constructor | barn-agent/src/barn-agent.cpp:226-248 | a single channel when seconds_before_failover is 0, else a failover selector that starts on the primary |
| BarnAgent.Agent.Interfere | README.md:66-79 | any number of environment steps: the agent is where it was, the world is later |
| BarnAgent.Agent.ListLogDirectory | barn-agent/src/files.cpp:72-85 | the whole directory of that moment, or nothing if the stop file is there |
| BarnAgent.Agent.LogFilesNotOnTarget | barn-agent/src/rsync.cpp:92-118 | nothing for an empty list; otherwise a failure exactly if rsync fails, else the listed files that are local and not on the target |
| BarnAgent.Agent.ShipFile | barn-agent/src/rsync.cpp:126-133 | succeeds exactly if the file is there and rsync works; then it is on the target and counted as sent, otherwise its existence is to be checked |
| BarnAgent.Agent.FileExists | barn-agent/src/files.cpp:37-39 | whether the file is local now |
| BarnAgent.Agent.PickChannel | barn-agent/src/channel_selector.h:82-103 | the target is the primary without failover, else the one the selector is then on; the selector is called once |
| BarnAgent.Agent.QueryCandidates | barn-agent/src/barn-agent.cpp:108-147 | a failure ends the round at its dry run; otherwise the returned common tail is what the state is ready to ship, or nothing, and a heartbeat is due |
| BarnAgent.Agent.ShipOne | barn-agent/src/barn-agent.cpp:172-184 | the file is sent and on the target; or still there and the loop is over; or gone and counted as lost |
| BarnAgent.Agent.ShipInOrder | barn-agent/src/barn-agent.cpp:165-185 | the loop ends at the count step with the numbers of sent and of lost candidates |
| BarnAgent.Agent.CountRotated | barn-agent/src/barn-agent.cpp:196-202 | the number of candidates missing from a new listing, at least the number lost |
| BarnAgent.Agent.ShipCandidates | barn-agent/src/barn-agent.cpp:155-206 | an error exactly when nothing was shipped of a nonempty list; otherwise the state is about to heartbeat with the shipped count |
| BarnAgent.Agent.EndShipment | barn-agent/src/barn-agent.cpp:204-205 | an error ends the round when nothing was sent; otherwise the number sent is returned and a heartbeat is due |
| BarnAgent.Agent.ShipNewLogs | barn-agent/src/barn-agent.cpp:55-81 | one channel is picked; success leaves the round due its heartbeat, failure ends it at its dry run or its count; the selector is called once |
| BarnAgent.Agent.FinishRound | barn-agent/src/barn-agent.cpp:63-98 | after the sleep the round ends with the heartbeat if one is due and is over otherwise; no other call is made |
| BarnAgent.Agent.DispatchNewLogs | barn-agent/src/barn-agent.cpp:55-99 | exactly one round is begun; it ends with a heartbeat exactly if it had no candidates or sent files, else with a failed dry run or a shipment of nothing; the calls on the selector are the pick and that heartbeat |
| BarnAgent.Agent.DispatchRounds | barn-agent/src/barn-agent.cpp:39-48 | n rounds are begun, whatever happens in between; the stranded files afterwards are those from before still local |
| SvlogdNames.NameOrderIsNumeric | README.md:76 | file names with different labels are ordered as the numbers, whatever suffixes follow the labels |
| SvlogdNames.SuffixesDoNotMatter | barn-agent/src/files.cpp:48 | two different strings of one length are ordered the same with any suffixes |
| SvlogdNames.ListLogDirectory | barn-agent/src/files.cpp:72-85 | the scan of the sorted entries returns its log files, or nothing if one entry is STOP_SHIPPING |
| SvlogdNames.SvlogdFilesAreMarked | barn-agent/src/rsync.h:25-27 | the log files of any list are its entries that begin with an at sign, as often as they occur |
| SvlogdNames.ListingIsTheScan | barn-agent/src/files.cpp:72-85 | the listing of the protocol is this scan, file for file |
| SvlogdNames.LogDirectoryAscends | barn-agent/src/files.cpp:23-34 | the files listed, as numbers, ascend; they are exactly the entries that begin with an at sign |
| SvlogdNames.LabelOrderIsNumeric | README.md:66-69 | string order of equal-width labels is numeric order, and equal values mean equal labels |
| Helpers.TailIntersection | barn-agent/src/helpers.cpp:65-79 | the two-iterator loop and the reversal return the common suffix of the two lists |
| Helpers.CommonSuffixIsCommon | barn-agent/src/helpers.cpp:56-64 | the result is a suffix of both lists |
| Helpers.CommonSuffixIsLongest | barn-agent/src/helpers.cpp:56-64 | no common suffix is longer |
| Helpers.CountMissing | barn-agent/src/helpers.cpp:34-54 | on sorted lists the count is the size of the multiset difference small minus big, duplicates included |
| Helpers.AbsentHeadIsMissing | barn-agent/src/helpers.cpp:43-45 | an element below the rest of big is missing once more |
| Helpers.EqualHeadsCancel | barn-agent/src/helpers.cpp:46-48 | equal heads cancel one for one |
| Helpers.UnwantedHeadIsIrrelevant | barn-agent/src/helpers.cpp:49-51 | an element of big below the rest of small does not matter |
| Helpers.AbsenteesAreMissing | barn-agent/src/barn-agent.cpp:199 | distinct elements of one list that are not in the other are all counted as missing |
| ChannelSelector.FailoverChannelSelector.constructor | barn-agent/src/channel_selector.h:52-59 | starts on the primary at the current time |
| ChannelSelector.FailoverChannelSelector.Heartbeat | barn-agent/src/channel_selector.h:76-80 | the new state is the heartbeat of the old one |
| ChannelSelector.FailoverChannelSelector.PickChannel | barn-agent/src/channel_selector.h:82-103 | the four branches flip the channel exactly when the patience is used up, and return the current channel |
| ChannelSelector.Run.SwitchesTakeTime | barn-agent/src/channel_selector.h:82-103 | in any run with non-decreasing times, switches times seconds_before_failover is at most the elapsed time, whatever heartbeats occur |
| ChannelSelector.Run.SwitchingTimeBoundedByLast | barn-agent/src/channel_selector.h:82-103 | the time paid for switches so far is covered up to the remembered time |
| ChannelSelector.Run.SwitchIsTimed | barn-agent/src/channel_selector.h:82-103 | only picks switch, only after the patience, and they remember their time |
| ChannelSelector.Run.SecondaryKeepsFlipTime | barn-agent/src/channel_selector.h:76-80 | on the secondary neither heartbeats nor picks move the remembered flip time |
| ChannelSelector.Run.SecondaryStayLasts | barn-agent/src/channel_selector.h:32-41 | every stay on the secondary lasts at least seconds_before_failover |
| ChannelSelector.Run.ReturnsToPrimaryIffWaited | barn-agent/src/channel_selector.h:94-101 | a pick on the secondary returns to the primary exactly when seconds_before_failover have passed since the flip |
| ChannelSelector.Run.LeavesPrimaryIffQuiet | barn-agent/src/channel_selector.h:82-92 | a pick leaves the primary exactly when seconds_before_failover have passed since the start and every refresh of the primary |
| ChannelSelector.Run.LastIsLatestRefresh | barn-agent/src/channel_selector.h:114-117 | the remembered time is at least every refresh, and on the primary it is the start or a refresh |
| MaxBipartiteMatch.MaxBipartiteMatchState.constructor | barn-agent/test/gmock-1.7.0/src/gmock-matchers.cc:200-204 | no flow at first |
| MaxBipartiteMatch.MaxBipartiteMatchState.TryAugment | barn-agent/test/gmock-1.7.0/src/gmock-matchers.cc:259-285 | true exactly when an augmenting path avoiding the seen nodes exists; then the vectors are the old ones augmented along such a path; otherwise they are unchanged and the search is exhausted |
| MaxBipartiteMatch.MaxBipartiteMatchState.Visit | barn-agent/test/gmock-1.7.0/src/gmock-matchers.cc:222-230 | one search per left node keeps mutual reference and a dead zone holding all neighbours of the failed nodes; the left node is unmatched before its search, and is the only one that the search can newly match |
| MaxBipartiteMatch.MaxBipartiteMatchState.Compute | barn-agent/test/gmock-1.7.0/src/gmock-matchers.cc:207-238 | the pairs, by increasing left node, are a matching of maximum size, certified by a vertex cover of the same size |
| MaxBipartiteMatch.FindMaxBipartiteMatching | barn-agent/test/gmock-1.7.0/src/gmock-matchers.cc:307-310 | a maximum matching with a vertex cover of the same size |
| Matchings.WeakDuality | barn-agent/test/gmock-1.7.0/src/gmock-matchers.cc:193-197 | no matching is larger than a vertex cover |
| Matchings.DeadZoneGivesCover | barn-agent/test/gmock-1.7.0/src/gmock-matchers.cc:207-230 | when every left node is matched or failed there is a vertex cover as large as the matching (König) |
| Matchings.FailedNodeStaysFailed | barn-agent/test/gmock-1.7.0/src/gmock-matchers.cc:213-221 | a left node whose search failed can never start an augmenting path again |
| Matchings.PathAvoidsDeadZone | barn-agent/test/gmock-1.7.0/src/gmock-matchers.cc:213-221 | no augmenting path enters the nodes explored in vain |
| Matchings.DeadZoneSurvivesAugmentation | barn-agent/test/gmock-1.7.0/src/gmock-matchers.cc:213-221 | the explored nodes keep their matched pairs and all their neighbours through every later augmentation |
| Matchings.SuccessKeepsSearchedBelow | barn-agent/test/gmock-1.7.0/src/gmock-matchers.cc:222-230 | a successful search keeps the outer loop invariant |
| Matchings.FailureKeepsSearchedBelow | barn-agent/test/gmock-1.7.0/src/gmock-matchers.cc:222-230 | a failed search adds what it saw to the dead zone |
| Matchings.AugmentationGrowsByOne | barn-agent/test/gmock-1.7.0/src/gmock-matchers.cc:254-258 | augmenting from an unmatched left node restores mutual reference, matches that node and no other, and unmatches none |
| Matchings.AugmentedKeepsFlow | barn-agent/test/gmock-1.7.0/src/gmock-matchers.cc:172-179 | mutual reference holds after each unwinding step but for the one entry that the caller overwrites |
| Matchings.AugmentedMovesOnlyPath | barn-agent/test/gmock-1.7.0/src/gmock-matchers.cc:254-258 | only the start, the path and its partners move; no other left node changes between matched and unmatched |
| Matchings.Relink | barn-agent/test/gmock-1.7.0/src/gmock-matchers.cc:277-282 | linking a free right node keeps mutual reference once the old partner is freed |
| Matchings.StepOntoPath | barn-agent/test/gmock-1.7.0/src/gmock-matchers.cc:260-282 | a free right node, or a path behind it, makes a path from the current left node |
| Matchings.DeadEndKeepsSearching | barn-agent/test/gmock-1.7.0/src/gmock-matchers.cc:260-284 | a dead end leaves the search state in its loop invariant |
| Matchings.ExhaustedIsUnreachable | barn-agent/test/gmock-1.7.0/src/gmock-matchers.cc:243-252 | after an exhausted search no augmenting path avoids the nodes seen before it |
| Matchings.ListedFlowIsMaximum | barn-agent/test/gmock-1.7.0/src/gmock-matchers.cc:231-237 | the flow listed at the end is a maximum matching |
| Matchings.ListNextFlow | barn-agent/test/gmock-1.7.0/src/gmock-matchers.cc:232-236 | the pair list grows with the matched left nodes |
| Matchings.HallViolatorBlocksPairing | barn-agent/test/gmock-1.7.0/src/gmock-matchers.cc:327-357 | matchers with fewer neighbours than members rule out every pairing |
| Matchings.SmallCoverGivesViolator | barn-agent/test/gmock-1.7.0/src/gmock-matchers.cc:335-344 | a cover smaller than the number of matchers yields such a set |
| Matchings.FullMatchingIsPairing | barn-agent/test/gmock-1.7.0/src/gmock-matchers.cc:330-333 | a matching as large as the right side gives every matcher its own element |
| Matchings.PairingIsFullMatching | barn-agent/test/gmock-1.7.0/src/gmock-matchers.cc:330-333 | a pairing is a matching as large as the right side |
| UnorderedElementsAre.FindPairing | barn-agent/test/gmock-1.7.0/src/gmock-matchers.cc:328-357 | true exactly when every matcher can have its own matching element; false with a Hall violator as evidence |
| UnorderedElementsAre.VerifyAllElementsAndMatchersAreMatched | barn-agent/test/gmock-1.7.0/src/gmock-matchers.cc:438-495 | true exactly when every matcher accepts an element and every element is accepted |
| UnorderedElementsAre.PairingIsolatesNone | barn-agent/test/gmock-1.7.0/include/gmock/gmock-matchers.h:3155-3157 | on square matrices the pre-check rejects nothing that has a pairing |
| UnorderedElementsAre.AnalyzeElements | barn-agent/test/gmock-1.7.0/include/gmock/gmock-matchers.h:3163-3187 | the flattened matrix holds exactly which matcher accepts which element |
| UnorderedElementsAre.PairingsArePermutations | barn-agent/test/gmock-1.7.0/include/gmock/gmock-matchers.h:3139-3157 | pairings of the matrix are the permutations that satisfy the matchers |
| UnorderedElementsAre.MatchAndExplain | barn-agent/test/gmock-1.7.0/include/gmock/gmock-matchers.h:3135-3158 | a container is accepted exactly when some permutation of its elements satisfies the matchers one by one |
| Expectations.Expectation.constructor | barn-agent/test/gmock-1.7.0/src/gmock-spec-builders.cc:68-82 | never called and not retired at first |
| Expectations.Expectation.RetireAllPreRequisites | barn-agent/test/gmock-1.7.0/src/gmock-spec-builders.cc:95-111 | retires all transitive prerequisites and nothing else, and keeps the retired set closed, so the early return is right |
| Expectations.Expectation.AllPrerequisitesAreSatisfied | barn-agent/test/gmock-1.7.0/src/gmock-spec-builders.cc:113-125 | true exactly when every transitive prerequisite is satisfied |
| Expectations.Expectation.FindUnsatisfiedPrerequisites | barn-agent/test/gmock-1.7.0/src/gmock-spec-builders.cc:127-146 | adds exactly the unsatisfied prerequisites reached through satisfied, never called ones alone; if calls came in order, every unsatisfied one is found or behind a found one |
| Expectations.LeadToExplains | barn-agent/test/gmock-1.7.0/src/gmock-spec-builders.cc:127-146 | what such routes lead to explains every unsatisfied prerequisite, if calls came in order |
| Expectations.PrerequisitesAreReached | barn-agent/test/gmock-1.7.0/src/gmock-spec-builders.cc:95-146 | the prerequisites are exactly what routes of immediate prerequisites reach |
| Expectations.Expectation.ShouldHandle | barn-agent/test/gmock-1.7.0/include/gmock/gmock-spec-builders.h:1095-1102 | active, all transitive prerequisites satisfied, and the arguments match |
| Expectations.Expectation.GetActionForArguments | barn-agent/test/gmock-1.7.0/include/gmock/gmock-spec-builders.h:1188-1218 | one more call; unless saturated, exactly the prerequisites are retired; the history invariant is kept |
| Expectations.PrerequisitesTransitive | barn-agent/test/gmock-1.7.0/src/gmock-spec-builders.cc:95-146 | prerequisites of a prerequisite are prerequisites, of smaller rank |
| Expectations.NotItsOwnPrerequisite | barn-agent/test/gmock-1.7.0/include/gmock/gmock-spec-builders.h:852-858 | no expectation is its own prerequisite |
| Expectations.HistoryIsInOrder | barn-agent/test/gmock-1.7.0/src/gmock-spec-builders.cc:133-138 | after any history, a satisfied expectation that was called has all its prerequisites satisfied |
| Expectations.CountsAreAcceptedCalls | barn-agent/test/gmock-1.7.0/include/gmock/gmock-spec-builders.h:1188-1202 | at every point of a history the call count of an expectation is the number of offers to it that were accepted when their turn came |
| Expectations.CalledIsSettled | barn-agent/test/gmock-1.7.0/src/gmock-spec-builders.cc:95-125 | in every history an expectation that allows calls and has been called has all its prerequisites satisfied and retired |
| Expectations.CallsComeInOrder | barn-agent/test/gmock-1.7.0/include/gmock/gmock-spec-builders.h:1095-1102 | accepted calls come in the order of the prerequisite graph: none to a prerequisite follows one to an expectation that allows calls |
| Expectations.HandleCall | barn-agent/test/gmock-1.7.0/include/gmock/gmock-spec-builders.h:1095-1218 | counts and retirement change as for a call if the expectation accepts the offer, and not at all otherwise |
| Expectations.HandleCalls | barn-agent/test/gmock-1.7.0/src/gmock-spec-builders.cc:95-146 | any sequence of offered calls leaves the counts and the retired set of its accepted calls; then the unsatisfied prerequisites found for an expectation are none exactly when all its prerequisites are satisfied |
| Configurations.LookupAfterSets | barn-agent/src/external/easylogging++.h:2494-2512 | calls of set on any list leave each level with the value last written to it or to Global, and what nobody writes as it was |
| Configurations.LastWriterWins | barn-agent/src/external/easylogging++.h:2494-2512 | after any history of set, each level has the value last written to it or to Global, and no entry is double |
| Configurations.SetMeans | barn-agent/src/external/easylogging++.h:2506-2512 | a call of set changes its own level, or all eight levels if it is the Global level, and nothing else |
| Configurations.UpsertMeans | barn-agent/src/external/easylogging++.h:2765-2771 | an entry is replaced or added and no other changes |
| Configurations.UpsertAllMeans | barn-agent/src/external/easylogging++.h:2792-2801 | a global pass writes exactly the levels visited |
| Configurations.ShiftVisitsLevels | barn-agent/src/external/easylogging++.h:550-558 | shifting the level number visits the seven specific levels in order and then stops |
| Configurations.GlobalWriteReachesAll | barn-agent/src/external/easylogging++.h:2506-2512 | the second global pass of set changes nothing |
| Configurations.Repository.UnsafeSet | barn-agent/src/external/easylogging++.h:2765-2775 | the new list is the old one after one call of set |
| Configurations.Repository.UnsafeSetGlobally | barn-agent/src/external/easylogging++.h:2792-2801 | the new list has every specific level written, after Global if included |
| Configurations.Repository.ForEachLevelUnsafeSet | barn-agent/src/external/easylogging++.h:550-558 | the shifting loop writes every specific level once |
| Configurations.Repository.Set | barn-agent/src/external/easylogging++.h:2506-2512 | the new list is the old one after one call of set, also with the doubled global pass |
| Configurations.Repository.SetGlobally | barn-agent/src/external/easylogging++.h:2779-2788 | the new list is the old one after one call of set for each level |
| Configurations.DefaultsWriteFactoryValues | barn-agent/src/external/easylogging++.h:2550-2571 | the default calls write the factory setting of every level and kind last |
| Configurations.Repository.SetToDefault | barn-agent/src/external/easylogging++.h:2550-2571 | whatever was set, every level has its own default format or else the default of its kind for all levels, and 0 as flush threshold |
| Configurations.Repository.UnsafeSetIfNotExist | barn-agent/src/external/easylogging++.h:2757-2762 | a call of set if the entry is missing, else nothing |
| Configurations.Repository.SetRemainingToDefault | barn-agent/src/external/easylogging++.h:2580-2599 | every level and kind has what filling in the thirteen defaults in order leaves it, as RemainingMeans says |
| Configurations.RemainingMeans | barn-agent/src/external/easylogging++.h:2580-2599 | for every level and kind: a default, where Global has no value, replaces what each level has; a format for one level is filled in only where Global has a format and the level has none |
| Configurations.LevelFormatsAreDead | barn-agent/src/external/easylogging++.h:2590-2598 | on every list that calls of set can make, the five formats for single levels change nothing |
| Configurations.DebugFormatIsNotInstalled | barn-agent/src/external/easylogging++.h:2590-2592 | on an empty list Debug gets the default format and not its own |
| Configurations.ValueSurvivesDefaultsIff | barn-agent/src/external/easylogging++.h:2573-2599 | for every kind a level keeps its own value exactly when Global has one too, or the value is the default, or there is no default |
| Configurations.DefaultsOverwriteExplicitValue | barn-agent/src/external/easylogging++.h:2573-2582 | an explicit value that setRemainingToDefault overwrites, against its documentation |
| TypedConfigurations.AgreesIffFirstMatchesGlobal | barn-agent/src/external/easylogging++.h:2943-2983 | the index answers every configured level with its own value exactly when the first entry of the kind has the parsed value of Global, if Global has one |
| TypedConfigurations.CompressedShape | barn-agent/src/external/easylogging++.h:2943-2963 | what the index stores of a list without duplicates: under Global its own or else the first value, never the level of the first entry, and only configured levels |
| TypedConfigurations.MatchingFirstAgrees | barn-agent/src/external/easylogging++.h:2910-2924 | under that condition each lookup is right |
| TypedConfigurations.FirstWrittenLeads | barn-agent/src/external/easylogging++.h:2764-2775 | the level first written for a kind leads the list for ever |
| TypedConfigurations.GlobalFirstAgrees | barn-agent/src/external/easylogging++.h:2943-2983 | histories that write Global first are indexed correctly |
| TypedConfigurations.IndexIsLastWriterWins | barn-agent/src/external/easylogging++.h:2909-2983 | from setToDefault on, after any calls of set, every lookup at all eight levels is the last write to the level or to Global |
| TypedConfigurations.IndexCanLoseAValue | barn-agent/src/external/easylogging++.h:2943-2963 | a history not starting with Global after which the index answers a level wrongly |
| TypedConfigurations.DefaultsStartWithGlobal | barn-agent/src/external/easylogging++.h:2550-2564 | setToDefault writes Global first for every kind |
| TypedConfigurations.TypedConfigurations.Build | barn-agent/src/external/easylogging++.h:2965-3003 | the four maps are the compressions of the four kinds of entries |
| TypedConfigurations.TrimOf | barn-agent/src/external/easylogging++.h:1212-1228 | trimming returns the bare word between any white space |
| TypedConfigurations.GetBoolIsSaysTrue | barn-agent/src/external/easylogging++.h:2967-2970 | a value is true exactly when it is TRUE, true or 1 with any white space around it |
| TypedConfigurations.DecimalOfNumeral | barn-agent/src/external/easylogging++.h:3018-3030 | the decimal numeral of a number, with any zeros in front, is read back as that number |
| TypedConfigurations.DigitsAreNumeral | barn-agent/src/external/easylogging++.h:3021-3022 | every nonempty string of digits is such a numeral |
| TypedConfigurations.GetULongOfSpelled | barn-agent/src/external/easylogging++.h:3018-3030 | a numeral with white space around it is read as its number, up to the greatest long |
| TypedConfigurations.GetULongReads | barn-agent/src/external/easylogging++.h:3018-3030 | and any value that spells no number is read as 0 |
| TypedConfigurations.IndexedValue | barn-agent/src/external/easylogging++.h:2909-2983 | any typed lookup is the parsed last write on top of the factory settings |
| TypedConfigurations.Configure | barn-agent/src/external/easylogging++.h:2818-2875 | defaults, any calls of set, then the index: each level is enabled, and on standard output, exactly if its last write or factory setting says true, and its two numbers are those spelled; without calls all levels are enabled, on standard output and without limits |
| HitCounters.HitCounter.ValidateHitCounts | barn-agent/src/external/easylogging++.h:3169-3174 | one more hit, which from 100000 on starts again just above the remainder of 100000, or at 1 without a threshold |
| HitCounters.RegisteredHitCounters.Get | barn-agent/src/external/easylogging++.h:2030-2036 | finds the counter of a location exactly when one is registered |
| HitCounters.RegisteredHitCounters.Obtain | barn-agent/src/external/easylogging++.h:3221-3224 | the registry keeps at most one counter per file and line |
| HitCounters.RegisteredHitCounters.ValidateEveryN | barn-agent/src/external/easylogging++.h:3219-3228 | the registry follows the count of every location over any interleaving of calls and reports whether this one triggers |
| HitCounters.EveryNthCallTriggers | barn-agent/src/external/easylogging++.h:3216-3228 | with one threshold n from 1 to 100000 at a location, exactly the calls numbered by multiples of n trigger, whatever happens elsewhere |
| HitCounters.EveryNthIffWithinBound | barn-agent/src/external/easylogging++.h:3169-3174 | a threshold triggers on exactly its multiples, over unbounded runs, exactly when it is at most 100000 |
| HitCounters.CountKeepsResidue | barn-agent/src/external/easylogging++.h:3168-3174 | the reset keeps the count modulo the threshold and within the bound |
| HitCounters.InterleavingIsInvisible | barn-agent/src/external/easylogging++.h:3219-3228 | calls at other locations do not change a count |
| WildCards.WildCardMatch | barn-agent/src/external/easylogging++.h:1185-1208 | terminates, and is true exactly when the string can be cut into one piece per pattern character |
| WildCards.StarTakesAny | barn-agent/src/external/easylogging++.h:1194-1199 | a star takes nothing, or one character and goes on |
| WildCards.SingleTakesOne | barn-agent/src/external/easylogging++.h:1188-1204 | a question mark or an ordinary character takes one character |
| MetricsMonitor.Aggregate | barn-agent/src/monitor/barn-agent-monitor.cpp:75-82 | the map holds exactly the reported keys, each with the sum of its values |
| MetricsMonitor.CircularBuffer.PushBack | barn-agent/src/monitor/barn-agent-monitor.cpp:68-70 | the buffer is the newest entries, up to its capacity |
| MetricsMonitor.Monitor.ReceiveReport | barn-agent/src/monitor/barn-agent-monitor.cpp:68-70 | the buffer stays the newest 1000 entries pushed since the last timer step |
| MetricsMonitor.Monitor.TimerAction | barn-agent/src/monitor/barn-agent-monitor.cpp:33-50 | one more publication, the aggregate of the buffer, which is left with the defaults |
| MetricsMonitor.Monitor.AddDefaultMetrics | barn-agent/src/monitor/barn-agent-monitor.cpp:28-31 | a cleared buffer gets the eight zero reports |
| MetricsMonitor.Conservation | barn-agent/src/monitor/barn-agent-monitor.cpp:33-82 | for every interleaving and key, published plus pending plus overwritten equals received |
| MetricsMonitor.ConservationWithoutOverflow | barn-agent/src/monitor/barn-agent-monitor.cpp:33-82 | when no interval overflows, published plus pending equals received |
| MetricsMonitor.PublicationsAreOfIntervals | barn-agent/src/monitor/barn-agent-monitor.cpp:33-50 | publication p is the aggregate of the newest 1000 reports of the interval that timer step p ends |
| MetricsMonitor.DefaultsArePublishedIff | barn-agent/src/metrics.h:16-26 | in any publication of any run whose interval did not overflow, a default metric is published exactly if it is reported or the publication is not the first |
| MetricsMonitor.LastDefaultIsItsOwn | barn-agent/src/metrics.h:16-26 | the position of the last default of each metric, metric by metric |
| MetricsMonitor.UnreportedIsPublishedAsZeroIff | barn-agent/src/monitor/barn-agent-monitor.cpp:28-47 | in any publication of any run, a metric that nobody reports is published exactly when the publication is not the first and at most 1000 reports were pushed, plus the position of its last default; and then as zero |
| MetricsMonitor.FirstPublicationIsEmpty | barn-agent/src/monitor/barn-agent-monitor.cpp:59-66 | a timer step before any report publishes nothing at all |
| MetricsMonitor.FloodDropsDefault | barn-agent/src/monitor/barn-agent-monitor.cpp:33-70 | after 1000 reports of one metric in an interval, no other metric is published |
| MetricsMonitor.RunMonitor | barn-agent/src/monitor/barn-agent-monitor.cpp:59-73 | any interleaving leaves the publications, the buffer and the ledger above |

## Left out

- rsync, inotifywait, processes, pipes, signals, sockets, Ganglia and the command line: foreign calls, of which the model keeps only how the world may change around them and what they return.
- The log lines and the metrics that the agent sends: only the counters behind them are modelled.
- The retries inside `do_rsync`: a ship or a dry run is one step that succeeds or fails.
- BarnAgent.Agent.ListLogDirectory: reads the directory of the model, which holds numbers; the scan of its entries is SvlogdNames.ListLogDirectory, and SvlogdNames.ListingIsTheScan says that the two agree.
- LogShipping.SortNamesSorts: `std::sort` is a function on values here, so sorting in place is not modelled.
- Helpers.TailIntersection: `std::reverse` is a function on values here.
- CircularBuffer: `boost::circular_buffer` is modelled by its contents; its memory layout is not part of this model.
- MetricsMonitor.Aggregate: does not model 32-bit overflow of a sum, which the original leaves undefined.
- TypedConfigurations.Configure: `getULong` saturates at LONG_MAX where the C standard leaves `atol` undefined.
- `toFile`, file names, log formats, `MillisecondsWidth` and `PerformanceTracking` in the typed index: they do not follow the per-level rule.
- The parser of configuration files, `hasConfiguration`, `setFromBase` and `Level::Unknown`: plumbing around `set`.
- `validateAfterN` and `validateNTimes`: they never reset a counter, so there is nothing hard in them.
- Locking, deep copies and `unregister` in easylogging++: memory management.
- Expectations.HandleCalls: cardinalities are those that the library makes, Between(min, max); with one that a user defines a satisfied expectation may have been called while its prerequisites are still free to become unsatisfied.
- `MatchMatrix::NextGraph` and `Randomize`, and all explanations written to listeners: used by tests, or presentation.
- UnorderedElementsAre.AnalyzeElements: the matrix is built from the flattened answers at once, not entry by entry through `SetEdge`.
