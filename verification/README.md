# Verified model of Hydra

Hydra is a multi-node encrypted proxy with a desktop GUI and an Android client. These Dafny
modules model the parts of it that decide something - parsers, state machines, tables and list
algorithms - and prove what holds of them for every input, every run or every interleaving.
To check the project, run `dafny verify dfyconfig.toml`.

## The modules

**The proxy data path.** `ProxyFront` is one accepted client connection: the first read, the
protocol choice and the two request parsers, working on a read-ahead buffer and a live stream.
`Socks5` is the same conversation as a function of the byte stream, with its grammar,
`SocksRefusals` every way it turns a client away; `HttpHead` is the search for the end of a request
head. `Relay` is the bidirectional relay as a transition system in which reads, partial writes,
failures, panics, the two drain windows and aborts are separate events, `RelayProgress` what it can
always still do and how each failure comes out. `OpenTarget` is the loop over candidate nodes with
fresh handshakes only, `PooledOpen` the loop as it runs, asking the pool of warm channels first, and
what that changes; `Unreachable` holds the counters of unreachable targets it consults,
`CallAccounts` and `CallRuns` what calls tell that table, one by one and in a row; `Scheduling` is
the node table and its ranking. `DataPath` joins front and relay.

**Logs.** `LogRing` is the bounded log of the Android client with its folding of repeats,
`LogPolling` what a polling reader sees of it and `LogCopies` the text it ends up with. `TokenScan`
holds the matchers of the log sanitizer and their grammars, `Sanitizer` the scan as a whole.

**The configuration.** `Claims` defines who owns which node address and what an update of a
subscription does; `ClaimRuns` adds imports, deletions, take-overs and runs of them; `Renaming` is
the change of an address; `GuiConfig` is the object that performs all this in place, `GuiApp` the
window around it, which keeps a status for every node. `GroupNames` picks default names.

**Nodes and channels.** `ChannelPool` is the pool of warm channels, `PoolOwnership` its books,
`PoolAnswers` those of the answers its checkouts give, `ElasticCap` its capacity rule,
`PoolAdmission` the two together over whole runs, in which a check-in reads its cap early and uses
it late. `Probing` is the recovery prober on top of the scheduler, `Throughput` the windows in which
it reads a node's traffic.

**Sessions.** `PeerVerification` is the two-party check of a punched-through connection, from the
choice of roles to the verdict. `StartChecks`, `StartSignals` and `Lifecycle` are the life of the
proxy thread as the GUI sees it, `Connections` and `Pruning` the registry of connections.

`Wrappers`, `Addresses` and `Decimals` hold what several of these share.

Objects the program changes in place are classes whose methods are proved against functions on
values; protocols and concurrent parts are transition systems whose runs are lists of events, one
event for each locked section or await point. Time is a natural number, peaks and scores are reals,
handshakes are an oracle, and a stream that stalls past its deadline is a stream that ends. Link
parsing, trimming, target masking, node scoring, address parsing and the estimate of packet loss are
parameters.

## Where the code and its comments differ

- The HTTP head limit reads as 65536 bytes, but it is compared before the next read of up to 4096
  bytes: a blank line ending later than 65537 and within that read is accepted or refused
  depending on how the bytes arrived (`HttpHead.CutIndependentIffSettled`).
- A retry on another node is meant to cost three failures of the target. That holds exactly when
  at most one request at a time is between its grant and its reset
  (`Unreachable.ThreeFailuresPerGrantIff`); with c of them the rate is c grants for c + 2 failures
  (`Unreachable.GrantsPerFailures`, `Unreachable.BurstIsTight`).
- A checkout that hands out nothing is documented as a miss. It is counted as one if and only if the
  node has no entry in the table (`ChannelPool.EmptyHandedIsMissExactly`); an entry that holds only
  expired channels makes it a hit (`ChannelPool.ExpiredOnlyIsReachable`). The peak is documented as
  a moving average and grows by one half with every miss, without bound (`ElasticCap.MissRaises`).
- A node recovered by the prober keeps the failures counted while it was last online, so one
  failure can degrade it (`Probing.RecoveryKeepsOldFailures`).
- The roles of two peers are documented as opposite for any form of connection. They are when
  both ends see the same two addresses. Under address translation they are if and only if one end
  is below the address it sees exactly when the other is above, direction deciding for an end that
  sees its own address (`PeerVerification.RolesAreOppositeExactly`); otherwise both wait forever or
  both fail, and verification cannot be reached (`PeerVerification.VerificationWorksExactly`).
- The number announced before a subscription is deleted looks at names and the deletion at
  positions. For the first subscription of a name they agree if and only if each of its claims
  that another one shares is shared by one of another name (`ClaimRuns.AnnouncedExactly`). Every
  operation keeps names unique, and then they agree (`ClaimRuns.OneOwnerForever`); a file edited
  by hand need not.
- A repeat folded into a log entry the reader already has is never delivered to it, so its copy is
  current if and only if none was (`LogPolling.FoldAfterPollIsNotRedelivered`,
  `LogCopies.CopyIsCurrentIff`).
- A comment has the pre-shared key protect the first handshake message
  (`hydra-protocol/src/handshake.rs:38-39`). In the pattern it names,
  NNpsk2 of the Noise Protocol Framework, the key is mixed in with the second, so here an end with
  any key reads the opening and the mismatch shows one message later; the outcome is the same
  (`PeerVerification.OutcomeIsAgreed`).

## Model

| member | source | states |
|---|---|---|
| Relay.RelayedBytesArePrefixes | hydra-core/src/proxy.rs:1860-1947 | in every interleaving of both pumps, timeouts, failures and aborts: delivered, in flight and unread make up the early data followed by the client's bytes (and the remote's bytes the other way), so each side always holds a prefix |
| Relay.CountsFollowDelivery | hydra-core/src/proxy.rs:1863-1914 | the registry counts lag and lead the delivered bytes by no more than the early data being written and one buffer |
| Relay.ExitLeavesNothingBehind | hydra-core/src/proxy.rs:1949-2045 | on every exit both pumps have stopped, the registry entry is closed, and the active-relay counter is what it would be without this relay |
| Relay.OkExactlyWhen | hydra-core/src/proxy.rs:1957-2027 | success is reported if and only if the download ended cleanly and the upload did too or its drain window expired; what each reported failure stands for |
| Relay.OkMeansWholeStreams | hydra-core/src/proxy.rs:1957-2020 | success with no expired window: both streams arrived whole and the registry counted every byte; an expired upload window still leaves the download whole |
| Relay.OneStoppedPumpIsEnoughToExit | hydra-core/src/proxy.rs:1949-2027 | once one pump has stopped the relay reaches its exit in at most four steps of its own |
| RelayProgress.BothStreamsCanFinish | hydra-core/src/proxy.rs:1860-2020 | from every reachable state in which no pump failed and no window expired, whichever side has already closed, reads, writes and ends of stream can bring the relay to success with both streams whole |
| RelayProgress.FirstMishapIsReported | hydra-core/src/proxy.rs:1878-2044 | a failure or panic of one pump while both run stops the other and is what the relay reports, told apart by link and direction |
| RelayProgress.DrainMishapIsReported | hydra-core/src/proxy.rs:1957-2013 | what a failure or panic of the pump that is waited for in a drain window is reported as |
| RelayProgress.ExpiryIsReported | hydra-core/src/proxy.rs:1975-2004 | an expired window ends the relay: with an error when the download is cut, with success when the upload is |
| Relay.RunKeepsInv | hydra-core/src/proxy.rs:1788-2045 | the invariant behind these results holds after every run |
| Relay.LaneStepKeepsInv | hydra-core/src/proxy.rs:1860-1947 | one step of a pump keeps the byte accounting of its lane |
| Socks5.EncodedOpeningParses | hydra-core/src/proxy.rs:1394-1640 | an encoded greeting and CONNECT followed by any payload parses to the same target and consumes nothing of the payload |
| Socks5.AcceptedStreamIsAnOpening | hydra-core/src/proxy.rs:1394-1640 | whatever is accepted is an encoded opening for the target reported |
| Socks5.ParseDecidesTheGrammar | hydra-core/src/proxy.rs:1394-1640 | acceptance, target and length are decided by the grammar of sections 3 to 6 of RFC 1928, in both directions |
| Socks5.RequestOfEncoding | hydra-core/src/proxy.rs:1467-1636 | an encoded CONNECT request parses to its target, to the byte |
| SocksRefusals.FlawIsTold | hydra-core/src/proxy.rs:1394-1636 | for each of fourteen flaws of a stream, read off its bytes: the rejection, the replies byte for byte, and what has been consumed |
| SocksRefusals.RefusedIffFlawed | hydra-core/src/proxy.rs:1394-1636 | a stream is turned away if and only if it has one of these flaws |
| SocksRefusals.OneFlaw | hydra-core/src/proxy.rs:1394-1636 | and never two |
| SocksRefusals.FlawedClientIsTold | hydra-core/src/proxy.rs:1378-1640 | what the client of such a stream has received, and what is left of it, when the conversation on its connection is over |
| ProxyFront.ClientConnection.ReadExact | hydra-core/src/proxy.rs:1351-1375 | the read-ahead is used up before the live stream, and nothing is lost: bytes read and bytes left rebuild the stream; a short stream fails |
| ProxyFront.ClientConnection.HandleSocks5 | hydra-core/src/proxy.rs:1378-1640 | the whole conversation in place: target or rejection, replies sent, bytes consumed and early data left over are functions of the byte stream, wherever the read-ahead was cut; what they are for a refused stream is in SocksRefusals |
| ProxyFront.ClientConnection.ReadGreeting | hydra-core/src/proxy.rs:1394-1463 | the greeting and method choice, with the reply for every way it can fail |
| ProxyFront.ClientConnection.ReadRequest | hydra-core/src/proxy.rs:1465-1507 | the request head; only CONNECT goes on |
| ProxyFront.ClientConnection.ReadAddress | hydra-core/src/proxy.rs:1512-1636 | the three address types and the rejection of any other |
| ProxyFront.ClientConnection.ReadHttpHead | hydra-core/src/proxy.rs:1038-1073 | the head loop on the same connection: every byte taken or still to come is accounted for; oversized heads get the 400 reply |
| ProxyFront.ClientConnection.HandleConnection | hydra-core/src/proxy.rs:811-860 | the first byte picks the protocol; for SOCKS5 and foreign protocols outcome, replies and leftover bytes do not depend on the size of the first read, for HTTP they are those of the head loop |
| HttpHead.FindHeaderEndIsFirst | hydra-core/src/proxy.rs:2136-2138 | the search finds the least position of a blank line, and one whenever there is any |
| HttpHead.VerdictIgnoresCuts | hydra-core/src/proxy.rs:1038-1076 | outside the grey zone the verdict is the same for every way the stream is cut into reads |
| HttpHead.GreyZoneDependsOnCuts | hydra-core/src/proxy.rs:1043-1048 | a blank line ending more than one byte past the 65536 limit but within one read of it is accepted or refused depending on the cut |
| HttpHead.CutIndependentIffSettled | hydra-core/src/proxy.rs:1038-1076 | cut independence holds exactly outside that grey zone |
| HttpHead.LoopKeepsBytes | hydra-core/src/proxy.rs:1038-1073 | the loop neither loses nor reorders a byte |
| DataPath.AcceptSocks | hydra-core/src/proxy.rs:1378-1640 | what the parser leaves over is what the relay will carry upstream |
| DataPath.TunnelIsTransparent | hydra-core/src/proxy.rs:811-2045 | from first byte to end of relay: the target is the one named, the remote always holds a prefix of the payload, and success with no expired window delivers payload and answer whole |
| DataPath.FirstBytesDecide | hydra-core/src/proxy.rs:843-859 | a SOCKS5 greeting is handled as SOCKS5, a line that begins with a capital as HTTP, and nothing else as either |
| DataPath.BadRequestReads | hydra-core/src/proxy.rs:855-860 | the reply to foreign protocols and oversized heads, as text |
| ProxyFront.ClientConnection.FirstRead | hydra-core/src/proxy.rs:825-842 | one read splits the stream and loses nothing |
| ProxyFront.ClientConnection.Serve | hydra-core/src/proxy.rs:843-859 | the first byte read picks the handler; outcome, replies and leftover bytes of each |
| ProxyFront.ClientConnection.ReadMethods | hydra-core/src/proxy.rs:1434-1463 | the method list, and the reply when none is acceptable |
| ProxyFront.ClientConnection.ReadFixed | hydra-core/src/proxy.rs:1513-1526 | a four or sixteen byte address and its port, or the failure reply |
| ProxyFront.ClientConnection.ReadDomain | hydra-core/src/proxy.rs:1538-1591 | a domain of 1 to 255 bytes and its port, or the failure reply |
| Unreachable.UnreachableTable.Record | hydra-core/src/proxy.rs:130-148 | one more failure: expiry, the bound with its two-stage eviction, and the new count |
| Unreachable.UnreachableTable.RecordAndShouldFailover | hydra-core/src/proxy.rs:165-174 | a retry is granted exactly when the count reaches three, and then the count starts over |
| Unreachable.TableStaysBounded | hydra-core/src/proxy.rs:134-140 | the table never exceeds 100000 entries in any run |
| Unreachable.SurvivesExactly | hydra-core/src/proxy.rs:130-141 | whose count survives a failure of another target: everyone's below 100000 entries, the young ones' when those are fewer than that, else nobody's |
| Unreachable.GrantsPerFailures | hydra-core/src/proxy.rs:127-174 | with at most c requests of one target between grant and reset, (c+2) times its grants never exceed c times its failures; for c = 1 that is three failures a grant |
| Unreachable.BurstIsTight | hydra-core/src/proxy.rs:157-174 | the bound is reached for every c, so two requests at once already break three-to-one |
| Unreachable.ThreeFailuresPerGrantIff | hydra-core/src/proxy.rs:127-174 | three failures for every grant in every run: exactly when at most one request is between its grant and its reset |
| Unreachable.GrantRestsOnThreeFailures | hydra-core/src/proxy.rs:127-174 | every grant a run counts rests on three failures of its target in a row, the last one its own, neighbours under 60 s apart, with no success or reset between |
| Unreachable.GrantIsAThird | hydra-core/src/proxy.rs:165-174 | a grant is counted where a failure of the target brings its count to three |
| Unreachable.EntryIsLastFailure | hydra-core/src/proxy.rs:130-148 | an entry is its target's last failure |
| PooledOpen.OpenThrough | hydra-core/src/proxy.rs:866-1020 | the candidate loop in place on the real pool, for every map order and every oracle of warm and fresh answers: result, table, marks, the pool left behind and the channels used are the specified ones |
| PooledOpen.TryCandidates | hydra-core/src/proxy.rs:894-1019 | the loop over at most three candidates against its specification |
| PooledOpen.TryNode | hydra-core/src/proxy.rs:895-1017 | one candidate: the channel its checkout hands out is asked first; if it fails, with whatever kind of error, it is gone and a fresh handshake decides |
| PooledOpen.TryFresh | hydra-core/src/proxy.rs:944-1017 | a fresh handshake: what each kind of outcome does to table, mark and loop |
| PooledOpen.StalePoolIsInvisible | hydra-core/src/proxy.rs:895-942 | whatever a pool holds, if its channels fail, even with an unreachable target or a protocol error, then result, marks and counters are those of a call with an empty pool |
| PooledOpen.StalePoolIsInvisibleForever | hydra-core/src/proxy.rs:895-942 | the same over any sequence of calls with check-ins, checkouts and sweeps between them: every answer, mark and count is as if there were no pool |
| PooledOpen.PooledCallIsBareCall | hydra-core/src/proxy.rs:894-1019 | with any pool, a call does what handshakes alone would do if each candidate whose oldest live channel answers had answered |
| PooledOpen.CallChecksOut | hydra-core/src/proxy.rs:896-901 | a call checks out once for every candidate it tries and for no other |
| PooledOpen.UsedAreOldest | hydra-core/src/proxy.rs:896-901 | the channels used up are, for each candidate, one warmed first among those under a minute old when the call began, or none if all are older |
| PooledOpen.OthersKeepTheirSlots | hydra-core/src/proxy.rs:894-1019 | the slot of a node that is no candidate stays as it was |
| PooledOpen.CandidatesLoseOne | hydra-core/src/proxy.rs:894-901 | a tried candidate loses its expired channels and its oldest live one, nothing else |
| CallAccounts.CallIsItsEvents | hydra-core/src/proxy.rs:866-1020 | the counts a call leaves are the table after what its outcomes stand for: a success where a node or a warm channel answers, a failure for each unreachable handshake, a reset after each retry; nothing for any other error |
| CallRuns.CallsPayForRetries | hydra-core/src/proxy.rs:127-174 | over any calls made one after another, with any pool and any traffic between: the table is the one their outcomes tell of, and three unreachable reports pay for each retry |
| CallRuns.ThirdCallMovesOn | hydra-core/src/proxy.rs:982-1000 | three calls within a minute for a target the best node cannot reach and the second can: two fail with its report, the third returns the second node and the count is gone |
| OpenTarget.JudgingFollows | hydra-core/src/proxy.rs:944-1017 | the judgement of a fresh handshake: what passes to the next candidate, what ends the call, and that a retry needs a count of three |
| OpenTarget.MarksAreTheFaultyNodes | hydra-core/src/proxy.rs:975-1016 | the marks are exactly the tried nodes that failed with neither an unreachable target nor a protocol error, in order |
| OpenTarget.MarksAreFewAndNeverTheWinner | hydra-core/src/proxy.rs:873-1016 | at most three marks, never the node returned |
| OpenTarget.WinnerIsLastTried | hydra-core/src/proxy.rs:894-1019 | the node returned is the last one tried and answered; a failed call reports an error of a candidate |
| OpenTarget.WinnerIsFirstPastPassable | hydra-core/src/proxy.rs:894-1019 | candidate k is returned if and only if it answers and every one before it can be passed over |
| OpenTarget.AtMostOneGrant | hydra-core/src/proxy.rs:982-998 | one call uses at most one cross-node retry |
| OpenTarget.NoGrantFromZero | hydra-core/src/proxy.rs:982-998 | a target with no count gets none |
| OpenTarget.OnlineNodesComeFirst | hydra-core/src/proxy.rs:885-894 | a node that was not Online is returned only after every Online node was tried and failed |
| OpenTarget.ThreeAreTried | hydra-core/src/proxy.rs:873-894 | with k faulty nodes before the first that answers, that one is returned if and only if k is at most two |
| Scheduling.RankingIsUnique | hydra-core/src/scheduler.rs:63-81 | the ranking is a function of the node table, whatever the map order |
| Scheduling.HeadIsOnlineIffAny | hydra-core/src/scheduler.rs:42-81 | its head is Online exactly when some node is |
| Scheduling.RankingMeans | hydra-core/src/scheduler.rs:63-81 | earlier means Online before all others, Offline after them, and among equals the higher score, then the lower address |
| Scheduling.MeasuresAreTaken | hydra-core/src/scheduler.rs:83-100 | a measured number in its range is taken over; any other leaves what was there |
| Scheduling.Scheduler.GetNodesByPriority | hydra-core/src/scheduler.rs:63-81 | the list is sorted by status, score descending and address ascending, and holds exactly the nodes |
| Scheduling.Scheduler.GetBestNode | hydra-core/src/scheduler.rs:42-59 | Some exactly when an Online node exists, and then the head of that list |
| Scheduling.Scheduler.UpdateNodeStatus | hydra-core/src/scheduler.rs:102-107 | one known node changes status and nothing else |
| Scheduling.Scheduler.UpdateNodeStats | hydra-core/src/scheduler.rs:83-100 | whatever is measured, NaN and infinities included, statistics in range stay in range, and no other node changes |
| Scheduling.Scheduler.AddNode | hydra-core/src/scheduler.rs:32-35 | the node is in the table under its address |
| Scheduling.Scheduler.MarkNodeOffline | hydra-core/src/scheduler.rs:109-111 | the node is Offline and nothing else changed |
| Unreachable.UnreachableTable.Clear | hydra-core/src/proxy.rs:151-156 | the target has no count |
| LogRing.Ring.Record | hydra-android/src/lib.rs:382-421 | a repeat is folded, anything else becomes a new entry |
| LogRing.Ring.Append | hydra-android/src/lib.rs:406-421 | the oldest entry makes room, the new one takes the next number |
| LogRing.Ring.FindNewest | hydra-android/src/lib.rs:389 | the newest entry of a number, if there is one |
| LogRing.Ring.Push | hydra-android/src/lib.rs:376-421 | after a push the ring shows the last 500 runs of the run-length encoded history; the fallback for a folded entry no longer present is never taken |
| LogRing.Ring.ResetLogs | hydra-android/src/lib.rs:425-436 | a reset empties the ring and keeps the numbering |
| LogRing.Ring.LogsSince | hydra-android/src/lib.rs:441-450 | exactly the entries numbered above the cursor |
| LogRing.Ring.FoldNewest | hydra-android/src/lib.rs:386-404 | a repeat rewrites the newest entry, which is always found, and keeps its number |
| LogPolling.RepeatsAreShown | hydra-android/src/lib.rs:376-421 | a line logged k times in a row is shown once under the next number, followed by a multiplication sign and k, with the time of its last repeat |
| LogPolling.RunsEncodeSession | hydra-android/src/lib.rs:334-421 | the runs shown are maximal and expand to the lines logged since the last reset |
| LogPolling.EncodingIsUnique | hydra-android/src/lib.rs:334-421 | any other maximal encoding of those lines is the same |
| LogPolling.RingIsContiguous | hydra-android/src/lib.rs:376-421 | the ring holds min(500, n) entries numbered without gap up to the next number |
| LogPolling.ReceivedNumbersIncrease | android/app/src/main/kotlin/dev/hydra/vpn/HydraVpnService.kt:500-516 | for every interleaving of logging, folding, resets and polls the numbers received strictly increase |
| LogPolling.SkippedNumberWasGone | hydra-android/src/lib.rs:441-450 | a number passed over had been evicted or cleared before the poll that passed it |
| LogPolling.NothingSkippedAtPace | hydra-android/src/lib.rs:438-450 | with no reset and at most 500 new entries between polls every new number is received |
| LogPolling.PollCatchesUp | android/app/src/main/kotlin/dev/hydra/vpn/HydraVpnService.kt:504-516 | each poll leaves the reader caught up, so the previous statement chains |
| LogPolling.FoldAfterPollIsNotRedelivered | hydra-android/src/lib.rs:387-404 | a repeat folded into an entry already read changes the ring and is not delivered again |
| LogCopies.CopyIsCurrentIff | hydra-android/src/lib.rs:382-450 | the copy a poll delivers stays what the log shows, with no reset since, if and only if no later action folds a repeat into that entry |
| LogCopies.ReceivedAreNumbered | android/app/src/main/kotlin/dev/hydra/vpn/HydraVpnService.kt:500-516 | the entries a reader ends up with carry the numbers it received, so what holds of those holds of the copies |
| LogCopies.FreshIsCopied | hydra-android/src/lib.rs:441-450 | a poll delivers of every new number the entry as it stands |
| TokenScan.ParseIpv4At | hydra-android/src/lib.rs:592-614 | the octet loop computes the specification |
| TokenScan.Ipv4Grammar | hydra-android/src/lib.rs:592-614 | a match ends at an index if and only if four octets of at most 255 with three dots stand there, the last one read as far as it goes |
| TokenScan.ValueReadsDecimal | hydra-android/src/lib.rs:592-610 | the digits of every number up to 255 are an octet of that value |
| TokenScan.ParseHostnameAt | hydra-android/src/lib.rs:617-649 | the label loop with its domain list against the specification |
| TokenScan.NameIsFound | hydra-android/src/lib.rs:617-640 | every well-formed name that stops is found to its end |
| TokenScan.FoundIsName | hydra-android/src/lib.rs:617-640 | whatever the label loop accepts is such a name |
| TokenScan.ConsumePort | hydra-android/src/lib.rs:652-661 | an optional port of at most five digits |
| TokenScan.MatchUrlAt | hydra-android/src/lib.rs:664-690 | scheme, authority of at most 255 characters, user information cut at the last @ |
| TokenScan.AfterLastIsTail | hydra-android/src/lib.rs:688 | what is masked is free of @ and is the end of the authority |
| TokenScan.MatchBracketedIpv6At | hydra-android/src/lib.rs:693-714 | a bracketed address with its port |
| TokenScan.BracketGrammar | hydra-android/src/lib.rs:693-714 | a match is an opening bracket, hex digits, colons and dots with at least one colon, the closing bracket, and the port behind it, in both directions |
| TokenScan.PortGrammar | hydra-android/src/lib.rs:652-661 | a port is a colon and the first of at most five digits in a row, or nothing |
| TokenScan.FindBracket | hydra-android/src/lib.rs:697-703 | the closing bracket, if only address characters stand before it |
| TokenScan.StretchIsLongest | hydra-android/src/lib.rs:595-684 | what every scanning loop returns: the longest stretch within its limit |
| Sanitizer.SanitizeLogMessage | hydra-android/src/lib.rs:722-765 | the scan terminates and computes the specification |
| Sanitizer.OutputRendersSegments | hydra-android/src/lib.rs:722-765 | the output is the segments written in order |
| Sanitizer.SegmentsAreJustified | hydra-android/src/lib.rs:725-763 | the segments tile the text; a character is copied only where no matcher fires, a stretch replaced only by the matcher that fired |
| Sanitizer.HiddenOrCopied | hydra-android/src/lib.rs:722-765 | a position is copied if and only if it is in no replaced token |
| Sanitizer.MatchedIsHidden | hydra-android/src/lib.rs:722-765 | where a matcher fires nothing is copied, and the token is replaced as one unless an earlier one runs over it |
| Sanitizer.QuadsAreHidden | hydra-android/src/lib.rs:738-749 | a dotted quad standing alone is replaced by the mask of quad and port, unless an earlier token runs over it; its first character is never written |
| Sanitizer.QuadHiddenExactly | hydra-android/src/lib.rs:738-760 | at a boundary no earlier token runs over, the quad is hidden if and only if it stands alone with its port or a known host name starts there; standing alone it becomes the mask of quad and port |
| Sanitizer.GluedIsKept | hydra-android/src/lib.rs:740-748 | a quad at the start whose port runs straight into more of a word is written as it stands, unless a name begins there |
| Sanitizer.GluedPortIsKept | hydra-android/src/lib.rs:740-748 | a text at whose start the scan meets a quad that neither stands alone nor begins a name, and writes it as it stands |
| Sanitizer.NamesAreHidden | hydra-android/src/lib.rs:750-760 | the same for names under a known top-level domain |
| Sanitizer.EveryTokenIsMasked | hydra-android/src/lib.rs:722-765 | no token is written as it stands: each is the mask of exactly the characters it covers, or a URL's scheme and the mask of the end of its authority |
| Sanitizer.TokensBeginExactly | hydra-android/src/lib.rs:722-765 | a character the scan reaches begins a token if and only if a URL, a bracketed address, a standing quad or a standing name under a known domain begins there |
| Sanitizer.UrlsAreHidden | hydra-android/src/lib.rs:664-690 | of a URL only scheme and masked host are written |
| Sanitizer.BracketsAreHidden | hydra-android/src/lib.rs:693-735 | a bracketed address is replaced as one with its port and its first character never written |
| Sanitizer.BracketHiddenExactly | hydra-android/src/lib.rs:727-735 | an opening bracket the scan reaches is hidden if and only if a bracketed address begins there |
| Sanitizer.PlainTextIsKept | hydra-android/src/lib.rs:761-764 | text where no matcher fires is unchanged |
| Sanitizer.NothingToFind | hydra-android/src/lib.rs:722-765 | no matcher fires in text without dots, slashes and opening brackets |
| TokenScan.ReadOctets | hydra-android/src/lib.rs:594-613 | the loop over the octets |
| TokenScan.MatchIpv4At | hydra-android/src/lib.rs:738-749 | a quad at a boundary, with its port, not glued to a longer word |
| TokenScan.MatchHostnameAt | hydra-android/src/lib.rs:750-760 | the same for a name |
| Sanitizer.FirstMatch | hydra-android/src/lib.rs:727-760 | the matchers are tried in this order |
| GuiConfig.Fetched | hydra-client-gui/src/groups.rs:58-65 | addresses of the links, first occurrences in order |
| GuiConfig.GuiConfig.DropNodes | hydra-client-gui/src/groups.rs:90-94 | nodes leave the list, and their names and certificates with them |
| GuiConfig.GuiConfig.AppendNew | hydra-client-gui/src/groups.rs:96-104 | appended in order: what is neither listed nor claimed by others |
| GuiConfig.GuiConfig.CollectClaims | hydra-client-gui/src/groups.rs:106-113 | claims are what is fetched and neither manual nor claimed by others; being listed by then adds no condition |
| GuiConfig.GuiConfig.FillGroup | hydra-client-gui/src/groups.rs:179-208 | group added, filled, and taken back when it claimed nothing |
| Claims.UpdateSets | hydra-client-gui/src/groups.rs:49-123 | new nodes are manual, plus listed ones others claim, plus fetched ones others do not; new claims are fetched minus manual minus others' |
| Claims.UpdateKeepsManual | hydra-client-gui/src/groups.rs:67-113 | an update neither takes nor makes a manual node |
| Claims.UpdateTouchesOneSubscription | hydra-client-gui/src/groups.rs:106-120 | other subscriptions keep their claims, names and sources |
| Claims.UpdateForgetsState | hydra-client-gui/src/groups.rs:83-123 | a node its only owner no longer fetches loses its place, name and certificate, and no other node does; the update is dated |
| Claims.UpdateKeepsOrder | hydra-client-gui/src/groups.rs:83-104 | the list keeps its order and new nodes follow in the order in which they were first fetched |
| Claims.UpdateIsIdempotent | hydra-client-gui/src/groups.rs:49-123 | the same list again changes the timestamp only and reports nothing |
| Claims.UpdateForgetsThePast | hydra-client-gui/src/groups.rs:49-123 | update to one list and then another gives the node set and subscriptions of the second alone |
| Claims.UpdateKeepsListedForOthers | hydra-client-gui/src/groups.rs:67-113 | what other subscriptions claim of the list, and what they claim, is the same before and after |
| GuiConfig.GuiConfig.ApplySubscriptionNodeUpdate | hydra-client-gui/src/groups.rs:49-123 | the merge in place, with reported additions and removals; an unknown name changes nothing |
| GuiConfig.GuiConfig.ImportShareLinksAsGroup | hydra-client-gui/src/groups.rs:150-233 | which refusal, in the order of the checks, and then the configuration is exactly the old one; otherwise the group filled, and the report with the credentials of the first links that carry any |
| GuiConfig.FirstCarried | hydra-client-gui/src/groups.rs:209-224 | what the first link that carries a credential carries; none exactly when no link does |
| GuiConfig.RefusalsInOrder | hydra-client-gui/src/groups.rs:155-208 | each refusal of an import, and that none before it applies |
| GuiConfig.ReportTells | hydra-client-gui/src/groups.rs:209-233 | what an import reports: claims, their number, unread lines, and the key and the certificate that links carry first |
| GuiConfig.EndpointTellsPort | hydra-client-gui/src/groups.rs:58-65 | an endpoint is the address, a colon and the port |
| ClaimRuns.ImportIsAllOrNothing | hydra-client-gui/src/groups.rs:186-208 | a group that claims nothing leaves no trace |
| ClaimRuns.ImportSucceedsIff | hydra-client-gui/src/groups.rs:194-208 | an import claims something exactly when a fetched address is neither listed nor claimed |
| ClaimRuns.FilledIs | hydra-client-gui/src/groups.rs:186-196 | importing only appends the claimable addresses |
| ClaimRuns.ImportThenDelete | hydra-client-gui/src/subscription_actions.rs:50-74 | deleting a fresh import restores node list and subscriptions in order, and the whole configuration exactly when the added addresses had no leftover name or certificate |
| ClaimRuns.DeleteKeepsManual | hydra-client-gui/src/subscription_actions.rs:50-74 | a deletion removes exactly the nodes only that subscription claims |
| GuiConfig.GuiConfig.DeleteSubscription | hydra-client-gui/src/subscription_actions.rs:50-74 | the deletion in place and what it removed; an index out of range changes nothing |
| GuiApp.GuiApp.DeleteSubscription | hydra-client-gui/src/subscription_actions.rs:50-74 | the statuses of the removed nodes go with them; a status for each listed node and no other stays so |
| GuiApp.GuiApp.ApplySubscriptionUpdate | hydra-client-gui/src/subscription_actions.rs:161-193 | the merge with the statuses kept in step: added nodes start unchecked, removed ones are forgotten |
| GuiApp.StatusesStay | hydra-client-gui/src/subscription_actions.rs:161-193 | nodes that stay keep their status; new ones start unconnected and unchecked |
| GuiApp.GuiApp.ImportPaste | hydra-client-gui/src/share_io.rs:211-262 | an import that fails changes nothing; one that succeeds gives its new nodes a status and stores the key and the certificate of the first links that carry one, keeping the old where none does |
| ClaimRuns.AnnouncedIsDropped | hydra-client-gui/src/groups.rs:352-366 | with unique names the number announced is the number removed |
| ClaimRuns.AnnouncedExactly | hydra-client-gui/src/groups.rs:352-366 | for the first subscription of a name the number announced is the number removed if and only if each of its claims that another subscription shares is shared by one of another name; otherwise it is larger |
| ClaimRuns.ManualForever | hydra-client-gui/src/groups.rs:49-233 | no run of additions, updates, imports and deletions changes the set of manual nodes |
| ClaimRuns.OneOwnerForever | hydra-client-gui/src/groups.rs:49-233 | from one owner per address and unique names, both hold after any run, and announcements are right |
| ClaimRuns.ReleasedStays | hydra-client-gui/src/config.rs:303-311 | a node taken over by hand becomes manual, nothing else changes hands, and it stays through any later run |
| GuiConfig.GuiConfig.SaveSubscriptionNodeAsManual | hydra-client-gui/src/config.rs:303-311 | the first claim on the address is given up; true exactly when there was one |
| GuiConfig.GuiConfig.RemoveNodeState | hydra-client-gui/src/config.rs:252-255 | name and certificate of one node are forgotten |
| GuiConfig.GuiConfig.RenameNode | hydra-client-gui/src/config.rs:224-247 | list, claims, name and certificate follow the address |
| Renaming.RenameRoundTrip | hydra-client-gui/src/config.rs:224-247 | to an address nobody uses and back restores everything |
| Renaming.RenameMovesOwnership | hydra-client-gui/src/config.rs:224-247 | every node keeps its owners, or stays manual |
| Renaming.RenameMovesEachClaim | hydra-client-gui/src/config.rs:224-247 | each subscription owns what it owned, under the new address, and keeps all else |
| Renaming.RenameMovesState | hydra-client-gui/src/config.rs:224-247 | name and certificate go with the address, unless the new one has its own |
| GroupNames.NextGroupName | hydra-client-gui/src/groups.rs:19-40 | the least free number is found within one more try than there are names |
| ChannelPool.Pool.Checkout | hydra-core/src/pool.rs:101-126 | the oldest live channel is handed out; dropping expired heads leaves what a full sweep would |
| ChannelPool.AnswerIsOldestYoung | hydra-core/src/pool.rs:108-119 | a checkout answers with a channel no other one under 60 s old was warmed before, and with none exactly when none is under 60 s old |
| ChannelPool.Pool.Checkin | hydra-core/src/pool.rs:129-140 | kept exactly when the slot is below the cap the demand calls for |
| ChannelPool.Pool.Admit | hydra-core/src/pool.rs:131-139 | the same with a cap read earlier |
| ChannelPool.Pool.EvictExpired | hydra-core/src/pool.rs:154-165 | each slot becomes its live part, no slot is empty, and the number returned is that of the expired channels |
| ChannelPool.DropExpiredHeads | hydra-core/src/pool.rs:109-114 | the head loop equals a full filter on a sorted slot |
| ChannelPool.CheckoutIsLocal | hydra-core/src/pool.rs:101-126 | a checkout changes only its own node's slot |
| ChannelPool.EmptyHandedIsMissExactly | hydra-core/src/pool.rs:101-126 | a checkout that hands out nothing is recorded as a miss if and only if the node has no entry at all; with an entry of expired channels only it is recorded as a hit |
| ChannelPool.ExpiredOnlyIsReachable | hydra-core/src/pool.rs:101-126 | one channel handed in and asked for 60 s later: nothing is handed out and no miss is recorded |
| PoolOwnership.Conservation | hydra-core/src/pool.rs:101-165 | per node and channel, over any run: handed in = delivered + expired + refused + idle |
| PoolOwnership.NeverDeliveredTwice | hydra-core/src/pool.rs:101-140 | a channel handed in once is delivered at most once over all nodes, and then is nowhere else |
| PoolOwnership.DeliveriesAreYoungAndOwn | hydra-core/src/pool.rs:101-126 | a delivered channel was handed in for the same node under 60 s before, and no live one there is older |
| PoolAnswers.CheckoutConserves | hydra-core/src/pool.rs:101-126 | of any pool: what a slot held is what expires, the answer of the checkout and what is left |
| PoolAnswers.DeliveriesAreAnswers | hydra-core/src/pool.rs:101-126 | the deliveries in the books of a node are the answers of its checkouts |
| PoolAnswers.NeverAnsweredTwice | hydra-core/src/pool.rs:101-140 | over any run of the pool and all nodes together, a channel is answered at most as often as it was handed in |
| PoolAnswers.AnswersAreYoungAndOwn | hydra-core/src/pool.rs:101-126 | every answer of a run was handed in for its own node under 60 s before, and none of those is older |
| PoolOwnership.SlotsStayGood | hydra-core/src/pool.rs:101-165 | slots hold at most eight channels in warming order |
| PoolOwnership.SweepAndCheckout | hydra-core/src/pool.rs:154-165 | a sweep never changes a later checkout; it changes a check-in exactly when expired channels filled the slot |
| ElasticCap.MissRaises | hydra-core/src/pool.rs:66-85 | a miss adds one half, never lowers a cap in 2..8, touches no other node |
| ElasticCap.HitLowers | hydra-core/src/pool.rs:66-96 | a hit never raises one |
| ElasticCap.BurstRaises | hydra-core/src/pool.rs:80-85 | k misses from rest give a peak of k/2; the cap is 8 exactly from fifteen on |
| ElasticCap.QuietForgets | hydra-core/src/pool.rs:88-96 | a peak of at most 2 + 0.1 * 2^m is forgotten for good after 14 m hits in a row, and the cap is 2 |
| ElasticCap.QuietTakesTime | hydra-core/src/pool.rs:88-96 | and not at once: each hit takes at most a twentieth of the excess there was at first |
| ElasticCap.CutOffIsNeeded | hydra-core/src/pool.rs:92-94 | without the cut-off the cap would never return to 2 |
| PoolAdmission.PoolIsItsAccounts | hydra-core/src/pool.rs:66-165 | after any run the table holds what each node's own account of hand-ins, checkouts and sweeps says, and the demand is what its misses and hits say |
| PoolAdmission.ServedAreHits | hydra-core/src/pool.rs:66-126 | over any stretch in which every checkout of a node finds its slot non-empty, whatever else happens between, its demand decays once for each of them |
| PoolAdmission.DemandIsForgotten | hydra-core/src/pool.rs:66-126 | a demand of at most 2 + 0.1 * 2^m is off the record after 14 m such checkouts |
| PoolAdmission.QuietDrainsTheSlot | hydra-core/src/pool.rs:66-140 | in any run whose caps were read at or before their check-in: after such a stretch, caps read from then on refuse a check-in exactly when two channels are idle, each further checkout brings the slot nearer to two, and after six of them it is there |
| PoolAdmission.QuietIsReachable | hydra-core/src/pool.rs:66-140 | such runs exist for every burst of misses that raises the cap |
| PoolAdmission.ReadCapsAreOrderly | hydra-core/src/pool.rs:129-140 | caps read at or before their check-in are in range, so on a clock the ownership results hold of such runs |
| PoolAdmission.DemandIsOwn | hydra-core/src/pool.rs:66-96 | whatever happens to a pool but checkouts of a node leaves the demand on record for it as it was |
| ChannelPool.TakeOldest | hydra-core/src/pool.rs:108-119 | the head after the expired ones, and the rest |
| ChannelPool.Pool.TakeWarm | hydra-core/src/pool.rs:103-122 | a slot leaves the table and returns only when not empty |
| Probing.ClosedForm | hydra-core/src/speedtest.rs:295-461 | without marks, status and counters depend on the trailing run of failures only: up to 2 Online, 3 to 5 Degraded, from 6 Offline |
| Probing.EveryRunIsSound | hydra-core/src/speedtest.rs:295-461 | with marks at any moment, stale probes included: the online counter stays below three and an Online node has no offline counter |
| Probing.StaleProbesDoNotRevive | hydra-core/src/speedtest.rs:256-287 | a probe begun while the node was Online never brings back a node marked since; one begun while it was not does, if it succeeds |
| Probing.RecoveryKeepsOldFailures | hydra-core/src/speedtest.rs:403-407 | recovery is as good as new exactly when the online counter was empty; otherwise fewer than three failures degrade |
| Probing.OneFailureDegrades | hydra-core/src/speedtest.rs:295-420 | such a counter is reachable |
| Probing.Prober.ApplyProbe | hydra-core/src/speedtest.rs:256-287 | one result, applied by the status seen at its start, changes one node's state and statistics as specified and no other's |
| Probing.Prober.ApplyOnlineProbe | hydra-core/src/speedtest.rs:295-388 | the online branch: counting, degrading, and the statistics an enabled speed test writes back |
| Probing.OnlyMeasurementsMove | hydra-core/src/speedtest.rs:127-135 | of the statistics shown when the probe began, only what was measured and is in range moves |
| Probing.MeasurementsAreShown | hydra-core/src/speedtest.rs:340-388 | what a probe measured and is in range is what the node shows next |
| Probing.RecoveryIsShown | hydra-core/src/speedtest.rs:403-425 | a recovered node is Online with its round-trip, and otherwise as shown |
| Probing.Prober.ApplyOfflineProbe | hydra-core/src/speedtest.rs:393-432 | the recovery branch, with the round-trip a recovered node gets |
| Throughput.ThroughputTracker.Sample | hydra-core/src/speedtest.rs:100-121 | one sample: the first is the baseline, a later one closes the window if it holds 1024 bytes and time has passed |
| Throughput.RateIsExact | hydra-core/src/speedtest.rs:112-119 | the rate is the bits of a window by its time |
| Throughput.NoTrafficIsLost | hydra-core/src/speedtest.rs:87-121 | over any samples of growing counters: windows and the traffic still waiting make up every byte since the first sample, the windows leave no gap in time, and what waits is too little or has just arrived |
| Probing.Prober.RecordFailure | hydra-core/src/speedtest.rs:435-461 | the third failure confirms Offline |
| PeerVerification.RolesAreOpposite | hydra-core/src/nat.rs:407-415 | ends that see the same two distinct addresses take opposite roles |
| PeerVerification.RolesAreOppositeExactly | hydra-core/src/nat.rs:407-415 | for any four addresses, roles are opposite if and only if one end is below the address it sees exactly when the other is above the one it sees; an end that sees its own address goes by its direction |
| PeerVerification.DirectionDecides | hydra-core/src/nat.rs:407-415 | without an address of its own and of the other, an end initiates if and only if it dials |
| PeerVerification.TranslationCanMakeRolesEqual | hydra-core/src/nat.rs:407-415 | both wait when both own addresses are above both seen ones, both begin when they are below |
| PeerVerification.OutcomeIsAgreed | hydra-core/src/nat.rs:430-481 | with opposite roles, when nothing can happen any more both accept if keys agree and nonces differ, and both give up otherwise, in every interleaving |
| PeerVerification.TwoResponders | hydra-core/src/nat.rs:430-481 | two ends that both wait never leave the first state |
| PeerVerification.TwoInitiators | hydra-core/src/nat.rs:430-481 | two ends that both begin never accept and both give up |
| PeerVerification.AcceptanceIsReachableExactly | hydra-core/src/nat.rs:430-481 | some run ends in acceptance if and only if roles are opposite, keys agree and nonces differ |
| PeerVerification.VerificationWorksExactly | hydra-core/src/nat.rs:407-481 | role selection and exchange together, for any four addresses: some run ends in acceptance if and only if keys agree, nonces differ and the ends lie on opposite sides of what they see |
| PeerVerification.AcceptedMeansCompatible | hydra-core/src/nat.rs:457-480 | at every moment, who accepted was right to, and nobody gives up then |
| PeerVerification.NoDeadlock | hydra-protocol/src/handshake.rs:212-330 | two ends that have not given up never wait for each other |
| PeerVerification.RunsAreShort | hydra-protocol/src/handshake.rs:212-330 | every run ends within eight steps for each end |
| StartSignals.ClassifySignals | hydra-client-gui/src/proxy_control.rs:95-129 | the loop computes the specification |
| StartSignals.FailureMeansNeverReady | hydra-client-gui/src/proxy_control.rs:116-119 | a batch fails exactly when the proxy's own error comes before any ready, and then contains no ready |
| StartSignals.BatchingDoesNotMatter | hydra-client-gui/src/proxy_control.rs:95-129 | classifying a concatenation is classifying the parts, the running flag carried over, when the first does not fail |
| StartSignals.FailureCutsTheRest | hydra-client-gui/src/proxy_control.rs:116-119 | after a failure nothing more is looked at |
| StartSignals.NothingIsLost | hydra-client-gui/src/proxy_control.rs:95-129 | otherwise every signal is in one of the lists |
| StartSignals.LastWordsAreSorted | hydra-client-gui/src/proxy_control.rs:95-129 | once the thread is gone, its TUN errors degrade, its other errors are its last words and its ready signals its addresses, each in order |
| StartSignals.LivingThreadsHaveNoLastWords | hydra-client-gui/src/proxy_control.rs:95-129 | while it lives every error degrades |
| Lifecycle.HydraApp.StartProxy | hydra-client-gui/src/proxy_control.rs:132-489 | the three guards and the checks of the settings, then a new thread with its channels; what is in the way otherwise, and then nothing changes |
| StartChecks.Check | hydra-client-gui/src/proxy_control.rs:153-264 | which check refuses, and that it is the first in their order that fails; otherwise what the thread is given: the valid nodes in order, with the trust resolved for exactly those |
| StartChecks.OneFailsFirst | hydra-client-gui/src/proxy_control.rs:153-264 | at most one check is the first to fail, so the refusal is a function of the settings |
| StartChecks.RefusalsInOrder | hydra-client-gui/src/proxy_control.rs:153-248 | the listening address comes before the key, that before a valid node, that before the trust, each told by what is missing |
| StartChecks.CollectNodes | hydra-client-gui/src/proxy_control.rs:184-200 | the entries of the node list that are addresses, in order, as they stand and parsed |
| StartChecks.InvalidNodesAreSkipped | hydra-client-gui/src/proxy_control.rs:184-205 | entries that are no addresses decide neither any check nor the start, wherever they stand in the list |
| Lifecycle.HydraApp.PollStartReceiver | hydra-client-gui/src/proxy_control.rs:519-620 | one poll: disconnect, ready, failure and degraded signals |
| Lifecycle.HydraApp.ConvergeDeadSession | hydra-client-gui/src/proxy_control.rs:497-517 | a dead session is wound up, its exit still awaited |
| Lifecycle.HydraApp.StopProxy | hydra-client-gui/src/proxy_control.rs:686-719 | stop without waiting |
| Lifecycle.HydraApp.ShutdownAndWaitForExit | hydra-client-gui/src/proxy_control.rs:730-771 | stop and wait for the exit, up to a deadline |
| Lifecycle.ShutdownIsStopThenClear | hydra-client-gui/src/proxy_control.rs:730-771 | leaving the program is a stop followed by one look at the exit channel |
| Lifecycle.HydraApp.ClearExited | hydra-client-gui/src/ui_shell.rs:65-75 | the exit is seen after a stop |
| Lifecycle.HydraApp.CheckDead | hydra-client-gui/src/ui_shell.rs:84-102 | the exit is seen while running |
| Lifecycle.LifecycleIsSafe | hydra-client-gui/src/proxy_control.rs:132-719 | in every interleaving of GUI and thread: one live thread at most, none started beside it, it is in session or told to stop, never running and starting, system proxy on only while running |
| Lifecycle.DeadThreadIsForgotten | hydra-client-gui/src/ui_shell.rs:61-102 | a thread that is gone cannot wedge the GUI: the next polls make a new start possible and the system proxy is off |
| Lifecycle.RunKeepsInv | hydra-client-gui/src/proxy_control.rs:132-719 | the invariant behind both |
| Lifecycle.HydraApp.ApplyReady | hydra-client-gui/src/proxy_control.rs:574-595 | the first ready starts the session; with TUN the system proxy is left alone |
| Lifecycle.FirstReadyStartsSession | hydra-client-gui/src/proxy_control.rs:574-595 | the first ready signal starts the session at its address, and the system proxy is on if and only if TUN is off |
| Lifecycle.TunFailureFallsBack | hydra-client-gui/src/proxy_control.rs:600-620 | a TUN error of a session that lives turns the system proxy on; one that comes with its end does not |
| Lifecycle.TunFailureWithReady | hydra-client-gui/src/proxy_control.rs:569-620 | and so does one in the same poll as the first ready signal, whichever comes first |
| Lifecycle.FailureEndsStart | hydra-client-gui/src/proxy_control.rs:596-600 | the proxy's own error before it was ready ends the start, the thread being told to stop |
| Connections.RetainRecent | hydra-core/src/connections.rs:214-219 | the retain pass |
| Connections.FindVictim | hydra-core/src/connections.rs:225 | the first finished entry, or the oldest |
| Connections.ConnEntry.Finish | hydra-core/src/connections.rs:93-100 | only the first call records the closing time |
| Connections.FirstClosingCounts | hydra-core/src/connections.rs:92-100 | however often it is finished |
| Connections.TouchesAddUp | hydra-core/src/connections.rs:57-100 | however byte counts and ends interleave, late bytes included: the counters are the sums of what was counted and the closing time is that of the first end |
| Connections.ConnEntry.AddBytes | hydra-core/src/connections.rs:72-75 | both counters grow by what is given, open or closed |
| Connections.ConnectionRegistry.Register | hydra-core/src/connections.rs:147-162 | id, fields, exactly the survivors of the longer list, at most the limit, and the new entry among them when the limit is at least one |
| Connections.ConnectionRegistry.UpdateBytes | hydra-core/src/connections.rs:166-176 | the first entry of the id counts the bytes and no other; an id no longer registered changes nothing |
| Connections.ConnectionRegistry.FinishById | hydra-core/src/connections.rs:179-189 | the first entry of the id is finished and no other touched |
| Connections.ConnectionRegistry.Snapshot | hydra-core/src/connections.rs:193-197 | the survivors, in order, with their data |
| Connections.Prune | hydra-core/src/connections.rs:210-228 | retain, then the eviction loop, against the exact specification |
| Pruning.PruningIsExact | hydra-core/src/connections.rs:218-227 | with enough finished entries there is a point in registration order before which all finished ones go and after which all stay, as many as necessary; otherwise all finished ones go and the newest active ones stay |
| Pruning.VictimStep | hydra-core/src/connections.rs:218-227 | taking the next victim does not change what survives |
| Pruning.FirstFinishedIsFirst | hydra-core/src/connections.rs:225 | the victim among finished entries has none before it |
| Pruning.SurvivorsKeepOrder | hydra-core/src/connections.rs:210-228 | nothing is reordered or invented |
| Pruning.NewestSurvives | hydra-core/src/connections.rs:157-161 | an active newest entry survives |
| Pruning.RetainedIsRecent | hydra-core/src/connections.rs:211-217 | exactly open entries and those closed under 60 s ago are retained |

## Left out

- Relay.ExitLeavesNothingBehind: covers every way the relay itself returns; being dropped from outside by its caller is not modelled.
- ProxyFront.ClientConnection.HandleSocks5: ends with the target's address and port; rendering it as text, with lossy decoding of domain bytes, and the routing after it are not modelled.
- ProxyFront.ClientConnection.ReadHttpHead: ends with the head; request line parsing, forwarding and CONNECT replies are not modelled.
- PooledOpen.OpenThrough: what a node or a warm channel answers is an oracle, and one call runs without other requests between its steps; such traffic is modelled between calls only, and refilling the pool after a success is not modelled.
- LogRing.Ring.Push: numbers and counts are unbounded; saturation at 2^64, a poisoned lock and truncation to 512 characters before the push are not modelled.
- TokenScan.MatchUrlAt: the mask is a parameter, so nothing is said about the masked text itself.
- Sanitizer.QuadsAreHidden: speaks of the first character; a token that began earlier, a URL cut at 255 characters or the port of a bracketed address, can end inside the quad.
- GuiConfig.GuiConfig.ImportShareLinksAsGroup: parsing, trimming and decoding of credentials are parameters; the notices shown when a stored credential is replaced are not modelled.
- ElasticCap.QuietForgets: peaks are reals; rounding of floating point is not modelled.
- Probing.Prober.ApplyProbe: the loss estimate is a parameter, being an exponential of the time since the last failure, and the throughput it is given is not tied to a tracker of its own.
- PeerVerification.OutcomeIsAgreed: messages are read whole; cryptography is reduced to which key a message needs, the opening none and every later handshake message the key it was made with; the overall time-out, cutting of bytes and message contents are not modelled.
- Lifecycle.LifecycleIsSafe: a thread sends one ready signal; setting the system proxy always succeeds; sampler, TUN token, thread handle and log lines are not modelled.
- Connections.ConnEntry.Finish: flag and time are written together; the moment between the two writes and ids taken before the lock are not modelled.
- Deleting a node by hand, which leaves claims without nodes, is not an operation of the runs in ClaimRuns; none of the results assumes that every claim is listed.
- Sockets, TLS, Noise, STUN, signalling through the node, UDP relay, TUN, routing rules, share-link and subscription formats, file and registry access, system proxy restoration and all drawing code.
- Traffic counters, speed history and label formatting: only easy members.
