# PowerMail: replicated delivery and its supporting cores

This project models the part of PowerMail that decides whether mail is safe,
and proves what the program is for: a message that is acknowledged with 250 is
stored on the wanted number of backends, in different redundancy groups, and
comes back out through POP3 as it went in.

## The delivery protocol

From the bottom up, each layer has a module of specification functions and
lemmas (`...Spec`) and a module with the class, in the form of the source,
whose methods are proved to compute these functions.

- `Disk`, `DeliverySpec`, `Delivery`: a backend's file store. Names in `tmp`
  and `cur` are links to inodes; writing, linking, moving and unlinking can
  fail at every point.
- `BackendSpec`, `Backend`: the mode machine of a backend session
  (ppsession.cc), on raw lines.
- `TalkerSpec`, `Talker`: the client of one backend (pptalker.cc), over a link
  that loses requests, replies or single lines, to a disk that other sessions
  change meanwhile.
- `Sharing`: over whole runs of deliveries and transactions, a message is one
  inode, freed at the last delete.
- `DeliveryWorks`, `BackendModes`: when these operations succeed, and the modes
  told from the lines of a session.
- `Neighbours`: any other sessions on the same disk, turn by turn, spare the
  files of a message.
- `Leftover`: what becomes of a refused message on a connection that goes on.
- `SelectSpec`, `Select`: choosing servers, one per group (serversel.cc).
- `MegaSpec`, `Mega`: fanning one message out (megatalker.cc), with the `ok`
  flags, the degraded flag and relay connections.
- `SmtpSpec`, `Smtp`: the SMTP transaction with its quota (smtpsession.cc).
- `Envelope`, `Verdicts`, `Relayed`: the transaction told from what the client
  sent and was answered: recipients, limits, relays.
- `Progress`: without failures a transaction is acknowledged, and the exact
  limits of the two promises that the code does not keep in full.
- `Abort`: nothing of an unfinished transaction shows up or is left behind.
- `ListingSpec`, `RetrieveSpec`, `Reading`: listing, deleting and retrieving.
- `LineRoundTrip`: the round trip with every line taken by the line reader.
- `Listed`: from the acknowledgement over every run to the listing.
- `ListedSizes`: the sizes on the merged list, in LIST and in STAT.
- `PopSpec`, `Pop`: the POP3 session (popsession.cc).
- `PopLogin`, `PopCommands`, `PopQuit`: who gets in, what each line is answered,
  and what QUIT deletes, told from the lines.

Failures are values that the operations receive: the result of every system
call of a backend (`Env`), of every exchange on a link (`Net`), of every
random choice. A theorem over all inputs is therefore a theorem over all
failures, and a theorem over a run allows different ones at every step.

## The supporting cores

- `LineReader`: the line reader over a compacting buffer (session.cc).
- `PoolSpec`, `PoolCalls`, `HandleSpec`, `Pool`: the pool of pool.hh under
  every interleaving, and its counted handles.
- `Md5Table`, `Md5Transform`, `Md5Spec`, `Md5Length`, `Md5Known`, `Md5`: the streaming hash of md5.cc
  against RFC 1321.
- `TextGrammar`, `TextMeaning`, `TextTables`, `TextParserSpec`, `TextParser`,
  `TextLexerSpec`, `TextLexer`, `TextBase`: the table parser and the scanner
  of the text userbase against its grammar.

`Text` holds what they share about strings.

## Where code and promise part

The code is modelled as it is. Where it does not do what its documentation or
its comments say, there is a concrete input and a condition that decides when
it does.

- Forwarded recipients count towards the redundancy target
  (megatalker.cc:187, megatalker.cc:235): `Progress.TargetKeptIffNoRelays`.
- A message that reaches its quota exactly is accepted without its tail
  (smtpsession.cc:198, smtpsession.cc:241):
  `SmtpSpec.CompleteIffLastLineStartedBelowTheQuota`,
  `Progress.AcknowledgedWithoutItsTail`.
- After a failed write a refused commit leaves the message pending
  (ppsession.cc:411-414): `Leftover.RefusedMessageReachesIff`,
  `BackendSpec.RefusedMessageTurnsUp`.
- byPrio is no order when both spread switches are on (serversel.cc:54-57):
  `SelectSpec.ByPrioIsAnOrderIff`.
- TOP does not see an empty line that ends in a bare LF (pptalker.cc:246):
  `RetrieveSpec.TopIsRightIff`.
- The comment at pool.hh:35-36 lets the last copy of a handle return the
  thing; in fact it is the newest copy: `HandleSpec.GivesBackIffNewestCopy`,
  `HandleSpec.LastCopyReturnsIff`, `HandleSpec.FirstCopyGivesBack`.
- A pool without spares can leave a waiter stuck if two threads use it:
  `PoolSpec.NeverStuckIffSpares`.
- Text outside the scanner's rules ends a userbase file without an error:
  `TextLexerSpec.StopsIff`, `TextLexerSpec.ReadToTheEndIff`,
  `TextLexerSpec.StrayTextIsDropped`, `TextLexerSpec.StraySigns`.
- The scanner's start condition and the global entry outlive a failed parse:
  `TextLexerSpec.ReadsFilesIffNothingIsLeftOver`.
- A line is taken as a C string (session.cc:296):
  `LineReader.CStringIsAllIffNulFree`.
- The comment at megatalker.hh:91 makes a limit of 0 lines stand for no limit;
  in the code that is -1, and 0 is TOP without body lines:
  `RetrieveSpec.NegativeLimitWritesAll`, `RetrieveSpec.ZeroLimitWritesAllIff`.

## Model

| member | source | states |
|---|---|---|
| `Text.ThreeWords` | ppsession.cc:223-226 | A line of three words, as a client writes it, is stripped and tokenised into exactly these words. |
| `Text.ItoaInjective` | megatalker.cc:267 | Different recipient numbers print differently, which makes the names of a message's files distinct. |
| `Text.SplitConcat` | session.cc:288-301 | Lines put end to end are found again by cutting the stream after each newline. |
| `DeliverySpec.MoveLeavesOnlyListed` | delivery.cc:310-334 | Wherever the moving stops, the list names every file of the message that is left in tmp or in cur, so unlinking the list removes them all. |
| `DeliverySpec.MoveDone` | delivery.cc:310-334 | When every rename works, each pending name stands in cur under the inode it had in tmp, whatever stood there before. |
| `DeliverySpec.CommitMovesAll` | delivery.cc:348-365 | A successful commit has moved every pending file, with its inode, and changes no data; none is left in tmp. |
| `DeliverySpec.FailedCommitLeavesNothing` | delivery.cc:348-365 | A commit that fails, on close or on any rename, leaves none of the message's files in tmp or cur. |
| `DeliverySpec.CommitFrame` | delivery.cc:310-365 | Files of other messages are neither moved nor removed, whatever the outcome of a commit. |
| `DeliverySpec.AddFileShares` | delivery.cc:126-147 | The first recipient opens a fresh inode; every later one is one more link to it, and nothing else is. |
| `DeliveryWorks.AddFileWorksIff` | delivery.cc:126-147 | addFile succeeds if and only if its system calls do and, for a later recipient, the first file is there and another. |
| `DeliveryWorks.GiveLineWorksIff` | delivery.cc:301-307 | A line is written if and only if the write works; a closed descriptor raises the exception. |
| `DeliveryWorks.CommitWorksIff` | delivery.cc:348-365 | A commit succeeds if and only if the descriptor is open, can be closed, and no rename fails. |
| `DeliveryWorks.CommitIsAnsweredIff` | ppsession.cc:408-428 | commit is answered +OK if and only if no write had failed, the close works and no rename fails. |
| `Sharing.EveryRunShares` | delivery.cc:126-215 | In every run of addFile and giveLine with distinct names and any failures, all pending names are links of the one inode that is written, as many as there are recipients, as many as there were successes. |
| `Sharing.EveryRunFreesAtTheLastDelete` | delivery.cc:239-365 | If such a run ends in a successful commit, the names of the inode are exactly the cur names of the recipients; deleting some leaves the message whole under the others, and the inode loses its last name if and only if the deletions cover every recipient. |
| `Sharing.EveryTransactionShares` | megatalker.cc:252-281 | From the connection on, over every run of acknowledged calls, while other sessions change the disk but link nothing to this inode: the numbered names that a backend acknowledged are one inode with as many links as recipients. |
| `Sharing.EveryTransactionFreesAtTheLastDelete` | pptalker.cc:315-336 | When dot and commit are acknowledged too, there is one link per recipient, and the inode is freed if and only if the file of every acknowledged recipient is deleted. |
| `Neighbours.NeighboursSpare` | ppsession.cc:209-307 | Any interleaving of any number of other sessions, with any failures, coming and ending, that neither announce nor delete names of this message: its files, their inode and bytes stay, no such file is added, and no other name is linked to the inode. |
| `Neighbours.SharesAmongNeighbours` | ppsession.cc:209-307 | A transaction whose requests find the disk as any turns of such other sessions leave it: what the backend acknowledged is one inode with as many links as recipients. |
| `Neighbours.FreedAmongNeighbours` | delivery.cc:239-365 | After dot and commit are acknowledged among them, there is one link per recipient, and the inode is freed if and only if the file of every acknowledged recipient is deleted. |
| `Disk.DeleteAllLinks` | delivery.cc:246 | A series of deletions takes exactly the deleted names off an inode and changes no data. |
| `Delivery.Delivery.AddFile` | delivery.cc:126-147 | The new pending list, descriptor and disk, for the first and for later recipients, with each failure. |
| `Delivery.Delivery.MakeRealMessage` | delivery.cc:184-198 | Opens or creates the tmp file; a failure leaves no descriptor. |
| `Delivery.Delivery.MakeLinkMessage` | delivery.cc:200-215 | Unlinks what is in the way and links to the first file, or fails. |
| `Delivery.Delivery.GiveLine` | delivery.cc:301-307 | Writes at the offset of the descriptor, fails, or raises the exception for a closed descriptor. |
| `Delivery.Delivery.MoveAll` | delivery.cc:310-334 | The in-place loop over the names computes the specified moving, logging each rename. |
| `Delivery.Delivery.UnlinkAll` | delivery.cc:337-344 | The loop removes exactly the names on the list. |
| `Delivery.Delivery.Commit` | delivery.cc:348-365 | Close, move or unlink, and the new list, as specified. |
| `Delivery.Delivery.Reset` | delivery.cc:55-65 | Descriptor closed, files unlinked, both lists empty. |
| `Delivery.Delivery.RollBack` | delivery.cc:367-372 | The effect of a rollback on list and disk. |
| `Delivery.Delivery.DelMessage` | delivery.cc:239-252 | Removes one name from cur; a missing file is no failure. |
| `BackendSpec.EveryRunIsSound` | ppsession.cc:209-307 | In every run of any lines with any failures: data modes have a recipient, a recipient has an open descriptor, nothing is pending before authentication, and the closed-descriptor exception is never raised. |
| `BackendSpec.NothingBeforeAuthentication` | ppsession.cc:238-244 | Until the password is accepted, no sequence of lines changes session or disk, nor does the end of the connection. |
| `BackendModes.AuthenticatedIff` | ppsession.cc:238-244 | In every session: it is authenticated if and only if one of its lines was the right password. |
| `BackendModes.RefusedBefore` | ppsession.cc:238-244 | Until then every line but quit is answered with an error, the right password with +OK. |
| `BackendModes.ModeIsTold` | ppsession.cc:209-307 | In every session the mode is what its lines and answers say. |
| `BackendModes.NukeStaysInItsMailbox` | ppsession.cc:269-271 | nuke removes files of its mailbox and nothing else. |
| `BackendModes.ListsUnlessUnreadable` | ppsession.cc:266-267 | ls is answered with a listing if and only if the directory can be read, and changes nothing. |
| `BackendModes.DiesOnlyLocally` | ppsession.cc:185-207 | control stop ends the server for a local, authenticated peer only. |
| `BackendSpec.OnlyCommitFillsCur` | ppsession.cc:408-428 | A step that makes a file appear in cur is a commit, answered +OK, with that file pending. |
| `BackendSpec.CurHoldsOnlyCommitted` | ppsession.cc:408-428 | Over any run up to any end of the session, a file in cur was there at the start or was put there by an acknowledged commit of the run. |
| `BackendSpec.CommitIsAtomic` | ppsession.cc:408-428 | +OK leaves every pending file in cur with its bytes; a failing close or rename leaves none in cur or tmp; a refusal after a failed write leaves none once the session ends. |
| `Leftover.RefusedMessageReachesIff` | ppsession.cc:408-436 | Over every run: after a refused commit, unless the file is announced again, it reaches its mailbox in the rest of the connection if and only if a write had failed and a later commit is acknowledged before any rollback, any failing commit and the end. |
| `BackendSpec.RefusedMessageTurnsUp` | ppsession.cc:408-415 | A concrete run: a message whose text fails to be written is refused; the next message on the connection, to another recipient, is acknowledged; and then there is a file in the mailbox of the first. |
| `Backend.PPListenSession.GiveLine` | ppsession.cc:209-307 | One line: new mode, failed flag, delivery and disk, the reply and whether to quit, for every mode and command. |
| `Backend.PPListenSession.RcptCommand` | ppsession.cc:364-377 | The effect of rcpt, accepted or refused. |
| `Backend.PPListenSession.PutLine` | ppsession.cc:387-406 | The terminator ends the data phase; other lines are written unless a write has failed. |
| `Backend.PPListenSession.CommitCommand` | ppsession.cc:408-428 | The effect of a commit, with the early return after a failed write. |
| `Backend.PPListenSession.RollBackCommand` | ppsession.cc:430-436 | The effect of a rollback. |
| `TalkerSpec.SettleMatches` | pptalker.cc:73-88 | What other sessions do to the disk between two requests does not invalidate what a client may conclude about its own message. |
| `TalkerSpec.AddRecipientMatches` | pptalker.cc:73-88 | An acknowledged rcpt: the backend's pending list is exactly what it acknowledged, all of it one inode. |
| `TalkerSpec.StartDataMatches` | pptalker.cc:147-161 | An acknowledged put: the backend is in its data phase with an empty text. |
| `TalkerSpec.AddLineMatches` | pptalker.cc:163-176 | The bytes behind the inode are the lines sent so far, unless a write has failed or the link is broken. |
| `TalkerSpec.MsgDoneStores` | pptalker.cc:315-336 | An acknowledged commit has put the complete text into the mailbox of every recipient this backend acknowledged, and the end of the connection leaves it there. |
| `Talker.PPTalker.AddRecipient` | pptalker.cc:73-88 | Request and reply over an unreliable link: the new state of both ends and success, in every case. |
| `Talker.PPTalker.StartData` | pptalker.cc:147-161 | The new state of both ends and success. |
| `Talker.PPTalker.MsgAddLine` | pptalker.cc:163-176 | A line is sent without a reply; the first one may start the data phase. |
| `Talker.PPTalker.MsgDone` | pptalker.cc:315-336 | Terminator and commit, each acknowledged, or failure. |
| `Talker.PPTalker.MsgRollback` | pptalker.cc:338-356 | Terminator and rollback; all failures are swallowed. |
| `SelectSpec.ByPrioIsAnOrderIff` | serversel.cc:40-59 | byPrio is a strict weak order if and only if spread-disk and spread-load are not both on. |
| `SelectSpec.BestIsPreferred` | serversel.cc:52-57 | A server comes first in its group under byPrio if and only if no usable server of the group has a smaller priority number, or an equal one with more free disk (spread-disk) or less load (spread-load). |
| `SelectSpec.SuccessiveCalls` | serversel.cc:61-101 | k successive calls return exactly min(k, groups with a server that is up and writable) servers, in pairwise different groups, each up, writable and preferred in its group by priority number, free disk and load, whatever the random choices. |
| `Select.ServerSelect.GetServer` | serversel.cc:61-101 | One call returns a server that is up, writable and preferred in an unused group by priority number, free disk and load, and marks it used; or it finds none, and then every such server is in a used group. |
| `Select.StableSort` | serversel.cc:98 | A permutation of the candidates in the order of byPrio. |
| `MegaSpec.PickedAtStop` | megatalker.cc:213-217 | The servers picked when the loop stops: as many as wanted or as there are usable groups, in different groups. |
| `MegaSpec.OpenStorageInv` | megatalker.cc:197-239 | Opening storage keeps the invariant: unless degraded, all connections are good and as many storage connections as the relays leave of the target lead to different groups. |
| `MegaSpec.AddRecipientInv` | megatalker.cc:252-281 | Announcing a recipient keeps the invariant; unless degraded, every backend now knows one more name. |
| `MegaSpec.StartDataInv` | megatalker.cc:283-304 | Starting the data keeps the invariant; unless degraded, every backend is fed from the start. |
| `MegaSpec.AddLineInv` | megatalker.cc:307-325 | A line keeps the invariant; unless degraded, every backend was sent exactly the lines so far. |
| `MegaSpec.MsgDoneRedundant` | megatalker.cc:369-399 | If the transaction is not degraded after the commits, every storage backend holds the text for every recipient, in as many groups as the target asks for beside the relays, and in one at least. |
| `MegaSpec.MsgDoneInv` | megatalker.cc:369-399 | A lost connection sets the degraded flag, nothing clears it, and if not a single commit worked it is set. |
| `Mega.MegaTalker.AddRemote` | megatalker.cc:177-194 | A relay is appended, or the exception raised. |
| `Mega.MegaTalker.PickServers` | megatalker.cc:213-217 | The loop over getServer picks what the specification of picks demands. |
| `Mega.MegaTalker.OpenStorage` | megatalker.cc:197-239 | Connections of the picked servers, the degraded flag against the target, and the exception when there is none. |
| `Mega.MegaTalker.AddRecipient` | megatalker.cc:252-281 | The loop over the connections: each state and flag, the number, degraded, and the exception. |
| `Mega.MegaTalker.StartData` | megatalker.cc:283-304 | The loop over the connections, degraded, and the exception. |
| `Mega.MegaTalker.MsgAddLine` | megatalker.cc:307-325 | The loop over the connections and degraded. |
| `Mega.MegaTalker.MsgDone` | megatalker.cc:369-399 | The loop over the connections, degraded, and the exception. |
| `Mega.MegaTalker.MsgRollback` | megatalker.cc:401-419 | The loop over the connections; flags do not change. |
| `SmtpSpec.AcknowledgedMeansStored` | smtpsession.cc:258-278 | In every run, with any failures and any forwards: a 250 to the final dot means that the text passed on is held, under one distinct name per recipient, by as many backends in pairwise different groups as the target asks for less the relays, and by one at least; they keep it when their connections end. |
| `SmtpSpec.AcknowledgedMeansRedundant` | smtpsession.cc:258-278 | Without forwards these are at least s_redundancy backends. |
| `SmtpSpec.CompleteIffLastLineStartedBelowTheQuota` | smtpsession.cc:194-236 | In every run the text passed on is the Received line and all lines of the client if and only if no quota applies or the last line started below the room left. |
| `SmtpSpec.AcknowledgedMessageIsComplete` | smtpsession.cc:238-278 | Under that condition, an acknowledged message without forwards is held complete by s_redundancy backends in different groups. |
| `SmtpSpec.KbUsageBounds` | smtpsession.cc:409-413 | The usage is at least four kilobytes a message, and otherwise off by less than one for each. |
| `SmtpSpec.LimitedIffAllAre` | smtpsession.cc:109-125 | A message has a size limit from quotas if and only if every recipient's mailbox has a quota. |
| `SmtpSpec.RoomOfTheRoomiest` | smtpsession.cc:109-125 | The limit is the room of the roomiest recipient. |
| `SmtpSpec.TruncatedButAccepted` | smtpsession.cc:198-199 | At the boundary a line is dropped although the size test passes. |
| `SmtpSpec.GivenAreData` | smtpsession.cc:194-236 | No line recorded in a data phase is a terminator. |
| `Envelope.RecipientsAreTheAccepted` | smtpsession.cc:419-496 | In every run the recipients are exactly the mailboxes whose RCPT was answered 250 in this transaction, in order: the address itself if the userbase knows it, else the wildcard; whether a transaction is open or in its text, its index and announced size are what the answers say. |
| `Envelope.EveryAcceptedRecipientHasIt` | smtpsession.cc:258-278 | In every run, when the message is acknowledged, every mailbox whose RCPT was answered 250 holds it under a name of its own, in as many groups as the target asks for beside the forwards that were answered 250, and on all backends when there were none. |
| `Envelope.EnvelopeAnswers` | smtpsession.cc:360-496 | In every run, the answer to MAIL, RCPT and RSET, from what was sent and answered before and what the userbase knows. |
| `Verdicts.UsageIs` | smtpsession.cc:409-413 | The usage is the sum, over the messages, of the whole kilobytes of each, and four at least. |
| `Verdicts.DataIsRefusedIff` | smtpsession.cc:109-165 | In every run, the first DATA of a transaction that no backend fails is answered 552 if and only if all accepted mailboxes have quotas and the room of the roomiest is none, or the announced size exceeds it or the maximum. |
| `Verdicts.DotIsRefusedIff` | smtpsession.cc:194-256 | In every run, after a 354, the dot is answered 552 if and only if the lines since then exceed the room or the maximum in whole kilobytes; an acknowledged message is the Received line and the lines that start below the room. |
| `Verdicts.GoAheadMeansWhole` | smtpsession.cc:127-131 | In every run, DATA is answered 354 only when there is a connection and every one took all recipients and started its data. |
| `Verdicts.DotIsAnsweredBy` | smtpsession.cc:258-282 | In every run, a dot that is not refused is answered 250 if and only if every connection takes the end of the message and none was lost before; 450 with the transaction left open if and only if none takes it; and 450 with a rollback otherwise. |
| `Verdicts.RefusedIsRolledBack` | smtpsession.cc:241-256 | In every run, a message refused at the dot while no connection was lost is rolled back on every backend that the rollback reaches. |
| `Verdicts.TooFewAreNotAsked` | smtpsession.cc:104-107 | In every run, the first DATA that finds fewer backends than the target is answered 450, and none of them is asked for anything. |
| `Relayed.RelaysTakeEverything` | megatalker.cc:307-325 | In every run, when the message is acknowledged, every relay connection took the Received line, every line that starts below the room, and the dot. |
| `Smtp.SmtpSession.EatFrom` | smtpsession.cc:360-392 | Sender given once; the quota state starts over. |
| `Smtp.SmtpSession.EatTo` | smtpsession.cc:419-496 | Direct hit before wildcard, mailbox or forward, and every error reply. |
| `Smtp.SmtpSession.ChargeQuota` | smtpsession.cc:109-125 | Unlimited mailboxes lift the quota, others raise the room; a failed listing stops. |
| `Smtp.SmtpSession.EatData` | smtpsession.cc:82-171 | The whole DATA command: storage, announcements, quota tests, Received line, replies. |
| `Smtp.SmtpSession.EatDataLine` | smtpsession.cc:194-284 | A data line, or the verdict at the dot with commit, rollback and reset. |
| `Smtp.SmtpSession.GiveLine` | smtpsession.cc:569-599 | One line in either phase: new state and reply. |
| `Smtp.SmtpSession.RsetSession` | smtpsession.cc:54-67 | What a reset clears. |
| `Progress.ClearRunIsAcknowledged` | smtpsession.cc:82-284 | When no call fails and enough backends are up, DATA is answered 354 or, over quota, 552, and the dot 250 unless the message is too large; all picked backends hold it. |
| `Progress.TargetKeptIffNoRelays` | megatalker.cc:235 | Every acknowledgement of a transaction with this many forwards keeps the redundancy target if and only if there are no forwards or the target is at most one. |
| `Progress.RelaysMakeUpTheNumber` | megatalker.cc:187 | For any number of forwards, a concrete run is acknowledged with only the remaining copies. |
| `Progress.AcknowledgedWithoutItsTail` | smtpsession.cc:241-242 | A concrete run: a message that reaches the quota exactly is acknowledged without its last line. |
| `TalkerProgress.DoneWorks` | pptalker.cc:315-336 | Without failures a commit succeeds, for any number of recipients. |
| `Abort.BrokenOffLeavesNothing` | smtpsession.cc:41-45 | In every run, a transaction broken off in its data phase leaves no file of the message on any backend, whatever failed before. |
| `Abort.RefusedLeavesNothing` | smtpsession.cc:241-256 | In every run, a message refused for its size at the dot is on no backend afterwards, whatever fails in the rollback. |
| `Abort.ResetLeavesNothing` | smtpsession.cc:47-67 | In every run, RSET between commands leaves no file of the transaction on any backend, unless a dot of the transaction was answered 450 before. |
| `Abort.StepClean` | ppsession.cc:209-307 | No line but a commit puts anything of a pending message into a mailbox. |
| `Abort.CommittedIsNotRolledBack` | smtpsession.cc:260-265 | The rollback after a 450 does not take back a copy that was already committed. |
| `ListingSpec.MergeListsOnce` | megatalker.cc:349-365 | The merged listing is ordered without repetition and shows an index if and only if some backend lists it. |
| `ListedSizes.MergedSizes` | megatalker.cc:349-365 | Every entry of the merged list carries the size of the last entry, in the order of the backends and of their replies, that names its index. |
| `ListedSizes.GotSizes` | megatalker.cc:328-367 | Every message that getMsgs returns has the length of its text on the last backend that is up and has it. |
| `ListedSizes.LsIsTruthfulInSize` | delivery.cc:255-299 | The reply to ls makes a listing with the files in cur and the length of the text of each. |
| `ListedSizes.ListIsWhatWasGot` | popsession.cc:471-494 | In every session the message list, once it is there, is what one of its attempts at getMsgs returned, name by name and size by size. |
| `ListedSizes.StatOfListing` | popsession.cc:284-297 | While nothing is marked, STAT is the number of messages got and the sum of their sizes, and LIST and UIDL show each under its number, in order. |
| `ListingSpec.GetMsgsMergesIff` | megatalker.cc:328-367 | getMsgs returns the merge of the listings of all backends that are up if and only if none of these listings fails; otherwise it raises its exception. |
| `ListingSpec.EveryGroupIsCovered` | docs/powermail.sgml:1986-1991 | As many different groups as are configured are all of them. |
| `Listed.AcknowledgedIsListedOnce` | megatalker.cc:328-367 | For every run that ends in a 250 without forwards, with one copy per configured group: after any changes on the backends that spare the file, what getMsgs returns shows the message exactly once whenever all backends of some group are up and no listing fails, however many backends are down elsewhere. |
| `ListingSpec.LsIsTruthful` | delivery.cc:255-299 | The reply to ls makes a listing that shows exactly the files in cur, with their sizes. |
| `ListingSpec.ListedMeansFetchable` | megatalker.cc:514-529 | An index is on the merged list if and only if some backend can be asked for it, and every candidate listed it. |
| `ListingSpec.DeletedUnlessLogged` | megatalker.cc:494-512 | After a delete the file is gone from every backend that is not in the failure log, and nothing else has changed anywhere. |
| `ListingSpec.LoggedIff` | megatalker.cc:494-512 | The failure log names exactly the backends that are down, that the request or its answer did not pass, or whose unlink failed. |
| `ListingSpec.DeletedIsNotListed` | megatalker.cc:494-512 | After a delete without a log entry, no later result of getMsgs shows the message. |
| `Reading.MailReader.GetMsgs` | megatalker.cc:328-367 | The listings collected up to the first failure, and their merge, with for each index the size that the last listing gives it, or the exception. |
| `Reading.MailReader.BlastMessage` | megatalker.cc:514-541 | Some candidate is asked and its message written, or the exceptions. |
| `Reading.MailReader.Blast` | pptalker.cc:233-261 | The loop writes what the specification of RETR and TOP says. |
| `Reading.MailReader.DelMsg` | megatalker.cc:494-512 | The broadcast: new disks and log entries. |
| `RetrieveSpec.RetrIsExact` | pptalker.cc:242-261 | RETR of a stored text writes the status, all its lines unchanged in their order, and the terminator. |
| `RetrieveSpec.RoundTrip` | smtpsession.cc:194-236 | From the SMTP client to the reader, over every run: what is fetched from any of the redundant backends, for any recipient, at any later time at which the file is as the storing session left it, and what RETR writes, is the Received line and exactly the client's lines. |
| `LineRoundTrip.RoundTripByGetLine` | session.cc:272-301 | The same with the line reader at both ends: if the session got its lines from getLine, repeated calls of getLine on what the backend sends return these lines one by one, none of them too long. |
| `LineRoundTrip.GettableIff` | session.cc:272-301 | getLine can return exactly the lines that end in their only newline, hold no NUL and fit into the buffer. |
| `RetrieveSpec.NegativeLimitWritesAll` | pptalker.cc:258 | With a negative limit, whatever a backend sends is written up to its terminator. |
| `RetrieveSpec.ZeroLimitWritesAllIff` | megatalker.hh:91 | A limit of 0 writes the whole message if and only if its headers go on to its end. |
| `RetrieveSpec.TopIsRightIff` | pptalker.cc:245-259 | TOP writes headers, empty line and that many body lines, for every limit, if and only if the header test and an empty line first hold at the same place. |
| `RetrieveSpec.TopIsRightForCrLf` | pptalker.cc:246 | That is so for all messages whose lines end in CR LF. |
| `RetrieveSpec.TopFailsForBareLf` | pptalker.cc:246 | With bare LF line ends the empty line is missed and TOP 0 writes the body. |
| `LineReader.Session.GetLine` | session.cc:275-326 | However the stream is cut into reads, a call gives the next line of the stream, "too long" exactly when the next 15049 bytes hold no newline, "closed" at the end, or a read error that loses nothing; every read asks for at least one byte. |
| `LineReader.Session.HaveLine` | session.cc:268-272 | True if and only if the buffer holds a newline, and then a call of getLine gives a line. |
| `LineReader.Session.Compact` | session.cc:287-289 | Moving the bytes to the left loses none. |
| `LineReader.Strnchr` | session.cc:232-239 | The first position of the character, or none. |
| `LineReader.Session.Serve` | pplistener.cc:54-62 | All calls up to an exception give the lines of the stream. |
| `LineReader.AllIsSplit` | session.cc:275-326 | For a stream without NUL the lines are the stream cut after each newline, and "too long" ends them if and only if some line or rest does not fit. |
| `LineReader.CStringIsAllIffNulFree` | session.cc:296 | A line taken as a C string is whole if and only if it holds no NUL. |
| `PoolSpec.EveryInterleavingIsSafe` | pool.hh:114-181 | Under every interleaving: queue length = semaphore + threads past sem_wait + pushes not posted; front() is never taken on an empty queue; everything created is queued or held, and nothing is handed out twice. |
| `PoolSpec.NeverMoreThanMax` | pool.hh:128-140 | The number created stays within the maximum when stocking does. |
| `PoolSpec.NeverStuckIffSpares` | pool.hh:128-181 | Whenever a thread is blocked with nothing pending, some thing is held or claimed: for every number of threads, in all runs, if and only if d_maxspare is at least one or there is at most one thread. |
| `PoolSpec.AllReturnedMeansReady` | pool.hh:169-181 | With a spare allowed, once all things are returned the semaphore lets a waiter through. |
| `PoolSpec.StepsOfGet` | pool.hh:128-156 | The steps of one undisturbed thread come to the sequential get. |
| `PoolSpec.StepsOfGive` | pool.hh:169-181 | The steps of one undisturbed thread come to the sequential giveBack. |
| `PoolCalls.GetWaitsIff` | pool.hh:128-156 | get waits if and only if the queue is empty and the maximum is reached; it hands out the front of the queue, or else one new thing. |
| `PoolCalls.GrowsToTheMaximum` | pool.hh:133-138 | From an empty queue exactly as many gets in a row are served as the maximum leaves, and all without one. |
| `PoolCalls.GiveKeepsIff` | pool.hh:169-181 | giveBack queues the thing, last, if and only if there is room for a spare; otherwise the thing gives up its place. |
| `PoolCalls.StockAdds` | pool.hh:114-125 | stock puts so many new things before those in the queue. |
| `PoolCalls.WaitsOnlyWithReason` | pool.hh:131-140 | In every interleaving, a thread that goes on to the semaphore without pushing found the queue not empty or the maximum reached; otherwise it creates the one thing in the queue. |
| `PoolCalls.KeptOnlyAsSpare` | pool.hh:171-180 | In every interleaving, a thing given back is queued last if and only if there is room for a spare, and is otherwise gone. |
| `PoolCalls.TakesTheFront` | pool.hh:146-152 | In every interleaving, a thread past the semaphore takes the front of the queue, which is then in its hands and in nobody else's. |
| `HandleSpec.GivenBackOnce` | pool.hh:41-67 | For any copying and destroying of handles: one handle has count 1 until it is destroyed, and the thing is given back at most once, and exactly once when no handle is left. |
| `HandleSpec.GivesBackIffNewestCopy` | pool.hh:59-67 | After any copying and destroying, destroying a handle gives the thing back if and only if it is the newest copy in the chain of copies that starts at the first handle, by position alone, whether others live or not. |
| `HandleSpec.LastCopyReturnsIff` | pool.hh:35-36 | For every sequence of operations, the thing is given back only when no handle is left, at every moment, if and only if that newest copy is never destroyed while another handle lives. |
| `HandleSpec.FirstCopyGivesBack` | pool.hh:50-67 | A copy destroyed first gives the thing back while the original lives. |
| `Pool.PoolClass.Get` | pool.hh:128-156 | The sequential get: waits if and only if the queue is empty and the maximum reached, otherwise hands out the front or a new thing. |
| `Pool.PoolClass.GiveBack` | pool.hh:169-181 | Queued while there is room for spares, deleted otherwise. |
| `Pool.PoolClass.Stock` | pool.hh:114-125 | The loop creates and posts that many. |
| `Pool.Handle.Copied` | pool.hh:50-57 | The copy takes the count and the original counts one up. |
| `Pool.Handle.Destroy` | pool.hh:59-67 | The count goes down, and at zero the thing goes back. |
| `Md5Transform.F1` | md5.cc:146 | The rewritten F1 is the auxiliary function F of RFC 1321. |
| `Md5Transform.F2` | md5.cc:147 | The rewritten F2 is G. |
| `Md5Table.RotlIsCircular` | md5.cc:153 | The two shifts are the circular shift. |
| `Md5Transform.MD5Transform` | md5.cc:160-241 | The 64 written-out steps compute the table-driven transformation of section 3.4, for every state and block. |
| `Md5Spec.CountersAreExact` | md5.cc:60-65 | After any update the two words hold 8 times the total length modulo 2^64, carry included, and their low bits give the fill of the buffer. |
| `Md5Spec.PadFillsBlocks` | md5.cc:107-135 | The padded message starts with the message and fills whole blocks. |
| `Md5Spec.WordOfBytes` | md5.cc:134-135 | A word stored as bytes is read back. |
| `Md5Length.LengthBytesAreItsDigits` | md5.cc:134-135 | The eight bytes at the end of the padding are the length in bits modulo 2^64 to the base 256, low-order byte first. |
| `Md5Length.DigitByteHasItsValue` | md5.cc:134-135 | The byte of a digit has the value of the digit. |
| `Md5Known.EmptyMessage` | md5.cc:39-141 | The digest of the empty message is that of the test suite in appendix A.5 of RFC 1321, which fixes constants, order of steps and order of output. |
| `Md5.ByteReverse` | md5.cc:24-33 | On a little-endian machine memory is left as it is. |
| `Md5.MD5Context.MD5Init` | md5.cc:39-48 | The context has taken in nothing. |
| `Md5.MD5Context.MD5Update` | md5.cc:54-96 | A context that has taken in m has then taken in m and the data, counters included. |
| `Md5.MD5Context.MD5Final` | md5.cc:102-141 | The digest is that of the whole message, one-shot, padded as in sections 3.1 and 3.2 of RFC 1321. |
| `Md5.Hash` | misc.cc:31-43 | The digest of a message given in any pieces is the digest of the pieces put together. |
| `TextTables.DecideIsAutomaton` | userbases/text/textparser.cc:172-224 | The compressed tables mean the automaton of the grammar, for every state and token. |
| `TextTables.GotoIsByRule` | userbases/text/textparser.cc:992-1002 | The state after a reduction depends on the rule only. |
| `TextParserSpec.StacksStayShort` | userbases/text/textparser.cc:687-696 | In every parse of any tokens, after any number of rounds, the stacks hold at most 8 entries of the 200, the state on top is one of the automaton, and no reduction takes more than the stacks hold. |
| `TextParserSpec.EveryParseEnds` | userbases/text/textparser.cc:603-1062 | After three rounds a token and three more every parse has ended, with the verdict, the calls and the global entry of the grammar. |
| `TextParserSpec.ShiftSimulates` | userbases/text/textparser.cc:859-878 | A shift keeps what the rest of the parse comes to. |
| `TextParserSpec.ReduceSimulates` | userbases/text/textparser.cc:894-1004 | So does a reduction with its action, and it makes progress. |
| `TextParserSpec.EndSimulates` | userbases/text/textparser.cc:837-857 | Acceptance and error agree with the grammar. |
| `TextParser.Parser.Yyparse` | userbases/text/textparser.cc:603-1062 | The table-driven loop over stacks and scanner gives verdict, calls and global entry of the grammar's recogniser, terminates, and never fills the stack. |
| `TextGrammar.AcceptsExactlyTheGrammar` | userbases/text/textparser.yy:58-105 | Accepted are exactly the token sequences of lists of declarations. |
| `TextGrammar.FileMeansItsEntries` | userbases/text/textparser.yy:66-104 | With a blank global entry, textCallback is called with exactly the entries, in order. |
| `TextGrammar.EntriesAreExactIffBlank` | userbases/text/textparser.yy:66-74 | That holds for all files if and only if nothing but the address is left over in the global entry. |
| `TextMeaning.FileSays` | userbases/text/textparser.yy:66-104 | For each declaration of an accepted file there is one call, in order, with its name and, of each kind, what the last statement says, the quota in whole thousands. |
| `TextLexer.Lexer.Yylex` | userbases/text/textlexer.l:18-45 | A call returns the next token of the input, or its end, and keeps the start condition. |
| `TextLexerSpec.PrintLexParse` | userbases/text/textlexer.l:18-45 | Printing any list of declarations, with amounts that are ints, as a mailboxes file, lexing it and parsing it gives back the entries. |
| `TextMeaning.AmountInUnits` | userbases/text/textlexer.l:29-31 | Digits with k, m or g are the amount times a thousand, a million, a thousand million. |
| `TextMeaning.WrittenAmount` | userbases/text/textlexer.l:29-31 | A number as it is printed, with a unit, is read as the number times the unit. |
| `TextMeaning.PlainAmount` | userbases/text/textlexer.l:32 | Digits alone are the amount. |
| `TextMeaning.CommentIsSkipped` | userbases/text/textlexer.l:18-22 | A long comment is skipped, exactly up to its first end. |
| `TextMeaning.LineCommentIsSkipped` | userbases/text/textlexer.l:43-44 | A short comment is skipped up to the end of its line. |
| `TextMeaning.BlanksAreSkipped` | userbases/text/textlexer.l:42 | Blanks and tabs are skipped. |
| `TextLexerSpec.StopsIff` | userbases/text/textlexer.l:18-45 | For every text, a match in INITIAL ends the file if and only if none of the beginnings of a rule stands there: digits, k, m, g, quote, braces, semicolon, newline, blank, the four keywords, the opening of a long comment, a short comment with its newline. |
| `TextLexerSpec.ReadToTheEndIff` | userbases/text/textlexer.l:18-45 | For every text and start condition, it is read to its end if and only if at every place where a match starts in INITIAL one of these beginnings stands. |
| `TextLexerSpec.StrayTextIsDropped` | userbases/text/textlexer.l:45 | The end is silent: after any declarations, any text without such a beginning is dropped and the file accepted. |
| `TextLexerSpec.StraySigns` | userbases/text/textlexer.l:45 | A stray at sign and a lone slash are such texts, whatever follows. |
| `TextLexerSpec.StrayWord` | userbases/text/textlexer.l:26 | A word in a is one exactly when it does not begin with the keyword. |
| `TextLexerSpec.StrayComment` | userbases/text/textlexer.l:43-44 | A last line that is a comment without its newline is one. |
| `TextLexerSpec.StuckInQuotes` | userbases/text/textlexer.l:34-36 | A start condition left over in a quoted word makes the next parse fail and is left over again. |
| `TextLexerSpec.ReadsFilesIffNothingIsLeftOver` | userbases/text/textlexer.l:34-36 | Every printed file is read right if and only if the scanner starts in INITIAL and the global entry is blank but for the address. |
| `TextBase.TextUserBase.TryParse` | userbases/text/textbase.cc:66-102 | Entries, global entry and parsed flag after reading the file, accepted or refused. |
| `PopSpec.NumbersNeverChange` | popsession.cc:299-310 | In every session the list is filled at most once, numbers never change, names do not repeat, and every message listed can be fetched from some backend. |
| `PopSpec.StatIsListSummed` | popsession.cc:284-297 | STAT is the count and the sum of the lines of LIST. |
| `PopSpec.LinesOfList` | popsession.cc:452-466 | The lines of LIST are those of the undeleted messages under their numbers, ascending. |
| `PopSpec.QuitDeletesExactlyTheMarked` | popsession.cc:66-110 | In every session QUIT issues deletes for exactly the messages marked by a DELE that no RSET follows. |
| `PopSpec.DeletionsAreBroadcast` | popsession.cc:66-82 | After these deletes each of the files is gone from every backend for which it is not in the failure log, and no other file has changed anywhere. |
| `PopSpec.PrintedNumberMeansItsMessage` | popsession.cc:336 | A number as LIST prints it, given to RETR, TOP or DELE, means the same message. |
| `PopLogin.LoggedInIff` | popsession.cc:112-280 | In every session: it is logged in if and only if some line was a PASS with a user named, or an APOP with user and digest, whose account (the address, or the wildcard if the address is not known) is known with the right password; it is then the session of that account, and this mailbox is listed and deleted from. |
| `PopLogin.NothingBeforeLogin` | popsession.cc:254-280 | Until then every attempt is answered with an error, there is no list, and no command that needs one is served. |
| `PopLogin.LoginShowsTheMailbox` | popsession.cc:257-271 | The line that logs in is answered with the number and the total size of the messages listed, if and only if every backend that is up can be listed. |
| `PopCommands.NumberedAnswers` | popsession.cc:320-449 | RETR, LIST, UIDL, TOP and DELE with a number, in any case and with either line end: the message of that number and its size, or an error if there is none or it is marked; only the mark of DELE changes anything. |
| `PopCommands.TopAnswers` | popsession.cc:372-397 | TOP with a number and a count asks for that many lines of that message. |
| `PopCommands.ListAnswers` | popsession.cc:422-466 | LIST, UIDL and STAT without a number show all unmarked messages. |
| `PopCommands.NamesOfUidl` | popsession.cc:320-334 | UIDL shows the names of the messages that LIST shows, under their numbers. |
| `PopCommands.RetrievesWhatIsListed` | popsession.cc:350-369 | In every session, RETR of a number that LIST shows asks for the message that UIDL names there, with the size shown, and some backend has it. |
| `PopCommands.ParsesLogin` | popsession.cc:197-232 | USER and PASS take the rest of the line as it is. |
| `PopCommands.ParsesApop` | popsession.cc:114-122 | APOP takes a word and the rest of the line. |
| `PopCommands.ParsesWord` | popsession.cc:84-110 | QUIT, RSET and NOOP are read in any case and with either line end. |
| `PopCommands.DiesOnlyLocally` | popsession.cc:496-530 | CONTROL stop ends the server for a local reader only. |
| `PopQuit.QuitDeletes` | popsession.cc:66-110 | In every session QUIT deletes, from the user's mailbox on every backend, the messages marked by a DELE that no RSET follows, and nothing else; what is not gone is in the failure log, and only what failed is. |
| `PopQuit.LogsExactlyFailures` | popsession.cc:66-82 | A delete is in the log if and only if the backend was down, the request or answer was lost, or unlink failed. |
| `Pop.PopSession.ScanDir` | popsession.cc:471-494 | The listing becomes the message list, or the error. |
| `Pop.PopSession.MakeStatResponse` | popsession.cc:284-297 | The loop computes the specified count and total. |
| `Pop.PopSession.DelDeleted` | popsession.cc:66-82 | One broadcast delete for each marked message, in order: backends and failure log afterwards. |
| `Pop.PopSession.LoginCommand` | popsession.cc:208-280 | Address or wildcard, password, listing and reply. |
| `Pop.PopSession.RestCommands` | popsession.cc:299-469 | The commands after login, with the listing when it is still missing. |
| `Pop.PopSession.GiveLine` | popsession.cc:532-555 | One line of the reader: new state and reply. |
| `Pop.PopSession.SendMessage` | popsession.cc:350-397 | A message of the list is looked for on a backend that listed it. |

## Left out

- MegaTalker holds its connections by value (`Mega.MegaTalker`), not as
  references to `Talker.PPTalker` objects; the two are tied by the same
  specification functions. Sharing of connection objects is not captured.
- OpenStorage connects to the servers after picking all of them; the source
  connects as it picks. Which servers are picked does not depend on it.
- Connect gives a new connection a disk without files of the message. A client
  that repeats DATA after a 450 without RSET makes the source open further
  connections, possibly to the same backends, on which the first ones have
  pending files; the model gives the second connection a disk of its own.
- Settle takes over a disk changed by other sessions only if they leave the
  files that carry this message's index alone, as `Neighbours.NeighboursSpare`
  proves of sessions that do not announce or delete names with this index.
  Indexes are unique by smtpsession.cc:69-80.
- Smtp.SmtpSession.GiveLine: commands reach the session recognised
  (`SmtpSpec.Cmd`), without the parsing of the command line; data lines are raw.
- Smtp.SmtpSession.EatTo: extraction of the address, SIZE= and the answers of
  the userbase are parameters.
- Backend.PPListenSession.GiveLine: the readonly and full markers are not
  modelled, and the reply to ls is a map of names and sizes instead of text.
- Pop.PopSession.LoginCommand: the answers of the userbase and the verdict on
  the password are parameters.
- Pop.PopSession.RestCommands: the replies to a retrieval that fails after its
  first bytes were written are not modelled; the number of bytes written is.
- A write stores the whole line or fails; a short write is not modelled.
- File names are structured (mailbox, tmp or cur, index); hashed directories,
  the search for "/tmp/" in a path and directory creation are not.
- Mailbox names and indexes are words without blanks, as the line protocol
  needs; a name with a blank would be sent as two words.
- Quotas, sizes and counters of the mail path are unbounded integers; the casts
  to int at smtpsession.cc:124, smtpsession.cc:198 and smtpsession.cc:241 are
  exact below 2^31 kilobytes.
- The text of ls and its parsing (pptalker.cc:193-216) are a map of names and
  sizes; the directory order is arbitrary.
- Message numbers in POP3 commands are taken modulo 2^32 after an unbounded
  atoi; the challenge digest of APOP is a parameter.
- An amount in a userbase file from 2^31 on overflows an int in the source,
  which C++ leaves undefined; the model computes it without overflow.
  The line numbers of the scanner, which only appear in error messages, are not
  modelled. A userbase file is handed over as a whole (no buffer refilling).
- MD5Final wipes part of the context after use; the wiping is not modelled.
- invalidate() of a pool handle and died(): the dead thing stays counted in
  d_created, so the accounting holds only without it. Exceptions of the
  generator function and the destruction of the pool are not modelled.
- The failure log is a list of backends; its file format and its replay, which
  truncates the file on every record (megatalker.cc:426), are not modelled.
- Listing all mailboxes (delivery.cc:374-450),
  statistics, the state thread, IMAP, the SQL, LDAP and Oracle userbases,
  password hashing, advertisements, logging, sockets and timeouts.
