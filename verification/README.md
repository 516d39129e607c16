# Models of the IRL receiver plugin

Dafny 4.11 models of the parts of this repository that hold state and can go
wrong, with proofs of what they promise. `dafny verify dfyconfig.toml` checks
everything.

**SRTLA link bonding.** The sender spreads SRT packets over several links. Each
link has a congestion window, a ring of 256 logged sequence numbers and a count
of packets in flight; losses, per-packet acknowledgements and cumulative
acknowledgements drive them. The receiver groups links by a 256-byte id agreed in
a REG1/REG2/REG3 handshake, acknowledges data in batches of ten on the link it came
by, and drops links it no longer hears.

- `Wire`, `LossLists`: big-endian words, NAK loss lists.
- `Links`, `LinkRuns`: the links as values and runs of every event.
  `LinkSender` is the sender's code in place, proved against `Links`.
- `Windows`, `Accounting`, `WindowLedger`, `Scheduler`, `CumulativeAcks`, `Tracking`,
  `LinkResets`: what all runs keep, and which packets a link answers for.
- `Receiver`, `ReceiverObjects`: groups and connections as values, and in place.
- `Membership`, `Members`, `Contacts`, `Deadlines`, `Peers`, `AckPath`: who is in a
  group, how many, for how long, who is answered, and what is acknowledged.
- `Registration`, `Handshake`, `Requests`: both ends joined by a network that loses,
  copies and reorders; that a handshake gets through; when the sender asks.

**HTTP machinery in `src/httplib.h`.** `Multipart` (body state of the streaming
form-data parser over a compacting buffer), `Chunked` and `ChunkedStreams` (chunked
transfer coding, as values and over streams that give or take a few bytes at a
time), `Ranges` (the test of requested byte ranges, which rewrites its array).

**Timed control machines.** `Failover` and `FailoverVerdicts` (scene failover of the auto
switcher),
`Watchdog` and `WatchdogObjects` (reloading of hung media players), `RistStats` and
`RistObjects` (RIST peer table and sliding totals).

Code that works in place is a class or a method whose `ensures` equates the new
state with a function of the old one; the theorems are about those functions and
about runs of them. Clocks, random halves, outcomes of `sendto` and `malloc`, and
what OBS or a socket reports are parameters of the steps. `hide` statements keep
definitions out of proofs that do not need them.

## Findings

Places where the code does not do what its comments, its documentation or the
obvious reading say. The models follow the code.

- A REG3 that cannot be sent to a member cuts the list behind it, because the code
  takes the connection for the head of the list: everybody who joined after that
  member is lost, up to the whole group (src/srtla/srtla_rec.c:562-567;
  `Peers.FailedReg3Cuts`, `Peers.FailedReg3LosesEverybody`).
- A window stays within its bounds in every run exactly when no SRTLA ACK carries
  0xFFFFFFFF, the value of a cleared log entry; with it the ceiling is passed
  (src/srtla/srtla_send.c:316-342; `Windows.WindowsStayInBounds`).
- New links have a log full of 0 rather than -1 (src/srtla/srtla_send.c:517-521).
  From new links, charges, credits and outstanding packets stay within what was
  logged in every run exactly when neither NAKs nor SRTLA ACKs may carry 0 or
  0xFFFFFFFF, whatever data packets and SRT ACKs carry; from links whose log
  housekeeping has cleared, exactly when they may not carry 0xFFFFFFFF
  (`Accounting.NewLinksConserve`, `Accounting.ResetLinksConserve`).
- SRT ACKs commute exactly when the last is not negative as a signed number, or
  clears nothing (src/srtla/srtla_send.c:350-361; `CumulativeAcks.AcksFormAJoin`).
- `group_count` falls behind by one for every REG2 that could not be sent
  (src/srtla/srtla_rec.c:461-476; `Membership.GroupCountLaw`). Once one was lost it
  is never positive again, and the watchdog, which asks it whether a stream is
  connected (src/srtla/srtla_rec.c:1425-1439, src/srtla-source.c:1092-1093), is off. It
  never reaches `MAX_GROUPS`, since a registration evicts every group.
- `MAX_CONNS_PER_GROUP` is listed as a resource limit (src/srtla/srtla_rec.c:96,
  src/srtla/srtla_rec.c:584) and never enforced: a group has as many connections as
  addresses presented its id, and grows to any size
  (`Members.MembersArePresenters`, `Members.GroupsGrowWithoutLimit`).
- The watchdog's comment limits recovery to two attempts
  (src/srtla-source.c:1130-1131). Starvation needs recent audio, and each audio
  callback resets the attempts (src/srtla-source.c:340-341), so the limit never binds
  (`Watchdog.LimitNeverBinds`, `Watchdog.ReloadsWithoutLimit`).
- A chunked body whose provider ends a call with an empty write is cut off without
  an end marker and reported as sent, unless that call also reports the end
  (src/httplib.h:4286-4308, src/httplib.h:4368-4383; `Chunked.ChunkedReadsBack`).
- A range that leaves out both ends is filled in one byte too long and rejected; a
  suffix longer than the content is rejected, although section 14.1.2 of RFC 9110
  lets it stand for the whole content (src/httplib.h:4953-4970;
  `Ranges.SuffixAccepted`).
- A RIST report that does not parse leaves the peer count it came with, which is the
  number of live peers only if it happens to be (src/rist_rec.c:155-166;
  `RistStats.CountIsLive`, `RistStats.UnparsedMiscounts`).

## Model

| member | source | states |
|---|---|---|
| Wire.WordsReadBack | src/srtla/srtla_rec.c:664-681 | words put on the wire in network order are read back one by one whatever follows them |
| LossLists.LossListsReadBack | src/srtla/srtla_send.c:432-447 | for every well-formed loss list the parsing loop yields exactly the numbers the sender of the NAK meant, in order, and reads no word past the list |
| LossLists.NakPacketsReadBack | src/srtla/srtla_send.c:432-447 | the same from the packet's bytes, with a 16-byte header and an unread rest of the buffer; the packet meets what the parser demands |
| Links.FindComplete | src/srtla/srtla_send.c:288-314 | the backwards ring scan misses exactly if no slot other than the skipped one at `pkt_idx` holds the number |
| Links.SelectAmong | src/srtla/srtla_send.c:207-249 | the choice is the earliest live link of greatest score, none exactly if no link is live |
| LinkSender.Conn.RegPkt | src/srtla/srtla_send.c:193-201 | logging a packet in place takes the link to `Logged` |
| LinkSender.Conn.FindPacket | src/srtla/srtla_send.c:296-335 | the scan loop returns the slot of the backwards search, -1 if it misses |
| LinkSender.Conn.RegisterSrtAck | src/srtla/srtla_send.c:350-361 | the loop clears every searched entry below the ACK and leaves in flight exactly the number of the others |
| LinkSender.Sender.SelectConn | src/srtla/srtla_send.c:207-249 | the loop over the list returns the scheduler's choice |
| LinkSender.Sender.HandleSrtData | src/srtla/srtla_send.c:251-280 | a sent data packet is logged on the chosen link alone, a control packet nowhere, and a failed send marks the link |
| LinkSender.Sender.RegisterNak | src/srtla/srtla_send.c:296-314 | in place, a NAK changes the links as `Nak` says: the first link that holds the number, that one entry and the window |
| LinkSender.Sender.RegisterSrtlaAck | src/srtla/srtla_send.c:316-342 | in place, an SRTLA ACK credits the first holder only and grows every link that has been heard |
| LinkSender.Sender.RegisterSrtAck | src/srtla/srtla_send.c:363-367 | in place, a cumulative ACK is applied to every link |
| LinkSender.Sender.HandleNak | src/srtla/srtla_send.c:432-447 | the parsing loop charges the listed numbers, ranges expanded, in order |
| LinkSender.Sender.HandleSrtlaAck | src/srtla/srtla_send.c:451-459 | the loop acknowledges every number of the packet in order |
| LinkSender.Sender.HandleSrtlaData | src/srtla/srtla_send.c:369-478 | a packet from the receiver, as bytes, has exactly the effect of the message it decodes to, on the link it came by and all others; registration packets do not refresh the link; what goes on to the SRT caller |
| LinkSender.Sender.ConnectionHousekeeping | src/srtla/srtla_send.c:672-753 | less than a second after the last pass nothing changes; otherwise the time is noted, timed-out links with a socket are reset once, the others are left alone and counted as active |
| Windows.WindowsStayInBounds | src/srtla/srtla_send.c:203-342 | for every set of SRTLA ACK numbers: all windows lie in [1000, 60000] in all runs from new links with the clock past 4 s if and only if 0xFFFFFFFF is not in the set |
| Windows.WildRunGrows | src/srtla/srtla_send.c:316-342 | the run that breaks the ceiling: the window of a link never heard grows by 29 with every pair of a low cumulative ACK and an SRTLA ACK of 0xFFFFFFFF |
| Accounting.PacketsConserved | src/srtla/srtla_send.c:193-367 | over any run whose NAKs and SRTLA ACKs avoid the values of empty entries, on every link, losses charged + deliveries credited + entries outstanding <= packets logged, and in flight >= outstanding |
| Accounting.NewLinksConserve | src/srtla/srtla_send.c:193-367 | from new links, for every set of NAK numbers and of SRTLA ACK numbers: charged + credited + outstanding <= logged on every link in all runs if and only if neither set has 0 or 0xFFFFFFFF |
| Accounting.ResetLinksConserve | src/srtla/srtla_send.c:696-708 | the same from links with a cleared log, if and only if neither set has 0xFFFFFFFF |
| Accounting.CreditGoesToTheCarrier | src/srtla/srtla_send.c:316-342 | at any point of any run an SRTLA ACK of a number sent over one link only credits that link or none, and does no more to the others than grow them |
| WindowLedger.LedgerBalances | src/srtla/srtla_send.c:193-342 | over any run of sends, NAKs and SRTLA ACKs, on every link: packets in flight are those logged and not credited; and the window is the starting one - 100 per loss charged + 1 per SRTLA ACK while heard + 29 per delivery credited while more is in flight than the window allows, but for what the two bounds took off |
| Tracking.LoggedPacketIsFound | src/srtla/srtla_send.c:193-361 | a logged packet is found on its link until it is reported, acknowledged, or 255 others were logged there, or the link is reset |
| Tracking.ReportReachesTheCarrier | src/srtla/srtla_send.c:296-342 | so if it went over one link only, an SRTLA ACK credits and a NAK charges exactly that link |
| Tracking.SrtAckForgetsExactly | src/srtla/srtla_send.c:350-361 | a cumulative ACK makes a link forget exactly the packets below its number |
| Tracking.FailedLinkIsAvoided | src/srtla/srtla_send.c:203-277 | in any run, after a failed send a link is not chosen again before something was heard on it |
| LinkResets.SilentLinkIsEmptied | src/srtla/srtla_send.c:696-710 | in any run, the first pass more than 4 s after a link was last heard leaves its log empty, nothing in flight and the smallest window |
| LinkResets.HeardLinkIsKept | src/srtla/srtla_send.c:690-714 | in any run, a pass within 4 s of a packet heard on a link leaves the link alone |
| Accounting.InFlightExactAfterSrtAck | src/srtla/srtla_send.c:350-367 | right after a cumulative ACK in any run, in flight equals outstanding on every link |
| Accounting.NewLinkMischarged | src/srtla/srtla_send.c:517-521 | two failing inputs: a NAK of 0 charges, and an SRTLA ACK of 0xFFFFFFFF credits, a link that logged nothing |
| Accounting.NakTouchesOneEntry | src/srtla/srtla_send.c:296-314 | a NAK leaves everything as it is only if no searched slot holds the number, and otherwise charges one link for one entry that held it |
| Scheduler.RunIsFair | src/srtla/srtla_send.c:207-280 | after any run of sends with fixed windows from idle links, w_i / f_i >= w_j / (f_j + 1) for every loaded i and live j |
| Scheduler.ScheduleIsOptimal | src/srtla/srtla_send.c:207-280 | no other split of as many packets over the live links has a larger minimum of w_i / f_i |
| Scheduler.EveryPacketPlaced | src/srtla/srtla_send.c:251-280 | while a link is live the loads add up to the packets sent |
| Scheduler.EqualWindowsShareEvenly | src/srtla/srtla_send.c:207-280 | links of equal window W differ by at most one packet while (f + 1)(f + 2) <= W |
| CumulativeAcks.AcksFormAJoin | src/srtla/srtla_send.c:350-367 | any non-empty list of SRT ACKs acts like its greatest alone if and only if the last is not negative or no searched entry is below the greatest |
| CumulativeAcks.OrderAndCopiesIrrelevant | src/srtla/srtla_rec.c:622-633 | copies of SRT ACKs broadcast on all links may arrive in any order and number: equal maxima leave equal links |
| Membership.GroupRegClosedForm | src/srtla/srtla_rec.c:404-483 | a REG1 leaves no group but the new one, whose id is the sender's half and the first random half drawn, and the count moves by the groups destroyed |
| Membership.OneGroupDistinctMembers | src/srtla/srtla_rec.c:279-577 | in every reachable state there is at most one group, no address in two connections, and fewer than ten numbers pending |
| Membership.GroupCountLaw | src/srtla/srtla_rec.c:355-483 | in every run the count is the number of groups less the REG2s that could not be sent; it is exact if and only if none was lost, positive if and only if there is a group and none was lost, and never reaches the limit |
| Membership.MembersPresentedTheId | src/srtla/srtla_rec.c:485-577 | every member of a group earlier presented that group's full id in a REG2 from its own address |
| Members.MembersArePresenters | src/srtla/srtla_rec.c:485-577 | in every run the members are among the addresses that presented the group's id since it was made, and are exactly those while memory and sending hold out, no reply fails fatally and nobody is timed out |
| Members.ConnsArePresenters | src/srtla/srtla_rec.c:485-577 | so the number of connections is at most, and then exactly, the number of those addresses |
| Members.GroupsGrowWithoutLimit | src/srtla/srtla_rec.c:96 | for every n there is a run whose group has n connections, so that the listed limit is not enforced |
| Contacts.HeardAtLastContact | src/srtla/srtla_rec.c:519-540 | in every run the time a member was last heard is the time of the latest packet from it, keepalives and short ones included, or REG2 with the group's id, told on the events alone |
| Contacts.TimesAreKept | src/srtla/srtla_rec.c:845-848 | in every run the receiver's times of the last pass and of the group's making are those of the events |
| Contacts.CleanupKeepsHeardMembers | src/srtla/srtla_rec.c:845-880 | a cleanup call takes a member away if and only if the last pass is 3 s old and the latest packet from the member more than 90 s |
| Contacts.CleanupClosesDeadGroups | src/srtla/srtla_rec.c:882-889 | and it closes the group if and only if that holds of all its members and the group was opened more than 90 s ago |
| Peers.AnswersGoToTheLastPeer | src/srtla/srtla_rec.c:634-636 | in every run, packets from the SRT server go to the latest peer that opened the group, joined it, or sent an SRT packet as a member |
| Peers.AcksGoToEveryMember | src/srtla/srtla_rec.c:622-633 | in every run an SRT ACK goes to every member exactly once and to nobody else |
| Peers.KeepalivesAreEchoed | src/srtla/srtla_rec.c:715-741 | in every run an echo is the answer to a keepalive of a member, and to nothing else |
| Peers.FatalReplyDropsTheLastPeer | src/srtla/srtla_rec.c:644-658 | in every run a fatal error takes exactly the latest peer out of the members |
| Peers.LostServerEndsTheGroup | src/srtla/srtla_rec.c:746-836 | without automatic reconnecting, the group is given up when the SRT server is gone or cannot be reached for a member's SRT packet, and not for other packets |
| Peers.FailedReg3Cuts | src/srtla/srtla_rec.c:547-567 | a failed REG3 leaves the others alone for a newcomer, and cuts the list behind one who was a member |
| Peers.FailedReg3LosesEverybody | src/srtla/srtla_rec.c:562-567 | for every n there is a run with n members that one failed REG3 leaves with none |
| Deadlines.LiveConnsExact | src/srtla/srtla_rec.c:862-880 | a pass keeps exactly the connections not timed out, in list order |
| Deadlines.LiveGroupsExact | src/srtla/srtla_rec.c:856-889 | a pass removes exactly the groups left empty and past their timeout, and keeps the order of the others |
| Deadlines.CleanupMeets | src/srtla/srtla_rec.c:845-889 | one call, throttled or not, keeps the deadline for every connection it leaves |
| Deadlines.DeadLinksGoneInTime | src/srtla/srtla_rec.c:845-889 | in every run with an ordered clock, after each call every connection left was heard less than CONN_TIMEOUT + CLEANUP_PERIOD ago |
| AckPath.AcknowledgedInOrder | src/srtla/srtla_rec.c:664-753 | for every member, its acknowledged batches in order and then its pending numbers are exactly the numbers received from it since it joined; batches hold ten, fewer than ten are pending |
| AckPath.AckPacketReadsBack | src/srtla/srtla_send.c:451-459 | the sender reads the ten numbers of an ACK packet back in order, whatever its buffer held |
| AckPath.AckPathIsExact | src/srtla/srtla_rec.c:664-681 | end to end: what the sender reads out of the ACK packets of a link, followed by what is pending, is what the receiver got on it |
| AckPath.SrtAckReadsBack | src/srtla/srtla_send.c:425-429 | the sender reads the last acknowledged number out of an SRT ACK's bytes, whatever its other fields and the buffer hold |
| ReceiverObjects.Connection.RegisterPacket | src/srtla/srtla_rec.c:664-681 | in place, the tenth number empties the log into one ACK of all ten |
| ReceiverObjects.Context.FindPeer | src/srtla/srtla_rec.c:279-296 | the nested scan returns the lookup that may stop early at a group's last address |
| ReceiverObjects.Context.GroupRegistration | src/srtla/srtla_rec.c:404-483 | REG1 in place follows `GroupReg` in state and replies, all error paths included |
| ReceiverObjects.Context.ConnRegistration | src/srtla/srtla_rec.c:485-577 | REG2 in place follows `ConnReg`: found, moved from another group, new, out of memory, unknown group, and a failed REG3 that cuts the list |
| ReceiverObjects.Context.HandleData | src/srtla/srtla_rec.c:715-753 | a packet from a member follows `Data`: time, log, most recent peer, keepalive echo |
| ReceiverObjects.Context.ForwardReply | src/srtla/srtla_rec.c:622-636 | the broadcast loop sends an SRT ACK to every connection in list order, other packets go to the group's last address |
| ReceiverObjects.Context.DropPeer | src/srtla/srtla_rec.c:644-658 | a fatal reply error unlinks the first connection with the group's last address and nothing else |
| ReceiverObjects.Context.ConnectionCleanup | src/srtla/srtla_rec.c:845-889 | the pass over both lists in place follows `Cleanup`, throttle included |
| Registration.Registrar.HandleNgp | src/srtla/srtla_send.c:385-397 | an NGP makes the sender ask for a group only without active links, pending exchange or running timeout |
| Registration.Registrar.HandleReg2 | src/srtla/srtla_send.c:399-420 | a REG2 is adopted only from the link asked and with the sender's half, and then announced on all links |
| Registration.Registrar.Housekeeping | src/srtla/srtla_send.c:684-753 | the registration packets housekeeping sends and the links it counts as active |
| Registration.RegistrationAgrees | src/srtla/srtla_send.c:385-420 | over a network that loses, copies and reorders: the sender's half never changes, every adopted id was made by the receiver in answer to one of its own REG1s, and every member presented the group's full id |
| Registration.LinksOnlyInOwnGroups | src/srtla/srtla_rec.c:485-577 | a group with one of the sender's links in it has an id that was the sender's own |
| Handshake.AdoptionIsAnnounced | src/srtla/srtla_send.c:399-418 | once a REG2 for the sender's own request arrives, its id is the sender's and every link has sent a REG2 with it |
| Handshake.HandshakeCompletes | src/srtla/srtla_rec.c:404-560 | for every list of distinct links there is a run with one housekeeping pass, at its start, after which the receiver has one group with the sender's id, whose members are exactly the links, all counted as active |
| Requests.RequestsOnlyWhenDown | src/srtla/srtla_send.c:385-397 | the sender asks for a group only without a live link or a pending request |
| Requests.PendingStays | src/srtla/srtla_send.c:399-418 | a pending request ends only by the grant on its link or by a pass after its timeout |
| Requests.RequestsFarApart | src/srtla/srtla_send.c:391-417 | in every history with an ordered clock, a request comes more than 4 s after any earlier request or grant |
| Requests.HousekeepingSends | src/srtla/srtla_send.c:684-753 | after a pass exactly the packets that the links' states call for were added, and the links neither timed out nor without socket are counted |
| Multipart.Parser.Compact | src/httplib.h:4804-4813 | moving the unread bytes to the front, byte by byte over themselves, keeps them |
| Multipart.Parser.Append | src/httplib.h:4804-4823 | compaction, growth and copy together append to the unread bytes |
| Multipart.Parser.StartsWith | src/httplib.h:4751-4770 | the comparison holds exactly if the text occurs at that place of the unread bytes |
| Multipart.Parser.Find | src/httplib.h:4772-4802 | hopping between copies of the first character finds the first occurrence, or the end if there is none |
| Multipart.Parser.ParseBody | src/httplib.h:4562-4691 | one call in the body state delivers, holds back and changes state as `Feed` says; a refusing callback leaves the input held |
| Multipart.ChunkingIrrelevant | src/httplib.h:4667-4691 | however the input is cut into calls, what is delivered and held equals one call on the whole: the bytes before the first delimiter, or all but the last as many as the delimiter has |
| Chunked.HexReadsBack | src/httplib.h:2240-2249 | the hexadecimal print of a size consists of digits of value that size |
| Chunked.SizeReadsBack | src/httplib.h:4020-4030 | the C conversion reads a printed size line back, saturating at ULONG_MAX |
| Chunked.SizeReadsBackInAnyCase | src/httplib.h:4020-4030 | the same with any letters of the size in upper case |
| Chunked.SizeLineReads | src/httplib.h:4020-4030 | what a size line with white space, sign, 0x, digits of either case and anything behind them stands for |
| Chunked.LineReadsBack | src/httplib.h:2595-2622 | a line without newline inside comes back whole and the rest is untouched |
| Chunked.TrailerReadsBack | src/httplib.h:4052-4075 | a trailer comes back field line by field line if and only if every field is one line and not too long |
| Chunked.ChunkReadsBack | src/httplib.h:4017-4051 | a chunk in front of any stream delivers its payload and goes on with the stream, or fails if its size saturates |
| Chunked.ChunkedReadsBack | src/httplib.h:4277-4383 | for every provider that reports the end in its last call, with or without writing in it: the reader gets content and trailer back and stops exactly behind the body if and only if no earlier call ends with an empty write, no payload reaches ULONG_MAX and every trailer field survives |
| ChunkedStreams.FromIToHex | src/httplib.h:2240-2249 | the masking and shifting loop prints `Hex` |
| ChunkedStreams.WriteData | src/httplib.h:4177-4188 | short writes add up to the whole data, and it fails exactly if the stream takes less |
| ChunkedStreams.ChunkedWriter.Write | src/httplib.h:4286-4308 | one sink write emits one framed chunk, none for an empty payload, and remembers failure |
| ChunkedStreams.ChunkedWriter.Done | src/httplib.h:4314-4358 | the end marker with its trailer goes out once and ends the loop |
| ChunkedStreams.WriteContentChunked | src/httplib.h:4368-4383 | on success exactly `Sent` is on the stream; a stream with room makes it succeed |
| ChunkedStreams.LineReader.Append | src/httplib.h:2624-2636 | the fixed buffer and the growing one hold the line, terminated, across the spill |
| ChunkedStreams.LineReader.GetLine | src/httplib.h:2595-2622 | the byte loop returns the first line, a last line without newline at the end, and fails on an empty or broken stream |
| ChunkedStreams.ReadContentWithLength | src/httplib.h:3944-3969 | succeeds exactly if stream and receiver have room for the length, and then moves exactly those bytes, in pieces of any size |
| ChunkedStreams.ReadContentChunked | src/httplib.h:4004-4075 | succeeds exactly if the stream decodes and the receiver takes the content, and then delivers content, trailer lines and leaves the rest |
| Ranges.RangeError | src/httplib.h:4931-4991 | reports an error exactly if the filled-in ranges are too many, outside the content, not strictly ascending or overlap more than twice; fills in exactly the ranges it looked at; on acceptance every range stands for the bytes asked for |
| Ranges.AcceptedServesWhatWasAsked | src/httplib.h:4953-5001 | in an accepted request every range serves exactly the bytes asked for: from first to last, from first on, or as many as named at the end |
| Ranges.OverlapByMax | src/httplib.h:4977-4987 | comparing with the running maximum decides whether a range shares a byte with an earlier one |
| Ranges.AcceptedIsBounded | src/httplib.h:4993-5001 | every accepted range meets the assertions of the function that serves it, and the lengths sum to at most 3n, indeed 3n - 3 for n > 1 |
| Ranges.BoundIsTight | src/httplib.h:4931-4991 | three accepted ranges reach 3n - 3 for every n > 2 |
| Ranges.SuffixAccepted | src/httplib.h:4953-4970 | a lone suffix of L bytes is accepted if and only if 1 <= L <= n; a range without ends never |
| Failover.AutoSwitcher.OnSceneChanged | src/srtla-ui.cpp:1633-1648 | any scene but the failover scene makes the switcher forget the original scene |
| Failover.AutoSwitcher.CheckBitrate | src/srtla-ui.cpp:1994-2206 | one tick in place follows `OnTick`: early return, primary port, exempt scenes, dead time, both counters, both scene changes |
| Failover.RestoresTheRightScene | src/srtla-ui.cpp:2127-2206 | while a scene is remembered the failover scene is live, if it existed; and every automatic restore goes to the scene live when the matching failover fired, with only the failover scene live since |
| Failover.NoFlapping | src/srtla-ui.cpp:2138-2205 | failovers * max(1, delay) <= unhealthy ticks + (max(1, delay) - 1) per scene choice of the operator, recoveries * return delay <= healthy ticks, recoveries <= failovers |
| Failover.FailsOverOnTime | src/srtla-ui.cpp:2155-2179 | under steady bad health the failover comes at exactly tick max(1, delay) |
| Failover.RecoversOnTime | src/srtla-ui.cpp:2180-2205 | under steady good health the original scene is back at exactly tick return delay |
| FailoverVerdicts.FlowingStaysOnAir | src/srtla-ui.cpp:2145-2153 | readings with a listener, the primary playing and 1 kbit/s or more never fail over |
| FailoverVerdicts.FlowingComesBack | src/srtla-ui.cpp:2180-2205 | and after a failover they bring the scene back at exactly tick return delay |
| FailoverVerdicts.StoppedGoesAway | src/srtla-ui.cpp:2145-2179 | readings without listener or without the primary playing fail over at exactly tick max(1, delay) |
| FailoverVerdicts.DryGoesAway | src/srtla-ui.cpp:2145-2179 | readings with less than 1 kbit/s on a playing primary fail over at exactly tick 1 + max(1, delay) |
| FailoverVerdicts.ExemptSceneStays | src/srtla-ui.cpp:2138-2143 | while an exempt scene is live no reading changes the scene, and nothing is remembered |
| FailoverVerdicts.PrimaryGivesWay | src/srtla-ui.cpp:2053-2100 | the primary port changes exactly if it neither plays nor carries more than 10 kbit/s and another is found |
| WatchdogObjects.ReceiverSource.OnAudio | src/srtla-source.c:332-341 | an audio callback sets the time and resets the attempts, only with a player and no stop requested |
| WatchdogObjects.ReceiverSource.ReloadMedia | src/srtla-source.c:621-648 | closing and opening the player in place follows `Reloaded` |
| WatchdogObjects.ReceiverSource.ForceStop | src/srtla-source.c:963-995 | a forced stop clears every time, counter and mark |
| WatchdogObjects.ReceiverSource.UpdateSettings | src/srtla-source.c:778-808 | a settings change restarts thread and player as needed |
| WatchdogObjects.ReceiverSource.Examine | src/srtla-source.c:1089-1176 | one source's turn in the first pass, and the mark exactly if a reload is decided |
| WatchdogObjects.AutoRecoverHungSources | src/srtla-source.c:1078-1217 | after the three passes every source is as its own poll says, no mark is left, and exactly the hung sources were reloaded |
| Watchdog.ReloadsFarApart | src/srtla-source.c:1091-1160 | two automatic reloads of a source are at least 10 s apart, across disconnects, stops, settings changes and manual reloads |
| Watchdog.ReloadFollowsStarvation | src/srtla-source.c:1109-1120 | each follows at least 6 s in which every evaluated poll saw the source connected and starved, with one and the same player |
| Watchdog.ReloadNeedsStarvedAudio | src/srtla-source.c:1109-1120 | each needs an audio callback less than 2 s old, and the last rate any callback measured strictly between 0 and 30 kHz, told on the callbacks |
| Watchdog.ReloadIsDue | src/srtla-source.c:1100-1160 | and it comes as soon as every poll for 6 s saw the source connected and starved with one player, and the last recovery is 10 s old |
| Watchdog.LimitNeverBinds | src/srtla-source.c:1130-1132 | in every reachable state at most one attempt is counted, and dropping the attempt limit would change no decision |
| Watchdog.ReloadsWithoutLimit | src/srtla-source.c:1130-1132 | for every n there is an uninterrupted connection reloaded n times |
| RistObjects.RistInfo.FindSlot | src/rist_rec.c:263-273 | the scan returns the peer's own live slot wherever it is, else the first free one |
| RistObjects.RistInfo.Sweep | src/rist_rec.c:287-298 | the sweep frees exactly the stale slots and returns the number of live ones |
| RistObjects.RistInfo.Sample | src/rist_rec.c:187-220 | a sample goes into both rings and both totals are summed up again |
| RistObjects.RistInfo.OnStats | src/rist_rec.c:147-307 | the callback in place follows `Next` |
| RistStats.NoteRefines | src/rist_rec.c:262-282 | reporting a peer to the table is reporting it to a map of at most 32 peers |
| RistStats.SweepRefines | src/rist_rec.c:287-298 | the sweep removes from the map exactly the peers older than two seconds |
| RistStats.TableIsMap | src/rist_rec.c:229-302 | over any run no two live slots hold one id and the table is the bounded map |
| RistStats.CountIsLive | src/rist_rec.c:153-302 | after any run the peer count is the number of live slots if and only if the last report that counted parsed, or there was none, or its own count was right |
| RistStats.UnparsedMiscounts | src/rist_rec.c:155-166 | the failing input: one report that does not parse shows a peer that is not there |
| RistStats.RecentPeersAreListed | src/rist_rec.c:229-298 | while no more than 32 peers ever report, a peer has a live slot exactly if it was reported within the last two seconds, and the slot has that time |
| RistStats.TotalsAreSlidingSums | src/rist_rec.c:210-220 | over any run the lost and retry totals are the sums of the last 30 samples, or all if fewer, modulo 2^32 |
| RistStats.TotalsCountLosses | src/rist_rec.c:187-220 | the same in the reports' own integers: lost plus dropped counts where positive, and retries |
| RistStats.SlotsCarryBytes | src/rist_rec.c:276-280 | a live slot's bytes are half a second of each rate reported since a sweep last found the peer stale, modulo 2^64 |
| RistStats.SlotsShowLastReport | src/rist_rec.c:275-279 | a live slot shows the address and port last reported |
| RistStats.BytesAddUp | src/rist_rec.c:156 | the receiver's bytes are the sum of those of all reports that counted, modulo 2^64 |

## Left out

- Sockets, epoll and select, address resolution, Winsock and SEH blocks, random sources: their outcomes are step inputs.
- Changing the link list while running, reopening sockets, keepalives, the global timeout of the sender.
- Sequence-number wrap-around in the sender, an open item in the source itself, and overflow of `in_flight_pkts` and of `time_t`.
- LinkSender.Sender.HandleNak: a NAK range that ends at 2^31 - 1 or above is excluded, because the source's signed loop counter overflows on it, which C leaves undefined.
- LinkSender.Sender.HandleSrtlaData: the same NAKs are excluded; what registration packets do to the registration state is in `Registration`.
- LinkSender.Sender.ConnectionHousekeeping: the packets the pass sends are in `Registration`.
- Registration.Registrar.Housekeeping: whether a link's retry is due is an input; the sender's backoff and attempt limit are not modelled.
- The receiver's SRT re-handshake with exponential backoff, the SRT socket of a group, other threads that read or reset its state, and its byte counters.
- ReceiverObjects.Context.ConnRegistration: a connection moved from another group is a new object here, while the source reuses the structure; connections cut off by a failed REG3 are dropped, while the source leaks those in front.
- Multipart states other than the body: the initial boundary, part headers and the boundary that follows a body; the initial boundary search drops a partial match at the end of a chunk, so independence of chunking is claimed for the body state only.
- Chunked.TrailerReadsBack: trailer lines come back as lines; splitting them into names and values, with trimming and percent-decoding, is not modelled.
- Chunked.ChunkedReadsBack: providers that write after they have reported the end are not modelled.
- ChunkedStreams.WriteContentChunked: compression and shutting down the server while writing are not modelled, and a stream is writable while it has room.
- ChunkedStreams.ReadContentChunked: trailer lines are kept as read; splitting them into header fields is not modelled.
- Ranges.RangeError: positions are unbounded, so content lengths past 2^63 are not modelled.
- Failover.AutoSwitcher.CheckBitrate: the port found by a search for a new primary is an input; settings do not change during a run; volume and visibility rules are not modelled, nor are scene events that arrive later than the change.
- Watchdog: an audio callback falls between polls, not into one; recovery actions other than reload, which the source never requests, and the counter of resets shown to the user are not modelled.
- WatchdogObjects.ReceiverSource.UpdateSettings: which part of the settings changed is an input; ports and addresses are not modelled.
- RistObjects.RistInfo.OnStats: JSON parsing, URLs, quality, round-trip time, missing queue and log output are not modelled; the arithmetic on rates is exact.
- `srtla_global_lost` in src/srtla-source.c, which is cumulative, and src/rist-source.c, a near copy of src/srtla-source.c.
- Qt widgets, dialogs, web endpoints, the multistream output and the rest of httplib.
