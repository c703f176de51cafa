# Verified models of the UNP sample library and of netcalc

Dafny models of the parts of the repository that hold algorithms and protocols rather than socket calls, with proofs of
what those parts promise. `dafny verify dfyconfig.toml` verifies everything.

| files | what they model |
|---|---|
| `Numerals`, `Inet4`, `InetAton`, `Inet6Pton`, `Inet6Ntop`, `Inet6RoundTrip`, `Inet6Shape`, `Inet6Forms`, `Inet6Case`, `Inet6Printed` | the address printers and parsers of libfree: one-pass scanners over arrays, proved against readings field by field, and the round trip over all addresses |
| `Rtt`, `DgSendRecv`, `DgProtocol`, `DgCalls` | the reliable request over UDP: the estimator, the retransmission loop, client, network and echo server as one state machine, and the loop within it |
| `FdRing`, `Handover`, `ThreadPool` | the ring of descriptors under a mutex and a condition variable, over every interleaving |
| `SigioEcho`, `SigioProtocol` | the datagram ring shared with a signal handler |
| `Prefork`, `PreforkProtocol` | the preforked pool with descriptor passing |
| `Pump`, `PumpTurns` | the nonblocking two-way pump, and its turns in terms of the streams |
| `Gai`, `GaiHeap` | the addrinfo list: what the service step makes of it as values, and the linked list that grows while it is walked |
| `Checksum`, `UdpWrite` | the Internet checksum and the datagram built around it |
| `Streams`, `Framing`, `Deframe`, `Readline` | stream deframing and buffered line reading, against their byte-at-a-time forms |

Code that works step by step is modelled by methods with loops over arrays and fields; each is proved equal to a
function of its inputs or of the old state, and the properties are lemmas about those functions. The order in which
signals, threads, processes and the network act is an arbitrary sequence of steps, so a lemma about `Run(steps)` speaks
of every reachable state. The queue of `ThreadPool` is the `Queue()` of the array ring (`AcceptInto`,
`TakeFrom`); the tables of `PreforkProtocol` and the ring of `SigioProtocol` are those of the classes as well.
The outcome of `read`, `write`, `recvmsg` and `select`, and the time of day, are parameters. The
end of a Dafny string stands for the terminating NUL. 32-bit counters wrap explicitly; floating point is `real`.

Where the code does not do what its comments or its purpose suggest, the code is modelled and the difference is a lemma:

- inet_pton.c says that `::` in a full address is ignored; it clears the octets behind it (`GapInFullAddress`). It says
  that the texts accepted are those of section 2.2 of RFC 1884; which others are accepted is `AcceptedOutsideForms`.
- inet_aton accepts fields above 255 that wrap around an unsigned long (`ParsersAgree`, `WrappedFieldAccepted`).
- sig_io reports an overflow when exactly QSIZE datagrams are queued and waiting, though each has its slot
  (`OverflowsAtQsize`, `EightArriveTogether`).
- a datagram that arrives after the socket is bound and before FIOASYNC is set raises no signal, and dg_echo sleeps with
  it until another one arrives (`StrandedExactly`, `StrandedStays`).
- str_cli returns without draining its output buffer (`ReturnMayDropOutput`, `OutputDroppedForExample`).
- the readline variants and readAppMsg count differently at the end of a stream and in a full buffer (`CountsDiffer`,
  `CountTooHigh`), and server/readline.c, unlike the buffered readers, gives up on an interrupted read (`ReadLineSimple`,
  `OneInterruption`).
- the calculator client quits on a stream of short messages if the network delivers it in the wrong portions
  (`OverflowDependsOnReads`), and its parse buffer is twice as large as it lets itself use.

## Model

| member | source | states |
|---|---|---|
| Inet4.InetPton4 | SampleCode/unpv13e/libfree/inet_pton.c:86-125 | The one-pass scan accepts exactly the strings that the field-by-field reading `Quad` accepts, stores its four octets, and leaves the destination untouched when it refuses. |
| Inet4.QuadShape | SampleCode/unpv13e/libfree/inet_pton.c:91-124 | A string is accepted if and only if it is four fields between dots, each a nonempty run of decimal digits denoting at most 255; the octets are those four values, in order. |
| Inet4.QuadOctets | SampleCode/unpv13e/libfree/inet_pton.c:91-124 | Octet i of an accepted string is the decimal value of its field i, and the four fields with dots between them are the string. |
| Inet4.QuadOfNtop4 | SampleCode/unpv13e/libfree/inet_ntop.c:91-100 | For every four octets, parsing the text that inet_ntop4 prints gives the same octets back. |
| Numerals.ValueOfNumeral | SampleCode/unpv13e/libfree/inet_ntop.c:181 | The numeral that %u or %x prints denotes the number printed, for every number. |
| InetAton.InetAton | SampleCode/unpv13e/libfree/inet_aton.c:22-75 | The do/while scan, with the NUL as the end of the last field, accepts exactly the strings with at most four fields that are all digits and at most 255 after u_long wrap-around; what htonl leaves in memory is one octet per field, then zeros. |
| InetAton.OctetStored | SampleCode/unpv13e/libfree/inet_aton.c:36-73 | What inet_aton stores, octet by octet: the value of field k modulo 2^32 or 2^64, and 0 for a field that is missing; the last field is not spread over the octets left. |
| InetAton.Normalised | SampleCode/unpv13e/libfree/inet_aton.c:64-72 | Shifting an address of fewer than four octets puts the octets read first in memory and zeros behind them. |
| InetAton.ParsersAgree | SampleCode/unpv13e/libfree/inet_aton.c:25-74 | Every string inet_pton4 accepts is accepted by inet_aton with the same octets; a string inet_aton accepts is refused by inet_pton4 if and only if it has fewer than four fields, an empty field, or a field that wrapped around an unsigned long of 32 or 64 bits. |
| InetAton.WrappedFieldAccepted | SampleCode/unpv13e/libfree/inet_aton.c:42-56 | Such a field: the numeral of 2^32 + n (or 2^64 + n) is accepted as the octet n and three zeros, and inet_pton4 refuses it. |
| Inet6Pton.InetPton6 | SampleCode/unpv13e/libfree/inet_pton.c:140-224 | One pass over the characters, with groups stored behind tp and the octets behind `::` moved at the end, accepts what `Pton6` reads token by token, stores its octets, and leaves the destination untouched when it refuses. |
| Inet6Pton.ShiftToEnd | SampleCode/unpv13e/libfree/inet_pton.c:205-218 | The shift by hand, over overlapping regions of the same buffer, leaves the octets before `::`, then zeros, then the octets behind it; with the buffer already full it clears everything behind `::` instead. |
| Inet6Pton.Complete | SampleCode/unpv13e/libfree/inet_pton.c:199-220 | A pending group is stored if it fits, `::` is expanded, and the text is refused unless sixteen octets result. |
| Inet6Shape.Pton6Shape | SampleCode/unpv13e/libfree/inet_pton.c:152-223 | The language of inet_pton6, both ways: fields between colons that are empty or hexadecimal numbers of at most 16 bits, the last possibly a dotted quad, at most one empty field before the last, sixteen octets written out or at most sixteen with an empty field, a leading colon doubled; and the address denoted. |
| Inet6Printed.WrittenOctets | SampleCode/unpv13e/libfree/inet_pton.c:183-186 | Each group of a text is found again in the octets written, high octet first, at the place that the fields before it leave for it. |
| Inet6Shape.GapInFullAddress | SampleCode/unpv13e/libfree/inet_pton.c:132-135 | Header note (2) is false of the code. For every accepted text with `::` that writes out sixteen octets, every octet behind `::` is cleared; the text denotes the octets as written if and only if those behind `::` are zero. |
| Inet6Shape.TrailingColonAccepted | SampleCode/unpv13e/libfree/inet_pton.c:175-190 | For every accepted text: with a colon behind it, it is accepted if and only if it ends in a group, or in such a colon behind eight groups, and then denotes the same address. |
| Inet6Forms.FormsAccepted | SampleCode/unpv13e/libfree/inet_pton.c:130-138 | Every text form of section 2.2 of RFC 1884 (groups of one to four digits, one `::` for one or more groups of zeros, a dotted quad at the end) is accepted, as the octets written with zeros for `::`. |
| Inet6Forms.AcceptedOutsideForms | SampleCode/unpv13e/libfree/inet_pton.c:130-138 | An accepted text is outside those forms if and only if a group has more than four digits, or it ends in a single colon, or its `::` stands for nothing. |
| Inet6Case.DigitWorth | SampleCode/unpv13e/libfree/inet_pton.c:145-169 | The character at offset i of xdigits_l, and the one at offset i of xdigits_u, read as a group is worth i, for all sixteen offsets. |
| Inet6Case.DigitsAre | SampleCode/unpv13e/libfree/inet_pton.c:145-167 | The digits of a group are the characters of the two tables xdigits_l and xdigits_u and no others; those of a dotted quad are the first ten. |
| Inet6Case.PlaceValue | SampleCode/unpv13e/libfree/inet_pton.c:168-170 | A digit behind a group makes its value sixteen times as large (ten times for decimal fields) and adds the value of the digit. |
| Inet6Case.CaseDoesNotMatter | SampleCode/unpv13e/libfree/inet_pton.c:164-170 | For every text whatever, accepted or not, inet_pton6 makes the same of it and of the text with its letters in lower case. |
| Inet6Case.UpperCaseIsRead | SampleCode/unpv13e/libfree/inet_pton.c:145-146 | For every address, the text inet_ntop6 prints, with its letters in upper case, is read back as the address. |
| Inet6Ntop.SplitWords | SampleCode/unpv13e/libfree/inet_ntop.c:132-134 | Shifting the octets into place one at a time yields the eight words of the address. |
| Inet6Ntop.FindBestRun | SampleCode/unpv13e/libfree/inet_ntop.c:135-156 | The scan finds the run of zero words of section 4.2.3 of RFC 5952: the longest, the first among equals, and none at all unless it has two words. |
| Inet6Ntop.BestRunIsUnique | SampleCode/unpv13e/libfree/inet_ntop.c:135-156 | There is only one such run, so the text of an address is determined. |
| Inet6Printed.BestRunOctets | SampleCode/unpv13e/libfree/inet_ntop.c:135-156 | The same said of the sixteen octets: the run covers zero octets only, at least four of them; no run of zero words is longer, none as long is further left, and without it no two adjacent words are zero. |
| Inet6Ntop.InetNtop6 | SampleCode/unpv13e/libfree/inet_ntop.c:109-188 | The text built character by character is the groups in hexadecimal with that run written `::`, and the last four octets in dotted form exactly when that run is the first six words, or the first five with ffff behind them; with its NUL it fits the scratch buffer. |
| Inet6Printed.PrintedText | SampleCode/unpv13e/libfree/inet_ntop.c:161-186 | For every address: its text is one of the forms of section 2.2 of RFC 1884; it contains `::` if and only if two adjacent words are zero; and the octets written out are all but those of the best run, with `::` where that run begins. |
| Inet6Printed.DottedExactly | SampleCode/unpv13e/libfree/inet_ntop.c:173-180 | For every address: its text contains a dot if and only if its first ten octets are zero and the next two are 255, or are zero with the word behind them nonzero; the text is then the dotted quad behind `::ffff:` or `::`. |
| Inet6Printed.NumeralIsPlain | SampleCode/unpv13e/libfree/inet_ntop.c:181 | A printed group or octet has no needless zero in front and its letters are lower case. |
| Inet6RoundTrip.ReadCompressed | SampleCode/unpv13e/libfree/inet_pton.c:162-218 | Any groups, `::`, any groups, at most eight in all: read as the groups on either side with zeros between them. |
| Inet6RoundTrip.ReadEncapsulated | SampleCode/unpv13e/libfree/inet_ntop.c:173-180 | ::a.b.c.d and ::ffff:a.b.c.d, as printed, are read back as the address. |
| Inet6RoundTrip.ReadText | SampleCode/unpv13e/libfree/inet_ntop.c:161-186 | Whichever run of at least two zero words is compressed, or none, the text denotes the address. |
| Inet6RoundTrip.RoundTrip | SampleCode/unpv13e/libfree/inet_ntop.c:109-198 | For all 2^128 addresses: inet_pton6 accepts the text inet_ntop6 prints and stores exactly the same sixteen octets. |
| Inet6RoundTrip.PrintingIsInjective | SampleCode/unpv13e/libfree/inet_ntop.c:109-198 | Different addresses are printed differently. |
| Rtt.RttInfo.Init | SampleCode/unpv13e/lib/rtt.c:22-35 | rtt_init sets the mean to 0, the deviation to 0.75, the time-out to 3 seconds and the base to the second it is called in, and leaves the retransmission count alone. |
| Rtt.RttInfo.Ts | SampleCode/unpv13e/lib/rtt.c:45-54 | The stamp is the milliseconds since the base second, modulo 2^32, although seconds and milliseconds are scaled apart. |
| Rtt.RttInfo.Start | SampleCode/unpv13e/lib/rtt.c:62-67 | The alarm is the whole number of seconds nearest to the time-out. |
| Rtt.RttInfo.Stop | SampleCode/unpv13e/lib/rtt.c:80-102 | A sample moves the mean by an eighth of its distance from it, and the deviation by a quarter of what that distance, taken positive, differs from it; the time-out is then the mean plus four deviations if that lies in [2, 60] seconds, and the nearer end if not. |
| Rtt.RttInfo.Timeout | SampleCode/unpv13e/lib/rtt.c:111-119 | The time-out doubles, and the fourth expiry gives up. |
| Rtt.EstimatorsBounded | SampleCode/unpv13e/lib/rtt.c:10-35 | Over every run of samples the estimators stay non-negative and the time-out stays in [2, 60]; samples bounded by B keep the mean at most B and the deviation at most max(0.75, B). |
| Rtt.SampleLaws | SampleCode/unpv13e/lib/rtt.c:10-102 | The same after every run of samples from rtt_init, and of one more sample, said of the estimators alone. |
| Rtt.MeanConverges | SampleCode/unpv13e/lib/rtt.c:93-94 | Under a steady round trip the error of the mean after n samples is (7/8)^n of the first one. |
| Rtt.DeviationConverges | SampleCode/unpv13e/lib/rtt.c:96-99 | Under a steady round trip the deviation after n samples is exactly (3/4)^n v + 2 e ((7/8)^n - (3/4)^n). |
| Rtt.TimeoutTends | SampleCode/unpv13e/lib/rtt.c:93-101 | Under a steady round trip the time-out tends to that round trip, or to 2 or 60 seconds if it is below or above: after n samples it is off by at most 7 (9 e + 4 v) / (n + 7), where e is the first error of the mean and v the first deviation. |
| Rtt.ElapsedTime | SampleCode/unpv13e/lib/rtt.c:45-54 | The difference of two stamps taken with one base is the time elapsed modulo 2^32, whatever the base. |
| Rtt.StampSinceInit | SampleCode/unpv13e/lib/rtt.c:27-54 | A stamp is the milliseconds since the second in which rtt_init was called, modulo 2^32, also when seconds outgrow the 32 bits of the base. |
| DgSendRecv.Word32RoundTrip | SampleCode/unpv13e/rtt/dg_send_recv.c:10-13 | A header word is read back from memory as it was stored. |
| DgSendRecv.DgClient.SendRecv | SampleCode/unpv13e/rtt/dg_send_recv.c:18-93 | The call with its two loops and the jump back to the transmission does, on any schedule of alarms and arriving datagrams, what `Call` says: the datagrams sent, the alarms set, the reply, and the static state left behind. |
| DgSendRecv.AwaitBounded | SampleCode/unpv13e/rtt/dg_send_recv.c:56-92 | From any point within a call: the transmissions and alarms still to come keep within the bounds below. |
| DgSendRecv.CallBounded | SampleCode/unpv13e/rtt/dg_send_recv.c:54-79 | A request makes at most four transmissions, all of the same request, gives up only after the fourth, sets only alarms of at least two seconds that total at most 900, and leaves a time-out in [2, 60] for the next request. |
| DgSendRecv.CallEstimates | SampleCode/unpv13e/rtt/dg_send_recv.c:25-90 | The estimators survive from call to call: a call starts from those the last one left, or from the initial ones on the first call and after giving up; its k-th alarm is the nearest whole number of seconds to that time-out doubled k times; a reply makes exactly one sample of them. |
| DgProtocol.RunKeeps | SampleCode/unpv13e/rtt/dg_send_recv.c:32-92 | Invariant of every run of client, network and server: each datagram in the network stems from a transmission of a known request, and the request under way was stamped with the present base. |
| DgCalls.CallInWorld | SampleCode/unpv13e/rtt/dg_send_recv.c:56-92 | In any run, with the server serving meanwhile: a call that sees the alarms and deliveries among the steps sends, returns and leaves behind what the state machine does; if it is one of the first 2^32, a reply it returns is the echo of its own request, and some datagram delivered is the echo of a transmission of that request from which the round trip measured is the time to the delivery, modulo 2^32 milliseconds. |
| DgCalls.CallServer | SampleCode/unpv13e/rtt/dg_send_recv.c:18-93 | The same of the method with its loops: the client object stays in step with the protocol from call to call, and a successful call returns the first octets of its own data, at most 4088 and at most as many as the caller has room for. |
| DgCalls.AnswerArrives | SampleCode/unpv13e/rtt/dg_echo.c:10-15 | Whatever has happened before, the echo of the first transmission can come straight back and the call then succeeds with it. |
| DgCalls.CallsBounded | SampleCode/unpv13e/rtt/dg_send_recv.c:54-79 | In every run, whatever has happened before, a call makes at most four transmissions, all of its own request, gives up only after the fourth, and sets only alarms of at least two seconds that total at most 900. |
| DgCalls.RunSteady | SampleCode/unpv13e/lib/rtt.c:10-35 | Between the calls of every run the time-out is in [2, 60] seconds and the estimators are not negative. |
| DgProtocol.AcceptedWhen | SampleCode/unpv13e/rtt/dg_send_recv.c:86 | An echo is accepted if and only if its request has the current number modulo 2^32. |
| DgProtocol.RepliesAreCurrent | SampleCode/unpv13e/rtt/dg_echo.c:10-15 | In every run of at most 2^32 requests over a network that loses, duplicates, delays and reorders datagrams, a call that succeeds returns the echo of its own request (as much as the 4096-byte server buffer and the caller hold), and its sample is the milliseconds, modulo 2^32, since the very transmission whose echo was accepted. |
| DgProtocol.StaleReplyAfterWrapAround | SampleCode/unpv13e/rtt/dg_send_recv.c:32 | The bound is exact: there is a run in which request 2^32 + 1 is answered with the echo of the first one. |
| FdRing.Ring.Deposit | SampleCode/unpv13e/server/serv08.c:40-44 | The descriptor goes to the end of the queue; the server quits exactly when 31 were queued already. |
| FdRing.Ring.Take | SampleCode/unpv13e/server/pthread08.c:24-26 | The oldest descriptor comes off and the others keep their order. |
| FdRing.Ring.Queue | SampleCode/unpv13e/server/pthread08.h:7-8 | At most MAXNCLI - 1 descriptors are queued, and iget equals iput exactly when none is. |
| ThreadPool.RunKeeps | SampleCode/unpv13e/server/serv08.c:35-47 | Invariant of every run of acceptor and workers: what was taken followed by what is queued is what was accepted, enough workers are awake, and every thread_count agrees with the descriptors given to that worker. |
| ThreadPool.WakeupsKept | SampleCode/unpv13e/server/pthread08.c:20-27 | Every step, spurious wakeups included, keeps the number of queued descriptors at most the number of signalled workers while anyone sleeps. |
| ThreadPool.NoLostWakeup | SampleCode/unpv13e/server/serv08.c:39-46 | If a descriptor is queued while some worker sleeps, a signalled worker exists whose next step takes the oldest one. |
| ThreadPool.FirstComeFirstServed | SampleCode/unpv13e/server/pthread08.c:20-31 | In every run that has not quit, the k-th descriptor accepted is the k-th taken, by exactly one worker; at most 31 wait; thread_count is the number of descriptors taken, save one just taken. |
| ThreadPool.QuitsWhenFull | SampleCode/unpv13e/server/serv08.c:43-44 | The server quits if and only if a descriptor is accepted while 31 are queued. |
| ThreadPool.TakesNext | SampleCode/unpv13e/server/pthread08.c:20-32 | A worker that does not sleep takes the oldest descriptor by its own steps: finish the one it has, count, lock. |
| ThreadPool.AllCanBeServed | SampleCode/unpv13e/server/pthread08.c:17-33 | From every reachable state of a pool with a worker that has not quit, steps of one worker alone, which finishes what it has and goes back to the queue, can have every descriptor accepted so far taken, in order. |
| ThreadPool.AcceptInto | SampleCode/unpv13e/server/serv08.c:39-46 | On the array ring: the accepting thread quits exactly when the pool does, and otherwise leaves the queue of the pool after its step. |
| ThreadPool.TakeFrom | SampleCode/unpv13e/server/pthread08.c:21-27 | On the array ring: a worker waits exactly when the pool puts it to sleep, and otherwise takes the descriptor that the pool gives it. |
| SigioEcho.EchoServer.SigIo | SampleCode/unpv13e/sigio/dgecho01.c:78-108 | The handler quits exactly when queued and waiting datagrams together reach QSIZE. Field by field: the k-th datagram that there was room for is in the slot k places after iput with its first 4096 octets, or all of them, its sender and the length of that; iput and nqueue have advanced by as many; the queued ones are still in front; a handler that returns has added one to the entry of the histogram for their number, one that quits has not. |
| SigioEcho.WriteFree | SampleCode/unpv13e/sigio/dgecho01.c:89-104 | Writing to the slot at iput leaves the queued datagrams alone; advancing iput and nqueue then appends it. |
| SigioEcho.HandledAppends | SampleCode/unpv13e/sigio/dgecho01.c:85-106 | A handler that returns has appended the whole batch in order and touched no queued slot. |
| SigioEcho.StoreAllAppends | SampleCode/unpv13e/sigio/dgecho01.c:91-104 | The same of any batch that there are slots for, also when it fills the ring. |
| SigioEcho.EchoServer.Send | SampleCode/unpv13e/sigio/dgecho01.c:64-65 | As long as iget points at the oldest queued datagram, that is the one sent. |
| SigioEcho.EchoServer.Advance | SampleCode/unpv13e/sigio/dgecho01.c:67-68 | iget moves one slot around the ring and nothing else changes. |
| SigioProtocol.RunKeeps | SampleCode/unpv13e/sigio/dgecho01.c:57-73 | Invariant of every interleaving of arrivals, main loop and handler at any point where SIGIO is unblocked, from any backlog in the socket. |
| SigioProtocol.EchoedInArrivalOrder | SampleCode/unpv13e/sigio/dgecho01.c:57-73 | In every run, even one that overflows: datagrams arrived = echoed, then queued, then still in the kernel, in order; iput is nqueue slots after the oldest; nqueue < QSIZE unless the server has quit. |
| SigioProtocol.EchoedAsItCame | SampleCode/unpv13e/sigio/dgecho01.c:64-99 | In every run, for every k: the k-th datagram echoed carries all octets of the k-th that arrived, or the first 4096 of a longer one, and is sent to the address that one came from, with its length. |
| SigioProtocol.HistogramCounts | SampleCode/unpv13e/sigio/dgecho01.c:107 | In every run that has not quit, the histogram accounts for every datagram read: the entries, each times its index, and the datagrams in the kernel add up to those that arrived. |
| SigioProtocol.SlotBeingSentIsSpared | SampleCode/unpv13e/sigio/dgecho01.c:61-72 | A handler that interrupts the main loop while a datagram is being sent does not overwrite its slot. |
| SigioProtocol.OverflowsAtQsize | SampleCode/unpv13e/sigio/dgecho01.c:86-107 | In every reachable state: the handler quits if and only if queued and waiting datagrams are at least QSIZE; even then none is lost. The exit is spurious exactly at QSIZE: the ring then holds every one of them in order, no queued slot overwritten and the socket empty; with more than QSIZE no ring could hold them. A handler that returns leaves nqueue < QSIZE, and the number it read is a valid index of cntread. |
| SigioProtocol.EightArriveTogether | SampleCode/unpv13e/sigio/dgecho01.c:85-104 | The spurious exit is reachable: eight datagrams that arrive together are all stored, and the server quits. |
| SigioProtocol.StrandedExactly | SampleCode/unpv13e/sigio/dgecho01.c:45-59 | A sleeping server has a datagram in its socket and no signal to wake it if and only if one was there before FIOASYNC was set and none has arrived since. |
| SigioProtocol.StrandedStays | SampleCode/unpv13e/sigio/dgecho01.c:56-59 | In that state no step but an arrival changes anything, and an arrival raises the signal for all that is waiting. |
| SigioProtocol.EchoOldest | SampleCode/unpv13e/sigio/dgecho01.c:61-72 | A round of the main loop that no signal interrupts sends what the slot at iget holds, which is the oldest datagram, takes it off the queue, and leaves iget at the next one. |
| SigioProtocol.NoDatagramIsStranded | SampleCode/unpv13e/sigio/dgecho01.c:58-59 | Once a datagram has arrived after FIOASYNC was set, a server asleep in sigsuspend with a datagram in its socket has the signal pending, and goes on to send. |
| Prefork.Parent.Assign | SampleCode/unpv13e/server/serv05.c:54-62 | The first available child is marked busy, its count and navail follow; without one nothing changes. |
| Prefork.Parent.Collect | SampleCode/unpv13e/server/serv05.c:71-80 | The pass makes every child that select reported available again, and no other, although it stops early. |
| PreforkProtocol.PoolStaysConsistent | SampleCode/unpv13e/server/serv05.c:43-81 | In every run of parent and children, with what a child does, the descriptors in the pipe to it and the ready bytes in the pipe from it kept apart: every child is in just one of idle, one descriptor in its pipe, serving, one ready byte in its pipe; child_status is 0 exactly for idle children, navail counts them, and the exit "no available children" is unreachable. |
| PreforkProtocol.ConnectionsAccountedFor | SampleCode/unpv13e/server/child05.c:40-50 | The child_counts add up to the connections accepted, and those are the ones in pipes, being served or finished. |
| PreforkProtocol.AcceptKeeps | SampleCode/unpv13e/server/serv05.c:50-68 | When select has reported a connection, an idle child is found. |
| PreforkProtocol.CheckKeeps | SampleCode/unpv13e/server/serv05.c:71-80 | The scan never reads from a pipe that is empty, and never runs out of children before nsel. |
| PreforkProtocol.ScanCollects | SampleCode/unpv13e/server/serv05.c:71-80 | When no child moves meanwhile, the scan taken one child at a time is over after the last child reported and leaves the tables as `Collect` does. |
| PreforkProtocol.NeverStuck | SampleCode/unpv13e/server/serv05.c:44-47 | If select would wait although a connection is waiting, some child is busy and can take a step. |
| Pump.Client.RunTurn | SampleCode/unpv13e/nonblock/strclinonb.c:27-123 | One turn of the loop over the two arrays and four pointers does, for any readiness and any outcome of the calls, what `Pass` says, which `PumpTurns.TurnMoves` spells out. |
| Pump.Client.FlushSocket | SampleCode/unpv13e/nonblock/strclinonb.c:105-122 | A write that takes n bytes sends the first n bytes pending, or all, and keeps the rest; both pointers go back to the base when nothing is left, and then the FIN is sent if stdin is exhausted. |
| Pump.Client.HandleStdin | SampleCode/unpv13e/nonblock/strclinonb.c:42-62 | The read from stdin appends to the buffer, or records the end of stdin and sends the FIN if nothing is left to write. |
| Pump.PassKeeps | SampleCode/unpv13e/nonblock/strclinonb.c:27-123 | Every turn keeps: bytes conserved both ways, an empty buffer at its base, a read of 0 from stdin always a true end of file, and one FIN exactly when stdin is exhausted and written out. A turn that ends str_cli other than by a system error has met the true end of the server's stream, normally exactly if stdin had ended; and stdout that takes all leaves `fr` empty. |
| PumpTurns.TurnMoves | SampleCode/unpv13e/nonblock/strclinonb.c:27-123 | What any turn of the running loop does, in terms of the streams: it reads from stdin and from the socket the bytes they deliver, as far as they fit behind those in the buffer; it ends the program exactly when one of its four calls fails or the server has ended; one that goes on writes to the socket, and to stdout, the first bytes of what is pending, as many as are taken, and keeps exactly the rest. |
| Pump.BytesConserved | SampleCode/unpv13e/nonblock/strclinonb.c:42-122 | In every schedule of short reads, short writes and would-blocks, bytes written to the socket followed by those in `to` are the bytes read from stdin, likewise for stdout and `fr`; Shutdown is called at most once, and exactly when stdin has ended and all of it is written. |
| Pump.SilentAfterFin | SampleCode/unpv13e/nonblock/strclinonb.c:115-120 | After the FIN nothing is written to the socket, stdin is not read, and no second FIN is sent. |
| Pump.EachDirectionCanMove | SampleCode/unpv13e/nonblock/strclinonb.c:28-37 | No open direction is ever both unreadable and without anything to write. |
| Pump.ReturnMayDropOutput | SampleCode/unpv13e/nonblock/strclinonb.c:64-77 | When the turn that meets the end of the server's stream returns, stdout has all of it if and only if `fr` was empty when that turn entered select. |
| Pump.PromptStdoutLosesNothing | SampleCode/unpv13e/nonblock/strclinonb.c:83-103 | If stdout takes what it is offered in every turn, a normal return has written everything the server sent. |
| PumpTurns.PromptSocketSendsEverything | SampleCode/unpv13e/nonblock/strclinonb.c:105-122 | If the socket takes what it is offered in every turn, then after every turn, and on a normal return, all that was read from stdin has been sent, and the FIN has been sent exactly when stdin is at its end. |
| Pump.OutputDroppedForExample | SampleCode/unpv13e/nonblock/strclinonb.c:69-74 | And there is a run that returns with a byte of the server still in `fr`. |
| Gai.PassesExpand | SampleCode/unpv13e/libgai/ga_port.c:30-65 | After any number of passes with pairwise distinct nonzero socket types over a list built without one, each address has become one entry per type, next to each other, addresses in their order, and every pass has found each Internet address. |
| Gai.PassesServe | SampleCode/unpv13e/libgai/ga_port.c:30-65 | Field by field: entry j of an address has its family, octets and protocol, and the socket type and port of one service; the first is the original, the others are copies without AI_CLONE and canonical name, the latest service first; there is exactly one for each address and service. |
| Gai.PassServes | SampleCode/unpv13e/libgai/ga_port.c:39-62 | A pass over a list built for one socket type leaves one entry for each address, in order, with that type and the port of the service, and finds each Internet address. |
| Gai.StreamThenDatagram | SampleCode/unpv13e/libgai/ga_serv.c:23-31 | A numeric service with no socket type asked for gives twice as many entries as addresses: entry 2i has SOCK_STREAM and entry 2i + 1 SOCK_DGRAM, both with family, octets and protocol of address i and the port asked for. |
| Gai.ServiceStep | SampleCode/unpv13e/libgai/ga_serv.c:32-56 | With no socket type asked for, the service step fails if and only if no service was found or there is no Internet address. |
| GaiHeap.GaClone | SampleCode/unpv13e/libgai/ga_clone.c:8-30 | A fresh node linked behind the old one, equal but for AI_CLONE and the canonical name, with its own socket address. |
| GaiHeap.GaPort | SampleCode/unpv13e/libgai/ga_port.c:30-65 | The walk over a linked list that grows under it terminates, leaves a list without shared nodes or shared socket addresses that shows `Pass`, counts what it found, and allocates everything that is new. |
| GaiHeap.GaServNumeric | SampleCode/unpv13e/libgai/ga_serv.c:16-31 | One pass for a given socket type, stream and datagram passes otherwise, with the counts added. |
| GaiHeap.GaServNamed | SampleCode/unpv13e/libgai/ga_serv.c:32-48 | A pass for each of TCP and UDP that is wanted and known to getservbyname. |
| GaiHeap.GaServ | SampleCode/unpv13e/libgai/ga_serv.c:7-57 | The list after the passes the service calls for; EAI_NONAME or EAI_SERVICE exactly when they give no entry a port. |
| GaiHeap.Results.GaAistruct | SampleCode/unpv13e/libgai/ga_aistruct.c:8-88 | A new last node through the pointer to the last link, AI_CLONE set when no socket type is asked for; a local path that is too long fails after the node has been linked. |
| GaiHeap.Resolve | SampleCode/unpv13e/libgai/getaddrinfo.c:132-162 | From the addresses found to the result, for every socket type asked for: the list shows, in the order of the addresses, one entry for the type asked for, or a stream and then a datagram entry if none was, or the one of them that the service is known for; each with the address, the protocol, the socket type and the port of the service (0 without a service). The call succeeds exactly when an Internet address and a service of a wanted type were found, and otherwise returns EAI_NONAME or EAI_SERVICE. |
| GaiHeap.FoundWhen | SampleCode/unpv13e/libgai/ga_serv.c:13-56 | The passes give some entry a port if and only if there is a service of a wanted type and an Internet address among those found. |
| Checksum.InCksum | SampleCode/unpv13e/libfree/in_cksum.c:3-32 | The loop with its 32-bit accumulator, odd byte and two folds computes `Cksum` of the buffer, on hosts of either byte order. |
| Checksum.FoldKeepsValue | SampleCode/unpv13e/libfree/in_cksum.c:27-31 | The two folds leave no carry: the result is the complement of a value congruent to the accumulator modulo 65535, zero only for zero. |
| Checksum.ChecksumIsUnique | SampleCode/unpv13e/libfree/in_cksum.c:27-31 | What RFC 1071 asks of a checksum determines it. |
| Checksum.SumLaws | SampleCode/unpv13e/libfree/in_cksum.c:13-24 | What is summed: a pair of bytes counts as the 16-bit word that a host of either byte order has in memory there, a last odd byte as the first of a pair, and the parts of the data add up. |
| Checksum.NeverWraps | SampleCode/unpv13e/libfree/in_cksum.c:16-31 | Up to 131074 bytes the accumulator never wraps and the result is the checksum of the exact word sum, for odd lengths as well. |
| Checksum.CorrectUnlessWrapped | SampleCode/unpv13e/libfree/in_cksum.c:16-31 | For every length that an int can hold the result is the checksum if and only if the word sum is below 2^32. |
| Checksum.WrapsAt131076 | SampleCode/unpv13e/libfree/in_cksum.c:16-31 | The bound is tight: 131076 bytes of 0xff give 1 where the checksum is 0. |
| Checksum.OddTailIsPadded | SampleCode/unpv13e/libfree/in_cksum.c:21-25 | An odd last byte counts as if a zero byte followed. |
| Checksum.AcceptedExactly | SampleCode/unpv13e/udpcksum/udpwrite.c:50-53 | For an aligned field: a recomputation gives 0 if and only if the field holds the checksum taken with the field zero, or 0xffff in place of a checksum of 0. |
| Checksum.OrderDoesNotMatter | SampleCode/unpv13e/libfree/in_cksum.c:16-31 | Section 2(B) of RFC 1071: hosts of either byte order store the same checksum bytes. |
| Checksum.SwapCommutes | SampleCode/unpv13e/libfree/in_cksum.c:16-31 | Swapping the bytes of every word of the data swaps the bytes of the result. |
| UdpWrite.UdpWrite | SampleCode/unpv13e/udpcksum/udpwrite.c:28-72 | The field-by-field filling of the buffer, pseudo-header first, leaves a datagram laid out as `DatagramFields` says, with the data and what is behind it unchanged; its checksum field is 0xffff for a checksum of 0, and zero exactly when checksums are off. |
| UdpWrite.DatagramFields | SampleCode/unpv13e/udpcksum/udpwrite.c:34-69 | Where each field is: version and header length, total length in the byte order of the platform, 64 as time to live, protocol 17, both addresses and ports, the UDP length, the checksum, the data; zeros elsewhere, but for the UDP length left where the header checksum belongs. |
| UdpWrite.FillOverlay | SampleCode/unpv13e/udpcksum/udpwrite.c:34-48 | What is checksummed is the pseudo-header, the UDP header with a zero field, and the data. |
| UdpWrite.ReceiverAccepts | SampleCode/unpv13e/udpcksum/udpwrite.c:49-53 | RFC 768: a receiver of either byte order that prefixes its own pseudo-header gets 0 and never sees an empty field; no other nonzero value of the field passes. |
| UdpWrite.NoChecksum | SampleCode/unpv13e/udpcksum/udpwrite.c:49 | With zerosum set the field is sent as zero. |
| Deframe.ParseBuf.Append | SampleCode/netcalc/netcalc_clnt_v3.c:30-42 | The bytes go behind those held; the client quits exactly when they would pass BUF_SIZE, although the buffer is twice that. |
| Deframe.ParseBuf.GetAppMsg | SampleCode/netcalc/netcalc_clnt_v3.c:50-90 | The first complete message is moved out and the rest is shifted to the front in place; 0 exactly when no terminator is held. |
| Deframe.ParseBuf.OnSocket | SampleCode/netcalc/netcalc_clnt_v3.c:157-175 | The drain loop terminates, hands out every complete message in order, and holds what follows the last terminator. |
| Deframe.ParseBuf.Session | SampleCode/netcalc/netcalc_clnt_v3.c:141-176 | Over all reads of a connection, however the stream is cut, the messages are those of the whole stream, unless a read overflows the buffer. |
| Deframe.SurvivesExactly | SampleCode/netcalc/netcalc_clnt_v3.c:33-34 | The client quits if and only if some read does not fit behind the message that is unfinished when it arrives. |
| Deframe.SafeStreams | SampleCode/netcalc/netcalc_clnt_v3.c:144-160 | No way of cutting a stream into reads makes the client quit if and only if at every position the unfinished message and the largest read possible there fit BUF_SIZE. |
| Deframe.OverflowDependsOnReads | SampleCode/netcalc/netcalc_clnt_v3.c:33-34 | Of two ways to cut the same stream of messages of one and two bytes, one makes the client quit and the other does not. |
| Framing.MessagesCover | SampleCode/netcalc/netcalc_clnt_v3.c:63-89 | Messages and leftover together are the bytes received; each message ends in its only terminator, and the leftover has none. |
| Framing.MessagesRecovered | SampleCode/netcalc/netcalc_clnt_v3.c:63-89 | Any messages sent one after the other are recovered, with any unfinished rest. |
| Framing.MessagesInTwo | SampleCode/netcalc/netcalc_clnt_v3.c:82-86 | Keeping the leftover makes deframing independent of where the stream is cut. |
| Deframe.ReadAppMsg | SampleCode/netcalc/netcalc_util_soc.c:190-217 | The byte-at-a-time reader stores the bytes up to the terminator or to its limit, leaves the others, and returns the count of this variant. |
| Deframe.CountCases | SampleCode/netcalc/netcalc_util_soc.c:196-216 | The count and the bytes stored by where the terminator is: equal for a message that fits, one more than the bytes stored at the end of the stream and in a full buffer, 0 when there is nothing. |
| Deframe.CountTooHigh | SampleCode/netcalc/netcalc_util_soc.c:196-216 | The count differs from the bytes stored if and only if something is read and no terminator is within the limit. |
| Deframe.Requests | SampleCode/netcalc/netcalc_srv_v3.c:43 | On any stream the loop over readAppMsg hands out the pieces of the stream, each that does not end in the terminator with a byte too much; they are exactly the messages the parse buffer yields if and only if the stream ends at a boundary and every message is shorter than the buffer. |
| Framing.PiecesAreMessages | SampleCode/netcalc/netcalc_util_soc.c:196-216 | For any stream and limit: the bounded reader yields the messages if and only if none is longer than the limit and the stream ends at a boundary. |
| Readline.Rline.MyRead | SampleCode/unpv13e/lib/readline.c:8-26 | The next byte of what is buffered and unread together, however read splits the stream; interrupted reads are repeated. |
| Readline.Rline.Refill | SampleCode/unpv13e/server/readline_r.c:5-21 | A refill loses and repeats nothing, and fails only if a read failed other than by interruption. |
| Readline.Rline.ReadLine | SampleCode/unpv13e/lib/readline.c:28-49 | The line stored is the stream up to its newline or to the limit, NUL-terminated; handed out, buffered and unread bytes make up the stream; the count is that of this variant. |
| Readline.Rline.ReadLineR | SampleCode/unpv13e/server/readline_r.c:38-61 | The same line from the reentrant variant, with its own count; at the end of the input nothing is stored. |
| Readline.ReadLineSimple | SampleCode/unpv13e/server/readline.c:4-27 | The same line from the byte-at-a-time reader; it returns -1 if and only if one of the reads it makes for the line (one per byte, and one for the end of the input) is interrupted or fails. |
| Readline.OneInterruption | SampleCode/unpv13e/lib/readline.c:12-17 | For every stream and every schedule that starts with an interrupted read and has no failing one, the two buffered readers return the line and the byte-at-a-time reader returns -1. |
| Readline.LineCases | SampleCode/unpv13e/lib/readline.c:35-48 | The line stored and the counts of the variants by where the newline is: the line if it fits; at the end of the input what there is, plus one in the server variants; in a full buffer maxlen - 1 bytes, counted as maxlen by all. |
| Readline.CountsDiffer | SampleCode/unpv13e/lib/readline.c:40-48 | The count of lib/readline.c differs from that of the server variants if and only if an unfinished last line that fits the buffer is returned. |
| Readline.Rline.AllLines | SampleCode/unpv13e/lib/readline.c:28-49 | Repeated calls hand out the lines of the stream, whatever read does short of failing. |
| Readline.Rline.AllLinesR | SampleCode/unpv13e/server/readline_r.c:38-61 | And so do repeated calls of the reentrant variant: the same sequence of lines. |
| Readline.AllLinesSimple | SampleCode/unpv13e/server/readline.c:4-27 | And those of the byte-at-a-time reader. |
| Framing.PiecesCover | SampleCode/unpv13e/server/readline.c:11-23 | The lines make up the stream; each has at most maxlen - 1 bytes and no newline but at its end, and only the last can be cut short by the end of the input. |

## Left out

- The size checks of inet_ntop4 and inet_ntop6 against the destination: the text is modelled for a destination that is large enough.
- inet_pton and inet_ntop themselves, which only dispatch on the address family.
- Rounding of `float` in rtt.c: the estimator is over `real`.
- Rtt.RttInfo.Ts: the clock is a parameter in milliseconds; microseconds below a millisecond are not modelled.
- DgSendRecv.DgClient.SendRecv: an alarm that fires between `alarm` and `sigsetjmp` is not modelled, nor is one that interrupts a copy into the caller's buffer.
- DgProtocol.RepliesAreCurrent: datagrams from other hosts are not modelled; the client checks no sender address.
- Debug output of rtt.c, dg_send_recv.c and the netcalc programs.
- The critical sections of serv08.c and pthread08.c are single steps, as the mutex makes them; the mutex itself is not modelled.
- web_child, the body of a request, in the pools: a worker or child is serving until it is done.
- Children that die, failing system calls and failing allocation in serv05.c, child05.c and libgai (EAI_MEMORY).
- SigioProtocol.RunKeeps: SIGIO is enabled before the socket is made nonblocking and is blocked a little later, so a handler that runs in that window would wait in recvfrom; runs are taken to start with the socket nonblocking and SIGIO blocked.
- SIGHUP and SIGINT handlers that print statistics; in dgecho01.c SIGHUP only wakes sigsuspend.
- DNS, `ga_nsearch`, `ga_echeck`, numeric host strings and canonical names in getaddrinfo: `Resolve` starts from the addresses found. The result of getservbyname is an optional port.
- GaiHeap.Results.GaAistruct: the length of sun_path is a parameter, and the unlink of a passive local path is not modelled.
- The contents of socket addresses beyond address and port, and their lengths.
- UdpWrite.UdpWrite: the header checksum that the kernel fills in, Sendto, and the variant for old Solaris that is compiled out.
- The stdin side of doClient, buildReq and parseRes: their behaviour is that of sprintf and sscanf.
- Readline.Rline.ReadLine: lib/readline.c takes the descriptor with each call but has one buffer for all, so alternating two descriptors would hand out the bytes of one for the other; the model fixes the descriptor in the object, as readline_rinit does.
- readlinebuf, which exposes the buffer of lib/readline.c.
- The other programs of the repository: wrappers, daytime and echo clients and servers, multicast, SCTP, XTI, icmpd and the web clients.
