# Verified models of a network measurement system

The system measures flows in a network of twelve sites with senders, receivers and switches.
This project models the three parts of it that keep state and carry theorems over whole runs,
and proves what each is there for.

**The filter compiler** (libpcap 1.7.3 as vendored in the system). `Bpf` is the machine that
compiled filters run on; `Filter` gives expressions their meaning and a branch graph as a
value; `Blocks` is that graph on the heap, where the lists of unresolved exits are threaded
through the very fields that will later hold the branch targets and one bit per block says
which of its two fields is a link. A fragment is valid when its blocks hold the graph of its
expression that way; and, or and not keep this by updating links in place, `FinishParse` closes
the graph, and following the real pointers then returns what the expression evaluates to.
`FieldTests` and `WlanHosts` build leaf tests and an address filter on top. `Arithmetic`,
`Registers`, `Statements`, `ArithCode` and `Relations` compile arithmetic onto sixteen scratch
registers with statement lists appended in place, and `Queries` puts it all together: whole
filters over byte strings, addresses and relations, and what their graphs return. `Protochain`
is the one program with a backward jump and `HeaderWalk` what it does to a packet, `Chunks` the
allocator underneath.

**Routes.** `Topology` has walks, distances and the breadth-first labelling. `Routes` has the
equal-cost next hops towards a host and the multicast tree from one, `Delivery` what packets
do under them, `Ports` the rules of the switches, `Diamond` a graph on which they cannot all be
made, `Monitor` where to watch all paths between two hosts, `EarlyExit` the search that stops
at the destination.

**Measurement tables.** `ChainTable` is the hash table of sorted chains with its resumable
iterator, a plain map to its callers; `Remap` uses two of them to map addresses to senders.
`Sampling` is one bin of the switch's sample table over whole runs, `SampleTable` the table on
the heap. `Ledger` is the sender's book of packets over whole runs, `LossLedger` the linked
queues behind it. A table carries the list of everything done to it so far; its invariant says
that every bin or queue is as that run leaves it, so the lemmas about runs speak of the real
table. `Words`, `Bits` and `Finite` hold what is common to all.

What code and specification have in common is pinned down by laws that do not mention it: loads
and operators by bytes, numbers and bits (`Bpf.LoadReads`, `Bpf.AluNumbers`, `Arithmetic.SegmentRead`),
evaluation by truth (`Filter.EvalTruth`), the 802.11 addresses by frames split into fields
(`WlanHosts.FrameFieldReplies`), the walk over headers by packets put together of headers
(`HeaderWalk.AcceptsBuilt`), the rules by what the ports send where (`Ports.RulesOutput`,
`Ports.ConditionCopies`), a bin by the events of its flow (`Sampling.LevelSinceTaken`,
`Sampling.ChangesHands`), and flows by their fields (`Flow.Compare5Keys`).

Where the code does not do what one would expect, the model follows the code, and a lemma says
exactly where, usually with an input on which it happens: the right operand's protocol checks
are dropped (`Arithmetic.KeptSuffice`, `Relations.DroppedCheck`), the undirected 802.11 filter
rejects some short frames (`WlanHosts.EitherDirection`, `WlanHosts.CutOffFrame`), the receiver
and transmitter filters miss all control frames (`WlanHosts.ControlMissed`,
`WlanHosts.MissedCts`), a reversal of an equality test is ignored (`FieldTests.GenNcmp`),
fragment and authentication headers are stepped over to the wrong place
(`HeaderWalk.PlacesAgree`, `HeaderWalk.ReservedMatters`, `HeaderWalk.AhMatters`), an
authentication header can keep the program going for ever (`HeaderWalk.ForeverIsAhTwice`,
`HeaderWalk.NeverStops`), sizes close to 2^32 get an empty block (`Chunks.RoundUpHolds`), the
rule generator for condition packets fails on starved switches
(`Ports.RulesForConditionPackets`, `Diamond.Starves`), deleting the flow an iteration visited
last makes it pass over the next (`ChainTable.AheadRemove`), mapped addresses collide past
12 * 2^24 (`Remap.InjectiveUpTo`), and lost volumes are told modulo 2^32
(`Ledger.TotalsConserved`, `Ledger.LostUntold`).

Run `dafny verify dfyconfig.toml` in this directory to check everything.

## Model

| member | source | states |
|---|---|---|
| `Bpf.AluNumbers` | public_lib/libpcap-1.7.3/bpf/net/bpf_filter.c:495-517 | sum, difference and product of the machine are those of the numbers up to multiples of 2^32; quotient and remainder are those of the numbers and exist exactly for a divisor other than 0 |
| `Bpf.AluBits` | public_lib/libpcap-1.7.3/bpf/net/bpf_filter.c:519-537 | and, or, exclusive or and the shifts, bit by bit; a shift by more than 31 leaves no bit |
| `Bpf.Comparisons` | public_lib/libpcap-1.7.3/bpf/net/bpf_filter.c:463-493 | the tests of the machine compare the numbers, or ask for a bit that is on in both |
| `Bpf.LoadReads` | public_lib/libpcap-1.7.3/bpf/net/bpf_filter.c:267-305 | a load is the number that one, two or four captured bytes make, the first the highest, and nothing when they are not all captured |
| `Filter.CompileCorrect` | public_lib/libpcap-1.7.3/gencode.c:643-670 | for every expression, packet and machine state, following the compiled branch graph from its entry leaves by exactly the exit that left-to-right short-circuit evaluation answers, with the same machine, and rejects exactly when evaluation rejects |
| `Filter.EvalTruth` | public_lib/libpcap-1.7.3/grammar.y:338-342 | evaluation of tests that only look at the packet answers what and, or and not make of their truth |
| `Filter.CompileForward` | public_lib/libpcap-1.7.3/gencode.c:643-670 | every resolved edge goes forward and stays inside the graph, and the blocks are the tests of the expression in left-to-right order, each once |
| `Filter.RunPatched` | public_lib/libpcap-1.7.3/gencode.c:565-583 | joining a graph to another by its open exits of one kind runs the second exactly when the first leaves by that kind |
| `Filter.RunFlipped` | public_lib/libpcap-1.7.3/gencode.c:665-670 | flipping a graph's open exits negates its answer and nothing else |
| `Blocks.Block.constructor` | public_lib/libpcap-1.7.3/gencode.c:384-395 | a new block from zeroed memory is a whole fragment for its single test: both chains start and end at it |
| `Blocks.Backpatch` | public_lib/libpcap-1.7.3/gencode.c:565-583 | walks one chain of open exits through the fields that hold it, ends, and sends exactly the exits of that kind to the target; no other field changes |
| `Blocks.Merge` | public_lib/libpcap-1.7.3/gencode.c:587-599 | finds the last link of one chain and hangs the other chain on it; nothing else changes |
| `Blocks.HeldWalkable` | public_lib/libpcap-1.7.3/gencode.c:559-564 | in every fragment both chains start at the last block, and each block on a chain has its link in the field its `sense` bit names |
| `Blocks.SpliceHeld` | public_lib/libpcap-1.7.3/gencode.c:642-663 | after the pointer surgery of an and or an or, the blocks of both operands hold the joint graph, links and `sense` bits included |
| `Blocks.GenAnd` | public_lib/libpcap-1.7.3/gencode.c:642-652 | from two separate fragments makes one fragment for their conjunction, of exactly their blocks in order, with both chain invariants intact |
| `Blocks.GenOr` | public_lib/libpcap-1.7.3/gencode.c:654-663 | the same for the disjunction |
| `Blocks.GenNot` | public_lib/libpcap-1.7.3/gencode.c:665-670 | turns a fragment into one for the negation by flipping one bit |
| `FinishParse.PatchedBoth` | public_lib/libpcap-1.7.3/gencode.c:629-632 | backpatching the two chains one after the other, flipping `sense` in between, leaves no exit open |
| `FinishParse.FollowClosed` | public_lib/libpcap-1.7.3/gencode.c:629-632 | following the real pointers of the closed blocks agrees with running the graph, from every block |
| `FinishParse.ClosedReturns` | public_lib/libpcap-1.7.3/gencode.c:601-634 | from the root, through at most as many blocks as there are tests and one return block, the pointers lead to the accepting return exactly when the expression is true |
| `FinishParse.Close` | public_lib/libpcap-1.7.3/gencode.c:629-633 | whatever fragment is closed, the graph from its root computes its expression: its blocks are distinct and carry the tests in order, every pointer goes forward or to a return block, so no test runs twice, and the value returned is the snapshot length or 0 |
| `FinishParse.FinishParse` | public_lib/libpcap-1.7.3/gencode.c:601-634 | the same with the check for a per-packet header put in front, when there is one |
| `Parser.GenExpr` | public_lib/libpcap-1.7.3/grammar.y:338-342 | for every and/or/not expression the parser's calls end with one fresh fragment for it |
| `Parser.CompileFilter` | public_lib/libpcap-1.7.3/grammar.y:332-342 | whole filters: for every expression the finished graph returns the snapshot length for the packets the expression accepts and 0 for all others, and runs each test at most once, left to right |
| `FieldTests.GenNcmp` | public_lib/libpcap-1.7.3/gencode.c:772-800 | the filter compares the masked field at that place with the value, rejecting packets that do not reach that far; a reversal is obeyed for the order tests only |
| `FieldTests.ComparesNumber` | public_lib/libpcap-1.7.3/gencode.c:672-725 | what that comparison replies, in numbers and bits: the number of the bytes, with only the bits that are on in the mask, is equal, greater, at least or has a bit in common; greater and at least turn into their opposites under a reversal, the others stay |
| `FieldTests.GenBcmp` | public_lib/libpcap-1.7.3/gencode.c:727-764 | for every length: the filter holds of a packet exactly when its bytes at that place are the string, and rejects exactly the packets cut off before its end; it is null exactly for the empty string |
| `FieldTests.FieldBetween` | public_lib/libpcap-1.7.3/gencode.c:727-764 | a packet split into any front, a field and any rest has the string there exactly when the field is the string, and a string that reaches past the end is not there |
| `WlanHosts.SrcData` | public_lib/libpcap-1.7.3/gencode.c:3952-4022 | the nest of tests for data frames looks for the source address where table and DS bits put it |
| `WlanHosts.DstData` | public_lib/libpcap-1.7.3/gencode.c:4098-4137 | the same for the destination address |
| `WlanHosts.GenOneWay` | public_lib/libpcap-1.7.3/gencode.c:3931-4194 | the filter for one direction replies to every packet, of any length, as section 8.3.2.1 of IEEE Std 802.11-2012 lays down: frame type, DS bits and captured length all decide |
| `WlanHosts.GenWlanHostop` | public_lib/libpcap-1.7.3/gencode.c:3913-4328 | the same for source, destination, both and either, and for each address field: the reply to every packet is that of the address at its place, after the tests that the frame has it |
| `WlanHosts.EitherDirection` | public_lib/libpcap-1.7.3/gencode.c:4322-4327 | the undirected filter is the disjunction of the two directed ones except that it rejects a frame cut off before its source address ends, whatever its destination; says exactly which frames these are |
| `WlanHosts.CutOffFrame` | public_lib/libpcap-1.7.3/gencode.c:4322-4327 | such a frame for every address: a captured data frame that the destination filter accepts and the undirected one rejects |
| `WlanHosts.ControlMissed` | public_lib/libpcap-1.7.3/pcap-filter.manmisc:577-584 | the manual uses the receiver address in all but management frames, and the transmitter address in all of these that have a second address; the filters agree with that, on each packet, if and only if it is no control frame, or one without such an address, or one whose bytes there are captured and not the address asked for: they test a bit that is clear in control frames too |
| `WlanHosts.MissedCts` | public_lib/libpcap-1.7.3/gencode.c:4196-4221 | a clear-to-send frame for any given address that the receiver filter says no to |
| `WlanHosts.FrameFieldReplies` | public_lib/libpcap-1.7.3/gencode.c:4196-4320 | for every frame split into its fields: the filter for each numbered address accepts if and only if the frame has that address, told from the bits of the frame control, and it is the one asked for; receiver and transmitter are the first and the second |
| `WlanHosts.FrameHostReplies` | public_lib/libpcap-1.7.3/gencode.c:3931-4194 | for every such frame: the filters by direction accept if and only if the frame carries addresses and its source, its destination, both or one of them are the one asked for, the source being the second, third or fourth address and the destination the first or third as its type and DS bits tell |
| `Registers.Regs.AllocReg` | public_lib/libpcap-1.7.3/gencode.c:7069-7086 | succeeds exactly when a register is free, and hands out the first free one at or after the current register, going round |
| `Registers.Regs.FreeReg` | public_lib/libpcap-1.7.3/gencode.c:7091-7096 | gives back one register and no other |
| `Statements.Sappend` | public_lib/libpcap-1.7.3/gencode.c:6653-6664 | ends, makes one list of the two, and changes one link |
| `Arithmetic.MinusComputes` | public_lib/libpcap-1.7.3/gencode.c:7005-7021 | negation is 32-bit negation of the operand's value |
| `Arithmetic.BinComputes` | public_lib/libpcap-1.7.3/gencode.c:7023-7045 | the left operand survives the code of the right one, and the result is stored without touching registers in use before |
| `Arithmetic.LoadComputes` | public_lib/libpcap-1.7.3/gencode.c:6695-6919 | a load reads at the index value plus the offset of the header, for a transport header plus the length of the IPv4 header in front of it, and rejects exactly when one of the bytes needed is not captured |
| `Arithmetic.OperationValues` | public_lib/libpcap-1.7.3/grammar.y:654-671 | the value of an expression: constants and length as they are, operators on the values of both sides, minus what makes up for the value modulo 2^32, none when an operand has none |
| `Arithmetic.FixedReads` | public_lib/libpcap-1.7.3/gencode.c:6786-6852 | a load behind a fixed header is the number of the bytes at offset plus index |
| `Arithmetic.TransportReads` | public_lib/libpcap-1.7.3/gencode.c:6853-6894 | a load from a transport header is the number of the bytes at index plus four times the low half of the first byte of the IPv4 header, added in 32 bits |
| `Arithmetic.SegmentRead` | public_lib/libpcap-1.7.3/gencode.c:6853-6894 | in every packet that is a front, an IPv4 header of the length it says, and a segment, such a load is the number of the bytes of the segment at the index, and none when they are not all captured |
| `ArithCode.GenLoadi` | public_lib/libpcap-1.7.3/gencode.c:6983-7003 | compiles a constant exactly when a register is free |
| `ArithCode.GenLoadlen` | public_lib/libpcap-1.7.3/gencode.c:6967-6981 | compiles the packet length exactly when a register is free |
| `ArithCode.GenNeg` | public_lib/libpcap-1.7.3/gencode.c:7005-7021 | the list in place computes the negated expression into the same register |
| `ArithCode.GenArth` | public_lib/libpcap-1.7.3/gencode.c:7023-7045 | joins two code lists in place into code for the operation, and of the two registers keeps one |
| `ArithCode.GenLoad` | public_lib/libpcap-1.7.3/gencode.c:6695-6919 | turns index code into code for the load, behind the checks it calls for in the order the source joins them; it fails exactly when no register is free; what the load reads is in `Arithmetic.SegmentRead` and `Arithmetic.FixedReads` |
| `ArithCode.GenArith` | public_lib/libpcap-1.7.3/grammar.y:654-671 | for every arithmetic expression: compilation succeeds exactly when the registers it needs are free, and then its statements leave the 32-bit value in the result register, reject exactly when evaluation does, disturb no register in use before, and leave exactly one more in use |
| `Arithmetic.RelationMeans` | public_lib/libpcap-1.7.3/gencode.c:6921-6946 | the comparison's statements and jump answer whether the relation holds of the two values |
| `Arithmetic.SixOperators` | public_lib/libpcap-1.7.3/grammar.y:646-653 | each of the six operators compares the values of its sides, and rejects exactly the packets on which a side has none |
| `Arithmetic.KeptGuards` | public_lib/libpcap-1.7.3/gencode.c:7023-7045 | the check kept for an expression tests its kept protocol checks in order, and these are, one for one, those its loads call for exactly when no right operand calls for any: `gen_arth` drops the right operand's |
| `Arithmetic.KeptSuffice` | public_lib/libpcap-1.7.3/gencode.c:6948-6965 | of the two sides of a relation: passing the checks kept for them means passing every check their loads call for, whatever the checks mean, if and only if each of these is kept on one side or the other |
| `Arithmetic.CoveredChecksAll` | public_lib/libpcap-1.7.3/gencode.c:6948-6965 | then a packet that the joined checks let through is accepted by every check called for |
| `Relations.FilterChecksAll` | public_lib/libpcap-1.7.3/gencode.c:6921-6965 | and so is every packet that the relation's whole filter accepts, of which the relation then holds |
| `Relations.DroppedCheck` | public_lib/libpcap-1.7.3/gencode.c:2957-2969 | otherwise not: on raw IP the filter for `1 + ip[0] = 97` accepts an IPv6 packet, which the version check of its load refuses |
| `Relations.KeptElsewhere` | public_lib/libpcap-1.7.3/gencode.c:6948-6965 | in `1 + ip[0] = ip[0]` nothing is lost, although the left side alone loses its check |
| `Relations.GenRelation` | public_lib/libpcap-1.7.3/gencode.c:6921-6965 | the filter is the conjunction of the checks kept for both sides and then the relation, or its negation when reversed; both registers are given back |
| `Relations.CompileRelation` | public_lib/libpcap-1.7.3/grammar.y:434-437 | a whole relation compiles exactly when enough registers are free and leaves the registers as they were |
| `Queries.GenQuery` | public_lib/libpcap-1.7.3/grammar.y:332-437 | for every query over byte strings, host addresses and relations under and, or and not: it compiles exactly when each relation finds its registers, and then its filter replies to every packet as the query does |
| `Queries.CompileQuery` | public_lib/libpcap-1.7.3/grammar.y:332-437 | the finished graph of a query returns the snapshot length for exactly the packets the query says yes to, whatever the machine holds at the start |
| `Protochain.GenExtensions` | public_lib/libpcap-1.7.3/gencode.c:5658-5738 | the four extension-header tests all jump to the code that steps over the header |
| `Protochain.GenEnd` | public_lib/libpcap-1.7.3/gencode.c:5747-5818 | resolves the jumps that were left open |
| `Protochain.GenProtochain` | public_lib/libpcap-1.7.3/gencode.c:5594-5824 | emits the program for either protocol with every jump resolved |
| `HeaderWalk.ProgramWalks` | public_lib/libpcap-1.7.3/gencode.c:5594-5824 | on every packet, of any length, either program stops exactly when the walk over its headers ends, authentication headers and 32-bit sums included, and then accepts exactly when the walk has found the protocol |
| `HeaderWalk.StopsExactly` | public_lib/libpcap-1.7.3/gencode.c:5640-5818 | it stops if and only if the walk ends within 256 turns for each byte of the packet and one more; a longer walk has come back to where it was and never ends |
| `HeaderWalk.AhFreeStops` | public_lib/libpcap-1.7.3/gencode.c:5594-5738 | on every packet whose walk meets no authentication header before it is decided, whatever the reserved octets of its fragment headers, either program stops within a bound linear in the packet length and accepts exactly when the walk has found the protocol |
| `HeaderWalk.ForeverIsAhTwice` | public_lib/libpcap-1.7.3/gencode.c:5640-5818 | a run goes on for ever if and only if its walk meets an authentication header at the same place twice |
| `HeaderWalk.NeverStops` | public_lib/libpcap-1.7.3/gencode.c:5775-5818 | an IPv6 packet on which the program never stops: its authentication header leads back to itself, because that arm sets X without adding its old value |
| `HeaderWalk.PlacesAgree` | public_lib/libpcap-1.7.3/gencode.c:5690-5818 | the program looks at exactly the headers that the standards put there, for any number of turns, if and only if each header it steps over is plain: a fragment header with 0 in its reserved octet, an authentication header at place 0, and no sum past 2^32 |
| `HeaderWalk.FollowsStandard` | public_lib/libpcap-1.7.3/gencode.c:5594-5824 | on every packet whose headers are plain in that sense either program stops within a bound linear in the packet length and accepts exactly when the chain of section 4 of RFC 2460 and section 2.2 of RFC 4302 holds the protocol, all headers before it captured |
| `HeaderWalk.ChainOfBuilt` | public_lib/libpcap-1.7.3/gencode.c:5594-5824 | in an IPv6 packet put together of 40 octets, any list of extension headers each of its own length and naming the next, and any payload, the chain of the standards holds exactly the types of the headers and the protocol behind them |
| `HeaderWalk.AcceptsBuilt` | public_lib/libpcap-1.7.3/gencode.c:5594-5824 | on every such packet without authentication headers and with clear reserved octets the program accepts exactly these |
| `HeaderWalk.AcceptsIpv4` | public_lib/libpcap-1.7.3/gencode.c:5615-5824 | on every IPv4 packet that names no authentication header, unless that is what is looked for, the program accepts exactly the protocol named ten octets into the header |
| `HeaderWalk.ReservedMatters` | public_lib/libpcap-1.7.3/gencode.c:5690-5734 | otherwise not: a packet whose chain holds TCP by the standards, behind a fragment header, and which the program sent to look for TCP rejects |
| `HeaderWalk.AhMatters` | public_lib/libpcap-1.7.3/gencode.c:5775-5818 | the same behind an authentication header |
| `Chunks.RoundUpHolds` | public_lib/libpcap-1.7.3/gencode.c:332-337 | the rounded size is the next multiple of 8, except that the last few sizes wrap around to 0 |
| `Chunks.ChunksDouble` | public_lib/libpcap-1.7.3/gencode.c:340-350 | there are 16 chunks, the first of 1024 bytes and each twice the one before |
| `Chunks.Allocator.NewChunk` | public_lib/libpcap-1.7.3/gencode.c:323-355 | for every size: hands out a block of the rounded size, all zero, aligned, inside its chunk and apart from every other block of the round, long enough if and only if the size is at most 2^32 - 8; says exactly when it runs out and when it returns null |
| `Chunks.Allocator.Write` | public_lib/libpcap-1.7.3/gencode.c:323-355 | a write by a block's owner changes no other block and leaves what is still to be handed out zero |
| `Chunks.Allocator.FreeChunks` | public_lib/libpcap-1.7.3/gencode.c:357-368 | keeps the invariant although what is left of the chunks is not reset, so it holds over any number of rounds |
| `Topology.Label` | mininet_script/generate_rules_into_forwarding_table.py:140-157 | the labelling ends and gives every node that can be reached its distance, and no other node a label; it finds the nodes in the order of a breadth-first search |
| `Topology.OrderLists` | mininet_script/generate_rules_into_forwarding_table.py:140-157 | that order, by links alone: the source first, and then every node by the place of the first node that leads to it, and among those of one node by the first link to it |
| `Topology.LabelsAreDistances` | topology/generate_rules_into_forwarding_table.py:134-156 | labels made by a search stopped at a bound are distances up to one past it, and no nearer node is missed |
| `Routes.GetReversePreNodes` | mininet_script/generate_rules_into_forwarding_table.py:140-179 | the table of next hops towards a host, computed by the two worklist passes |
| `Routes.HopsAreNearer` | mininet_script/generate_rules_into_forwarding_table.py:140-179 | what that table holds, in terms of shortest walks alone: every node that can be reached but the host has a list, never empty, of exactly its neighbours one hop nearer, each once for each of its links |
| `Routes.HopsOnce` | mininet_script/generate_rules_into_forwarding_table.py:158-179 | no next hop is listed twice if and only if none is joined by several links |
| `Routes.GetForwardNextNodes` | mininet_script/generate_rules_into_forwarding_table.py:181-221 | the table is the multicast tree of the graph, computed by the two worklist passes |
| `Routes.TreeIsTree` | mininet_script/generate_rules_into_forwarding_table.py:181-221 | that is a spanning tree of shortest paths: every node reached has a list, every one but the source is in exactly one, once, and its owner is one hop nearer |
| `Routes.SameOrder` | mininet_script/generate_rules_into_forwarding_table.py:181-221 | the tree is expanded in the order in which the labelling pass finds the nodes, which depends on the graph alone |
| `Routes.FirstOwner` | mininet_script/generate_rules_into_forwarding_table.py:196-221 | every node reached is expanded once, and its children are exactly the nodes it is the first parent of in that order |
| `Routes.OneTree` | mininet_script/generate_rules_into_forwarding_table.py:181-221 | a graph has exactly one such tree from a source |
| `Delivery.ForwardingArrives` | mininet_script/generate_rules_into_forwarding_table.py:158-179 | whichever listed next hop each node picks, no node is visited twice, and the packet can only stop at the host, after exactly the distance |
| `Delivery.ForwardingIsShortest` | mininet_script/generate_rules_into_forwarding_table.py:158-179 | the same with distances measured by shortest walks |
| `Delivery.ShortestPaths` | mininet_script/generate_rules_into_forwarding_table.py:158-179 | the ways the table allows to the host are exactly the shortest paths |
| `Delivery.MulticastOnce` | mininet_script/generate_rules_into_forwarding_table.py:200-221 | copies sent along the tree reach every node exactly once |
| `Delivery.MulticastReachesAll` | mininet_script/generate_rules_into_forwarding_table.py:181-221 | the copies that arrive after k hops are one for each node at distance k, and none else |
| `Ports.SelectPorts` | mininet_script/generate_rules_into_forwarding_table.py:234-239 | one port for each next hop, in order, each joined to it |
| `Ports.SelectPort` | mininet_script/generate_rules_into_forwarding_table.py:253-257 | the port joined to the next hop |
| `Ports.RulesForNormalPackets` | mininet_script/generate_rules_into_forwarding_table.py:223-264 | each switch due a rule of the kind asked for, and no other node, gets the ports of its next hops; so, where no port of a switch is joined to two nodes, it outputs to a node if and only if that is a neighbour one hop nearer, and where single paths are asked for to exactly one of these |
| `Ports.RulesOutput` | mininet_script/generate_rules_into_forwarding_table.py:223-264 | that, in terms of ports, links and shortest walks alone, and which switches have a rule: all that can reach the host, or only those with several links that lead nearer |
| `Ports.HostNames` | mininet_script/generate_rules_into_forwarding_table.py:228-230 | nodes taken for hosts are exactly those whose names start with an h and a digit |
| `Ports.PortsDeliver` | mininet_script/generate_rules_into_forwarding_table.py:223-264 | where no port of a switch is joined to two nodes, forwarding by the ports of the rules is forwarding by next hop, so packets take shortest paths without loops and stop only at the host or where no rule is due |
| `Ports.RulesForConditionPackets` | mininet_script/generate_rules_into_forwarding_table.py:266-298 | the rules follow the tree, and when every switch sends by the ports of its rule the copies that arrive after k hops are one for each node at distance k; the generator fails if and only if some switch is starved, that is reached and first parent of none of its neighbours in the order of a breadth-first search, because it looks up the first child of every switch; with a host on every switch it does not fail |
| `Ports.ConditionCopies` | mininet_script/generate_rules_into_forwarding_table.py:266-298 | a packet that switches send by the ports of their rules, and hosts to their children in the tree, arrives at every node that can be reached, once and after as many hops as the node is far |
| `Ports.ChildlessIsStarved` | mininet_script/generate_rules_into_forwarding_table.py:196-221 | the switches without children in the tree are exactly the starved ones |
| `Ports.NoneChildless` | mininet_script/generate_rules_into_forwarding_table.py:266-298 | with a host on every switch, be it the source on a switch that leads further, every switch has a child |
| `Diamond.Starves` | mininet_script/generate_rules_into_forwarding_table.py:266-298 | a graph of eight nodes with a starved switch, on which the generator fails |
| `Ports.HostedSwitch` | mininet_script/generate_rules_into_forwarding_table.py:266-298 | a switch that another host than the source hangs on always has a child |
| `Monitor.ShortestFollows` | mininet_script/generate_monitor_tasks.py:184-223 | shortest paths are exactly the complete ways the next-hop table allows |
| `Monitor.Crossing` | mininet_script/generate_monitor_tasks.py:171-182 | every shortest path passes exactly one of the next hops where a forced way splits |
| `Monitor.SplitCuts` | mininet_script/generate_monitor_tasks.py:149-182 | where a forced way splits there is not one way only, and the next hops cut all shortest paths |
| `Monitor.SplitParts` | mininet_script/generate_monitor_tasks.py:149-182 | where a forced way over single links splits, the next hops are exactly the nodes to which shortest paths go on |
| `Monitor.GetSinglePathBetweenNodes` | mininet_script/generate_monitor_tasks.py:149-169 | answers true exactly when there is one shortest path, parallel links being told apart, and then its interior; ends with an exception exactly when the two nodes are the same or not connected |
| `Monitor.SimpleOneWay` | mininet_script/generate_monitor_tasks.py:149-169 | on graphs without parallel links that is the only shortest path |
| `Monitor.GetEcmpPathsBetweenNodes` | mininet_script/generate_monitor_tasks.py:171-182 | answers true exactly when there are several shortest paths, parallel links being told apart, and then two or more next hops: the nodes behind the first place where the shortest paths part, each once for each of its links, such that every shortest path passes exactly one; without parallel links they are all different and none is the destination |
| `EarlyExit.Explore` | topology/generate_rules_into_forwarding_table.py:134-156 | the search that stops at the destination has labelled it exactly when it can be reached |
| `EarlyExit.BackDone` | topology/generate_rules_into_forwarding_table.py:157-180 | the backward pass has entered exactly the steps of shortest paths |
| `EarlyExit.GetShortestPathsFromSrcToDst` | topology/generate_rules_into_forwarding_table.py:134-180 | keys are exactly the nodes but the destination on some shortest path, and their lists exactly the nodes that come next on one, each once for each link; fails exactly when the destination cannot be reached |
| `EarlyExit.EarlyExitAgrees` | topology/generate_rules_into_forwarding_table.py:134-180 | on the nodes it keeps, the next hops are those of the full search, as often: stopping early loses nothing |
| `Flow.CompareOrders` | public_lib/flow.c:55-87 | the comparison is a strict total order that separates all flows: by source address, then by destination address |
| `Flow.Compare5Keys` | public_lib/flow.c:11-46 | the five-tuple comparison, and likewise the key of the ledger, take two flows for the same if and only if both addresses and both ports are: the protocol is not looked at |
| `Flow.Compare5Orders` | public_lib/flow.c:11-46 | on these four fields the comparison is a strict total order, field by field |
| `ChainTable.BinsInsert` | public_lib/mt_hashtable_kFlowSrc_vInt.c:166-212 | linking an entry in at its place keeps every chain sorted and in its bin, and the table then means the map with the key entered |
| `ChainTable.BinsRemove` | public_lib/mt_hashtable_kFlowSrc_vInt.c:216-254 | linking an entry out keeps the chains and means the map without the key |
| `ChainTable.Table.Locate` | public_lib/mt_hashtable_kFlowSrc_vInt.c:142-146 | the walk ends at the place where the key is or belongs |
| `ChainTable.Table.Get` | public_lib/mt_hashtable_kFlowSrc_vInt.c:133-163 | returns the counter as a signed int, or -1: a non-negative answer means the flow is there with that counter, and says nothing only of counters from 2^31 on |
| `ChainTable.Table.Set` | public_lib/mt_hashtable_kFlowSrc_vInt.c:166-212 | the table then means the old map with the key set; an iteration under way is left as it was, except that it will also yield a key entered exactly if its place is behind the cursor |
| `ChainTable.AheadInsert` | public_lib/mt_hashtable_kFlowSrc_vInt.c:166-212 | what lies ahead of an iteration when an entry is linked in |
| `ChainTable.AheadRemove` | public_lib/mt_hashtable_kFlowSrc_vInt.c:240-250 | what lies ahead of an iteration when an entry is linked out: all but that entry, and its successor in the bin is lost too when the iteration stood on the entry |
| `ChainTable.Table.Del` | public_lib/mt_hashtable_kFlowSrc_vInt.c:216-254 | the table then means the old map without the key; an iteration under way loses exactly that key, or, when the key was the one visited last, exactly its successor in the bin |
| `ChainTable.Table.Refresh` | public_lib/mt_hashtable_kFlowSrc_vInt.c:78-106 | the table is empty and its cursor reset |
| `ChainTable.Table.Next` | public_lib/mt_hashtable_kFlowSrc_vInt.c:264-312 | yields the next of the entries that lie ahead of the cursor, with its counter, and leaves the rest ahead; with none ahead it returns -1 and resets |
| `ChainTable.Table.RemainingAre` | public_lib/mt_hashtable_kFlowSrc_vInt.c:264-312 | at every cursor an iteration has ahead exactly the keys of the map whose place is behind the cursor, bin by bin and in order, so each once |
| `ChainTable.Table.YieldsEachOnce` | public_lib/mt_hashtable_kFlowSrc_vInt.c:264-312 | from the reset cursor the entries ahead are all the flows of the map, each exactly once |
| `ChainTable.Table.Copy` | public_lib/mt_hashtable_kFlowSrc_vInt.c:314-325 | a separate table that means the same map, when the cursor is reset, and otherwise what the iteration had still to yield |
| `Remap.SenderIsNode` | pcapFileGenerator/srcip_dstip_to_b4_srcip_dstip.c:43-48 | the sender index of a mapped address is the node it was given exactly up to 12 * 2^24 addresses |
| `Remap.GoesRound` | pcapFileGenerator/srcip_dstip_to_b4_srcip_dstip.c:40-48 | the first new address is node 1's, and the first of its block; the nodes then take turns, with node 0 behind node 11, and after a round the address is the next one |
| `Remap.InjectiveUpTo` | pcapFileGenerator/srcip_dstip_to_b4_srcip_dstip.c:43-48 | mapped addresses are all different exactly when there are at most 12 * 2^24 of them |
| `Remap.Balanced` | pcapFileGenerator/srcip_dstip_to_b4_srcip_dstip.c:42-44 | the numbers of addresses given to any two nodes differ by at most one |
| `Remap.Remapper.GetMappedInfo` | pcapFileGenerator/srcip_dstip_to_b4_srcip_dstip.c:33-53 | an address is given node and address by its place in the order of first appearance, and the same ever after |
| `Remap.RunIsInjective` | pcapFileGenerator/srcip_dstip_to_b4_srcip_dstip.c:33-53 | after any run with at most 12 * 2^24 addresses, no two share a mapped address and each maps into its own node's block |
| `Sampling.DisplacedByHigher` | public_lib/mt_hashtable_kFlowSrc_fixsize.c:210-333 | in any state, a flow that has been counted is displaced only with replacement on and only by one of strictly higher level, and removed only by a delete of it or a reset |
| `Sampling.HoldsHighest` | public_lib/mt_hashtable_kFlowSrc_fixsize.c:210-333 | over every run with replacement on and a constant level for each flow, the flow in a bin has the highest level of all offered to it since it was last cleared |
| `Sampling.CountedSinceTaken` | public_lib/mt_hashtable_kFlowSrc_fixsize.c:175-333 | over every run a counter is the sum of what was added for its flow since it took the bin, modulo 2^32 |
| `Sampling.LevelSinceTaken` | public_lib/mt_hashtable_kFlowSrc_fixsize.c:210-333 | over every run, levels changing or not and replacement on or off, the flow that holds a bin has the level carried by the last event for it since it took the bin, 0 if none carried one, and the volume added for it since |
| `Sampling.ChangesHands` | public_lib/mt_hashtable_kFlowSrc_fixsize.c:210-359 | with levels changing, in terms of that level and volume: a bin is emptied exactly by a reset and by deleting its flow, and goes to another flow exactly with replacement on, by a packet of strictly higher level or by a signal other than 0 of a higher level, or of the same when the flow has not been counted yet |
| `Sampling.TakesEmpty` | public_lib/mt_hashtable_kFlowSrc_fixsize.c:175-333 | an empty bin is taken exactly by a packet of one of its flows, and with replacement on by a signal of a level above 0 |
| `Sampling.CountsCollisions` | public_lib/mt_hashtable_kFlowSrc_fixsize.c:210-333 | each packet, and each signal of a level other than 0, that finds another flow in its bin is one collision, and nothing else is; a reset sets the count to 0 |
| `Sampling.NeverOverCounts` | public_lib/mt_hashtable_kFlowSrc_fixsize.c:175-333 | no counter ever exceeds its flow's true volume |
| `Sampling.FirstComeFirstServed` | public_lib/mt_hashtable_kFlowSrc_fixsize.c:175-333 | with replacement off the table is the one in which the first flow added owns the bin until it is cleared, counted exactly up to 32 bits |
| `SampleTable.Table.AddValue` | public_lib/mt_hashtable_kFlowSrc_fixsize.c:175-208 | the table is as the run so far leaves it, this event included |
| `SampleTable.Table.AddValueAndUpdateSelectedLevelInfo` | public_lib/mt_hashtable_kFlowSrc_fixsize.c:210-263 | the same for a packet that carries its flow's level |
| `SampleTable.Table.SetSelectedLevel` | public_lib/mt_hashtable_kFlowSrc_fixsize.c:266-333 | the same for a condition packet; the flow that holds its bin has the new level and keeps its counter |
| `SampleTable.Table.Delete` | public_lib/mt_hashtable_kFlowSrc_fixsize.c:336-359 | the same for taking a flow out |
| `SampleTable.Table.Reset` | public_lib/mt_hashtable_kFlowSrc_fixsize.c:79-106 | the same for emptying the table |
| `SampleTable.Table.Get` | public_lib/mt_hashtable_kFlowSrc_fixsize.c:132-160 | level and counter of the flow exactly when it holds its bin |
| `SampleTable.Table.IsSampled` | public_lib/mt_hashtable_kFlowSrc_fixsize.c:162-172 | a flow only selected does not count as sampled |
| `SampleTable.Table.Next` | public_lib/mt_hashtable_kFlowSrc_fixsize.c:361-392 | the next held bin after the cursor, or none and the cursor reset |
| `Ledger.PacketsConserved` | public_lib/mt_hashtable_kFlow_vLinklist.c:131-256 | over every run each packet sent is reported received, found lost or still queued: exactly one of them |
| `Ledger.TotalsConserved` | public_lib/mt_hashtable_kFlow_vLinklist.c:131-256 | received + lost as told + still queued equals what was sent, modulo 2^32 always, and exactly if and only if no single report finds 2^32 bytes or more lost |
| `Ledger.LostUntold` | public_lib/mt_hashtable_kFlow_vLinklist.c:157-192 | a run in which 2^32 bytes are lost at once and the sender is told of none |
| `Ledger.Classified` | public_lib/mt_hashtable_kFlow_vLinklist.c:131-256 | in every run with increasing numbers, received are exactly the packets reported, lost exactly the unreported ones before the latest report, and the queue is the rest, in order |
| `LossLedger.Queue.Append` | public_lib/mt_hashtable_kFlow_vLinklist.c:218-228 | the packet is linked in at the end of its flow's queue |
| `LossLedger.Queue.Settle` | public_lib/mt_hashtable_kFlow_vLinklist.c:157-192 | unlinks the packets before the number and the one with it, and totals them |
| `LossLedger.AnsweredAt` | public_lib/mt_hashtable_kFlow_vLinklist.c:157-192 | what a report is answered, read off the queue: the packets before the number are lost, the one with it is received, the rest stay |
| `LossLedger.OtherFlows` | public_lib/mt_hashtable_kFlow_vLinklist.c:131-256 | what is done to one flow changes neither the packets nor the answer of any flow that differs from it in an address or a port |
| `LossLedger.SameFlows` | public_lib/mt_hashtable_kFlow_vLinklist.c:131-256 | flows that differ in neither share their packets |
| `LossLedger.Table.Set` | public_lib/mt_hashtable_kFlow_vLinklist.c:201-256 | every flow's queue is as the run so far leaves it, this packet included: it is last in its own flow's, and any flow that differs in an address or a port keeps its packets and its answers |
| `LossLedger.Table.GetReceLostVolume` | public_lib/mt_hashtable_kFlow_vLinklist.c:131-198 | returns what the run so far says of the report, takes the packets up to its number out, and leaves packets and answers of any flow that differs in an address or a port alone |

## Left out

- Packet capture, FIFOs, sockets, files, log output, and the shell commands the generated rules are made into.
- Reading topologies, settings and filter texts: the model starts from the graph that `read_topo` builds (links with two known ends, and no node without a link) and from parsed expressions.
- Locks and threads: each table operation is one step. `collision_times` is shared between bins under different locks in the original, and `ht_kfs_vi_get` reads the value after unlocking.
- Memory that runs out: a failed `malloc` is not modelled, except as the size limits of `newchunk`.
- The optimizer, the translation of blocks into instructions, the per-link-type offset tables, variable-length link-layer headers and Geneve: headers start at a constant offset.
- The hash functions: any function into the table's bins.
- `get_seqid_of_flow`, the other chained tables (the same algorithm with other values), random sampling, and the data analysis scripts.
- FinishParse.FinishParse: does not model `insert_compute_vloffsets`, which puts statements in front of the root for link types whose header has a variable length, and does nothing for the others.
- ArithCode.GenLoad: sizes other than 1, 2 and 4, and protocols that cannot be indexed, end compilation with an error before any code is made; headers behind a variable-length prefix are not modelled.
- Arithmetic.LoadComputes: the same, for the statements that a variable-length prefix adds.
- ArithCode.GenArith: the same, for expressions with such loads.
- Arithmetic.BinComputes: shifts by 32 or more are undefined in C; the model lets them shift every bit out, in the expression and in the code alike.
- Relations.GenRelation: does not claim that the relation is guarded by all the protocol checks its loads call for, because `gen_arth` drops those of right operands; `Arithmetic.KeptSuffice` says exactly when none is lost on either side.
- WlanHosts.GenWlanHostop: an undirected filter is not the plain disjunction of the directed ones; `WlanHosts.EitherDirection` says exactly where they differ.
- HeaderWalk.ProgramWalks: the link-type test that is and-ed in front of the program, and its place in a block, are not part of it.
- HeaderWalk.AhFreeStops: packets within 2048 bytes of 2^32 are left out, as X can wrap around in them; `HeaderWalk.StopsExactly` has no such bound.
- HeaderWalk.ForeverIsAhTwice: the same.
- HeaderWalk.AcceptsIpv4: with an authentication header named, `HeaderWalk.ProgramWalks` says what the program does.
- Ports.ConditionCopies: hosts have no rules, and are taken to send to their children in the tree; in the generated topologies only the source has any.
- HeaderWalk.FollowsStandard: says nothing of packets with other headers, for which `HeaderWalk.AhFreeStops` and `HeaderWalk.StopsExactly` say when the program stops; one way only; where a header is not plain the program reads elsewhere, and may find the same protocols there by chance, so the exact condition is stated of the headers looked at, in `HeaderWalk.PlacesAgree`.
- Chunks.Allocator.NewChunk: after running out of chunks no more is asked for until all is freed, as in the original, which leaves by `longjmp`.
- Queries.GenQuery: port, network and protocol primitives are not among its leaves.
- ChainTable.Table.Get: counters from 2^31 on come back negative, as the conversion to `int` makes them on the machines in use.
- LossLedger.Table.Set: the chain of entries in a bin is modelled as a map by key, which is what `ChainTable` proves of such chains; the queues of packets are linked on the heap. The total `lost_pkt_num` is modelled modulo 2^32.
- LossLedger.Table.GetReceLostVolume: the walk to the flow's entry in its bin is a lookup in that map.
- Sampling.HoldsHighest: says nothing of runs in which a flow's level changes, for which `Sampling.LevelSinceTaken` and `Sampling.ChangesHands` say what the level is and when a bin changes hands, or in which packets that carry no level are mixed with negative levels.
- SampleTable.Table.AddValue: the count of collisions is unbounded, where the original has an `int`.
- Remap.Remapper.GetMappedInfo: the count of addresses is unbounded, where the original has 64 bits; the hash map sizes are parameters.
