# IVS: a verified model of the megaflow cache and its index structures

IVS is an OpenFlow switch. It decides what to do with a packet by walking up to
sixteen flow tables, and it caches each decision in the kernel as a *megaflow*: a
key, a mask of the bits that mattered, kernel actions and statistics handles. This
project models the chain that makes the cache right, and the data structures under
it, and proves what the code promises about them.

The argument runs through the modules like this.

- **Tables to configuration.** `FlowMatch` turns OpenFlow matches into keys and masks,
  `MatchMeaning` says which packets such an entry accepts, `FlowTables` keeps flow tables
  whose goto targets only lead forward, and `TablesMakeConfig` says that such tables form
  a configuration the packet theorems apply to.
- **Packet path.** `ActionContext` and `StandardPipeline` are the code (an object with
  mutable fields, loops over tables, attributes and buckets). They are proved equal to
  the functions of `Actions`, `Cfr`, `Pipeline` and `Decision`.
- **Two-packet soundness.** `ActionSoundness`, `CfrSoundness`, `PipelineSoundness`,
  `MegaflowExactness`, `TtlRuns`, `TtlExactness` and `Decision` prove that two packets
  that agree on the mask of the first are treated alike. The debug self-test of the flow
  cache samples this on two random packets; here it is stated for all of them. Two
  branches of the code break it, and for each the exact condition is proved; `EarlyTables`
  builds flow tables that lead to the second. `ActionMasks`, `MaskTightness` and
  `DecisionMask` are the other half: a mask holds no more than was read or written.
- **Meaning.** `ActionRefinement` proves that the lazy, coalesced kernel actions do to a
  packet what applying each action at once would do. `FieldWrites` says bit by bit what an
  action list leaves in the canonical fields; `CfrRewrite` and `ListRewrite` compare that
  with reading the rewritten packet again. `TableMeaning` puts these together: it defines
  the trip of a packet through sixteen tables and the in-band shortcut without any of the
  code's own functions for walking, committing or rewriting, and proves that the kernel,
  given the decision, sends just those packets and charges just those handles.
  `Constants` gives the bit sets of the model as the numbers of the headers.
- **Cache and barrier.** `Kflow` is the flow cache with its three indexes, statistics and
  netlink failures; `CacheCoherence` combines it with the packet theorems; `Barrier` is
  the scheduler that decides when a barrier reply may be sent; `EndToEnd` puts tables,
  cache and scheduler together.
- **Index structures.** `SoftTcam`/`Tcam`, `Probing`/`L2Table`, `RobinHood`/`RobinTable`,
  `Xbuf`/`XbufBuffer`/`NextPow2`, `Stats` and `Groups`.

How the model reads the code:

- Keys and masks are sequences of cells, a cell being the set of its one bits. Cells
  hold the value a field has on the wire. The transport headers overlap in the same
  cells, as the union in the key does; the network headers have cells of their own.
- Hash functions (murmur) are arbitrary functions. A Bloom filter is what was added to
  it plus an arbitrary set of wrong answers.
- The kernel is a map from keys to flows with counters. Any netlink call may fail.
- A key as the kernel spells it is what parsing keeps of it plus the rest.
- Pointers to entries are identities; lists are sequences.
- Classes carry the state that the C and Lua code changes in place. Their `Valid()` is
  the invariant that every operation keeps, so it holds in every run; the two operations of
  the L2 table that can break it say exactly when.

Results where the code falls short of what it might promise:

- `DEC_NW_TTL` returns early when the TTL or the hop limit runs out and leaves it
  unmasked. A decision is right for its whole megaflow exactly when the protocol branch is
  decided and the mask covers the TTL or TTL 0 and TTL 255 are decided alike
  (`DecisionRightExactly`); for a flow that decrements and sends, exactly when the TTL
  survives (`DecThenOutputSettledExactly`, `DecTtlSoundExactly`).
- The last step of the mask translation branches on a protocol that may be unmasked
  (`DecidedByTables`). Matches from OpenFlow 1.2 on never lead there (`LateScoped`).
  Earlier ones are scoped only if they leave the ports alone or name the protocol
  (`EarlyScopedExactly`). A packet without transport header that misses the first table is
  decided wrongly exactly when the table looks at ports that show and not at the protocol
  (`MissRightExactly`, `UnscopedTableIsWrong`); `PortOneConfig` builds such tables from one
  OpenFlow 1.0 flow on a port, with a later fragment as the packet.
- The lazy commit loses the second of two pops on a packet with two tags (`OneTagIsExact`).
- The entry of a match also accepts two kinds of packet the match does not describe: later
  fragments, when the ports asked for are zero, and ARP packets whose opcode differs in the
  high byte (`EntryMeaning`, `EntryMeaning10`, `FragmentLooksLikePortZero`, `OpcodeIsCut`).
- Between tables, IPv4 addresses and ports are rewritten without the byte swap that the
  packet key gets, a pushed or popped tag is not seen at all, and a field of a header that
  the packet lacks is written all the same. `Cfr` follows the code;
  `RewriteIsReparseExactly` says exactly when it equals a re-parse of the rewritten key,
  `ListIsReparseExactly` says it for every action list, and `PortEightyIsSwapped`
  and `MissingHeaderShows` are inputs where it does not.
- From VLAN id 0x8000 on, bit 63 of an L2 key is set and the table takes the slot for
  unoccupied (`OccupiedIffVlanFits`): an insertion then reports success and stores nothing,
  and the table stays valid exactly when the operation is refused (`L2Table.Table.Insert`,
  `L2Table.Table.Remove`). Removing the key that equals the free marker takes a free slot
  away; without one a probe for an absent key never ends (`EndlessExactly`,
  `RemoveStopsLookups`).
- Reusing a tombstone of the Robin Hood table can hide a key. A lookup finds exactly the
  entries that `Findable` describes (`RobinTable.Table.Lookup`); after seven insertions, a
  removal and an insertion one live key is not among them (`TombstoneReuseHides`,
  `HiddenKey`).
- The TCAM of the cache takes a tagged packet's key for covered by the flow of an untagged
  one whose decision did not look at the tag (`TagIsCovered`), although popping the tag is
  an action for the one and none for the other (`PopIsSkipped`).
- An attribute whose header and payload exceed 16 bits does not read back
  (`LeafReadsBackExactly`).

## Model

| member | source | states |
|---|---|---|
| `EndToEnd.RevalidateRight` | modules/OVSDriver/module/src/barrier.c:114-134 | over tables of any version reached by any flow-mods: once the scheduler has revalidated, nobody is blocked, and every managed kernel flow does to every packet it covers what the flow tables now say exactly when the decision on its own key is settled; then the packets with at most one tag leave as `TableMeaning.DecisionMeans` says. From OpenFlow 1.2 on only a TTL can be unsettled, and without TTL decrements nothing |
| `CacheCoherence.RevalidatedCacheIsRight` | modules/OVSDriver/module/src/kflow.c:413-437 | after a revalidation every cached flow has a well-formed key, its kernel copy is the same, and both give every packet they cover what the pipeline gives it now exactly when the decision on the flow's key is settled |
| `CacheCoherence.FlowRightExactly` | modules/OVSDriver/module/src/kflow.c:583-635 | a flow that is right for its own key is right for all it covers if and only if its decision is settled |
| `CacheCoherence.ScopedFlowRight` | modules/OVSDriver/module/src/kflow.c:583-635 | over scoped tables that is a matter of the TTL alone, and without TTL decrements every such flow is right |
| `CacheCoherence.RightIsDecisionRight` | modules/OVSDriver/module/src/kflow.c:583-635 | being right for all covered packets, said of a cached flow and said of the pipeline's decision, is the same |
| `CacheCoherence.RightFlowMeans` | modules/OVSDriver/module/src/kflow.c:583-635 | a flow that is right for all it covers makes the kernel send every covered packet with at most one tag, and charge, as the tables mean |
| `CacheCoherence.RightForCovered` | modules/OVSDriver/module/src/kflow.c:102-111 | the packets a flow must be right for are those the TCAM matches to it whose key has no attribute that the flow's key lacks |
| `CacheCoherence.TagIsCovered` | modules/OVSDriver/module/src/kflow.c:102-111 | a flow of an untagged packet that did not look at the tag covers the same packet with every tag |
| `CacheCoherence.PopIsSkipped` | modules/action/module/src/action.c:207-215 | where both hit a flow that pops and sends, the untagged packet's actions pop nothing and the tagged one's do |
| `Decision.DecisionSound` | modules/OVSDriver/module/src/kflow.c:592-635 | if the first decision is settled (the shortcut, or the mask decides the protocol branch and covers the TTL unless TTL 0 and TTL 255 are decided alike), two well-formed packets with the same populated bitmap that agree on its mask get the same actions, mask and statistics handles |
| `Decision.DecisionRightExactly` | modules/pipeline/module/src/pipeline.c:123-170 | for every well-formed packet the decision is right for its whole megaflow exactly when it took the in-band shortcut, or the mask decides the protocol branch and either covers the TTL or the decision is the same with TTL 0 and with TTL 255 |
| `Decision.BetweenExtremes` | modules/pipeline_standard/module/src/action.c:118-140 | if a packet is decided alike with TTL 0 and with TTL 255 and the mask leaves the TTL out, it is decided alike with every TTL |
| `Decision.DecThenOutputSettledExactly` | modules/pipeline_standard/module/src/action.c:118-136 | where the packet's only flow decrements the TTL and then sends, the TTL is settled exactly when it survives the decrement |
| `Decision.ScopedIsSettled` | modules/pipeline/module/src/pipeline.c:123-170 | over scoped tables a decision is settled exactly when its TTL is |
| `Decision.NoDecIsSettled` | modules/pipeline/module/src/pipeline.c:123-170 | a way on which no flow decrements a TTL leaves no TTL to settle |
| `Decision.RouteTwins` | modules/pipeline/module/src/pipeline.c:131-165 | packets that agree on the mask take the same way, in-band shortcut or tables, with contexts in step |
| `Decision.UnsettledIsWrong` | modules/pipeline_standard/module/src/pipeline_standard.c:141-275 | an unsettled decision is wrong for some packet of the same megaflow: one of another protocol, or the same packet with TTL 0 or 255 |
| `Decision.MissRightExactly` | modules/pipeline_standard/module/src/pipeline_standard.c:217-275 | a packet with a network and no transport header that misses the first table is decided rightly for its megaflow exactly when the table looks at the protocol, or at no port beyond what the sender address of ARP masks in the same bytes |
| `EarlyTables.UnscopedTableIsWrong` | modules/pipeline_standard/module/src/pipeline_standard.c:217-275 | said of a flow table object reached by flow-mods: port matches, no protocol match and, for ARP, no address match make the decision wrong |
| `EarlyTables.PortOneTable` | modules/pipeline_standard/module/src/cfr.c:156-171 | one OpenFlow 1.0 flow on destination port 1 makes such a table, and a later fragment of a TCP segment misses it |
| `EarlyTables.PortOneConfig` | modules/pipeline_standard/module/src/pipeline_standard.c:217-275 | sixteen tables built by the code's own calls, with that fragment decided wrongly for its megaflow |
| `StandardPipeline.Decides` | modules/pipeline/module/src/pipeline.c:123-170 | the code with its in-band branches returns the specified decision, and with it the kernel does to every packet with this key and at most one tag what `TableMeaning.Means` says: on each in-band branch the one packet sent, its tag and its queue; otherwise the packets, ports and handles of its trip through the tables |
| `StandardPipeline.ProcessPacket` | modules/pipeline_standard/module/src/pipeline_standard.c:141-215 | the table loop ends and leaves the specified actions, mask and statistics |
| `StandardPipeline.LookupTable` | modules/pipeline_standard/module/src/pipeline_standard.c:167-171 | one table gives the best matching entry and adds all its masks |
| `StandardPipeline.UseTable` | modules/pipeline_standard/module/src/pipeline_standard.c:171-203 | what a hit or a miss appends to actions and statistics, by OpenFlow version and table-miss flag; `TableMeaning.MissSends` and `TableMeaning.WalkMeans` say what that does to a packet |
| `StandardPipeline.RewriteCfr` | modules/pipeline_standard/module/src/pipeline_standard.c:306-363 | after the attribute loop every bit of every canonical field holds what the last action writing it wrote, and a bit that none writes is as before |
| `TableMeaning.DecisionMeans` | modules/pipeline/module/src/pipeline.c:123-170 | for every configuration and every packet with at most one tag, the kernel running the decided actions sends the packets of the reference, to its ports and in its order, and the decision charges its handles |
| `TableMeaning.WalkMeans` | modules/pipeline_standard/module/src/pipeline_standard.c:141-215 | from any table on: the best matching entry, its actions at once, goto with the fields its actions leave, and at a miss the upcall |
| `TableMeaning.MissSends` | modules/pipeline_standard/module/src/pipeline_standard.c:171-186 | a packet that no entry of the first table matches: before version 1.3 one upcall with reason NO_MATCH and the packet unchanged, from 1.3 on nothing, and in both the handle of missed packets |
| `TableMeaning.LookupWins` | modules/pipeline_standard/module/src/pipeline_standard.c:167-171 | the entry used matches and no matching entry has a higher priority; none is used exactly when none matches |
| `TableMeaning.UplinkSends` | modules/pipeline/module/src/pipeline.c:137-146 | an in-band packet from an uplink leaves untagged through port 1000 |
| `TableMeaning.DownlinkSends` | modules/pipeline/module/src/pipeline.c:148-163 | a packet from port 1000 leaves through the uplink with the in-band VLAN in its one tag, its priority bits kept and the queue set, or not at all without an uplink |
| `TableMeaning.JourneyOnce` | modules/pipeline_standard/module/src/pipeline_standard.c:141-215 | when no two entries of a table tie, the reference leaves no choice: one end for every packet |
| `FieldWrites.UpdateRewrites` | modules/pipeline_standard/module/src/pipeline_standard.c:306-363 | the function that the loop computes has this bitwise meaning for every action list |
| `FieldWrites.OneWrite` | modules/pipeline_standard/module/src/pipeline_standard.c:314-360 | which bits of which field each action writes, in the byte order the code stores them |
| `FieldWrites.LastWriteIs` | modules/pipeline_standard/module/src/pipeline_standard.c:306-363 | said of positions: a write with no later one to its bit stays, and a bit nobody writes stays |
| `FieldWrites.RewrittenOnce` | modules/pipeline_standard/module/src/pipeline_standard.c:306-363 | this fixes the result |
| `PipelineSoundness.ProcessTwins` | modules/pipeline_standard/module/src/pipeline_standard.c:141-215 | packets that agree on the final mask, and on TTLs that may be decremented, visit the same tables, hit the same entries and collect the same table mask |
| `PipelineSoundness.WalkTwins` | modules/pipeline_standard/module/src/pipeline_standard.c:165-210 | the same from any table on, although set-field actions rewrite the fields between tables |
| `PipelineSoundness.LookupAgree` | modules/pipeline_standard/module/src/pipeline_standard.c:170-171 | fields that agree on the table's mask find the same entry |
| `TtlRuns.WalkBehind` | modules/pipeline_standard/module/src/pipeline_standard.c:165-210 | of two packets that differ in their TTL, as long as the mask leaves it out, the one with the larger TTL does along all tables what the other does: same kernel actions, same mask, and at least its statistics handles |
| `TtlRuns.TranslateBehind` | modules/pipeline_standard/module/src/action.c:41-222 | the same along every action list, nested groups, early returns and set TTLs included |
| `TtlRuns.TranslateSilent` | modules/pipeline_standard/module/src/action.c:41-222 | once an IP header is modified, a run either puts its TTL in the mask or emits nothing more |
| `TtlExactness.ProcessBehind` | modules/pipeline_standard/module/src/pipeline_standard.c:141-275 | the same for the whole pipeline: such packets differ in statistics only, and the protocol branch is decided for both or neither |
| `MegaflowExactness.ProcessSound` | modules/pipeline_standard/module/src/pipeline_standard.c:141-275 | when the protocol branch is decided by the mask and TTLs that may be decremented are covered or equal, the whole result is the same, translated mask included |
| `MegaflowExactness.ScopedTablesDecide` | modules/pipeline_standard/module/src/pipeline_standard.c:217-275 | if every match on ports also matches on the protocol, the branch is always decided |
| `MegaflowExactness.DecidedByTables` | modules/pipeline_standard/module/src/pipeline_standard.c:217-275 | for a packet with a network and no transport header the branch is decided exactly when the ports add nothing, the tables looked at the protocol, or the context masks the protocol already |
| `MegaflowExactness.MissDecidedExactly` | modules/pipeline_standard/module/src/pipeline_standard.c:217-275 | for a miss in the first table this is exactly whether the table looks at the protocol, or at no port that shows |
| `MegaflowExactness.UndecidedDiffers` | modules/pipeline_standard/module/src/pipeline_standard.c:259-271 | where it is not decided, a packet of another protocol in the same megaflow gets another mask |
| `MegaflowExactness.UndecidedUnmasked` | modules/pipeline_standard/module/src/pipeline_standard.c:229-257 | an undecided protocol is not masked at all, because masks of the protocol are all or nothing |
| `CfrSoundness.CfrCovered` | modules/pipeline_standard/module/src/cfr.c:34-109 | the translated mask covers every key bit that the masked canonical fields were read from |
| `MaskTightness.TranslatedExactly` | modules/pipeline_standard/module/src/pipeline_standard.c:217-275 | the translated mask has in every cell exactly the old bits and those the tables looked at there, or the whole cell where the kernel takes no partial mask |
| `MaskTightness.AddedBitIsNeeded` | modules/pipeline_standard/module/src/pipeline_standard.c:217-275 | a bit added to a cell that the packet's fields show is needed: with it changed the tables would see other fields |
| `MaskTightness.PlaceShows` | modules/pipeline_standard/module/src/cfr.c:34-109 | which field shows which cell, bit by bit, a tag with bit 12 set |
| `DecisionMask.DecisionMaskExactly` | modules/pipeline/module/src/pipeline.c:123-170 | outside the headers that the decision reads by itself and those that flows on the packet's way write, the mask of the decision is exactly what the tables on the way look at |
| `DecisionMask.WalkMasks` | modules/pipeline_standard/module/src/pipeline_standard.c:165-210 | along all tables: the fields' mask is what the visited tables look at, and the packet's mask gains only touched headers |
| `DecisionMask.ShortcutMask` | modules/pipeline/module/src/pipeline.c:137-165 | an in-band packet is decided by its ingress port, its tag and the queue written, nothing else |
| `ActionMasks.TranslateWithin` | modules/pipeline_standard/module/src/action.c:41-222 | every action list, nested groups included, masks only headers that its actions write or that were modified before, and the ingress port where it is told to somebody |
| `ActionMasks.ToldPortIsMasked` | modules/action/module/src/action.c:54-93 | a packet sent to userspace or back to its port has its whole ingress port in the mask |
| `CfrSoundness.UpdateClose` | modules/pipeline_standard/module/src/pipeline_standard.c:306-363 | rewriting the fields of two packets never makes them differ in a bit where they did not differ before |
| `CfrRewrite.RewriteIsReparseExactly` | modules/pipeline_standard/module/src/pipeline_standard.c:306-363 | rewriting the canonical fields equals changing the key and reading it again exactly when, with the header there, neither a byte swap nor a change of tag intervenes or, without it, the fields already hold the value |
| `CfrRewrite.WellFormedIsPlain` | modules/pipeline_standard/module/src/cfr.c:34-109 | every well-formed key is one that the previous row speaks of |
| `CfrRewrite.PortEightyIsSwapped` | modules/pipeline_standard/module/src/pipeline_standard.c:332-336 | on every TCP packet setting the destination port to 80 makes the two differ |
| `CfrRewrite.MissingHeaderShows` | modules/pipeline_standard/module/src/pipeline_standard.c:318-320 | on every IPv6 packet setting the IPv4 destination 1.0.0.1, which no byte swap changes, makes them differ |
| `ListRewrite.ListIsReparseExactly` | modules/pipeline_standard/module/src/pipeline_standard.c:306-363 | for every action list: rewriting the fields equals reading the packet as the list leaves it exactly when each bit ends the same by the last write and by the last action that shows in the packet's own header |
| `ListRewrite.ListIsReparse` | modules/pipeline_standard/module/src/pipeline_standard.c:306-363 | so along a list none of whose actions meets a case where the two differ |
| `ListRewrite.ListShows` | modules/pipeline_standard/module/src/cfr.c:34-109 | what every bit of the fields is when the packet is read again after any list of set-field actions |
| `MatchMeaning.EntryMeaning` | modules/pipeline_standard/module/src/cfr.c:111-233 | from OpenFlow 1.2 on, with the prerequisites met: the entry accepts every packet that has all the fields asked for with the values asked for, and exactly two other kinds, later fragments when the ports asked for are zero and ARP packets whose opcode differs in the high byte |
| `MatchMeaning.EntryMeaning10` | modules/pipeline_standard/module/src/cfr.c:134-171 | for OpenFlow 1.0 the same, with the three kinds of VLAN match and the network fields it shares between IPv4 and ARP; the fragments are the only other packets accepted |
| `MatchMeaning.FragmentLooksLikePortZero` | modules/pipeline_standard/module/src/cfr.c:90-105 | every TCP fragment without ports is accepted by the match on TCP source port zero |
| `MatchMeaning.OpcodeIsCut` | modules/pipeline_standard/module/src/cfr.c:215-217 | every ARP packet with an opcode above 255 is accepted by the match on the low byte of that opcode |
| `MatchMeaning.VlanMeaning` | modules/pipeline_standard/module/src/cfr.c:150-154 | the packed VLAN cell agrees exactly when VLAN id with its present bit and priority agree one by one |
| `MatchMeaning.NetworkMeaning` | modules/pipeline_standard/module/src/cfr.c:172-224 | the network cells agree exactly when every IP and ARP field asked for is in the packet and agrees |
| `MatchMeaning.TransportMeaning` | modules/pipeline_standard/module/src/cfr.c:194-214 | the port cells agree exactly when the ports asked for are in the packet and agree, or are zero and absent |
| `FlowMatch.MatchToCfr` | modules/pipeline_standard/module/src/cfr.c:111-233 | a match becomes the specified mask and the key cut down to it, by the normalising loop; `EntryMeaning` says what they accept |
| `FlowMatch.NormalKeepsMatches` | modules/pipeline_standard/module/src/cfr.c:226-232 | normalising changes no match, and keys agree on a mask exactly when their normal forms are equal |
| `FlowMatch.LateScoped` | modules/pipeline_standard/module/src/cfr.c:172-224 | from OpenFlow 1.2 on a mask with port bits has protocol bits |
| `FlowMatch.EarlyScopedExactly` | modules/pipeline_standard/module/src/cfr.c:156-171 | before, exactly when the match leaves ports alone or names the protocol |
| `FlowTables.Table.Create` | modules/pipeline_standard/module/src/pipeline_standard.c:454-497 | a bad goto is refused and changes nothing; otherwise the entry is stored under its normalised match with its table-miss flag |
| `FlowTables.Table.Modify` | modules/pipeline_standard/module/src/pipeline_standard.c:499-520 | replaces the value of an entry or, on a bad goto, nothing |
| `FlowTables.Table.Delete` | modules/pipeline_standard/module/src/pipeline_standard.c:522-543 | removes exactly that entry from the TCAM and the table |
| `FlowTables.Table.TableIsOk` | modules/pipeline_standard/module/src/pipeline_standard.c:415-423 | every reachable table has forward goto targets and, from 1.2 on, scoped masks |
| `FlowTables.TablesMakeConfig` | modules/pipeline_standard/module/src/pipeline_standard.c:101-112 | sixteen such tables form a configuration for the packet theorems |
| `ActionSoundness.EmissionDeterminedByMask` | modules/pipeline_standard/module/src/action.c:41-222 | for every action list, nested groups included, without TTL decrement: packets that agree on the mask produced emit the same kernel actions, masks and handles |
| `ActionSoundness.TranslateTwins` | modules/pipeline_standard/module/src/action.c:41-222 | the same for two runs already in step, and with TTL decrements whose TTL the mask covers |
| `ActionSoundness.DecTtlSoundExactly` | modules/pipeline_standard/module/src/action.c:118-136 | a list that decrements the TTL and then outputs is sound for a packet exactly when the TTL of its IPv4 header and the hop limit of its IPv6 header, whichever it has, survive |
| `ActionSoundness.CommitTwins` | modules/action/module/src/action.c:446-484 | committing two contexts in step emits the same actions, because the mask then covers what was emitted |
| `ActionSoundness.SetFieldTwins` | modules/action/module/src/action.c:125-429 | set-field actions keep two contexts in step |
| `Actions.DecrementIsMinusOne` | modules/pipeline_standard/module/src/action.c:123-124 | the decrement on bits is subtraction of one |
| `Actions.Translate` | modules/pipeline_standard/module/src/action.c:41-183 | translation only adds to the mask and to the emitted actions and touches no header's presence but the VLAN tag's |
| `Constants.VlanConstants` | modules/ivs/module/inc/ivs/ivs.h:36-39 | the bits of VLAN id, CFI and priority are 0x0fff, 0x1000 and 0xe000 |
| `Constants.TosConstants` | modules/pipeline_standard/module/src/pipeline_standard.c:324-331 | the bits of DSCP and ECN are 0xfc and 0x03 |
| `Constants.TypeConstants` | modules/pipeline_standard/module/src/pipeline_standard.c:243-257 | the Ethernet types of IPv4, IPv6 and ARP are 0x0800, 0x86dd and 0x0806 |
| `Constants.ProtocolConstants` | modules/pipeline_standard/module/src/pipeline_standard.c:259-271 | the protocols of ICMP, TCP, UDP and ICMPv6 are 1, 6, 17 and 58 |
| `Constants.PortConstants` | modules/pipeline_standard/module/src/cfr.c:38-42 | the local port of the datapath is 0 and OpenFlow's 0xfffffffe; the in-band port is 1000 |
| `Constants.LengthIs` | modules/pipeline_standard/module/src/cfr.c:47-57 | a cell counts as a length exactly when its number is at most 0x05ff |
| `Constants.TypeField` | modules/pipeline_standard/module/src/cfr.c:47-54 | the type that tables match is the packet's own when above 0x05ff, and 0x05ff for every other packet |
| `ActionRefinement.LazyCommitsPreserveMeaning` | modules/action/module/src/action.c:431-484 | on a packet with at most one tag the kernel, running the emitted actions, sends the same packets to the same ports in the same order as an interpreter that applies every action at once, and the statistics handles are those of the buckets it went through |
| `ActionRefinement.OneTagIsExact` | modules/action/module/src/action.c:453-472 | this holds for every action list exactly when the packet has at most one tag |
| `ActionRefinement.SecondPopIsLost` | modules/action/module/src/action.c:207-215 | two pops with outputs between them on a packet with two tags send different packets |
| `ActionRefinement.CommitStep` | modules/action/module/src/action.c:446-484 | after a commit the kernel's packet is exactly the eager one |
| `ActionRefinement.SetStep` | modules/action/module/src/action.c:125-429 | between commits the kernel's packet and the current key differ only in modified attributes |
| `ActionRefinement.TranslateStep` | modules/pipeline_standard/module/src/action.c:41-222 | the relation holds along every action list, through groups |
| `ActionRefinement.SetVidBits` | modules/action/module/src/action.c:177-190 | setting the VLAN id, bit by bit: the twelve low bits are the new id, bit 12 is set, the priority of a tag that was there stays |
| `ActionRefinement.SetPcpBits` | modules/action/module/src/action.c:192-205 | setting the priority: the three high bits are new, bit 12 is set, the id of a tag that was there stays |
| `ActionContext.Emitter.constructor` | modules/action/module/src/action.c:32-43 | a context starts with the packet's key, nothing modified and nothing emitted |
| `ActionContext.Emitter.SetField` | modules/pipeline_standard/module/src/action.c:67-116 | every set-field action changes the context as specified; `ActionRefinement.SetStep` says what that does to the packet, and `SetVidBits` and `SetPcpBits` give the tag bit by bit |
| `ActionContext.Emitter.Commit` | modules/action/module/src/action.c:446-484 | the loop over all key attributes emits and masks as specified and clears the modified set |
| `ActionContext.Emitter.Output` | modules/action/module/src/action.c:70-84 | commits, then emits the output |
| `ActionContext.Emitter.OutputInPort` | modules/action/module/src/action.c:86-93 | commits, outputs to the ingress port and masks it |
| `ActionContext.Emitter.Userspace` | modules/action/module/src/action.c:54-68 | commits, sends to userspace and masks the ingress port |
| `ActionContext.Emitter.DecTtl` | modules/pipeline_standard/module/src/action.c:118-136 | counts down the TTL of each IP header and says when the packet must be dropped |
| `ActionContext.Emitter.TranslateActions` | modules/pipeline_standard/module/src/action.c:41-183 | the attribute loop, with its early return, computes the specified run |
| `ActionContext.Emitter.ProcessGroup` | modules/pipeline_standard/module/src/action.c:186-222 | select by hash, first bucket, or all buckets in turn |
| `Kflow.Cache.Add` | modules/OVSDriver/module/src/kflow.c:113-226 | for a well-formed key the new flow carries what the pipeline says now about it; a key is refused as cached exactly when a flow covers it, as `Kflow.Cache.Match` says; every refusal and failure leaves the flows as they were, each with its own status |
| `Kflow.Cache.Install` | modules/OVSDriver/module/src/kflow.c:199-219 | the flow enters the list, its bucket and the TCAM together |
| `Kflow.Cache.Lookup` | modules/OVSDriver/module/src/kflow.c:83-100 | finds a flow by its key bytes exactly when there is one |
| `Kflow.Cache.Match` | modules/OVSDriver/module/src/kflow.c:102-111 | finds a flow exactly when one covers the key: every attribute of the flow's mask is in both keys or in neither, and the cells agree on the mask |
| `FlowState.CoversIsMatch` | modules/OVSDriver/module/src/kflow.c:102-111 | comparing whole parsed keys as memory, bitmap of attributes first, is covering: no two attributes share a bit |
| `FlowState.CoversPlainly` | modules/OVSDriver/module/src/kflow.c:102-111 | for a decided flow: all attributes of its key, ETHERTYPE in both or neither, and agreement on the mask |
| `Kflow.Cache.Sync` | modules/OVSDriver/module/src/kflow.c:228-259 | the wrapped difference to any report, current or not, is credited once to every handle of the flow |
| `Kflow.Cache.SyncStats` | modules/OVSDriver/module/src/kflow.c:261-284 | when the kernel answers, the flow is level with the kernel's counters |
| `Kflow.Cache.Delete` | modules/OVSDriver/module/src/kflow.c:293-319 | the flow leaves all indexes; if netlink works, what was pending went to its handles first |
| `Kflow.Cache.Rehandle` | modules/OVSDriver/module/src/kflow.c:363-375 | new handles only after what was pending went to the old ones |
| `Kflow.Cache.React` | modules/OVSDriver/module/src/kflow.c:377-403 | new actions in the kernel and in the record together, or neither |
| `Kflow.Cache.Invalidate` | modules/OVSDriver/module/src/kflow.c:325-407 | a flow whose mask still holds ends up with the present verdict, any other is deleted; no other flow changes |
| `Kflow.Cache.InvalidateAll` | modules/OVSDriver/module/src/kflow.c:412-437 | afterwards every remaining flow carries the present verdict on its key; if netlink works, exactly the flows whose mask still holds remain |
| `Kflow.Cache.Expire` | modules/OVSDriver/module/src/kflow.c:439-463 | syncs the flow of a dump record and deletes it exactly when 2345 ms have passed since the later of the recorded and the reported time of use; the versions of all other flows stay |
| `Kflow.Latest` | modules/OVSDriver/module/src/kflow.c:253-258 | the time of use kept is the larger of the two |
| `Kflow.Cache.Flush` | modules/OVSDriver/module/src/kflow.c:637-646 | with no flow listed, which the code asserts, the kernel table is emptied |
| `Kflow.Cache.Takeover` | modules/OVSDriver/module/src/hitless.c:40-50 | ends hitless mode, and the assertion in flush cannot fail |
| `Kflow.Cache.Traffic` | openvswitch/openvswitch.h:295-298 | packets that hit a managed flow become due to the handles it holds at that moment |
| `Kflow.Cache.Reconfigure` | modules/pipeline_standard/module/src/pipeline_standard.c:490-496 | a change of the tables makes a new version; flows keep the version they were computed from |
| `Kflow.Cache.ThreeIndexes` | modules/OVSDriver/module/src/kflow.c:83-111 | in every reachable state list, buckets and TCAM hold the same flows, keys are distinct, and all are empty while hitless |
| `Kflow.Cache.WellKeyed` | modules/OVSDriver/module/src/kflow.c:113-226 | in every reachable state only well-formed keys are cached |
| `Kflow.Cache.Conserved` | modules/OVSDriver/module/src/kflow.c:228-319 | with netlink working and all flows synchronised, each handle holds exactly the packets and bytes that hit flows while they held it, modulo 2^64 |
| `FlowState.Conservation` | modules/OVSDriver/module/src/kflow.c:228-319 | the same on states: flow by flow, due equals paid plus pending |
| `FlowState.UncoveredIsNew` | modules/OVSDriver/module/src/kflow.c:143-152 | a flow matches its own key, so an uncovered key is unlike every stored one |
| `FlowState.BalancedSync` | modules/OVSDriver/module/src/kflow.c:228-259 | a sync to any report moves exactly its difference from pending to paid |
| `FlowState.BalancedTraffic` | modules/OVSDriver/module/src/kflow.c:228-259 | traffic is added to due and to pending alike |
| `Ledger.Increase` | modules/OVSDriver/module/src/kflow.c:240-246 | the loop over the handles adds the difference once per handle held |
| `Ledger.TotalsAgree` | modules/OVSDriver/module/src/kflow.c:240-246 | accounts that agree flow by flow agree in total |
| `Barrier.Scheduler.ReplyIsSafe` | modules/OVSDriver/module/src/barrier.c:54-166 | when a connection is not blocked, no cached flow and no upcall process works from tables older than its last change (section 7.3.8 of OpenFlow Switch Specification 1.3.4) |
| `Barrier.Scheduler.Defer` | modules/OVSDriver/module/src/barrier.c:54-94 | the connection ends up blocked, once, with the timer armed; the retry after a full table does not recurse again |
| `Barrier.Scheduler.FindSlot` | modules/OVSDriver/module/src/barrier.c:65-73 | the scan finds the connection exactly when it is blocked, and a free slot exactly when there is one |
| `Barrier.Scheduler.Revalidate` | modules/OVSDriver/module/src/barrier.c:114-134 | afterwards all flows and processes are current, nobody is blocked and the timer is off |
| `Barrier.Scheduler.Respawn` | modules/OVSDriver/module/src/upcall.c:613-639 | every process is replaced by one with the present tables |
| `Barrier.Scheduler.Change` | modules/OVSDriver/module/src/barrier.c:54-94 | a table change leaves its connection blocked and the timer armed |
| `Barrier.Scheduler.PortEvent` | modules/OVSDriver/module/src/barrier.c:104-112 | a change without a connection leaves the timer armed |
| `Barrier.Scheduler.TimerFires` | modules/OVSDriver/module/src/barrier.c:146-152 | the timer brings everything up to date |
| `Barrier.Scheduler.BarrierReceived` | modules/OVSDriver/module/src/barrier.c:154-166 | afterwards the connection is not blocked and its last change is everywhere |
| `Barrier.Scheduler.FlowRequest` | modules/OVSDriver/module/src/upcall.c:404-430 | a request from a process of any age installs a flow computed from the present tables |
| `Barrier.Scheduler.ChildExits` | modules/OVSDriver/module/src/upcall.c:432-473 | a dead process is replaced by one with the present tables |
| `Barrier.Scheduler.Expiry` | modules/OVSDriver/module/src/kflow.c:439-463 | expiry between a change and its barrier keeps the invariant: flows may go, none gets older |
| `Barrier.Scheduler.Packets` | openvswitch/openvswitch.h:295-298 | so does traffic |
| `Barrier.Scheduler.TakesOver` | modules/OVSDriver/module/src/hitless.c:40-50 | so does the end of hitless mode |
| `Tcam.Search` | modules/tcam/module/src/tcam.c:182-218 | despite hash check, priority cutoff and Bloom skips: the linear scan's entry, none exactly when nothing matches, of maximal priority; the mask gains every shard's mask |
| `Tcam.Table.constructor` | modules/tcam/module/src/tcam.c:83-97 | an empty table |
| `Tcam.Table.MatchAndMask` | modules/tcam/module/src/tcam.c:182-218 | the same on the object, after any run of inserts, removes and grows |
| `Tcam.Table.Insert` | modules/tcam/module/src/tcam.c:108-143 | exactly the new entry is added; layout and load bound hold again |
| `Tcam.Table.Remove` | modules/tcam/module/src/tcam.c:145-172 | exactly that entry is removed, its shard too when it was the last |
| `Tcam.Table.FindShard` | modules/tcam/module/src/tcam.c:223-238 | finds the shard of a mask exactly when there is one |
| `Tcam.InsertIntoShard` | modules/tcam/module/src/tcam.c:126-141 | the chain stays sorted and the shard at most half full |
| `Tcam.SearchChain` | modules/tcam/module/src/tcam.c:203-214 | the first match at or above the floor priority, although the walk stops early |
| `Tcam.BloomSkip` | modules/tcam/module/src/tcam.c:199-201 | a hash that the filter denies has no matching entry |
| `SoftTcam.ScanAgree` | modules/tcam/module/src/tcam.c:182-218 | keys that agree on the output mask get the identical entry |
| `SoftTcam.ScanIsBestMatch` | modules/tcam/module/src/tcam.c:182-218 | the scan returns a stored match of maximal priority, none exactly when nothing matches (section 5.3 of OpenFlow Switch Specification 1.3) |
| `SoftTcam.OrMasksAbove` | modules/tcam/module/src/tcam.c:195-197 | the output mask is above the input mask and every shard mask |
| `SoftTcam.HashAgree` | modules/tcam/module/src/tcam.c:370-391 | the hash under a mask depends on masked bits only |
| `SoftTcam.ComputeHash` | modules/tcam/module/src/tcam.c:370-391 | the word loop computes the specified hash |
| `SoftTcam.Grow` | modules/tcam/module/src/tcam.c:287-331 | splitting every bucket in two keeps entries, order, placement and Bloom coverage |
| `SoftTcam.SplitChain` | modules/tcam/module/src/tcam.c:300-326 | a chain is split by the next hash bit with the order kept on both sides |
| `SoftTcam.GrownOk` | modules/tcam/module/src/tcam.c:287-331 | the grown shard satisfies the shard invariant with the same members |
| `SoftTcam.SplitIndex` | modules/tcam/module/src/tcam.c:296-312 | the new bucket is the old one, or the old one plus the old size |
| `Cells.MemcmpMasked` | modules/tcam/module/src/tcam.c:338-355 | reports a difference exactly when the keys differ on the mask |
| `Cells.Memor` | modules/tcam/module/src/tcam.c:358-368 | ORs the source into the destination |
| `Probing.ProbesCover` | modules/l2table/module/src/l2table.c:121-162 | triangular probing visits every slot of a table of size 2^k once in its first 2^k steps |
| `Probing.ProbesDistinct` | modules/l2table/module/src/l2table.c:157-160 | two steps below 2^k never probe the same slot |
| `L2Table.Table.constructor` | modules/l2table/module/src/l2table.c:65-82 | an empty map in a table of one free slot |
| `L2Table.Table.FindInternal` | modules/l2table/module/src/l2table.c:113-162 | for all 16-bit VLAN ids the unbounded loop ends within the first free slot's step and finds the key exactly when present, or a reachable vacancy exactly when absent; a key equal to a marker finds the marker |
| `L2Table.Table.Lookup` | modules/l2table/module/src/l2table.c:187-203 | the map's value, or not found; only a key equal to a marker can be found without being in the map, and the free marker always is |
| `L2Table.Table.Insert` | modules/l2table/module/src/l2table.c:205-238 | a duplicate is refused and changes nothing, otherwise the map gains the entry; at most half the slots are ever used or deleted. From VLAN id 0x8000 on the map does not change, whatever is reported, and the table stays valid exactly when the insertion is refused |
| `L2Table.Table.Remove` | modules/l2table/module/src/l2table.c:240-255 | the map loses the key; the tombstone hides nobody. The table stays valid exactly when the VLAN id is below 0x8000 or nothing is found; only the key that equals the free marker takes a free slot away |
| `L2Table.EndlessExactly` | modules/l2table/module/src/l2table.c:127-161 | a probe never ends exactly when its key is in no slot and no slot is free |
| `L2Table.RemoveStopsLookups` | modules/l2table/module/src/l2table.c:240-255 | on a new table, one removal of the key that equals the free marker, after which no lookup ends |
| `L2Table.Table.Resize` | modules/l2table/module/src/l2table.c:257-290 | keeps the map, never nests and never meets its die-check |
| `L2Table.FreeIsMet` | modules/l2table/module/src/l2table.c:121-162 | in a reachable table every probe sequence meets a free slot |
| `L2Table.NotSeenNotThere` | modules/l2table/module/src/l2table.c:131-155 | a key not met before a free slot is not in the table, unless it equals the tombstone marker |
| `L2Table.EncodeDecode` | modules/l2table/module/src/l2table.c:299-319 | packing and unpacking a key are inverse |
| `L2Table.OccupiedIffVlanFits` | modules/l2table/module/src/l2table.c:299-319 | bit 63 of a key, the flag of an unoccupied slot, is clear exactly for VLAN ids below 0x8000 |
| `L2Table.VlanCollidesWithFree` | modules/l2table/module/src/l2table.c:299-319 | a key that is the marker of a free slot |
| `RobinHood.PlaceItems` | modules/pipeline_lua/module/src/hashtable.lua:157-193 | with a slot free, an insertion loses no victim and invents nothing |
| `RobinHood.PlaceOrdered` | modules/pipeline_lua/module/src/hashtable.lua:157-193 | without tombstones it keeps the order of distances |
| `RobinHood.PutOrderedExactly` | modules/pipeline_lua/module/src/hashtable.lua:165-169 | filling a slot keeps the order exactly when the next slot's distance exceeds the new one by at most one |
| `RobinHood.Reach` | modules/pipeline_lua/module/src/hashtable.lua:232-243 | in an ordered table all earlier probe slots of an entry are occupied at distances at least theirs |
| `RobinHood.OrderedFindable` | modules/pipeline_lua/module/src/hashtable.lua:232-255 | in an ordered table every entry is within five steps or has a probe path that no lookup leaves early |
| `RobinHood.InsertedIsRow` | modules/pipeline_lua/module/src/hashtable.lua:157-193 | n insertions of keys with one home fill n slots in a row |
| `RobinHood.TombstoneReuseHides` | modules/pipeline_lua/module/src/hashtable.lua:157-193 | after seven insertions, a removal and an insertion into the tombstone, the order is lost and a live entry is not findable |
| `RobinTable.HiddenKey` | modules/pipeline_lua/module/src/hashtable.lua:232-255 | that entry is in the contents, and the only answer a lookup can give for its key is none |
| `RobinTable.InsertInternal` | modules/pipeline_lua/module/src/hashtable.lua:157-193 | the swapping loop computes the specified placement and always ends by filling a slot |
| `RobinTable.Table.constructor` | modules/pipeline_lua/module/src/hashtable.lua:142-146 | an empty table of sixteen slots |
| `RobinTable.Table.Grow` | modules/pipeline_lua/module/src/hashtable.lua:195-208 | same contents in twice the size, ordered and without tombstones whatever the table was before |
| `RobinTable.Table.Insert` | modules/pipeline_lua/module/src/hashtable.lua:210-220 | the entry is added, also under a key that is there already; a new key keeps keys apart, and a tidy table stays tidy |
| `RobinTable.Table.LookupSlow` | modules/pipeline_lua/module/src/hashtable.lua:232-243 | answers with an entry exactly when one has a probe path whose earlier slots are all occupied at distances at least theirs |
| `RobinTable.Table.Lookup` | modules/pipeline_lua/module/src/hashtable.lua:245-255 | an entry is found if and only if its distance is below five or that path is clear; in an ordered table with distinct keys, the inserted value or nothing |
| `RobinTable.Table.Remove` | modules/pipeline_lua/module/src/hashtable.lua:259-273 | removes one entry of that key, fails exactly for unknown keys, and keeps the order and the keys apart |
| `Xbuf.RoundTrip` | modules/xbuf/module/inc/xbuf/xbuf.h:191-288 | a forest whose lengths fit 16 bits reads back as written |
| `Xbuf.ReadsBack` | modules/xbuf/module/inc/xbuf/xbuf.h:191-270 | an attribute just written is read back, and the cursor stands behind it |
| `Xbuf.AttrsOfForest` | modules/xbuf/module/inc/xbuf/xbuf.h:267-270 | the attributes of an encoded forest are its roots with their payloads |
| `Xbuf.LeafReadsBackExactly` | modules/xbuf/module/inc/xbuf/xbuf.h:191-208 | a payload reads back exactly when it fits 16 bits together with its header |
| `XbufBuffer.Buffer.constructor` | modules/xbuf/module/src/xbuf.c:25-32 | an empty buffer |
| `XbufBuffer.Buffer.Resize` | modules/xbuf/module/src/xbuf.c:56-62 | for every 32-bit size: the program goes on exactly when the size is from 1 to 2^31, with the least power of two that holds it and what fits of the old bytes; contents kept and buffer valid exactly when they fit |
| `XbufBuffer.Buffer.ResizeCheck` | modules/xbuf/module/inc/xbuf/xbuf.h:87-93 | grows only when needed, never shrinks |
| `XbufBuffer.Buffer.Put` | modules/xbuf/module/inc/xbuf/xbuf.h:127-150 | appends the bytes within what is allocated |
| `XbufBuffer.Buffer.AppendAttr` | modules/xbuf/module/inc/xbuf/xbuf.h:191-208 | appends header, payload and padding |
| `XbufBuffer.Buffer.StartNest` | modules/xbuf/module/inc/xbuf/xbuf.h:234-248 | appends a header without length and returns its offset |
| `XbufBuffer.Buffer.EndNest` | modules/xbuf/module/inc/xbuf/xbuf.h:254-259 | fills in the length at the offset and changes nothing else |
| `XbufBuffer.Buffer.Compact` | modules/xbuf/module/src/xbuf.c:64-70 | contents kept in exactly their size |
| `XbufBuffer.Buffer.AppendTree` | modules/xbuf/module/inc/xbuf/xbuf.h:191-259 | building a tree with these calls, across reallocations, appends its encoding |
| `XbufBuffer.ForEach` | modules/xbuf/module/inc/xbuf/xbuf.h:267-270 | over the encoding of any forest that fits, the cursor loop meets exactly its roots, in order, with their payloads |
| `XbufBuffer.Walk` | modules/xbuf/module/inc/xbuf/xbuf.h:267-288 | the nested cursor loops on a range of the buffer read what the decoder reads from those bytes |
| `XbufBuffer.BuildAndWalk` | modules/xbuf/module/inc/xbuf/xbuf.h:191-288 | a forest built with the buffer's calls and walked with the loops comes back |
| `NextPow2.NextIsLeast` | modules/xbuf/module/src/xbuf.c:43-54 | for 1 up to 2^31, smearing the bits gives the least power of two not below the argument |
| `NextPow2.NextWraps` | modules/xbuf/module/src/xbuf.c:43-54 | for zero and beyond 2^31, and only there, the result wraps to zero |
| `NextPow2.SmearSpreads` | modules/xbuf/module/src/xbuf.c:48-52 | the five shifts spread every bit over all lower ones |
| `Stats.Allocator.constructor` | modules/stats/module/src/stats.c:48-61 | all slots are free, each once |
| `Stats.Allocator.Alloc` | modules/stats/module/src/stats.c:63-70 | hands out a slot that was not live, with zero counters |
| `Stats.Allocator.Free` | modules/stats/module/src/stats.c:72-78 | takes a live slot back; the stack has room for it |
| `Stats.Allocator.Increment` | modules/stats/module/src/stats.c:80-89 | adds to one writer's cell, and so to what the slot reads |
| `Stats.Allocator.Get` | modules/stats/module/src/stats.c:91-104 | the sum modulo 2^64 of all increments by all writers since the slot was last allocated or cleared |
| `Stats.Allocator.Clear` | modules/stats/module/src/stats.c:106-116 | the slot reads zero, all others as before |
| `Stats.Allocator.CreateWriter` | modules/stats/module/src/stats.c:118-129 | a late writer changes no slot's value |
| `Stats.Pop` | modules/stats/module/src/stats.c:66-67 | taking the top of the stack keeps free and live slots a partition |
| `Stats.Push` | modules/stats/module/src/stats.c:75-76 | giving a live slot back keeps it |
| `Groups.Tables.Translate` | modules/pipeline_standard/module/src/action.c:235-510 | succeeds exactly when every action is one it knows with its group there; appends the attributes of the actions up to the first that is not; references grow by exactly the GROUP attributes appended, also when it fails midway |
| `Groups.Tables.Cleanup` | modules/pipeline_standard/module/src/action.c:512-528 | gives back exactly the references of the buffer, never one that was not taken |
| `Groups.Tables.ParseValue` | modules/pipeline_standard/module/src/pipeline_standard.c:365-443 | on success the value holds the actions of the apply and write instructions in order, whether clear was among them, and the last goto, which leads forward, and its references are held; on any error none is kept, and the status is that of the first fault |
| `Groups.Tables.CreateFlow` | modules/pipeline_standard/module/src/pipeline_standard.c:454-497 | succeeds exactly for instructions without fault and then stores their value; keeps the balance: references of each group equal its GROUP attributes in live buffers |
| `Groups.Tables.ModifyFlow` | modules/pipeline_standard/module/src/pipeline_standard.c:499-520 | the same for replacing a value; on error the old value stays; keeps the balance |
| `Groups.Tables.DeleteFlow` | modules/pipeline_standard/module/src/pipeline_standard.c:522-543 | keeps the balance |
| `Groups.Tables.ParseGroup` | modules/pipeline_standard/module/src/group.c:48-108 | succeeds exactly when every bucket is good and then gives each bucket its attributes; on error also the failing bucket's references are given back |
| `Groups.Tables.CleanupBuckets` | modules/pipeline_standard/module/src/group.c:110-120 | gives back the references of all buckets |
| `Groups.Tables.CreateGroup` | modules/pipeline_standard/module/src/group.c:122-143 | stores exactly the parsed buckets, or nothing; keeps the balance |
| `Groups.Tables.ModifyGroup` | modules/pipeline_standard/module/src/group.c:145-163 | replaces the buckets by exactly the parsed ones; on error the old ones stay; keeps the balance |
| `Groups.Tables.DeleteGroup` | modules/pipeline_standard/module/src/group.c:165-173 | keeps the balance |

## Left out

- Netlink messages, sockets, processes and signals: only their effects are steps of the model.
- murmur, the Bloom filter, LOCI and the Indigo core: arbitrary functions or minimal contracts.
- Group references that form a cycle: a group action carries its buckets as a tree, so the recursion of the translation is finite by construction.
- action_sample_to_userspace and the raw VLAN push and pop: no standard pipeline action reaches them.
- Contexts without a mask (packet-out): every context of the model has one.
- The switch that turns megaflows off: the kernel is always given the mask; without it a flow covers less.
- The per-port limit and its counter: whether a port admits a flow is an argument of `Kflow.Cache.Add`.
- Packets that hit a flow between its last synchronisation and its deletion, which the code accepts as lost: the two are one step here.
- A statistics handle freed while a kernel flow still holds it: the books of `Kflow` and the slots of `Stats` are separate models.
- stats_writer_destroy: it runs at shutdown only and takes its writer's counts away.
- Table lookup by id and the refusal to delete a group in use: the Indigo core does both.
- The upcall side of a packet miss and its Bloom filter: no property beyond the request that `FlowRequest` takes.
- The Lua sandbox, its code upload and its table glue, vport handling, port statistics, dumps, traces and counters for debugging: easy next to the rest.
- Matches of OpenFlow 1.1: the source does not implement their VLAN fields; `FlowMatch` leaves those out of the entry.
- Whether the kernel matches a key that has more attributes than the flow's: its flow lookup is not part of this model, so flows are right for keys with the same attributes.
- CacheCoherence.PopIsSkipped: speaks of one flow in the first table, as the input that shows the difference.
- RobinTable.Table.Insert: the source's assertion that no field is nil is not modelled, because values are complete records here.
- ActionContext.Emitter.Output: one method stands for the output to a port and for the local output, which differ in the port number only.
