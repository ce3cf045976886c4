# A verified model of the WinVDE switch

WinVDE is a port of the Virtual Distributed Ethernet switch. This project models, in Dafny, the
parts of it that decide where a packet goes and when, and proves what they keep.

- The switch fabric: ports, VLANs, four bit arrays per VLAN and a hash table of learned addresses,
  changed by management commands and by every packet. `SwitchSpec` is the switch as a value,
  `SwitchEffects` and `Admission` say what each command and each frame does to it, `SwitchSafety`
  and `Stability` what holds of it in every run. `SwitchFabric` is the running switch, a class over
  the bit arrays (`BitArray`, `VlanTables`, `FabricTables`), the packet buffer (`Frames`) and the
  chained hash table (`ChainedHash`, `Learning`, `KeyPacking`). Each of its methods is tied to the
  value it stands for.
- The packet queues of the endpoints, circular lists that share reference-counted copies of the
  packets: `PacketFlow` is a queue as a value, `PacketQueue` all queues as they are stored, and
  `Transmission` takes a flood down to them.
- The timers: `TimerSpec` as values, `TimerWheel` as the array that is compacted in place and the
  free list threaded through the timers.
- The byte-level machines: the stream receiver (`Framing`, `StreamReceiver`), the quoting tokenizer
  (`Splitting`, `Quoting`, `Tokenizer`), the file in memory (`MemoryStream`) and the library's
  address cache (`DirectCache`).

`dafny verify dfyconfig.toml` checks the whole project. The switch follows clauses 8.6.2 to 8.6.4,
8.7 and 9.6 of IEEE 802.1Q-2018 where it forwards, learns and reads the VLAN identifier.

## How the source is read

The model does what the code does, with its constants and its error answers. In these places the
code cannot mean what it says, or leaves the meaning to the platform, and the model takes the
reading given here.

- `winvde_switch/winvde_hash.c:630-649`: `find_entry` starts from a null entry and never finds
  anything. The lookup is taken to be the walk of the bucket that
  `winvde_switch/winvde_hash.c:402-405` performs.
- `winvde_switch/winvde_gc.c:27-31`: `hash_gc` passes its own argument on where the time it has
  just read is meant. The collection is taken to use that time.
- `winvde_switch/bitarray.h:74-89`: on 64-bit platforms a word counts as 64 bits wide but is stored
  in 32. Words are 32 bits wide on both sides, as in the 32-bit build.
- `winvde_switch/bitarray.h:109-110`: the shift that masks the last word is not defined, so the mask
  is a parameter, of which only that it keeps the used bits is assumed; and the word masked is the last of
  the old size, so an array is taken to grow or to keep its number of words.
- `winvde_switch/winvde_port.c:619`: `portremove` tests for a kind of parameter that the command
  dispatcher never sends. The model has `free_port`, with the checks it makes itself.

## Findings

Where a property the code is there for turned out to fail, the model keeps the code, states exactly
when the property holds, and gives an input for which it does not.

- VLAN 0 can be removed when it has no members, although every new port is put into it
  (`SwitchSafety.VlanRemoveKeeps`, `SwitchSafety.DropsVlanZero`).
- The port count is stored in 16 bits: an accepted count of 65536 or more is cut off, and ports may
  lie beyond it (`SwitchSafety.SetNumPortsKeeps`, `SwitchSafety.LosesPortOne`).
- A port number out of range is not refused: the endpoint joins port 1
  (`SwitchSafety.AttachedWhere`, `SwitchSafety.LandsOnPortOne`).
- A frame that comes in untagged does not reach tagged members as a tagged frame. Sent to one port,
  the tag lands four bytes early (`Frames.TagMisplaced`, `Frames.TagMisplacedExample`); flooded, it
  is stripped instead (`Frames.StrippedIsNotTagged`). `SwitchSafety.SentAsDue` has the condition for
  every copy, and `SwitchSafety.WrongFormReached` a run of five commands that comes to it.
- The zeros that pad a short frame are written 14 bytes too far on, so old bytes of the buffer go
  out (`Frames.PaddingZero`, `Frames.PaddingStale`).
- A chunk of a stream that ends between the two bytes of a header loses a byte
  (`Framing.ChunkInvariance`, `Framing.CutHeaderLoses`).
- A file in memory that ends at the end of a chunk refuses every later write
  (`MemoryStream.HoldsReaching`, `MemoryStream.ByteLost`).
- All timers have the number 0, so deleting by number stops the oldest one
  (`TimerSpec.DeletedByNumber`, `TimerSpec.DeletesTheOther`).
- A timer added with 0 calls, which is meant never to end, has 2^32 - 1 of them
  (`TimerSpec.NotForever`).
- With a negative age limit the address cache can find an entry in a slot that was never written
  (`DirectCache.FoundIsLast`, `DirectCache.PhantomHit`).

## Model

| member | source | states |
|---|---|---|
| `SwitchSafety.EveryRunIsSafe` | winvde_switch/winvde_port.c:2165-2166 | in every run of commands and packets from a fresh switch, every learned address names an active port that is a member of the VLAN it was learned in; an active member of a VLAN is in exactly one of its tagged and untagged broadcast sets, and only members are |
| `SwitchSafety.RunKeeps` | winvde_switch/winvde_port.c:181-204 | the invariant behind that, and that no port is ever barred from learning, hold after any list of allowed commands |
| `SwitchSafety.SetVlanKeeps` | winvde_switch/winvde_port.c:446-490 | changing the untagged VLAN of a port keeps the invariant, whatever the numbers given, NOVLAN and the refused ones included |
| `SwitchSafety.AllocKeeps` | winvde_switch/winvde_port.c:1505-1562 | allocating a port keeps the invariant, and the index returned is that of a port that exists whenever it is in range or port 1 exists |
| `SwitchSafety.ReserveKeeps` | winvde_switch/winvde_port.c:591-597 | taking the port out of the pool afterwards keeps it too |
| `SwitchSafety.FreeKeeps` | winvde_switch/winvde_port.c:1660-1672 | freeing an idle port leaves no VLAN that still names it |
| `SwitchSafety.AllocatableKeeps` | winvde_switch/winvde_port.c:662-679 | moving a port into or out of the pool keeps the invariant |
| `SwitchSafety.VlanCreateKeeps` | winvde_switch/winvde_port.c:948-966 | creating a VLAN, or refusing to, keeps the invariant |
| `SwitchSafety.VlanRemoveKeeps` | winvde_switch/winvde_port.c:990-1031 | removing a VLAN keeps the invariant if and only if it is not VLAN 0 with an empty table |
| `SwitchSafety.VlanAddPortKeeps` | winvde_switch/winvde_port.c:1057-1075 | adding a member keeps the invariant |
| `SwitchSafety.VlanDelPortKeeps` | winvde_switch/winvde_port.c:1103-1129 | removing a member keeps it: no learned address is left behind that names the port in that VLAN |
| `SwitchSafety.SetupKeeps` | winvde_switch/winvde_port.c:2234-2321 | attaching an endpoint, or being refused for the user, keeps the invariant |
| `SwitchSafety.CloseKeeps` | winvde_switch/winvde_port.c:1674-1727 | closing an endpoint keeps it, whether or not it was the last of its port |
| `SwitchSafety.SetNumPortsKeeps` | winvde_switch/winvde_port.c:316-391 | a change of the port count keeps the invariant if and only if it is refused or every port lies below the count modulo 2^16; so it does up to 65535 |
| `SwitchSafety.StepKeeps` | winvde_switch/winvde_port.c:2165-2166 | one command or packet of any kind keeps the invariant |
| `SwitchSpec.LearnKeeps` | winvde_switch/winvde_port.c:2011-2021 | learning a source address on a member port keeps the invariant, because the VLAN can be read back from the key |
| `SwitchSpec.IngressReachable` | winvde_switch/winvde_port.c:1979-2009 | a frame that passes the ingress checks came in on an active member of its VLAN |
| `SwitchSafety.Isolation` | winvde_switch/winvde_port.c:2023-2170 | an accepted frame of VLAN v goes to active members of v only, never back and to no port twice; flooded, it goes to each of the others exactly once, and otherwise to the one learned port or nowhere |
| `SwitchSafety.FloodOnce` | winvde_switch/winvde_port.c:2030-2160 | the two scans of a flood together reach each other active member once |
| `SwitchSafety.FloodForeseen` | winvde_switch/winvde_port.c:2015-2024 | whether a frame will be flooded can be told before its own source is learned: a group address, or an unknown one that is not the source itself |
| `SwitchSafety.SentAsDue` | winvde_switch/winvde_port.c:2023-2219 | a copy has the form its receiver is due if and only if the frame came in tagged, or the receiver takes the VLAN untagged, or the copy is unicast and source bytes 2 to 5 happen to equal the tag |
| `SwitchSafety.FloodForms` | winvde_switch/winvde_port.c:2030-2160 | each copy of a flood is the frame itself to ports of its own tagness and the stripped frame to the others |
| `SwitchSafety.HubRepeats` | winvde_switch/winvde_port.c:1957-1976 | as a hub every port but port 0 and the sender is sent the frame once, unchanged, and nothing is learned |
| `SwitchSafety.FirstFreeLowest` | winvde_switch/winvde_port.c:1508-1515 | asking for any port finds the lowest one from 1 up that does not exist, or is idle and in the pool |
| `SwitchSafety.AttachedWhere` | winvde_switch/winvde_port.c:1516-1523 | an endpoint joins the port it names if that is in range and port 1 otherwise; no other port changes, and the broadcast sets gain that port at most |
| `SwitchSafety.AttachClose` | winvde_switch/winvde_port.c:2234-2321 | attaching to an idle port and closing the endpoint again gives back the switch as it was |
| `SwitchEffects.SetNumPortsDoes` | winvde_switch/winvde_port.c:316-391 | a count is refused if it is not positive or a port lies at or beyond it; otherwise it is stored modulo 2^16 and nothing else changes |
| `SwitchEffects.SetVlanDoes` | winvde_switch/winvde_port.c:441-490 | the answers; then the port is a member of the new VLAN and no longer of the old, takes the new one untagged, exactly its addresses are gone, and no other port or membership changes, NOVLAN included |
| `SwitchEffects.AllocNames` | winvde_switch/winvde_port.c:1505-1524 | the index: the number asked for, the lowest free one for 0, and 1 when out of range or when none is free |
| `SwitchEffects.AllocDoes` | winvde_switch/winvde_port.c:1525-1560 | a port that did not exist is made idle, in the pool and a member of VLAN 0 only; otherwise nothing changes |
| `SwitchEffects.PortCreateDoes` | winvde_switch/winvde_port.c:581-597 | the answers, and an idle port out of the pool where there was none |
| `SwitchEffects.FreePortDoes` | winvde_switch/winvde_port.c:1660-1672 | an idle port is gone from the port table and from every VLAN; an active or missing one is left alone, and so is every other port |
| `SwitchEffects.AllocatableDoes` | winvde_switch/winvde_port.c:662-679 | the answers; the port is in the pool from then on if and only if the value is not 0 |
| `SwitchEffects.VlanCreateDoes` | winvde_switch/winvde_port.c:948-966 | the answers, by range and by what exists; a new VLAN is empty and the others keep their members |
| `SwitchEffects.VlanRemoveDoes` | winvde_switch/winvde_port.c:992-1030 | the answers; only a VLAN without members goes, and the others keep theirs |
| `SwitchEffects.VlanAddPortDoes` | winvde_switch/winvde_port.c:1057-1075 | the answers; the port is a member and no other membership changes; it is flooded the VLAN tagged if and only if it is active and does not take it untagged |
| `SwitchEffects.VlanDelPortDoes` | winvde_switch/winvde_port.c:1103-1129 | the answers; the port is in neither the table nor a broadcast set of the VLAN, exactly its addresses are gone, and no other membership changes |
| `SwitchEffects.DelPortBroadcasts` | winvde_switch/winvde_port.c:1118-1126 | the broadcast sets lose that port in that VLAN and nothing else |
| `SwitchEffects.AddThenDel` | winvde_switch/winvde_port.c:1039-1137 | adding a port to a VLAN that it is not in and deleting it again leaves ports and VLANs as they were |
| `SwitchEffects.SetupAtDoes` | winvde_switch/winvde_port.c:2244-2310 | an endpoint is let in if and only if its user has the port, or the port is idle and access permitted; it comes first, no other port changes, and a refusal changes nothing |
| `SwitchEffects.SetupDoes` | winvde_switch/winvde_port.c:2234-2321 | the same at the port that the allocation names |
| `SwitchEffects.CloseDoes` | winvde_switch/winvde_port.c:1894-1917 | exactly the first endpoint with the descriptor goes; if it was the last the port is free of its user and its addresses are gone, otherwise nothing else changes |
| `SwitchEffects.CloseMisses` | winvde_switch/winvde_port.c:1718-1726 | without such an endpoint or port the answer is an error, and an active port keeps all its endpoints |
| `SwitchEffects.ExpireDoes` | winvde_switch/winvde_gc.c:15-31 | exactly the addresses last seen more than the expiry time ago are gone |
| `Admission.TaggedHandled` | winvde_switch/winvde_port.c:1979-2219 | by the bytes of the frame: a tagged frame is dropped if the port is no member of the VLAN of its tag; otherwise its source is learned in that VLAN, and it goes once to each other active member of it, or to the one port its destination is known on, each copy in a stated form |
| `Admission.UntaggedHandled` | winvde_switch/winvde_port.c:1988-2219 | the same for an untagged frame, in the untagged VLAN of its port; without one it is dropped |
| `SwitchSafety.DropsVlanZero` | winvde_switch/winvde_port.c:990-1018 | the input that shows it: VLAN 0 of a fresh switch is removed, and the invariant is lost |
| `SwitchSafety.LosesPortOne` | winvde_switch/winvde_port.c:318-386 | the input that shows it: a count of 65537 leaves one port and a port structure beyond it |
| `SwitchSafety.LandsOnPortOne` | winvde_switch/winvde_port.c:1520-1524 | an endpoint that asks for port 9 of a switch with four ports joins port 1 |
| `SwitchSafety.WrongFormReached` | winvde_switch/winvde_port.c:2126-2160 | five commands after start a flooded untagged frame is sent stripped to a port that is due it tagged |
| `Frames.TagMisplaced` | winvde_switch/winvde_port.c:76-80 | inserting a tag as written yields the tagged frame if and only if source bytes 2 to 5 already are the tag |
| `Frames.TagMisplacedExample` | winvde_switch/winvde_port.c:76-80 | a frame of zeros for which it does not |
| `Frames.StrippedIsNotTagged` | winvde_switch/winvde_port.c:2145 | stripping an untagged frame never yields the tagged one |
| `Frames.PaddingZero` | winvde_switch/winvde_port.c:1944-1949 | the padding of a short frame is all zeros if and only if the bytes the buffer held there, up to 14 of them, were; the packet itself is kept |
| `Frames.PaddingStale` | winvde_switch/winvde_port.c:1944-1949 | a byte left behind a packet of 20 bytes goes out with its padding |
| `Frames.StripInsert` | winvde_switch/winvde_port.c:72-80 | as meant, tagging makes a frame of the VLAN with the same addresses, and stripping takes it back |
| `Frames.InsertStrip` | winvde_switch/winvde_port.c:72-80 | tagging undoes stripping if and only if the priority bits are clear |
| `Frames.Tag2Untag` | winvde_switch/winvde_port.c:72-74 | the packet that the macro leaves in the buffer is the frame without its tag, four bytes on |
| `Frames.Untag2Tag` | winvde_switch/winvde_port.c:76-80 | the bytes that the macro leaves in the buffer: the tag lies four bytes early |
| `Frames.PadShort` | winvde_switch/winvde_port.c:1944-1949 | what lies in the buffer after padding: the packet, then bytes of the buffer, then zeros from 14 bytes later on |
| `Frames.PaddedIs` | winvde_switch/winvde_port.c:1944-1949 | length and bytes of a packet after padding; one of 60 bytes or more is left as it is |
| `SwitchFabric.Switch.constructor` | winvde_switch/winvde_port.c:181-204 | the arrays and tables of a fresh switch stand for the initial state |
| `SwitchFabric.Switch.PortSetVlan` | winvde_switch/winvde_port.c:429-493 | the bit operations and the flush make the state that the command means, with its answer, and bit arrays and sets agree afterwards |
| `SwitchFabric.Switch.PortSetNumPorts` | winvde_switch/winvde_port.c:308-398 | the reallocated arrays stand for the same sets under the new count |
| `SwitchFabric.Switch.PortSetHub` | winvde_switch/winvde_port.c:400-427 | only the hub flag changes |
| `SwitchFabric.Switch.Alloc` | winvde_switch/winvde_port.c:1505-1562 | the search and the new port structure make the state, and return the index, that is meant |
| `SwitchFabric.Switch.PortCreate` | winvde_switch/winvde_port.c:566-605 | as commanded, with its answers |
| `SwitchFabric.Switch.Reserve` | winvde_switch/winvde_port.c:542-555 | portcreateauto: the first free port is made and leaves the pool |
| `SwitchFabric.Switch.PortAllocatable` | winvde_switch/winvde_port.c:646-687 | as commanded, with its answers |
| `SwitchFabric.Switch.FreePort` | winvde_switch/winvde_port.c:1660-1672 | the scan of valid VLANs clears the port in every table |
| `SwitchFabric.Switch.VlanCreate` | winvde_switch/winvde_port.c:941-973 | four empty arrays and the validity bit stand for a VLAN without members |
| `SwitchFabric.Switch.VlanRemove` | winvde_switch/winvde_port.c:976-1037 | counting the bits of the table decides whether the VLAN is in use |
| `SwitchFabric.Switch.VlanAddPort` | winvde_switch/winvde_port.c:1039-1083 | as commanded; an active port of another untagged VLAN enters the tagged set |
| `SwitchFabric.Switch.VlanDelPort` | winvde_switch/winvde_port.c:1085-1137 | as commanded; the port leaves the sets and its addresses are flushed |
| `SwitchFabric.Switch.Attach` | winvde_switch/winvde_port.c:2234-2321 | the first endpoint of a port brings it into the broadcast sets of all its VLANs |
| `SwitchFabric.Switch.Close` | winvde_switch/winvde_port.c:1674-1727 | the last endpoint of a port takes it out of all broadcast sets and flushes its addresses |
| `SwitchFabric.Switch.Tick` | winvde_switch/winvde_qtimer.c:93 | time goes on by one and nothing else changes |
| `SwitchFabric.Switch.SetMinPersistence` | winvde_switch/winvde_hash.c:602-619 | the persistence changes and nothing else does |
| `SwitchFabric.Switch.Gc` | winvde_switch/winvde_gc.c:15-31 | exactly the entries that were silent for longer than the expiry time go |
| `SwitchFabric.Switch.HashResize` | winvde_switch/winvde_hash.c:570-598 | with a positive size the table is emptied, otherwise the command is refused; the switch stays sound |
| `SwitchFabric.Switch.HandlePacket` | winvde_switch/winvde_port.c:1929-2219 | the packet in the buffer, padded, is handled as the abstract switch does: same sends in the same order with the same bytes, same addresses learned |
| `SwitchFabric.Switch.RepeatAll` | winvde_switch/winvde_port.c:1968-1974 | the hub loop sends to the ports of the hub rule in increasing order |
| `SwitchFabric.Switch.Admit` | winvde_switch/winvde_port.c:1979-2009 | the checks on the bit arrays and the untagged VLAN admit a frame into the VLAN the rule gives, or not at all |
| `SwitchFabric.Switch.FloodFrom` | winvde_switch/winvde_port.c:2030-2160 | the two scans, with the packet stripped in the buffer between them, send the copies of the abstract flood |
| `SwitchFabric.Switch.UnicastFrom` | winvde_switch/winvde_port.c:2195-2219 | one packet to the learned port, in the form that the macros leave |
| `FabricTables.SetVlanTables` | winvde_switch/winvde_port.c:454-489 | after the bit operations of portsetvlan every array again holds the set of its meaning |
| `FabricTables.CreateTables` | winvde_switch/winvde_port.c:1467-1491 | the same for a new VLAN |
| `FabricTables.RemoveTables` | winvde_switch/winvde_port.c:1005-1013 | the same for a removed VLAN |
| `FabricTables.AddPortTables` | winvde_switch/winvde_port.c:1067-1075 | the same for a new member |
| `FabricTables.DelPortTables` | winvde_switch/winvde_port.c:1118-1126 | the same for a member that leaves |
| `FabricTables.NewPortTables` | winvde_switch/winvde_port.c:1554-1557 | the same for a new port |
| `FabricTables.FreeTables` | winvde_switch/winvde_port.c:1668 | the same for a port that is freed |
| `FabricTables.OpenTables` | winvde_switch/winvde_port.c:2265-2295 | the same for a port that turns active |
| `FabricTables.ShutTables` | winvde_switch/winvde_port.c:1712-1716 | the same for a port that turns inactive |
| `FabricTables.ResizeTables` | winvde_switch/winvde_port.c:335-377 | the same under a new port count |
| `FabricTables.SameTables` | winvde_switch/winvde_port.c:104-110 | the arrays depend on membership, activity and untagged VLANs only |
| `VlanTables.ClearAll` | winvde_switch/winvde_port.c:1712 | the scan of valid VLANs clears one bit in each of them and no other bit |
| `VlanTables.EnableAll` | winvde_switch/winvde_port.c:2272-2289 | the scan of valid VLANs sets the tagged bit just where the table has the port |
| `VlanTables.Resize` | winvde_switch/winvde_port.c:335-377 | growing all arrays of all VLANs changes none of the sets |
| `BitArray.CheckMembers` | winvde_switch/bitarray.h:115-118 | the bit is set if and only if the number is a member |
| `BitArray.Set` | winvde_switch/bitarray.h:120-123 | exactly that number is added to the set |
| `BitArray.Clear` | winvde_switch/bitarray.h:125-128 | exactly that number is removed from it |
| `BitArray.Zap` | winvde_switch/bitarray.h:130-136 | the set becomes empty, and words behind the data are kept |
| `BitArray.ForAll` | winvde_switch/bitarray.h:147-154 | the scan meets every member once, in increasing order, and nothing else |
| `BitArray.Card` | winvde_switch/bitarray.h:156-165 | the count is the number of members |
| `BitArray.Add` | winvde_switch/bitarray.h:181-187 | union, in place |
| `BitArray.Remove` | winvde_switch/bitarray.h:189-195 | difference, in place |
| `BitArray.Realloc` | winvde_switch/bitarray.h:99-113 | the set is kept when its numbers lie below the old size and the mask keeps the bits below it |
| `BitArray.BacSet` | winvde_switch/bitarray.h:234-240 | the number is added and the trailing word still counts the members, whether or not it was one before |
| `BitArray.BacClear` | winvde_switch/bitarray.h:242-248 | the number is removed and the trailing word still counts the members |
| `BitArray.BacSetKeeps` | winvde_switch/bitarray.h:234-240 | a write that changes its word changes the membership of its number |
| `BitArray.BacClearKeeps` | winvde_switch/bitarray.h:242-248 | a write that changes its word changes the membership of its number |
| `BitArray.BacZap` | winvde_switch/bitarray.h:250-257 | an empty set with a count of zero |
| `BitArray.BacForAll` | winvde_switch/bitarray.h:268-275 | the scan, bounded by nothing but the count, ends inside the data words and meets every member once, in increasing order |
| `KeyPacking.PackUnpack` | winvde_switch/winvde_hash.c:40-56 | address and VLAN, modulo 2^16, can be read back from a packed key |
| `KeyPacking.UnpackPack` | winvde_switch/winvde_hash.c:40-56 | packing what is read back gives the key again, for every 64-bit key |
| `KeyPacking.KeysCollide` | winvde_switch/winvde_hash.c:55-56 | two keys are equal if and only if the addresses are, and the VLANs modulo 2^16 |
| `Learning.ChangesApart` | winvde_switch/winvde_hash.c:429-443 | in any sequence of sightings two changes of an entry's port are more than the persistence apart |
| `Learning.RefreshedKeeps` | winvde_switch/winvde_hash.c:429-443 | an entry stays with its port if and only if every sighting elsewhere comes within the persistence of a sighting of the owner |
| `Learning.LearnDoes` | winvde_switch/winvde_hash.c:406-442 | one row changes: it is another port's that was heard within the persistence and stays, or it becomes this port's and is stamped, new rows included |
| `Learning.WithoutIs` | winvde_switch/winvde_hash.c:664-667 | which rows each visitor leaves, by port, by age, or none |
| `Stability.MovesWhen` | winvde_switch/winvde_port.c:2011-2021 | in a step of the whole switch an address moves if and only if another port sends from it after the owner was silent for longer than the persistence |
| `Stability.ChangesApartInRun` | winvde_switch/winvde_hash.c:429-443 | in a run of the whole switch, two changes of port of an address that stays in the table are more than the persistence apart |
| `Stability.OwnerKeeps` | winvde_switch/winvde_hash.c:429-443 | an address that is heard within the persistence before each step of a run stays with its port |
| `ChainedHash.HashTable.constructor` | winvde_switch/winvde_hash.c:680-697 | a table of 2^bits empty buckets, each key with a bucket inside it |
| `ChainedHash.HashTable.Find` | winvde_switch/winvde_hash.c:402-405 | the walk of a chain finds the entry of a key if and only if the map has the key, with its port and time |
| `ChainedHash.HashTable.FindInHash` | winvde_switch/winvde_hash.c:385-393 | the port that the map gives for the key, or -1 |
| `ChainedHash.HashTable.FindUpdate` | winvde_switch/winvde_hash.c:395-444 | the map learns or refreshes the one key, by the persistence rule; the old port is returned, and the pointer structure stays sound |
| `ChainedHash.HashTable.Delete` | winvde_switch/winvde_hash.c:651-662 | unlinking through the back pointer removes the key from the map and closes the gap in its chain |
| `ChainedHash.HashTable.ForAllHash` | winvde_switch/winvde_hash.c:124-135 | every key is shown to the visitor exactly once, though it may delete the entry it is shown, and exactly the entries it chooses are gone |
| `ChainedHash.HashTable.DeletePort` | winvde_switch/winvde_hash.c:699-755 | exactly the entries of the port are gone |
| `ChainedHash.HashTable.Resize` | winvde_switch/winvde_hash.c:570-598 | an empty table of at least the size asked for and less than twice it |
| `ChainedHash.Po2Round` | winvde_switch/winvde_hash.c:104-121 | the least number of bits for a size, and none for 0 |
| `PacketFlow.InOrder` | winvde_switch/winvde_port.c:2369-2387 | in every run what the sender was given, then what waits, is the packets offered, in order, without those lost |
| `PacketFlow.NoOvertaking` | winvde_switch/winvde_port.c:2369-2387 | what was given or queued at one time is never reordered or withdrawn later |
| `PacketFlow.OfferFate` | winvde_switch/winvde_port.c:2374-2385 | an offer is lost without a trace, when the queue is full or memory fails, or it has its place for good behind all before it |
| `PacketFlow.WithinLimit` | winvde_switch/winvde_port.c:2377 | while the limit is not changed the queue stays within it |
| `PacketFlow.OfferDoes` | winvde_switch/winvde_port.c:2374-2385 | a packet goes to the sender at once if and only if nothing waits and it does not block; it waits if there is room and memory, and is lost otherwise |
| `PacketFlow.DrainDoes` | winvde_switch/winvde_packetq.c:67-93 | packets leave from the front, none that blocks, until the first that does or the end |
| `PacketQueue.Add` | winvde_switch/winvde_packetq.c:12-38 | one node more at the end of one ring, with the copy made earlier if there is one; the failures of malloc change nothing |
| `PacketQueue.TrySend` | winvde_switch/winvde_packetq.c:67-93 | the packets given to the sender are the first of the queue, in order, up to the first that blocks, which stays |
| `PacketQueue.Del` | winvde_switch/winvde_packetq.c:45-65 | the queue is emptied and every copy it held last is freed |
| `PacketQueue.Release` | winvde_switch/winvde_packetq.c:76-79 | a copy is freed if and only if no other queued node of any endpoint holds it |
| `PacketQueue.HandleOut` | winvde_switch/winvde_port.c:2490-2498 | one drain of the queue in the sense of the flow; the counter and the poll flag agree with it afterwards |
| `PacketQueue.SendTo` | winvde_switch/winvde_port.c:2374-2385 | one offer in the sense of the flow, to one endpoint |
| `PacketQueue.SendPort` | winvde_switch/winvde_port.c:2369-2387 | each endpoint of the port is offered the packet once, all sharing one copy |
| `PacketQueue.Attach` | winvde_switch/winvde_port.c:2256-2264 | a new endpoint starts with an empty queue and the others are as they were |
| `PacketQueue.Close` | winvde_switch/winvde_port.c:1894-1917 | an endpoint that goes takes its nodes with it and leaves the shared copies of the others |
| `PacketQueue.SetMax` | winvde_switch/winvde_port.c:2449-2468 | the limit of one endpoint changes and nothing else does |
| `PacketQueue.Waiting` | winvde_switch/winvde_packetq.c:27 | a waiting node carries the packet that was queued at its endpoint under its number |
| `PacketQueue.Conserved` | winvde_switch/winvde_packetq.c:27-28 | the count of a copy is the number of nodes, over all queues, that hold it, and one at least does |
| `Transmission.SendPorts` | winvde_switch/winvde_port.c:2063-2077 | each endpoint of each port of a broadcast set is offered the packet once |
| `Transmission.FloodOut` | winvde_switch/winvde_port.c:2030-2160 | a flood, down to the queues: each endpoint of each other active member is offered the very bytes of its copy once and no other queue changes; the copies of the two scans are not mixed |
| `TimerSpec.TimerExact` | winvde_switch/winvde_qtimer.c:88-128 | in every run a timer that is not deleted is called at birth + k * period for k = 1 to its number of calls, never else, and is kept until the tick after the last call |
| `TimerSpec.CalledAsAsked` | winvde_switch/winvde_qtimer.c:150-190 | a timer added for n calls, with any events before and after but its deletion, is called once at the end of each period since, n times at most, with the function and argument given; it is recycled after the last |
| `TimerSpec.AddRefused` | winvde_switch/winvde_qtimer.c:153 | an addition changes nothing if and only if it has no period, no function or a negative number of calls |
| `TimerSpec.DelDoes` | winvde_switch/winvde_qtimer.c:192-208 | the first timer with the number is left without calls, and no other changes; an unknown number changes nothing |
| `TimerSpec.DeletedSilent` | winvde_switch/winvde_qtimer.c:97-103 | a deleted timer is never called again |
| `TimerSpec.NotForever` | winvde_switch/winvde_qtimer.c:185 | a timer added with 0 calls, and never deleted, has been called 2^32 - 1 times and is recycled once that many periods are over |
| `TimerSpec.NothingOverdue` | winvde_switch/winvde_qtimer.c:97-124 | after any run a timer with calls left is due in the future |
| `TimerSpec.DeletedByNumber` | winvde_switch/winvde_qtimer.c:180-207 | deleting by the number that an addition returned stops the timer just added if and only if it is the only one |
| `TimerSpec.DeletesTheOther` | winvde_switch/winvde_qtimer.c:180-207 | the input that shows it: two additions, and a deletion by the second number stops the first |
| `TimerWheel.Wheel.Tick` | winvde_switch/winvde_qtimer.c:88-128 | the compaction in place makes the calls of the abstract tick in order, keeps the survivors in order, and no timer is lost or doubled between the array and the free list |
| `TimerWheel.Wheel.Add` | winvde_switch/winvde_qtimer.c:150-190 | one timer more at the end; memory is asked for a timer only when no free one is left |
| `TimerWheel.Wheel.Del` | winvde_switch/winvde_qtimer.c:192-208 | the first timer with that number is left without calls |
| `Framing.ChunkInvariance` | WinVde/winvde_stream.c:75-131 | the receiver delivers just the packets that were sent if and only if no chunk ends between the two bytes of a header; then it also ends idle |
| `Framing.CutHeaderLoses` | WinVde/winvde_stream.c:96-100 | the input that shows it: one packet whose header is cut in two is lost |
| `Framing.FeedAllWeight` | WinVde/winvde_stream.c:75-131 | the bytes of the packets delivered and of the part held never exceed those that arrived |
| `Framing.ScanOdd` | WinVde/winvde_stream.c:96-113 | after whole packets, all delivered, a size of 0 is skipped, a size too large ends the chunk with an error, and a last single byte is dropped without one |
| `Framing.FeedPartial` | WinVde/winvde_stream.c:82-95 | the packet in progress is completed and delivered before anything else is read |
| `StreamReceiver.Stream.Recv` | WinVde/winvde_stream.c:75-131 | one call delivers, holds and answers what the abstract receiver does |
| `Tokenizer.TablesMean` | WinVde/parseparameters.c:28-45 | the two tables are the quoting rules: state by state, character by character |
| `Splitting.TakeSplit` | WinVde/parseparameters.c:203-244 | taking tokens one after the other is splitting the whole string |
| `Splitting.RoundTrip` | WinVde/parseparameters.c:203-244 | escaping fields, joining them by a delimiter and splitting gives the fields back, empty ones included |
| `Quoting.SingleQuoted` | WinVde/parseparameters.c:28-45 | between single quotes everything but a single quote is text: delimiters, double quotes and backslashes are kept, and the quotes dropped |
| `Quoting.DoubleQuoted` | WinVde/parseparameters.c:28-45 | the same for double quotes |
| `Quoting.QuotedRoundTrip` | WinVde/parseparameters.c:28-45 | fields, each written in any mixture of bare, single-quoted, double-quoted and backslashed stretches, joined by a delimiter: splitting gives the text of each |
| `Quoting.LeftOpen` | WinVde/parseparameters.c:28-45 | a quote that is not closed takes in the rest of the string, and a last backslash is dropped |
| `Quoting.QuotedSpace` | WinVde/parseparameters.c:28-45 | a quoted space does not split |
| `Splitting.CutDropsLast` | WinVde/parseparameters.c:276-306 | cutting at the last delimiter that counts drops the last token and keeps the others; without one there is one token |
| `Tokenizer.Strtokq` | WinVde/parseparameters.c:203-244 | the token lies where the string began, the rest untouched at the position saved; nothing else is written |
| `Tokenizer.Tokens` | WinVde/parseparameters.c:316-319 | calling it until it has no more gives all tokens of the string, all in the buffer at the end; for fields escaped, or written in any mixture of quotes and backslashes, and joined by a delimiter, these are the fields |
| `Tokenizer.StrtokqRev` | WinVde/parseparameters.c:276-306 | the string ends at its last delimiter that counts, or is unchanged |
| `MemoryStream.HoldsReaching` | winvde_switch/winvde_memorystream.c:75-132 | after any writes the file holds the writes up to the first that ends at the end of a chunk; it holds all of them if and only if the others are empty |
| `MemoryStream.Stuck` | winvde_switch/winvde_memorystream.c:86-90 | a file that ends at the end of a chunk never grows again |
| `MemoryStream.ByteLost` | winvde_switch/winvde_memorystream.c:86-90 | the input that shows it: a byte written after 1024 bytes is lost |
| `MemoryStream.MemoryFile.Write` | winvde_switch/winvde_memorystream.c:75-132 | a write is refused, with -1 and without effect, if and only if it is empty or the file ends at the end of a chunk; otherwise all of it is appended, and all chunks but the last are full |
| `MemoryStream.MemoryFile.GetBuffer` | winvde_switch/winvde_memorystream.c:134-173 | the bytes handed out are the contents, of the recorded size |
| `DirectCache.Cache.Find` | WinVde/winvde_hashtable.c:47-81 | what is found is the lookup in the history of updates |
| `DirectCache.Cache.FindUpdate` | WinVde/winvde_hashtable.c:83-114 | the history grows by the update, which changes its own slot only, and none for a group address |
| `DirectCache.FoundIsLast` | WinVde/winvde_hashtable.c:47-81 | for a non-negative age limit, or a slot once written, something is found if and only if the last update of the slot was the last for that address and VLAN and is recent, and then its payload is |
| `DirectCache.UpdateDoes` | WinVde/winvde_hashtable.c:83-114 | a group address changes no lookup; any other update changes those of its slot, where it is found by its own address and VLAN only, while recent |
| `DirectCache.PhantomHit` | WinVde/winvde_hashtable.c:47-81 | the input that shows it: with an age limit of -1 a lookup in a fresh cache finds the zeros that fill it |
| `DirectCache.NothingHidden` | WinVde/winvde_hashtable.c:83-114 | without collisions no update is hidden |

## Left out

- SwitchFabric.Switch.PortSetNumPorts: models a new count that needs at least as many words per bit array as the old one and fits 16 bits, and no port barred from learning beyond it, which no run has; shrinking below that reads past the new block in the source (`winvde_switch/bitarray.h:109`), and counts above 65535 are covered by `SwitchSafety.SetNumPortsKeeps`.
- SwitchFabric.Switch.VlanRemove: does not cover VLAN 0, whose removal loses the invariant; `SwitchSafety.VlanRemoveKeeps` covers every VLAN.
- SwitchFabric.Switch.PortCreate: needs the index that `alloc_port` returns to exist, as do `SwitchFabric.Switch.Reserve` and `SwitchFabric.Switch.Attach`; the source dereferences a null port otherwise.
- SwitchFabric.Switch.HandlePacket: the packet comes from an attached endpoint and lies in a bipacket buffer; packet filters and port counters are not part of the model.
- SwitchFabric.Switch.Gc: follows the meant reading of `hash_gc` given above.
- ChainedHash.HashTable.FindInHash: follows the meant reading of `find_entry` given above.
- ChainedHash.HashTable.Resize: covers sizes up to 2^30; above that the number of buckets overflows the type it is computed in and the program exits.
- SwitchFabric.Switch.HashResize: covers sizes up to 2^30, for the same reason.
- ChainedHash.HashTable.constructor: of the mixing of keys only that it yields a bucket inside the table is stated; any such hash gives the same map.
- ChainedHash.HashTable.FindUpdate: the allocation of a new entry succeeds.
- BitArray.Realloc: covers growth only, for the reason given above.
- StreamReceiver.Stream.Recv: a callback for errors is installed; without one an oversized packet overruns the fragment buffer in the source.
- Tokenizer.Strtokq: strings end in a null character inside the buffer; the decoding of percent signs is left out because no entry of the tables asks for it.
- TimerWheel.Wheel.Tick: the callbacks do not add or delete timers themselves.
- TimerWheel.Wheel.Add: the allocations succeed.
- DirectCache.Cache.Find: the hash is any function into the table; its mixing is not described.
- The bit arrays and port structures of `SwitchFabric.Switch` are values in its fields, so that aliasing between them is not described; the arrays of `BitArray`, the packet buffer, the hash table, the queues and the timers are heap structures, updated in place.
- The chain of buffers of `MemoryStream.MemoryFile` is a sequence of chunks; its back pointers are not described.
- In `PacketQueue`, `PacketFlow` and `Transmission` counters and limits are unbounded; the source keeps the count of a copy and the limits of queues in machine words.
- The build is the one with `VDE_PQ2` and without `FSTP`, so the spanning tree code and the variant without queues are not part of this model.
- The access check of a port, the answers of the sender and, where a packet can be lost by it, the answers of malloc are parameters; other allocation failures are left out.
- The values of `switch_errno`, returned or stored, are one code per outcome.
- Commands take integers already read; their text, the printing commands, `portsetuser`, `portsetgroup`, the debug events and the logs are left out.
- Sockets, polling, files, processes, plugins, tap devices, user lookup, the terminal, the history and the network node are left out; a poll mask is one flag per endpoint.
- `ba_negate`, `ba_copy`, `ba_empty`, `bac_realloc`, `strtokq_nostrip_r`, `winvdestream_send`, `winvde_hash_delete` and `_winvde_hash_table_init` are left out: they are not used by what is modelled, or do not do what their names say.
