# A model of the packet encryptor's data plane

The program takes frames from LAN interfaces, encrypts them under a policy at layer 2, 3 or 4, cuts long ones in two, sends them over several weighted WANs, and undoes all of it on the far side. This project models the parts of it that carry state or rewrite packets in place, and proves what they are for. `dafny verify dfyconfig.toml` checks all of it.

| files | what they model |
|---|---|
| `Bytes`, `Bits`, `Modular`, `Masks`, `Lists` | bytes, fixed widths, block moves, exclusive or, division by variables, address masks, filtering |
| `Cipher`, `Checksum`, `Ipv4`, `Wire` | sealing with key retry, Internet checksums, header patching and fixup, the layout shared by the layers |
| `Layer2`, `Layer3`, `Layer4`, `Sealing`, `HeaderLaws` | encryption and decryption of whole packets and of fragments, in place; what sealing does to each byte and which packets open; which packets each layer refuses, passes and seals |
| `Split`, `SplitLaws`, `Dispatch`, `FragTable`, `FragRuns`, `Delivery`, `Reassembly`, `EndToEnd` | cutting and which frames are cut, recognising fragments, the reassembly table, whole runs of it, when two halves meet, and sender and receiver together |
| `Wan` | a packet from a WAN through the tests and stages of all three layers |
| `Rings`, `RingSteps`, `RingCalls`, `Frames`, `FramePaths` | the rings and the frame pool, a ring load by load and store by store and the calls that go through it, who owns a frame in any interleaving of all threads and the kernel, and where frames can get |
| `WanPool`, `FlowTable`, `Rotation`, `FlowLaws` | the weighted choice of a WAN, the table that pins flows to one, whole runs of a flow through its WANs, expiry and the spread of new flows |
| `PqcSend`, `PqcReceive`, `PqcTiming` | handshake messages in fragments, and how far apart they may come |
| `Reload`, `Policies`, `Base64` | the reload handshake, policy selection and validation, key text |

## How the code is rendered

- A packet buffer is an `array<uint8>`. Each operation that rewrites one is a method whose `ensures` gives the new contents as a function of the old (`Splice`), so the order of moves, the overlap of fragment 0 with the frame it is cut from, and the bytes left alone are all covered. The laws are lemmas about these functions.
- The ciphers are arbitrary key streams and tag functions (`Cipher.Suite`): nothing is assumed of them, so every result holds for any. Keys, nonces, packet ids, clocks and what `malloc` returns are inputs. CTR and GCM encrypt whole packets before moving them, PQC after; the buffer ends the same.
- A failed decryption leaves the buffer unspecified, as the code leaves it half decrypted.
- `Table`, `Ring`, `Pool`, `Receiver` and `FlowTable` are classes over the fields of the C structures; linked lists are sequences in list order.
- `RingSteps`, `Frames` and `Reload` are state machines: an event is one atomic step of one thread or of the kernel, and the theorems are about all sequences of events. `Frames` includes the code's own overflow branches, in which frames would be lost, and proves that they are never taken.
- To the table an empty second half at layer 4 is what one too long for its buffer is (`FragTable.EmptyIsTooLong`), so the theorems about runs cover it.
- The sender's settings (mode, fake protocol and ethertype) are also the receiver's, and the sender's key is the receiver's current one; `Cipher.OpenSealLater` covers other slots.

## Where the code falls short of its intent

Each of these is proved, most of them as one side of an exact condition; the dead branches follow from `FragTable.PutMeaning` and the size lemmas of `Split`.

- A frame whose IP version is not 4 is cut and sent, but its first fragment is refused, at every layer.
- At layer 2 a second half of fewer than 20 bytes is refused, so frames of 1501 - k to 1519 - k bytes are lost, k being the overhead (`EndToEnd.RestoredL2`).
- Probing misses a half stored behind a slot that has become free (`FragRuns.ProbingMissesAfterJoin`): it is found exactly when every slot on the way holds another live id (`FragRuns.ProbeFindsExactly`), so a packet whose half was stored away from its own slot is lost if one of these slots is free when its other half comes (`Delivery.DeliveredIff`).
- Layer 3 sends a packet in clear when its payload's byte 13 is 0x5C, and never decrypts one whose protocol is 0x5C (`Layer3.RoundTrip`). Layer 2 leaves a packet encrypted when its ciphertext looks like a fragment marker (`Layer2.RoundTrip`), and passes packets of 22 to 27 bytes in clear when they are not IPv4, which its own receiver then refuses (`HeaderLaws.WhatL2Leaves`).
- CTR has no tag, so the receiver judges a plaintext by its look. At layer 2 it loses packets with TTL 0 and every IPv4 protocol but the ten it lists (IP-in-IP, PIM, VRRP, EIGRP and others); at layer 3 TCP and UDP packets with a payload under 4 bytes or with two zero ports are not recovered.
- A slot of the direct tables is taken by any half that fits, so an id that collides within the timeout loses the packet stored there (`Delivery.DeliveredIff`).
- Layer 4 encrypts packets behind VLAN tags, but the receiving side drops them: layer 2 lets only plain IPv4 through (`Wan.WholeArrivesL4`).
- What layer 2 or 3 gives back is offered to the layers that follow: a frame in which these find one of their policies is decrypted again, kept as a fragment, or dropped (`Wan.ArrivesL2`, `Wan.ArrivesL3`). So is one that layer 4 passed in clear and that looks sealed (`Layer4.RoundTrip`).
- A flow on an enabled WAN whose window size is 0, or whose index is not below `wan_count`, never leaves it; when no weight is positive, neither does one whose window size is less than the number of WANs. The rotation goes on for ever if and only if no enabled WAN is like that (`Rotation.GoesRoundIff`, `Rotation.LimitPositiveIff`).
- `frag_need_split_l4` forgets the tag in PQC mode: packets of 1471 to 1478 bytes leave unsplit and too long (`Split.UnsplitWithinMtu`). PQC at layer 4 also counts the tag twice in the outer length (`Layer4.OuterLengthRightExceptPqc`).
- The PQC sender never ends for 65536 bytes or more (`PqcSend.SendEndsIff`).
- A computed UDP checksum of zero is stored as zero, which RFC 768 reserves for "no checksum": exactly when the sum over pseudo header and datagram is a multiple of 65535 (`Checksum.UdpChecksumZeroIff`; `Checksum.UdpChecksumCanBeZero` is such a datagram).
- Two branches of `src/core/fragment.c` are dead: a join never exceeds the 4096-byte output, and the cap on the first half never applies to a frame that needs splitting.

## Model

| member | source | states |
|---|---|---|
| EndToEnd.RestoredL3 | src/core/fragment.c:171-266 | a frame that layer 3 splits comes back byte for byte, fragments in either order and calls for other ids in between, if and only if its IP version is 4, the second half fits the table's buffer and no half of another packet takes its slot |
| EndToEnd.RestoredL4 | src/core/fragment.c:434-587 | the same at layer 4, where what comes back is the fixed-up frame |
| EndToEnd.RestoredL2 | src/core/fragment.c:268-432 | the same at layer 2, where the second half must have 20 bytes or more, and where, wherever probing put the first half, there must have been a free slot and the slots on the way to it must still be taken; otherwise nothing is ever joined |
| EndToEnd.TwoArrive | src/core/dataplane_wan.c:82-180 | what two fragments of one id amount to, decided by the halves the receiver reads from them |
| EndToEnd.ReceiveInPlace | src/core/dataplane_wan.c:82-180 | decrypting a fragment in its frame, offering it to the table and copying a joined packet back is the function the theorems are about |
| EndToEnd.PickMeans | src/core/crypto_route.c:50-110 | a marked packet goes to the worker its index names, or else to the first worker pinned to that processor |
| EndToEnd.SameWorker | src/core/crypto_route.c:78-110 | both fragments of a packet are routed to the same worker: the one that encrypted it if encryption is enabled and the policy is known, else worker 0 |
| Wan.ArrivesL3 | src/core/dataplane_wan.c:182-247 | of a frame split at layer 3, `decrypt_wan` hands on nothing at the first fragment and, at the second, the frame with layer 4's table untouched, if and only if layer 3 restores it and layer 4 finds no policy in it |
| Wan.ArrivesL4 | src/core/dataplane_wan.c:182-247 | of a frame split at layer 4 it hands on the fixed-up frame if and only if layer 4 restores it |
| Wan.ArrivesL2 | src/core/dataplane_wan.c:182-247 | of a frame split at layer 2 it hands on the frame, the tables of layers 3 and 4 untouched, if and only if layer 2 restores it and neither of the others takes it for one of its own |
| Wan.UntouchedFromL3 | src/crypto/crypto_dispatch.c:37-232 | layers 3 and 4 leave a packet and their tables alone exactly when neither finds a fragment or a policy of its own in it |
| Wan.OnlyFragmentsStored | src/core/dataplane_wan.c:182-247 | a layer keeps a packet, or changes its table, only for what its own test takes for a fragment |
| Wan.WholeArrivesL3 | src/core/dataplane_wan.c:182-247 | a packet encrypted whole at layer 3 is handed on, checksums recomputed, if and only if its protocol is not the fragment magic, it is plausible in CTR mode, and layer 4 finds no policy in it |
| Wan.WholeArrivesL4 | src/core/dataplane_wan.c:182-247 | one encrypted whole at layer 4 is handed on fixed up, and dropped if it is behind VLAN tags |
| Wan.WholeArrivesL2 | src/core/dataplane_wan.c:182-247 | one encrypted whole at layer 2 is handed on if and only if layer 2 recovers it and neither of the others takes it for one of its own |
| EndToEnd.IdsShareSlot | src/core/fragment.c:14-16 | two packets of a sender share a table slot exactly when a multiple of 4096 packets lies between them, across the wrap-around of 16-bit ids |
| Dispatch.SplitDispatchedL3 | src/core/fragment.c:135-169 | both fragments of a frame split at layer 3 are recognised with their id and index by layer 3's test and by no other layer's, when the fake ethertype is not IPv4's and the fake protocol not TCP or UDP |
| Dispatch.SplitDispatchedL4 | src/core/fragment.c:491-529 | the same for layer 4 |
| Dispatch.SplitDispatchedL2 | src/core/fragment.c:338-378 | the same for layer 2 |
| Dispatch.HasPolicy | src/core/fragment.c:152-168 | the loop finds a policy of the action whose number has the wire's low byte, if there is one |
| Split.FragSplitAndEncrypt | src/core/fragment.c:171-225 | both fragments, built in the frame's buffer and a second one, are those of the untouched frame |
| Split.FragSplitAndEncryptL2 | src/core/fragment.c:268-336 | the same at layer 2 |
| Split.FragSplitAndEncryptL4 | src/core/fragment.c:434-489 | the same at layer 4 |
| Split.SizesL3 | src/core/fragment.c:194-222 | fragment 0 never exceeds 1500 bytes and is exactly 1500 for a frame that needs splitting; then fragment 1's length is determined, at most 1500 for frames up to 1514 |
| Split.SizesL4 | src/core/fragment.c:454-487 | the same at layer 4 |
| Split.SizesL2 | src/core/fragment.c:296-333 | the same at layer 2, with the second half's length pkt_len + k - 1500 |
| Split.UnsplitWithinMtu | inc/core/fragment.h:43-60 | what is not split fits 1500 bytes once encrypted, except exactly PQC packets of more than 1470 bytes at layer 4 |
| SplitLaws.SplitFrom | inc/core/fragment.h:43-60 | the shortest frames that are split, in bytes |
| SplitLaws.SplitMadeL3 | src/core/fragment.c:171-225 | a long frame of at most 1514 bytes becomes two fragments if and only if it is untagged TCP or UDP with whole headers and at least a byte of data: no header is so long that the cut could not fall behind it |
| SplitLaws.SplitMadeL4 | src/core/fragment.c:434-489 | the same at layer 4 |
| SplitLaws.SplitMadeL2 | src/core/fragment.c:268-336 | the same at layer 2, where other protocols are split too, and nothing without a fake ethertype |
| FragTable.Table.OfferHalf | src/core/fragment.c:54-133 | a call leaves the table and answers as the step function says |
| FragTable.Table.Acquire | src/core/fragment.c:97-112 | the probing loop finds the first slot that is dead or holds the id |
| FragTable.Table.Sweep | src/core/fragment.c:28-35 | garbage collection empties exactly the expired busy entries |
| FragTable.PutMeaning | src/core/fragment.c:54-133 | a call joins exactly when a live half of the other kind is stored under the same id, and replaces whatever else was there |
| FragRuns.ReachableInv | src/core/fragment.c:54-133 | in every reachable table no entry holds both halves after a call |
| FragRuns.JoinsTwoOfferedHalves | src/core/fragment.c:63-133 | every joined packet consists of a first and a second half that were offered under one id no more than the timeout apart, collisions and probing included |
| FragRuns.GcInvisible | src/core/fragment.c:28-35 | collecting at any points of any run changes no answer |
| FragRuns.RefinesIdeal | src/core/fragment.c:238-266 | while live ids have slots of their own, both kinds of table answer every run as a timed map keyed by id does |
| Delivery.DeliveredIff | src/core/fragment.c:54-133 | two halves offered within the timeout among calls for other ids are joined if and only if, with direct slots, none of these stores a half in their slot, or, with probing, there was a free slot for the first and the slots on the way to it are still taken when the second comes |
| FragRuns.ProbeFindsExactly | src/core/fragment.c:97-112 | probing finds a stored half exactly when every slot on the way holds another live id |
| FragRuns.ProbingMissesAfterJoin | src/core/fragment.c:97-112 | a run of four calls on two colliding ids in which the second packet is missed |
| Reassembly.TryReassemble | src/core/fragment.c:227-266 | return code, table and output buffer of the three reassembly functions, the entry that an empty second half clears included |
| Reassembly.TwoCallsComplete | src/core/fragment.c:380-432 | the two calls for one packet complete it if and only if both halves are admitted and fit their buffers and the second still finds the first |
| HeaderLaws.WhatL4AdmitsFirst | src/core/fragment.c:531-587 | a first half is admitted if and only if it starts with a whole IPv4 header of TCP or UDP and eight bytes more |
| HeaderLaws.WhatL4AdmitsSecond | src/core/fragment.c:531-587 | a second half is admitted unless it is empty, and an empty one clears its entry |
| Layer3.RoundTrip | src/crypto/crypto_layer3.c:79-336 | for every packet and mode: encryption refuses exactly empty PQC payloads; decryption returns the packet with its checksums recomputed if and only if it carries no fragment magic and, in CTR mode, has plausible ports; the others stay in clear or encrypted as stated |
| Layer3.NormalisedKeeps | src/crypto/crypto_layer3.c:205-243 | recomputing the checksums changes no byte outside the two checksum fields |
| Layer3.EncryptInPlace | src/crypto/crypto_layer3.c:79-161 | the packet's buffer after encryption, all three modes and the error returns |
| Layer3.DecryptInPlace | src/crypto/crypto_layer3.c:163-336 | the packet's buffer after decryption with key retry |
| Layer3.FragmentRoundTrip | src/crypto/crypto_layer3.c:338-526 | a fragment decrypts to its plaintext, id and index behind the header it travelled under |
| Layer4.RoundTrip | src/crypto/crypto_layer4.c:143-341 | decryption after encryption is `crypto_layer4_fixup_packet` of the packet, VLAN tags included; a packet passed in clear is returned as it is if and only if it does not look sealed; refused packets are given exactly |
| Layer4.FragmentRoundTrip | src/crypto/crypto_layer4.c:355-558 | a fragment decrypts to its plaintext, id and index behind headers and ports |
| Layer4.OuterLengthRightExceptPqc | src/crypto/crypto_layer4.c:401-454 | the outer total length is the fragment's, plus 16 in PQC mode |
| Layer4.EncryptInPlace | src/crypto/crypto_layer4.c:143-234 | the packet's buffer after encryption |
| Layer4.DecryptInPlace | src/crypto/crypto_layer4.c:236-341 | the packet's buffer after decryption and fixup |
| Layer2.RoundTrip | src/crypto/crypto_layer2.c:105-285 | for every packet and mode: decryption after encryption is the identity except exactly for packets that stay encrypted, CTR packets that are not plausible and are lost, and those that lose two bytes |
| Layer2.FragmentRoundTrip | src/crypto/crypto_layer2.c:299-475 | a fragment decrypts to its plaintext, id and index |
| Layer2.FragmentCarriesWorker | src/crypto/crypto_layer2.c:45-54 | a fragment on the wire shows its marker, policy, worker, id and index where the receiver looks |
| Layer2.EncryptInPlace | src/crypto/crypto_layer2.c:105-173 | the packet's buffer after encryption |
| Layer2.DecryptInPlace | src/crypto/crypto_layer2.c:202-285 | the packet's buffer after decryption, ethertype restored |
| HeaderLaws.WhatL2Seals | src/crypto/crypto_layer2.c:105-125 | layer 2 refuses exactly packets of less than 22 bytes, seals untagged IPv4 if it has a fake ethertype, and passes the rest in clear |
| HeaderLaws.WhatL2Leaves | src/crypto/crypto_layer2.c:202-225 | the receiver leaves a packet of 28 bytes or more alone if and only if it does not carry the fake ethertype or is a fragment |
| HeaderLaws.WhatL3Refuses | src/crypto/crypto_layer3.c:79-110 | which packets layer 3 refuses, in bytes: too short, IPv4 without a whole header, PQC without a payload |
| HeaderLaws.WhatL3Passes | src/crypto/crypto_layer3.c:79-110 | it passes in clear exactly what is not IPv4 or looks like a fragment, and seals the rest behind the header |
| HeaderLaws.WhatL3Leaves | src/crypto/crypto_layer3.c:163-200 | the receiver leaves a packet alone if and only if it is no IPv4 frame of the fake protocol with a tunnel header, or looks like a fragment |
| HeaderLaws.WhatL4Refuses | src/crypto/crypto_layer4.c:143-161 | layer 4 refuses exactly IPv4 that is cut short, and TCP or UDP whose header length is less than five words |
| HeaderLaws.WhatL4Seals | src/crypto/crypto_layer4.c:143-171 | it seals exactly TCP and UDP with a whole transport header |
| HeaderLaws.TcpHeaderIs | src/crypto/crypto_layer4.c:30-45 | a TCP header counts as many words as the high half of byte 12 says, if at least five and all there |
| HeaderLaws.OffsetIs | src/crypto/crypto_layer4.c:61-85 | the IPv4 header is found behind no VLAN tag, one or two, and nowhere else |
| Wire.AssembleSealed | src/core/fragment.c:212-222 | laying out and sealing a fragment is the same whether or not the output buffer is the source |
| Sealing.WiresAreSealed | src/crypto/packet_crypto.c:303-425 | behind its headers every packet and fragment of the three layers carries its payload sealed: each byte differs from the plaintext's, bit for bit, by the key stream's, and in the GCM modes the tag over them follows |
| Sealing.OpensIffTagFits | src/crypto/packet_crypto.c:383-425 | with a tag and a ciphertext that is not empty a packet opens if and only if one of the keys tried gives its tag |
| Sealing.OpensIffPlausible | src/crypto/crypto_layer3.c:268-300 | in CTR it opens if and only if some key makes it plausible |
| Sealing.OpensInOrder | src/crypto/crypto_layer3.c:268-300 | of what fits the backup the receiver takes the plaintext under its current key if that passes the check, else under the previous, else under the next; in PQC under the current one only |
| Sealing.ShortOnes | src/crypto/packet_crypto.c:383-391 | what is shorter than a tag never opens; an empty ciphertext opens unchecked in GCM, not in PQC |
| Sealing.ForgedL3 | src/crypto/crypto_layer3.c:163-336 | a packet layer 3 takes for encrypted is decrypted if and only if its tag is right under one of the receiver's keys |
| Sealing.ForgedL4 | src/crypto/crypto_layer4.c:236-341 | at layer 4 none is given out otherwise |
| Sealing.ForgedL2 | src/crypto/crypto_layer2.c:202-285 | at layer 2 whole packets open under the current key only, fragments under any |
| Sealing.ForgedFragment | src/crypto/crypto_layer3.c:428-526 | the same for fragments of layers 3 and 4 |
| Sealing.CtrKeepsL2 | src/crypto/crypto_layer2.c:75-87 | in CTR a packet sent at layer 2 comes back if and only if its TTL is not 0 and its protocol one of ten, by number |
| Sealing.CtrBelievesL3 | src/crypto/crypto_layer3.c:60-71 | what CTR asks of a payload at layer 3, in bytes |
| Cipher.OpenSeal | src/crypto/packet_crypto.c:303-425 | what was sealed opens again under the same key, in all three modes |
| Cipher.OpenSealLater | src/crypto/crypto_layer3.c:268-300 | a packet under a later key slot opens if no earlier key takes it and it fits the backup buffer |
| Cipher.RetryInPlace | src/crypto/crypto_layer3.c:268-300 | the retry loop over the buffer, restoring the ciphertext only when it was backed up |
| Ipv4.FixupCanonical | src/crypto/crypto_layer4.c:100-141 | a fixed-up packet has its total length, header checksum, UDP length and transport checksum right, and fixing it again changes nothing |
| Ipv4.PatchIpv4 | src/crypto/crypto_layer3.c:28-36 | length and header checksum written in place |
| Checksum.IpChecksumVerifies | src/crypto/packet_crypto.c:474-487 | with the result stored, the header's one's-complement sum is all ones (section 3.1 of RFC 791, section 1 of RFC 1071) |
| Checksum.TcpChecksumVerifies | src/crypto/packet_crypto.c:489-518 | the same for a TCP segment with its pseudo header |
| Checksum.UdpChecksumVerifies | src/crypto/packet_crypto.c:520-551 | the same for the part of a UDP segment that its length field spans |
| Checksum.TcpChecksumIgnoresField | src/crypto/packet_crypto.c:489-518 | the TCP result does not depend on the checksum stored in the segment |
| Checksum.TcpOverBytes | src/crypto/packet_crypto.c:489-518 | pseudo header (addresses, zero, 6, length) and finished segment, as bytes, sum to all ones (section 3.1 of RFC 793) |
| Checksum.UdpOverBytes | src/crypto/packet_crypto.c:520-551 | the same with 17 and the spanned part of a datagram (RFC 768) |
| Checksum.SpanIs | src/crypto/packet_crypto.c:520-551 | the part of a UDP segment that is summed is what its length field says, at least the header and at most what is there |
| Checksum.SumOdd | src/crypto/packet_crypto.c:474-487 | an odd last byte counts 256 times its value |
| Checksum.UdpChecksumZeroIff | src/crypto/packet_crypto.c:520-551 | the result is zero exactly when the sum over pseudo header and datagram is a multiple of 65535 |
| Checksum.FoldLoop | src/crypto/packet_crypto.c:484-486 | the folding loop ends with the sum's residue modulo 65535 in 16 bits |
| Checksum.CalcTcpChecksum | src/crypto/packet_crypto.c:489-518 | the loop that skips the checksum field computes the function above |
| Rings.Ring.TryPush | src/core/interface.c:286-304 | a push appends to the queue the ring holds, or fails exactly when it is full, across the wrap-around of 32-bit indices |
| Rings.Ring.TryPop | src/core/interface.c:307-328 | a pop takes the first element, or fails exactly when the queue is empty |
| Rings.Pool.Push | src/core/interface.c:364-375 | a batch goes in as far as there is room |
| Rings.Pool.Pop | src/core/interface.c:377-388 | a batch comes out in order, as many as there are |
| Rings.CapOkMeansPower | src/core/interface.c:249-251 | the capacity check accepts exactly the powers of two |
| Rings.MaskIsResidue | src/core/interface.c:300-303 | masking a free-running index, even a wrapped one, selects its residue |
| Rings.FirstInFirstOut | src/core/interface.c:286-328 | over any history with a queue's answers, what has left followed by what is held is what was accepted, in order, and no more than the capacity is held |
| RingSteps.StepKeepsInv | src/core/interface.c:286-328 | every single load or store of a push or a pop keeps the invariant that ties indices, slots and the two calls under way to the queue |
| RingSteps.Linearizable | src/core/interface.c:286-328 | in every interleaving of pushes under the lock with pops, each call takes effect at one of its own steps with the answer of a bounded queue; nothing is lost, repeated or overtaken |
| RingSteps.NoRace | src/core/interface.c:300-320 | the slot about to be written is never the slot about to be read |
| RingCalls.PushReturns | src/core/interface.c:286-304 | a push that finds the lock free ends within four steps of its own, whatever other threads do in between; it is then among the pushes that took effect, once, with the caller, element and answer of this call, and gives the lock back |
| RingCalls.PopReturns | src/core/interface.c:307-328 | the same for a pop |
| RingCalls.PushAdvances | src/core/interface.c:286-304 | each step of its own brings a push nearer to its end, or ends it with the answer "there was room" or "full" of the queue at that step; no other step concerns it |
| Rings.NextPow2Least | src/core/interface.c:98-109 | the least power of two not below the argument up to 2^31, zero above |
| Frames.StepKeepsInv | src/core/interface.c:724-1042 | every step of every thread and of the kernel keeps conservation, what workers hold, the room a splitting worker relies on, and the room reserved in the rings |
| Frames.NothingOverflows | src/core/interface.c:869-1042 | in a reachable state no step loses a frame: pool_push never falls short, no reserve fails, neither push of a split is refused |
| Frames.OneOwner | src/core/forwarder.c:121-212 | after every run each frame is in exactly one place, once |
| FramePaths.AllComeBack | src/core/interface.c:724-1042 | nothing gets stuck: after any run at all, some further steps bring every frame back to the pool and leave nothing anywhere else |
| FramePaths.EveryWayOpen | src/core/forwarder.c:121-212 | no way is ever barred: after any run, some further steps receive a frame on any given queue, take it through any given worker and send it on any given queue |
| Frames.PoolHasRoom | src/core/interface.c:364-375 | whatever a thread holds fits the pool |
| Frames.SplitSendsBoth | src/core/dataplane_local.c:24-47 | once the second frame is allocated both fragments reach the WAN ring, in order, whatever other threads do in between |
| Frames.SplitChecked | src/core/dataplane_local.c:24-32 | a split goes on from its check if and only if its lengths fit and its ring has two free slots |
| Frames.SplitAllocated | src/core/dataplane_local.c:34-36 | it gets a frame, the pool's first, if and only if the pool has one |
| Frames.SplitRuns | src/core/dataplane_local.c:24-47 | from the check on each step of a split can be taken whatever other threads do in between, and both frames end on the WAN ring, the packet's own first |
| Frames.OneThreadPerQueue | src/core/interface.c:740-748 | every hardware queue is served by exactly one thread |
| Frames.ServedInTurn | src/core/interface.c:740-748 | queues are dealt out in turn to all threads, or to as many as there are queues |
| WanPool.PerPacketShare | src/core/flow_table.c:223-272 | any sumw consecutive packet numbers give each WAN of positive weight exactly its weight |
| WanPool.PickPerPacket | src/core/flow_table.c:258-272 | the WAN of a packet number |
| WanPool.RotationVisitsAll | src/core/flow_table.c:209-221 | stepping over positions returns to its start after visiting every enabled position exactly once |
| WanPool.NextRank | src/core/flow_table.c:209-221 | the next position is the enabled one of the next rank, going round |
| WanPool.NextEnabledPos | src/core/flow_table.c:209-221 | the loop computes it |
| WanPool.SlotToWan | src/core/flow_table.c:223-238 | a slot number falls to the position that owns it |
| FlowTable.DirectionForgotten | src/core/flow_table.c:11-27 | two 5-tuples have one key exactly when they are the same flow up to direction |
| FlowTable.DirectionForgottenIps | src/core/flow_table.c:29-40 | the same for keys of two addresses |
| FlowTable.FlowTable.GetWanProfile | src/core/flow_table.c:274-378 | a packet updates the map at its flow's key and is sent to the WAN the flow was on |
| FlowTable.UpdatedFinds | src/core/flow_table.c:292-378 | an update changes the map at one key only, whatever shares the bucket |
| FlowTable.UpdatedOk | src/core/flow_table.c:331-378 | every entry stays in its hash bucket and no bucket holds a key twice |
| FlowTable.FlowTable.GcSlice | src/core/flow_table.c:382-409 | the scan with unlinking sweeps the buckets of the slice |
| FlowTable.SliceFinds | src/core/flow_table.c:382-409 | a slice removes from the map exactly the expired flows of the scanned buckets |
| FlowLaws.SeenIsNow | src/core/flow_table.c:309-346 | a packet leaves its own time in its flow's entry |
| FlowLaws.DroppedAfter60 | src/core/flow_table.c:382-409 | a slice that scans a flow's bucket drops it if and only if its last packet is more than 60 seconds old |
| FlowLaws.OpensByWeight | src/core/flow_table.c:351-361 | among any Sum(weights) consecutive hash values new flows open on each WAN as often as its weight says; without positive weights once each among as many as there are WANs |
| FlowLaws.IpsGoRound | src/core/flow_table.c:115-180 | flows by address only go round all WANs in order, moving on exactly when the window of the one they are on is used up |
| FlowTable.HashExample | src/core/flow_table.c:42-65 | the hash of one flow, worked out |
| FlowLaws.HashOfMixedBytes | src/core/flow_table.c:42-65 | and of another, whose addresses have eight different bytes |
| FlowLaws.SlotFollowsWan | src/core/flow_table.c:302-378 | while the pool stays the same every packet leaves the position of the flow's WAN in the entry |
| FlowLaws.MovedStartsAnew | src/core/flow_table.c:302-328 | a flow whose WAN is no longer allowed starts again, with no bytes counted, on the first WAN of positive weight, or the first of all |
| FlowTable.EveryBucketScanned | src/core/flow_table.c:382-409 | slices of any positive length reach every bucket within one turn |
| FlowTable.AnswerAllowed | src/core/flow_table.c:302-378 | every answer is an allowed WAN, with positive weight if any has one, even after the pool has changed |
| FlowTable.StintEnds | src/core/flow_table.c:309-328 | one packet: a flow keeps its WAN exactly until its bytes reach the limit, and starts the next from zero |
| FlowTable.StintBytes | src/core/flow_table.c:240-256 | bytes that stopped at a limit are the WAN's share of its window to within one packet and one byte |
| Rotation.AnswersRotate | src/core/flow_table.c:302-328 | over any run of packets with a fixed pool, each packet is sent to the WAN of its stint, and the stints follow the enabled positions in turn |
| Rotation.StintBytesExact | src/core/flow_table.c:302-328 | in such a run every finished stint carried at least its limit and less than that plus its last packet |
| Rotation.RotationShare | src/core/flow_table.c:209-256 | over any stretch of as many finished stints as there are enabled WANs, each of them was sent its share of its window to within one byte and the last packet of its stint; without positive weights all WANs share alike |
| Rotation.GoesRoundIff | src/core/flow_table.c:240-247 | some packets take a flow through any number of stints if and only if every enabled WAN has a limit; otherwise there is a stint it never gets past |
| Rotation.LimitPositiveIff | src/core/flow_table.c:240-256 | an enabled WAN has a limit exactly when its index is below wan_count and its window size is positive, or at least the number of WANs if no weight is positive |
| Rotation.FreshFlow | src/core/flow_table.c:351-374 | a new flow starts such a run on an enabled WAN, with its first packet charged |
| PqcSend.Send | src/crypto/pqc_l2_handshake.c:165-235 | ceil(len / 1400) fragments, each the right piece with the right header |
| PqcSend.ChunksCover | src/crypto/pqc_l2_handshake.c:202-231 | the pieces in order are the payload |
| PqcSend.SendEndsIff | src/crypto/pqc_l2_handshake.c:202-231 | the loop ends if and only if the payload has fewer than 65536 bytes |
| PqcSend.ParseFrame | src/crypto/pqc_l2_handshake.c:322-337 | the receiver's header reads and checks give back what the sender wrote |
| PqcReceive.Receiver.Process | src/crypto/pqc_l2_handshake.c:245-413 | the global list after a fragment, and the answer |
| PqcReceive.MarkedBits | src/crypto/pqc_l2_handshake.c:371-378 | frag_received stays the number of set bits, and the set grows by the index |
| PqcReceive.RefinesIdeal | src/crypto/pqc_l2_handshake.c:249-413 | for any arrivals of senders' fragments, lost, late, repeated, reordered or mixed, the receiver answers as a map from message to the set of fragments seen, and stays within its bitmaps |
| PqcTiming.OnlyInTime | src/crypto/pqc_l2_handshake.c:245-413 | a message is only put together from all its own fragments, come since one of them and the last of them no more than 2000 ms later |
| PqcReceive.Delivers | src/crypto/pqc_l2_handshake.c:322-413 | within the timeout a payload is returned, intact, exactly when the last missing fragment arrives |
| Reload.StepKeepsInv | src/core/forwarder_reload.c:170-310 | what every store of either thread keeps: mutex, phase, result, history, no lost wakeup |
| Reload.AppliedExactlyOnce | src/core/forwarder_reload.c:170-310 | in every interleaving each request is applied once, in order, with its own mode, configuration and trigger, and its caller gets its result |
| Reload.CallReturns | src/core/forwarder_reload.c:193-233 | until a call has returned some thread can go on, and every such step brings the return nearer |
| Reload.CallReturnsWithin | src/core/forwarder_reload.c:193-233 | so the number of steps is bounded |
| Reload.SomeRunReturns | src/core/forwarder_reload.c:193-233 | from every reachable state some run of working steps ends the call |
| Reload.ModeComesBack | src/core/forwarder_reload.c:238-310 | whenever no call is under way the mode is the default one, and while a request is being applied the shared result is the failure code |
| Policies.ChosenExactly | src/db/config.c:414-460 | the policy chosen is the first lexicographic minimum of (priority, id) among matching encrypting policies, else among bypassing ones |
| Policies.ChosenIsFirst | src/db/config.c:414-460 | the choice matches, and comes before every other that does: encrypting before bypassing, then lower priority number, lower id, earlier place; none only if none matches |
| Policies.NetTakes | src/db/config.c:349-356 | a net takes the addresses of its block of 2^(32 - len), a negated one the others |
| Policies.FlowTakes | src/db/config.c:372-412 | a policy matches a flow if nets, port ranges and protocol do in one direction |
| Policies.PickIsFirst | src/core/dataplane_local.c:95-133 | the pick comes first among the choices of the profiles |
| Policies.OfferMeans | src/core/dataplane_local.c:95-133 | a profile has a choice if and only if it is enabled, binds the LAN, and one of its policies matches |
| Masks.ContiguousMeansPrefix | src/db/config.c:23-37 | the netmasks accepted are those of the prefix lengths 0 to 32 |
| Policies.ChosenSymmetric | src/db/config.c:404-412 | both directions of a flow get the same policy |
| Policies.SelectCryptoPolicy | src/db/config.c:429-460 | the loop with its two candidates computes it |
| Policies.ValidateProfiles | src/db/config.c:238-292 | accepts exactly when no profile repeats a binding, shares one, or shares a policy with a positive database id |
| Policies.NoneShareMeans | src/db/config.c:205-236 | the comparison of ids passes exactly when every positive database id belongs to at most one profile |
| Policies.ValidMeansOneOwner | src/db/config.c:151-166 | with different positive ids, no binding is refused if and only if every existing interface has at most one profile |
| Policies.ProfilesOkMean | src/db/config.c:238-292 | the profiles are accepted if and only if no list repeats an entry, and every LAN, and every WAN, has at most one profile |
| Policies.PickIsOwnersChoice | src/core/dataplane_local.c:95-133 | on such a LAN the pick is its one profile's selection |
| Policies.PickProfilePolicy | src/core/dataplane_local.c:95-133 | the best-policy loop over the profiles computes the pick |
| Base64.RoundTrip | src/crypto/traffic_crypto.c:78-126 | decoding undoes encoding for every byte string; 4 * ceil(n / 3) symbols, none of them zero |
| Base64.EncodedAt | src/crypto/traffic_crypto.c:75-90 | every symbol of the text is that of the standard's alphabet for its six bits, or padding (sections 4 and 3.2 of RFC 4648) |
| Base64.ValueIs | src/crypto/traffic_crypto.c:103-108 | the decoding table gives each letter its place in the alphabet, and nothing else a place |
| Base64.ObfuscatedRoundTrip | src/crypto/traffic_crypto.c:92-159 | so does the obfuscated pair, for any seed that is not empty |
| Base64.Encode | src/crypto/traffic_crypto.c:78-90 | the encoding loop and its terminating zero |
| Base64.Decode | src/crypto/traffic_crypto.c:102-126 | the decoding loop on well-formed text |

## Left out

- Layer4.Encrypt: requires that the IPv4 header lies inside the packet, because the code reads past its end otherwise; its callers have parsed the flow.
- PqcSend.Send: requires fewer than 65536 bytes, because the loop does not end otherwise; `SendEndsIff` says exactly that.
- PqcReceive.Receiver.Process: requires that the fragment's index has a bit in the bitmap, which the code does not check; `RefinesIdeal` proves it for senders' fragments.
- Base64.Decode: is for text the encoder can have produced; the code decodes other text to unspecified bytes.
- WanPool.PerPacketShare: is about packet numbers before the 64-bit counter wraps around.
- FlowTable.StintEnds: excludes byte counts of 2^32 and more, where the counter wraps around.
- Rotation.RotationShare: the pool, the weights and the window sizes stay fixed during the run, no entry is evicted, the WANs are distinct, and a limit plus a packet's length does not exceed 2^32.
- WanPool.WeightsSumPositive: weights are assumed to sum to less than 2^31.
- EndToEnd.ReceiveInPlace: leaves out the lookups of the key context (`Wan` has them) and of the profile's slot, and requires that a joined packet fits the frame it is copied into; one that a sender split from such a frame does.
- EndToEnd.RestoredL3: ends with the joined packet, as do RestoredL4 and RestoredL2; `Wan` carries on from there.
- Wan.DecryptWan: is on values. It leaves out the decrypt grace fallback, a receiver without policies, and the look for a fragment marker in what a failed layer-2 decryption leaves in the buffer; each layer has one table, as each profile has.
- Layer2.DecryptInPlace: takes a GCM packet with fewer than two bytes of ciphertext as it stands; the code also reads the tag behind it, and where it reads 08 00 the length it moves is negative. The program's sender makes no such packet.
- FragRuns.GcInvisible: a sweep is one step, although the layer-4 table is swept by other workers than the one that uses it.
- RingSteps.Linearizable: loads and stores take effect in the order they are made; what acquire and release leave unordered is not modelled.
- Reload.CallReturns: leaves out the 60-second timeout, stop requests and more than one control thread.
- Frames.OneOwner: leaves out attaching and detaching interfaces while packets flow; a frame is its address divided by the frame size, and descriptor offsets are not modelled.
- Frames.StepKeepsInv: the kernel's side of the XSK rings is assumed to move frames as its interface promises.
- FlowTable.FlowTable.GetWan: where the process-wide round-robin counter stands is an input.
- MAC rewriting on the way to a WAN or a LAN, and the choice of a worker by hash on the LAN side.
- The key contexts behind the policies.
- OpenSSL, libscrypt, key derivation and randomness, and their failures; allocation failures.
- Sockets, discovery probes, BPF, the database, logging and the handshake's worker threads.
- WAN draining and blending of weights, except that a flush may take frames from any WAN ring at any time.
