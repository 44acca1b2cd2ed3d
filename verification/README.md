# Verified models of the ChisLink kernels

The small stateful algorithms of this repository, modelled in Dafny and proved: the NOR flash
programmer, the Game Boy Color DMA engine, the NES and Game Boy bank caches, the sprite bank
cache, the in-place block rotation, the relay server's queues and rooms, the save lists and save
states, the chunked CRC-32, the reciprocal and the packed cheat list.

Code that changes state in place is modelled as classes and methods over arrays, with the loops of
the source; each method is proved against a specification function or predicate, and the lemmas
say what that specification means. Concurrent code is a state machine over atomic actions.
`dafny verify dfyconfig.toml` checks everything.

| file | what it models |
|---|---|
| SectorMap, NorFlash | the sector map of a flash chip; streaming a ROM into it with background erase |
| DmaCopy, DmaPackets | general DMA in chunks with dirty tile bits; the sorted list of packets |
| NesLru, NesBanks | least-recently-used replacement with protection; the bank registers that switching can leave |
| NesTables, NesCache | the pointer tables of the NES program and tile caches; the caches themselves |
| NesSession, NesRuns | sessions of switching and restoring; concrete runs in which they fail |
| GbCache | the Game Boy bank cache |
| SpriteCache | clock replacement of sprite banks |
| SwapMem | exchanging adjacent memory blocks in place |
| RelayQueue, RelayRooms | one client's outgoing queue under every interleaving; rooms and routing |
| SaveRecords | the list of saves in battery memory |
| SaveState | the tagged block stream of a NES save state |
| Crc32, CrcChunks | the table-driven CRC-32 (RFC 1952, section 8); a checksum per chunk of a stream |
| Arith, Reciprocal | division of 2^32, and division by multiplication |
| CheatList | the packed list of cheats |
| Collections | facts about sets and lists that several of the others need |

## What the proofs found

- `swapmem` is described by a loop that swaps one word at a time (loadcart.c:2367-2375). The loop
  that is linked in moves four words at a time (memcopy.s:162-185) and loses data when at least four
  words cross a gap of one to three. The described loop is right for all sizes; the linked one
  exactly when no turn of the rotation is of that kind, which whole multiples of 16 bytes ensure.
- `cl_cart_nor_set_write_size` and `cl_cart_nor_invalidate` clear the pending-erase flag without
  waiting, and the latter also forgets which chip it is. Setting a size then sends commands to a
  chip that is still erasing exactly when the chip is busy and either has to be identified again
  or sector zero is to be erased: set a size, invalidate, set a size again.
  A chip with one region and a sector size of zero is accepted and never erased.
- Merging DMA packets needs room for the list on the way, not only at the end. There is room exactly
  if, after each incoming packet, the packets so far and the registered ones that none of them
  overlaps are at most 24. A place too many is needed exactly when a packet overlaps nothing in a
  list of 24. One frame can register 24 packets, above any of the DMA bases
  (gamespecific.s:968-978), and the next bring 2 that leave 23 and pass through 25.
- The NES program entries, two for each 16 KB page, lie right below the tile entries
  (loadcart.c:477-512). Looking up a page past the end of the ROM stores its entry there: the tile
  table stays right exactly if the page is inside the ROM or its entry lies past the tile table.
  Bank switching looks up pages of the ROM only, but on a ROM of an odd number of 16 KB pages
  the last 32 KB page leaves registers past its end, and restoring a state looks those up. So
  after restoring, all program windows and the tile table are right exactly if no register below 255
  is past the end. On 15 pages with the last 32 KB mapped they are not: without tile ROM
  tile windows 0 and 1 then show program bytes; with tile ROM a program entry is lost exactly if a
  tile window is on its page or an alias, and stays in the tile table otherwise. There it also
  hides a failed read of that tile page, because it is no null pointer.
- In a session of at most 128 pages every window shows the page it was switched to last, whatever the
  run of switches. After a state was saved and restored, and unless the registers are crowded (see
  below), a window shows that page exactly if it is a page of the ROM below 255: register 255 stands
  for no page and leaves its window as it was, and a page from 256 on is cut to a byte. On 128 pages
  page 255 is lost that way, on 160 pages page 256 comes back as page 0.
- The NES program cache protects the group that an unreduced bank number names, but looks up the
  group it wraps to. It keeps all mapped banks resident exactly when the wanted and the protected
  groups number at most four (or only one is wanted); otherwise some full cache, every slot loaded
  at a time of its own, loses a bank. For registers that bank switching can leave, this comes to one
  condition on the registers: not crowded. They are crowded if the ROM has an odd number of 16 KB
  pages, exactly one window shows a half of the page past its end, and the other three windows are
  in different groups, none of them the first or the last. Runs of 16 and 32 KB switches never crowd
  them. Mixed with 8 KB switches they can, but the mappers that mix them set both upper windows
  or neither (map5.s, map9.s, map15.s) or leave the lower two in one group (map40.s). A state file's
  register bytes (equates.h:581-590) can: on a ROM of 22 banks, banks 22, 4, 8 and 12 loaded right
  after power-on restore with success, and the entry of bank 22 does not lead to its bytes.
- The entry for a bank past the end of the ROM is never cleared when its group is evicted. It still
  leads to its group after the program lookup of another page exactly if the looked-up group was
  resident or took the slot of another group, and after a tile lookup exactly if that does not set
  the entry itself. `get_rom_map` (cache.c:141-150) reads such entries; a run shows one that leads
  to another group's bytes.
- After a failed read the slot keeps its old tag. The cache is then safe to use, whatever the read
  left behind, exactly if the slot was empty. If it was not, the next lookup of the old group
  is a hit and returns what the failed read left.
- Without tile ROM the sprite cache starts full but counts as empty. Its two tables stay inverse
  after a frame exactly if no visible sprite uses a bank from 8 on, or all eight banks below 8 are in
  use. Bank switching masks the numbers below 8 (loadcart.c:127-160, cart.s:1238-1330), or below 16
  for mapper 119; so only a cart of that mapper, or the tile bank bytes of a state file
  (equates.h:589), can break them. A frame that does is given.
- The relay's clean-up of a closed connection deletes by device id. If that device was kicked and
  has joined again, the new connection loses its membership and stays open. A client that is no
  longer a member and announces itself leaves an announcement that belongs to nobody; no other
  operation does.
- `updatestates` with the type -1, which the delete menu passes, matches no record. Its running total
  counts the four id bytes after an update and not after a search; no result depends on that,
  because every update searches first.
- A save state without a version block cannot be loaded in the ChisLink build: the seek back by four
  bytes sets the error flag, and the old layout is then read four bytes late.

## Model

| member | source | states |
|---|---|---|
| `SectorMap.ReadBlocks` | gba/sdk/src/cart_nor.c:484-498 | the block counts and sizes of at most four regions, and that the total is their sum of products |
| `SectorMap.LayForward` | gba/sdk/src/cart_nor.c:525-534 | in address order the regions cover exactly 0 to the total, without gap or overlap, each as long as its blocks |
| `SectorMap.LayReversed` | gba/sdk/src/cart_nor.c:515-524 | in reverse order they do too, with region i made from entry n-1-i |
| `SectorMap.ReadRegions` | gba/sdk/src/cart_nor.c:479-535 | the whole table: clamped to four regions, tiling the chip in both orders |
| `SectorMap.SectorSizeAt` | gba/sdk/src/cart_nor.c:102-116 | the size of the first region that holds the address, or the uniform size |
| `SectorMap.IsSectorBoundary` | gba/sdk/src/cart_nor.c:118-133 | true exactly at the starts that the lookup gives |
| `SectorMap.StartsSectorIff` | gba/sdk/src/cart_nor.c:118-133 | on a map that covers the chip the code's test holds exactly at the first byte of a sector |
| `SectorMap.NothingStartsIff` | gba/sdk/src/cart_nor.c:107-123 | with fewer than two regions no address is a boundary exactly when the sector size is zero |
| `SectorMap.TableIsWellFormed` | gba/sdk/src/cart_nor.c:513-535 | a table that covers the chip, with sector sizes divisible by the write buffer, puts every sector start at a multiple of the write buffer, in both orders |
| `SectorMap.SectorFacts` | gba/sdk/src/cart_nor.c:102-133 | every address lies in one sector inside the chip, which starts and ends at a multiple of the programming unit |
| `SectorMap.SameSector` | gba/sdk/src/cart_nor.c:102-133 | all addresses of a sector agree on its start and end |
| `SectorMap.NextSector` | gba/sdk/src/cart_nor.c:102-133 | where one sector ends the next starts, also across regions |
| `NorFlash.ProgramWords` | gba/sdk/src/cart_nor.c:298-300 | programming can only clear bits, in the programmed range only |
| `NorFlash.OnlyClears` | gba/sdk/src/cart_nor.c:298-300 | a bit is set after programming exactly if it was set before and is set in the data |
| `NorFlash.Chip.EraseSector` | gba/sdk/src/cart_nor.c:194-215 | a successful erase sets exactly one sector to 0xFF and counts it; only allowed on an idle chip |
| `NorFlash.Chip.StartErase` | gba/sdk/src/cart_nor.c:217-235 | an idle chip becomes busy with that sector; a busy one does not hear the command, which is a clash |
| `NorFlash.Chip.WaitErase` | gba/sdk/src/cart_nor.c:237-248 | ends the background erase of the sector waited for |
| `NorFlash.Chip.Program` | gba/sdk/src/cart_nor.c:258-313 | programs a word or a buffer on an idle chip, noting how often each byte had been erased |
| `NorFlash.ChooseWriteUnit` | gba/sdk/src/cart_nor.c:315-323 | the buffer size when it is usable, aligned and fits what remains, else one word |
| `NorFlash.NorWriter.WaitPreErased` | gba/sdk/src/cart_nor.c:237-248 | the awaited sector is erased once and the pending flag and address are cleared, also after a failure |
| `NorFlash.NorWriter.MaybePreEraseNextSector` | gba/sdk/src/cart_nor.c:325-336 | an erase is pending afterwards exactly when the next address starts a sector below the expected size and the chip's end; never a clash |
| `NorFlash.NorWriter.EraseAt` | gba/sdk/src/cart_nor.c:657-666 | a sector that starts here is erased, by waiting if it is the pending one, and everything written stays |
| `NorFlash.NorWriter.WriteUnit` | gba/sdk/src/cart_nor.c:655-682 | one turn of the loop extends what the chip holds by the unit it programmed |
| `NorFlash.NorWriter.WriteUnits` | gba/sdk/src/cart_nor.c:655-689 | the loop appends exactly the accepted bytes to what the chip holds, without a clash, and leaves at most one erase pending, at the next address |
| `NorFlash.NorWriter.WriteStream` | gba/sdk/src/cart_nor.c:606-697 | every rejection with its code and no effect; otherwise the stream extended by what was taken, which is all of the data unless the chip or the expected size ends first; each byte erased exactly once before it was programmed, a pending erase exactly if the next address starts a sector below the expected size, and no clash |
| `NorFlash.NorWriter.SetWriteSize` | gba/sdk/src/cart_nor.c:576-604 | starts a stream of a size; from any state some command clashes exactly if the chip is busy and is to be identified or sector zero to be erased; the flags agree with the chip afterwards exactly if it was idle or busy with sector zero and that is erased again |
| `NorFlash.NorWriter.Invalidate` | gba/sdk/src/cart_nor.c:565-574 | forgets stream and identification; the flags agree with the chip afterwards exactly when the chip was idle |
| `NorFlash.NorWriter.Identify` | gba/sdk/src/cart_nor.c:541-563 | the chip is identified once; that clashes exactly if it was not yet identified and is busy |
| `NorFlash.NorWriter.Flush` | gba/sdk/src/cart_nor.c:706-718 | awaits a pending erase; the flash then begins with the stream, each byte erased once, and sectors that start at or past the expected size are untouched |
| `NorFlash.StartOver` | gba/sdk/src/cart_nor.c:565-604 | a size set, an invalidation and a size set again: some command clashes exactly if both sizes start an erase |
| `NorFlash.ProgramInPieces` | gba/sdk/src/cart_nor.c:576-718 | a whole session: data cut into any even pieces ends up in flash unchanged, each byte in a sector erased exactly once before it was programmed, later sectors untouched, and no clash |
| `NorFlash.ProgramUnannounced` | gba/sdk/src/cart_nor.c:606-718 | the same for a session that sets no size: all data that fits the chip is taken and ends up in flash |
| `NorFlash.ContentProgrammed` | gba/sdk/src/cart_nor.c:668-682 | programming blank bytes behind the stream stores the data itself, also for an odd last byte |
| `NorFlash.UnitFits` | gba/sdk/src/cart_nor.c:315-323 | a word or an aligned buffer never crosses the end of its sector |
| `NorFlash.FrontierAfter` | gba/sdk/src/cart_nor.c:655-689 | inside a sector the chip is erased up to the sector's end, and at its end no further |
| `NorFlash.UntouchedBeyond` | gba/sdk/src/cart_nor.c:644-652 | what a stream of an expected size erases lies in sectors that start below that size |
| `DmaCopy.SetBits` | emulators/goombacolor/src/dma.c:58-82 | sets exactly the bits from first up to last, across word boundaries |
| `DmaCopy.TestIs` | emulators/goombacolor/src/dma.c:58-82 | bit i is the i-th from the low end |
| `DmaCopy.DmaEngine.SetDirtyTiles` | emulators/goombacolor/src/dma.c:84-115 | marks exactly the tile pairs that a block touches |
| `DmaCopy.DmaEngine.CutAtSourceBlock` | emulators/goombacolor/src/dma.c:126-142 | the cut chunk stays in one source block of the map and no byte is lost |
| `DmaCopy.DmaEngine.CutAtDestBlock` | emulators/goombacolor/src/dma.c:144-154 | the cut chunk stays in one 2 KB destination block and no byte is lost |
| `DmaCopy.DmaEngine.CopyChunk` | emulators/goombacolor/src/dma.c:184-258 | copies one contiguous chunk and marks its tiles |
| `DmaCopy.DmaEngine.CutChunk` | emulators/goombacolor/src/dma.c:121-154 | a chunk that the map can split at neither end; what is cut off is left for later |
| `DmaCopy.DmaEngine.MoveChunk` | emulators/goombacolor/src/dma.c:156-314 | one turn takes the transfer from its first k bytes to its first k plus the chunk |
| `DmaCopy.DmaEngine.DoDma` | emulators/goombacolor/src/dma.c:117-316 | in terms of the memory map: byte i stands afterwards at the entry of its wrapped destination, as it stood before at the entry of its own source address, and every other byte is unchanged; this is moving the bytes one at a time; the pointers advance by the length, wrapped; exactly the touched tiles become dirty |
| `DmaCopy.TransferDelivers` | emulators/goombacolor/src/dma.c:53-56 | moving the bytes one at a time, each address translated on its own, delivers every byte and changes nothing else |
| `DmaCopy.ChunkIsBytes` | emulators/goombacolor/src/dma.c:248-257 | block-copying a chunk is moving its bytes one at a time |
| `DmaCopy.ChunkTouches` | emulators/goombacolor/src/dma.c:84-115 | a chunk's tile range is exactly the set of tiles its bytes fall in |
| `DmaCopy.ChunkFacts` | emulators/goombacolor/src/dma.c:121-154 | a chunk is contiguous and in range in host memory at both ends, and does not overlap itself |
| `DmaPackets.InsertIntoPacketList` | emulators/goombacolor/src/dma.c:388-397 | the packets from the index on move up one place |
| `DmaPackets.RemoveFromPacketList` | emulators/goombacolor/src/dma.c:399-407 | the removed packets are gone and the rest keep their order |
| `DmaPackets.OverlapsIff` | emulators/goombacolor/src/dma.c:46-49 | two packets overlap exactly if some address lies in both |
| `DmaPackets.PacketTable.GetPacketListCount` | emulators/goombacolor/src/dma.c:374-386 | the number of packets before the terminator |
| `DmaPackets.PacketTable.StoreDirtyPacket` | emulators/goombacolor/src/dma.c:411-422 | appends the tile number, size and source, or drops them when full |
| `DmaPackets.PacketTable.SanityCheckOutList` | emulators/goombacolor/src/dma.c:424-448 | keeps the list if it is in order from the base on and empties it otherwise |
| `DmaPackets.SaneIff` | emulators/goombacolor/src/dma.c:424-448 | what the check keeps are the sorted disjoint lists whose packets all lie at or above the base |
| `DmaPackets.PacketTable.RegisterPacket` | emulators/goombacolor/src/dma.c:477-558 | one packet takes the place of exactly the packets it overlaps, and is dirty exactly if it was not in the list |
| `DmaPackets.PacketTable.RegisterDmaPackets` | emulators/goombacolor/src/dma.c:450-567 | for sorted incoming packets with room after each of them: the list of the current video bank becomes the merge and the other bank's list is unchanged; the dirty list holds the new packets in order, each with its length, its source and its tile number, counted from 0 in bank 0 and from 0x180 in bank 1 |
| `DmaPackets.RegisteredIsMerge` | emulators/goombacolor/src/dma.c:450-567 | the merge is sorted and disjoint, and holds the incoming packets and exactly the old ones that overlap none of them |
| `DmaPackets.OrderedIsUnique` | emulators/goombacolor/src/dma.c:424-448 | a sorted disjoint list is determined by its packets |
| `DmaPackets.DirtyIsNew` | emulators/goombacolor/src/dma.c:450-567 | the dirty packets are exactly the incoming ones not present with the same destination, length and source |
| `DmaPackets.DirtyIsOrdered` | emulators/goombacolor/src/dma.c:450-567 | and they are sorted and disjoint, so this determines the dirty list |
| `DmaPackets.RepeatedFrameIsClean` | emulators/goombacolor/src/dma.c:450-567 | registering the same packets twice changes nothing and leaves nothing dirty |
| `DmaPackets.RegisteredSize` | emulators/goombacolor/src/dma.c:450-567 | the merge has as many packets as came in plus the old ones that none of them overlaps |
| `DmaPackets.RoomIff` | emulators/goombacolor/src/dma.c:546-558 | the list stays inside its array all the way exactly if, after each incoming packet, those so far and the untouched old ones are at most 24 |
| `DmaPackets.OverflowIff` | emulators/goombacolor/src/dma.c:536-558 | a packet needs a place past the array exactly if the list is full and the packet overlaps nothing in it |
| `DmaPackets.FewPacketsFit` | emulators/goombacolor/src/dma.c:450-567 | at most 24 packets in all always have room |
| `DmaPackets.FinalCountIsNotEnough` | emulators/goombacolor/src/dma.c:450-567 | one frame registers 24 packets above each of the three DMA bases, in order; the next brings two, ends with 23 and needs 25 places on the way |
| `NesLru.FetchKeepsRecent` | emulators/pocketnes/src/chislink_cache.c:199-223 | while some slot is neither protected nor recent, a lookup evicts nothing that was looked up since a given moment |
| `NesLru.RunIsResident` | emulators/pocketnes/src/chislink_cache.c:199-223 | a run of lookups ends with everything it asked for when the wanted and protected tags fit the slots |
| `NesLru.KeptSlotsStay` | emulators/pocketnes/src/chislink_cache.c:199-223 | and what an earlier lookup of the run placed is still in its slot |
| `NesLru.ProtectedStay` | emulators/pocketnes/src/chislink_cache.c:199-223 | a lookup of a protected tag evicts no other protected one if there are as many slots as protected tags |
| `NesLru.RunFails` | emulators/pocketnes/src/chislink_cache.c:199-223 | otherwise there is a full cache, every slot loaded at a time of its own, from which the run loses something it asked for |
| `NesLru.ResidencyIff` | emulators/pocketnes/src/chislink_cache.c:199-223 | residency from every full cache, and from every sound one, holds exactly when one tag is wanted or the wanted and protected tags number at most the slots |
| `NesLru.FetchKeepsFull` | emulators/pocketnes/src/chislink_cache.c:199-259 | a cache without empty slots and with positive, different ages stays so over every lookup |
| `NesLru.TagStaysIff` | emulators/pocketnes/src/chislink_cache.c:199-259 | a tag is still in its slot after a lookup exactly if the looked-up tag was cached or took another slot |
| `NesBanks.MaskedBits` | emulators/pocketnes/src/cart.s:1080-1087 | a masked page number has exactly the bits that page and mask share |
| `NesBanks.SameBits` | emulators/pocketnes/src/cart.s:1080-1087 | and its bits determine it |
| `NesBanks.MaskedIsRemainder` | emulators/pocketnes/src/cart.s:1080-1087 | on a ROM of 2^n units masking is the remainder by the size |
| `NesBanks.SwitchesModulo` | emulators/pocketnes/src/cart.s:1049-1195 | on a ROM of 2^n 16 KB pages every switch maps the page that was asked for, modulo the size of the ROM |
| `NesBanks.SecondToLast` | emulators/pocketnes/src/mappers/map4.s:262-264 | the number -2 selects the last page but one if the mask is odd |
| `NesBanks.DefaultSwitches` | emulators/pocketnes/src/mappers/map4.s:262-264 | on every ROM the number -1 selects the last 8 KB or 16 KB, and -2 the last 8 KB but one |
| `NesBanks.PartBytes` | emulators/pocketnes/src/cart.s:1179-1190 | the register bytes of a 32 KB switch: four pages in a row, until from page 256 on a bit spills into the third |
| `NesBanks.SwitchKeepsReached` | emulators/pocketnes/src/cart.s:1049-1195 | every 8, 16 or 32 KB switch leaves pages of the ROM in the registers, or in the last two the halves of the page past its end |
| `NesBanks.SwitchingReaches` | emulators/pocketnes/src/cart.s:1049-1195 | and so does every run of switches |
| `NesBanks.AllIsNotCrowded` | emulators/pocketnes/src/cart.s:1179-1195 | after a 32 KB switch the registers are not crowded, whatever the page |
| `NesBanks.HalvesAreNotCrowded` | emulators/pocketnes/src/cart.s:1117-1174 | 16 KB switches do not crowd them either, unless one half was past the end before |
| `NesBanks.WideSwitchesNeverCrowd` | emulators/pocketnes/src/cart.s:1117-1195 | no run of 16 and 32 KB switches crowds the registers |
| `NesBanks.PairIsNotCrowded` | emulators/pocketnes/src/mappers/map40.s:14-42 | registers with two lower windows in one group, or both upper ones or neither past the end, are never crowded |
| `NesBanks.MixedSwitchesCrowd` | emulators/pocketnes/src/cart.s:1049-1195 | on a ROM of 15 pages a 32 KB switch and three 8 KB switches leave crowded registers |
| `NesBanks.SwitchKeepsTrack` | emulators/pocketnes/src/cart.s:1049-1195 | every switch leaves in each register the page that its window shows, or a byte of a page from 256 on |
| `NesBanks.SwitchingTracks` | emulators/pocketnes/src/cart.s:1049-1195 | and so does every run of switches |
| `NesCache.Cache.ActivePrgGroup` | emulators/pocketnes/src/chislink_cache.c:91-98 | whether a mapped bank names the group, without wrapping |
| `NesCache.Cache.ActiveChrPage` | emulators/pocketnes/src/chislink_cache.c:117-128 | whether a mapped tile bank that is ROM stands for the page |
| `NesCache.Cache.ChoosePrgSlot` | emulators/pocketnes/src/chislink_cache.c:199-210 | the first empty slot, else the oldest unprotected one, else slot 0 |
| `NesCache.Cache.ChooseChrSlot` | emulators/pocketnes/src/chislink_cache.c:212-223 | the same for tile pages |
| `NesCache.Cache.UnmapPrgGroup` | emulators/pocketnes/src/chislink_cache.c:154-162 | exactly the ROM entries of the slot's group are cleared |
| `NesCache.Cache.MapPrgGroup` | emulators/pocketnes/src/chislink_cache.c:144-152 | exactly the ROM entries of the group point to their parts of the slot |
| `NesCache.Cache.UnmapChrPage` | emulators/pocketnes/src/chislink_cache.c:164-173 | every entry that led to the slot is cleared, and no other |
| `NesCache.Cache.MapChrAliases` | emulators/pocketnes/src/chislink_cache.c:188-197 | exactly the aliases of the page that are not work memory point to the slot |
| `NesCache.Cache.EnsureRomPage` | emulators/pocketnes/src/chislink_cache.c:225-259 | a lookup of a ROM page is one step of the replacement and returns the page's own place, and a coherent cache stays so; after a failed read it does exactly if the slot was empty |
| `NesCache.Cache.EnsurePrg` | emulators/pocketnes/src/chislink_cache.c:225-259 | the same for any page number; a page past the ROM wraps and stores its entry among the tile entries, and the tile table stays right exactly if that entry is a program entry or past the tile table; a failed read returns nothing, changes no tag, and clears exactly the entries of the slot's group |
| `NesCache.Cache.EnsureRomTile` | emulators/pocketnes/src/chislink_cache.c:270-292 | a lookup of a tile page is one step of the replacement, keeps the tile pointers right, overwrites exactly the program pointers in its own entries, and never touches a program entry |
| `NesCache.Cache.EnsureChr` | emulators/pocketnes/src/chislink_cache.c:261-293 | the same for any tile bank, including work memory and carts without tile ROM; a failed read leaves the entry clear, unless a program pointer stood there |
| `NesCache.Cache.RestorePrg` | emulators/pocketnes/src/chislink_cache.c:305-310 | restoring performs the lookups in order, stores exactly the past-end registers' entries among the tile entries, and if the groups fit, all four banks show their own bytes at its end |
| `NesCache.Cache.RestoreChr` | emulators/pocketnes/src/chislink_cache.c:311-314 | all eight tile banks show their own page or work memory at once, from every coherent state, unless a read fails whose entry holds a program pointer |
| `NesCache.Cache.RestoreCacheMap` | emulators/pocketnes/src/chislink_cache.c:301-319 | both halves: the program windows and the tile table are all right only if no register below 255 stores its entry in the tile table, and then they are if the groups fit; each such register's bank is shown exactly if no tile window's lookup sets that entry; the windows are mapped to their entries |
| `NesCache.Cache.CacheInit` | emulators/pocketnes/src/chislink_cache.c:354-397 | from any arrays: a coherent cache with the first groups loaded and all work memory entries set |
| `NesCache.Cache.MapPrg` | emulators/pocketnes/src/cart.s:1049-1195 | a switch sets the registers, keeps them reachable, looks up the page that was asked for and maps the windows; on at most 128 pages every window that it does not set still leads to its page |
| `NesTables.ShownBytes` | emulators/pocketnes/src/chislink_cache.c:144-152 | through an entry that shows a bank one reads the bytes of the program ROM at that bank, modulo its size |
| `NesTables.TileBytes` | emulators/pocketnes/src/chislink_cache.c:188-197 | the same for a tile bank that is no work memory |
| `NesTables.RamPageIs` | emulators/pocketnes/src/chislink_cache.c:175-186 | which tile banks are work memory: two of mapper 74, and 64 to 127 of mapper 119, eight pages over and over |
| `NesTables.EnoughForTiles` | emulators/pocketnes/src/chislink_cache.c:117-128 | eight tile banks always fit: the protected pages and the wanted pages are at most eight |
| `NesTables.PlainBanksAreEnough` | emulators/pocketnes/src/chislink_cache.c:91-98 | four program banks fit when each is inside the ROM, unmapped, or past its last group |
| `NesTables.SwitchedBanksFitIff` | emulators/pocketnes/src/chislink_cache.c:91-98 | for registers that switching leaves, the wanted and protected groups fit exactly if the registers are not crowded |
| `NesRuns.WrappedBankProtectsWrongGroup` | emulators/pocketnes/src/chislink_cache.c:91-98 | with 22 banks of ROM and banks 22, 4, 8 and 12 mapped five groups compete for four slots |
| `NesTables.FailedReadIsCoherentIff` | emulators/pocketnes/src/chislink_cache.c:243-248 | the program slots agree with the ROM after a failed read, whatever it left, exactly when the slot was empty |
| `NesTables.FailedTileReadIsCoherentIff` | emulators/pocketnes/src/chislink_cache.c:280-285 | the tile slots agree with the ROM after a failed read, whatever it left, exactly when the slot was empty |
| `NesTables.UnmappedIsCoherentIff` | emulators/pocketnes/src/chislink_cache.c:237-248 | with the entries cleared and the tag kept, table and slots are right exactly when the slot was empty |
| `NesTables.AliasStaysIff` | emulators/pocketnes/src/chislink_cache.c:154-162 | an entry for a bank past the ROM still leads to its group after the program lookup of another page exactly if the looked-up group was resident or took a slot of another group |
| `NesTables.StoredIff` | emulators/pocketnes/src/chislink_cache.c:234-236 | storing the entry of a page leaves the tile table right exactly if the page is inside the ROM or its entry lies past the tile table |
| `NesTables.SetTile` | emulators/pocketnes/src/chislink_cache.c:188-197 | a successful tile lookup sets its entry, adds no program pointer, and overwrites exactly those in its own entries |
| `NesTables.OtherWindowsLead` | emulators/pocketnes/src/chislink_cache.c:91-98 | on at most 128 pages the lookup of a switch evicts the group of no window that the switch leaves alone |
| `NesSession.StartUp` | emulators/pocketnes/src/cart.s:436-440 | start-up and the default mapping: every window shows its page |
| `NesSession.SwitchOne` | emulators/pocketnes/src/cart.s:1049-1195 | on at most 128 pages every window shows its page after a switch, if it did before |
| `NesSession.SwitchThrough` | emulators/pocketnes/src/cart.s:1049-1195 | and after every run of switches |
| `NesSession.RestoreSaved` | emulators/pocketnes/src/cache.c:141-150 | registers that any run of switches left, restored over any coherent cache: if not crowded, each window leads to the page it was switched to exactly if that is a page of the ROM below 255 (or register 255 left it there); in every case windows and tile table are all right exactly if no page below 255 is past the end |
| `NesSession.WindowLeadsIff` | emulators/pocketnes/src/cache.c:141-150 | the same for one window, from its register and its entry |
| `NesRuns.PowerOn` | emulators/pocketnes/src/cart.s:436-440 | starting up and mapping the first and the last 16 KB page leaves groups 0, 5, 2 and 3 cached |
| `NesRuns.RestoreForeignState` | emulators/pocketnes/src/equates.h:581-590 | a state file with banks 22, 4, 8 and 12, loaded after power-on, restores with success, and the entry of bank 22 does not lead to its bytes |
| `NesRuns.RestoreLastPage` | emulators/pocketnes/src/loadcart.c:477-512 | on 15 pages the last 32 KB page restores with success, and windows and tile table are not all right; without tile ROM tile windows 0 and 1 show program bytes |
| `NesRuns.RestorePage255` | emulators/pocketnes/src/cache.c:143-143 | on 128 pages page 255, saved by switching, restores with success, and its window still shows page 100 |
| `NesRuns.RestorePage256` | emulators/pocketnes/src/cart.s:1049-1062 | on 160 pages page 256, saved by switching, comes back as page 0 |
| `NesRuns.EntryGoesStale` | emulators/pocketnes/src/cache.c:141-150 | two lookups after which the entry for bank 22 leads to the bytes of another group |
| `NesRuns.LookAfterFailedRead` | emulators/pocketnes/src/chislink_cache.c:225-259 | after a failed read the next lookup of the old group is a hit, returns what the read left, and its entries stay clear |
| `NesTables.ChrTableReplaced` | emulators/pocketnes/src/chislink_cache.c:164-197 | clearing the evicted page's aliases and mapping the new one's keeps every table entry right |
| `GbCache.RomCache.CacheSlotForPage` | emulators/goombacolor/src/cache.c:115-123 | the first slot with the bank, or -1 if none has it |
| `GbCache.RomCache.ChooseSlot` | emulators/goombacolor/src/cache.c:263-283 | an empty slot, else the least recently used one that no window shows, else none |
| `GbCache.VictimIsOldest` | emulators/goombacolor/src/cache.c:263-283 | what is evicted is shown in no window and was used no later than anything else that is not shown; an empty slot goes first |
| `GbCache.RomCache.GetBank` | emulators/goombacolor/src/cache.c:244-313 | a hit refreshes one age; a miss replaces exactly the victim; no bank is ever in two slots, slots equal the ROM, and pointers stay right |
| `GbCache.RomCache.RegenerateInstantPrg` | emulators/goombacolor/src/cache.c:196-209 | every cached bank's pointer leads to its slot and the others are unchanged |
| `GbCache.RomCache.UpdateCache` | emulators/goombacolor/src/cache.c:332-354 | both windows show exactly their banks afterwards if and only if there are two slots, or one and both banks are equal |
| `GbCache.RomCache.ReadRom` | emulators/goombacolor/src/cache.c:315-331 | through served windows the machine reads the bytes of the plain ROM |
| `GbCache.RomCache.FlushCache` | emulators/goombacolor/src/cache.c:173-183 | all slots empty; the pointers are right exactly if they were all clear |
| `GbCache.RomCache.InitCache` | emulators/goombacolor/src/cache.c:125-171 | the slot count, a coherent cache, and the first banks loaded in order |
| `GbCache.VictimExists` | emulators/goombacolor/src/cache.c:263-283 | a missing mapped bank finds a victim with two slots, or with one and equal banks |
| `GbCache.BothFetched` | emulators/goombacolor/src/cache.c:345-348 | after both lookups both banks are cached exactly under that condition |
| `SpriteCache.AddIfNeeded` | emulators/pocketnes/src/spritecache.c:35-48 | adds a bank once, up to eight |
| `SpriteCache.SpriteBanks` | emulators/pocketnes/src/spritecache.c:90-140 | from the arrays of the frame: an 8x8 sprite in row r uses one of the row's first four banks if the scroll bit of its line is clear and of its last four if it is set, an 8x16 sprite by the low bit of its tile, and of the four the one of its tile number's upper bits |
| `SpriteCache.Cache.constructor` | emulators/pocketnes/src/spritecache.c:11-32 | cache and map start as inverses, or as the eight fixed banks without tile ROM |
| `SpriteCache.Cache.BuildTables` | emulators/pocketnes/src/spritecache.c:90-140 | the lists are the first eight cached and the first eight missing banks that visible sprites use |
| `SpriteCache.Cache.LoadAtCursor` | emulators/pocketnes/src/spritecache.c:172-202 | loading at the hand keeps cache and map inverse |
| `SpriteCache.Cache.LoadRequests` | emulators/pocketnes/src/spritecache.c:147-209 | the loop ends within eight steps; the requests fill the discardable slots the hand meets, in order, and every other slot is as it was |
| `SpriteCache.Cache.RecacheSprites` | emulators/pocketnes/src/spritecache.c:61-210 | one frame keeps the inverse, stops within eight steps, and loads the first requests that fit beside the kept banks; afterwards every visible sprite is served exactly if the frame uses at most eight banks, and cached banks in use keep their slots, both in terms of the arrays of the frame; from the eight fixed banks the tables stay inverse exactly if those suffice |
| `SpriteCache.CachedBanksAreKept` | emulators/pocketnes/src/spritecache.c:105-112 | every cached bank that a visible sprite uses is on the keep list |
| `SpriteCache.EnoughRoom` | emulators/pocketnes/src/spritecache.c:141-146 | in one round the hand meets all slots but those of kept banks, so the loop ends |
| `SpriteCache.KeptBankStays` | emulators/pocketnes/src/spritecache.c:147-209 | a kept bank stays in its slot |
| `SpriteCache.RequestIsLoaded` | emulators/pocketnes/src/spritecache.c:147-209 | every request that fits is cached at the end, not evicted by a later one |
| `SpriteCache.FrameIsServed` | emulators/pocketnes/src/spritecache.c:61-210 | sprites on cached banks keep their slots, and all sprites are served if the banks in use fit |
| `SpriteCache.AllServedIff` | emulators/pocketnes/src/spritecache.c:61-210 | all sprites of a frame are served exactly if they use at most eight banks |
| `SpriteCache.FixedBanksBreak` | emulators/pocketnes/src/spritecache.c:19-30 | without tile ROM the tables stay inverse, and in fact unchanged, exactly if no visible sprite uses a bank from 8 on or all eight below are in use |
| `SpriteCache.NothingLoadedIff` | emulators/pocketnes/src/spritecache.c:141-146 | a frame then loads nothing exactly under that condition |
| `SpriteCache.MaskedBanksSuffice` | emulators/pocketnes/src/cart.s:1238-1330 | bank numbers that were masked below 8 never cause a load |
| `SpriteCache.ForeignFrameBreaks` | emulators/pocketnes/src/equates.h:589 | one sprite on bank 8, as a state file can map it, breaks the tables |
| `SwapMem.Mod` | emulators/pocketnes/src/loadcart.c:2346-2354 | a number between 1 and b congruent to a modulo b, so b and not 0 on exact multiples; 0 only for a or b zero |
| `SwapMem.SimpleSwap32` | emulators/pocketnes/src/memcopy.s:162-185 | four words at a time, then word by word |
| `SwapMem.SwapMem` | emulators/pocketnes/src/loadcart.c:2356-2380 | terminates, and exchanges the blocks when no turn moves four words across a gap of one to three |
| `SwapMem.SwapMemByWords` | emulators/pocketnes/src/loadcart.c:2356-2380 | with the loop of the comment it exchanges the blocks for all sizes, and changes nothing else |
| `SwapMem.DocumentedLoopExchanges` | emulators/pocketnes/src/loadcart.c:2367-2379 | the rotation by words is the exchange, for every pair of sizes |
| `SwapMem.RotatedExchanges` | emulators/pocketnes/src/memcopy.s:162-185 | so is the rotation by quads when every turn is safe |
| `SwapMem.UnsafeRunFails` | emulators/pocketnes/src/memcopy.s:162-185 | from distinct words an unsafe run never exchanges the blocks |
| `SwapMem.SwapMemCorrectIff` | emulators/pocketnes/src/loadcart.c:2356-2380 | two sizes work for all contents exactly when the run is safe |
| `SwapMem.QuadMultiplesAreSafe` | emulators/pocketnes/src/loadcart.c:2356-2380 | multiples of 16 bytes are safe |
| `SwapMem.ShortBlocksAreSafe` | emulators/pocketnes/src/loadcart.c:2356-2380 | fewer than four words are safe |
| `SwapMem.OneAgainstFourLosesData` | emulators/pocketnes/src/memcopy.s:162-185 | one word against four loses a word |
| `RelayQueue.StepIsSafe` | servers/relay-server/main.go:278-292 | in every state the invariants allow, no action sends on a closed channel or closes a channel twice |
| `RelayQueue.InvKept` | servers/relay-server/main.go:697-723 | every action of every goroutine keeps mutual exclusion, the order of closing, the queue and the account of outcomes |
| `RelayQueue.EveryRunIsSafe` | servers/relay-server/main.go:593-600 | in every interleaving: no panic, the writer emits in order a prefix of what was accepted, the queue holds at most 256, each acceptance is one packet of one sender, drops are counted, and a returned closeClient means everything is closed |
| `RelayQueue.EveryOutcomeHasItsReason` | servers/relay-server/main.go:697-723 | only DATA is dropped and only with 256 queued; anything else handled before closing was accepted |
| `RelayQueue.HistoryOnlyGrows` | servers/relay-server/main.go:697-723 | accepted and emitted packets stay, and after the client is marked closed nothing more is accepted |
| `RelayQueue.HolderIsStuckIff` | servers/relay-server/main.go:714-722 | the holder of the lock cannot act exactly when it waits on a full queue before closing has begun |
| `RelayQueue.QuietMeansDone` | servers/relay-server/main.go:278-292 | once closeClient was called, a state where no goroutine can act is one where all calls have returned |
| `RelayQueue.StepsAreBounded` | servers/relay-server/main.go:278-292 | actions cannot go on for ever without new calls |
| `RelayQueue.ClosingCompletes` | servers/relay-server/main.go:278-292 | from every reachable state with a closeClient call, goroutine actions alone bring every call to its end, within a bound |
| `RelayRooms.RelayServer.AddClient` | servers/relay-server/main.go:245-276 | admits exactly with room, auth, capacity and a free device id; the client is a member exactly if it was admitted |
| `RelayRooms.RelayServer.RemoveClient` | servers/relay-server/main.go:294-312 | deletes whoever has the device id, closes the client, and drops an empty room |
| `RelayRooms.RelayServer.KickClient` | servers/relay-server/main.go:558-576 | closes and removes the member, or reports that there is none |
| `RelayRooms.RelayServer.DeleteRoom` | servers/relay-server/main.go:544-556 | closes all members and removes the room |
| `RelayRooms.TargetBytes` | servers/relay-server/main.go:632-638 | the addressee is the device of which the target bytes are the id, low byte first |
| `RelayRooms.RelayServer.RoutePacket` | servers/relay-server/main.go:641-695 | discovery replays every other announcement, a broadcast reaches every other member once, a direct packet only the member whose id stands in its target bytes, low byte first, the sender never hears itself, and the counters agree |
| `RelayRooms.RunsAreSound` | servers/relay-server/main.go:245-312 | over every run rooms have one to four open members that match their keys and presented the room's fixed auth, and rooms stay within the limit |
| `RelayRooms.RecipientsAreRoommates` | servers/relay-server/main.go:641-695 | every recipient is the sender or a member of its room, and no other member gets two copies |
| `RelayRooms.LeaveKeepsOpenIff` | servers/relay-server/main.go:294-312 | cleaning up keeps every open client a member exactly when no other connection has the device id |
| `RelayRooms.OthersKeepOpen` | servers/relay-server/main.go:544-576 | every other operation keeps every open client a member |
| `RelayRooms.LateCleanUpRemovesSuccessor` | servers/relay-server/main.go:294-312 | join, kick, join again, clean up: the second connection is open and no member |
| `RelayRooms.AnnouncersAreMembersIff` | servers/relay-server/main.go:641-695 | stored announcements belong to members, and every operation keeps that except exactly a client that is no member announcing itself |
| `RelayRooms.AlwaysMembersIff` | servers/relay-server/main.go:641-695 | over a whole run they belong to members at every moment exactly if no announcement was late |
| `SaveRecords.SaveMemory.FindStateByIndex` | emulators/goombacolor/src/sram.c:1099-1124 | finds the index-th record of a type and where it is, and the total size |
| `SaveRecords.SaveMemory.FindState` | emulators/goombacolor/src/sram.c:1130-1165 | finds the last record of a type with a checksum, numbered as the other search numbers it |
| `SaveRecords.SaveMemory.UpdateStates` | emulators/goombacolor/src/sram.c:634-697 | replaces, removes or appends exactly that record and keeps all others in order; succeeds exactly if the result fits; nothing changes otherwise; the battery memory is the new image and zeros |
| `SaveRecords.FieldBytes` | emulators/goombacolor/src/sram.h:11-18 | where size, type and checksum of a record stand, low byte first |
| `SaveRecords.UpdatedIs` | emulators/goombacolor/src/sram.c:634-697 | an update replaces the record, removes it, or appends one; the other records stay as they are |
| `SaveRecords.ParseFlatten` | emulators/goombacolor/src/sram.c:1099-1124 | a terminated image is its records one after another and a size of zero |
| `SaveRecords.FlattenParse` | emulators/goombacolor/src/sram.c:1099-1124 | records followed by a size of zero parse to themselves |
| `SaveRecords.UpdatedImage` | emulators/goombacolor/src/sram.c:677-692 | the bytes after the move, the copy and the terminator parse to the updated list |
| `SaveRecords.NthMeans` | emulators/goombacolor/src/sram.c:1107-1117 | the n-th record of a type exists exactly for n below their count, and has n of its type before it |
| `SaveRecords.NthOfCount` | emulators/goombacolor/src/sram.c:1148-1158 | every record of a type is found under the number of those before it |
| `SaveRecords.UpdatedIsFound` | emulators/goombacolor/src/sram.c:634-697 | a stored record is found again under its number, and removing an appended one undoes it |
| `SaveRecords.NegativeTypeFindsNothing` | emulators/goombacolor/src/sram.c:1048-1048 | the type -1 matches nothing, and erasing through it leaves the list as it is |
| `SaveState.Emulator.ReadData` | emulators/pocketnes/src/savestate2.c:14-27 | takes exactly the bytes asked for, or sets the error; never writes outside the destination |
| `SaveState.Emulator.SeekData` | emulators/pocketnes/src/savestate2.c:37-52 | skips within what remains, or sets the error; a negative size always does |
| `SaveState.Emulator.LoadNormal` | emulators/pocketnes/src/savestate2.c:635-648 | stores at most the declared size and consumes the whole block |
| `SaveState.Emulator.LoadBlock` | emulators/pocketnes/src/savestate2.c:317-339 | a block goes to its own place or, for unknown and unstored tags, nowhere |
| `SaveState.Emulator.LoadBlocks` | emulators/pocketnes/src/savestate2.c:492-500 | terminates on any input, and without an error has loaded the whole stream |
| `SaveState.Emulator.LoadState` | emulators/pocketnes/src/savestate2.c:395-519 | never changes a byte outside the declared blocks; true only if exactly the file size was consumed without error, the stream starts with its version and the bank caches were restored; with a sound bridge and the caches restored, true exactly for the streams that parse |
| `SaveState.Emulator.LoadOldState` | emulators/pocketnes/src/savestate2.c:341-388 | the old layout also stays inside the declared blocks, and the error stays set |
| `SaveState.Emulator.SaveState` | emulators/pocketnes/src/savestate2.c:522-583 | writes the blocks of this cart in order, or reports the error |
| `SaveState.SavedIsAccepted` | emulators/pocketnes/src/savestate2.c:279-339 | what saving writes is accepted into any memory |
| `SaveState.RoundTrip` | emulators/pocketnes/src/savestate2.c:395-583 | loading what was saved on the same cart restores every saved block but the version text, and touches nothing else |
| `SaveState.TagLetters` | emulators/pocketnes/src/savestate2.c:193-210 | the tags are the four letters each, in this order |
| `SaveState.BlockTable` | emulators/pocketnes/src/savestate2.c:259-277 | which blocks a cart stores, and at what size |
| `Crc32.PrepareTable` | common/chislink_proto/src/crc32.c:8-21 | every entry is its index shifted eight times |
| `Crc32.TableUpdate` | common/chislink_proto/src/crc32.c:37-39 | one table step is feeding the eight bits of the byte |
| `Crc32.Update` | common/chislink_proto/src/crc32.c:31-41 | the byte loop is the bitwise register |
| `Crc32.Calculate` | common/chislink_proto/src/crc32.c:47-52 | the result is the bit-by-bit CRC-32 |
| `Crc32.TableStep` | common/chislink_proto/src/crc32.c:37-39 | the table step equals eight polynomial shifts, on every 32-bit state and byte |
| `Crc32.FeedIsShifts` | common/chislink_proto/src/crc32.c:14-17 | feeding bits one by one is shifting a register to which they were added first |
| `Crc32.FeedInTwo` | common/chislink_proto/src/crc32.c:31-41 | a message may be cut anywhere |
| `Crc32.CheckValue` | common/chislink_proto/src/crc32.c:3-52 | the checksum of the digits 1 to 9 is 0xCBF43926, the check value of this CRC |
| `Crc32.AppendedChecksum` | common/chislink_proto/src/crc32.c:31-52 | a message followed by its own checksum, low byte first, has the checksum 0x2144DF1C, whatever the message |
| `Crc32.OneByteChangeIsDetected` | common/chislink_proto/src/crc32.c:47-52 | changing one byte changes the checksum |
| `CrcChunks.Manifest.Init` | gba/sdk/src/crc32_chunks.c:3-18 | starts an empty stream or rejects with -1 |
| `CrcChunks.Manifest.FinishCurrent` | gba/sdk/src/crc32_chunks.c:20-28 | stores one checksum and starts the next chunk, or reports -2 without change |
| `CrcChunks.Manifest.Update` | gba/sdk/src/crc32_chunks.c:30-54 | however the stream is cut, value i is the bitwise CRC-32 of the i-th complete chunk; runs out of room exactly when there are more chunks than capacity |
| `CrcChunks.Manifest.Finish` | gba/sdk/src/crc32_chunks.c:56-61 | the values are the checksums of all chunks, the short last one included, if and only if they fit |
| `CrcChunks.AppendPiece` | gba/sdk/src/crc32_chunks.c:39-52 | a piece extends the chunk in progress and completes it exactly when it fills it |
| `CrcChunks.ChunksJoinBack` | gba/sdk/src/crc32_chunks.c:39-52 | the chunks joined are the stream |
| `CrcChunks.ChunkSizes` | gba/sdk/src/crc32_chunks.c:39-52 | every chunk but the last has the chunk size |
| `Reciprocal.CountLeadingZeroes` | emulators/pocketnes/src/new_speed_hack.c:540-549 | the shift that brings the top bit up and drops nothing |
| `Reciprocal.GetReciprocal` | emulators/pocketnes/src/new_speed_hack.c:551-576 | floor of 2^32 by the divisor, for every 32-bit divisor from 2 on |
| `Reciprocal.StoreHack` | emulators/pocketnes/src/new_speed_hack.c:365-372 | the stored multiplier divides every product below 2^32 exactly; a count of zero wraps to 0 |
| `Reciprocal.MultiplyDividesIff` | emulators/pocketnes/src/new_speed_hack.c:365-372 | multiplying and keeping the high word divides n by d exactly under a stated bound |
| `Reciprocal.MultiplyDivides` | emulators/pocketnes/src/new_speed_hack.c:365-372 | in particular whenever n times d is below 2^32 |
| `Reciprocal.CapcomDividers` | emulators/pocketnes/src/new_speed_hack.c:461-470 | the two literal multipliers are the computed ones |
| `CheatList.CheatFinder.WriteByte` | emulators/pocketnes/src/cheat.c:167-184 | a halfword write changes one byte only |
| `CheatList.CheatFinder.AddCheat` | emulators/pocketnes/src/cheat.c:186-210 | appends the cheat with a blank description, or refuses when full |
| `CheatList.CheatFinder.DeleteCheat` | emulators/pocketnes/src/cheat.c:580-604 | removes element i and keeps all others in order |
| `CheatList.AddedUnpacks` | emulators/pocketnes/src/cheat.c:193-202 | the shifted and filled bytes unpack to the old list and the new cheat |
| `CheatList.NewCheatReads` | emulators/pocketnes/src/cheat.c:186-234 | a new entry reads back as its address, low byte first, and its value, with a blank description |
| `CheatList.DeletedUnpacks` | emulators/pocketnes/src/cheat.c:588-602 | the overlapping shifts leave the list without element i |
| `CheatList.PackedUnpacked` | emulators/pocketnes/src/cheat.c:186-210 | the buffer holds nothing but its list |
| `CheatList.UnpackedPacked` | emulators/pocketnes/src/cheat.c:186-210 | every list is what its bytes unpack to |
| `CheatList.DeleteUndoesAdd` | emulators/pocketnes/src/cheat.c:580-604 | deleting the last cheat after an addition restores the bytes |

## How to read the preconditions

- Flash: sector maps cover the chip with whole sectors, sector sizes are multiples of the write
  buffer, sizes fit 32 bits. The chip's operations may fail; what is promised about contents is for
  sessions without a failure, what is promised about commands and pending erases is for all.
- DMA: transfers of at most 0x800 bytes, as the register code in io.s makes them, from outside video
  memory and not past the end of the address space; incoming packets sorted, disjoint and not
  empty, because the search for the next one starts behind the last; and room on the way, see above.
- NES cache: page counts as the header gives them (restoring needs program ROM), bank numbers inside
  the tables, ages below the 32-bit limit. Each lookup is told whether its read succeeds.
- Game Boy cache: reads succeed, slot 0 holds bank 0 at start, banks are below the table size.
- Save list: the image is terminated, records are whole words with room for a checksum.
- Save state: the file is as long as the bridge said when it was opened.

## Left out

- Transport, Bluetooth, sockets, storage and the wire protocol: not part of this model.
- User interface, video, sound, interrupts and the assembly processor cores.
- Decompression, multiboot transfer, TLS, HTTP administration, authentication codes and packaging.
- NULL pointer arguments, which return an error before anything else in most of these functions.
- Flash timing, status polling and identification: a completed wait is a success or a failure, and a failed operation may leave anything in memory.
- `cl_cart_nor_probe` beyond the region table, and the progress callback of a write.
- SectorMap.ReadRegions: sums are exact integers, so tables whose total exceeds 32 bits are not described.
- DmaCopy.DmaEngine.DoDma: sources inside video memory, where a chunk may overlap its copy, and sources that run past the end of the address space, although io.s lets both through; mode 2, which goes through the packet queue, and the dirty words of the background maps, because they belong to the renderer; comparing while copying is modelled as copying.
- DmaCopy.DmaEngine.CopyChunk: the dirty words of the background maps, as for the whole transfer.
- DmaPackets.PacketTable.RegisterDmaPackets: unsorted incoming lists, and writes past the end of the array.
- NesCache.Cache.RestoreCacheMap: the page at $6000 and the bank switch that follows, because the processor core consumes them.
- NesCache.Cache.CacheInit: carts whose reads fail while starting up.
- GbCache.RomCache.GetBank: failed reads, whose result the source discards.
- SpriteCache.Cache.RecacheSprites: the display table, which is written by the renderer.
- RelayQueue.ClosingCompletes: progress of the whole server, because broadcasts wait on one client's queue while they hold the server's lock; and what a socket does with a packet besides writing or failing.
- RelayRooms.RelayServer.RoutePacket: validating a packet's magic, version and length, and counting clients.
- SaveRecords.SaveMemory.UpdateStates: copying the battery memory in, which does nothing once the id is in place.
- NorFlash.NorWriter.Identify: what a chip that is still erasing answers.
- NesSession.RestoreSaved: the page at $6000.
- SaveState.Emulator.LoadOldState: where the blocks of the old layout end up, because they are read four bytes late and the load fails.
- SaveState.Emulator.LoadState: whether restoring the caches succeeds is told to it; the conversion of pointers before and after, the set of loaded blocks and rebooting the game, because they are the emulator's own variables; of the old layout only the blocks that the table names are stored.
- Reciprocal.StoreHack: that a hack is sound for the emulated processor.
- Other save record and cheat operations, the game database, header parsing, file copying and the example games, which are easier.
