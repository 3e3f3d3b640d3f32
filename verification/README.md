# Verified models of five Dolphin components

This project models, in Dafny, the parts of the Dolphin source tree whose correctness rests
on an argument rather than on reading the code: the FAT file system library, the field
arithmetic and key exchange of the ed25519 library, the include-cycle finder, and the font
compressor. The models keep the form of the originals: objects are classes with the same
fields, loops are loops over arrays, and each method is proved against a specification
whose own properties are lemmas. `dafny verify dfyconfig.toml` checks everything.

## The FAT volume and its files

`Externals/FatFs/ff.c` in the configuration of `Externals/FatFs/ffconf.h` (512-byte sectors,
private file buffers, no exFAT, long names on), from the bottom up:

- `FatWindow`, `FatPacking`, `FatTable`: the one-sector write-back window over the medium,
  the two copies of the table, and the packed entries of 12, 16 and 32 bits. Seen through the
  window, the volume is the same before and after every window movement, and the table is a
  sequence of numbers of which `put_fat` updates one.
- `FatChain`, `FatAlloc`, `FatVolume`: clusters linked into chains. The specification of the
  circular search, of allocation and of removal is a function of the table; the class
  `Fatfs` computes it; the lemmas say that chains stay disjoint, acyclic and terminated and
  that the free count stays exact. Nothing is assumed of the table where the code does not
  need it: removal also ends on a cyclic table.
- `FatData`, `FatFile`: an open file with its cursor and its private sector buffer. The
  contents are the sectors of the chain, overlaid by the buffer when it is dirty, cut to the
  size of the file. `Fil.Valid` holds the cursor invariant: the current cluster is the one of
  the byte before the cursor, and a cursor inside a sector finds this sector in the buffer.
  Internal errors are reported only if the table holds the bad entry 1; the other exits with
  an internal error are unreachable.
- `FatRun`: every finite run of reads, writes, seeks and truncations, with all their error
  and disk-full exits, is a run of a byte sequence with a cursor, and no other chain of the
  volume is touched. On a full volume or one with a bad entry, operations inside the file
  are exact all the same. The file takes exactly the clusters it needs, and none is lost.
- `FatLinkMap`: the cluster link map of the fast seek option.
- `Mkfs`, `BootSector`, `FatFormat`: the geometry search of `f_mkfs`, the boot sector it
  writes, the checks by which `check_fs` and `mount_volume` read it back, and the volume
  object that a newly made medium mounts as.
- `Lfn`: long names spread over directory entries and read back by `dir_read`.

## Field arithmetic and key exchange

- `FieldLimbs`, `FieldMul`, `FieldBytes`, `FieldInvert`: elements of the field modulo
  p = 2^255 - 19 as ten limbs of 26 and 25 bits. `int32` and `int64` are newtypes with the
  range of the machine types, so that the absence of overflow is part of every method; `>>`
  on signed values is division rounding down and `<<` is multiplication. The bounds stated
  in the comments of `fe.c` are preconditions and postconditions and are met at every call.
- `Fermat`: Fermat's little theorem, so that inversion by a power is an inverse when p is prime.
- `Multiples`: what the ladder computes, by the doubling and differential addition formulas
  of the curve: the multiple of the public point by the private key.
- `Montgomery`, `KeyExchange`: the ladder of section 5 of RFC 7748 as a function on residues,
  with its branch on every bit, and `ed25519_key_exchange`, which computes it with lazy swaps.

## Graphs, compression and images

- `Digraph`, `Tarjan`: `strongly_connected_components` of `Tools/find-includes-cycles.py`,
  for graphs whose successors need not be keys.
- `Yay0Format`, `Yay0`: the file format as sequences of tokens, and the compressor and the
  decompressor of `docs/gc-font-tool.cpp`, malformed files included.
- `I2Image`: the tiled 2-bit images of the same program.

`Arith`, `Bits` and `Bytes` are shared: multiplication and division by variables, and the
bitwise operators of C on two's complement integers.

## Where the code and its documentation part

- `fe_tobytes`: its comment starts from |h| <= p, which does not follow from the limb bounds
  it states (`FieldBytes.BeyondP`). `FieldBytes.QuotientExact` needs the limb bounds only. The
  shift of h4 by 6 leaves the range of a 32-bit int exactly if bit 127 of the encoded value is
  set (`FieldBytes.WrappingShift`, with an argument in `FieldBytes.LosingShift`); the model
  drops what does not fit, and the byte it contributes to is the right one.
- `f_mkfs`: the room check does not count the sectors that alignment to an erase block adds,
  so a small volume on a medium with large blocks can be formatted with no cluster at all
  (`Mkfs.ZeroClusters`). `Mkfs.NoClusters` says for which requests: exactly those for which
  the room check, made for one cluster after alignment, would fail; blocks of up to 16 sectors
  are safe. `mount_volume` refuses such a volume and no other (`FatFormat.MakeAndMount`).
- `yay0_compress`: lengths and offsets are 32-bit. Inputs of 4 GiB or more never come back
  (`Yay0Format.TooLong`), shorter ones do if the file does not exceed 4 GiB. Near the end of
  the input the search settles for the first link that reaches the end, which need not be
  the longest.
- The link map ends a fragment when the next entry is not the following cluster. If the end
  mark of the chain happens to be the number after the last cluster, the end is missed and
  the map cannot be built (`FatLinkMap.OddEndExists`); `FatLinkMap.CreateLinkMap` shows that
  this is the only failure, and `FatLinkMap.OwnMark` that the library's own marks are safe.
  The option is off in `ffconf.h`.

## Model

| member | source | states |
|---|---|---|
| `FatRun.Run` | upstream/dolphin/Externals/FatFs/ff.c:3850-4883 | every finite run of reads, writes, seeks and truncations on one open file is a run of a byte sequence with a cursor, in which a write or seek stops early only at the end of the last cluster; the file takes exactly the clusters it needs and gives back what truncation saves, no cluster is lost, every chain that did not meet the file keeps its links and its data, equal tables stay equal, and a true free count stays true |
| `FatRun.InsideWrite` | upstream/dolphin/Externals/FatFs/ff.c:3970-4057 | whatever the state of the volume, a write inside the file succeeds and replaces just those bytes |
| `FatRun.InsideSeek` | upstream/dolphin/Externals/FatFs/ff.c:4452-4518 | whatever the state of the volume, a seek inside the file succeeds, goes where it was asked to and changes nothing |
| `FatRun.WriteFits` | upstream/dolphin/Externals/FatFs/ff.c:3970-4057 | with a true free count and no bad entry, a write takes all its bytes or as many as the clusters of the file and the free ones have room for |
| `FatRun.SeekFits` | upstream/dolphin/Externals/FatFs/ff.c:4452-4518 | under the same conditions a seek on a writable file reaches any place there are clusters for, else the end of the last one; on other files it stops at the end of the file |
| `FatRun.ApartUntouched` | upstream/dolphin/Externals/FatFs/ff.c:3950-4062 | a chain that shares no cluster with the file before an operation is still a chain afterwards, still apart, with the same sectors |
| `FatFile.Fil.Read` | upstream/dolphin/Externals/FatFs/ff.c:3850-3940 | returns exactly the bytes from the cursor on, as many as asked for or left, moves the cursor past them, and changes neither the contents nor the rest of the caller's buffer; refused without read access or after an error |
| `FatFile.Fil.Write` | upstream/dolphin/Externals/FatFs/ff.c:3950-4062 | replaces exactly the bytes from the cursor on by the data, lengthening the file if needed; the chain grows exactly to the clusters the file needs, out of the free ones; stops early only at the 4 GiB limit or, at the end of the last cluster, on a volume without free clusters or on a bad table entry; an error sticks |
| `FatFile.Fil.Seek` | upstream/dolphin/Externals/FatFs/ff.c:4367-4519 | puts the cursor on the target, or at the end of the last cluster, behind the old end of the file, when the volume is full; the chain grows exactly to the clusters that place needs; what the file held is a prefix of what it holds; read-only files are not extended; errors come only from stretching |
| `FatFile.Fil.Truncate` | upstream/dolphin/Externals/FatFs/ff.c:4842-4883 | the contents become their prefix up to the cursor, the chain keeps exactly the clusters that needs, the others are free again, and a dirty buffer is written back; at the end of the file nothing changes |
| `FatFile.Fil.ReadPart` | upstream/dolphin/Externals/FatFs/ff.c:3873-3937 | one round of the read loop delivers at least one byte, the right ones, and keeps the cursor invariant |
| `FatFile.Fil.WritePart` | upstream/dolphin/Externals/FatFs/ff.c:3975-4057 | one round of the write loop writes at least one byte at the cursor, or none because the cursor is at the end of the file and no cluster can be had |
| `FatFile.Fil.LocateRead` | upstream/dolphin/Externals/FatFs/ff.c:3874-3895 | at a sector boundary with data left, finds the cluster and sector of the cursor; its internal-error exits cannot be taken |
| `FatFile.Fil.LocateWrite` | upstream/dolphin/Externals/FatFs/ff.c:3976-4010 | at a sector boundary, finds or allocates the cluster of the cursor after writing back the buffer; it fails only at the end of the file, and says why |
| `FatFile.Fil.ReadSectors` | upstream/dolphin/Externals/FatFs/ff.c:3896-3912 | a direct transfer of several sectors delivers the file's bytes, the dirty buffered sector included |
| `FatFile.Fil.WriteSectors` | upstream/dolphin/Externals/FatFs/ff.c:4011-4032 | a direct write of several sectors splices the data into the file and refills the buffer if it held one of them |
| `FatFile.Fil.StoreTail` | upstream/dolphin/Externals/FatFs/ff.c:4038-4056 | a partial write through the buffer splices the data into the file, although at the growing edge the buffer is not filled first |
| `FatFile.Fil.SeekStart` | upstream/dolphin/Externals/FatFs/ff.c:4454-4472 | a seek starts at the start of the cluster that holds the cursor, or of the first cluster, never past the target |
| `FatFile.Fil.SeekFollow` | upstream/dolphin/Externals/FatFs/ff.c:4473-4494 | following or stretching the chain ends in the cluster of the target, or at the end of the chain on a full volume |
| `FatFile.Fil.SeekFinish` | upstream/dolphin/Externals/FatFs/ff.c:4495-4518 | the size is raised to the cursor and a cursor inside a sector finds that sector in the buffer |
| `FatFile.Fil.Stretch` | upstream/dolphin/Externals/FatFs/ff.c:3979-3998 | create_chain on the file's own chain yields the next cluster or appends a free one, and the contents stay |
| `FatFile.Fil.CutChain` | upstream/dolphin/Externals/FatFs/ff.c:4855-4867 | the clusters behind the cursor, and no others, are freed |
| `FatFile.CutDone` | upstream/dolphin/Externals/FatFs/ff.c:4855-4880 | after the cut and the write-back the file is the prefix of its contents and the cursor invariant holds |
| `FatFile.ClipCount` | upstream/dolphin/Externals/FatFs/ff.c:3970-3973 | the wrap-around test limits a write exactly so that the size stays below 4 GiB |
| `FatData.AccessKeeps` | upstream/dolphin/Externals/FatFs/ff.c:1047-1068 | accesses to the table through the shared window do not disturb an open file's data or its buffer |
| `FatData.FlushKeeps` | upstream/dolphin/Externals/FatFs/ff.c:4003-4006 | writing back the private buffer changes nothing the file holds |
| `FatData.StoreSplices` | upstream/dolphin/Externals/FatFs/ff.c:4038-4056 | bytes put in a buffer that shows the sector, or at the growing edge, appear at the cursor and nowhere else below the size |
| `FatData.DirectSplices` | upstream/dolphin/Externals/FatFs/ff.c:4012-4032 | whole sectors written directly appear at the cursor and nowhere else |
| `FatData.GrownKeeps` | upstream/dolphin/Externals/FatFs/ff.c:3990-3992 | appending a cluster to the chain leaves all data of the file in place |
| `FatData.ShortenedKeeps` | upstream/dolphin/Externals/FatFs/ff.c:4855-4880 | giving up clusters leaves the data of the remaining ones in place |
| `FatData.AdvancedKeeps` | upstream/dolphin/Externals/FatFs/ff.c:3873-3937 | moving the cursor over a transfer inside a sector or a cluster keeps it on the right cluster and sector |
| `FatData.NextIndex` | upstream/dolphin/Externals/FatFs/ff.c:3874-3876 | from one byte to the next the cluster changes exactly where the sector-in-cluster bits are all zero |
| `FatData.SectorInjective` | upstream/dolphin/Externals/FatFs/ff.c:1114-1122 | different sectors of a file lie in different sectors of the medium |
| `FatData.SectorMask` | upstream/dolphin/Externals/FatFs/ff.c:3875-3875 | masking with csize - 1 gives the sector within the cluster |
| `FatData.ClusterMask` | upstream/dolphin/Externals/FatFs/ff.c:4458-4458 | masking with the complement of the cluster size minus one rounds down to the start of the cluster |
| `FatData.ApartGrown` | upstream/dolphin/Externals/FatFs/ff.c:1570-1573 | allocation for one file leaves every other chain and its sectors alone |
| `FatData.ApartCut` | upstream/dolphin/Externals/FatFs/ff.c:1424-1456 | truncation of one file leaves every other chain and its sectors alone |
| `FatLinkMap.CreateLinkMap` | upstream/dolphin/Externals/FatFs/ff.c:4394-4417 | for every chain the map, if it fits the table, describes exactly the chain by its runs of consecutive clusters; the needed size is reported in any case; it fails exactly when the end mark is the number after the last cluster |
| `FatLinkMap.OddEndExists` | upstream/dolphin/Externals/FatFs/ff.c:4405-4409 | a chain whose end mark makes the map fail exists |
| `FatLinkMap.OwnMark` | upstream/dolphin/Externals/FatFs/ff.c:4405-4409 | a chain ended by the mark that create_chain writes always gets its map |
| `FatLinkMap.ClmtClust` | upstream/dolphin/Externals/FatFs/ff.c:1597-1615 | looking an offset up in a map gives the element of the chain, or 0 past its end |
| `FatVolume.Fatfs.CreateChain` | upstream/dolphin/Externals/FatFs/ff.c:1494-1585 | the result, the new table, the hint and the free count for every table and argument; the free count stays exact |
| `FatVolume.Fatfs.RemoveChain` | upstream/dolphin/Externals/FatFs/ff.c:1399-1485 | on any table, cyclic ones included, removal ends; what it frees, when it fails, and that the free count stays exact |
| `FatVolume.Fatfs.FindFree` | upstream/dolphin/Externals/FatFs/ff.c:1556-1569 | the circular search ends and finds what the search specification says |
| `FatAlloc.ChoiceMeaning` | upstream/dolphin/Externals/FatFs/ff.c:1543-1569 | a new cluster was free, is the one after the chain's end if that is free, else the nearest in the circular order from the hint; absent bad entries, none is found exactly when none is free |
| `FatAlloc.ChoiceByNumber` | upstream/dolphin/Externals/FatFs/ff.c:1543-1569 | the cluster after the end of the chain if it is free, else the first free one behind the last allocation, by cluster numbers, with wrap-around |
| `FatAlloc.FullOnly` | upstream/dolphin/Externals/FatFs/ff.c:1504-1569 | with an exact free count and no bad entry, allocation fails exactly on a full volume |
| `FatAlloc.CreatedChains` | upstream/dolphin/Externals/FatFs/ff.c:1570-1573 | allocation keeps the table a set of disjoint, acyclic, terminated chains: one chain grows by one formerly free cluster, or a new one of one cluster appears |
| `FatAlloc.CreatedCount` | upstream/dolphin/Externals/FatFs/ff.c:1576-1579 | the free count stays the number of zero entries |
| `FatAlloc.FreedFrees` | upstream/dolphin/Externals/FatFs/ff.c:1424-1456 | removal on a table that need not consist of chains only turns used entries into free ones |
| `FatAlloc.RemovedSuffix` | upstream/dolphin/Externals/FatFs/ff.c:1418-1456 | removal from element i of a chain frees exactly the elements from i on and ends the rest |
| `FatChain.StretchKeepsChains` | upstream/dolphin/Externals/FatFs/ff.c:1570-1573 | linking a free cluster to the end of a chain keeps all chains |
| `FatChain.CutKeepsChains` | upstream/dolphin/Externals/FatFs/ff.c:1418-1456 | cutting a chain keeps all other chains and the used clusters are again exactly those of the chains |
| `FatChain.FreedSuffix` | upstream/dolphin/Externals/FatFs/ff.c:1424-1456 | following the links from element i frees the rest of the chain, each cluster once |
| `FatVolume.Fatfs.SyncWindow` | upstream/dolphin/Externals/FatFs/ff.c:1025-1043 | writing the window back does not change the volume as seen through it, and reflects a table sector to the second table |
| `FatVolume.Fatfs.MoveWindow` | upstream/dolphin/Externals/FatFs/ff.c:1047-1068 | moving the window does not change the volume as seen through it, and a dirty window is not lost |
| `FatWindow.MovedKeeps` | upstream/dolphin/Externals/FatFs/ff.c:1047-1068 | the volume outside the second table is unchanged, the new sector is shown as it was, and the two tables still agree except for a dirty window |
| `FatWindow.SyncedKeeps` | upstream/dolphin/Externals/FatFs/ff.c:1025-1043 | as MovedKeeps, for a write-back in place |
| `FatWindow.ReflectsFat` | upstream/dolphin/Externals/FatFs/ff.c:1035-1035 | the unsigned range test holds exactly for sectors of the first table |
| `FatWindow.PokedFat` | upstream/dolphin/Externals/FatFs/ff.c:1225-1253 | a byte stored through a window on the table changes that byte of the table and nothing else |
| `FatVolume.Fatfs.GetFat` | upstream/dolphin/Externals/FatFs/ff.c:1131-1199 | returns the entry of the table, or 1 out of range, and changes nothing but the window |
| `FatVolume.Fatfs.PutFat` | upstream/dolphin/Externals/FatFs/ff.c:1209-1258 | exactly one entry of the table changes, to the value cut to its width; out of range nothing changes |
| `FatVolume.Fatfs.Clst2Sect` | upstream/dolphin/Externals/FatFs/ff.c:1114-1122 | the first sector of a valid cluster, 0 for every other 32-bit number |
| `FatTable.PutGet` | upstream/dolphin/Externals/FatFs/ff.c:1209-1258 | an entry read after it was written has the value cut to 12, 16 or 28 bits |
| `FatTable.Layout12` | upstream/dolphin/Externals/FatFs/ff.c:1148-1155 | two 12-bit entries share three bytes, the low half of the middle one belonging to the even entry |
| `FatTable.Layout` | upstream/dolphin/Externals/FatFs/ff.c:1157-1165 | 16-bit and 32-bit entries are little-endian, the latter with 28 bits |
| `FatTable.PutOther` | upstream/dolphin/Externals/FatFs/ff.c:1209-1258 | no other entry changes, the neighbour in a shared byte and entries across two sectors included |
| `FatTable.PutReserved` | upstream/dolphin/Externals/FatFs/ff.c:1250-1250 | the four reserved bits of a 32-bit entry survive |
| `FatTable.PutTable` | upstream/dolphin/Externals/FatFs/ff.c:1209-1258 | put_fat is the update of one element of the table seen as a sequence |
| `Mkfs.ChooseGeometry` | upstream/dolphin/Externals/FatFs/ff.c:6101-6173 | the retry loop ends; an accepted geometry has a cluster count free of wrap-around that fits its type, large enough tables, an aligned data area and fields in range; a requested cluster size is kept |
| `Mkfs.NoUnderflow` | upstream/dolphin/Externals/FatFs/ff.c:6146-6146 | a cluster count that comes from an underflow is never accepted as FAT12 or FAT16 |
| `Mkfs.RoomFat32` | upstream/dolphin/Externals/FatFs/ff.c:6104-6113 | a FAT32 layout always leaves room, alignment included |
| `Mkfs.EnoughFat` | upstream/dolphin/Externals/FatFs/ff.c:6114-6129 | the tables have room for every count up to the estimate |
| `Mkfs.SmallFat` | upstream/dolphin/Externals/FatFs/ff.c:6120-6128 | for an accepted FAT12 or FAT16 volume the table size did not wrap and fits its 16-bit field |
| `Mkfs.JudgeFacts` | upstream/dolphin/Externals/FatFs/ff.c:6147-6172 | what is accepted is sound, and every retry has fewer retries left |
| `Mkfs.Aligned` | upstream/dolphin/Externals/FatFs/ff.c:6133-6142 | the mask arithmetic gives the number of sectors to the next erase block boundary |
| `Mkfs.ZeroClusters` | upstream/dolphin/Externals/FatFs/ff.c:6145-6146 | a 128-sector volume on a medium with 128-sector erase blocks is accepted with no cluster at all |
| `Mkfs.NoClusters` | upstream/dolphin/Externals/FatFs/ff.c:6131-6146 | every accepted geometry is without clusters exactly if the aligned system area leaves no room for one; erase blocks of at most 15 clusters and a sector, so all up to 16 sectors, always leave room; only FAT12 volumes can be affected |
| `Mkfs.AnyFormats` | upstream/dolphin/Externals/FatFs/ff.c:6101-6173 | with both types allowed, automatic cluster size, the default root directory and erase blocks of at most 16 sectors, every volume of at least 128 sectors gets a geometry |
| `Mkfs.UsualGeometry` | upstream/dolphin/Externals/FatFs/ff.c:6101-6173 | which type and cluster size such a volume gets, by its number of sectors |
| `Mkfs.AutoFat` | upstream/dolphin/Externals/FatFs/ff.c:6115-6118 | the automatic cluster sizes of FAT12 and FAT16 by volume size |
| `Mkfs.AutoFat32` | upstream/dolphin/Externals/FatFs/ff.c:6105-6108 | the automatic cluster sizes of FAT32 by volume size |
| `BootSector.WriteVbr` | upstream/dolphin/Externals/FatFs/ff.c:6179-6213 | every field check_fs and mount_volume read has its value |
| `BootSector.Recognized` | upstream/dolphin/Externals/FatFs/ff.c:3238-3269 | check_fs takes every boot sector f_mkfs writes for a FAT boot sector |
| `BootSector.RecognizedOnly` | upstream/dolphin/Externals/FatFs/ff.c:3249-3269 | exactly which sectors check_fs takes for a FAT boot sector, by their bytes |
| `BootSector.Mounts` | upstream/dolphin/Externals/FatFs/ff.c:3460-3509 | mount_volume recovers exactly the type, cluster count, table size, sector addresses and root directory that f_mkfs chose, if there is a cluster, and refuses the volume if there is none |
| `BootSector.MountsOnly` | upstream/dolphin/Externals/FatFs/ff.c:3460-3509 | exactly which parameters mount_volume accepts when the sums fit 32 bits |
| `BootSector.RecoveredOk` | upstream/dolphin/Externals/FatFs/ff.c:6133-6146 | the recovered geometry is sound for the volume layer and its data area is aligned |
| `BootSector.MountedOk` | upstream/dolphin/Externals/FatFs/ff.c:3460-3509 | every boot sector that mounts gives a sound geometry if its sums do not exceed 32 bits and the volume lies on the medium |
| `FatFormat.Prepare` | upstream/dolphin/Externals/FatFs/ff.c:5836-5937 | every field of the request and the cluster size that the options and the medium lead to; a request of at least 128 sectors is one the search can use |
| `FatFormat.Format` | upstream/dolphin/Externals/FatFs/ff.c:5836-6213 | aborts exactly on a volume below 128 sectors or one without a geometry, refuses exactly options without a type, and otherwise writes a boot sector that is recognized and mounts with its geometry exactly when the volume got a cluster; with nothing prescribed but small erase blocks it always succeeds |
| `FatFormat.InitTables` | upstream/dolphin/Externals/FatFs/ff.c:6228-6246 | both tables are written completely and nothing else is |
| `FatFormat.MakeVolume` | upstream/dolphin/Externals/FatFs/ff.c:5836-6255 | what f_mkfs leaves on the medium: boot sector, FSINFO with the free count, fresh tables, an empty root directory; nothing if it gives up, which it does exactly as Format says |
| `FatFormat.MountDisk` | upstream/dolphin/Externals/FatFs/ff.c:3460-3533 | the volume object mount_volume makes, with the free count of a valid FSINFO |
| `FatFormat.MakeAndMount` | upstream/dolphin/Externals/FatFs/ff.c:5836-6255 | a volume that was made mounts exactly if alignment left room for a cluster, and always with nothing prescribed but small erase blocks; it then has equal tables, no chain but the root directory of FAT32, all other clusters free, and a true free count |
| `FatFormat.FreshVolume` | upstream/dolphin/Externals/FatFs/ff.c:6215-6246 | on a fresh volume the tables agree, the only chain is the FAT32 root directory, and the free count stored in FSINFO is the true one |
| `Lfn.PutLfn` | upstream/dolphin/Externals/FatFs/ff.c:1928-1953 | every byte of the entry of a part, with the flag exactly on the last part |
| `Lfn.PartBytes` | upstream/dolphin/Externals/FatFs/ff.c:1928-1953 | where the bytes of an entry lie: thirteen units little-endian at their offsets, order and flag, attribute, checksum |
| `Lfn.StoreName` | upstream/dolphin/Externals/FatFs/ff.c:2494-2507 | the entries of a name, last part first |
| `Lfn.PickLfn` | upstream/dolphin/Externals/FatFs/ff.c:1890-1919 | the result and the buffer for every entry, valid or not |
| `Lfn.DirRead` | upstream/dolphin/Externals/FatFs/ff.c:2275-2340 | the next file entry and whether the long name in the buffer is its name, for every directory |
| `Lfn.ScanPasses` | upstream/dolphin/Externals/FatFs/ff.c:2287-2337 | the entry found is the first that is neither deleted nor a dot entry, a volume label or a part of a long name, and nothing is found if the end mark or the end comes first |
| `Lfn.DeletedStays` | upstream/dolphin/Externals/FatFs/ff.c:2313-2313 | a deleted entry is not found |
| `Lfn.SumStep` | upstream/dolphin/Externals/FatFs/ff.c:2029-2031 | each step of the checksum rotates it right by one bit and adds a byte |
| `Lfn.RoundTrip` | upstream/dolphin/Externals/FatFs/ff.c:2287-2330 | a stored name of 1 to 255 units is read back, whatever precedes it; lengths that are multiples of 13 included |
| `Lfn.PickPart` | upstream/dolphin/Externals/FatFs/ff.c:1890-1919 | picking a stored part adds it to the name read so far and terminates the name with the last part |
| `Lfn.NamedOnly` | upstream/dolphin/Externals/FatFs/ff.c:2312-2330 | a long name is accepted only after a complete run of parts from a flagged one down to 1, all with the checksum of the short name |
| `FieldMul.FeMul` | upstream/dolphin/Externals/ed25519/fe.c:524-765 | h is congruent to f g modulo p within the output bounds, for all inputs within the stated bounds, without 32 or 64 bit overflow, also when h is f or g |
| `FieldMul.FeSq` | upstream/dolphin/Externals/ed25519/fe.c:982-1127 | h is congruent to the square of f, limb for limb what fe_mul(f, f) gives |
| `FieldMul.FeSq2` | upstream/dolphin/Externals/ed25519/fe.c:1145-1300 | h is congruent to twice the square of f within the same bounds |
| `FieldMul.FeMul121666` | upstream/dolphin/Externals/ed25519/fe.c:779-833 | h is congruent to 121666 f within its bounds |
| `FieldMul.FeAdd` | upstream/dolphin/Externals/ed25519/fe.c:81-123 | the sum, within the bounds a factor may have |
| `FieldMul.FeSub` | upstream/dolphin/Externals/ed25519/fe.c:1315-1357 | the difference, within the bounds a factor may have |
| `FieldMul.FeCswap` | upstream/dolphin/Externals/ed25519/fe.c:197-259 | f and g are exchanged exactly if b is 1, by masks, also when they are the same |
| `FieldMul.ColumnsCong` | upstream/dolphin/Externals/ed25519/fe.c:600-700 | the ten column sums with their factors 2, 19 and 38 have a value congruent to the product |
| `FieldLimbs.SerialCarriesCong` | upstream/dolphin/Externals/ed25519/fe.c:701-753 | the carry chain changes the value by a multiple of p only |
| `FieldBytes.FeFromBytes` | upstream/dolphin/Externals/ed25519/fe.c:297-360 | the value of the low 255 bits modulo p, within bounds |
| `FieldBytes.QuotientExact` | upstream/dolphin/Externals/ed25519/fe.c:1361-1384 | the nested floors give the exact quotient by p, from the limb bounds alone |
| `FieldBytes.BeyondP` | upstream/dolphin/Externals/ed25519/fe.c:1361-1384 | limbs within the bounds whose value exceeds p |
| `FieldBytes.FeToBytes` | upstream/dolphin/Externals/ed25519/fe.c:1386-1491 | the little-endian encoding of the value modulo p, without 32-bit overflow of a sum |
| `FieldBytes.LeValInjective` | upstream/dolphin/Externals/ed25519/fe.c:1386-1491 | an encoding of 32 bytes with a given value is unique |
| `FieldBytes.RoundTrip` | upstream/dolphin/Externals/ed25519/fe.c:297-360 | decoding and encoding reduces the low 255 bits modulo p |
| `FieldBytes.WrappingShift` | upstream/dolphin/Externals/ed25519/fe.c:1471-1471 | for the digits the reduction of h ends in, the shift of h4 by 6 leaves the 32-bit range exactly if bit 127 of the value of h modulo p is set |
| `FieldBytes.LosingShift` | upstream/dolphin/Externals/ed25519/fe.c:1471-1471 | an argument within the bounds for which the shift loses a bit |
| `FieldBytes.OtherShifts` | upstream/dolphin/Externals/ed25519/fe.c:1459-1490 | no other shift to the left leaves the 32-bit range |
| `FieldBytes.DigitsUnique` | upstream/dolphin/Externals/ed25519/fe.c:1386-1448 | the digits of a value are unique |
| `FieldInvert.FeInvert` | upstream/dolphin/Externals/ed25519/fe.c:364-448 | z to the power p - 2, with the bounds met at every multiplication |
| `FieldInvert.FePow22523` | upstream/dolphin/Externals/ed25519/fe.c:881-964 | z to the power 2^252 - 3 |
| `FieldInvert.InverseCorrect` | upstream/dolphin/Externals/ed25519/fe.c:364-448 | if p is prime the power p - 2 of a nonzero element is its inverse |
| `Fermat.LittleTheorem` | upstream/dolphin/Externals/ed25519/fe.c:364-448 | Fermat's little theorem, on which the inversion rests |
| `KeyExchange.Ed25519KeyExchange` | upstream/dolphin/Externals/ed25519/key_exchange.c:4-79 | the shared secret of section 5 of RFC 7748 for the mapped public key and the clamped private key, also when buffers are shared |
| `Multiples.SecretIsMultiple` | upstream/dolphin/Externals/ed25519/key_exchange.c:4-79 | the shared secret is the u-coordinate of the multiple of the public point by the clamped key, for every pair of keys, if p is prime |
| `Multiples.LadderMultiple` | upstream/dolphin/Externals/ed25519/key_exchange.c:43-74 | after each bit the ladder holds the multiples of the point by the number read so far and by its successor, up to powers of 4u |
| `Multiples.StepDoubles` | upstream/dolphin/Externals/ed25519/key_exchange.c:53-70 | the first half of a step is the doubling formula of the curve |
| `Multiples.StepAdds` | upstream/dolphin/Externals/ed25519/key_exchange.c:53-70 | the second half is the differential addition formula |
| `Multiples.PublicPoint` | upstream/dolphin/Externals/ed25519/key_exchange.c:29-36 | the mapped coordinate U of y satisfies (1 - y) U = 1 + y, if p is prime and y is not 1 |
| `KeyExchange.RunLadder` | upstream/dolphin/Externals/ed25519/key_exchange.c:38-74 | the loop with lazy swaps computes the branching ladder, every bound met in every iteration |
| `KeyExchange.Round` | upstream/dolphin/Externals/ed25519/key_exchange.c:45-70 | swapping lazily and stepping equals the swap, step and swap of the reference |
| `KeyExchange.LadderStep` | upstream/dolphin/Externals/ed25519/key_exchange.c:53-70 | the eighteen field operations are one step of the reference ladder and keep the bounds |
| `KeyExchange.StepRefined` | upstream/dolphin/Externals/ed25519/key_exchange.c:53-70 | E (BB + 121666 E) equals E (AA + 121665 E) of the RFC, and the other three coordinates agree |
| `KeyExchange.EdwardsToMontgomery` | upstream/dolphin/Externals/ed25519/key_exchange.c:29-36 | (1 + y) / (1 - y) of the unpacked public key |
| `KeyExchange.Finish` | upstream/dolphin/Externals/ed25519/key_exchange.c:76-78 | the encoding of x2 z2^(p-2) |
| `Montgomery.ClampValue` | upstream/dolphin/Externals/ed25519/key_exchange.c:25-27 | clamping clears the low three bits and sets bit 254 of the scalar |
| `Montgomery.ScalarBitValue` | upstream/dolphin/Externals/ed25519/key_exchange.c:45-46 | the bits taken from the bytes are those of the scalar |
| `Tarjan.StronglyConnectedComponents` | upstream/dolphin/Tools/find-includes-cycles.py:17-68 | for every finite graph exactly the mutual-reachability classes of the nodes reachable from the keys, pairwise disjoint, each after the components it reaches |
| `Tarjan.Search.StrongConnect` | upstream/dolphin/Tools/find-includes-cycles.py:31-62 | one search keeps the invariants of stack, indices and low links and finishes or parks the node |
| `Tarjan.Search.VisitSuccessor` | upstream/dolphin/Tools/find-includes-cycles.py:43-50 | one successor lowers the low link as far as the stack allows |
| `Tarjan.Search.PopComponent` | upstream/dolphin/Tools/find-includes-cycles.py:53-62 | the top of the stack down to the node, in reverse, is removed |
| `Tarjan.SegmentIsComponent` | upstream/dolphin/Tools/find-includes-cycles.py:53-62 | what lies above a root on the stack is a whole class of mutually reachable nodes |
| `Tarjan.ResultOrdered` | upstream/dolphin/Tools/find-includes-cycles.py:60-62 | no emitted component reaches a later one and none share a node |
| `Yay0.RoundTrip` | upstream/dolphin/docs/gc-font-tool.cpp:777-922 | every input whose file cannot exceed 4 GiB, so every input up to 3.5 GiB, comes back from compression and decompression |
| `Yay0.Compress` | upstream/dolphin/docs/gc-font-tool.cpp:777-858 | the file holds, at every place, the link the search finds there if that has three bytes and else the byte; it decodes to the input unless a 32-bit length or offset wraps, and never when the length does; it is at most an eighth longer plus 17 bytes |
| `Yay0.TokenMeaning` | upstream/dolphin/docs/gc-font-tool.cpp:826-845 | token by token, what the search yields is what is written |
| `Yay0.CompressedOnce` | upstream/dolphin/docs/gc-font-tool.cpp:777-858 | the file is determined by the input |
| `Yay0.Decompress` | upstream/dolphin/docs/gc-font-tool.cpp:861-922 | the result or error of the format's decoder on every input |
| `Yay0.FindLink` | upstream/dolphin/docs/gc-font-tool.cpp:789-824 | which earlier match the search settles for, where it stops early included |
| `Yay0.ChosenMatches` | upstream/dolphin/docs/gc-font-tool.cpp:792-824 | a chosen match lies within 4 KiB, is at most 273 bytes and repeats the bytes that follow, overlapping ones too |
| `Yay0.MaskVectorWriter.PushBack` | upstream/dolphin/docs/gc-font-tool.cpp:617-643 | one more bit of the mask, in the order they are read |
| `Yay0.MaskVectorReader.PopFront` | upstream/dolphin/docs/gc-font-tool.cpp:645-671 | the next bit of the mask, or an error at the end |
| `Yay0Format.DecodeFile` | upstream/dolphin/docs/gc-font-tool.cpp:861-922 | decoding a file of any tokens gives what they expand to if nothing wraps |
| `Yay0Format.EntryBytes` | upstream/dolphin/docs/gc-font-tool.cpp:829-844 | the bytes of literals, short links and long links |
| `Yay0Format.TooLong` | upstream/dolphin/docs/gc-font-tool.cpp:849-852 | an input of 4 GiB or more can not come back |
| `Yay0Format.DecodeLength` | upstream/dolphin/docs/gc-font-tool.cpp:861-922 | the decoder returns at least the announced length and at most 272 bytes more |
| `Yay0Format.FileSize` | upstream/dolphin/docs/gc-font-tool.cpp:849-857 | the size of a compressed file is bounded |
| `I2Image.I2Encode` | upstream/dolphin/docs/gc-font-tool.cpp:925-968 | every byte of the tiled image holds its four pixels; what does not fill a block is dropped |
| `I2Image.PixelPlace` | upstream/dolphin/docs/gc-font-tool.cpp:941-963 | by column and line, in which byte and bits each pixel is stored |
| `I2Image.I2Decode` | upstream/dolphin/docs/gc-font-tool.cpp:971-1016 | every pixel of the bitmap comes from its place in the tiled image |
| `I2Image.DecodeEncode` | upstream/dolphin/docs/gc-font-tool.cpp:925-1016 | encoding a decoded image gives the image back |
| `I2Image.EncodeDecode` | upstream/dolphin/docs/gc-font-tool.cpp:925-1016 | decoding an encoded bitmap gives every pixel in its place, cut to four grey levels |
| `I2Image.RowBijection` | upstream/dolphin/docs/gc-font-tool.cpp:948-951 | the tiling is a bijection between stored rows and groups of eight pixels |

## Left out

- Disk errors, time stamps and retries: reading and writing sectors succeed. `sync_fs`, `f_sync` and `f_close` are not modelled, nor is the flag that says whether the free count is to be stored.
- exFAT, GPT, locks, TRIM, string functions and other parts that `ffconf.h` switches off.
- Several files open at the same time: without locks the code leaves this to its callers. What is proved is that operations on one file leave every other chain and its sectors alone.
- Directories as files: path parsing, short names and their numbering, code pages, upper case and name comparison. `Lfn` treats a directory as a sequence of entries and a short name as given bytes with a checksum.
- `f_open`: a run starts with a file that satisfies `Fil.Valid`.
- The fast-seek branches of `f_read`, `f_write` and `f_lseek`, which follow the link map in place of the table.
- In `f_mkfs` and `mount_volume`: partition tables, the choice of the drive and its size, and the exFAT branches. The boot sector is taken at the sector `f_mkfs` chose.
- Bytes exposed by seeking past the end of a file have whatever value the medium holds; only what the file held before is specified.
- Field elements: `fe_cmov`, `fe_neg`, `fe_isnegative` and `fe_isnonzero`.
- Curve points, scalars, hashes and signatures: their files are not part of this model. The ladder is proved against the doubling and addition formulas of the curve; that these formulas form a group is not, and that p is prime is a hypothesis.
- FieldInvert.InverseCorrect: holds under the hypothesis that p is prime, which is not proved.
- Multiples.SecretIsMultiple: the same hypothesis.
- Yay0.Compress: does not decide inputs below 4 GiB whose file exceeds 4 GiB; there the wrapped offset can meet a byte of the header that happens to be right.
- Tarjan.StronglyConnectedComponents: the limit of the Python interpreter on the depth of recursion, and reading include lines from files, are not modelled.
- The growth of vectors never fails for lack of memory.
- `dither_4colour`, bitmap headers, font rendering, character tables and the command line of the font tool.
- The remaining code of the repository.
