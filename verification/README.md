# Verified models of the boot loader's storage, download and partition commands

The rpi board of this repository boots with U-Boot (`boot/rpi`). Its commands keep MTD and GPT
partition tables, receive files over a serial line, program NOR, OneNAND and EEPROM chips, read
floppy disks, build the EFI memory table, hand out storage devices to applications, and show device
tree properties. This project models the logic of these commands in Dafny and proves what it keeps
and when it keeps it, for all inputs and over whole runs.

Where the source changes things step by step, the model has methods and classes with loops, and each
is proved equal to a specification function. The theorems are about these functions. A promise
that the code does not keep for every input is stated with the exact condition under which it does, and
with an input that shows the failure.

`dafny verify dfyconfig.toml` checks everything (Dafny 4.11).

## The modules

- `TextNumbers`, `Words`: C strings, numbers in text (`boot/rpi/lib/strto.c`), bytes, words, division.
- `MtdGrammar`, `MtdPrinting`, `MtdTies`, `MtdRoundTrip`, `MtdTable`: the grammar of `mtdparts`, printing against parsing, the
  sorted partition lists.
- `MtdCommands`, `MtdInvariant`, `MtdRuns`, `MtdSteps`: the commands as a state machine (table,
  current partition, environment, cached texts) and its invariant over every run.
- `MtdTool`, `MtdWitnesses`, `MtdScenarios`: the same commands as methods and a class; tables that do not read
  back; runs from power-on that end in a skipped text that does not parse and in a lost current partition.
- `KermitCoding`, `KermitReceiver`, `KermitPackets`, `KermitCopies`, `KermitRuns`, `KermitLosses`, `KermitWitnesses`,
  `KermitTool`: the Kermit receiver as an automaton over characters, packets on the wire, transfers with damaged,
  misnumbered and repeated packets, what is lost and what is repeated, and the receiver as a class. The format is
  that of the Kermit Protocol Manual, sixth edition.
- `OneNand`: block writes and reads that pass over bad blocks.
- `NorFlash`, `NorTool`, `NorWrap`: choosing and protecting the sectors of an address range, and the
  one place where an address sum wraps.
- `ShellSort`, `EfiMemory`, `EfiTable`: the library sort, and sorting and merging memory descriptors in place.
- `Eeprom`: transactions that stay inside a page.
- `SRecord`, `SRecordRuns`: saving and loading S-records.
- `Floppy`: blocks, sides of tracks, and retries.
- `Enumeration`: handing out devices, one per call.
- `GptText`, `GptSwap`: the text form of a GPT and swapping two names.
- `FdtText`: device tree values as text.
- `Footer`: the checksum of an ARM flash footer.

## Where code and documentation disagree

- The comment in `boot/rpi/api/api_storage.c:181-196` promises the first device of a group that has
  not been enumerated yet when the cookie belongs to another group. The search loop finds nothing in
  that case, so a group entered like that is lost; `Enumeration.ReturnedIff` and `Enumeration.CompleteIff` state
  what follows.
- k_recv assumes that sequence numbers arrive as they were sent (comment in `boot/rpi/cmd/load.c:852-857`), and acts
  on them before the packet is checked. Where the assumption fails, packets can be lost or counted again
  (`KermitLosses.EachAsOftenAsItCounts`).
- `eeprom_write` and `eeprom_read` return the result of the last transaction only
  (`Eeprom.LastDecides`, `Eeprom.LastDecidesRead`).
- `load_serial` reports two bytes for a file without data (`SRecordRuns.SizeIff`).

## Model

| member | source | states |
|---|---|---|
| `MtdPrinting.MemsizeReadBack` | boot/rpi/cmd/mtdparts.c:172-219 | memsize_parse undoes memsize_format for every 64-bit size, whatever k, m or g suffix was printed and whatever follows |
| `MtdPrinting.PartReadBack` | boot/rpi/cmd/mtdparts.c:598-706 | part_parse of one printed partition: size, written or elided offset, name and ro come back, or it is refused because it is below the minimum size |
| `MtdPrinting.PartsReadBack` | boot/rpi/cmd/mtdparts.c:891-912 | the partition loop of device_parse reads back all printed partitions of a device, elided offsets filled in |
| `MtdTies.InsertAllSorted` | boot/rpi/cmd/mtdparts.c:513-567 | adding the partitions of a sorted list one by one rebuilds the list with every group of equal offsets turned round |
| `MtdRoundTrip.DeviceReadBack` | boot/rpi/cmd/mtdparts.c:837-961 | device_parse of a printed device returns that device |
| `MtdRoundTrip.DevicesReadBack` | boot/rpi/cmd/mtdparts.c:1549-1599 | all printed devices read back in order, behind any devices read before |
| `MtdRoundTrip.TableReadBack` | boot/rpi/cmd/mtdparts.c:1078-1196 | what parsing the output of generate_mtdparts yields, for every table the commands can hold: exactly this table, or failure if a partition is too small |
| `MtdRoundTrip.RoundTrip` | boot/rpi/cmd/mtdparts.c:1549-1599 | the printed text describes the same devices, order, sizes, offsets, flags and user names if and only if no partition is below the minimum and equal offsets read the same in both directions |
| `MtdRoundTrip.DistinctOffsetsPrintable` | boot/rpi/cmd/mtdparts.c:1078-1196 | tables with distinct offsets and no partition below the minimum meet that condition |
| `MtdWitnesses.RemainderDoesNotReadBack` | boot/rpi/cmd/mtdparts.c:598-706 | a table that is accepted, although the text printed for it is refused |
| `MtdWitnesses.TiesSwap` | boot/rpi/cmd/mtdparts.c:513-567 | two partitions at one offset change places when printed and parsed |
| `MtdTable.RefusedIffSecondAtZero` | boot/rpi/cmd/mtdparts.c:513-567 | part_sort_add refuses a partition if and only if it would be the second one at offset 0 |
| `MtdTable.SortInsertKeeps` | boot/rpi/cmd/mtdparts.c:513-567 | part_sort_add keeps the list sorted, inside the chip, with at most one partition at offset 0 |
| `MtdTable.InsertAllKeeps` | boot/rpi/cmd/mtdparts.c:947-955 | so does adding a whole list |
| `MtdTable.AddTracksCurrent` | boot/rpi/cmd/mtdparts.c:513-567 | after an addition the current number names the same partition as before, also when offsets tie |
| `MtdTable.DelTracksCurrent` | boot/rpi/cmd/mtdparts.c:448-485 | after the deletion of another partition the number names the same partition if and only if the deleted one does not follow it at the same offset |
| `MtdTable.TieLosesCurrent` | boot/rpi/cmd/mtdparts.c:448-485 | with two partitions at one offset that deletion moves the number out of the list |
| `MtdScenarios.TieDeletionLosesCurrent` | boot/rpi/cmd/mtdparts.c:448-485 | a run from power-on that adds two partitions at one offset and selects one; deleting the other makes the current number 255 |
| `MtdTable.ValidateFits` | boot/rpi/cmd/mtdparts.c:325-439 | a validated partition lies inside the chip on erase blocks, and "-" ends at the end of the chip |
| `MtdTable.ValidIff` | boot/rpi/cmd/mtdparts.c:325-439 | part_validate accepts exactly the partitions inside the chip, on erase-block boundaries, whose end does not wrap |
| `MtdTable.DeviceParseSound` | boot/rpi/cmd/mtdparts.c:837-961 | every device the parser returns is sorted, counted, inside the chip and not empty |
| `MtdTable.TableParseSound` | boot/rpi/cmd/mtdparts.c:1549-1599 | every table the parser returns has distinct sound devices and at least one |
| `MtdInvariant.PositionNames` | boot/rpi/cmd/mtdparts.c:226-264 | the place computed for a partition is where the list of all partitions holds it |
| `MtdInvariant.DevNumIs` | boot/rpi/cmd/mtdparts.c:226-264 | the loop of index_partitions counts the partitions of the devices before the current one |
| `MtdInvariant.IndexedOk` | boot/rpi/cmd/mtdparts.c:226-264 | index_partitions sets mtddevnum and mtddevname to the place and name of the current partition |
| `MtdRuns.SelectionFound` | boot/rpi/cmd/mtdparts.c:1344-1396 | the text current_save stores names the same partition again for find_dev_and_part, unless a partition bears that text as its name |
| `MtdRuns.DeviceDelOk` | boot/rpi/cmd/mtdparts.c:758-780 | device_del keeps a sound table and the current partition, which becomes the first one only if its device goes |
| `MtdRuns.PartDelOk` | boot/rpi/cmd/mtdparts.c:448-485 | part_del keeps a sound table, and with it a current partition if and only if the number does not fall off the list; the same one stays current unless it is deleted or tied; the last partition of a device takes the device along |
| `MtdRuns.PartDelFalls` | boot/rpi/cmd/mtdparts.c:448-485 | what is left when the number falls off: the table is sound, the current number is 255, no partition is current |
| `MtdRuns.DistinctNeverTie` | boot/rpi/cmd/mtdparts.c:448-485 | tables with distinct offsets never meet the deletion that loses the current partition |
| `MtdRuns.SortAddOk` | boot/rpi/cmd/mtdparts.c:513-587 | adding to a listed device keeps a sound table and the current partition |
| `MtdRuns.DeviceAddOk` | boot/rpi/cmd/mtdparts.c:810-826 | device_add keeps a sound table; the first device becomes current |
| `MtdSteps.TableCount` | boot/rpi/cmd/mtdparts.c:1719-1859 | a text that fits the variable never describes more partitions than the 8-bit number can count |
| `MtdSteps.InitKeepsInv` | boot/rpi/cmd/mtdparts.c:1719-1859 | mtdparts_init keeps the invariant whether it succeeds or fails |
| `MtdSteps.GenerateSaveOk` | boot/rpi/cmd/mtdparts.c:1206-1218 | generate_mtdparts_save leaves cached texts that describe the table |
| `MtdSteps.AddOk` | boot/rpi/cmd/mtdparts.c:1986-2055 | mtdparts add keeps the invariant, whatever it returns: refused for an unknown device, an overlong description, text that does not parse or a partition that does not fit, or accepted |
| `MtdSteps.DelOk` | boot/rpi/cmd/mtdparts.c:1404-1428 | mtdparts del keeps the invariant if and only if the number of the current partition does not fall off the list |
| `MtdSteps.ChPartOk` | boot/rpi/cmd/mtdparts.c:1916-1942 | chpart keeps the invariant |
| `MtdSteps.StepKeepsInv` | boot/rpi/cmd/mtdparts.c:1954-2070 | every command and every change of the environment keeps the invariant |
| `MtdSteps.RunKeepsInv` | boot/rpi/cmd/mtdparts.c:1954-2070 | so does every run |
| `MtdSteps.EveryRunIsSound` | boot/rpi/cmd/mtdparts.c:1719-1859 | from power-on, after any run: tables sound, a current partition whenever there is a device, and mtddevnum is its place in the list of all partitions |
| `MtdSteps.SkipIsSound` | boot/rpi/cmd/mtdparts.c:1794-1830 | over any run, whenever mtdparts_init skips parsing, parsing would give the same ids, and it would give the same table if and only if the text is not the one printed for the table or the table is printable |
| `MtdScenarios.SkipsWhatWouldFail` | boot/rpi/cmd/mtdparts.c:1794-1830 | a run from power-on after which mtdparts_init skips a text and succeeds, although parsing it would fail |
| `MtdSteps.SkipAfterPrinting` | boot/rpi/cmd/mtdparts.c:1206-1218 | after the table has been printed, the cached text describes it if and only if the table is printable |
| `MtdTool.ValidateEraseBlocks` | boot/rpi/cmd/mtdparts.c:325-400 | the erase-region loops decide whether offset and end lie on erase blocks |
| `MtdTool.ParsePart` | boot/rpi/cmd/mtdparts.c:598-706 | part_parse, walking the text with its pointers, yields the partition and the rest that the round-trip theorems speak about, or refuses the text |
| `MtdTool.SortIn` | boot/rpi/cmd/mtdparts.c:513-567 | the list walk of part_sort_add puts the partition in front of the first one with the same or a larger offset, or refuses it |
| `MtdTool.ParseDevice` | boot/rpi/cmd/mtdparts.c:837-961 | device_parse with its partition loop, validation and sorted list yields exactly the device of the round-trip theorems |
| `MtdTool.ParseDevices` | boot/rpi/cmd/mtdparts.c:1549-1599 | the device loop of parse_mtdparts yields exactly the devices of the round-trip theorems, or fails where they say so |
| `MtdTool.Generate` | boot/rpi/cmd/mtdparts.c:1078-1196 | generate_mtdparts, piece by piece and with the room left counted down, produces the text of the round-trip theorems, or fails exactly when it does not fit |
| `MtdTool.ParseIds` | boot/rpi/cmd/mtdparts.c:1609-1708 | parse_mtdids yields the ids, and leaves behind the ids read so far where the source does |
| `MtdTool.FindDevAndPart` | boot/rpi/cmd/mtdparts.c:1344-1395 | find_dev_and_part finds the first partition of that name, else the partition of that device and number |
| `MtdTool.Mtdparts.IndexPartitions` | boot/rpi/cmd/mtdparts.c:226-264 | index_partitions counts the partitions before the current device and stores place and name in the environment |
| `MtdTool.Mtdparts.SaveCurrent` | boot/rpi/cmd/mtdparts.c:269-290 | current_save stores the current partition as text, cut to its buffer, and indexes anew |
| `MtdTool.Mtdparts.DeleteDevice` | boot/rpi/cmd/mtdparts.c:758-780 | device_del removes the device and selects the first partition that is left if the current one went with it |
| `MtdTool.Mtdparts.DeletePart` | boot/rpi/cmd/mtdparts.c:448-485 | part_del walks the list once, adjusts the current number on the way, and deletes the device with its last partition |
| `MtdTool.Mtdparts.AddSorted` | boot/rpi/cmd/mtdparts.c:513-567 | part_sort_add inserts into a listed device and moves the current number along |
| `MtdTool.Mtdparts.InitTable` | boot/rpi/cmd/mtdparts.c:1719-1859 | mtdparts_init: defaults, changed ids, changed parts, deleted variable and selected partition end in the state the run theorems speak about, with the same result |
| `MtdTool.Mtdparts.AddCommand` | boot/rpi/cmd/mtdparts.c:1986-2055 | mtdparts add: description length, parsing, merging and saving end in the state the run theorems speak about |
| `MtdTool.Mtdparts.DelCommand` | boot/rpi/cmd/mtdparts.c:1404-1428 | mtdparts del ends in the state the run theorems speak about, valid if and only if the current number stays on the list |
| `MtdTool.Mtdparts.Execute` | boot/rpi/cmd/mtdparts.c:1954-2070 | one command of a run takes the object from one state of the run theorems to the next |
| `KermitCoding.UnquoteSplit` | boot/rpi/cmd/load.c:662-677 | cutting the characters anywhere does not change what k_data_char decodes |
| `KermitCoding.UnquoteQuote` | boot/rpi/cmd/load.c:545-552 | decoding inverts control quoting for every byte sequence and prefix |
| `KermitCoding.PacketsDecode` | boot/rpi/cmd/load.c:662-677 | a quoted file cut into packets anywhere decodes to the file |
| `KermitPackets.FeedGood` | boot/rpi/cmd/load.c:772-946 | an intact packet, short or extended, is checkpointed or restored, consumed and acknowledged |
| `KermitPackets.ConsumedData` | boot/rpi/cmd/load.c:601-677 | the data of a packet extends memory by exactly its decoded bytes |
| `KermitPackets.FeedBad` | boot/rpi/cmd/load.c:919-933 | a packet found bad ends at its checkpoint with memory below it untouched |
| `KermitCopies.GoodCopy` | boot/rpi/cmd/load.c:858-943 | an intact copy applies the packet to the state at its checkpoint, so a repeat has no further effect |
| `KermitCopies.LateCopy` | boot/rpi/cmd/load.c:858-933 | a copy found bad behind its sequence character leaves the state before the packet; if that character arrives as another number, it leaves the checkpoint that number calls for |
| `KermitCopies.EarlyCopy` | boot/rpi/cmd/load.c:836-933 | a copy damaged earlier falls back to the checkpoint of the packet before |
| `KermitCopies.NewCopies` | boot/rpi/cmd/load.c:836-943 | all copies of a packet together: how often the packet is applied, and whether the packet before is undone |
| `KermitRuns.WhatArrives` | boot/rpi/cmd/load.c:772-946 | for every transfer in which damage is found, sequence characters included: k_recv finishes, returns the number of bytes that arrived, and memory holds the packets, each as often as it was applied |
| `KermitRuns.Transparent` | boot/rpi/cmd/load.c:772-946 | when no packet is undone and none counts again, memory holds all payloads once and in order and k_recv returns their length |
| `KermitRuns.IntactUndisturbed` | boot/rpi/cmd/load.c:858-933 | so it is for any damage behind intact sequence characters |
| `KermitRuns.FileArrives` | boot/rpi/cmd/load.c:509-534 | a quoted file, cut anywhere and sent over such a damaging and repeating line, arrives as it was |
| `KermitLosses.EachAsOftenAsItCounts` | boot/rpi/cmd/load.c:836-946 | after every transfer memory holds the bytes of each packet as often as it counts: once, once more for every misnumbered copy behind an intact one, once less if the next packet starts with early damage or with the number of this one |
| `KermitLosses.TransparentIff` | boot/rpi/cmd/load.c:836-946 | memory and returned size are exact if every packet with data counts once, and only then, unless the transfer both loses and repeats packets |
| `KermitLosses.NumberedIff` | boot/rpi/cmd/load.c:836-946 | with right sequence numbers the transfer is exact if and only if no packet with data is followed by early damage |
| `KermitLosses.HarmlessIff` | boot/rpi/cmd/load.c:836-946 | damage shows for no data whatever if and only if it makes every data packet count once |
| `KermitWitnesses.EarlyDamageLosesData` | boot/rpi/cmd/load.c:836-933 | a transfer in which an acknowledged byte is lost and k_recv returns 0 |
| `KermitWitnesses.MisnumberedLosesData` | boot/rpi/cmd/load.c:858-933 | a transfer in which a misnumbered copy loses the byte before it |
| `KermitWitnesses.MisnumberedRepeatsData` | boot/rpi/cmd/load.c:858-933 | a transfer in which a misnumbered repeat puts a byte into memory twice |
| `KermitWitnesses.LossHidesRepetition` | boot/rpi/cmd/load.c:858-933 | a transfer that loses one byte and repeats an equal one, and so looks exact |
| `KermitTool.RepliesPass` | boot/rpi/cmd/load.c:565-597 | every ACK, NACK and parameter ACK passes the length and check test of k_recv itself |
| `KermitTool.BlockCheck` | boot/rpi/cmd/load.c:555-562 | chk1 computes the block check of the Kermit manual |
| `KermitTool.Kermit.PutData` | boot/rpi/cmd/load.c:662-677 | k_data_char stores the character, or remembers the prefix, or stores the character it quotes |
| `KermitTool.Kermit.ReadPacket` | boot/rpi/cmd/load.c:835-933 | reading one packet follows the automaton to its end, good, bad or out of input |
| `KermitTool.Kermit.Receive` | boot/rpi/cmd/load.c:772-946 | k_recv leaves the object as the automaton leaves it after the whole input |
| `OneNand.WriteAppend` | boot/rpi/cmd/onenand.c:132-184 | writing two pieces one behind the other is writing both together, bad blocks included |
| `OneNand.TwoWrites` | boot/rpi/cmd/onenand.c:132-184 | two calls, the second at the logical end of the first, leave the state of one call |
| `OneNand.ChainIsOneWrite` | boot/rpi/cmd/onenand.c:132-184 | any chain of whole-block writes leaves flash and offsets as one write of the concatenation |
| `OneNand.PhysicalPosition` | boot/rpi/cmd/onenand.c:132-184 | the physical position is always next_ofs + skip_ofs |
| `OneNand.ReadBack` | boot/rpi/cmd/onenand.c:61-106 | reading from where a write started returns what was written, if reading skips the same blocks there as writing |
| `OneNand.ReadBackIff` | boot/rpi/cmd/onenand.c:61-184 | all data written to a range, over any contents, reads back if and only if reading skips there exactly the blocks that writing skips |
| `OneNand.ChainReadsBack` | boot/rpi/cmd/onenand.c:61-106 | one read from the first offset of a chain returns all its pieces in order |
| `OneNand.Device.Write` | boot/rpi/cmd/onenand.c:132-184 | onenand_block_write leaves the flash and offsets that the chain theorems speak about; an unaligned offset is refused and changes nothing |
| `OneNand.Device.Read` | boot/rpi/cmd/onenand.c:61-106 | onenand_block_read returns the contents of the good blocks from the offset on, as many as asked for |
| `NorFlash.NeverOutside` | boot/rpi/cmd/flash.c:187-268 | no sector outside the range is chosen, wherever range and banks lie, if no bank that ends the address space comes before one that starts it |
| `NorWrap.NeverOutsideIff` | boot/rpi/cmd/flash.c:187-268 | for banks that share no address this condition is exact: no range ever has a sector outside it chosen if and only if it holds |
| `NorWrap.WrapExample` | boot/rpi/cmd/flash.c:187-268 | two banks and a range for which a sector outside the range is chosen |
| `NorFlash.ExactCover` | boot/rpi/cmd/flash.c:187-268 | for ascending banks and a range inside flash, success means nothing is chosen or exactly the range |
| `NorFlash.ChosenIffInside` | boot/rpi/cmd/flash.c:187-268 | sector by sector: chosen if and only if inside the range |
| `NorFlash.SelectionIff` | boot/rpi/cmd/flash.c:187-268 | sectors are chosen if and only if the range starts and ends on sector boundaries |
| `NorTool.CountIsNumber` | boot/rpi/cmd/flash.c:187-268 | s_count is the number of sectors chosen |
| `NorTool.FillSectRanges` | boot/rpi/cmd/flash.c:187-268 | the loops over banks and sectors fill both arrays and the count with the selection of the cover theorems, or fail exactly where it fails |
| `NorTool.ScanBank` | boot/rpi/cmd/flash.c:214-234 | the sector loop finds the sector that starts the range and the one that ends it, or neither |
| `NorTool.Flash.SectProtect` | boot/rpi/cmd/flash.c:589-636 | flash_sect_protect changes exactly the flags of the chosen sectors, or nothing |
| `NorTool.ProtectsTheRange` | boot/rpi/cmd/flash.c:589-636 | protecting a range inside flash acts if and only if it starts and ends on sectors, and then on exactly the sectors inside |
| `NorTool.SectRoundb` | boot/rpi/cmd/flash.c:91-127 | flash_sect_roundb moves the address to the end of the sector that holds it, or reports that none does |
| `NorTool.RoundedEndAccepted` | boot/rpi/cmd/flash.c:91-127 | the rounded end is one the selection accepts, and everything up to it is flash |
| `EfiMemory.KeepsTyped` | boot/rpi/cmd/efi.c:87-113 | without a wrap the table describes every address as before, boot services counted as conventional memory |
| `EfiMemory.KeepsPages` | boot/rpi/cmd/efi.c:87-113 | without a wrap the pages add up to the same number |
| `EfiMemory.WrapLosesZero` | boot/rpi/cmd/efi.c:96-113 | a merge across the end of the address space loses the memory at address 0 |
| `EfiMemory.MeaningIff` | boot/rpi/cmd/efi.c:87-113 | in whatever order non-overlapping descriptors come, the meaning is kept if and only if no merge wraps |
| `EfiMemory.HeadersKept` | boot/rpi/cmd/efi.c:89-107 | every entry has the address, attributes and mapped type of a descriptor that starts there |
| `EfiMemory.TableInOrder` | boot/rpi/cmd/efi.c:87-113 | sorted descriptors give a sorted table without overlap, and with skip_bs no two conventional entries touch |
| `EfiMemory.UnchangedWithoutSkip` | boot/rpi/cmd/efi.c:87-113 | without skip_bs the table is the sorted descriptors |
| `EfiTable.CompareIff` | boot/rpi/cmd/efi.c:55-66 | h_cmp_entry orders descriptors by address if and only if they start within half of the address space |
| `ShellSort.QsortPermutes` | boot/rpi/lib/qsort.c:22-66 | qsort returns the same elements, for every comparison |
| `ShellSort.QsortOrders` | boot/rpi/lib/qsort.c:22-66 | qsort returns them in order wherever the comparison is an order |
| `ShellSort.GapInside` | boot/rpi/lib/qsort.c:32-37 | the first gap is smaller than the number of elements, as the comment there says |
| `ShellSort.Sort` | boot/rpi/lib/qsort.c:22-66 | the three loops of qsort, in place, leave the order of these theorems and touch nothing behind the elements |
| `EfiTable.QsortSorts` | boot/rpi/cmd/efi.c:82 | descriptors within half of the address space come out in address order |
| `EfiTable.TableKeepsMeaning` | boot/rpi/cmd/efi.c:68-119 | for any sort into address order: same meaning, same pages, sorted, and with skip_bs no touching conventional entries |
| `EfiTable.TableFaithful` | boot/rpi/cmd/efi.c:68-119 | with the comparison and the sort of the source: non-overlapping descriptors within half of the address space give a table of the same meaning and pages, sorted, with nothing left to merge |
| `EfiTable.SortedMeaningIff` | boot/rpi/cmd/efi.c:68-119 | wherever non-overlapping descriptors lie, the meaning is kept if and only if no merge wraps in the order the sort leaves |
| `EfiTable.FarApartLosesMemory` | boot/rpi/cmd/efi.c:55-119 | two conventional descriptors at the two ends of the address space always lose the lower one |
| `EfiTable.FarApartExample` | boot/rpi/cmd/efi.c:55-119 | one such pair |
| `EfiTable.AddEntry` | boot/rpi/cmd/efi.c:88-110 | one round of the loop, in place: the descriptor is appended or merged into the entry before it, and no descriptor still to be read is touched |
| `EfiTable.BuildMemTable` | boot/rpi/cmd/efi.c:68-119 | efi_build_mem_table sorts and merges in one array; what it leaves keeps meaning, pages and order for non-overlapping descriptors within half of the address space, and ends with the end mark |
| `Eeprom.InOnePageIff` | boot/rpi/cmd/eeprom.c:104-125 | for 32-bit offsets and page sizes every transaction stays inside one page if and only if pages have at most 256 bytes |
| `Eeprom.LargePageCrosses` | boot/rpi/cmd/eeprom.c:104-125 | on any larger page two bytes at its end go out in one transaction |
| `Eeprom.CellIsFlat` | boot/rpi/cmd/eeprom.c:82-102 | block numbers put into free bits of the I2C address make consecutive offsets consecutive cells |
| `Eeprom.WriteInPage` | boot/rpi/cmd/eeprom.c:190-206 | a chip whose counter wraps within a page stores a transaction inside a page like flat memory |
| `Eeprom.WriteEffect` | boot/rpi/cmd/eeprom.c:155-178 | the value of every cell after a write, whatever transactions fail |
| `Eeprom.ReadEffect` | boot/rpi/cmd/eeprom.c:155-178 | the value of every byte of the buffer after a read, whatever transactions fail |
| `Eeprom.FlatWrite` | boot/rpi/cmd/eeprom.c:190-206 | with a bus that works a write is one flat write |
| `Eeprom.ReadsBack` | boot/rpi/cmd/eeprom.c:180-206 | what is written is read back |
| `Eeprom.LastDecides` | boot/rpi/cmd/eeprom.c:163-177 | the code returned is that of the last transaction, so an earlier failure does not show |
| `Eeprom.LastDecidesRead` | boot/rpi/cmd/eeprom.c:163-177 | likewise for reading |
| `Eeprom.Bus.Address` | boot/rpi/cmd/eeprom.c:82-102 | eeprom_addr fills the address bytes: the chip, then the offset within it, highest byte first |
| `Eeprom.Bus.Write` | boot/rpi/cmd/eeprom.c:190-206 | eeprom_write cuts the data into transactions that write the cells of the theorems and counts them; a count that leaves 32 bits writes nothing and returns 0 |
| `Eeprom.Bus.Read` | boot/rpi/cmd/eeprom.c:180-188 | eeprom_read fills the buffer transaction by transaction with the bytes of the theorems; a count that leaves 32 bits reads nothing and returns 0 |
| `SRecord.RecordSum` | boot/rpi/cmd/load.c:336-353 | the bytes of every record add up to 0xFF modulo 256 |
| `SRecord.DecodeHex` | boot/rpi/common/s_record.c:13-153 | a line with the right length field decodes to its address and data, or is refused for its checksum |
| `SRecord.AcceptedIff` | boot/rpi/common/s_record.c:133-153 | the decoder accepts such a line if and only if all its bytes add up to 0xFF modulo 256 |
| `SRecord.DecodeRecord` | boot/rpi/cmd/load.c:336-353 | every record written decodes to the address and data it was made from |
| `SRecordRuns.RecordsTile` | boot/rpi/cmd/load.c:324-361 | the records tile the range in order, 1 to 16 bytes each |
| `SRecordRuns.LoadRecords` | boot/rpi/cmd/load.c:141-194 | loading the records of a range is storing the range |
| `SRecordRuns.LoadsWhatWasSaved` | boot/rpi/cmd/load.c:128-198 | loading what was saved, any offset further on, stores exactly the bytes saved and reports where they lie |
| `SRecordRuns.Stored` | boot/rpi/cmd/load.c:165 | memory after a store: the bytes there, everything else as before |
| `SRecordRuns.LoadsNothing` | boot/rpi/cmd/load.c:174-184 | a file without data is loaded as nothing, with a size of 2 |
| `SRecordRuns.SizeIff` | boot/rpi/cmd/load.c:174-184 | the size is the count saved if and only if the count is neither 0 nor all of memory |
| `SRecordRuns.SaveSerial` | boot/rpi/cmd/load.c:313-366 | save_serial, collecting byte by byte into its buffers, writes the text that the load theorems speak about |
| `SRecordRuns.ReadLineFrom` | boot/rpi/cmd/load.c:200-235 | read_record returns the characters up to the line end, cuts lines that are too long, and aborts at NUL or ctrl-C |
| `SRecordRuns.Machine.LoadSerial` | boot/rpi/cmd/load.c:128-198 | load_serial leaves memory and reports lowest and highest address, size and entry as the load theorems say, and aborts at an invalid record |
| `Floppy.BlockBack` | boot/rpi/cmd/fdc.c:250-256 | the block number is recovered from track, head and sector |
| `Floppy.PlaceBack` | boot/rpi/cmd/fdc.c:250-256 | every place on the disk is that of its block number |
| `Floppy.PlaceInjective` | boot/rpi/cmd/fdc.c:250-256 | no two blocks share track, head and sector |
| `Floppy.PlaceFits` | boot/rpi/cmd/fdc.c:250-272 | blocks of the disk lie on the disk, so the command bytes hold them |
| `Floppy.Neighbours` | boot/rpi/cmd/fdc.c:436-439 | the blocks of a READ cut as the source cuts it are neighbouring sectors of one side of one track |
| `Floppy.TransferIsBlocks` | boot/rpi/cmd/fdc.c:442-459 | what the controller transfers for such a READ is the blocks asked for |
| `Floppy.ReadingFills` | boot/rpi/cmd/fdc.c:442-521 | success leaves exactly the blocks in the buffer, whatever broken transfers wrote there before |
| `Floppy.ErrorBound` | boot/rpi/cmd/fdc.c:461-490 | success has seen at most 24 broken transfers, and when nothing else fails it is the 25th that ends a run |
| `Floppy.GetsThrough` | boot/rpi/cmd/fdc.c:442-521 | at most 24 broken transfers and enough good ones: the run succeeds |
| `Floppy.ReadDataOk` | boot/rpi/cmd/fdc.c:405-526 | fdc_read_data as a whole: every READ on one side of one track, the buffer filled exactly, the error bound |
| `Floppy.Controller.ReadData` | boot/rpi/cmd/fdc.c:405-526 | the goto-driven loop with its chunks and two counters ends in the buffer and result of the run theorems and advances the block number |
| `Enumeration.RunIs` | boot/rpi/api/api.c:196-226 | call by call, a run returns exactly the expected devices and then none, for every set of groups |
| `Enumeration.Continue` | boot/rpi/api/api_storage.c:175-286 | a call with the cookie of a device returns the next one to come |
| `Enumeration.EnterGroups` | boot/rpi/api/api_storage.c:175-286 | a call that enters groups for the first time returns the first device to come, and loses a configured group entered with a foreign cookie |
| `Enumeration.ExpectedIncreasing` | boot/rpi/api/api_storage.c:275-286 | devices come in strictly increasing order of group and index, so none comes twice and the run ends |
| `Enumeration.ReturnedIff` | boot/rpi/api/api_storage.c:98-286 | for every set of groups, device by device: returned if and only if active, in a group entered open, with no inactive device before it in the group |
| `Enumeration.CompleteIff` | boot/rpi/api/api_storage.c:98-286 | for every set of groups: every active storage device is returned if and only if none stands behind an inactive one or in a group entered closed |
| `Enumeration.NetworkHides` | boot/rpi/api/api_storage.c:98-149 | with a network device the first configured group is entered closed and none of its devices is returned |
| `Enumeration.CompleteWithoutInactive` | boot/rpi/api/api_storage.c:98-149 | without inactive devices: every storage device is returned if and only if there is no network device or the first configured group is empty |
| `Enumeration.InactiveHides` | boot/rpi/api/api_storage.c:133-146 | an inactive device hides the devices behind it and all of the next configured group |
| `Enumeration.InactiveExample` | boot/rpi/api/api_storage.c:98-286 | two groups of which the first holds an inactive device only: the active device of the second is never returned |
| `Enumeration.Api.NextInGroup` | boot/rpi/api/api_storage.c:98-149 | the two loops of dev_stor_get: the device behind the cookie of this group, the first one without a cookie, none with a foreign cookie |
| `Enumeration.Api.EnumGroup` | boot/rpi/api/api_storage.c:175-263 | dev_enum_stor with its flags: restart, continuation, first entry, and nothing more once the group has ended |
| `Enumeration.Api.EnumGroups` | boot/rpi/api/api_storage.c:275-286 | dev_enum_storage tries the groups in order until one returns a device |
| `Enumeration.Api.Reset` | boot/rpi/api/api_storage.c:265-273 | dev_enum_reset clears both flags of every group |
| `Enumeration.Api.Next` | boot/rpi/api/api.c:196-226 | API_dev_enum: one step of the runs that the theorems speak about |
| `GptText.ExtractPart` | boot/rpi/cmd/gpt.c:95-122 | extract_val finds each of the four values of a printed partition |
| `GptText.PartReadBack` | boot/rpi/cmd/gpt.c:446-537 | one printed partition reads back as this partition, with references to variables expanded, or is refused because a field is too long |
| `GptText.ListReadBack` | boot/rpi/cmd/gpt.c:372-550 | set_gpt_info of create_gpt_partitions_list: the GUID and every partition, names and uuids as the environment expands them |
| `GptText.ListSameIff` | boot/rpi/cmd/gpt.c:265-300 | the same GUID, names, starts, sizes and uuids come back if and only if there are partitions, the text is not longer than set_gpt_info looks at, no value refers to a variable that changes it, fields fit and byte positions fit 64 bits |
| `GptText.LongListLoses` | boot/rpi/cmd/gpt.c:423-429 | a text longer than set_gpt_info looks at is refused or loses partitions at its end |
| `GptSwap.SwapChangesNames` | boot/rpi/cmd/gpt.c:708-728 | a swap goes through if and only if both names occur equally often, and what is written differs in the two names only |
| `GptSwap.SwapTwice` | boot/rpi/cmd/gpt.c:708-728 | swapping again restores the names |
| `GptSwap.SwapSameLength` | boot/rpi/cmd/gpt.c:708-728 | a swap that is allowed keeps the length of the text |
| `GptSwap.ExtractValue` | boot/rpi/cmd/gpt.c:95-122 | the strsep loops of extract_val return the value of the first pair with this key, and nothing for a key without value |
| `GptSwap.CreateList` | boot/rpi/cmd/gpt.c:265-300 | create_gpt_partitions_list appends the text of every partition that the round-trip theorems speak about |
| `GptSwap.SetGptInfo` | boot/rpi/cmd/gpt.c:372-550 | set_gpt_info returns the GUID and partitions of the round-trip theorems, or the error code of the first field that is missing or too long |
| `GptSwap.DiskParts.ExchangeNames` | boot/rpi/cmd/gpt.c:714-723 | the loop over the list exchanges the names and counts both |
| `GptSwap.DiskParts.RenameSwap` | boot/rpi/cmd/gpt.c:679-775 | the swap branch hands to gpt_restore the partitions that the swap theorems speak about, or fails with their error |
| `FdtText.CellsBack` | boot/rpi/cmd/fdt.c:767-803 | however the text is cut at spaces, the cells come back |
| `FdtText.ByteStreamBack` | boot/rpi/cmd/fdt.c:804-825 | however the text is cut at spaces, the bytes come back |
| `FdtText.ShownReadsBack` | boot/rpi/cmd/fdt.c:756-841 | what print_data shows of 1 to 64 bytes that are not a string is parsed to the same bytes, in one argument or many |
| `FdtText.LooksLikeString` | boot/rpi/cmd/fdt.c:849-884 | is_printable_string: printable characters and single zeros up to a final zero, or up to a final newline with a zero behind the data |
| `FdtText.PrintData` | boot/rpi/cmd/fdt.c:917-940 | the cell and byte loops of print_data show the text that the round-trip theorem parses |
| `FdtText.ParseCellArgs` | boot/rpi/cmd/fdt.c:767-803 | the cell loop of fdt_parse_prop moves through the arguments to the cells of the round-trip theorem, or fails where a number cannot be read |
| `FdtText.ParseByteArgs` | boot/rpi/cmd/fdt.c:804-825 | the byte loop of fdt_parse_prop moves through the arguments to the bytes of the round-trip theorem, or fails at a character that is no digit |
| `Footer.SumIsCanonical` | boot/rpi/cmd/armflash.c:47-54 | the running sum is the word sum reduced modulo 2^32 - 1 to 1..2^32 - 1, or 0 |
| `Footer.SumCongruent` | boot/rpi/cmd/armflash.c:47-54 | it is congruent to the word sum, and 0 only for 0 |
| `Footer.CrcOfZeros` | boot/rpi/cmd/armflash.c:37-56 | the checksum is all ones if and only if all words are 0 |
| `Footer.CrcPermuted` | boot/rpi/cmd/armflash.c:37-56 | the checksum does not depend on the order of the words |
| `Footer.CheckIff` | boot/rpi/cmd/armflash.c:136-144 | a block checks out if and only if the word at any position is the checksum of the others (or all ones where that is 0) |
| `Footer.ComputeCrc` | boot/rpi/cmd/armflash.c:37-56 | compute_crc returns the inverted end-around sum of the words; a length that is not whole words yields 0 |

## Left out

- Fixed buffer sizes, malloc, console output, delays, watchdog and ctrl-C in all commands; strings and lists are sequences, memory is a map or sequence of bytes.
- `mtdparts spread` (boot/rpi/cmd/mtdparts.c:1441-1523), which needs the chip driver's bad-block count.
- The NAND, OneNAND and NOR drivers behind get_mtd_info: chip size, erase size and erase regions are parameters.
- MtdSteps.EveryRunIsSound: speaks about runs without the deletion of MtdRuns.PartDelFalls, without an accepted addition that makes a 256th partition of a device or overruns the text buffer by a `ro` argument that is not measured, and in which mtdids is not replaced while a table that was too long to print is kept (the devices would point to freed ids).
- MtdSteps.AddOk: requires the room named above, where the source wraps an 8-bit number or writes behind its buffer (likewise MtdTool.Mtdparts.AddCommand).
- KermitRuns.WhatArrives: speaks about damage that the receiver finds; a damaged packet that passes its check characters is taken for a good one, as the protocol has it.
- KermitLosses.TransparentIff: no quoted character is split between packets, as the Kermit Protocol Manual asks of senders, and there is one exchange of parameters at most, at the start (likewise KermitLosses.EachAsOftenAsItCounts and KermitLosses.NumberedIff).
- MtdTool.Mtdparts.InitTable: index_partitions calls made while device_parse fills a device that is not listed yet are left out; they see the listed devices only and are repeated afterwards.
- KermitTool.Kermit.Receive: the receiver state is that of one call; characters arrive in one finite sequence, and waiting for more is an outcome of its own.
- xmodem and ymodem, which rest on xyzModem; the Kermit sender.
- OneNand.Device.Write: only with enough good blocks left; the source would search on behind the chip.
- NorTool.Flash.SectProtect: the variant with hardware protection (CONFIG_SYS_FLASH_PROTECTION) is not modelled.
- NorFlash.NeverOutside: banks are taken as flash_info describes them, sectors ascending and inside the address space.
- addr_spec, flash erase and flash write (boot/rpi/cmd/flash.c), which add parsing and driver calls only.
- ShellSort.Sort: elements are swapped whole, not byte by byte, and sizes do not overflow.
- EfiMemory.TableInOrder: descriptors have at least one page and end within 64 bits, as the UEFI specification asks of EFI_MEMORY_DESCRIPTOR.
- FRAM devices and SPI in boot/rpi/cmd/eeprom.c; Eeprom.Bus assumes that a failed transaction changes nothing.
- SRecordRuns.Machine.LoadSerial: requires that no data record is shorter than its address field, where the source would copy a negative length; storing to NOR flash instead of memory is left out.
- Floppy.Controller.ReadData: for a controller that answers every READ; waiting loops, status bytes and motor control are left out.
- Enumeration.RunIs: slots are the same in every call and hold different devices.
- GptText.ListReadBack: for texts up to the length set_gpt_info looks at (GptText.LongListLoses has the others); random UUIDs, type GUIDs and 32-bit block addresses are not configured; the bootable flag is not part of the text and comes back cleared.
- GptSwap.DiskParts.RenameSwap: reading the table from disk and gpt_restore are left out; the rename branch is left out.
- FdtText.PrintData: strings and dumps of more than 64 bytes are left out, and with them the string branch of fdt_parse_prop.
- FdtText.ParseCellArgs: requires that the arguments do not end before the bracket, where the source reads behind them (likewise FdtText.ParseByteArgs).
- The search for footers in boot/rpi/cmd/armflash.c, which adds field reads only.
