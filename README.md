# lkmpg kernel-module callbacks in Dafny

This project models the callbacks of seven example Linux kernel modules and proves what they
promise:

- **04-chardev**: a single-opener character device with a static open counter and a message buffer.
- **05-procfs-static**: a read-only proc entry over `"Hello, World!"`.
- **06-procfs-buffer** and **07-procfs-inode**: a mutex-guarded, truncate-on-write proc buffer.
  In 06 it is a module global of 1024 bytes. In 07 it is a 127-byte context reached through
  `file->private_data`.
- **08-procfs-seqfile**: 256 byte slots listed through the seq_file iterator and overwritten in bulk
  by a `strsep`/`kstrtoint` write.
- **09-sysfs-attrs**: three sysfs attributes (bool, int, 1024-byte string).
- **10-procfs-pcilist**: a seq_file listing of the PCI devices that pins exactly one device
  reference at a time.

Every state the C code updates in place is a Dafny class with `modifies` frames:

- `ProcBuffer.BoundedBuffer`: one class, parameterised by capacity, serves 06 and 07.
- `ProcfsSeqfile.SeqfileData`.
- `ProcfsPcilist.PciBus`.
- `SysfsAttrs.BoolAttr`, `IntAttr` and `StringAttr`.
- `Chardev.Device`.

Each callback is a method proved against a specification function:

- `ProcIo.ReadAt`, `ProcIo.WriteAt`, `ProcfsSeqfile.BulkStore` and `ProcfsPcilist.Listing`.
- The `Taken`/`Dropped` reference bookkeeping.

The properties are proved once, about those functions. The kernel helpers the modules call are
not part of this model's source. `KernelLib` models them after their documented behaviour:

- strlen, `kstrtoint`, `kstrtobool`, `strsep`, `strscpy`.
- `copy_from_user`.
- `%d`, `%0Nu` and `%0NX` formatting.
- `clamp`.

Integer widths (`u8`, `u16`, `u32`, `i32`) are subset types of `int`. The 32-bit wrap of the
chardev counter and its `%d` reinterpretation are written out.

## Model

| member | source | states |
|---|---|---|
| ProcIo.ReadAt | 06-procfs-buffer/procfs-buffer.c:117-139 | the offset read shared by 04, 05, 06 and 07: it never delivers more than the request; a positive result is the number of bytes delivered and the offset advances by exactly that; otherwise nothing is delivered and the offset stays (ReadIsSlice states it in full) |
| ProcIo.ReadIsSlice | 06-procfs-buffer/procfs-buffer.c:117-139 | a read returns the slice of the content starting at the offset, of length min(length, size - offset), and advances the offset past it; it returns 0 exactly at or past the end or for an empty request, and an error exactly for a negative offset or a faulting copy, with nothing delivered and the offset kept |
| ProcIo.ReadToEndIsSuffix | 05-procfs-static/procfs-static.c:100-123 | successive reads from an offset concatenate to exactly the content from that offset, after which read returns 0 |
| ProcIo.WriteAt | 06-procfs-buffer/procfs-buffer.c:158-190 | the truncating write shared by 06 and 07: the array keeps its size; a positive result is at most the data length, and length and offset both become offset + result, within the capacity; an error keeps length and offset (WriteErrors and WriteSucceeds state it in full) |
| ProcIo.WriteKeepsInvariant | 06-procfs-buffer/procfs-buffer.c:45-46 | every write, including a failing one, keeps size <= capacity, the last array byte NUL and the array size fixed |
| ProcIo.WriteErrors | 06-procfs-buffer/procfs-buffer.c:158-183 | -EINVAL exactly at a negative offset; -ENOSPC exactly at offset >= capacity or for an empty write; -EFAULT exactly for a faulting copy; no error changes size or offset; only -EFAULT touches bytes, and none before the offset |
| ProcIo.WriteSucceeds | 06-procfs-buffer/procfs-buffer.c:168-190 | a successful write copies n = min(length, capacity - offset) bytes at the offset, keeps the bytes before the offset, sets size = offset + n even if it was larger (truncation), stores NUL at buffer[size], leaves the rest, advances the offset by n and returns n |
| ProcIo.ReadAfterWrite | 06-procfs-buffer/procfs-buffer.c:180-189 | reading back at the offset of a successful write returns exactly the bytes written |
| ProcIo.FaultMayLoseTerminator | 06-procfs-buffer/procfs-buffer.c:180-183 | a faulting copy_from_user can overwrite buffer[size] while size stays put, so the content is no longer NUL-terminated at size (a concrete 4-byte case) |
| ProcBuffer.BoundedBuffer.constructor | 07-procfs-inode/procfs-inode.c:69-77 | a zeroed array of capacity + 1 bytes with size 0, and the invariant holds |
| ProcBuffer.BoundedBuffer.Read | 06-procfs-buffer/procfs-buffer.c:107-146 | an interrupted lock returns -ERESTARTSYS and does nothing; otherwise the result, bytes and new offset are ReadAt of the content; the buffer and size never change and the mutex is free again afterwards |
| ProcBuffer.BoundedBuffer.Write | 06-procfs-buffer/procfs-buffer.c:148-197 | an interrupted lock returns -ERESTARTSYS and changes nothing; otherwise the result, new array, size and offset are WriteAt of the old state; the invariant and the free mutex are kept |
| ProcBuffer.BoundedBuffer.CopyIn | 06-procfs-buffer/procfs-buffer.c:180-190 | the copy step of the write: a faulting copy leaves its partial window and returns -EFAULT with size and offset kept; otherwise size and offset become offset + n and a NUL follows the copied bytes |
| ProcfsBuffer.NewProcfsBuffer | 06-procfs-buffer/procfs-buffer.c:45-46 | the globals start as 1025 zero bytes with size 0 |
| ProcfsBuffer.HelloThenHi | 06-procfs-buffer/procfs-buffer.c:168-190 | from any valid state, writing "hello" then "hi" at offset 0 leaves size 2, and a read at 0 returns "hi" |
| ProcfsBuffer.HelloThenHiCallbacks | 06-procfs-buffer/procfs-buffer.c:107-197 | the same round trip through the Read and Write callbacks |
| ProcfsInode.File.constructor | 07-procfs-inode/procfs-inode.c:110-129 | a new struct file has no private data |
| ProcfsInode.NewContext | 07-procfs-inode/procfs-inode.c:69-77 | the context starts with a zeroed 128-byte array, size 0 and capacity 127 |
| ProcfsInode.Open | 07-procfs-inode/procfs-inode.c:110-129 | the entry data, when present, is the 127-byte context init attached; without entry data, -EINVAL and the file unchanged; otherwise 0 and file->private_data is the context |
| ProcfsInode.Read | 07-procfs-inode/procfs-inode.c:148-195 | -EINVAL without private data; otherwise the 127-byte context's Read: -ERESTARTSYS when interrupted, else ReadAt of the content; size unchanged and at most 127 |
| ProcfsInode.Write | 07-procfs-inode/procfs-inode.c:197-255 | -EINVAL without private data; otherwise the context's Write: -ERESTARTSYS changing nothing, else WriteAt of the old state with capacity 127, so -ENOSPC at offset >= 127 or for an empty write and min(length, 127 - offset) bytes copied otherwise (WriteErrors, WriteSucceeds) |
| ProcfsInode.OpenThenRead | 07-procfs-inode/procfs-inode.c:110-195 | before open, a read is -EINVAL; after open, the read reaches the context's content |
| ProcfsStatic.ProcRead | 05-procfs-static/procfs-static.c:100-123 | the buffer is 13 bytes long; the result, bytes and new offset are ReadAt of "Hello, World!": -EINVAL at a negative offset, 0 at or past 13, -EFAULT on a copy fault, else min(length, 13 - offset) bytes |
| ProcfsStatic.Cat | 05-procfs-static/procfs-static.c:100-123 | reading from offset 0 with any positive chunk until a read returns 0 yields exactly "Hello, World!", and the last read returns 0 |
| ProcfsStatic.ReadAllFromZero | 05-procfs-static/procfs-static.c:25-26 | the same, in terms of ReadToEnd |
| ProcfsSeqfile.InitialSlots | 08-procfs-seqfile/procfs-seqfile.c:88-90 | 256 slots, slot i holding i |
| ProcfsSeqfile.SeqfileData.constructor | 08-procfs-seqfile/procfs-seqfile.c:79-90 | after init, slot i holds i for every i below 256, and the mutex is free |
| ProcfsSeqfile.SeqFile.constructor | 08-procfs-seqfile/procfs-seqfile.c:125-135 | seq->private starts NULL |
| ProcfsSeqfile.Record | 08-procfs-seqfile/procfs-seqfile.c:363 | a slot's record is 4 bytes ending in a newline (RecordValue gives its digits) |
| ProcfsSeqfile.RecordValue | 08-procfs-seqfile/procfs-seqfile.c:361-363 | the first three characters of a slot's record are decimal digits spelling the slot value (zero-padded) |
| ProcfsSeqfile.Listing | 08-procfs-seqfile/procfs-seqfile.c:361-363 | a listing of k slots is 4k bytes |
| ProcfsSeqfile.ListingAppend | 08-procfs-seqfile/procfs-seqfile.c:340-367 | a listing grows by exactly the next slot's record |
| ProcfsSeqfile.ListingRecordAt | 08-procfs-seqfile/procfs-seqfile.c:14-17 | record i sits at bytes 4i..4i+4 of the listing |
| ProcfsSeqfile.SeqStart | 08-procfs-seqfile/procfs-seqfile.c:248-284 | as written: a non-NULL result exactly when 0 <= pos < 256 and a context is attached; then the mutex is taken and seq->private is set; otherwise neither the lock nor seq->private changes |
| ProcfsSeqfile.SeqNext | 08-procfs-seqfile/procfs-seqfile.c:307-338 | an out-of-range position or missing context returns NULL with pos unchanged; otherwise pos goes up by one and NULL is returned exactly when it reaches 256 |
| ProcfsSeqfile.SeqStop | 08-procfs-seqfile/procfs-seqfile.c:286-305 | unlocks exactly when seq->private is set, whether or not this round's start locked |
| ProcfsSeqfile.SeqShow | 08-procfs-seqfile/procfs-seqfile.c:340-367 | -EINVAL with no output for an out-of-range position or a missing context; otherwise the slot's 4-byte record |
| ProcfsSeqfile.ShowRecords | 08-procfs-seqfile/procfs-seqfile.c:307-367 | show/next from pos for a budget of records emits the listing of slots pos..min(pos + budget, 256) in order, and the iterator ends exactly at 256 |
| ProcfsSeqfile.ReadRound | 08-procfs-seqfile/procfs-seqfile.c:248-367 | one start/show/next/stop round: in range, the listing of the visited slots with the lock balanced; out of range, no output but one unlock whenever seq->private was already set |
| ProcfsSeqfile.StepOf | 08-procfs-seqfile/procfs-seqfile.c:194-204 | an empty token is skipped; a token kstrtoint rejects stops with its error (-EINVAL or -ERANGE); any other is stored clamped to [0, 255] |
| ProcfsSeqfile.StopRound | 08-procfs-seqfile/procfs-seqfile.c:186-208 | the write stops at the first rejected step, or after min(256, token count) steps |
| ProcfsSeqfile.BulkStore | 08-procfs-seqfile/procfs-seqfile.c:186-208 | the write loop from a round on: the 256 slots stay 256, the slots before that round are untouched, and the result is the length or the error of a rejected token at or after that round (BulkStoreResult and BulkStoreSlots say which and where) |
| ProcfsSeqfile.BulkStoreResult | 08-procfs-seqfile/procfs-seqfile.c:198-212 | the write returns the first rejected token's error, or the whole length when none is rejected |
| ProcfsSeqfile.BulkStoreSlots | 08-procfs-seqfile/procfs-seqfile.c:186-206 | slot k ends up with step k's clamped value when k is before the stopping step and token k is non-empty; every other slot keeps its value |
| ProcfsSeqfile.StopRoundWithoutReject | 08-procfs-seqfile/procfs-seqfile.c:198-201 | with no rejected token, the write runs all its rounds |
| ProcfsSeqfile.ProcWrite | 08-procfs-seqfile/procfs-seqfile.c:154-222 | -EINVAL without a context, -ENOMEM on a failed allocation, -EFAULT on a faulting copy, each leaving the slots unchanged; otherwise the result and the slots are BulkStore over the strsep tokens of the copied text, starting at slot 0; the mutex is balanced |
| ProcfsSeqfile.StoreToken | 08-procfs-seqfile/procfs-seqfile.c:194-204 | one loop round: a rejected token ends the write with BulkStore's result; otherwise the rest of the write from the next round equals BulkStore from this one |
| ProcfsSeqfile.LinesAsJoin | 08-procfs-seqfile/procfs-seqfile.c:19-20 | the output of `seq` is the decimal texts joined by newlines, with a trailing empty token |
| ProcfsSeqfile.TokensOfLines | 08-procfs-seqfile/procfs-seqfile.c:186-191 | strsep splits one-value-per-line text into the decimal texts and a final empty token |
| ProcfsSeqfile.StepsOfFormatted | 08-procfs-seqfile/procfs-seqfile.c:198-204 | a written decimal number is parsed back and stored clamped |
| ProcfsSeqfile.StoreFormatted | 08-procfs-seqfile/procfs-seqfile.c:186-212 | writing the texts of k <= 256 values (with or without a trailing empty token) returns the length and sets slot j to the clamped value j for j < k, leaving the rest |
| ProcfsSeqfile.LinesWrite | 08-procfs-seqfile/procfs-seqfile.c:154-222 | writing values one per line sets slots 0..k-1 to the clamped values and returns the length; later slots are unchanged |
| ProcfsSeqfile.SeqTenToTwenty | 08-procfs-seqfile/procfs-seqfile.c:19-20 | `seq 10 20` written to the file returns 33 and sets slots 0..10 to 10..20; slot 11 and beyond are unchanged |
| ProcfsSeqfile.JoinedWrite | 08-procfs-seqfile/procfs-seqfile.c:186-212 | numbers separated by any mix of ' ', ',' and '\n' are stored in order from slot 0 |
| ProcfsSeqfile.CatTwice | 08-procfs-seqfile/procfs-seqfile.c:268-301 | as written: a cat (a round from 0 and then a round at 256) gets the whole 1024-byte listing, but the second round's stop unlocks a free mutex, so the lock count ends at -1 |
| ProcfsSeqfile.SeqStartFixed | 08-procfs-seqfile/procfs-seqfile.c:248-284 | corrected start: the same results, but every NULL return clears seq->private |
| ProcfsSeqfile.ReadRoundFixed | 08-procfs-seqfile/procfs-seqfile.c:248-367 | with the corrected start, every round leaves the lock count as it found it, in range and out |
| ProcfsSeqfile.CatTwiceFixed | 08-procfs-seqfile/procfs-seqfile.c:268-301 | with the corrected start, the same cat gets the whole listing and leaves the mutex free |
| ProcfsPcilist.Slot | 10-procfs-pcilist/procfs-pcilist.c:150 | PCI_SLOT(devfn) is below 32 |
| ProcfsPcilist.Func | 10-procfs-pcilist/procfs-pcilist.c:151 | PCI_FUNC(devfn) is below 8 |
| ProcfsPcilist.SlotFuncSplit | 10-procfs-pcilist/procfs-pcilist.c:150-151 | PCI_SLOT is below 32, PCI_FUNC below 8, and slot * 8 + func is devfn |
| ProcfsPcilist.Successor | 10-procfs-pcilist/procfs-pcilist.c:103-124 | pci_get_device from a device returns the next one in enumeration order (the first from NULL), NULL exactly past the last |
| ProcfsPcilist.Taken | 10-procfs-pcilist/procfs-pcilist.c:99-101 | taking a reference on a device raises exactly that device's count by one; on NULL nothing changes |
| ProcfsPcilist.Dropped | 10-procfs-pcilist/procfs-pcilist.c:132-136 | putting a device lowers exactly that device's count by one; on NULL nothing changes |
| ProcfsPcilist.DroppedTaken | 10-procfs-pcilist/procfs-pcilist.c:99-101 | taking a reference on a device and then putting it restores every count |
| ProcfsPcilist.PciBus.constructor | 10-procfs-pcilist/procfs-pcilist.c:99-101 | a device list with one reference count per device |
| ProcfsPcilist.PciBus.GetDevice | 10-procfs-pcilist/procfs-pcilist.c:118-121 | returns the successor, with a reference taken on it and the one on `from` dropped |
| ProcfsPcilist.PciBus.DevPut | 10-procfs-pcilist/procfs-pcilist.c:132-136 | drops one reference on the device and changes no other count |
| ProcfsPcilist.Header | 10-procfs-pcilist/procfs-pcilist.c:146-153 | the fixed part of a record, up to and including " [", is 19 bytes (RecordFields gives its fields) |
| ProcfsPcilist.Record | 10-procfs-pcilist/procfs-pcilist.c:146-155 | a device's record is 21 bytes plus the driver name (RecordFields gives its layout) |
| ProcfsPcilist.RecordFields | 10-procfs-pcilist/procfs-pcilist.c:146-155 | the record is bus:slot.func vendor:device [driver]: two, two, one, four and four upper-case hex digits with the fields' values, then the driver's name (empty without a driver), then "]\n" |
| ProcfsPcilist.Listing | 10-procfs-pcilist/procfs-pcilist.c:141-159 | the listing is empty exactly when there are no devices (ListingAppend gives its growth record by record) |
| ProcfsPcilist.ListingAppend | 10-procfs-pcilist/procfs-pcilist.c:141-159 | the listing grows by exactly the next device's record |
| ProcfsPcilist.SeqStart | 10-procfs-pcilist/procfs-pcilist.c:94-111 | returns the device at 0-based index pos, or NULL when there are at most pos devices or pos is negative; afterwards only that device carries a new reference, since each device passed over was released by the next pci_get_device |
| ProcfsPcilist.SeqNext | 10-procfs-pcilist/procfs-pcilist.c:113-126 | the position goes up by exactly one and the successor is returned, with the current device's reference moved to it |
| ProcfsPcilist.SeqStop | 10-procfs-pcilist/procfs-pcilist.c:128-139 | puts the iterator's device exactly when it is non-NULL |
| ProcfsPcilist.SeqShow | 10-procfs-pcilist/procfs-pcilist.c:141-159 | returns 0 and the device's record, changing no reference and no position |
| ProcfsPcilist.ShowRecords | 10-procfs-pcilist/procfs-pcilist.c:113-159 | show/next from pos for a budget emits the records of devices pos..min(pos + budget, N) in list order, and the pinned reference moves from pos to the new iterator |
| ProcfsPcilist.ReadRound | 10-procfs-pcilist/procfs-pcilist.c:94-159 | a start/show/next/stop session, full or cut short by the budget, leaves every reference count as it found it, and emits the visited devices' records in order |
| ProcfsPcilist.ReadAll | 10-procfs-pcilist/procfs-pcilist.c:94-159 | reading the whole file from 0 visits every device exactly once in list order, emitting their records, with zero net references |
| SysfsAttrs.BoolText | 09-sysfs-attrs/sysfs-attrs.c:149 | bool show prints "1\n" or "0\n" |
| SysfsAttrs.IntText | 09-sysfs-attrs/sysfs-attrs.c:181 | int show prints 2 to 12 bytes ending in a newline |
| SysfsAttrs.Stored | 09-sysfs-attrs/sysfs-attrs.c:226 | the stored string is shorter than 1024 and has no NUL; it is the whole written C string exactly when that fits |
| SysfsAttrs.StringStoreResult | 09-sysfs-attrs/sysfs-attrs.c:226-229 | string store returns the count exactly when the data has no NUL and fits; a smaller non-negative count exactly when it has an embedded NUL and the string before it fits; and -E2BIG exactly when the C string does not fit |
| SysfsAttrs.BoolAttr.constructor | 09-sysfs-attrs/sysfs-attrs.c:65-74 | the bool attribute starts false |
| SysfsAttrs.BoolAttr.Show | 09-sysfs-attrs/sysfs-attrs.c:143-154 | prints BoolText of the value and returns its 2 bytes |
| SysfsAttrs.BoolAttr.Store | 09-sysfs-attrs/sysfs-attrs.c:156-173 | on a kstrtobool error, -EINVAL and the value unchanged; otherwise the parsed value is stored and the whole count returned |
| SysfsAttrs.IntAttr.constructor | 09-sysfs-attrs/sysfs-attrs.c:76-85 | the int attribute starts at 0 |
| SysfsAttrs.IntAttr.Show | 09-sysfs-attrs/sysfs-attrs.c:175-186 | prints IntText of the value and returns its length |
| SysfsAttrs.IntAttr.Store | 09-sysfs-attrs/sysfs-attrs.c:188-205 | on a kstrtoint error (base 0), that error (-EINVAL or -ERANGE) and the value unchanged; otherwise the parsed value is stored and the whole count returned |
| SysfsAttrs.StringAttr.constructor | 09-sysfs-attrs/sysfs-attrs.c:87-96 | the string attribute starts as "" in a 1024-byte array |
| SysfsAttrs.StringAttr.Show | 09-sysfs-attrs/sysfs-attrs.c:207-218 | prints the stored string and a newline, at most 1024 bytes |
| SysfsAttrs.StringAttr.Store | 09-sysfs-attrs/sysfs-attrs.c:220-231 | the array holds Stored(data) NUL-terminated at index 0, the remaining bytes are as before, it stays terminated, and the result is StringStoreResult(data) |
| SysfsAttrs.Attributes.constructor | 09-sysfs-attrs/sysfs-attrs.c:33-36 | the three attributes start as false, 0 and "", in separate objects |
| SysfsAttrs.BoolRoundTrip | 09-sysfs-attrs/sysfs-attrs.c:149-165 | writing back what bool show printed parses to the same value |
| SysfsAttrs.IntRoundTrip | 09-sysfs-attrs/sysfs-attrs.c:181-197 | writing back what int show printed parses to the same value, for every int |
| SysfsAttrs.StringRoundTrip | 09-sysfs-attrs/sysfs-attrs.c:226-229 | a NUL-free string shorter than 1024 is stored exactly and its count returned |
| SysfsAttrs.StringEcho | 09-sysfs-attrs/sysfs-attrs.c:213-229 | writing back what string show printed stores the text with one more newline |
| SysfsAttrs.EchoBack | 09-sysfs-attrs/sysfs-attrs.c:143-205 | show then store of what it printed keeps the bool and int values and returns the printed counts: 2 for the bool, and exactly the length of the int's printed `%d\n` text (IntText of the old value) for the int |
| Chardev.Inc | 04-chardev/chardev.c:166 | ++counter on an unsigned int adds one, wrapping 2^32 - 1 to 0 |
| Chardev.AsSigned | 04-chardev/chardev.c:166 | %d of the unsigned counter is itself up to 2^31 - 1 and counter - 2^32 above |
| Chardev.Message | 04-chardev/chardev.c:166-171 | the formatted message always fits the 128 bytes before the terminator |
| Chardev.MessageNoNul | 04-chardev/chardev.c:166-171 | the message holds no NUL, so strlen of the buffer is its length |
| Chardev.MessageReports | 04-chardev/chardev.c:166-171 | the message is the fixed "[chardev] Character device file has been opened " text, a number that parses back as the counter read as an int, then " times\n" |
| Chardev.CounterAfter | 04-chardev/chardev.c:150-171 | the counter after any number of passes is even, since each pass increments it twice (CounterAfterIsTwice gives its value) |
| Chardev.CounterAfterIsTwice | 04-chardev/chardev.c:150-171 | after k passes, the counter is 2k mod 2^32 |
| Chardev.CountReported | 04-chardev/chardev.c:150-171 | the k-th pass reports 2k while 2k fits an int |
| Chardev.Device.constructor | 04-chardev/chardev.c:34-35 | closed, counter 0, an all-zero 129-byte buffer holding the empty message |
| Chardev.Device.Open | 04-chardev/chardev.c:142-182 | while open, -EBUSY changing nothing; otherwise the flag is set, the counter goes up by two (mod 2^32) and the buffer's C string is the message of the new counter; then -ENODEV with the flag still set and no module reference, or 0 with one more reference |
| Chardev.Device.PrintCount | 04-chardev/chardev.c:166-171 | the two prints of open: the counter goes up by two and the buffer's C string is the message of the final counter |
| Chardev.Device.Announce | 04-chardev/chardev.c:166 | one print: ++counter, then the message and a NUL from index 0, the bytes after it untouched |
| Chardev.Device.Release | 04-chardev/chardev.c:184-200 | clears the open flag, puts one module reference and returns 0; the counter is unchanged |
| Chardev.Device.Read | 04-chardev/chardev.c:202-242 | the result, bytes and new offset are ReadAt of the buffer's C string: 0 at or past strlen or for an empty request, -EFAULT on a copy fault, else min(length, strlen - offset) bytes from the offset |
| Chardev.OpenReleaseOpen | 04-chardev/chardev.c:142-200 | open, release, open: both return 0, and the counter has gone up by four in all |
| Chardev.SecondOpenerBusy | 04-chardev/chardev.c:159-162 | a second open while the first holds the device is -EBUSY |
| Chardev.BusyAfterFailedGet | 04-chardev/chardev.c:159-178 | after an open fails in try_module_get with -ENODEV, every later open is -EBUSY, because that file is never released |
| Chardev.ReadWholeMessage | 04-chardev/chardev.c:202-242 | reading the message from offset 0 in chunks yields it all, then 0 |
| KernelLib.CString | 04-chardev/chardev.c:210 | strlen: the C string is a prefix with no NUL, followed by a NUL when shorter than the bytes |
| KernelLib.CStringOfTerminated | 04-chardev/chardev.c:210 | any NUL-free text followed by a NUL reads back, as a C string, as that text |
| KernelLib.DigitsRoundTrip | 08-procfs-seqfile/procfs-seqfile.c:198 | the digits of a number read back as its value in every base up to 16 |
| KernelLib.FieldValue | 08-procfs-seqfile/procfs-seqfile.c:363 | a zero-padded field of width w holds digits spelling any value below base^w |
| KernelLib.FormatInt | 09-sysfs-attrs/sysfs-attrs.c:181 | %d of an int is at least one byte (FormatIntLength bounds it, FormatIntNoNul excludes NUL, KstrToIntFormat parses it back) |
| KernelLib.FormatIntLength | 04-chardev/chardev.c:166 | %d of an int is at most 11 bytes |
| KernelLib.KstrToInt | 09-sysfs-attrs/sysfs-attrs.c:194 | kstrtoint with base 0: an error is -EINVAL or -ERANGE; a success is an int |
| KernelLib.ParseUnsigned | 09-sysfs-attrs/sysfs-attrs.c:194 | the unsigned part of kstrtoint: a parsed value is below 2^64, and an error is -EINVAL or -ERANGE (ParseUnsignedDigits gives the values it parses) |
| KernelLib.ParseUnsignedDigits | 09-sysfs-attrs/sysfs-attrs.c:194 | the decimal digits of any n below 2^64, with or without one trailing newline, parse back to n |
| KernelLib.KstrToIntFormat | 09-sysfs-attrs/sysfs-attrs.c:181-194 | kstrtoint parses %d of any int back to it, with or without one trailing newline |
| KernelLib.KstrToBool | 09-sysfs-attrs/sysfs-attrs.c:162 | its only contract is that an error is -EINVAL; FormatBool gives it meaning, by parsing what bool show prints back to the same value |
| KernelLib.FormatBool | 09-sysfs-attrs/sysfs-attrs.c:149-162 | %d of a bool is one byte that kstrtobool parses back to it |
| KernelLib.Strsep | 08-procfs-seqfile/procfs-seqfile.c:190 | strsep: NULL exactly for a NULL cursor; otherwise a delimiter-free prefix of the text, which is the whole text when the cursor becomes NULL, and otherwise is followed by one ' ', ',' or '\n' and then the new cursor's text |
| KernelLib.StrsepStep | 08-procfs-seqfile/procfs-seqfile.c:186-191 | each strsep call takes the next of the Tokens of the text |
| KernelLib.TokensCount | 08-procfs-seqfile/procfs-seqfile.c:186-191 | strsep yields one more token than the text has delimiters |
| KernelLib.TokensJoin | 08-procfs-seqfile/procfs-seqfile.c:186-191 | the tokens joined by the text's own delimiters give back the text |
| KernelLib.TokensHaveNoDelimiter | 08-procfs-seqfile/procfs-seqfile.c:186-191 | no token contains a delimiter |
| KernelLib.TokensOfJoin | 08-procfs-seqfile/procfs-seqfile.c:186-191 | strsep splits delimiter-free texts joined by delimiters back into those texts |
| KernelLib.StrScpy | 09-sysfs-attrs/sysfs-attrs.c:226 | strscpy into n bytes: the whole string and its length when it fits, else its first n - 1 bytes and -E2BIG |
| KernelLib.UserCopy | 06-procfs-buffer/procfs-buffer.c:180 | a faulting copy_from_user of n bytes whose last `missed` cannot be read delivers the first n - missed bytes intact, into a window of n bytes; a copy that misses nothing delivers all of them |
| KernelLib.CopyFromUser | 06-procfs-buffer/procfs-buffer.c:180 | returns how many bytes were not copied and writes the copy window, nothing else |
| KernelLib.CopyTerminated | 09-sysfs-attrs/sysfs-attrs.c:226 | writes the text and a NUL from index 0, leaves the rest of the array, and the array then reads back as that text |
| KernelLib.ClampU8 | 08-procfs-seqfile/procfs-seqfile.c:203 | clamp(v, 0, U8_MAX): v inside the range, else the nearer bound |

## Left out

- Module lifecycle is not modelled: `*_init`/`*_exit`, proc/sysfs/cdev registration, and `module_param`. Only these initial states are kept:
  - the zero-filled globals of 04 and 06;
  - the 07 context after `kzalloc` and `memset`;
  - the 08 fill loop;
  - the initial attribute values of 09.
- The hello-world modules (01-03) have no logic.
- Logging (`pr_info`, `pr_err`, `pr_alert`) and the `debug` parameters are not modelled. The open and release callbacks of 05 and 06 only log and return 0, and release of 07 only returns -EINVAL when the entry has no data. None of them is modelled.
- The seq_file library is not part of this model: `seq_open`, `seq_read`, `seq_lseek`, `seq_release` and the open/read/lseek/release callbacks of 08 and 10 that call it. ReadRound stands for one call of `seq_read`, and its `budget` is how many records fit the reader's buffer.
- Concurrency is modelled sequentially:
  - the 06/07 mutexes are a ghost `locked` flag, and an interrupted `mutex_lock_interruptible` is a boolean parameter;
  - the 08 mutex is a ghost lock count;
  - the 09 mutexes are taken and released inside each callback, so they are not modelled;
  - the 04 `atomic_cmpxchg` gate is a plain flag.
- User memory is modelled by parameters:
  - a faulting `copy_to_user` is a boolean;
  - a faulting `copy_from_user` is the number of trailing bytes it cannot read;
  - a failing `kzalloc` in the 08 write is a boolean.
- The PCI subsystem is an abstract device list with one reference count per device (PciBus.GetDevice and PciBus.DevPut), following the get/put contract in the comments of 10. `pci_dev_driver` is an optional driver name in the device record.
- The kernel helpers are written after their documented behaviour; their source is not part of this model:
  - `kstrtoint` (base 0, optional sign, a single trailing newline, -ERANGE outside int);
  - `kstrtobool` (first character 1/y/Y/t/T/on for true, 0/n/N/f/F/off for false);
  - `strsep`, `strscpy`;
  - `sysfs_emit`, `snprintf`, `sprintf`, `seq_printf`;
  - `clamp`.
- ProcIo.BufferInvariant: the invariant proved is that the array's last byte, bytes[capacity], is NUL, not that bytes[size] is. A write whose copy_from_user faults part-way (06-procfs-buffer/procfs-buffer.c:180-183, 07-procfs-inode/procfs-inode.c:238-241) has already copied bytes over buffer[size] but leaves size as it was. So the content is not NUL-terminated at size after such a write, as ProcIo.FaultMayLoseTerminator shows. The reads go by size, not by the terminator, so they are unaffected.
- KernelLib.StrScpy: the kernel's word-at-a-time strscpy may also zero a few bytes after the terminator. The model leaves every byte after the terminator as it was.
- KernelLib.Field: it prints the low w digits, where printf's %0Nu and %0NX would widen the field. Every value the modules print fits its width, so the two agree there.
- 04 `chardev_device_read` with a negative offset: the C code has no guard and would read outside the buffer. Chardev.Device.Read requires offset >= 0.
- Chardev.Device.Open and Chardev.Device.PrintCount: they state the buffer's C string and its terminator, not the stale bytes after the terminator. Those are left by earlier, longer messages. Chardev.Device.Announce states them for each print.
- 04 `try_module_get` failing leaves the open flag set, and nothing ever clears it. This is modelled as written (Chardev.BusyAfterFailedGet). It is not listed as a finding: the call only fails while the module is being unloaded.

## Findings

| source | as written | input that shows it | evidently intended | confidence | as-written member | corrected member |
|---|---|---|---|---|---|---|
| 08-procfs-seqfile/procfs-seqfile.c:268-270 | seq_start returns NULL for pos >= 256 without taking the mutex and without clearing seq->private, while seq_stop (294-301) unlocks whenever seq->private is set | `cat /proc/procfs-seqfile`: the first read round lists all 256 slots and sets seq->private; the second round starts at pos 256, and its stop unlocks a mutex nobody holds | the NULL returns of start clear seq->private (or stop unlocks only what start locked), so the mutex is unlocked exactly once per lock | high (not executed) | ProcfsSeqfile.CatTwice | ProcfsSeqfile.CatTwiceFixed |
