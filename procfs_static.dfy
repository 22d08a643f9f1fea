/**
 * /proc/procfs-static: a read-only entry over a constant string. The only state a read
 * changes is the caller's *offset.
 */
module ProcfsStatic {
  import opened Errno
  import opened KernelLib
  import opened ProcIo

  /** The constant buffer, without the terminator sizeof counts. */
  const Buffer: string := "Hello, World!"

  /**
   * proc_read: -EINVAL at a negative offset, 0 (end of file) at or past the end, -EFAULT when
   * copy_to_user fails, otherwise min(length, 13 - offset) bytes of the buffer from the offset,
   * with the offset advanced by as many.
   */
  method ProcRead(length: nat, offset: int, fault: bool) returns (r: int, out: string, newOffset: int)
    ensures |Buffer| == 13
    ensures ReadResult(r, out, newOffset) == ReadAt(Buffer, offset, length, fault)
  {
    out, newOffset := [], offset;
    if offset < 0 {
      return -EINVAL, out, newOffset;
    }
    if offset >= |Buffer| {
      return 0, out, newOffset;
    }
    var bytesToRead := Min(length, |Buffer| - offset);
    if fault && bytesToRead > 0 {
      return -EFAULT, out, newOffset;
    }
    out := Buffer[offset..offset + bytesToRead];
    newOffset := offset + bytesToRead;
    r := bytesToRead;
  }

  /** cat with a `chunk`-byte buffer: reads from offset 0 until a read returns 0. The reads
      concatenate to exactly the buffer, and the last read returns 0. */
  method Cat(chunk: nat) returns (out: string, last: int)
    requires chunk > 0
    ensures out == Buffer && last == 0
  {
    var offset := 0;
    out := [];
    while true
      invariant 0 <= offset <= |Buffer| && out == Buffer[..offset]
      decreases |Buffer| - offset
    {
      var data, next;
      last, data, next := ProcRead(chunk, offset, false);
      ReadIsSlice(Buffer, offset, chunk, false);
      if last <= 0 {
        break;
      }
      assert Buffer[..next] == Buffer[..offset] + Buffer[offset..next];
      out, offset := out + data, next;
    }
    assert offset == |Buffer| && Buffer[..offset] == Buffer;
  }

  /** The same in terms of the read function: successive reads from 0 deliver the buffer. */
  lemma ReadAllFromZero(chunk: nat)
    requires chunk > 0
    ensures ReadToEnd(Buffer, 0, chunk) == Buffer
  {
    ReadToEndIsSuffix(Buffer, 0, chunk);
  }
}
