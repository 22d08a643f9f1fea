/**
 * The mutex-guarded bounded buffer behind /proc/procfs-buffer and /proc/procfs-inode: a byte
 * array of capacity + 1 slots holding `size` bytes of content and a terminator, read at an
 * offset and overwritten with truncation. The two modules differ only in the capacity and in
 * where the state lives (module globals, or a context reached through file->private_data).
 */
module ProcBuffer {
  import opened Errno
  import opened KernelLib
  import opened ProcIo

  class BoundedBuffer {
    const capacity: nat
    const buffer: array<char>
    var size: nat
    /** The buffer's mutex, held only inside Read and Write. */
    ghost var locked: bool

    ghost predicate Valid()
      reads this, buffer
    {
      BufferInvariant(buffer[..], size, capacity) && !locked
    }

    /** The readable content: the first `size` bytes. */
    ghost function Contents(): seq<char>
      reads this, buffer
      requires Valid()
    {
      buffer[..size]
    }

    /** A zero-filled buffer of the given capacity with no content (static initialiser, or kzalloc
        followed by memset and size = 0). */
    constructor (capacity: nat)
      ensures Valid() && this.capacity == capacity && fresh(buffer)
      ensures size == 0 && buffer[..] == seq(capacity + 1, _ => NUL)
      ensures Terminated(buffer[..], size)
    {
      this.capacity := capacity;
      buffer := new char[capacity + 1](_ => NUL);
      size := 0;
      locked := false;
    }

    /**
     * proc_read: an interrupted wait for the mutex returns -ERESTARTSYS and does nothing;
     * otherwise, under the mutex, a negative offset is -EINVAL, an offset at or past the end
     * returns 0, and a copy fault -EFAULT; else min(length, size - offset) bytes are delivered
     * and the offset advances. The buffer is never changed and the mutex is released on every path.
     */
    method Read(length: nat, offset: int, interrupted: bool, fault: bool) returns (r: int, out: seq<char>, newOffset: int)
      requires Valid()
      modifies this`locked
      ensures Valid() && size == old(size)
      ensures interrupted ==> r == -ERESTARTSYS && out == [] && newOffset == offset
      ensures !interrupted ==> ReadResult(r, out, newOffset) == ReadAt(Contents(), offset, length, fault)
    {
      if interrupted {
        return -ERESTARTSYS, [], offset;
      }
      locked := true;
      out, newOffset := [], offset;
      if offset < 0 {
        r := -EINVAL;
      } else if offset >= size {
        r := 0;
      } else {
        var n := Min(length, size - offset);
        if fault && n > 0 {
          r := -EFAULT;
        } else {
          out := buffer[offset..offset + n];
          assert out == buffer[..size][offset..offset + n];
          newOffset := offset + n;
          r := n;
        }
      }
      locked := false;
    }

    /**
     * proc_write: an interrupted wait returns -ERESTARTSYS and does nothing; otherwise, under
     * the mutex, the write of WriteAt: -EINVAL, -ENOSPC (no room or an empty request), -EFAULT
     * (a partial copy has landed, length and offset unchanged), or n bytes copied at the offset
     * with the content truncated to end after them and a NUL stored there.
     */
    method Write(data: seq<char>, offset: int, interrupted: bool, fault: nat) returns (r: int, newOffset: int)
      requires Valid()
      modifies this, buffer
      ensures Valid()
      ensures interrupted ==> r == -ERESTARTSYS && newOffset == offset && unchanged(this, buffer)
      ensures !interrupted ==>
        WriteResult(r, buffer[..], size, newOffset) == WriteAt(old(buffer[..]), old(size), capacity, data, offset, fault)
    {
      if interrupted {
        return -ERESTARTSYS, offset;
      }
      WriteKeepsInvariant(buffer[..], size, capacity, data, offset, fault);
      locked := true;
      newOffset := offset;
      if offset < 0 {
        r := -EINVAL;
      } else if offset >= capacity {
        r := -ENOSPC;
      } else {
        var available := capacity - offset;
        var n := Min(|data|, available);
        if n == 0 {
          r := -ENOSPC;
        } else {
          r, newOffset := CopyIn(data[..n], offset, fault);
        }
      }
      locked := false;
    }

    /** The copy of a write that has room for all of `data` at the offset: a faulting
        copy_from_user leaves its partial copy and returns -EFAULT; otherwise the content is
        truncated to end after the copied bytes, with a NUL stored there. */
    method CopyIn(data: seq<char>, offset: nat, fault: nat) returns (r: int, newOffset: int)
      requires buffer.Length == capacity + 1 && 0 < |data| && offset + |data| <= capacity
      modifies this`size, buffer
      ensures Min(fault, |data|) != 0 ==>
        && r == -EFAULT && newOffset == offset && size == old(size)
        && buffer[..] == Overwrite(old(buffer[..]), offset, UserCopy(data, Min(fault, |data|)))
      ensures Min(fault, |data|) == 0 ==>
        && r == |data| && newOffset == size == offset + |data|
        && buffer[..] == Overwrite(old(buffer[..]), offset, data + [NUL])
    {
      ghost var before := buffer[..];
      newOffset := offset;
      var missed := CopyFromUser(buffer, offset, data, fault);
      if missed != 0 {
        return -EFAULT, newOffset;
      }
      // truncate on write instead of growing the content
      newOffset := offset + |data|;
      size := newOffset;
      buffer[size] := NUL;
      r := |data|;
      assert buffer[..] == Overwrite(before, offset, data + [NUL]);
    }
  }
}
