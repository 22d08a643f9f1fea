/**
 * /proc/procfs-inode: the bounded buffer (127 bytes of capacity, 128 slots) lives in a context
 * allocated at load time and attached to the proc entry; open copies it into
 * file->private_data, and read and write reach it only through that field.
 */
module ProcfsInode {
  import opened Errno
  import opened KernelLib
  import opened ProcIo
  import opened ProcBuffer

  const BufferSize: nat := 127

  /** The parts of struct file the callbacks use. */
  class File {
    var privateData: BoundedBuffer?

    /** A freshly opened struct file: no private data yet. */
    constructor ()
      ensures privateData == null
    {
      privateData := null;
    }
  }

  /** The context as procfs_inode_init leaves it: kzalloc'd, buffer zeroed, size 0, mutex ready. */
  method NewContext() returns (ctx: BoundedBuffer)
    ensures fresh(ctx) && fresh(ctx.buffer) && ctx.Valid()
    ensures ctx.capacity == BufferSize && ctx.buffer.Length == BufferSize + 1
    ensures ctx.size == 0 && ctx.buffer[..] == seq(BufferSize + 1, _ => NUL)
  {
    ctx := new BoundedBuffer(BufferSize);
  }

  /** proc_open: the entry's data (pde_data) is the context that init attached, if any; without
      one, -EINVAL and the file is left alone, otherwise file->private_data becomes the context. */
  method Open(file: File, entryData: BoundedBuffer?) returns (r: int)
    requires entryData != null ==> entryData.capacity == BufferSize
    modifies file
    ensures entryData == null ==> r == -EINVAL && file.privateData == old(file.privateData)
    ensures entryData != null ==> r == 0 && file.privateData == entryData
  {
    if entryData == null {
      return -EINVAL;
    }
    file.privateData := entryData;
    r := 0;
  }

  /** proc_read: -EINVAL without private data (nothing changes), else the buffer's read. */
  method Read(file: File, length: nat, offset: int, interrupted: bool, fault: bool) returns (r: int, out: seq<char>, newOffset: int)
    requires file.privateData != null ==> file.privateData.Valid() && file.privateData.capacity == BufferSize
    modifies file.privateData
    ensures file.privateData == null ==> r == -EINVAL && out == [] && newOffset == offset
    ensures file.privateData != null ==>
      var ctx := file.privateData;
      && ctx.Valid() && ctx.size == old(ctx.size) <= BufferSize
      && (interrupted ==> r == -ERESTARTSYS && out == [] && newOffset == offset)
      && (!interrupted ==> ReadResult(r, out, newOffset) == ReadAt(ctx.Contents(), offset, length, fault))
  {
    if file.privateData == null {
      return -EINVAL, [], offset;
    }
    var ctx := file.privateData;
    r, out, newOffset := ctx.Read(length, offset, interrupted, fault);
  }

  /** proc_write: -EINVAL without private data (nothing changes), else the buffer's write. */
  method Write(file: File, data: seq<char>, offset: int, interrupted: bool, fault: nat) returns (r: int, newOffset: int)
    requires file.privateData != null ==> file.privateData.Valid() && file.privateData.capacity == BufferSize
    modifies file.privateData, if file.privateData != null then {file.privateData.buffer} else {}
    ensures file.privateData == null ==> r == -EINVAL && newOffset == offset
    ensures file.privateData != null ==>
      var ctx := file.privateData;
      && ctx.Valid()
      && (interrupted ==> r == -ERESTARTSYS && newOffset == offset && unchanged(ctx, ctx.buffer))
      && (!interrupted ==>
            WriteResult(r, ctx.buffer[..], ctx.size, newOffset)
              == WriteAt(old(ctx.buffer[..]), old(ctx.size), BufferSize, data, offset, fault))
  {
    if file.privateData == null {
      return -EINVAL, offset;
    }
    var ctx := file.privateData;
    r, newOffset := ctx.Write(data, offset, interrupted, fault);
  }

  /** Open then read: a file opened on the entry reaches the context's content, and a read
      before open, with no private data, is -EINVAL. */
  method OpenThenRead(ctx: BoundedBuffer, length: nat) returns (before: int, after: int, out: seq<char>, newOffset: int)
    requires ctx.Valid() && ctx.capacity == BufferSize
    modifies ctx
    ensures ctx.Valid() && ctx.size == old(ctx.size)
    ensures before == -EINVAL
    ensures ReadResult(after, out, newOffset) == ReadAt(ctx.Contents(), 0, length, false)
  {
    var file := new File();
    before, out, newOffset := Read(file, length, 0, false, false);
    var status := Open(file, ctx);
    after, out, newOffset := Read(file, length, 0, false, false);
  }
}
