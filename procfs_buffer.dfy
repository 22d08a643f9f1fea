/**
 * /proc/procfs-buffer: one module-global 1024-byte buffer (1025 slots with the terminator),
 * shared by every opener and guarded by one mutex. Its read and write callbacks are
 * ProcBuffer.BoundedBuffer.Read and Write at this capacity.
 */
module ProcfsBuffer {
  import opened Errno
  import opened KernelLib
  import opened ProcIo
  import opened ProcBuffer

  const BufferSize: nat := 1024

  /** The statically initialised globals: an all-zero array and size 0. */
  method NewProcfsBuffer() returns (b: BoundedBuffer)
    ensures fresh(b) && fresh(b.buffer) && b.Valid()
    ensures b.capacity == BufferSize && b.buffer.Length == BufferSize + 1
    ensures b.size == 0 && b.buffer[..] == seq(BufferSize + 1, _ => NUL)
  {
    b := new BoundedBuffer(BufferSize);
  }

  /** The truncate-on-write round trip, from any state of the buffer: write "hello" at 0, then
      "hi" at 0; a read at 0 then returns "hi" (the length is now 2, not 5). */
  lemma HelloThenHi(bytes: seq<char>, size: nat)
    requires BufferInvariant(bytes, size, BufferSize)
    ensures var w1 := WriteAt(bytes, size, BufferSize, "hello", 0, 0);
      var w2 := WriteAt(w1.bytes, w1.size, BufferSize, "hi", 0, 0);
      && w1.ret == 5 && ReadAt(w1.bytes[..w1.size], 0, 5, false) == ReadResult(5, "hello", 5)
      && w2.ret == 2 && w2.size == 2
      && ReadAt(w2.bytes[..w2.size], 0, 5, false) == ReadResult(2, "hi", 2)
  {
    var w1 := WriteAt(bytes, size, BufferSize, "hello", 0, 0);
    ReadAfterWrite(bytes, size, BufferSize, "hello", 0, 5);
    WriteKeepsInvariant(bytes, size, BufferSize, "hello", 0, 0);
    ReadAfterWrite(w1.bytes, w1.size, BufferSize, "hi", 0, 5);
  }

  /** The same round trip through the callbacks themselves. */
  method HelloThenHiCallbacks(b: BoundedBuffer) returns (first: seq<char>, second: seq<char>)
    requires b.Valid() && b.capacity == BufferSize
    modifies b, b.buffer
    ensures b.Valid() && first == "hello" && second == "hi" && b.size == 2
  {
    var r, off := b.Write("hello", 0, false, 0);
    var n, o;
    n, first, o := b.Read(5, 0, false, false);
    HelloThenHi(old(b.buffer[..]), old(b.size));
    r, off := b.Write("hi", 0, false, 0);
    n, second, o := b.Read(5, 0, false, false);
  }
}
