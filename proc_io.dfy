/**
 * The offset-addressed read and the truncating write that the procfs and character-device
 * callbacks implement, as functions of the state they act on. The callback methods of the
 * other modules are proved to compute exactly these; the properties of the callbacks are
 * proved here, once.
 */
module ProcIo {
  import opened Errno
  import opened KernelLib

  /** What a read callback returns, the bytes it delivers to the caller and the new *offset. */
  datatype ReadResult = ReadResult(ret: int, data: seq<char>, offset: int)

  /**
   * A read of up to `length` bytes at *offset over `content`: -EINVAL at a negative offset,
   * 0 (end of file) at or past the end, otherwise min(length, |content| - offset) bytes.
   * `fault` says copy_to_user cannot write the caller's buffer (a 0-byte copy never fails).
   */
  function ReadAt(content: seq<char>, offset: int, length: nat, fault: bool): (r: ReadResult)
    ensures |r.data| <= length
    ensures r.ret > 0 ==> r.ret == |r.data| && r.offset == offset + r.ret
    ensures r.ret <= 0 ==> r.data == [] && r.offset == offset
  {
    if offset < 0 then ReadResult(-EINVAL, [], offset)
    else if offset >= |content| then ReadResult(0, [], offset)
    else
      var n := Min(length, |content| - offset);
      if fault && n > 0 then ReadResult(-EFAULT, [], offset)
      else ReadResult(n, content[offset..offset + n], offset + n)
  }

  /** A read delivers a contiguous slice of the content starting at the old offset, returns its
      length and moves the offset past it; a failing or empty read delivers nothing and keeps
      the offset. */
  lemma ReadIsSlice(content: seq<char>, offset: int, length: nat, fault: bool)
    ensures var r := ReadAt(content, offset, length, fault);
      && (r.ret > 0 ==> 0 <= offset < r.offset <= |content| && r.data == content[offset..r.offset]
                         && r.ret == |r.data| == Min(length, |content| - offset))
      && (r.ret <= 0 ==> r.offset == offset && r.data == [])
      && (r.ret == 0 <==> offset >= 0 && (offset >= |content| || length == 0))
      && (r.ret < 0 <==> offset < 0 || (fault && 0 <= offset < |content| && length > 0))
  {
  }

  /** Everything a reader collects by calling read with `chunk`-sized requests from `offset` on,
      until a read returns 0 or an error. */
  function ReadToEnd(content: seq<char>, offset: int, chunk: nat): seq<char>
    requires chunk > 0
    decreases |content| - offset
  {
    var r := ReadAt(content, offset, chunk, false);
    if r.ret <= 0 then [] else r.data + ReadToEnd(content, r.offset, chunk)
  }

  /** Successive reads from offset 0 concatenate to exactly the content, after which read returns 0. */
  lemma {:induction false} ReadToEndIsSuffix(content: seq<char>, offset: nat, chunk: nat)
    requires chunk > 0
    ensures ReadToEnd(content, offset, chunk) == if offset < |content| then content[offset..] else []
    decreases |content| - offset
  {
    var r := ReadAt(content, offset, chunk, false);
    if offset < |content| {
      ReadToEndIsSuffix(content, r.offset, chunk);
      assert content[offset..] == content[offset..r.offset] + content[r.offset..];
    }
  }

  /** What a write callback returns, and the new array bytes, length and *offset. */
  datatype WriteResult = WriteResult(ret: int, bytes: seq<char>, size: nat, offset: int)

  /**
   * A write of `data` at *offset into an array of capacity + 1 bytes whose first `size` bytes
   * are the content: -EINVAL at a negative offset, -ENOSPC at or past the capacity or for an
   * empty request; otherwise n = min(|data|, capacity - offset) bytes are copied in, and a
   * faulting copy (`fault` trailing bytes unreadable) returns -EFAULT with the partially
   * copied window, else the content is truncated to end at offset + n, NUL-terminated.
   */
  function WriteAt(bytes: seq<char>, size: nat, capacity: nat, data: seq<char>, offset: int, fault: nat): (w: WriteResult)
    requires |bytes| == capacity + 1
    ensures |w.bytes| == |bytes|
    ensures w.ret > 0 ==> w.ret <= |data| && w.size == w.offset == offset + w.ret <= capacity
    ensures w.ret <= 0 ==> w.size == size && w.offset == offset
  {
    if offset < 0 then WriteResult(-EINVAL, bytes, size, offset)
    else if offset >= capacity then WriteResult(-ENOSPC, bytes, size, offset)
    else
      var n := Min(|data|, capacity - offset);
      if n == 0 then WriteResult(-ENOSPC, bytes, size, offset)
      else
        var missed := Min(fault, n);
        if missed != 0 then WriteResult(-EFAULT, Overwrite(bytes, offset, UserCopy(data[..n], missed)), size, offset)
        else WriteResult(n, Overwrite(bytes, offset, data[..n] + [NUL]), offset + n, offset + n)
  }

  /** The array invariant: length at most the capacity, the last byte a NUL (so the array always
      holds a C string), the array size fixed. */
  ghost predicate BufferInvariant(bytes: seq<char>, size: nat, capacity: nat)
  {
    |bytes| == capacity + 1 && size <= capacity && bytes[capacity] == NUL
  }

  lemma WriteKeepsInvariant(bytes: seq<char>, size: nat, capacity: nat, data: seq<char>, offset: int, fault: nat)
    requires BufferInvariant(bytes, size, capacity)
    ensures var w := WriteAt(bytes, size, capacity, data, offset, fault);
      BufferInvariant(w.bytes, w.size, capacity)
  {
    var w := WriteAt(bytes, size, capacity, data, offset, fault);
    if 0 <= offset < capacity && |data| > 0 {
      var n := Min(|data|, capacity - offset);
      var end := if Min(fault, n) != 0 then offset + n else offset + n + 1;
      assert w.bytes[end..] == bytes[end..];
      if end <= capacity {
        assert w.bytes[capacity] == w.bytes[end..][capacity - end] == bytes[end..][capacity - end];
      }
    }
  }

  /** The failing writes: each error and exactly when it happens; none but a faulting copy
      touches the bytes, and none changes the length or the offset. */
  lemma WriteErrors(bytes: seq<char>, size: nat, capacity: nat, data: seq<char>, offset: int, fault: nat)
    requires |bytes| == capacity + 1
    ensures var w := WriteAt(bytes, size, capacity, data, offset, fault);
      && (w.ret == -EINVAL <==> offset < 0)
      && (w.ret == -ENOSPC <==> 0 <= offset && (offset >= capacity || |data| == 0))
      && (w.ret == -EFAULT <==> 0 <= offset < capacity && |data| > 0 && fault > 0)
      && (w.ret < 0 ==> w.size == size && w.offset == offset)
      && (w.ret < 0 && w.ret != -EFAULT ==> w.bytes == bytes)
      && (w.ret == -EFAULT ==> w.bytes[..offset] == bytes[..offset])
  {
  }

  /** A successful write copies n = min(|data|, capacity - offset) bytes at the offset, leaves
      everything before the offset alone, sets the length to offset + n even when it used to be
      longer (truncation, never max), NUL-terminates there and advances the offset by n. */
  lemma WriteSucceeds(bytes: seq<char>, size: nat, capacity: nat, data: seq<char>, offset: int, fault: nat)
    requires |bytes| == capacity + 1
    ensures var w := WriteAt(bytes, size, capacity, data, offset, fault);
      w.ret > 0 ==>
        && 0 <= offset < capacity
        && w.ret == Min(|data|, capacity - offset)
        && w.size == offset + w.ret == w.offset
        && w.bytes[..offset] == bytes[..offset]
        && w.bytes[offset..w.size] == data[..w.ret]
        && w.bytes[w.size] == NUL
        && w.bytes[w.size + 1..] == bytes[w.size + 1..]
  {
  }

  /** Reading back at the offset of a successful write, with a request at least as long, yields
      exactly the bytes written. */
  lemma ReadAfterWrite(bytes: seq<char>, size: nat, capacity: nat, data: seq<char>, offset: int, length: nat)
    requires |bytes| == capacity + 1
    ensures var w := WriteAt(bytes, size, capacity, data, offset, 0);
      w.ret > 0 && length >= w.ret ==>
        ReadAt(w.bytes[..w.size], offset, length, false) == ReadResult(w.ret, data[..w.ret], w.offset)
  {
    var w := WriteAt(bytes, size, capacity, data, offset, 0);
    if w.ret > 0 && length >= w.ret {
      WriteSucceeds(bytes, size, capacity, data, offset, 0);
      assert w.bytes[..w.size][offset..offset + w.ret] == w.bytes[offset..w.size];
    }
  }

  /** The content as the terminated C string: a successful write leaves bytes[size] == NUL. */
  ghost predicate Terminated(bytes: seq<char>, size: nat)
  {
    size < |bytes| && bytes[size] == NUL
  }

  /** A faulting copy can overwrite the terminator while the length stays put: with content "a"
      in a 4-byte array, a 3-byte write whose last byte is unreadable copies "xy" over
      bytes 0..1, and bytes[1] is no longer NUL. */
  lemma FaultMayLoseTerminator()
    ensures var w := WriteAt("a\0\0\0", 1, 3, "xyz", 0, 1);
      w.ret == -EFAULT && w.size == 1 && !Terminated(w.bytes, w.size) && Terminated("a\0\0\0", 1)
  {
    var w := WriteAt("a\0\0\0", 1, 3, "xyz", 0, 1);
    assert UserCopy("xyz", 1) == "xy\0";
    assert w.bytes == "xy\0\0";
  }
}
