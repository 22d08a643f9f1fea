/**
 * /dev/chardev: a character device that admits one opener at a time. Each open that passes
 * the gate bumps a static unsigned counter twice (once for an snprintf of the message, once
 * more for the sprintf that overwrites it) and leaves "... opened N times\n" in a 129-byte
 * message buffer, N being the counter printed with %d; read serves that message at an offset.
 * The gate is an atomic compare-and-exchange, modelled as a sequential flag.
 */
module Chardev {
  import opened Errno
  import opened KernelLib
  import opened ProcIo

  /** CHARDEV_BUFFER_LEN: the message buffer holds this many bytes and a terminator. */
  const BufferLen: nat := 128

  const Word: int := 0x1_0000_0000

  /** ++counter on an unsigned int: wraps to 0 after 2^32 - 1. */
  function Inc(c: u32): (d: u32)
    ensures c < Word - 1 ==> d == c + 1
    ensures c == Word - 1 ==> d == 0
  {
    if c == Word - 1 then 0 else c + 1
  }

  /** %d of an unsigned int: the same 32 bits read as a signed int. */
  function AsSigned(c: u32): (x: i32)
    ensures c <= I32Max ==> x == c
    ensures c > I32Max ==> x == c - Word
  {
    if c <= I32Max then c else c - Word
  }

  /** CHARDEV_DEVICE_NAME. */
  const DeviceName: string := "chardev"

  /** The text of the message format around its %d, "[%s]" filled with the device name. */
  const Prefix: string := "[" + DeviceName + "] " + "Character " + "device " + "file " + "has " + "been " + "opened "
  const Suffix: string := " times\n"

  /** The message open writes for counter value c. */
  function Message(c: u32): (s: string)
    ensures |s| <= BufferLen
  {
    FormatIntLength(AsSigned(c));
    Prefix + FormatInt(AsSigned(c)) + Suffix
  }

  /** The message is a C string: it holds no NUL. */
  lemma MessageNoNul(c: u32)
    ensures NUL !in Message(c)
  {
    FormatIntNoNul(AsSigned(c));
    assert NUL !in Prefix && NUL !in Suffix && |Prefix| == 48;
  }

  /** The message reports the counter: between the fixed text is a number that parses back as
      the counter read as a signed int. */
  lemma MessageReports(c: u32)
    ensures |Message(c)| > |Prefix| + |Suffix|
    ensures Message(c)[..|Prefix|] == Prefix && Message(c)[|Message(c)| - |Suffix|..] == Suffix
    ensures KstrToInt(Message(c)[|Prefix|..|Message(c)| - |Suffix|]) == Ok(AsSigned(c))
  {
    var f := FormatInt(AsSigned(c));
    var m := Message(c);
    assert m == Prefix + f + Suffix;
    assert m[|Prefix|..|m| - |Suffix|] == f;
    KstrToIntFormat(AsSigned(c), []);
    assert f + [] == f;
  }

  /** After k passes from a counter of 0 the counter is 2k mod 2^32, and the message reports
      2k as long as that is a positive int. */
  lemma CountReported(k: nat)
    requires 2 * k <= I32Max
    ensures CounterAfter(k) == 2 * k && AsSigned(CounterAfter(k)) == 2 * k
  {
    CounterAfterIsTwice(k);
  }

  /** The counter after k opens passed the gate, each bumping it twice. */
  function CounterAfter(k: nat): (c: u32)
    ensures c % 2 == 0
  {
    if k == 0 then 0 else Inc(Inc(CounterAfter(k - 1)))
  }

  /** The counter after k passes is 2k, modulo 2^32. */
  lemma {:induction false} CounterAfterIsTwice(k: nat)
    ensures CounterAfter(k) == (2 * k) % Word
  {
    if k > 0 {
      CounterAfterIsTwice(k - 1);
      NextEven(2 * (k - 1));
    }
  }

  /** Two increments of an even value mod 2^32 are the value plus two, mod 2^32. */
  lemma NextEven(x: nat)
    requires x % 2 == 0
    ensures Inc(Inc(x % Word)) == (x + 2) % Word
  {
    var q, r := x / Word, x % Word;
    assert x == q * Word + r;
    if r < Word - 2 {
      assert x + 2 == q * Word + (r + 2);
    } else {
      assert r == Word - 2;
      assert x + 2 == (q + 1) * Word;
    }
  }

  class Device {
    /** chardev_already_open. */
    var alreadyOpen: bool
    /** The static counter of open. */
    var counter: u32
    /** chardev_message_buffer. */
    const message: array<char>
    /** References on the module taken by try_module_get and not yet put. */
    var moduleRefs: int
    /** How many opens passed the gate. */
    ghost var passes: nat

    ghost predicate Valid()
      reads this, message
    {
      message.Length == BufferLen + 1 && NUL in message[..] && counter == CounterAfter(passes)
    }

    /** The message read serves: strlen of the buffer. */
    ghost function Text(): string
      reads this, message
    {
      CString(message[..])
    }

    /** The static state at load time: closed, counter 0, an all-zero buffer (an empty message). */
    constructor ()
      ensures Valid() && fresh(message)
      ensures !alreadyOpen && counter == 0 && passes == 0 && moduleRefs == 0
      ensures message[..] == seq(BufferLen + 1, _ => NUL) && Text() == ""
    {
      alreadyOpen, counter, moduleRefs, passes := false, 0, 0, 0;
      message := new char[BufferLen + 1](_ => NUL);
      new;
      assert message[..][0] == NUL;
    }

    /**
     * chardev_device_open: -EBUSY if already open, changing nothing. Otherwise the flag is set,
     * the counter goes up by two (mod 2^32) and the message reports it; then a failing
     * try_module_get returns -ENODEV with the flag still set and no module reference taken.
     */
    method Open(moduleGetOk: bool) returns (r: int)
      requires Valid()
      modifies this, message
      ensures Valid()
      ensures old(alreadyOpen) ==> r == -EBUSY && unchanged(this) && unchanged(message)
      ensures !old(alreadyOpen) ==>
        && alreadyOpen
        && passes == old(passes) + 1
        && counter == Inc(Inc(old(counter)))
        && Text() == Message(counter)
        && (moduleGetOk ==> r == 0 && moduleRefs == old(moduleRefs) + 1)
        && (!moduleGetOk ==> r == -ENODEV && moduleRefs == old(moduleRefs))
    {
      if alreadyOpen {
        return -EBUSY;
      }
      alreadyOpen := true;
      PrintCount();
      if !moduleGetOk {
        return -ENODEV;
      }
      moduleRefs := moduleRefs + 1;
      r := 0;
    }

    /** The two prints of open: the message for the counter plus one, then for the counter
        plus two, written over it. */
    method PrintCount()
      requires message.Length == BufferLen + 1
      modifies this`counter, this`passes, message
      ensures counter == Inc(Inc(old(counter))) && passes == old(passes) + 1
      ensures Text() == Message(counter) && NUL in message[..]
    {
      Announce();
      Announce();
      ghost var a := message[..];
      ghost var m := Message(counter);
      assert a == a[..|m| + 1] + a[|m| + 1..];
      MessageNoNul(counter);
      CStringOfTerminated(m, a[|m| + 1..]);
      assert a[|m|] == NUL;
      passes := passes + 1;
    }

    /** One print of the message: ++counter, then the message for the new value written over
        the start of the buffer. */
    method Announce()
      requires message.Length == BufferLen + 1
      modifies this`counter, message
      ensures counter == Inc(old(counter))
      ensures message[..][..|Message(counter)| + 1] == Message(counter) + [NUL]
      ensures message[..][|Message(counter)| + 1..] == old(message[..])[|Message(counter)| + 1..]
    {
      counter := Inc(counter);
      var m := Message(counter);
      forall i | 0 <= i < |m| {
        message[i] := m[i];
      }
      message[|m|] := NUL;
      assert message[..][..|m| + 1] == m + [NUL];
    }

    /** chardev_device_release: reopens the gate and puts the module reference. */
    method Release() returns (r: int)
      requires Valid()
      modifies this
      ensures Valid() && r == 0 && !alreadyOpen && moduleRefs == old(moduleRefs) - 1
      ensures counter == old(counter) && passes == old(passes)
    {
      alreadyOpen := false;
      moduleRefs := moduleRefs - 1;
      r := 0;
    }

    /**
     * chardev_device_read, for the offsets it handles (it has no guard against a negative one):
     * 0 at or past the end of the message or for an empty request, -EFAULT when copy_to_user
     * fails, otherwise min(length, strlen - offset) bytes of the message from the offset, with
     * the offset advanced by as many. Nothing else changes.
     */
    method Read(length: nat, offset: int, fault: bool) returns (r: int, out: string, newOffset: int)
      requires Valid() && offset >= 0
      ensures ReadResult(r, out, newOffset) == ReadAt(Text(), offset, length, fault)
    {
      out, newOffset := [], offset;
      var messageLength := |CString(message[..])|;
      if messageLength <= offset {
        return 0, out, newOffset;
      }
      var bytesToRead := messageLength - offset;
      if bytesToRead > length {
        bytesToRead := length;
      }
      if bytesToRead == 0 {
        return 0, out, newOffset;
      }
      if fault {
        return -EFAULT, out, newOffset;
      }
      out := message[offset..offset + bytesToRead];
      assert CString(message[..]) <= message[..];
      assert out == Text()[offset..offset + bytesToRead];
      newOffset := offset + bytesToRead;
      r := bytesToRead;
    }
  }

  /** Open, release, open: both opens pass and the second message reports two more. */
  method OpenReleaseOpen(d: Device) returns (r1: int, r2: int)
    requires d.Valid() && !d.alreadyOpen
    modifies d, d.message
    ensures d.Valid() && r1 == 0 && r2 == 0 && d.alreadyOpen
    ensures d.counter == Inc(Inc(Inc(Inc(old(d.counter))))) && d.Text() == Message(d.counter)
    ensures d.moduleRefs == old(d.moduleRefs) + 1
  {
    r1 := d.Open(true);
    var _ := d.Release();
    r2 := d.Open(true);
  }

  /** A second opener is turned away while the first holds the device. */
  method SecondOpenerBusy(d: Device) returns (r1: int, r2: int)
    requires d.Valid() && !d.alreadyOpen
    modifies d, d.message
    ensures r1 == 0 && r2 == -EBUSY && d.alreadyOpen
  {
    r1 := d.Open(true);
    r2 := d.Open(true);
  }

  /** After an open that failed in try_module_get the flag stays set, and since that file is
      never released, every later open is -EBUSY. */
  method BusyAfterFailedGet(d: Device, attempts: nat) returns (r: int, later: seq<int>)
    requires d.Valid() && !d.alreadyOpen
    modifies d, d.message
    ensures r == -ENODEV && |later| == attempts && forall i :: 0 <= i < attempts ==> later[i] == -EBUSY
    ensures d.alreadyOpen && d.moduleRefs == old(d.moduleRefs)
  {
    r := d.Open(false);
    later := [];
    while |later| < attempts
      invariant d.Valid() && d.alreadyOpen && d.moduleRefs == old(d.moduleRefs)
      invariant |later| <= attempts && forall i :: 0 <= i < |later| ==> later[i] == -EBUSY
      decreases attempts - |later|
    {
      var next := d.Open(true);
      later := later + [next];
    }
  }

  /** Reading the message from offset 0 in chunks yields it all, then end of file. */
  lemma ReadWholeMessage(c: u32, chunk: nat)
    requires chunk > 0
    ensures ReadToEnd(Message(c), 0, chunk) == Message(c)
  {
    ReadToEndIsSuffix(Message(c), 0, chunk);
  }
}
