/**
 * /proc/procfs-pcilist: one line per PCI device, listed through the seq_file iterator.
 * The iterator is the device itself: pci_get_device takes a reference on the device it
 * returns and drops the one on the device it was given, and stop drops the reference of a
 * walk that ended early. The device list is a sequence (pci_get_device walks it in order);
 * a device is named by its index, NULL by None.
 */
module ProcfsPcilist {
  import opened Errno
  import opened KernelLib

  /** The fields of struct pci_dev that the listing prints; `driver` is the name of the bound
      driver (pci_dev_driver), None for a device without one. */
  datatype PciDev = PciDev(busNumber: u8, devfn: u8, vendor: u16, device: u16, driver: Option<string>)

  /** PCI_SLOT: the device number in bits 3..7 of devfn. */
  function Slot(devfn: u8): (s: nat)
    ensures s < 32
  {
    (devfn / 8) % 32
  }

  /** PCI_FUNC: the function number in bits 0..2 of devfn. */
  function Func(devfn: u8): (f: nat)
    ensures f < 8
  {
    devfn % 8
  }

  /** devfn is exactly its slot and function: nothing is lost by printing the two apart. */
  lemma SlotFuncSplit(devfn: u8)
    ensures Slot(devfn) * 8 + Func(devfn) == devfn
  {
  }

  /** pci_get_device(PCI_ANY_ID, PCI_ANY_ID, from): the device after `from`, or the first one
      when `from` is NULL; NULL past the last. */
  function Successor(from: Option<nat>, count: nat): (next: Option<nat>)
    ensures next.Some? ==> next.value < count
    ensures next.Some? <==> (if from.None? then 0 else from.value + 1) < count
  {
    var n := if from.None? then 0 else from.value + 1;
    if n < count then Some(n) else None
  }

  /** Reference counts after taking a reference on the device, if any. */
  function Taken(refs: seq<int>, dev: Option<nat>): (r: seq<int>)
    requires dev.Some? ==> dev.value < |refs|
    ensures |r| == |refs|
    ensures forall k :: 0 <= k < |refs| ==> r[k] == refs[k] + (if dev == Some(k) then 1 else 0)
  {
    if dev.Some? then refs[dev.value := refs[dev.value] + 1] else refs
  }

  /** Reference counts after dropping a reference on the device, if any. */
  function Dropped(refs: seq<int>, dev: Option<nat>): (r: seq<int>)
    requires dev.Some? ==> dev.value < |refs|
    ensures |r| == |refs|
    ensures forall k :: 0 <= k < |refs| ==> r[k] == refs[k] - (if dev == Some(k) then 1 else 0)
  {
    if dev.Some? then refs[dev.value := refs[dev.value] - 1] else refs
  }

  /** Dropping the reference just taken restores every count. */
  lemma DroppedTaken(refs: seq<int>, dev: Option<nat>)
    requires dev.Some? ==> dev.value < |refs|
    ensures Dropped(Taken(refs, dev), dev) == refs
  {
  }

  /** The PCI devices and their reference counts. */
  class PciBus {
    const devices: seq<PciDev>
    var refs: seq<int>

    ghost predicate Valid()
      reads this
    {
      |refs| == |devices|
    }

    constructor (devices: seq<PciDev>, refs: seq<int>)
      requires |refs| == |devices|
      ensures Valid() && this.devices == devices && this.refs == refs
    {
      this.devices := devices;
      this.refs := refs;
    }

    /** pci_get_device(PCI_ANY_ID, PCI_ANY_ID, from): drops the reference on `from`, returns
        its successor with a reference taken. */
    method GetDevice(from: Option<nat>) returns (next: Option<nat>)
      requires Valid() && (from.Some? ==> from.value < |devices|)
      modifies this
      ensures Valid() && next == Successor(from, |devices|)
      ensures refs == Taken(Dropped(old(refs), from), next)
    {
      refs := Dropped(refs, from);
      next := Successor(from, |devices|);
      refs := Taken(refs, next);
    }

    /** pci_dev_put. */
    method DevPut(dev: nat)
      requires Valid() && dev < |devices|
      modifies this
      ensures Valid() && refs == Dropped(old(refs), Some(dev))
    {
      refs := refs[dev := refs[dev] - 1];
    }
  }

  // ---------------------------------------------------------------- records

  /** "%02X:%02X.%X %04X:%04X [%s]\n": bus, slot, function, vendor and device in upper-case
      hex at fixed widths, then the driver name (empty without a driver). */
  function Record(dev: PciDev): (s: string)
    ensures |s| == 21 + |DriverName(dev)|
  {
    Header(dev) + DriverName(dev) + "]\n"
  }

  function DriverName(dev: PciDev): string
  {
    if dev.driver.Some? then dev.driver.value else ""
  }

  /** The fixed-width part of a record, up to and including " [". */
  function Header(dev: PciDev): (s: string)
    ensures |s| == 19
  {
    Field(dev.busNumber, 16, 2) + ":" + Field(Slot(dev.devfn), 16, 2) + "." + Field(Func(dev.devfn), 16, 1)
      + " " + Field(dev.vendor, 16, 4) + ":" + Field(dev.device, 16, 4) + " ["
  }

  /** Where each field of a record sits and that its hex digits read back as the field: bus
      at 0..2, slot at 3..5, function at 6, vendor at 8..12, device at 13..17, the driver name
      between " [" and "]\n". */
  lemma {:induction false} RecordFields(dev: PciDev)
    ensures var s, h := Record(dev), Header(dev);
      && s[..19] == h
      && h[2] == ':' && h[5] == '.' && h[7] == ' ' && h[12] == ':' && h[17..] == " ["
      && AllDigits(h[0..2], 16) && ValueOf(h[0..2], 16) == dev.busNumber
      && AllDigits(h[3..5], 16) && ValueOf(h[3..5], 16) == Slot(dev.devfn)
      && AllDigits(h[6..7], 16) && ValueOf(h[6..7], 16) == Func(dev.devfn)
      && AllDigits(h[8..12], 16) && ValueOf(h[8..12], 16) == dev.vendor
      && AllDigits(h[13..17], 16) && ValueOf(h[13..17], 16) == dev.device
      && s[19..19 + |DriverName(dev)|] == DriverName(dev)
      && s[19 + |DriverName(dev)|..] == "]\n"
  {
    assert FitsIn(dev.busNumber, 16, 2) && FitsIn(Slot(dev.devfn), 16, 2) && FitsIn(Func(dev.devfn), 16, 1);
    assert FitsIn(dev.vendor, 16, 4) && FitsIn(dev.device, 16, 4);
    var b, sl, f := Field(dev.busNumber, 16, 2), Field(Slot(dev.devfn), 16, 2), Field(Func(dev.devfn), 16, 1);
    var v, d := Field(dev.vendor, 16, 4), Field(dev.device, 16, 4);
    FieldValue(dev.busNumber, 16, 2);
    FieldValue(Slot(dev.devfn), 16, 2);
    FieldValue(Func(dev.devfn), 16, 1);
    FieldValue(dev.vendor, 16, 4);
    FieldValue(dev.device, 16, 4);
    var h := Header(dev);
    HeaderLayout(h, b, sl, f, v, d);
    var s := Record(dev);
    assert s == h + DriverName(dev) + "]\n";
  }

  /** Where the pieces of a header sit, whatever their digits. */
  lemma HeaderLayout(h: string, b: string, sl: string, f: string, v: string, d: string)
    requires |b| == 2 && |sl| == 2 && |f| == 1 && |v| == 4 && |d| == 4
    requires h == b + ":" + sl + "." + f + " " + v + ":" + d + " ["
    ensures h[0..2] == b && h[3..5] == sl && h[6..7] == f && h[8..12] == v && h[13..17] == d
    ensures h[2] == ':' && h[5] == '.' && h[7] == ' ' && h[12] == ':' && h[17..] == " ["
  {
  }

  /** The record of each device, in list order. */
  function Records(devs: seq<PciDev>): (rs: seq<string>)
    ensures |rs| == |devs|
    ensures forall k :: 0 <= k < |devs| ==> rs[k] == Record(devs[k])
  {
    seq(|devs|, k requires 0 <= k < |devs| => Record(devs[k]))
  }

  /** The listing of some devices: their records in order. */
  function Listing(devs: seq<PciDev>): (s: string)
    ensures s == [] <==> devs == []
  {
    Flatten(Records(devs))
  }

  lemma {:induction false} ListingAppend(devs: seq<PciDev>, dev: PciDev)
    ensures Listing(devs + [dev]) == Listing(devs) + Record(dev)
  {
    assert Records(devs + [dev]) == Records(devs) + [Record(dev)];
    FlattenAppend(Records(devs), Record(dev));
  }

  /** Extending a window of the list by the device after it appends that device's record. */
  lemma ListingStep(devs: seq<PciDev>, pos: nat, end: nat)
    requires pos <= end < |devs|
    ensures Listing(devs[pos..end + 1]) == Listing(devs[pos..end]) + Record(devs[end])
  {
    assert devs[pos..end + 1] == devs[pos..end] + [devs[end]];
    ListingAppend(devs[pos..end], devs[end]);
  }

  // ---------------------------------------------------------------- iterator callbacks

  /**
   * seq_start: walks the list with pci_get_device from NULL, counting *position down, and
   * stops at the device the count reaches 0 on. A position within the list yields that
   * device, holding one reference; any other position (negative ones included: the count
   * never reaches 0) walks off the end, dropping every reference it took, and yields NULL.
   */
  method SeqStart(bus: PciBus, pos: int) returns (iter: Option<nat>)
    requires bus.Valid()
    modifies bus
    ensures bus.Valid()
    ensures iter == if 0 <= pos < |bus.devices| then Some(pos) else None
    ensures bus.refs == Taken(old(bus.refs), iter)
  {
    var index := pos;
    iter := None;
    ghost var visited: nat := 0;
    while true
      invariant bus.Valid() && visited <= |bus.devices|
      invariant iter == if visited == 0 then None else Some(visited - 1)
      invariant index == pos - visited
      invariant pos >= 0 ==> visited <= pos
      invariant bus.refs == Taken(old(bus.refs), iter)
      decreases |bus.devices| - visited
    {
      DroppedTaken(old(bus.refs), iter);
      iter := bus.GetDevice(iter);
      if iter.None? {
        break;
      }
      if index == 0 {
        break;
      }
      index := index - 1;
      visited := visited + 1;
    }
  }

  /** seq_next: advances *position and moves the iterator (and its reference) to the next
      device, NULL past the last. */
  method SeqNext(bus: PciBus, iter: Option<nat>, pos: int) returns (next: Option<nat>, newPos: int)
    requires bus.Valid() && (iter.Some? ==> iter.value < |bus.devices|)
    modifies bus
    ensures bus.Valid()
    ensures newPos == pos + 1 && next == Successor(iter, |bus.devices|)
    ensures bus.refs == Taken(Dropped(old(bus.refs), iter), next)
  {
    newPos := pos + 1;
    next := bus.GetDevice(iter);
  }

  /** seq_stop: drops the reference of a walk that did not reach the end. */
  method SeqStop(bus: PciBus, iter: Option<nat>)
    requires bus.Valid() && (iter.Some? ==> iter.value < |bus.devices|)
    modifies bus
    ensures bus.Valid() && bus.refs == Dropped(old(bus.refs), iter)
  {
    if iter.Some? {
      bus.DevPut(iter.value);
    }
  }

  /** seq_show: the device's record (seq_file calls show only with a device). */
  method SeqShow(bus: PciBus, iter: Option<nat>) returns (r: int, out: string)
    requires iter.Some? && iter.value < |bus.devices|
    ensures r == 0 && out == Record(bus.devices[iter.value])
  {
    out := Record(bus.devices[iter.value]);
    r := 0;
  }

  /** The show/next loop of a read round, from a device the walk holds: shows while `budget`
      records fit or the list lasts, and ends holding the device it stopped on, if any. */
  method ShowRecords(bus: PciBus, pos: nat, budget: nat) returns (out: string, newPos: nat, iter: Option<nat>)
    requires bus.Valid() && pos < |bus.devices|
    modifies bus
    ensures bus.Valid()
    ensures newPos == Min(pos + budget, |bus.devices|)
    ensures out == Listing(bus.devices[pos..newPos])
    ensures iter == if newPos < |bus.devices| then Some(newPos) else None
    ensures bus.refs == Taken(Dropped(old(bus.refs), Some(pos)), iter)
  {
    ghost var base := Dropped(bus.refs, Some(pos));
    out, newPos, iter := [], pos, Some(pos);
    var k := 0;
    while iter.Some? && k < budget
      invariant bus.Valid() && 0 <= k <= budget && newPos == pos + k <= |bus.devices|
      invariant iter == if newPos < |bus.devices| then Some(newPos) else None
      invariant out == Listing(bus.devices[pos..newPos])
      invariant bus.refs == Taken(base, iter)
      decreases budget - k
    {
      out, iter, newPos := ShowNext(bus, pos, newPos, out, base);
      k := k + 1;
    }
  }

  /** One show/next step of the loop: the record of the device held is appended, and the walk
      moves on to the next device. */
  method ShowNext(bus: PciBus, pos: nat, at: nat, before: string, ghost base: seq<int>)
    returns (out: string, iter: Option<nat>, newPos: nat)
    requires bus.Valid() && pos <= at < |bus.devices|
    requires |base| == |bus.devices| && bus.refs == Taken(base, Some(at))
    requires before == Listing(bus.devices[pos..at])
    modifies bus
    ensures bus.Valid() && newPos == at + 1
    ensures out == Listing(bus.devices[pos..newPos])
    ensures iter == if newPos < |bus.devices| then Some(newPos) else None
    ensures bus.refs == Taken(base, iter)
  {
    var r, record := SeqShow(bus, Some(at));
    ListingStep(bus.devices, pos, at);
    out := before + record;
    DroppedTaken(base, Some(at));
    iter, newPos := SeqNext(bus, Some(at), at);
  }

  /**
   * One read round as seq_read drives it: start at pos, show and next while `budget` records
   * fit, stop. It lists the devices pos.. in order, and every reference it takes is dropped
   * again, on every path: the counts end as they began.
   */
  method ReadRound(bus: PciBus, pos: int, budget: nat) returns (out: string, newPos: int)
    requires bus.Valid()
    modifies bus
    ensures bus.Valid() && bus.refs == old(bus.refs)
    ensures 0 <= pos < |bus.devices| ==>
      newPos == Min(pos + budget, |bus.devices|) && out == Listing(bus.devices[pos..newPos])
    ensures !(0 <= pos < |bus.devices|) ==> out == [] && newPos == pos
  {
    var iter := SeqStart(bus, pos);
    out, newPos := [], pos;
    if iter.Some? {
      DroppedTaken(old(bus.refs), iter);
      out, newPos, iter := ShowRecords(bus, pos, budget);
    }
    DroppedTaken(old(bus.refs), iter);
    SeqStop(bus, iter);
  }

  /** cat of the file with room for every record: the whole list, in order, references balanced. */
  method ReadAll(bus: PciBus) returns (out: string)
    requires bus.Valid()
    modifies bus
    ensures bus.Valid() && bus.refs == old(bus.refs)
    ensures out == Listing(bus.devices)
  {
    if |bus.devices| == 0 {
      out := [];
      assert Listing(bus.devices) == Flatten([]);
      return;
    }
    var newPos;
    out, newPos := ReadRound(bus, 0, |bus.devices|);
    assert bus.devices[0..|bus.devices|] == bus.devices;
  }
}
