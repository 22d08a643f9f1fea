/**
 * /proc/procfs-seqfile: 256 byte-sized slots, listed through the seq_file iterator (start,
 * show, next, stop) as one "%03u\n" record per slot, and overwritten in bulk by a write that
 * splits its input on ' ', ',' and '\n'. The slots and their mutex live in a context attached
 * to the proc entry (pde_data); the iterator keeps the context in seq->private.
 */
module ProcfsSeqfile {
  import opened Errno
  import opened KernelLib

  const DataSize: nat := 256

  /** The slot values procfs_seqfile_init stores: slot i holds i. */
  function InitialSlots(): (s: seq<u8>)
    ensures |s| == DataSize && forall i :: 0 <= i < DataSize ==> s[i] == i
  {
    seq(DataSize, i requires 0 <= i < DataSize => i)
  }

  /** struct procfs_seqfile_data: the slots and their mutex. */
  class SeqfileData {
    const buffer: array<u8>
    /** Times the mutex was locked minus times it was unlocked: 1 while held, 0 when free; a
        negative count means it was unlocked while free. */
    ghost var lockCount: int

    ghost predicate Valid()
      reads this
    {
      buffer.Length == DataSize
    }

    /** procfs_seqfile_init: kzalloc, then the fill loop that stores i in slot i. */
    constructor ()
      ensures Valid() && fresh(buffer) && lockCount == 0
      ensures buffer[..] == InitialSlots()
    {
      var slots := new u8[DataSize](_ => 0);
      for i := 0 to DataSize
        invariant forall j :: 0 <= j < i ==> slots[j] == j
      {
        slots[i] := i;
      }
      buffer := slots;
      lockCount := 0;
    }
  }

  /** The part of struct seq_file the callbacks use. */
  class SeqFile {
    var private: SeqfileData?

    /** seq_open leaves seq->private NULL. */
    constructor ()
      ensures private == null
    {
      private := null;
    }
  }

  // ---------------------------------------------------------------- records

  /** "%03u\n" of a slot value: its three decimal digits (zero-padded), then a newline. */
  function Record(v: u8): (s: string)
    ensures |s| == 4 && s[3] == '\n'
  {
    Field(v, 10, 3) + "\n"
  }

  /** A record's three characters are decimal digits whose value is the slot value. */
  lemma RecordValue(v: u8)
    ensures AllDigits(Record(v)[..3], 10) && ValueOf(Record(v)[..3], 10) == v
  {
    assert FitsIn(v, 10, 3);
    FieldValue(v, 10, 3);
    assert Record(v)[..3] == Field(v, 10, 3);
  }

  /** Each string is one 4-byte record. */
  ghost predicate FourByte(rs: seq<string>)
  {
    forall k :: 0 <= k < |rs| ==> |rs[k]| == 4
  }

  lemma {:induction false} FlattenLength(rs: seq<string>)
    requires FourByte(rs)
    ensures |Flatten(rs)| == 4 * |rs|
  {
    if rs != [] {
      FlattenLength(rs[1..]);
    }
  }

  lemma {:induction false} FlattenAt(rs: seq<string>, i: nat)
    requires FourByte(rs) && i < |rs|
    ensures |Flatten(rs)| == 4 * |rs|
    ensures Flatten(rs)[4 * i..4 * i + 4] == rs[i]
  {
    FlattenLength(rs);
    if i > 0 {
      FlattenAt(rs[1..], i - 1);
      var tail := Flatten(rs[1..]);
      assert Flatten(rs) == rs[0] + tail;
      assert Flatten(rs)[4 * i..4 * i + 4] == tail[4 * (i - 1)..4 * (i - 1) + 4];
    }
  }

  /** The record of each slot, in slot order. */
  function Records(slots: seq<u8>): (rs: seq<string>)
    ensures |rs| == |slots| && FourByte(rs)
    ensures forall k :: 0 <= k < |slots| ==> rs[k] == Record(slots[k])
  {
    seq(|slots|, k requires 0 <= k < |slots| => Record(slots[k]))
  }

  /** The text of a listing of the given slots: their records, 4 bytes each. */
  function Listing(slots: seq<u8>): (s: string)
    ensures |s| == 4 * |slots|
  {
    FlattenLength(Records(slots));
    Flatten(Records(slots))
  }

  lemma ListingAppend(slots: seq<u8>, v: u8)
    ensures Listing(slots + [v]) == Listing(slots) + Record(v)
  {
    assert Records(slots + [v]) == Records(slots) + [Record(v)];
    FlattenAppend(Records(slots), Record(v));
  }

  /** Record i starts at byte 4i of the listing (which dd bs=4 skip=i relies on). */
  lemma ListingRecordAt(slots: seq<u8>, i: nat)
    requires i < |slots|
    ensures Listing(slots)[4 * i..4 * i + 4] == Record(slots[i])
  {
    FlattenAt(Records(slots), i);
  }

  // ---------------------------------------------------------------- iterator callbacks

  /**
   * seq_start, as written: a negative position or one at or past 256 returns NULL without
   * taking the mutex and without touching seq->private, as does a missing entry context;
   * otherwise it locks the mutex, records the context in seq->private and returns the
   * position (here: true).
   */
  method SeqStart(m: SeqFile, entryData: SeqfileData?, pos: int) returns (iter: bool)
    modifies m, entryData
    ensures iter <==> 0 <= pos < DataSize && entryData != null
    ensures iter ==> m.private == entryData && entryData.lockCount == old(entryData.lockCount) + 1
    ensures !iter ==> m.private == old(m.private) && (entryData != null ==> entryData.lockCount == old(entryData.lockCount))
  {
    if pos < 0 {
      return false;
    }
    if pos >= DataSize {
      return false;
    }
    if entryData == null {
      return false;
    }
    entryData.lockCount := entryData.lockCount + 1;
    m.private := entryData;
    iter := true;
  }

  /** seq_start as evidently intended: identical, except that every NULL return also clears
      seq->private, so that stop unlocks exactly when this start locked. */
  method SeqStartFixed(m: SeqFile, entryData: SeqfileData?, pos: int) returns (iter: bool)
    modifies m, entryData
    ensures iter <==> 0 <= pos < DataSize && entryData != null
    ensures iter ==> m.private == entryData && entryData.lockCount == old(entryData.lockCount) + 1
    ensures !iter ==> m.private == null && (entryData != null ==> entryData.lockCount == old(entryData.lockCount))
  {
    if pos < 0 || pos >= DataSize || entryData == null {
      m.private := null;
      return false;
    }
    entryData.lockCount := entryData.lockCount + 1;
    m.private := entryData;
    iter := true;
  }

  /** seq_next: an out-of-range position, or no context in seq->private, returns NULL and leaves
      the position alone; otherwise the position goes up by one and NULL is returned exactly
      when it reaches 256. */
  method SeqNext(m: SeqFile, pos: int) returns (iter: bool, newPos: int)
    ensures pos < 0 || pos >= DataSize || m.private == null ==> !iter && newPos == pos
    ensures 0 <= pos < DataSize && m.private != null ==> newPos == pos + 1 && (iter <==> newPos < DataSize)
  {
    if pos < 0 || pos >= DataSize {
      return false, pos;
    }
    if m.private == null {
      return false, pos;
    }
    newPos := pos + 1;
    iter := newPos < DataSize;
  }

  /** seq_stop: unlocks the mutex whenever seq->private is set, whether or not this round's
      start took it. */
  method SeqStop(m: SeqFile)
    modifies m.private
    ensures m.private == old(m.private)
    ensures m.private != null ==> m.private.lockCount == old(m.private.lockCount) - 1
  {
    var context := m.private;
    if context == null {
      return;
    }
    context.lockCount := context.lockCount - 1;
  }

  /** seq_show: -EINVAL and no output for an out-of-range position or a missing context;
      otherwise the slot's 4-byte record. */
  method SeqShow(m: SeqFile, pos: int) returns (r: int, out: string)
    requires m.private != null ==> m.private.Valid()
    ensures pos < 0 || pos >= DataSize || m.private == null ==> r == -EINVAL && out == []
    ensures 0 <= pos < DataSize && m.private != null ==> r == 0 && out == Record(m.private.buffer[pos])
  {
    if pos < 0 || pos >= DataSize {
      return -EINVAL, [];
    }
    var context := m.private;
    if context == null {
      return -EINVAL, [];
    }
    out := Record(context.buffer[pos]);
    r := 0;
  }

  // ---------------------------------------------------------------- one read round

  /** The records of one read round after its start: show then next, for at most `budget`
      records (the room left in the reader's buffer), while the iterator is non-NULL. */
  method ShowRecords(m: SeqFile, entryData: SeqfileData, pos: int, budget: nat) returns (out: string, newPos: int, iter: bool)
    requires entryData.Valid() && m.private == entryData && 0 <= pos < DataSize
    ensures m.private == entryData
    ensures newPos == Min(pos + budget, DataSize)
    ensures out == Listing(entryData.buffer[pos..newPos])
    ensures iter <==> newPos < DataSize
  {
    out, newPos, iter := [], pos, true;
    var k := 0;
    while iter && k < budget
      invariant 0 <= k <= budget && newPos == pos + k <= DataSize
      invariant iter <==> newPos < DataSize
      invariant out == Listing(entryData.buffer[pos..newPos])
      decreases budget - k
    {
      var r, record := SeqShow(m, newPos);
      ListingAppend(entryData.buffer[pos..newPos], entryData.buffer[newPos]);
      assert entryData.buffer[pos..newPos + 1] == entryData.buffer[pos..newPos] + [entryData.buffer[newPos]];
      out := out + record;
      iter, newPos := SeqNext(m, newPos);
      k := k + 1;
    }
  }

  /**
   * One read round as seq_read drives it, with the as-written start: start at pos, show and
   * next while records fit, stop. From a valid position it lists the slots pos.. in order and
   * leaves the mutex as it found it; from a position past the end (the round after a full
   * listing is read) it lists nothing, and stop still unlocks if an earlier round set
   * seq->private: the mutex is released once more than it was taken.
   */
  method ReadRound(m: SeqFile, entryData: SeqfileData, pos: int, budget: nat) returns (out: string, newPos: int)
    requires entryData.Valid() && (m.private == null || m.private == entryData)
    modifies m, entryData
    ensures m.private == null || m.private == entryData
    ensures 0 <= pos < DataSize ==>
      && newPos == Min(pos + budget, DataSize)
      && out == Listing(entryData.buffer[pos..newPos])
      && entryData.lockCount == old(entryData.lockCount)
      && m.private == entryData
    ensures !(0 <= pos < DataSize) ==>
      && out == [] && newPos == pos && m.private == old(m.private)
      && entryData.lockCount == old(entryData.lockCount) - (if old(m.private) != null then 1 else 0)
  {
    var iter := SeqStart(m, entryData, pos);
    out, newPos := [], pos;
    if iter {
      out, newPos, iter := ShowRecords(m, entryData, pos, budget);
    }
    SeqStop(m);
  }

  /** The same round with the corrected start: in every case the mutex is left as it was found. */
  method ReadRoundFixed(m: SeqFile, entryData: SeqfileData, pos: int, budget: nat) returns (out: string, newPos: int)
    requires entryData.Valid() && (m.private == null || m.private == entryData)
    modifies m, entryData
    ensures m.private == null || m.private == entryData
    ensures entryData.lockCount == old(entryData.lockCount)
    ensures 0 <= pos < DataSize ==>
      newPos == Min(pos + budget, DataSize) && out == Listing(entryData.buffer[pos..newPos])
    ensures !(0 <= pos < DataSize) ==> out == [] && newPos == pos
  {
    var iter := SeqStartFixed(m, entryData, pos);
    out, newPos := [], pos;
    if iter {
      out, newPos, iter := ShowRecords(m, entryData, pos, budget);
    }
    SeqStop(m);
  }

  /** cat of the file: a first round from 0 with room for every record lists all 256 slots in
      order (1024 bytes); the second round, at 256, finds nothing, and with the as-written start
      it unlocks the free mutex (the count drops to -1). */
  method CatTwice(entryData: SeqfileData) returns (first: string, second: string)
    requires entryData.Valid() && entryData.lockCount == 0
    modifies entryData
    ensures first == Listing(entryData.buffer[..]) && |first| == 4 * DataSize
    ensures second == []
    ensures entryData.lockCount == -1
  {
    var m := new SeqFile();
    var pos;
    first, pos := ReadRound(m, entryData, 0, DataSize);
    assert entryData.buffer[0..DataSize] == entryData.buffer[..];
    second, pos := ReadRound(m, entryData, pos, DataSize);
  }

  /** With the corrected start the same two rounds leave the mutex free. */
  method CatTwiceFixed(entryData: SeqfileData) returns (first: string, second: string)
    requires entryData.Valid() && entryData.lockCount == 0
    modifies entryData
    ensures first == Listing(entryData.buffer[..]) && second == []
    ensures entryData.lockCount == 0
  {
    var m := new SeqFile();
    var pos;
    first, pos := ReadRoundFixed(m, entryData, 0, DataSize);
    assert entryData.buffer[0..DataSize] == entryData.buffer[..];
    second, pos := ReadRoundFixed(m, entryData, pos, DataSize);
  }

  // ---------------------------------------------------------------- bulk write

  /** What one round of the write loop does with its token: skip an empty token (its slot is
      untouched, its index spent), reject an unparsable one with kstrtoint's error, or store the
      value clamped to 0..255. */
  datatype Step = Skip | Reject(code: int) | Store(value: u8)

  function StepOf(token: string): (st: Step)
    ensures st.Skip? <==> token == []
    ensures st.Reject? <==> token != [] && KstrToInt(token).Err?
    ensures st.Reject? ==> st.code == KstrToInt(token).code && st.code in {-EINVAL, -ERANGE}
    ensures st.Store? ==> KstrToInt(token).Ok? && st.value == ClampU8(KstrToInt(token).value)
  {
    if token == [] then Skip
    else match KstrToInt(token)
      case Err(e) => Reject(e)
      case Ok(v) => Store(ClampU8(v))
  }

  function StepsOf(tokens: seq<string>): (steps: seq<Step>)
    ensures |steps| == |tokens|
    ensures forall j :: 0 <= j < |tokens| ==> steps[j] == StepOf(tokens[j])
  {
    seq(|tokens|, j requires 0 <= j < |tokens| => StepOf(tokens[j]))
  }

  /** The number of strsep rounds the write runs at most. */
  function Rounds(steps: seq<Step>): nat
  {
    Min(DataSize, |steps|)
  }

  /**
   * The write loop from round i on: stop after 256 rounds or when strsep returns NULL, with
   * `length` as the result, or at the first rejected token with its error; store every value
   * in the slot numbered by its round.
   */
  function BulkStore(slots: seq<u8>, steps: seq<Step>, i: nat, length: int): (r: (int, seq<u8>))
    requires |slots| == DataSize && i <= DataSize
    ensures |r.1| == DataSize
    ensures forall k :: 0 <= k < i ==> r.1[k] == slots[k]
    ensures r.0 == length || exists j :: i <= j < |steps| && steps[j] == Reject(r.0)
    decreases DataSize - i
  {
    if i == DataSize || i >= |steps| then (length, slots)
    else match steps[i]
      case Skip => BulkStore(slots, steps, i + 1, length)
      case Reject(e) => (e, slots)
      case Store(v) => BulkStore(slots[i := v], steps, i + 1, length)
  }

  /** The round at which the write stops, from round i on: the first rejected one, or Rounds. */
  function StopRound(steps: seq<Step>, i: nat): (s: nat)
    requires i <= Rounds(steps)
    ensures i <= s <= Rounds(steps)
    ensures forall j :: i <= j < s ==> !steps[j].Reject?
    ensures s < Rounds(steps) ==> steps[s].Reject?
    decreases Rounds(steps) - i
  {
    if i == Rounds(steps) then i
    else if steps[i].Reject? then i
    else StopRound(steps, i + 1)
  }

  /** The result of the write loop from round i: the error of the token at the stop round if
      there is one, else `length`. */
  lemma {:induction false} BulkStoreResult(slots: seq<u8>, steps: seq<Step>, i: nat, length: int)
    requires |slots| == DataSize && i <= Rounds(steps)
    ensures StopRound(steps, i) < Rounds(steps) ==> BulkStore(slots, steps, i, length).0 == steps[StopRound(steps, i)].code
    ensures StopRound(steps, i) == Rounds(steps) ==> BulkStore(slots, steps, i, length).0 == length
    decreases DataSize - i
  {
    if i < Rounds(steps) && !steps[i].Reject? {
      var next := if steps[i].Store? then slots[i := steps[i].value] else slots;
      BulkStoreResult(next, steps, i + 1, length);
    }
  }

  /** The slots after the write loop from round i: every slot whose round comes before the stop
      round and stored a value holds that value; every other slot keeps its value. */
  lemma {:induction false} BulkStoreSlots(slots: seq<u8>, steps: seq<Step>, i: nat, length: int, k: nat)
    requires |slots| == DataSize && i <= Rounds(steps) && k < DataSize
    ensures BulkStore(slots, steps, i, length).1[k] ==
      if i <= k < StopRound(steps, i) && steps[k].Store? then steps[k].value else slots[k]
    decreases DataSize - i
  {
    if i < Rounds(steps) && !steps[i].Reject? {
      var next := if steps[i].Store? then slots[i := steps[i].value] else slots;
      BulkStoreSlots(next, steps, i + 1, length, k);
    }
  }

  lemma BulkStoreSkip(slots: seq<u8>, steps: seq<Step>, i: nat, length: int)
    requires |slots| == DataSize && i < DataSize && i < |steps| && steps[i].Skip?
    ensures BulkStore(slots, steps, i, length) == BulkStore(slots, steps, i + 1, length)
  {
  }

  lemma BulkStoreReject(slots: seq<u8>, steps: seq<Step>, i: nat, length: int)
    requires |slots| == DataSize && i < DataSize && i < |steps| && steps[i].Reject?
    ensures BulkStore(slots, steps, i, length) == (steps[i].code, slots)
  {
  }

  lemma BulkStoreStore(slots: seq<u8>, steps: seq<Step>, i: nat, length: int)
    requires |slots| == DataSize && i < DataSize && i < |steps| && steps[i].Store?
    ensures BulkStore(slots, steps, i, length) == BulkStore(slots[i := steps[i].value], steps, i + 1, length)
  {
  }

  lemma {:induction false} StopRoundWithoutReject(steps: seq<Step>, i: nat)
    requires i <= Rounds(steps)
    requires forall j :: i <= j < Rounds(steps) ==> !steps[j].Reject?
    ensures StopRound(steps, i) == Rounds(steps)
    decreases Rounds(steps) - i
  {
    if i < Rounds(steps) {
      StopRoundWithoutReject(steps, i + 1);
    }
  }

  /**
   * proc_write: -EINVAL without an entry context; -ENOMEM if the kernel copy cannot be
   * allocated; -EFAULT if the user data cannot all be copied (no slot changes in these cases).
   * Otherwise, under the mutex, the loop of BulkStore over the strsep tokens of the copied text
   * (up to its first NUL), always starting at slot 0 and ignoring *offset.
   */
  method ProcWrite(entryData: SeqfileData?, data: seq<char>, allocFails: bool, fault: nat) returns (r: int)
    requires entryData != null ==> entryData.Valid()
    modifies entryData, if entryData != null then {entryData.buffer} else {}
    ensures entryData == null ==> r == -EINVAL
    ensures entryData != null ==> entryData.lockCount == old(entryData.lockCount)
    ensures entryData != null && allocFails ==> r == -ENOMEM && unchanged(entryData.buffer)
    ensures entryData != null && !allocFails && Min(fault, |data|) > 0 ==> r == -EFAULT && unchanged(entryData.buffer)
    ensures entryData != null && !allocFails && Min(fault, |data|) == 0 ==>
      (r, entryData.buffer[..]) == BulkStore(old(entryData.buffer[..]), StepsOf(Tokens(CString(data))), 0, |data|)
  {
    if entryData == null {
      return -EINVAL;
    }
    if allocFails {
      return -ENOMEM;
    }
    if Min(fault, |data|) > 0 {
      return -EFAULT;
    }
    // kbuffer holds the data and a NUL; strsep sees the text up to the first NUL
    var text := CString(data);
    entryData.lockCount := entryData.lockCount + 1;
    ghost var tokens := Tokens(text);
    ghost var steps := StepsOf(tokens);
    var cursor: Option<string> := Some(text);
    var i := 0;
    while i < DataSize
      invariant 0 <= i <= DataSize && i <= |tokens|
      invariant Pending(cursor) == tokens[i..]
      invariant entryData.lockCount == old(entryData.lockCount) + 1
      invariant BulkStore(entryData.buffer[..], steps, i, |data|) == BulkStore(old(entryData.buffer[..]), steps, 0, |data|)
    {
      StrsepStep(cursor);
      var next := Strsep(cursor);
      var token := next.0;
      cursor := next.1;
      if token.None? {
        break;
      }
      assert steps[i] == StepOf(token.value);
      var rejected, code := StoreToken(entryData, token.value, steps, i, |data|);
      if rejected {
        r := code;
        entryData.lockCount := entryData.lockCount - 1;
        return;
      }
      i := i + 1;
    }
    r := |data|;
    entryData.lockCount := entryData.lockCount - 1;
  }

  /** One round of the write loop on a token strsep returned: an empty token is skipped, one
      kstrtoint rejects stops the write with its error, any other is clamped into slot i. */
  method StoreToken(entryData: SeqfileData, token: string, ghost steps: seq<Step>, i: nat, ghost length: int)
    returns (rejected: bool, code: int)
    requires entryData.Valid() && i < DataSize && i < |steps| && steps[i] == StepOf(token)
    modifies entryData.buffer
    ensures rejected ==> (code, entryData.buffer[..]) == BulkStore(old(entryData.buffer[..]), steps, i, length)
    ensures !rejected ==>
      BulkStore(entryData.buffer[..], steps, i + 1, length) == BulkStore(old(entryData.buffer[..]), steps, i, length)
  {
    ghost var before := entryData.buffer[..];
    rejected, code := false, 0;
    if token == [] {
      BulkStoreSkip(before, steps, i, length);
      return;
    }
    var parsed := KstrToInt(token);
    if parsed.Err? {
      BulkStoreReject(before, steps, i, length);
      return true, parsed.code;
    }
    BulkStoreStore(before, steps, i, length);
    entryData.buffer[i] := ClampU8(parsed.value);
    assert entryData.buffer[..] == before[i := ClampU8(parsed.value)];
  }

  /** Values written one per line, each followed by a newline (what seq prints). */
  function Lines(vs: seq<i32>): string
  {
    if vs == [] then [] else FormatInt(vs[0]) + "\n" + Lines(vs[1..])
  }

  /** %d of each value. */
  function Formatted(vs: seq<i32>): (ts: seq<string>)
    ensures |ts| == |vs|
    ensures forall k :: 0 <= k < |vs| ==> ts[k] == FormatInt(vs[k])
  {
    seq(|vs|, k requires 0 <= k < |vs| => FormatInt(vs[k]))
  }

  lemma FormattedCons(vs: seq<i32>)
    requires vs != []
    ensures Formatted(vs) == [FormatInt(vs[0])] + Formatted(vs[1..])
  {
    var ts, rest := Formatted(vs), [FormatInt(vs[0])] + Formatted(vs[1..]);
    assert forall k :: 0 <= k < |ts| ==> ts[k] == rest[k];
  }

  function Newlines(n: nat): (ds: string)
    ensures |ds| == n && forall j :: 0 <= j < n ==> ds[j] == '\n'
  {
    seq(n, _ => '\n')
  }

  /** seq output is the formatted values and a final empty token, joined by newlines. */
  lemma {:induction false} LinesAsJoin(vs: seq<i32>)
    ensures Lines(vs) == Join(Formatted(vs) + [""], Newlines(|vs|))
  {
    if vs != [] {
      var ts, ds := Formatted(vs) + [""], Newlines(|vs|);
      LinesAsJoin(vs[1..]);
      FormattedCons(vs);
      assert ts[0] == FormatInt(vs[0]);
      assert ts[1..] == Formatted(vs[1..]) + [""];
      assert ds[1..] == Newlines(|vs| - 1);
    }
  }

  lemma TokensOfLines(vs: seq<i32>)
    ensures Tokens(Lines(vs)) == Formatted(vs) + [""]
  {
    var ts := Formatted(vs) + [""];
    forall j | 0 <= j < |ts|
      ensures NoDelimiter(ts[j])
    {
      if j < |vs| {
        FormatIntNoDelimiter(vs[j]);
      }
    }
    LinesAsJoin(vs);
    TokensOfJoin(ts, Newlines(|vs|));
  }

  /** Formatted values parse back: each one is a Store of the value, clamped. */
  lemma StepsOfFormatted(vs: seq<i32>, j: nat)
    requires j < |vs|
    ensures StepOf(FormatInt(vs[j])) == Store(ClampU8(vs[j]))
  {
    KstrToIntFormat(vs[j], []);
    assert FormatInt(vs[j]) + [] == FormatInt(vs[j]);
  }

  /** The write loop over formatted values (and at most one trailing empty token) stores them,
      clamped, in slots 0.. in order; every later slot is left alone and the result is `length`. */
  lemma StoreFormatted(slots: seq<u8>, vs: seq<i32>, tokens: seq<string>, length: int)
    requires |slots| == DataSize && |vs| <= DataSize
    requires tokens == Formatted(vs) || tokens == Formatted(vs) + [""]
    ensures BulkStore(slots, StepsOf(tokens), 0, length).0 == length
    ensures forall k :: 0 <= k < DataSize ==>
      BulkStore(slots, StepsOf(tokens), 0, length).1[k] == if k < |vs| then ClampU8(vs[k]) else slots[k]
  {
    var steps := StepsOf(tokens);
    forall j | 0 <= j < |vs|
      ensures steps[j] == Store(ClampU8(vs[j]))
    {
      StepsOfFormatted(vs, j);
    }
    StopRoundWithoutReject(steps, 0);
    BulkStoreResult(slots, steps, 0, length);
    forall k | 0 <= k < DataSize
      ensures BulkStore(slots, steps, 0, length).1[k] == if k < |vs| then ClampU8(vs[k]) else slots[k]
    {
      BulkStoreSlots(slots, steps, 0, length, k);
    }
  }

  lemma {:induction false} LinesHaveNoNul(vs: seq<i32>)
    ensures NUL !in Lines(vs)
  {
    if vs != [] {
      FormatIntNoNul(vs[0]);
      LinesHaveNoNul(vs[1..]);
    }
  }

  /** Writing at most 256 values one per line stores them, clamped, in slots 0.. in order, leaves
      every later slot alone and returns the full length. */
  lemma LinesWrite(slots: seq<u8>, vs: seq<i32>, length: int)
    requires |slots| == DataSize && |vs| <= DataSize
    ensures BulkStore(slots, StepsOf(Tokens(CString(Lines(vs)))), 0, length).0 == length
    ensures forall k :: 0 <= k < DataSize ==>
      BulkStore(slots, StepsOf(Tokens(CString(Lines(vs)))), 0, length).1[k] == if k < |vs| then ClampU8(vs[k]) else slots[k]
  {
    LinesHaveNoNul(vs);
    assert CString(Lines(vs)) == Lines(vs);
    TokensOfLines(vs);
    StoreFormatted(slots, vs, Tokens(Lines(vs)), length);
  }

  /** "seq 10 20 | dd of=/proc/procfs-seqfile" (33 bytes) overwrites the first eleven slots with
      10..20. */
  lemma SeqTenToTwenty(slots: seq<u8>)
    requires |slots| == DataSize
    ensures var vs: seq<i32> := seq(11, k requires 0 <= k < 11 => 10 + k);
      var r := BulkStore(slots, StepsOf(Tokens(CString(Lines(vs)))), 0, 33);
      r.0 == 33 && r.1 == seq(11, k requires 0 <= k < 11 => 10 + k) + slots[11..]
  {
    var vs: seq<i32> := seq(11, k requires 0 <= k < 11 => 10 + k);
    LinesWrite(slots, vs, 33);
    var after := BulkStore(slots, StepsOf(Tokens(CString(Lines(vs)))), 0, 33).1;
    var expected := seq(11, k requires 0 <= k < 11 => 10 + k) + slots[11..];
    forall k | 0 <= k < DataSize
      ensures after[k] == expected[k]
    {
      if k < 11 {
        assert vs[k] == 10 + k;
      }
    }
    assert after == expected;
  }

  lemma {:induction false} JoinHasNoNul(ts: seq<string>, ds: string)
    requires |ts| == |ds| + 1
    requires forall j :: 0 <= j < |ts| ==> NUL !in ts[j]
    requires forall j :: 0 <= j < |ds| ==> IsDelimiter(ds[j])
    ensures NUL !in Join(ts, ds)
  {
    if ds != [] {
      JoinHasNoNul(ts[1..], ds[1..]);
    }
  }

  /** Values separated by any mix of ' ', ',' and '\n' (at most 256 of them) are stored, clamped,
      in slots 0.. in order; every later slot is left alone and the full length is returned. */
  lemma JoinedWrite(slots: seq<u8>, vs: seq<i32>, ds: string, length: int)
    requires |slots| == DataSize && 1 <= |vs| <= DataSize && |ds| == |vs| - 1
    requires forall j :: 0 <= j < |ds| ==> IsDelimiter(ds[j])
    ensures BulkStore(slots, StepsOf(Tokens(CString(Join(Formatted(vs), ds)))), 0, length).0 == length
    ensures forall k :: 0 <= k < DataSize ==>
      BulkStore(slots, StepsOf(Tokens(CString(Join(Formatted(vs), ds)))), 0, length).1[k] == if k < |vs| then ClampU8(vs[k]) else slots[k]
  {
    var ts := Formatted(vs);
    forall j | 0 <= j < |ts|
      ensures NoDelimiter(ts[j]) && NUL !in ts[j]
    {
      FormatIntNoDelimiter(vs[j]);
      FormatIntNoNul(vs[j]);
    }
    JoinHasNoNul(ts, ds);
    assert CString(Join(ts, ds)) == Join(ts, ds);
    TokensOfJoin(ts, ds);
    StoreFormatted(slots, vs, ts, length);
  }
}
