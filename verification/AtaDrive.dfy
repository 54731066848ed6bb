/** The ATA PIO driver: a sector device presented as a byte-addressed file. */
module AtaDrive {
  import opened Wrappers
  import opened Bytes
  import opened AtaDevice
  import F = FlatFile

  // ----- sector arithmetic

  predicate SectorAligned(value: nat) {
    value % 512 == 0
  }

  /** The driver's count, computed in a byte. */
  function MinRequiredSectorCount(pos: nat, bytes: nat): Byte {
    var aligned := SectorAligned(bytes) && bytes != 0;
    var bleeds := if aligned then !SectorAligned(pos) else pos % 512 + bytes % 512 > 512;
    (bytes / 512 % 256 + (if bleeds then 1 else 0) + (if aligned then 0 else 1)) % 256
  }

  /** The number of sectors a transfer touches; an empty one still touches the sector of its position. */
  function Touched(pos: nat, bytes: nat): (n: nat)
    ensures n > 0
  {
    if bytes == 0 then 1 else (pos % 512 + bytes + 511) / 512
  }

  /** The driver's count is right exactly for transfers of at most 255 sectors. */
  lemma SectorCountExact(pos: nat, bytes: nat)
    ensures MinRequiredSectorCount(pos, bytes) == Touched(pos, bytes) <==> Touched(pos, bytes) <= 255
    ensures bytes > 0 ==> 512 * (Touched(pos, bytes) - 1) < pos % 512 + bytes <= 512 * Touched(pos, bytes)
  {
    if bytes > 0 {
      var q, r, off := bytes / 512, bytes % 512, pos % 512;
      var k := (off + r + 511) / 512;
      assert bytes == 512 * q + r;
      assert Touched(pos, bytes) == q + k;
      assert k == (if r == 0 then (if off == 0 then 0 else 1) else if off + r > 512 then 2 else 1);
      WrapOnce(q, k);
    }
  }

  /** Truncating before or after a small addition is the same. */
  lemma WrapOnce(q: nat, k: nat)
    ensures (q % 256 + k) % 256 == (q + k) % 256
  {
    assert q == 256 * (q / 256) + q % 256;
  }

  /** A transfer the driver and the drive can carry out. */
  predicate Transferable(pos: nat, len: nat, sectors: nat) {
    && Touched(pos, len) <= 255
    && pos / 512 + Touched(pos, len) <= sectors
    && pos / 512 + Touched(pos, len) <= 0x1000_0000
  }

  /** The four register writes of the driver. */
  function DriveSelOf(lba: nat): Byte { 0xF0 + lba / 0x100_0000 % 16 }
  function LowOf(lba: nat): Byte { lba % 256 }
  function MidOf(lba: nat): Byte { lba / 0x100 % 256 }
  function HighOf(lba: nat): Byte { lba / 0x1_0000 % 256 }

  /** The registers recombine to the sector number. */
  lemma LbaRecombines(lba: nat)
    requires lba < 0x1000_0000
    ensures Selects(DriveSelOf(lba))
    ensures Address(DriveSelOf(lba), HighOf(lba), MidOf(lba), LowOf(lba)) == lba
  {
    var a := lba / 0x100;
    var b := lba / 0x1_0000;
    var c := lba / 0x100_0000;
    assert lba == 0x100 * a + lba % 0x100;
    assert a == 0x100 * b + a % 0x100;
    assert b == 0x100 * c + b % 0x100;
  }

  // ----- what a write puts into each word

  /** The byte at address `a` after writing `buf` at `pos`. */
  function NewByte(sectors: seq<Sector>, pos: nat, buf: seq<Byte>, a: nat): Byte
    requires a < 512 * |sectors|
  {
    if pos <= a < pos + |buf| then buf[a - pos] else ByteAt(sectors, a)
  }

  function NewWord(sectors: seq<Sector>, pos: nat, buf: seq<Byte>, q: nat, w: nat): Word
    requires q < |sectors| && w < 256
  {
    Pack(NewByte(sectors, pos, buf, 512 * q + 2 * w), NewByte(sectors, pos, buf, 512 * q + 2 * w + 1))
  }

  function NewSector(sectors: seq<Sector>, pos: nat, buf: seq<Byte>, q: nat): (r: Sector)
    requires q < |sectors|
    ensures forall w :: 0 <= w < 256 ==> r[w] == NewWord(sectors, pos, buf, q, w)
  {
    seq(256, w requires 0 <= w < 256 => NewWord(sectors, pos, buf, q, w))
  }

  /** Both saved sectors are there whenever the word loop asks for them. */
  ghost predicate SavedFor(start: Option<Sector>, end: Option<Sector>, buf: seq<Byte>, index: int) {
    && (index < 0 ==> start.Some?)
    && (index == -1 ==> |buf| > 0)
    && (index >= 0 && index + 1 >= |buf| ==> end.Some?)
  }

  /** The word the driver sends for byte position `index` relative to the buffer. */
  function WordToWrite(start: Option<Sector>, end: Option<Sector>, buf: seq<Byte>, index: int, word: nat): Word
    requires word < 256 && SavedFor(start, end, buf, index)
  {
    if index == -1 then Pack(Low(start.value[word]), buf[0])
    else if index < -1 then start.value[word]
    else if index + 1 < |buf| then Pack(buf[index], buf[index + 1])
    else if index < |buf| then buf[index] + (end.value[word] - end.value[word] % 256)
    else end.value[word]
  }

  /** What the driver has saved before it writes: the first and the last sector, where unaligned. */
  ghost predicate Rescued(sectors: seq<Sector>, pos: nat, len: nat, start: Option<Sector>, end: Option<Sector>) {
    && Transferable(pos, len, |sectors|)
    && start == (if pos % 512 == 0 then None else Some(sectors[pos / 512]))
    && ((pos + len) % 512 != 0 ==> (pos + len) / 512 < |sectors| && end == Some(sectors[(pos + len) / 512]))
    && ((pos + len) % 512 == 0 ==> end == None)
  }

  /** A write of `len` bytes at `pos` finds everything it asks for. */
  predicate WriteDefined(pos: nat, len: nat) {
    len > 0 || (pos % 2 == 0 && pos % 512 != 0)
  }

  /** A read of `len` bytes at `pos` finds everything it asks for. */
  predicate ReadDefined(pos: nat, len: nat) {
    len > 0 || pos % 2 == 0
  }

  ghost predicate Saved(sectors: seq<Sector>, pos: nat, len: nat, start: Option<Sector>, end: Option<Sector>) {
    Rescued(sectors, pos, len, start, end) && WriteDefined(pos, len)
  }

  /** The sectors of a transfer and of its end. */
  lemma LastSector(pos: nat, len: nat)
    ensures len > 0 ==> (pos + len - 1) / 512 == pos / 512 + Touched(pos, len) - 1
    ensures (pos + len) % 512 != 0 ==> (pos + len) / 512 == pos / 512 + Touched(pos, len) - 1
    ensures len > 0 && (pos + len) % 512 == 0 ==> pos + len == 512 * (pos / 512 + Touched(pos, len))
  {
    var q, off := pos / 512, pos % 512;
    assert pos == 512 * q + off;
    SectorCountExact(pos, len);
    var n := Touched(pos, len);
    if len > 0 {
      assert 512 * (q + n - 1) < pos + len <= 512 * (q + n);
    }
  }

  /** Every word the driver sends is the word that belongs there, and no saved sector is missed. */
  lemma WordIsRight(sectors: seq<Sector>, pos: nat, buf: seq<Byte>, start: Option<Sector>, end: Option<Sector>,
      s: nat, w: nat)
    requires Saved(sectors, pos, |buf|, start, end) && s < Touched(pos, |buf|) && w < 256
    ensures var index := 2 * (256 * s + w) - pos % 512;
      && SavedFor(start, end, buf, index)
      && WordToWrite(start, end, buf, index, w) == NewWord(sectors, pos, buf, pos / 512 + s, w)
  {
    hide ByteAt, Touched;
    var q, off, len := pos / 512, pos % 512, |buf|;
    var index := 2 * (256 * s + w) - off;
    var a := 512 * (q + s) + 2 * w;
    assert pos == 512 * q + off && a == pos + index;
    LastSector(pos, len);
    WordBytes(sectors, q + s, w);
    if index < 0 {
      assert s == 0;
    } else if index + 1 >= len {
      EndSectorNeeded(pos, len, s, w);
    }
  }

  /** The byte position, relative to the buffer, of word `w` of the `s`-th sector of a transfer. */
  function Index(pos: nat, s: nat, w: nat): int {
    2 * (256 * s + w) - pos % 512
  }

  /**
   The word loop of a write indexes the buffer and unwraps the saved sectors without a panic exactly
   when the buffer is not empty, or the position is even and inside a sector.
   */
  lemma WriteExact(sectors: seq<Sector>, pos: nat, buf: seq<Byte>, start: Option<Sector>, end: Option<Sector>)
    requires Rescued(sectors, pos, |buf|, start, end)
    ensures WriteDefined(pos, |buf|) <==>
      forall s: nat, w: nat :: s < Touched(pos, |buf|) && w < 256 ==> SavedFor(start, end, buf, Index(pos, s, w))
  {
    hide Touched, Rescued, SavedFor, WordToWrite, NewWord;
    if WriteDefined(pos, |buf|) {
      forall s: nat, w: nat | s < Touched(pos, |buf|) && w < 256 ensures SavedFor(start, end, buf, Index(pos, s, w)) {
        WordIsRight(sectors, pos, buf, start, end, s, w);
      }
    } else {
      var w := pos % 512 / 2;
      EmptyWriteFails(sectors, pos, buf, start, end);
      assert !SavedFor(start, end, buf, Index(pos, 0, w));
    }
  }

  /** The failing word: before the buffer at an odd position, in a missing sector at an aligned one. */
  lemma EmptyWriteFails(sectors: seq<Sector>, pos: nat, buf: seq<Byte>, start: Option<Sector>, end: Option<Sector>)
    requires Rescued(sectors, pos, |buf|, start, end) && !WriteDefined(pos, |buf|)
    ensures var index := Index(pos, 0, pos % 512 / 2);
      && !SavedFor(start, end, buf, index)
      && (if pos % 2 == 1 then index == -1 && start.Some? else index == 0 && end.None?)
  {
    hide Transferable;
    Parity(pos);
  }

  /** The word at `index` is stored without indexing past an empty buffer. */
  predicate StoreDefined(len: nat, index: int) {
    index == -1 ==> len > 0
  }

  /** The word loop of a read indexes its buffer without a panic exactly in these cases. */
  lemma ReadExact(pos: nat, len: nat)
    ensures ReadDefined(pos, len) <==>
      forall s: nat, w: nat :: s < Touched(pos, len) && w < 256 ==> StoreDefined(len, Index(pos, s, w))
  {
    hide Touched;
    Parity(pos);
    if ReadDefined(pos, len) {
      forall s: nat, w: nat | s < Touched(pos, len) && w < 256 ensures StoreDefined(len, Index(pos, s, w)) {
        if Index(pos, s, w) == -1 { OddIndex(pos, s, w); }
      }
    } else {
      var w := pos % 512 / 2;
      assert Index(pos, 0, w) == -1;
      assert !StoreDefined(len, Index(pos, 0, w));
    }
  }

  lemma Parity(pos: nat)
    ensures pos % 512 % 2 == pos % 2
  {
    assert pos == 512 * (pos / 512) + pos % 512;
  }

  lemma OddIndex(pos: nat, s: nat, w: nat)
    requires Index(pos, s, w) == -1
    ensures pos % 2 == 1
  {
    Parity(pos);
    assert pos % 512 == 2 * (256 * s + w) + 1;
  }

  /** A word that is not wholly inside the buffer lies in the last, partial sector. */
  lemma EndSectorNeeded(pos: nat, len: nat, s: nat, w: nat)
    requires s < Touched(pos, len) && w < 256 && (len > 0 || pos % 512 != 0)
    requires 2 * (256 * s + w) - pos % 512 + 1 >= len
    ensures (pos + len) % 512 != 0 && (pos + len) / 512 == pos / 512 + s
  {
    var q, off := pos / 512, pos % 512;
    var a := 512 * (q + s) + 2 * w;
    assert pos == 512 * q + off;
    LastSector(pos, len);
    var n := Touched(pos, len);
    assert a + 1 >= pos + len;
    assert a + 1 < 512 * (q + n);
    var e := pos + len;
    assert e / 512 == q + n - 1;
    assert 512 * (q + n - 1) < e;
    assert a >= 512 * (q + n - 1);
  }

  /** After every touched sector is replaced, the bytes are the old ones with the buffer spliced in. */
  lemma SplicedContents(old_: seq<Sector>, new_: seq<Sector>, pos: nat, buf: seq<Byte>)
    requires Transferable(pos, |buf|, |old_|) && |new_| == |old_| && pos + |buf| <= 512 * |old_|
    requires forall q :: 0 <= q < |old_| ==>
      new_[q] == if pos / 512 <= q < pos / 512 + Touched(pos, |buf|) then NewSector(old_, pos, buf, q) else old_[q]
    ensures Flatten(new_) == F.Splice(Flatten(old_), pos, buf)
  {
    forall a | 0 <= a < 512 * |old_| ensures Flatten(new_)[a] == F.Splice(Flatten(old_), pos, buf)[a] {
      ByteSpliced(old_, new_, pos, buf, a);
    }
  }

  lemma ByteSpliced(old_: seq<Sector>, new_: seq<Sector>, pos: nat, buf: seq<Byte>, a: nat)
    requires Transferable(pos, |buf|, |old_|) && |new_| == |old_| && a < 512 * |old_|
    requires forall q :: 0 <= q < |old_| ==>
      new_[q] == if pos / 512 <= q < pos / 512 + Touched(pos, |buf|) then NewSector(old_, pos, buf, q) else old_[q]
    ensures ByteAt(new_, a) == NewByte(old_, pos, buf, a)
  {
    hide ByteAt, Low, High, Pack, Touched;
    var q, w := a / 512, a % 512 / 2;
    var lo := 512 * q + 2 * w;
    assert a == lo || a == lo + 1;
    WordBytes(new_, q, w);
    WordBytes(old_, q, w);
    if pos / 512 <= q < pos / 512 + Touched(pos, |buf|) {
      PackParts(NewByte(old_, pos, buf, lo), NewByte(old_, pos, buf, lo + 1));
    } else {
      OutsideTransfer(pos, |buf|, a);
    }
  }

  lemma OutsideTransfer(pos: nat, len: nat, a: nat)
    requires !(pos / 512 <= a / 512 < pos / 512 + Touched(pos, len))
    ensures !(pos <= a < pos + len)
  {
    LastSector(pos, len);
  }

  // ----- the driver

  datatype StatusBit = Busy | RwReady

  predicate IsSet(bit: StatusBit, status: bv8) {
    status & (match bit case Busy => 0x80 case RwReady => 0x08) != 0
  }

  /** The first `upto` bytes of the buffer have arrived. */
  ghost predicate Filled(buf: seq<Byte>, bytes: seq<Byte>, pos: nat, upto: int)
    requires pos + |buf| <= |bytes|
  {
    forall k :: 0 <= k < |buf| && k < upto ==> buf[k] == bytes[pos + k]
  }

  /** The buffer after the word at byte position `index` relative to it has been stored, as far as it fits. */
  function Stored(buf: seq<Byte>, index: int, read: Word): (r: seq<Byte>)
    ensures |r| == |buf|
    ensures forall k :: 0 <= k < |buf| ==>
      r[k] == if k == index then Low(read) else if k == index + 1 then High(read) else buf[k]
  {
    var a := if 0 <= index < |buf| then buf[index := Low(read)] else buf;
    if 0 <= index + 1 < |buf| then a[index + 1 := High(read)] else a
  }

  /** Storing the word that belongs at `index` extends the filled part by two bytes. */
  lemma StoredFills(sectors: seq<Sector>, buf: seq<Byte>, pos: nat, q: nat, w: nat)
    requires q < |sectors| && w < 256 && pos + |buf| <= 512 * |sectors|
    requires Filled(buf, Flatten(sectors), pos, 512 * q + 2 * w - pos)
    ensures Filled(Stored(buf, 512 * q + 2 * w - pos, sectors[q][w]), Flatten(sectors), pos, 512 * q + 2 * w - pos + 2)
  {
    WordBytes(sectors, q, w);
  }

  class AtaDrive {
    const dev: Device
    var position: nat

    constructor (dev: Device)
      ensures this.dev == dev && position == 0
    {
      this.dev := dev;
      position := 0;
    }

    /** Between operations the drive transfers nothing. */
    ghost predicate Valid()
      reads this, dev
    {
      dev.Valid() && dev.phase.Idle?
    }

    ghost function Contents(): (r: seq<Byte>)
      reads this, dev
      ensures |r| == 512 * |dev.sectors|
    {
      Flatten(dev.sectors)
    }

    /** Poll the status byte; the drive stops being busy after finitely many polls. */
    method WaitStatus(bit: StatusBit, until: bool)
      requires (bit.Busy? && !until) || (bit.RwReady? && until && !dev.phase.Idle?)
      modifies dev`busy
      ensures dev.busy == 0
    {
      var status := dev.ReadStatus();
      while IsSet(bit, status) != until
        invariant dev.busy > 0 ==> status == 0x80
        invariant status == 0x80 || (dev.busy == 0 && status == if dev.phase.Idle? then 0x40 else 0x48)
        decreases if status == 0x80 then dev.busy + 1 else 0
      {
        status := dev.ReadStatus();
      }
    }

    method WaitReady()
      requires !dev.phase.Idle?
      modifies dev`busy
      ensures dev.busy == 0
    {
      WaitStatus(Busy, false);
      WaitStatus(RwReady, true);
    }

    /** Point the registers at the sector of the current position. */
    method BeforeReadWrite(sectorCount: Byte)
      requires position / 512 < 0x1000_0000
      requires dev.phase.Idle?
      modifies dev`regs, dev`busy, dev`breach
      ensures dev.busy == 0 && dev.breach == old(dev.breach)
      ensures {SectorCount, LbaLow, LbaMid, LbaHigh, DriveSel} <= dev.regs.Keys
      ensures Selects(dev.regs[DriveSel]) && dev.regs[SectorCount] == sectorCount
      ensures Address(dev.regs[DriveSel], dev.regs[LbaHigh], dev.regs[LbaMid], dev.regs[LbaLow]) == position / 512
    {
      var lba := position / 512;
      WaitStatus(Busy, false);
      dev.WriteReg(DriveSel, DriveSelOf(lba));
      dev.WriteReg(SectorCount, sectorCount);
      dev.WriteReg(LbaLow, LowOf(lba));
      dev.WriteReg(LbaMid, MidOf(lba));
      dev.WriteReg(LbaHigh, HighOf(lba));
      LbaRecombines(lba);
    }

    /** The sector that contains the current position. */
    method ReadSector() returns (sector: Sector)
      requires Valid() && position / 512 < 0x1000_0000 && position / 512 < |dev.sectors|
      modifies dev`regs, dev`phase, dev`busy, dev`breach, dev`unflushed
      ensures Valid() && dev.breach == old(dev.breach) && sector == dev.sectors[position / 512]
    {
      BeforeReadWrite(1);
      dev.WriteCommand(Code(Command.ReadSectors));
      WaitReady();
      var buf := new Word[256];
      for word := 0 to 256
        invariant dev.Valid() && dev.breach == old(dev.breach)
        invariant word < 256 ==> dev.phase == DataIn(position / 512, 1, word) && dev.busy == 0
        invariant word == 256 ==> dev.phase.Idle?
        invariant forall k :: 0 <= k < word ==> buf[k] == dev.sectors[position / 512][k]
      {
        buf[word] := dev.ReadData();
      }
      sector := buf[..];
    }

    method ReadSectorIfUnaligned() returns (sector: Option<Sector>)
      requires Valid()
      requires position % 512 != 0 ==> position / 512 < 0x1000_0000 && position / 512 < |dev.sectors|
      modifies dev`regs, dev`phase, dev`busy, dev`breach, dev`unflushed
      ensures Valid() && dev.breach == old(dev.breach)
      ensures sector == if position % 512 == 0 then None else Some(dev.sectors[position / 512])
    {
      if SectorAligned(position) {
        sector := None;
      } else {
        var s := ReadSector();
        sector := Some(s);
      }
    }

    /** Read back the sectors a write of `len` bytes would only partly cover. */
    method GetPartialWriteSectors(len: nat) returns (start: Option<Sector>, end: Option<Sector>)
      requires Valid() && Transferable(position, len, |dev.sectors|)
      modifies this`position, dev`regs, dev`phase, dev`busy, dev`breach, dev`unflushed
      ensures Valid() && position == old(position) && dev.breach == old(dev.breach)
      ensures Rescued(dev.sectors, position, len, start, end)
    {
      LastSector(position, len);
      start := ReadSectorIfUnaligned();
      position := position + len;
      end := ReadSectorIfUnaligned();
      position := position - len;
    }

    /** Store one word of the disk at byte position `index` relative to the buffer, as far as it fits. */
    method StoreWord(buf: array<Byte>, index: int, read: Word)
      requires StoreDefined(buf.Length, index)
      modifies buf
      ensures buf[..] == Stored(old(buf[..]), index, read)
    {
      if index == -1 {
        buf[0] := High(read);
      } else if index < -1 {
      } else if index + 1 < buf.Length {
        buf[index] := Low(read);
        buf[index + 1] := High(read);
      } else if index < buf.Length {
        buf[index] := Low(read);
      }
    }

    /** One sector of a read: 256 words, each stored as far as it falls into the buffer. */
    method ReadSectorWords(buf: array<Byte>, sector: nat, count: nat)
      requires sector < count && position / 512 + count <= |dev.sectors| && position + buf.Length <= 512 * |dev.sectors|
      requires ReadDefined(position, buf.Length)
      requires dev.Valid() && dev.phase == DataIn(position / 512 + sector, count - sector, 0) && dev.busy == 0
      requires Filled(buf[..], Contents(), position, 512 * sector - position % 512)
      modifies buf, dev`phase, dev`busy
      ensures dev.Valid()
      ensures dev.phase
        == if sector + 1 < count then DataIn(position / 512 + sector + 1, count - sector - 1, 0) else Idle
      ensures Filled(buf[..], Contents(), position, 512 * (sector + 1) - position % 512)
    {
      hide Filled, Flatten, Stored;
      for word := 0 to 256
        invariant dev.Valid()
        invariant word < 256 ==> dev.phase == DataIn(position / 512 + sector, count - sector, word) && dev.busy == 0
        invariant word == 256 ==>
          dev.phase == if sector + 1 < count then DataIn(position / 512 + sector + 1, count - sector - 1, 0) else Idle
        invariant Filled(buf[..], Contents(), position, 2 * (256 * sector + word) - position % 512)
      {
        var read := dev.ReadData();
        var index := 2 * (256 * sector + word) - position % 512;
        assert index == 512 * (position / 512 + sector) + 2 * word - position;
        StoredFills(dev.sectors, buf[..], position, position / 512 + sector, word);
        StoreWord(buf, index, read);
      }
    }

    /** All sectors of a read. */
    method ReadSectors(buf: array<Byte>, count: nat)
      requires position / 512 + count <= |dev.sectors| && position + buf.Length <= 512 * |dev.sectors|
      requires ReadDefined(position, buf.Length) && count > 0
      requires dev.Valid() && dev.phase == DataIn(position / 512, count, 0)
      modifies buf, dev`phase, dev`busy
      ensures Valid()
      ensures Filled(buf[..], Contents(), position, 512 * count - position % 512)
    {
      hide Flatten, ReadDefined;
      for sector := 0 to count
        invariant dev.Valid()
        invariant dev.phase == if sector < count then DataIn(position / 512 + sector, count - sector, 0) else Idle
        invariant Filled(buf[..], Contents(), position, 512 * sector - position % 512)
      {
        WaitReady();
        ReadSectorWords(buf, sector, count);
      }
    }

    /** Fill the buffer with the bytes at the cursor and advance it. */
    method Read(buf: array<Byte>) returns (n: nat)
      requires Valid() && Transferable(position, buf.Length, |dev.sectors|)
      requires ReadDefined(position, buf.Length)
      modifies this`position, buf, dev`regs, dev`phase, dev`busy, dev`breach, dev`unflushed
      ensures Valid() && position == old(position) + buf.Length && n == buf.Length
      ensures dev.breach == old(dev.breach)
      ensures old(position) + buf.Length <= |Contents()|
      ensures buf[..] == Contents()[old(position)..position]
    {
      hide Flatten, Touched, MinRequiredSectorCount, ReadDefined;
      InRange(position, buf.Length, |dev.sectors|);
      SectorCountExact(position, buf.Length);
      var count := MinRequiredSectorCount(position, buf.Length);
      BeforeReadWrite(count);
      dev.WriteCommand(Code(Command.ReadSectors));
      ReadSectors(buf, count);
      assert buf[..] == Contents()[position..position + buf.Length];
      position := position + buf.Length;
      n := buf.Length;
    }

    /** One sector of a write: every word is the new content of its place. */
    method WriteSectorWords(
      buf: seq<Byte>, start: Option<Sector>, end: Option<Sector>, sector: nat, count: nat, ghost before: seq<Sector>)
      requires sector < count == Touched(position, |buf|) && Saved(before, position, |buf|, start, end)
      requires dev.Valid() && |dev.sectors| == |before|
      requires dev.phase == DataOut(position / 512 + sector, count - sector, []) && dev.busy == 0
      modifies dev`phase, dev`busy, dev`sectors, dev`busyAfterSector, dev`unflushed
      ensures dev.Valid() && dev.busyAfterSector == (dev.busy > 0) && dev.unflushed
      ensures dev.phase
        == if sector + 1 < count then DataOut(position / 512 + sector + 1, count - sector - 1, []) else Idle
      ensures var q := position / 512 + sector;
        dev.sectors == old(dev.sectors)[q := NewSector(before, position, buf, q)]
    {
      hide Touched, WordToWrite, NewWord, SavedFor, Transferable;
      ghost var q := position / 512 + sector;
      assert q < |before| by { SavedRoom(before, position, |buf|, start, end); }
      ghost var full := NewSector(before, position, buf, q);
      for word := 0 to 256
        invariant dev.Valid()
        invariant word < 256 ==>
          dev.busy == 0 && dev.sectors == old(dev.sectors) && dev.phase == DataOut(q, count - sector, full[..word])
        invariant word == 256 ==>
          && dev.busyAfterSector == (dev.busy > 0) && dev.unflushed
          && dev.phase == (if sector + 1 < count then DataOut(q + 1, count - sector - 1, []) else Idle)
          && dev.sectors == old(dev.sectors)[q := full]
      {
        var index := 2 * (256 * sector + word) - position % 512;
        WordIsRight(before, position, buf, start, end, sector, word);
        assert full[..word] + [full[word]] == full[..word + 1];
        assert full[..256] == full;
        dev.WriteData(WordToWrite(start, end, buf, index, word));
      }
    }

    /** All sectors of a write. */
    method WriteSectors(buf: seq<Byte>, start: Option<Sector>, end: Option<Sector>, count: nat,
        ghost before: seq<Sector>)
      requires count == Touched(position, |buf|) && Saved(before, position, |buf|, start, end)
      requires dev.Valid() && dev.sectors == before && dev.phase == DataOut(position / 512, count, [])
      modifies dev`phase, dev`busy, dev`sectors, dev`busyAfterSector, dev`unflushed
      ensures Valid() && |dev.sectors| == |before|
      ensures count > 0 ==> dev.unflushed && dev.busyAfterSector == (dev.busy > 0)
      ensures forall q :: 0 <= q < |before| ==>
        dev.sectors[q]
        == if position / 512 <= q < position / 512 + count then NewSector(before, position, buf, q) else before[q]
    {
      hide Touched, Rescued, NewSector, WriteDefined;
      ghost var lba := position / 512;
      for sector := 0 to count
        invariant dev.Valid() && |dev.sectors| == |before|
        invariant sector > 0 ==> dev.unflushed && dev.busyAfterSector == (dev.busy > 0)
        invariant dev.phase == if sector < count then DataOut(lba + sector, count - sector, []) else Idle
        invariant forall q :: 0 <= q < |before| ==>
          dev.sectors[q] == if lba <= q < lba + sector then NewSector(before, position, buf, q) else before[q]
      {
        WaitReady();
        WriteSectorWords(buf, start, end, sector, count, before);
      }
    }

    /** Write the buffer at the cursor, keeping the rest of the sectors it only partly covers. */
    method Write(buf: seq<Byte>) returns (n: nat)
      requires Valid() && Transferable(position, |buf|, |dev.sectors|)
      requires WriteDefined(position, |buf|)
      modifies this`position, dev
      ensures Valid() && position == old(position) + |buf| && n == |buf|
      ensures dev.breach <==> old(dev.breach) || dev.busyAfterSector
      ensures dev.unflushed <==> dev.busyAfterSector
      ensures old(position) + |buf| <= |old(Contents())|
      ensures Contents() == F.Splice(old(Contents()), old(position), buf)
    {
      hide Flatten, Touched, MinRequiredSectorCount, Rescued, NewSector, WriteDefined;
      ghost var before, lba := dev.sectors, position / 512;
      InRange(position, |buf|, |before|);
      SectorCountExact(position, |buf|);
      var count := MinRequiredSectorCount(position, |buf|);
      var start, end := GetPartialWriteSectors(|buf|);
      BeforeReadWrite(count);
      dev.WriteCommand(Code(Command.WriteSectors));
      WriteSectors(buf, start, end, count, before);
      dev.WriteCommand(Code(CacheFlush));
      SplicedContents(before, dev.sectors, position, buf);
      position := position + |buf|;
      n := |buf|;
    }

    /** Move the cursor; a failed seek leaves it alone. */
    method Seek(to: F.SeekFrom) returns (r: Option<nat>)
      modifies this`position
      ensures r == F.SeekTo(old(position), to)
      ensures to.Start? ==> r == Some(to.pos)
      ensures to.Current? ==> (r.Some? <==> old(position) + to.delta >= 0)
      ensures to.Current? && r.Some? ==> r.value == old(position) + to.delta
      ensures to.End? ==> r.None?
      ensures position == if r.Some? then r.value else old(position)
    {
      match to
      case Start(pos) =>
        position := pos;
        r := Some(pos);
      case Current(delta) =>
        var res := position + delta;
        if res >= 0 {
          position := res;
          r := Some(position);
        } else {
          r := None;
        }
      case End(_) => r := None;
    }

    /** The file the drive presents. */
    ghost function View(): F.Flat
      reads this, dev
    {
      F.Flat(Contents(), position)
    }

    /** One operation of a client does to the drive what it does to the file. */
    method Perform(op: F.Op) returns (out: F.Outcome)
      requires Valid() && Possible(View(), op)
      modifies this`position, dev
      ensures Valid() && |dev.sectors| == old(|dev.sectors|)
      ensures F.Fits(old(View()), op) && (View(), out) == F.Step(old(View()), op)
      ensures dev.breach <==> old(dev.breach) || (op.Write? && dev.busyAfterSector)
    {
      match op
      case Seek(to) =>
        var r := Seek(to);
        out := if r.None? then F.SeekError else F.Position(r.value);
      case Read(len) =>
        var buf := new Byte[len];
        InRange(position, len, |dev.sectors|);
        var _ := Read(buf);
        out := F.Data(buf[..]);
      case Write(data) =>
        InRange(position, |data|, |dev.sectors|);
        var n := Write(data);
        out := F.Written(n);
    }

    /** Any sequence of operations: the drive and a plain byte sequence with a cursor stay in step. */
    method PerformAll(ops: seq<F.Op>) returns (outs: seq<F.Outcome>)
      requires Valid() && PossibleAll(View(), ops)
      modifies this`position, dev
      ensures Valid() && F.FitsAll(old(View()), ops)
      ensures (View(), outs) == F.Run(old(View()), ops)
      ensures (forall i :: 0 <= i < |ops| ==> !ops[i].Write?) ==> dev.breach == old(dev.breach)
    {
      outs := [];
      for i := 0 to |ops|
        invariant Valid() && F.FitsAll(old(View()), ops[..i])
        invariant (View(), outs) == F.Run(old(View()), ops[..i])
        invariant (forall k :: 0 <= k < i ==> !ops[k].Write?) ==> dev.breach == old(dev.breach)
      {
        PossibleAt(old(View()), ops, i);
        var out := Perform(ops[i]);
        F.RunSnoc(old(View()), ops[..i], ops[i]);
        assert ops[..i] + [ops[i]] == ops[..i + 1];
        outs := outs + [out];
      }
      assert ops[..|ops|] == ops;
    }

    /** Writing, seeking back and reading returns what was written and changes nothing else. */
    method WriteAndReadBack(data: seq<Byte>) returns (back: seq<Byte>)
      requires Valid() && Possible(View(), F.Write(data))
      modifies this`position, dev
      ensures Valid() && back == data
      ensures old(position) + |data| <= |old(Contents())|
      ensures View() == F.Flat(F.Splice(old(Contents()), old(position), data), old(position) + |data|)
    {
      hide Flatten;
      var ops := [F.Write(data), F.Seek(F.Current(-|data|)), F.Read(|data|)];
      InRange(position, |data|, |dev.sectors|);
      ReadBackPossible(View(), data);
      F.WriteSeekRead(View(), data);
      var outs := PerformAll(ops);
      assert outs[2] == F.Data(data);
      back := outs[2].bytes;
    }
  }

  /** What may be written may be read back. */
  lemma ReadBackPossible(f: F.Flat, data: seq<Byte>)
    requires Possible(f, F.Write(data)) && f.pos + |data| <= |f.bytes|
    ensures PossibleAll(f, [F.Write(data), F.Seek(F.Current(-|data|)), F.Read(|data|)])
  {
    hide PossibleAll, F.Run, F.FitsAll, F.Step, Possible;
    var w, s, r := F.Write(data), F.Seek(F.Current(-|data|)), F.Read(|data|);
    BackAtStart(f, data);
    F.RunNone(f);
    NothingPossible(f);
    OneMore(f, [], w);
    OneMore(f, [] + [w], s);
    PossibleSnoc(f, [] + [w] + [s], r);
    assert [] + [w] + [s] + [r] == [w, s, r];
  }

  lemma OneMore(f: F.Flat, ops: seq<F.Op>, op: F.Op)
    requires PossibleAll(f, ops) && F.FitsAll(f, ops) && Possible(F.Run(f, ops).0, op) && F.Fits(F.Run(f, ops).0, op)
    ensures PossibleAll(f, ops + [op]) && F.FitsAll(f, ops + [op])
    ensures F.Run(f, ops + [op]).0 == F.Step(F.Run(f, ops).0, op).0
  {
    PossibleSnoc(f, ops, op);
    F.RunSnoc(f, ops, op);
  }

  /** Seeking back over what was written leads to the start of it, in a file of the same size. */
  lemma BackAtStart(f: F.Flat, data: seq<Byte>)
    requires Possible(f, F.Write(data)) && f.pos + |data| <= |f.bytes|
    ensures var g := F.Step(f, F.Write(data)).0;
      var back := F.Seek(F.Current(-|data|));
      F.Fits(g, back) && Possible(g, back) && Possible(F.Step(g, back).0, F.Read(|data|))
  {
    hide Transferable, ReadDefined, WriteDefined;
    EmptyReadable(f.pos, |data|);
  }

  lemma EmptyReadable(pos: nat, len: nat)
    requires WriteDefined(pos, len)
    ensures ReadDefined(pos, len)
  {
  }

  lemma NothingPossible(f: F.Flat)
    ensures PossibleAll(f, [])
  {
  }

  lemma PossibleSnoc(f: F.Flat, ops: seq<F.Op>, op: F.Op)
    requires PossibleAll(f, ops) && F.FitsAll(f, ops) && Possible(F.Run(f, ops).0, op)
    ensures PossibleAll(f, ops + [op])
  {
    assert (ops + [op])[..|ops|] == ops;
  }

  /** An operation the driver supports on a file of whole sectors. */
  predicate Possible(f: F.Flat, op: F.Op) {
    match op
    case Seek(_) => true
    case Read(len) => Transferable(f.pos, len, |f.bytes| / 512) && ReadDefined(f.pos, len)
    case Write(data) => Transferable(f.pos, |data|, |f.bytes| / 512) && WriteDefined(f.pos, |data|)
  }

  /** Every operation of a run is supported where it is issued. */
  predicate PossibleAll(f: F.Flat, ops: seq<F.Op>)
    decreases |ops|
  {
    |ops| > 0 ==>
      && PossibleAll(f, ops[..|ops| - 1])
      && F.FitsAll(f, ops[..|ops| - 1])
      && Possible(F.Run(f, ops[..|ops| - 1]).0, ops[|ops| - 1])
  }

  lemma {:induction false} PossibleAt(f: F.Flat, ops: seq<F.Op>, i: nat)
    requires PossibleAll(f, ops) && i < |ops|
    ensures F.FitsAll(f, ops[..i]) && Possible(F.Run(f, ops[..i]).0, ops[i])
    decreases |ops|
  {
    if i < |ops| - 1 {
      var front := ops[..|ops| - 1];
      PossibleAt(f, front, i);
      assert front[..i] == ops[..i];
    }
  }

  lemma SavedRoom(sectors: seq<Sector>, pos: nat, len: nat, start: Option<Sector>, end: Option<Sector>)
    requires Saved(sectors, pos, len, start, end)
    ensures pos / 512 + Touched(pos, len) <= |sectors|
  {
  }

  lemma InRange(pos: nat, len: nat, sectors: nat)
    requires Transferable(pos, len, sectors)
    ensures pos + len <= 512 * sectors
  {
    LastSector(pos, len);
  }
}
