/**
 The drive as the host sees it: registers, a status byte and a 16-bit data port, following the PIO
 data-in and data-out protocols of ATA/ATAPI-6 (INCITS 361-2002), clause 9.
 */
module AtaDevice {
  import opened Bytes

  datatype Reg = SectorCount | LbaLow | LbaMid | LbaHigh | DriveSel

  datatype Command = ReadSectors | WriteSectors | CacheFlush

  /** The codes of clause 8: READ SECTOR(S), WRITE SECTOR(S), FLUSH CACHE. */
  function Code(c: Command): Byte {
    match c
    case ReadSectors => 0x20
    case WriteSectors => 0x30
    case CacheFlush => 0xE7
  }

  /** `left` sectors remain, the first of them at `lba`. */
  datatype Phase =
    | Idle
    | DataIn(lba: nat, left: nat, word: nat)
    | DataOut(lba: nat, left: nat, words: seq<Word>)

  /** The sector number in the four address registers. */
  function Address(driveSel: Byte, high: Byte, mid: Byte, low: Byte): nat {
    driveSel % 16 * 0x100_0000 + high * 0x1_0000 + mid * 0x100 + low
  }

  /** LBA addressing and device 1. */
  predicate Selects(driveSel: Byte) {
    driveSel / 16 == 15
  }

  /** A sector count of zero asks for 256 sectors. */
  function Count(reg: Byte): nat {
    if reg == 0 then 256 else reg
  }

  class Device {
    var sectors: seq<Sector>
    var regs: map<Reg, Byte>
    var phase: Phase
    /** The number of status reads that will still report the drive busy. */
    var busy: nat
    /** The host has written a register or a command while the drive was busy or transferring. */
    ghost var breach: bool
    /** The drive was busy right after the last sector it received. */
    ghost var busyAfterSector: bool
    /** Sectors were stored since the drive last accepted a FLUSH CACHE. */
    ghost var unflushed: bool

    ghost predicate Valid()
      reads this
    {
      && (phase.DataIn? ==> phase.left > 0 && phase.word < 256 && phase.lba + phase.left <= |sectors|)
      && (phase.DataOut? ==> phase.left > 0 && |phase.words| < 256 && phase.lba + phase.left <= |sectors|)
    }

    /** BSY while busy; otherwise ready, with DRQ during a data phase. */
    method ReadStatus() returns (status: bv8)
      modifies this`busy
      ensures old(busy) > 0 ==> status == 0x80 && busy == old(busy) - 1
      ensures old(busy) == 0 ==> busy == 0 && status == if phase.Idle? then 0x40 else 0x48
    {
      if busy > 0 {
        busy := busy - 1;
        status := 0x80;
      } else {
        status := if phase.Idle? then 0x40 else 0x48;
      }
    }

    /** The host may write registers and commands: BSY and DRQ are both clear. */
    ghost predicate Accepting()
      reads this
    {
      busy == 0 && phase.Idle?
    }

    method WriteReg(reg: Reg, value: Byte)
      modifies this`regs, this`breach
      ensures regs == old(regs)[reg := value]
      ensures breach == (old(breach) || !Accepting())
    {
      breach := breach || !Accepting();
      regs := regs[reg := value];
    }

    /**
     A transfer starts when the registers select this drive and name sectors it has. A command that
     comes too early is a breach of the protocol and starts nothing.
     */
    method WriteCommand(code: Byte)
      requires Valid() && {SectorCount, LbaLow, LbaMid, LbaHigh, DriveSel} <= regs.Keys
      modifies this`phase, this`busy, this`breach, this`unflushed
      ensures Valid()
      ensures breach == (old(breach) || !old(Accepting()))
      ensures old(Accepting()) && code in {0x20, 0x30} ==>
        var lba := Address(regs[DriveSel], regs[LbaHigh], regs[LbaMid], regs[LbaLow]);
        var n := Count(regs[SectorCount]);
        phase == if Selects(regs[DriveSel]) && lba + n <= |sectors|
                 then (if code == 0x20 then DataIn(lba, n, 0) else DataOut(lba, n, []))
                 else Idle
      ensures !old(Accepting()) || code !in {0x20, 0x30} ==> phase == old(phase)
      ensures unflushed == (old(unflushed) && !(old(Accepting()) && code == 0xE7))
    {
      breach := breach || !Accepting();
      unflushed := unflushed && !(Accepting() && code == 0xE7);
      if busy == 0 && phase.Idle? && (code == 0x20 || code == 0x30) {
        var lba := Address(regs[DriveSel], regs[LbaHigh], regs[LbaMid], regs[LbaLow]);
        var n := Count(regs[SectorCount]);
        if Selects(regs[DriveSel]) && lba + n <= |sectors| {
          phase := if code == 0x20 then DataIn(lba, n, 0) else DataOut(lba, n, []);
        }
      }
      busy := *;
    }

    /** The next word of the sector being read. The drive may be busy again between sectors. */
    method ReadData() returns (w: Word)
      requires Valid() && phase.DataIn? && busy == 0
      modifies this`phase, this`busy
      ensures Valid()
      ensures w == sectors[old(phase.lba)][old(phase.word)]
      ensures var p := old(phase);
        phase == if p.word < 255 then p.(word := p.word + 1)
                 else if p.left > 1 then DataIn(p.lba + 1, p.left - 1, 0) else Idle
      ensures old(phase.word) < 255 ==> busy == 0
    {
      w := sectors[phase.lba][phase.word];
      if phase.word < 255 {
        phase := phase.(word := phase.word + 1);
      } else {
        phase := if phase.left > 1 then DataIn(phase.lba + 1, phase.left - 1, 0) else Idle;
        busy := *;
      }
    }

    /** A sector is stored when its last word arrives. */
    method WriteData(w: Word)
      requires Valid() && phase.DataOut? && busy == 0
      modifies this`phase, this`busy, this`sectors, this`busyAfterSector, this`unflushed
      ensures Valid() && |sectors| == old(|sectors|)
      ensures var p := old(phase); var words := p.words + [w];
        if |words| < 256 then
          phase == p.(words := words) && sectors == old(sectors) && busy == 0
        else
          && busyAfterSector == (busy > 0) && unflushed
          && phase == (if p.left > 1 then DataOut(p.lba + 1, p.left - 1, []) else Idle)
          && sectors == old(sectors)[p.lba := words]
    {
      var words := phase.words + [w];
      if |words| < 256 {
        phase := phase.(words := words);
      } else {
        sectors := sectors[phase.lba := words];
        phase := if phase.left > 1 then DataOut(phase.lba + 1, phase.left - 1, []) else Idle;
        busy := *;
        busyAfterSector := busy > 0;
        unflushed := true;
      }
    }
  }
}
