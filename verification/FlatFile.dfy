/** The file a drive presents: a byte sequence with a cursor. */
module FlatFile {
  import opened Wrappers
  import opened Bytes

  datatype SeekFrom = Start(pos: nat) | Current(delta: int) | End(delta: int)

  datatype Op = Seek(to: SeekFrom) | Read(len: nat) | Write(data: seq<Byte>)

  datatype Outcome = Position(pos: nat) | SeekError | Data(bytes: seq<Byte>) | Written(len: nat)

  datatype Flat = Flat(bytes: seq<Byte>, pos: nat)

  /** Overwrite `bytes` at `pos`. */
  function Splice(bytes: seq<Byte>, pos: nat, data: seq<Byte>): (r: seq<Byte>)
    requires pos + |data| <= |bytes|
    ensures |r| == |bytes|
  {
    bytes[..pos] + data + bytes[pos + |data|..]
  }

  /** The cursor after a seek; seeking before the start or from the end is an error. */
  function SeekTo(pos: nat, to: SeekFrom): Option<nat> {
    match to
    case Start(p) => Some(p)
    case Current(delta) => if pos + delta >= 0 then Some(pos + delta) else None
    case End(_) => None
  }

  predicate Fits(f: Flat, op: Op) {
    match op
    case Seek(_) => true
    case Read(len) => f.pos + len <= |f.bytes|
    case Write(data) => f.pos + |data| <= |f.bytes|
  }

  function Step(f: Flat, op: Op): (Flat, Outcome)
    requires Fits(f, op)
  {
    match op
    case Seek(to) =>
      var p := SeekTo(f.pos, to);
      if p.None? then (f, SeekError) else (f.(pos := p.value), Position(p.value))
    case Read(len) => (f.(pos := f.pos + len), Data(f.bytes[f.pos..f.pos + len]))
    case Write(data) => (Flat(Splice(f.bytes, f.pos, data), f.pos + |data|), Written(|data|))
  }

  /**
   Where a seek leads: to the byte asked for, or as many bytes on or back as asked for. It fails
   exactly for a place before the start and for every place counted from the end, and then, as
   always, it changes no byte.
   */
  lemma SeekExact(f: Flat, to: SeekFrom)
    ensures var (g, out) := Step(f, Seek(to));
      && g.bytes == f.bytes
      && (out == SeekError <==> to.End? || (to.Current? && f.pos + to.delta < 0))
      && (out == SeekError ==> g.pos == f.pos)
      && (out != SeekError ==> out == Position(g.pos))
      && (to.Start? ==> g.pos == to.pos)
      && (to.Current? && f.pos + to.delta >= 0 ==> g.pos == f.pos + to.delta)
  {
  }

  /** Every operation of the run stays inside the file. */
  predicate FitsAll(f: Flat, ops: seq<Op>)
    decreases |ops|, 0
  {
    |ops| > 0 ==>
      && FitsAll(f, ops[..|ops| - 1])
      && Fits(Run(f, ops[..|ops| - 1]).0, ops[|ops| - 1])
  }

  function Run(f: Flat, ops: seq<Op>): (Flat, seq<Outcome>)
    requires FitsAll(f, ops)
    decreases |ops|, 1
  {
    if |ops| == 0 then (f, [])
    else
      var (g, outs) := Run(f, ops[..|ops| - 1]);
      var (h, out) := Step(g, ops[|ops| - 1]);
      (h, outs + [out])
  }

  lemma RunSnoc(f: Flat, ops: seq<Op>, op: Op)
    requires FitsAll(f, ops) && Fits(Run(f, ops).0, op)
    ensures FitsAll(f, ops + [op])
    ensures Run(f, ops + [op]) == (Step(Run(f, ops).0, op).0, Run(f, ops).1 + [Step(Run(f, ops).0, op).1])
  {
    assert (ops + [op])[..|ops|] == ops;
  }

  /** Writing, seeking back and reading returns what was written and changes nothing else. */
  lemma WriteSeekRead(f: Flat, data: seq<Byte>)
    requires f.pos + |data| <= |f.bytes|
    ensures var ops := [Write(data), Seek(Current(-|data|)), Read(|data|)];
      && FitsAll(f, ops)
      && Run(f, ops).0 == Flat(Splice(f.bytes, f.pos, data), f.pos + |data|)
      && Run(f, ops).1 == [Written(|data|), Position(f.pos), Data(data)]
  {
    hide FitsAll, Run;
    var w, s, r := Write(data), Seek(Current(-|data|)), Read(|data|);
    RunNone(f);
    RunSnoc(f, [], w);
    assert [] + [w] == [w] && [w] + [s] == [w, s] && [w, s] + [r] == [w, s, r];
    RunSnoc(f, [w], s);
    assert Splice(f.bytes, f.pos, data)[f.pos..f.pos + |data|] == data;
    RunSnoc(f, [w, s], r);
  }

  lemma RunNone(f: Flat)
    ensures FitsAll(f, []) && Run(f, []) == (f, [])
  {
  }
}
