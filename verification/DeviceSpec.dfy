/**
 What the character device is, without ring, heap or offsets: the commands committed since
 the module was loaded, the bytes of the unfinished command, and a position per open file.
 A device built with `n` slots shows its last `n` commands.
 */
module DeviceSpec {
  import opened Streams
  import opened Rings

  const EFAULT := 14
  const EINVAL := 22
  const ENOTTY := 25
  const ERESTARTSYS := 512

  type uint32 = i: int | 0 <= i < 0x1_0000_0000

  /** Fields of an ioctl number: bits 0-7 are the command number, bits 8-15 the type. */
  function IocNr(cmd: uint32): uint32 { cmd % 0x100 }
  function IocType(cmd: uint32): uint32 { cmd / 0x100 % 0x100 }

  const AESD_IOC_MAGIC: uint32 := 0x16
  const AESDCHAR_IOC_MAXNR: uint32 := 1
  /** Read-write direction, an 8-byte argument, type 0x16, number 1. */
  const AESDCHAR_IOCSEEKTO: uint32 := 0xC008_1601

  datatype SeekTo = SeekTo(writeCmd: uint32, writeCmdOffset: uint32)

  datatype Device = Device(history: seq<string>, pending: string)

  /** Everything ever committed, as one stream. */
  function Stream(d: Device): string { Flat(d.history) }

  function LastN(h: seq<string>, n: nat): seq<string> {
    if |h| <= n then h else h[|h| - n..]
  }

  /** Committing is a ring push on what is held: the oldest command goes once `n` are held. */
  lemma PushLastN(h: seq<string>, c: string, n: nat)
    requires 0 < n
    ensures LastN(h + [c], n) == Push(LastN(h, n), c, n)
  {
  }

  /** The commands the device still holds. */
  function Visible(d: Device, n: nat): seq<string> { LastN(d.history, n) }

  /** What a reader starting at position 0 finds. */
  function Contents(d: Device, n: nat): string { Flat(Visible(d, n)) }

  /** How many bytes of the stream have been pushed out. */
  function Evicted(d: Device, n: nat): nat {
    if |d.history| <= n then 0 else |Flat(d.history[..|d.history| - n])|
  }

  predicate EndsLine(s: string) { s != "" && s[|s| - 1] == '\n' }

  function Min(a: nat, b: nat): nat { if a < b then a else b }

  // ---- one call -----------------------------------------------------------------

  function Write(d: Device, buf: string, allocOk: bool): (Device, int) {
    if buf == "" then (d.(pending := ""), 0)
    else if !allocOk then (d, 0)
    else if EndsLine(buf) then (Device(d.history + [d.pending + buf], ""), |buf|)
    else (d.(pending := d.pending + buf), |buf|)
  }

  /** The part of `content` that a read of `count` bytes at `pos` is due. */
  function Due(content: string, pos: nat, count: nat): string {
    if |content| <= pos then "" else content[pos..Min(pos + count, |content|)]
  }

  /** Result, bytes stored in the user buffer, new position. */
  datatype ReadResult = ReadResult(ret: int, data: string, pos: nat)

  /** `accessible` is how many bytes of the user buffer can be written without a fault. */
  function Read(content: string, pos: nat, count: nat, accessible: nat): (r: ReadResult)
    ensures pos <= r.pos
  {
    var due := Due(content, pos, count);
    if |due| <= accessible then ReadResult(|due|, due, pos + |due|)
    else ReadResult(-EFAULT, due[..accessible], pos)
  }

  /** What the lookup leads to, cut to the room left, is what the read is due next. */
  lemma PieceIsDue(content: string, pos: nat, count: nat, tot: nat, found: string, cpyBytes: nat)
    requires tot <= |Due(content, pos, count)| && tot <= count
    requires pos + tot < |content| && found <= content[pos + tot..] && found != ""
    requires cpyBytes == if tot + |found| > count then count - tot else |found|
    ensures tot + cpyBytes <= |Due(content, pos, count)|
    ensures Due(content, pos, count)[tot..tot + cpyBytes] == found[..cpyBytes]
    ensures cpyBytes == 0 ==> tot == count
  {
    var due := Due(content, pos, count);
    forall j | tot <= j < tot + cpyBytes ensures due[j] == found[j - tot] {
      assert due[j] == content[pos + j] == content[pos + tot..][j - tot];
    }
  }

  function Llseek(total: nat, pos: nat, off: int, whence: int): (int, nat) {
    if whence !in {0, 1, 2} then (-EINVAL, pos)
    else
      var target := off + (if whence == 0 then 0 else if whence == 1 then pos else total);
      if target < 0 then (-EINVAL, pos) else (target, target)
  }

  /** Position of a byte of a visible command. */
  function Position(visible: seq<string>, p: Place): nat
    requires p.index < |visible|
  {
    |Flat(visible[..p.index])| + p.byte
  }

  predicate ValidPlace(visible: seq<string>, p: Place) {
    p.index < |visible| && p.byte < |visible[p.index]|
  }

  /** `arg` is the request as fetched from user memory, None when that faults. */
  function Ioctl(visible: seq<string>, pos: nat, cmd: uint32, arg: Option<SeekTo>, signal: bool): (int, nat) {
    if IocType(cmd) != AESD_IOC_MAGIC || IocNr(cmd) > AESDCHAR_IOC_MAXNR then (-ENOTTY, pos)
    else if signal then (-ERESTARTSYS, pos)
    else if cmd != AESDCHAR_IOCSEEKTO then (-ENOTTY, pos)
    else if arg.None? then (-EFAULT, pos)
    else
      var place := Place(arg.value.writeCmd, arg.value.writeCmdOffset);
      if place.index >= |visible| then (-ENOTTY, pos)
      else if !ValidPlace(visible, place) then (-EINVAL, pos)
      else (0, Position(visible, place))
  }

  // ---- runs ---------------------------------------------------------------------

  /** A system call on open file `file`; `signal` says that waiting for the lock was interrupted. */
  datatype Call =
    | CWrite(file: nat, buf: string, allocOk: bool, signal: bool)
    | CRead(file: nat, count: nat, accessible: nat, signal: bool)
    | CLlseek(file: nat, off: int, whence: int)
    | CIoctl(file: nat, cmd: uint32, arg: Option<SeekTo>, signal: bool)

  datatype Outcome = Outcome(ret: int, data: string)

  datatype System = System(dev: Device, pos: seq<nat>)

  predicate CallsOn(calls: seq<Call>, files: nat) {
    forall i :: 0 <= i < |calls| ==> calls[i].file < files
  }

  function Step(s: System, c: Call, n: nat): (r: (System, Outcome))
    requires c.file < |s.pos|
    ensures |r.0.pos| == |s.pos|
  {
    match c
    case CWrite(f, buf, allocOk, signal) =>
      if signal then (s, Outcome(-ERESTARTSYS, "")) else
      var (d, ret) := Write(s.dev, buf, allocOk);
      (s.(dev := d), Outcome(ret, ""))
    case CRead(f, count, accessible, signal) =>
      if signal then (s, Outcome(-ERESTARTSYS, "")) else
      var r := Read(Contents(s.dev, n), s.pos[f], count, accessible);
      (s.(pos := s.pos[f := r.pos]), Outcome(r.ret, r.data))
    case CLlseek(f, off, whence) =>
      var (ret, p) := Llseek(|Contents(s.dev, n)|, s.pos[f], off, whence);
      (s.(pos := s.pos[f := p]), Outcome(ret, ""))
    case CIoctl(f, cmd, arg, signal) =>
      var (ret, p) := Ioctl(Visible(s.dev, n), s.pos[f], cmd, arg, signal);
      (s.(pos := s.pos[f := p]), Outcome(ret, ""))
  }

  /** The state after a sequence of calls and the outcome of each. */
  function Run(s: System, calls: seq<Call>, n: nat): (r: (System, seq<Outcome>))
    requires CallsOn(calls, |s.pos|)
    ensures |r.0.pos| == |s.pos| && |r.1| == |calls|
  {
    if calls == [] then (s, [])
    else
      var k := |calls| - 1;
      assert calls[k].file < |s.pos|;
      var (s1, out) := Run(s, calls[..k], n);
      var (s2, o) := Step(s1, calls[k], n);
      (s2, out + [o])
  }

  lemma RunPush(s: System, calls: seq<Call>, c: Call, n: nat)
    requires CallsOn(calls, |s.pos|) && c.file < |s.pos|
    ensures CallsOn(calls + [c], |s.pos|)
    ensures var (s1, out) := Run(s, calls, n);
            var (s2, o) := Step(s1, c, n);
            Run(s, calls + [c], n) == (s2, out + [o])
  {
    assert (calls + [c])[..|calls|] == calls;
  }

  /** The system as the module leaves it after loading, with `files` files opened. */
  function Initial(files: nat): System {
    System(Device([], ""), seq(files, _ => 0))
  }
}
