/** The driver over whole runs of system calls on any number of open files. */
module AesdRuns {
  import opened Streams
  import opened DeviceSpec
  import opened DriverStates
  import opened KernelHeaps
  import opened AesdDevices

  ghost predicate AllDistinct(files: seq<File>) {
    forall i, j :: 0 <= i < j < |files| ==> files[i] != files[j]
  }

  ghost function Positions(files: seq<File>): seq<nat>
    reads files
  {
    seq(|files|, i requires 0 <= i < |files| reads files => files[i].fPos)
  }

  /** The system a driver and its open files stand for. */
  ghost function SystemOf(driver: AesdDevice, files: seq<File>): System
    reads driver, files
  {
    System(driver.dev, Positions(files))
  }

  /** A read into a user buffer of `accessible` bytes, and what it left there. */
  method DoRead(driver: AesdDevice, filp: File, count: nat, accessible: nat, signal: bool)
    returns (o: Outcome)
    requires driver.Valid()
    modifies filp
    ensures driver.Valid() && driver.dev == old(driver.dev)
    ensures signal ==> o == Outcome(-ERESTARTSYS, "") && filp.fPos == old(filp.fPos)
    ensures !signal ==>
              var r := DeviceSpec.Read(Contents(old(driver.dev), driver.Capacity()), old(filp.fPos), count, accessible);
              o == Outcome(r.ret, r.data) && filp.fPos == r.pos
  {
    var user := new char[accessible];
    var ret := driver.Read(filp, user, count, signal);
    o := Outcome(ret, if ret >= 0 then user[..ret] else if ret == -EFAULT then user[..] else "");
  }

  /** One call, dispatched to the driver's file operation. */
  method DoCall(driver: AesdDevice, files: seq<File>, c: Call) returns (o: Outcome)
    requires driver.Valid() && AllDistinct(files) && c.file < |files|
    modifies driver, driver.data, driver.data.entry, driver.heap, files
    ensures driver.Valid()
    ensures SystemOf(driver, files) == Step(old(SystemOf(driver, files)), c, driver.Capacity()).0
    ensures o == Step(old(SystemOf(driver, files)), c, driver.Capacity()).1
  {
    var filp := files[c.file];
    ghost var before := Positions(files);
    var ret;
    if c.CWrite? {
      ret := driver.Write(c.buf, c.allocOk, c.signal);
      o := Outcome(ret, "");
    } else if c.CRead? {
      o := DoRead(driver, filp, c.count, c.accessible, c.signal);
    } else if c.CLlseek? {
      ret := driver.Llseek(filp, c.off, c.whence);
      o := Outcome(ret, "");
    } else {
      ret := driver.Ioctl(filp, c.cmd, c.arg, c.signal);
      o := Outcome(ret, "");
    }
    assert Positions(files) == before[c.file := filp.fPos];
    assert before[c.file := before[c.file]] == before;
  }

  /**
   Any sequence of calls: the driver's state stands for the system the abstract run ends in,
   and every call returned what the abstract run says.
   */
  method RunCalls(driver: AesdDevice, files: seq<File>, calls: seq<Call>) returns (outcomes: seq<Outcome>)
    requires driver.Valid() && AllDistinct(files) && CallsOn(calls, |files|)
    modifies driver, driver.data, driver.data.entry, driver.heap, files
    ensures driver.Valid()
    ensures OwnsExactly(driver.State().Buffers(), driver.heap.blocks)
    ensures Replay(driver.heap.log) == Some(driver.heap.blocks.Keys)
    ensures (SystemOf(driver, files), outcomes) == Run(old(SystemOf(driver, files)), calls, driver.Capacity())
  {
    ghost var start := SystemOf(driver, files);
    outcomes := [];
    for i := 0 to |calls|
      invariant driver.Valid()
      invariant (SystemOf(driver, files), outcomes) == Run(start, calls[..i], driver.Capacity())
    {
      assert calls[..i + 1][..i] == calls[..i];
      var o := DoCall(driver, files, calls[i]);
      outcomes := outcomes + [o];
    }
    assert calls[..|calls|] == calls;
  }

  /**
   A module's whole life: loaded, used by any calls, unloaded. Every call agrees with the
   abstract run from the empty device; every free hit a live block, and none is live at the end.
   */
  method Lifetime(capacity: nat, fileCount: nat, calls: seq<Call>) returns (outcomes: seq<Outcome>, driver: AesdDevice)
    requires 1 <= capacity <= 255 && CallsOn(calls, fileCount)
    ensures outcomes == Run(Initial(fileCount), calls, capacity).1
    ensures driver.heap.blocks == map[] && Replay(driver.heap.log) == Some({})
  {
    driver := new AesdDevice(capacity);
    var files: seq<File> := [];
    while |files| < fileCount
      invariant |files| <= fileCount && AllDistinct(files)
      invariant forall i :: 0 <= i < |files| ==> fresh(files[i]) && files[i].fPos == 0
      invariant driver.Valid() && driver.dev == Device([], "") && driver.Capacity() == capacity
      invariant fresh(driver) && fresh(driver.data) && fresh(driver.data.entry) && fresh(driver.heap)
    {
      var f := new File();
      files := files + [f];
    }
    assert SystemOf(driver, files) == Initial(fileCount);
    outcomes := RunCalls(driver, files, calls);
    driver.Cleanup();
  }
}
