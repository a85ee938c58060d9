/** C strings, and the line-wise reading of a stream that fgets does over the driver. */
module Stdio {
  import opened Streams
  import opened DeviceSpec
  import opened AesdDevices

  /** The C string a buffer holds: what comes before its first NUL. */
  function CStr(s: string): (c: string)
    ensures |c| <= |s| && c == s[..|c|]
    ensures forall i :: 0 <= i < |c| ==> c[i] != '\0'
    ensures |c| < |s| ==> s[|c|] == '\0'
  {
    if s == "" || s[0] == '\0' then "" else [s[0]] + CStr(s[1..])
  }

  predicate NulFree(s: string) { forall i :: 0 <= i < |s| ==> s[i] != '\0' }

  lemma CStrWhole(s: string)
    ensures CStr(s) == s <==> NulFree(s)
    ensures |CStr(s)| == |s| <==> NulFree(s)
  {
  }

  /** How many characters fgets takes from `s`: through the first newline, at most `max`. */
  function LineLength(s: string, max: nat): (n: nat)
    ensures n <= |s| && n <= max && (n == 0 <==> s == "" || max == 0)
  {
    if s == "" || max == 0 then 0
    else if s[0] == '\n' then 1
    else 1 + LineLength(s[1..], max - 1)
  }

  /** Lines are decided by a front part alone once it is long enough or has a newline. */
  lemma {:induction false} LineLengthFront(s: string, n: nat, max: nat)
    requires n < max && n < |s| && forall i :: 0 <= i < n ==> s[i] != '\n'
    ensures LineLength(s, max) > n
    ensures s[n] == '\n' || n + 1 == max || n + 1 == |s| ==> LineLength(s, max) == n + 1
  {
    if n > 0 {
      LineLengthFront(s[1..], n - 1, max - 1);
    }
  }

  lemma {:induction false} LineLengthAll(s: string, max: nat)
    requires |s| <= max && forall i :: 0 <= i < |s| ==> s[i] != '\n'
    ensures LineLength(s, max) == |s|
  {
    if s != "" {
      LineLengthAll(s[1..], max - 1);
    }
  }

  /** The contents from a position on. */
  function Tail(content: string, pos: nat): string {
    if pos <= |content| then content[pos..] else ""
  }

  lemma FrontRemoved(a: string, b: string)
    requires a != ""
    ensures (a + b)[0] == a[0] && (a + b)[1..] == a[1..] + b
  {
  }

  lemma DueThenTail(content: string, pos: nat, count: nat)
    ensures var due := Due(content, pos, count);
            && Tail(content, pos) == due + Tail(content, pos + |due|)
            && (0 < count && due == "" ==> Tail(content, pos) == "")
  {
    if pos < |content| {
      var end := Min(pos + count, |content|);
      assert content[pos..] == content[pos..end] + content[end..];
    }
  }

  /** A read that cannot fault: the buffer is as long as the count. */
  method ReadBlock(driver: AesdDevice, filp: File, count: nat) returns (data: string)
    requires driver.Valid()
    modifies filp
    ensures driver.Valid() && driver.dev == old(driver.dev)
    ensures data == Due(Contents(driver.dev, driver.Capacity()), old(filp.fPos), count)
    ensures filp.fPos == old(filp.fPos) + |data|
  {
    var block := new char[count];
    var n := driver.Read(filp, block, count, false);
    data := block[..n];
  }

  /** A stream opened for reading on the device: a file and the bytes read ahead. */
  class ReadStream {
    const driver: AesdDevice
    const filp: File
    /** How much is read ahead at a time. */
    const blockSize: nat
    var buf: string
    /** What the stream has still to give. */
    ghost var rest: string

    ghost predicate Valid()
      reads this, filp, driver, driver.data, driver.data.entry, driver.heap
    {
      && driver.Valid() && 0 < blockSize
      && rest == buf + Tail(Contents(driver.dev, driver.Capacity()), filp.fPos)
    }

    constructor (driver: AesdDevice, filp: File, blockSize: nat)
      requires driver.Valid() && 0 < blockSize
      ensures Valid() && this.driver == driver && this.filp == filp
      ensures rest == Tail(Contents(driver.dev, driver.Capacity()), filp.fPos)
    {
      this.driver := driver;
      this.filp := filp;
      this.blockSize := blockSize;
      buf := "";
      rest := Tail(Contents(driver.dev, driver.Capacity()), filp.fPos);
    }

    /** Reads ahead when nothing is buffered; false when the device has no more. */
    method Fill() returns (more: bool)
      requires Valid()
      modifies this, filp
      ensures Valid() && driver.dev == old(driver.dev)
      ensures rest == old(rest) && (more <==> rest != "") && (more <==> buf != "")
    {
      hide AesdDevice.Valid, Contents, Tail, Due;
      if buf == "" {
        ghost var content, pos := Contents(driver.dev, driver.Capacity()), filp.fPos;
        DueThenTail(content, pos, blockSize);
        buf := ReadBlock(driver, filp, blockSize);
        rest := buf + Tail(content, filp.fPos);
        assert "" + Tail(content, pos) == Tail(content, pos) == rest;
      }
      more := buf != "";
    }

    /** Takes one character; None at the end of the stream. */
    method Getc() returns (c: Option<char>)
      requires Valid()
      modifies this, filp
      ensures Valid() && driver.dev == old(driver.dev)
      ensures c == None ==> old(rest) == "" && rest == ""
      ensures c.Some? ==> old(rest) != "" && c.value == old(rest)[0] && rest == old(rest)[1..]
    {
      var more := Fill();
      if !more {
        return None;
      }
      c := Some(buf[0]);
      FrontRemoved(buf, Tail(Contents(driver.dev, driver.Capacity()), filp.fPos));
      buf, rest := buf[1..], rest[1..];
    }

    /** Takes one line, or `max` characters of a longer one; None at the end of the stream. */
    method Fgets(max: nat) returns (line: Option<string>)
      requires Valid() && 0 < max
      modifies this, filp
      ensures Valid() && driver.dev == old(driver.dev)
      ensures old(rest) == "" ==> line == None && rest == ""
      ensures old(rest) != "" ==>
                line == Some(old(rest)[..LineLength(old(rest), max)])
                && rest == old(rest)[LineLength(old(rest), max)..]
    {
      hide AesdDevice.Valid, Contents, Tail, LineLength;
      ghost var all := rest;
      var s := "";
      while true
        invariant Valid() && driver.dev == old(driver.dev)
        invariant |s| < max && |s| <= |all| && s == all[..|s|] && rest == all[|s|..]
        invariant forall i :: 0 <= i < |s| ==> all[i] != '\n'
        decreases max - |s|
      {
        ghost var k := |s|;
        var c := Getc();
        if c == None {
          assert s == all;
          LineLengthAll(all, max);
          break;
        }
        LineLengthFront(all, k, max);
        s := s + [c.value];
        assert s == all[..k + 1] && rest == all[k + 1..];
        if c.value == '\n' || |s| == max {
          return Some(s);
        }
      }
      line := if s == "" then None else Some(s);
    }
  }
}
