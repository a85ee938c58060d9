/** The server's side of a connection: framing the byte stream, storing packets, replying. */
module Servers {
  import opened Streams
  import opened DeviceSpec
  import opened DeviceLaws
  import opened AesdDevices
  import opened SeekParsers
  import opened Stdio

  const BUFFER_SIZE := 1024

  // ---- what a reply is ----------------------------------------------------------

  /** What is sent of a stream: of every piece that fgets takes, what comes before its first NUL. */
  function ReplyText(s: string): string {
    if s == "" then ""
    else
      var n := LineLength(s, BUFFER_SIZE - 1);
      CStr(s[..n]) + ReplyText(s[n..])
  }

  /** The cutting into lines and pieces is invisible exactly when there is no NUL. */
  lemma {:induction false} ReplyIsExact(s: string)
    ensures |ReplyText(s)| <= |s|
    ensures ReplyText(s) == s <==> NulFree(s)
    ensures |ReplyText(s)| == |s| ==> NulFree(s)
  {
    if s != "" {
      var n := LineLength(s, BUFFER_SIZE - 1);
      var a, b := s[..n], s[n..];
      assert s == a + b;
      ReplyIsExact(b);
      CStrWhole(a);
      hide CStr, ReplyText, LineLength;
      assert ReplyText(s) == CStr(a) + ReplyText(b);
      NulFreeSum(a, b);
    }
  }

  lemma NulFreeSum(a: string, b: string)
    ensures NulFree(a + b) <==> NulFree(a) && NulFree(b)
  {
    assert forall i :: 0 <= i < |a| ==> a[i] == (a + b)[i];
    assert forall i :: 0 <= i < |b| ==> b[i] == (a + b)[|a| + i];
  }

  lemma ReplyStep(s: string)
    requires s != ""
    ensures var n := LineLength(s, BUFFER_SIZE - 1);
            ReplyText(s) == CStr(s[..n]) + ReplyText(s[n..])
  {
  }

  lemma {:induction false} LineEnds(a: string, b: string, max: nat)
    requires EndsLine(a) && 0 < max
    ensures LineLength(a + b, max) == LineLength(a, max)
    ensures LineLength(a, max) < |a| ==> EndsLine(a[LineLength(a, max)..])
  {
    assert a[0] != '\n' ==> |a| > 1 && EndsLine(a[1..]);
    FrontRemoved(a, b);
    if a[0] != '\n' && 1 < max {
      LineEnds(a[1..], b, max - 1);
    }
  }

  /** Lines are sent one by one: what is cut out of one does not touch those after it. */
  lemma {:induction false} RepliesConcat(a: string, b: string)
    requires EndsLine(a)
    ensures ReplyText(a + b) == ReplyText(a) + ReplyText(b)
  {
    var n := LineLength(a, BUFFER_SIZE - 1);
    LineEnds(a, b, BUFFER_SIZE - 1);
    assert (a + b)[..n] == a[..n] && (a + b)[n..] == a[n..] + b;
    ReplyStep(a);
    ReplyStep(a + b);
    hide ReplyText, LineLength, CStr;
    if n == |a| {
      assert a[n..] == "" && "" + b == b && CStr(a) + "" == CStr(a);
      EmptyReply();
      assert a[..n] == a;
    } else {
      RepliesConcat(a[n..], b);
      Regroup(CStr(a[..n]), ReplyText(a[n..]), ReplyText(b));
    }
  }

  lemma EmptyReply()
    ensures ReplyText("") == ""
  {
  }

  lemma Regroup(a: string, b: string, c: string)
    ensures a + (b + c) == (a + b) + c
  {
  }

  /** A line of up to 1023 characters is sent up to its first NUL, a longer one in pieces of 1023. */
  lemma LineIsSent(line: string, rest: string)
    requires line != "" && |line| <= 1023 && forall i :: 0 <= i < |line| - 1 ==> line[i] != '\n'
    requires line[|line| - 1] == '\n' || |line| == 1023 || rest == ""
    ensures ReplyText(line + rest) == CStr(line) + ReplyText(rest)
  {
    LineLengthFront(line + rest, |line| - 1, BUFFER_SIZE - 1);
    assert (line + rest)[..|line|] == line && (line + rest)[|line|..] == rest;
    ReplyStep(line + rest);
  }

  /** Where a reply starts: at the place asked for, if it is one; at the front if none was. */
  function ReplyStart(visible: seq<string>, cmdOffs: int, cmdInd: int): Option<nat> {
    if cmdOffs < 0 || cmdInd < 0 then Some(0)
    else
      var place := Place(cmdOffs, cmdInd);
      if ValidPlace(visible, place) then Some(Position(visible, place)) else None
  }

  function Reply(visible: seq<string>, cmdOffs: int, cmdInd: int): Option<string> {
    match ReplyStart(visible, cmdOffs, cmdInd)
    case None => None
    case Some(pos) => Some(ReplyText(Tail(Flat(visible), pos)))
  }

  // ---- sending ------------------------------------------------------------------

  predicate Healthy(schedule: seq<int>) { forall i :: 0 <= i < |schedule| ==> schedule[i] >= 0 }

  /** The connection to a client. */
  class Socket {
    var sent: string
    /**
     What the coming sends do: a negative number is a failure, another the most that is
     taken, zero included. Sends after these take all they are given.
     */
    var schedule: seq<int>

    constructor (schedule: seq<int>)
      ensures sent == "" && this.schedule == schedule
    {
      sent := "";
      this.schedule := schedule;
    }

    method Send(data: string) returns (n: int)
      modifies this
      ensures n <= |data| && sent == old(sent) + (if n < 0 then "" else data[..n])
      ensures old(schedule) == [] ==> n == |data| && schedule == []
      ensures old(schedule) != [] ==>
                && schedule == old(schedule)[1..]
                && n == if old(schedule)[0] < 0 then -1 else Min(old(schedule)[0], |data|)
    {
      if schedule == [] {
        n := |data|;
      } else {
        n := if schedule[0] < 0 then -1 else Min(schedule[0], |data|);
        schedule := schedule[1..];
      }
      sent := sent + (if n < 0 then "" else data[..n]);
    }
  }

  /** Sends a whole piece, however the sends cut it up; false when one fails. */
  method SendPiece(client: Socket, piece: string) returns (ok: bool)
    modifies client
    ensures old(client.sent) <= client.sent <= old(client.sent) + piece
    ensures ok ==> client.sent == old(client.sent) + piece
    ensures Healthy(old(client.schedule)) ==> ok && Healthy(client.schedule)
  {
    var totalSent := 0;
    while totalSent < |piece|
      invariant totalSent <= |piece| && client.sent == old(client.sent) + piece[..totalSent]
      invariant Healthy(old(client.schedule)) ==> Healthy(client.schedule)
      decreases |client.schedule|, |piece| - totalSent
    {
      var sentbytes := client.Send(piece[totalSent..]);
      if sentbytes < 0 {
        return false;
      }
      assert piece[..totalSent + sentbytes] == piece[..totalSent] + piece[totalSent..][..sentbytes];
      totalSent := totalSent + sentbytes;
    }
    assert piece[..totalSent] == piece;
    ok := true;
  }

  /** Sends all that a stream still gives, piece by piece. */
  method SendAll(fp: ReadStream, client: Socket) returns (ok: bool)
    requires fp.Valid()
    modifies fp, fp.filp, client
    ensures fp.Valid() && fp.driver.dev == old(fp.driver.dev)
    ensures old(client.sent) <= client.sent <= old(client.sent) + ReplyText(old(fp.rest))
    ensures ok ==> client.sent == old(client.sent) + ReplyText(old(fp.rest))
    ensures Healthy(old(client.schedule)) ==> ok && Healthy(client.schedule)
  {
    assert ReplyText("") == "";
    hide *;
    ghost var start, all, done := client.sent, ReplyText(fp.rest), "";
    while true
      invariant fp.Valid() && fp.driver.dev == old(fp.driver.dev)
      invariant client.sent == start + done && done + ReplyText(fp.rest) == all
      invariant Healthy(old(client.schedule)) ==> Healthy(client.schedule)
      decreases |fp.rest|
    {
      ghost var rest := fp.rest;
      var line := fp.Fgets(BUFFER_SIZE - 1);
      if line == None {
        break;
      }
      ReplyStep(rest);
      SentMore(start, done, CStr(line.value), ReplyText(fp.rest), all);
      ok := SendPiece(client, CStr(line.value));
      if !ok {
        SentSome(start, done, CStr(line.value), ReplyText(fp.rest), all, client.sent);
        return;
      }
      done := done + CStr(line.value);
    }
    SentSome(start, done, "", "", all, client.sent);
    ok := true;
  }

  /** Progress in sending `all`: `piece` comes next, `tail` is what then remains. */
  lemma SentMore(start: string, done: string, piece: string, tail: string, all: string)
    requires done + (piece + tail) == all
    ensures (done + piece) + tail == all && (start + done) + piece == start + (done + piece)
  {
  }

  /** Failing within `piece`, what was sent is still a front part of all there was to send. */
  lemma SentSome(start: string, done: string, piece: string, tail: string, all: string, now: string)
    requires done + (piece + tail) == all
    requires start + done <= now <= (start + done) + piece
    ensures start <= now <= start + all
  {
    assert start <= start + done;
    assert (start + done + piece) + tail == start + all;
  }

  /** How opening and closing the device for a reply go. */
  datatype Replying = Replying(opens: bool, closes: bool)

  /**
   Answers a client with the contents of the device from the place asked for on, or from the
   front when not both numbers are given.
   */
  method Respond(driver: AesdDevice, client: Socket, cmdOffs: Int32, cmdInd: Int32, luck: Replying, blockSize: nat)
    returns (res: int)
    requires driver.Valid() && 0 < blockSize
    modifies client
    ensures driver.Valid() && driver.dev == old(driver.dev)
    ensures var reply := Reply(Visible(driver.dev, driver.Capacity()), cmdOffs, cmdInd);
            if !luck.opens || reply.None? then
              res == -2 && client.sent == old(client.sent)
            else
              && old(client.sent) <= client.sent <= old(client.sent) + reply.value
              && (res != -3 ==>
                    && client.sent == old(client.sent) + reply.value
                    && res == if luck.closes then 0 else -2)
              && (Healthy(old(client.schedule)) ==> res != -3)
    ensures Healthy(old(client.schedule)) ==> Healthy(client.schedule)
  {
    if !luck.opens {
      return -2;
    }
    var filp := new File();
    ghost var visible := Visible(driver.dev, driver.Capacity());
    if cmdOffs >= 0 && cmdInd >= 0 {
      var seekto := SeekTo(cmdOffs, cmdInd);
      SeekThenLocate(visible, 0, seekto);
      var failed := driver.Ioctl(filp, AESDCHAR_IOCSEEKTO, Some(seekto), false);
      if failed != 0 {
        return -2;
      }
    }
    assert ReplyStart(visible, cmdOffs, cmdInd) == Some(filp.fPos);
    var fp := new ReadStream(driver, filp, blockSize);
    var ok := SendAll(fp, client);
    if !ok {
      return -3;
    }
    if !luck.closes {
      return -2;
    }
    res := 0;
  }
}
