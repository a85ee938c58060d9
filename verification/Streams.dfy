/**
 Byte streams cut into commands. A command is the run of bytes one driver entry
 holds; the stream is what a reader of the device sees, all commands end to end.
 */
module Streams {

  datatype Option<+T> = None | Some(value: T)

  /** A byte of a stream named by the command it lies in and its offset there. */
  datatype Place = Place(index: nat, byte: nat)

  /** All commands, concatenated end to end. */
  function Flat(cmds: seq<string>): string {
    if cmds == [] then "" else cmds[0] + Flat(cmds[1..])
  }

  function Sizes(cmds: seq<string>): (s: seq<nat>)
    ensures |s| == |cmds|
    ensures forall i :: 0 <= i < |s| ==> s[i] == |cmds[i]|
  {
    seq(|cmds|, i requires 0 <= i < |cmds| => |cmds[i]|)
  }

  function Sum(sizes: seq<nat>): nat {
    if sizes == [] then 0 else sizes[0] + Sum(sizes[1..])
  }

  /** The place of stream position `pos`, by the lengths of the commands alone. */
  function Locate(sizes: seq<nat>, pos: nat): Option<Place> {
    if sizes == [] then None
    else if pos < sizes[0] then Some(Place(0, pos))
    else
      match Locate(sizes[1..], pos - sizes[0])
      case None => None
      case Some(p) => Some(Place(p.index + 1, p.byte))
  }

  lemma {:induction false} FlatConcat(a: seq<string>, b: seq<string>)
    ensures Flat(a + b) == Flat(a) + Flat(b)
  {
    if a == [] {
      assert a + b == b;
    } else {
      assert (a + b)[1..] == a[1..] + b;
      FlatConcat(a[1..], b);
    }
  }

  lemma FlatPush(a: seq<string>, c: string)
    ensures Flat(a + [c]) == Flat(a) + c
  {
    FlatConcat(a, [c]);
    assert Flat([c]) == c + Flat([]);
  }

  lemma {:induction false} FlatLength(cmds: seq<string>)
    ensures |Flat(cmds)| == Sum(Sizes(cmds))
  {
    if cmds != [] {
      assert Sizes(cmds)[1..] == Sizes(cmds[1..]);
      FlatLength(cmds[1..]);
    }
  }

  lemma {:induction false} SumPrefix(sizes: seq<nat>, k: nat)
    requires k < |sizes|
    ensures Sum(sizes[..k + 1]) == Sum(sizes[..k]) + sizes[k]
  {
    if k == 0 {
      assert sizes[..1] == [sizes[0]];
    } else {
      assert sizes[..k + 1][1..] == sizes[1..][..k];
      assert sizes[..k][1..] == sizes[1..][..k - 1];
      SumPrefix(sizes[1..], k - 1);
    }
  }

  /** Positions below `k` commands' total lie in those commands, the rest after them. */
  lemma {:induction false} LocateAt(sizes: seq<nat>, k: nat, byte: nat)
    requires k < |sizes| && byte < sizes[k]
    ensures Locate(sizes, Sum(sizes[..k]) + byte) == Some(Place(k, byte))
  {
    if k > 0 {
      assert sizes[..k][1..] == sizes[1..][..k - 1];
      LocateAt(sizes[1..], k - 1, byte);
    }
  }

  /** Locate is the inverse of "start of command plus offset", and finds nothing past the end. */
  lemma {:induction false} LocateInverse(sizes: seq<nat>, pos: nat)
    ensures Locate(sizes, pos) == None <==> Sum(sizes) <= pos
    ensures Locate(sizes, pos).Some? ==>
              var p := Locate(sizes, pos).value;
              p.index < |sizes| && p.byte < sizes[p.index] && pos == Sum(sizes[..p.index]) + p.byte
  {
    if sizes != [] && sizes[0] <= pos {
      LocateInverse(sizes[1..], pos - sizes[0]);
      var r := Locate(sizes[1..], pos - sizes[0]);
      if r.Some? {
        assert sizes[..r.value.index + 1][1..] == sizes[1..][..r.value.index];
      }
    }
  }

  lemma {:induction false} FlatSplit(cmds: seq<string>, k: nat)
    requires k < |cmds|
    ensures |Flat(cmds[..k])| == Sum(Sizes(cmds)[..k])
    ensures Flat(cmds) == Flat(cmds[..k]) + (cmds[k] + Flat(cmds[k + 1..]))
  {
    assert cmds == cmds[..k] + cmds[k..];
    FlatConcat(cmds[..k], cmds[k..]);
    assert cmds[k..][1..] == cmds[k + 1..];
    FlatLength(cmds[..k]);
    assert Sizes(cmds[..k]) == Sizes(cmds)[..k];
  }

  /** One step of a search through the commands, `pos` being at or past the first `k`. */
  lemma SearchStep(sizes: seq<nat>, k: nat, pos: nat)
    requires k < |sizes| && Sum(sizes[..k]) <= pos
    ensures Sum(sizes[..k + 1]) == Sum(sizes[..k]) + sizes[k]
    ensures pos < Sum(sizes[..k]) + sizes[k] ==>
              Locate(sizes, pos) == Some(Place(k, pos - Sum(sizes[..k]))) && pos < Sum(sizes)
  {
    SumPrefix(sizes, k);
    if pos < Sum(sizes[..k]) + sizes[k] {
      LocateAt(sizes, k, pos - Sum(sizes[..k]));
      LocateInverse(sizes, pos);
    }
  }

  /**
   Flat indexing: the place of a position holds the very byte the flat stream has there,
   and there is a place exactly for the positions of the stream, whatever commands are empty.
   */
  lemma LocateIsFlatIndex(cmds: seq<string>, pos: nat)
    ensures Locate(Sizes(cmds), pos) == None <==> |Flat(cmds)| <= pos
    ensures Locate(Sizes(cmds), pos).Some? ==>
              var p := Locate(Sizes(cmds), pos).value;
              && pos < |Flat(cmds)|
              && p.index < |cmds| && p.byte < |cmds[p.index]|
              && cmds[p.index][p.byte] == Flat(cmds)[pos]
              && Flat(cmds)[pos..] == cmds[p.index][p.byte..] + Flat(cmds[p.index + 1..])
  {
    hide Locate, Flat, Sum;
    LocateInverse(Sizes(cmds), pos);
    FlatLength(cmds);
    var r := Locate(Sizes(cmds), pos);
    if r.Some? {
      FlatSplit(cmds, r.value.index);
      SplitFrom(Flat(cmds[..r.value.index]), cmds[r.value.index], Flat(cmds[r.value.index + 1..]), r.value.byte);
    }
  }

  lemma SplitFrom(before: string, cmd: string, after: string, byte: nat)
    requires byte < |cmd|
    ensures var all := before + (cmd + after);
            all[|before| + byte] == cmd[byte] && all[|before| + byte..] == cmd[byte..] + after
  {
  }
}
