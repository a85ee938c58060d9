/** A singly linked list in memory (SLIST of sys/queue.h): a chain of nodes that spells a sequence of addresses. */
module PointerLists {

  import opened Addresses

  /** A list node: the client it is for, that client's thread id (0 for none yet), its flag and its link. */
  datatype Node = Node(serial: nat, tid: nat, finish: bool, next: nat)

  predicate Distinct(l: seq<nat>) { forall i, j :: 0 <= i < j < |l| ==> l[i] != l[j] }

  /** Following the links from `p` visits the addresses of `l` and ends. */
  predicate Chain(nodes: map<nat, Node>, p: nat, l: seq<nat>)
    decreases l
  {
    if l == [] then p == NULL
    else p == l[0] && p != NULL && p in nodes && Chain(nodes, nodes[p].next, l[1..])
  }

  /** The list from `p` on. */
  function From(l: seq<nat>, p: nat): (f: seq<nat>)
    ensures |f| <= |l| && (f == [] <==> p !in l) && (f != [] ==> f[0] == p)
    ensures forall a :: a in f ==> a in l
  {
    if l == [] || l[0] == p then l else From(l[1..], p)
  }

  function Remove(l: seq<nat>, a: nat): (r: seq<nat>)
    ensures forall x :: x in r ==> x in l
  {
    if l == [] then [] else if l[0] == a then l[1..] else [l[0]] + Remove(l[1..], a)
  }

  lemma {:induction false} ChainMember(nodes: map<nat, Node>, p: nat, l: seq<nat>, a: nat)
    requires Chain(nodes, p, l) && a in l
    ensures a != NULL && a in nodes && (nodes[a].next == NULL || nodes[a].next in l)
    ensures Chain(nodes, a, From(l, a)) && Chain(nodes, nodes[a].next, From(l, a)[1..])
    decreases l
  {
    if l[0] != a {
      ChainMember(nodes, nodes[p].next, l[1..], a);
    } else if |l| > 1 {
      assert nodes[a].next == l[1];
    }
  }

  /** Only the nodes of the list matter to it, and of them only the links. */
  lemma {:induction false} ChainFrame(nodes: map<nat, Node>, nodes': map<nat, Node>, p: nat, l: seq<nat>)
    requires Chain(nodes, p, l)
    requires forall a :: a in l && a in nodes ==> a in nodes' && nodes'[a].next == nodes[a].next
    ensures Chain(nodes', p, l)
    decreases l
  {
    if l != [] {
      assert l[0] in l;
      ChainFrame(nodes, nodes', nodes[p].next, l[1..]);
    }
  }

  /** What follows a member starts at its link. */
  lemma {:induction false} FromNext(nodes: map<nat, Node>, p: nat, l: seq<nat>, a: nat)
    requires Chain(nodes, p, l) && Distinct(l) && a in l && a in nodes
    ensures From(l, nodes[a].next) == From(l, a)[1..]
    decreases l
  {
    ChainMember(nodes, p, l, a);
    if l[0] == a {
      assert From(l, a) == l;
      if |l| > 1 {
        assert l[1..][0] == l[1] && From(l[1..], l[1]) == l[1..];
      } else {
        assert nodes[a].next !in l by {
          ChainHasNoNull(nodes, p, l);
        }
      }
    } else {
      FromNext(nodes, nodes[p].next, l[1..], a);
      ChainMember(nodes, nodes[p].next, l[1..], a);
      ChainHasNoNull(nodes, p, l);
      assert nodes[a].next != l[0];
    }
  }

  lemma {:induction false} ChainHasNoNull(nodes: map<nat, Node>, p: nat, l: seq<nat>)
    requires Chain(nodes, p, l)
    ensures NULL !in l
    decreases l
  {
    if l != [] {
      ChainHasNoNull(nodes, nodes[p].next, l[1..]);
    }
  }

  /** Insertion in front leaves what follows a member alone. */
  lemma FromInsert(l: seq<nat>, a: nat, p: nat)
    requires p != a
    ensures From([a] + l, p) == From(l, p)
  {
    assert ([a] + l)[1..] == l;
  }

  /** Removal takes out one address and keeps the order of the others. */
  lemma {:induction false} RemoveKeepsOrder(l: seq<nat>, a: nat)
    requires a in l
    ensures var i := |l| - |From(l, a)|;
            l[i] == a && Remove(l, a) == l[..i] + l[i + 1..]
    decreases l
  {
    if l[0] == a {
      assert l[..0] + l[1..] == l[1..];
    } else {
      var t := l[1..];
      RemoveKeepsOrder(t, a);
      var i := |t| - |From(t, a)|;
      assert Remove(l, a) == [l[0]] + (t[..i] + t[i + 1..]) && From(l, a) == From(t, a) && l[i + 1] == a;
      Longer(l, i);
    }
  }

  lemma Longer(l: seq<nat>, i: nat)
    requires i + 1 < |l|
    ensures [l[0]] + (l[1..][..i] + l[1..][i + 1..]) == l[..i + 1] + l[i + 2..]
  {
  }

  lemma RemoveMembers(l: seq<nat>, a: nat)
    requires a in l && Distinct(l)
    ensures Distinct(Remove(l, a)) && a !in Remove(l, a)
    ensures forall x :: x in l && x != a ==> x in Remove(l, a)
  {
    hide Remove, From;
    RemoveKeepsOrder(l, a);
    var i, r := |l| - |From(l, a)|, Remove(l, a);
    assert forall j :: 0 <= j < |r| ==> r[j] == if j < i then l[j] else l[j + 1];
    forall x | x in l && x != a ensures x in r {
      var j :| 0 <= j < |l| && l[j] == x;
      assert r[if j < i then j else j - 1] == x;
    }
  }

  /** What comes after the removed address is what came after it before. */
  lemma {:induction false} FromRemove(l: seq<nat>, a: nat, p: nat)
    requires a in l && Distinct(l) && p != a && p in From(l, a)
    ensures From(Remove(l, a), p) == From(l, p)
    decreases l
  {
    if l[0] == a {
      assert l[1..] == Remove(l, a);
    } else {
      assert l[0] != p by {
        assert From(l, a) == From(l[1..], a);
      }
      FromRemove(l[1..], a, p);
      assert Remove(l, a)[1..] == Remove(l[1..], a);
    }
  }

  /** SLIST_REMOVE of the first node. */
  lemma RemoveFirst(nodes: map<nat, Node>, p: nat, l: seq<nat>)
    requires Chain(nodes, p, l) && l != []
    ensures Chain(nodes, nodes[p].next, Remove(l, p))
  {
  }

  /** SLIST_REMOVE of a later node: the link that leads to it is led past it. */
  lemma {:induction false} RemoveLater(nodes: map<nat, Node>, p: nat, l: seq<nat>, cur: nat, item: nat)
    requires Chain(nodes, p, l) && Distinct(l) && cur in l && item in l && cur in nodes && item in nodes
    requires nodes[cur].next == item
    ensures Chain(nodes[cur := nodes[cur].(next := nodes[item].next)], p, Remove(l, item))
    decreases l
  {
    var nodes' := nodes[cur := nodes[cur].(next := nodes[item].next)];
    ChainHasNoNull(nodes, p, l);
    if l[0] == cur {
      assert l[1] == item && l[1..][1..] == l[2..];
      ChainFrame(nodes, nodes', nodes[item].next, l[2..]);
      assert Remove(l, item) == [cur] + l[2..];
    } else {
      ChainMember(nodes, nodes[p].next, l[1..], cur);
      assert item in l[1..] && l[0] != item;
      RemoveLater(nodes, nodes[p].next, l[1..], cur, item);
      assert Remove(l, item)[1..] == Remove(l[1..], item);
    }
  }
}
