/**
 The list of client threads, shared by the thread that accepts clients and inserts at the head,
 the clients, which set their own `finish`, and the reaper, which joins, removes and frees. Each
 step is one access of memory, one mutex operation or one thread operation; steps of all come in
 any order. Touching memory that is not live, or joining no thread or a thread twice, is a Crash.
 */
module Reapers {
  import opened Addresses
  import opened Streams
  import opened PointerLists

  /** A client thread, from before its creation to its end. */
  datatype ClientPc = Unborn | Begun | HasLock | TidStored | Working | Flagged | Exited

  /** The accepting thread: after accept and malloc it holds node `a`. */
  datatype MainPc =
    | Accepting | Made(a: nat) | Locked(a: nat) | Linked(a: nat) | Inserted(a: nat) | Unlocked(a: nat)

  datatype ReaperPc =
    | Top
    | Test(item: nat)
    | Skip(item: nat)
    | Join(item: nat)
    | ToLock(item: nat)
    | AtNext(item: nat)
    | AtRemove(item: nat, nxt: nat)
    | Walk(item: nat, nxt: nat, cur: nat)
    | ToUnlock(item: nat, nxt: nat)
    | ToFree(item: nat, nxt: nat)
    | Asleep

  datatype Agent = Main | Reaper | Client(serial: nat)

  /**
   Memory, the list head, clients_mutex, where every thread is, and each client's argument.
   The rest is bookkeeping: what was joined and freed, what the list should hold, and which
   clients were finished and in the list when the reaper's current pass began.
   */
  datatype World = World(
    nodes: map<nat, Node>, head: nat, mutex: Option<Agent>,
    main: MainPc, clients: seq<ClientPc>, args: seq<nat>, reaper: ReaperPc,
    joined: set<nat>, freed: set<nat>, list: seq<nat>, due: set<nat>)

  datatype Result = Blocked | Crash | Ok(world: World)

  /** Accepting a client, and inserting its node; `a` is the address malloc gives, `junk` what is there. */
  function MainStep(w: World, a: nat, junk: nat): Result {
    match w.main
    case Accepting =>
      if a == NULL || a in w.nodes then Blocked
      else
        Ok(w.(nodes := w.nodes[a := Node(|w.clients|, 0, false, junk)], main := Made(a),
              clients := w.clients + [Unborn], args := w.args + [a]))
    case Made(x) => if w.mutex.Some? then Blocked else Ok(w.(mutex := Some(Main), main := Locked(x)))
    case Locked(x) =>
      if x !in w.nodes then Crash
      else Ok(w.(nodes := w.nodes[x := w.nodes[x].(next := w.head)], main := Linked(x)))
    case Linked(x) => Ok(w.(head := x, list := [x] + w.list, main := Inserted(x)))
    case Inserted(x) => Ok(w.(mutex := None, main := Unlocked(x)))
    case Unlocked(x) =>
      if x !in w.nodes || w.nodes[x].serial >= |w.clients| then Crash
      else
        var s := w.nodes[x].serial;
        Ok(w.(nodes := w.nodes[x := w.nodes[x].(tid := s + 1)], clients := w.clients[s := Begun], main := Accepting))
  }

  /** A client stores its thread id, does its work, sets its flag and ends. */
  function ClientStep(w: World, s: nat): Result {
    if s >= |w.clients| || s >= |w.args| then Blocked
    else
      var x := w.args[s];
      match w.clients[s]
      case Unborn => Blocked
      case Begun =>
        if w.mutex.Some? then Blocked
        else Ok(w.(mutex := Some(Client(s)), clients := w.clients[s := HasLock]))
      case HasLock =>
        if x !in w.nodes then Crash
        else Ok(w.(nodes := w.nodes[x := w.nodes[x].(tid := s + 1)], clients := w.clients[s := TidStored]))
      case TidStored => Ok(w.(mutex := None, clients := w.clients[s := Working]))
      case Working =>
        if x !in w.nodes then Crash
        else Ok(w.(nodes := w.nodes[x := w.nodes[x].(finish := true)], clients := w.clients[s := Flagged]))
      case Flagged => Ok(w.(clients := w.clients[s := Exited]))
      case Exited => Blocked
  }

  /** The clients in the list whose flag is set. */
  function FinishedIn(nodes: map<nat, Node>, list: seq<nat>): set<nat> {
    set x | x in list && x in nodes && nodes[x].finish :: nodes[x].serial
  }

  /** The loop over the list: a flagged node is joined, removed and freed, another is passed over. */
  function ReaperStep(w: World): Result {
    match w.reaper
    case Top => Ok(w.(reaper := Test(w.head), due := FinishedIn(w.nodes, w.list)))
    case Test(item) =>
      if item == NULL then Ok(w.(reaper := Asleep))
      else if item !in w.nodes then Crash
      else Ok(w.(reaper := if w.nodes[item].finish then Join(item) else Skip(item)))
    case Skip(item) =>
      if item !in w.nodes then Crash else Ok(w.(reaper := Test(w.nodes[item].next)))
    case Join(item) =>
      if item !in w.nodes || w.nodes[item].tid == 0 then Crash
      else
        var s := w.nodes[item].tid - 1;
        if s >= |w.clients| || s in w.joined then Crash
        else if w.clients[s] != Exited then Blocked
        else Ok(w.(joined := w.joined + {s}, reaper := ToLock(item)))
    case ToLock(item) => if w.mutex.Some? then Blocked else Ok(w.(mutex := Some(Reaper), reaper := AtNext(item)))
    case AtNext(item) =>
      if item !in w.nodes then Crash else Ok(w.(reaper := AtRemove(item, w.nodes[item].next)))
    case AtRemove(item, nxt) =>
      if w.head != item then Ok(w.(reaper := Walk(item, nxt, w.head)))
      else if item !in w.nodes then Crash
      else Ok(w.(head := w.nodes[item].next, list := Remove(w.list, item), reaper := ToUnlock(item, nxt)))
    case Walk(item, nxt, cur) =>
      if cur !in w.nodes then Crash
      else if w.nodes[cur].next != item then Ok(w.(reaper := Walk(item, nxt, w.nodes[cur].next)))
      else if item !in w.nodes then Crash
      else
        Ok(w.(nodes := w.nodes[cur := w.nodes[cur].(next := w.nodes[item].next)],
              list := Remove(w.list, item), reaper := ToUnlock(item, nxt)))
    case ToUnlock(item, nxt) => Ok(w.(mutex := None, reaper := ToFree(item, nxt)))
    case ToFree(item, nxt) =>
      if item !in w.nodes then Crash
      else Ok(w.(nodes := w.nodes - {item}, freed := w.freed + {w.nodes[item].serial}, reaper := Test(nxt)))
    case Asleep => Ok(w.(reaper := Top))
  }

  function Step(w: World, agent: Agent, a: nat, junk: nat): Result {
    match agent
    case Main => MainStep(w, a, junk)
    case Reaper => ReaperStep(w)
    case Client(s) => ClientStep(w, s)
  }

  // ---- the invariant ------------------------------------------------------------

  /** The node the accepting thread has not put into the list yet. */
  function InHand(m: MainPc): Option<nat> {
    match m
    case Made(a) => Some(a)
    case Locked(a) => Some(a)
    case Linked(a) => Some(a)
    case _ => None
  }

  /** The node the reaper has taken out of the list and not freed yet. */
  function Doomed(r: ReaperPc): Option<nat> {
    match r
    case ToUnlock(item, _) => Some(item)
    case ToFree(item, _) => Some(item)
    case _ => None
  }

  /** The links spell the list; its nodes and the two in hand are all the nodes there are. */
  predicate Shape(nodes: map<nat, Node>, head: nat, list: seq<nat>, hand: Option<nat>, doomed: Option<nat>) {
    && Chain(nodes, head, list) && Distinct(list)
    && (forall x :: x in list ==> x in nodes && Some(x) != hand && Some(x) != doomed)
    && (forall x :: x in nodes ==> x != NULL && (x in list || Some(x) == hand || Some(x) == doomed))
    && (hand.Some? ==> hand.value in nodes)
    && (doomed.Some? ==> doomed.value in nodes && hand != doomed)
  }

  /** Every client that was not freed has its node, and every node its client. */
  predicate Paired(nodes: map<nat, Node>, args: seq<nat>, freed: set<nat>) {
    && (forall x :: x in nodes ==>
          nodes[x].serial < |args| && args[nodes[x].serial] == x && nodes[x].serial !in freed)
    && (forall s :: 0 <= s < |args| && s !in freed ==> args[s] in nodes && nodes[args[s]].serial == s)
  }

  /** What a client has written into its node by the time it is at `c`. */
  predicate Written(c: ClientPc, node: Node) {
    && (node.finish <==> c.Flagged? || c.Exited?)
    && node.tid == if c.Unborn? then 0 else node.serial + 1
  }

  predicate AllWritten(nodes: map<nat, Node>, clients: seq<ClientPc>) {
    forall x :: x in nodes ==> nodes[x].serial < |clients| && Written(clients[nodes[x].serial], nodes[x])
  }

  /** Only clients that ended are joined, and only joined ones are freed. */
  predicate Ended(clients: seq<ClientPc>, joined: set<nat>, freed: set<nat>) {
    freed <= joined && forall s :: s in joined ==> s < |clients| && clients[s].Exited?
  }

  /** While a node is being inserted it is the newest client's, which is the only one unborn. */
  predicate MainOk(nodes: map<nat, Node>, head: nat, clients: seq<ClientPc>, args: seq<nat>, main: MainPc) {
    && |clients| == |args|
    && (forall s :: 0 <= s < |clients| && clients[s].Unborn? ==> !main.Accepting? && s == |clients| - 1)
    && (!main.Accepting? ==>
          && clients != [] && clients[|clients| - 1].Unborn? && main.a == args[|args| - 1]
          && main.a in nodes && nodes[main.a].serial == |clients| - 1)
    && (main.Linked? ==> nodes[main.a].next == head)
  }

  /** The mutex is held exactly by whoever is between its lock and its unlock. */
  predicate MutexOk(mutex: Option<Agent>, main: MainPc, reaper: ReaperPc, clients: seq<ClientPc>) {
    && (mutex == Some(Main) <==> main.Locked? || main.Linked? || main.Inserted?)
    && (mutex == Some(Reaper) <==> reaper.AtNext? || reaper.AtRemove? || reaper.Walk? || reaper.ToUnlock?)
    && (forall s :: 0 <= s < |clients| ==>
          (mutex == Some(Client(s)) <==> clients[s].HasLock? || clients[s].TidStored?))
    && (mutex.Some? && mutex.value.Client? ==> mutex.value.serial < |clients|)
  }

  /** The node the reaper is at is in the list. */
  predicate IsListed(r: ReaperPc) {
    r.Skip? || r.Join? || r.ToLock? || r.AtNext? || r.AtRemove? || r.Walk?
  }

  /** The node the reaper is at has been joined. */
  predicate IsJoined(r: ReaperPc) {
    r.ToLock? || r.AtNext? || r.AtRemove? || r.Walk? || Doomed(r).Some?
  }

  /** The reaper's item is a list member while it looks at it, and joined from the join on. */
  predicate ReaperOk(nodes: map<nat, Node>, list: seq<nat>, joined: set<nat>, r: ReaperPc) {
    && (IsListed(r) || (r.Test? && r.item != NULL) ==> r.item in list && r.item in nodes)
    && (r.Join? ==> nodes[r.item].finish)
    && (forall x :: x in nodes ==> (nodes[x].serial in joined <==> IsJoined(r) && x == r.item))
    && (r.AtRemove? || r.Walk? ==> r.nxt == nodes[r.item].next)
    && (r.Walk? ==> r.cur in list && r.cur != r.item && r.item in From(list, r.cur))
    && (Doomed(r).Some? ==> r.nxt == NULL || r.nxt in list)
  }

  /** What the reaper's pass has still to go through. */
  function Ahead(r: ReaperPc, list: seq<nat>): seq<nat> {
    if r.Test? || IsListed(r) then From(list, r.item)
    else if Doomed(r).Some? then [r.item] + From(list, r.nxt)
    else []
  }

  /** What was finished when the pass began is freed or still ahead. */
  predicate DueOk(clients: seq<ClientPc>, args: seq<nat>, freed: set<nat>, r: ReaperPc, list: seq<nat>, due: set<nat>) {
    forall s :: s in due ==>
      && s < |clients| && s < |args| && (clients[s].Flagged? || clients[s].Exited?)
      && (s in freed || r.Top? || (args[s] in Ahead(r, list) && !(r.Skip? && args[s] == r.item)))
  }

  predicate Inv(w: World) {
    && Shape(w.nodes, w.head, w.list, InHand(w.main), Doomed(w.reaper))
    && Paired(w.nodes, w.args, w.freed)
    && AllWritten(w.nodes, w.clients)
    && Ended(w.clients, w.joined, w.freed)
    && MainOk(w.nodes, w.head, w.clients, w.args, w.main)
    && MutexOk(w.mutex, w.main, w.reaper, w.clients)
    && ReaperOk(w.nodes, w.list, w.joined, w.reaper)
    && DueOk(w.clients, w.args, w.freed, w.reaper, w.list, w.due)
  }

  predicate Kept(r: Result) { r.Blocked? || (r.Ok? && Inv(r.world)) }

  // ---- changes that several steps make ------------------------------------------

  /** Storing into a node, but not into the link of one in the list. */
  lemma StoreShape(nodes: map<nat, Node>, x: nat, node: Node, head: nat, list: seq<nat>, hand: Option<nat>,
                   doomed: Option<nat>)
    requires Shape(nodes, head, list, hand, doomed) && x in nodes
    requires x !in list || node.next == nodes[x].next
    ensures Shape(nodes[x := node], head, list, hand, doomed)
  {
    ChainFrame(nodes, nodes[x := node], head, list);
    hide Chain;
  }

  lemma StoreReaper(nodes: map<nat, Node>, x: nat, node: Node, list: seq<nat>, joined: set<nat>, r: ReaperPc)
    requires ReaperOk(nodes, list, joined, r) && x in nodes && node.serial == nodes[x].serial
    requires x !in list || node.next == nodes[x].next
    requires nodes[x].finish ==> node.finish
    ensures ReaperOk(nodes[x := node], list, joined, r)
  {
    hide From;
  }

  lemma StoreKeeps(nodes: map<nat, Node>, x: nat, node: Node, head: nat, list: seq<nat>, hand: Option<nat>,
                   doomed: Option<nat>, args: seq<nat>, freed: set<nat>, joined: set<nat>, r: ReaperPc)
    requires Shape(nodes, head, list, hand, doomed) && Paired(nodes, args, freed) && ReaperOk(nodes, list, joined, r)
    requires x in nodes && node.serial == nodes[x].serial
    requires x !in list || node.next == nodes[x].next
    requires nodes[x].finish ==> node.finish
    ensures var nodes' := nodes[x := node];
            && Shape(nodes', head, list, hand, doomed) && Paired(nodes', args, freed)
            && ReaperOk(nodes', list, joined, r)
  {
    StoreShape(nodes, x, node, head, list, hand, doomed);
    StoreReaper(nodes, x, node, list, joined, r);
    hide Shape, ReaperOk;
  }

  // ---- the accepting thread -----------------------------------------------------

  lemma NewNodeShape(nodes: map<nat, Node>, x: nat, node: Node, head: nat, list: seq<nat>, doomed: Option<nat>)
    requires Shape(nodes, head, list, None, doomed) && x != NULL && x !in nodes
    ensures Shape(nodes[x := node], head, list, Some(x), doomed)
  {
    ChainFrame(nodes, nodes[x := node], head, list);
    hide Chain;
  }

  lemma NewNodeReaper(nodes: map<nat, Node>, x: nat, node: Node, list: seq<nat>, joined: set<nat>, r: ReaperPc)
    requires ReaperOk(nodes, list, joined, r) && x !in nodes && node.serial !in joined
    requires Doomed(r).Some? ==> Doomed(r).value in nodes
    ensures ReaperOk(nodes[x := node], list, joined, r)
  {
    hide From;
  }

  lemma AcceptKeeps(w: World, a: nat, junk: nat)
    requires Inv(w) && w.main.Accepting?
    ensures Kept(MainStep(w, a, junk))
  {
    if a == NULL || a in w.nodes {
      return;
    }
    var node := Node(|w.clients|, 0, false, junk);
    NewNodeShape(w.nodes, a, node, w.head, w.list, Doomed(w.reaper));
    NewNodeReaper(w.nodes, a, node, w.list, w.joined, w.reaper);
    NewNodeClient(w, a, node);
    hide Shape, Paired, AllWritten, ReaperOk, DueOk, Ended;
  }

  lemma NewNodeClient(w: World, x: nat, node: Node)
    requires Inv(w) && x !in w.nodes && node.serial == |w.clients| && node.tid == 0 && !node.finish
    ensures var nodes, clients, args := w.nodes[x := node], w.clients + [Unborn], w.args + [x];
            && Paired(nodes, args, w.freed) && AllWritten(nodes, clients)
            && Ended(clients, w.joined, w.freed)
            && DueOk(clients, args, w.freed, w.reaper, w.list, w.due)
  {
    hide Shape, ReaperOk, MutexOk, Ahead;
  }

  lemma MainLockKeeps(w: World, a: nat, junk: nat)
    requires Inv(w) && (w.main.Made? || w.main.Inserted?)
    ensures Kept(MainStep(w, a, junk))
  {
    hide Shape, Paired, AllWritten, Ended, ReaperOk, DueOk;
  }

  lemma LinkKeeps(w: World, a: nat, junk: nat)
    requires Inv(w) && w.main.Locked?
    ensures Kept(MainStep(w, a, junk))
  {
    var x := w.main.a;
    var node := w.nodes[x].(next := w.head);
    assert x !in w.list && Some(x) != Doomed(w.reaper);
    StoreKeeps(w.nodes, x, node, w.head, w.list, InHand(w.main), Doomed(w.reaper), w.args, w.freed, w.joined, w.reaper);
    hide Shape, Paired, Ended, ReaperOk, DueOk;
  }

  lemma InsertShape(nodes: map<nat, Node>, x: nat, head: nat, list: seq<nat>, doomed: Option<nat>)
    requires Shape(nodes, head, list, Some(x), doomed) && nodes[x].next == head
    ensures Shape(nodes, x, [x] + list, None, doomed)
  {
    assert ([x] + list)[1..] == list;
  }

  lemma InsertReaper(nodes: map<nat, Node>, x: nat, list: seq<nat>, joined: set<nat>, r: ReaperPc)
    requires ReaperOk(nodes, list, joined, r) && x != NULL && x !in list && Some(x) != Doomed(r) && !r.Walk?
    ensures ReaperOk(nodes, [x] + list, joined, r) && Ahead(r, [x] + list) == Ahead(r, list)
  {
    if r.Test? || IsListed(r) {
      FromInsert(list, x, r.item);
    } else if Doomed(r).Some? {
      FromInsert(list, x, r.nxt);
    }
    hide From;
  }

  lemma InsertKeeps(w: World, a: nat, junk: nat)
    requires Inv(w) && w.main.Linked?
    ensures Kept(MainStep(w, a, junk))
  {
    var x := w.main.a;
    assert InHand(w.main) == Some(x);
    InsertShape(w.nodes, x, w.head, w.list, Doomed(w.reaper));
    InsertReaper(w.nodes, x, w.list, w.joined, w.reaper);
    hide Shape, Paired, AllWritten, Ended, ReaperOk, Ahead;
  }

  lemma CreateKeeps(w: World, a: nat, junk: nat)
    requires Inv(w) && w.main.Unlocked?
    ensures Kept(MainStep(w, a, junk))
  {
    hide Shape, Paired, AllWritten, Ended, ReaperOk, DueOk;
    var x := w.main.a;
    var s := w.nodes[x].serial;
    var node := w.nodes[x].(tid := s + 1);
    StoreKeeps(w.nodes, x, node, w.head, w.list, InHand(w.main), Doomed(w.reaper), w.args, w.freed, w.joined, w.reaper);
    BeginKeeps(w.nodes, w.nodes[x := node], w.clients, w.args, w.joined, w.freed, w.reaper, w.list, w.due, s, x);
  }

  lemma BeginKeeps(nodes: map<nat, Node>, nodes': map<nat, Node>, clients: seq<ClientPc>, args: seq<nat>,
                   joined: set<nat>, freed: set<nat>, r: ReaperPc, list: seq<nat>, due: set<nat>, s: nat, x: nat)
    requires AllWritten(nodes, clients) && Ended(clients, joined, freed) && Paired(nodes, args, freed)
    requires DueOk(clients, args, freed, r, list, due)
    requires x in nodes && s == nodes[x].serial < |clients| && clients[s].Unborn?
    requires nodes' == nodes[x := nodes[x].(tid := s + 1)]
    ensures var clients' := clients[s := Begun];
            AllWritten(nodes', clients') && Ended(clients', joined, freed) && DueOk(clients', args, freed, r, list, due)
  {
    hide Ahead;
  }

  // ---- the clients --------------------------------------------------------------

  /** A client that is not Unborn goes on to `c`, having stored `node` in its node. */
  lemma ClientMoves(w: World, s: nat, c: ClientPc, node: Node, mutex: Option<Agent>)
    requires Inv(w) && s < |w.clients| && !w.clients[s].Unborn? && !w.clients[s].Exited? && !c.Unborn?
    requires w.args[s] in w.nodes && node.serial == w.nodes[w.args[s]].serial == s
    requires node.next == w.nodes[w.args[s]].next && Written(c, node)
    requires (w.clients[s].Flagged? ==> c.Exited?) && (w.nodes[w.args[s]].finish ==> node.finish)
    requires MutexOk(mutex, w.main, w.reaper, w.clients[s := c])
    ensures Inv(w.(nodes := w.nodes[w.args[s] := node], clients := w.clients[s := c], mutex := mutex))
  {
    hide Shape, Paired, AllWritten, MutexOk, ReaperOk, DueOk, Ended, InHand, Doomed, Written;
    var x := w.args[s];
    StoreKeeps(w.nodes, x, node, w.head, w.list, InHand(w.main), Doomed(w.reaper), w.args, w.freed, w.joined, w.reaper);
    ClientMovesOn(w, s, c, node);
  }

  lemma ClientMovesOn(w: World, s: nat, c: ClientPc, node: Node)
    requires Inv(w) && s < |w.clients| && !w.clients[s].Unborn? && !w.clients[s].Exited? && !c.Unborn?
    requires w.args[s] in w.nodes && node.serial == w.nodes[w.args[s]].serial == s && Written(c, node)
    requires w.clients[s].Flagged? ==> c.Exited?
    ensures var nodes, clients := w.nodes[w.args[s] := node], w.clients[s := c];
            && AllWritten(nodes, clients) && Ended(clients, w.joined, w.freed)
            && DueOk(clients, w.args, w.freed, w.reaper, w.list, w.due)
  {
    hide Shape, MainOk, MutexOk, ReaperOk, Ahead;
  }

  lemma ClientKeeps(w: World, s: nat)
    requires Inv(w)
    ensures Kept(ClientStep(w, s))
  {
    if s >= |w.clients| || w.clients[s].Unborn? || w.clients[s].Exited? {
      return;
    }
    ClientFacts(w, s);
    hide Inv, MutexOk;
    var node := w.nodes[w.args[s]];
    match w.clients[s]
    case Begun =>
      if w.mutex.None? { ClientMoves(w, s, HasLock, node, Some(Client(s))); }
    case HasLock => ClientMoves(w, s, TidStored, node.(tid := s + 1), w.mutex);
    case TidStored => ClientMoves(w, s, Working, node, None);
    case Working => ClientMoves(w, s, Flagged, node.(finish := true), w.mutex);
    case Flagged => ClientMoves(w, s, Exited, node, w.mutex);
  }

  /** A running client's node is there, and what its next mutex operation may do is known. */
  lemma ClientFacts(w: World, s: nat)
    requires Inv(w) && s < |w.clients| && !w.clients[s].Unborn? && !w.clients[s].Exited?
    ensures s < |w.args| && w.args[s] in w.nodes
    ensures var node, c := w.nodes[w.args[s]], w.clients[s];
            && node.serial == s && Written(c, node) && w.nodes[w.args[s] := node] == w.nodes
            && (c.Begun? && w.mutex.None? ==> MutexOk(Some(Client(s)), w.main, w.reaper, w.clients[s := HasLock]))
            && (c.HasLock? ==> MutexOk(w.mutex, w.main, w.reaper, w.clients[s := TidStored]))
            && (c.TidStored? ==> MutexOk(None, w.main, w.reaper, w.clients[s := Working]))
            && (c.Working? ==> MutexOk(w.mutex, w.main, w.reaper, w.clients[s := Flagged]))
            && (c.Flagged? ==> MutexOk(w.mutex, w.main, w.reaper, w.clients[s := Exited]))
  {
    hide Shape, ReaperOk, DueOk;
    assert s !in w.freed;
  }

  // ---- the reaper ---------------------------------------------------------------

  lemma TopKeeps(w: World)
    requires Inv(w) && w.reaper.Top?
    ensures Kept(ReaperStep(w))
  {
    var list := w.list;
    assert list != [] ==> w.head == list[0] && From(list, w.head) == list;
    assert list == [] ==> w.head == NULL;
    hide Chain, From, Shape, MainOk, MutexOk;
    forall s | s in FinishedIn(w.nodes, list)
      ensures s < |w.clients| && s < |w.args| && (w.clients[s].Flagged? || w.clients[s].Exited?)
      ensures w.args[s] in Ahead(Test(w.head), list)
    {
      var x :| x in list && x in w.nodes && w.nodes[x].finish && w.nodes[x].serial == s;
      assert Written(w.clients[s], w.nodes[x]) && w.args[s] == x;
    }
  }

  lemma TestKeeps(w: World)
    requires Inv(w) && w.reaper.Test?
    ensures Kept(ReaperStep(w))
  {
    var item := w.reaper.item;
    assert item == NULL ==> item !in w.list && From(w.list, item) == [];
    hide Chain, From, Shape, MainOk, MutexOk;
    if item != NULL && !w.nodes[item].finish {
      forall s | s in w.due && s !in w.freed ensures w.args[s] != item {
        assert Written(w.clients[s], w.nodes[w.args[s]]);
      }
    }
  }

  /** What follows a list member. */
  lemma NextFacts(nodes: map<nat, Node>, head: nat, list: seq<nat>, item: nat)
    requires Chain(nodes, head, list) && Distinct(list) && item in list && item in nodes
    ensures var nxt := nodes[item].next;
            && (nxt == NULL || nxt in list) && nxt != item
            && From(list, item) == [item] + From(list, nxt)
  {
    ChainMember(nodes, head, list, item);
    FromNext(nodes, head, list, item);
    var f := From(list, item);
    assert f == [f[0]] + f[1..];
  }

  lemma SkipKeeps(w: World)
    requires Inv(w) && w.reaper.Skip?
    ensures Kept(ReaperStep(w))
  {
    SkipReaper(w);
    hide Shape, Paired, AllWritten, Ended, MainOk, DueOk, ReaperOk;
  }

  lemma SkipReaper(w: World)
    requires Inv(w) && w.reaper.Skip?
    ensures var item := w.reaper.item;
            && item in w.nodes
            && var r := Test(w.nodes[item].next);
            && ReaperOk(w.nodes, w.list, w.joined, r)
            && DueOk(w.clients, w.args, w.freed, r, w.list, w.due)
  {
    var item := w.reaper.item;
    NextFacts(w.nodes, w.head, w.list, item);
    assert w.nodes[item].next in w.list ==> w.nodes[item].next in w.nodes;
    hide Chain, From, Shape, MainOk, MutexOk, AllWritten, Paired, Ended;
  }

  lemma JoinKeeps(w: World)
    requires Inv(w) && w.reaper.Join?
    ensures Kept(ReaperStep(w))
  {
    var item := w.reaper.item;
    assert Written(w.clients[w.nodes[item].serial], w.nodes[item]);
    hide Chain, From, Shape, MainOk, MutexOk, AllWritten;
  }

  /** Taking the mutex, reading the link, and going to unlock do not touch the list. */
  lemma LockedKeeps(w: World)
    requires Inv(w) && (w.reaper.ToLock? || w.reaper.AtNext? || w.reaper.ToUnlock?)
    ensures Kept(ReaperStep(w))
  {
    hide Chain, From, Shape, MainOk, AllWritten, Paired, Ended;
  }

  lemma WalkOnKeeps(w: World)
    requires Inv(w) && (w.reaper.AtRemove? && w.head != w.reaper.item)
    ensures Kept(ReaperStep(w))
  {
    assert w.head in w.list && From(w.list, w.head) == w.list;
    hide Chain, From, Shape, MainOk, AllWritten, Paired, Ended;
  }

  lemma WalkKeeps(w: World)
    requires Inv(w) && w.reaper.Walk? && w.reaper.cur in w.nodes && w.nodes[w.reaper.cur].next != w.reaper.item
    ensures Kept(ReaperStep(w))
  {
    var r := w.reaper;
    var r' := r.(cur := w.nodes[r.cur].next);
    WalkReaper(w.nodes, w.head, w.list, w.joined, r);
    SameAhead(w.clients, w.args, w.freed, r, r', w.list, w.list, w.due);
    hide Shape, Paired, AllWritten, Ended, MainOk, DueOk, ReaperOk;
  }

  lemma WalkReaper(nodes: map<nat, Node>, head: nat, list: seq<nat>, joined: set<nat>, r: ReaperPc)
    requires Chain(nodes, head, list) && Distinct(list) && ReaperOk(nodes, list, joined, r)
    requires r.Walk? && r.cur in nodes && nodes[r.cur].next != r.item
    ensures ReaperOk(nodes, list, joined, r.(cur := nodes[r.cur].next))
  {
    NextFacts(nodes, head, list, r.cur);
    hide Chain, From, Distinct;
  }

  /** As long as as much lies ahead, what is due is still there. */
  lemma SameAhead(clients: seq<ClientPc>, args: seq<nat>, freed: set<nat>, r: ReaperPc, r': ReaperPc,
                  list: seq<nat>, list': seq<nat>, due: set<nat>)
    requires DueOk(clients, args, freed, r, list, due) && Ahead(r', list') == Ahead(r, list)
    requires !r.Top? && !r'.Skip?
    ensures DueOk(clients, args, freed, r', list', due)
  {
    hide Ahead;
  }

  /** The list without a member: its other members in order, and the same still to come after it. */
  lemma TakenOut(nodes: map<nat, Node>, head: nat, list: seq<nat>, item: nat)
    requires Chain(nodes, head, list) && Distinct(list) && item in list && item in nodes
    ensures var l, nxt := Remove(list, item), nodes[item].next;
            && Distinct(l) && item !in l && (forall x :: x in list && x != item ==> x in l)
            && (nxt == NULL || nxt in l)
            && [item] + From(l, nxt) == From(list, item)
  {
    NextFacts(nodes, head, list, item);
    RemoveMembers(list, item);
    var nxt := nodes[item].next;
    if nxt in list {
      assert nxt in From(list, item) by {
        assert From(list, nxt)[0] == nxt;
        assert From(list, item)[1] == nxt;
      }
      FromRemove(list, item, nxt);
    }
  }

  /** The reaper's item leaves the list, which is linked as `nodes` and `head` say. */
  lemma RemovalKeeps(w: World, nodes: map<nat, Node>, head: nat)
    requires Inv(w) && (w.reaper.AtRemove? || w.reaper.Walk?)
    requires Chain(nodes, head, Remove(w.list, w.reaper.item)) && nodes.Keys == w.nodes.Keys
    requires forall x :: x in w.nodes ==> nodes[x] == w.nodes[x].(next := nodes[x].next)
    ensures Inv(w.(nodes := nodes, head := head, list := Remove(w.list, w.reaper.item),
                   reaper := ToUnlock(w.reaper.item, w.reaper.nxt)))
  {
    var r := w.reaper;
    var item, l, r' := r.item, Remove(w.list, r.item), ToUnlock(r.item, r.nxt);
    TakenOut(w.nodes, w.head, w.list, item);
    RelinkedNodes(w, nodes);
    hide Chain, Remove, From, Ended, AllWritten, Paired, DueOk;
    assert nodes.Keys == w.nodes.Keys && w.mutex == Some(Reaper);
    RemovedShape(w.nodes, nodes, w.head, head, w.list, l, InHand(w.main), item);
    RemovedReaper(w.nodes, nodes, w.list, l, w.joined, r);
    hide Shape, ReaperOk, MutexOk;
    SameAhead(w.clients, w.args, w.freed, r, r', w.list, l, w.due);
    RemovalAssembled(w, nodes, head);
  }

  lemma RemovalAssembled(w: World, nodes: map<nat, Node>, head: nat)
    requires Inv(w) && (w.reaper.AtRemove? || w.reaper.Walk?)
    requires var r', list := ToUnlock(w.reaper.item, w.reaper.nxt), Remove(w.list, w.reaper.item);
             && Shape(nodes, head, list, InHand(w.main), Doomed(r'))
             && ReaperOk(nodes, list, w.joined, r')
             && DueOk(w.clients, w.args, w.freed, r', list, w.due)
             && AllWritten(nodes, w.clients) && Paired(nodes, w.args, w.freed)
             && (!w.main.Linked? ==> MainOk(nodes, w.head, w.clients, w.args, w.main))
    ensures Inv(w.(nodes := nodes, head := head, list := Remove(w.list, w.reaper.item),
                   reaper := ToUnlock(w.reaper.item, w.reaper.nxt)))
  {
    hide Shape, ReaperOk, DueOk, AllWritten, Paired, Remove, Ended;
  }

  lemma RelinkedNodes(w: World, nodes: map<nat, Node>)
    requires Inv(w) && nodes.Keys == w.nodes.Keys
    requires forall x :: x in w.nodes ==> nodes[x] == w.nodes[x].(next := nodes[x].next)
    ensures AllWritten(nodes, w.clients) && Paired(nodes, w.args, w.freed)
    ensures !w.main.Linked? ==> MainOk(nodes, w.head, w.clients, w.args, w.main)
  {
    hide Shape, ReaperOk, DueOk, Ended, MutexOk;
    forall x | x in nodes ensures x in w.nodes && nodes[x].serial == w.nodes[x].serial {
      assert x in w.nodes.Keys;
    }
  }

  lemma RemovedReaper(nodes: map<nat, Node>, nodes': map<nat, Node>, list: seq<nat>, l: seq<nat>, joined: set<nat>,
                      r: ReaperPc)
    requires ReaperOk(nodes, list, joined, r) && (r.AtRemove? || r.Walk?) && (r.nxt == NULL || r.nxt in l)
    requires nodes.Keys == nodes'.Keys && forall x :: x in nodes ==> nodes'[x].serial == nodes[x].serial
    ensures ReaperOk(nodes', l, joined, ToUnlock(r.item, r.nxt))
  {
    hide From;
    assert forall x :: x in nodes' <==> x in nodes.Keys;
  }

  lemma RemovedShape(nodes: map<nat, Node>, nodes': map<nat, Node>, oldHead: nat, head: nat, list: seq<nat>, l: seq<nat>,
                     hand: Option<nat>, item: nat)
    requires Shape(nodes, oldHead, list, hand, None)
    requires Chain(nodes', head, l) && Distinct(l) && item in list && item !in l
    requires nodes.Keys == nodes'.Keys
    requires forall x :: x in l ==> x in list
    requires forall x :: x in list && x != item ==> x in l
    ensures Shape(nodes', head, l, hand, Some(item))
  {
    hide Chain, Distinct;
    assert forall x :: x in nodes' <==> x in nodes.Keys;
  }

  lemma RemoveKeeps(w: World)
    requires Inv(w)
    requires || (w.reaper.AtRemove? && w.head == w.reaper.item)
             || (w.reaper.Walk? && w.reaper.cur in w.nodes && w.nodes[w.reaper.cur].next == w.reaper.item)
    ensures Kept(ReaperStep(w))
  {
    var item := w.reaper.item;
    if w.reaper.AtRemove? {
      RemoveFirst(w.nodes, w.head, w.list);
      RemovalKeeps(w, w.nodes, w.nodes[item].next);
    } else {
      var cur := w.reaper.cur;
      RemoveLater(w.nodes, w.head, w.list, cur, item);
      RemovalKeeps(w, w.nodes[cur := w.nodes[cur].(next := w.nodes[item].next)], w.head);
    }
  }

  lemma FreeKeeps(w: World)
    requires Inv(w) && w.reaper.ToFree?
    ensures Kept(ReaperStep(w))
  {
    FreedShape(w);
    FreedReaper(w);
    FreedClients(w);
    hide Shape, Paired, AllWritten, Ended, MainOk, ReaperOk, DueOk;
  }

  lemma FreedReaper(w: World)
    requires Inv(w) && w.reaper.ToFree?
    ensures var item, r := w.reaper.item, Test(w.reaper.nxt);
            && item in w.nodes
            && ReaperOk(w.nodes - {item}, w.list, w.joined, r)
            && DueOk(w.clients, w.args, w.freed + {w.nodes[item].serial}, r, w.list, w.due)
  {
    var item, nxt := w.reaper.item, w.reaper.nxt;
    var s := w.nodes[item].serial;
    assert nxt in w.list ==> nxt in w.nodes && nxt != item;
    hide Chain, From, Shape, MutexOk, AllWritten, Ended;
    forall d | d in w.due && d !in w.freed + {s} ensures w.args[d] in Ahead(Test(nxt), w.list) {
      assert w.args[d] in w.nodes && w.nodes[w.args[d]].serial == d;
      assert w.args[d] in [item] + From(w.list, nxt) && w.args[d] != item;
    }
  }

  lemma FreedClients(w: World)
    requires Inv(w) && w.reaper.ToFree?
    ensures var item := w.reaper.item;
            && item in w.nodes
            && var nodes, freed := w.nodes - {item}, w.freed + {w.nodes[item].serial};
            && Paired(nodes, w.args, freed) && AllWritten(nodes, w.clients)
            && Ended(w.clients, w.joined, freed)
            && MainOk(nodes, w.head, w.clients, w.args, w.main)
  {
    var item := w.reaper.item;
    var s := w.nodes[item].serial;
    assert s in w.joined && w.clients[s].Exited?;
    hide Shape, MutexOk, ReaperOk, DueOk;
  }

  lemma FreedShape(w: World)
    requires Inv(w) && w.reaper.ToFree?
    ensures Shape(w.nodes - {w.reaper.item}, w.head, w.list, InHand(w.main), None)
  {
    ChainFrame(w.nodes, w.nodes - {w.reaper.item}, w.head, w.list);
    hide Chain, From, MainOk, MutexOk, AllWritten, Paired, Ended, DueOk, ReaperOk;
  }
}
