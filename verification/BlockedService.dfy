/**
 Serving the clients that wait for keys (blocked.c, handleClientsBlockedOnKeys): a loop over
 batches of keys, a loop over the keys of a batch, and a loop over the waiters of a key, while the
 commands being served signal more keys and block again. What the commands do is given by a script.
 */
module BlockedService {
  import opened Common
  import opened Blocked
  import opened BlockedServer

  datatype Signalled = Signalled(k: Key, kind: Kind, deleted: bool)

  /** What a command blocks for; for nothing if the kind is `NotBlocked`. */
  datatype Wait = Wait(kind: Kind, keys: seq<Key>, nokey: bool)

  /**
   What the next waiter meets: what the key holds then, as the kind of client that waits for such
   a value, and what the client's command does if it is served, which is to signal keys and
   perhaps to block once more.
   */
  datatype Turn = Turn(held: Option<Kind>, signals: seq<Signalled>, again: Wait)

  /** The client may be served: the value is of its kind, or it must know that the key has changed. */
  predicate Suits(client: Client, held: Option<Kind>) {
    client.nokey || (held.Some? && (client.kind == held.value || client.kind == OnModule))
  }

  // ----- the list of waiters while it is being served -----

  /** At most one node is added, at the end, new, and for `c`. */
  ghost predicate Joins(list: seq<Node>, list': seq<Node>, c: nat, from: nat) {
    list' == list
    || (|list'| == |list| + 1 && list'[..|list|] == list && list'[|list|].client == c && list'[|list|].id >= from)
  }

  /** What adding keys for `c` does to the list of `k`, if it did not wait for `k` before. */
  ghost predicate KeysJoin(s: State, t: State, c: nat, k: Key) {
    && s.nextNode <= t.nextNode && c in t.clients && t.clients == s.clients[c := t.clients[c]]
    && Joins(Waiters(s, k), Waiters(t, k), c, s.nextNode)
    && (k !in t.clients[c].keys ==> Waiters(t, k) == Waiters(s, k))
  }

  lemma AddKeyJoins(s: State, t: State, c: nat, key: Key, nokey: bool, k: Key)
    requires KeysJoin(s, t, c, k)
    ensures KeysJoin(s, AddKey(t, c, key, nokey), c, k)
  {
    if key !in t.clients[c].keys {
      assert Waiters(AddKey(t, c, key, nokey), k)
          == if key == k then Waiters(t, k) + [Node(t.nextNode, c)] else Waiters(t, k);
    }
  }

  lemma {:induction false} AddKeysJoins(s: State, c: nat, keys: seq<Key>, nokey: bool, k: Key)
    requires c in s.clients && k !in s.clients[c].keys
    ensures KeysJoin(s, AddKeys(s, c, keys, nokey), c, k)
    decreases |keys|
  {
    hide AddKey;
    if keys == [] {
      assert s.clients == s.clients[c := s.clients[c]];
    } else {
      hide KeysJoin;
      AddKeysJoins(s, c, keys[..|keys| - 1], nokey, k);
      AddKeyJoins(s, AddKeys(s, c, keys[..|keys| - 1], nokey), c, keys[|keys| - 1], nokey, k);
    }
  }

  lemma BlockForKeysJoins(s: State, c: nat, kind: Kind, keys: seq<Key>, nokey: bool, k: Key)
    requires c in s.clients && kind in s.byKind && s.clients[c].keys == map[]
    ensures var t := BlockForKeys(s, c, kind, keys, nokey);
      && s.nextNode <= t.nextNode && Joins(Waiters(s, k), Waiters(t, k), c, s.nextNode)
      && c in t.clients && t.clients == s.clients[c := t.clients[c]]
      && t.batch == s.batch && t.queue == s.queue
  {
    hide Joins;
    var marked := SetNokey(s, c, nokey);
    AddKeysJoins(marked, c, keys, nokey, k);
    AddKeysQueues(marked, c, keys, nokey);
  }

  lemma {:induction false} AddKeysQueues(s: State, c: nat, keys: seq<Key>, nokey: bool)
    requires c in s.clients
    ensures var t := AddKeys(s, c, keys, nokey); t.batch == s.batch && t.queue == s.queue
    decreases |keys|
  {
    if keys != [] {
      AddKeysQueues(s, c, keys[..|keys| - 1], nokey);
    }
  }

  /** The node that follows `node`. */
  function Successor(list: seq<Node>, node: Node): (r: seq<Node>)
    ensures |r| <= 1
  {
    if list == [] then []
    else if list[0] == node then (if |list| > 1 then [list[1]] else [])
    else Successor(list[1..], node)
  }

  lemma {:induction false} SuccessorOf(front: seq<Node>, node: Node, back: seq<Node>)
    requires node !in front
    ensures Successor(front + [node] + back, node) == back[..if back == [] then 0 else 1]
    decreases |front|
  {
    var list := front + [node] + back;
    if front == [] {
      assert list[0] == node && list[1..] == back;
    } else {
      assert list[1..] == front[1..] + [node] + back;
      SuccessorOf(front[1..], node, back);
    }
  }

  lemma {:induction false} OthersOfOne(front: seq<Node>, node: Node, back: seq<Node>)
    requires forall n :: n in front + back ==> n.client != node.client
    ensures Others(front + [node] + back, node.client) == front + back
    decreases |front|
  {
    var list := front + [node] + back;
    if front == [] {
      assert list[0] == node && list[1..] == back && front + back == back;
      OthersOfStranger(back, node.client);
    } else {
      assert list[1..] == front[1..] + [node] + back;
      assert front + back == [front[0]] + (front[1..] + back);
      OthersOfOne(front[1..], node, back);
    }
  }

  /** A waiter is blocked, remembers the key, and stands once in the list. */
  lemma WaiterFacts(s: State, k: Key, front: seq<Node>, node: Node, back: seq<Node>)
    requires Agree(s) && Waiters(s, k) == front + [node] + back
    ensures node.client in s.clients && s.clients[node.client].blocked && k in s.clients[node.client].keys
    ensures forall n :: n in front + back ==> n.client != node.client
  {
    var list := Waiters(s, k);
    assert list[|front|] == node;
    assert ListPointsBack(s, k, list);
    assert ClientAgrees(s.clients[node.client]);
    forall n | n in front + back
      ensures n.client != node.client
    {
      var i :| 0 <= i < |front + back| && (front + back)[i] == n;
      var j := if i < |front| then i else i + 1;
      assert list[j] == n && j != |front|;
    }
  }

  /** The waiters passed over among the first `i`; modules look after their own clients. */
  ghost function Passed(list: seq<Node>, script: seq<Turn>, clients: map<nat, Client>, i: nat): seq<Node>
    requires i <= |list| && i <= |script|
  {
    if i == 0 then []
    else Passed(list, script, clients, i - 1) + if Served(list[i - 1], script[i - 1], clients) then [] else [list[i - 1]]
  }

  predicate Served(node: Node, turn: Turn, clients: map<nat, Client>) {
    && node.client in clients && clients[node.client].kind != OnModule
    && Suits(clients[node.client], turn.held)
  }

  ghost predicate AllFrom(list: seq<Node>, from: nat) {
    forall i :: 0 <= i < |list| ==> list[i].id >= from
  }

  function Clients(list: seq<Node>): (r: seq<nat>)
    ensures |r| == |list|
  {
    seq(|list|, i requires 0 <= i < |list| => list[i].client)
  }

  // ----- the loops -----

  /** What a command signals while it runs. */
  method SignalAll(server: Server, signals: seq<Signalled>)
    requires server.Valid()
    modifies server
    ensures server.Valid()
    ensures server.View() == old(server.View()).(ready := server.ready, queue := server.queue)
  {
    hide Agree;
    for i := 0 to |signals|
      invariant server.Valid()
      invariant server.View() == old(server.View()).(ready := server.ready, queue := server.queue)
    {
      if signals[i].kind != NotBlocked {
        server.SignalKey(signals[i].k, signals[i].kind, signals[i].deleted);
      }
    }
  }

  /** How the client stands after its command: blocked for what the command waits for, or to go on. */
  ghost predicate Stands(s: State, c: nat, again: Wait) {
    && c in s.clients && s.clients[c].kind == again.kind
    && (again.kind == NotBlocked && !s.clients[c].isModule ==> c in s.unblocked)
    && (OnKeys(again.kind) ==> s.clients[c].keys.Keys == set x | x in again.keys)
  }

  /** What the command of a client just unblocked ends in. */
  method EndCommand(server: Server, c: nat, k: Key, again: Wait)
    requires server.Valid() && c in server.clients && !server.clients[c].blocked
    modifies server
    ensures server.Valid() && server.batch == old(server.batch) && old(server.nextNode) <= server.nextNode
    ensures Joins(old(Waiters(server.View(), k)), Waiters(server.View(), k), c, old(server.nextNode))
    ensures c in server.clients && server.clients == old(server.clients)[c := server.clients[c]]
    ensures Stands(server.View(), c, again)
  {
    hide Agree, Joins, BlockForKeys, Block, Requeue, WaitsForAll;
    ghost var t := server.View();
    JoinsNothing(Waiters(t, k), c, t.nextNode);
    NotWaiting(t, c);
    IdleKind(t, c);
    if OnKeys(again.kind) {
      server.BlockForKeysOf(c, again.kind, again.keys, again.nokey);
      BlockForKeysJoins(t, c, again.kind, again.keys, again.nokey, k);
      WaitsKeys(t, server.View(), c, again.keys);
    } else if again.kind != NotBlocked {
      KindCounted(t, again.kind);
      server.BlockClient(c, again.kind);
      BlockIs(t, c, again.kind);
    } else if !server.clients[c].isModule {
      RequeueIs(t, c);
      server.QueueForReprocessing(c);
    }
  }

  lemma WaitsKeys(s: State, t: State, c: nat, keys: seq<Key>)
    requires WaitsForAll(s, t, c, keys)
    ensures c in t.clients && t.clients[c].keys.Keys == set x | x in keys
  {
  }

  lemma IdleKind(s: State, c: nat)
    requires Agree(s) && c in s.clients && !s.clients[c].blocked
    ensures s.clients[c].kind == NotBlocked
  {
    assert ClientAgrees(s.clients[c]);
  }

  lemma RequeueIs(s: State, c: nat)
    requires Agree(s) && c in s.clients
    ensures var t := Requeue(s, c);
      && c in t.clients && t.clients == s.clients[c := s.clients[c].(queued := true)] && c in t.unblocked
      && t.blocking == s.blocking && t.batch == s.batch && t.nextNode == s.nextNode
  {
  }

  /** unblockClientOnKey with the command it runs. */
  method ServeClient(server: Server, c: nat, k: Key, turn: Turn)
    requires server.Valid() && c in server.clients && server.clients[c].blocked && k in server.clients[c].keys
    modifies server
    ensures server.Valid() && server.batch == old(server.batch) && old(server.nextNode) <= server.nextNode
    ensures Joins(Others(old(Waiters(server.View(), k)), c), Waiters(server.View(), k), c, old(server.nextNode))
    ensures c in server.clients && server.clients == old(server.clients)[c := server.clients[c]]
    ensures Stands(server.View(), c, turn.again)
  {
    hide Agree, Joins, Unblock, Others, Freed, Stands;
    ghost var s := server.View();
    server.UnblockClientOnKey(c, k);
    UnblockIs(s, c, k);
    SignalAll(server, turn.signals);
    EndCommand(server, c, k, turn.again);
  }

  lemma KindCounted(s: State, kind: Kind)
    requires Agree(s) && kind != NotBlocked
    ensures kind in s.byKind
  {
    CounterExists(s, kind);
  }

  lemma JoinsNothing(list: seq<Node>, c: nat, from: nat)
    ensures Joins(list, list, c, from)
  {
  }

  lemma UnblockIs(s: State, c: nat, k: Key)
    requires c in s.clients && s.clients[c].kind in s.byKind
    ensures var t := Unblock(s, c, false);
      && c in t.clients && !t.clients[c].blocked && t.clients[c].keys == map[]
      && t.clients == s.clients[c := t.clients[c]]
      && t.nextNode == s.nextNode && t.batch == s.batch
      && Waiters(t, k) == Others(Waiters(s, k), c)
  {
  }

  /** The clients of the waiters from `i` on are as they were. */
  ghost predicate Untouched(list: seq<Node>, i: nat, before: map<nat, Client>, after: map<nat, Client>) {
    forall j :: i <= j < |list| ==>
      list[j].client in before && list[j].client in after && after[list[j].client] == before[list[j].client]
  }

  lemma Regroup(front: seq<Node>, list: seq<Node>, i: nat, joined: seq<Node>)
    requires i < |list|
    ensures front + list[i..] + joined == front + [list[i]] + (list[i + 1..] + joined)
    ensures front + (list[i + 1..] + joined) == front + list[i + 1..] + joined
    ensures front + [list[i]] + list[i + 1..] + joined == front + [list[i]] + (list[i + 1..] + joined)
  {
  }

  /**
   The state when `i` of the waiters in `list` have been looked at: those passed over stand first,
   then those still to come, then those that joined meanwhile.
   */
  ghost predicate Progress(s0: State, t: State, k: Key, script: seq<Turn>, i: nat, joined: seq<Node>) {
    var list := Waiters(s0, k);
    && i <= |list| && i <= |script| && s0.nextNode <= t.nextNode && t.batch == s0.batch
    && Waiters(t, k) == Passed(list, script, s0.clients, i) + list[i..] + joined
    && AllFrom(joined, s0.nextNode) && Untouched(list, i, s0.clients, t.clients)
  }

  /** One waiter: served, or left where it stands. */
  method TakeTurn(server: Server, k: Key, node: Node, script: seq<Turn>, i: nat, ghost joined0: seq<Node>, ghost s0: State)
    returns (ghost joined: seq<Node>)
    requires server.Valid() && Progress(s0, server.View(), k, script, i, joined0)
    requires i < |script| && i < |Waiters(s0, k)| && node == Waiters(s0, k)[i]
    modifies server
    ensures server.Valid() && Progress(s0, server.View(), k, script, i + 1, joined)
  {
    hide Agree, Others, Passed;
    ghost var list := Waiters(s0, k);
    ghost var front, back := Passed(list, script, s0.clients, i), list[i + 1..] + joined0;
    Regroup(front, list, i, joined0);
    WaiterFacts(server.View(), k, front, node, back);
    PassedNext(list, script, s0.clients, i);
    joined := joined0;
    assert node.client in s0.clients && server.clients[node.client] == s0.clients[node.client];
    assert forall j :: i < j < |list| ==> list[i + 1..][j - i - 1] == list[j] && list[j] in back;
    var receiver, o := server.clients[node.client], script[i].held;
    var wanted := (o.Some? && receiver.kind == o.value) || (o.Some? && receiver.kind == OnModule) || receiver.nokey;
    if wanted && receiver.kind != OnModule {
      OthersOfOne(front, node, back);
      ServeClient(server, node.client, k, script[i]);
      ghost var after := Waiters(server.View(), k);
      joined := joined0 + after[|front + back|..];
      assert front + [] == front;
      assert after == front + back + after[|front + back|..];
    }
  }

  /** Where the iterator goes next. */
  lemma NextWaiter(s0: State, t: State, k: Key, script: seq<Turn>, i: nat, joined: seq<Node>)
    requires Agree(t) && Progress(s0, t, k, script, i, joined) && i < |Waiters(s0, k)|
    ensures var list := Waiters(s0, k);
      k in t.blocking && (i + 1 < |list| ==> Successor(t.blocking[k], list[i]) == [list[i + 1]])
  {
    hide Passed, Agree;
    var list := Waiters(s0, k);
    var front, back := Passed(list, script, s0.clients, i), list[i + 1..] + joined;
    Regroup(front, list, i, joined);
    WaiterFacts(t, k, front, list[i], back);
    SuccessorOf(front, list[i], back);
    assert i + 1 < |list| ==> back[0] == list[i + 1];
  }

  /**
   handleClientsBlockedOnKey: the waiters present at the start are looked at in the order they
   came, each once and no others, however the commands that are served block again. Those not
   served keep their places, ahead of those that joined meanwhile.
   */
  method HandleClientsBlockedOnKey(server: Server, k: Key, script: seq<Turn>)
    returns (looked: seq<nat>, ghost joined: seq<Node>)
    requires server.Valid()
    modifies server
    ensures var list, n := old(Waiters(server.View(), k)), |looked|;
      && n == (if |list| <= |script| then |list| else |script|)
      && looked == Clients(list)[..n]
    ensures server.Valid() && Progress(old(server.View()), server.View(), k, script, |looked|, joined)
    ensures looked == [] ==> server.View() == old(server.View())
  {
    hide Agree, Progress, Successor, Clients;
    ghost var s0, list := server.View(), Waiters(server.View(), k);
    looked, joined := [], [];
    ProgressStarts(s0, k, script);
    if k !in server.blocking {
      return;
    }
    var count, next := |server.blocking[k]|, server.blocking[k][..1];
    var i := 0;
    while next != [] && count != 0 && i < |script|
      invariant 0 <= i <= |script| && 0 <= count && i + count == |list| && |next| <= 1
      invariant i < |list| ==> next == [list[i]]
      invariant looked == Clients(list)[..i] && (i == 0 ==> server.View() == s0)
      invariant server.Valid() && Progress(s0, server.View(), k, script, i, joined)
      decreases |script| - i
    {
      var node := next[0];
      NextWaiter(s0, server.View(), k, script, i, joined);
      next := Successor(server.blocking[k], node);
      joined := TakeTurn(server, k, node, script, i, joined, s0);
      ClientsNext(list, i);
      looked := looked + [node.client];
      count, i := count - 1, i + 1;
    }
  }

  lemma ProgressStarts(s: State, k: Key, script: seq<Turn>)
    requires Agree(s)
    ensures Progress(s, s, k, script, 0, []) && Clients(Waiters(s, k))[..0] == []
    ensures k in s.blocking ==> s.blocking[k] != []
  {
    var list := Waiters(s, k);
    if k in s.blocking {
      assert ListPointsBack(s, k, list);
    }
    assert [] + list[0..] + [] == list;
  }

  lemma ClientsNext(list: seq<Node>, i: nat)
    requires i < |list|
    ensures Clients(list)[..i + 1] == Clients(list)[..i] + [list[i].client]
  {
  }

  lemma PassedNext(list: seq<Node>, script: seq<Turn>, clients: map<nat, Client>, i: nat)
    requires i < |list| && i < |script|
    ensures Passed(list, script, clients, i + 1)
         == Passed(list, script, clients, i) + if Served(list[i], script[i], clients) then [] else [list[i]]
  {
  }

  /**
   handleClientsBlockedOnKeys, called when no other call is under way: unless the script runs out
   first, it returns with no key left over, neither queued nor marked ready.
   */
  method HandleClientsBlockedOnKeys(server: Server, script: seq<Turn>) returns (used: nat, done: bool)
    requires server.Valid() && server.batch == []
    modifies server
    ensures server.Valid() && used <= |script|
    ensures done ==> server.ready == {} && server.queue == [] && server.batch == []
    ensures !done ==> used == |script|
  {
    hide Agree, Progress, Clients;
    used := 0;
    while server.queue != []
      invariant server.Valid() && server.batch == [] && used <= |script|
      decreases |script| - used, |server.queue|
    {
      ghost var used0 := used;
      TakeBatchKeeps(server.View());
      server.batch, server.queue := server.queue, [];
      while server.batch != []
        invariant server.Valid() && used <= |script|
        invariant used > used0 || server.queue == []
        decreases |script| - used, |server.batch|
      {
        TakeKeyKeeps(server.View());
        var k := server.batch[0];
        server.ready, server.batch := server.ready - {k}, server.batch[1..];
        var waiters := if k in server.blocking then |server.blocking[k]| else 0;
        ghost var t := server.View();
        var looked, joined := HandleClientsBlockedOnKey(server, k, script[used..]);
        ProgressBatch(t, server.View(), k, script[used..], |looked|, joined);
        used := used + |looked|;
        if |looked| < waiters {
          return used, false;
        }
      }
    }
    NothingReady(server.View());
    done := true;
  }

  lemma ProgressBatch(s0: State, t: State, k: Key, script: seq<Turn>, i: nat, joined: seq<Node>)
    requires Progress(s0, t, k, script, i, joined)
    ensures t.batch == s0.batch
  {
  }

  lemma NothingReady(s: State)
    requires Agree(s) && s.queue == [] && s.batch == []
    ensures s.ready == {}
  {
  }
}
