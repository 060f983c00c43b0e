/**
 The records of blocked.c as the server changes them in place. Each method does what the source
 does, one key and one list node at a time, and ends in the state that `Blocked` says it should;
 on the way it shows that the assertions in the source cannot fail.
 */
module BlockedServer {
  import opened Blocked

  /** The list left when the node with this identity is unlinked. */
  function Unlink(list: seq<Node>, id: nat): seq<Node> {
    if list == [] then []
    else if list[0].id == id then list[1..]
    else [list[0]] + Unlink(list[1..], id)
  }

  lemma {:induction false} OthersOfStranger(list: seq<Node>, c: nat)
    requires forall n :: n in list ==> n.client != c
    ensures Others(list, c) == list
    decreases |list|
  {
    if list != [] {
      OthersOfStranger(list[1..], c);
    }
  }

  /** Unlinking a client's only node removes the client. */
  lemma {:induction false} UnlinkIsOthers(list: seq<Node>, c: nat, id: nat)
    requires Increasing(list) && Node(id, c) in list
    requires forall n :: n in list && n.client == c ==> n.id == id
    ensures Unlink(list, id) == Others(list, c)
    decreases |list|
  {
    assert forall n :: n in list[1..] ==> list[0].id < n.id;
    if list[0].id == id {
      assert list[0] == Node(id, c);
      OthersOfStranger(list[1..], c);
    } else {
      UnlinkIsOthers(list[1..], c, id);
    }
  }

  /** Taking a client out takes its own watch off the count, and no other. */
  lemma {:induction false} WatchersOfOthers(list: seq<Node>, c: nat, id: nat, clients: map<nat, Client>)
    requires Increasing(list) && Node(id, c) in list
    requires forall n :: n in list && n.client == c ==> n.id == id
    ensures Watchers(Others(list, c), clients) + One(Watches(c, clients)) == Watchers(list, clients)
    decreases |list|
  {
    hide Others, Watchers, Watches;
    var last, front := list[|list| - 1], list[..|list| - 1];
    assert list == front + [last];
    assert forall n :: n in front ==> n.id < last.id;
    OthersAppend(front, last, c);
    WatchersAppend(front, last, clients);
    if last.client == c {
      OthersOfStranger(front, c);
      assert front + [] == front;
    } else {
      WatchersOfOthers(front, c, id, clients);
      WatchersAppend(Others(front, c), last, clients);
    }
  }

  lemma {:induction false} OthersAppend(list: seq<Node>, n: Node, c: nat)
    ensures Others(list + [n], c) == Others(list, c) + if n.client == c then [] else [n]
    decreases |list|
  {
    if list != [] {
      assert (list + [n])[1..] == list[1..] + [n];
      OthersAppend(list[1..], n, c);
    }
  }

  // ----- a client partly released -----

  function Watched(nokeys: map<Key, nat>, k: Key): map<Key, nat> {
    nokeys[k := if k in nokeys then nokeys[k] + 1 else 1]
  }

  function Left(list: seq<Node>, c: nat, released: bool): seq<Node> {
    if released then Others(list, c) else list
  }

  /** The client is out of the lists of `done`. */
  ghost predicate Partly(s: State, t: State, c: nat, done: set<Key>) {
    && c in s.clients && c in t.clients
    && t == s.(clients := s.clients[c := s.clients[c].(keys := t.clients[c].keys)], blocking := t.blocking, nokeys := t.nokeys)
    && (forall k :: k in t.blocking <==> k in s.blocking && Left(s.blocking[k], c, k in done) != [])
    && (forall k :: k in t.blocking ==> t.blocking[k] == Left(s.blocking[k], c, k in done))
    && forall k :: CountAgrees(t, k)
  }

  lemma PartlyStarts(s: State, c: nat)
    requires KeysAgree(s) && c in s.clients
    ensures Partly(s, s, c, {})
  {
    hide CountAgrees;
    forall k | k in s.blocking
      ensures s.blocking[k] != []
    {
      assert ListPointsBack(s, k, s.blocking[k]);
    }
  }

  /** Nothing in the client's own map matters to the lists and counts. */
  lemma PartlyForgets(s: State, t: State, c: nat, done: set<Key>, keys: map<Key, nat>)
    requires Partly(s, t, c, done)
    ensures Partly(s, t.(clients := t.clients[c := t.clients[c].(keys := keys)]), c, done)
  {
    hide Watchers, Left;
    var u := t.(clients := t.clients[c := t.clients[c].(keys := keys)]);
    forall k
      ensures CountAgrees(u, k)
    {
      assert CountAgrees(t, k);
      if k in t.blocking {
        WatchersSame(t.blocking[k], t.clients, u.clients);
      }
    }
  }

  /** The facts about one waiting client that releasing its entry relies on. */
  lemma EntryFacts(s: State, c: nat, k: Key)
    requires KeysAgree(s) && c in s.clients && k in s.clients[c].keys
    ensures k in s.blocking && Increasing(s.blocking[k]) && Node(s.clients[c].keys[k], c) in s.blocking[k]
    ensures forall n :: n in s.blocking[k] && n.client == c ==> n.id == s.clients[c].keys[k]
  {
    assert ListPointsBack(s, k, s.blocking[k]);
  }

  /** When every key is done, the client is out of every list. */
  lemma PartlyEnds(s: State, t: State, c: nat)
    requires KeysAgree(s) && c in s.clients && Partly(s, t, c, s.clients[c].keys.Keys)
    ensures t.blocking == Without(s.blocking, c)
  {
    hide Others, CountAgrees;
    forall k | k in s.blocking
      ensures Left(s.blocking[k], c, k in s.clients[c].keys.Keys) == Others(s.blocking[k], c)
    {
      if k !in s.clients[c].keys {
        NotInList(s, c, k);
        OthersOfStranger(s.blocking[k], c);
      }
    }
  }

  /** Then its flag is counted nowhere. */
  lemma CountsWithout(s: State, t: State, c: nat, clients: map<nat, Client>)
    requires forall k :: CountAgrees(t, k)
    requires t.blocking == Without(s.blocking, c)
    requires forall c' :: c' != c ==> Watches(c', clients) == Watches(c', t.clients)
    ensures t.nokeys == Counts(t.blocking, clients)
  {
    hide Others, Watchers, Watches;
    forall k | k in t.blocking
      ensures Watchers(t.blocking[k], clients) == Watchers(t.blocking[k], t.clients)
    {
      WatchersSame(t.blocking[k], t.clients, clients);
    }
    forall k
      ensures k in t.nokeys <==> k in Counts(t.blocking, clients)
      ensures k in t.nokeys ==> t.nokeys[k] == Counts(t.blocking, clients)[k]
    {
      assert CountAgrees(t, k);
    }
  }

  /**
   releaseBlockedEntry: unlink the client's node; a list left empty goes with its count, and
   otherwise the count follows if the client was watching. The preconditions are the source's
   two assertions.
   */
  function Released(t: State, c: nat, k: Key): State
    requires c in t.clients && k in t.clients[c].keys && k in t.blocking
    requires t.clients[c].nokey ==> k in t.nokeys && t.nokeys[k] > 0
  {
    var rest := Unlink(t.blocking[k], t.clients[c].keys[k]);
    if rest == [] then t.(blocking := t.blocking - {k}, nokeys := t.nokeys - {k})
    else if !t.clients[c].nokey then t.(blocking := t.blocking[k := rest])
    else if t.nokeys[k] == 1 then t.(blocking := t.blocking[k := rest], nokeys := t.nokeys - {k})
    else t.(blocking := t.blocking[k := rest], nokeys := t.nokeys[k := t.nokeys[k] - 1])
  }

  /** The source's assertions hold. */
  lemma ReleasePossible(s: State, t: State, c: nat, done: set<Key>, k: Key)
    requires KeysAgree(s) && Partly(s, t, c, done)
    requires k in s.clients[c].keys && k !in done && k in t.clients[c].keys && t.clients[c].keys[k] == s.clients[c].keys[k]
    ensures k in t.blocking && t.blocking[k] == s.blocking[k]
    ensures Unlink(t.blocking[k], t.clients[c].keys[k]) == Others(s.blocking[k], c)
    ensures Watchers(Others(s.blocking[k], c), t.clients) + One(t.clients[c].nokey) == Watchers(s.blocking[k], t.clients)
    ensures t.clients[c].nokey ==> k in t.nokeys && t.nokeys[k] > 0
    ensures k in t.nokeys ==> t.nokeys[k] == Watchers(s.blocking[k], t.clients)
    ensures k !in t.nokeys ==> Watchers(s.blocking[k], t.clients) == 0
  {
    hide Others, Watchers, Unlink;
    EntryFacts(s, c, k);
    UnlinkIsOthers(s.blocking[k], c, t.clients[c].keys[k]);
    WatchersOfOthers(s.blocking[k], c, t.clients[c].keys[k], t.clients);
    assert CountAgrees(t, k);
  }

  lemma PartlyStep(s: State, t: State, c: nat, done: set<Key>, k: Key)
    requires KeysAgree(s) && Partly(s, t, c, done)
    requires k in s.clients[c].keys && k !in done && k in t.clients[c].keys && t.clients[c].keys[k] == s.clients[c].keys[k]
    requires k in t.blocking && (t.clients[c].nokey ==> k in t.nokeys && t.nokeys[k] > 0)
    ensures Partly(s, Released(t, c, k), c, done + {k})
  {
    hide Others, Watchers, Unlink, KeysAgree;
    ReleasePossible(s, t, c, done, k);
    var u := Released(t, c, k);
    EmptyWatchers(t.clients);
    forall k'
      ensures CountAgrees(u, k')
    {
      assert CountAgrees(t, k');
    }
  }

  lemma AddKeysNext(s: State, c: nat, keys: seq<Key>, nokey: bool, j: nat)
    requires c in s.clients && j < |keys|
    ensures AddKeys(s, c, keys[..j + 1], nokey) == AddKey(AddKeys(s, c, keys[..j], nokey), c, keys[j], nokey)
  {
    hide AddKey;
    assert keys[..j + 1][..j] == keys[..j];
  }

  lemma AddNoKeys(s: State, c: nat, nokey: bool)
    requires c in s.clients
    ensures AddKeys(s, c, [], nokey) == s
  {
  }

  function Cleared(t: State, c: nat, requeue: bool): State
    requires c in t.clients && t.clients[c].kind in t.byKind
  {
    var client := t.clients[c];
    t.(clients := t.clients[c := client.(blocked := false, kind := NotBlocked, nokey := false,
                                         queued := client.queued || requeue)],
       regular := if client.isModule then t.regular else t.regular - 1,
       byKind := t.byKind[client.kind := t.byKind[client.kind] - 1],
       unblocked := if requeue && !client.queued then t.unblocked + [c] else t.unblocked)
  }

  lemma ClearedIsUnblock(s: State, t: State, c: nat, requeue: bool)
    requires KeysAgree(s) && c in s.clients && s.clients[c].kind in s.byKind
    requires Partly(s, t, c, s.clients[c].keys.Keys) && t.clients[c].keys == map[]
    ensures Cleared(t, c, requeue) == Unblock(s, c, requeue)
  {
    hide Partly, KeysAgree, Without, Counts, CountAgrees;
    PartlyEnds(s, t, c);
    PartlyFields(s, t, c, s.clients[c].keys.Keys);
    var u := Unblock(s, c, requeue);
    assert Cleared(t, c, requeue).clients == u.clients;
    CountsWithout(s, t, c, u.clients);
  }

  class Server {
    var clients: map<nat, Client>
    var blocking: map<Key, seq<Node>>
    var nokeys: map<Key, nat>
    var nextNode: nat
    var regular: int
    var byKind: map<Kind, int>
    var ready: set<Key>
    var queue: seq<Key>
    var batch: seq<Key>
    var unblocked: seq<nat>

    ghost function View(): State
      reads this
    {
      State(clients, blocking, nokeys, nextNode, regular, byKind, ready, queue, batch, unblocked)
    }

    ghost predicate Valid()
      reads this
    {
      Agree(View())
    }

    constructor ()
      ensures Valid() && View() == Start()
    {
      var none := Start();
      clients, blocking, nokeys, nextNode := map[], map[], map[], 0;
      regular, byKind := 0, none.byKind;
      ready, queue, batch, unblocked := {}, [], [], [];
      new;
      StartAgrees();
    }

    /** blockClient, for the kinds that do not wait for keys. */
    method BlockClient(c: nat, kind: Kind)
      requires c in clients && kind in byKind
      modifies this
      ensures View() == Block(old(View()), c, kind)
      ensures kind != NotBlocked && old(Valid() && !clients[c].blocked && (clients[c].keys == map[] || OnKeys(kind))) ==>
        Valid()
    {
      hide Agree, Block;
      ghost var s := View();
      if Agree(s) && kind != NotBlocked && !clients[c].blocked && (clients[c].keys == map[] || OnKeys(kind)) {
        BlockKeeps(s, c, kind);
      }
      BlockIs(s, c, kind);
      var client := clients[c];
      clients := clients[c := client.(blocked := true, kind := kind)];
      if !client.isModule {
        regular := regular + 1;
      }
      byKind := byKind[kind := byKind[kind] + 1];
    }

    /** One key of blockForKeys. */
    method WaitForKey(c: nat, k: Key, nokey: bool)
      requires c in clients
      modifies this
      ensures View() == AddKey(old(View()), c, k, nokey) && c in clients && k in clients[c].keys
      ensures old(KeysAgree(View())) && old(clients[c].nokey) == nokey ==>
        KeysAgree(View()) && OnlyKeysDiffer(old(View()), View(), c)
    {
      hide KeysAgree, OnlyKeysDiffer, AddKey;
      ghost var s := View();
      if KeysAgree(s) && clients[c].nokey == nokey {
        AddKeyKeeps(s, c, k);
      }
      AddKeyIs(s, c, k, nokey);
      if k in clients[c].keys {
        return;
      }
      var waiters, watching := [], nokeys;
      if k in blocking {
        waiters := blocking[k];
      }
      if nokey {
        watching := Watched(watching, k);
      }
      blocking, nokeys := blocking[k := waiters + [Node(nextNode, c)]], watching;
      clients := clients[c := clients[c].(keys := clients[c].keys[k := nextNode])];
      nextNode := nextNode + 1;
      assert View() == AddKey(s, c, k, nokey);
    }

    method BlockForKeysOf(c: nat, kind: Kind, keys: seq<Key>, nokey: bool)
      requires Valid() && c in clients && !clients[c].blocked && OnKeys(kind)
      modifies this
      ensures Valid() && kind in old(byKind) && View() == BlockForKeys(old(View()), c, kind, keys, nokey)
      ensures WaitsForAll(old(View()), View(), c, keys)
      ensures clients[c].blocked && clients[c].kind == kind && clients[c].nokey == nokey
    {
      NotWaiting(View(), c);
      BlockForKeysWaits(View(), c, kind, keys, nokey);
      hide Agree, AddKey, Block, AddKeys, WaitsForAll;
      ghost var s := View();
      BlockForKeysKeeps(s, c, kind, keys, nokey);
      clients := clients[c := clients[c].(nokey := nokey)];
      AddNoKeys(View(), c, nokey);
      assert keys[..0] == [];
      for j := 0 to |keys|
        invariant c in clients && byKind == s.byKind
        invariant View() == AddKeys(SetNokey(s, c, nokey), c, keys[..j], nokey)
      {
        AddKeysNext(SetNokey(s, c, nokey), c, keys, nokey, j);
        WaitForKey(c, keys[j], nokey);
      }
      assert keys[..|keys|] == keys;
      BlockClient(c, kind);
    }

    /**
     releaseBlockedEntry, for a client out of the lists of `done`: afterwards it is out of the
     list of `k` too, and every count is right.
     */
    method ReleaseEntry(c: nat, k: Key, ghost s: State, ghost done: set<Key>)
      requires KeysAgree(s) && Partly(s, View(), c, done) && k in s.clients[c].keys && k !in done
      requires k in clients[c].keys && clients[c].keys[k] == s.clients[c].keys[k]
      modifies this
      ensures Partly(s, View(), c, done + {k}) && clients == old(clients)
    {
      hide KeysAgree, Partly;
      PartlyClient(s, View(), c, done);
      ReleasePossible(s, View(), c, done, k);
      PartlyStep(s, View(), c, done, k);
      assert k in blocking;
      var rest := Unlink(blocking[k], clients[c].keys[k]);
      if rest == [] {
        blocking, nokeys := blocking - {k}, nokeys - {k};
      } else {
        blocking := blocking[k := rest];
        if clients[c].nokey {
          assert k in nokeys;
          if nokeys[k] == 1 {
            nokeys := nokeys - {k};
          } else {
            nokeys := nokeys[k := nokeys[k] - 1];
          }
        }
      }
    }

    /** unblockClientWaitingData: the keys of the client come in the order of its map. */
    method ReleaseAll(c: nat, ghost s: State, ghost done0: set<Key>)
      requires KeysAgree(s) && Partly(s, View(), c, done0)
      requires clients[c].keys == s.clients[c].keys - done0
      modifies this
      ensures Partly(s, View(), c, done0 + s.clients[c].keys.Keys) && c in clients && clients[c].keys == map[]
    {
      hide KeysAgree, Partly, Released;
      PartlyClient(s, View(), c, done0);
      var todo := clients[c].keys.Keys;
      ghost var done := done0;
      while todo != {}
        invariant c in clients && c in s.clients && todo <= clients[c].keys.Keys && clients[c].keys == s.clients[c].keys - done0
        invariant Partly(s, View(), c, done) && done + todo == done0 + s.clients[c].keys.Keys && done !! todo
        decreases todo
      {
        var k :| k in todo;
        ReleaseEntry(c, k, s, done);
        done := done + {k};
        PartlyClient(s, View(), c, done);
        todo := todo - {k};
      }
      assert done == done0 + s.clients[c].keys.Keys;
      PartlyForgets(s, View(), c, done, map[]);
      clients := clients[c := clients[c].(keys := map[])];
    }

    /** The counters, the flags and the queue, at the end of unblockClient. */
    method ClearFlags(c: nat, requeue: bool)
      requires c in clients && clients[c].kind in byKind
      modifies this
      ensures View() == Cleared(old(View()), c, requeue)
    {
      var client := clients[c];
      if !client.isModule {
        regular := regular - 1;
      }
      byKind := byKind[client.kind := byKind[client.kind] - 1];
      clients := clients[c := client.(blocked := false, kind := NotBlocked, nokey := false)];
      if requeue {
        if !clients[c].queued {
          clients := clients[c := clients[c].(queued := true)];
          unblocked := unblocked + [c];
        }
      }
    }

    /** unblockClient, from a client out of the lists of `done` to one out of all of them. */
    method UnblockFrom(c: nat, requeue: bool, ghost s: State, ghost done: set<Key>)
      requires Agree(s) && Partly(s, View(), c, done) && done <= s.clients[c].keys.Keys
      requires clients[c].keys == s.clients[c].keys - done && s.clients[c].blocked
      modifies this
      ensures s.clients[c].kind in s.byKind && View() == Unblock(s, c, requeue)
    {
      hide Partly, KeysAgree, CountersAgree, ReadyAgrees, UnblockedAgrees, Unblock, Cleared;
      PartlyClient(s, View(), c, done);
      CounterExists(s, s.clients[c].kind);
      ReleaseAll(c, s, done);
      assert done + s.clients[c].keys.Keys == s.clients[c].keys.Keys;
      PartlyFields(s, View(), c, s.clients[c].keys.Keys);
      ClearedIsUnblock(s, View(), c, requeue);
      ClearFlags(c, requeue);
    }

    method UnblockClient(c: nat, requeue: bool)
      requires Valid() && c in clients && clients[c].blocked
      modifies this
      ensures Valid() && old(clients[c].kind) in old(byKind) && View() == Unblock(old(View()), c, requeue)
      ensures Freed(old(View()), View(), c, requeue)
    {
      hide Freed;
      hide KeysAgree, CountersAgree, ReadyAgrees, UnblockedAgrees, Unblock;
      ghost var s := View();
      UnblockKeeps(s, c, requeue);
      PartlyStarts(s, c);
      assert clients[c].keys == clients[c].keys - {};
      UnblockFrom(c, requeue, s, {});
    }

    /**
     unblockClientOnKey, up to the reprocessing of the command: the key served is released first
     and the others with it.
     */
    method UnblockClientOnKey(c: nat, k: Key)
      requires Valid() && c in clients && clients[c].blocked && k in clients[c].keys
      modifies this
      ensures Valid() && old(clients[c].kind) in old(byKind) && View() == Unblock(old(View()), c, false)
      ensures Freed(old(View()), View(), c, false)
    {
      hide Freed;
      hide KeysAgree, CountersAgree, ReadyAgrees, UnblockedAgrees, Unblock, Released, Partly;
      ghost var s := View();
      UnblockKeeps(s, c, false);
      PartlyStarts(s, c);
      ReleaseEntry(c, k, s, {});
      assert {} + {k} == {k};
      PartlyForgets(s, View(), c, {k}, clients[c].keys - {k});
      clients := clients[c := clients[c].(keys := clients[c].keys - {k})];
      UnblockFrom(c, false, s, {k});
    }

    /** queueClientForReprocessing */
    method QueueForReprocessing(c: nat)
      requires Valid() && c in clients
      modifies this
      ensures Valid() && View() == Requeue(old(View()), c)
    {
      hide Agree;
      RequeueKeeps(View(), c);
      if !clients[c].queued {
        clients := clients[c := clients[c].(queued := true)];
        unblocked := unblocked + [c];
      }
    }

    method SignalKey(k: Key, kind: Kind, deleted: bool)
      requires Valid() && kind != NotBlocked
      modifies this
      ensures Valid() && kind in old(byKind) && OnModule in old(byKind)
      ensures View() == Signal(old(View()), k, kind, deleted)
    {
      hide Agree;
      SignalKeeps(View(), k, kind, deleted);
      if byKind[kind] == 0 && byKind[OnModule] == 0 {
        return;
      }
      if deleted {
        if k !in nokeys {
          return;
        }
      } else if k !in blocking {
        return;
      }
      if k in ready {
        return;
      }
      ready := ready + {k};
      queue := queue + [k];
    }
  }

  lemma NotWaiting(s: State, c: nat)
    requires Agree(s) && c in s.clients && !s.clients[c].blocked
    ensures s.clients[c].keys == map[] && forall kind :: OnKeys(kind) ==> kind in s.byKind
  {
    assert ClientAgrees(s.clients[c]);
  }

  lemma BlockIs(s: State, c: nat, kind: Kind)
    requires c in s.clients && kind in s.byKind
    ensures var client := s.clients[c];
      Block(s, c, kind)
      == s.(clients := s.clients[c := client.(blocked := true, kind := kind)],
            regular := if client.isModule then s.regular else s.regular + 1,
            byKind := s.byKind[kind := s.byKind[kind] + 1])
  {
  }

  lemma AddKeyIs(s: State, c: nat, k: Key, nokey: bool)
    requires c in s.clients
    ensures var client := s.clients[c];
      AddKey(s, c, k, nokey)
      == if k in client.keys then s
         else s.(clients := s.clients[c := client.(keys := client.keys[k := s.nextNode])],
                 blocking := s.blocking[k := Waiters(s, k) + [Node(s.nextNode, c)]],
                 nokeys := if nokey then Watched(s.nokeys, k) else s.nokeys,
                 nextNode := s.nextNode + 1)
  {
  }

  lemma PartlyClient(s: State, t: State, c: nat, done: set<Key>)
    requires Partly(s, t, c, done)
    ensures c in s.clients && c in t.clients
  {
  }

  lemma PartlyFields(s: State, t: State, c: nat, done: set<Key>)
    requires Partly(s, t, c, done)
    ensures c in s.clients && c in t.clients && forall k :: CountAgrees(t, k)
    ensures t == s.(clients := s.clients[c := s.clients[c].(keys := t.clients[c].keys)], blocking := t.blocking, nokeys := t.nokeys)
  {
  }
}
