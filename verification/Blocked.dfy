/**
 Clients blocked on keys (blocked.c). Who waits for what is recorded several times over: in a
 list of waiters per key, in a map of keys per client, in a count per key of the waiters that
 want to hear of its deletion, in counters per kind of blocking, in flags, and in two queues.
 Every step keeps all of these records in agreement.
 */
module Blocked {

  datatype Kind = NotBlocked | OnList | OnZset | OnStream | OnReplicas | OnFsync
                | OnModule | OnPause | OnShutdown | OnLazyfree

  /** A key of one database. */
  datatype Key = Key(db: nat, name: string)

  /** A node of a list of waiters. */
  datatype Node = Node(id: nat, client: nat)

  /**
   A client: its flags, what it is blocked for, and its own map from each key it waits for to
   its node in that key's list.
   */
  datatype Client = Client(blocked: bool, kind: Kind, keys: map<Key, nat>, nokey: bool, queued: bool, isModule: bool)

  datatype State = State(
    clients: map<nat, Client>,
    blocking: map<Key, seq<Node>>,  // the waiters of a key, in the order they came
    nokeys: map<Key, nat>,          // how many of them want to know when the key goes
    nextNode: nat,
    regular: int,                   // blocked clients that are not module clients
    byKind: map<Kind, int>,
    ready: set<Key>,                // keys signalled and not yet served
    queue: seq<Key>,                // the same keys, in the order they were signalled
    batch: seq<Key>,                // those of them taken up for serving
    unblocked: seq<nat>)            // clients whose input is to be looked at again

  predicate OnKeys(kind: Kind) { kind in {OnList, OnZset, OnStream, OnModule} }

  // ----- lists of waiters -----

  predicate Increasing(list: seq<Node>) {
    forall i, j :: 0 <= i < j < |list| ==> list[i].id < list[j].id
  }

  /** The waiters other than `c`. */
  function Others(list: seq<Node>, c: nat): (r: seq<Node>)
    ensures forall n :: n in r <==> n in list && n.client != c
  {
    if list == [] then []
    else if list[0].client == c then Others(list[1..], c)
    else [list[0]] + Others(list[1..], c)
  }

  lemma {:induction false} OthersIncreasing(list: seq<Node>, c: nat)
    requires Increasing(list)
    ensures Increasing(Others(list, c))
    decreases |list|
  {
    if list != [] {
      OthersIncreasing(list[1..], c);
      assert forall n :: n in list[1..] ==> list[0].id < n.id;
    }
  }

  /** The waiters of a key, in the order they came. */
  function Waiters(s: State, k: Key): seq<Node> { if k in s.blocking then s.blocking[k] else [] }

  /** How many waiters asked to be told when the key goes. */
  function Watchers(list: seq<Node>, clients: map<nat, Client>): nat {
    if list == [] then 0
    else Watchers(list[..|list| - 1], clients) + One(Watches(list[|list| - 1].client, clients))
  }

  predicate Watches(c: nat, clients: map<nat, Client>) { c in clients && clients[c].nokey }

  function One(b: bool): nat { if b then 1 else 0 }

  lemma {:induction false} WatchersSame(list: seq<Node>, clients: map<nat, Client>, clients': map<nat, Client>)
    requires forall n :: n in list ==> Watches(n.client, clients) == Watches(n.client, clients')
    ensures Watchers(list, clients) == Watchers(list, clients')
    decreases |list|
  {
    if list != [] {
      WatchersSame(list[..|list| - 1], clients, clients');
    }
  }

  /** The count of watchers of every key, kept only where it is not zero. */
  function Counts(blocking: map<Key, seq<Node>>, clients: map<nat, Client>): map<Key, nat> {
    map k | k in blocking && Watchers(blocking[k], clients) > 0 :: Watchers(blocking[k], clients)
  }

  // ----- agreement -----

  /** Every node of every list is the one its client remembers; no list is empty. */
  ghost predicate ListsPointBack(s: State) {
    forall k :: k in s.blocking ==> ListPointsBack(s, k, s.blocking[k])
  }

  ghost predicate ListPointsBack(s: State, k: Key, list: seq<Node>) {
    && list != [] && Increasing(list)
    && forall n :: n in list ==> n.id < s.nextNode && Remembers(s, n.client, k, n.id)
  }

  predicate Remembers(s: State, c: nat, k: Key, id: nat) {
    c in s.clients && k in s.clients[c].keys && s.clients[c].keys[k] == id
  }

  /** Every key a client remembers has it in its list. */
  ghost predicate KeysPointForward(s: State) {
    forall c, k :: c in s.clients && k in s.clients[c].keys ==>
      k in s.blocking && Node(s.clients[c].keys[k], c) in s.blocking[k]
  }

  predicate ClientAgrees(client: Client) {
    && (client.blocked <==> client.kind != NotBlocked)
    && (client.keys != map[] ==> OnKeys(client.kind))
    && (client.nokey ==> client.blocked)
  }

  ghost predicate ClientsAgree(s: State) {
    forall c :: c in s.clients ==> ClientAgrees(s.clients[c])
  }

  function BlockedAs(clients: map<nat, Client>, kind: Kind): set<nat> {
    set c | c in clients && clients[c].kind == kind
  }

  function BlockedRegular(clients: map<nat, Client>): set<nat> {
    set c | c in clients && clients[c].blocked && !clients[c].isModule
  }

  ghost predicate CountersAgree(s: State) {
    && s.regular == |BlockedRegular(s.clients)|
    && forall kind :: kind != NotBlocked ==> kind in s.byKind && s.byKind[kind] == |BlockedAs(s.clients, kind)|
  }

  predicate Distinct<T(==)>(q: seq<T>) {
    forall i, j :: 0 <= i < j < |q| ==> q[i] != q[j]
  }

  /** A key is marked ready exactly if it is queued, and then it is queued once. */
  ghost predicate ReadyAgrees(s: State) {
    Distinct(s.batch + s.queue) && forall k :: k in s.ready <==> k in s.batch + s.queue
  }

  ghost predicate UnblockedAgrees(s: State) {
    && Distinct(s.unblocked)
    && (forall c :: c in s.unblocked ==> c in s.clients)
    && forall c :: c in s.clients ==> (s.clients[c].queued <==> c in s.unblocked)
  }

  function WatchersOf(blocking: map<Key, seq<Node>>, clients: map<nat, Client>, k: Key): nat {
    if k in blocking then Watchers(blocking[k], clients) else 0
  }

  /** The count of a key's watchers is recorded, unless it is zero. */
  predicate CountAgrees(s: State, k: Key) {
    var n := WatchersOf(s.blocking, s.clients, k);
    if n > 0 then k in s.nokeys && s.nokeys[k] == n else k !in s.nokeys
  }

  /** The records about keys. */
  ghost predicate KeysAgree(s: State) {
    ListsPointBack(s) && KeysPointForward(s) && forall k :: CountAgrees(s, k)
  }

  ghost predicate Agree(s: State) {
    && KeysAgree(s)
    && ClientsAgree(s)
    && CountersAgree(s)
    && ReadyAgrees(s)
    && UnblockedAgrees(s)
  }

  // ----- what agreement means -----

  function Occurrences(list: seq<Node>, c: nat): nat {
    if list == [] then 0 else Occurrences(list[1..], c) + One(list[0].client == c)
  }

  lemma {:induction false} OccursAtMostOnce(list: seq<Node>, c: nat, id: nat)
    requires Increasing(list)
    requires forall n :: n in list && n.client == c ==> n.id == id
    ensures Occurrences(list, c) == One(Node(id, c) in list)
    decreases |list|
  {
    if list != [] {
      OccursAtMostOnce(list[1..], c, id);
      assert forall n :: n in list[1..] ==> list[0].id < n.id;
      assert list == [list[0]] + list[1..];
    }
  }

  /** A client is in the list of a key exactly once if it waits for the key, and else not at all. */
  lemma WaitsExactlyOnce(s: State, c: nat, k: Key)
    requires Agree(s) && c in s.clients
    ensures k in s.clients[c].keys ==> k in s.blocking && Occurrences(s.blocking[k], c) == 1
    ensures k in s.blocking && k !in s.clients[c].keys ==> Occurrences(s.blocking[k], c) == 0
  {
    if k in s.blocking {
      assert ListPointsBack(s, k, s.blocking[k]);
      var id := if k in s.clients[c].keys then s.clients[c].keys[k] else s.nextNode;
      OccursAtMostOnce(s.blocking[k], c, id);
    }
  }

  /** The keys somebody watches are keys somebody waits for. */
  lemma WatchedKeysAreBlocking(s: State)
    requires Agree(s)
    ensures s.nokeys.Keys <= s.blocking.Keys
    ensures forall k :: k in s.nokeys ==> s.nokeys[k] == Watchers(s.blocking[k], s.clients) > 0
  {
    forall k | k in s.nokeys
      ensures k in s.blocking && s.nokeys[k] == Watchers(s.blocking[k], s.clients) > 0
    {
      assert CountAgrees(s, k);
    }
  }

  // ----- steps -----

  /** blockClient */
  function Block(s: State, c: nat, kind: Kind): State
    requires c in s.clients && kind in s.byKind
  {
    var client := s.clients[c];
    s.(clients := s.clients[c := client.(blocked := true, kind := kind)],
       regular := if client.isModule then s.regular else s.regular + 1,
       byKind := s.byKind[kind := s.byKind[kind] + 1])
  }

  /** One key of blockForKeys: a key given twice is ignored the second time. */
  function AddKey(s: State, c: nat, k: Key, nokey: bool): State
    requires c in s.clients
  {
    var client := s.clients[c];
    if k in client.keys then s
    else
      var waiters := if k in s.blocking then s.blocking[k] else [];
      s.(clients := s.clients[c := client.(keys := client.keys[k := s.nextNode])],
         blocking := s.blocking[k := waiters + [Node(s.nextNode, c)]],
         nokeys := if !nokey then s.nokeys
                   else s.nokeys[k := if k in s.nokeys then s.nokeys[k] + 1 else 1],
         nextNode := s.nextNode + 1)
  }

  function AddKeys(s: State, c: nat, keys: seq<Key>, nokey: bool): (t: State)
    requires c in s.clients
    ensures c in t.clients && t.byKind == s.byKind
    decreases |keys|
  {
    if keys == [] then s else AddKey(AddKeys(s, c, keys[..|keys| - 1], nokey), c, keys[|keys| - 1], nokey)
  }

  function SetNokey(s: State, c: nat, nokey: bool): State
    requires c in s.clients
  {
    s.(clients := s.clients[c := s.clients[c].(nokey := nokey)])
  }

  /** blockForKeys */
  function BlockForKeys(s: State, c: nat, kind: Kind, keys: seq<Key>, nokey: bool): State
    requires c in s.clients && kind in s.byKind
  {
    Block(AddKeys(SetNokey(s, c, nokey), c, keys, nokey), c, kind)
  }

  /** The lists without `c`, and without the lists that then are empty. */
  function Without(blocking: map<Key, seq<Node>>, c: nat): map<Key, seq<Node>> {
    map k | k in blocking && Others(blocking[k], c) != [] :: Others(blocking[k], c)
  }

  /** unblockClient, as a whole: nothing remembers that the client was blocked. */
  function Unblock(s: State, c: nat, requeue: bool): State
    requires c in s.clients && s.clients[c].kind in s.byKind
  {
    var client := s.clients[c];
    var clients := s.clients[c := client.(blocked := false, kind := NotBlocked, keys := map[], nokey := false,
                                          queued := client.queued || requeue)];
    var blocking := Without(s.blocking, c);
    s.(clients := clients,
       blocking := blocking,
       nokeys := Counts(blocking, clients),
       regular := if client.isModule then s.regular else s.regular - 1,
       byKind := s.byKind[client.kind := s.byKind[client.kind] - 1],
       unblocked := if requeue && !client.queued then s.unblocked + [c] else s.unblocked)
  }

  /**
   signalKeyAsReady and signalDeletedKeyAsReady. The kind is the one that clients block as on
   keys of the value's type.
   */
  function Signal(s: State, k: Key, kind: Kind, deleted: bool): State
    requires kind in s.byKind && OnModule in s.byKind
  {
    if kind == NotBlocked then s
    else if s.byKind[kind] == 0 && s.byKind[OnModule] == 0 then s
    else if deleted && k !in s.nokeys then s
    else if !deleted && k !in s.blocking then s
    else if k in s.ready then s
    else s.(ready := s.ready + {k}, queue := s.queue + [k])
  }

  /** handleClientsBlockedOnKeys puts a fresh queue in place and works on the old one. */
  function TakeBatch(s: State): State {
    s.(batch := s.queue, queue := [])
  }

  /** The next key of the batch: from here on it may be signalled again. */
  function TakeKey(s: State): State
    requires s.batch != []
  {
    s.(ready := s.ready - {s.batch[0]}, batch := s.batch[1..])
  }

  /** queueClientForReprocessing */
  function Requeue(s: State, c: nat): State
    requires c in s.clients
  {
    if s.clients[c].queued then s
    else s.(clients := s.clients[c := s.clients[c].(queued := true)], unblocked := s.unblocked + [c])
  }

  /** One turn of processUnblockedClients. */
  function TakeUnblocked(s: State): State
    requires s.unblocked != [] && s.unblocked[0] in s.clients
  {
    var c := s.unblocked[0];
    s.(clients := s.clients[c := s.clients[c].(queued := false)], unblocked := s.unblocked[1..])
  }

  function Connect(s: State, c: nat, isModule: bool): State {
    s.(clients := s.clients[c := Client(false, NotBlocked, map[], false, false, isModule)])
  }

  /** The queue when the first entry for `c` is deleted. */
  function Dropped(q: seq<nat>, c: nat): seq<nat> {
    if q == [] then [] else if q[0] == c then q[1..] else [q[0]] + Dropped(q[1..], c)
  }

  /** unlinkClient: out of the queue and gone. */
  function Leave(s: State, c: nat): State {
    s.(clients := s.clients - {c}, unblocked := Dropped(s.unblocked, c))
  }

  /** freeClient: a blocked client is unblocked first. */
  function Disconnect(s: State, c: nat): State
    requires c in s.clients && (s.clients[c].blocked ==> s.clients[c].kind in s.byKind)
  {
    Leave(if s.clients[c].blocked then Unblock(s, c, true) else s, c)
  }

  // ----- every step keeps agreement -----

  lemma WatchersAppend(list: seq<Node>, n: Node, clients: map<nat, Client>)
    ensures Watchers(list + [n], clients) == Watchers(list, clients) + One(Watches(n.client, clients))
  {
    assert (list + [n])[..|list|] == list;
  }

  /** A list that pointed back still does if its clients remember at least as much. */
  lemma ListStill(s: State, t: State, k: Key, list: seq<Node>)
    requires ListPointsBack(s, k, list) && s.nextNode <= t.nextNode
    requires forall n :: n in list && Remembers(s, n.client, k, n.id) ==> Remembers(t, n.client, k, n.id)
    ensures ListPointsBack(t, k, list)
  {
    hide Remembers;
  }

  lemma ListGrows(s: State, t: State, k: Key, list: seq<Node>, c: nat)
    requires list == [] || ListPointsBack(s, k, list)
    requires s.nextNode < t.nextNode && Remembers(t, c, k, s.nextNode)
    requires forall n :: n in list && Remembers(s, n.client, k, n.id) ==> Remembers(t, n.client, k, n.id)
    ensures ListPointsBack(t, k, list + [Node(s.nextNode, c)])
  {
    hide Remembers;
  }

  /** Adding one key that was not there, for a client whose flag says whether it watches. */
  lemma AddKeyLists(s: State, t: State, c: nat, k: Key)
    requires KeysAgree(s) && c in s.clients && k !in s.clients[c].keys
    requires t == AddKey(s, c, k, s.clients[c].nokey)
    ensures ListsPointBack(t)
  {
    hide ListPointsBack, Watchers;
    forall c', k', id | Remembers(s, c', k', id)
      ensures Remembers(t, c', k', id)
    {
    }
    forall k' | k' in t.blocking
      ensures ListPointsBack(t, k', t.blocking[k'])
    {
      if k' != k {
        ListStill(s, t, k', s.blocking[k']);
      } else {
        ListGrows(s, t, k, if k in s.blocking then s.blocking[k] else [], c);
      }
    }
  }

  lemma AddKeyForward(s: State, t: State, c: nat, k: Key)
    requires KeysAgree(s) && c in s.clients && k !in s.clients[c].keys
    requires t == AddKey(s, c, k, s.clients[c].nokey)
    ensures KeysPointForward(t)
  {
    hide ListsPointBack, Watchers;
    forall c', k' | c' in t.clients && k' in t.clients[c'].keys
      ensures k' in t.blocking && Node(t.clients[c'].keys[k'], c') in t.blocking[k']
    {
      if c' != c || k' != k {
        assert Node(s.clients[c'].keys[k'], c') in s.blocking[k'];
      }
    }
  }

  lemma AddKeyCounts(s: State, t: State, c: nat, k: Key, k': Key)
    requires KeysAgree(s) && c in s.clients && k !in s.clients[c].keys
    requires t == AddKey(s, c, k, s.clients[c].nokey)
    ensures CountAgrees(t, k')
  {
    hide KeysPointForward, ListsPointBack, Watchers;
    assert CountAgrees(s, k');
    var waiters := if k' in s.blocking then s.blocking[k'] else [];
    EmptyWatchers(s.clients);
    WatchersSame(waiters, s.clients, t.clients);
    WatchersAppend(waiters, Node(s.nextNode, c), t.clients);
  }

  lemma EmptyWatchers(clients: map<nat, Client>)
    ensures Watchers([], clients) == 0
  {
  }

  /** What adding keys leaves alone. */
  ghost predicate OnlyKeysDiffer(s: State, t: State, c: nat) {
    && t == s.(clients := t.clients, blocking := t.blocking, nokeys := t.nokeys, nextNode := t.nextNode)
    && c in s.clients && c in t.clients
    && t.clients == s.clients[c := s.clients[c].(keys := t.clients[c].keys)]
  }

  lemma OnlyKeysRefl(s: State, c: nat)
    requires c in s.clients
    ensures OnlyKeysDiffer(s, s, c)
  {
  }

  lemma OnlyKeysFlag(s: State, t: State, c: nat)
    requires OnlyKeysDiffer(s, t, c)
    ensures c in s.clients && c in t.clients && t.clients[c].nokey == s.clients[c].nokey
  {
  }

  lemma OnlyKeysTrans(s: State, t: State, u: State, c: nat)
    requires OnlyKeysDiffer(s, t, c) && OnlyKeysDiffer(t, u, c)
    ensures OnlyKeysDiffer(s, u, c)
  {
  }

  lemma {:induction false} AddKeysKeeps(s: State, c: nat, keys: seq<Key>)
    requires KeysAgree(s) && c in s.clients
    ensures KeysAgree(AddKeys(s, c, keys, s.clients[c].nokey))
    ensures OnlyKeysDiffer(s, AddKeys(s, c, keys, s.clients[c].nokey), c)
    decreases |keys|
  {
    hide KeysAgree, AddKey, OnlyKeysDiffer;
    OnlyKeysRefl(s, c);
    if keys != [] {
      var t := AddKeys(s, c, keys[..|keys| - 1], s.clients[c].nokey);
      AddKeysKeeps(s, c, keys[..|keys| - 1]);
      OnlyKeysFlag(s, t, c);
      AddKeyKeeps(t, c, keys[|keys| - 1]);
      OnlyKeysTrans(s, t, AddKey(t, c, keys[|keys| - 1], s.clients[c].nokey), c);
    }
  }

  lemma AddKeyKeeps(s: State, c: nat, k: Key)
    requires KeysAgree(s) && c in s.clients
    ensures KeysAgree(AddKey(s, c, k, s.clients[c].nokey))
    ensures OnlyKeysDiffer(s, AddKey(s, c, k, s.clients[c].nokey), c)
  {
    var t := AddKey(s, c, k, s.clients[c].nokey);
    if k !in s.clients[c].keys {
      AddKeyLists(s, t, c, k);
      AddKeyForward(s, t, c, k);
      forall k'
        ensures CountAgrees(t, k')
      {
        AddKeyCounts(s, t, c, k, k');
      }
    }
    hide ListsPointBack, KeysPointForward, CountAgrees;
  }

  lemma SetMoves(before: set<nat>, after: set<nat>, c: nat)
    requires forall x :: x != c ==> (x in before <==> x in after)
    ensures |after| == |before| - One(c in before) + One(c in after)
  {
    var rest := before - {c};
    assert rest == after - {c};
    SetWith(before, c);
    SetWith(after, c);
  }

  lemma SetWith(a: set<nat>, c: nat)
    ensures |a| == |a - {c}| + One(c in a)
  {
    if c !in a {
      assert a - {c} == a;
    }
  }

  /** How the sets that the counters count change with one client. */
  lemma BlockedMoves(clients: map<nat, Client>, c: nat, client: Client, kind: Kind)
    requires c in clients
    ensures |BlockedAs(clients[c := client], kind)|
         == |BlockedAs(clients, kind)| - One(clients[c].kind == kind) + One(client.kind == kind)
  {
    SetMoves(BlockedAs(clients, kind), BlockedAs(clients[c := client], kind), c);
  }

  predicate CountsRegular(client: Client) { client.blocked && !client.isModule }

  lemma RegularMoves(clients: map<nat, Client>, c: nat, client: Client)
    requires c in clients
    ensures |BlockedRegular(clients[c := client])|
         == |BlockedRegular(clients)| - One(CountsRegular(clients[c])) + One(CountsRegular(client))
  {
    SetMoves(BlockedRegular(clients), BlockedRegular(clients[c := client]), c);
  }

  predicate CounterMoves(s: State, t: State, c: nat, kind: Kind)
    requires c in s.clients && c in t.clients && kind in s.byKind
  {
    && kind in t.byKind
    && t.byKind[kind] == s.byKind[kind] - One(s.clients[c].kind == kind) + One(t.clients[c].kind == kind)
  }

  /** Replacing one client by one that is counted elsewhere, with the counters adjusted. */
  lemma CountersMove(s: State, t: State, c: nat)
    requires CountersAgree(s) && c in s.clients && c in t.clients && t.clients == s.clients[c := t.clients[c]]
    requires t.regular == s.regular - One(CountsRegular(s.clients[c])) + One(CountsRegular(t.clients[c]))
    requires forall kind :: kind != NotBlocked && kind in s.byKind ==> CounterMoves(s, t, c, kind)
    ensures CountersAgree(t)
  {
    hide BlockedAs, BlockedRegular, CountsRegular;
    RegularMoves(s.clients, c, t.clients[c]);
    forall kind | kind != NotBlocked
      ensures kind in t.byKind && t.byKind[kind] == |BlockedAs(t.clients, kind)|
    {
      BlockedMoves(s.clients, c, t.clients[c], kind);
    }
  }

  /** The records about keys depend on nothing but each client's keys and flag. */
  lemma KeysUnaffected(s: State, t: State)
    requires KeysAgree(s) && t.clients.Keys == s.clients.Keys
    requires forall c :: c in s.clients ==>
      t.clients[c].keys == s.clients[c].keys && t.clients[c].nokey == s.clients[c].nokey
    requires t.blocking == s.blocking && t.nokeys == s.nokeys && t.nextNode == s.nextNode
    ensures KeysAgree(t)
  {
    hide Watchers, ListPointsBack;
    forall k | k in t.blocking
      ensures ListPointsBack(t, k, t.blocking[k])
    {
      ListStill(s, t, k, s.blocking[k]);
    }
    forall k
      ensures CountAgrees(t, k)
    {
      assert CountAgrees(s, k);
      if k in s.blocking {
        WatchersSame(s.blocking[k], s.clients, t.clients);
      }
    }
  }

  /** No other client, no list, no count and no queue of keys is touched. */
  ghost predicate OnlyClient(s: State, t: State, c: nat) {
    && (forall c' :: c' != c ==> (c' in t.clients <==> c' in s.clients)
                                 && (c' in s.clients ==> t.clients[c'] == s.clients[c']))
    && t.blocking == s.blocking && t.nokeys == s.nokeys
    && t.ready == s.ready && t.queue == s.queue && t.batch == s.batch
  }

  lemma BlockKeeps(s: State, c: nat, kind: Kind)
    requires Agree(s) && c in s.clients && !s.clients[c].blocked && kind != NotBlocked
    requires s.clients[c].keys == map[] || OnKeys(kind)
    ensures kind in s.byKind && Agree(Block(s, c, kind))
    ensures var t := Block(s, c, kind);
      && c in t.clients && t.clients[c].blocked && t.clients[c].kind == kind
      && OnlyClient(s, t, c) && t.unblocked == s.unblocked
  {
    hide KeysAgree, CountersAgree;
    assert kind in s.byKind by { CounterExists(s, kind); }
    var t := Block(s, c, kind);
    BlockKeepsKeys(s, c, kind);
    BlockCounters(s, t, c, kind);
  }

  lemma CounterExists(s: State, kind: Kind)
    requires CountersAgree(s) && kind != NotBlocked
    ensures kind in s.byKind
  {
  }

  lemma BlockCounters(s: State, t: State, c: nat, kind: Kind)
    requires CountersAgree(s) && c in s.clients && s.clients[c].kind == NotBlocked && !s.clients[c].blocked
    requires kind != NotBlocked && kind in s.byKind && t == Block(s, c, kind)
    ensures CountersAgree(t)
  {
    hide CountersAgree;
    CountersMove(s, t, c);
  }

  /** A client that waits for nothing is in no list, so its flag counts nowhere. */
  lemma SetNokeyKeeps(s: State, c: nat, nokey: bool)
    requires KeysAgree(s) && c in s.clients && s.clients[c].keys == map[]
    ensures KeysAgree(SetNokey(s, c, nokey))
  {
    hide Watchers, ListPointsBack;
    var t := SetNokey(s, c, nokey);
    forall k | k in t.blocking
      ensures ListPointsBack(t, k, t.blocking[k])
    {
      ListStill(s, t, k, s.blocking[k]);
    }
    forall k
      ensures CountAgrees(t, k)
    {
      assert CountAgrees(s, k);
      if k in s.blocking {
        NotInList(s, c, k);
        WatchersSame(s.blocking[k], s.clients, t.clients);
      }
    }
  }

  lemma NotInList(s: State, c: nat, k: Key)
    requires ListsPointBack(s) && k in s.blocking && (c !in s.clients || k !in s.clients[c].keys)
    ensures forall n :: n in s.blocking[k] ==> n.client != c
  {
    assert ListPointsBack(s, k, s.blocking[k]);
  }

  /** The other records, when one client changes and keeps its place in the queue. */
  lemma OneClientChanges(s: State, t: State, c: nat)
    requires ClientsAgree(s) && ReadyAgrees(s) && UnblockedAgrees(s)
    requires c in s.clients && c in t.clients && t.clients == s.clients[c := t.clients[c]]
    requires ClientAgrees(t.clients[c]) && t.clients[c].queued == s.clients[c].queued
    requires t.ready == s.ready && t.queue == s.queue && t.batch == s.batch && t.unblocked == s.unblocked
    ensures ClientsAgree(t) && ReadyAgrees(t) && UnblockedAgrees(t)
  {
    hide ClientAgrees;
  }

  /** All that blockForKeys changes, besides the records about keys. */
  ghost predicate BlocksOnly(s: State, t: State, c: nat, kind: Kind, nokey: bool) {
    && c in s.clients && c in t.clients && kind in s.byKind
    && t.clients == s.clients[c := s.clients[c].(blocked := true, kind := kind, nokey := nokey, keys := t.clients[c].keys)]
    && t.regular == (if s.clients[c].isModule then s.regular else s.regular + 1)
    && t.byKind == s.byKind[kind := s.byKind[kind] + 1]
    && t.ready == s.ready && t.queue == s.queue && t.batch == s.batch && t.unblocked == s.unblocked
  }

  lemma BlockForKeysShape(s: State, t: State, c: nat, kind: Kind, keys: seq<Key>, nokey: bool)
    requires KeysAgree(s) && c in s.clients && s.clients[c].keys == map[] && kind in s.byKind
    requires t == BlockForKeys(s, c, kind, keys, nokey)
    ensures KeysAgree(t) && BlocksOnly(s, t, c, kind, nokey)
  {
    hide KeysAgree, AddKeys, Block, OnlyKeysDiffer, BlocksOnly;
    var marked := SetNokey(s, c, nokey);
    SetNokeyKeeps(s, c, nokey);
    var added := AddKeys(marked, c, keys, nokey);
    AddKeysKeeps(marked, c, keys);
    BlockKeepsKeys(added, c, kind);
    BlockShape(s, added, c, kind, nokey);
  }

  lemma BlockKeepsKeys(s: State, c: nat, kind: Kind)
    requires KeysAgree(s) && c in s.clients && kind in s.byKind
    ensures KeysAgree(Block(s, c, kind))
  {
    hide KeysAgree;
    KeysUnaffected(s, Block(s, c, kind));
  }

  lemma BlockShape(s: State, added: State, c: nat, kind: Kind, nokey: bool)
    requires c in s.clients && kind in s.byKind && OnlyKeysDiffer(SetNokey(s, c, nokey), added, c)
    ensures BlocksOnly(s, Block(added, c, kind), c, kind, nokey)
  {
  }

  lemma BlockForKeysKeeps(s: State, c: nat, kind: Kind, keys: seq<Key>, nokey: bool)
    requires Agree(s) && c in s.clients && !s.clients[c].blocked && OnKeys(kind)
    ensures kind in s.byKind && Agree(BlockForKeys(s, c, kind, keys, nokey))
    ensures WaitsForAll(s, BlockForKeys(s, c, kind, keys, nokey), c, keys)
  {
    assert kind in s.byKind && ClientAgrees(s.clients[c]);
    BlockForKeysWaits(s, c, kind, keys, nokey);
    hide WaitsForAll;
    hide KeysAgree, CountersAgree, BlockForKeys, ReadyAgrees, UnblockedAgrees;
    CounterExists(s, kind);
    var t := BlockForKeys(s, c, kind, keys, nokey);
    BlockForKeysShape(s, t, c, kind, keys, nokey);
    CountersMove(s, t, c);
    OneClientChanges(s, t, c);
  }

  // What blocking for keys means.

  /** The list of `k` is the old one with one new node of `c` behind it, which `c` remembers. */
  ghost predicate Joined(s: State, t: State, c: nat, k: Key) {
    && k in t.blocking && c in t.clients && k in t.clients[c].keys
    && t.blocking[k] == Waiters(s, k) + [Node(t.clients[c].keys[k], c)]
  }

  /** A client that waited for nothing waits for exactly these keys, last in each list; no other list changes. */
  ghost predicate WaitsForAll(s: State, t: State, c: nat, keys: seq<Key>) {
    && c in t.clients && t.clients[c].keys.Keys == (set k | k in keys)
    && (forall k :: k in keys ==> Joined(s, t, c, k))
    && (forall k :: k !in keys ==> Waiters(t, k) == Waiters(s, k) && (k in t.blocking <==> k in s.blocking))
    && forall c' :: c' != c ==> (c' in t.clients <==> c' in s.clients)
                                && (c' in s.clients ==> t.clients[c'] == s.clients[c'])
  }

  lemma AddKeyWaits(s: State, t: State, c: nat, keys: seq<Key>, k: Key, nokey: bool)
    requires WaitsForAll(s, t, c, keys)
    ensures WaitsForAll(s, AddKey(t, c, k, nokey), c, keys + [k])
  {
    assert forall x :: x in keys + [k] <==> x in keys || x == k;
    if k in keys {
      assert Joined(s, t, c, k);
      assert AddKey(t, c, k, nokey) == t;
    } else {
      NewKeyWaits(s, t, AddKey(t, c, k, nokey), c, keys, k);
    }
  }

  lemma NewKeyWaits(s: State, t: State, u: State, c: nat, keys: seq<Key>, k: Key)
    requires WaitsForAll(s, t, c, keys) && k !in keys
    requires u.clients == t.clients[c := t.clients[c].(keys := t.clients[c].keys[k := t.nextNode])]
    requires u.blocking == t.blocking[k := Waiters(t, k) + [Node(t.nextNode, c)]]
    ensures WaitsForAll(s, u, c, keys + [k])
  {
    assert u.clients[c].keys.Keys == t.clients[c].keys.Keys + {k};
    assert Joined(s, u, c, k);
    JoinedStays(s, t, u, c, keys, k);
    hide Joined;
    assert forall x :: x in keys + [k] <==> x in keys || x == k;
  }

  lemma JoinedStays(s: State, t: State, u: State, c: nat, keys: seq<Key>, k: Key)
    requires k !in keys && c in t.clients && c in u.clients
    requires forall x :: x in keys ==> Joined(s, t, c, x)
    requires forall x :: x != k && x in t.blocking ==> x in u.blocking && u.blocking[x] == t.blocking[x]
    requires forall x :: x in t.clients[c].keys ==> x in u.clients[c].keys && u.clients[c].keys[x] == t.clients[c].keys[x]
    ensures forall x :: x in keys ==> Joined(s, u, c, x)
  {
    forall x | x in keys
      ensures Joined(s, u, c, x)
    {
      assert Joined(s, t, c, x);
    }
  }

  lemma {:induction false} AddKeysWaits(s: State, c: nat, keys: seq<Key>, nokey: bool)
    requires c in s.clients && s.clients[c].keys == map[]
    ensures WaitsForAll(s, AddKeys(s, c, keys, nokey), c, keys)
    decreases |keys|
  {
    if keys != [] {
      hide WaitsForAll, AddKey;
      var front, last := keys[..|keys| - 1], keys[|keys| - 1];
      AddKeysWaits(s, c, front, nokey);
      AddKeyWaits(s, AddKeys(s, c, front, nokey), c, front, last, nokey);
      assert keys == front + [last];
    }
  }

  /** blockForKeys, for a client that waited for nothing. */
  lemma BlockForKeysWaits(s: State, c: nat, kind: Kind, keys: seq<Key>, nokey: bool)
    requires c in s.clients && s.clients[c].keys == map[] && kind in s.byKind
    ensures var t := BlockForKeys(s, c, kind, keys, nokey);
      && WaitsForAll(s, t, c, keys)
      && t.clients[c].blocked && t.clients[c].kind == kind && t.clients[c].nokey == nokey
      && t.clients[c].queued == s.clients[c].queued && t.clients[c].isModule == s.clients[c].isModule
  {
    hide AddKeys, WaitsForAll;
    var marked := SetNokey(s, c, nokey);
    var added := AddKeys(marked, c, keys, nokey);
    AddKeysWaits(marked, c, keys, nokey);
    AddKeysOthers(marked, c, keys, nokey);
    WaitsSeenFrom(s, marked, added, BlockForKeys(s, c, kind, keys, nokey), c, keys);
  }

  /** The flags of the client do not matter to what it waits for. */
  lemma WaitsSeenFrom(s: State, s': State, t: State, t': State, c: nat, keys: seq<Key>)
    requires WaitsForAll(s', t, c, keys) && s'.blocking == s.blocking && t'.blocking == t.blocking
    requires c in t'.clients && t'.clients[c].keys == t.clients[c].keys
    requires forall c' :: c' != c ==> (c' in s'.clients <==> c' in s.clients) && (c' in t'.clients <==> c' in t.clients)
    requires forall c' :: c' != c && c' in s.clients ==> s'.clients[c'] == s.clients[c']
    requires forall c' :: c' != c && c' in t.clients ==> t'.clients[c'] == t.clients[c']
    ensures WaitsForAll(s, t', c, keys)
  {
    forall k | k in keys
      ensures Joined(s, t', c, k)
    {
      assert Joined(s', t, c, k);
    }
    hide Joined;
  }

  lemma {:induction false} AddKeysOthers(s: State, c: nat, keys: seq<Key>, nokey: bool)
    requires c in s.clients
    ensures var t := AddKeys(s, c, keys, nokey);
      t.clients[c] == s.clients[c].(keys := t.clients[c].keys)
    decreases |keys|
  {
    if keys != [] {
      var t := AddKeys(s, c, keys[..|keys| - 1], nokey);
      AddKeysOthers(s, c, keys[..|keys| - 1], nokey);
      AddKeyClient(t, c, keys[|keys| - 1], nokey);
      hide AddKey;
    }
  }

  lemma AddKeyClient(s: State, c: nat, k: Key, nokey: bool)
    requires c in s.clients
    ensures var t := AddKey(s, c, k, nokey);
      c in t.clients && t.clients[c] == s.clients[c].(keys := t.clients[c].keys)
  {
  }

  // Unblocking.

  lemma UnblockLists(s: State, t: State, c: nat)
    requires KeysAgree(s) && c in s.clients && t.clients.Keys == s.clients.Keys && t.nextNode == s.nextNode
    requires forall c' :: c' in s.clients && c' != c ==> t.clients[c'].keys == s.clients[c'].keys
    requires t.clients[c].keys == map[] && t.blocking == Without(s.blocking, c)
    ensures ListsPointBack(t) && KeysPointForward(t)
  {
    hide Watchers, Others;
    forall k | k in t.blocking
      ensures ListPointsBack(t, k, t.blocking[k])
    {
      assert ListPointsBack(s, k, s.blocking[k]);
      OthersIncreasing(s.blocking[k], c);
    }
    forall c', k | c' in t.clients && k in t.clients[c'].keys
      ensures k in t.blocking && Node(t.clients[c'].keys[k], c') in t.blocking[k]
    {
      assert Node(s.clients[c'].keys[k], c') in Others(s.blocking[k], c);
    }
  }

  /**
   The client waits for nothing and is not blocked; all others wait as before; if asked for, the
   client is queued behind those already queued.
   */
  ghost predicate Freed(s: State, t: State, c: nat, requeue: bool) {
    && c in s.clients && c in t.clients
    && !t.clients[c].blocked && t.clients[c].keys == map[] && !t.clients[c].nokey
    && (forall c' :: c' != c ==> (c' in t.clients <==> c' in s.clients)
                                 && (c' in s.clients ==> t.clients[c'] == s.clients[c']))
    && (forall k, n :: n in Waiters(t, k) <==> n in Waiters(s, k) && n.client != c)
    && t.unblocked == (if requeue && c !in s.unblocked then s.unblocked + [c] else s.unblocked)
    && t.ready == s.ready && t.queue == s.queue && t.batch == s.batch
  }

  lemma UnblockFrees(s: State, c: nat, requeue: bool)
    requires UnblockedAgrees(s) && c in s.clients && s.clients[c].kind in s.byKind
    ensures Freed(s, Unblock(s, c, requeue), c, requeue)
  {
    hide Others, Counts;
    var t := Unblock(s, c, requeue);
    forall k
      ensures Waiters(t, k) == Others(Waiters(s, k), c)
    {
      if k !in s.blocking {
        OthersOfNone(c);
      }
    }
    hide Without;
    assert forall k, n :: n in Waiters(t, k) <==> n in Waiters(s, k) && n.client != c;
  }

  lemma OthersOfNone(c: nat)
    ensures Others([], c) == []
  {
  }

  lemma UnblockKeeps(s: State, c: nat, requeue: bool)
    requires Agree(s) && c in s.clients && s.clients[c].blocked
    ensures s.clients[c].kind in s.byKind && Agree(Unblock(s, c, requeue))
    ensures Freed(s, Unblock(s, c, requeue), c, requeue)
  {
    UnblockFrees(s, c, requeue);
    hide KeysAgree, CountersAgree, ReadyAgrees, UnblockedAgrees, Without, Counts, Freed;
    CounterExists(s, s.clients[c].kind);
    var t := Unblock(s, c, requeue);
    UnblockKeys(s, t, c, requeue);
    CountersMove(s, t, c);
    UnblockQueue(s, t, c, requeue);
    assert ClientsAgree(t);
  }

  lemma UnblockKeys(s: State, t: State, c: nat, requeue: bool)
    requires KeysAgree(s) && c in s.clients && s.clients[c].kind in s.byKind && t == Unblock(s, c, requeue)
    ensures KeysAgree(t)
  {
    hide ListsPointBack, KeysPointForward, Watchers, Without;
    UnblockLists(s, t, c);
    forall k
      ensures CountAgrees(t, k)
    {
    }
  }

  lemma UnblockQueue(s: State, t: State, c: nat, requeue: bool)
    requires ReadyAgrees(s) && UnblockedAgrees(s) && c in s.clients && s.clients[c].kind in s.byKind
    requires t == Unblock(s, c, requeue)
    ensures ReadyAgrees(t) && UnblockedAgrees(t)
  {
    hide Without, Counts;
  }

  // The queues.

  lemma {:induction false} SomeWatcher(list: seq<Node>, clients: map<nat, Client>) returns (n: Node)
    requires Watchers(list, clients) > 0
    ensures n in list && Watches(n.client, clients)
  {
    n := list[|list| - 1];
    if !Watches(n.client, clients) {
      n := SomeWatcher(list[..|list| - 1], clients);
    }
  }

  /** A key is queued only if a client waits for it, or asked to hear of its deletion. */
  lemma SignalledForSomebody(s: State, k: Key, kind: Kind, deleted: bool)
    requires KeysAgree(s) && kind in s.byKind && OnModule in s.byKind
    ensures Signal(s, k, kind, deleted) != s ==>
      exists c :: c in s.clients && k in s.clients[c].keys && (deleted ==> s.clients[c].nokey)
  {
    if Signal(s, k, kind, deleted) != s {
      assert CountAgrees(s, k);
      var list := s.blocking[k];
      assert ListPointsBack(s, k, list);
      var n := list[0];
      if deleted {
        n := SomeWatcher(list, s.clients);
      }
      assert n in list && Remembers(s, n.client, k, n.id);
    }
  }

  lemma SignalKeeps(s: State, k: Key, kind: Kind, deleted: bool)
    requires Agree(s) && kind != NotBlocked
    ensures kind in s.byKind && OnModule in s.byKind && Agree(Signal(s, k, kind, deleted))
    ensures var t := Signal(s, k, kind, deleted);
      && t == s.(ready := t.ready, queue := t.queue)
      && (t == s || (k !in s.ready && t.ready == s.ready + {k} && t.queue == s.queue + [k]))
      && (t != s ==> exists c :: c in s.clients && k in s.clients[c].keys && (deleted ==> s.clients[c].nokey))
  {
    SignalledForSomebody(s, k, kind, deleted);
    hide KeysAgree, CountersAgree, UnblockedAgrees, ClientsAgree;
    CounterExists(s, kind);
    CounterExists(s, OnModule);
    var t := Signal(s, k, kind, deleted);
    QueuesOnly(s, t);
    assert s.batch + (s.queue + [k]) == (s.batch + s.queue) + [k];
  }

  /** Steps that touch only the queue of keys. */
  lemma QueuesOnly(s: State, t: State)
    requires Agree(s) && t == s.(ready := t.ready, queue := t.queue, batch := t.batch)
    ensures KeysAgree(t) && ClientsAgree(t) && CountersAgree(t) && UnblockedAgrees(t)
  {
    KeysUnaffected(s, t);
    hide KeysAgree;
  }

  lemma TakeBatchKeeps(s: State)
    requires Agree(s) && s.batch == []
    ensures Agree(TakeBatch(s))
    ensures var t := TakeBatch(s); t.batch == s.queue && t.queue == [] && t.ready == s.ready
  {
    hide KeysAgree, CountersAgree, UnblockedAgrees, ClientsAgree;
    QueuesOnly(s, TakeBatch(s));
    assert s.batch + s.queue == s.queue + [];
  }

  lemma TakeKeyKeeps(s: State)
    requires Agree(s) && s.batch != []
    ensures Agree(TakeKey(s)) && s.batch[0] !in TakeKey(s).batch + TakeKey(s).queue
    ensures var t := TakeKey(s); [s.batch[0]] + t.batch == s.batch && t.queue == s.queue && s.batch[0] !in t.ready
  {
    hide KeysAgree, CountersAgree, UnblockedAgrees, ClientsAgree;
    var t := TakeKey(s);
    QueuesOnly(s, t);
    var all, rest := s.batch + s.queue, t.batch + t.queue;
    assert rest == all[1..];
    assert all[0] == s.batch[0];
    assert forall k :: k in all <==> k == all[0] || k in rest;
  }

  lemma RequeueKeeps(s: State, c: nat)
    requires Agree(s) && c in s.clients
    ensures Agree(Requeue(s, c))
    ensures var t := Requeue(s, c);
      t.unblocked == (if c in s.unblocked then s.unblocked else s.unblocked + [c]) && OnlyClient(s, t, c)
  {
    hide KeysAgree, CountersAgree, ReadyAgrees;
    var t := Requeue(s, c);
    SameReady(s, t);
    if !s.clients[c].queued {
      KeysUnaffected(s, t);
      CountersMove(s, t, c);
      RequeueUnblocked(s, t, c);
    }
  }

  lemma RequeueUnblocked(s: State, t: State, c: nat)
    requires UnblockedAgrees(s) && c in s.clients && !s.clients[c].queued && t == Requeue(s, c)
    ensures UnblockedAgrees(t)
  {
  }

  lemma SameReady(s: State, t: State)
    requires ReadyAgrees(s) && t.ready == s.ready && t.batch == s.batch && t.queue == s.queue
    ensures ReadyAgrees(t)
  {
  }

  lemma TakeUnblockedKeeps(s: State)
    requires Agree(s) && s.unblocked != []
    ensures s.unblocked[0] in s.clients && Agree(TakeUnblocked(s))
    ensures var t := TakeUnblocked(s);
      [s.unblocked[0]] + t.unblocked == s.unblocked && OnlyClient(s, t, s.unblocked[0])
  {
    hide KeysAgree, CountersAgree, ReadyAgrees;
    var t := TakeUnblocked(s);
    SameReady(s, t);
    KeysUnaffected(s, t);
    CountersMove(s, t, s.unblocked[0]);
  }

  lemma ConnectKeeps(s: State, c: nat, isModule: bool)
    requires Agree(s) && c !in s.clients
    ensures Agree(Connect(s, c, isModule))
    ensures var t := Connect(s, c, isModule);
      && c in t.clients && !t.clients[c].blocked && t.clients[c].keys == map[] && t.clients[c].isModule == isModule
      && OnlyClient(s, t, c) && t.unblocked == s.unblocked
  {
    hide CountersAgree, KeysAgree;
    ConnectKeys(s, c, isModule);
    ConnectCounters(s, c, isModule);
  }

  lemma ConnectKeys(s: State, c: nat, isModule: bool)
    requires KeysAgree(s) && c !in s.clients
    ensures KeysAgree(Connect(s, c, isModule))
  {
    hide Watchers, ListPointsBack;
    var t := Connect(s, c, isModule);
    forall k | k in t.blocking
      ensures ListPointsBack(t, k, t.blocking[k])
    {
      ListStill(s, t, k, s.blocking[k]);
    }
    forall k
      ensures CountAgrees(t, k)
    {
      assert CountAgrees(s, k);
      if k in s.blocking {
        NotInList(s, c, k);
        WatchersSame(s.blocking[k], s.clients, t.clients);
      }
    }
  }

  lemma ConnectCounters(s: State, c: nat, isModule: bool)
    requires CountersAgree(s) && c !in s.clients
    ensures CountersAgree(Connect(s, c, isModule))
  {
    var t := Connect(s, c, isModule);
    assert BlockedRegular(t.clients) == BlockedRegular(s.clients);
    forall kind | kind != NotBlocked
      ensures BlockedAs(t.clients, kind) == BlockedAs(s.clients, kind)
    {
    }
  }

  lemma {:induction false} DroppedOnce(q: seq<nat>, c: nat)
    requires Distinct(q)
    ensures Distinct(Dropped(q, c)) && forall x :: x in Dropped(q, c) <==> x in q && x != c
    decreases |q|
  {
    if q != [] {
      assert forall x :: x in q <==> x == q[0] || x in q[1..];
      assert q[0] !in q[1..];
      DroppedOnce(q[1..], c);
    }
  }

  lemma LeaveKeys(s: State, c: nat)
    requires KeysAgree(s) && c in s.clients && s.clients[c].keys == map[]
    ensures KeysAgree(Leave(s, c))
  {
    hide Watchers, ListPointsBack;
    var t := Leave(s, c);
    forall k | k in t.blocking
      ensures ListPointsBack(t, k, t.blocking[k])
    {
      NotInList(s, c, k);
      ListStill(s, t, k, s.blocking[k]);
    }
    forall k
      ensures CountAgrees(t, k)
    {
      assert CountAgrees(s, k);
      if k in s.blocking {
        NotInList(s, c, k);
        WatchersSame(s.blocking[k], s.clients, t.clients);
      }
    }
  }

  lemma LeaveCounters(s: State, c: nat)
    requires CountersAgree(s) && c in s.clients && !s.clients[c].blocked && s.clients[c].kind == NotBlocked
    ensures CountersAgree(Leave(s, c))
  {
    var t := Leave(s, c);
    assert BlockedRegular(t.clients) == BlockedRegular(s.clients);
    forall kind | kind != NotBlocked
      ensures BlockedAs(t.clients, kind) == BlockedAs(s.clients, kind)
    {
    }
  }

  lemma LeaveKeeps(s: State, c: nat)
    requires Agree(s) && c in s.clients && !s.clients[c].blocked
    ensures Agree(Leave(s, c))
  {
    assert ClientAgrees(s.clients[c]);
    LeaveKeys(s, c);
    LeaveCounters(s, c);
    DroppedOnce(s.unblocked, c);
    SameReady(s, Leave(s, c));
    hide KeysAgree, CountersAgree, ReadyAgrees, Dropped;
  }

  /** A client that goes leaves no trace, whatever it was doing; one marked as queued is in the queue. */
  lemma DisconnectKeeps(s: State, c: nat)
    requires Agree(s) && c in s.clients
    ensures s.clients[c].blocked ==> s.clients[c].kind in s.byKind
    ensures var t := Disconnect(s, c);
      Agree(t) && c !in t.clients && c !in t.unblocked
    ensures var t := Disconnect(s, c);
      forall k :: k in t.blocking ==> forall n :: n in t.blocking[k] ==> n.client != c
    ensures s.clients[c].queued ==> c in s.unblocked
  {
    hide KeysAgree, CountersAgree, ReadyAgrees, Unblock;
    if s.clients[c].blocked {
      UnblockKeeps(s, c, true);
      UnblockedClient(s, c, true);
      LeaveKeeps(Unblock(s, c, true), c);
    } else {
      LeaveKeeps(s, c);
    }
    var t := Disconnect(s, c);
    GoneFromLists(t, c);
  }

  lemma UnblockedClient(s: State, c: nat, requeue: bool)
    requires c in s.clients && s.clients[c].kind in s.byKind
    ensures var t := Unblock(s, c, requeue); c in t.clients && !t.clients[c].blocked
  {
  }

  lemma GoneFromLists(t: State, c: nat)
    requires KeysAgree(t) && c !in t.clients
    ensures forall k :: k in t.blocking ==> forall n :: n in t.blocking[k] ==> n.client != c
  {
    forall k | k in t.blocking
      ensures forall n :: n in t.blocking[k] ==> n.client != c
    {
      NotInList(t, c, k);
    }
  }

  // ----- runs -----

  datatype Step =
    | DoConnect(c: nat, isModule: bool)
    | DoDisconnect(c: nat)
    | DoBlock(c: nat, kind: Kind)
    | DoBlockForKeys(c: nat, kind: Kind, keys: seq<Key>, nokey: bool)
    | DoUnblock(c: nat, requeue: bool)
    | DoSignal(k: Key, kind: Kind, deleted: bool)
    | DoTakeBatch
    | DoTakeKey
    | DoRequeue(c: nat)
    | DoTakeUnblocked

  /** When the rest of the server takes a step. Types that nobody blocks on are not signalled. */
  predicate Enabled(s: State, step: Step) {
    match step
    case DoConnect(c, _) => c !in s.clients
    case DoDisconnect(c) => c in s.clients
    case DoBlock(c, kind) => c in s.clients && !s.clients[c].blocked && kind != NotBlocked
    case DoBlockForKeys(c, kind, _, _) => c in s.clients && !s.clients[c].blocked && OnKeys(kind)
    case DoUnblock(c, _) => c in s.clients && s.clients[c].blocked
    case DoSignal(_, kind, _) => kind != NotBlocked
    case DoTakeBatch => s.batch == []
    case DoTakeKey => s.batch != []
    case DoRequeue(c) => c in s.clients
    case DoTakeUnblocked => s.unblocked != []
  }

  ghost function Take(s: State, step: Step): (t: State)
    requires Agree(s) && Enabled(s, step)
    ensures Agree(t)
  {
    match step
    case DoConnect(c, isModule) => ConnectKeeps(s, c, isModule); Connect(s, c, isModule)
    case DoDisconnect(c) => DisconnectKeeps(s, c); Disconnect(s, c)
    case DoBlock(c, kind) => BlockKeeps(s, c, kind); Block(s, c, kind)
    case DoBlockForKeys(c, kind, keys, nokey) =>
      BlockForKeysKeeps(s, c, kind, keys, nokey); BlockForKeys(s, c, kind, keys, nokey)
    case DoUnblock(c, requeue) => UnblockKeeps(s, c, requeue); Unblock(s, c, requeue)
    case DoSignal(k, kind, deleted) => SignalKeeps(s, k, kind, deleted); Signal(s, k, kind, deleted)
    case DoTakeBatch => TakeBatchKeeps(s); TakeBatch(s)
    case DoTakeKey => TakeKeyKeeps(s); TakeKey(s)
    case DoRequeue(c) => RequeueKeeps(s, c); Requeue(s, c)
    case DoTakeUnblocked => TakeUnblockedKeeps(s); TakeUnblocked(s)
  }

  /** A sequence of steps, each taken when it may be. */
  ghost predicate Allowed(s: State, steps: seq<Step>)
    requires Agree(s)
    decreases |steps|
  {
    steps == [] || (Enabled(s, steps[0]) && Allowed(Take(s, steps[0]), steps[1..]))
  }

  ghost function Run(s: State, steps: seq<Step>): State
    requires Agree(s) && Allowed(s, steps)
    decreases |steps|
  {
    if steps == [] then s else Run(Take(s, steps[0]), steps[1..])
  }

  const KINDS: set<Kind> := {OnList, OnZset, OnStream, OnReplicas, OnFsync, OnModule, OnPause, OnShutdown, OnLazyfree}

  /** No clients, no keys. */
  function Start(): State {
    State(map[], map[], map[], 0, 0, map kind | kind in KINDS :: 0, {}, [], [], [])
  }

  lemma StartAgrees()
    ensures Agree(Start())
  {
    var s := Start();
    assert BlockedRegular(s.clients) == {};
    forall kind
      ensures BlockedAs(s.clients, kind) == {}
    {
    }
    forall k
      ensures CountAgrees(s, k)
    {
    }
  }

  /** In every state that blocking, unblocking, signalling and serving can lead to, the records agree. */
  lemma {:induction false} EveryRunAgrees(s: State, steps: seq<Step>)
    requires Agree(s) && Allowed(s, steps)
    ensures Agree(Run(s, steps))
    decreases |steps|
  {
    hide Agree, Take;
    if steps != [] {
      EveryRunAgrees(Take(s, steps[0]), steps[1..]);
    }
  }

  lemma BlockedIsCounted(s: State, c: nat)
    requires CountersAgree(s) && c in s.clients && s.clients[c].kind != NotBlocked
    ensures s.clients[c].kind in s.byKind && s.byKind[s.clients[c].kind] > 0
  {
    assert c in BlockedAs(s.clients, s.clients[c].kind);
  }

  /** No wake-up is lost to the shortcuts: what a client waits for gets queued when it is signalled. */
  lemma SignalReaches(s: State, c: nat, k: Key, deleted: bool)
    requires Agree(s) && c in s.clients && k in s.clients[c].keys
    requires deleted ==> s.clients[c].nokey
    ensures var kind := s.clients[c].kind;
      kind in s.byKind && OnModule in s.byKind && k in Signal(s, k, kind, deleted).ready
  {
    BlockedIsCounted(s, c);
    CounterExists(s, OnModule);
    assert CountAgrees(s, k);
    WatcherCounts(s.blocking[k], s.clients, Node(s.clients[c].keys[k], c));
  }

  lemma {:induction false} WatcherCounts(list: seq<Node>, clients: map<nat, Client>, n: Node)
    requires n in list
    ensures Watches(n.client, clients) ==> Watchers(list, clients) > 0
    decreases |list|
  {
    if n != list[|list| - 1] {
      WatcherCounts(list[..|list| - 1], clients, n);
    }
  }
}
