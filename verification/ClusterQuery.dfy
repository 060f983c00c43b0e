/**
 Which node serves a request (cluster.c, getNodeByQuery). One pass over the keys of all queued
 commands keeps a slot, two flags and two counters; the answer is decided from these. The
 specification is a decision over the request as a whole.
 */
module ClusterQuery {
  import opened Common
  import opened ClusterSlots

  type Node = nat

  datatype Redirect = NoRedirect | CrossSlot | Unstable | Ask | Moved | DownState | DownUnbound | DownReadOnly

  datatype Answer = Answer(node: Option<Node>, error: Redirect)

  /** A queued command: its keys in order, and whether it is sharded publish/subscribe. */
  datatype Command = Command(keys: seq<string>, shardPubsub: bool)

  /** The part of the cluster that matters here. */
  datatype Cluster = Cluster(
    myself: Node,
    owner: nat -> Option<Node>,
    migratingTo: nat -> Option<Node>,
    importingFrom: nat -> Option<Node>,
    master: Option<Node>,       // the node this one is a replica of
    present: set<string>,       // the keys it has
    healthy: bool,
    redirects: bool,
    readsWhenDown: bool,
    pubsubWhenDown: bool,
    crc16: string -> nat)

  datatype Request = Request(
    commands: seq<Command>,
    isExec: bool, inMulti: bool, isMigrate: bool,
    writes: bool,               // the command's own write flag
    queuedWrites: bool,         // the write flag of the queued commands
    asking: bool, readonly: bool)

  // ----- the request as a whole -----

  function Keys(commands: seq<Command>): seq<string> {
    if commands == [] then [] else Keys(commands[..|commands| - 1]) + commands[|commands| - 1].keys
  }

  predicate Pubsub(commands: seq<Command>) {
    exists i :: 0 <= i < |commands| && commands[i].shardPubsub
  }

  /** The keys that are looked up: those before the first publish/subscribe command. */
  function LookedUp(commands: seq<Command>): seq<string> {
    if commands == [] then []
    else
      var front, last := commands[..|commands| - 1], commands[|commands| - 1];
      LookedUp(front) + if Pubsub(commands) then [] else last.keys
  }

  function SlotOf(c: Cluster, key: string): nat { KeySlot(c.crc16, key) }

  predicate SameSlot(c: Cluster, keys: seq<string>) {
    forall i :: 0 <= i < |keys| ==> SlotOf(c, keys[i]) == SlotOf(c, keys[0])
  }

  predicate SomePresent(c: Cluster, keys: seq<string>) {
    exists i :: 0 <= i < |keys| && keys[i] in c.present
  }

  predicate SomeMissing(c: Cluster, keys: seq<string>) {
    exists i :: 0 <= i < |keys| && keys[i] !in c.present
  }

  predicate DifferentKeys(keys: seq<string>) {
    exists i :: 0 <= i < |keys| && keys[i] != keys[0]
  }

  predicate Migrating(c: Cluster, slot: nat) {
    c.owner(slot) == Some(c.myself) && c.migratingTo(slot).Some?
  }

  predicate Importing(c: Cluster, slot: nat) {
    !Migrating(c, slot) && c.importingFrom(slot).Some?
  }

  /** The end of the decision, when the slot is known to have an owner. */
  function Serve(c: Cluster, r: Request, slot: nat, node: Node, pubsub: bool,
                 migrating: bool, importing: bool, missing: bool, existing: bool, different: bool): Answer
  {
    if !c.healthy && pubsub && !c.pubsubWhenDown then Answer(None, DownState)
    else if !c.healthy && !pubsub && !c.readsWhenDown then Answer(None, DownState)
    else if !c.healthy && !pubsub && r.writes then Answer(None, DownReadOnly)
    else if (migrating || importing) && r.isMigrate then Answer(Some(c.myself), NoRedirect)
    else if migrating && missing then
      if existing then Answer(None, Unstable) else Answer(c.migratingTo(slot), Ask)
    else if importing && r.asking then
      if different && missing then Answer(None, Unstable) else Answer(Some(c.myself), NoRedirect)
    else if (r.readonly || pubsub) && !(r.writes || (r.isExec && r.queuedWrites)) && c.master == Some(node) then
      Answer(Some(c.myself), NoRedirect)
    else Answer(Some(node), if node != c.myself then Moved else NoRedirect)
  }

  function Decide(c: Cluster, r: Request): Answer {
    var keys := Keys(r.commands);
    if !c.redirects then Answer(Some(c.myself), NoRedirect)
    else if r.isExec && !r.inMulti then Answer(Some(c.myself), NoRedirect)
    else if keys == [] then Answer(Some(c.myself), NoRedirect)
    else
      var slot := SlotOf(c, keys[0]);
      if c.owner(slot).None? then Answer(None, DownUnbound)
      else if !SameSlot(c, keys) then Answer(None, CrossSlot)
      else
        var migrating, importing := Migrating(c, slot), Importing(c, slot);
        var looked := LookedUp(r.commands);
        Serve(c, r, slot, c.owner(slot).value, Pubsub(r.commands), migrating, importing,
              SomeMissing(c, looked), SomePresent(c, looked), DifferentKeys(keys))
  }

  // ----- the source's pass over the keys -----

  /** The variables of the pass. */
  datatype Pass = Pass(first: Option<string>, slot: nat, node: Option<Node>, migrating: bool, importing: bool,
                       missing: nat, existing: nat, different: bool)

  /** What the pass has learnt from the keys `seen`, of which it looked up `looked`. */
  ghost predicate Learnt(c: Cluster, seen: seq<string>, looked: seq<string>, p: Pass) {
    && (p.first.None? <==> seen == [])
    && (seen == [] ==> p == Pass(None, 0, None, false, false, 0, 0, false) && looked == [])
    && (seen != [] ==> p.first == Some(seen[0]) && LearntFirst(c, seen[0], p))
    && SameSlot(c, seen)
    && (p.importing ==> (p.different <==> DifferentKeys(seen)))
    && (p.migrating || p.importing ==>
          (p.missing > 0 <==> SomeMissing(c, looked)) && (p.existing > 0 <==> SomePresent(c, looked)))
  }

  ghost predicate LearntFirst(c: Cluster, key: string, p: Pass) {
    && p.slot == SlotOf(c, key) && p.node == c.owner(p.slot) && p.node.Some?
    && p.migrating == Migrating(c, p.slot) && p.importing == Importing(c, p.slot)
  }

  lemma SameSlotStep(c: Cluster, seen: seq<string>, key: string)
    requires SameSlot(c, seen)
    ensures SameSlot(c, seen + [key]) <==> seen == [] || SlotOf(c, key) == SlotOf(c, seen[0])
  {
    var all := seen + [key];
    assert all[|seen|] == key;
  }

  lemma PresenceStep(c: Cluster, looked: seq<string>, key: string)
    ensures SomePresent(c, looked + [key]) <==> SomePresent(c, looked) || key in c.present
    ensures SomeMissing(c, looked + [key]) <==> SomeMissing(c, looked) || key !in c.present
  {
    var all := looked + [key];
    assert all[|looked|] == key;
    assert forall i :: 0 <= i < |looked| ==> all[i] == looked[i];
  }

  lemma DifferentStep(seen: seq<string>, key: string)
    requires seen != []
    ensures DifferentKeys(seen + [key]) <==> DifferentKeys(seen) || key != seen[0]
  {
    var all := seen + [key];
    assert all[|seen|] == key;
    assert forall i :: 0 <= i < |seen| ==> all[i] == seen[i];
  }

  /** A longer list with two slots is no better. */
  lemma CrossSlotStays(c: Cluster, seen: seq<string>, more: seq<string>)
    requires !SameSlot(c, seen)
    ensures !SameSlot(c, seen + more)
  {
    var i :| 0 <= i < |seen| && SlotOf(c, seen[i]) != SlotOf(c, seen[0]);
    assert (seen + more)[i] == seen[i] && (seen + more)[0] == seen[0];
  }

  lemma {:induction false} KeysPrefix(commands: seq<Command>, i: nat)
    requires i <= |commands|
    ensures Keys(commands[..i]) <= Keys(commands)
    decreases |commands| - i
  {
    if i < |commands| {
      KeysPrefix(commands, i + 1);
      assert commands[..i + 1][..i] == commands[..i];
    } else {
      assert commands[..i] == commands;
    }
  }

  /** One key. The pass ends early with an error if its slot has no owner or is a different one. */
  method ScanKey(c: Cluster, p0: Pass, key: string, pubsub: bool, ghost seen: seq<string>, ghost looked: seq<string>)
    returns (p: Pass, stop: Option<Redirect>)
    requires Learnt(c, seen, looked, p0)
    ensures stop.None? ==> Learnt(c, seen + [key], if pubsub then looked else looked + [key], p)
    ensures stop == Some(DownUnbound) ==> seen == [] && c.owner(SlotOf(c, key)).None?
    ensures stop == Some(CrossSlot) ==> seen != [] && !SameSlot(c, seen + [key])
    ensures stop.Some? ==> stop.value in {DownUnbound, CrossSlot}
  {
    hide SlotOf, SameSlot, SomePresent, SomeMissing, DifferentKeys;
    var thisSlot := KeyHashSlot(c.crc16, key);
    SlotOfKey(c, key);
    SameSlotStep(c, seen, key);
    PresenceStep(c, looked, key);
    p, stop := p0, None;
    if p.first.None? {
      p := p.(first := Some(key), slot := thisSlot, node := c.owner(thisSlot));
      if p.node.None? {
        return p, Some(DownUnbound);
      }
      if p.node == Some(c.myself) && c.migratingTo(p.slot).Some? {
        p := p.(migrating := true);
      } else if c.importingFrom(p.slot).Some? {
        p := p.(importing := true);
      }
      OneKey(c, key);
    } else {
      if p.slot != thisSlot {
        return p, Some(CrossSlot);
      }
      DifferentStep(seen, key);
      if p.importing && !p.different && p.first != Some(key) {
        p := p.(different := true);
      }
    }
    if (p.migrating || p.importing) && !pubsub {
      if key !in c.present {
        p := p.(missing := p.missing + 1);
      } else {
        p := p.(existing := p.existing + 1);
      }
    }
  }

  lemma SlotOfKey(c: Cluster, key: string)
    ensures SlotOf(c, key) == KeySlot(c.crc16, key)
  {
  }

  lemma OneKey(c: Cluster, key: string)
    ensures !DifferentKeys([key]) && [] + [key] == [key]
    ensures !SomePresent(c, []) && !SomeMissing(c, [])
  {
  }

  lemma KeysNext(commands: seq<Command>, i: nat)
    requires i < |commands|
    ensures Keys(commands[..i + 1]) == Keys(commands[..i]) + commands[i].keys
    ensures Pubsub(commands[..i + 1]) <==> Pubsub(commands[..i]) || commands[i].shardPubsub
    ensures LookedUp(commands[..i + 1])
         == LookedUp(commands[..i]) + if Pubsub(commands[..i + 1]) then [] else commands[i].keys
  {
    var next := commands[..i + 1];
    assert next[..i] == commands[..i];
    assert next[i] == commands[i];
    assert forall k :: 0 <= k < i ==> next[k] == commands[..i][k];
  }

  /** Seeing the wrong slot, or no owner, decides the matter for the whole request. */
  lemma StopDecides(c: Cluster, r: Request, seen: seq<string>, stop: Redirect)
    requires c.redirects && (r.isExec ==> r.inMulti) && seen != [] && seen <= Keys(r.commands)
    requires stop == DownUnbound ==> c.owner(SlotOf(c, seen[0])).None?
    requires stop == CrossSlot ==> c.owner(SlotOf(c, seen[0])).Some? && !SameSlot(c, seen)
    requires stop in {DownUnbound, CrossSlot}
    ensures Decide(c, r) == Answer(None, stop)
  {
    hide SameSlot, SlotOf, Serve, Keys, LookedUp;
    var keys := Keys(r.commands);
    if stop == CrossSlot {
      CrossSlotStays(c, seen, keys[|seen|..]);
      assert seen + keys[|seen|..] == keys;
    }
  }

  lemma PassDecides(c: Cluster, r: Request, p: Pass, pubsub: bool)
    requires c.redirects && (r.isExec ==> r.inMulti) && pubsub == Pubsub(r.commands)
    requires Learnt(c, Keys(r.commands), LookedUp(r.commands), p)
    ensures p.node.None? ==> Decide(c, r) == Answer(Some(c.myself), NoRedirect)
    ensures p.node.Some? ==>
      Decide(c, r) == Serve(c, r, p.slot, p.node.value, pubsub, p.migrating, p.importing,
                            p.missing > 0, p.existing > 0, p.different)
  {
    hide SameSlot, SlotOf, Keys, LookedUp, SomeMissing, SomePresent, DifferentKeys, Pubsub;
  }

  /** The function as written: two nested loops, then a cascade of tests. */
  method GetNodeByQuery(c: Cluster, r: Request) returns (answer: Answer)
    ensures answer == Decide(c, r)
    ensures SlotRule(c, r, answer)
    ensures OneSlot(c, r) ==> DownRule(c, r, answer) && OwnerRule(c, r, answer)
    ensures OneSlot(c, r) && Migrating(c, SlotOf(c, Keys(r.commands)[0])) ==> MigratingRule(c, r, answer)
    ensures OneSlot(c, r) && r.asking && Importing(c, SlotOf(c, Keys(r.commands)[0])) ==> ImportingRule(c, r, answer)
  {
    DecisionMeans(c, r);
    hide Serve, Learnt, Decide, SameSlot, SlotOf, Keys, LookedUp, Pubsub;
    hide OneSlot, Migrating, Importing, MigratingRule, ImportingRule, DownRule, SlotRule, OwnerRule;
    if !c.redirects || (r.isExec && !r.inMulti) {
      NoKeysNeeded(c, r);
      return Answer(Some(c.myself), NoRedirect);
    }
    var p, pubsub := Pass(None, 0, None, false, false, 0, 0, false), false;
    StartPass(c, r.commands);
    for i := 0 to |r.commands|
      invariant pubsub == Pubsub(r.commands[..i])
      invariant Learnt(c, Keys(r.commands[..i]), LookedUp(r.commands[..i]), p)
    {
      if !pubsub && r.commands[i].shardPubsub {
        pubsub := true;
      }
      KeysNext(r.commands, i);
      KeysPrefix(r.commands, i + 1);
      var keys := r.commands[i].keys;
      ghost var seen, looked := Keys(r.commands[..i]), LookedUp(r.commands[..i]);
      assert seen + keys[..0] == seen && looked + [] == looked && keys[..0] == [];
      for j := 0 to |keys|
        invariant Learnt(c, seen + keys[..j], looked + if pubsub then [] else keys[..j], p)
      {
        assert keys[..j + 1] == keys[..j] + [keys[j]];
        assert seen + keys[..j + 1] == (seen + keys[..j]) + [keys[j]];
        assert looked + keys[..j + 1] == (looked + keys[..j]) + [keys[j]];
        ghost var before := seen + keys[..j];
        ghost var q := p;
        var stop;
        p, stop := ScanKey(c, p, keys[j], pubsub, before, looked + if pubsub then [] else keys[..j]);
        if stop.Some? {
          ScanStops(c, q, before, looked + if pubsub then [] else keys[..j], keys[j]);
          PrefixOf(seen, keys, j + 1, Keys(r.commands));
          StopDecides(c, r, before + [keys[j]], stop.value);
          return Answer(None, stop.value);
        }
      }
      assert keys[..|keys|] == keys;
    }
    assert r.commands[..|r.commands|] == r.commands;
    PassDecides(c, r, p, pubsub);
    if p.node.None? {
      return Answer(Some(c.myself), NoRedirect);
    }
    answer := Finish(c, r, p, p.node.value, pubsub);
  }

  lemma PrefixOf(seen: seq<string>, keys: seq<string>, j: nat, all: seq<string>)
    requires j <= |keys| && seen + keys <= all
    ensures seen + keys[..j] <= all
  {
  }

  /** If the pass stops at a key, the first key of all has an owner unless it is this one. */
  lemma ScanStops(c: Cluster, p: Pass, seen: seq<string>, looked: seq<string>, key: string)
    requires Learnt(c, seen, looked, p)
    ensures seen != [] ==> c.owner(SlotOf(c, (seen + [key])[0])).Some?
    ensures seen == [] ==> (seen + [key])[0] == key
  {
  }

  lemma NoKeysNeeded(c: Cluster, r: Request)
    requires !c.redirects || (r.isExec && !r.inMulti)
    ensures Decide(c, r) == Answer(Some(c.myself), NoRedirect)
  {
  }

  lemma StartPass(c: Cluster, commands: seq<Command>)
    ensures Keys(commands[..0]) == [] && LookedUp(commands[..0]) == [] && !Pubsub(commands[..0])
    ensures Learnt(c, [], [], Pass(None, 0, None, false, false, 0, 0, false))
  {
  }

  /** The cascade at the end. */
  method Finish(c: Cluster, r: Request, p: Pass, node: Node, pubsub: bool) returns (answer: Answer)
    ensures answer
      == Serve(c, r, p.slot, node, pubsub, p.migrating, p.importing, p.missing > 0, p.existing > 0, p.different)
  {
    if !c.healthy {
      if pubsub {
        if !c.pubsubWhenDown {
          return Answer(None, DownState);
        }
      } else if !c.readsWhenDown {
        return Answer(None, DownState);
      } else if r.writes {
        return Answer(None, DownReadOnly);
      }
    }
    if (p.migrating || p.importing) && r.isMigrate {
      return Answer(Some(c.myself), NoRedirect);
    }
    if p.migrating && p.missing > 0 {
      if p.existing > 0 {
        return Answer(None, Unstable);
      }
      return Answer(c.migratingTo(p.slot), Ask);
    }
    if p.importing && r.asking {
      if p.different && p.missing > 0 {
        return Answer(None, Unstable);
      }
      return Answer(Some(c.myself), NoRedirect);
    }
    var isWrite := r.writes || (r.isExec && r.queuedWrites);
    if (r.readonly || pubsub) && !isWrite && c.master.Some? && c.master == Some(node) {
      return Answer(Some(c.myself), NoRedirect);
    }
    answer := Answer(Some(node), if node != c.myself then Moved else NoRedirect);
  }

  // ----- what a caller may rely on -----

  /** The keys are looked at, and all of them are in one slot that has an owner. */
  predicate OneSlot(c: Cluster, r: Request) {
    && c.redirects && (r.isExec ==> r.inMulti)
    && Keys(r.commands) != [] && SameSlot(c, Keys(r.commands))
    && c.owner(SlotOf(c, Keys(r.commands)[0])).Some?
  }

  /** The state of the cluster lets the request through. */
  predicate Up(c: Cluster, r: Request) {
    c.healthy || if Pubsub(r.commands) then c.pubsubWhenDown else c.readsWhenDown && !r.writes
  }

  predicate AllPresent(c: Cluster, keys: seq<string>) {
    forall i :: 0 <= i < |keys| ==> keys[i] in c.present
  }

  predicate NonePresent(c: Cluster, keys: seq<string>) {
    forall i :: 0 <= i < |keys| ==> keys[i] !in c.present
  }

  lemma {:induction false} AllLookedUp(commands: seq<Command>)
    requires !Pubsub(commands)
    ensures LookedUp(commands) == Keys(commands)
    decreases |commands|
  {
    if commands != [] {
      var front := commands[..|commands| - 1];
      assert forall i :: 0 <= i < |front| ==> !commands[i].shardPubsub;
      AllLookedUp(front);
    }
  }

  /** Some key of some command. */
  predicate HasKey(commands: seq<Command>, key: string) {
    exists i :: 0 <= i < |commands| && key in commands[i].keys
  }

  /**
   Keys in two slots, a slot without owner, or no keys to look at. The slot is that of the first
   key, if it has an owner, and any key in another one is an error.
   */
  predicate SlotRule(c: Cluster, r: Request, answer: Answer) {
    var keys := Keys(r.commands);
    if !c.redirects || (r.isExec && !r.inMulti) || keys == [] then answer == Answer(Some(c.myself), NoRedirect)
    else
      var unbound := c.owner(SlotOf(c, keys[0])).None?;
      var crossing := exists i, j :: 0 <= i < |keys| && 0 <= j < |keys| && SlotOf(c, keys[i]) != SlotOf(c, keys[j]);
      && (answer == Answer(None, DownUnbound) <==> unbound)
      && (answer == Answer(None, CrossSlot) <==> !unbound && crossing)
      && (answer.node.Some? ==> !crossing)
  }

  /**
   The client is a reader that this replica of the owner may answer: it declared itself one, or
   it publishes or subscribes, and nothing it runs writes.
   */
  predicate ReadsHere(c: Cluster, r: Request, owner: Node) {
    && (r.readonly || Pubsub(r.commands)) && c.master == Some(owner)
    && !r.writes && !(r.isExec && r.queuedWrites)
  }

  /** A slot that is not open for this request is served by its owner, and by others redirected to it. */
  predicate OwnerRule(c: Cluster, r: Request, answer: Answer)
    requires OneSlot(c, r)
  {
    var slot := SlotOf(c, Keys(r.commands)[0]);
    var owner := c.owner(slot).value;
    var here := owner == c.myself || ReadsHere(c, r, owner) || (Importing(c, slot) && r.isMigrate);
    !Migrating(c, slot) && !(Importing(c, slot) && r.asking) ==>
      && (answer == Answer(Some(owner), Moved) <==> Up(c, r) && !here)
      && (answer == Answer(Some(c.myself), NoRedirect) <==> Up(c, r) && here)
  }

  /** A request turned away because of the state of the cluster is told which state it is. */
  predicate DownRule(c: Cluster, r: Request, answer: Answer) {
    var readOnly := !Pubsub(r.commands) && c.readsWhenDown;
    && (answer == Answer(None, DownReadOnly) <==> !Up(c, r) && readOnly)
    && (answer == Answer(None, DownState) <==> !Up(c, r) && !readOnly)
  }

  /**
   The owner of a slot that is moving away serves what it has, passes on what it has not, and
   no mix; MIGRATE itself it always serves.
   */
  predicate MigratingRule(c: Cluster, r: Request, answer: Answer)
    requires Keys(r.commands) != []
  {
    var keys := LookedUp(r.commands);
    var slot := SlotOf(c, Keys(r.commands)[0]);
    && (answer == Answer(Some(c.myself), NoRedirect) <==> Up(c, r) && (r.isMigrate || AllPresent(c, keys)))
    && (answer.error == Ask <==> Up(c, r) && !r.isMigrate && keys != [] && NonePresent(c, keys))
    && (answer.error == Ask ==> answer.node == c.migratingTo(slot))
    && (answer.error == Unstable <==> Up(c, r) && !r.isMigrate && !AllPresent(c, keys) && !NonePresent(c, keys))
  }

  /** The node a slot is moving to serves a request sent on to it if one key or all keys are there. */
  predicate ImportingRule(c: Cluster, r: Request, answer: Answer) {
    var whole := !DifferentKeys(Keys(r.commands)) || AllPresent(c, LookedUp(r.commands));
    && (answer == Answer(Some(c.myself), NoRedirect) <==> Up(c, r) && (r.isMigrate || whole))
    && (answer == Answer(None, Unstable) <==> Up(c, r) && !r.isMigrate && !whole)
  }

  lemma MigratingOwner(c: Cluster, r: Request)
    requires OneSlot(c, r) && Migrating(c, SlotOf(c, Keys(r.commands)[0]))
    ensures MigratingRule(c, r, Decide(c, r)) && DownRule(c, r, Decide(c, r))
  {
    hide SlotOf, Keys, LookedUp, SameSlot, Pubsub, DifferentKeys;
    var looked := LookedUp(r.commands);
    assert looked != [] ==> looked[0] in c.present || looked[0] !in c.present;
  }

  lemma ImportingNode(c: Cluster, r: Request)
    requires OneSlot(c, r) && r.asking && Importing(c, SlotOf(c, Keys(r.commands)[0]))
    ensures ImportingRule(c, r, Decide(c, r)) && DownRule(c, r, Decide(c, r))
  {
    hide SlotOf, Keys, LookedUp, SameSlot, Pubsub, DifferentKeys;
  }

  lemma OwnerServes(c: Cluster, r: Request)
    requires OneSlot(c, r)
    ensures OwnerRule(c, r, Decide(c, r)) && DownRule(c, r, Decide(c, r))
  {
    hide SlotOf, Keys, LookedUp, SameSlot, Pubsub, DifferentKeys;
  }

  lemma SlotDecides(c: Cluster, r: Request)
    ensures SlotRule(c, r, Decide(c, r))
  {
    hide SlotOf, Keys, LookedUp, Pubsub, DifferentKeys, SomeMissing, SomePresent;
    ServeNames(c, r);
    var keys := Keys(r.commands);
    if keys != [] && !SameSlot(c, keys) {
      var i :| 0 <= i < |keys| && SlotOf(c, keys[i]) != SlotOf(c, keys[0]);
      assert exists i, j :: 0 <= i < |keys| && 0 <= j < |keys| && SlotOf(c, keys[i]) != SlotOf(c, keys[j]);
    }
    hide Serve;
  }

  lemma ServeNames(c: Cluster, r: Request)
    ensures forall slot, node, pubsub, migrating, importing, missing, existing, different ::
      var answer := Serve(c, r, slot, node, pubsub, migrating, importing, missing, existing, different);
      answer.error != DownUnbound && answer.error != CrossSlot
  {
  }

  lemma DecisionMeans(c: Cluster, r: Request)
    ensures var answer := Decide(c, r);
      && SlotRule(c, r, answer)
      && (OneSlot(c, r) ==> DownRule(c, r, answer) && OwnerRule(c, r, answer))
      && (OneSlot(c, r) && Migrating(c, SlotOf(c, Keys(r.commands)[0])) ==> MigratingRule(c, r, answer))
      && (OneSlot(c, r) && r.asking && Importing(c, SlotOf(c, Keys(r.commands)[0])) ==> ImportingRule(c, r, answer))
  {
    hide SlotRule, DownRule, OwnerRule, MigratingRule, ImportingRule, Decide;
    SlotDecides(c, r);
    if OneSlot(c, r) {
      OwnerServes(c, r);
      if Migrating(c, SlotOf(c, Keys(r.commands)[0])) {
        MigratingOwner(c, r);
      }
      if r.asking && Importing(c, SlotOf(c, Keys(r.commands)[0])) {
        ImportingNode(c, r);
      }
    }
  }

  /** The keys of a request are those of all queued commands. */
  lemma {:induction false} KeysMeant(commands: seq<Command>, key: string)
    ensures key in Keys(commands) <==> HasKey(commands, key)
    decreases |commands|
  {
    if commands != [] {
      var n := |commands| - 1;
      KeysMeant(commands[..n], key);
      assert HasKey(commands[..n], key) ==> HasKey(commands, key);
      assert commands[n] in commands;
    }
  }

  /** Some key of a command with no publish/subscribe up to it. */
  predicate HasKeyBefore(commands: seq<Command>, key: string) {
    exists i :: 0 <= i < |commands| && key in commands[i].keys && QuietUpTo(commands, i)
  }

  predicate QuietUpTo(commands: seq<Command>, i: nat)
    requires i < |commands|
  {
    forall j :: 0 <= j <= i ==> !commands[j].shardPubsub
  }

  /** The keys looked up are those before the first publish/subscribe. */
  lemma {:induction false} LookedUpMeant(commands: seq<Command>, key: string)
    ensures key in LookedUp(commands) <==> HasKeyBefore(commands, key)
    decreases |commands|
  {
    if commands != [] {
      var n := |commands| - 1;
      var front := commands[..n];
      LookedUpMeant(front, key);
      forall i | 0 <= i < n
        ensures QuietUpTo(front, i) <==> QuietUpTo(commands, i)
      {
        assert forall j :: 0 <= j <= i ==> front[j] == commands[j];
      }
      assert QuietUpTo(commands, n) <==> !Pubsub(commands);
      hide QuietUpTo, Pubsub;
      if HasKeyBefore(front, key) {
        var i :| 0 <= i < n && key in front[i].keys && QuietUpTo(front, i);
        assert front[i] == commands[i];
      }
      if HasKeyBefore(commands, key) {
        var i :| 0 <= i < |commands| && key in commands[i].keys && QuietUpTo(commands, i);
        assert i < n ==> front[i] == commands[i];
      }
    }
  }

  /** For requests without publish/subscribe the keys looked up are all the keys. */
  lemma WholeRequest(c: Cluster, r: Request, answer: Answer)
    requires Keys(r.commands) != [] && !Pubsub(r.commands) && !r.isMigrate && Up(c, r)
    requires MigratingRule(c, r, answer)
    ensures answer == Answer(Some(c.myself), NoRedirect) <==> AllPresent(c, Keys(r.commands))
    ensures answer.error == Ask <==> NonePresent(c, Keys(r.commands))
  {
    AllLookedUp(r.commands);
  }
}
