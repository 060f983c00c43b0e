/**
 The append-only log as a set of files named by a manifest (aof.c): one BASE snapshot, INCR
 logs in order, and HISTORY files waiting to be deleted. A background rewrite replaces the
 base while commands keep arriving. Every step below is one file operation, so a crash may
 fall between any two of them.
 */
module AofManifest {
  import opened Common

  type Command = seq<string>

  // ----- files and manifests -----

  /** File names; the suffix of a base records its format. */
  datatype Name = BaseName(seqno: nat, rdb: bool) | IncrName(seqno: nat) | Legacy | Temp(pid: nat)

  datatype Info = Info(name: Name, seqno: nat)

  /** `aofManifest`, with the counters that number new files. */
  datatype Manifest = Manifest(base: Option<Info>, incr: seq<Info>, history: seq<Info>, baseSeq: nat, incrSeq: nat)

  /** What the manifest file records. */
  datatype Listing = Listing(base: Option<Info>, incr: seq<Info>, history: seq<Info>)

  function AsListing(am: Manifest): Listing { Listing(am.base, am.incr, am.history) }

  /** `aofLoadManifestFromFile`: the counters continue from the files listed as base and incr. */
  function FromListing(l: Listing): Manifest {
    Manifest(l.base, l.incr, l.history,
             if l.base.Some? then l.base.value.seqno else 0,
             if l.incr == [] then 0 else l.incr[|l.incr| - 1].seqno)
  }

  /** A file holds commands; a snapshot holds those that rebuild the data set. */
  datatype Content = Snapshot(data: seq<Command>) | Log(data: seq<Command>)

  datatype Disk = Disk(files: map<Name, Content>, listing: Listing)

  /** `getNewBaseFileNameAndMarkPreAsHistory`. */
  function NewBase(am: Manifest, rdb: bool): Manifest {
    var n := am.baseSeq + 1;
    am.(base := Some(Info(BaseName(n, rdb), n)), baseSeq := n,
        history := (if am.base.Some? then [am.base.value] else []) + am.history)
  }

  /** `getNewIncrAofName`. */
  function NewIncr(am: Manifest): Manifest {
    var n := am.incrSeq + 1;
    am.(incr := am.incr + [Info(IncrName(n), n)], incrSeq := n)
  }

  /** `markRewrittenIncrAofAsHistory`, with the log being appended to left in place. */
  function MarkRewritten(am: Manifest): Manifest {
    if am.incr == [] then am
    else
      var last := |am.incr| - 1;
      am.(incr := am.incr[last..], history := am.incr[..last] + am.history)
  }

  // ----- loading -----

  /** The logs in order; none if one is missing. */
  function LoadLogs(files: map<Name, Content>, incr: seq<Info>): Option<seq<Command>> {
    if incr == [] then Some([])
    else
      var last := |incr| - 1;
      match LoadLogs(files, incr[..last])
      case None => None
      case Some(d) =>
        if incr[last].name in files then Some(d + files[incr[last].name].data) else None
  }

  function LoadBase(files: map<Name, Content>, base: Option<Info>): Option<seq<Command>> {
    if base.None? then Some([])
    else if base.value.name in files then Some(files[base.value.name].data) else None
  }

  function LoadFiles(files: map<Name, Content>, base: Option<Info>, incr: seq<Info>): Option<seq<Command>> {
    match LoadBase(files, base)
    case None => None
    case Some(b) =>
      match LoadLogs(files, incr)
      case None => None
      case Some(l) => Some(b + l)
  }

  /** `loadAppendOnlyFiles`: the base, then the logs; a listed file that is missing is fatal. */
  function Load(d: Disk): Option<seq<Command>> { LoadFiles(d.files, d.listing.base, d.listing.incr) }

  // ----- the process -----

  datatype Child = NoChild | Running(pid: nat, snapshot: seq<Command>) | Exited(pid: nat, snapshot: seq<Command>, ok: bool)

  /** Where the main thread stands inside a multi-operation function. */
  datatype Pc = Idle | OpenedIncr(am: Manifest) | RenamedBase(am: Manifest) | Deleting

  /** `data` is the data set, `buf` the commands fed and not yet written, `fd` the open log. */
  datatype Server = Server(am: Manifest, fd: Name, buf: seq<Command>, data: seq<Command>, child: Child, pc: Pc)

  /**
   For the statement only, `written` records every command written to a log so far, and `left`
   what the flush before the last rewrite left in the buffer.
   */
  datatype World = World(disk: Disk, server: Server, written: seq<Command>, left: seq<Command>)

  /**
   The outcomes of `persistAofManifest`. The last one reports failure although the new manifest
   is in place: the rename succeeded and the directory could not be synced.
   */
  datatype Persist = Replaced | Kept | ReplacedUnsynced

  datatype Event =
    | Feed(cmd: Command)
    | Write(count: nat)
    | OpenIncr
    | PersistIncr(result: Persist, fork: Option<nat>)
    | ChildSucceeds
    | ChildFails(partial: Option<Content>)
    | HandleFailure
    | RenameBase(ok: bool, rdb: bool)
    | PersistBase(result: Persist, collect: bool)
    | StartCollecting
    | Unlink
    | PersistHistory(result: Persist)
    | Restart

  /** The step for one event, or none if it cannot happen now. */
  function Step(w: World, e: Event): Option<World> {
    var s, d := w.server, w.disk;
    match e
    case Feed(cmd) =>
      if !s.pc.Idle? then None
      else Some(w.(server := s.(buf := s.buf + [cmd], data := s.data + [cmd])))
    case Write(count) => StepWrite(w, count)
    case OpenIncr =>
      if !s.pc.Idle? || !s.child.NoChild? then None
      else
        var am := NewIncr(s.am);
        Some(w.(disk := d.(files := d.files[IncrName(am.incrSeq) := Log([])]),
                server := s.(pc := OpenedIncr(am)), left := s.buf))
    case PersistIncr(result, fork) => StepPersistIncr(w, result, fork)
    case ChildSucceeds =>
      if !s.child.Running? then None
      else Some(w.(disk := d.(files := d.files[Temp(s.child.pid) := Snapshot(s.child.snapshot)]),
                   server := s.(child := Exited(s.child.pid, s.child.snapshot, true))))
    case ChildFails(partial) =>
      if !s.child.Running? then None
      else Some(w.(disk := d.(files := if partial.Some? then d.files[Temp(s.child.pid) := partial.value] else d.files),
                   server := s.(child := Exited(s.child.pid, s.child.snapshot, false))))
    case HandleFailure =>
      if !s.pc.Idle? || !s.child.Exited? || s.child.ok then None else Some(Discard(w))
    case RenameBase(ok, rdb) => StepRename(w, ok, rdb)
    case PersistBase(result, collect) => StepPersistBase(w, result, collect)
    case StartCollecting =>
      if !s.pc.Idle? || s.am.history == [] then None else Some(w.(server := s.(pc := Deleting)))
    case Unlink =>
      if !s.pc.Deleting? || s.am.history == [] then None
      else Some(w.(disk := d.(files := d.files - {s.am.history[0].name}),
                   server := s.(am := s.am.(history := s.am.history[1..]))))
    case PersistHistory(result) =>
      if !s.pc.Deleting? || s.am.history != [] then None
      else Some(w.(disk := Persisted(d, s.am, result), server := s.(pc := Idle)))
    case Restart =>
      if Load(d).None? || d.listing.incr == [] then None
      else
        var am, data := FromListing(d.listing), Load(d).value;
        Some(w.(server := Server(am, am.incr[|am.incr| - 1].name, [], data, NoChild, Idle)))
  }

  /** `flushAppendOnlyFile`: the first `count` buffered commands reach the open log. */
  function StepWrite(w: World, count: nat): Option<World> {
    var s, d := w.server, w.disk;
    if !s.pc.Idle? || count > |s.buf| || s.fd !in d.files then None
    else
      Some(World(d.(files := d.files[s.fd := Log(d.files[s.fd].data + s.buf[..count])]),
                 s.(buf := s.buf[count..]), w.written + s.buf[..count], w.left))
  }

  /** What a persist leaves on the disk. */
  function Persisted(d: Disk, am: Manifest, result: Persist): Disk {
    if result.Kept? then d else d.(listing := AsListing(am))
  }

  /** `openNewIncrAofForAppend` after the open, then the fork; a failure drops the new manifest. */
  function StepPersistIncr(w: World, result: Persist, fork: Option<nat>): Option<World> {
    var s := w.server;
    if !s.pc.OpenedIncr? then None
    else
      var am := s.pc.am;
      var d := Persisted(w.disk, am, result);
      if !result.Replaced? then Some(w.(disk := d, server := s.(pc := Idle)))
      else
        Some(w.(disk := d,
                server := s.(am := am, fd := IncrName(am.incrSeq), pc := Idle,
                             child := if fork.Some? then Running(fork.value, s.data) else NoChild)))
  }

  /** Drop the temporary file and forget the child. */
  function Discard(w: World): World
    requires !w.server.child.NoChild?
  {
    w.(disk := w.disk.(files := w.disk.files - {Temp(w.server.child.pid)}),
       server := w.server.(child := NoChild, pc := Idle))
  }

  /** `backgroundRewriteDoneHandler`, up to the rename of the new base. */
  function StepRename(w: World, ok: bool, rdb: bool): Option<World> {
    var s, d := w.server, w.disk;
    if !s.pc.Idle? || !s.child.Exited? || !s.child.ok || Temp(s.child.pid) !in d.files then None
    else if !ok then Some(Discard(w))
    else
      var am := NewBase(s.am, rdb);
      var temp := Temp(s.child.pid);
      Some(w.(disk := d.(files := d.files[am.base.value.name := d.files[temp]] - {temp}),
              server := s.(pc := RenamedBase(MarkRewritten(am)))))
  }

  /** Its second half: persist, or take the new base away again. */
  function StepPersistBase(w: World, result: Persist, collect: bool): Option<World> {
    var s, d := w.server, w.disk;
    if !s.pc.RenamedBase? || s.pc.am.base.None? then None
    else
      var d' := Persisted(d, s.pc.am, result);
      if result.Replaced? then
        Some(w.(disk := d',
                server := s.(am := s.pc.am, child := NoChild,
                             pc := if collect && s.pc.am.history != [] then Deleting else Idle)))
      else
        Some(w.(disk := d'.(files := d'.files - {s.pc.am.base.value.name}), server := s.(child := NoChild, pc := Idle)))
  }

  // ----- the invariant -----

  /** The files a load would read. */
  ghost predicate Listed(am: Manifest, n: Name) {
    (am.base.Some? && n == am.base.value.name) || (exists i :: 0 <= i < |am.incr| && n == am.incr[i].name)
  }

  /** Names carry their numbers, logs are numbered upwards, and the counters are the last numbers used. */
  ghost predicate Numbered(am: Manifest) {
    && am.incr != []
    && (forall i :: 0 <= i < |am.incr| ==> am.incr[i].name == IncrName(am.incr[i].seqno))
    && (forall i, j :: 0 <= i < j < |am.incr| ==> am.incr[i].seqno < am.incr[j].seqno)
    && am.incrSeq == am.incr[|am.incr| - 1].seqno
    && (am.base.Some? ==> am.base.value.name == Legacy
                          || (am.base.value.name.BaseName? && am.base.value.name.seqno == am.base.value.seqno))
    && am.baseSeq == (if am.base.Some? then am.base.value.seqno else 0)
  }

  /** A file that is history is never read and its name is never given out again. */
  ghost predicate Past(am: Manifest, n: Name) {
    && !Listed(am, n)
    && match n
       case BaseName(k, _) => k <= am.baseSeq
       case IncrName(k) => k <= am.incrSeq
       case Legacy => true
       case Temp(_) => false
  }

  ghost predicate PastAll(am: Manifest, history: seq<Info>) {
    forall i :: 0 <= i < |history| ==> Past(am, history[i].name)
  }

  /**
   All that was written is some commands followed by the open log. The snapshot of a live or
   successful child is those commands followed by what the flush left behind.
   */
  ghost predicate SnapshotCovers(w: World) {
    && !w.server.child.NoChild? && w.server.fd in w.disk.files
    && var log := w.disk.files[w.server.fd].data;
       && |log| <= |w.written|
       && var head := w.written[..|w.written| - |log|];
          w.written == head + log && w.server.child.snapshot == head + w.left
  }

  /** A persist that reported failure has put an empty log behind those in memory. */
  ghost predicate Spare(w: World) {
    var am := NewIncr(w.server.am);
    && w.server.child.NoChild? && w.disk.listing.incr == am.incr
    && IncrName(am.incrSeq) in w.disk.files && w.disk.files[IncrName(am.incrSeq)].data == []
  }

  ghost predicate Consistent(w: World) {
    var s, d := w.server, w.disk;
    && Numbered(s.am)
    && s.fd == s.am.incr[|s.am.incr| - 1].name
    && d.listing.base == s.am.base && (d.listing.incr == s.am.incr || Spare(w))
    && PastAll(s.am, s.am.history) && PastAll(s.am, d.listing.history)
    && LoadFiles(d.files, s.am.base, s.am.incr) == Some(w.written)
    && s.data == w.written + s.buf
  }

  ghost predicate ChildInOrder(w: World) {
    var s, d := w.server, w.disk;
    && (s.child.Running? || (s.child.Exited? && s.child.ok) ==> SnapshotCovers(w))
    && (s.child.Exited? && s.child.ok && !s.pc.RenamedBase? ==>
          Temp(s.child.pid) in d.files && d.files[Temp(s.child.pid)].data == s.child.snapshot)
  }

  ghost predicate PcInOrder(w: World) {
    var s, d := w.server, w.disk;
    match s.pc
    case Idle => true
    case OpenedIncr(am) =>
      && am == NewIncr(s.am) && s.child.NoChild? && s.buf == w.left
      && IncrName(am.incrSeq) in d.files && d.files[IncrName(am.incrSeq)].data == []
    case RenamedBase(am) =>
      && s.child.Exited? && s.child.ok
      && (exists rdb :: am == MarkRewritten(NewBase(s.am, rdb)))
      && am.base.value.name in d.files && d.files[am.base.value.name].data == s.child.snapshot
    case Deleting => true
  }

  ghost predicate Inv(w: World) {
    Consistent(w) && ChildInOrder(w) && PcInOrder(w)
  }

  // ----- what loading depends on -----

  lemma {:induction false} LogsAgree(files: map<Name, Content>, files': map<Name, Content>, incr: seq<Info>)
    requires forall i :: 0 <= i < |incr| ==>
      (incr[i].name in files <==> incr[i].name in files')
      && (incr[i].name in files ==> files[incr[i].name].data == files'[incr[i].name].data)
    ensures LoadLogs(files', incr) == LoadLogs(files, incr)
  {
    if incr != [] {
      LogsAgree(files, files', incr[..|incr| - 1]);
    }
  }

  /** Only the listed files matter to a load. */
  lemma LoadAgrees(am: Manifest, files: map<Name, Content>, files': map<Name, Content>)
    requires forall n :: Listed(am, n) ==>
      (n in files <==> n in files') && (n in files ==> files[n].data == files'[n].data)
    ensures LoadFiles(files', am.base, am.incr) == LoadFiles(files, am.base, am.incr)
  {
    forall i | 0 <= i < |am.incr|
      ensures Listed(am, am.incr[i].name)
    {
    }
    if am.base.Some? {
      assert Listed(am, am.base.value.name);
    }
    LogsAgree(files, files', am.incr);
  }

  /** An empty log at the end changes nothing. */
  lemma EmptyLogLoads(am: Manifest, files: map<Name, Content>)
    requires IncrName(NewIncr(am).incrSeq) in files && files[IncrName(NewIncr(am).incrSeq)].data == []
    ensures LoadFiles(files, am.base, NewIncr(am).incr) == LoadFiles(files, am.base, am.incr)
  {
    var incr := NewIncr(am).incr;
    assert incr[..|am.incr|] == am.incr;
    if LoadLogs(files, am.incr).Some? {
      var l := LoadLogs(files, am.incr).value;
      assert l + [] == l;
    }
  }

  /** What is on the disk loads to what was written, with a spare log or without. */
  lemma ConsistentLoads(w: World)
    requires Consistent(w)
    ensures Load(w.disk) == Some(w.written)
  {
    if Spare(w) {
      EmptyLogLoads(w.server.am, w.disk.files);
    }
  }

  lemma NewNamesAreFresh(am: Manifest, n: Name)
    requires Numbered(am)
    requires n.Temp? || (n.IncrName? && n.seqno > am.incrSeq) || (n.BaseName? && n.seqno > am.baseSeq)
    ensures !Listed(am, n)
  {
  }

  // ----- every step keeps the invariant -----

  /** Appending to the last log appends to what a load gives. */
  lemma AppendLoads(am: Manifest, files: map<Name, Content>, files': map<Name, Content>, more: seq<Command>)
    requires Numbered(am) && LoadFiles(files, am.base, am.incr).Some?
    requires var fd := am.incr[|am.incr| - 1].name;
      fd in files && files' == files[fd := Log(files[fd].data + more)]
    ensures LoadFiles(files', am.base, am.incr) == Some(LoadFiles(files, am.base, am.incr).value + more)
  {
    var last := |am.incr| - 1;
    var fd := am.incr[last].name;
    LogsAgree(files, files', am.incr[..last]);
    assert LoadBase(files', am.base) == LoadBase(files, am.base);
    var b, l := LoadBase(files, am.base).value, LoadLogs(files, am.incr[..last]).value;
    var log := files[fd].data;
    assert b + (l + (log + more)) == b + (l + log) + more;
  }

  lemma WriteKeeps(w: World, count: nat)
    requires Inv(w) && StepWrite(w, count).Some?
    ensures Inv(StepWrite(w, count).value)
  {
    var w' := StepWrite(w, count).value;
    var s, d := w.server, w.disk;
    var head := s.buf[..count];
    AppendLoads(s.am, d.files, w'.disk.files, head);
    FdIsIncr(w);
    if SnapshotCovers(w) {
      WriteCovers(w, w', head);
    }
    hide LoadFiles, Numbered, Past, SnapshotCovers;
    assert s.buf == head + s.buf[count..];
    assert w.written + s.buf == (w.written + head) + s.buf[count..];
  }

  lemma WriteCovers(w: World, w': World, more: seq<Command>)
    requires SnapshotCovers(w)
    requires w'.server.child == w.server.child && w'.server.fd == w.server.fd && w'.left == w.left
    requires w'.disk.files == w.disk.files[w.server.fd := Log(w.disk.files[w.server.fd].data + more)]
    requires w'.written == w.written + more
    ensures SnapshotCovers(w')
  {
    var log := w.disk.files[w.server.fd].data;
    var head := w.written[..|w.written| - |log|];
    assert w'.written[..|w'.written| - |log + more|] == head;
    assert w'.written == head + (log + more);
  }

  lemma FdIsIncr(w: World)
    requires Consistent(w)
    ensures w.server.fd.IncrName? && w.server.fd.seqno == w.server.am.incrSeq
  {
  }

  lemma OpenIncrKeeps(w: World)
    requires Inv(w) && Step(w, OpenIncr).Some?
    ensures Inv(Step(w, OpenIncr).value)
  {
    var w' := Step(w, OpenIncr).value;
    NewNamesAreFresh(w.server.am, IncrName(w.server.am.incrSeq + 1));
    LoadAgrees(w.server.am, w.disk.files, w'.disk.files);
  }

  lemma PersistIncrKeeps(w: World, result: Persist, fork: Option<nat>)
    requires Inv(w) && StepPersistIncr(w, result, fork).Some?
    ensures Inv(StepPersistIncr(w, result, fork).value)
  {
    if result.Replaced? {
      var am := w.server.am;
      NewIncrKeepsPast(am, am.history);
      EmptyLogLoads(am, w.disk.files);
      assert w.written + [] == w.written && w.written[..|w.written| - 0] == w.written;
    }
  }

  lemma NewIncrKeepsPast(am: Manifest, history: seq<Info>)
    requires Numbered(am) && PastAll(am, history)
    ensures PastAll(NewIncr(am), history)
  {
    var am' := NewIncr(am);
    forall i | 0 <= i < |history|
      ensures Past(am', history[i].name)
    {
      var n := history[i].name;
      assert Past(am, n);
      forall j | 0 <= j < |am'.incr|
        ensures n != am'.incr[j].name
      {
        if j < |am.incr| {
          assert am'.incr[j] == am.incr[j];
        }
      }
    }
  }

  lemma ChildKeeps(w: World, e: Event)
    requires Inv(w) && (e.ChildSucceeds? || e.ChildFails?) && Step(w, e).Some?
    ensures Inv(Step(w, e).value)
  {
    var w' := Step(w, e).value;
    NewNamesAreFresh(w.server.am, Temp(w.server.child.pid));
    LoadAgrees(w.server.am, w.disk.files, w'.disk.files);
    assert Listed(w.server.am, w.server.fd);
  }

  lemma DiscardKeeps(w: World)
    requires Inv(w) && w.server.pc.Idle? && !w.server.child.NoChild?
    ensures Inv(Discard(w))
  {
    NewNamesAreFresh(w.server.am, Temp(w.server.child.pid));
    LoadAgrees(w.server.am, w.disk.files, Discard(w).disk.files);
  }

  lemma RenameKeeps(w: World, ok: bool, rdb: bool)
    requires Inv(w) && StepRename(w, ok, rdb).Some?
    ensures Inv(StepRename(w, ok, rdb).value)
  {
    if !ok {
      DiscardKeeps(w);
    } else {
      var w' := StepRename(w, ok, rdb).value;
      var am := w.server.am;
      NewNamesAreFresh(am, Temp(w.server.child.pid));
      NewNamesAreFresh(am, NewBase(am, rdb).base.value.name);
      LoadAgrees(am, w.disk.files, w'.disk.files);
      assert Listed(am, w.server.fd);
      assert w'.server.pc.am == MarkRewritten(NewBase(am, rdb));
    }
  }

  /** Past files stay past, and the replaced base and logs join them. */
  lemma RewrittenIsPast(am: Manifest, rdb: bool, history: seq<Info>)
    requires Numbered(am) && PastAll(am, history)
    ensures var am' := MarkRewritten(NewBase(am, rdb));
      && Numbered(am') && PastAll(am', history)
      && PastAll(am', am.incr[..|am.incr| - 1])
      && (am.base.Some? ==> Past(am', am.base.value.name))
      && am'.incr == [am.incr[|am.incr| - 1]]
  {
    var am' := MarkRewritten(NewBase(am, rdb));
    assert am'.incr == [am.incr[|am.incr| - 1]];
    forall n | Listed(am', n)
      ensures n == am'.base.value.name || n == am.incr[|am.incr| - 1].name
    {
    }
    forall i | 0 <= i < |history|
      ensures Past(am', history[i].name)
    {
      assert Past(am, history[i].name);
      assert Listed(am, am.incr[|am.incr| - 1].name);
    }
  }

  /** The new manifest loads to the snapshot and the open log. */
  lemma RewriteLoads(w: World)
    requires Inv(w) && w.server.pc.RenamedBase?
    ensures var am, log := w.server.pc.am, w.disk.files[w.server.fd].data;
      LoadFiles(w.disk.files, am.base, am.incr) == Some(w.server.child.snapshot + log)
  {
    var am, am' := w.server.am, w.server.pc.am;
    var rdb :| am' == MarkRewritten(NewBase(am, rdb));
    var log := w.disk.files[w.server.fd].data;
    assert am'.incr == [am.incr[|am.incr| - 1]];
    OneLogLoads(w.disk.files, am'.base, am'.incr[0]);
  }

  /** A base and a single log. */
  lemma OneLogLoads(files: map<Name, Content>, base: Option<Info>, incr: Info)
    requires (base.Some? ==> base.value.name in files) && incr.name in files
    ensures LoadFiles(files, base, [incr])
         == Some((if base.Some? then files[base.value.name].data else []) + files[incr.name].data)
  {
    var log := files[incr.name].data;
    assert [incr][..0] == [];
    assert [] + log == log;
    assert LoadLogs(files, [incr]) == Some(log);
  }

  lemma PersistBaseKeeps(w: World, result: Persist, collect: bool)
    requires Inv(w) && StepPersistBase(w, result, collect).Some?
    requires !result.ReplacedUnsynced? && (result.Replaced? ==> w.left == [])
    ensures Inv(StepPersistBase(w, result, collect).value)
  {
    var w' := StepPersistBase(w, result, collect).value;
    var am, am' := w.server.am, w.server.pc.am;
    var rdb :| am' == MarkRewritten(NewBase(am, rdb));
    if result.Kept? {
      NewNamesAreFresh(am, am'.base.value.name);
      LoadAgrees(am, w.disk.files, w'.disk.files);
    } else {
      RewrittenIsPast(am, rdb, am.history);
      HistoryOfRewrite(am, rdb);
      RewriteLoads(w);
      var log := w.disk.files[w.server.fd].data;
      var head := w.written[..|w.written| - |log|];
      assert head + [] == head;
    }
  }

  lemma HistoryOfRewrite(am: Manifest, rdb: bool)
    requires Numbered(am) && PastAll(am, am.history)
    ensures var am' := MarkRewritten(NewBase(am, rdb)); PastAll(am', am'.history)
  {
    RewrittenIsPast(am, rdb, am.history);
    var am' := MarkRewritten(NewBase(am, rdb));
    var last := |am.incr| - 1;
    var older := (if am.base.Some? then [am.base.value] else []) + am.history;
    assert am'.history == am.incr[..last] + older;
    hide Past;
    forall i | 0 <= i < |am'.history|
      ensures Past(am', am'.history[i].name)
    {
      if i < last {
        assert am'.history[i] == am.incr[..last][i];
      } else if am.base.Some? && i == last {
        assert am'.history[i] == am.base.value;
      } else {
        var k := if am.base.Some? then i - last - 1 else i - last;
        assert am'.history[i] == am.history[k];
      }
    }
  }

  lemma CollectKeeps(w: World, e: Event)
    requires Inv(w) && (e.StartCollecting? || e.Unlink? || e.PersistHistory?) && Step(w, e).Some?
    ensures Inv(Step(w, e).value)
  {
    if e.Unlink? {
      UnlinkKeeps(w);
    }
  }

  lemma UnlinkKeeps(w: World)
    requires Inv(w) && Step(w, Unlink).Some?
    ensures Inv(Step(w, Unlink).value)
  {
    var w' := Step(w, Unlink).value;
    var s := w.server;
    assert Past(s.am, s.am.history[0].name);
    LoadAgrees(s.am, w.disk.files, w'.disk.files);
    assert Listed(s.am, s.fd);
    SameListing(s.am, w'.server.am, s.am.history[1..]);
    SameListing(s.am, w'.server.am, w.disk.listing.history);
    hide LoadFiles, Numbered;
  }

  lemma SameListing(am: Manifest, am': Manifest, history: seq<Info>)
    requires am' == am.(history := am'.history) && PastAll(am, history)
    ensures PastAll(am', history)
  {
    forall i | 0 <= i < |history|
      ensures Past(am', history[i].name)
    {
      assert Past(am, history[i].name);
      assert forall n :: Listed(am', n) <==> Listed(am, n);
    }
  }

  lemma RestartKeeps(w: World)
    requires Inv(w)
    ensures Step(w, Restart).Some?
    ensures var w' := Step(w, Restart).value;
      Inv(w') && w'.server.data == w.written && w'.disk == w.disk
  {
    ConsistentLoads(w);
    var history := w.disk.listing.history;
    var am, am' := w.server.am, FromListing(w.disk.listing);
    if w.disk.listing.incr == am.incr {
      assert am' == am.(history := history);
      SameListing(am, am', history);
    } else {
      NewIncrKeepsPast(am, history);
      assert am' == NewIncr(am).(history := history);
      SameListing(NewIncr(am), am', history);
    }
  }

  // ----- runs -----

  /**
   A new base is put in place only if its persist tells the truth and the flush before the
   rewrite left nothing behind.
   */
  ghost predicate Clean(w: World, e: Event) {
    e.PersistBase? ==> !e.result.ReplacedUnsynced? && (e.result.Replaced? ==> w.left == [])
  }

  lemma StepKeeps(w: World, e: Event)
    requires Inv(w) && Step(w, e).Some? && Clean(w, e)
    ensures Inv(Step(w, e).value)
  {
    match e
    case Feed(cmd) =>
      assert w.written + (w.server.buf + [cmd]) == w.written + w.server.buf + [cmd];
    case Write(count) => WriteKeeps(w, count);
    case OpenIncr => OpenIncrKeeps(w);
    case PersistIncr(result, fork) => PersistIncrKeeps(w, result, fork);
    case ChildSucceeds => ChildKeeps(w, e);
    case ChildFails(_) => ChildKeeps(w, e);
    case HandleFailure => DiscardKeeps(w);
    case RenameBase(ok, rdb) => RenameKeeps(w, ok, rdb);
    case PersistBase(result, collect) => PersistBaseKeeps(w, result, collect);
    case StartCollecting => CollectKeeps(w, e);
    case Unlink => CollectKeeps(w, e);
    case PersistHistory(_) => CollectKeeps(w, e);
    case Restart => RestartKeeps(w);
  }

  /** `events` can happen one after another from `w`, each of them clean, and end in the result. */
  ghost function Run(w: World, events: seq<Event>): Option<World>
    decreases |events|
  {
    if events == [] then Some(w)
    else if Clean(w, events[0]) && Step(w, events[0]).Some? then Run(Step(w, events[0]).value, events[1..])
    else None
  }

  /**
   After any run, crash and load: the load succeeds and gives exactly the commands written, in
   order. A restart can always follow, and the process it starts holds those commands.
   */
  lemma {:induction false} EveryRunLoads(w: World, events: seq<Event>)
    requires Inv(w) && Run(w, events).Some?
    ensures var w' := Run(w, events).value;
      && Inv(w')
      && Load(w'.disk) == Some(w'.written)
      && Step(w', Restart).Some? && Step(w', Restart).value.server.data == w'.written
      && w.written <= w'.written
    decreases |events|
  {
    if events != [] {
      StepKeeps(w, events[0]);
      WrittenGrows(w, events[0]);
      EveryRunLoads(Step(w, events[0]).value, events[1..]);
    }
    ConsistentLoads(Run(w, events).value);
    RestartKeeps(Run(w, events).value);
  }

  lemma WrittenGrows(w: World, e: Event)
    requires Step(w, e).Some?
    ensures w.written <= Step(w, e).value.written
  {
  }

  /** `events`, clean or not. */
  function Steps(w: World, events: seq<Event>): Option<World>
    decreases |events|
  {
    if events == [] then Some(w)
    else if Step(w, events[0]).None? then None
    else Steps(Step(w, events[0]).value, events[1..])
  }

  lemma {:induction false} RunIsSteps(w: World, events: seq<Event>)
    requires Run(w, events).Some?
    ensures Steps(w, events) == Run(w, events)
    decreases |events|
  {
    if events != [] {
      RunIsSteps(Step(w, events[0]).value, events[1..]);
    }
  }

  // ----- what is fed is kept -----

  /** The commands fed, in order. */
  function Fed(events: seq<Event>): seq<Command> {
    if events == [] then []
    else (if events[0].Feed? then [events[0].cmd] else []) + Fed(events[1..])
  }

  /**
   What should have been written or still be in the buffer: all that was, then all that is fed,
   less what a crash finds in the buffer.
   */
  function Owed(w: World, events: seq<Event>, all: seq<Command>): seq<Command>
    decreases |events|
  {
    if events == [] || Step(w, events[0]).None? then all
    else
      var next := Step(w, events[0]).value;
      match events[0]
      case Feed(cmd) => Owed(next, events[1..], all + [cmd])
      case Restart => Owed(next, events[1..], if |w.server.buf| <= |all| then all[..|all| - |w.server.buf|] else all)
      case _ => Owed(next, events[1..], all)
  }

  function InHand(w: World): seq<Command> { w.written + w.server.buf }

  lemma StepConserves(w: World, e: Event)
    requires Step(w, e).Some?
    ensures InHand(Step(w, e).value)
         == match e
            case Feed(cmd) => InHand(w) + [cmd]
            case Restart => InHand(w)[..|InHand(w)| - |w.server.buf|]
            case _ => InHand(w)
  {
    match e
    case Feed(cmd) =>
      assert w.written + (w.server.buf + [cmd]) == InHand(w) + [cmd];
    case Write(count) =>
      assert w.server.buf == w.server.buf[..count] + w.server.buf[count..];
      assert w.written + w.server.buf[..count] + w.server.buf[count..] == InHand(w);
    case Restart =>
      assert w.written + [] == InHand(w)[..|w.written|];
    case _ =>
  }

  /** In every run, clean or not, nothing fed is lost, doubled or moved, but what was in the buffer at a crash. */
  lemma {:induction false} NothingFedIsLost(w: World, events: seq<Event>)
    requires Steps(w, events).Some?
    ensures InHand(Steps(w, events).value) == Owed(w, events, InHand(w))
    decreases |events|
  {
    if events != [] {
      StepConserves(w, events[0]);
      NothingFedIsLost(Step(w, events[0]).value, events[1..]);
      hide Step, InHand;
    }
  }

  /** Without a crash that is all that was fed. */
  lemma {:induction false} OwedIsFed(w: World, events: seq<Event>, all: seq<Command>)
    requires Steps(w, events).Some? && forall i :: 0 <= i < |events| ==> !events[i].Restart?
    ensures Owed(w, events, all) == all + Fed(events)
    decreases |events|
  {
    if events == [] {
      assert all + [] == all;
    } else {
      var e, more := events[0], Fed(events[1..]);
      var all' := if e.Feed? then all + [e.cmd] else all;
      OwedIsFed(Step(w, e).value, events[1..], all');
      assert e.Feed? ==> all + [e.cmd] + more == all + ([e.cmd] + more);
      assert [] + more == more;
      hide Step;
    }
  }

  /**
   In every clean run without a crash, what a load would give followed by the buffer is what was
   there at the start followed by all that was fed.
   */
  lemma EveryCommandArrives(w: World, events: seq<Event>)
    requires Inv(w) && Run(w, events).Some? && forall i :: 0 <= i < |events| ==> !events[i].Restart?
    ensures var w' := Run(w, events).value;
      && Load(w'.disk).Some?
      && Load(w'.disk).value + w'.server.buf == w.written + w.server.buf + Fed(events)
  {
    EveryRunLoads(w, events);
    RunIsSteps(w, events);
    NothingFedIsLost(w, events);
    OwedIsFed(w, events, InHand(w));
    hide Run, Steps, Load, Inv, Fed, Owed;
  }

  /** A write moves that many commands from the front of the buffer to what a load gives. */
  lemma WriteReaches(w: World, count: nat)
    requires Inv(w) && StepWrite(w, count).Some?
    ensures var w' := StepWrite(w, count).value;
      && count <= |w.server.buf| && w'.server.buf == w.server.buf[count..]
      && Load(w'.disk) == Some(w.written + w.server.buf[..count])
  {
    WriteKeeps(w, count);
    ConsistentLoads(StepWrite(w, count).value);
    hide Load, Inv;
  }

  /** The files that the manifest knows of. */
  ghost predicate Known(am: Manifest, n: Name) {
    Listed(am, n) || exists i :: 0 <= i < |am.history| && am.history[i].name == n
  }

  /**
   A rewrite that succeeds: the manifest on the disk and in memory is the new base with the
   snapshot and the open log alone, and every file known before is now history or the open log,
   so that it will be deleted or is in use.
   */
  lemma RewriteTakesEffect(w: World, collect: bool, n: Name)
    requires Inv(w) && StepPersistBase(w, Replaced, collect).Some?
    ensures var w' := StepPersistBase(w, Replaced, collect).value;
      var am, d := w'.server.am, w'.disk;
      && am.base.Some? && !Known(w.server.am, am.base.value.name)
      && am.base.value.name in d.files && d.files[am.base.value.name].data == w.server.child.snapshot
      && am.incr == [w.server.am.incr[|w.server.am.incr| - 1]] && am.incr[0].name == w'.server.fd
      && d.listing == Listing(am.base, am.incr, am.history)
      && (Known(am, n) <==> Known(w.server.am, n) || n == am.base.value.name)
      && (w'.server.pc.Deleting? <==> collect && am.history != [])
  {
    var am, am' := w.server.am, w.server.pc.am;
    var rdb :| am' == MarkRewritten(NewBase(am, rdb));
    hide Load, Inv;
    RewriteKnows(am, rdb, n);
    FreshBase(am, rdb);
  }

  lemma FreshBase(am: Manifest, rdb: bool)
    requires Numbered(am) && PastAll(am, am.history)
    ensures !Known(am, NewBase(am, rdb).base.value.name)
  {
    var n := NewBase(am, rdb).base.value.name;
    NewNamesAreFresh(am, n);
    forall i | 0 <= i < |am.history|
      ensures am.history[i].name != n
    {
      assert Past(am, am.history[i].name);
    }
  }

  lemma RewriteKnows(am: Manifest, rdb: bool, n: Name)
    requires am.incr != []
    ensures var am' := MarkRewritten(NewBase(am, rdb));
      Known(am', n) <==> Known(am, n) || n == am'.base.value.name
  {
    var am' := MarkRewritten(NewBase(am, rdb));
    var last := |am.incr| - 1;
    var older := (if am.base.Some? then [am.base.value] else []) + am.history;
    assert am'.history == am.incr[..last] + older && am'.incr == [am.incr[last]];
    KnownIs(am, n);
    KnownIs(am', n);
    NamesOf(am.incr[..last], older, n);
    NamesOf(if am.base.Some? then [am.base.value] else [], am.history, n);
    NamesOf(am.incr[..last], [am.incr[last]], n);
    assert am.incr == am.incr[..last] + [am.incr[last]];
    hide Known;
  }

  ghost predicate Names(infos: seq<Info>, n: Name) {
    exists i :: 0 <= i < |infos| && infos[i].name == n
  }

  lemma NamesOf(a: seq<Info>, b: seq<Info>, n: Name)
    ensures Names(a + b, n) <==> Names(a, n) || Names(b, n)
  {
    assert forall i :: 0 <= i < |b| ==> (a + b)[|a| + i] == b[i];
    assert forall i :: 0 <= i < |a| ==> (a + b)[i] == a[i];
    if Names(b, n) {
      var i :| 0 <= i < |b| && b[i].name == n;
      assert (a + b)[|a| + i].name == n;
    }
  }

  lemma KnownIs(am: Manifest, n: Name)
    ensures Known(am, n)
       <==> Names(if am.base.Some? then [am.base.value] else [], n) || Names(am.incr, n) || Names(am.history, n)
  {
    if am.base.Some? {
      assert [am.base.value][0] == am.base.value;
    }
  }

  /** The child is gone and another rewrite may start; the manifests, the logs and the buffer are untouched. */
  ghost predicate Undone(w: World, w': World, scrap: Name) {
    && w'.server == w.server.(child := NoChild, pc := Idle)
    && w'.disk.listing == w.disk.listing && w'.written == w.written
    && scrap !in w'.disk.files
    && forall n :: n != scrap ==> (n in w'.disk.files <==> n in w.disk.files)
                                  && (n in w.disk.files ==> w'.disk.files[n] == w.disk.files[n])
  }

  /**
   A rewrite that fails, in the child, at the rename or at the persist of the manifest, leaves
   nothing behind: its file is removed and all else is as it was.
   */
  lemma FailedRewriteIsUndone(w: World, e: Event)
    requires Inv(w) && Step(w, e).Some?
    requires e.HandleFailure? || (e.RenameBase? && !e.ok) || (e.PersistBase? && e.result.Kept?)
    ensures !w.server.child.NoChild?
    ensures e.PersistBase? ==> w.server.pc.RenamedBase? && w.server.pc.am.base.Some?
    ensures Undone(w, Step(w, e).value, if e.PersistBase? then w.server.pc.am.base.value.name else Temp(w.server.child.pid))
  {
    hide Load, Consistent;
  }

  function Unlinks(n: nat): seq<Event> {
    if n == 0 then [PersistHistory(Replaced)] else [Unlink] + Unlinks(n - 1)
  }

  /** Deleting can always go on to its end: then exactly the history files are gone, and none is listed. */
  lemma {:induction false} HistoryIsDeleted(w: World)
    requires w.server.pc.Deleting?
    ensures var h := w.server.am.history;
      && Steps(w, Unlinks(|h|)).Some?
      && var w' := Steps(w, Unlinks(|h|)).value;
         && w'.disk.files == w.disk.files - (set i | 0 <= i < |h| :: h[i].name)
         && w'.server == w.server.(am := w.server.am.(history := []), pc := Idle)
         && w'.disk.listing == Listing(w.server.am.base, w.server.am.incr, []) && w'.written == w.written
    decreases |w.server.am.history|
  {
    var h := w.server.am.history;
    var names := set i | 0 <= i < |h| :: h[i].name;
    if h == [] {
      assert names == {} && w.disk.files - {} == w.disk.files;
      var last := Step(w, PersistHistory(Replaced)).value;
      assert [PersistHistory(Replaced)][1..] == [];
      assert Steps(last, []) == Some(last);
    } else {
      var next := Step(w, Unlink).value;
      HistoryIsDeleted(next);
      assert ([Unlink] + Unlinks(|h| - 1))[1..] == Unlinks(|h| - 1);
      var rest := set i | 0 <= i < |h[1..]| :: h[1..][i].name;
      assert names == {h[0].name} + rest by {
        forall n | n in names
          ensures n in {h[0].name} + rest
        {
          var i :| 0 <= i < |h| && h[i].name == n;
          assert i > 0 ==> h[1..][i - 1] == h[i];
        }
      }
      assert w.disk.files - {h[0].name} - rest == w.disk.files - names;
    }
  }

  // ----- where a run may start -----

  /**
   A process may start on any disk whose files load and whose history carries no number above
   the counters.
   */
  lemma StartHolds(d: Disk)
    requires Load(d).Some?
    requires var am := FromListing(d.listing); Numbered(am) && PastAll(am, am.history)
    ensures var am := FromListing(d.listing);
      Inv(Start(d, am, Load(d).value))
  {
  }

  function Start(d: Disk, am: Manifest, data: seq<Command>): World
    requires am.incr != []
  {
    World(d, Server(am, am.incr[|am.incr| - 1].name, [], data, NoChild, Idle), data, [])
  }

  // ----- the condition is exact -----

  /**
   Of the three places that persist a manifest, two load right whatever the outcome. At the
   third, in every reachable state, the load is right exactly when the step is clean.
   */
  lemma PersistMustTellTheTruth(w: World, e: Event)
    requires Inv(w) && (e.PersistIncr? || e.PersistBase? || e.PersistHistory?) && Step(w, e).Some?
    ensures var w' := Step(w, e).value;
      Load(w'.disk) == Some(w'.written) <==> Clean(w, e)
  {
    if Clean(w, e) {
      StepKeeps(w, e);
      ConsistentLoads(Step(w, e).value);
    } else if e.result.Replaced? {
      RewriteLoads(w);
      var log := w.disk.files[w.server.fd].data;
      var head := w.written[..|w.written| - |log|];
      assert |head + w.left + log| != |w.written|;
    }
  }

  /** The flush is what it was at the last `OpenIncr`. */
  lemma {:induction false} LeftStays(w: World, events: seq<Event>)
    requires Run(w, events).Some? && forall i :: 0 <= i < |events| ==> !events[i].OpenIncr?
    ensures Run(w, events).value.left == w.left
    decreases |events|
  {
    if events != [] {
      LeftStays(Step(w, events[0]).value, events[1..]);
    }
  }

  /**
   From the opening of the new log to the persist of the new base, whatever happens in between:
   commands left in the buffer at the start are in the snapshot and again in a log, so what a load
   gives is right exactly when there were none.
   */
  lemma FlushMustBeComplete(w: World, events: seq<Event>, w': World, collect: bool)
    requires Inv(w) && Step(w, OpenIncr).Some? && Run(Step(w, OpenIncr).value, events) == Some(w')
    requires forall i :: 0 <= i < |events| ==> !events[i].OpenIncr?
    requires StepPersistBase(w', Replaced, collect).Some?
    ensures Load(StepPersistBase(w', Replaced, collect).value.disk) == Some(w'.written) <==> w.server.buf == []
  {
    var w1 := Step(w, OpenIncr).value;
    OpenIncrKeeps(w);
    assert w1.left == w.server.buf;
    hide Step, StepPersistBase, Load, Inv, Run;
    EveryRunLoads(w1, events);
    LeftStays(w1, events);
    ReplacedIsClean(w', collect);
  }

  lemma ReplacedIsClean(w: World, collect: bool)
    requires Inv(w) && StepPersistBase(w, Replaced, collect).Some?
    ensures Load(StepPersistBase(w, Replaced, collect).value.disk) == Some(w.written) <==> w.left == []
  {
    hide Inv, Load;
    PersistMustTellTheTruth(w, PersistBase(Replaced, collect));
  }

  ghost predicate AllFlushed(w: World, events: seq<Event>)
    decreases |events|
  {
    events == []
    || (Step(w, events[0]).Some?
        && (events[0].OpenIncr? ==> w.server.buf == [])
        && (events[0].PersistBase? ==> !events[0].result.ReplacedUnsynced?)
        && AllFlushed(Step(w, events[0]).value, events[1..]))
  }

  /** Starting every rewrite with an empty buffer is enough for a run to be clean. */
  lemma {:induction false} FlushedRunsAreClean(w: World, events: seq<Event>)
    requires w.left == [] && AllFlushed(w, events)
    ensures Run(w, events).Some?
    decreases |events|
  {
    if events != [] {
      FlushedRunsAreClean(Step(w, events[0]).value, events[1..]);
    }
  }

  // ----- both failures happen -----

  /** A log with nothing in it. */
  const BLANK := Disk(map[IncrName(1) := Log([])], Listing(None, [Info(IncrName(1), 1)], []))

  function BlankStart(): World { Start(BLANK, FromListing(BLANK.listing), []) }

  lemma BlankHolds()
    ensures Inv(BlankStart())
  {
    OneLogLoads(BLANK.files, None, Info(IncrName(1), 1));
    StartHolds(BLANK);
  }

  function Rewrite(result: Persist): seq<Event> {
    [OpenIncr, PersistIncr(Replaced, Some(7)), ChildSucceeds, Write(1), RenameBase(true, true), PersistBase(result, false)]
  }

  /** One rewrite of the blank log, with one command left in the buffer at its start. */
  function Rewritten(cmd: Command, result: Persist): World {
    var am := Manifest(None, [Info(IncrName(1), 1), Info(IncrName(2), 2)], [], 0, 2);
    var am' := Manifest(Some(Info(BaseName(1, true), 1)), [Info(IncrName(2), 2)], [Info(IncrName(1), 1)], 1, 2);
    var logs := map[IncrName(1) := Log([]), IncrName(2) := Log([cmd])];
    var files := if result.Replaced? then logs[BaseName(1, true) := Snapshot([cmd])] else logs;
    World(Disk(files, AsListing(if result.Kept? then am else am')),
          Server(if result.Replaced? then am' else am, IncrName(2), [], [cmd], NoChild, Idle), [cmd], [cmd])
  }

  lemma RewriteOfBlank(cmd: Command, result: Persist)
    ensures Steps(BlankStart(), [Feed(cmd)] + Rewrite(result))
         == Some(Rewritten(cmd, result))
    ensures Inv(BlankStart())
  {
    BlankHolds();
    hide Step, BlankStart, Inv, Forked, Caught, Rewritten;
    var events := [Feed(cmd)] + Rewrite(result);
    StartsRewrite(cmd, events);
    CatchesUp(cmd, events);
    EndsRewrite(cmd, result, events);
    assert events[0..] == events && events[7..] == [];
  }

  /** The blank log when the child has been forked. */
  function Forked(cmd: Command): World {
    var am := Manifest(None, [Info(IncrName(1), 1), Info(IncrName(2), 2)], [], 0, 2);
    World(Disk(map[IncrName(1) := Log([]), IncrName(2) := Log([])], AsListing(am)),
          Server(am, IncrName(2), [cmd], [cmd], Running(7, [cmd]), Idle), [], [cmd])
  }

  /** And when the child is done and the buffer written. */
  function Caught(cmd: Command): World {
    var am := Manifest(None, [Info(IncrName(1), 1), Info(IncrName(2), 2)], [], 0, 2);
    World(Disk(map[IncrName(1) := Log([]), IncrName(2) := Log([cmd]), Temp(7) := Snapshot([cmd])], AsListing(am)),
          Server(am, IncrName(2), [], [cmd], Exited(7, [cmd], true), Idle), [cmd], [cmd])
  }

  lemma StartsRewrite(cmd: Command, events: seq<Event>)
    requires |events| == 7 && events[..3] == [Feed(cmd), OpenIncr, PersistIncr(Replaced, Some(7))]
    ensures Steps(BlankStart(), events[0..]) == Steps(Forked(cmd), events[3..])
  {
    var w0 := BlankStart();
    assert events[0] == Feed(cmd) && events[1] == OpenIncr && events[2] == PersistIncr(Replaced, Some(7));
    var w1 := Step(w0, Feed(cmd)).value;
    var w2 := Step(w1, OpenIncr).value;
    assert w1.server.buf == [cmd] && w1.server.data == [cmd];
    assert w2.server.pc.am == Forked(cmd).server.am;
    assert w2.disk.files == Forked(cmd).disk.files;
    assert Step(w2, PersistIncr(Replaced, Some(7))) == Some(Forked(cmd));
    hide Step, Steps, BlankStart;
    StepsFrom(w0, events, 0, w1);
    StepsFrom(w1, events, 1, w2);
    StepsFrom(w2, events, 2, Forked(cmd));
  }

  lemma CatchesUp(cmd: Command, events: seq<Event>)
    requires |events| == 7 && events[3] == ChildSucceeds && events[4] == Write(1)
    ensures Steps(Forked(cmd), events[3..]) == Steps(Caught(cmd), events[5..])
  {
    var w := Step(Forked(cmd), ChildSucceeds).value;
    assert [cmd][..1] == [cmd] && [cmd][1..] == [] && [] + [cmd] == [cmd];
    assert w.disk.files[IncrName(2) := Log([] + [cmd])] == Caught(cmd).disk.files;
    assert Step(w, Write(1)) == Some(Caught(cmd));
    hide Step, Steps;
    StepsFrom(Forked(cmd), events, 3, w);
    StepsFrom(w, events, 4, Caught(cmd));
  }

  lemma EndsRewrite(cmd: Command, result: Persist, events: seq<Event>)
    requires |events| == 7 && events[5] == RenameBase(true, true) && events[6] == PersistBase(result, false)
    ensures Steps(Caught(cmd), events[5..]) == Some(Rewritten(cmd, result))
  {
    var w := Step(Caught(cmd), RenameBase(true, true)).value;
    assert w.server.pc.am.incr == [Info(IncrName(2), 2)];
    assert w.server.pc.am.history == [Info(IncrName(1), 1)];
    assert w.disk.files == Rewritten(cmd, Replaced).disk.files;
    assert w.disk.files - {BaseName(1, true)} == Rewritten(cmd, Kept).disk.files;
    assert Step(w, PersistBase(result, false)) == Some(Rewritten(cmd, result));
    StepsFrom(Caught(cmd), events, 5, w);
    StepsFrom(w, events, 6, Rewritten(cmd, result));
    assert events[7..] == [];
  }

  lemma StepsFrom(w: World, events: seq<Event>, i: nat, w': World)
    requires i < |events| && Step(w, events[i]) == Some(w')
    ensures Steps(w, events[i..]) == Steps(w', events[i + 1..])
  {
    assert events[i..][0] == events[i] && events[i..][1..] == events[i + 1..];
  }

  /** A command left in the buffer is loaded twice. */
  lemma LeftoverIsDoubled(cmd: Command)
    ensures var w, w' := BlankStart(), Steps(BlankStart(), [Feed(cmd)] + Rewrite(Replaced));
      Inv(w) && w'.Some? && w'.value.written == [cmd] && Load(w'.value.disk) == Some([cmd, cmd])
  {
    RewriteOfBlank(cmd, Replaced);
    hide Step, Steps, Inv, BlankStart;
    var d := Rewritten(cmd, Replaced).disk;
    OneLogLoads(d.files, d.listing.base, Info(IncrName(2), 2));
    assert [cmd] + [cmd] == [cmd, cmd];
  }

  /** A new manifest kept after a failure that was reported names a base that is gone. */
  lemma UnsyncedLosesAll(cmd: Command)
    ensures var w, w' := BlankStart(), Steps(BlankStart(), [Feed(cmd)] + Rewrite(ReplacedUnsynced));
      Inv(w) && w'.Some? && w'.value.written == [cmd] && Load(w'.value.disk) == None
  {
    RewriteOfBlank(cmd, ReplacedUnsynced);
    hide Step, Steps, Inv, BlankStart;
    var d := Rewritten(cmd, ReplacedUnsynced).disk;
    assert d.listing.base.value.name == BaseName(1, true) && BaseName(1, true) !in d.files;
  }

  // ----- the manifest as the process keeps it -----

  /** Numbers and history are as a rewrite needs them. */
  ghost predicate InOrder(am: Manifest) { Numbered(am) && PastAll(am, am.history) }

  /** A new base has a new name; the one it replaces is history and never read again. */
  lemma NewBaseInOrder(am: Manifest, rdb: bool)
    ensures var am' := NewBase(am, rdb);
      InOrder(am) ==> InOrder(am') && Listed(am', am'.base.value.name) && !Listed(am, am'.base.value.name)
  {
    if InOrder(am) {
      var am' := NewBase(am, rdb);
      NewNamesAreFresh(am, am'.base.value.name);
      forall i | 0 <= i < |am'.history|
        ensures Past(am', am'.history[i].name)
      {
        if am.base.None? || i > 0 {
          assert am'.history[i] == am.history[if am.base.Some? then i - 1 else i];
        } else {
          assert am'.history[i] == am.base.value;
        }
      }
    }
  }

  lemma NewIncrInOrder(am: Manifest)
    ensures var am' := NewIncr(am);
      InOrder(am) ==> InOrder(am') && Listed(am', IncrName(am'.incrSeq)) && !Listed(am, IncrName(am'.incrSeq))
  {
    if InOrder(am) {
      var am' := NewIncr(am);
      NewNamesAreFresh(am, IncrName(am'.incrSeq));
      NewIncrKeepsPast(am, am.history);
      SameListing(am', am', am.history);
      assert am'.incr[|am.incr|].name == IncrName(am'.incrSeq);
    }
  }

  /** The manifest lists in memory, changed in place. */
  class LiveManifest {
    var base: Option<Info>
    var incr: seq<Info>
    var history: seq<Info>
    var baseSeq: nat
    var incrSeq: nat

    ghost function View(): Manifest
      reads this
    {
      Manifest(base, incr, history, baseSeq, incrSeq)
    }

    /** `aofManifestDup`. */
    constructor (am: Manifest)
      ensures View() == am
    {
      base, incr, history, baseSeq, incrSeq := am.base, am.incr, am.history, am.baseSeq, am.incrSeq;
    }

    /** `getNewBaseFileNameAndMarkPreAsHistory`. */
    method GetNewBaseFileName(rdb: bool) returns (name: Name)
      modifies this
      ensures View() == NewBase(old(View()), rdb) && name == View().base.value.name
      ensures old(InOrder(View())) ==> InOrder(View()) && Listed(View(), name) && !Listed(old(View()), name)
    {
      NewBaseInOrder(View(), rdb);
      if base.Some? {
        history := [base.value] + history;
      }
      baseSeq := baseSeq + 1;
      name := BaseName(baseSeq, rdb);
      base := Some(Info(name, baseSeq));
    }

    /** `getNewIncrAofName`. */
    method GetNewIncrAofName() returns (name: Name)
      modifies this
      ensures View() == NewIncr(old(View())) && name == IncrName(View().incrSeq)
      ensures old(InOrder(View())) ==> InOrder(View()) && Listed(View(), name) && !Listed(old(View()), name)
    {
      NewIncrInOrder(View());
      incrSeq := incrSeq + 1;
      name := IncrName(incrSeq);
      incr := incr + [Info(name, incrSeq)];
    }

    /** `markRewrittenIncrAofAsHistory`: from the tail, skipping the open log. */
    method MarkRewrittenIncrAofAsHistory()
      modifies this
      ensures View() == MarkRewritten(old(View()))
    {
      if |incr| == 0 {
        return;
      }
      var next := |incr| - 1;
      ghost var logs, past, last := incr, history, |incr| - 1;
      while next > 0
        invariant 0 <= next <= last && |incr| == next + 1
        invariant incr == logs[..next] + logs[last..]
        invariant history == logs[next..last] + past
        invariant base == old(base) && baseSeq == old(baseSeq) && incrSeq == old(incrSeq)
      {
        next := next - 1;
        assert incr[next] == logs[next];
        history := [incr[next]] + history;
        incr := incr[..next] + incr[next + 1..];
        assert logs[next..last] == [logs[next]] + logs[next + 1..last];
      }
    }

    /** The loop of `aofDelHistoryFiles`. */
    method DelHistoryFiles(files0: map<Name, Content>) returns (files: map<Name, Content>)
      modifies this
      ensures View() == old(View()).(history := [])
      ensures files.Keys == files0.Keys - (set i | 0 <= i < |old(history)| :: old(history)[i].name)
      ensures forall n :: n in files ==> files[n] == files0[n]
    {
      files := files0;
      ghost var all := history;
      ghost var done := 0;
      while history != []
        invariant 0 <= done <= |all| && history == all[done..]
        invariant base == old(base) && incr == old(incr) && baseSeq == old(baseSeq) && incrSeq == old(incrSeq)
        invariant forall n :: n in files <==> n in files0 && forall i :: 0 <= i < done ==> all[i].name != n
        invariant forall n :: n in files ==> files[n] == files0[n]
        decreases |history|
      {
        assert history[0] == all[done];
        files := files - {history[0].name};
        history := history[1..];
        done := done + 1;
      }
    }
  }
}
