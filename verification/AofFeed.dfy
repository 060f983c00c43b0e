/**
 Feeding the append-only log (aof.c, feedAppendOnlyFile): a SELECT goes before a command whose
 database is not the one selected last. Starting a file forgets the selection, so every file
 stands on its own: whatever database its reader starts in, each command runs in the database it
 was meant for.
 */
module AofFeed {
  import opened Common
  import opened AofLog

  /** A command and its database; -1 if the database does not matter. */
  datatype Entry = Entry(db: int, cmd: Command)

  predicate GoodEntry(e: Entry) { e.db >= -1 }

  function Select(db: nat): Command { ["SELECT", Decimal(db)] }

  predicate IsSelect(cmd: Command) { |cmd| == 2 && Lower(cmd[0]) == "select" }

  /** The database selected last; -1 before the first SELECT of a file. */
  function Selected(selected: int, e: Entry): int {
    if e.db != -1 && e.db != selected then e.db else selected
  }

  function Fed(selected: int, e: Entry): seq<Command>
    requires GoodEntry(e)
  {
    if e.db != -1 && e.db != selected then [Select(e.db), e.cmd] else [e.cmd]
  }

  function FedAll(selected: int, entries: seq<Entry>): seq<Command>
    requires forall i :: 0 <= i < |entries| ==> GoodEntry(entries[i])
    decreases |entries|
  {
    if entries == [] then [] else Fed(selected, entries[0]) + FedAll(Selected(selected, entries[0]), entries[1..])
  }

  /** What a reader makes of it: SELECT moves it to a database, other commands run where it is. */
  function Placed(db: nat, cmds: seq<Command>): seq<Entry>
    decreases |cmds|
  {
    if cmds == [] then []
    else if IsSelect(cmds[0]) then Placed(ParseNat(cmds[0][1]), cmds[1..])
    else [Entry(db, cmds[0])] + Placed(db, cmds[1..])
  }

  /** Every command where it belongs, in order, and nothing else. */
  predicate InPlace(entries: seq<Entry>, placed: seq<Entry>) {
    && |placed| == |entries|
    && forall i :: 0 <= i < |entries| ==>
         placed[i].cmd == entries[i].cmd && (entries[i].db != -1 ==> placed[i].db == entries[i].db)
  }

  lemma SelectMoves(db: nat)
    ensures IsSelect(Select(db)) && ParseNat(Select(db)[1]) == db
  {
    assert Lower("SELECT") == "select";
    assert Decimal(db) + "" == Decimal(db);
    ParsePrefix(db, "", Decimal(db));
  }

  /** The reader is in the selected database, or nothing is selected yet. */
  lemma {:induction false} FedIsInPlace(selected: int, db: nat, entries: seq<Entry>)
    requires forall i :: 0 <= i < |entries| ==> GoodEntry(entries[i]) && !IsSelect(entries[i].cmd)
    requires selected == -1 || selected == db
    ensures InPlace(entries, Placed(db, FedAll(selected, entries)))
    decreases |entries|
  {
    hide IsSelect, Select, ParseNat;
    if entries != [] {
      var e, rest := entries[0], entries[1..];
      var selected' := Selected(selected, e);
      var more := FedAll(selected', rest);
      var db' := if e.db != -1 && e.db != selected then e.db else db;
      if e.db != -1 && e.db != selected {
        SelectMoves(e.db);
        var all := [Select(e.db), e.cmd] + more;
        assert all[0] == Select(e.db) && all[1..] == [e.cmd] + more;
      }
      assert ([e.cmd] + more)[0] == e.cmd && ([e.cmd] + more)[1..] == more;
      FedIsInPlace(selected', db', rest);
      assert Placed(db, FedAll(selected, entries)) == [Entry(db', e.cmd)] + Placed(db', more);
    }
  }

  /** Commands for one database get one SELECT, before the first. */
  lemma {:induction false} SelectOnce(selected: int, db: nat, entries: seq<Entry>)
    requires forall i :: 0 <= i < |entries| ==> entries[i].db == db
    ensures FedAll(selected, entries)
         == (if entries == [] || selected == db then [] else [Select(db)]) + Commands(entries)
    decreases |entries|
  {
    hide Select;
    if entries != [] {
      SelectOnce(db, db, entries[1..]);
      assert Commands(entries) == [entries[0].cmd] + Commands(entries[1..]);
      assert [] + Commands(entries[1..]) == Commands(entries[1..]);
    }
  }

  // ----- through the text of a file -----

  predicate IsBracket(cmd: Command) { IsMulti(cmd) || IsExec(cmd) }

  /** MULTI and EXEC alternate and the last transaction is complete. */
  predicate Bracketed(cmds: seq<Command>, open: bool)
    decreases |cmds|
  {
    if cmds == [] then !open
    else if IsMulti(cmds[0]) then !open && Bracketed(cmds[1..], true)
    else if IsExec(cmds[0]) then open && Bracketed(cmds[1..], false)
    else Bracketed(cmds[1..], open)
  }

  function Unbracketed(cmds: seq<Command>): seq<Command> {
    if cmds == [] then []
    else if IsBracket(cmds[0]) then Unbracketed(cmds[1..])
    else [cmds[0]] + Unbracketed(cmds[1..])
  }

  function Commands(entries: seq<Entry>): seq<Command> {
    seq(|entries|, i requires 0 <= i < |entries| => entries[i].cmd)
  }

  /** The entries less MULTI and EXEC. */
  function Inner(entries: seq<Entry>): seq<Entry> {
    if entries == [] then []
    else if IsBracket(entries[0].cmd) then Inner(entries[1..])
    else [entries[0]] + Inner(entries[1..])
  }

  /** A log of complete transactions runs everything else in order. */
  lemma {:induction false} BracketedRuns(x: Client, cmds: seq<Command>)
    requires Bracketed(cmds, x.multi) && (!x.multi ==> x.queue == [])
    ensures ExecuteAll(x, cmds).run == x.run + x.queue + Unbracketed(cmds)
    decreases |cmds|
  {
    if cmds != [] {
      BracketedRuns(Execute(x, cmds[0]), cmds[1..]);
    }
  }

  lemma SelectIsInner(db: nat)
    ensures !IsBracket(Select(db))
  {
    assert Lower("SELECT")[0] == 's';
  }

  lemma FedNext(selected: int, entries: seq<Entry>)
    requires entries != [] && forall i :: 0 <= i < |entries| ==> GoodEntry(entries[i])
    ensures var e, more := entries[0], FedAll(Selected(selected, entries[0]), entries[1..]);
      FedAll(selected, entries)
      == if e.db != -1 && e.db != selected then [Select(e.db)] + ([e.cmd] + more) else [e.cmd] + more
  {
  }

  /** The SELECTs between the commands leave the transactions as they are. */
  lemma {:induction false} FedBracketed(selected: int, entries: seq<Entry>, open: bool)
    requires forall i :: 0 <= i < |entries| ==> GoodEntry(entries[i])
    ensures Bracketed(FedAll(selected, entries), open) == Bracketed(Commands(entries), open)
    decreases |entries|
  {
    if entries != [] {
      var e, rest := entries[0], entries[1..];
      var cmds, more := Commands(entries), FedAll(Selected(selected, e), rest);
      assert cmds[0] == e.cmd && cmds[1..] == Commands(rest);
      FedNext(selected, entries);
      hide FedAll, IsMulti, IsExec, Select, Commands;
      FedBracketed(Selected(selected, e), rest, true);
      FedBracketed(Selected(selected, e), rest, false);
      var tail := [e.cmd] + more;
      assert tail[0] == e.cmd && tail[1..] == more;
      if e.db != -1 && e.db != selected {
        SelectIsInner(e.db);
        assert ([Select(e.db)] + tail)[1..] == tail;
      }
    }
  }

  /** Taking the brackets away before placing is taking them away afterwards. */
  lemma {:induction false} PlacedInner(db: nat, cmds: seq<Command>)
    ensures Placed(db, Unbracketed(cmds)) == Inner(Placed(db, cmds))
    decreases |cmds|
  {
    if cmds != [] {
      hide ParseNat;
      var rest := Unbracketed(cmds[1..]);
      PlacedInner(db, cmds[1..]);
      if IsSelect(cmds[0]) {
        PlacedInner(ParseNat(cmds[0][1]), cmds[1..]);
        assert !IsBracket(cmds[0]);
      }
      assert ([cmds[0]] + rest)[1..] == rest;
    }
  }

  lemma {:induction false} InnerInPlace(entries: seq<Entry>, placed: seq<Entry>)
    requires InPlace(entries, placed)
    ensures InPlace(Inner(entries), Inner(placed))
    decreases |entries|
  {
    if entries != [] {
      assert placed[0].cmd == entries[0].cmd;
      InnerInPlace(entries[1..], placed[1..]);
    }
  }

  /**
   Through the text of a file and the loader, for every log whose transactions are complete: each
   command other than MULTI and EXEC runs once, in order, in its own database.
   */
  lemma FileIsInPlace(entries: seq<Entry>, known: Command -> bool)
    requires forall i :: 0 <= i < |entries| ==> GoodEntry(entries[i]) && !IsSelect(entries[i].cmd)
    requires GoodLog(FedAll(-1, entries), known) && Bracketed(Commands(entries), false)
    ensures InPlace(Inner(entries), Placed(0, LoadFile(EncodeAll(FedAll(-1, entries)), true, known).run))
  {
    assert FRESH == Client(false, [], []);
    hide LoadFile, EncodeAll, ExecuteAll, Bracketed, Unbracketed, Placed, Inner, FedAll, GoodLog, IsSelect;
    var cmds := FedAll(-1, entries);
    FedIsInPlace(-1, 0, entries);
    LoadOfWholeLog(cmds, known);
    FedBracketed(-1, entries, false);
    BracketedRuns(FRESH, cmds);
    assert [] + [] + Unbracketed(cmds) == Unbracketed(cmds);
    PlacedInner(0, cmds);
    InnerInPlace(entries, Placed(0, cmds));
  }

  lemma SelectHeaders()
    ensures Header('*', 2) == "*2\r\n" && Bulk("SELECT") == "$6\r\nSELECT\r\n"
    ensures "*2\r\n$6\r\nSELECT\r\n$" == Header('*', 2) + Bulk("SELECT") + "$"
  {
    assert Decimal(2) == "2" && Decimal(6) == "6";
  }

  lemma TwoBulks(x: string, y: string)
    ensures Encode([x, y]) == Header('*', 2) + (Bulk(x) + Bulk(y))
  {
    hide Bulk, Header;
    assert [x, y][1..] == [y] && [y][1..] == [];
    assert Bulks([y]) == Bulk(y) + "" == Bulk(y);
  }

  lemma Regroup(h: string, b: string, d: string, n: string, y: string, e: string)
    ensures h + b + d + n + e + y + e == h + (b + (d + n + e + y + e))
  {
  }

  /** The text that the source prints for a SELECT. */
  lemma SelectText(db: nat, digits: string)
    requires digits == Decimal(db)
    ensures "*2\r\n$6\r\nSELECT\r\n$" + Decimal(|digits|) + "\r\n" + digits + "\r\n" == Encode(Select(db))
  {
    SelectHeaders();
    assert Bulk(digits) == ['$'] + Decimal(|digits|) + "\r\n" + digits + "\r\n";
    hide Encode, Bulk, Header, Decimal;
    TwoBulks("SELECT", digits);
    Regroup(Header('*', 2), Bulk("SELECT"), "$", Decimal(|digits|), digits, "\r\n");
  }

  lemma EncodeFed(selected: int, e: Entry)
    requires GoodEntry(e)
    ensures EncodeAll(Fed(selected, e))
         == if e.db != -1 && e.db != selected then Encode(Select(e.db)) + Encode(e.cmd) else Encode(e.cmd)
  {
    hide Encode, Select;
    assert [e.cmd][1..] == [];
    assert EncodeAll([e.cmd]) == Encode(e.cmd) + EncodeAll([]) == Encode(e.cmd);
    if e.db != -1 && e.db != selected {
      assert [Select(e.db), e.cmd][1..] == [e.cmd];
    }
  }

  class Feeder {
    var selectedDb: int
    var aofBuf: string

    constructor ()
      ensures selectedDb == -1 && aofBuf == ""
    {
      selectedDb, aofBuf := -1, "";
    }

    /** feedAppendOnlyFile, with the log on. */
    method FeedAppendOnlyFile(dictid: int, argv: Command)
      requires dictid >= -1
      modifies this
      ensures selectedDb == Selected(old(selectedDb), Entry(dictid, argv))
      ensures aofBuf == old(aofBuf) + EncodeAll(Fed(old(selectedDb), Entry(dictid, argv)))
    {
      hide Encode, Select;
      EncodeFed(selectedDb, Entry(dictid, argv));
      var buf := "";
      if dictid != -1 && dictid != selectedDb {
        var seldb := Decimal(dictid);
        SelectText(dictid, seldb);
        buf := buf + ("*2\r\n$6\r\nSELECT\r\n$" + Decimal(|seldb|) + "\r\n" + seldb + "\r\n");
        selectedDb := dictid;
      }
      buf := CatCommand(buf, argv);
      aofBuf := aofBuf + buf;
    }
  }
}
