/**
 The text of an append-only log (aof.c): commands written as arrays of bulk strings, and the
 loader that reads them back and tolerates a log cut off anywhere.
 */
module AofLog {
  import opened Common

  type Command = seq<string>

  // fgets fills a buffer of this size, including the terminator.
  const LINE_MAX := 1024

  // ----- numbers -----

  predicate IsDigit(c: char) { '0' <= c <= '9' }

  function Digit(n: nat): (c: char)
    requires n < 10
    ensures IsDigit(c) && c as int - '0' as int == n
  {
    ('0' as int + n) as char
  }

  /** `ll2string` of a non-negative number. */
  function Decimal(n: nat): (s: string)
    ensures s != "" && forall i :: 0 <= i < |s| ==> IsDigit(s[i])
    ensures n >= 1 ==> s[0] != '0'
  {
    if n < 10 then [Digit(n)] else Decimal(n / 10) + [Digit(n % 10)]
  }

  function ParseFrom(s: string, i: nat, acc: nat): nat
    requires i <= |s|
    decreases |s| - i
  {
    if i < |s| && IsDigit(s[i]) then ParseFrom(s, i + 1, 10 * acc + (s[i] as int - '0' as int)) else acc
  }

  /** The value of the leading digits. */
  function ParseNat(s: string): nat { ParseFrom(s, 0, 0) }

  const LONG_MAX := 0x7FFF_FFFF_FFFF_FFFF
  const INT_MAX := 0x7FFF_FFFF

  predicate IsSpace(c: char) { c == ' ' || '\t' <= c <= '\r' }

  /** `strtol` with base 10: blanks, a sign, digits; a value out of range becomes the nearest `long`. */
  function ParseLong(s: string): (v: int)
    ensures -LONG_MAX - 1 <= v <= LONG_MAX
  {
    if s != "" && IsSpace(s[0]) then ParseLong(s[1..])
    else if s != "" && s[0] == '-' then
      var n := ParseNat(s[1..]);
      if n > LONG_MAX then -LONG_MAX - 1 else 0 - n
    else
      var n := if s != "" && s[0] == '+' then ParseNat(s[1..]) else ParseNat(s);
      if n > LONG_MAX then LONG_MAX else n
  }

  /** `atoi`: the low 32 bits of the `long`, as an `int`. */
  function ParseInt(s: string): int {
    var low := ParseLong(s) % 0x1_0000_0000;
    if low > INT_MAX then low - 0x1_0000_0000 else low
  }

  /** A `long` stored as an `unsigned long`. */
  function ToUnsigned(v: int): (n: nat)
    requires -LONG_MAX - 1 <= v <= LONG_MAX
    ensures v >= 0 ==> n == v
  {
    if v < 0 then v + 0x1_0000_0000_0000_0000 else v
  }

  /** After the digits of `n` the accumulator holds `n`. */
  lemma {:induction false} ParsePrefix(n: nat, rest: string, s: string)
    requires s == Decimal(n) + rest
    ensures ParseFrom(s, 0, 0) == ParseFrom(s, |Decimal(n)|, n)
    decreases n
  {
    if n >= 10 {
      var last := [Digit(n % 10)];
      assert s == Decimal(n / 10) + (last + rest);
      ParsePrefix(n / 10, last + rest, s);
      assert s[|Decimal(n / 10)|] == Digit(n % 10);
    }
  }

  /** The digits of a number read back, whatever follows them. */
  lemma DecimalReadBack(n: nat, rest: string)
    requires rest != "" ==> !IsDigit(rest[0])
    ensures ParseNat(Decimal(n) + rest) == n
    ensures n <= LONG_MAX ==> ParseLong(Decimal(n) + rest) == n
    ensures n <= INT_MAX ==> ParseInt(Decimal(n) + rest) == n
  {
    var s := Decimal(n) + rest;
    ParsePrefix(n, rest, s);
    assert rest != "" ==> s[|Decimal(n)|] == rest[0];
    assert s[0] == Decimal(n)[0];
  }

  /** Header numbers the encoder never writes: blanks before the number, a sign, and values out of range. */
  lemma OddNumbers(n: nat, rest: string, blank: char, s: string)
    requires (rest != "" ==> !IsDigit(rest[0])) && IsSpace(blank) && s == Decimal(n) + rest
    ensures ParseLong([blank] + s) == ParseLong(s) && ParseLong("+" + s) == ParseLong(s)
    ensures ParseLong(s) == if n < 0x8000_0000_0000_0000 then n else 0x7FFF_FFFF_FFFF_FFFF
    ensures ParseLong("-" + s) == if n < 0x8000_0000_0000_0000 then 0 - n else -0x8000_0000_0000_0000
  {
    DecimalReadBack(n, rest);
    assert s[0] == Decimal(n)[0];
    hide ParseNat, Decimal;
    SignedNumbers(n, s, blank);
  }

  lemma SignedNumbers(n: nat, s: string, blank: char)
    requires s != "" && IsDigit(s[0]) && ParseNat(s) == n && IsSpace(blank)
    ensures ParseLong([blank] + s) == ParseLong(s) && ParseLong("+" + s) == ParseLong(s)
    ensures ParseLong(s) == if n < 0x8000_0000_0000_0000 then n else 0x7FFF_FFFF_FFFF_FFFF
    ensures ParseLong("-" + s) == if n < 0x8000_0000_0000_0000 then 0 - n else -0x8000_0000_0000_0000
  {
    hide ParseNat;
    assert ([blank] + s)[1..] == s && ("+" + s)[1..] == s && ("-" + s)[1..] == s;
  }

  /** A count of arguments is the number modulo 2^32, as a signed number of 32 bits. */
  lemma CountIsLowPart(s: string)
    ensures -0x8000_0000 <= ParseInt(s) < 0x8000_0000 && (ParseInt(s) - ParseLong(s)) % 0x1_0000_0000 == 0
  {
    hide ParseLong;
  }

  /** The first digits of a positive number are those of a smaller one. */
  lemma {:induction false} CutDigits(n: nat, k: nat) returns (m: nat)
    requires n >= 1 && 1 <= k <= |Decimal(n)|
    ensures 1 <= m <= n && Decimal(n)[..k] == Decimal(m)
    decreases n
  {
    if k == |Decimal(n)| {
      m := n;
      assert Decimal(n)[..k] == Decimal(n);
    } else {
      m := CutDigits(n / 10, k);
      assert Decimal(n)[..k] == Decimal(n / 10)[..k];
    }
  }

  // ----- encoding -----

  function Header(mark: char, n: nat): string { [mark] + Decimal(n) + "\r\n" }

  function Bulk(arg: string): string { Header('$', |arg|) + arg + "\r\n" }

  function Bulks(args: seq<string>): string {
    if args == [] then "" else Bulk(args[0]) + Bulks(args[1..])
  }

  /** One command of the log. */
  function Encode(cmd: Command): string { Header('*', |cmd|) + Bulks(cmd) }

  function EncodeAll(cmds: seq<Command>): string {
    if cmds == [] then "" else Encode(cmds[0]) + EncodeAll(cmds[1..])
  }

  lemma {:induction false} BulksAppend(args: seq<string>, more: seq<string>)
    ensures Bulks(args + more) == Bulks(args) + Bulks(more)
  {
    if args == [] {
      assert args + more == more;
    } else {
      assert (args + more)[1..] == args[1..] + more;
      BulksAppend(args[1..], more);
    }
  }

  lemma BulksSnoc(argv: Command, j: nat)
    requires j < |argv|
    ensures Bulks(argv[..j + 1]) == Bulks(argv[..j]) + Bulk(argv[j])
  {
    var o := argv[j];
    BulksAppend(argv[..j], [o]);
    assert argv[..j + 1] == argv[..j] + [o];
    assert [o][1..] == [];
    assert Bulks([o]) == Bulk(o);
  }

  lemma Assoc4(a: string, b: string, c: string, d: string)
    ensures a + (b + c) + d == a + (b + (c + d))
  {
  }

  /** Append one argument: its length, its bytes, the line end. */
  method CatBulk(dst0: string, o: string) returns (dst: string)
    ensures dst == dst0 + Bulk(o)
  {
    dst := dst0 + ("$" + Decimal(|o|) + "\r\n");
    dst := dst + o;
    dst := dst + "\r\n";
  }

  /** `catAppendOnlyGenericCommand`. */
  method CatCommand(dst0: string, argv: Command) returns (dst: string)
    ensures dst == dst0 + Encode(argv)
  {
    var header := "*" + Decimal(|argv|) + "\r\n";
    dst := dst0 + header;
    assert header + "" == header;
    hide Bulk;
    for j := 0 to |argv|
      invariant dst == dst0 + (header + Bulks(argv[..j]))
    {
      BulksSnoc(argv, j);
      Assoc4(dst0, header, Bulks(argv[..j]), Bulk(argv[j]));
      dst := CatBulk(dst, argv[j]);
    }
    assert argv[..|argv|] == argv;
  }

  // ----- reading -----

  /** Where the line that starts at `pos` ends: after a newline, at the buffer size, or at the end. */
  function LineEnd(text: string, pos: nat, room: nat): (end: nat)
    requires pos <= |text|
    ensures pos <= end <= |text| && (pos < |text| && room > 0 ==> pos < end)
    decreases room
  {
    if pos == |text| || room == 0 then pos
    else if text[pos] == '\n' then pos + 1
    else LineEnd(text, pos + 1, room - 1)
  }

  /** Reading the line from `pos` to `q` met the end of the file: neither a newline nor a full buffer stopped it. */
  predicate HitsEnd(text: string, pos: nat, q: nat)
    requires pos < q <= |text|
  {
    q == |text| && text[q - 1] != '\n' && q - pos < LINE_MAX - 1
  }

  datatype Read<T> = Got(value: T, next: nat) | Skip(next: nat) | End | Short | Bad

  /** One argument: its length line, its bytes, and two bytes that are not looked at. */
  function ReadArg(text: string, pos: nat): Read<string>
    requires pos <= |text|
  {
    if pos == |text| then Short
    else
      var q := LineEnd(text, pos, LINE_MAX - 1);
      if text[pos] != '$' then Bad
      else
        var len := ToUnsigned(ParseLong(text[pos + 1..q]));
        if q + len > |text| then Short
        else if q + len + 2 > |text| then Short
        else Got(text[q..q + len], q + len + 2)
  }

  function ReadArgs(text: string, pos: nat, n: nat): Read<seq<string>>
    requires pos <= |text|
    decreases n
  {
    if n == 0 then Got([], pos)
    else
      match ReadArg(text, pos)
      case Got(arg, next) =>
        (match ReadArgs(text, next, n - 1)
         case Got(args, end) => Got([arg] + args, end)
         case Bad => Bad
         case _ => Short)
      case Bad => Bad
      case _ => Short
  }

  /** The next command of the log, or why there is none. */
  function ReadCommand(text: string, pos: nat): Read<Command>
    requires pos <= |text|
  {
    if pos == |text| then End
    else
      var q := LineEnd(text, pos, LINE_MAX - 1);
      if text[pos] == '#' then Skip(q)
      else if text[pos] != '*' then Bad
      else if q == pos + 1 then Short
      else if text[pos + 1] == '\0' then if HitsEnd(text, pos, q) then Short else Bad
      else
        var argc := ParseInt(text[pos + 1..q]);
        if argc < 1 then Bad else ReadArgs(text, q, argc)
  }

  // ----- a header read back, whole or cut -----

  /** Sizes a process can have: they fit the line buffer with room to spare. */
  ghost predicate Sized(n: nat) { n < 0x8000_0000_0000_0000 }

  function Pow10(k: nat): (p: nat)
    ensures p >= 1
  {
    if k == 0 then 1 else 10 * Pow10(k - 1)
  }

  lemma {:induction false} DecimalLength(n: nat, k: nat)
    requires n < Pow10(k) && k >= 1
    ensures |Decimal(n)| <= k
    decreases k
  {
    if n >= 10 {
      assert k >= 2;
      DecimalLength(n / 10, k - 1);
    }
  }

  lemma Pow10Of20()
    ensures Pow10(20) >= 0x8000_0000_0000_0000
  {
    assert Pow10(5) == 100_000;
    assert Pow10(10) == 10_000_000_000 by { assert Pow10(8) == 100_000_000; }
    assert Pow10(15) == 1_000_000_000_000_000 by { assert Pow10(13) == 10_000_000_000_000; }
    assert Pow10(18) == 1_000_000_000_000_000_000;
    assert Pow10(20) == 100_000_000_000_000_000_000;
  }

  lemma HeaderIsShort(mark: char, n: nat)
    requires Sized(n)
    ensures |Header(mark, n)| <= 23
  {
    Pow10Of20();
    DecimalLength(n, 20);
  }

  lemma {:induction false} LineEndAt(text: string, pos: nat, room: nat, end: nat)
    requires pos <= end <= |text| && end - pos <= room
    requires forall i :: pos <= i < end - 1 ==> text[i] != '\n'
    requires pos < end ==> text[end - 1] == '\n' || end == |text|
    requires pos == end ==> end == |text|
    ensures LineEnd(text, pos, room) == end
    decreases room
  {
    if pos < end && text[pos] != '\n' {
      LineEndAt(text, pos + 1, room - 1, end);
    }
  }

  /** `x` stands in `text` at `pos`. */
  ghost predicate At(text: string, pos: nat, x: string) {
    pos + |x| <= |text| && text[pos..pos + |x|] == x
  }

  lemma AtSplit(text: string, pos: nat, x: string, y: string)
    ensures At(text, pos, x + y) <==> At(text, pos, x) && At(text, pos + |x|, y)
  {
    if At(text, pos, x + y) {
      assert text[pos..pos + |x|] == (x + y)[..|x|];
      assert text[pos + |x|..pos + |x| + |y|] == (x + y)[|x|..];
    }
    if At(text, pos, x) && At(text, pos + |x|, y) {
      assert text[pos..pos + |x + y|] == text[pos..pos + |x|] + text[pos + |x|..pos + |x| + |y|];
    }
  }

  lemma HeaderShape(mark: char, n: nat)
    requires mark == '*' || mark == '$'
    ensures var h := Header(mark, n);
      && |h| == |Decimal(n)| + 3 && h[0] == mark && h[|h| - 1] == '\n' && h[1..] == Decimal(n) + "\r\n"
      && forall i :: 0 <= i < |h| - 1 ==> h[i] != '\n'
  {
    var h := Header(mark, n);
    assert forall i :: 1 <= i <= |Decimal(n)| ==> h[i] == Decimal(n)[i - 1];
  }

  lemma ReadHeader(text: string, pos: nat, mark: char, n: nat)
    requires (mark == '*' || mark == '$') && Sized(n) && At(text, pos, Header(mark, n))
    ensures var end := pos + |Header(mark, n)|;
      && pos + 1 < end <= |text| && text[pos] == mark
      && LineEnd(text, pos, LINE_MAX - 1) == end && text[pos + 1] != '\0'
      && ParseLong(text[pos + 1..end]) == n && (n <= INT_MAX ==> ParseInt(text[pos + 1..end]) == n)
  {
    hide Header, LineEnd;
    var h := Header(mark, n);
    HeaderShape(mark, n);
    HeaderIsShort(mark, n);
    var end := pos + |h|;
    AtChars(text, pos, h);
    LineEndAt(text, pos, LINE_MAX - 1, end);
    assert text[pos + 1..end] == text[pos..end][1..];
    assert text[pos + 1] == h[1] == h[1..][0] == Decimal(n)[0];
    DecimalReadBack(n, "\r\n");
  }

  /** A header cut short is read as a line of its own; a cut count is still at least one. */
  lemma ReadCutHeader(text: string, pos: nat, mark: char, n: nat, c: nat)
    requires (mark == '*' || mark == '$') && Sized(n)
    requires 0 < c < |Header(mark, n)| && |text| == pos + c && At(text, pos, Header(mark, n)[..c])
    ensures text[pos] == mark && LineEnd(text, pos, LINE_MAX - 1) == |text|
    ensures 1 <= n <= INT_MAX && c >= 2 ==> text[pos + 1] != '\0' && ParseInt(text[pos + 1..]) >= 1
  {
    hide Header, At, LineEnd, ParseInt;
    var h := Header(mark, n);
    HeaderShape(mark, n);
    HeaderIsShort(mark, n);
    AtChars(text, pos, h[..c]);
    LineEndAt(text, pos, LINE_MAX - 1, |text|);
    if 1 <= n <= INT_MAX && c >= 2 {
      assert text[pos + 1] == h[1] == h[1..][0] == Decimal(n)[0];
      assert text[pos + 1..] == h[1..][..c - 1];
      CutNumber(n, c - 1);
    }
  }

  lemma CutNumber(n: nat, k: nat)
    requires 1 <= n <= INT_MAX && 1 <= k <= |Decimal(n)| + 1
    ensures ParseInt((Decimal(n) + "\r\n")[..k]) >= 1
  {
    hide ParseInt;
    var d := if k <= |Decimal(n)| then k else |Decimal(n)|;
    var m := CutDigits(n, d);
    var rest := if k <= |Decimal(n)| then "" else "\r";
    assert (Decimal(n) + "\r\n")[..k] == Decimal(m) + rest;
    DecimalReadBack(m, rest);
  }

  lemma AtChars(text: string, pos: nat, x: string)
    requires At(text, pos, x)
    ensures forall i :: pos <= i < pos + |x| ==> text[i] == x[i - pos]
  {
    assert forall i :: pos <= i < pos + |x| ==> text[i] == text[pos..pos + |x|][i - pos];
  }

  // ----- arguments -----

  lemma ReadArgWhole(text: string, pos: nat, arg: string)
    requires Sized(|arg|) && At(text, pos, Bulk(arg))
    ensures ReadArg(text, pos) == Got(arg, pos + |Bulk(arg)|)
  {
    hide ParseLong, ParseInt, LineEnd, Header;
    var h := Header('$', |arg|);
    AtSplit(text, pos, h + arg, "\r\n");
    AtSplit(text, pos, h, arg);
    ReadHeader(text, pos, '$', |arg|);
  }

  lemma ReadArgCut(text: string, pos: nat, arg: string, c: nat)
    requires Sized(|arg|) && c < |Bulk(arg)| && |text| == pos + c && At(text, pos, Bulk(arg)[..c])
    ensures ReadArg(text, pos) == Short
  {
    hide ParseLong, ParseInt, LineEnd, Header;
    var h := Header('$', |arg|);
    if 0 < c < |h| {
      assert Bulk(arg)[..c] == h[..c];
      ReadCutHeader(text, pos, '$', |arg|, c);
    } else if c >= |h| {
      assert Bulk(arg)[..c] == h + Bulk(arg)[|h|..c];
      AtSplit(text, pos, h, Bulk(arg)[|h|..c]);
      ReadHeader(text, pos, '$', |arg|);
    }
  }

  /** The number of arguments is an `int`. */
  ghost predicate SizedArgs(args: seq<string>) {
    |args| <= INT_MAX && forall i :: 0 <= i < |args| ==> Sized(|args[i]|)
  }

  lemma {:induction false} ReadArgsWhole(text: string, pos: nat, args: seq<string>)
    requires SizedArgs(args) && At(text, pos, Bulks(args))
    ensures ReadArgs(text, pos, |args|) == Got(args, pos + |Bulks(args)|)
    decreases |args|
  {
    if args != [] {
      var b, next := Bulk(args[0]), pos + |Bulk(args[0])|;
      assert Bulks(args) == b + Bulks(args[1..]);
      assert [args[0]] + args[1..] == args;
      hide At, ReadArg, ReadArgs, Bulk, Bulks;
      AtSplit(text, pos, b, Bulks(args[1..]));
      ReadArgWhole(text, pos, args[0]);
      ReadArgsWhole(text, next, args[1..]);
      ReadArgsStep(text, pos, |args|, args[0], next, args[1..], pos + |Bulks(args)|);
    }
  }

  lemma ReadArgsStep(text: string, pos: nat, n: nat, arg: string, next: nat, rest: seq<string>, end: nat)
    requires pos <= |text| && next <= |text| && n >= 1
    requires ReadArg(text, pos) == Got(arg, next) && ReadArgs(text, next, n - 1) == Got(rest, end)
    ensures ReadArgs(text, pos, n) == Got([arg] + rest, end)
  {
  }

  /** A negative length is a huge one, which no file has: a short read. */
  lemma NegativeLengthIsShort(text: string, pos: nat)
    requires pos < |text| < 0x8000_0000_0000_0000 && text[pos] == '$'
    requires ParseLong(text[pos + 1..LineEnd(text, pos, LINE_MAX - 1)]) < 0
    ensures ReadArg(text, pos) == Short
  {
    hide ParseLong, LineEnd;
  }

  lemma {:induction false} ReadArgsCut(text: string, pos: nat, args: seq<string>, c: nat)
    requires SizedArgs(args) && c < |Bulks(args)| && |text| == pos + c && At(text, pos, Bulks(args)[..c])
    ensures ReadArgs(text, pos, |args|) == Short
    decreases |args|
  {
    hide At, ReadArg, Bulk;
    var b := Bulk(args[0]);
    if c < |b| {
      assert Bulks(args)[..c] == b[..c];
      ReadArgCut(text, pos, args[0], c);
    } else {
      assert Bulks(args)[..c] == b + Bulks(args[1..])[..c - |b|];
      AtSplit(text, pos, b, Bulks(args[1..])[..c - |b|]);
      ReadArgWhole(text, pos, args[0]);
      ReadArgsCut(text, pos + |b|, args[1..], c - |b|);
    }
  }

  lemma NothingLeft(text: string)
    ensures forall n: nat :: n >= 1 ==> ReadArgs(text, |text|, n) == Short
  {
  }

  // ----- commands -----

  /** A whole command is read back as it was written. */
  lemma ReadCommandWhole(text: string, pos: nat, cmd: Command)
    requires cmd != [] && SizedArgs(cmd) && At(text, pos, Encode(cmd))
    ensures ReadCommand(text, pos) == Got(cmd, pos + |Encode(cmd)|)
  {
    hide ReadArgs, Bulks, Header, LineEnd, ParseInt, ParseLong, At;
    var h := Header('*', |cmd|);
    AtSplit(text, pos, h, Bulks(cmd));
    ReadHeader(text, pos, '*', |cmd|);
    ReadArgsWhole(text, pos + |h|, cmd);
  }

  /** A command cut anywhere inside is a short read, never a different command. */
  lemma ReadCommandCut(text: string, pos: nat, cmd: Command, c: nat)
    requires cmd != [] && SizedArgs(cmd)
    requires 0 < c < |Encode(cmd)| && |text| == pos + c && At(text, pos, Encode(cmd)[..c])
    ensures ReadCommand(text, pos) == Short
  {
    hide ReadArgs, Bulks, Header, LineEnd, ParseInt, ParseLong, At;
    var h := Header('*', |cmd|);
    if c < |h| {
      assert Encode(cmd)[..c] == h[..c];
      ReadCutHeader(text, pos, '*', |cmd|, c);
      assert text[pos + 1..|text|] == text[pos + 1..];
      NothingLeft(text);
    } else {
      assert Encode(cmd)[..c] == h + Bulks(cmd)[..c - |h|];
      AtSplit(text, pos, h, Bulks(cmd)[..c - |h|]);
      ReadHeader(text, pos, '*', |cmd|);
      ReadArgsCut(text, pos + |h|, cmd, c - |h|);
    }
  }

  // ----- executing -----

  predicate IsMulti(cmd: Command) { cmd != [] && Lower(cmd[0]) == "multi" }

  predicate IsExec(cmd: Command) { cmd != [] && Lower(cmd[0]) == "exec" }

  /** The fake client: whether it is in a transaction, what it queued, what has been run. */
  datatype Client = Client(multi: bool, queue: seq<Command>, run: seq<Command>)

  function Execute(x: Client, cmd: Command): Client {
    if x.multi && !IsExec(cmd) then x.(queue := x.queue + [cmd])
    else if IsMulti(cmd) then x.(multi := true)
    else if IsExec(cmd) && x.multi then Client(false, [], x.run + x.queue)
    else x.(run := x.run + [cmd])
  }

  function ExecuteAll(x: Client, cmds: seq<Command>): Client
    decreases |cmds|
  {
    if cmds == [] then x else ExecuteAll(Execute(x, cmds[0]), cmds[1..])
  }

  const FRESH := Client(false, [], [])

  // ----- loading -----

  datatype Status = AofOk | AofTruncated | AofFailed | AofEmpty

  /** The commands run, and the size of the file afterwards. */
  datatype Outcome = Outcome(status: Status, run: seq<Command>, size: nat)

  /** The loop variables of the loader. */
  datatype Loader = Loader(pos: nat, validUpTo: nat, validBeforeMulti: nat, client: Client)

  /** One complete command, read up to `next`. */
  function Track(st: Loader, cmd: Command, next: nat, loadTruncated: bool): Loader {
    Loader(next,
           if loadTruncated then next else st.validUpTo,
           if IsMulti(cmd) then st.validUpTo else st.validBeforeMulti,
           Execute(st.client, cmd))
  }

  /** The log ends unexpectedly: truncate it, or give up. */
  function Unexpected(text: string, st: Loader, at: nat, loadTruncated: bool): Outcome {
    if loadTruncated then Outcome(AofTruncated, st.client.run, at)
    else Outcome(AofFailed, st.client.run, |text|)
  }

  lemma {:induction false} ReadArgsAdvances(text: string, pos: nat, n: nat)
    requires pos <= |text|
    ensures var r := ReadArgs(text, pos, n); r.Got? ==> pos <= r.next <= |text|
    decreases n
  {
    if n > 0 && ReadArg(text, pos).Got? {
      ReadArgsAdvances(text, ReadArg(text, pos).next, n - 1);
    }
  }

  lemma ReadCommandAdvances(text: string, pos: nat)
    requires pos <= |text|
    ensures var r := ReadCommand(text, pos); r.Got? || r.Skip? ==> pos < r.next <= |text|
  {
    if pos < |text| {
      var q := LineEnd(text, pos, LINE_MAX - 1);
      var argc := ParseInt(text[pos + 1..q]);
      if argc >= 1 {
        ReadArgsAdvances(text, q, argc);
      }
    }
  }

  /** The main loop of `loadSingleAppendOnlyFile`. */
  function LoadFrom(text: string, st: Loader, loadTruncated: bool, known: Command -> bool): Outcome
    requires st.pos <= |text|
    decreases |text| - st.pos
  {
    ReadCommandAdvances(text, st.pos);
    match ReadCommand(text, st.pos)
    case End =>
      if st.client.multi then Unexpected(text, st, st.validBeforeMulti, loadTruncated)
      else Outcome(AofOk, st.client.run, |text|)
    case Skip(next) => LoadFrom(text, st.(pos := next), loadTruncated, known)
    case Short => Unexpected(text, st, st.validUpTo, loadTruncated)
    case Bad => Outcome(AofFailed, st.client.run, |text|)
    case Got(cmd, next) =>
      if !known(cmd) then Outcome(AofFailed, st.client.run, |text|)
      else LoadFrom(text, Track(st, cmd, next, loadTruncated), loadTruncated, known)
  }

  const START := Loader(0, 0, 0, FRESH)

  function LoadFile(text: string, loadTruncated: bool, known: Command -> bool): Outcome {
    if text == "" then Outcome(AofEmpty, [], 0) else LoadFrom(text, START, loadTruncated, known)
  }

  // ----- a log cut anywhere -----

  /** How many commands are complete in the first `cut` bytes. */
  function Complete(cmds: seq<Command>, cut: nat): (k: nat)
    ensures k <= |cmds|
  {
    if cmds == [] || cut < |Encode(cmds[0])| then 0
    else 1 + Complete(cmds[1..], cut - |Encode(cmds[0])|)
  }

  /** Where the last MULTI stands. */
  function LastMulti(cmds: seq<Command>): (i: nat)
    ensures i <= |cmds|
  {
    if cmds == [] then 0
    else if IsMulti(cmds[|cmds| - 1]) then |cmds| - 1
    else LastMulti(cmds[..|cmds| - 1])
  }

  ghost predicate GoodLog(cmds: seq<Command>, known: Command -> bool) {
    forall i :: 0 <= i < |cmds| ==> cmds[i] != [] && SizedArgs(cmds[i]) && known(cmds[i])
  }

  ghost function TrackAll(st: Loader, cmds: seq<Command>, loadTruncated: bool): Loader
    decreases |cmds|
  {
    if cmds == [] then st
    else TrackAll(Track(st, cmds[0], st.pos + |Encode(cmds[0])|, loadTruncated), cmds[1..], loadTruncated)
  }

  /** What the loader makes of the log, given the variables it holds when the text runs out. */
  ghost function Finish(text: string, st: Loader, loadTruncated: bool): Outcome {
    if st.pos != |text| then Unexpected(text, st, st.validUpTo, loadTruncated)
    else if st.client.multi then Unexpected(text, st, st.validBeforeMulti, loadTruncated)
    else Outcome(AofOk, st.client.run, |text|)
  }

  lemma {:induction false} LoadFromCut(text: string, st: Loader, cmds: seq<Command>, c: nat, loadTruncated: bool, known: Command -> bool)
    requires GoodLog(cmds, known) && st.pos + c == |text|
    requires c <= |EncodeAll(cmds)| && At(text, st.pos, EncodeAll(cmds)[..c])
    ensures LoadFrom(text, st, loadTruncated, known)
         == Finish(text, TrackAll(st, cmds[..Complete(cmds, c)], loadTruncated), loadTruncated)
    decreases |cmds|
  {
    hide ReadCommand, Encode, At, Track, Execute;
    var k := Complete(cmds, c);
    if c == 0 {
      EncodeNonEmpty(cmds);
      assert cmds[..k] == [];
      ReadAtEnd(text);
    } else {
      var e := Encode(cmds[0]);
      if c < |e| {
        assert EncodeAll(cmds)[..c] == e[..c];
        ReadCommandCut(text, st.pos, cmds[0], c);
        assert cmds[..k] == [];
      } else {
        var rest := EncodeAll(cmds[1..])[..c - |e|];
        assert EncodeAll(cmds)[..c] == e + rest;
        AtSplit(text, st.pos, e, rest);
        ReadCommandWhole(text, st.pos, cmds[0]);
        var st' := Track(st, cmds[0], st.pos + |e|, loadTruncated);
        TrackPos(st, cmds[0], st.pos + |e|, loadTruncated);
        LoadFromCut(text, st', cmds[1..], c - |e|, loadTruncated, known);
        assert cmds[..k][1..] == cmds[1..][..k - 1];
      }
    }
  }

  lemma EncodeNonEmpty(cmds: seq<Command>)
    ensures Complete(cmds, 0) == 0
  {
  }

  lemma ReadAtEnd(text: string)
    ensures ReadCommand(text, |text|) == End
  {
  }

  lemma TrackPos(st: Loader, cmd: Command, next: nat, loadTruncated: bool)
    ensures Track(st, cmd, next, loadTruncated).pos == next
  {
  }

  lemma {:induction false} TrackAllSnoc(st: Loader, cmds: seq<Command>, cmd: Command, loadTruncated: bool)
    ensures var st' := TrackAll(st, cmds, loadTruncated);
      TrackAll(st, cmds + [cmd], loadTruncated) == Track(st', cmd, st'.pos + |Encode(cmd)|, loadTruncated)
    decreases |cmds|
  {
    hide Track, Encode;
    if cmds == [] {
      assert (cmds + [cmd])[1..] == [];
    } else {
      assert (cmds + [cmd])[1..] == cmds[1..] + [cmd];
      TrackAllSnoc(Track(st, cmds[0], st.pos + |Encode(cmds[0])|, loadTruncated), cmds[1..], cmd, loadTruncated);
    }
  }

  lemma {:induction false} EncodeAllAppend(a: seq<Command>, b: seq<Command>)
    ensures EncodeAll(a + b) == EncodeAll(a) + EncodeAll(b)
  {
    hide Encode;
    if a == [] {
      assert a + b == b;
    } else {
      assert (a + b)[1..] == a[1..] + b;
      EncodeAllAppend(a[1..], b);
    }
  }

  lemma {:induction false} ExecuteAllAppend(x: Client, a: seq<Command>, b: seq<Command>)
    ensures ExecuteAll(x, a + b) == ExecuteAll(ExecuteAll(x, a), b)
    decreases |a|
  {
    hide Execute;
    if a == [] {
      assert a + b == b;
    } else {
      assert (a + b)[1..] == a[1..] + b;
      ExecuteAllAppend(Execute(x, a[0]), a[1..], b);
    }
  }

  /** The loader's offsets: the end of the last command, and the start of the last MULTI. */
  lemma {:induction false} TrackAllFromStart(cmds: seq<Command>, loadTruncated: bool)
    ensures var st := TrackAll(START, cmds, loadTruncated);
      && st.pos == |EncodeAll(cmds)| && st.client == ExecuteAll(FRESH, cmds)
      && (loadTruncated ==> st.validUpTo == st.pos && st.validBeforeMulti == |EncodeAll(cmds[..LastMulti(cmds)])|)
  {
    if cmds != [] {
      hide Encode, Execute;
      var front, last := cmds[..|cmds| - 1], cmds[|cmds| - 1];
      assert cmds == front + [last];
      TrackAllFromStart(front, loadTruncated);
      TrackAllSnoc(START, front, last, loadTruncated);
      EncodeAllAppend(front, [last]);
      ExecuteAllAppend(FRESH, front, [last]);
      assert [last][1..] == [];
      assert EncodeAll([last]) == Encode(last);
      assert ExecuteAll(ExecuteAll(FRESH, front), [last]) == Execute(ExecuteAll(FRESH, front), last);
      if IsMulti(last) {
        assert cmds[..LastMulti(cmds)] == front;
      } else {
        assert cmds[..LastMulti(cmds)] == front[..LastMulti(front)];
      }
    }
  }

  /**
   For every log and every cut: exactly the complete commands are executed, a transaction only
   if its EXEC is complete. With truncation on, a cut inside a command truncates after the last
   complete one, and a log that ends inside a transaction is truncated before its MULTI.
   */
  lemma LoadOfCutLog(cmds: seq<Command>, cut: nat, loadTruncated: bool, known: Command -> bool)
    requires GoodLog(cmds, known) && 0 < cut <= |EncodeAll(cmds)|
    ensures var before := cmds[..Complete(cmds, cut)];
      var client := ExecuteAll(FRESH, before);
      var outcome := LoadFile(EncodeAll(cmds)[..cut], loadTruncated, known);
      && outcome.run == client.run
      && (if |EncodeAll(before)| == cut && !client.multi then outcome.status == AofOk && outcome.size == cut
          else if !loadTruncated then outcome.status == AofFailed && outcome.size == cut
          else outcome.status == AofTruncated
               && outcome.size == if |EncodeAll(before)| == cut then |EncodeAll(before[..LastMulti(before)])|
                                  else |EncodeAll(before)|)
  {
    var text := EncodeAll(cmds)[..cut];
    var before := cmds[..Complete(cmds, cut)];
    LoadFromCut(text, START, cmds, cut, loadTruncated, known);
    TrackAllFromStart(before, loadTruncated);
    hide LoadFrom, TrackAll, EncodeAll, ExecuteAll;
  }

  /** `Complete` counts the longest prefix of the commands that fits before the cut. */
  lemma {:induction false} CompleteIsLongest(cmds: seq<Command>, cut: nat)
    ensures var k := Complete(cmds, cut);
      && |EncodeAll(cmds[..k])| <= cut
      && (k < |cmds| ==> cut < |EncodeAll(cmds[..k + 1])|)
  {
    hide Encode;
    var k := Complete(cmds, cut);
    if cmds != [] {
      var e := Encode(cmds[0]);
      if cut < |e| {
        assert cmds[..k] == [];
        assert cmds[..k + 1][1..] == [];
      } else {
        CompleteIsLongest(cmds[1..], cut - |e|);
        assert cmds[..k][1..] == cmds[1..][..k - 1];
        if k < |cmds| {
          assert cmds[..k + 1][1..] == cmds[1..][..k];
        }
      }
    }
  }

  // ----- writing on after a truncated load -----

  ghost predicate NoExec(cmds: seq<Command>) {
    forall i :: 0 <= i < |cmds| ==> !IsExec(cmds[i])
  }

  lemma {:induction false} CompleteOfAll(cmds: seq<Command>)
    ensures Complete(cmds, |EncodeAll(cmds)|) == |cmds|
  {
    if cmds != [] {
      CompleteOfAll(cmds[1..]);
    }
  }

  /** What has been run before does not matter to what is run next. */
  lemma {:induction false} RunShift(x: Client, cmds: seq<Command>)
    ensures var y := ExecuteAll(x.(run := []), cmds);
      ExecuteAll(x, cmds) == y.(run := x.run + y.run)
    decreases |cmds|
  {
    if cmds == [] {
      assert x.run + [] == x.run;
    } else {
      hide Execute;
      var x', y' := Execute(x, cmds[0]), Execute(x.(run := []), cmds[0]);
      ExecuteShift(x, cmds[0]);
      RunShift(x', cmds[1..]);
      RunShift(y', cmds[1..]);
      var z := ExecuteAll(x'.(run := []), cmds[1..]).run;
      assert x.run + y'.run + z == x.run + (y'.run + z);
    }
  }

  lemma ExecuteShift(x: Client, cmd: Command)
    ensures var y := Execute(x.(run := []), cmd);
      Execute(x, cmd) == y.(run := x.run + y.run)
  {
    assert x.run + [] == x.run;
  }

  /** Inside a transaction commands other than EXEC pile up. */
  lemma {:induction false} PileUp(x: Client, cmds: seq<Command>)
    requires x.multi && NoExec(cmds)
    ensures ExecuteAll(x, cmds) == x.(queue := x.queue + cmds)
    decreases |cmds|
  {
    if cmds == [] {
      assert x.queue + cmds == x.queue;
    } else {
      PileUp(Execute(x, cmds[0]), cmds[1..]);
      assert x.queue + [cmds[0]] + cmds[1..] == x.queue + cmds;
    }
  }

  /** From the start, either nothing is open and nothing queued, or the queue holds no EXEC. */
  lemma {:induction false} QueueHasNoExec(cmds: seq<Command>)
    ensures var x := ExecuteAll(FRESH, cmds);
      NoExec(x.queue) && (!x.multi ==> x.queue == [])
    decreases |cmds|
  {
    if cmds != [] {
      var front, last := cmds[..|cmds| - 1], cmds[|cmds| - 1];
      QueueHasNoExec(front);
      ExecuteSnoc(FRESH, front, last);
      assert cmds == front + [last];
    }
  }

  lemma ExecuteSnoc(x: Client, front: seq<Command>, last: Command)
    ensures ExecuteAll(x, front + [last]) == Execute(ExecuteAll(x, front), last)
  {
    ExecuteAllAppend(x, front, [last]);
    assert [last][1..] == [];
  }

  /** Without an EXEC: all is run, or one MULTI separates what is run from what is queued. */
  lemma {:induction false} BeforeExec(cmds: seq<Command>)
    requires NoExec(cmds)
    ensures var x := ExecuteAll(FRESH, cmds);
      if x.multi then |x.run| + 1 + |x.queue| == |cmds| else x.run == cmds && x.queue == []
    decreases |cmds|
  {
    if cmds != [] {
      var front, last := cmds[..|cmds| - 1], cmds[|cmds| - 1];
      BeforeExec(front);
      ExecuteSnoc(FRESH, front, last);
      assert cmds == front + [last];
    }
  }

  /** If a transaction is open, no EXEC follows the last MULTI, which begins or joins it. */
  lemma {:induction false} OpenSinceLastMulti(cmds: seq<Command>)
    requires ExecuteAll(FRESH, cmds).multi
    ensures var m := LastMulti(cmds);
      m < |cmds| && IsMulti(cmds[m]) && NoExec(cmds[m..])
    decreases |cmds|
  {
    var front, last := cmds[..|cmds| - 1], cmds[|cmds| - 1];
    ExecuteSnoc(FRESH, front, last);
    assert cmds == front + [last];
    if !IsMulti(last) {
      OpenSinceLastMulti(front);
      var m := LastMulti(front);
      assert cmds[m..] == front[m..] + [last];
    }
  }

  /** Dropping the last MULTI and what follows it drops nothing that was run. */
  lemma DropLastMulti(cmds: seq<Command>)
    requires ExecuteAll(FRESH, cmds).multi
    ensures ExecuteAll(FRESH, cmds[..LastMulti(cmds)]).run == ExecuteAll(FRESH, cmds).run
  {
    var m := LastMulti(cmds);
    OpenSinceLastMulti(cmds);
    var x := ExecuteAll(FRESH, cmds[..m]);
    assert cmds == cmds[..m] + cmds[m..];
    ExecuteAllAppend(FRESH, cmds[..m], cmds[m..]);
    hide LastMulti;
    if x.multi {
      PileUp(x, cmds[m..]);
    } else {
      var tail := cmds[m..];
      assert tail[0] == cmds[m];
      PileUp(Execute(x, tail[0]), tail[1..]);
    }
  }

  /**
   When a client inside a transaction is given the same commands as a fresh one: it runs the same
   only if there are none, or they are a transaction that does not end.
   */
  ghost predicate Unnoticed(more: seq<Command>) {
    more == [] || (IsMulti(more[0]) && NoExec(more))
  }

  lemma OpenSwallows(x: Client, more: seq<Command>)
    requires x.multi && NoExec(x.queue)
    ensures ExecuteAll(x, more).run == x.run + ExecuteAll(FRESH, more).run <==> Unnoticed(more)
  {
    if NoExec(more) {
      PileUp(x, more);
      assert x.run + [] == x.run;
      var alone := ExecuteAll(FRESH, more).run;
      assert |x.run + alone| == |x.run| + |alone|;
      if more != [] {
        RunShift(Execute(FRESH, more[0]), more[1..]);
        if IsMulti(more[0]) {
          PileUp(Execute(FRESH, more[0]), more[1..]);
        }
      }
    } else {
      var e := FirstExec(more);
      ExecSwallows(x, more, e);
    }
  }

  lemma FirstExec(cmds: seq<Command>) returns (e: nat)
    requires !NoExec(cmds)
    ensures e < |cmds| && IsExec(cmds[e]) && NoExec(cmds[..e])
  {
    e := 0;
    while !IsExec(cmds[e])
      invariant e < |cmds| && NoExec(cmds[..e])
      invariant exists i :: e <= i < |cmds| && IsExec(cmds[i])
      decreases |cmds| - e
    {
      e := e + 1;
    }
  }

  /** What runs up to and including the first EXEC. */
  lemma AtExec(x: Client, more: seq<Command>, e: nat, y: Client)
    requires e < |more| && IsExec(more[e]) && y == Execute(ExecuteAll(x, more[..e]), more[e])
    ensures !y.multi && (y.queue == [] ==> ExecuteAll(x, more).run == y.run + ExecuteAll(FRESH, more[e + 1..]).run)
  {
    var head, tail := more[..e], more[e + 1..];
    assert more == head + [more[e]] + tail;
    ExecuteAllAppend(x, head + [more[e]], tail);
    ExecuteSnoc(x, head, more[e]);
    RunShift(y, tail);
  }

  lemma ExecSwallows(x: Client, more: seq<Command>, e: nat)
    requires x.multi && NoExec(x.queue)
    requires e < |more| && IsExec(more[e]) && NoExec(more[..e])
    ensures ExecuteAll(x, more).run != x.run + ExecuteAll(FRESH, more).run
  {
    var head, rest := more[..e], ExecuteAll(FRESH, more[e + 1..]).run;
    PileUp(x, head);
    BeforeExec(head);
    var y, z := Execute(ExecuteAll(x, head), more[e]), Execute(ExecuteAll(FRESH, head), more[e]);
    AtExec(x, more, e, y);
    AtExec(FRESH, more, e, z);
    hide ExecuteAll;
    assert y.run == x.run + (x.queue + head);
    if |z.run| == |x.queue + head| {
      assert z.run == head + [more[e]] && |x.queue| == 1;
      var here := (x.queue + head)[e];
      assert here == if e == 0 then x.queue[0] else head[e - 1];
      assert !IsExec(here) && z.run[e] == more[e];
      NotTheSame(x.run, x.queue + head, z.run, rest, e);
    } else {
      assert |x.run + (x.queue + head) + rest| != |x.run + (z.run + rest)|;
    }
  }

  lemma NotTheSame(front: seq<Command>, a: seq<Command>, b: seq<Command>, rest: seq<Command>, i: nat)
    requires i < |a| == |b| && a[i] != b[i]
    ensures front + a + rest != front + (b + rest)
  {
    assert (front + a + rest)[|front| + i] == a[i];
    assert (front + (b + rest))[|front| + i] == b[i];
  }

  /** The commands that are left in the file after the first load. */
  ghost function Surviving(cmds: seq<Command>, cut: nat): (m: nat)
    ensures m <= |cmds|
  {
    var before := cmds[..Complete(cmds, cut)];
    if |EncodeAll(before)| == cut && ExecuteAll(FRESH, before).multi then LastMulti(before) else |before|
  }

  /** The first load leaves exactly those, and has run what they run. */
  lemma FirstLoad(cmds: seq<Command>, cut: nat, known: Command -> bool)
    requires GoodLog(cmds, known) && 0 < cut <= |EncodeAll(cmds)|
    ensures var first, kept := LoadFile(EncodeAll(cmds)[..cut], true, known), cmds[..Surviving(cmds, cut)];
      && first.size <= |EncodeAll(cmds)| && EncodeAll(cmds)[..first.size] == EncodeAll(kept)
      && first.run == ExecuteAll(FRESH, kept).run
  {
    hide LoadFile, EncodeAll, ExecuteAll, Complete, LastMulti, GoodLog;
    var k, m := Complete(cmds, cut), Surviving(cmds, cut);
    var before := cmds[..k];
    LoadOfCutLog(cmds, cut, true, known);
    EncodeAllPrefix(cmds, m);
    if ExecuteAll(FRESH, before).multi {
      DropLastMulti(before);
    }
    assert cmds[..m] == before[..m];
    assert before[..|before|] == before;
  }

  /**
   A log cut anywhere is loaded, which may truncate it, and then written to again. The next load
   runs what the first one ran and then the new commands exactly when no transaction is open in
   what is left of the file; an open one swallows them, which goes unnoticed only if the new
   commands would not have run anyway.
   */
  lemma AppendAfterTruncation(cmds: seq<Command>, cut: nat, more: seq<Command>, known: Command -> bool)
    requires GoodLog(cmds, known) && 0 < cut <= |EncodeAll(cmds)| && GoodLog(more, known)
    ensures var first, kept := LoadFile(EncodeAll(cmds)[..cut], true, known), cmds[..Surviving(cmds, cut)];
      && first.size <= |EncodeAll(cmds)|
      && (LoadFile(EncodeAll(cmds)[..first.size] + EncodeAll(more), true, known).run
          == first.run + ExecuteAll(FRESH, more).run
          <==> !ExecuteAll(FRESH, kept).multi || Unnoticed(more))
  {
    var kept := cmds[..Surviving(cmds, cut)];
    FirstLoad(cmds, cut, known);
    LoadOfWholeLog(kept + more, known);
    EncodeAllAppend(kept, more);
    ExecuteAllAppend(FRESH, kept, more);
    QueueHasNoExec(kept);
    var x := ExecuteAll(FRESH, kept);
    if x.multi {
      OpenSwallows(x, more);
    } else {
      RunShift(x, more);
    }
  }

  /** What the second load runs, if the first cut the file at a place inside it. */
  function SecondRun(text: string, first: Outcome, more: string, known: Command -> bool): seq<Command> {
    if first.size <= |text| then LoadFile(text[..first.size] + more, true, known).run else []
  }

  /** A log of a MULTI and another command that is cut inside the latter: the next command is lost. */
  lemma SwallowedAfter(a: Command, b: Command, c: Command, text: string, cut: nat, known: Command -> bool)
    requires GoodLog([a, b], known) && GoodLog([c], known)
    requires IsMulti(a) && !IsMulti(c) && !IsExec(c)
    requires text == EncodeAll([a, b]) && cut == |Encode(a)| + 1 <= |text|
    ensures var first := LoadFile(text[..cut], true, known);
      && first.run == [] && first.size <= |text|
      && ExecuteAll(FRESH, [c]).run == [c] && SecondRun(text, first, EncodeAll([c]), known) == []
  {
    LoneCut(a, b);
    assert [a, b][..1] == [a];
    FirstLoad([a, b], cut, known);
    LoadOfWholeLog([a] + [c], known);
    EncodeAllAppend([a], [c]);
    hide EncodeAll, LoadFile, Encode, Complete, LastMulti;
    ExecuteSnoc(FRESH, [], a);
    ExecuteSnoc(FRESH, [], c);
    ExecuteSnoc(FRESH, [a], c);
    assert [] + [a] == [a] && [] + [c] == [c];
  }

  lemma SwallowedCommand(text: string, cut: nat, known: Command -> bool)
    requires known(["MULTI"]) && known(["SET", "k", "v"]) && known(["INCR", "n"])
    requires text == EncodeAll([["MULTI"], ["SET", "k", "v"]]) && cut == |Encode(["MULTI"])| + 1
    ensures cut <= |text|
    ensures var first, more := LoadFile(text[..cut], true, known), [["INCR", "n"]];
      && first.run == [] && first.size <= |text|
      && ExecuteAll(FRESH, more).run == more && SecondRun(text, first, EncodeAll(more), known) == []
  {
    hide LoadFile, EncodeAll, Encode, ExecuteAll, GoodLog, IsMulti, IsExec;
    SampleIsGood(known);
    LoneCut(["MULTI"], ["SET", "k", "v"]);
    SwallowedAfter(["MULTI"], ["SET", "k", "v"], ["INCR", "n"], text, cut, known);
  }

  lemma SampleIsGood(known: Command -> bool)
    requires known(["MULTI"]) && known(["SET", "k", "v"]) && known(["INCR", "n"])
    ensures GoodLog([["MULTI"], ["SET", "k", "v"]], known) && GoodLog([["INCR", "n"]], known)
    ensures IsMulti(["MULTI"]) && !IsMulti(["INCR", "n"]) && !IsExec(["INCR", "n"])
  {
    assert Lower("MULTI") == "multi";
    assert Lower("INCR")[0] == 'i';
  }

  lemma LoneCut(a: Command, b: Command)
    ensures var cut := |Encode(a)| + 1;
      && Complete([a, b], cut) == 1 && |EncodeAll([a])| < cut <= |EncodeAll([a, b])|
  {
    assert [a, b][1..] == [b] && [b][1..] == [] && [a][1..] == [];
    assert EncodeAll([a]) == Encode(a) + EncodeAll([]) == Encode(a);
    assert |Encode(b)| > 1;
  }

  lemma EncodeAllPrefix(cmds: seq<Command>, k: nat)
    requires k <= |cmds|
    ensures |EncodeAll(cmds[..k])| <= |EncodeAll(cmds)|
    ensures EncodeAll(cmds)[..|EncodeAll(cmds[..k])|] == EncodeAll(cmds[..k])
  {
    assert cmds == cmds[..k] + cmds[k..];
    EncodeAllAppend(cmds[..k], cmds[k..]);
  }

  lemma LoadOfWholeLog(cmds: seq<Command>, known: Command -> bool)
    requires GoodLog(cmds, known)
    ensures LoadFile(EncodeAll(cmds), true, known).run == ExecuteAll(FRESH, cmds).run
  {
    if cmds != [] {
      var text := EncodeAll(cmds);
      EncodeAllNonEmpty(cmds);
      CompleteOfAll(cmds);
      assert cmds[..|cmds|] == cmds && text[..|text|] == text;
      LoadOfCutLog(cmds, |text|, true, known);
    }
  }

  lemma EncodeAllNonEmpty(cmds: seq<Command>)
    requires cmds != []
    ensures |EncodeAll(cmds)| > 0
  {
  }

  // ----- logs with annotations, and logs that are not logs -----

  /** What a log may hold: a command, or a line that is an annotation. */
  datatype Item = Run(cmd: Command) | Note(text: string)

  function ItemText(x: Item): string { if x.Run? then Encode(x.cmd) else "#" + x.text + "\n" }

  function ItemsText(items: seq<Item>): string {
    if items == [] then "" else ItemText(items[0]) + ItemsText(items[1..])
  }

  /** The commands, less the annotations. */
  function Commands(items: seq<Item>): seq<Command> {
    if items == [] then [] else (if items[0].Run? then [items[0].cmd] else []) + Commands(items[1..])
  }

  /** Commands as the encoder writes them, and annotations that fit the line buffer. */
  ghost predicate GoodItems(items: seq<Item>, known: Command -> bool) {
    forall i :: 0 <= i < |items| ==>
      match items[i]
      case Run(cmd) => cmd != [] && SizedArgs(cmd) && known(cmd)
      case Note(text) => '\n' !in text && |text| + 2 <= 1023
  }

  lemma ReadNote(text: string, pos: nat, note: string)
    requires At(text, pos, "#" + note + "\n") && '\n' !in note && |note| + 2 <= 1023
    ensures pos < |text| && ReadCommand(text, pos) == Skip(pos + |note| + 2)
  {
    var line := "#" + note + "\n";
    AtChars(text, pos, line);
    assert forall i :: 0 < i < |line| - 1 ==> line[i] == note[i - 1];
    LineEndAt(text, pos, LINE_MAX - 1, pos + |line|);
    hide LineEnd;
  }

  /** The loader works its way to the end of the items, running exactly the commands. */
  lemma {:induction false} LoadFromItems(text: string, st: Loader, items: seq<Item>,
                                         loadTruncated: bool, known: Command -> bool)
    requires GoodItems(items, known) && At(text, st.pos, ItemsText(items))
    ensures exists st' :: LoadedTo(text, st, st', items, loadTruncated, known)
    decreases |items|
  {
    hide *;
    if items == [] {
      NoItems(text, st, loadTruncated, known);
    } else {
      ItemsCons(items, known);
      AtSplit(text, st.pos, ItemText(items[0]), ItemsText(items[1..]));
      AtFits(text, st.pos, ItemText(items[0]));
      var next := if items[0].Run? then Track(st, items[0].cmd, st.pos + |ItemText(items[0])|, loadTruncated)
                  else st.(pos := st.pos + |ItemText(items[0])|);
      LoadItem(text, st, items[0], next, loadTruncated, known);
      LoadFromItems(text, next, items[1..], loadTruncated, known);
      var st' :| LoadedTo(text, next, st', items[1..], loadTruncated, known);
      LoadedOn(text, st, next, st', items, loadTruncated, known);
    }
  }

  /** From `st` the loader comes to `st'`, behind the items, and has executed their commands. */
  ghost predicate LoadedTo(text: string, st: Loader, st': Loader, items: seq<Item>,
                           loadTruncated: bool, known: Command -> bool)
  {
    && st.pos <= |text| && st'.pos == st.pos + |ItemsText(items)| <= |text|
    && LoadFrom(text, st, loadTruncated, known) == LoadFrom(text, st', loadTruncated, known)
    && st'.client == ExecuteAll(st.client, Commands(items))
  }

  lemma NoItems(text: string, st: Loader, loadTruncated: bool, known: Command -> bool)
    requires At(text, st.pos, ItemsText([]))
    ensures LoadedTo(text, st, st, [], loadTruncated, known)
  {
  }

  lemma AtFits(text: string, pos: nat, x: string)
    requires At(text, pos, x)
    ensures pos + |x| <= |text|
  {
  }

  lemma ItemsCons(items: seq<Item>, known: Command -> bool)
    requires items != [] && GoodItems(items, known)
    ensures ItemsText(items) == ItemText(items[0]) + ItemsText(items[1..])
    ensures GoodItems(items[1..], known) && GoodItems([items[0]], known)
  {
  }

  /** One item: a command is executed and remembered, an annotation is passed over. */
  lemma LoadItem(text: string, st: Loader, x: Item, next: Loader, loadTruncated: bool, known: Command -> bool)
    requires GoodItems([x], known) && At(text, st.pos, ItemText(x)) && st.pos <= |text|
    requires next == if x.Run? then Track(st, x.cmd, st.pos + |ItemText(x)|, loadTruncated)
                     else st.(pos := st.pos + |ItemText(x)|)
    ensures next.pos == st.pos + |ItemText(x)| <= |text|
    ensures next.client == if x.Run? then Execute(st.client, x.cmd) else st.client
    ensures LoadFrom(text, st, loadTruncated, known) == LoadFrom(text, next, loadTruncated, known)
  {
    hide *;
    AtFits(text, st.pos, ItemText(x));
    GoodItem(x, known);
    ItemTextIs(x);
    if x.Run? {
      TrackIs(st, x.cmd, st.pos + |ItemText(x)|, loadTruncated);
      ReadCommandWhole(text, st.pos, x.cmd);
    } else {
      ReadNote(text, st.pos, x.text);
    }
    LoadNext(text, st, loadTruncated, known);
  }

  lemma GoodItem(x: Item, known: Command -> bool)
    requires GoodItems([x], known)
    ensures match x
      case Run(cmd) => cmd != [] && SizedArgs(cmd) && known(cmd)
      case Note(text) => '\n' !in text && |text| + 2 <= 1023
  {
    assert [x][0] == x;
  }

  lemma ItemTextIs(x: Item)
    ensures x.Run? ==> ItemText(x) == Encode(x.cmd)
    ensures x.Note? ==> ItemText(x) == "#" + x.text + "\n" && |ItemText(x)| == |x.text| + 2
  {
    hide Encode;
  }

  lemma TrackIs(st: Loader, cmd: Command, next: nat, loadTruncated: bool)
    ensures var st' := Track(st, cmd, next, loadTruncated);
      st'.pos == next && st'.client == Execute(st.client, cmd)
  {
  }

  /** One turn of the loader. */
  lemma LoadNext(text: string, st: Loader, loadTruncated: bool, known: Command -> bool)
    requires st.pos <= |text|
    ensures var r := ReadCommand(text, st.pos);
      && (r.Got? || r.Skip? ==> st.pos < r.next <= |text|)
      && (r.Skip? ==> LoadFrom(text, st, loadTruncated, known) == LoadFrom(text, st.(pos := r.next), loadTruncated, known))
      && (r.Got? && known(r.value) ==>
            LoadFrom(text, st, loadTruncated, known)
            == LoadFrom(text, Track(st, r.value, r.next, loadTruncated), loadTruncated, known))
  {
    ReadCommandAdvances(text, st.pos);
    hide ReadCommand, Execute;
  }

  lemma LoadedOn(text: string, st: Loader, next: Loader, st': Loader, items: seq<Item>,
                 loadTruncated: bool, known: Command -> bool)
    requires items != [] && st.pos <= |text| && next.pos == st.pos + |ItemText(items[0])|
    requires LoadedTo(text, next, st', items[1..], loadTruncated, known)
    requires LoadFrom(text, st, loadTruncated, known) == LoadFrom(text, next, loadTruncated, known)
    requires next.client == if items[0].Run? then Execute(st.client, items[0].cmd) else st.client
    ensures LoadedTo(text, st, st', items, loadTruncated, known)
  {
    hide LoadFrom, ItemText, Execute;
    var more := Commands(items[1..]);
    if items[0].Run? {
      assert ([items[0].cmd] + more)[0] == items[0].cmd && ([items[0].cmd] + more)[1..] == more;
    } else {
      assert [] + more == more;
    }
  }

  /** Annotations are invisible: the log loads as its commands alone do. */
  lemma AnnotatedLogLoads(items: seq<Item>, loadTruncated: bool, known: Command -> bool)
    requires GoodItems(items, known) && items != []
    ensures var x := ExecuteAll(FRESH, Commands(items));
      var outcome := LoadFile(ItemsText(items), loadTruncated, known);
      && outcome.run == x.run
      && (outcome.status == AofOk <==> !x.multi)
  {
    var text := ItemsText(items);
    assert text[0..|text|] == text;
    LoadFromItems(text, START, items, loadTruncated, known);
    var st' :| LoadedTo(text, START, st', items, loadTruncated, known);
    assert text != "" by { ItemNonEmpty(items[0]); }
    ReadAtEnd(text);
    hide ReadCommand, ExecuteAll;
  }

  lemma ItemNonEmpty(x: Item)
    ensures ItemText(x) != ""
  {
  }

  /**
   A log followed by text that cannot begin an item, or by a command that is not known: loading
   fails, what came before has been run, and the file is left as it is.
   */
  lemma ForeignTextFails(items: seq<Item>, more: string, loadTruncated: bool, known: Command -> bool)
    requires GoodItems(items, known) && more != ""
    requires (more[0] != '*' && more[0] != '#')
          || exists cmd, rest :: cmd != [] && SizedArgs(cmd) && !known(cmd) && more == Encode(cmd) + rest
    ensures var text := ItemsText(items) + more;
      LoadFile(text, loadTruncated, known) == Outcome(AofFailed, ExecuteAll(FRESH, Commands(items)).run, |text|)
  {
    assert START.pos == 0;
    hide *;
    var text, n := ItemsText(items) + more, |ItemsText(items)|;
    Behind(ItemsText(items), more);
    if more[0] != '*' && more[0] != '#' {
      NotAnItem(text, n);
    } else {
      var cmd, rest :| cmd != [] && SizedArgs(cmd) && !known(cmd) && more == Encode(cmd) + rest;
      AtSplit(text, n, Encode(cmd), rest);
      ReadCommandWhole(text, n, cmd);
    }
    LoadFromItems(text, START, items, loadTruncated, known);
    var st' :| LoadedTo(text, START, st', items, loadTruncated, known);
    FailsThere(text, st', n, items, loadTruncated, known);
  }

  lemma Behind(a: string, b: string)
    ensures At(a + b, 0, a) && At(a + b, |a|, b) && (b != "" ==> (a + b)[|a|] == b[0])
  {
  }

  lemma NotAnItem(text: string, pos: nat)
    requires pos < |text| && text[pos] != '*' && text[pos] != '#'
    ensures ReadCommand(text, pos) == Bad
  {
  }

  lemma FailsThere(text: string, st: Loader, n: nat, items: seq<Item>, loadTruncated: bool, known: Command -> bool)
    requires LoadedTo(text, START, st, items, loadTruncated, known) && n == |ItemsText(items)| < |text|
    requires var r := ReadCommand(text, n); r.Bad? || (r.Got? && !known(r.value))
    ensures LoadFile(text, loadTruncated, known) == Outcome(AofFailed, ExecuteAll(FRESH, Commands(items)).run, |text|)
  {
    hide ReadCommand, ExecuteAll, ItemsText, Commands;
  }

  /** The text of a transaction, as it stands in a file, and what loading it runs. */
  lemma TransactionText()
    ensures EncodeAll([["MULTI"], ["SET", "k", "v"], ["EXEC"]])
         == "*1\r\n$5\r\nMULTI\r\n*3\r\n$3\r\nSET\r\n$1\r\nk\r\n$1\r\nv\r\n*1\r\n$4\r\nEXEC\r\n"
  {
    hide *;
    WordTexts();
    SetText();
    ThreeCommands(["MULTI"], ["SET", "k", "v"], ["EXEC"]);
  }

  lemma ThreeCommands(a: Command, b: Command, c: Command)
    ensures EncodeAll([a, b, c]) == Encode(a) + (Encode(b) + Encode(c))
  {
    hide Encode;
    assert [a, b, c][1..] == [b, c] && [b, c][1..] == [c] && [c][1..] == [];
    assert EncodeAll([c]) == Encode(c) + "";
    assert EncodeAll([b, c]) == Encode(b) + EncodeAll([c]);
  }

  lemma WordTexts()
    ensures Encode(["MULTI"]) == "*1\r\n$5\r\nMULTI\r\n" && Encode(["EXEC"]) == "*1\r\n$4\r\nEXEC\r\n"
  {
    hide Encode;
    WordText("MULTI", "5");
    WordText("EXEC", "4");
  }

  lemma WordText(word: string, digits: string)
    requires |digits| == 1 && IsDigit(digits[0]) && digits[0] as int - '0' as int == |word|
    ensures Encode([word]) == "*1\r\n$" + digits + "\r\n" + word + "\r\n"
  {
    assert [word][1..] == [];
    assert Decimal(1) == "1" && Decimal(|word|) == digits;
    assert Bulks([word]) == Bulk(word) + "";
  }

  lemma ThreeBulks(x: string, y: string, z: string)
    ensures Encode([x, y, z]) == Header('*', 3) + (Bulk(x) + (Bulk(y) + Bulk(z)))
  {
    hide Bulk, Header;
    assert [x, y, z][1..] == [y, z] && [y, z][1..] == [z] && [z][1..] == [];
    assert Bulks([z]) == Bulk(z) + "";
    assert Bulks([y, z]) == Bulk(y) + Bulks([z]);
  }

  lemma SmallTexts()
    ensures Header('*', 3) == "*3\r\n" && Bulk("SET") == "$3\r\nSET\r\n"
    ensures Bulk("k") == "$1\r\nk\r\n" && Bulk("v") == "$1\r\nv\r\n"
  {
    assert Decimal(3) == "3" && Decimal(1) == "1";
  }

  lemma SetText()
    ensures Encode(["SET", "k", "v"]) == "*3\r\n$3\r\nSET\r\n$1\r\nk\r\n$1\r\nv\r\n"
  {
    hide *;
    SmallTexts();
    ThreeBulks("SET", "k", "v");
  }

  /** The transaction runs with its EXEC, in any mixture of cases, and not without. */
  lemma TransactionRuns(multi: string, exec: string, cmds: seq<Command>)
    requires Lower(multi) == "multi" && Lower(exec) == "exec" && NoExec(cmds)
    ensures ExecuteAll(FRESH, [[multi]] + cmds).run == []
    ensures ExecuteAll(FRESH, [[multi]] + cmds + [[exec]]) == Client(false, [], cmds)
  {
    var x := Execute(FRESH, [multi]);
    assert ([[multi]] + cmds)[1..] == cmds;
    PileUp(x, cmds);
    ExecuteSnoc(FRESH, [[multi]] + cmds, [exec]);
    assert [] + cmds == cmds;
  }

  // ----- the loops of the loader -----

  ghost function WithArgs(argv: seq<string>, r: Read<seq<string>>): Read<seq<string>> {
    if r.Got? then Got(argv + r.value, r.next) else r
  }

  /** The inner loop: the arguments of one command. */
  method ReadArgsLoop(text: string, start: nat, argc: nat) returns (r: Read<seq<string>>)
    requires start <= |text|
    ensures r == ReadArgs(text, start, argc)
  {
    hide ReadArg;
    var argv: seq<string>, pos := [], start;
    var j := 0;
    assert ReadArgs(text, start, argc).Got? ==> [] + ReadArgs(text, start, argc).value == ReadArgs(text, start, argc).value;
    while j < argc
      invariant 0 <= j <= argc && 0 <= pos <= |text|
      invariant ReadArgs(text, start, argc) == WithArgs(argv, ReadArgs(text, pos, argc - j))
    {
      ReadArgsNext(text, pos, argc - j, argv);
      var one := ReadArg(text, pos);
      if one.Bad? {
        return Bad;
      }
      if !one.Got? {
        return Short;
      }
      argv, pos := argv + [one.value], one.next;
      j := j + 1;
    }
    assert argv + [] == argv;
    r := Got(argv, pos);
  }

  lemma ReadArgsNext(text: string, pos: nat, n: nat, argv: seq<string>)
    requires pos <= |text| && n > 0
    ensures match ReadArg(text, pos)
      case Got(arg, next) =>
        pos <= next <= |text|
        && WithArgs(argv, ReadArgs(text, pos, n)) == WithArgs(argv + [arg], ReadArgs(text, next, n - 1))
      case Bad => ReadArgs(text, pos, n) == Bad
      case _ => ReadArgs(text, pos, n) == Short
  {
    match ReadArg(text, pos)
    case Got(arg, next) =>
      var rest := ReadArgs(text, next, n - 1);
      ReadArgsKinds(text, next, n - 1);
      if rest.Got? {
        assert argv + ([arg] + rest.value) == argv + [arg] + rest.value;
      }
    case Bad =>
    case _ =>
  }

  lemma ReadArgsKinds(text: string, pos: nat, n: nat)
    requires pos <= |text|
    ensures var r := ReadArgs(text, pos, n); r.Got? || r.Bad? || r.Short?
  {
  }

  /** `loadSingleAppendOnlyFile`, for a log in command format. */
  method Load(text: string, loadTruncated: bool, known: Command -> bool) returns (outcome: Outcome)
    ensures outcome == LoadFile(text, loadTruncated, known)
  {
    if text == "" {
      return Outcome(AofEmpty, [], 0);
    }
    var pos, validUpTo, validBeforeMulti, client := 0, 0, 0, FRESH;
    while true
      invariant 0 <= pos <= |text|
      invariant LoadFrom(text, Loader(pos, validUpTo, validBeforeMulti, client), loadTruncated, known)
             == LoadFile(text, loadTruncated, known)
      decreases |text| - pos
    {
      ghost var st := Loader(pos, validUpTo, validBeforeMulti, client);
      ReadCommandAdvances(text, pos);
      if pos == |text| {
        break;
      }
      var q := LineEnd(text, pos, LINE_MAX - 1);
      if text[pos] == '#' {
        pos := q;
        continue;
      }
      if text[pos] != '*' {
        return Outcome(AofFailed, client.run, |text|);
      }
      if q == pos + 1 {
        return Unexpected(text, Loader(pos, validUpTo, validBeforeMulti, client), validUpTo, loadTruncated);
      }
      if text[pos + 1] == '\0' {
        if HitsEnd(text, pos, q) {
          return Unexpected(text, Loader(pos, validUpTo, validBeforeMulti, client), validUpTo, loadTruncated);
        }
        return Outcome(AofFailed, client.run, |text|);
      }
      var argc := ParseInt(text[pos + 1..q]);
      if argc < 1 {
        return Outcome(AofFailed, client.run, |text|);
      }
      var args := ReadArgsLoop(text, q, argc);
      ReadArgsKinds(text, q, argc);
      if args.Bad? {
        return Outcome(AofFailed, client.run, |text|);
      }
      if !args.Got? {
        return Unexpected(text, Loader(pos, validUpTo, validBeforeMulti, client), validUpTo, loadTruncated);
      }
      var cmd := args.value;
      if !known(cmd) {
        return Outcome(AofFailed, client.run, |text|);
      }
      if IsMulti(cmd) {
        validBeforeMulti := validUpTo;
      }
      client := Execute(client, cmd);
      if loadTruncated {
        validUpTo := args.next;
      }
      pos := args.next;
      assert Loader(pos, validUpTo, validBeforeMulti, client) == Track(st, cmd, pos, loadTruncated);
    }
    if client.multi {
      return Unexpected(text, Loader(pos, validUpTo, validBeforeMulti, client), validBeforeMulti, loadTruncated);
    }
    outcome := Outcome(AofOk, client.run, |text|);
  }
}
