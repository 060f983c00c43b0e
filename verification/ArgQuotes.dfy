/**
 Quoted arguments (sds.c): `sdscatrepr` writes any bytes as a quoted string, and `sdssplitargs`
 reads it back. Lines of quoted arguments are split into exactly the arguments they were made of.
 */
module ArgQuotes {
  import opened Common
  import opened AclText

  predicate Bytes(p: string) {
    forall i :: 0 <= i < |p| ==> p[i] as int < 256
  }

  function Hex(v: nat): (c: char)
    requires v < 16
    ensures IsHex(c) && HexValue(c) == v
  {
    if v < 10 then ('0' as int + v) as char else ('a' as int + v - 10) as char
  }

  predicate Printable(c: char) { 0x20 <= c as int < 0x7f }

  /** How one byte is written. */
  function Escape(c: char): string
    requires c as int < 256
  {
    if c == '\\' || c == '\"' then ['\\', c]
    else if c == '\n' then "\\n"
    else if c == '\r' then "\\r"
    else if c == '\t' then "\\t"
    else if c == 7 as char then "\\a"
    else if c == 8 as char then "\\b"
    else if Printable(c) then [c]
    else ['\\', 'x', Hex(c as int / 16), Hex(c as int % 16)]
  }

  function Escaped(p: string): string
    requires Bytes(p)
  {
    if p == "" then "" else Escape(p[0]) + Escaped(p[1..])
  }

  function Repr(p: string): string
    requires Bytes(p)
  {
    "\"" + (Escaped(p) + "\"")
  }

  lemma {:induction false} EscapedSnoc(p: string, c: char)
    requires Bytes(p) && c as int < 256
    ensures Bytes(p + [c]) && Escaped(p + [c]) == Escaped(p) + Escape(c)
    decreases |p|
  {
    hide Escape;
    if p == "" {
      assert p + [c] == [c] && [c][1..] == "";
      assert Escape(c) + "" == Escape(c) == "" + Escape(c);
    } else {
      assert (p + [c])[1..] == p[1..] + [c] && (p + [c])[0] == p[0];
      EscapedSnoc(p[1..], c);
      assert Escape(p[0]) + (Escaped(p[1..]) + Escape(c)) == (Escape(p[0]) + Escaped(p[1..])) + Escape(c);
    }
  }

  /** `sdscatrepr`. */
  method CatRepr(s0: string, p: string) returns (s: string)
    requires Bytes(p)
    ensures s == s0 + Repr(p)
  {
    hide Escape;
    s := s0 + "\"";
    for i := 0 to |p|
      invariant s == s0 + ("\"" + Escaped(p[..i]))
    {
      EscapedSnoc(p[..i], p[i]);
      assert p[..i + 1] == p[..i] + [p[i]];
      s := s + Escape(p[i]);
      assert s == s0 + ("\"" + (Escaped(p[..i]) + Escape(p[i])));
    }
    assert p[..|p|] == p;
    s := s + "\"";
  }

  // ----- reading back -----

  /** One escaped byte inside quotes is read as that byte. */
  lemma ScanEscape(s: string, i: nat, c: char, current: string)
    requires c as int < 256 && Stands(s, i, Escape(c)) && i + |Escape(c)| < |s|
    ensures ScanToken(s, i, DoubleQuoted, current) == ScanToken(s, i + |Escape(c)|, DoubleQuoted, current + [c])
  {
    var e := Escape(c);
    var here := s[i..i + |e|];
    assert s[i] == here[0] == e[0];
    if |e| == 4 {
      assert s[i + 1] == here[1] && s[i + 2] == here[2] && s[i + 3] == here[3];
      assert ((c as int / 16) * 16 + c as int % 16) as char == c;
    } else if |e| == 2 {
      assert s[i + 1] == here[1] && Unescape(e[1]) == c;
    }
  }

  lemma EscapedCons(p: string)
    requires Bytes(p) && p != ""
    ensures Bytes(p[1..]) && Escaped(p) + "\"" == Escape(p[0]) + (Escaped(p[1..]) + "\"")
    ensures |Escaped(p)| == |Escape(p[0])| + |Escaped(p[1..])|
  {
    hide Escape;
  }

  lemma ScanClose(s: string, i: nat, current: string)
    requires Stands(s, i, "\"") && (i + 1 == |s| || IsSpace(s[i + 1]))
    ensures ScanToken(s, i, DoubleQuoted, current) == Some((current, i + 1))
  {
    assert s[i] == s[i..i + 1][0];
  }

  lemma {:induction false} ScanEscaped(s: string, i: nat, p: string, current: string, end: nat)
    requires Bytes(p) && Stands(s, i, Escaped(p) + "\"") && end == i + |Escaped(p)| + 1 <= |s|
    requires end == |s| || IsSpace(s[end])
    ensures i < |s| && ScanToken(s, i, DoubleQuoted, current) == Some((current + p, end))
    decreases |p|
  {
    hide *;
    MoveOver(current, p);
    if p == "" {
      EscapedNothing();
      ScanClose(s, i, current);
    } else {
      EscapedCons(p);
      FirstByte(p);
      var n := |Escape(p[0])|;
      StandsInTwo(s, i, Escape(p[0]), Escaped(p[1..]) + "\"");
      ScanEscape(s, i, p[0], current);
      ScanEscaped(s, i + n, p[1..], current + [p[0]], end);
    }
  }

  lemma MoveOver(current: string, p: string)
    ensures p == "" ==> current + p == current
    ensures p != "" ==> current + [p[0]] + p[1..] == current + p
  {
  }

  lemma EscapedNothing()
    ensures Bytes("") && Escaped("") == "" && "" + "\"" == "\""
  {
  }

  lemma FirstByte(p: string)
    requires Bytes(p) && p != ""
    ensures p[0] as int < 256
  {
  }

  lemma ScanOpen(s: string, i: nat)
    requires Stands(s, i, "\"") && i < |s|
    ensures ScanToken(s, i, Bare, "") == ScanToken(s, i + 1, DoubleQuoted, "") && !IsSpace(s[i])
  {
    assert s[i] == s[i..i + 1][0];
  }

  lemma ScanRepr(s: string, i: nat, p: string)
    requires Bytes(p) && Stands(s, i, Repr(p)) && i + |Repr(p)| <= |s|
    requires var j := i + |Repr(p)|; j == |s| || IsSpace(s[j])
    ensures i < |s| && ScanToken(s, i, Bare, "") == Some((p, i + |Repr(p)|)) && !IsSpace(s[i])
  {
    hide ScanToken, Escaped, Stands, IsSpace;
    StandsInTwo(s, i, "\"", Escaped(p) + "\"");
    ScanOpen(s, i);
    ScanEscaped(s, i + 1, p, "", i + |Repr(p)|);
    assert "" + p == p;
  }

  /** Arguments written one after another with single spaces. */
  function Quoted(argv: seq<string>): string
    requires forall k :: 0 <= k < |argv| ==> Bytes(argv[k])
  {
    if argv == [] then "" else if |argv| == 1 then Repr(argv[0]) else Repr(argv[0]) + (" " + Quoted(argv[1..]))
  }

  lemma SplitNext(s: string, i: nat, p: string, next: nat)
    requires i < next <= |s| && ScanToken(s, i, Bare, "") == Some((p, next)) && !IsSpace(s[i])
    ensures SplitFrom(s, next).Some? ==> SplitFrom(s, i) == Some([p] + SplitFrom(s, next).value)
  {
    hide ScanToken;
  }

  lemma SplitSpace(s: string, i: nat)
    requires i < |s| && s[i] == ' '
    ensures SplitFrom(s, i) == SplitFrom(s, i + 1)
  {
    hide ScanToken;
    assert SkipSpaces(s, i) == SkipSpaces(s, i + 1);
  }

  lemma QuotedCons(argv: seq<string>)
    requires forall k :: 0 <= k < |argv| ==> Bytes(argv[k])
    requires argv != []
    ensures Quoted(argv) == Repr(argv[0]) + if |argv| == 1 then "" else " " + Quoted(argv[1..])
    ensures |Repr(argv[0])| > 0
  {
  }

  /** A quoted argument that ends the line, or is followed by a space. */
  lemma SplitHead(s: string, i: nat, p: string, rest: string)
    requires Bytes(p) && Stands(s, i, Repr(p) + rest) && i + |Repr(p)| + |rest| == |s|
    requires rest != "" ==> rest[0] == ' '
    ensures |Repr(p)| > 0
    ensures var next := i + |Repr(p)|;
      SplitFrom(s, next).Some? ==> SplitFrom(s, i) == Some([p] + SplitFrom(s, next).value)
    ensures rest != "" ==> s[i + |Repr(p)|] == ' '
  {
    var next := i + |Repr(p)|;
    StandsInTwo(s, i, Repr(p), rest);
    if rest != "" {
      assert s[next] == s[next..next + |rest|][0];
    }
    hide SplitFrom, ScanToken, Escaped;
    ScanRepr(s, i, p);
    SplitNext(s, i, p, next);
  }

  lemma {:induction false} SplitQuoted(s: string, i: nat, argv: seq<string>)
    requires forall k :: 0 <= k < |argv| ==> Bytes(argv[k])
    requires i + |Quoted(argv)| == |s| && Stands(s, i, Quoted(argv))
    ensures SplitFrom(s, i) == Some(argv)
    decreases |argv|
  {
    hide *;
    SplitAtEnd(s);
    if argv == [] {
      QuotedNothing();
    } else {
      QuotedCons(argv);
      var rest := if |argv| == 1 then "" else " " + Quoted(argv[1..]);
      SplitHead(s, i, argv[0], rest);
      ConsOf(argv);
      if |argv| > 1 {
        var next := i + |Repr(argv[0])|;
        StandsInTwo(s, i, Repr(argv[0]), rest);
        StandsInTwo(s, next, " ", Quoted(argv[1..]));
        SplitQuoted(s, next + 1, argv[1..]);
        SplitSpace(s, next);
      }
    }
  }

  lemma QuotedNothing()
    ensures Quoted([]) == ""
  {
  }

  lemma ConsOf(argv: seq<string>)
    requires argv != []
    ensures [argv[0]] + argv[1..] == argv && (|argv| == 1 ==> [argv[0]] + [] == argv)
  {
  }

  /** For every list of byte strings: quoted and split again they are the same. */
  lemma QuotedSplitsBack(argv: seq<string>)
    requires forall k :: 0 <= k < |argv| ==> Bytes(argv[k])
    ensures SplitArgs(Quoted(argv)) == Some(argv)
  {
    var s := Quoted(argv);
    assert s[0..|s|] == s;
    SplitQuoted(s, 0, argv);
  }
}
