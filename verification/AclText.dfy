/**
 The textual command rules of an ACL selector (acl.c): rules such as "+get" or "-@admin" kept
 in one string, separated by single spaces. Rules are deleted from the string in place.
 */
module AclText {
  import opened Common

  /** One retained rule: its sign and what follows the sign. */
  datatype Rule = Rule(allow: bool, body: string)

  function Token(r: Rule): (s: string)
    ensures |s| == |r.body| + 1 && s[1..] == r.body
  {
    [if r.allow then '+' else '-'] + r.body
  }

  /** The rule string: tokens joined by single spaces. */
  function Render(rules: seq<Rule>): string {
    if rules == [] then ""
    else if |rules| == 1 then Token(rules[0])
    else Token(rules[0]) + " " + Render(rules[1..])
  }

  ghost predicate SpaceFree(rules: seq<Rule>) {
    forall i :: 0 <= i < |rules| ==> ' ' !in rules[i].body
  }

  /** Adding `newRule` makes a retained rule with this body redundant. */
  predicate Supersedes(newRule: string, body: string) {
    body == newRule || (|body| > |newRule| && body[..|newRule|] == newRule && body[|newRule|] == '|')
  }

  /** The rules that survive the addition of `newRule`, in order. */
  function Retained(rules: seq<Rule>, newRule: string): (kept: seq<Rule>)
    ensures forall r :: r in kept <==> r in rules && !Supersedes(newRule, r.body)
  {
    if rules == [] then []
    else
      var kept := Retained(rules[1..], newRule);
      if Supersedes(newRule, rules[0].body) then kept else [rules[0]] + kept
  }

  lemma {:induction false} RenderAppend(kept: seq<Rule>, rest: seq<Rule>)
    requires rest != []
    ensures Render(kept + rest) == (if kept == [] then "" else Render(kept) + " ") + Render(rest)
  {
    if kept == [] {
      assert kept + rest == rest;
    } else {
      assert (kept + rest)[1..] == kept[1..] + rest;
      RenderAppend(kept[1..], rest);
      if |kept| == 1 {
        assert kept[1..] == [];
      }
    }
  }

  lemma {:induction false} RetainedAppend(a: seq<Rule>, b: seq<Rule>, newRule: string)
    ensures Retained(a + b, newRule) == Retained(a, newRule) + Retained(b, newRule)
  {
    if a == [] {
      assert a + b == b;
    } else {
      assert (a + b)[1..] == a[1..] + b;
      RetainedAppend(a[1..], b, newRule);
    }
  }

  lemma RenderOne(r: Rule)
    ensures Render([r]) == Token(r)
  {
  }

  // ----- any text in pieces -----

  /**
   The walk over the rule string takes one character, whatever it is, and then all up to the
   next space.
   */
  datatype Piece = Piece(sign: char, body: string)

  function PieceText(p: Piece): (s: string)
    ensures |s| == |p.body| + 1 && s[1..] == p.body
  {
    [p.sign] + p.body
  }

  function Join(pieces: seq<Piece>): string {
    if pieces == [] then ""
    else if |pieces| == 1 then PieceText(pieces[0])
    else PieceText(pieces[0]) + " " + Join(pieces[1..])
  }

  /** The first space from `i` on, or the end of the text. */
  function SpaceAt(text: string, i: nat): (e: nat)
    requires i <= |text|
    ensures i <= e <= |text|
    decreases |text| - i
  {
    if i == |text| || text[i] == ' ' then i else SpaceAt(text, i + 1)
  }

  lemma {:induction false} SpaceAtStops(text: string, i: nat)
    requires i <= |text|
    ensures var e := SpaceAt(text, i); ' ' !in text[i..e] && (e < |text| ==> text[e] == ' ')
    decreases |text| - i
  {
    if i < |text| && text[i] != ' ' {
      SpaceAtStops(text, i + 1);
      var e := SpaceAt(text, i);
      assert text[i..e] == [text[i]] + text[i + 1..e];
    }
  }

  function Chop(text: string): seq<Piece>
    decreases |text|
  {
    if text == "" then []
    else
      var e := SpaceAt(text, 1);
      [Piece(text[0], text[1..e])] + if e < |text| then Chop(text[e + 1..]) else []
  }

  /** A space at the end that follows the last piece. */
  function Tail(text: string): string
    decreases |text|
  {
    if text == "" then ""
    else
      var e := SpaceAt(text, 1);
      if e == |text| then "" else if e + 1 == |text| then " " else Tail(text[e + 1..])
  }

  ghost predicate SpaceFreePieces(pieces: seq<Piece>) {
    forall i :: 0 <= i < |pieces| ==> ' ' !in pieces[i].body
  }

  lemma JoinCons(p: Piece, rest: seq<Piece>)
    ensures Join([p] + rest) == PieceText(p) + if rest == [] then "" else " " + Join(rest)
  {
    assert ([p] + rest)[1..] == rest;
  }

  lemma ChopText(text: string, e: nat)
    requires 1 <= e <= |text|
    ensures text == PieceText(Piece(text[0], text[1..e])) + text[e..]
    ensures e < |text| && text[e] == ' ' ==> text[e..] == " " + text[e + 1..]
  {
    assert text[..e] == [text[0]] + text[1..e];
    assert text == text[..e] + text[e..];
  }

  lemma ChopLast(text: string)
    requires text != "" && SpaceAt(text, 1) == |text|
    ensures Chop(text) == [Piece(text[0], text[1..])] && Tail(text) == ""
  {
    hide SpaceAt;
    assert text[1..|text|] == text[1..];
  }

  lemma ChopMore(text: string, e: nat)
    requires text != "" && SpaceAt(text, 1) == e < |text|
    ensures Chop(text) == [Piece(text[0], text[1..e])] + Chop(text[e + 1..])
  {
    hide SpaceAt;
  }

  lemma TailMore(text: string, e: nat)
    requires text != "" && SpaceAt(text, 1) == e < |text|
    ensures Tail(text) == if text[e + 1..] == "" then " " else Tail(text[e + 1..])
  {
    hide SpaceAt;
  }

  /** What follows a piece is a space and the rest. */
  lemma AfterSpace(text: string, stop: nat, more: string)
    requires stop <= |text| && text[stop..] == " " + more
    ensures stop < |text| && text == (text[..stop] + " ") + more && text[stop + 1..] == more
  {
    assert text == text[..stop] + text[stop..];
    assert text[stop + 1..] == text[stop..][1..];
  }

  /** No text is lost. */
  lemma {:induction false} ChopJoins(text: string)
    ensures text == Join(Chop(text)) + Tail(text)
    ensures Tail(text) == "" || Tail(text) == " "
    ensures Chop(text) == [] <==> text == ""
    ensures SpaceFreePieces(Chop(text))
    decreases |text|
  {
    hide *;
    if text == "" {
      ChopNothing();
    } else {
      var e := SpaceAt(text, 1);
      var p := Piece(text[0], text[1..e]);
      SpaceAtStops(text, 1);
      ChopText(text, e);
      if e < |text| {
        var rest := text[e + 1..];
        ChopMore(text, e);
        TailMore(text, e);
        ChopJoins(rest);
        JoinCons(p, Chop(rest));
        SpaceFreeCons(p, Chop(rest));
        ChopAgain(text, PieceText(p), Join(Chop(rest)), Tail(rest), rest);
      } else {
        ChopLast(text);
        JoinCons(p, []);
        SpaceFreeCons(p, []);
        ChopAll(text, p, e);
      }
    }
  }

  lemma ChopNothing()
    ensures Chop("") == [] && Tail("") == "" && Join([]) == "" && "" + "" == "" && SpaceFreePieces([])
  {
  }

  lemma SpaceFreeCons(p: Piece, rest: seq<Piece>)
    requires ' ' !in p.body && SpaceFreePieces(rest)
    ensures SpaceFreePieces([p] + rest) && [p] + rest != []
  {
  }

  lemma ChopAll(text: string, p: Piece, e: nat)
    requires e == |text| && text == PieceText(p) + text[e..]
    ensures [p] + [] == [p] && text == PieceText(p) + "" + "" && text[1..e] == text[1..]
  {
  }

  lemma ChopAgain(text: string, t: string, joined: string, tail: string, rest: string)
    requires text == t + (" " + rest) && rest == joined + tail
    ensures text == t + (" " + joined) + tail
    ensures rest == "" ==> text == t + "" + " "
  {
  }

  /** The pieces that survive the addition of `newRule`, in order. */
  function Kept(pieces: seq<Piece>, newRule: string): seq<Piece> {
    if pieces == [] then []
    else
      var front, last := pieces[..|pieces| - 1], pieces[|pieces| - 1];
      Kept(front, newRule) + if Supersedes(newRule, last.body) then [] else [last]
  }

  /** The text that is left of any text. */
  function Edited(text: string, newRule: string): string {
    var kept := Kept(Chop(text), newRule);
    Join(kept) + if kept == [] then "" else Tail(text)
  }

  // ----- a rule string in pieces -----

  function AsPiece(r: Rule): Piece { Piece(if r.allow then '+' else '-', r.body) }

  function Pieces(rules: seq<Rule>): (ps: seq<Piece>)
    ensures |ps| == |rules| && forall i :: 0 <= i < |rules| ==> ps[i] == AsPiece(rules[i])
  {
    seq(|rules|, i requires 0 <= i < |rules| => AsPiece(rules[i]))
  }

  lemma {:induction false} RenderIsJoin(rules: seq<Rule>)
    ensures Render(rules) == Join(Pieces(rules))
  {
    if rules != [] {
      assert Pieces(rules)[1..] == Pieces(rules[1..]);
      RenderIsJoin(rules[1..]);
    }
  }

  lemma {:induction false} KeptPieces(rules: seq<Rule>, newRule: string)
    ensures Kept(Pieces(rules), newRule) == Pieces(Retained(rules, newRule))
    decreases |rules|
  {
    hide Supersedes;
    if rules != [] {
      var front, last := rules[..|rules| - 1], rules[|rules| - 1];
      KeptPieces(front, newRule);
      assert rules == front + [last];
      hide Retained, Kept, Pieces;
      PiecesSnoc(front, last);
      KeptSnoc(Pieces(front), AsPiece(last), newRule);
      RetainedAppend(front, [last], newRule);
      RetainedOne(last, newRule);
      PiecesSnoc(Retained(front, newRule), last);
      assert Retained(front, newRule) + [] == Retained(front, newRule);
      assert Kept(Pieces(front), newRule) + [] == Kept(Pieces(front), newRule);
    }
  }

  lemma PiecesSnoc(rules: seq<Rule>, r: Rule)
    ensures Pieces(rules + [r]) == Pieces(rules) + [AsPiece(r)]
  {
  }

  lemma KeptSnoc(pieces: seq<Piece>, p: Piece, newRule: string)
    ensures Kept(pieces + [p], newRule) == Kept(pieces, newRule) + if Supersedes(newRule, p.body) then [] else [p]
  {
    hide Supersedes;
    assert (pieces + [p])[..|pieces|] == pieces;
  }

  lemma RetainedOne(r: Rule, newRule: string)
    ensures Retained([r], newRule) == if Supersedes(newRule, r.body) then [] else [r]
  {
    assert [r][1..] == [];
  }

  lemma SpaceAtIs(text: string, i: nat, e: nat)
    requires i <= e <= |text| && ' ' !in text[i..e] && (e < |text| ==> text[e] == ' ')
    ensures SpaceAt(text, i) == e
  {
    var f := SpaceAt(text, i);
    SpaceAtStops(text, i);
    assert forall k :: i <= k < e ==> text[k] == text[i..e][k - i];
    assert forall k :: i <= k < f ==> text[k] == text[i..f][k - i];
  }

  /** Rules without spaces are the pieces of their rendering. */
  lemma {:induction false} ChopRendered(rules: seq<Rule>)
    requires SpaceFree(rules)
    ensures Chop(Render(rules)) == Pieces(rules) && Tail(Render(rules)) == ""
    decreases |rules|
  {
    if rules != [] {
      var text, t := Render(rules), Token(rules[0]);
      assert text[..|t|] == t && text[0] == t[0] && text[1..|t|] == t[1..];
      SpaceAtIs(text, 1, |t|);
      assert Pieces(rules) == [AsPiece(rules[0])] + Pieces(rules[1..]);
      if |rules| > 1 {
        ChopRendered(rules[1..]);
        assert text[|t| + 1..] == Render(rules[1..]);
        assert Render(rules[1..]) != "";
      }
    }
  }

  /** On such a rule string the edit is the removal of the rules superseded. */
  lemma EditedRendered(rules: seq<Rule>, newRule: string)
    requires SpaceFree(rules)
    ensures Edited(Render(rules), newRule) == Render(Retained(rules, newRule))
  {
    ChopRendered(rules);
    KeptPieces(rules, newRule);
    RenderIsJoin(Retained(rules, newRule));
  }

  // ----- deletion in place -----

  /** What stands before the next piece once `kept` has been passed over. */
  ghost function Passed(kept: seq<Piece>): string {
    if kept == [] then "" else Join(kept) + " "
  }

  lemma {:induction false} JoinAppend(kept: seq<Piece>, rest: seq<Piece>)
    requires rest != []
    ensures Join(kept + rest) == Passed(kept) + Join(rest)
  {
    hide *;
    if kept == [] {
      JoinNothing(rest);
    } else {
      var p, more := kept[0], kept[1..];
      JoinAppend(more, rest);
      JoinCons(p, more + rest);
      JoinCons(p, more);
      PassedIs(kept);
      PassedIs(more);
      Regrouped(kept, rest, PieceText(p), Join(more), Join(rest));
    }
  }

  lemma JoinNothing(rest: seq<Piece>)
    ensures Join([] + rest) == Passed([]) + Join(rest)
  {
    assert [] + rest == rest;
  }

  lemma PassedIs(kept: seq<Piece>)
    ensures Passed(kept) == if kept == [] then "" else Join(kept) + " "
  {
  }

  lemma Regrouped(kept: seq<Piece>, rest: seq<Piece>, t: string, more: string, last: string)
    requires kept != []
    ensures kept + rest == [kept[0]] + (kept[1..] + rest) && kept == [kept[0]] + kept[1..]
    ensures (t + (" " + more) + " ") + last == t + (" " + ((more + " ") + last))
    ensures (t + "" + " ") + last == t + (" " + ("" + last))
  {
  }

  /** `strchr(text + from, ' ')`, or the end of the text. */
  method FindSpace(text: string, from: nat) returns (i: nat)
    requires from <= |text|
    ensures i == SpaceAt(text, from) && ' ' !in text[from..i] && (i < |text| ==> text[i] == ' ')
  {
    SpaceAtStops(text, from);
    i := from;
    while i < |text| && text[i] != ' '
      invariant from <= i <= |text| && SpaceAt(text, from) == SpaceAt(text, i)
    {
      i := i + 1;
    }
  }

  /** A space-free body ends at the first space after it starts. */
  lemma BodyEnds(text: string, start: nat, body: string, end: nat)
    requires start + |body| <= |text| && text[start..start + |body|] == body && ' ' !in body
    requires start + |body| < |text| ==> text[start + |body|] == ' '
    requires start <= end <= |text| && ' ' !in text[start..end]
    requires end < |text| ==> text[end] == ' '
    ensures end == start + |body|
  {
    assert forall i :: start <= i < start + |body| ==> text[i] == text[start..start + |body|][i - start];
    assert forall i :: start <= i < end ==> text[i] == text[start..end][i - start];
  }

  /**
   Where the walk stands after `done` pieces: at the next piece, behind those kept; or at the end
   of the text, which then holds those kept.
   */
  ghost predicate At(text: string, existing: nat, pieces: seq<Piece>, tail: string, done: nat, newRule: string)
    requires done <= |pieces|
  {
    var kept := Kept(pieces[..done], newRule);
    if done == |pieces| then text == Join(kept) + (if kept == [] then "" else tail) && existing == |text|
    else text == Passed(kept) + (Join(pieces[done..]) + tail) && existing == |Passed(kept)|
  }

  lemma Around(text: string, prefix: string, t: string, rest: string)
    requires text == prefix + (t + rest)
    ensures |prefix| + |t| <= |text| && text[..|prefix|] == prefix && text[|prefix| + |t|..] == rest
    ensures text[|prefix|..|prefix| + |t|] == t
    ensures t != "" ==> text[|prefix| + 1..|prefix| + |t|] == t[1..]
  {
    if t != "" {
      assert text[|prefix| + 1..|prefix| + |t|] == text[|prefix|..|prefix| + |t|][1..];
    }
  }

  /** The shape of the text around the next piece. */
  lemma NextPiece(text: string, existing: nat, pieces: seq<Piece>, tail: string, done: nat, newRule: string)
    requires done < |pieces| && At(text, existing, pieces, tail, done, newRule)
    ensures var p := pieces[done];
      var stop := existing + 1 + |p.body|;
      && stop <= |text| && text[existing..stop] == PieceText(p) && text[existing + 1..stop] == p.body
      && text[..existing] == Passed(Kept(pieces[..done], newRule))
      && (if done + 1 == |pieces| then text[stop..] == tail
          else text[stop..] == " " + (Join(pieces[done + 1..]) + tail))
  {
    hide Kept, Join, Passed;
    var p, more := pieces[done], pieces[done + 1..];
    assert pieces[done..] == [p] + more;
    NextText(text, Passed(Kept(pieces[..done], newRule)), p, more, tail);
  }

  lemma NextText(text: string, prefix: string, p: Piece, more: seq<Piece>, tail: string)
    requires text == prefix + (Join([p] + more) + tail)
    ensures var stop := |prefix| + 1 + |p.body|;
      && stop <= |text| && text[|prefix|..stop] == PieceText(p) && text[|prefix| + 1..stop] == p.body
      && text[..|prefix|] == prefix
      && text[stop..] == if more == [] then tail else " " + (Join(more) + tail)
  {
    var t := PieceText(p);
    JoinCons(p, more);
    hide Join, PieceText;
    if more == [] {
      assert (t + "") + tail == t + tail;
      Around(text, prefix, t, tail);
    } else {
      var rest := " " + (Join(more) + tail);
      assert (t + (" " + Join(more))) + tail == t + rest;
      Around(text, prefix, t, rest);
    }
  }

  lemma KeptNext(pieces: seq<Piece>, done: nat, newRule: string)
    requires done < |pieces|
    ensures Kept(pieces[..done + 1], newRule)
         == Kept(pieces[..done], newRule) + if Supersedes(newRule, pieces[done].body) then [] else [pieces[done]]
  {
    assert pieces[..done + 1][..done] == pieces[..done];
  }

  /** A piece that goes is covered by what follows it, or by the end of the text. */
  lemma DropStep(text: string, existing: nat, pieces: seq<Piece>, tail: string, done: nat, newRule: string)
    requires done < |pieces| && At(text, existing, pieces, tail, done, newRule) && (tail == "" || tail == " ")
    requires Supersedes(newRule, pieces[done].body)
    ensures var stop := existing + 1 + |pieces[done].body|;
      && stop <= |text|
      && (stop < |text| ==> At(text[..existing] + text[stop + 1..], existing, pieces, tail, done + 1, newRule))
  {
    hide Supersedes, Kept, PieceText, Join, At;
    NextPiece(text, existing, pieces, tail, done, newRule);
    KeptNext(pieces, done, newRule);
    var kept, stop := Kept(pieces[..done], newRule), existing + 1 + |pieces[done].body|;
    assert kept + [] == kept;
    if stop < |text| {
      var more := if done + 1 < |pieces| then Join(pieces[done + 1..]) + tail else "";
      AfterSpace(text, stop, more);
      AtNext(text[..existing] + more, existing, pieces, tail, done + 1, newRule, kept);
    }
  }

  /** Behind the pieces kept, with a space if it is not the end or if the text ended in one. */
  lemma AtNext(text: string, existing: nat, pieces: seq<Piece>, tail: string, done: nat, newRule: string, kept: seq<Piece>)
    requires done <= |pieces| && kept == Kept(pieces[..done], newRule) && existing == |Passed(kept)|
    requires if done < |pieces| then text == Passed(kept) + (Join(pieces[done..]) + tail)
             else tail == " " && text == Passed(kept) + ""
    ensures At(text, existing, pieces, tail, done, newRule)
  {
    hide Kept;
    assert Passed(kept) + "" == Passed(kept);
    assert Join(kept) + "" == Join(kept);
  }

  lemma DropLastStep(text: string, existing: nat, pieces: seq<Piece>, newRule: string)
    requires pieces != [] && At(text, existing, pieces, "", |pieces| - 1, newRule)
    requires Supersedes(newRule, pieces[|pieces| - 1].body)
    ensures existing <= |text|
    ensures var at := if existing == 0 then 0 else existing - 1;
      At(text[..at], at, pieces, "", |pieces|, newRule)
  {
    var done := |pieces| - 1;
    NextPiece(text, existing, pieces, "", done, newRule);
    KeptNext(pieces, done, newRule);
    var kept := Kept(pieces[..done], newRule);
    assert kept + [] == kept;
    hide Supersedes, Kept;
    if kept != [] {
      assert text[..existing] == Join(kept) + " ";
      assert text[..existing - 1] == text[..existing][..existing - 1];
      assert Join(kept) + "" == Join(kept);
    }
  }

  /** A piece that stays is passed over with the space behind it. */
  lemma KeepStep(text: string, existing: nat, pieces: seq<Piece>, tail: string, done: nat, newRule: string)
    requires done < |pieces| && At(text, existing, pieces, tail, done, newRule) && (tail == "" || tail == " ")
    requires !Supersedes(newRule, pieces[done].body)
    ensures var stop := existing + 1 + |pieces[done].body|;
      && stop <= |text|
      && At(text, if stop < |text| then stop + 1 else stop, pieces, tail, done + 1, newRule)
  {
    hide Supersedes, Kept, Join, PieceText, At, Passed;
    NextPiece(text, existing, pieces, tail, done, newRule);
    KeptNext(pieces, done, newRule);
    var p := pieces[done];
    var kept, stop := Kept(pieces[..done], newRule) + [p], existing + 1 + |p.body|;
    KeepText(text, existing, Kept(pieces[..done], newRule), p);
    PassedNonEmpty(kept);
    if stop < |text| {
      var more := if done + 1 < |pieces| then Join(pieces[done + 1..]) + tail else "";
      AfterSpace(text, stop, more);
      AtNext(text, stop + 1, pieces, tail, done + 1, newRule, kept);
    } else {
      assert text[stop..] == "";
      assert text == text[..stop] + text[stop..];
      AtEnd(text, pieces, newRule, kept);
    }
  }

  lemma PassedNonEmpty(kept: seq<Piece>)
    requires kept != []
    ensures Passed(kept) == Join(kept) + " "
  {
  }

  lemma AtEnd(text: string, pieces: seq<Piece>, newRule: string, kept: seq<Piece>)
    requires kept == Kept(pieces[..|pieces|], newRule) && text == Join(kept) + ""
    ensures At(text, |text|, pieces, "", |pieces|, newRule)
  {
    hide Kept, Join;
  }

  lemma JoinOne(p: Piece)
    ensures Join([p]) == PieceText(p)
  {
  }

  lemma KeepText(text: string, existing: nat, kept: seq<Piece>, p: Piece)
    requires var stop := existing + 1 + |p.body|;
      stop <= |text| && text[..existing] == Passed(kept) && text[existing..stop] == PieceText(p)
    ensures text[..existing + 1 + |p.body|] == Join(kept + [p])
  {
    var stop := existing + 1 + |p.body|;
    hide Join, PieceText, Passed;
    JoinAppend(kept, [p]);
    JoinOne(p);
    assert text[..stop] == text[..existing] + text[existing..stop];
  }

  /** The rule that starts at `existing`, and what to cut to remove it. */
  method RuleSpan(text: string, existing: nat) returns (copyPosition: nat, ruleEnd: nat, copyEnd: nat)
    requires existing < |text|
    ensures existing < ruleEnd == SpaceAt(text, existing + 1)
    ensures copyPosition == if ruleEnd == |text| && existing != 0 then existing - 1 else existing
    ensures copyEnd == if ruleEnd < |text| then ruleEnd + 1 else ruleEnd
  {
    copyPosition := existing;
    ruleEnd := FindSpace(text, existing + 1);
    if ruleEnd == |text| {
      // the last rule: also remove the space before it
      if copyPosition != 0 {
        copyPosition := copyPosition - 1;
      }
    }
    copyEnd := ruleEnd;
    if copyEnd < |text| && text[copyEnd] == ' ' {
      copyEnd := copyEnd + 1;
    }
  }

  /**
   `ACLSelectorRemoveCommandRule`, on any text: walk the string and move the tail down over every
   piece the new rule supersedes.
   */
  method RemoveCommandRule(text0: string, newRule: string) returns (text: string)
    ensures text == Edited(text0, newRule)
  {
    text := text0;
    var existing := 0;
    ghost var pieces, tail, done := Chop(text0), Tail(text0), 0;
    ChopJoins(text0);
    WalkStart(text0, pieces, tail, newRule);
    hide At, Join, Kept, Chop, Tail, MatchesNewRule, SpaceAt, SpaceFreePieces;
    while existing < |text|
      invariant 0 <= done <= |pieces| && 0 <= existing
      invariant At(text, existing, pieces, tail, done, newRule)
      decreases |pieces| - done
    {
      WalkOn(text, existing, pieces, tail, done, newRule);
      var copyPosition, ruleEnd, copyEnd := RuleSpan(text, existing);
      WalkStep(text, existing, pieces, tail, done, newRule, ruleEnd);
      if MatchesNewRule(text[existing + 1..ruleEnd], newRule) {
        text := text[..copyPosition] + text[copyEnd..];
        existing := copyPosition;
      } else {
        existing := copyEnd;
      }
      done := done + 1;
    }
    WalkEnd(text, existing, pieces, tail, done, newRule);
  }

  /** One turn of the walk. */
  lemma WalkStep(text: string, existing: nat, pieces: seq<Piece>, tail: string, done: nat, newRule: string, ruleEnd: nat)
    requires done < |pieces| && At(text, existing, pieces, tail, done, newRule) && (tail == "" || tail == " ")
    requires existing < ruleEnd <= |text| && SpaceAt(text, existing + 1) == ruleEnd && SpaceFreePieces(pieces)
    ensures var next := if ruleEnd < |text| then ruleEnd + 1 else ruleEnd;
      var at := if ruleEnd == |text| && existing != 0 then existing - 1 else existing;
      if MatchesNewRule(text[existing + 1..ruleEnd], newRule) then
        At(text[..at] + text[next..], at, pieces, tail, done + 1, newRule)
      else At(text, next, pieces, tail, done + 1, newRule)
  {
    hide At, Supersedes, MatchesNewRule;
    SpaceAtStops(text, existing + 1);
    BodyStops(text, existing, pieces, tail, done, newRule);
    BodyEnds(text, existing + 1, pieces[done].body, ruleEnd);
    MatchIsSupersedes(pieces[done].body, newRule);
    if !Supersedes(newRule, pieces[done].body) {
      KeepStep(text, existing, pieces, tail, done, newRule);
    } else if ruleEnd < |text| {
      DropStep(text, existing, pieces, tail, done, newRule);
    } else {
      DropLastStep(text, existing, pieces, newRule);
      var at := if existing != 0 then existing - 1 else existing;
      assert text[..at] + text[ruleEnd..] == text[..at];
    }
  }

  lemma WalkStart(text: string, pieces: seq<Piece>, tail: string, newRule: string)
    requires text == Join(pieces) + tail && (pieces == [] <==> text == "")
    ensures At(text, 0, pieces, tail, 0, newRule)
  {
    assert pieces[..0] == [];
    assert pieces[0..] == pieces;
  }

  lemma WalkOn(text: string, existing: nat, pieces: seq<Piece>, tail: string, done: nat, newRule: string)
    requires done <= |pieces| && At(text, existing, pieces, tail, done, newRule) && existing < |text|
    ensures done < |pieces|
  {
  }

  /** The body of the next piece ends at a space or at the end of the text. */
  lemma BodyStops(text: string, existing: nat, pieces: seq<Piece>, tail: string, done: nat, newRule: string)
    requires done < |pieces| && At(text, existing, pieces, tail, done, newRule) && (tail == "" || tail == " ")
    ensures var stop := existing + 1 + |pieces[done].body|;
      && stop <= |text| && text[existing + 1..stop] == pieces[done].body
      && (stop < |text| ==> text[stop] == ' ')
      && (stop == |text| ==> done + 1 == |pieces| && tail == "")
  {
    NextPiece(text, existing, pieces, tail, done, newRule);
    var stop := existing + 1 + |pieces[done].body|;
    if stop < |text| {
      assert text[stop..][0] == text[stop];
    }
  }

  lemma WalkEnd(text: string, existing: nat, pieces: seq<Piece>, tail: string, done: nat, newRule: string)
    requires done <= |pieces| && At(text, existing, pieces, tail, done, newRule) && existing >= |text|
    ensures var kept := Kept(pieces, newRule);
      text == Join(kept) + if kept == [] then "" else tail
  {
    if done < |pieces| {
      NextPiece(text, existing, pieces, tail, done, newRule);
    } else {
      assert pieces[..done] == pieces;
    }
  }

  /** The comparison in the source: equal up to the shorter length, then equal length or a bar. */
  predicate MatchesNewRule(body: string, newRule: string) {
    var shorter := if |body| < |newRule| then |body| else |newRule|;
    && body[..shorter] == newRule[..shorter]
    && (|body| == |newRule| || (|body| > |newRule| && body[|newRule|] == '|'))
  }

  lemma MatchIsSupersedes(body: string, newRule: string)
    ensures MatchesNewRule(body, newRule) <==> Supersedes(newRule, body)
  {
    if |body| == |newRule| {
      assert body[..|body|] == body && newRule[..|newRule|] == newRule;
    }
  }

  // ----- splitting the rule string into arguments -----

  predicate Blank(c: char) { c == ' ' || c == '\n' || c == '\r' || c == '\t' }

  // Blanks, vertical tab and form feed: what isspace() accepts.
  predicate IsSpace(c: char) { c == ' ' || 9 <= c as int <= 13 }

  predicate IsHex(c: char) { '0' <= c <= '9' || 'a' <= c <= 'f' || 'A' <= c <= 'F' }

  function HexValue(c: char): (v: nat)
    requires IsHex(c)
    ensures v < 16
  {
    if '0' <= c <= '9' then c as int - '0' as int
    else if 'a' <= c <= 'f' then c as int - 'a' as int + 10
    else c as int - 'A' as int + 10
  }

  function Unescape(c: char): char {
    if c == 'n' then '\n' else if c == 'r' then '\r' else if c == 't' then '\t'
    else if c == 'b' then 8 as char else if c == 'a' then 7 as char else c
  }

  datatype Mode = Bare | DoubleQuoted | SingleQuoted

  /** The token that starts at `i`, and where the next one may start; none on unbalanced quotes. */
  function ScanToken(s: string, i: nat, mode: Mode, current: string): Option<(string, nat)>
    requires i <= |s|
    decreases |s| - i
  {
    match mode
    case Bare =>
      if i == |s| then Some((current, i))
      else if Blank(s[i]) then Some((current, i + 1))
      else if s[i] == '\"' then ScanToken(s, i + 1, DoubleQuoted, current)
      else if s[i] == '\'' then ScanToken(s, i + 1, SingleQuoted, current)
      else ScanToken(s, i + 1, Bare, current + [s[i]])
    case DoubleQuoted =>
      if i == |s| then None
      else if i + 3 < |s| && s[i] == '\\' && s[i + 1] == 'x' && IsHex(s[i + 2]) && IsHex(s[i + 3]) then
        ScanToken(s, i + 4, mode, current + [(HexValue(s[i + 2]) * 16 + HexValue(s[i + 3])) as char])
      else if i + 1 < |s| && s[i] == '\\' then ScanToken(s, i + 2, mode, current + [Unescape(s[i + 1])])
      else if s[i] == '\"' then
        if i + 1 < |s| && !IsSpace(s[i + 1]) then None else Some((current, i + 1))
      else ScanToken(s, i + 1, mode, current + [s[i]])
    case SingleQuoted =>
      if i == |s| then None
      else if i + 1 < |s| && s[i] == '\\' && s[i + 1] == '\'' then ScanToken(s, i + 2, mode, current + ['\''])
      else if s[i] == '\'' then
        if i + 1 < |s| && !IsSpace(s[i + 1]) then None else Some((current, i + 1))
      else ScanToken(s, i + 1, mode, current + [s[i]])
  }

  lemma {:induction false} ScanAdvances(s: string, i: nat, mode: Mode, current: string)
    requires i <= |s| && ScanToken(s, i, mode, current).Some?
    ensures var (t, j) := ScanToken(s, i, mode, current).value;
      && i <= j <= |s| && (i < |s| ==> i < j)
      && |t| + 1 <= |current| + (j - i) + (if j == |s| then 1 else 0)
      && (mode != Bare ==> |t| + 1 <= |current| + (j - i))
    decreases |s| - i
  {
    if i < |s| {
      match mode
      case Bare =>
        if Blank(s[i]) {
        } else if s[i] == '\"' {
          ScanAdvances(s, i + 1, DoubleQuoted, current);
        } else if s[i] == '\'' {
          ScanAdvances(s, i + 1, SingleQuoted, current);
        } else {
          ScanAdvances(s, i + 1, Bare, current + [s[i]]);
        }
      case DoubleQuoted =>
        if i + 3 < |s| && s[i] == '\\' && s[i + 1] == 'x' && IsHex(s[i + 2]) && IsHex(s[i + 3]) {
          ScanAdvances(s, i + 4, mode, current + [(HexValue(s[i + 2]) * 16 + HexValue(s[i + 3])) as char]);
        } else if i + 1 < |s| && s[i] == '\\' {
          ScanAdvances(s, i + 2, mode, current + [Unescape(s[i + 1])]);
        } else if s[i] != '\"' {
          ScanAdvances(s, i + 1, mode, current + [s[i]]);
        }
      case SingleQuoted =>
        if i + 1 < |s| && s[i] == '\\' && s[i + 1] == '\'' {
          ScanAdvances(s, i + 2, mode, current + ['\'']);
        } else if s[i] != '\'' {
          ScanAdvances(s, i + 1, mode, current + [s[i]]);
        }
    }
  }

  function SkipSpaces(s: string, i: nat): (j: nat)
    requires i <= |s|
    ensures i <= j <= |s|
    ensures i < |s| && !IsSpace(s[i]) ==> j == i
    decreases |s| - i
  {
    if i < |s| && IsSpace(s[i]) then SkipSpaces(s, i + 1) else i
  }

  function SplitFrom(s: string, i: nat): Option<seq<string>>
    requires i <= |s|
    decreases |s| - i
  {
    var j := SkipSpaces(s, i);
    if j == |s| then Some([])
    else
      match ScanToken(s, j, Bare, "")
      case None => None
      case Some((t, k)) =>
        ScanAdvances(s, j, Bare, "");
        match SplitFrom(s, k)
        case None => None
        case Some(rest) => Some([t] + rest)
  }

  /** `sdssplitargs`. */
  function SplitArgs(s: string): Option<seq<string>> { SplitFrom(s, 0) }

  function Tokens(rules: seq<Rule>): seq<string> {
    if rules == [] then [] else [Token(rules[0])] + Tokens(rules[1..])
  }

  /** No blank and no quote. */
  predicate Plain(s: string) {
    forall i :: 0 <= i < |s| ==> !Blank(s[i]) && s[i] != '\"' && s[i] != '\''
  }

  ghost predicate PlainRules(rules: seq<Rule>) {
    forall i :: 0 <= i < |rules| ==> Plain(rules[i].body)
  }

  lemma {:induction false} ScanPlain(s: string, i: nat, j: nat, current: string)
    requires i <= j <= |s| && Plain(s[i..j]) && (j < |s| ==> s[j] == ' ')
    ensures ScanToken(s, i, Bare, current) == Some((current + s[i..j], if j < |s| then j + 1 else j))
    decreases j - i
  {
    if i == j {
      assert current + s[i..j] == current;
    } else {
      assert s[i] == s[i..j][0];
      assert s[i + 1..j] == s[i..j][1..];
      ScanPlain(s, i + 1, j, current + [s[i]]);
      assert current + [s[i]] + s[i + 1..j] == current + s[i..j];
    }
  }

  lemma SplitPlainToken(s: string, i: nat, j: nat)
    requires i < j <= |s| && Plain(s[i..j]) && !IsSpace(s[i]) && (j < |s| ==> s[j] == ' ')
    ensures var next := if j < |s| then j + 1 else j;
      SplitFrom(s, next).Some? ==> SplitFrom(s, i) == Some([s[i..j]] + SplitFrom(s, next).value)
  {
    ScanPlain(s, i, j, "");
    assert "" + s[i..j] == s[i..j];
    hide ScanToken;
  }

  lemma SplitAtEnd(s: string)
    ensures SplitFrom(s, |s|) == Some([])
  {
  }

  lemma {:induction false} SplitRendered(prefix: string, rules: seq<Rule>)
    requires PlainRules(rules)
    ensures SplitFrom(prefix + Render(rules), |prefix|) == Some(Tokens(rules))
    decreases |rules|
  {
    var s := prefix + Render(rules);
    SplitAtEnd(s);
    hide SplitFrom;
    if rules != [] {
      var t := Token(rules[0]);
      var stop := |prefix| + |t|;
      assert s[|prefix|] == t[0];
      assert s[|prefix|..stop] == t;
      assert forall i :: 1 <= i < |t| ==> t[i] == rules[0].body[i - 1];
      if |rules| == 1 {
        assert rules[1..] == [];
        assert stop == |s|;
        SplitPlainToken(s, |prefix|, stop);
      } else {
        assert s == (prefix + t + " ") + Render(rules[1..]);
        assert s[stop] == ' ';
        SplitPlainToken(s, |prefix|, stop);
        SplitRendered(prefix + t + " ", rules[1..]);
      }
    }
  }

  /** `x` stands in `s` at `i`. */
  ghost predicate Stands(s: string, i: nat, x: string) {
    i + |x| <= |s| && s[i..i + |x|] == x
  }

  lemma StandsInTwo(s: string, i: nat, x: string, y: string)
    requires Stands(s, i, x + y)
    ensures Stands(s, i, x) && Stands(s, i + |x|, y) && i + |x| + |y| <= |s|
  {
    assert s[i..i + |x|] == (x + y)[..|x|];
    assert s[i + |x|..i + |x| + |y|] == (x + y)[|x|..];
  }

  lemma StandsFits(s: string, i: nat, x: string)
    requires Stands(s, i, x)
    ensures i + |x| <= |s|
  {
  }

  // Splitting back needs plain text: a quote is swallowed and a blank cuts a token short.

  ghost function Cost(argv: seq<string>): nat {
    if argv == [] then 0 else |argv[0]| + 1 + Cost(argv[1..])
  }

  lemma {:induction false} TightScanIsPlain(s: string, i: nat, current: string)
    requires i <= |s| && ScanToken(s, i, Bare, current).Some? && Plain(current)
    ensures var (t, j) := ScanToken(s, i, Bare, current).value;
      |t| + 1 == |current| + (j - i) + (if j == |s| then 1 else 0) ==> Plain(t)
    decreases |s| - i
  {
    if i < |s| && !Blank(s[i]) {
      if s[i] == '\"' {
        ScanAdvances(s, i + 1, DoubleQuoted, current);
      } else if s[i] == '\'' {
        ScanAdvances(s, i + 1, SingleQuoted, current);
      } else {
        TightScanIsPlain(s, i + 1, current + [s[i]]);
      }
    }
  }

  lemma {:induction false} TightSplitIsPlain(s: string, i: nat)
    requires i <= |s| && SplitFrom(s, i).Some?
    ensures var argv := SplitFrom(s, i).value;
      && Cost(argv) <= |s| - i + 1
      && (Cost(argv) == |s| - i + 1 ==> forall t :: t in argv ==> Plain(t))
    decreases |s| - i
  {
    var j := SkipSpaces(s, i);
    if j < |s| {
      var (t, k) := ScanToken(s, j, Bare, "").value;
      ScanAdvances(s, j, Bare, "");
      TightScanIsPlain(s, j, "");
      TightSplitIsPlain(s, k);
      var rest := SplitFrom(s, k).value;
      assert ([t] + rest)[1..] == rest;
      if k == |s| {
        assert SkipSpaces(s, k) == k;
      }
    }
  }

  lemma {:induction false} RenderCost(rules: seq<Rule>)
    requires rules != []
    ensures Cost(Tokens(rules)) == |Render(rules)| + 1
  {
    var rest := rules[1..];
    assert Tokens(rules)[1..] == Tokens(rest);
    if |rules| > 1 {
      RenderCost(rest);
    } else {
      assert rest == [];
    }
  }

  lemma {:induction false} TokenIsListed(rules: seq<Rule>, i: nat)
    requires i < |rules|
    ensures Token(rules[i]) in Tokens(rules)
  {
    if i != 0 {
      TokenIsListed(rules[1..], i - 1);
    }
  }

  /** The rule string splits back into its rules exactly when every rule is plain. */
  lemma SplitsBackExactly(rules: seq<Rule>)
    ensures SplitArgs(Render(rules)) == Some(Tokens(rules)) <==> PlainRules(rules)
  {
    var s := Render(rules);
    assert "" + s == s;
    if PlainRules(rules) {
      SplitRendered("", rules);
    }
    if SplitArgs(s) == Some(Tokens(rules)) && rules != [] {
      TightSplitIsPlain(s, 0);
      RenderCost(rules);
      forall i | 0 <= i < |rules|
        ensures Plain(rules[i].body)
      {
        TokenIsListed(rules, i);
        var t := Token(rules[i]);
        assert forall k :: 0 <= k < |rules[i].body| ==> rules[i].body[k] == t[k + 1];
      }
    }
  }
}
