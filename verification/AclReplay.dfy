/**
 Rebuilding a selector from its own rule string (acl.c): the string is split into arguments and
 each is given to a selector that starts from the base. This gives back the permissions exactly
 for the rules that are plain.
 */
module AclReplay {
  import opened Common
  import opened AclText
  import opened AclRules

  /** Give the arguments one by one; none if one of them is refused. */
  function StepAll(t: Table, s: State, argv: seq<string>): Option<State>
    decreases |argv|
  {
    if argv == [] then Some(s)
    else if StepOutcome(t, argv[0]).Failed? then None
    else StepAll(t, Step(t, s, argv[0]), argv[1..])
  }

  /** The permissions rebuilt from a rule string. */
  function Rebuilt(t: Table, all: bool, text: string): Option<Perms> {
    match SplitArgs(text)
    case None => None
    case Some(argv) =>
      match StepAll(t, State(Base(all), []), argv)
      case None => None
      case Some(s) => Some(s.perms)
  }

  // ----- plain rules are rebuilt -----

  lemma GivenAgain(t: Table, base: Perms, rules: seq<Rule>, i: nat)
    requires GoodTable(t) && GoodRules(t, rules) && Settled(rules) && i < |rules|
    ensures Step(t, State(Replay(t, base, rules[..i]), rules[..i]), Token(rules[i]))
         == State(Replay(t, base, rules[..i + 1]), rules[..i + 1])
    ensures StepOutcome(t, Token(rules[i])) == Done
  {
    var s, r := State(Replay(t, base, rules[..i]), rules[..i]), rules[i];
    StepToken(t, s, rules, i);
    ClassifyToken(t, r);
    var next := rules[..i + 1];
    assert next[..i] == rules[..i] && next[i] == r;
    hide Classify, Resolve, TargetEffect, Token, Apply;
  }

  lemma {:induction false} AllGivenAgain(t: Table, base: Perms, rules: seq<Rule>, i: nat)
    requires GoodTable(t) && GoodRules(t, rules) && Settled(rules) && i <= |rules|
    ensures StepAll(t, State(Replay(t, base, rules[..i]), rules[..i]), Tokens(rules[i..]))
         == Some(State(Replay(t, base, rules), rules))
    decreases |rules| - i
  {
    if i == |rules| {
      assert rules[..i] == rules && rules[i..] == [];
    } else {
      GivenAgain(t, base, rules, i);
      AllGivenAgain(t, base, rules, i + 1);
      hide Step, StepOutcome, Token, Replay, GoodTable, GoodRules, Settled;
      assert rules[i..][0] == rules[i] && rules[i..][1..] == rules[i + 1..];
      var argv := Tokens(rules[i..]);
      assert argv[0] == Token(rules[i]) && argv[1..] == Tokens(rules[i + 1..]);
    }
  }

  lemma PlainIsRebuilt(t: Table, s: State)
    requires GoodTable(t) && Replays(t, s)
    ensures Rebuilt(t, FUTURE_BIT in s.perms.allowed, Render(s.rules)) == Some(s.perms)
  {
    GoodIsPlain(t, s.rules);
    SplitsBackExactly(s.rules);
    var base := Base(FUTURE_BIT in s.perms.allowed);
    AllGivenAgain(t, base, s.rules, 0);
    assert s.rules[..0] == [] && s.rules[0..] == s.rules;
    hide SplitArgs, StepAll, Render, Tokens, GoodRules, Settled, GoodTable;
  }

  // ----- where a grant comes from -----

  /** The rule allows `g` as the first argument of the command with this identifier. */
  predicate Gives(t: Table, op: string, id: nat, g: string) {
    && Classify(op).Change?
    && var (allow, body) := (Classify(op).allow, Classify(op).body);
       var res := Resolve(t, allow, body);
       && res.Ok? && res.target.FirstArg? && ValidTarget(t, res.target)
       && t.commands[res.target.name].id == id && Lower(res.target.arg) == g
  }

  lemma StepGives(t: Table, s: State, op: string, id: nat, g: string)
    requires (id, g) in Step(t, s, op).perms.grants
    ensures (id, g) in s.perms.grants || Gives(t, op, id, g)
  {
    if Classify(op).Change? {
      var (allow, body) := (Classify(op).allow, Classify(op).body);
      if Resolve(t, allow, body).Ok? {
        ResolvedTargetIsValid(t, allow, body);
        hide Classify, Resolve;
      }
    }
  }

  lemma {:induction false} GrantsAreGiven(t: Table, s: State, argv: seq<string>, id: nat, g: string)
    requires StepAll(t, s, argv).Some? && (id, g) in StepAll(t, s, argv).value.perms.grants
    ensures (id, g) in s.perms.grants || exists op :: op in argv && Gives(t, op, id, g)
    decreases |argv|
  {
    hide Step, StepOutcome, Gives;
    if argv != [] {
      var next := Step(t, s, argv[0]);
      GrantsAreGiven(t, next, argv[1..], id, g);
      if (id, g) in next.perms.grants {
        StepGives(t, s, argv[0], id, g);
      }
    }
  }

  /** No two commands share an identifier. */
  ghost predicate DistinctIds(t: Table) {
    forall m, n :: m in t.commands && n in t.commands && t.commands[m].id == t.commands[n].id ==> m == n
  }

  /** A body that resolves to a first argument is the command, a bar, and the argument. */
  lemma FirstArgShape(t: Table, allow: bool, body: string)
    requires Resolve(t, allow, body).Ok? && Resolve(t, allow, body).target.FirstArg?
    ensures var res, bar := Resolve(t, allow, body), LastBar(body);
      && allow && bar >= 0 && res.body == Lower(body) && ValidTarget(t, res.target)
      && body == body[..bar] + "|" + res.target.arg && Lower(body[..bar]) == res.target.name
  {
    hide Lookup, LastBar, Lower;
    ResolvedTargetIsValid(t, allow, body);
    var bar := LastBar(body);
    if bar >= 0 {
      LookupOfName(t, body[..bar]);
      AtBar(body, bar);
    }
  }

  lemma AtBar(body: string, bar: nat)
    requires bar < |body| && body[bar] == '|'
    ensures body == body[..bar] + "|" + body[bar + 1..]
  {
  }

  lemma LookupOfName(t: Table, s: string)
    ensures Lookup(t, s).Some? && Lookup(t, s).value.Whole? ==> Lookup(t, s).value.name == Lower(s)
  {
  }

  lemma ChangeShape(op: string)
    ensures Classify(op).Change? ==> op != "" && op[1..] == Classify(op).body && |op| == |Classify(op).body| + 1
  {
    hide Lower;
  }

  lemma PlainParts(a: string, b: string)
    ensures Plain(a + b) <==> Plain(a) && Plain(b)
  {
    hide Blank;
    if Plain(a + b) {
      assert forall i :: 0 <= i < |a| ==> a[i] == (a + b)[i];
      assert forall i :: 0 <= i < |b| ==> b[i] == (a + b)[|a| + i];
    }
  }

  lemma GivesShape(t: Table, op: string, id: nat, g: string)
    requires Gives(t, op, id, g)
    ensures exists n :: n in t.commands && t.commands[n].id == id && |op| == |n| + |g| + 2
    ensures Plain(op) ==> Plain(g)
  {
    hide Resolve, Classify, Lower, Plain, LastBar;
    var (allow, body) := (Classify(op).allow, Classify(op).body);
    var target, bar := Resolve(t, allow, body).target, LastBar(body);
    ChangeShape(op);
    FirstArgShape(t, allow, body);
    ChangeIsPlainExactly(op);
    PlainParts(body[..bar] + "|", target.arg);
    PlainLower(target.arg);
    assert |target.name| == bar;
  }

  // ----- other rules are not -----

  lemma {:induction false} CostOf(argv: seq<string>, x: string)
    requires x in argv
    ensures |x| + 1 <= Cost(argv)
  {
    if x != argv[0] {
      CostOf(argv[1..], x);
    }
  }

  /** A token with a blank or a quote in it has cost at least one character of the text. */
  lemma OddTokenIsShort(s: string, i: nat, x: string)
    requires i <= |s| && SplitFrom(s, i).Some? && x in SplitFrom(s, i).value && !Plain(x)
    ensures |x| < |s| - i
  {
    TightSplitIsPlain(s, i);
    CostOf(SplitFrom(s, i).value, x);
  }

  function Prepend(tokens: seq<string>, rest: Option<seq<string>>): Option<seq<string>> {
    if rest.None? then None else Some(tokens + rest.value)
  }

  lemma RenderCons(rules: seq<Rule>)
    requires |rules| > 1
    ensures Render(rules) + " " == Token(rules[0]) + (" " + (Render(rules[1..]) + " "))
    ensures |Render(rules)| == |Token(rules[0])| + 1 + |Render(rules[1..])|
    ensures Tokens(rules) == [Token(rules[0])] + Tokens(rules[1..])
  {
    Spaced(Token(rules[0]), Render(rules[1..]));
  }

  lemma Spaced(t: string, more: string)
    ensures (t + " " + more) + " " == t + (" " + (more + " "))
  {
  }

  lemma TokensOne(rules: seq<Rule>)
    requires |rules| == 1
    ensures Render(rules) == Token(rules[0]) && Tokens(rules) == [Token(rules[0])]
  {
    assert rules[1..] == [];
  }

  /** Behind plain rules and a space, splitting starts afresh. */
  lemma {:induction false} SplitBehind(s: string, i: nat, rules: seq<Rule>)
    requires PlainRules(rules) && rules != [] && Stands(s, i, Render(rules) + " ")
    ensures SplitFrom(s, i) == Prepend(Tokens(rules), SplitFrom(s, i + |Render(rules)| + 1))
    decreases |rules|
  {
    hide SplitFrom, Render, Tokens, Stands, Token, Plain, Prepend;
    StandsFits(s, i, Render(rules) + " ");
    var t, more := Token(rules[0]), rules[1..];
    assert Plain(rules[0].body);
    if more == [] {
      TokensOne(rules);
      StandsInTwo(s, i, t, " ");
      FirstToken(s, i, rules[0]);
    } else {
      RenderCons(rules);
      StandsInTwo(s, i, t, " " + (Render(more) + " "));
      StandsInTwo(s, i + |t|, " ", Render(more) + " ");
      FirstToken(s, i, rules[0]);
      SplitBehind(s, i + |t| + 1, more);
      PrependTwice([t], Tokens(more), SplitFrom(s, i + |Render(rules)| + 1));
    }
  }

  lemma PrependTwice(a: seq<string>, b: seq<string>, rest: Option<seq<string>>)
    ensures Prepend(a, Prepend(b, rest)) == Prepend(a + b, rest)
  {
    if rest.Some? {
      assert a + (b + rest.value) == (a + b) + rest.value;
    }
  }

  lemma FirstToken(s: string, i: nat, r: Rule)
    requires Plain(r.body) && Stands(s, i, Token(r)) && Stands(s, i + |Token(r)|, " ")
    ensures SplitFrom(s, i) == Prepend([Token(r)], SplitFrom(s, i + |Token(r)| + 1))
  {
    var t := Token(r);
    assert forall k :: 1 <= k < |t| ==> t[k] == r.body[k - 1];
    assert s[i] == s[i..i + |t|][0] && s[i + |t|] == s[i + |t|..i + |t| + 1][0];
    hide SplitFrom;
    SplitOff(s, i, i + |t|);
  }

  lemma SplitOff(s: string, i: nat, j: nat)
    requires i < j < |s| && Plain(s[i..j]) && !IsSpace(s[i]) && s[j] == ' '
    ensures SplitFrom(s, j + 1).Some? ==> SplitFrom(s, i) == Some([s[i..j]] + SplitFrom(s, j + 1).value)
    ensures SplitFrom(s, j + 1).None? ==> SplitFrom(s, i).None?
  {
    ScanPlain(s, i, j, "");
    assert "" + s[i..j] == s[i..j];
    hide ScanToken;
  }

  /** What the rule string of plain rules and one other splits into. */
  lemma OddTokens(kept: seq<Rule>, last: Rule, x: string)
    requires PlainRules(kept) && SplitArgs(Render(kept + [last])).Some?
    requires x in SplitArgs(Render(kept + [last])).value && !Plain(x)
    ensures |x| < |Token(last)|
  {
    hide SplitFrom, Render, Token, Tokens, Plain;
    var text := Render(kept + [last]);
    RenderAppend(kept, [last]);
    RenderOne(last);
    if kept == [] {
      assert "" + Token(last) == Token(last);
      OddTokenIsShort(text, 0, x);
    } else {
      var at := |Render(kept)| + 1;
      assert text[0..at] == Render(kept) + " ";
      SplitBehind(text, 0, kept);
      PlainTokens(kept);
      OddTokenIsShort(text, at, x);
    }
  }

  lemma {:induction false} PlainTokens(rules: seq<Rule>)
    requires PlainRules(rules)
    ensures forall x :: x in Tokens(rules) ==> Plain(x)
  {
    if rules != [] {
      PlainTokens(rules[1..]);
      assert Plain(rules[0].body);
      var t := Token(rules[0]);
      assert forall i :: 1 <= i < |t| ==> t[i] == rules[0].body[i - 1];
    }
  }

  /** An accepted rule that is not plain gives a first argument that is not plain. */
  lemma OddIsFirstArg(t: Table, op: string)
    requires GoodTable(t) && StepOutcome(t, op) == Done && !Plain(op)
    ensures exists id, g :: Gives(t, op, id, g) && !Plain(g)
  {
    if !Classify(op).Change? {
      BaseIsPlain(op);
    } else {
      var (allow, body) := (Classify(op).allow, Classify(op).body);
      ChangeIsPlainExactly(op);
      ResolvedTargetIsValid(t, allow, body);
      var res := Resolve(t, allow, body);
      OddTarget(t, allow, body);
      assert Gives(t, op, t.commands[res.target.name].id, Lower(res.target.arg));
    }
  }

  lemma OddTarget(t: Table, allow: bool, body: string)
    requires GoodTable(t) && Resolve(t, allow, body).Ok? && !Plain(body)
    ensures var target := Resolve(t, allow, body).target; target.FirstArg? && !Plain(Lower(target.arg))
  {
    var target := Resolve(t, allow, body).target;
    ResolvedTargetIsValid(t, allow, body);
    if target.FirstArg? {
      FirstArgShape(t, allow, body);
      OddArgument(body[..LastBar(body)], target.arg, target.name);
      hide Resolve, Plain;
      assert GoodName(target.name);
    } else {
      ResolvedIsPlainExactly(t, allow, body);
      OtherIsPlain(t, allow, body);
    }
  }

  lemma OddArgument(copy: string, arg: string, name: string)
    requires Lower(copy) == name
    ensures Plain(name) && !Plain(copy + "|" + arg) ==> !Plain(Lower(arg))
  {
    PlainLower(copy);
    PlainLower(arg);
    assert Plain("|");
    PlainParts(copy, "|");
    PlainParts(copy + "|", arg);
    hide Plain, Lower;
  }

  /** The names in the table are plain. */
  lemma OtherIsPlain(t: Table, allow: bool, body: string)
    requires GoodTable(t) && Resolve(t, allow, body).Ok? && !Resolve(t, allow, body).target.FirstArg?
    ensures Plain(Resolve(t, allow, body).body)
  {
    var res := Resolve(t, allow, body);
    ResolvedTargetIsValid(t, allow, body);
    if body != "" && body[0] == '@' {
      LowerSlices(body, 1);
      assert GoodName(Lower(body[1..]));
      assert Lower(body) == "@" + Lower(body[1..]);
      PlainConcat("@", Lower(body[1..]));
    } else {
      LookupFullName(t, res.target);
      LookupNames(t, body);
    }
  }

  lemma GivesStep(t: Table, s: State, op: string, id: nat, g: string)
    requires Gives(t, op, id, g)
    ensures (id, g) in Step(t, s, op).perms.grants
    ensures var (allow, body) := (Classify(op).allow, Classify(op).body);
      Step(t, s, op).rules == Retained(s.rules, Lower(body)) + [Rule(allow, Lower(body))]
  {
    hide Classify, Resolve, Lower, Retained;
    var (allow, body) := (Classify(op).allow, Classify(op).body);
    FirstArgShape(t, allow, body);
  }

  /** Such a grant cannot be given by any token of the rule string. */
  lemma OddIsLost(t: Table, s: State, op: string, id: nat, g: string, all: bool)
    requires GoodTable(t) && DistinctIds(t) && PlainRules(s.rules) && Gives(t, op, id, g) && !Plain(g)
    ensures (id, g) in Step(t, s, op).perms.grants
    ensures var r := Rebuilt(t, all, Render(Step(t, s, op).rules)); r.Some? ==> (id, g) !in r.value.grants
  {
    GivesStep(t, s, op, id, g);
    ChangeShape(op);
    hide Classify, Resolve, Rebuilt, Render, Retained, Plain, GoodTable, Token, DistinctIds, Lower, PlainRules, Step;
    var (allow, body) := (Classify(op).allow, Classify(op).body);
    RetainedPlain(s.rules, Lower(body));
    NotGivenAgain(t, Retained(s.rules, Lower(body)), Rule(allow, Lower(body)), op, id, g, all);
  }

  lemma NotGivenAgain(t: Table, kept: seq<Rule>, last: Rule, op: string, id: nat, g: string, all: bool)
    requires GoodTable(t) && DistinctIds(t) && PlainRules(kept) && Gives(t, op, id, g) && !Plain(g)
    requires |op| == |Token(last)|
    ensures var r := Rebuilt(t, all, Render(kept + [last])); r.Some? ==> (id, g) !in r.value.grants
  {
    hide SplitArgs, Gives, Render, Plain, Step, StepOutcome, GoodTable, Token, StepAll, PlainRules;
    var text := Render(kept + [last]);
    var r := Rebuilt(t, all, text);
    if r.Some? && (id, g) in r.value.grants {
      var argv := SplitArgs(text).value;
      GrantsAreGiven(t, State(Base(all), []), argv, id, g);
      var x :| x in argv && Gives(t, x, id, g);
      GivesShape(t, op, id, g);
      GivesShape(t, x, id, g);
      OddTokens(kept, last, x);
      assert false;
    }
  }

  lemma RetainedPlain(rules: seq<Rule>, newRule: string)
    requires PlainRules(rules)
    ensures PlainRules(Retained(rules, newRule))
  {
    var kept := Retained(rules, newRule);
    forall i | 0 <= i < |kept|
      ensures Plain(kept[i].body)
    {
      assert kept[i] in kept;
    }
  }

  /**
   From any state reached by plain rules, after any further rule: the rule string rebuilds
   exactly the bitmap and the grants if and only if the rule was plain or was not accepted.
   */
  lemma StepRebuiltExactly(t: Table, s: State, op: string)
    requires GoodTable(t) && DistinctIds(t) && Replays(t, s)
    ensures var s' := Step(t, s, op);
      Rebuilt(t, FUTURE_BIT in s'.perms.allowed, Render(s'.rules)) == Some(s'.perms)
      <==> Plain(op) || StepOutcome(t, op) != Done
  {
    var s' := Step(t, s, op);
    if StepOutcome(t, op) != Done {
      assert s' == s;
      PlainIsRebuilt(t, s);
    } else if Plain(op) {
      StepReplays(t, s, op);
      PlainIsRebuilt(t, s');
    } else {
      OddIsFirstArg(t, op);
      var id, g :| Gives(t, op, id, g) && !Plain(g);
      GoodIsPlain(t, s.rules);
      OddIsLost(t, s, op, id, g, FUTURE_BIT in s'.perms.allowed);
    }
  }

  // ----- a rule that is lost -----

  const SELECT := Table(map["select" := Command(5, {}, None)], {})

  lemma SelectIsGood()
    ensures GoodTable(SELECT) && DistinctIds(SELECT)
    ensures Lower("select") == "select"
  {
    assert Lower("select") == "select";
  }

  /** A first argument for a command without subcommands. */
  lemma ResolvesToFirstArg(t: Table, name: string, arg: string)
    requires name != "" && name[0] != '@' && '|' !in arg && arg != ""
    requires Lookup(t, name) == Some(Whole(name)) && t.commands[name].subs.None?
    ensures Resolve(t, true, name + "|" + arg) == Ok(FirstArg(name, arg), Lower(name + "|" + arg))
  {
    hide Lookup, LastBar, Lower;
    BarSplitAt(name, arg);
    assert (name + "|" + arg)[0] == name[0];
  }

  lemma SelectLookup()
    ensures Lookup(SELECT, "select") == Some(Whole("select"))
  {
    SelectIsGood();
    assert '|' !in "select";
    assert LastBar("select") == -1;
  }

  lemma SelectRule(op: string, arg: string)
    requires op == "+select|" + arg && '|' !in arg && arg != ""
    ensures Classify(op) == Change(true, "select" + "|" + arg)
    ensures Resolve(SELECT, true, "select" + "|" + arg) == Ok(FirstArg("select", arg), Lower("select" + "|" + arg))
  {
    hide Lookup, Classify, LastBar, Resolve;
    var body := "select" + "|" + arg;
    assert op[1..] == body;
    assert body[0] == 's' && Lower(body)[0] == LowerChar(body[0]);
    assert "@all"[0] == '@';
    ClassifySigned(op);
    SelectLookup();
    ResolvesToFirstArg(SELECT, "select", arg);
  }

  lemma BarSplitAt(n: string, m: string)
    requires '|' !in m
    ensures var f := n + "|" + m; LastBar(f) == |n| && f[..|n|] == n && f[|n| + 1..] == m
  {
    var f := n + "|" + m;
    assert f[|n|] == '|';
    assert forall i :: |n| + 1 <= i < |f| ==> f[i] == m[i - |n| - 1];
  }

  /** One first argument given to a selector without rules. */
  lemma SelectStep(op: string, arg: string)
    requires op == "+select|" + arg && '|' !in arg && arg != "" && Lower(arg) == arg
    ensures Step(SELECT, State(Base(false), []), op)
         == State(Perms({}, {(5, arg)}), [Rule(true, Lower("select" + "|" + arg))])
    ensures StepOutcome(SELECT, op) == Done
  {
    hide Classify, Resolve, Lower;
    SelectRule(op, arg);
    var s := Step(SELECT, State(Base(false), []), op);
    assert s.perms.grants == {(5, arg)};
    assert s.perms.allowed == {};
    assert Retained([], Lower("select" + "|" + arg)) == [];
  }

  /** The words of the example are in lower case. */
  lemma LowerWords()
    ensures Lower("a b") == "a b" && Lower("a") == "a" && Lower("b") == "b"
    ensures Lower("select" + "|" + "a b") == "select|a b"
  {
  }

  /** A first argument that holds a space, on a selector without rules. */
  lemma LostFirstArgument()
    ensures var s := Step(SELECT, State(Base(false), []), "+select|a b");
      && s.perms == Perms({}, {(5, "a b")})
      && Render(s.rules) == "+select|a b"
      && Rebuilt(SELECT, false, Render(s.rules)) == Some(Perms({}, {(5, "a")}))
  {
    hide Step, SplitArgs, StepAll, Render, Lower;
    LowerWords();
    SelectStep("+select|a b", "a b");
    RenderOne(Rule(true, "select|a b"));
    SplitsInTwo();
    RebuiltWithout();
  }

  lemma NotARule()
    ensures Classify("b") == Other
  {
    LowerWords();
  }

  lemma RebuiltWithout()
    ensures var s := StepAll(SELECT, State(Base(false), []), ["+select|a", "b"]);
      s.Some? && s.value.perms == Perms({}, {(5, "a")})
  {
    hide Lower, Classify, Base;
    LowerWords();
    NotARule();
    SelectStep("+select|a", "a");
    var s := Step(SELECT, State(Base(false), []), "+select|a");
    assert Step(SELECT, s, "b") == s && !StepOutcome(SELECT, "b").Failed?;
    hide Step, StepOutcome;
    StepAllNext(SELECT, State(Base(false), []), "+select|a", ["b"]);
    StepAllNext(SELECT, s, "b", []);
  }

  lemma StepAllNext(t: Table, s: State, op: string, rest: seq<string>)
    requires !StepOutcome(t, op).Failed?
    ensures StepAll(t, s, [op] + rest) == StepAll(t, Step(t, s, op), rest)
  {
    assert ([op] + rest)[1..] == rest;
  }

  lemma SplitsInTwo()
    ensures SplitArgs("+select|a b") == Some(["+select|a", "b"])
  {
    var s := "+select|a b";
    SplitAtEnd(s);
    assert s[10..11] == "b" && s[0..9] == "+select|a" && s[9] == ' ';
    hide SplitFrom;
    SplitPlainToken(s, 10, 11);
    SplitOff(s, 0, 9);
    assert ["b"] + [] == ["b"];
    assert ["+select|a"] + ["b"] == ["+select|a", "b"];
  }
}
