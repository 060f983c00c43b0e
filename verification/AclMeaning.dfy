/**
 What each rule about commands does to a selector (acl.c, ACLSetSelector), said of the rule as it
 is given and of the bits and grants afterwards: which bits it writes, with which value, and that
 it writes no others. Names are given in any mixture of cases.
 */
module AclMeaning {
  import opened Common
  import opened AclText
  import opened AclRules

  // ----- the parties of a rule -----

  /** The identifier is that of the command or of one of its subcommands. */
  predicate Belongs(c: Command, i: nat) {
    i == c.id || (c.subs.Some? && exists m :: m in c.subs.value && c.subs.value[m].id == i)
  }

  /** The identifier is that of a command in the category, of one of its subcommands, or of a subcommand in it. */
  predicate InCategory(t: Table, c: string, i: nat) {
    exists n :: n in t.commands && MemberBelongs(t.commands[n], c, i)
  }

  predicate MemberBelongs(cmd: Command, c: string, i: nat) {
    (c in cmd.categories && Belongs(cmd, i)) || SubMember(cmd, c, i)
  }

  predicate SubMember(cmd: Command, c: string, i: nat) {
    cmd.subs.Some? && exists m :: m in cmd.subs.value && c in cmd.subs.value[m].categories && cmd.subs.value[m].id == i
  }

  /** The command or subcommand with this identifier is itself in the category. */
  predicate ItselfIn(t: Table, c: string, i: nat) {
    exists n :: n in t.commands && MemberItself(t.commands[n], c, i)
  }

  predicate MemberItself(cmd: Command, c: string, i: nat) {
    (c in cmd.categories && cmd.id == i) || SubMember(cmd, c, i)
  }

  /** A rule with a sign, and what follows it in lower case. */
  predicate Given(op: string, allow: bool, body: string) {
    op != "" && op[0] == (if allow then '+' else '-') && Lower(op[1..]) == body
  }

  /** The rule was accepted, and is retained last, as the only one with its text. */
  ghost predicate Accepted(t: Table, s: State, op: string, allow: bool, body: string) {
    var rules := Step(t, s, op).rules;
    && StepOutcome(t, op) == Done && rules != [] && rules[|rules| - 1] == Rule(allow, body)
    && forall i :: 0 <= i < |rules| - 1 ==> rules[i] in s.rules && rules[i].body != body && !Extends(rules[i].body, body)
  }

  /** The text goes on behind `body` with a bar. */
  predicate Extends(text: string, body: string) {
    |text| > |body| && text[..|body| + 1] == body + "|"
  }

  lemma RetainedLast(t: Table, s: State, allow: bool, body: string)
    ensures var rules := Retained(s.rules, body) + [Rule(allow, body)];
      && rules != [] && rules[|rules| - 1] == Rule(allow, body)
      && forall i :: 0 <= i < |rules| - 1 ==> rules[i] in s.rules && rules[i].body != body && !Extends(rules[i].body, body)
  {
    var kept := Retained(s.rules, body);
    var rules := kept + [Rule(allow, body)];
    forall i | 0 <= i < |rules| - 1
      ensures rules[i] in s.rules && rules[i].body != body && !Extends(rules[i].body, body)
    {
      assert rules[i] == kept[i] && kept[i] in kept;
      ExtendsIsSuperseded(rules[i].body, body);
    }
  }

  lemma ExtendsIsSuperseded(text: string, body: string)
    ensures Extends(text, body) ==> Supersedes(body, text)
  {
    if Extends(text, body) {
      assert text[..|body|] == text[..|body| + 1][..|body|];
      assert text[|body|] == text[..|body| + 1][|body|];
    }
  }

  /** What an accepted rule comes to, from what it resolves to. */
  lemma ChangeIs(t: Table, s: State, op: string, allow: bool, target: Target, body: string)
    requires op != "" && op[0] == (if allow then '+' else '-') && Lower(op[1..]) != "@all"
    requires Resolve(t, allow, op[1..]) == Ok(target, body)
    ensures ValidTarget(t, target) && Accepted(t, s, op, allow, body)
    ensures Step(t, s, op).perms == Apply(TargetEffect(t, target, allow), s.perms)
  {
    ClassifySigned(op);
    ResolvedTargetIsValid(t, allow, op[1..]);
    RetainedLast(t, s, allow, body);
    hide Classify, Resolve, TargetEffect, Retained, Apply;
  }

  lemma NotAll(body: string)
    requires body != "" && (body[0] != '@' || body[1..] != "all")
    ensures body != "@all"
  {
    assert "@all"[0] == '@' && "@all"[1..] == "all";
  }

  lemma LowerFirst(s: string)
    requires s != ""
    ensures (Lower(s)[0] == '@') <==> (s[0] == '@')
    ensures |Lower(s)| == |s|
  {
  }

  // ----- one command -----

  lemma ResolvesCommand(t: Table, allow: bool, body: string, n: string)
    requires GoodTable(t) && n in t.commands && Lower(body) == n
    ensures body != "" && Lower(body) != "@all"
    ensures Resolve(t, allow, body) == Ok(Whole(n), n)
  {
    assert GoodName(n);
    LookupFullName(t, Whole(n));
    LookupLower(t, body);
    LowerLastBar(body);
    LowerFirst(body);
    assert n[0] in n;
    NotAll(n);
    hide Lookup, Lower, LastBar, GoodTable;
  }

  lemma BelongsIs(c: Command, i: nat)
    ensures i in {c.id} + SubIds(c) <==> Belongs(c, i)
  {
  }

  /**
   `+command` and `-command`: the bits of the command and of all its subcommands are set or
   cleared, no other bit changes, and the command loses its own first-argument grants.
   */
  lemma CommandRule(t: Table, s: State, op: string, allow: bool, n: string)
    requires GoodTable(t) && n in t.commands && Given(op, allow, n)
    ensures Accepted(t, s, op, allow, n)
    ensures var p := Step(t, s, op).perms;
      && (forall i: nat :: i in p.allowed <==>
            if i < 1024 && Belongs(t.commands[n], i) then allow else i in s.perms.allowed)
      && (forall g :: g in p.grants <==> g in s.perms.grants && g.0 != t.commands[n].id)
  {
    ResolvesCommand(t, allow, op[1..], n);
    ChangeIs(t, s, op, allow, Whole(n), n);
    hide Step, Resolve, Accepted, GoodTable;
    forall i: nat
      ensures i in SubIds(t.commands[n]) || i == t.commands[n].id <==> Belongs(t.commands[n], i)
    {
      BelongsIs(t.commands[n], i);
    }
    hide SubIds, Belongs;
  }

  // ----- one subcommand -----

  lemma ResolvesSub(t: Table, allow: bool, body: string, n: string, m: string)
    requires GoodTable(t) && HasSub(t, n, m) && Lower(body) == n + "|" + m
    ensures body != "" && Lower(body) != "@all"
    ensures Resolve(t, allow, body) == Ok(Sub(n, m), n + "|" + m)
  {
    assert GoodName(n) && GoodName(m);
    LookupFullName(t, Sub(n, m));
    LookupFullName(t, Whole(n));
    LookupLower(t, body);
    LowerLastBar(body);
    LowerFirst(body);
    BarSplit(n, m);
    LookupLower(t, body[..|n|]);
    LowerSlices(body, |n|);
    assert n[0] in n && (n + "|" + m)[0] == n[0];
    NotAll(n + "|" + m);
    hide Lookup, Lower, LastBar, GoodTable;
  }

  /** `+command|subcommand` and `-command|subcommand`: the bit of the subcommand alone. */
  lemma SubcommandRule(t: Table, s: State, op: string, allow: bool, n: string, m: string)
    requires GoodTable(t) && HasSub(t, n, m) && Given(op, allow, n + "|" + m)
    ensures Accepted(t, s, op, allow, n + "|" + m)
    ensures var p, id := Step(t, s, op).perms, t.commands[n].subs.value[m].id;
      && (forall i: nat :: i in p.allowed <==> if i < 1024 && i == id then allow else i in s.perms.allowed)
      && (forall g :: g in p.grants <==> g in s.perms.grants && g.0 != id)
  {
    ResolvesSub(t, allow, op[1..], n, m);
    ChangeIs(t, s, op, allow, Sub(n, m), n + "|" + m);
    hide Step, Resolve, Accepted, GoodTable;
  }

  // ----- one first argument -----

  lemma ResolvesArgument(t: Table, body: string, n: string, a: string)
    requires GoodTable(t) && n in t.commands && t.commands[n].subs.None? && a != "" && '|' !in a
    requires Lower(body) == n + "|" + a
    ensures body != "" && Lower(body) != "@all"
    ensures var res := Resolve(t, true, body);
      res.Ok? && res.body == n + "|" + a && res.target.FirstArg? && res.target.name == n && Lower(res.target.arg) == a
  {
    assert GoodName(n);
    LookupFullName(t, Whole(n));
    LowerLastBar(body);
    LowerFirst(body);
    BarSplit(n, a);
    LookupLower(t, body[..|n|]);
    LowerSlices(body, |n|);
    LowerSlices(body, |n| + 1);
    assert n[0] in n && (n + "|" + a)[0] == n[0];
    NotAll(n + "|" + a);
    hide Lookup, Lower, LastBar, GoodTable;
  }

  /** `+command|argument`, for a command without subcommands: one grant more, and no bit changes. */
  lemma ArgumentRule(t: Table, s: State, op: string, n: string, a: string)
    requires GoodTable(t) && n in t.commands && t.commands[n].subs.None? && a != "" && '|' !in a
    requires Given(op, true, n + "|" + a)
    ensures Accepted(t, s, op, true, n + "|" + a)
    ensures var p := Step(t, s, op).perms;
      && p.allowed == s.perms.allowed
      && (forall g :: g in p.grants <==> g in s.perms.grants || g == (t.commands[n].id, a))
  {
    ResolvesArgument(t, op[1..], n, a);
    var res := Resolve(t, true, op[1..]);
    ChangeIs(t, s, op, true, res.target, res.body);
    hide Step, Resolve, Accepted, GoodTable, Lower;
  }

  // ----- a category -----

  lemma ResolvesCategory(t: Table, allow: bool, body: string, c: string)
    requires GoodTable(t) && c in t.categories && Lower(body) == "@" + c
    ensures body != "" && Lower(body) != "@all"
    ensures Resolve(t, allow, body) == Ok(Category(c), "@" + c)
  {
    assert ("@" + c)[1..] == c;
    LowerFirst(body);
    LowerSlices(body, 1);
    NotAll("@" + c);
    hide Lower, LastBar;
  }

  lemma CategoryIs(t: Table, c: string, i: nat)
    ensures i in CategoryIds(t, c) <==> InCategory(t, c, i)
    ensures i in CategoryResets(t, c) <==> ItselfIn(t, c, i)
  {
    forall n | n in t.commands
      ensures i in MemberIds(t.commands[n], c) <==> MemberBelongs(t.commands[n], c, i)
      ensures i in MemberResets(t.commands[n], c) <==> MemberItself(t.commands[n], c, i)
    {
      MemberIs(t.commands[n], c, i);
    }
    hide MemberIds, MemberResets, MemberBelongs, MemberItself;
  }

  lemma MemberIs(cmd: Command, c: string, i: nat)
    ensures i in MemberIds(cmd, c) <==> MemberBelongs(cmd, c, i)
    ensures i in MemberResets(cmd, c) <==> MemberItself(cmd, c, i)
  {
    BelongsIs(cmd, i);
    hide SubIds, Belongs;
  }

  /**
   `+@category` and `-@category`: the bits of the commands in it with all their subcommands, and
   of the subcommands in it; commands and subcommands that are in it lose their grants.
   */
  lemma CategoryRule(t: Table, s: State, op: string, allow: bool, c: string)
    requires GoodTable(t) && c in t.categories && Given(op, allow, "@" + c)
    ensures Accepted(t, s, op, allow, "@" + c)
    ensures var p := Step(t, s, op).perms;
      && (forall i: nat :: i in p.allowed <==>
            if i < 1024 && InCategory(t, c, i) then allow else i in s.perms.allowed)
      && (forall g: (nat, string) :: g in p.grants <==> g in s.perms.grants && !ItselfIn(t, c, g.0))
  {
    ResolvesCategory(t, allow, op[1..], c);
    ChangeIs(t, s, op, allow, Category(c), "@" + c);
    hide Step, Resolve, Accepted, GoodTable;
    forall i: nat
      ensures i in CategoryIds(t, c) <==> InCategory(t, c, i)
      ensures i in CategoryResets(t, c) <==> ItselfIn(t, c, i)
    {
      CategoryIs(t, c, i);
    }
    hide CategoryIds, CategoryResets, InCategory, ItselfIn;
  }

  // ----- all and none -----

  /** `+@all` and `-@all`, or their other names: every bit or none, and no grant and no rule is left. */
  lemma AllRule(t: Table, s: State, op: string, allow: bool)
    requires Lower(op) == (if allow then "+@all" else "-@all")
          || Lower(op) == (if allow then "allcommands" else "nocommands")
    ensures StepOutcome(t, op) == Done
    ensures var s' := Step(t, s, op);
      && s'.rules == [] && s'.perms.grants == {}
      && forall i: nat :: i in s'.perms.allowed <==> allow && i < 1024
  {
    assert "+@all"[0] == '+' && "-@all"[0] == '-' && "allcommands"[0] == 'a' && "nocommands"[0] == 'n';
    hide Lower;
  }

  // ----- rules that are refused -----

  /** A refused rule changes nothing, and its error says why. */
  lemma Refused(t: Table, s: State, op: string, allow: bool, body: string, errno: Errno)
    requires op != "" && op[0] == (if allow then '+' else '-') && op[1..] == body && Lower(body) != "@all"
    requires Resolve(t, allow, body) == Err(errno)
    ensures StepOutcome(t, op) == Failed(errno) && Step(t, s, op) == s
  {
    ClassifySigned(op);
    hide Classify, Resolve;
  }

  /** An unknown command, subcommand or category; also a first argument that is to be taken away. */
  lemma UnknownName(t: Table, s: State, op: string, allow: bool, body: string)
    requires op != "" && op[0] == (if allow then '+' else '-') && op[1..] == body && Lower(body) != "@all"
    requires if body != "" && body[0] == '@' then Lower(body[1..]) !in t.categories
             else if '|' !in body then Lower(body) !in t.commands
             else !allow && forall n, m :: HasSub(t, n, m) ==> Lower(body) != n + "|" + m
    ensures StepOutcome(t, op) == Failed(ENOENT) && Step(t, s, op) == s
  {
    if !(body != "" && body[0] == '@') {
      NotFound(t, body);
    }
    hide Lookup, Lower, LastBar, Step, StepOutcome;
    Refused(t, s, op, allow, body, ENOENT);
  }

  lemma NotFound(t: Table, body: string)
    requires if '|' !in body then Lower(body) !in t.commands
             else forall n, m :: HasSub(t, n, m) ==> Lower(body) != n + "|" + m
    ensures Lookup(t, body) == None && ('|' !in body ==> LastBar(body) == -1)
  {
    var bar := LastBar(body);
    if bar >= 0 {
      AtLastBar(body, bar);
      hide Lower, LastBar;
      var n, m := Lower(body[..bar]), Lower(body[bar + 1..]);
      assert HasSub(t, n, m) ==> Lower(body) != n + "|" + m;
    }
  }

  lemma AtLastBar(body: string, bar: nat)
    requires bar < |body| && body[bar] == '|'
    ensures Lower(body) == Lower(body[..bar]) + "|" + Lower(body[bar + 1..])
  {
    LowerConcat(body[..bar], "|");
    LowerConcat(body[..bar] + "|", body[bar + 1..]);
    assert body == body[..bar] + "|" + body[bar + 1..];
    assert Lower("|") == "|";
  }

  /** `+copy|word` is decided by its two parts. */
  lemma BarredIs(t: Table, s: State, op: string, copy: string, word: string, errno: Errno)
    requires op == "+" + copy + "|" + word && '|' !in word && copy != "" && copy[0] != '@'
    requires ResolveParts(t, copy + "|" + word, copy, word) == Err(errno)
    ensures StepOutcome(t, op) == Failed(errno) && Step(t, s, op) == s
  {
    var body := copy + "|" + word;
    assert op[1..] == body && op[0] == '+' && body[0] == copy[0];
    LowerFirst(body);
    NotAll(Lower(body));
    LastBarAt(copy, word);
    hide ResolveParts, LastBar, Lower, Step, StepOutcome;
    Refused(t, s, op, true, body, errno);
  }

  /** The part before the last bar is no command. */
  lemma UnknownBeforeBar(t: Table, s: State, op: string, copy: string, word: string)
    requires op == "+" + copy + "|" + word && '|' !in word && copy != "" && copy[0] != '@'
    requires '|' !in copy && Lower(copy) !in t.commands
    ensures StepOutcome(t, op) == Failed(ENOENT) && Step(t, s, op) == s
  {
    assert Lookup(t, copy) == None;
    hide Lookup, Step, StepOutcome, Lower;
    BarredIs(t, s, op, copy, word, ENOENT);
  }

  /** It is a subcommand already. */
  lemma WordOfSubcommand(t: Table, s: State, op: string, copy: string, word: string, n: string, m: string)
    requires GoodTable(t) && op == "+" + copy + "|" + word && '|' !in word && copy != "" && copy[0] != '@'
    requires HasSub(t, n, m) && Lower(copy) == n + "|" + m
    ensures StepOutcome(t, op) == Failed(ECHILD) && Step(t, s, op) == s
  {
    hide Lookup, Step, StepOutcome, Lower, GoodTable;
    LookupFullName(t, Sub(n, m));
    LookupLower(t, copy);
    BarredIs(t, s, op, copy, word, ECHILD);
  }

  /** There is no word, or the command has subcommands and the word is none of them. */
  lemma BadWord(t: Table, s: State, op: string, copy: string, word: string, n: string)
    requires GoodTable(t) && op == "+" + copy + "|" + word && '|' !in word && copy != "" && copy[0] != '@'
    requires n in t.commands && Lower(copy) == n
    requires word == "" || (t.commands[n].subs.Some? && Lower(word) !in t.commands[n].subs.value)
    ensures StepOutcome(t, op) == Failed(if word == "" then EINVAL else ENOENT) && Step(t, s, op) == s
  {
    LookupFullName(t, Whole(n));
    LookupLower(t, copy);
    if word != "" {
      NoSuchSub(t, copy, word, n);
    }
    hide Lookup, Step, StepOutcome, Lower, GoodTable;
    BarredIs(t, s, op, copy, word, if word == "" then EINVAL else ENOENT);
  }

  lemma NoSuchSub(t: Table, copy: string, word: string, n: string)
    requires '|' !in word && Lower(copy) == n && n in t.commands
    requires t.commands[n].subs.Some? ==> Lower(word) !in t.commands[n].subs.value
    ensures Lookup(t, copy + "|" + word) == None
  {
    LastBarAt(copy, word);
    hide LastBar, Lower;
  }

  lemma LastBarAt(copy: string, word: string)
    requires '|' !in word
    ensures var f := copy + "|" + word; LastBar(f) == |copy| && f[..|copy|] == copy && f[|copy| + 1..] == word
  {
    var f := copy + "|" + word;
    assert f[|copy|] == '|';
    assert forall i :: |copy| + 1 <= i < |f| ==> f[i] == word[i - |copy| - 1];
  }
}
