/**
 An ACL selector (acl.c): the command bitmap, the first-argument grants and the rule string,
 changed in place by every rule. The rule string always replays to the bitmap and the grants.
 */
module AclSelector {
  import opened Common
  import opened AclText
  import opened AclRules

  ghost function GrantsOf(firstArgs: map<nat, seq<string>>): set<(nat, string)> {
    set id, i | id in firstArgs && 0 <= i < |firstArgs[id]| :: (id, Lower(firstArgs[id][i]))
  }

  lemma GrantsWithout(firstArgs: map<nat, seq<string>>, ids: set<nat>)
    ensures GrantsOf(firstArgs - ids) == set g | g in GrantsOf(firstArgs) && g.0 !in ids
  {
    var rest := firstArgs - ids;
    forall g | g in GrantsOf(firstArgs) && g.0 !in ids
      ensures g in GrantsOf(rest)
    {
      var id, i :| id in firstArgs && 0 <= i < |firstArgs[id]| && g == (id, Lower(firstArgs[id][i]));
      assert id in rest && rest[id] == firstArgs[id];
    }
    forall g | g in GrantsOf(rest)
      ensures g in GrantsOf(firstArgs) && g.0 !in ids
    {
      var id, i :| id in rest && 0 <= i < |rest[id]| && g == (id, Lower(rest[id][i]));
      assert firstArgs[id] == rest[id];
    }
  }

  lemma GrantsWith(firstArgs: map<nat, seq<string>>, id: nat, args: seq<string>, sub: string)
    requires args == if id in firstArgs then firstArgs[id] else []
    ensures GrantsOf(firstArgs[id := args + [sub]]) == GrantsOf(firstArgs) + {(id, Lower(sub))}
  {
    var more := firstArgs[id := args + [sub]];
    forall g | g in GrantsOf(more)
      ensures g in GrantsOf(firstArgs) + {(id, Lower(sub))}
    {
      var k, i :| k in more && 0 <= i < |more[k]| && g == (k, Lower(more[k][i]));
      if k == id && i < |args| {
        assert firstArgs[k][i] == more[k][i];
      } else if k != id {
        assert firstArgs[k][i] == more[k][i];
      }
    }
    forall g | g in GrantsOf(firstArgs)
      ensures g in GrantsOf(more)
    {
      var k, i :| k in firstArgs && 0 <= i < |firstArgs[k]| && g == (k, Lower(firstArgs[k][i]));
      assert more[k][i] == firstArgs[k][i];
    }
    assert more[id][|args|] == sub;
  }

  class Selector {
    const table: Table
    var allowed: set<nat>
    var firstArgs: map<nat, seq<string>>
    var commandRules: string
    ghost var retained: seq<Rule>

    ghost function View(): Perms
      reads this
    {
      Perms(allowed, GrantsOf(firstArgs))
    }

    /** The rule string holds good rules, none made redundant by a later one, and replays to the state. */
    ghost predicate Valid()
      reads this
    {
      && GoodTable(table)
      && commandRules == Render(retained)
      && GoodRules(table, retained) && Settled(retained)
      && View() == Replay(table, Base(FUTURE_BIT in allowed), retained)
    }

    /** `ACLCreateSelector`: no permissions. */
    constructor (t: Table)
      requires GoodTable(t)
      ensures table == t && Valid() && retained == [] && View() == Base(false)
    {
      table := t;
      allowed, firstArgs, commandRules, retained := {}, map[], "", [];
      new;
      assert GrantsOf(map[]) == {};
    }

    // ----- command bits -----

    /** `ACLSetSelectorCommandBit`. */
    method SetCommandBit(id: nat, value: bool)
      modifies this`allowed
      ensures allowed == if value then old(allowed) + Stored({id}) else old(allowed) - Stored({id})
    {
      if id >= COMMAND_BITS {
        return;
      }
      allowed := if value then allowed + {id} else allowed - {id};
    }

    /** `ACLResetFirstArgsForCommand`. */
    method ResetFirstArgs(id: nat)
      modifies this`firstArgs
      ensures firstArgs == old(firstArgs) - {id}
    {
      if id in firstArgs {
        firstArgs := firstArgs - {id};
      }
    }

    /** `ACLChangeSelectorPerm` for a top-level command. */
    method ChangeCommand(cmd: Command, allow: bool)
      modifies this`allowed, this`firstArgs
      ensures allowed == if allow then old(allowed) + CommandEffect(cmd, allow).write
                         else old(allowed) - CommandEffect(cmd, allow).write
      ensures firstArgs == old(firstArgs) - {cmd.id}
    {
      SetCommandBit(cmd.id, allow);
      ResetFirstArgs(cmd.id);
      if cmd.subs.Some? {
        var subs := cmd.subs.value;
        var todo := subs.Keys;
        ghost var done: set<nat> := {};
        while todo != {}
          invariant todo <= subs.Keys
          invariant done == set m | m in subs && m !in todo :: subs[m].id
          invariant allowed == if allow then old(allowed) + Stored({cmd.id} + done)
                               else old(allowed) - Stored({cmd.id} + done)
          invariant firstArgs == old(firstArgs) - {cmd.id}
        {
          var m :| m in todo;
          SetCommandBit(subs[m].id, allow);
          ghost var more := set k | k in subs && k !in todo - {m} :: subs[k].id;
          assert more == done + {subs[m].id};
          done := more;
          todo := todo - {m};
        }
        assert done == SubIds(cmd);
      }
    }

    /** `ACLChangeSelectorPerm` for a subcommand. */
    method ChangeSubcommand(sub: Subcommand, allow: bool)
      modifies this`allowed, this`firstArgs
      ensures allowed == if allow then old(allowed) + Stored({sub.id}) else old(allowed) - Stored({sub.id})
      ensures firstArgs == old(firstArgs) - {sub.id}
    {
      SetCommandBit(sub.id, allow);
      ResetFirstArgs(sub.id);
    }
  
    /** `ACLSetSelectorCommandBitsForCategory` on the subcommands of one command. */
    method SetSubBitsForCategory(cmd: Command, c: string, value: bool)
      requires cmd.subs.Some?
      modifies this`allowed, this`firstArgs
      ensures allowed == if value then old(allowed) + Stored(MemberSubIds(cmd, c))
                         else old(allowed) - Stored(MemberSubIds(cmd, c))
      ensures firstArgs == old(firstArgs) - MemberSubIds(cmd, c)
    {
      var subs := cmd.subs.value;
      var todo := subs.Keys;
      ghost var done: set<nat> := {};
      while todo != {}
        invariant todo <= subs.Keys
        invariant done == set m | m in subs && m !in todo && c in subs[m].categories :: subs[m].id
        invariant allowed == if value then old(allowed) + Stored(done) else old(allowed) - Stored(done)
        invariant firstArgs == old(firstArgs) - done
      {
        var m :| m in todo;
        ghost var more := set k | k in subs && k !in todo - {m} && c in subs[k].categories :: subs[k].id;
        if c in subs[m].categories {
          ChangeSubcommand(subs[m], value);
          assert more == done + {subs[m].id};
        } else {
          assert more == done;
        }
        done := more;
        todo := todo - {m};
      }
      assert done == MemberSubIds(cmd, c);
    }

    /** `ACLSetSelectorCommandBitsForCategory` on the command table. */
    method SetBitsForCategory(c: string, value: bool)
      modifies this`allowed, this`firstArgs
      ensures allowed == if value then old(allowed) + Stored(CategoryIds(table, c))
                         else old(allowed) - Stored(CategoryIds(table, c))
      ensures firstArgs == old(firstArgs) - CategoryResets(table, c)
    {
      hide MemberIds, MemberResets;
      var commands := table.commands;
      var todo := commands.Keys;
      ghost var ids: set<nat>, resets: set<nat> := {}, {};
      while todo != {}
        invariant todo <= commands.Keys
        invariant ids == set n, i | n in commands && n !in todo && i in MemberIds(commands[n], c) :: i
        invariant resets == set n, i | n in commands && n !in todo && i in MemberResets(commands[n], c) :: i
        invariant allowed == if value then old(allowed) + Stored(ids) else old(allowed) - Stored(ids)
        invariant firstArgs == old(firstArgs) - resets
      {
        var n :| n in todo;
        ghost var ids' := set k, i | k in commands && k !in todo - {n} && i in MemberIds(commands[k], c) :: i;
        ghost var resets' := set k, i | k in commands && k !in todo - {n} && i in MemberResets(commands[k], c) :: i;
        assert ids' == ids + MemberIds(commands[n], c);
        assert resets' == resets + MemberResets(commands[n], c);
        SetBitsForMember(commands[n], c, value);
        ids, resets := ids', resets';
        todo := todo - {n};
      }
      assert ids == CategoryIds(table, c);
      assert resets == CategoryResets(table, c);
    }

    /** One command of the table: itself if it is a member, then its subcommands. */
    method SetBitsForMember(cmd: Command, c: string, value: bool)
      modifies this`allowed, this`firstArgs
      ensures allowed == if value then old(allowed) + Stored(MemberIds(cmd, c))
                         else old(allowed) - Stored(MemberIds(cmd, c))
      ensures firstArgs == old(firstArgs) - MemberResets(cmd, c)
    {
      if c in cmd.categories {
        ChangeCommand(cmd, value);
      }
      if cmd.subs.Some? {
        SetSubBitsForCategory(cmd, c, value);
      }
    }

    /** `ACLAddAllowedFirstArg`. */
    method AddAllowedFirstArg(id: nat, sub: string)
      modifies this`firstArgs
      ensures GrantsOf(firstArgs) == old(GrantsOf(firstArgs)) + {(id, Lower(sub))}
    {
      var args := if id in firstArgs then firstArgs[id] else [];
      var items := 0;
      while items < |args|
        invariant 0 <= items <= |args|
        invariant firstArgs == old(firstArgs)
      {
        if Lower(args[items]) == Lower(sub) {
          assert (id, Lower(firstArgs[id][items])) in GrantsOf(firstArgs);
          return;
        }
        items := items + 1;
      }
      GrantsWith(firstArgs, id, args, sub);
      firstArgs := firstArgs[id := args + [sub]];
    }
  
    // ----- rules -----

    /**
     `ACLUpdateCommandRules`, whatever the text was; `rule` is already in lower case. A text that
     is the rendering of plain rules stays one.
     */
    method UpdateCommandRules(rule: string, allow: bool)
      modifies this`commandRules, this`retained
      ensures retained == Retained(old(retained), rule) + [Rule(allow, rule)]
      ensures var left := Edited(old(commandRules), rule);
        commandRules == (if left == "" then "" else left + " ") + Token(Rule(allow, rule))
      ensures old(commandRules == Render(retained) && PlainRules(retained)) ==> commandRules == Render(retained)
    {
      hide Edited, Render, Token;
      ghost var kept := Retained(retained, rule);
      if commandRules == Render(retained) && PlainRules(retained) {
        PlainIsSpaceFree(retained);
        EditedRendered(retained, rule);
      }
      commandRules := RemoveCommandRule(commandRules, rule);
      RenderAppend(kept, [Rule(allow, rule)]);
      RenderOne(Rule(allow, rule));
      RenderEmpty(kept);
      if |commandRules| != 0 {
        commandRules := commandRules + " ";
      }
      commandRules := commandRules + Token(Rule(allow, rule));
      retained := kept + [Rule(allow, rule)];
    }

    /** Carry out a resolved rule on the bitmap and the grants. */
    method ApplyTarget(target: Target, allow: bool)
      requires ValidTarget(table, target) && (target.FirstArg? ==> allow)
      modifies this`allowed, this`firstArgs
      ensures View() == Apply(TargetEffect(table, target, allow), old(View()))
    {
      ghost var e := TargetEffect(table, target, allow);
      ghost var before := firstArgs;
      GrantsWithout(firstArgs, e.reset);
      match target
      case Whole(n) =>
        ChangeCommand(table.commands[n], allow);
      case Sub(n, m) =>
        ChangeSubcommand(table.commands[n].subs.value[m], allow);
      case FirstArg(n, a) =>
        AddAllowedFirstArg(table.commands[n].id, a);
      case Category(c) =>
        SetBitsForCategory(c, allow);
    }

    /** The three branches of `ACLSetSelector` for +command, -command and categories. */
    method ChangeRule(allow: bool, body: string) returns (outcome: Outcome)
      requires Valid()
      modifies this
      ensures Plain(body) ==> Valid()
      ensures commandRules == Render(retained)
      ensures var res := Resolve(table, allow, body);
        if res.Err? then outcome == Failed(res.errno) && View() == old(View()) && retained == old(retained)
        else
          && outcome == Done && ValidTarget(table, res.target)
          && View() == Apply(TargetEffect(table, res.target, allow), old(View()))
          && retained == Retained(old(retained), res.body) + [Rule(allow, res.body)]
    {
      match Resolve(table, allow, body)
      case Err(errno) =>
        return Failed(errno);
      case Ok(target, rule) =>
        ResolvedTargetIsValid(table, allow, body);
        if target.FirstArg? {
          FirstArgIsAllowed(table, allow, body);
        }
        if Plain(body) {
          ChangeKeepsReplay(table, FUTURE_BIT in allowed, retained, allow, body);
        }
        GoodIsPlain(table, retained);
        hide Resolve, TargetEffect, GoodRules, Settled, Replay;
        ApplyTarget(target, allow);
        UpdateCommandRules(rule, allow);
        return Done;
    }

    /** `ACLSetSelector`, for the rules about commands. */
    method SetSelector(op: string) returns (outcome: Outcome)
      requires Valid()
      modifies this
      ensures Plain(op) ==> Valid()
      ensures commandRules == Render(retained)
      ensures State(View(), retained) == Step(table, old(State(View(), retained)), op)
      ensures outcome == StepOutcome(table, op)
    {
      match Classify(op)
      case Other =>
        return NotACommandRule;
      case AllCommands =>
        allowed, firstArgs, commandRules, retained := AllBits(), map[], "", [];
        assert GrantsOf(map[]) == {};
        assert IsBit(FUTURE_BIT);
        return Done;
      case NoCommands =>
        allowed, firstArgs, commandRules, retained := {}, map[], "", [];
        assert GrantsOf(map[]) == {};
        return Done;
      case Change(allow, body) =>
        if Plain(op) {
          PlainTail(op);
        }
        hide Resolve, TargetEffect, Valid;
        outcome := ChangeRule(allow, body);
    }

    /** Start over from +@all or -@all. */
    method StartFrom(all: bool)
      requires Valid()
      modifies this
      ensures Valid() && retained == [] && View() == Base(all)
    {
      ClassifyBase();
      hide Classify, Lower, Valid;
      var outcome := SetSelector(if all then "+@all" else "-@all");
    }

    /** Give the next retained rule again. */
    method ReapplyNext(arg: string, all: bool, ghost rules: seq<Rule>, ghost i: nat) returns (ok: bool)
      requires Valid() && i < |rules| && retained == rules[..i] && (FUTURE_BIT in allowed <==> all)
      requires GoodRules(table, rules) && Settled(rules) && arg == Token(rules[i])
      modifies this
      ensures ok && Valid() && retained == rules[..i + 1] && (FUTURE_BIT in allowed <==> all)
    {
      GoodToken(table, rules, i);
      StepToken(table, State(View(), retained), rules, i);
      hide Step, StepOutcome, Classify, GoodRules, Settled, Replay, Token;
      var res := SetSelector(arg);
      ok := res == Done;
      StepFutureBit(table, old(State(View(), retained)), rules, i);
    }

    /** Apply split rules one by one, as the describing and the recomputing code do. */
    method Reapply(argv: seq<string>, all: bool, ghost rules: seq<Rule>) returns (ok: bool)
      requires Valid() && retained == [] && View() == Base(all)
      requires GoodRules(table, rules) && Settled(rules) && argv == Tokens(rules)
      modifies this
      ensures ok && Valid() && retained == rules
      ensures View() == Replay(table, Base(all), rules)
    {
      ok := true;
      TokensAt(rules);
      assert IsBit(FUTURE_BIT);
      hide GoodRules, Settled, Replay, Token, Tokens;
      for i := 0 to |argv|
        invariant Valid() && ok && retained == rules[..i]
        invariant FUTURE_BIT in allowed <==> all
      {
        ok := ReapplyNext(argv[i], all, rules, i);
      }
      assert rules[..|argv|] == rules;
    }

    /** The sanity check of the describing code: replay the rule string on a scratch selector. */
    method ReplayDiffers() returns (differs: bool)
      requires Valid()
      ensures !differs
    {
      SplitsBackExactly(retained);
      GoodIsPlain(table, retained);
      hide Replay, GoodRules, Settled, PlainRules, Render, Base, SplitArgs, Tokens;
      var all := FUTURE_BIT in allowed;
      var fake := new Selector(table);
      fake.StartFrom(all);
      var argv := SplitArgs(commandRules);
      var ok := fake.Reapply(argv.value, all, retained);
      assert ok;
      differs := fake.allowed != allowed;
    }

    /**
     `ACLDescribeSelectorCommandRules`: the text that recreates the bitmap. The check that ends
     in a panic never fails.
     */
    method Describe() returns (rules: string, panic: bool)
      requires Valid()
      ensures !panic
      ensures rules == (if FUTURE_BIT in allowed then "+@all" else "-@all")
                       + (if commandRules == "" then "" else " " + commandRules)
    {
      panic := ReplayDiffers();
      rules := if FUTURE_BIT in allowed then "+@all " else "-@all ";
      assert rules[..5] == if FUTURE_BIT in allowed then "+@all" else "-@all";
      rules := DescribeText(rules, commandRules);
    }

    /** `ACLRecomputeCommandBitsFromCommandRulesAllUsers`, for one selector: nothing changes. */
    method Recompute() returns (ok: bool)
      requires Valid()
      modifies this
      ensures ok && Valid()
      ensures allowed == old(allowed) && GrantsOf(firstArgs) == old(GrantsOf(firstArgs))
      ensures commandRules == old(commandRules)
    {
      SplitsBackExactly(retained);
      GoodIsPlain(table, retained);
      hide Replay, GoodRules, Settled, PlainRules, Render, Base, SplitArgs, Tokens;
      ghost var rules := retained;
      var argv, all := SplitArgs(commandRules), FUTURE_BIT in allowed;
      StartFrom(all);
      ok := Reapply(argv.value, all, rules);
    }
  }

  /** The base rule, the retained rules if any, and no trailing space. */
  function DescribeText(start: string, commandRules: string): (text: string)
    requires start != "" && start[|start| - 1] == ' '
    ensures text == start[..|start| - 1] + (if commandRules == "" then "" else " " + commandRules)
  {
    var text := if |commandRules| != 0 then start + commandRules + " " else start;
    assert start == start[..|start| - 1] + " ";
    text[..|text| - 1]
  }

  /** No rule but +@all and -@all touches the reserved bit. */
  lemma StepFutureBit(t: Table, s: State, rules: seq<Rule>, i: nat)
    requires GoodTable(t) && GoodRules(t, rules) && i < |rules|
    ensures FUTURE_BIT in Step(t, s, Token(rules[i])).perms.allowed <==> FUTURE_BIT in s.perms.allowed
  {
    var r := rules[i];
    ClassifyToken(t, r);
    ResolvedTargetIsValid(t, r.allow, r.body);
    FutureBitIsNotWritten(t, Resolve(t, r.allow, r.body).target, r.allow);
    hide Classify, Token;
  }

  lemma GoodToken(t: Table, rules: seq<Rule>, i: nat)
    requires GoodTable(t) && GoodRules(t, rules) && i < |rules|
    ensures Plain(Token(rules[i]))
  {
    ClassifyToken(t, rules[i]);
  }

  lemma FirstArgIsAllowed(t: Table, allow: bool, body: string)
    requires Resolve(t, allow, body).Ok? && Resolve(t, allow, body).target.FirstArg?
    ensures allow
  {
  }

  lemma PlainTail(op: string)
    requires Plain(op) && op != ""
    ensures Plain(op[1..])
  {
  }

  lemma RenderEmpty(rules: seq<Rule>)
    ensures |Render(rules)| == 0 <==> rules == []
  {
  }

  lemma PlainIsSpaceFree(rules: seq<Rule>)
    requires PlainRules(rules)
    ensures SpaceFree(rules)
  {
    forall i | 0 <= i < |rules|
      ensures ' ' !in rules[i].body
    {
      assert Plain(rules[i].body);
    }
  }

  /** The process-wide assignment of command identifiers, which index the bitmap. */
  class CommandIds {
    var ids: map<string, nat>
    var nextId: nat

    /** Distinct names have distinct identifiers, none of them the reserved one. */
    ghost predicate Valid()
      reads this
    {
      && nextId != FUTURE_BIT
      && (forall n :: n in ids ==> ids[n] < nextId && ids[n] != FUTURE_BIT)
      && (forall m, n :: m in ids && n in ids && m != n ==> ids[m] != ids[n])
    }

    constructor ()
      ensures Valid() && ids == map[]
    {
      ids, nextId := map[], 0;
    }

    /** `ACLGetCommandID`: the identifier a name already has, or the next one. */
    method GetCommandID(name: string) returns (id: nat)
      requires Valid()
      modifies this
      ensures Valid()
      ensures Lower(name) in ids && ids[Lower(name)] == id
      ensures forall n :: n in old(ids) ==> n in ids && ids[n] == old(ids)[n]
      ensures forall n :: n in ids ==> n in old(ids) || n == Lower(name)
    {
      var lower := Lower(name);
      if lower in ids {
        return ids[lower];
      }
      ids := ids[lower := nextId];
      id := nextId;
      nextId := nextId + 1;
      if nextId == COMMAND_BITS - 1 {
        nextId := nextId + 1;
      }
    }
  }
}
