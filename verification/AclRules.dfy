/**
 What ACL command rules mean (acl.c): each rule resolves against the command table to a set of
 command bits it assigns, and first-argument grants it drops or adds. The retained rules of a
 selector, replayed from its base, give back its permissions.
 */
module AclRules {
  import opened Common
  import opened AclText

  // The bitmap has one reserved bit, set only by +@all.
  const COMMAND_BITS := 1024
  const FUTURE_BIT := COMMAND_BITS - 1

  // ----- the command table -----

  datatype Subcommand = Subcommand(id: nat, categories: set<string>)

  datatype Command = Command(id: nat, categories: set<string>, subs: Option<map<string, Subcommand>>)

  /** Commands by lower-case name, one level of subcommands, and the known categories. */
  datatype Table = Table(commands: map<string, Command>, categories: set<string>)

  ghost predicate GoodName(n: string) {
    n != "" && Lower(n) == n && Plain(n) && '|' !in n && '@' !in n
  }

  ghost predicate HasSub(t: Table, n: string, m: string) {
    n in t.commands && t.commands[n].subs.Some? && m in t.commands[n].subs.value
  }

  /** Commands that can carry first-argument grants: those without subcommands. */
  ghost function FirstArgIds(t: Table): set<nat> {
    set n | n in t.commands && t.commands[n].subs.None? :: t.commands[n].id
  }

  /** Names are lower case and free of separators; identifiers follow `CommandIds`. */
  ghost predicate GoodTable(t: Table) {
    && (forall n :: n in t.commands ==> GoodName(n) && t.commands[n].id != FUTURE_BIT)
    && (forall n, m :: HasSub(t, n, m) ==>
          GoodName(m) && t.commands[n].subs.value[m].id != FUTURE_BIT
          && t.commands[n].subs.value[m].id !in FirstArgIds(t))
    && (forall c :: c in t.categories ==> GoodName(c) && c != "all")
  }

  // ----- resolving a rule -----

  datatype Target =
    | Whole(name: string)
    | Sub(name: string, sub: string)
    | FirstArg(name: string, arg: string)
    | Category(category: string)

  datatype Errno = ENOENT | ECHILD | EINVAL

  datatype Resolution = Ok(target: Target, body: string) | Err(errno: Errno)

  function LastBar(s: string): (i: int)
    ensures -1 <= i < |s|
    ensures i >= 0 ==> s[i] == '|'
    ensures forall j :: i < j < |s| ==> s[j] != '|'
  {
    if s == "" then -1
    else if s[|s| - 1] == '|' then |s| - 1
    else LastBar(s[..|s| - 1])
  }

  /** `ACLLookupCommand`: at most one bar, names compared without regard to case. */
  function Lookup(t: Table, s: string): (r: Option<Target>)
    ensures r.Some? ==> r.value.Whole? || r.value.Sub?
    ensures r.Some? ==> r.value.name in t.commands
    ensures r.Some? && r.value.Sub? ==>
      t.commands[r.value.name].subs.Some? && r.value.sub in t.commands[r.value.name].subs.value
  {
    var bar := LastBar(s);
    if bar < 0 then
      var n := Lower(s);
      if n in t.commands then Some(Whole(n)) else None
    else
      var n, m := Lower(s[..bar]), Lower(s[bar + 1..]);
      if '|' !in n && n in t.commands && t.commands[n].subs.Some? && m in t.commands[n].subs.value
      then Some(Sub(n, m)) else None
  }

  function FullName(target: Target): string
    requires target.Whole? || target.Sub?
  {
    match target
    case Whole(n) => n
    case Sub(n, m) => n + "|" + m
  }

  /** `+command|word`: a subcommand if the command has any, else a first argument. */
  function ResolveBarred(t: Table, body: string): (r: Resolution)
    requires LastBar(body) >= 0
  {
    var bar := LastBar(body);
    ResolveParts(t, body, body[..bar], body[bar + 1..])
  }

  function ResolveParts(t: Table, body: string, copy: string, sub: string): (r: Resolution) {
    match Lookup(t, copy)
    case None => Err(ENOENT)
    case Some(Sub(_, _)) => Err(ECHILD)
    case Some(cmd) =>
      if sub == "" then Err(EINVAL)
      else if t.commands[cmd.name].subs.Some? then
        match Lookup(t, body)
        case None => Err(ENOENT)
        case Some(s) => Ok(s, Lower(body))
      else Ok(FirstArg(cmd.name, sub), Lower(body))
  }

  function ResolveNamed(t: Table, body: string): (r: Resolution) {
    match Lookup(t, body)
    case None => Err(ENOENT)
    case Some(cmd) => Ok(cmd, Lower(FullName(cmd)))
  }

  function ResolveCategory(t: Table, body: string): (r: Resolution)
    requires body != ""
  {
    var c := Lower(body[1..]);
    if c in t.categories then Ok(Category(c), Lower(body)) else Err(ENOENT)
  }

  /** The command cases of `ACLSetSelector`, up to the point where the selector is changed. */
  function Resolve(t: Table, allow: bool, body: string): (r: Resolution) {
    if body != "" && body[0] == '@' then ResolveCategory(t, body)
    else if allow && LastBar(body) >= 0 then ResolveBarred(t, body)
    else ResolveNamed(t, body)
  }

  // ----- effects -----

  /** Command bits and first-argument grants; grants compare without regard to case. */
  datatype Perms = Perms(allowed: set<nat>, grants: set<(nat, string)>)

  datatype Effect = Effect(write: set<nat>, value: bool, reset: set<nat>, add: set<(nat, string)>)

  function Apply(e: Effect, p: Perms): Perms {
    Perms(if e.value then p.allowed + e.write else p.allowed - e.write,
          (set g | g in p.grants && g.0 !in e.reset) + e.add)
  }

  function SubIds(c: Command): set<nat> {
    if c.subs.None? then {} else set m | m in c.subs.value :: c.subs.value[m].id
  }

  /** Bits past the end of the bitmap are not stored. */
  function Stored(ids: set<nat>): set<nat> {
    set i | i in ids && i < COMMAND_BITS
  }

  /** `ACLChangeSelectorPerm`: the command and its subcommands; only its own grants are dropped. */
  function CommandEffect(c: Command, allow: bool): Effect {
    Effect(Stored({c.id} + SubIds(c)), allow, {c.id}, {})
  }

  function SubEffect(s: Subcommand, allow: bool): Effect {
    Effect(Stored({s.id}), allow, {s.id}, {})
  }

  /** Subcommands that are themselves in the category. */
  function MemberSubIds(cmd: Command, c: string): set<nat> {
    if cmd.subs.None? then {}
    else set m | m in cmd.subs.value && c in cmd.subs.value[m].categories :: cmd.subs.value[m].id
  }

  /** A member command is written with all its subcommands, a member subcommand alone. */
  function MemberIds(cmd: Command, c: string): set<nat> {
    (if c in cmd.categories then {cmd.id} + SubIds(cmd) else {}) + MemberSubIds(cmd, c)
  }

  function MemberResets(cmd: Command, c: string): set<nat> {
    (if c in cmd.categories then {cmd.id} else {}) + MemberSubIds(cmd, c)
  }

  function CategoryIds(t: Table, c: string): set<nat> {
    set n, i | n in t.commands && i in MemberIds(t.commands[n], c) :: i
  }

  function CategoryResets(t: Table, c: string): set<nat> {
    set n, i | n in t.commands && i in MemberResets(t.commands[n], c) :: i
  }

  predicate ValidTarget(t: Table, target: Target) {
    match target
    case Whole(n) => n in t.commands
    case Sub(n, m) => n in t.commands && t.commands[n].subs.Some? && m in t.commands[n].subs.value
    case FirstArg(n, _) => n in t.commands && t.commands[n].subs.None?
    case Category(c) => c in t.categories
  }

  function TargetEffect(t: Table, target: Target, allow: bool): Effect
    requires ValidTarget(t, target)
  {
    match target
    case Whole(n) => CommandEffect(t.commands[n], allow)
    case Sub(n, m) => SubEffect(t.commands[n].subs.value[m], allow)
    case FirstArg(n, a) => Effect({}, true, {}, {(t.commands[n].id, Lower(a))})
    case Category(c) => Effect(Stored(CategoryIds(t, c)), allow, CategoryResets(t, c), {})
  }

  lemma ResolvedTargetIsValid(t: Table, allow: bool, body: string)
    requires Resolve(t, allow, body).Ok?
    ensures ValidTarget(t, Resolve(t, allow, body).target)
  {
  }

  // ----- retained rules -----

  /** A rule as it is retained: it resolves, to exactly its own text, and is plain. */
  ghost predicate GoodRule(t: Table, r: Rule) {
    var res := Resolve(t, r.allow, r.body);
    res.Ok? && res.body == r.body && Plain(r.body)
  }

  ghost function RuleEffect(t: Table, r: Rule): Effect
    requires GoodRule(t, r)
  {
    ResolvedTargetIsValid(t, r.allow, r.body);
    TargetEffect(t, Resolve(t, r.allow, r.body).target, r.allow)
  }

  ghost predicate GoodRules(t: Table, rules: seq<Rule>) {
    forall i :: 0 <= i < |rules| ==> GoodRule(t, rules[i])
  }

  /** The permissions after applying `rules` in order. */
  ghost function Replay(t: Table, base: Perms, rules: seq<Rule>): Perms
    requires GoodRules(t, rules)
  {
    if rules == [] then base
    else Apply(RuleEffect(t, rules[|rules| - 1]), Replay(t, base, rules[..|rules| - 1]))
  }

  ghost predicate GrantsAreFirstArgs(t: Table, p: Perms) {
    forall g :: g in p.grants ==> g.0 in FirstArgIds(t)
  }

  // Two states that differ only where an effect writes are made equal by it.

  ghost predicate AgreeOutside(e: Effect, p: Perms, q: Perms) {
    && (forall i: nat :: i !in e.write ==> (i in p.allowed <==> i in q.allowed))
    && (forall g: (nat, string) :: g.0 !in e.reset && g !in e.add ==> (g in p.grants <==> g in q.grants))
  }

  lemma AgreeAfter(e: Effect, f: Effect, p: Perms, q: Perms)
    requires AgreeOutside(e, p, q)
    ensures AgreeOutside(e, Apply(f, p), Apply(f, q))
  {
  }

  lemma AgreeThenEqual(e: Effect, p: Perms, q: Perms)
    requires AgreeOutside(e, p, q)
    ensures Apply(e, p) == Apply(e, q)
  {
    assert Apply(e, p).grants == Apply(e, q).grants;
  }

  /** Whatever `prior` did is written over by `e`. */
  ghost predicate Covers(t: Table, e: Effect, prior: Effect) {
    && prior.write <= e.write
    && prior.reset * FirstArgIds(t) <= e.reset
    && (forall g :: g in prior.add ==> g.0 in e.reset || g in e.add)
  }

  lemma CoveredIsInvisible(t: Table, e: Effect, prior: Effect, p: Perms)
    requires Covers(t, e, prior) && GrantsAreFirstArgs(t, p)
    ensures AgreeOutside(e, p, Apply(prior, p))
  {
  }

  lemma AgreeTransitive(e: Effect, p: Perms, q: Perms, r: Perms)
    requires AgreeOutside(e, p, q) && AgreeOutside(e, q, r)
    ensures AgreeOutside(e, p, r)
  {
  }

  lemma {:induction false} ReplayGrants(t: Table, base: Perms, rules: seq<Rule>)
    requires GoodTable(t) && GoodRules(t, rules) && GrantsAreFirstArgs(t, base)
    ensures GrantsAreFirstArgs(t, Replay(t, base, rules))
  {
    if rules != [] {
      ReplayGrants(t, base, rules[..|rules| - 1]);
      var r := rules[|rules| - 1];
      ResolvedTargetIsValid(t, r.allow, r.body);
    }
  }

  // ----- which rule covers which -----

  lemma LowerKeepsBars(s: string)
    ensures '|' in Lower(s) <==> '|' in s
  {
    if '|' in s {
      var i :| 0 <= i < |s| && s[i] == '|';
      assert Lower(s)[i] == '|';
    }
    if '|' in Lower(s) {
      var i :| 0 <= i < |s| && Lower(s)[i] == '|';
      assert s[i] == '|';
    }
  }

  /** The text names the target's command, and has no bar but the one the target accounts for. */
  ghost predicate Shaped(body: string, target: Target) {
    var bar := LastBar(body);
    match target
    case Category(c) => body != "" && body[0] == '@' && '|' !in body
    case Whole(n) => n == Lower(body) && '|' !in body
    case Sub(n, _) => 0 <= bar && n == Lower(body[..bar]) && '|' !in body[..bar]
    case FirstArg(n, _) => 0 <= bar && n == Lower(body[..bar]) && '|' !in body[..bar]
  }

  lemma LookupShaped(t: Table, s: string)
    requires Lookup(t, s).Some?
    ensures Shaped(s, Lookup(t, s).value)
  {
    var bar := LastBar(s);
    if bar >= 0 {
      LowerKeepsBars(s[..bar]);
    }
  }

  lemma BarredShaped(t: Table, body: string)
    requires LastBar(body) >= 0 && ResolveBarred(t, body).Ok?
    ensures Shaped(body, ResolveBarred(t, body).target)
  {
    var bar := LastBar(body);
    LookupShaped(t, body[..bar]);
    if Lookup(t, body).Some? {
      LookupShaped(t, body);
    }
    var target := ResolveBarred(t, body).target;
    if target.FirstArg? {
      assert '|' !in body[..bar];
    } else {
      hide Lookup;
    }
  }

  lemma CategoryShaped(t: Table, body: string)
    requires GoodTable(t) && body != "" && body[0] == '@' && ResolveCategory(t, body).Ok?
    ensures Shaped(body, ResolveCategory(t, body).target)
  {
    hide GoodTable, LastBar, Lower, GoodName;
    var c := Lower(body[1..]);
    GoodCategory(t, c);
    NoBarInName(c);
    LowerKeepsBars(body[1..]);
    assert body == ['@'] + body[1..];
  }

  lemma GoodCategory(t: Table, c: string)
    requires GoodTable(t) && c in t.categories
    ensures GoodName(c)
  {
  }

  lemma NoBarInName(c: string)
    requires GoodName(c)
    ensures '|' !in c
  {
  }

  lemma NamedShaped(t: Table, body: string)
    requires ResolveNamed(t, body).Ok?
    ensures Shaped(body, ResolveNamed(t, body).target)
  {
    LookupShaped(t, body);
    hide Shaped;
  }

  lemma RetainedShape(t: Table, r: Rule)
    requires GoodTable(t) && GoodRule(t, r)
    ensures Shaped(r.body, Resolve(t, r.allow, r.body).target)
  {
    hide Shaped, ResolveCategory, ResolveBarred, ResolveNamed, GoodTable;
    var body := r.body;
    if body != "" && body[0] == '@' {
      CategoryShaped(t, body);
    } else if r.allow && LastBar(body) >= 0 {
      BarredShaped(t, body);
    } else {
      NamedShaped(t, body);
    }
  }

  /** A target covers itself, and a whole command covers its subcommands and first arguments. */
  ghost predicate WithinTarget(target: Target, prior: Target) {
    prior == target || (target.Whole? && (prior.Sub? || prior.FirstArg?) && prior.name == target.name)
  }

  lemma WithinIsCovered(t: Table, target: Target, allow: bool, prior: Target, priorAllow: bool)
    requires GoodTable(t) && ValidTarget(t, target) && ValidTarget(t, prior)
    requires WithinTarget(target, prior)
    ensures Covers(t, TargetEffect(t, target, allow), TargetEffect(t, prior, priorAllow))
  {
    if prior.Sub? && prior != target {
      assert HasSub(t, prior.name, prior.sub);
    }
  }

  lemma SameBodyIsWithin(t: Table, r: Rule, prior: Rule)
    requires GoodTable(t) && GoodRule(t, r) && GoodRule(t, prior) && prior.body == r.body
    ensures WithinTarget(Resolve(t, r.allow, r.body).target, Resolve(t, prior.allow, prior.body).target)
  {
  }

  lemma LongerBodyIsWithin(t: Table, r: Rule, prior: Rule)
    requires GoodTable(t) && GoodRule(t, r) && GoodRule(t, prior)
    requires |prior.body| > |r.body| && prior.body[..|r.body|] == r.body && prior.body[|r.body|] == '|'
    ensures WithinTarget(Resolve(t, r.allow, r.body).target, Resolve(t, prior.allow, prior.body).target)
  {
    var k := |r.body|;
    RetainedShape(t, r);
    RetainedShape(t, prior);
    var target := Resolve(t, r.allow, r.body).target;
    var within := Resolve(t, prior.allow, prior.body).target;
    hide Resolve, GoodRule;
    var bar := LastBar(prior.body);
    assert '|' in prior.body;
    assert bar >= k;
    assert forall i :: 0 <= i < bar ==> prior.body[..bar][i] == prior.body[i];
    assert prior.body[..bar] == r.body;
    assert |r.body| > 0 ==> prior.body[0] == r.body[0];
  }

  lemma SupersededIsCovered(t: Table, r: Rule, prior: Rule)
    requires GoodTable(t) && GoodRule(t, r) && GoodRule(t, prior)
    requires Supersedes(r.body, prior.body)
    ensures Covers(t, RuleEffect(t, r), RuleEffect(t, prior))
  {
    ResolvedTargetIsValid(t, r.allow, r.body);
    ResolvedTargetIsValid(t, prior.allow, prior.body);
    if prior.body == r.body {
      SameBodyIsWithin(t, r, prior);
    } else {
      LongerBodyIsWithin(t, r, prior);
    }
    hide Resolve, TargetEffect, Covers;
    WithinIsCovered(t, Resolve(t, r.allow, r.body).target, r.allow,
                    Resolve(t, prior.allow, prior.body).target, prior.allow);
  }

  // ----- replaying retained rules -----

  lemma {:induction false} RetainedReplay(t: Table, base: Perms, rules: seq<Rule>, r: Rule)
    requires GoodTable(t) && GoodRules(t, rules) && GoodRule(t, r) && GrantsAreFirstArgs(t, base)
    ensures GoodRules(t, Retained(rules, r.body))
    ensures AgreeOutside(RuleEffect(t, r), Replay(t, base, Retained(rules, r.body)), Replay(t, base, rules))
  {
    hide Supersedes, RuleEffect, Apply, AgreeOutside, GoodRule;
    var e := RuleEffect(t, r);
    if rules == [] {
      AgreeRefl(e, base);
    } else {
      var front, last := rules[..|rules| - 1], rules[|rules| - 1];
      assert rules == front + [last];
      RetainedAppend(front, [last], r.body);
      RetainedOne(last, r.body);
      RetainedReplay(t, base, front, r);
      var kept := Retained(front, r.body);
      var p, q := Replay(t, base, kept), Replay(t, base, front);
      if Supersedes(r.body, last.body) {
        assert kept + [] == kept;
        SupersededIsCovered(t, r, last);
        ReplayGrants(t, base, front);
        CoveredIsInvisible(t, e, RuleEffect(t, last), q);
        AgreeTransitive(e, p, q, Replay(t, base, rules));
      } else {
        assert (kept + [last])[..|kept|] == kept;
        AgreeAfter(e, RuleEffect(t, last), p, q);
      }
    }
  }

  lemma AgreeRefl(e: Effect, p: Perms)
    ensures AgreeOutside(e, p, p)
  {
  }

  /** Dropping the superseded rules and appending the new one replays to the new permissions. */
  lemma ReplayAfterUpdate(t: Table, base: Perms, rules: seq<Rule>, r: Rule)
    requires GoodTable(t) && GoodRules(t, rules) && GoodRule(t, r) && GrantsAreFirstArgs(t, base)
    ensures GoodRules(t, Retained(rules, r.body) + [r])
    ensures Replay(t, base, Retained(rules, r.body) + [r]) == Apply(RuleEffect(t, r), Replay(t, base, rules))
  {
    RetainedReplay(t, base, rules, r);
    var kept := Retained(rules, r.body);
    assert (kept + [r])[..|kept|] == kept;
    AgreeThenEqual(RuleEffect(t, r), Replay(t, base, kept), Replay(t, base, rules));
  }

  // ----- a retained rule resolves to itself -----

  lemma LowerSlices(s: string, i: nat)
    requires i <= |s|
    ensures Lower(s)[..i] == Lower(s[..i]) && Lower(s)[i..] == Lower(s[i..])
  {
  }

  lemma LowerLastBar(s: string)
    ensures LastBar(Lower(s)) == LastBar(s)
  {
    var i, j := LastBar(s), LastBar(Lower(s));
    assert forall k :: 0 <= k < |s| ==> (Lower(s)[k] == '|' <==> s[k] == '|');
    assert j >= 0 ==> s[j] == '|';
    assert i >= 0 ==> Lower(s)[i] == '|';
  }

  lemma LookupLower(t: Table, s: string)
    ensures Lookup(t, Lower(s)) == Lookup(t, s)
  {
    LowerLastBar(s);
    LowerTwice(s);
    var bar := LastBar(s);
    if bar >= 0 {
      LowerSlices(s, bar);
      LowerSlices(s, bar + 1);
      LowerTwice(s[..bar]);
      LowerTwice(s[bar + 1..]);
    }
  }

  lemma LowerConcat(a: string, b: string)
    ensures Lower(a + b) == Lower(a) + Lower(b)
  {
  }

  lemma PlainConcat(a: string, b: string)
    requires Plain(a) && Plain(b)
    ensures Plain(a + b)
  {
  }

  lemma BarSplit(n: string, m: string)
    requires '|' !in n && '|' !in m
    ensures var f := n + "|" + m;
      LastBar(f) == |n| && f[..|n|] == n && f[|n| + 1..] == m
  {
    var f := n + "|" + m;
    assert f[|n|] == '|';
    assert forall i :: |n| + 1 <= i < |f| ==> f[i] == m[i - |n| - 1];
  }

  lemma SubFullName(n: string, m: string)
    requires GoodName(n) && GoodName(m)
    ensures var f := n + "|" + m;
      && Lower(f) == f && Plain(f) && LastBar(f) == |n| && f[..|n|] == n && f[|n| + 1..] == m
  {
    BarSplit(n, m);
    PlainConcat(n, "|");
    PlainConcat(n + "|", m);
    LowerConcat(n, "|");
    LowerConcat(n + "|", m);
    assert Lower("|") == "|";
    hide LastBar, Lower, Plain;
  }

  lemma LookupFullName(t: Table, target: Target)
    requires GoodTable(t) && ValidTarget(t, target) && (target.Whole? || target.Sub?)
    ensures Lower(FullName(target)) == FullName(target)
    ensures Lookup(t, FullName(target)) == Some(target)
    ensures Plain(FullName(target)) && FullName(target) != "" && FullName(target)[0] != '@'
    ensures target.Whole? ==> LastBar(FullName(target)) == -1
  {
    var n := target.name;
    assert GoodName(n);
    if target.Sub? {
      assert HasSub(t, n, target.sub);
      SubFullName(n, target.sub);
      hide GoodTable, LastBar;
      assert n[0] in n && FullName(target)[0] == n[0];
    } else {
      assert n[0] in n;
    }
  }

  ghost predicate SameMeaning(t: Table, allow: bool, a: Resolution, b: Resolution) {
    && a.Ok? && b.Ok? && a.body == b.body
    && ValidTarget(t, a.target) && ValidTarget(t, b.target)
    && TargetEffect(t, a.target, allow) == TargetEffect(t, b.target, allow)
  }

  lemma ResolvePartsLower(t: Table, body: string, copy: string, sub: string)
    requires ResolveParts(t, body, copy, sub).Ok?
    ensures var res := ResolveParts(t, body, copy, sub);
      ResolveParts(t, Lower(body), Lower(copy), Lower(sub))
      == Ok(if res.target.FirstArg? then FirstArg(res.target.name, Lower(res.target.arg)) else res.target, res.body)
  {
    LookupLower(t, copy);
    LookupLower(t, body);
    LowerTwice(body);
    assert |Lower(sub)| == |sub|;
    hide Lookup, Lower;
  }

  lemma ResolveBarredLower(t: Table, body: string)
    requires LastBar(body) >= 0 && ResolveBarred(t, body).Ok?
    ensures LastBar(Lower(body)) >= 0
    ensures var res := ResolveBarred(t, body);
      ResolveBarred(t, Lower(body))
      == Ok(if res.target.FirstArg? then FirstArg(res.target.name, Lower(res.target.arg)) else res.target, res.body)
  {
    var bar := LastBar(body);
    LowerLastBar(body);
    LowerSlices(body, bar);
    LowerSlices(body, bar + 1);
    ResolvePartsLower(t, body, body[..bar], body[bar + 1..]);
    hide ResolveParts;
  }

  lemma ResolveBarredAgain(t: Table, body: string)
    requires LastBar(body) >= 0 && ResolveBarred(t, body).Ok?
    ensures LastBar(Lower(body)) >= 0
    ensures SameMeaning(t, true, ResolveBarred(t, body), ResolveBarred(t, Lower(body)))
  {
    ResolveBarredLower(t, body);
    var target := ResolveBarred(t, body).target;
    BarredTargetIsValid(t, body);
    if target.FirstArg? {
      LowerTwice(target.arg);
    }
    hide ResolveBarred;
  }

  lemma BarredTargetIsValid(t: Table, body: string)
    requires LastBar(body) >= 0 && ResolveBarred(t, body).Ok?
    ensures ValidTarget(t, ResolveBarred(t, body).target)
  {
  }

  /** Resolving the retained text gives the same text and the same effect again. */
  lemma ResolveAgain(t: Table, allow: bool, body: string)
    requires GoodTable(t) && Resolve(t, allow, body).Ok?
    ensures var res := Resolve(t, allow, body);
      SameMeaning(t, allow, res, Resolve(t, allow, res.body))
  {
    var res := Resolve(t, allow, body);
    ResolvedTargetIsValid(t, allow, body);
    if body != "" && body[0] == '@' {
      LowerTwice(body);
      LowerSlices(body, 1);
      LowerTwice(body[1..]);
    } else if allow && LastBar(body) >= 0 {
      ResolveBarredAgain(t, body);
      hide ResolveBarred, SameMeaning;
      ResolveBarredBody(t, body);
      assert Lower(body) != "" && Lower(body)[0] == LowerChar(body[0]);
    } else {
      LookupFullName(t, res.target);
      hide Lookup;
    }
  }

  lemma ResolveBarredBody(t: Table, body: string)
    requires LastBar(body) >= 0 && ResolveBarred(t, body).Ok?
    ensures ResolveBarred(t, body).body == Lower(body)
  {
  }

  /** The rule retained for `body`: plain whenever the text given was. */
  lemma RetainedRuleIsGood(t: Table, allow: bool, body: string)
    requires GoodTable(t) && Resolve(t, allow, body).Ok? && Plain(body)
    ensures GoodRule(t, Rule(allow, Resolve(t, allow, body).body))
  {
    ResolveAgain(t, allow, body);
    var res := Resolve(t, allow, body);
    if !(|body| > 0 && body[0] == '@') && !(allow && LastBar(body) >= 0) {
      ResolvedTargetIsValid(t, allow, body);
      LookupFullName(t, res.target);
    }
  }

  // ----- retained rules do not supersede one another -----

  ghost predicate Settled(rules: seq<Rule>) {
    forall i, j :: 0 <= i < j < |rules| ==> !Supersedes(rules[j].body, rules[i].body)
  }

  lemma {:induction false} NothingSuperseded(rules: seq<Rule>, newRule: string)
    requires forall i :: 0 <= i < |rules| ==> !Supersedes(newRule, rules[i].body)
    ensures Retained(rules, newRule) == rules
  {
    if rules != [] {
      NothingSuperseded(rules[1..], newRule);
    }
  }

  lemma {:induction false} RetainedSettled(rules: seq<Rule>, newRule: string)
    requires Settled(rules)
    ensures Settled(Retained(rules, newRule))
  {
    if rules != [] {
      RetainedSettled(rules[1..], newRule);
      var kept := Retained(rules[1..], newRule);
      forall j | 0 <= j < |kept|
        ensures !Supersedes(kept[j].body, rules[0].body)
      {
        assert kept[j] in rules[1..];
        var k :| 0 <= k < |rules[1..]| && rules[1..][k] == kept[j];
        assert rules[k + 1] == kept[j];
      }
    }
  }

  lemma UpdatedSettled(rules: seq<Rule>, r: Rule)
    requires Settled(rules)
    ensures Settled(Retained(rules, r.body) + [r])
  {
    RetainedSettled(rules, r.body);
    var kept := Retained(rules, r.body);
    forall i | 0 <= i < |kept|
      ensures !Supersedes(r.body, kept[i].body)
    {
      assert kept[i] in kept;
    }
  }

  // ----- the base of a selector -----

  predicate IsBit(i: nat) { i < COMMAND_BITS }

  function AllBits(): set<nat> {
    set i: nat | i < COMMAND_BITS && IsBit(i)
  }

  /** The permissions right after +@all or -@all. */
  function Base(all: bool): Perms { Perms(if all then AllBits() else {}, {}) }

  lemma {:induction false} FutureBitIsTheBase(t: Table, all: bool, rules: seq<Rule>)
    requires GoodTable(t) && GoodRules(t, rules)
    ensures FUTURE_BIT in Replay(t, Base(all), rules).allowed <==> all
  {
    if rules != [] {
      FutureBitIsTheBase(t, all, rules[..|rules| - 1]);
      var r := rules[|rules| - 1];
      ResolvedTargetIsValid(t, r.allow, r.body);
      FutureBitIsNotWritten(t, Resolve(t, r.allow, r.body).target, r.allow);
    }
  }

  lemma FutureBitIsNotWritten(t: Table, target: Target, allow: bool)
    requires GoodTable(t) && ValidTarget(t, target)
    ensures FUTURE_BIT !in TargetEffect(t, target, allow).write
  {
    assert forall n, m :: HasSub(t, n, m) ==> t.commands[n].subs.value[m].id != FUTURE_BIT;
    match target
    case Whole(n) =>
      assert FUTURE_BIT !in SubIds(t.commands[n]) by { SubIdsAreSubs(t, n); }
    case Sub(n, m) =>
      assert HasSub(t, n, m);
    case FirstArg(n, a) =>
    case Category(c) =>
      forall n | n in t.commands
        ensures FUTURE_BIT !in MemberIds(t.commands[n], c)
      {
        SubIdsAreSubs(t, n);
        assert MemberSubIds(t.commands[n], c) <= SubIds(t.commands[n]);
      }
  }

  lemma SubIdsAreSubs(t: Table, n: string)
    requires GoodTable(t) && n in t.commands
    ensures FUTURE_BIT !in SubIds(t.commands[n])
  {
    var c := t.commands[n];
    if c.subs.Some? {
      forall m | m in c.subs.value
        ensures c.subs.value[m].id != FUTURE_BIT
      {
        assert HasSub(t, n, m);
      }
    }
  }

  /** One rule, carried out and retained, keeps the rules replaying to the permissions. */
  lemma ChangeKeepsReplay(t: Table, all: bool, rules: seq<Rule>, allow: bool, body: string)
    requires GoodTable(t) && GoodRules(t, rules) && Settled(rules)
    requires Resolve(t, allow, body).Ok? && Plain(body)
    ensures var res := Resolve(t, allow, body);
      var next := Retained(rules, res.body) + [Rule(allow, res.body)];
      && GoodRules(t, next) && Settled(next) && ValidTarget(t, res.target)
      && Replay(t, Base(all), next) == Apply(TargetEffect(t, res.target, allow), Replay(t, Base(all), rules))
      && (FUTURE_BIT in Replay(t, Base(all), next).allowed <==> all)
  {
    var res := Resolve(t, allow, body);
    var r := Rule(allow, res.body);
    RetainedRuleIsGood(t, allow, body);
    ResolveAgain(t, allow, body);
    UpdatedSettled(rules, r);
    ReplayAfterUpdate(t, Base(all), rules, r);
    FutureBitIsTheBase(t, all, Retained(rules, res.body) + [r]);
    hide Replay, GoodRules, Settled, Resolve, TargetEffect, Apply;
  }

  // ----- rules as given -----

  datatype Op = AllCommands | NoCommands | Change(allow: bool, body: string) | Other

  /** The branch of `ACLSetSelector` that a rule takes; `Other` covers keys and channels. */
  function Classify(op: string): Op {
    var lower := Lower(op);
    if lower == "allcommands" || lower == "+@all" then AllCommands
    else if lower == "nocommands" || lower == "-@all" then NoCommands
    else if op != "" && op[0] == '+' then Change(true, op[1..])
    else if op != "" && op[0] == '-' then Change(false, op[1..])
    else Other
  }

  datatype Outcome = Done | Failed(errno: Errno) | NotACommandRule

  /** The permissions of a selector and the rules it retains. */
  datatype State = State(perms: Perms, rules: seq<Rule>)

  function Step(t: Table, s: State, op: string): State {
    match Classify(op)
    case Other => s
    case AllCommands => State(Base(true), [])
    case NoCommands => State(Base(false), [])
    case Change(allow, body) =>
      match Resolve(t, allow, body)
      case Err(_) => s
      case Ok(target, rule) =>
        ResolvedTargetIsValid(t, allow, body);
        State(Apply(TargetEffect(t, target, allow), s.perms), Retained(s.rules, rule) + [Rule(allow, rule)])
  }

  function StepOutcome(t: Table, op: string): Outcome {
    match Classify(op)
    case Other => NotACommandRule
    case AllCommands => Done
    case NoCommands => Done
    case Change(allow, body) =>
      match Resolve(t, allow, body)
      case Err(errno) => Failed(errno)
      case Ok(_, _) => Done
  }

  /** The state after a history of rules on a fresh selector. */
  ghost function Run(t: Table, ops: seq<string>): State {
    if ops == [] then State(Base(false), [])
    else Step(t, Run(t, ops[..|ops| - 1]), ops[|ops| - 1])
  }

  /** The retained rules are good and settled, and replay to the permissions. */
  ghost predicate Replays(t: Table, s: State) {
    && GoodRules(t, s.rules) && Settled(s.rules)
    && s.perms == Replay(t, Base(FUTURE_BIT in s.perms.allowed), s.rules)
  }

  lemma StepReplays(t: Table, s: State, op: string)
    requires GoodTable(t) && Replays(t, s) && Plain(op)
    ensures Replays(t, Step(t, s, op))
  {
    hide Classify, Resolve, TargetEffect, GoodRules, Settled, Replay, GoodTable, Plain, Base, Apply;
    BaseReplays(t, true);
    BaseReplays(t, false);
    ChangeBody(op);
    match Classify(op)
    case Other =>
    case AllCommands =>
    case NoCommands =>
    case Change(allow, body) =>
      if Resolve(t, allow, body).Ok? {
        ChangeKeepsReplay(t, FUTURE_BIT in s.perms.allowed, s.rules, allow, body);
      }
  }

  lemma BaseReplays(t: Table, all: bool)
    ensures Replays(t, State(Base(all), []))
  {
    assert IsBit(FUTURE_BIT);
  }

  lemma ChangeBody(op: string)
    ensures Classify(op).Change? && Plain(op) ==> Plain(Classify(op).body)
  {
  }

  /**
   For every history of plain rules on a fresh selector, the rule string splits back into the
   retained rules, and those replayed from the base give exactly the bitmap and the grants.
   */
  lemma {:induction false} EveryHistoryReplays(t: Table, ops: seq<string>)
    requires GoodTable(t) && forall i :: 0 <= i < |ops| ==> Plain(ops[i])
    ensures var s := Run(t, ops);
      && Replays(t, s)
      && SplitArgs(Render(s.rules)) == Some(Tokens(s.rules))
  {
    if ops != [] {
      EveryHistoryReplays(t, ops[..|ops| - 1]);
      StepReplays(t, Run(t, ops[..|ops| - 1]), ops[|ops| - 1]);
    }
    GoodIsPlain(t, Run(t, ops).rules);
    SplitsBackExactly(Run(t, ops).rules);
  }

  lemma GoodIsPlain(t: Table, rules: seq<Rule>)
    requires GoodRules(t, rules)
    ensures PlainRules(rules)
  {
    forall i | 0 <= i < |rules|
      ensures Plain(rules[i].body)
    {
      assert GoodRule(t, rules[i]);
    }
  }

  // ----- retained rules given again -----

  lemma BodyIsNotAll(t: Table, r: Rule)
    requires GoodTable(t) && GoodRule(t, r)
    ensures Lower(r.body) != "@all"
  {
    assert "@all"[0] == '@' && "@all"[1..] == "all";
    if r.body != "" && r.body[0] == '@' {
      LowerSlices(r.body, 1);
      assert Lower(r.body[1..]) in t.categories;
    }
  }

  lemma ClassifyToken(t: Table, r: Rule)
    requires GoodTable(t) && GoodRule(t, r)
    ensures Classify(Token(r)) == Change(r.allow, r.body) && Plain(Token(r))
  {
    hide GoodRule, GoodTable, Classify, Plain, Lower;
    BodyIsNotAll(t, r);
    TokenIsPlain(t, r);
    ClassifySigned(Token(r));
    assert Token(r)[1..] == r.body;
  }

  /** A signed rule other than +@all and -@all is a change. */
  lemma ClassifySigned(op: string)
    requires op != "" && (op[0] == '+' || op[0] == '-') && Lower(op[1..]) != "@all"
    ensures Classify(op) == Change(op[0] == '+', op[1..])
  {
    LowerSlices(op, 1);
    assert Lower(op)[0] == op[0] && "allcommands"[0] == 'a' && "nocommands"[0] == 'n';
    assert "+@all"[1..] == "@all" && "-@all"[1..] == "@all";
  }

  lemma TokenIsPlain(t: Table, r: Rule)
    requires GoodRule(t, r)
    ensures Plain(Token(r))
  {
    var op := Token(r);
    assert forall i :: 1 <= i < |op| ==> op[i] == r.body[i - 1];
  }

  lemma ClassifyBase()
    ensures Classify("+@all") == AllCommands && Plain("+@all")
    ensures Classify("-@all") == NoCommands && Plain("-@all")
  {
    assert Lower("+@all") == "+@all";
    assert Lower("-@all") == "-@all";
  }

  /** Giving the next retained rule again appends it unchanged. */
  lemma StepToken(t: Table, s: State, rules: seq<Rule>, i: nat)
    requires GoodTable(t) && GoodRules(t, rules) && Settled(rules)
    requires i < |rules| && s.rules == rules[..i]
    ensures Step(t, s, Token(rules[i])).rules == rules[..i + 1]
    ensures StepOutcome(t, Token(rules[i])) == Done
  {
    var r := rules[i];
    ClassifyToken(t, r);
    NothingSuperseded(rules[..i], r.body);
    assert rules[..i + 1] == rules[..i] + [r];
  }

  lemma {:induction false} TokensAt(rules: seq<Rule>)
    ensures |Tokens(rules)| == |rules|
    ensures forall i :: 0 <= i < |rules| ==> Tokens(rules)[i] == Token(rules[i])
  {
    if rules != [] {
      TokensAt(rules[1..]);
    }
  }

  // ----- exactly which rules can be given -----

  lemma PlainLower(s: string)
    ensures Plain(Lower(s)) <==> Plain(s)
  {
    assert forall i :: 0 <= i < |s| ==> Lower(s)[i] == LowerChar(s[i]);
    if Plain(Lower(s)) {
      forall i | 0 <= i < |s|
        ensures !Blank(s[i]) && s[i] != '\"' && s[i] != '\''
      {
        assert Lower(s)[i] == LowerChar(s[i]);
      }
    }
  }

  lemma ResolvedIsPlainExactly(t: Table, allow: bool, body: string)
    requires GoodTable(t) && Resolve(t, allow, body).Ok?
    ensures Plain(Resolve(t, allow, body).body) <==> Plain(body)
  {
    PlainLower(body);
    if !(body != "" && body[0] == '@') && !(allow && LastBar(body) >= 0) {
      var target := Lookup(t, body).value;
      ResolvedTargetIsValid(t, allow, body);
      LookupFullName(t, target);
      LookupNames(t, body);
    }
  }

  /** A name that is found is the full name of what is found, up to case. */
  lemma LookupNames(t: Table, s: string)
    requires Lookup(t, s).Some?
    ensures Lower(s) == FullName(Lookup(t, s).value)
  {
    var bar := LastBar(s);
    if bar >= 0 {
      LowerSlices(s, bar);
      LowerSlices(s, bar + 1);
      assert Lower(s) == Lower(s)[..bar] + [Lower(s)[bar]] + Lower(s)[bar + 1..];
    }
  }

  /**
   From any state reached so far, a rule leaves a rule string that splits back into the retained
   rules if and only if it is plain or is refused. A first argument with a space or a quote is
   accepted and breaks it.
   */
  lemma StepSplitsBackExactly(t: Table, s: State, op: string)
    requires GoodTable(t) && Replays(t, s)
    ensures var rules := Step(t, s, op).rules;
      SplitArgs(Render(rules)) == Some(Tokens(rules)) <==> Plain(op) || StepOutcome(t, op) != Done
  {
    var rules := Step(t, s, op).rules;
    SplitsBackExactly(rules);
    GoodIsPlain(t, s.rules);
    hide SplitArgs, Tokens, Render;
    match Classify(op)
    case Other =>
    case AllCommands =>
      BaseIsPlain(op);
    case NoCommands =>
      BaseIsPlain(op);
    case Change(allow, body) =>
      if Resolve(t, allow, body).Ok? {
        ChangedIsPlainExactly(t, s.rules, op, allow, body);
      }
  }

  lemma BaseIsPlain(op: string)
    requires Classify(op).AllCommands? || Classify(op).NoCommands?
    ensures Plain(op)
  {
    PlainLower(op);
    ClassifyBase();
    assert Plain("allcommands") && Plain("nocommands");
  }

  lemma ChangeIsPlainExactly(op: string)
    requires Classify(op).Change?
    ensures Plain(op) <==> Plain(Classify(op).body)
  {
    var body := Classify(op).body;
    hide Classify, Lower;
    assert forall i :: 0 <= i < |body| ==> body[i] == op[i + 1];
    assert forall i :: 1 <= i < |op| ==> op[i] == body[i - 1];
  }

  lemma ChangedIsPlainExactly(t: Table, rules: seq<Rule>, op: string, allow: bool, body: string)
    requires GoodTable(t) && PlainRules(rules)
    requires Classify(op) == Change(allow, body) && Resolve(t, allow, body).Ok?
    ensures var rule := Resolve(t, allow, body).body;
      PlainRules(Retained(rules, rule) + [Rule(allow, rule)]) <==> Plain(op)
  {
    var rule := Resolve(t, allow, body).body;
    var kept, last := Retained(rules, rule), Rule(allow, rule);
    ResolvedIsPlainExactly(t, allow, body);
    ChangeIsPlainExactly(op);
    hide Resolve, Classify, Plain;
    forall i | 0 <= i < |kept|
      ensures Plain(kept[i].body)
    {
      assert kept[i] in kept;
    }
    assert (kept + [last])[|kept|] == last;
  }
}
