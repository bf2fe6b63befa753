/** The keys of a rule one by one: what each may hold, what it stands for, what an omitted one means,
    and which warnings come of it (src/llm_redact/config.py). */
module RoutingRuleKeys {
  import opened Wrappers
  import opened RoutingValues
  import opened RoutingUpstreams
  import opened RoutingRules
  import opened RoutingKeys

  // ---- what a rule matches ----

  /** No key, one glob, or a list of globs; none of them empty. */
  predicate ReadsModels(v: Option<Value>, models: seq<string>) {
    || (v.None? && models == [])
    || (|models| == 1 && models[0] != "" && v == Some(Str(models[0])))
    || (models != [] && v.Some? && ReadsStrings(v.value, models))
  }

  lemma ModelsRead(v: Option<Value>, models: seq<string>)
    ensures Models(v) == Ok(models) <==> ReadsModels(v, models)
  {
    hide FilledStrings;
    match v
    case None =>
    case Some(Str(s)) =>
      FilledReads(List([Str(s)]), models);
      if Models(v) == Ok(models) {
        assert models[0] == s;
      }
    case Some(other) => FilledReads(other, models);
  }

  predicate IsAuth(s: string) {
    s == "oauth" || s == "gateway-key" || s == "none" || s == "any"
  }

  /** What a match table says. */
  ghost predicate MatchReads(t: MatchTable, m: RuleMatch) {
    && !t.unknown
    && t.protocol == Some(Str(m.protocol)) && IsProtocol(m.protocol)
    && ReadsModels(t.model, m.models)
    && ReadsText(t.auth, "any", m.auth) && IsAuth(m.auth)
    && Headers(t.headers) == Ok(m.headers)
    && ReadsOptional(t.path, m.path)
  }

  lemma OptionalReads(v: Option<Value>, s: Option<string>)
    ensures OptionalStr(v) == Ok(s) <==> ReadsOptional(v, s)
  {
  }

  lemma MatchExactly(t: MatchTable, m: RuleMatch)
    ensures ParseMatch(t) == Ok(m) <==> MatchReads(t, m)
  {
    hide Models, WordKey, Headers, OptionalStr, ReadsModels, ReadsOptional, ReadsText, IsAuth, IsProtocol;
    ModelsRead(t.model, m.models);
    WordReads(t.auth, "any", AUTH_KINDS, m.auth);
    OptionalReads(t.path, m.path);
    AuthIs(m.auth);
    ProtocolIs(t.protocol, m.protocol);
  }

  lemma AuthIs(s: string)
    ensures s in AUTH_KINDS <==> IsAuth(s)
  {
    WordsAre(s);
  }

  lemma ProtocolIs(v: Option<Value>, s: string)
    ensures s in PROTOCOLS <==> IsProtocol(s)
    ensures RequiredStr(v) == Ok(s) && s in PROTOCOLS <==> v == Some(Str(s)) && IsProtocol(s)
  {
    WordsAre(s);
  }

  // ---- status keys ----

  /** Three figures worth n, the first from 1 to 5. */
  predicate SpellsStatus(n: int, key: string) {
    && |key| == 3 && 49 <= key[0] as int <= 53 && IsFigure(key[1] as int) && IsFigure(key[2] as int)
    && n == 100 * (key[0] as int - 48) + 10 * (key[1] as int - 48) + key[2] as int - 48
  }

  predicate IsNamedStatus(s: string) {
    s == "plan_limit_429" || s == "throttle_429" || s == "4xx" || s == "5xx"
  }

  /** A named key or class is itself; a number from 100 to 599 in decimal digits, with leading zeros or
      not, is its three figures. */
  predicate ReadsStatus(env: Platform, text: string, key: string) {
    if IsNamedStatus(text) then key == text else IsDigits(env, text) && SpellsStatus(IntOf(env, text), key)
  }

  lemma StatusReads(env: Platform, text: string, key: string)
    ensures StatusKey(env, text) == Ok(key) <==> ReadsStatus(env, text, key)
  {
    hide IntOf, StatusText, SpellsStatus, IsNamedStatus;
    NamedStatusIs(text);
    if IsDigits(env, text) {
      DigitsOf(IntOf(env, text), key);
    }
  }

  lemma NamedStatusIs(s: string)
    ensures s in SPECIAL_STATUS_KEYS || s in CLASS_KEYS <==> IsNamedStatus(s)
  {
    WordsAre(s);
  }

  lemma DigitsOf(n: nat, key: string)
    ensures 100 <= n <= 599 && key == StatusText(n) <==> SpellsStatus(n, key)
  {
    if 100 <= n <= 599 {
      assert n == 100 * (n / 100) + 10 * (n / 10 % 10) + n % 10;
    }
    if SpellsStatus(n, key) {
      var a, b, c := key[0] as int - 48, key[1] as int - 48, key[2] as int - 48;
      assert 1 <= a <= 5 && 0 <= b <= 9 && 0 <= c <= 9;
      assert n / 100 == a && n / 10 == 10 * a + b && n % 10 == c;
      assert n / 10 % 10 == b;
      var text := StatusText(n);
      assert key[0] == text[0] && key[1] == text[1] && key[2] == text[2];
    }
  }

  // ---- chains ----

  /** The names of a chain: one at least, none twice, none the rule's own; each names an upstream of
      the rule's protocol that passes no client credential through. */
  ghost predicate ReadsChain(ctx: Context, v: Value, members: seq<string>) {
    && members != []
    && v == StrList(members)
    && (forall i, j :: 0 <= i < j < |members| ==> members[i] != members[j])
    && forall m :: m in members ==>
         m != ctx.own && NamesUpstream(ctx.upstreams, m, ctx.protocol) && !IsPassing(ctx.upstreams, m)
  }

  predicate NamesUpstream(upstreams: seq<Upstream>, name: string, protocol: string) {
    Lookup(upstreams, name).Some? && Lookup(upstreams, name).value.protocol == protocol
  }

  predicate IsPassing(upstreams: seq<Upstream>, name: string) {
    Lookup(upstreams, name).Some? && Lookup(upstreams, name).value.credential == "passthrough"
  }

  lemma MemberIs(ctx: Context, members: seq<string>, i: nat)
    requires i < |members|
    ensures GoodMember(ctx, members, i)
      <==> && members[i] != ctx.own && (forall j :: 0 <= j < i ==> members[j] != members[i])
           && NamesUpstream(ctx.upstreams, members[i], ctx.protocol) && !IsPassing(ctx.upstreams, members[i])
  {
    if forall j :: 0 <= j < i ==> members[j] != members[i] {
      assert members[i] !in members[..i];
    }
    if members[i] !in members[..i] {
      forall j | 0 <= j < i ensures members[j] != members[i] {
        assert members[j] == members[..i][j];
      }
    }
  }

  lemma GoodChainIs(ctx: Context, members: seq<string>)
    ensures GoodChain(ctx, members)
      <==> && members != [] && (forall i, j :: 0 <= i < j < |members| ==> members[i] != members[j])
           && forall m :: m in members ==>
                m != ctx.own && NamesUpstream(ctx.upstreams, m, ctx.protocol) && !IsPassing(ctx.upstreams, m)
  {
    hide GoodMember, NamesUpstream, IsPassing;
    forall i | 0 <= i < |members|
      ensures GoodMember(ctx, members, i)
        <==> && members[i] != ctx.own && (forall j :: 0 <= j < i ==> members[j] != members[i])
             && NamesUpstream(ctx.upstreams, members[i], ctx.protocol) && !IsPassing(ctx.upstreams, members[i])
    {
      MemberIs(ctx, members, i);
    }
    if GoodChain(ctx, members) {
      forall m | m in members
        ensures m != ctx.own && NamesUpstream(ctx.upstreams, m, ctx.protocol) && !IsPassing(ctx.upstreams, m)
      {
        var i :| 0 <= i < |members| && members[i] == m;
        assert GoodMember(ctx, members, i);
      }
      forall i, j | 0 <= i < j < |members| ensures members[i] != members[j] {
        assert GoodMember(ctx, members, j);
      }
    }
    forall i | 0 <= i < |members| ensures members[i] in members {
    }
  }

  lemma ChainReads(ctx: Context, v: Value, members: seq<string>)
    ensures ChainMembers(ctx, v) == Ok(members) <==> ReadsChain(ctx, v, members)
  {
    hide GoodChain, NamesUpstream, IsPassing;
    GoodChainIs(ctx, members);
    if v.List? && AllStr(v.items) {
      StringsAre(v.items);
    }
    StringsOfList(members);
  }

  lemma StringsAre(items: seq<Value>)
    requires AllStr(items)
    ensures StrList(Strings(items)) == List(items)
  {
    assert StrList(Strings(items)).items == items;
  }

  /** The first upstream of the name is looked up; where names are distinct, the only one. */
  lemma {:induction false} LookupMeans(upstreams: seq<Upstream>, name: string)
    ensures Lookup(upstreams, name).None? <==> forall u :: u in upstreams ==> u.name != name
    ensures DistinctBy(ByName(), upstreams) ==>
      forall u :: u in upstreams && u.name == name ==> Lookup(upstreams, name) == Some(u)
  {
    if upstreams != [] {
      LookupMeans(upstreams[1..], name);
      if DistinctBy(ByName(), upstreams) {
        RestDistinct(upstreams);
      }
    }
  }

  lemma RestDistinct(upstreams: seq<Upstream>)
    requires upstreams != [] && DistinctBy(ByName(), upstreams)
    ensures DistinctBy(ByName(), upstreams[1..]) && forall u :: u in upstreams[1..] ==> u.name != upstreams[0].name
  {
    forall u | u in upstreams[1..] ensures u.name != upstreams[0].name {
      var i :| 0 <= i < |upstreams[1..]| && upstreams[1..][i] == u;
      assert ByName()(upstreams[0]) != ByName()(upstreams[i + 1]);
    }
    forall i, j | 0 <= i < j < |upstreams[1..]| ensures ByName()(upstreams[1..][i]) != ByName()(upstreams[1..][j]) {
      assert ByName()(upstreams[i + 1]) != ByName()(upstreams[j + 1]);
    }
  }

  // ---- statuses and budgets, with their warnings ----

  predicate ReadsAction(ctx: Context, v: Value, action: Action) {
    match action
    case Retry => v == Str("retry-same")
    case Chain(members) => v != Str("retry-same") && ChainMembers(ctx, v) == Ok(members)
  }

  /** A status of a plan limit never fires outside Anthropic's protocol, and a chain is never used when
      nothing is issued again. */
  function ActionWarnings(ctx: Context, o: OnStatus): seq<Warning> {
    (if (o.key == "plan_limit_429" || o.key == "throttle_429") && ctx.protocol != "anthropic"
     then [NeverFires(ctx.rule, o.key, ctx.protocol)] else [])
    + (if o.action.Chain? && ctx.policy == "never" then [ChainNeverApplies(ctx.rule, o.key)] else [])
  }

  lemma ActionReads(ctx: Context, key: string, v: Value, action: Action, warnings: seq<Warning>)
    ensures ActionOf(ctx, key, v) == Ok((action, warnings))
      <==> ReadsAction(ctx, v, action) && warnings == ActionWarnings(ctx, OnStatus(key, action))
  {
    hide ChainMembers;
    WordsAre(key);
    assert forall w: seq<Warning> :: w + [] == w;
  }

  function StatusWarnings(ctx: Context, found: seq<OnStatus>): seq<Warning> {
    if found == [] then [] else ActionWarnings(ctx, found[0]) + StatusWarnings(ctx, found[1..])
  }

  lemma {:induction false} StatusWarningsMore(ctx: Context, found: seq<OnStatus>, o: OnStatus)
    ensures StatusWarnings(ctx, found + [o]) == StatusWarnings(ctx, found) + ActionWarnings(ctx, o)
  {
    hide ActionWarnings;
    if found == [] {
      assert [o][1..] == [] && [] + [o] == [o];
      assert StatusWarnings(ctx, [o]) == ActionWarnings(ctx, o) + [];
      assert StatusWarnings(ctx, []) + ActionWarnings(ctx, o) == ActionWarnings(ctx, o);
    } else {
      StatusWarningsMore(ctx, found[1..], o);
      assert (found + [o])[1..] == found[1..] + [o] && (found + [o])[0] == found[0];
    }
  }

  /** Each entry's key and action are read in order, and no key comes twice. */
  ghost predicate ReadsStatuses(env: Platform, ctx: Context, entries: seq<Entry>, found: seq<OnStatus>) {
    && |found| == |entries|
    && (forall i :: 0 <= i < |found| ==>
          ReadsStatus(env, entries[i].key, found[i].key) && ReadsAction(ctx, entries[i].value, found[i].action))
    && forall i, j :: 0 <= i < j < |found| ==> found[i].key != found[j].key
  }

  lemma {:induction false} StatusesRead(env: Platform, ctx: Context, entries: seq<Entry>, found: seq<OnStatus>,
                                        warnings: seq<Warning>)
    ensures Statuses(env, ctx, entries) == Ok((found, warnings))
      <==> ReadsStatuses(env, ctx, entries, found) && warnings == StatusWarnings(ctx, found)
    decreases |entries|
  {
    hide ReadsStatus, ReadsAction, ActionWarnings, ActionOf, StatusKey, StatusWarnings;
    if entries == [] {
      NoStatusWarnings(ctx);
    } else if found != [] {
      var n, last := |entries| - 1, entries[|entries| - 1];
      var before, o := found[..|found| - 1], found[|found| - 1];
      StatusesRead(env, ctx, entries[..n], before, StatusWarnings(ctx, before));
      StatusReads(env, last.key, o.key);
      ActionReads(ctx, o.key, last.value, o.action, ActionWarnings(ctx, o));
      StatusWarningsMore(ctx, before, o);
      assert found == before + [o];
      LastStatus(env, ctx, entries, before, o);
      OneMore(env, ctx, entries, before, o);
      if Statuses(env, ctx, entries) == Ok((found, warnings)) {
        var rest := Statuses(env, ctx, entries[..n]).value;
        StatusesRead(env, ctx, entries[..n], rest.0, rest.1);
        assert rest.0 == before;
        ActionReads(ctx, o.key, last.value, o.action, ActionOf(ctx, o.key, last.value).value.1);
      }
    }
  }

  lemma NoStatusWarnings(ctx: Context)
    ensures StatusWarnings(ctx, []) == []
  {
  }

  lemma LastStatus(env: Platform, ctx: Context, entries: seq<Entry>, before: seq<OnStatus>, o: OnStatus)
    requires entries != []
    ensures ReadsStatuses(env, ctx, entries, before + [o])
      <==> && ReadsStatuses(env, ctx, entries[..|entries| - 1], before)
           && ReadsStatus(env, entries[|entries| - 1].key, o.key)
           && ReadsAction(ctx, entries[|entries| - 1].value, o.action)
           && forall x :: x in before ==> x.key != o.key
  {
    hide ReadsStatus, ReadsAction;
    var n := |entries| - 1;
    if ReadsStatuses(env, ctx, entries, before + [o]) {
      forall i | 0 <= i < |before|
        ensures ReadsStatus(env, entries[..n][i].key, before[i].key)
                && ReadsAction(ctx, entries[..n][i].value, before[i].action) {
        assert (before + [o])[i] == before[i];
      }
      forall i, j | 0 <= i < j < |before| ensures before[i].key != before[j].key {
        assert (before + [o])[i] == before[i] && (before + [o])[j] == before[j];
      }
      forall x | x in before ensures x.key != o.key {
        var i :| 0 <= i < |before| && before[i] == x;
        assert (before + [o])[i] == x && (before + [o])[|before|] == o;
      }
      assert (before + [o])[n] == o;
    }
  }

  lemma OneMore(env: Platform, ctx: Context, entries: seq<Entry>, before: seq<OnStatus>, o: OnStatus)
    requires entries != []
    ensures var n, last := |entries| - 1, entries[|entries| - 1];
      Statuses(env, ctx, entries)
      == if Statuses(env, ctx, entries[..n]).Failed? || StatusKey(env, last.key).Failed? then Failed
         else
           var rest, key := Statuses(env, ctx, entries[..n]).value, StatusKey(env, last.key).value;
             if (exists x :: x in rest.0 && x.key == key) || ActionOf(ctx, key, last.value).Failed? then Failed
             else
               var action := ActionOf(ctx, key, last.value).value;
                 Ok((rest.0 + [OnStatus(key, action.0)], rest.1 + action.1))
  {
    hide StatusKey, ActionOf;
  }

  /** The chain for an exhausted budget: it never applies where the rule's own upstream has no budget,
      or nothing is issued again. */
  ghost predicate ReadsBudget(ctx: Context, v: Option<Value>, members: seq<string>, warnings: seq<Warning>) {
    if v.None? then members == [] && warnings == []
    else
      && ReadsChain(ctx, v.value, members)
      && var own := Lookup(ctx.upstreams, ctx.own);
        warnings
        == if own.Some? && (own.value.cost == "zero" || (own.value.budgetUsd.None? && own.value.budgetTokens.None?))
           then [NoBudget(ctx.rule, ctx.own)]
           else if ctx.policy == "never" then [BudgetNeverApplies(ctx.rule)]
           else []
  }

  lemma BudgetReads(ctx: Context, v: Option<Value>, members: seq<string>, warnings: seq<Warning>)
    ensures Budgeted(ctx, v) == Ok((members, warnings)) <==> ReadsBudget(ctx, v, members, warnings)
  {
    hide ChainMembers, Lookup, ReadsChain;
    if v.Some? {
      ChainReads(ctx, v.value, members);
    }
  }

  // ---- one rule ----

  predicate IsPolicy(s: string) {
    s == "stateless-only" || s == "always" || s == "never"
  }

  /** The policy when the key is omitted. */
  predicate IsPolicyFor(u: Upstream, t: RuleTable, policy: string) {
    ReadsText(t.reissuePolicy, if u.credential == "passthrough" then "stateless-only" else "always", policy)
    && IsPolicy(policy)
  }

  ghost predicate ReadsOnStatus(env: Platform, ctx: Context, v: Option<Value>, found: seq<OnStatus>) {
    (v.None? && found == []) || (v.Some? && v.value.Dict? && ReadsStatuses(env, ctx, v.value.entries, found))
  }

  lemma OnStatusReads(env: Platform, ctx: Context, v: Option<Value>, found: seq<OnStatus>, warnings: seq<Warning>)
    ensures Statused(env, ctx, v) == Ok((found, warnings))
      <==> ReadsOnStatus(env, ctx, v, found) && warnings == StatusWarnings(ctx, found)
  {
    hide Statuses, ReadsStatus, ReadsAction;
    var entries := if v.Some? && v.value.Dict? then v.value.entries else [];
    StatusesRead(env, ctx, entries, found, warnings);
    NoneRead(env, ctx, found);
  }

  lemma NoneRead(env: Platform, ctx: Context, found: seq<OnStatus>)
    ensures ReadsStatuses(env, ctx, [], found) <==> found == []
  {
  }

  /** What a rule's table says of the rule, and the warnings it gives. */
  ghost predicate RuleReads(env: Platform, upstreams: seq<Upstream>, t: RuleTable, rule: Rule, warnings: seq<Warning>) {
    && !t.unknown
    && t.id == Some(Str(rule.id)) && IsName(rule.id)
    && t.matches.Some? && t.matches.value.Table? && MatchReads(t.matches.value.table, rule.matches)
    && rule.upstream != "" && t.upstream == Some(Str(rule.upstream))
    && var u := Lookup(upstreams, rule.upstream);
      && u.Some? && u.value.protocol == rule.matches.protocol
      && ReadsOptional(t.modelRewrite, rule.modelRewrite)
      && IsPolicyFor(u.value, t, rule.reissuePolicy)
      && var ctx := Context(rule.id, rule.matches.protocol, rule.upstream, rule.reissuePolicy, upstreams);
        && ReadsOnStatus(env, ctx, t.onStatus, rule.onStatus)
        && exists budget :: ReadsBudget(ctx, t.onBudget, rule.onBudget, budget)
                            && warnings == StatusWarnings(ctx, rule.onStatus) + budget
  }

  lemma PolicyReads(u: Upstream, t: RuleTable, policy: string)
    ensures WordKey(t.reissuePolicy, if u.IsPassthrough() then "stateless-only" else "always", REISSUE_POLICIES)
         == Ok(policy)
      <==> IsPolicyFor(u, t, policy)
  {
    hide WordKey, ReadsText, IsPolicy;
    WordReads(t.reissuePolicy, if u.IsPassthrough() then "stateless-only" else "always", REISSUE_POLICIES, policy);
    PolicyIs(policy);
  }

  lemma PolicyIs(s: string)
    ensures s in REISSUE_POLICIES <==> IsPolicy(s)
  {
    WordsAre(s);
  }

  lemma IdReads(v: Option<Value>, id: string)
    ensures RequiredStr(v) == Ok(id) && IsRouteName(id) <==> v == Some(Str(id)) && IsName(id)
  {
    hide IsRouteName, IsName;
    NamesAre(id);
    NameIsNotEmpty(id);
  }

  lemma NameIsNotEmpty(s: string)
    ensures IsName(s) ==> s != ""
  {
  }

  lemma NameReads(v: Option<Value>, name: string)
    ensures RequiredStr(v) == Ok(name) <==> name != "" && v == Some(Str(name))
  {
  }

  /** The parts a rule is read from. */
  lemma RuleIs(env: Platform, upstreams: seq<Upstream>, t: RuleTable, rule: Rule, statuses: seq<Warning>,
               budget: seq<Warning>)
    requires var ctx := Context(rule.id, rule.matches.protocol, rule.upstream, rule.reissuePolicy, upstreams);
      && Statused(env, ctx, t.onStatus) == Ok((rule.onStatus, statuses))
      && Budgeted(ctx, t.onBudget) == Ok((rule.onBudget, budget))
    requires !t.unknown && (RequiredStr(t.id) == Ok(rule.id) && IsRouteName(rule.id))
    requires t.matches.Some? && t.matches.value.Table? && ParseMatch(t.matches.value.table) == Ok(rule.matches)
    requires RequiredStr(t.upstream) == Ok(rule.upstream) && OptionalStr(t.modelRewrite) == Ok(rule.modelRewrite)
    requires var u := Lookup(upstreams, rule.upstream);
      && u.Some? && u.value.protocol == rule.matches.protocol
      && WordKey(t.reissuePolicy, if u.value.IsPassthrough() then "stateless-only" else "always", REISSUE_POLICIES)
         == Ok(rule.reissuePolicy)
    ensures ParseRule(env, upstreams, Table(t)) == Ok((rule, statuses + budget))
  {
    hide RequiredStr, IsRouteName, ParseMatch, OptionalStr, Lookup, WordKey, Statused, Budgeted, Upstream.IsPassthrough;
  }

  lemma RuleParts(env: Platform, upstreams: seq<Upstream>, t: RuleTable)
    returns (statuses: seq<Warning>, budget: seq<Warning>)
    requires ParseRule(env, upstreams, Table(t)).Ok?
    ensures var (rule, warnings) := ParseRule(env, upstreams, Table(t)).value;
      var ctx := Context(rule.id, rule.matches.protocol, rule.upstream, rule.reissuePolicy, upstreams);
      && Statused(env, ctx, t.onStatus) == Ok((rule.onStatus, statuses))
      && Budgeted(ctx, t.onBudget) == Ok((rule.onBudget, budget)) && warnings == statuses + budget
      && !t.unknown && (RequiredStr(t.id) == Ok(rule.id) && IsRouteName(rule.id))
      && t.matches.Some? && t.matches.value.Table? && ParseMatch(t.matches.value.table) == Ok(rule.matches)
      && RequiredStr(t.upstream) == Ok(rule.upstream) && OptionalStr(t.modelRewrite) == Ok(rule.modelRewrite)
      && var u := Lookup(upstreams, rule.upstream);
        && u.Some? && u.value.protocol == rule.matches.protocol
        && WordKey(t.reissuePolicy, if u.value.IsPassthrough() then "stateless-only" else "always", REISSUE_POLICIES)
           == Ok(rule.reissuePolicy)
  {
    hide RequiredStr, IsRouteName, ParseMatch, OptionalStr, Lookup, WordKey, Statused, Budgeted, Upstream.IsPassthrough;
    var rule := ParseRule(env, upstreams, Table(t)).value.0;
    var ctx := Context(rule.id, rule.matches.protocol, rule.upstream, rule.reissuePolicy, upstreams);
    statuses, budget := Statused(env, ctx, t.onStatus).value.1, Budgeted(ctx, t.onBudget).value.1;
  }

  /** A rule's table is accepted, and as what and with which warnings, exactly as its keys read. */
  lemma RuleExactly(env: Platform, upstreams: seq<Upstream>, t: RuleTable, rule: Rule, warnings: seq<Warning>)
    ensures ParseRule(env, upstreams, Table(t)) == Ok((rule, warnings))
      <==> RuleReads(env, upstreams, t, rule, warnings)
    ensures ParseRule(env, upstreams, NotATable).Failed?
  {
    hide ParseRule, RequiredStr, IsRouteName, IsName, ParseMatch, MatchReads, OptionalStr, ReadsOptional, Lookup,
         WordKey, IsPolicyFor, Statused, ReadsOnStatus, Budgeted, ReadsBudget, StatusWarnings;
    NoTable(env, upstreams);
    IdReads(t.id, rule.id);
    NameReads(t.upstream, rule.upstream);
    OptionalReads(t.modelRewrite, rule.modelRewrite);
    if t.matches.Some? && t.matches.value.Table? {
      MatchExactly(t.matches.value.table, rule.matches);
    }
    var u := Lookup(upstreams, rule.upstream);
    if u.Some? {
      PolicyReads(u.value, t, rule.reissuePolicy);
    }
    var ctx := Context(rule.id, rule.matches.protocol, rule.upstream, rule.reissuePolicy, upstreams);
    if ParseRule(env, upstreams, Table(t)) == Ok((rule, warnings)) {
      var statuses, budget := RuleParts(env, upstreams, t);
      OnStatusReads(env, ctx, t.onStatus, rule.onStatus, statuses);
      BudgetReads(ctx, t.onBudget, rule.onBudget, budget);
    }
    if RuleReads(env, upstreams, t, rule, warnings) {
      var budget :| ReadsBudget(ctx, t.onBudget, rule.onBudget, budget)
                    && warnings == StatusWarnings(ctx, rule.onStatus) + budget;
      OnStatusReads(env, ctx, t.onStatus, rule.onStatus, StatusWarnings(ctx, rule.onStatus));
      BudgetReads(ctx, t.onBudget, rule.onBudget, budget);
      RuleIs(env, upstreams, t, rule, StatusWarnings(ctx, rule.onStatus), budget);
    }
  }

  lemma NoTable(env: Platform, upstreams: seq<Upstream>)
    ensures ParseRule(env, upstreams, NotATable).Failed?
  {
  }

  // ---- all rules ----

  function Joined(warnings: seq<seq<Warning>>): seq<Warning> {
    if warnings == [] then [] else Joined(warnings[..|warnings| - 1]) + warnings[|warnings| - 1]
  }

  ghost predicate ReadInOrder(env: Platform, upstreams: seq<Upstream>, tables: seq<Raw<RuleTable>>, rules: seq<Rule>,
                              each: seq<seq<Warning>>) {
    && |rules| == |tables| && |each| == |tables|
    && (forall i :: 0 <= i < |tables| ==> ParseRule(env, upstreams, tables[i]) == Ok((rules[i], each[i])))
    && forall i, j :: 0 <= i < j < |rules| ==> rules[i].id != rules[j].id
  }

  lemma InOrderMore(env: Platform, upstreams: seq<Upstream>, tables: seq<Raw<RuleTable>>, rules: seq<Rule>,
                    each: seq<seq<Warning>>, last: Raw<RuleTable>, rule: Rule, warnings: seq<Warning>)
    ensures ReadInOrder(env, upstreams, tables + [last], rules + [rule], each + [warnings])
      <==> && ReadInOrder(env, upstreams, tables, rules, each)
           && ParseRule(env, upstreams, last) == Ok((rule, warnings)) && forall r :: r in rules ==> r.id != rule.id
  {
    hide ParseRule;
    var tables', rules', each' := tables + [last], rules + [rule], each + [warnings];
    if ReadInOrder(env, upstreams, tables', rules', each') {
      forall i | 0 <= i < |tables| ensures ParseRule(env, upstreams, tables[i]) == Ok((rules[i], each[i])) {
        assert tables'[i] == tables[i] && rules'[i] == rules[i] && each'[i] == each[i];
      }
      assert tables'[|tables|] == last && rules'[|tables|] == rule && each'[|tables|] == warnings;
      forall i, j | 0 <= i < j < |rules| ensures rules[i].id != rules[j].id {
        assert rules'[i] == rules[i] && rules'[j] == rules[j];
      }
      forall r | r in rules ensures r.id != rule.id {
        var i :| 0 <= i < |rules| && rules[i] == r;
        assert rules'[i] == r;
      }
    }
  }

  lemma RulesMore(env: Platform, upstreams: seq<Upstream>, tables: seq<Raw<RuleTable>>)
    requires tables != []
    ensures var rest := ParseRules(env, upstreams, tables[..|tables| - 1]);
      var last := ParseRule(env, upstreams, tables[|tables| - 1]);
      ParseRules(env, upstreams, tables)
      == if rest.Failed? || last.Failed? || exists r :: r in rest.value.0 && r.id == last.value.0.id then Failed
         else Ok((rest.value.0 + [last.value.0], rest.value.1 + last.value.1))
  {
    hide ParseRule;
  }

  lemma {:induction false} RulesReadInOrder(env: Platform, upstreams: seq<Upstream>, tables: seq<Raw<RuleTable>>)
    returns (each: seq<seq<Warning>>)
    requires ParseRules(env, upstreams, tables).Ok?
    ensures var (rules, warnings) := ParseRules(env, upstreams, tables).value;
      ReadInOrder(env, upstreams, tables, rules, each) && warnings == Joined(each)
    decreases |tables|
  {
    hide ParseRule, ParseRules, ReadInOrder;
    if tables == [] {
      each := [];
      NoneInOrder(env, upstreams);
    } else {
      var n := |tables| - 1;
      RulesMore(env, upstreams, tables);
      each := RulesReadInOrder(env, upstreams, tables[..n]);
      var rest, last := ParseRules(env, upstreams, tables[..n]).value, ParseRule(env, upstreams, tables[n]).value;
      assert tables == tables[..n] + [tables[n]];
      InOrderMore(env, upstreams, tables[..n], rest.0, each, tables[n], last.0, last.1);
      JoinedMore(each, last.1);
      each := each + [last.1];
    }
  }

  lemma JoinedMore(each: seq<seq<Warning>>, warnings: seq<Warning>)
    ensures Joined(each + [warnings]) == Joined(each) + warnings
  {
    assert (each + [warnings])[..|each|] == each;
  }

  lemma NoneInOrder(env: Platform, upstreams: seq<Upstream>)
    ensures ParseRules(env, upstreams, []) == Ok(([], [])) && Joined([]) == []
    ensures ReadInOrder(env, upstreams, [], [], [])
  {
  }

  lemma {:induction false} InOrderIsRead(env: Platform, upstreams: seq<Upstream>, tables: seq<Raw<RuleTable>>,
                                         rules: seq<Rule>, each: seq<seq<Warning>>)
    requires ReadInOrder(env, upstreams, tables, rules, each)
    ensures ParseRules(env, upstreams, tables) == Ok((rules, Joined(each)))
    decreases |tables|
  {
    hide ParseRule, ParseRules, ReadInOrder;
    SameLength(env, upstreams, tables, rules, each);
    if tables == [] {
      NoneInOrder(env, upstreams);
    } else {
      var n := |tables| - 1;
      assert tables == tables[..n] + [tables[n]] && rules == rules[..n] + [rules[n]] && each == each[..n] + [each[n]];
      InOrderMore(env, upstreams, tables[..n], rules[..n], each[..n], tables[n], rules[n], each[n]);
      InOrderIsRead(env, upstreams, tables[..n], rules[..n], each[..n]);
      RulesMore(env, upstreams, tables);
      JoinedMore(each[..n], each[n]);
    }
  }

  lemma SameLength(env: Platform, upstreams: seq<Upstream>, tables: seq<Raw<RuleTable>>, rules: seq<Rule>,
                   each: seq<seq<Warning>>)
    requires ReadInOrder(env, upstreams, tables, rules, each)
    ensures |rules| == |tables| && |each| == |tables|
  {
  }

  /** The rules are those of the tables in order, no id comes twice, and the warnings of each follow
      those before; and any such tables are accepted. */
  lemma RulesExactly(env: Platform, upstreams: seq<Upstream>, tables: seq<Raw<RuleTable>>, rules: seq<Rule>,
                     warnings: seq<Warning>)
    ensures ParseRules(env, upstreams, tables) == Ok((rules, warnings))
      <==> exists each :: ReadInOrder(env, upstreams, tables, rules, each) && warnings == Joined(each)
  {
    hide ParseRules, ReadInOrder;
    if ParseRules(env, upstreams, tables) == Ok((rules, warnings)) {
      var each := RulesReadInOrder(env, upstreams, tables);
    }
    if exists each :: ReadInOrder(env, upstreams, tables, rules, each) && warnings == Joined(each) {
      var each :| ReadInOrder(env, upstreams, tables, rules, each) && warnings == Joined(each);
      InOrderIsRead(env, upstreams, tables, rules, each);
    }
  }
}
