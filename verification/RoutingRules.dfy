/** Rules: `_parse_match`, `_status_key`, `_chain_members` and `_parse_rule` of
    src/llm_redact/config.py, and `_emit_rule` of src/llm_redact/config_write.py. */
module RoutingRules {
  import opened Wrappers
  import opened RoutingValues
  import opened RoutingUpstreams

  // ---- what a rule matches ----

  datatype RuleMatch = RuleMatch(protocol: string, models: seq<string>, headers: seq<Entry>, path: Option<string>,
                                 auth: string)

  datatype MatchTable = MatchTable(
    protocol: Option<Value>,
    model: Option<Value>,
    headers: Option<Value>,
    path: Option<Value>,
    auth: Option<Value>,
    unknown: bool)

  /** One glob, or a list of them. */
  function Models(v: Option<Value>): Result<seq<string>> {
    match v
    case None => Ok([])
    case Some(Str(s)) => FilledStrings(List([Str(s)]))
    case Some(other) => FilledStrings(other)
  }

  function ModelsOut(models: seq<string>): Option<Value> {
    if models == [] then None else Some(StrList(models))
  }

  lemma ModelsBack(v: Option<Value>)
    ensures Models(v).Ok? ==> Models(ModelsOut(Models(v).value)) == Models(v)
  {
    hide FilledStrings;
    match v
    case None =>
    case Some(Str(s)) => FilledStringsBack(List([Str(s)]));
    case Some(other) => FilledStringsBack(other);
  }

  function TextOut(s: Option<string>): Option<Value> {
    if s.None? then None else Some(Str(s.value))
  }

  lemma OptionalBack(v: Option<Value>)
    ensures OptionalStr(v).Ok? ==> OptionalStr(TextOut(OptionalStr(v).value)) == OptionalStr(v)
  {
  }

  /** `_parse_match` */
  function ParseMatch(t: MatchTable): Result<RuleMatch> {
    var _ :- Need(!t.unknown);
    var protocol :- RequiredStr(t.protocol);
    var _ :- Need(protocol in PROTOCOLS);
    var models :- Models(t.model);
    var auth :- WordKey(t.auth, "any", AUTH_KINDS);
    var headers :- Headers(t.headers);
    var path :- OptionalStr(t.path);
    Ok(RuleMatch(protocol, models, headers, path, auth))
  }

  function MatchOut(m: RuleMatch): MatchTable {
    MatchTable(Some(Str(m.protocol)), ModelsOut(m.models), HeadersOut(m.headers), TextOut(m.path), Some(Str(m.auth)),
      false)
  }

  lemma MatchBack(t: MatchTable)
    ensures ParseMatch(t).Ok? ==> ParseMatch(MatchOut(ParseMatch(t).value)) == ParseMatch(t)
  {
    hide Models, ModelsOut, Headers, HeadersOut, OptionalStr, TextOut;
    ModelsBack(t.model);
    HeadersBack(t.headers);
    OptionalBack(t.path);
  }

  // ---- status keys ----

  predicate IsDigits(env: Platform, s: string) {
    s != "" && forall i :: 0 <= i < |s| ==> env.decimal(s[i]).Some?
  }

  function IntOf(env: Platform, s: string): nat
    requires forall i :: 0 <= i < |s| ==> env.decimal(s[i]).Some?
  {
    if s == "" then 0 else 10 * IntOf(env, s[..|s| - 1]) + env.decimal(s[|s| - 1]).value
  }

  function DigitChar(d: nat): char
    requires d < 10
  {
    ('0' as int + d) as char
  }

  /** str of a status. */
  function StatusText(n: nat): string
    requires 100 <= n <= 599
  {
    [DigitChar(n / 100), DigitChar(n / 10 % 10), DigitChar(n % 10)]
  }

  /** `_status_key` */
  function StatusKey(env: Platform, text: string): Result<string> {
    if text in SPECIAL_STATUS_KEYS || text in CLASS_KEYS then Ok(text)
    else if IsDigits(env, text) && 100 <= IntOf(env, text) <= 599 then Ok(StatusText(IntOf(env, text)))
    else Failed
  }

  lemma ThreeDigits(env: Platform, a: char, b: char, c: char)
    requires env.decimal(a).Some? && env.decimal(b).Some? && env.decimal(c).Some?
    ensures IsDigits(env, [a, b, c])
    ensures IntOf(env, [a, b, c]) == 100 * env.decimal(a).value + 10 * env.decimal(b).value + env.decimal(c).value
  {
    assert [a, b, c][..2] == [a, b] && [a, b][..1] == [a] && [a][..0] == "";
    assert IntOf(env, "") == 0;
    assert IntOf(env, [a]) == env.decimal(a).value;
    assert IntOf(env, [a, b]) == 10 * IntOf(env, [a]) + env.decimal(b).value;
  }

  /** A status key is its own key. */
  lemma StatusKeyBack(env: Platform, text: string)
    requires Lawful(env)
    ensures StatusKey(env, text).Ok? ==> StatusKey(env, StatusKey(env, text).value) == StatusKey(env, text)
  {
    hide IntOf;
    if StatusKey(env, text).Ok? && text !in SPECIAL_STATUS_KEYS && text !in CLASS_KEYS {
      var n := IntOf(env, text);
      var a, b, c := n / 100, n / 10 % 10, n % 10;
      assert n == 100 * a + 10 * b + c;
      assert env.decimal(DigitChar(a)) == Some(a) && env.decimal(DigitChar(b)) == Some(b)
        && env.decimal(DigitChar(c)) == Some(c);
      ThreeDigits(env, DigitChar(a), DigitChar(b), DigitChar(c));
    }
  }

  // ---- chains ----

  datatype Warning =
    | NeverFires(rule: string, key: string, protocol: string)
    | ChainNeverApplies(rule: string, key: string)
    | NoBudget(rule: string, upstream: string)
    | BudgetNeverApplies(rule: string)
    | SpendingDefault(protocol: string, upstream: string)
    | Inert

  /** What a rule's chains are checked against. */
  datatype Context = Context(rule: string, protocol: string, own: string, policy: string, upstreams: seq<Upstream>)

  function Lookup(upstreams: seq<Upstream>, name: string): (r: Option<Upstream>)
    ensures r.Some? ==> r.value in upstreams && r.value.name == name
  {
    if upstreams == [] then None
    else if upstreams[0].name == name then Some(upstreams[0])
    else Lookup(upstreams[1..], name)
  }

  /** A chain goes on to another upstream of the rule's protocol, not named before, that passes no
      client credential. */
  predicate GoodMember(ctx: Context, members: seq<string>, i: nat)
    requires i < |members|
  {
    var u := Lookup(ctx.upstreams, members[i]);
    && u.Some? && members[i] != ctx.own && members[i] !in members[..i]
    && u.value.protocol == ctx.protocol && !u.value.IsPassthrough()
  }

  predicate GoodChain(ctx: Context, members: seq<string>) {
    members != [] && forall i :: 0 <= i < |members| ==> GoodMember(ctx, members, i)
  }

  function ChainMembers(ctx: Context, v: Value): Result<seq<string>> {
    match v
    case List(items) => if AllStr(items) && GoodChain(ctx, Strings(items)) then Ok(Strings(items)) else Failed
    case _ => Failed
  }

  /** `_chain_members` */
  method ReadChain(ctx: Context, v: Value) returns (r: Result<seq<string>>)
    ensures r == ChainMembers(ctx, v)
  {
    hide GoodMember;
    if !v.List? || v.items == [] || !AllStr(v.items) {
      return Failed;
    }
    var members := Strings(v.items);
    for position := 0 to |members|
      invariant forall i :: 0 <= i < position ==> GoodMember(ctx, members, i)
    {
      if !GoodMember(ctx, members, position) {
        return Failed;
      }
    }
    return Ok(members);
  }

  lemma ChainBack(ctx: Context, v: Value)
    ensures ChainMembers(ctx, v).Ok? ==>
      ChainMembers(ctx, v).value != [] && ChainMembers(ctx, StrList(ChainMembers(ctx, v).value)) == ChainMembers(ctx, v)
  {
    hide GoodMember;
    if ChainMembers(ctx, v).Ok? {
      StringsOfList(ChainMembers(ctx, v).value);
    }
  }

  // ---- what a rule does on a status ----

  datatype Action = Retry | Chain(members: seq<string>)

  datatype OnStatus = OnStatus(key: string, action: Action)

  /** One entry of `on_status`, under its key. */
  function ActionOf(ctx: Context, key: string, v: Value): Result<(Action, seq<Warning>)> {
    var special := if key in SPECIAL_STATUS_KEYS && ctx.protocol != "anthropic"
      then [NeverFires(ctx.rule, key, ctx.protocol)] else [];
    if v == Str(RETRY_SAME) then Ok((Retry, special))
    else
      var members :- ChainMembers(ctx, v);
      Ok((Chain(members), special + if ctx.policy == "never" then [ChainNeverApplies(ctx.rule, key)] else []))
  }

  function ActionOut(a: Action): Value {
    match a case Retry => Str(RETRY_SAME) case Chain(members) => StrList(members)
  }

  lemma ActionBack(ctx: Context, key: string, v: Value)
    ensures ActionOf(ctx, key, v).Ok? ==>
      ActionOf(ctx, key, ActionOut(ActionOf(ctx, key, v).value.0)) == ActionOf(ctx, key, v)
  {
    hide ChainMembers;
    ChainBack(ctx, v);
  }

  function Statuses(env: Platform, ctx: Context, entries: seq<Entry>): Result<(seq<OnStatus>, seq<Warning>)> {
    if entries == [] then Ok(([], []))
    else
      var before :- Statuses(env, ctx, entries[..|entries| - 1]);
      var last := entries[|entries| - 1];
      var key :- StatusKey(env, last.key);
      var _ :- Need(forall o :: o in before.0 ==> o.key != key);
      var action :- ActionOf(ctx, key, last.value);
      Ok((before.0 + [OnStatus(key, action.0)], before.1 + action.1))
  }

  /** The loop over `on_status` in `_parse_rule`. */
  method ReadStatuses(env: Platform, ctx: Context, entries: seq<Entry>)
    returns (r: Result<(seq<OnStatus>, seq<Warning>)>)
    ensures r == Statuses(env, ctx, entries)
  {
    hide StatusKey, ChainMembers;
    var found: seq<OnStatus>, warnings: seq<Warning> := [], [];
    for i := 0 to |entries|
      invariant Statuses(env, ctx, entries[..i]) == Ok((found, warnings))
    {
      assert entries[..i + 1][..i] == entries[..i];
      var key := StatusKey(env, entries[i].key);
      if key.Failed? || exists o :: o in found && o.key == key.value {
        StatusesFail(env, ctx, entries, i + 1);
        return Failed;
      }
      ghost var before := warnings;
      if key.value in SPECIAL_STATUS_KEYS && ctx.protocol != "anthropic" {
        warnings := warnings + [NeverFires(ctx.rule, key.value, ctx.protocol)];
      } else {
        assert before + [] == before;
      }
      if entries[i].value == Str(RETRY_SAME) {
        found := found + [OnStatus(key.value, Retry)];
        continue;
      }
      var chain := ReadChain(ctx, entries[i].value);
      if chain.Failed? {
        StatusesFail(env, ctx, entries, i + 1);
        return Failed;
      }
      ghost var special := warnings;
      if ctx.policy == "never" {
        warnings := warnings + [ChainNeverApplies(ctx.rule, key.value)];
      } else {
        assert special + [] == special;
      }
      WarningsInOrder(before, ctx, key.value, warnings);
      found := found + [OnStatus(key.value, Chain(chain.value))];
    }
    assert entries[..|entries|] == entries;
    return Ok((found, warnings));
  }

  lemma WarningsInOrder(before: seq<Warning>, ctx: Context, key: string, warnings: seq<Warning>)
    requires var special := if key in SPECIAL_STATUS_KEYS && ctx.protocol != "anthropic"
      then [NeverFires(ctx.rule, key, ctx.protocol)] else [];
      warnings == before + special + if ctx.policy == "never" then [ChainNeverApplies(ctx.rule, key)] else []
    ensures var special := if key in SPECIAL_STATUS_KEYS && ctx.protocol != "anthropic"
      then [NeverFires(ctx.rule, key, ctx.protocol)] else [];
      warnings == before + (special + if ctx.policy == "never" then [ChainNeverApplies(ctx.rule, key)] else [])
  {
  }

  lemma {:induction false} StatusesFail(env: Platform, ctx: Context, entries: seq<Entry>, i: nat)
    requires i <= |entries| && Statuses(env, ctx, entries[..i]).Failed?
    ensures Statuses(env, ctx, entries).Failed?
    decreases |entries| - i
  {
    hide StatusKey, ActionOf;
    if i < |entries| {
      assert entries[..i + 1][..i] == entries[..i];
      StatusesFail(env, ctx, entries, i + 1);
    } else {
      assert entries[..i] == entries;
    }
  }

  function StatusEntries(statuses: seq<OnStatus>): (r: seq<Entry>)
    ensures |r| == |statuses|
    ensures forall i :: 0 <= i < |r| ==> r[i] == Entry(statuses[i].key, ActionOut(statuses[i].action))
  {
    seq(|statuses|, i requires 0 <= i < |statuses| => Entry(statuses[i].key, ActionOut(statuses[i].action)))
  }

  /** The statuses written are read back with the same warnings. */
  lemma {:induction false} StatusesBack(env: Platform, ctx: Context, entries: seq<Entry>)
    requires Lawful(env)
    ensures Statuses(env, ctx, entries).Ok? ==>
      var out := StatusEntries(Statuses(env, ctx, entries).value.0);
      Statuses(env, ctx, out) == Statuses(env, ctx, entries) && DistinctBy(KeyOf(), out)
    decreases |entries|
  {
    hide StatusKey, ActionOf, ActionOut;
    if entries != [] && Statuses(env, ctx, entries).Ok? {
      var rest, last := entries[..|entries| - 1], entries[|entries| - 1];
      StatusesBack(env, ctx, rest);
      var before, all := Statuses(env, ctx, rest).value.0, Statuses(env, ctx, entries).value.0;
      var key := StatusKey(env, last.key).value;
      StatusKeyBack(env, last.key);
      ActionBack(ctx, key, last.value);
      assert StatusEntries(all)[..|before|] == StatusEntries(before);
      forall i | 0 <= i < |before| ensures before[i].key != key {
        assert before[i] in before;
      }
    }
  }

  // ---- one rule ----

  datatype Rule = Rule(
    id: string,
    matches: RuleMatch,
    upstream: string,
    modelRewrite: Option<string>,
    onStatus: seq<OnStatus>,
    reissuePolicy: string,
    onBudget: seq<string>)

  datatype RuleTable = RuleTable(
    id: Option<Value>,
    matches: Option<Raw<MatchTable>>,
    upstream: Option<Value>,
    modelRewrite: Option<Value>,
    onStatus: Option<Value>,
    reissuePolicy: Option<Value>,
    onBudget: Option<Value>,
    unknown: bool)

  function Statused(env: Platform, ctx: Context, v: Option<Value>): Result<(seq<OnStatus>, seq<Warning>)> {
    var raw := if v.Some? then v.value else Dict([]);
    var _ :- Need(raw.Dict?);
    Statuses(env, ctx, raw.entries)
  }

  function StatusedOut(statuses: seq<OnStatus>): Option<Value> {
    if statuses == [] then None else Some(Dict(DictOf(StatusEntries(statuses))))
  }

  lemma StatusedBack(env: Platform, ctx: Context, v: Option<Value>)
    requires Lawful(env)
    ensures Statused(env, ctx, v).Ok? ==>
      Statused(env, ctx, StatusedOut(Statused(env, ctx, v).value.0)) == Statused(env, ctx, v)
  {
    hide DictOf, DistinctBy;
    if Statused(env, ctx, v).Ok? {
      var entries := if v.Some? then v.value.entries else [];
      var found := Statused(env, ctx, v).value.0;
      StatusesBack(env, ctx, entries);
      DictOfDistinct(StatusEntries(found));
      if found == [] {
        NoStatuses(env, ctx);
      }
    }
  }

  lemma NoStatuses(env: Platform, ctx: Context)
    ensures StatusEntries([]) == [] && Statuses(env, ctx, []) == Ok(([], []))
  {
  }

  /** The chain on an exhausted budget, with its warning. */
  function Budgeted(ctx: Context, v: Option<Value>): Result<(seq<string>, seq<Warning>)> {
    if v.None? then Ok(([], []))
    else
      var members :- ChainMembers(ctx, v.value);
      var own := Lookup(ctx.upstreams, ctx.own);
      Ok((members,
          if own.Some? && !own.value.HasBudget() then [NoBudget(ctx.rule, ctx.own)]
          else if ctx.policy == "never" then [BudgetNeverApplies(ctx.rule)]
          else []))
  }

  function BudgetedOut(members: seq<string>): Option<Value> {
    if members == [] then None else Some(StrList(members))
  }

  lemma BudgetedBack(ctx: Context, v: Option<Value>)
    ensures Budgeted(ctx, v).Ok? ==> Budgeted(ctx, BudgetedOut(Budgeted(ctx, v).value.0)) == Budgeted(ctx, v)
  {
    hide ChainMembers, Lookup;
    if v.Some? {
      ChainBack(ctx, v.value);
    }
  }

  /** `_parse_rule` */
  function ParseRule(env: Platform, upstreams: seq<Upstream>, raw: Raw<RuleTable>): Result<(Rule, seq<Warning>)> {
    var _ :- Need(raw.Table? && !raw.table.unknown);
    var t := raw.table;
    var id :- RequiredStr(t.id);
    var _ :- Need(IsRouteName(id) && t.matches.Some? && t.matches.value.Table?);
    var m :- ParseMatch(t.matches.value.table);
    var name :- RequiredStr(t.upstream);
    var u := Lookup(upstreams, name);
    var _ :- Need(u.Some? && u.value.protocol == m.protocol);
    var rewrite :- OptionalStr(t.modelRewrite);
    var default := if u.value.IsPassthrough() then "stateless-only" else "always";
    var policy :- WordKey(t.reissuePolicy, default, REISSUE_POLICIES);
    var ctx := Context(id, m.protocol, name, policy, upstreams);
    var statuses :- Statused(env, ctx, t.onStatus);
    var budget :- Budgeted(ctx, t.onBudget);
    Ok((Rule(id, m, name, rewrite, statuses.0, policy, budget.0), statuses.1 + budget.1))
  }

  /** What `_emit_rule` writes. */
  function RuleOut(r: Rule): RuleTable {
    RuleTable(Some(Str(r.id)), Some(Table(MatchOut(r.matches))), Some(Str(r.upstream)), TextOut(r.modelRewrite),
              StatusedOut(r.onStatus), Some(Str(r.reissuePolicy)), BudgetedOut(r.onBudget), false)
  }

  /** A rule read is read back from the table written for it, with the same warnings. */
  lemma RuleBack(env: Platform, upstreams: seq<Upstream>, raw: Raw<RuleTable>)
    requires Lawful(env)
    ensures var r := ParseRule(env, upstreams, raw); r.Ok? ==> ParseRule(env, upstreams, Table(RuleOut(r.value.0))) == r
  {
    hide IsRouteName, ParseMatch, MatchOut, OptionalStr, TextOut, Statused, StatusedOut, Budgeted, BudgetedOut,
         Lookup, Lawful;
    var r := ParseRule(env, upstreams, raw);
    if r.Ok? {
      var t, rule := raw.table, r.value.0;
      MatchBack(t.matches.value.table);
      OptionalBack(t.modelRewrite);
      var ctx := Context(rule.id, rule.matches.protocol, rule.upstream, rule.reissuePolicy, upstreams);
      StatusedBack(env, ctx, t.onStatus);
      BudgetedBack(ctx, t.onBudget);
    }
  }

  // ---- all rules ----

  function ParseRules(env: Platform, upstreams: seq<Upstream>, tables: seq<Raw<RuleTable>>)
    : Result<(seq<Rule>, seq<Warning>)>
  {
    if tables == [] then Ok(([], []))
    else
      var before :- ParseRules(env, upstreams, tables[..|tables| - 1]);
      var rule :- ParseRule(env, upstreams, tables[|tables| - 1]);
      var _ :- Need(forall r :: r in before.0 ==> r.id != rule.0.id);
      Ok((before.0 + [rule.0], before.1 + rule.1))
  }

  /** The loop over the rules in `_parse_routing`. */
  method ReadRules(env: Platform, upstreams: seq<Upstream>, tables: seq<Raw<RuleTable>>)
    returns (r: Result<(seq<Rule>, seq<Warning>)>)
    ensures r == ParseRules(env, upstreams, tables)
  {
    hide ParseRule;
    var rules: seq<Rule>, warnings: seq<Warning> := [], [];
    for position := 0 to |tables|
      invariant ParseRules(env, upstreams, tables[..position]) == Ok((rules, warnings))
    {
      assert tables[..position + 1][..position] == tables[..position];
      var rule := ParseRule(env, upstreams, tables[position]);
      if rule.Failed? || exists existing :: existing in rules && existing.id == rule.value.0.id {
        RulesFail(env, upstreams, tables, position + 1);
        return Failed;
      }
      rules := rules + [rule.value.0];
      warnings := warnings + rule.value.1;
    }
    assert tables[..|tables|] == tables;
    return Ok((rules, warnings));
  }

  lemma {:induction false} RulesFail(env: Platform, upstreams: seq<Upstream>, tables: seq<Raw<RuleTable>>, i: nat)
    requires i <= |tables| && ParseRules(env, upstreams, tables[..i]).Failed?
    ensures ParseRules(env, upstreams, tables).Failed?
    decreases |tables| - i
  {
    hide ParseRule;
    if i < |tables| {
      assert tables[..i + 1][..i] == tables[..i];
      RulesFail(env, upstreams, tables, i + 1);
    } else {
      assert tables[..i] == tables;
    }
  }

  function RulesOut(rules: seq<Rule>): (r: seq<Raw<RuleTable>>)
    ensures |r| == |rules| && forall i :: 0 <= i < |r| ==> r[i] == Table(RuleOut(rules[i]))
  {
    seq(|rules|, i requires 0 <= i < |rules| => Table(RuleOut(rules[i])))
  }

  lemma {:induction false} RulesBack(env: Platform, upstreams: seq<Upstream>, tables: seq<Raw<RuleTable>>)
    requires Lawful(env)
    ensures var r := ParseRules(env, upstreams, tables); r.Ok? ==> ParseRules(env, upstreams, RulesOut(r.value.0)) == r
    decreases |tables|
  {
    hide ParseRule, RuleOut, Lawful;
    var r := ParseRules(env, upstreams, tables);
    if tables != [] && r.Ok? {
      var rest := tables[..|tables| - 1];
      RulesBack(env, upstreams, rest);
      RuleBack(env, upstreams, tables[|tables| - 1]);
      var before := ParseRules(env, upstreams, rest).value.0;
      assert RulesOut(r.value.0)[..|before|] == RulesOut(before);
    }
  }
}
