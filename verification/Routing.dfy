/** A whole routing configuration, parsed, written and parsed again: `_parse_defaults`,
    `_parse_plan_limit_headers` and `_parse_routing` of src/llm_redact/config.py, and `_emit_routing`
    of src/llm_redact/config_write.py. */
module Routing {
  import opened Wrappers
  import opened RoutingValues
  import opened RoutingUpstreams
  import opened RoutingRules

  // ---- default upstreams ----

  /** The entry protocol = name of `default_upstream`. */
  function DefaultPairs(upstreams: seq<Upstream>, entries: seq<Entry>): Result<seq<Entry>> {
    if entries == [] then Ok([])
    else
      var before :- DefaultPairs(upstreams, entries[..|entries| - 1]);
      var last := entries[|entries| - 1];
      var _ :- Need(IsDefault(upstreams, last));
      Ok(before + [last])
  }

  predicate IsDefault(upstreams: seq<Upstream>, e: Entry) {
    && e.key in PROTOCOLS && e.value.Str?
    && var u := Lookup(upstreams, e.value.s); u.Some? && u.value.protocol == e.key
  }

  /** `_parse_defaults` */
  function Defaults(upstreams: seq<Upstream>, v: Option<Value>): Result<seq<Entry>> {
    match v
    case None => Ok([])
    case Some(Str(name)) =>
      var u := Lookup(upstreams, name);
      if u.Some? then Ok([Entry(u.value.protocol, Str(name))]) else Failed
    case Some(Dict(entries)) =>
      var pairs :- DefaultPairs(upstreams, entries);
      Ok(SortBy(KeyOf(), pairs))
    case _ => Failed
  }

  function DefaultsOut(defaults: seq<Entry>): Option<Value> {
    if defaults == [] then None else Some(Dict(DictOf(defaults)))
  }

  lemma {:induction false} DefaultPairsAre(upstreams: seq<Upstream>, entries: seq<Entry>)
    ensures DefaultPairs(upstreams, entries)
      == if forall e :: e in entries ==> IsDefault(upstreams, e) then Ok(entries) else Failed
    decreases |entries|
  {
    hide IsDefault;
    if entries != [] {
      var before, last := entries[..|entries| - 1], entries[|entries| - 1];
      assert entries == before + [last];
      DefaultPairsAre(upstreams, before);
    }
  }

  /** Default upstreams read, from a name or a table, are read back from the table written. */
  lemma DefaultsBack(upstreams: seq<Upstream>, v: Option<Value>)
    requires forall u :: u in upstreams ==> u.protocol in PROTOCOLS
    requires v.Some? && v.value.Dict? ==> DistinctBy(KeyOf(), v.value.entries)
    ensures Defaults(upstreams, v).Ok? ==>
      Defaults(upstreams, DefaultsOut(Defaults(upstreams, v).value)) == Defaults(upstreams, v)
  {
    hide DefaultPairs, SortBy, DictOf, DistinctBy, SortedBy, Lookup;
    if Defaults(upstreams, v).Ok? && v.Some? {
      var defaults := Defaults(upstreams, v).value;
      match v.value {
        case Str(name) =>
          OnePair(defaults[0]);
        case Dict(entries) =>
          DefaultPairsAre(upstreams, entries);
          SortByDistinct(KeyOf(), entries);
          SortTwice(KeyOf(), entries);
        case _ =>
      }
      DictOfDistinct(defaults);
      DefaultPairsAre(upstreams, defaults);
    }
  }

  lemma OnePair(e: Entry)
    ensures DistinctBy(KeyOf(), [e]) && SortBy(KeyOf(), [e]) == [e]
  {
    assert SortBy(KeyOf(), [e][1..]) == [];
  }

  // ---- plan-limit headers ----

  datatype Limit = Limit(name: string, values: seq<string>)

  const DEFAULT_LIMITS := [
    Limit("anthropic-ratelimit-unified-status", ["rejected"]),
    Limit("anthropic-ratelimit-unified-5h-status", ["rejected"]),
    Limit("anthropic-ratelimit-unified-7d-status", ["rejected"])]

  predicate HasLimit(limits: seq<Limit>, name: string) {
    exists l :: l in limits && l.name == name
  }

  function LimitPairs(entries: seq<Entry>): Result<seq<Limit>> {
    if entries == [] then Ok([])
    else
      var before :- LimitPairs(entries[..|entries| - 1]);
      var last := entries[|entries| - 1];
      var _ :- Need(IsHeaderName(last.key));
      var values :- FilledStrings(last.value);
      var _ :- Need(!HasLimit(before, Lower(last.key)));
      Ok(before + [Limit(Lower(last.key), values)])
  }

  /** `_parse_plan_limit_headers`, or the built-in table. */
  function Limits(v: Option<Value>): Result<seq<Limit>> {
    match v
    case None => Ok(DEFAULT_LIMITS)
    case Some(Dict(entries)) => if entries == [] then Failed else LimitPairs(entries)
    case _ => Failed
  }

  function LimitEntries(limits: seq<Limit>): (r: seq<Entry>)
    ensures |r| == |limits| && forall i :: 0 <= i < |r| ==> r[i] == Entry(limits[i].name, StrList(limits[i].values))
  {
    seq(|limits|, i requires 0 <= i < |limits| => Entry(limits[i].name, StrList(limits[i].values)))
  }

  /** Left out while it is the built-in table. */
  function LimitsOut(limits: seq<Limit>): Option<Value> {
    if limits == DEFAULT_LIMITS then None else Some(Dict(DictOf(LimitEntries(limits))))
  }

  lemma LimitPairsMore(entries: seq<Entry>, last: Entry)
    ensures LimitPairs(entries + [last])
      == if LimitPairs(entries).Failed? || !IsHeaderName(last.key) || FilledStrings(last.value).Failed?
            || HasLimit(LimitPairs(entries).value, Lower(last.key)) then Failed
         else Ok(LimitPairs(entries).value + [Limit(Lower(last.key), FilledStrings(last.value).value)])
  {
    hide IsHeaderName, Lower, FilledStrings, HasLimit;
    assert (entries + [last])[..|entries|] == entries;
  }

  lemma LimitEntriesMore(limits: seq<Limit>, last: Limit)
    ensures LimitEntries(limits + [last]) == LimitEntries(limits) + [Entry(last.name, StrList(last.values))]
  {
    hide StrList;
  }

  lemma DistinctEntries(limits: seq<Limit>, last: Limit)
    requires DistinctBy(KeyOf(), LimitEntries(limits)) && !HasLimit(limits, last.name)
    ensures DistinctBy(KeyOf(), LimitEntries(limits) + [Entry(last.name, StrList(last.values))])
  {
    hide StrList;
    forall i | 0 <= i < |limits| ensures limits[i].name != last.name {
      assert limits[i] in limits;
    }
  }

  lemma {:induction false} LimitPairsBack(entries: seq<Entry>)
    ensures var r := LimitPairs(entries);
      r.Ok? ==>
        |r.value| == |entries| && LimitPairs(LimitEntries(r.value)) == r && DistinctBy(KeyOf(), LimitEntries(r.value))
    decreases |entries|
  {
    hide *;
    if entries == [] {
      NoLimits(entries);
    } else {
      var rest, last := entries[..|entries| - 1], entries[|entries| - 1];
      assert entries == rest + [last];
      LimitPairsBack(rest);
      LimitPairsMore(rest, last);
      if LimitPairs(entries).Ok? {
        var before := LimitPairs(rest).value;
        var limit := Limit(Lower(last.key), FilledStrings(last.value).value);
        var again := Entry(limit.name, StrList(limit.values));
        LowerHolds(last.key);
        FilledStringsBack(last.value);
        LimitEntriesMore(before, limit);
        LimitPairsMore(LimitEntries(before), again);
        DistinctEntries(before, limit);
      }
    }
  }

  lemma NoLimits(entries: seq<Entry>)
    requires entries == []
    ensures LimitPairs(entries) == Ok([]) && LimitEntries([]) == [] && DistinctBy(KeyOf(), [])
  {
  }

  lemma LimitsBack(v: Option<Value>)
    ensures Limits(v).Ok? ==> Limits(LimitsOut(Limits(v).value)) == Limits(v)
  {
    hide LimitPairs, DictOf, DistinctBy;
    if Limits(v).Ok? && v.Some? {
      var limits := Limits(v).value;
      LimitPairsBack(v.value.entries);
      DictOfDistinct(LimitEntries(limits));
    }
  }

  // ---- the marker ----

  function StripLeft(isSpace: char -> bool, s: string): (r: string)
    ensures r == "" || !isSpace(r[0])
  {
    if s != "" && isSpace(s[0]) then StripLeft(isSpace, s[1..]) else s
  }

  function StripRight(isSpace: char -> bool, s: string): (r: string)
    ensures r <= s && (r == "" || !isSpace(r[|r| - 1]))
  {
    if s != "" && isSpace(s[|s| - 1]) then StripRight(isSpace, s[..|s| - 1]) else s
  }

  /** `_str_key(...).strip()`, not empty. */
  function Marker(env: Platform, v: Option<Value>): Result<string> {
    var s :- StrKey(v, "oauth-2025-04-20");
    var marker := StripRight(env.isSpace, StripLeft(env.isSpace, s));
    var _ :- Need(marker != "");
    Ok(marker)
  }

  lemma NothingToStrip(isSpace: char -> bool, s: string)
    requires s != "" && !isSpace(s[0]) && !isSpace(s[|s| - 1])
    ensures StripRight(isSpace, StripLeft(isSpace, s)) == s
  {
  }

  lemma StrippedEnds(isSpace: char -> bool, s: string)
    ensures var r := StripRight(isSpace, StripLeft(isSpace, s));
      r != "" ==> !isSpace(r[0]) && !isSpace(r[|r| - 1])
  {
    hide StripLeft, StripRight;
    var left := StripLeft(isSpace, s);
    var r := StripRight(isSpace, left);
    if r != "" {
      assert r[0] == left[0];
    }
  }

  lemma MarkerBack(env: Platform, v: Option<Value>)
    ensures Marker(env, v).Ok? ==> Marker(env, Some(Str(Marker(env, v).value))) == Marker(env, v)
  {
    hide StripLeft, StripRight;
    if Marker(env, v).Ok? {
      StrippedEnds(env.isSpace, StrKey(v, "oauth-2025-04-20").value);
      NothingToStrip(env.isSpace, Marker(env, v).value);
    }
  }

  // ---- the routing table ----

  datatype Config = Config(
    enabled: bool,
    defaults: seq<Entry>,
    maxHops: int,
    deadline: real,
    detection: string,
    limits: seq<Limit>,
    marker: string,
    throttle: real,
    resetDay: int,
    debug: bool,
    expose: bool,
    catalog: seq<string>,
    upstreams: seq<Upstream>,
    rules: seq<Rule>,
    warnings: seq<Warning>,
    present: bool)

  datatype RuleTables = NotAList | Tables(rules: seq<Raw<RuleTable>>)

  datatype RoutingTable = RoutingTable(
    enabled: Option<Value>,
    defaults: Option<Value>,
    maxHops: Option<Value>,
    deadline: Option<Value>,
    detection: Option<Value>,
    limits: Option<Value>,
    marker: Option<Value>,
    throttle: Option<Value>,
    resetDay: Option<Value>,
    debug: Option<Value>,
    expose: Option<Value>,
    catalog: Option<Value>,
    rules: Option<RuleTables>,
    unknown: bool)

  function Hops(env: Platform, v: Option<Value>): Result<int> {
    var n :- IntKey(env, v, 3);
    var _ :- Need(n >= 1);
    Ok(n)
  }

  function Deadline(env: Platform, v: Option<Value>): Result<real> {
    var x :- NumberKey(env, v, 600.0);
    var _ :- Need(x > 0.0);
    Ok(x)
  }

  function ResetDay(env: Platform, v: Option<Value>): Result<int> {
    var n :- IntKey(env, v, 1);
    var _ :- Need(1 <= n <= 28);
    Ok(n)
  }

  lemma NumbersBack(env: Platform, hops: Option<Value>, deadline: Option<Value>, day: Option<Value>)
    ensures Hops(env, hops).Ok? ==> Hops(env, Some(Int(Hops(env, hops).value))) == Hops(env, hops)
    ensures Deadline(env, deadline).Ok? ==>
      Deadline(env, Some(Float(Deadline(env, deadline).value))) == Deadline(env, deadline)
    ensures ResetDay(env, day).Ok? ==> ResetDay(env, Some(Int(ResetDay(env, day).value))) == ResetDay(env, day)
  {
  }

  function CatalogOut(catalog: seq<string>): Option<Value> {
    if catalog == [] then None else Some(StrList(catalog))
  }

  lemma CatalogBack(v: Option<Value>)
    ensures StrListKey(v).Ok? ==> StrListKey(CatalogOut(StrListKey(v).value)) == StrListKey(v)
  {
    if StrListKey(v).Ok? && v.Some? {
      var catalog := StrListKey(v).value;
      StringsOfList(catalog);
      assert StrList(catalog).items == v.value.items;
    }
  }

  /** The warnings about default upstreams that cost money. */
  function Spending(upstreams: seq<Upstream>, defaults: seq<Entry>): seq<Warning> {
    if defaults == [] then []
    else
      var last := defaults[|defaults| - 1];
      Spending(upstreams, defaults[..|defaults| - 1])
      + if last.value.Str? && Lookup(upstreams, last.value.s).Some? && !Lookup(upstreams, last.value.s).value.ZeroCost()
        then [SpendingDefault(last.key, last.value.s)] else []
  }

  function RuleList(v: Option<RuleTables>): Result<seq<Raw<RuleTable>>> {
    match v case None => Ok([]) case Some(Tables(rules)) => Ok(rules) case _ => Failed
  }

  /** `_parse_routing` */
  function ParseRouting(env: Platform, upstreams: seq<Upstream>, raw: Option<Raw<RoutingTable>>): Result<Config> {
    if raw.None? then
      Ok(Config(false, [], 3, 600.0, "headers", DEFAULT_LIMITS, "oauth-2025-04-20", 30.0, 1, false, false, [],
                upstreams, [],
                if upstreams == [] then [] else [Inert], false))
    else
      var _ :- Need(raw.value.Table? && !raw.value.table.unknown);
      var t := raw.value.table;
      var enabled :- BoolKey(t.enabled, false);
      var defaults :- Defaults(upstreams, t.defaults);
      var _ :- Need(!(enabled && defaults == []));
      var hops :- Hops(env, t.maxHops);
      var deadline :- Deadline(env, t.deadline);
      var detection :- WordKey(t.detection, "headers", PLAN_LIMIT_DETECTION);
      var limits :- Limits(t.limits);
      var marker :- Marker(env, t.marker);
      var throttle :- Bounded(env, t.throttle, 30.0, 0.0);
      var day :- ResetDay(env, t.resetDay);
      var tables :- RuleList(t.rules);
      var rules :- ParseRules(env, upstreams, tables);
      var debug :- BoolKey(t.debug, false);
      var expose :- BoolKey(t.expose, false);
      var catalog :- StrListKey(t.catalog);
      Ok(Config(enabled, defaults, hops, deadline, detection, limits, marker, throttle, day, debug, expose, catalog,
                upstreams, rules.0, rules.1 + (if enabled then Spending(upstreams, defaults) else []), true))
  }

  /** What `_emit_routing` writes under [routing]. */
  function RoutingOut(c: Config): Option<Raw<RoutingTable>> {
    if !c.present then None
    else
      Some(Table(RoutingTable(
        Some(Bool(c.enabled)), DefaultsOut(c.defaults), Some(Int(c.maxHops)), Some(Float(c.deadline)),
        Some(Str(c.detection)), LimitsOut(c.limits), Some(Str(c.marker)), Some(Float(c.throttle)),
        Some(Int(c.resetDay)), Some(Bool(c.debug)),
        Some(Bool(c.expose)), CatalogOut(c.catalog),
        if c.rules == [] then None else Some(Tables(RulesOut(c.rules))), false)))
  }

  lemma NoRules(env: Platform, upstreams: seq<Upstream>, tables: seq<Raw<RuleTable>>)
    ensures ParseRules(env, upstreams, []) == Ok(([], []))
    ensures RulesOut([]) == []
  {
  }

  /** A default upstream given as a table, whose keys a dictionary keeps distinct. */
  predicate DefaultsDistinct(raw: Option<Raw<RoutingTable>>) {
    raw.Some? && raw.value.Table? && raw.value.table.defaults.Some? && raw.value.table.defaults.value.Dict?
    ==> DistinctBy(KeyOf(), raw.value.table.defaults.value.entries)
  }

  /** A routing table read is read back from the one written, with the same warnings in order. */
  lemma RoutingBack(env: Platform, upstreams: seq<Upstream>, raw: Option<Raw<RoutingTable>>)
    requires Lawful(env) && DefaultsDistinct(raw) && forall u :: u in upstreams ==> u.protocol in PROTOCOLS
    ensures var r := ParseRouting(env, upstreams, raw);
      r.Ok? ==>
        && r.value.upstreams == upstreams && (r.value.present <==> raw.Some?)
        && ParseRouting(env, upstreams, RoutingOut(r.value)) == r
  {
    hide Defaults, DefaultsOut, Hops, Deadline, Limits, LimitsOut, Marker, Bounded, ResetDay, ParseRules, RulesOut,
         StrListKey,
         CatalogOut, Spending, Lawful;
    var r := ParseRouting(env, upstreams, raw);
    if r.Ok? && raw.Some? {
      var t := raw.value.table;
      DefaultsBack(upstreams, t.defaults);
      NumbersBack(env, t.maxHops, t.deadline, t.resetDay);
      LimitsBack(t.limits);
      MarkerBack(env, t.marker);
      BoundedBack(env, t.throttle, 30.0, 0.0);
      CatalogBack(t.catalog);
      RulesBack(env, upstreams, RuleList(t.rules).value);
      NoRules(env, upstreams, []);
    }
  }

  // ---- the whole configuration ----

  /** The parts of a configuration file that routing reads. */
  datatype Document = Document(upstreams: Raw<seq<Named>>, routing: Option<Raw<RoutingTable>>)

  function Parse(env: Platform, providers: map<string, Provider>, note: bool, doc: Document): Result<Config> {
    var upstreams :- ParseUpstreams(env, providers, doc.routing.Some?, note, doc.upstreams);
    ParseRouting(env, upstreams, doc.routing)
  }

  /** The document written, or the failure of `_toml_inline` on a null among the body defaults. */
  function Emit(note: bool, c: Config): Result<Document> {
    var written := Written(c.upstreams);
    if forall u :: u in written ==> NullFree(u.body) then Ok(Document(Table(TablesOut(note, written)), RoutingOut(c)))
    else Failed
  }

  /** The names and protocols that a parsed file holds once. */
  ghost predicate IsDictionary(doc: Document) {
    (doc.upstreams.Table? ==> DistinctTables(doc.upstreams.table)) && DefaultsDistinct(doc.routing)
  }

  /** The round trip. A parsed configuration can be written exactly when no upstream's body defaults
      held a null; and what is written parses, with the same providers and note switch, to the very
      same configuration: omitted defaults, registered upstreams, canonical body defaults and
      warnings. */
  lemma RoundTrip(env: Platform, providers: map<string, Provider>, note: bool, doc: Document)
    requires Lawful(env) && IsDictionary(doc) && Parse(env, providers, note, doc).Ok?
    ensures var c := Parse(env, providers, note, doc).value;
      && (Emit(note, c).Ok? <==> forall n :: n in doc.upstreams.table ==> NullFreeTable(n))
      && (Emit(note, c).Ok? <==> forall u :: u in c.upstreams ==> NullFree(u.body))
      && (Emit(note, c).Ok? ==> Parse(env, providers, note, Emit(note, c).value) == Ok(c))
  {
    hide ParseUpstreams, ParseRouting, RoutingOut, Written, TablesOut, DefaultsDistinct, DistinctTables, DistinctBy,
         Lawful, NullFree, NullFreeTable;
    var c := Parse(env, providers, note, doc).value;
    UpstreamsBack(env, providers, doc.routing.Some?, note, doc.upstreams);
    UpstreamsSpeak(env, providers, doc.routing.Some?, note, doc.upstreams);
    UpstreamsNulls(env, providers, doc.routing.Some?, note, doc.upstreams);
    RoutingBack(env, ParseUpstreams(env, providers, doc.routing.Some?, note, doc.upstreams).value, doc.routing);
    EmptyIsNullFree();
    WrittenWhenPresent(c);
  }

  // ---- a null among the body defaults ----

  function NullTable(): UpstreamTable {
    UpstreamTable(Some(Str("openai")), Some(Str("http://h")), Some(Str("none")), None, None, None, None, None, None,
                  None, Some(Dict([Entry("k", Null)])), false)
  }

  function NullDocument(): Document {
    Document(Table([Named("u", Table(NullTable()))]), None)
  }

  lemma NullTableParses(env: Platform, note: bool)
    ensures ParseUpstream(env, note, "u", NullTable()).Ok?
  {
    hide Canonical;
    var t := NullTable();
    var s := "http://h";
    assert s[|s| - 1] == 'h' && StripSlashes(s) == s && "http://" <= s;
    assert BaseUrl(t.baseUrl) == Ok(s);
    var c := "none";
    assert c[0] == 'n' && "env:"[0] == 'e' && !("env:" <= c);
    assert |PASSTHROUGH| == 11 && c != PASSTHROUGH;
    assert Credential(t.credential) == Ok(c);
    assert PROTOCOLS[1] == "openai" && COSTS[0] == "metered";
    NoHeaders();
    assert HasJson(Dict([Entry("k", Null)]));
  }

  lemma NoHeaders()
    ensures ExtraHeaders(None) == Ok([])
  {
  }

  /** A document that parses and cannot be written: an editor's null among the body defaults. */
  lemma NullExample(env: Platform, providers: map<string, Provider>, note: bool)
    requires Lawful(env)
    ensures var doc := NullDocument();
      && IsDictionary(doc) && Parse(env, providers, note, doc).Ok?
      && Emit(note, Parse(env, providers, note, doc).value).Failed?
  {
    hide ParseUpstream, Lawful, NullTable, Emit, SortBy;
    var doc := NullDocument();
    var n := doc.upstreams.table[0];
    NullTableParses(env, note);
    assert IsRouteName("u");
    assert doc.upstreams.table == [n] && [][..0] == [n][..0];
    assert Explicit(env, note, []) == Ok([]);
    ExplicitMore(env, note, [], n);
    assert [] + [n] == [n];
    RoundTrip(env, providers, note, doc);
    NullIsThere(n);
  }

  lemma NullIsThere(n: Named)
    requires n == Named("u", Table(NullTable()))
    ensures !NullFreeTable(n)
  {
    var e := Entry("k", Null);
    assert e in [e] && !NullFree(e.value);
  }

  lemma WrittenWhenPresent(c: Config)
    ensures RoutingOut(c).Some? <==> c.present
  {
  }

  /** Writing is a normal form: what a written document parses to writes the same document again. */
  lemma EmitTwice(env: Platform, providers: map<string, Provider>, note: bool, doc: Document)
    requires Lawful(env) && IsDictionary(doc) && Parse(env, providers, note, doc).Ok?
    ensures var c := Parse(env, providers, note, doc).value;
      Emit(note, c).Ok? ==>
        var again := Parse(env, providers, note, Emit(note, c).value);
        again.Ok? && Emit(note, again.value) == Emit(note, c)
  {
    hide Parse, Emit, Lawful, IsDictionary;
    RoundTrip(env, providers, note, doc);
  }
}
