/** Upstreams: `_parse_upstream` and `_parse_upstreams` of src/llm_redact/config.py, and
    `_emit_upstream` of src/llm_redact/config_write.py. */
module RoutingUpstreams {
  import opened Wrappers
  import opened StringOrder
  import opened RoutingValues

  /** body is what `body_defaults_json` stands for. */
  datatype Upstream = Upstream(
    name: string,
    protocol: string,
    baseUrl: string,
    credential: string,
    cost: string,
    injectNote: bool,
    countTokens: bool,
    budgetUsd: Option<real>,
    budgetTokens: Option<int>,
    cooldown: real,
    extraHeaders: seq<Entry>,
    body: Value,
    legacy: bool)
  {
    predicate IsPassthrough() {
      credential == PASSTHROUGH
    }
    predicate ZeroCost() {
      cost == "zero"
    }
    predicate HasBudget() {
      !ZeroCost() && (budgetUsd.Some? || budgetTokens.Some?)
    }
  }

  /** A table, or a value that is none. */
  datatype Raw<T> = Table(table: T) | NotATable

  /** An [upstreams.NAME] table by its keys; unknown: it has another key. */
  datatype UpstreamTable = UpstreamTable(
    protocol: Option<Value>,
    baseUrl: Option<Value>,
    credential: Option<Value>,
    cost: Option<Value>,
    injectNote: Option<Value>,
    countTokens: Option<Value>,
    budgetUsd: Option<Value>,
    budgetTokens: Option<Value>,
    cooldown: Option<Value>,
    extraHeaders: Option<Value>,
    body: Option<Value>,
    unknown: bool)

  datatype Named = Named(name: string, table: Raw<UpstreamTable>)

  /** baseUrl is `upstream_base_url`. */
  datatype Provider = Provider(enabled: bool, baseUrl: Option<string>)

  // ---- the fields ----

  /** `rstrip("/")` */
  function StripSlashes(s: string): (r: string)
    ensures r == "" || r[|r| - 1] != '/'
    ensures r <= s
  {
    if s != "" && s[|s| - 1] == '/' then StripSlashes(s[..|s| - 1]) else s
  }

  function BaseUrl(v: Option<Value>): Result<string> {
    var s :- RequiredStr(v);
    var url := StripSlashes(s);
    var _ :- Need("http://" <= url || "https://" <= url);
    Ok(url)
  }

  lemma BaseUrlBack(v: Option<Value>)
    ensures BaseUrl(v).Ok? ==> BaseUrl(Some(Str(BaseUrl(v).value))) == BaseUrl(v)
  {
  }

  /** `_ENV_VAR_RE` */
  predicate IsEnvVar(s: string) {
    && s != "" && !('0' <= s[0] <= '9')
    && forall i :: 0 <= i < |s| ==> 'A' <= s[i] <= 'Z' || '0' <= s[i] <= '9' || s[i] == '_'
  }

  function Credential(v: Option<Value>): Result<string> {
    var s :- StrKey(v, PASSTHROUGH);
    var _ :- Need(if "env:" <= s then IsEnvVar(s[4..]) else s == PASSTHROUGH || s == "none");
    Ok(s)
  }

  lemma CredentialBack(v: Option<Value>)
    ensures Credential(v).Ok? ==> Credential(Some(Str(Credential(v).value))) == Credential(v)
  {
    hide IsEnvVar;
  }

  function Note(v: Option<Value>, passthrough: bool, note: bool): Result<bool> {
    var inject :- BoolKey(v, if passthrough then false else note);
    var _ :- Need(!(passthrough && inject));
    Ok(inject)
  }

  /** Left out when it is the default. */
  function NoteOut(inject: bool, passthrough: bool, note: bool): Option<Value> {
    if inject != (if passthrough then false else note) then Some(Bool(inject)) else None
  }

  lemma NoteBack(v: Option<Value>, passthrough: bool, note: bool)
    ensures Note(v, passthrough, note).Ok? ==>
      Note(NoteOut(Note(v, passthrough, note).value, passthrough, note), passthrough, note)
        == Note(v, passthrough, note)
  {
  }

  function Usd(env: Platform, v: Option<Value>): Result<Option<real>> {
    if v.None? then Ok(None)
    else
      var x :- NumberKey(env, v, 0.0);
      var _ :- Need(x > 0.0);
      Ok(Some(x))
  }

  function UsdOut(x: Option<real>): Option<Value> {
    if x.None? then None else Some(Float(x.value))
  }

  function Tokens(env: Platform, v: Option<Value>): Result<Option<int>> {
    if v.None? then Ok(None)
    else
      var x :- IntKey(env, v, 0);
      var _ :- Need(x > 0);
      Ok(Some(x))
  }

  function TokensOut(x: Option<int>): Option<Value> {
    if x.None? then None else Some(Int(x.value))
  }

  lemma BudgetsBack(env: Platform, usd: Option<Value>, tokens: Option<Value>)
    ensures Usd(env, usd).Ok? ==> Usd(env, UsdOut(Usd(env, usd).value)) == Usd(env, usd)
    ensures Tokens(env, tokens).Ok? ==> Tokens(env, TokensOut(Tokens(env, tokens).value)) == Tokens(env, tokens)
  {
  }

  /** A number with a least value. */
  function Bounded(env: Platform, v: Option<Value>, default: real, least: real): Result<real> {
    var x :- NumberKey(env, v, default);
    var _ :- Need(x >= least);
    Ok(x)
  }

  lemma BoundedBack(env: Platform, v: Option<Value>, default: real, least: real)
    ensures Bounded(env, v, default, least).Ok? ==>
      Bounded(env, Some(Float(Bounded(env, v, default, least).value)), default, least)
        == Bounded(env, v, default, least)
  {
  }

  /** Headers that carry a credential. */
  predicate CarriesCredential(name: string) {
    name == "authorization" || name == "x-api-key" || name == "x-goog-api-key"
  }

  function ExtraHeaders(v: Option<Value>): Result<seq<Entry>> {
    var pairs :- Headers(v);
    var _ :- Need(forall e :: e in pairs ==> !CarriesCredential(e.key));
    Ok(pairs)
  }

  lemma ExtraHeadersBack(v: Option<Value>)
    ensures ExtraHeaders(v).Ok? ==> ExtraHeaders(HeadersOut(ExtraHeaders(v).value)) == ExtraHeaders(v)
  {
    hide Headers, HeadersOut, CarriesCredential;
    HeadersBack(v);
  }

  // ---- one upstream ----

  /** `_parse_upstream` */
  function ParseUpstream(env: Platform, note: bool, name: string, t: UpstreamTable): Result<Upstream> {
    var _ :- Need(!t.unknown);
    var protocol :- RequiredStr(t.protocol);
    var _ :- Need(protocol in PROTOCOLS);
    var baseUrl :- BaseUrl(t.baseUrl);
    var credential :- Credential(t.credential);
    var passthrough := credential == PASSTHROUGH;
    var cost :- WordKey(t.cost, "metered", COSTS);
    var inject :- Note(t.injectNote, passthrough, note);
    var usd :- Usd(env, t.budgetUsd);
    var tokens :- Tokens(env, t.budgetTokens);
    var _ :- Need(!(passthrough && (usd.Some? || tokens.Some?)));
    var cooldown :- Bounded(env, t.cooldown, 60.0, 0.0);
    var headers :- ExtraHeaders(t.extraHeaders);
    var body :- Body(t.body);
    var _ :- Need(!(passthrough && (headers != [] || body != Dict([]))));
    var countTokens :- BoolKey(t.countTokens, true);
    Ok(Upstream(name, protocol, baseUrl, credential, cost, inject, countTokens, usd, tokens, cooldown, headers, body,
      false))
  }

  /** What `_emit_upstream` writes. */
  function UpstreamOut(note: bool, u: Upstream): UpstreamTable {
    UpstreamTable(
      Some(Str(u.protocol)), Some(Str(u.baseUrl)), Some(Str(u.credential)), Some(Str(u.cost)),
      NoteOut(u.injectNote, u.IsPassthrough(), note), Some(Bool(u.countTokens)),
      UsdOut(u.budgetUsd), TokensOut(u.budgetTokens), Some(Float(u.cooldown)),
      HeadersOut(u.extraHeaders), BodyOut(u.body), false)
  }

  /** An upstream read is read back from the table written for it. */
  lemma UpstreamBack(env: Platform, note: bool, name: string, t: UpstreamTable)
    ensures var r := ParseUpstream(env, note, name, t);
      r.Ok? ==>
        && r.value.name == name && !r.value.legacy && r.value.body.Dict?
        && ParseUpstream(env, note, name, UpstreamOut(note, r.value)) == r
  {
    hide BaseUrl, Credential, Note, NoteOut, Usd, UsdOut, Tokens, TokensOut, Bounded, ExtraHeaders, HeadersOut, Body,
         BodyOut;
    BaseUrlBack(t.baseUrl);
    CredentialBack(t.credential);
    if Credential(t.credential).Ok? {
      NoteBack(t.injectNote, Credential(t.credential).value == PASSTHROUGH, note);
    }
    BudgetsBack(env, t.budgetUsd, t.budgetTokens);
    BoundedBack(env, t.cooldown, 60.0, 0.0);
    ExtraHeadersBack(t.extraHeaders);
    BodyBack(t.body);
  }

  // ---- all upstreams ----

  /** `_ROUTE_NAME_RE` */
  predicate IsRouteName(name: string) {
    1 <= |name| <= 64 && name[0] != '-'
    && forall i :: 0 <= i < |name| ==>
      'A' <= name[i] <= 'Z' || 'a' <= name[i] <= 'z' || '0' <= name[i] <= '9' || name[i] == '_' || name[i] == '-'
  }

  function ByName(): Upstream -> string {
    (u: Upstream) => u.name
  }

  /** The upstreams of the tables. */
  function Explicit(env: Platform, note: bool, tables: seq<Named>): Result<seq<Upstream>> {
    if tables == [] then Ok([])
    else
      var before :- Explicit(env, note, tables[..|tables| - 1]);
      var last := tables[|tables| - 1];
      var _ :- Need(IsRouteName(last.name) && last.table.Table?);
      var u :- ParseUpstream(env, note, last.name, last.table.table);
      Ok(before + [u])
  }

  /** A provider registers a passthrough upstream of its own name: it is there, enabled and has an
      address, and no table has the name. */
  predicate Registers(providers: map<string, Provider>, names: set<string>, name: string) {
    && name in providers && name !in names && providers[name].enabled
    && providers[name].baseUrl.Some? && providers[name].baseUrl.value != ""
  }

  function LegacyUpstream(name: string, url: string): Upstream {
    Upstream(name, name, StripSlashes(url), PASSTHROUGH, "metered", false, true, None, None, 60.0, [], Dict([]), true)
  }

  /** The upstreams registered for the first protocols. */
  function LegacyOf(providers: map<string, Provider>, names: set<string>, protocols: seq<string>): seq<Upstream> {
    if protocols == [] then []
    else
      var last := protocols[|protocols| - 1];
      LegacyOf(providers, names, protocols[..|protocols| - 1])
      + if Registers(providers, names, last) then [LegacyUpstream(last, providers[last].baseUrl.value)] else []
  }

  function Names(upstreams: seq<Upstream>): set<string> {
    set u | u in upstreams :: u.name
  }

  /** `_parse_upstreams` */
  function ParseUpstreams(env: Platform, providers: map<string, Provider>, present: bool, note: bool,
                          raw: Raw<seq<Named>>): Result<seq<Upstream>> {
    var _ :- Need(raw.Table?);
    var explicit :- Explicit(env, note, raw.table);
    Ok(SortBy(ByName(), explicit + if present then LegacyOf(providers, Names(explicit), PROTOCOLS) else []))
  }

  method ReadUpstreams(env: Platform, providers: map<string, Provider>, present: bool, note: bool, raw: Raw<seq<Named>>)
    returns (r: Result<seq<Upstream>>)
    ensures r == ParseUpstreams(env, providers, present, note, raw)
  {
    hide Explicit, LegacyOf, SortBy;
    if raw.NotATable? {
      return Failed;
    }
    var explicit := ReadTables(env, note, raw.table);
    if explicit.Failed? {
      return Failed;
    }
    var upstreams := explicit.value;
    if present {
      upstreams := Register(providers, upstreams);
    } else {
      assert upstreams + [] == upstreams;
    }
    return Ok(SortBy(ByName(), upstreams));
  }

  /** Its loop over the tables. */
  method ReadTables(env: Platform, note: bool, tables: seq<Named>) returns (r: Result<seq<Upstream>>)
    ensures r == Explicit(env, note, tables)
  {
    hide ParseUpstream, IsRouteName, Explicit;
    var upstreams: seq<Upstream> := [];
    NoTables(env, note, tables);
    for i := 0 to |tables|
      invariant Explicit(env, note, tables[..i]) == Ok(upstreams)
    {
      var t := tables[i];
      assert tables[..i + 1] == tables[..i] + [t];
      ExplicitMore(env, note, tables[..i], t);
      if !IsRouteName(t.name) || t.table.NotATable? {
        ExplicitFails(env, note, tables, i + 1);
        return Failed;
      }
      var u := ParseUpstream(env, note, t.name, t.table.table);
      if u.Failed? {
        ExplicitFails(env, note, tables, i + 1);
        return Failed;
      }
      upstreams := upstreams + [u.value];
    }
    assert tables[..|tables|] == tables;
    return Ok(upstreams);
  }

  lemma NoTables(env: Platform, note: bool, tables: seq<Named>)
    ensures Explicit(env, note, tables[..0]) == Ok([])
  {
  }

  /** Its loop over the protocols. */
  method Register(providers: map<string, Provider>, explicit: seq<Upstream>) returns (r: seq<Upstream>)
    ensures r == explicit + LegacyOf(providers, Names(explicit), PROTOCOLS)
  {
    hide LegacyUpstream, Registers;
    r := explicit;
    var names := Names(explicit);
    assert explicit + [] == explicit;
    for k := 0 to |PROTOCOLS|
      invariant r == explicit + LegacyOf(providers, names, PROTOCOLS[..k])
    {
      assert PROTOCOLS[..k + 1][..k] == PROTOCOLS[..k];
      var name := PROTOCOLS[k];
      if !Registers(providers, names, name) {
        continue;
      }
      RegistersHas(providers, names, name);
      r := r + [LegacyUpstream(name, providers[name].baseUrl.value)];
    }
    assert PROTOCOLS[..|PROTOCOLS|] == PROTOCOLS;
  }

  lemma RegistersHas(providers: map<string, Provider>, names: set<string>, name: string)
    requires Registers(providers, names, name)
    ensures name in providers && providers[name].baseUrl.Some?
  {
  }

  lemma {:induction false} ExplicitFails(env: Platform, note: bool, tables: seq<Named>, i: nat)
    requires i <= |tables| && Explicit(env, note, tables[..i]).Failed?
    ensures Explicit(env, note, tables).Failed?
    decreases |tables| - i
  {
    hide ParseUpstream, IsRouteName;
    if i < |tables| {
      assert tables[..i + 1][..i] == tables[..i];
      ExplicitFails(env, note, tables, i + 1);
    } else {
      assert tables[..i] == tables;
    }
  }

  // ---- writing upstreams ----

  /** The upstreams that are written: not the registered ones. */
  function Written(upstreams: seq<Upstream>): (r: seq<Upstream>)
    ensures forall u :: u in r <==> u in upstreams && !u.legacy
  {
    if upstreams == [] then []
    else
      var last := upstreams[|upstreams| - 1];
      Written(upstreams[..|upstreams| - 1]) + (if last.legacy then [] else [last])
  }

  function TableOut(note: bool, u: Upstream): Named {
    Named(u.name, Table(UpstreamOut(note, u)))
  }

  function TablesOut(note: bool, upstreams: seq<Upstream>): (r: seq<Named>)
    ensures |r| == |upstreams| && forall i :: 0 <= i < |r| ==> r[i] == TableOut(note, upstreams[i])
  {
    seq(|upstreams|, i requires 0 <= i < |upstreams| => TableOut(note, upstreams[i]))
  }

  /** An upstream that some table gives. */
  ghost predicate FromTable(env: Platform, note: bool, u: Upstream) {
    IsRouteName(u.name) && exists t :: ParseUpstream(env, note, u.name, t) == Ok(u)
  }

  lemma {:induction false} ExplicitAre(env: Platform, note: bool, tables: seq<Named>)
    ensures var r := Explicit(env, note, tables);
      r.Ok? ==>
        && |r.value| == |tables| && (forall i :: 0 <= i < |tables| ==> r.value[i].name == tables[i].name)
        && forall u :: u in r.value ==> FromTable(env, note, u)
    decreases |tables|
  {
    hide ParseUpstream, IsRouteName;
    if tables != [] && Explicit(env, note, tables).Ok? {
      ExplicitAre(env, note, tables[..|tables| - 1]);
      var last := tables[|tables| - 1];
      UpstreamBack(env, note, last.name, last.table.table);
    }
  }

  lemma ExplicitMore(env: Platform, note: bool, tables: seq<Named>, last: Named)
    ensures Explicit(env, note, tables + [last])
      == if Explicit(env, note, tables).Failed? || !IsRouteName(last.name) || last.table.NotATable?
            || ParseUpstream(env, note, last.name, last.table.table).Failed? then Failed
         else Ok(Explicit(env, note, tables).value + [ParseUpstream(env, note, last.name, last.table.table).value])
  {
    hide ParseUpstream, IsRouteName;
    assert (tables + [last])[..|tables|] == tables;
  }

  lemma TablesOutMore(note: bool, upstreams: seq<Upstream>, last: Upstream)
    ensures TablesOut(note, upstreams + [last]) == TablesOut(note, upstreams) + [TableOut(note, last)]
  {
    hide TableOut;
  }

  /** The table written for an upstream that some table gives. */
  lemma TableBack(env: Platform, note: bool, u: Upstream)
    requires FromTable(env, note, u)
    ensures var n := TableOut(note, u);
      && n.name == u.name && IsRouteName(u.name)
      && n.table.Table? && ParseUpstream(env, note, n.name, n.table.table) == Ok(u)
  {
    hide ParseUpstream, IsRouteName, UpstreamOut;
    var t :| ParseUpstream(env, note, u.name, t) == Ok(u);
    UpstreamBack(env, note, u.name, t);
  }

  lemma {:induction false} TablesBack(env: Platform, note: bool, upstreams: seq<Upstream>)
    requires forall u :: u in upstreams ==> FromTable(env, note, u)
    ensures Explicit(env, note, TablesOut(note, upstreams)) == Ok(upstreams)
    decreases |upstreams|
  {
    hide ParseUpstream, IsRouteName, TableOut, FromTable, TablesOut;
    if upstreams == [] {
    } else {
      var before, last := upstreams[..|upstreams| - 1], upstreams[|upstreams| - 1];
      assert upstreams == before + [last];
      TablesBack(env, note, before);
      TablesOutMore(note, before, last);
      TableBack(env, note, last);
      ExplicitMore(env, note, TablesOut(note, before), TableOut(note, last));
    }
  }

  /** Lists sorted by distinct keys with the same members are equal. */
  lemma {:induction false} SortedUnique(a: seq<Upstream>, b: seq<Upstream>)
    requires SortedBy(ByName(), a) && SortedBy(ByName(), b) && DistinctBy(ByName(), a) && DistinctBy(ByName(), b)
    requires forall u :: u in a <==> u in b
    ensures a == b
    decreases |a|
  {
    hide AtMost;
    if a == [] {
      NoMembers(b);
    } else {
      assert a[0] in b;
      assert b != [];
      FirstIsLeast(a, b[0]);
      FirstIsLeast(b, a[0]);
      AtMostIsTotal(a[0].name, b[0].name);
      SameName(b, a[0]);
      RestOf(a);
      RestOf(b);
      SortedUnique(a[1..], b[1..]);
      assert a == [a[0]] + a[1..] && b == [b[0]] + b[1..];
    }
  }

  lemma NoMembers(s: seq<Upstream>)
    ensures (forall u :: u !in s) ==> s == []
  {
    if s != [] {
      assert s[0] in s;
    }
  }

  lemma SameName(s: seq<Upstream>, u: Upstream)
    requires DistinctBy(ByName(), s) && s != [] && u in s && u.name == s[0].name
    ensures u == s[0]
  {
    var i :| 0 <= i < |s| && s[i] == u;
    assert i > 0 ==> ByName()(s[0]) != ByName()(s[i]);
  }

  lemma RestOf(s: seq<Upstream>)
    requires SortedBy(ByName(), s) && DistinctBy(ByName(), s) && s != []
    ensures SortedBy(ByName(), s[1..]) && DistinctBy(ByName(), s[1..])
    ensures forall u :: u in s[1..] <==> u in s && u != s[0]
  {
    hide AtMost;
    assert forall i | 0 <= i < |s[1..]| :: s[1..][i] == s[i + 1];
    forall i | 0 < i < |s[1..]| ensures AtMost(s[1..][i - 1].name, s[1..][i].name) {
      assert AtMost(ByName()(s[i]), ByName()(s[i + 1]));
    }
    forall u ensures u in s[1..] <==> u in s && u != s[0] {
      if u in s[1..] {
        var i :| 0 <= i < |s[1..]| && s[1..][i] == u;
        assert ByName()(s[0]) != ByName()(s[i + 1]);
      }
    }
  }

  lemma {:induction false} FirstIsLeast(s: seq<Upstream>, u: Upstream)
    requires SortedBy(ByName(), s) && u in s
    ensures s != [] && AtMost(s[0].name, u.name)
    decreases |s|
  {
    hide AtMost;
    if u == s[0] {
      AtMostIsTotal(u.name, u.name);
    } else {
      assert forall i | 0 <= i < |s[1..]| :: s[1..][i] == s[i + 1];
      forall i | 0 < i < |s[1..]| ensures AtMost(s[1..][i - 1].name, s[1..][i].name) {
        assert AtMost(ByName()(s[i]), ByName()(s[i + 1]));
      }
      FirstIsLeast(s[1..], u);
      assert AtMost(ByName()(s[0]), ByName()(s[1]));
      AtMostIsTransitive(s[0].name, s[1].name, u.name);
    }
  }

  lemma {:induction false} LegacyAre(providers: map<string, Provider>, names: set<string>, protocols: seq<string>)
    ensures forall u :: u in LegacyOf(providers, names, protocols) ==>
      u.legacy && u.name in protocols && u.name !in names
    decreases |protocols|
  {
    if protocols != [] {
      LegacyAre(providers, names, protocols[..|protocols| - 1]);
    }
  }

  lemma {:induction false} LegacyDistinct(providers: map<string, Provider>, names: set<string>, protocols: seq<string>)
    requires forall i, j :: 0 <= i < j < |protocols| ==> protocols[i] != protocols[j]
    ensures DistinctBy(ByName(), LegacyOf(providers, names, protocols))
    decreases |protocols|
  {
    hide Registers;
    if protocols != [] {
      var before, last := protocols[..|protocols| - 1], protocols[|protocols| - 1];
      LegacyDistinct(providers, names, before);
      LegacyAre(providers, names, before);
      var legacy := LegacyOf(providers, names, before);
      forall i | 0 <= i < |legacy| ensures legacy[i].name != last {
        assert legacy[i] in legacy;
      }
    }
  }

  lemma ProtocolsDiffer()
    ensures forall i, j :: 0 <= i < j < |PROTOCOLS| ==> PROTOCOLS[i] != PROTOCOLS[j]
  {
    assert |"anthropic"| == 9 && "openai"[0] == 'o' && "gemini"[0] == 'g' && "ollama"[1] == 'l' && "openai"[1] == 'p';
    assert "ollama"[0] == 'o' && |"openai"| == 6 && |"gemini"| == 6 && |"ollama"| == 6;
  }

  lemma DistinctSum(a: seq<Upstream>, b: seq<Upstream>)
    requires DistinctBy(ByName(), a) && DistinctBy(ByName(), b)
    requires forall u :: u in b ==> u.name !in Names(a)
    ensures DistinctBy(ByName(), a + b)
  {
    var s := a + b;
    forall i, j | 0 <= i < j < |s| ensures s[i].name != s[j].name {
      if i < |a| && j >= |a| {
        assert s[i] in a && s[j] == b[j - |a|] && s[j] in b && s[i].name in Names(a);
      } else if j < |a| {
        assert ByName()(a[i]) != ByName()(a[j]);
      } else {
        assert ByName()(b[i - |a|]) != ByName()(b[j - |a|]);
      }
    }
  }

  lemma {:induction false} WrittenDistinct(upstreams: seq<Upstream>)
    requires DistinctBy(ByName(), upstreams)
    ensures DistinctBy(ByName(), Written(upstreams))
    decreases |upstreams|
  {
    if upstreams != [] {
      var before, last := upstreams[..|upstreams| - 1], upstreams[|upstreams| - 1];
      WrittenDistinct(before);
      var kept := Written(before);
      forall i | 0 <= i < |kept| ensures kept[i].name != last.name {
        assert kept[i] in kept;
        var j :| 0 <= j < |before| && before[j] == kept[i];
        assert ByName()(upstreams[j]) != ByName()(upstreams[|upstreams| - 1]);
      }
    }
  }

  /** The names of the tables, which a dictionary keeps distinct. */
  predicate DistinctTables(tables: seq<Named>) {
    forall i, j :: 0 <= i < j < |tables| ==> tables[i].name != tables[j].name
  }

  /** Upstreams read are read back, in the same order, from the tables written for them: the
      registered ones are not written and register again. */
  lemma UpstreamsBack(env: Platform, providers: map<string, Provider>, present: bool, note: bool, raw: Raw<seq<Named>>)
    requires raw.Table? ==> DistinctTables(raw.table)
    ensures var r := ParseUpstreams(env, providers, present, note, raw);
      r.Ok? ==>
        && ParseUpstreams(env, providers, present, note, Table(TablesOut(note, Written(r.value)))) == r
        && DistinctBy(ByName(), r.value)
        && forall u :: u in r.value ==> u.body.Dict? && (u.legacy ==> u.body == Dict([]))
  {
    hide Explicit, LegacyOf, SortBy, Written, SortedBy, DistinctBy, FromTable, TablesOut;
    var r := ParseUpstreams(env, providers, present, note, raw);
    if r.Ok? {
      var explicit := Explicit(env, note, raw.table).value;
      var legacy := if present then LegacyOf(providers, Names(explicit), PROTOCOLS) else [];
      var kept := Written(r.value);
      ExplicitAre(env, note, raw.table);
      ExplicitDistinct(explicit, raw.table);
      FromTables(env, note, explicit);
      LegacyParts(providers, explicit, present, legacy);
      DistinctSum(explicit, legacy);
      SortByDistinct(ByName(), explicit + legacy);
      SortBySorts(ByName(), explicit + legacy);
      WrittenDistinct(r.value);
      assert forall u :: u in kept <==> u in explicit;
      TablesBack(env, note, kept);
      assert Names(kept) == Names(explicit);
      DistinctSum(kept, legacy);
      SortByDistinct(ByName(), kept + legacy);
      SortBySorts(ByName(), kept + legacy);
      SortedUnique(SortBy(ByName(), kept + legacy), r.value);
    }
  }

  lemma ExplicitDistinct(explicit: seq<Upstream>, tables: seq<Named>)
    requires DistinctTables(tables) && |explicit| == |tables|
    requires forall i :: 0 <= i < |tables| ==> explicit[i].name == tables[i].name
    ensures DistinctBy(ByName(), explicit)
  {
  }

  lemma FromTables(env: Platform, note: bool, explicit: seq<Upstream>)
    requires forall u :: u in explicit ==> FromTable(env, note, u)
    ensures forall u :: u in explicit ==> !u.legacy && u.body.Dict?
  {
    hide ParseUpstream, IsRouteName;
    forall u | u in explicit ensures !u.legacy && u.body.Dict? {
      var t :| ParseUpstream(env, note, u.name, t) == Ok(u);
      UpstreamBack(env, note, u.name, t);
    }
  }

  lemma {:induction false} LegacyBodies(providers: map<string, Provider>, names: set<string>, protocols: seq<string>)
    ensures forall u :: u in LegacyOf(providers, names, protocols) ==> u.body == Dict([])
    decreases |protocols|
  {
    hide Registers;
    if protocols != [] {
      LegacyBodies(providers, names, protocols[..|protocols| - 1]);
    }
  }

  lemma LegacyParts(providers: map<string, Provider>, explicit: seq<Upstream>, present: bool, legacy: seq<Upstream>)
    requires legacy == if present then LegacyOf(providers, Names(explicit), PROTOCOLS) else []
    ensures DistinctBy(ByName(), legacy)
    ensures forall u :: u in legacy ==> u.legacy && u.name !in Names(explicit) && u.body == Dict([])
  {
    hide LegacyOf;
    ProtocolsDiffer();
    if present {
      LegacyDistinct(providers, Names(explicit), PROTOCOLS);
      LegacyAre(providers, Names(explicit), PROTOCOLS);
      LegacyBodies(providers, Names(explicit), PROTOCOLS);
    }
  }

  /** The body defaults of a table hold no null. */
  predicate NullFreeTable(n: Named) {
    n.table.Table? && n.table.table.body.Some? ==> NullFree(n.table.table.body.value)
  }

  lemma UpstreamNulls(env: Platform, note: bool, name: string, t: UpstreamTable)
    ensures ParseUpstream(env, note, name, t).Ok? ==>
      (NullFree(ParseUpstream(env, note, name, t).value.body) <==> t.body.Some? ==> NullFree(t.body.value))
  {
    hide BaseUrl, Credential, Note, Usd, Tokens, Bounded, ExtraHeaders, Canonical, NullFree, HasJson;
    CanonicalNullFree(if t.body.Some? then t.body.value else Dict([]));
    EmptyIsNullFree();
  }

  lemma EmptyIsNullFree()
    ensures NullFree(Dict([]))
  {
  }

  lemma {:induction false} ExplicitNulls(env: Platform, note: bool, tables: seq<Named>)
    ensures Explicit(env, note, tables).Ok? ==>
      ((forall u :: u in Explicit(env, note, tables).value ==> NullFree(u.body))
       <==> forall n :: n in tables ==> NullFreeTable(n))
    decreases |tables|
  {
    hide ParseUpstream, IsRouteName, NullFree, NullFreeTable;
    if tables != [] && Explicit(env, note, tables).Ok? {
      var before, last := tables[..|tables| - 1], tables[|tables| - 1];
      assert tables == before + [last];
      ExplicitNulls(env, note, before);
      LastNulls(env, note, last);
    }
  }

  lemma LastNulls(env: Platform, note: bool, n: Named)
    requires n.table.Table?
    ensures var u := ParseUpstream(env, note, n.name, n.table.table);
      u.Ok? ==> (NullFree(u.value.body) <==> NullFreeTable(n))
  {
    hide ParseUpstream, NullFree;
    UpstreamNulls(env, note, n.name, n.table.table);
  }

  /** A configuration's upstreams hold no null exactly when no table they were read from does. */
  lemma UpstreamsNulls(env: Platform, providers: map<string, Provider>, present: bool, note: bool, raw: Raw<seq<Named>>)
    ensures var r := ParseUpstreams(env, providers, present, note, raw);
      r.Ok? ==>
        ((forall u :: u in r.value ==> NullFree(u.body)) <==> forall n :: n in raw.table ==> NullFreeTable(n))
  {
    hide Explicit, LegacyOf, SortBy, NullFree, NullFreeTable;
    var r := ParseUpstreams(env, providers, present, note, raw);
    if r.Ok? {
      var explicit := Explicit(env, note, raw.table).value;
      ExplicitNulls(env, note, raw.table);
      LegacyBodies(providers, Names(explicit), PROTOCOLS);
      EmptyIsNullFree();
    }
  }

  /** Every upstream speaks one of the protocols. */
  lemma UpstreamsSpeak(env: Platform, providers: map<string, Provider>, present: bool, note: bool, raw: Raw<seq<Named>>)
    ensures var r := ParseUpstreams(env, providers, present, note, raw);
      r.Ok? ==> forall u :: u in r.value ==> u.protocol in PROTOCOLS
  {
    hide Explicit, LegacyOf, SortBy, ParseUpstream;
    var r := ParseUpstreams(env, providers, present, note, raw);
    if r.Ok? {
      var explicit := Explicit(env, note, raw.table).value;
      ExplicitAre(env, note, raw.table);
      LegacySpeak(providers, Names(explicit), PROTOCOLS);
      forall u | u in explicit ensures u.protocol in PROTOCOLS {
        var t :| ParseUpstream(env, note, u.name, t) == Ok(u);
        UpstreamSpeaks(env, note, u.name, t);
      }
    }
  }

  lemma UpstreamSpeaks(env: Platform, note: bool, name: string, t: UpstreamTable)
    ensures ParseUpstream(env, note, name, t).Ok? ==> ParseUpstream(env, note, name, t).value.protocol in PROTOCOLS
  {
    hide BaseUrl, Credential, Note, Usd, Tokens, Bounded, ExtraHeaders, Body;
  }

  lemma {:induction false} LegacySpeak(providers: map<string, Provider>, names: set<string>, protocols: seq<string>)
    ensures forall u :: u in LegacyOf(providers, names, protocols) ==> u.protocol in protocols
    decreases |protocols|
  {
    hide Registers;
    if protocols != [] {
      LegacySpeak(providers, names, protocols[..|protocols| - 1]);
    }
  }
}
