/** The keys of a routing configuration one by one: what each may hold, what it stands for, and what
    an omitted one means (src/llm_redact/config.py). */
module RoutingKeys {
  import opened Wrappers
  import opened RoutingValues
  import opened RoutingUpstreams
  import opened RoutingRules

  // ---- one key ----

  predicate ReadsText(v: Option<Value>, omitted: string, s: string) {
    (v.None? && s == omitted) || v == Some(Str(s))
  }

  predicate ReadsFlag(v: Option<Value>, omitted: bool, b: bool) {
    (v.None? && b == omitted) || v == Some(Bool(b))
  }

  /** A number: a float as it is, an integer as the float it converts to. */
  ghost predicate ReadsReal(env: Platform, v: Option<Value>, omitted: real, x: real) {
    || (v.None? && x == omitted) || v == Some(Float(x))
    || exists i :: v == Some(Int(i)) && env.toFloat(i) == Some(x)
  }

  predicate ReadsInt(env: Platform, v: Option<Value>, omitted: int, n: int) {
    ((v.None? && n == omitted) || v == Some(Int(n))) && env.toFloat(n).Some?
  }

  predicate ReadsOptional(v: Option<Value>, s: Option<string>) {
    if s.None? then v.None? else s.value != "" && v == Some(Str(s.value))
  }

  /** A list of non-empty strings. */
  predicate ReadsStrings(v: Value, strings: seq<string>) {
    v.List? && |v.items| == |strings|
    && forall i :: 0 <= i < |strings| ==> strings[i] != "" && v.items[i] == Str(strings[i])
  }

  lemma FilledReads(v: Value, strings: seq<string>)
    ensures FilledStrings(v) == Ok(strings) <==> strings != [] && ReadsStrings(v, strings)
  {
    if strings != [] && ReadsStrings(v, strings) {
      NotEmpty(v.items, strings);
      assert Strings(v.items) == strings;
    }
    if FilledStrings(v) == Ok(strings) {
      forall i | 0 <= i < |strings| ensures strings[i] != "" {
        assert v.items[i] in v.items;
      }
    }
  }

  lemma NotEmpty(items: seq<Value>, strings: seq<string>)
    requires |items| == |strings| && forall i :: 0 <= i < |strings| ==> strings[i] != "" && items[i] == Str(strings[i])
    ensures AllStr(items) && Str("") !in items
  {
  }

  // ---- an upstream ----

  predicate IsCapital(n: int) { 65 <= n <= 90 }

  predicate IsSmall(n: int) { 97 <= n <= 122 }

  predicate IsFigure(n: int) { 48 <= n <= 57 }

  /** A variable's name: capital letters, figures and underscores, no figure first. */
  predicate IsVariable(s: string) {
    && s != "" && !IsFigure(s[0] as int)
    && forall c :: c in s ==> IsCapital(c as int) || IsFigure(c as int) || c as int == 95
  }

  /** A route's name: at most 64 letters, figures, underscores and hyphens, no hyphen first. */
  predicate IsName(s: string) {
    && 0 < |s| < 65 && s[0] as int != 45
    && forall c :: c in s ==>
         IsCapital(c as int) || IsSmall(c as int) || IsFigure(c as int) || c as int == 95 || c as int == 45
  }

  /** A header's name: letters, figures and the fifteen other characters of a token in section 5.6.2
      of RFC 9110. */
  predicate IsToken(s: string) {
    s != "" && forall c :: c in s ==> IsTokenCode(c as int)
  }

  predicate IsTokenCode(n: int) {
    || IsCapital(n) || IsSmall(n) || IsFigure(n) || n == 33 || 35 <= n <= 39 || n == 42 || n == 43 || n == 45 || n == 46
    || 94 <= n <= 96 || n == 124 || n == 126
  }

  lemma MembersAre(s: string, p: char -> bool)
    ensures (forall i :: 0 <= i < |s| ==> p(s[i])) <==> forall c :: c in s ==> p(c)
  {
    if forall c :: c in s ==> p(c) {
      forall i | 0 <= i < |s| ensures p(s[i]) {
        assert s[i] in s;
      }
    }
  }

  lemma NamesAre(s: string)
    ensures IsEnvVar(s) <==> IsVariable(s)
    ensures IsRouteName(s) <==> IsName(s)
    ensures IsHeaderName(s) <==> IsToken(s)
  {
    MembersAre(s, c => 'A' <= c <= 'Z' || '0' <= c <= '9' || c == '_');
    MembersAre(s, c => 'A' <= c <= 'Z' || 'a' <= c <= 'z' || '0' <= c <= '9' || c == '_' || c == '-');
    MembersAre(s, IsHeaderChar);
    forall c: char ensures IsHeaderChar(c) <==> IsTokenCode(c as int) {
      TokenIs(c);
    }
  }

  lemma TokenIs(c: char)
    ensures IsHeaderChar(c) <==> IsTokenCode(c as int)
  {
    var marks := "!#$%&'*+.^_`|~-";
    if c in marks {
      var i :| 0 <= i < |marks| && marks[i] == c;
    } else {
      assert forall i :: 0 <= i < |marks| ==> marks[i] != c;
      assert marks[0] == '!' && marks[1] == '#' && marks[2] == '$' && marks[3] == '%' && marks[4] == '&';
      assert marks[5] as int == 39 && marks[6] == '*' && marks[7] == '+' && marks[8] == '.' && marks[9] == '^';
      assert marks[10] == '_' && marks[11] == '`' && marks[12] == '|' && marks[13] == '~' && marks[14] == '-';
    }
  }

  /** Small letters for the capital ones. */
  lemma LowerIs(name: string, i: nat)
    requires i < |name|
    ensures Lower(name)[i] as int == if IsCapital(name[i] as int) then name[i] as int + 32 else name[i] as int
  {
  }

  /** A base address: what stands before any closing slashes, with one of two schemes. */
  ghost predicate ReadsAddress(v: Option<Value>, url: string) {
    && (url == "" || url[|url| - 1] != '/') && ("http://" <= url || "https://" <= url)
    && exists slashes :: AllSlashes(slashes) && v == Some(Str(url + slashes))
  }

  predicate AllSlashes(s: string) {
    forall i :: 0 <= i < |s| ==> s[i] == '/'
  }

  lemma {:induction false} StrippedSlashes(s: string) returns (slashes: string)
    ensures AllSlashes(slashes) && s == StripSlashes(s) + slashes
  {
    if s != "" && s[|s| - 1] == '/' {
      slashes := StrippedSlashes(s[..|s| - 1]);
      slashes := slashes + "/";
    } else {
      slashes := "";
    }
  }

  lemma {:induction false} StripsSlashes(url: string, slashes: string)
    requires AllSlashes(slashes) && (url == "" || url[|url| - 1] != '/')
    ensures StripSlashes(url + slashes) == url
    decreases |slashes|
  {
    if slashes == "" {
      assert url + slashes == url;
    } else {
      var s := url + slashes;
      assert s[..|s| - 1] == url + slashes[..|slashes| - 1];
      StripsSlashes(url, slashes[..|slashes| - 1]);
    }
  }

  lemma AddressReads(v: Option<Value>, url: string)
    ensures BaseUrl(v) == Ok(url) <==> ReadsAddress(v, url)
  {
    if BaseUrl(v) == Ok(url) {
      var slashes := StrippedSlashes(v.value.s);
    }
    if ReadsAddress(v, url) {
      var slashes :| AllSlashes(slashes) && v == Some(Str(url + slashes));
      StripsSlashes(url, slashes);
      assert url + slashes != "";
    }
  }

  /** A credential: "passthrough" when omitted, "none", or the name of a variable. */
  ghost predicate ReadsCredential(v: Option<Value>, credential: string) {
    && ReadsText(v, "passthrough", credential)
    && (credential == "passthrough" || credential == "none"
        || exists name :: IsVariable(name) && credential == "env:" + name)
  }

  lemma VariableOf(credential: string)
    ensures "env:" <= credential && IsEnvVar(credential[4..])
      <==> exists name :: IsVariable(name) && credential == "env:" + name
  {
    hide IsEnvVar, IsVariable;
    if "env:" <= credential {
      NamesAre(credential[4..]);
      assert credential == "env:" + credential[4..];
    }
    if exists name :: IsVariable(name) && credential == "env:" + name {
      var name :| IsVariable(name) && credential == "env:" + name;
      NamesAre(name);
      assert credential[4..] == name;
    }
  }

  lemma CredentialReads(v: Option<Value>, credential: string)
    ensures Credential(v) == Ok(credential) <==> ReadsCredential(v, credential)
  {
    hide IsEnvVar, IsVariable;
    VariableOf(credential);
    assert "env:"[0] == 'e' && "passthrough"[0] == 'p' && "none"[0] == 'n';
  }

  lemma RealReads(env: Platform, v: Option<Value>, omitted: real, x: real)
    ensures NumberKey(env, v, omitted) == Ok(x) <==> ReadsReal(env, v, omitted, x)
  {
  }

  lemma BudgetsRead(env: Platform, v: Option<Value>, usd: Option<real>, w: Option<Value>, tokens: Option<int>)
    ensures Usd(env, v) == Ok(usd) <==> ReadsUsd(env, v, usd)
    ensures Tokens(env, w) == Ok(tokens) <==> ReadsTokens(env, w, tokens)
  {
    hide ReadsReal, NumberKey;
    if usd.Some? {
      RealReads(env, v, 0.0, usd.value);
    }
  }

  lemma BoundedReads(env: Platform, v: Option<Value>, omitted: real, least: real, x: real)
    ensures Bounded(env, v, omitted, least) == Ok(x) <==> ReadsReal(env, v, omitted, x) && x >= least
  {
    hide ReadsReal, NumberKey;
    RealReads(env, v, omitted, x);
  }

  lemma NoteReads(v: Option<Value>, passthrough: bool, note: bool, b: bool)
    ensures Note(v, passthrough, note) == Ok(b) <==> ReadsFlag(v, !passthrough && note, b) && !(passthrough && b)
  {
  }

  lemma WordReads(v: Option<Value>, omitted: string, words: seq<string>, s: string)
    ensures WordKey(v, omitted, words) == Ok(s) <==> ReadsText(v, omitted, s) && s in words
  {
  }

  lemma WordsAre(s: string)
    ensures s in PROTOCOLS <==> s == "anthropic" || s == "openai" || s == "gemini" || s == "ollama"
    ensures s in COSTS <==> s == "metered" || s == "zero"
    ensures s in AUTH_KINDS <==> s == "oauth" || s == "gateway-key" || s == "none" || s == "any"
    ensures s in REISSUE_POLICIES <==> s == "stateless-only" || s == "always" || s == "never"
    ensures s in PLAN_LIMIT_DETECTION <==> s == "headers" || s == "off"
    ensures s in SPECIAL_STATUS_KEYS <==> s == "plan_limit_429" || s == "throttle_429"
    ensures s in CLASS_KEYS <==> s == "4xx" || s == "5xx"
  {
  }

  predicate IsProtocol(s: string) {
    s == "anthropic" || s == "openai" || s == "gemini" || s == "ollama"
  }

  predicate IsCost(s: string) {
    s == "metered" || s == "zero"
  }

  /** No header that carries a credential. */
  predicate NoCredentials(headers: seq<Entry>) {
    forall e :: e in headers ==> e.key != "authorization" && e.key != "x-api-key" && e.key != "x-goog-api-key"
  }

  ghost predicate ReadsUsd(env: Platform, v: Option<Value>, usd: Option<real>) {
    if usd.None? then v.None? else v.Some? && ReadsReal(env, v, 0.0, usd.value) && usd.value > 0.0
  }

  predicate ReadsTokens(env: Platform, v: Option<Value>, tokens: Option<int>) {
    if tokens.None? then v.None? else v.Some? && ReadsInt(env, v, 0, tokens.value) && tokens.value > 0
  }

  /** A passthrough upstream gets no note, no budget, no header and no default. */
  predicate IsBare(u: Upstream) {
    !u.injectNote && u.budgetUsd.None? && u.budgetTokens.None? && u.extraHeaders == [] && u.body == Dict([])
  }

  /** What a table says of its upstream: each key present is read, and each omitted one stands for the
      value named here. */
  ghost predicate UpstreamReads(env: Platform, note: bool, t: UpstreamTable, u: Upstream) {
    && !t.unknown && !u.legacy
    && t.protocol == Some(Str(u.protocol)) && IsProtocol(u.protocol)
    && ReadsAddress(t.baseUrl, u.baseUrl)
    && ReadsCredential(t.credential, u.credential)
    && ReadsText(t.cost, "metered", u.cost) && IsCost(u.cost)
    && ReadsFlag(t.injectNote, u.credential != "passthrough" && note, u.injectNote)
    && ReadsUsd(env, t.budgetUsd, u.budgetUsd)
    && ReadsTokens(env, t.budgetTokens, u.budgetTokens)
    && ReadsReal(env, t.cooldown, 60.0, u.cooldown) && u.cooldown >= 0.0
    && Headers(t.extraHeaders) == Ok(u.extraHeaders) && NoCredentials(u.extraHeaders)
    && Body(t.body) == Ok(u.body)
    && ReadsFlag(t.countTokens, true, u.countTokens)
    && (u.credential == "passthrough" ==> IsBare(u))
  }

  lemma UpstreamIs(env: Platform, note: bool, name: string, t: UpstreamTable, u: Upstream)
    ensures ParseUpstream(env, note, name, t) == Ok(u)
      <==> && u.name == name && !u.legacy && !t.unknown
           && RequiredStr(t.protocol) == Ok(u.protocol) && u.protocol in PROTOCOLS
           && BaseUrl(t.baseUrl) == Ok(u.baseUrl) && Credential(t.credential) == Ok(u.credential)
           && WordKey(t.cost, "metered", COSTS) == Ok(u.cost)
           && Note(t.injectNote, u.credential == "passthrough", note) == Ok(u.injectNote)
           && Usd(env, t.budgetUsd) == Ok(u.budgetUsd) && Tokens(env, t.budgetTokens) == Ok(u.budgetTokens)
           && Bounded(env, t.cooldown, 60.0, 0.0) == Ok(u.cooldown)
           && ExtraHeaders(t.extraHeaders) == Ok(u.extraHeaders) && Body(t.body) == Ok(u.body)
           && BoolKey(t.countTokens, true) == Ok(u.countTokens)
           && (u.credential == "passthrough" ==>
                 u.budgetUsd.None? && u.budgetTokens.None? && u.extraHeaders == [] && u.body == Dict([]))
  {
    hide RequiredStr, BaseUrl, Credential, WordKey, Note, Usd, Tokens, Bounded, ExtraHeaders, Body, BoolKey;
  }

  lemma SmallKeysRead(t: UpstreamTable, u: Upstream, note: bool)
    ensures RequiredStr(t.protocol) == Ok(u.protocol) && u.protocol in PROTOCOLS
      <==> t.protocol == Some(Str(u.protocol)) && IsProtocol(u.protocol)
    ensures WordKey(t.cost, "metered", COSTS) == Ok(u.cost) <==> ReadsText(t.cost, "metered", u.cost) && IsCost(u.cost)
    ensures BoolKey(t.countTokens, true) == Ok(u.countTokens) <==> ReadsFlag(t.countTokens, true, u.countTokens)
    ensures ExtraHeaders(t.extraHeaders) == Ok(u.extraHeaders)
      <==> Headers(t.extraHeaders) == Ok(u.extraHeaders) && NoCredentials(u.extraHeaders)
  {
    hide WordKey, Headers;
    WordReads(t.cost, "metered", COSTS, u.cost);
    WordsAre(u.cost);
    WordsAre(u.protocol);
  }

  /** A table is accepted, and as what, exactly as its keys read. */
  lemma UpstreamExactly(env: Platform, note: bool, name: string, t: UpstreamTable, u: Upstream)
    ensures ParseUpstream(env, note, name, t) == Ok(u) <==> u.name == name && UpstreamReads(env, note, t, u)
  {
    hide ParseUpstream, RequiredStr, BaseUrl, Credential, WordKey, BoolKey, Note, Usd, Tokens, Bounded, ExtraHeaders,
         Headers, Body, ReadsAddress, ReadsCredential, ReadsText, ReadsFlag, ReadsReal, ReadsUsd, ReadsTokens,
         NoCredentials, IsProtocol, IsCost;
    UpstreamIs(env, note, name, t, u);
    AddressReads(t.baseUrl, u.baseUrl);
    CredentialReads(t.credential, u.credential);
    SmallKeysRead(t, u, note);
    NoteReads(t.injectNote, u.credential == "passthrough", note, u.injectNote);
    BudgetsRead(env, t.budgetUsd, u.budgetUsd, t.budgetTokens, u.budgetTokens);
    BoundedReads(env, t.cooldown, 60.0, 0.0, u.cooldown);
  }

  /** What an upstream costs and may spend. */
  lemma SpendingMeans(u: Upstream)
    ensures u.IsPassthrough() <==> u.credential == "passthrough"
    ensures u.ZeroCost() <==> u.cost == "zero"
    ensures u.HasBudget() <==> u.cost != "zero" && (u.budgetUsd.Some? || u.budgetTokens.Some?)
  {
  }
}
