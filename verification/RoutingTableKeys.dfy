/** The keys of the [routing] table and of the tables of headers one by one, and which keys are left
    out when they are written (src/llm_redact/config.py, src/llm_redact/config_write.py). */
module RoutingTableKeys {
  import opened Wrappers
  import opened StringOrder
  import opened RoutingValues
  import opened RoutingUpstreams
  import opened RoutingRules
  import opened Routing
  import opened RoutingKeys
  import opened RoutingRuleKeys

  // ---- sorted lists ----

  /** Strictly in the order of their keys: the first difference decides, and a prefix comes first. */
  ghost predicate InKeyOrder(pairs: seq<Entry>) {
    forall i, j :: 0 <= i < j < |pairs| ==> ComesFirst(pairs[i].key, pairs[j].key)
  }

  lemma KeyOrder(pairs: seq<Entry>)
    requires DistinctBy(KeyOf(), pairs)
    ensures InKeyOrder(SortBy(KeyOf(), pairs))
  {
    hide SortedBy, DistinctBy, ComesFirst;
    var sorted := SortBy(KeyOf(), pairs);
    SortBySorts(KeyOf(), pairs);
    SortByDistinct(KeyOf(), pairs);
    forall i, j | 0 <= i < j < |sorted| ensures ComesFirst(sorted[i].key, sorted[j].key) {
      SortedFar(sorted, i, j);
      DistinctAt(sorted, i, j);
      AtMostIs(sorted[i].key, sorted[j].key);
    }
  }

  lemma {:induction false} SortedFar(pairs: seq<Entry>, i: nat, j: nat)
    requires SortedBy(KeyOf(), pairs) && i < j < |pairs|
    ensures AtMost(pairs[i].key, pairs[j].key)
    decreases j - i
  {
    assert AtMost(KeyOf()(pairs[j - 1]), KeyOf()(pairs[j]));
    if i < j - 1 {
      SortedFar(pairs, i, j - 1);
      AtMostIsTransitive(pairs[i].key, pairs[j - 1].key, pairs[j].key);
    }
  }

  lemma DistinctAt(pairs: seq<Entry>, i: nat, j: nat)
    requires DistinctBy(KeyOf(), pairs) && i < j < |pairs|
    ensures pairs[i].key != pairs[j].key
  {
    assert KeyOf()(pairs[i]) != KeyOf()(pairs[j]);
  }

  // ---- tables of headers ----

  function EntriesOf(v: Option<Value>): seq<Entry> {
    if v.Some? && v.value.Dict? then v.value.entries else []
  }

  /** No two names differ only in the case of their letters. */
  predicate DistinctLower(entries: seq<Entry>) {
    forall i, j :: 0 <= i < j < |entries| ==> Lower(entries[i].key) != Lower(entries[j].key)
  }

  lemma {:induction false} HeaderPairsRead(entries: seq<Entry>)
    ensures HeaderPairs(entries).Ok?
      <==> (forall e :: e in entries ==> e.value.Str? && IsHeaderName(e.key)) && DistinctLower(entries)
    ensures HeaderPairs(entries).Ok? ==>
      && |HeaderPairs(entries).value| == |entries|
      && forall i :: 0 <= i < |entries| ==>
           HeaderPairs(entries).value[i] == Entry(Lower(entries[i].key), entries[i].value)
    decreases |entries|
  {
    hide IsHeaderName, Lower, HeaderPairs, HasKey;
    if entries == [] {
      HeaderPairsStart(entries);
    } else {
      var n := |entries| - 1;
      HeaderPairsRead(entries[..n]);
      assert entries == entries[..n] + [entries[n]];
      assert entries[..n + 1] == entries;
      if HeaderPairs(entries[..n]).Ok? {
        HeaderPairsNext(entries, n);
        LowerAmong(HeaderPairs(entries[..n]).value, entries, n);
      } else {
        FailsEarlier(entries, n);
      }
    }
  }

  lemma FailsEarlier(entries: seq<Entry>, n: nat)
    requires n < |entries| && HeaderPairs(entries[..n]).Failed?
    ensures HeaderPairs(entries).Failed?
  {
    HeaderPairsFail(entries, n);
  }

  lemma LowerAmong(before: seq<Entry>, entries: seq<Entry>, n: nat)
    requires n < |entries| && |before| == n
    requires forall i :: 0 <= i < n ==> before[i] == Entry(Lower(entries[i].key), entries[i].value)
    ensures HasKey(before, Lower(entries[n].key))
      <==> exists i :: 0 <= i < n && Lower(entries[i].key) == Lower(entries[n].key)
  {
    hide Lower;
    if e :| e in before && e.key == Lower(entries[n].key) {
      var i :| 0 <= i < n && before[i] == e;
      assert Lower(entries[i].key) == Lower(entries[n].key);
    }
    if i :| 0 <= i < n && Lower(entries[i].key) == Lower(entries[n].key) {
      assert before[i] in before;
    }
  }

  /** A table of headers: none when omitted; every name a token and every value text, no name twice in
      any spelling. They are kept in small letters, sorted by name. */
  lemma HeadersRead(v: Option<Value>)
    ensures Headers(v).Ok?
      <==> && (v.None? || v.value.Dict?)
           && (forall e :: e in EntriesOf(v) ==> e.value.Str? && IsToken(e.key)) && DistinctLower(EntriesOf(v))
    ensures Headers(v).Ok? ==>
      var pairs := Headers(v).value;
      && |pairs| == |EntriesOf(v)| && InKeyOrder(pairs)
      && forall e :: e in pairs <==> exists x :: x in EntriesOf(v) && e == Entry(Lower(x.key), x.value)
  {
    hide HeaderPairs, SortBy, DistinctLower, IsToken, IsHeaderName, Lower, InKeyOrder, DistinctBy;
    var entries := EntriesOf(v);
    HeaderPairsRead(entries);
    forall e | e in entries ensures IsHeaderName(e.key) <==> IsToken(e.key) {
      NamesAre(e.key);
    }
    if v.None? || v.value.Dict? {
      if HeaderPairs(entries).Ok? {
        var pairs := HeaderPairs(entries).value;
        HeaderPairsHold(entries);
        KeyOrder(pairs);
        forall e ensures e in pairs <==> exists x :: x in entries && e == Entry(Lower(x.key), x.value) {
          if e in pairs {
            var i :| 0 <= i < |pairs| && pairs[i] == e;
            assert entries[i] in entries;
          }
          if x :| x in entries && e == Entry(Lower(x.key), x.value) {
            var i :| 0 <= i < |entries| && entries[i] == x;
            assert pairs[i] == e;
          }
        }
      }
    }
  }

  // ---- body defaults ----

  /** The canonical form: lists in their order, dictionaries sorted by key, everything else as it is. */
  lemma CanonicalMeans(v: Value)
    ensures match v
      case List(items) =>
        && Canonical(v).List? && |Canonical(v).items| == |items|
        && (forall i :: 0 <= i < |items| ==> Canonical(v).items[i] == Canonical(items[i]))
      case Dict(entries) =>
        && Canonical(v).Dict? && |Canonical(v).entries| == |entries|
        && (forall e ::
              e in Canonical(v).entries <==> exists x :: x in entries && e == Entry(x.key, Canonical(x.value)))
        && (DistinctBy(KeyOf(), entries) ==> InKeyOrder(Canonical(v).entries))
      case _ => Canonical(v) == v
  {
    hide InKeyOrder, DistinctBy, SortBy;
    match v
    case List(items) => ItemsMean(items);
    case Dict(entries) =>
      EntriesMean(entries);
      var all := CanonicalEntries(entries);
      forall e | exists x :: x in entries && e == Entry(x.key, Canonical(x.value)) ensures e in all {
        var x :| x in entries && e == Entry(x.key, Canonical(x.value));
        var i :| 0 <= i < |entries| && entries[i] == x;
        assert all[i] == e;
      }
      forall e | e in all ensures exists x :: x in entries && e == Entry(x.key, Canonical(x.value)) {
        var i :| 0 <= i < |all| && all[i] == e;
        assert entries[i] in entries;
      }
      if DistinctBy(KeyOf(), entries) {
        SameKeysDistinct(entries, all);
        KeyOrder(all);
      }
    case _ =>
  }

  lemma SameKeysDistinct(a: seq<Entry>, b: seq<Entry>)
    requires |a| == |b| && (forall i :: 0 <= i < |a| ==> a[i].key == b[i].key) && DistinctBy(KeyOf(), a)
    ensures DistinctBy(KeyOf(), b)
  {
    forall i, j | 0 <= i < j < |b| ensures KeyOf()(b[i]) != KeyOf()(b[j]) {
      DistinctAt(a, i, j);
    }
  }

  lemma {:induction false} ItemsMean(items: seq<Value>)
    ensures forall i :: 0 <= i < |items| ==> CanonicalItems(items)[i] == Canonical(items[i])
  {
    hide Canonical;
    if items != [] {
      ItemsMean(items[1..]);
    }
  }

  lemma {:induction false} EntriesMean(entries: seq<Entry>)
    ensures forall i :: 0 <= i < |entries| ==>
      CanonicalEntries(entries)[i] == Entry(entries[i].key, Canonical(entries[i].value))
  {
    hide Canonical;
    if entries != [] {
      EntriesMean(entries[1..]);
    }
  }

  /** Body defaults: none when omitted; a table without dates, times or floats that JSON lacks. */
  lemma BodyReads(v: Option<Value>, body: Value)
    ensures Body(v) == Ok(body)
      <==> || (v.None? && body == Dict([]))
           || (v.Some? && v.value.Dict? && JsonAllOver(v.value) && body == Canonical(v.value))
  {
    hide Canonical, HasJson, JsonAllOver;
    if v.None? {
      EmptyBody();
    } else {
      JsonIs(v.value);
    }
  }

  lemma EmptyBody()
    ensures HasJson(Dict([])) && Canonical(Dict([])) == Dict([])
  {
  }

  /** No value at any depth is Other. */
  predicate JsonAllOver(v: Value)
    decreases v
  {
    && v != Other
    && (v.List? ==> forall i :: 0 <= i < |v.items| ==> JsonAllOver(v.items[i]))
    && (v.Dict? ==> forall i :: 0 <= i < |v.entries| ==> JsonAllOver(v.entries[i].value))
  }

  lemma {:induction false} JsonIs(v: Value)
    ensures HasJson(v) <==> JsonAllOver(v)
    decreases v
  {
    match v
    case List(items) =>
      forall x | x in items ensures HasJson(x) <==> JsonAllOver(x) {
        JsonIs(x);
      }
    case Dict(entries) =>
      forall e | e in entries ensures HasJson(e.value) <==> JsonAllOver(e.value) {
        JsonIs(e.value);
      }
    case _ =>
  }

  // ---- default upstreams and plan limits ----

  /** None; the upstream of the name given, under its protocol; or a table of names, each of an
      upstream of the protocol that is its key. */
  lemma DefaultsRead(upstreams: seq<Upstream>, v: Option<Value>)
    ensures v.None? ==> Defaults(upstreams, v) == Ok([])
    ensures v.Some? && v.value.Str? ==>
      Defaults(upstreams, v)
      == if Lookup(upstreams, v.value.s).None? then Failed
         else Ok([Entry(Lookup(upstreams, v.value.s).value.protocol, v.value)])
    ensures v.Some? && v.value.Dict? ==>
      && (Defaults(upstreams, v).Ok?
          <==> forall e :: e in v.value.entries ==>
                 IsProtocol(e.key) && e.value.Str? && NamesUpstream(upstreams, e.value.s, e.key))
      && (Defaults(upstreams, v).Ok? ==>
            && |Defaults(upstreams, v).value| == |v.value.entries|
            && (forall e :: e in Defaults(upstreams, v).value <==> e in v.value.entries)
            && (DistinctBy(KeyOf(), v.value.entries) ==> InKeyOrder(Defaults(upstreams, v).value)))
    ensures v.Some? && !v.value.Str? && !v.value.Dict? ==> Defaults(upstreams, v).Failed?
  {
    hide Lookup, DistinctBy, InKeyOrder, SortBy;
    if v.Some? && v.value.Dict? {
      var entries := v.value.entries;
      DefaultPairsAre(upstreams, entries);
      forall e ensures IsDefault(upstreams, e)
                       <==> IsProtocol(e.key) && e.value.Str? && NamesUpstream(upstreams, e.value.s, e.key) {
        ProtocolIs(None, e.key);
      }
      if DistinctBy(KeyOf(), entries) {
        KeyOrder(entries);
      }
    }
  }

  /** The built-in plan-limit headers when omitted; else, in the table's order, each header in small
      letters with its list of non-empty strings. An empty table is refused, and so is a header that
      comes twice in any spelling. */
  ghost predicate ReadsLimits(v: Option<Value>, limits: seq<Limit>) {
    if v.None? then
      limits == [Limit("anthropic-ratelimit-unified-status", ["rejected"]),
                 Limit("anthropic-ratelimit-unified-5h-status", ["rejected"]),
                 Limit("anthropic-ratelimit-unified-7d-status", ["rejected"])]
    else v.value.Dict? && v.value.entries != [] && LimitsInOrder(v.value.entries, limits)
  }

  predicate LimitsInOrder(entries: seq<Entry>, limits: seq<Limit>) {
    && |limits| == |entries|
    && (forall i :: 0 <= i < |entries| ==>
          && IsToken(entries[i].key) && limits[i].name == Lower(entries[i].key)
          && limits[i].values != [] && ReadsStrings(entries[i].value, limits[i].values))
    && forall i, j :: 0 <= i < j < |limits| ==> limits[i].name != limits[j].name
  }

  lemma LimitsInOrderMore(entries: seq<Entry>, limits: seq<Limit>, last: Entry, limit: Limit)
    ensures LimitsInOrder(entries + [last], limits + [limit])
      <==> && LimitsInOrder(entries, limits)
           && IsToken(last.key) && limit.name == Lower(last.key)
           && limit.values != [] && ReadsStrings(last.value, limit.values) && !HasLimit(limits, limit.name)
  {
    hide IsToken, Lower, ReadsStrings;
    var entries', limits' := entries + [last], limits + [limit];
    if LimitsInOrder(entries', limits') {
      forall i | 0 <= i < |entries|
        ensures && IsToken(entries[i].key) && limits[i].name == Lower(entries[i].key)
                && limits[i].values != [] && ReadsStrings(entries[i].value, limits[i].values)
      {
        assert entries'[i] == entries[i] && limits'[i] == limits[i];
      }
      assert entries'[|entries|] == last && limits'[|entries|] == limit;
      forall i, j | 0 <= i < j < |limits| ensures limits[i].name != limits[j].name {
        assert limits'[i] == limits[i] && limits'[j] == limits[j];
      }
      forall l | l in limits ensures l.name != limit.name {
        var i :| 0 <= i < |limits| && limits[i] == l;
        assert limits'[i] == l;
      }
    }
    if LimitsInOrder(entries, limits) && !HasLimit(limits, limit.name) {
      forall i | 0 <= i < |limits| ensures limits[i].name != limit.name {
        assert limits[i] in limits;
      }
    }
  }

  lemma {:induction false} LimitPairsRead(entries: seq<Entry>, limits: seq<Limit>)
    ensures LimitPairs(entries) == Ok(limits) <==> LimitsInOrder(entries, limits)
    decreases |entries|
  {
    hide LimitPairs, LimitsInOrder, FilledStrings, IsToken, IsHeaderName, Lower, HasLimit, ReadsStrings;
    if entries == [] || limits == [] {
      NoLimitsRead(entries, limits);
    } else {
      var before, last := entries[..|entries| - 1], entries[|entries| - 1];
      var before', limit := limits[..|limits| - 1], limits[|limits| - 1];
      assert entries == before + [last] && limits == before' + [limit];
      LimitPairsRead(before, before');
      LimitPairsMore(before, last);
      LimitsInOrderMore(before, before', last, limit);
      NamesAre(last.key);
      FilledReads(last.value, limit.values);
      if LimitPairs(entries) == Ok(limits) {
        LimitPairsRead(before, LimitPairs(before).value);
        assert LimitPairs(before).value == before' && limit == Limit(Lower(last.key), FilledStrings(last.value).value);
      }
    }
  }

  lemma NoLimitsRead(entries: seq<Entry>, limits: seq<Limit>)
    requires entries == [] || limits == []
    ensures LimitPairs(entries) == Ok(limits) <==> LimitsInOrder(entries, limits)
  {
    hide FilledStrings, IsHeaderName, Lower, HasLimit;
  }

  lemma LimitsRead(v: Option<Value>, limits: seq<Limit>)
    ensures Limits(v) == Ok(limits) <==> ReadsLimits(v, limits)
  {
    hide LimitPairs, LimitsInOrder;
    if v.Some? && v.value.Dict? {
      LimitPairsRead(v.value.entries, limits);
    }
  }

  // ---- the [routing] table ----

  /** The marker: the text, or the built-in one, without the spaces around it. */
  ghost predicate ReadsMarker(env: Platform, v: Option<Value>, marker: string) {
    && marker != "" && !env.isSpace(marker[0]) && !env.isSpace(marker[|marker| - 1])
    && exists before, after ::
         AllSpaces(env.isSpace, before) && AllSpaces(env.isSpace, after)
         && ReadsText(v, "oauth-2025-04-20", before + (marker + after))
  }

  predicate AllSpaces(isSpace: char -> bool, s: string) {
    forall i :: 0 <= i < |s| ==> isSpace(s[i])
  }

  lemma {:induction false} StrippedLeft(isSpace: char -> bool, s: string) returns (before: string)
    ensures s == before + StripLeft(isSpace, s) && AllSpaces(isSpace, before)
  {
    if s != "" && isSpace(s[0]) {
      before := StrippedLeft(isSpace, s[1..]);
      before := [s[0]] + before;
    } else {
      before := "";
    }
  }

  lemma {:induction false} StrippedRight(isSpace: char -> bool, s: string) returns (after: string)
    ensures s == StripRight(isSpace, s) + after && AllSpaces(isSpace, after)
  {
    if s != "" && isSpace(s[|s| - 1]) {
      after := StrippedRight(isSpace, s[..|s| - 1]);
      after := after + [s[|s| - 1]];
    } else {
      after := "";
    }
  }

  lemma {:induction false} StripsLeft(isSpace: char -> bool, before: string, s: string)
    requires AllSpaces(isSpace, before) && (s != "" ==> !isSpace(s[0]))
    ensures StripLeft(isSpace, before + s) == s
  {
    if before == "" {
      assert before + s == s;
    } else {
      assert (before + s)[1..] == before[1..] + s;
      StripsLeft(isSpace, before[1..], s);
    }
  }

  lemma {:induction false} StripsRight(isSpace: char -> bool, s: string, after: string)
    requires AllSpaces(isSpace, after) && (s != "" ==> !isSpace(s[|s| - 1]))
    ensures StripRight(isSpace, s + after) == s
    decreases |after|
  {
    if after == "" {
      assert s + after == s;
    } else {
      assert (s + after)[..|s + after| - 1] == s + after[..|after| - 1];
      StripsRight(isSpace, s, after[..|after| - 1]);
    }
  }

  lemma MarkerParts(isSpace: char -> bool, s: string) returns (before: string, after: string)
    ensures s == before + (StripRight(isSpace, StripLeft(isSpace, s)) + after)
    ensures AllSpaces(isSpace, before) && AllSpaces(isSpace, after)
  {
    hide StripLeft, StripRight, AllSpaces;
    before := StrippedLeft(isSpace, s);
    after := StrippedRight(isSpace, StripLeft(isSpace, s));
  }

  lemma PartsStripped(isSpace: char -> bool, before: string, marker: string, after: string)
    requires AllSpaces(isSpace, before) && AllSpaces(isSpace, after)
    requires marker != "" && !isSpace(marker[0]) && !isSpace(marker[|marker| - 1])
    ensures StripRight(isSpace, StripLeft(isSpace, before + (marker + after))) == marker
  {
    hide StripLeft, StripRight, AllSpaces;
    assert (marker + after)[0] == marker[0];
    StripsLeft(isSpace, before, marker + after);
    StripsRight(isSpace, marker, after);
  }

  lemma MarkerReads(env: Platform, v: Option<Value>, marker: string)
    ensures Marker(env, v) == Ok(marker) <==> ReadsMarker(env, v, marker)
  {
    hide StripLeft, StripRight, AllSpaces, ReadsText;
    if Marker(env, v) == Ok(marker) {
      var s := StrKey(v, "oauth-2025-04-20").value;
      var before, after := MarkerParts(env.isSpace, s);
      StrippedEnds(env.isSpace, s);
      TextReads(v, "oauth-2025-04-20", s);
    }
    if ReadsMarker(env, v, marker) {
      var before, after :| AllSpaces(env.isSpace, before) && AllSpaces(env.isSpace, after)
                           && ReadsText(v, "oauth-2025-04-20", before + (marker + after));
      TextReads(v, "oauth-2025-04-20", before + (marker + after));
      PartsStripped(env.isSpace, before, marker, after);
    }
  }

  lemma TextReads(v: Option<Value>, omitted: string, s: string)
    ensures StrKey(v, omitted) == Ok(s) <==> ReadsText(v, omitted, s)
  {
  }

  predicate ReadsCatalog(v: Option<Value>, catalog: seq<string>) {
    (v.None? && catalog == []) || (v.Some? && ReadsStrings(v.value, catalog))
  }

  lemma CatalogReads(v: Option<Value>, catalog: seq<string>)
    ensures StrListKey(v) == Ok(catalog) <==> ReadsCatalog(v, catalog)
  {
    if v.Some? && v.value.List? {
      if ReadsStrings(v.value, catalog) {
        NotEmpty(v.value.items, catalog);
        assert Strings(v.value.items) == catalog;
      }
      if StrListKey(v) == Ok(catalog) {
        forall i | 0 <= i < |catalog| ensures catalog[i] != "" {
          assert v.value.items[i] in v.value.items;
        }
      }
    }
  }

  predicate IsDetection(s: string) {
    s == "headers" || s == "off"
  }

  /** A warning for a default upstream whose cost is not "zero". */
  function SpendingOn(upstreams: seq<Upstream>, e: Entry): seq<Warning> {
    if e.value.Str? && Lookup(upstreams, e.value.s).Some? && Lookup(upstreams, e.value.s).value.cost != "zero"
    then [SpendingDefault(e.key, e.value.s)] else []
  }

  /** These warnings in the order of the defaults. */
  function SpendingIn(upstreams: seq<Upstream>, defaults: seq<Entry>): seq<Warning> {
    if defaults == [] then [] else SpendingOn(upstreams, defaults[0]) + SpendingIn(upstreams, defaults[1..])
  }

  lemma {:induction false} SpendingMore(upstreams: seq<Upstream>, defaults: seq<Entry>, e: Entry)
    ensures SpendingIn(upstreams, defaults + [e]) == SpendingIn(upstreams, defaults) + SpendingOn(upstreams, e)
  {
    hide SpendingOn;
    if defaults == [] {
      assert [] + [e] == [e] && [e][1..] == [];
    } else {
      SpendingMore(upstreams, defaults[1..], e);
      assert (defaults + [e])[1..] == defaults[1..] + [e];
    }
  }

  lemma {:induction false} SpendingIs(upstreams: seq<Upstream>, defaults: seq<Entry>)
    ensures Spending(upstreams, defaults) == SpendingIn(upstreams, defaults)
    decreases |defaults|
  {
    hide Lookup, SpendingIn;
    if defaults == [] {
      NoSpending(upstreams);
    } else {
      var before, last := defaults[..|defaults| - 1], defaults[|defaults| - 1];
      assert defaults == before + [last];
      SpendingIs(upstreams, before);
      SpendingMore(upstreams, before, last);
    }
  }

  lemma NoSpending(upstreams: seq<Upstream>)
    ensures SpendingIn(upstreams, []) == []
  {
  }

  predicate ReadsRuleList(v: Option<RuleTables>, tables: seq<Raw<RuleTable>>) {
    (v.None? && tables == []) || v == Some(Tables(tables))
  }

  /** What the table says of the configuration: each key present is read, each omitted one stands for
      the value named here; with routing enabled there is a default upstream. */
  ghost predicate RoutingReads(env: Platform, upstreams: seq<Upstream>, t: RoutingTable, c: Config) {
    && !t.unknown && c.present && c.upstreams == upstreams
    && ReadsFlag(t.enabled, false, c.enabled)
    && Defaults(upstreams, t.defaults) == Ok(c.defaults) && (c.enabled ==> c.defaults != [])
    && ReadsInt(env, t.maxHops, 3, c.maxHops) && c.maxHops >= 1
    && ReadsReal(env, t.deadline, 600.0, c.deadline) && c.deadline > 0.0
    && ReadsText(t.detection, "headers", c.detection) && IsDetection(c.detection)
    && ReadsLimits(t.limits, c.limits)
    && ReadsMarker(env, t.marker, c.marker)
    && ReadsReal(env, t.throttle, 30.0, c.throttle) && c.throttle >= 0.0
    && ReadsInt(env, t.resetDay, 1, c.resetDay) && 1 <= c.resetDay <= 28
    && ReadsFlag(t.debug, false, c.debug)
    && ReadsFlag(t.expose, false, c.expose)
    && ReadsCatalog(t.catalog, c.catalog)
    && exists tables, warnings ::
         && ReadsRuleList(t.rules, tables) && ParseRules(env, upstreams, tables) == Ok((c.rules, warnings))
         && c.warnings == warnings + if c.enabled then SpendingIn(upstreams, c.defaults) else []
  }

  lemma NumbersRead(env: Platform, v: Option<Value>, n: int, x: real)
    ensures Hops(env, v) == Ok(n) <==> ReadsInt(env, v, 3, n) && n >= 1
    ensures ResetDay(env, v) == Ok(n) <==> ReadsInt(env, v, 1, n) && 1 <= n <= 28
    ensures Deadline(env, v) == Ok(x) <==> ReadsReal(env, v, 600.0, x) && x > 0.0
  {
    hide ReadsReal, NumberKey;
    RealReads(env, v, 600.0, x);
  }

  lemma DetectionReads(v: Option<Value>, s: string)
    ensures WordKey(v, "headers", PLAN_LIMIT_DETECTION) == Ok(s) <==> ReadsText(v, "headers", s) && IsDetection(s)
  {
    hide WordKey, ReadsText;
    WordReads(v, "headers", PLAN_LIMIT_DETECTION, s);
    WordsAre(s);
  }

  lemma FlagReads(v: Option<Value>, b: bool)
    ensures BoolKey(v, false) == Ok(b) <==> ReadsFlag(v, false, b)
  {
  }

  lemma RuleListReads(v: Option<RuleTables>, tables: seq<Raw<RuleTable>>)
    ensures RuleList(v) == Ok(tables) <==> ReadsRuleList(v, tables)
  {
  }

  /** The parts a configuration is read from. */
  ghost predicate HasParts(env: Platform, upstreams: seq<Upstream>, t: RoutingTable, c: Config,
                           tables: seq<Raw<RuleTable>>, warnings: seq<Warning>) {
    && !t.unknown && c.present && c.upstreams == upstreams
    && BoolKey(t.enabled, false) == Ok(c.enabled)
    && Defaults(upstreams, t.defaults) == Ok(c.defaults) && (c.enabled ==> c.defaults != [])
    && Hops(env, t.maxHops) == Ok(c.maxHops) && Deadline(env, t.deadline) == Ok(c.deadline)
    && WordKey(t.detection, "headers", PLAN_LIMIT_DETECTION) == Ok(c.detection)
    && Limits(t.limits) == Ok(c.limits) && Marker(env, t.marker) == Ok(c.marker)
    && Bounded(env, t.throttle, 30.0, 0.0) == Ok(c.throttle) && ResetDay(env, t.resetDay) == Ok(c.resetDay)
    && BoolKey(t.debug, false) == Ok(c.debug) && BoolKey(t.expose, false) == Ok(c.expose)
    && StrListKey(t.catalog) == Ok(c.catalog)
    && RuleList(t.rules) == Ok(tables) && ParseRules(env, upstreams, tables) == Ok((c.rules, warnings))
    && c.warnings == warnings + if c.enabled then Spending(upstreams, c.defaults) else []
  }

  lemma PartsAre(env: Platform, upstreams: seq<Upstream>, t: RoutingTable, c: Config)
    ensures ParseRouting(env, upstreams, Some(Table(t))) == Ok(c)
      <==> exists tables, warnings :: HasParts(env, upstreams, t, c, tables, warnings)
  {
    hide BoolKey, Defaults, Hops, Deadline, WordKey, Limits, Marker, Bounded, ResetDay, StrListKey, RuleList,
         ParseRules, Spending;
    if ParseRouting(env, upstreams, Some(Table(t))) == Ok(c) {
      var tables := RuleList(t.rules).value;
      assert HasParts(env, upstreams, t, c, tables, ParseRules(env, upstreams, tables).value.1);
    }
  }

  lemma PartsRead(env: Platform, upstreams: seq<Upstream>, t: RoutingTable, c: Config)
    ensures (exists tables, warnings :: HasParts(env, upstreams, t, c, tables, warnings))
      <==> RoutingReads(env, upstreams, t, c)
  {
    hide BoolKey, Defaults, Hops, Deadline, WordKey, Limits, Marker, Bounded, ResetDay, StrListKey, RuleList,
         ParseRules, Spending, SpendingIn, ReadsFlag, ReadsInt, ReadsReal, ReadsText, ReadsLimits, ReadsMarker,
         ReadsCatalog, ReadsRuleList, IsDetection;
    FlagReads(t.enabled, c.enabled);
    FlagReads(t.debug, c.debug);
    FlagReads(t.expose, c.expose);
    NumbersRead(env, t.maxHops, c.maxHops, c.deadline);
    NumbersRead(env, t.deadline, c.maxHops, c.deadline);
    NumbersRead(env, t.resetDay, c.resetDay, c.deadline);
    DetectionReads(t.detection, c.detection);
    LimitsRead(t.limits, c.limits);
    MarkerReads(env, t.marker, c.marker);
    BoundedReads(env, t.throttle, 30.0, 0.0, c.throttle);
    CatalogReads(t.catalog, c.catalog);
    SpendingIs(upstreams, c.defaults);
    if exists tables, warnings :: HasParts(env, upstreams, t, c, tables, warnings) {
      var tables, warnings :| HasParts(env, upstreams, t, c, tables, warnings);
      RuleListReads(t.rules, tables);
    }
    if RoutingReads(env, upstreams, t, c) {
      var tables, warnings :|
        && ReadsRuleList(t.rules, tables) && ParseRules(env, upstreams, tables) == Ok((c.rules, warnings))
        && c.warnings == warnings + if c.enabled then SpendingIn(upstreams, c.defaults) else [];
      RuleListReads(t.rules, tables);
      assert HasParts(env, upstreams, t, c, tables, warnings);
    }
  }

  /** A [routing] table is accepted, and as what, exactly as its keys read; without one, routing is
      off, every value is the built-in one, and any upstreams are said to be inert. */
  lemma RoutingExactly(env: Platform, upstreams: seq<Upstream>, t: RoutingTable, c: Config)
    ensures ParseRouting(env, upstreams, Some(Table(t))) == Ok(c) <==> RoutingReads(env, upstreams, t, c)
    ensures ParseRouting(env, upstreams, Some(NotATable)).Failed?
    ensures ParseRouting(env, upstreams, None).Ok?
    ensures var off := ParseRouting(env, upstreams, None).value;
      && !off.enabled && !off.present && off.upstreams == upstreams && off.defaults == [] && off.rules == []
      && off.maxHops == 3 && off.deadline == 600.0 && off.detection == "headers" && ReadsLimits(None, off.limits)
      && off.marker == "oauth-2025-04-20" && off.throttle == 30.0 && off.resetDay == 1 && !off.debug && !off.expose
      && off.catalog == [] && off.warnings == if upstreams == [] then [] else [Inert]
  {
    hide HasParts, RoutingReads;
    PartsAre(env, upstreams, t, c);
    PartsRead(env, upstreams, t, c);
  }

  // ---- all upstreams ----

  /** The upstreams of the tables, in their order: every table is one, under a fitting name, and reads. */
  ghost predicate TablesRead(env: Platform, note: bool, tables: seq<Named>, us: seq<Upstream>) {
    && |us| == |tables|
    && forall i :: 0 <= i < |us| ==>
         && IsName(tables[i].name) && us[i].name == tables[i].name && tables[i].table.Table?
         && UpstreamReads(env, note, tables[i].table.table, us[i])
  }

  lemma TablesReadMore(env: Platform, note: bool, tables: seq<Named>, us: seq<Upstream>, last: Named, u: Upstream)
    ensures TablesRead(env, note, tables + [last], us + [u])
      <==> && TablesRead(env, note, tables, us)
           && IsName(last.name) && u.name == last.name && last.table.Table?
           && UpstreamReads(env, note, last.table.table, u)
  {
    hide IsName, UpstreamReads;
    var tables', us' := tables + [last], us + [u];
    if TablesRead(env, note, tables', us') {
      forall i | 0 <= i < |us|
        ensures && IsName(tables[i].name) && us[i].name == tables[i].name && tables[i].table.Table?
                && UpstreamReads(env, note, tables[i].table.table, us[i])
      {
        assert tables'[i] == tables[i] && us'[i] == us[i];
      }
      assert tables'[|tables|] == last && us'[|us|] == u;
    }
  }

  lemma {:induction false} ExplicitExactly(env: Platform, note: bool, tables: seq<Named>, us: seq<Upstream>)
    ensures Explicit(env, note, tables) == Ok(us) <==> TablesRead(env, note, tables, us)
    decreases |tables|
  {
    hide TablesRead, UpstreamReads, ParseUpstream, IsName, IsRouteName, Explicit;
    if tables == [] || us == [] {
      NoTablesRead(env, note, tables, us);
    } else {
      var before, last := tables[..|tables| - 1], tables[|tables| - 1];
      var before', u := us[..|us| - 1], us[|us| - 1];
      assert tables == before + [last] && us == before' + [u];
      ExplicitMore(env, note, before, last);
      TablesReadMore(env, note, before, before', last, u);
      NamesAre(last.name);
      ExplicitExactly(env, note, before, before');
      if last.table.Table? {
        UpstreamExactly(env, note, last.name, last.table.table, u);
      }
      if Explicit(env, note, tables) == Ok(us) {
        assert Explicit(env, note, before).value == before';
      }
    }
  }

  lemma NoTablesRead(env: Platform, note: bool, tables: seq<Named>, us: seq<Upstream>)
    requires tables == [] || us == []
    ensures Explicit(env, note, tables) == Ok(us) <==> TablesRead(env, note, tables, us)
  {
    hide ParseUpstream;
  }

  /** A provider enabled with an address stands for a passthrough upstream of its own protocol. */
  ghost predicate IsRegistered(providers: map<string, Provider>, u: Upstream) {
    && IsProtocol(u.name) && u.name in providers && providers[u.name].enabled
    && u.protocol == u.name && u.credential == "passthrough" && u.cost == "metered" && IsBare(u)
    && u.countTokens && u.cooldown == 60.0 && u.legacy
    && exists url :: providers[u.name].baseUrl == Some(url) && url != "" && u.baseUrl == StripSlashes(url)
  }

  lemma {:induction false} LegacyIs(providers: map<string, Provider>, names: set<string>, protocols: seq<string>,
                                    u: Upstream)
    requires forall p :: p in protocols ==> IsProtocol(p)
    ensures u in LegacyOf(providers, names, protocols)
      <==> u.name in protocols && u.name !in names && IsRegistered(providers, u)
    decreases |protocols|
  {
    hide StripSlashes, IsProtocol;
    if protocols != [] {
      var before, last := protocols[..|protocols| - 1], protocols[|protocols| - 1];
      assert protocols == before + [last];
      LegacyIs(providers, names, before, u);
      OneRegistered(providers, names, last, u);
    }
  }

  lemma OneRegistered(providers: map<string, Provider>, names: set<string>, name: string, u: Upstream)
    requires IsProtocol(name)
    ensures Registers(providers, names, name) && u == LegacyUpstream(name, providers[name].baseUrl.value)
      <==> u.name == name && name !in names && IsRegistered(providers, u)
  {
    hide StripSlashes, IsProtocol;
  }

  /** The configuration's upstreams: those of the tables and, where there is a [routing] table, the
      registered ones whose name no table has; sorted by name, one for each name. */
  lemma UpstreamsExactly(env: Platform, providers: map<string, Provider>, present: bool, note: bool,
                         raw: Raw<seq<Named>>)
    ensures var r := ParseUpstreams(env, providers, present, note, raw);
      && (r.Ok? <==> raw.Table? && exists us :: TablesRead(env, note, raw.table, us))
      && (r.Ok? ==>
            forall us :: TablesRead(env, note, raw.table, us) ==>
              && (forall u ::
                    u in r.value <==> u in us || (present && IsRegistered(providers, u) && u.name !in Names(us)))
              && SortedBy(ByName(), r.value)
              && (DistinctTables(raw.table) ==> DistinctBy(ByName(), r.value)))
  {
    hide TablesRead, IsRegistered, SortBy, Explicit, LegacyOf, DistinctBy, SortedBy, DistinctTables, IsProtocol;
    var r := ParseUpstreams(env, providers, present, note, raw);
    if raw.Table? {
      if DistinctTables(raw.table) {
        UpstreamsBack(env, providers, present, note, raw);
      }
      forall us ensures Explicit(env, note, raw.table) == Ok(us) <==> TablesRead(env, note, raw.table, us) {
        ExplicitExactly(env, note, raw.table, us);
      }
      if r.Ok? {
        var us := Explicit(env, note, raw.table).value;
        SortBySorts(ByName(), us + if present then LegacyOf(providers, Names(us), PROTOCOLS) else []);
        forall p ensures p in PROTOCOLS <==> IsProtocol(p) {
          ProtocolIs(None, p);
        }
        forall u ensures u in LegacyOf(providers, Names(us), PROTOCOLS)
                         <==> u.name !in Names(us) && IsRegistered(providers, u) {
          LegacyIs(providers, Names(us), PROTOCOLS, u);
          RegisteredIsProtocol(providers, u);
        }
        assert forall us' :: TablesRead(env, note, raw.table, us') ==> us' == us;
      }
    }
  }

  lemma RegisteredIsProtocol(providers: map<string, Provider>, u: Upstream)
    ensures IsRegistered(providers, u) ==> IsProtocol(u.name)
  {
    hide IsProtocol;
  }

  // ---- writing ----

  /** No null at any depth. */
  predicate NoNullInside(v: Value)
    decreases v
  {
    && v != Null
    && (v.List? ==> forall i :: 0 <= i < |v.items| ==> NoNullInside(v.items[i]))
    && (v.Dict? ==> forall i :: 0 <= i < |v.entries| ==> NoNullInside(v.entries[i].value))
  }

  lemma {:induction false} NullFreeIs(v: Value)
    ensures NullFree(v) <==> NoNullInside(v)
    decreases v
  {
    match v
    case List(items) =>
      forall x | x in items ensures NullFree(x) <==> NoNullInside(x) {
        NullFreeIs(x);
      }
    case Dict(entries) =>
      forall e | e in entries ensures NullFree(e.value) <==> NoNullInside(e.value) {
        NullFreeIs(e.value);
      }
    case _ =>
  }

  /** The keys an upstream is written without, and when; all others are written, default or not. */
  lemma UpstreamKeysLeftOut(note: bool, u: Upstream)
    ensures var t := UpstreamOut(note, u);
      && t.protocol.Some? && t.baseUrl.Some? && t.credential.Some? && t.cost.Some? && t.countTokens.Some?
      && t.cooldown.Some? && !t.unknown
      && (t.injectNote.None? <==> u.injectNote == (u.credential != "passthrough" && note))
      && (t.budgetUsd.None? <==> u.budgetUsd.None?) && (t.budgetTokens.None? <==> u.budgetTokens.None?)
      && (t.extraHeaders.None? <==> u.extraHeaders == []) && (t.body.None? <==> u.body == Dict([]))
  {
    hide DictOf;
  }

  /** The same of a rule and what it matches. */
  lemma RuleKeysLeftOut(rule: Rule)
    ensures var t := RuleOut(rule);
      && t.id.Some? && t.matches.Some? && t.upstream.Some? && t.reissuePolicy.Some? && !t.unknown
      && (t.modelRewrite.None? <==> rule.modelRewrite.None?) && (t.onStatus.None? <==> rule.onStatus == [])
      && (t.onBudget.None? <==> rule.onBudget == []) && t.matches.value.Table?
    ensures var m := RuleOut(rule).matches.value.table;
      && m.protocol.Some? && m.auth.Some? && !m.unknown
      && (m.model.None? <==> rule.matches.models == []) && (m.headers.None? <==> rule.matches.headers == [])
      && (m.path.None? <==> rule.matches.path.None?)
  {
    hide DictOf, StatusEntries;
  }

  /** The same of the [routing] table, which is itself left out when there was none. */
  lemma RoutingKeysLeftOut(c: Config)
    ensures RoutingOut(c).None? <==> !c.present
    ensures c.present ==>
      && RoutingOut(c).value.Table?
      && var t := RoutingOut(c).value.table;
        && t.enabled.Some? && t.maxHops.Some? && t.deadline.Some? && t.detection.Some? && t.marker.Some?
        && t.throttle.Some? && t.resetDay.Some? && t.debug.Some? && t.expose.Some? && !t.unknown
        && (t.defaults.None? <==> c.defaults == []) && (t.catalog.None? <==> c.catalog == [])
        && (t.limits.None? <==> ReadsLimits(None, c.limits)) && (t.rules.None? <==> c.rules == [])
  {
    hide DictOf, LimitEntries, RulesOut;
  }
}
