/** The post-processing of server/agentResponse.js: the search term taken from the user's
    query, the ordered image candidates of each aggregated event, the reachability rule that
    picks one of them, and the response assembled around the aggregated events. */
module AgentResponse {
  import opened Wrappers
  import opened Js
  import opened Text
  import opened Seqs
  import opened Catalog
  import opened AggregateEvents

  /** The search term used when the query is missing or blank. */
  const DEFAULT_QUERY: string := "events in Washington, DC happening this week"

  /** The meta tags that may carry a page's preview image, in order of preference. */
  const OG_KEYS: seq<string> := ["og:image", "og:image:url", "twitter:image", "twitter:image:src"]

  /** How many leading characters of a fetched page are searched for meta tags. */
  const SNIPPET_LENGTH: nat := 200000

  /** `new URL(s)` reduced to the two parts used here. */
  datatype Url = Url(protocol: string, hostname: string)

  /** The answer to a HEAD request: a status with its content-type header, or a thrown error. */
  datatype Probe = Response(status: int, contentType: Option<string>) | Failed

  /** The answer to a GET of an event page: `ok`, the final URL after redirects and the body,
      or a thrown error. */
  datatype Page = Page(ok: bool, finalUrl: string, body: string) | Unreachable

  /** What the pipeline takes from outside:
      - `parseUrl`: `new URL(s)`, None when it throws;
      - `resolveUrl`: `new URL(raw, base).toString()`, None when it throws;
      - `fetchPage` and `probe`: the network's answers to a GET and to a HEAD request;
      - `metaTag(html, key)`: the first `<meta ...>` tag whose property or name is `key`;
      - `contentOf(tag)`: the value of that tag's `content` attribute;
      - `matches(topic, haystack)`: the topic's case-insensitive pattern of the curated table;
      - `ask(prompt)`: the agent's reply to the user prompt, parsed as JSON, or None when the
        reply has no text output or the text is not JSON. */
  datatype Env = Env(
    parseUrl: string -> Option<Url>,
    resolveUrl: (string, string) -> Option<string>,
    fetchPage: string -> Page,
    metaTag: (string, string) -> Option<string>,
    contentOf: string -> Option<string>,
    matches: (Topic, string) -> bool,
    probe: string -> Probe,
    ask: string -> Option<AgentOutput>)

  /** A JSON value. */
  datatype Json = JNull | JBool(b: bool) | JNumber(n: int) | JString(s: string) | JArray(items: seq<Json>) | JObject(fields: map<string, Json>)

  /** The agent's parsed reply: its `events` when that is an array, its `meta` object when
      that is not null or undefined, and its other top-level fields. */
  datatype AgentOutput = AgentOutput(events: Option<seq<RawEntry>>, meta: Option<map<string, Json>>, others: map<string, Json>)

  /** What createAgentResponse does: it throws for a missing key, hands back the agent's
      response untouched when no event array can be read from it, and otherwise returns the
      reply with its events replaced and its meta carrying the count. */
  datatype Outcome =
    | MissingApiKey
    | RawResponse
    | Processed(events: seq<Event>, meta: map<string, Json>, others: map<string, Json>)

  // ---------------------------------------------------------------------------------------
  // The search term.

  predicate IsTrailingPunctuation(c: char) {
    c == '.' || c == '?' || c == '!'
  }

  /** `s.replace(/[.?!]+$/, '')`: the longest run of '.', '?' and '!' at the end is removed. */
  function StripTrailingPunctuation(s: string): (r: string)
    ensures |r| <= |s| && r == s[..|r|]
    ensures forall i :: |r| <= i < |s| ==> IsTrailingPunctuation(s[i])
    ensures r == [] || !IsTrailingPunctuation(r[|r| - 1])
  {
    if s != [] && IsTrailingPunctuation(s[|s| - 1]) then StripTrailingPunctuation(s[..|s| - 1]) else s
  }

  /** The query trimmed, or the default query when it is not a string or blank. */
  function SearchTerm(query: Option<string>): string {
    if query.Some? && Trim(query.value) != "" then Trim(query.value) else DEFAULT_QUERY
  }

  /** The term the agent is asked about and the curated table is matched against. */
  function SanitizedTerm(query: Option<string>): string {
    StripTrailingPunctuation(SearchTerm(query))
  }

  /** A missing or blank query asks for the default query, which has nothing to strip. */
  lemma SanitizedDefault(query: Option<string>)
    requires query.None? || Trim(query.value) == ""
    ensures SanitizedTerm(query) == DEFAULT_QUERY
  {
    assert !IsTrailingPunctuation(DEFAULT_QUERY[|DEFAULT_QUERY| - 1]);
  }

  /** A given query is trimmed and loses its trailing punctuation run, and nothing else. */
  lemma SanitizedQuery(query: string)
    requires Trim(query) != ""
    ensures var t := SanitizedTerm(Some(query));
            t == Trim(query)[..|t|] &&
            (forall i :: |t| <= i < |Trim(query)| ==> IsTrailingPunctuation(Trim(query)[i])) &&
            (t == [] || !IsTrailingPunctuation(t[|t| - 1]))
  {
  }

  // ---------------------------------------------------------------------------------------
  // Reachability.

  predicate IsHttpUrl(env: Env, v: string) {
    env.parseUrl(v).Some? && (env.parseUrl(v).value.protocol == "http:" || env.parseUrl(v).value.protocol == "https:")
  }

  predicate IsLikelyBrokenUnsplashUrl(env: Env, v: string) {
    env.parseUrl(v).Some? && env.parseUrl(v).value.hostname == BROKEN_UNSPLASH_HOST
  }

  predicate IsTrustedHost(env: Env, v: string) {
    env.parseUrl(v).Some? && env.parseUrl(v).value.hostname in TRUSTED_IMAGE_HOSTS
  }

  /** How a HEAD answer is judged: a 2xx status with no content type or an image one, or
      405 (HEAD not allowed); anything else, and a thrown error, is a rejection. */
  predicate ProbeAccepts(p: Probe) {
    match p
    case Response(status, contentType) =>
      if 200 <= status <= 299 then
        contentType.None? || contentType.value == "" || StartsWith(contentType.value, "image/")
      else status == 405
    case Failed => false
  }

  /** isReachableImageUrl: an http(s) URL not on the broken host is accepted outright on a
      trusted host, and otherwise when its probe is accepted. */
  predicate IsReachable(env: Env, c: string) {
    if !IsHttpUrl(env, c) || IsLikelyBrokenUnsplashUrl(env, c) then false
    else if IsTrustedHost(env, c) then true
    else ProbeAccepts(env.probe(c))
  }

  /** The URLs whose verdict the network decides. */
  predicate NeedsProbe(env: Env, c: string) {
    IsHttpUrl(env, c) && !IsLikelyBrokenUnsplashUrl(env, c) && !IsTrustedHost(env, c)
  }

  /** Only a URL that needs a probe depends on the network: any other answer leaves its
      verdict unchanged. */
  lemma ProbeOnlyWhenNeeded(env: Env, probe: string -> Probe, c: string)
    requires !NeedsProbe(env, c)
    ensures IsReachable(env, c) == IsReachable(env.(probe := probe), c)
    ensures IsReachable(env, c) <==> IsHttpUrl(env, c) && IsTrustedHost(env, c)
  {
  }

  /** With a probe needed, the verdict is exactly the judgement of the HEAD answer. */
  lemma ReachableByProbe(env: Env, c: string)
    requires NeedsProbe(env, c)
    ensures IsReachable(env, c) <==> ProbeAccepts(env.probe(c))
  {
  }

  /** The first reachable candidate, or none. */
  function FirstReachable(env: Env, cs: seq<string>): (r: Option<string>)
    ensures r.Some? ==> r.value in cs && IsReachable(env, r.value)
    ensures r.None? <==> forall c :: c in cs ==> !IsReachable(env, c)
  {
    if cs == [] then None
    else if IsReachable(env, cs[0]) then Some(cs[0])
    else FirstReachable(env, cs[1..])
  }

  /** The candidate found is the first reachable one: every earlier candidate is unreachable. */
  lemma {:induction false} FirstReachableIsFirst(env: Env, cs: seq<string>, n: nat)
    requires n < |cs| && IsReachable(env, cs[n])
    requires forall m :: 0 <= m < n ==> !IsReachable(env, cs[m])
    ensures FirstReachable(env, cs) == Some(cs[n])
  {
    if n > 0 {
      FirstReachableIsFirst(env, cs[1..], n - 1);
    }
  }

  /** resolveCandidateImage: the candidates are judged one after another and the first
      reachable one is returned. */
  method ResolveCandidateImage(env: Env, candidates: seq<string>) returns (image: Option<string>)
    ensures image == FirstReachable(env, candidates)
    ensures image.Some? ==> exists n :: 0 <= n < |candidates| && candidates[n] == image.value &&
                                        IsReachable(env, image.value) &&
                                        forall m :: 0 <= m < n ==> !IsReachable(env, candidates[m])
  {
    for i := 0 to |candidates|
      invariant forall m :: 0 <= m < i ==> !IsReachable(env, candidates[m])
    {
      if IsReachable(env, candidates[i]) {
        FirstReachableIsFirst(env, candidates, i);
        return Some(candidates[i]);
      }
    }
    return None;
  }

  // ---------------------------------------------------------------------------------------
  // The curated image.

  /** The text the patterns are tested on: title (when a string) and term joined by a
      space, lower-cased. */
  function Haystack(title: Option<string>, term: string): string {
    if title.Some? then ToLower(title.value + " " + term) else ToLower(term)
  }

  /** `typeImageMap[key]` for a normalised type when that is truthy, else null. */
  function TypeImage(key: string): JsValue {
    if key == "" then Null
    else match ServerTypeImage(key)
      case Own(p) => Str(PhotoUrl(p))
      case Inherited => Obj
      case Absent => Null
  }

  /** The photo of the first table entry whose pattern matches. */
  function CatalogMatch(env: Env, haystack: string, table: seq<(Topic, Photo)>): (r: Option<Photo>)
    ensures r.None? <==> forall n :: 0 <= n < |table| ==> !env.matches(table[n].0, haystack)
    ensures r.Some? ==> exists n :: 0 <= n < |table| && env.matches(table[n].0, haystack) && r.value == table[n].1 &&
                                    forall m :: 0 <= m < n ==> !env.matches(table[m].0, haystack)
  {
    if table == [] then None
    else if env.matches(table[0].0, haystack) then Some(table[0].1)
    else
      var r := CatalogMatch(env, haystack, table[1..]);
      if r.Some? then
        var n :| 0 <= n < |table[1..]| && env.matches(table[1..][n].0, haystack) && r.value == table[1..][n].1 &&
                 forall m :: 0 <= m < n ==> !env.matches(table[1..][m].0, haystack);
        assert table[n + 1] == table[1..][n];
        r
      else r
  }

  /** selectCuratedImage as a value: the first matching table entry, else the type's image. */
  function CuratedImage(env: Env, title: Option<string>, kind: Option<string>, term: string): JsValue {
    var m := CatalogMatch(env, Haystack(title, term), CURATED_IMAGE_CATALOG);
    if m.Some? then Str(PhotoUrl(m.value)) else TypeImage(Normalize(kind))
  }

  /** selectCuratedImage: the table is searched in order and the search stops at the first
      match; only when nothing matches is the type's image consulted. */
  method SelectCuratedImage(env: Env, title: Option<string>, kind: Option<string>, term: string) returns (image: JsValue)
    ensures image == CuratedImage(env, title, kind, term)
  {
    var photo := FindCatalogMatch(env, Haystack(title, term), CURATED_IMAGE_CATALOG);
    if photo.Some? {
      return Str(PhotoUrl(photo.value));
    }
    return TypeImage(Normalize(kind));
  }

  /** The table walk of selectCuratedImage: entries are tested in order, stopping at the
      first whose pattern matches. */
  method FindCatalogMatch(env: Env, haystack: string, table: seq<(Topic, Photo)>) returns (photo: Option<Photo>)
    ensures photo == CatalogMatch(env, haystack, table)
  {
    for n := 0 to |table|
      invariant CatalogMatch(env, haystack, table) == CatalogMatch(env, haystack, table[n..])
    {
      assert table[n..][1..] == table[n + 1..];
      var (topic, p) := table[n];
      if env.matches(topic, haystack) {
        return Some(p);
      }
    }
    return None;
  }

  /** The curated image is a table photo exactly when some pattern matches, and then the
      photo of the first one; otherwise it is the type's image. */
  lemma CuratedImageChoice(env: Env, title: Option<string>, kind: Option<string>, term: string)
    ensures var h := Haystack(title, term);
            var img := CuratedImage(env, title, kind, term);
            && ((forall n :: 0 <= n < |CURATED_IMAGE_CATALOG| ==> !env.matches(CURATED_IMAGE_CATALOG[n].0, h)) ==> img == TypeImage(Normalize(kind)))
            && (forall n :: 0 <= n < |CURATED_IMAGE_CATALOG| && env.matches(CURATED_IMAGE_CATALOG[n].0, h) &&
                    (forall m :: 0 <= m < n ==> !env.matches(CURATED_IMAGE_CATALOG[m].0, h))
                  ==> img == Str(PhotoUrl(CURATED_IMAGE_CATALOG[n].1)))
  {
    var h := Haystack(title, term);
    var r := CatalogMatch(env, h, CURATED_IMAGE_CATALOG);
    if r.Some? {
      var k :| 0 <= k < |CURATED_IMAGE_CATALOG| && env.matches(CURATED_IMAGE_CATALOG[k].0, h) && r.value == CURATED_IMAGE_CATALOG[k].1 &&
               forall m :: 0 <= m < k ==> !env.matches(CURATED_IMAGE_CATALOG[m].0, h);
      forall n | 0 <= n < |CURATED_IMAGE_CATALOG| && env.matches(CURATED_IMAGE_CATALOG[n].0, h) &&
                 (forall m :: 0 <= m < n ==> !env.matches(CURATED_IMAGE_CATALOG[m].0, h))
        ensures n == k
      {
      }
    }
  }

  /** The type's image is the map's photo for a known type, null for an empty or unknown
      type, and a non-string for the two names every object inherits. */
  lemma TypeImageCases(key: string)
    ensures TypeImage(key).Str? <==> ServerTypeImage(key).Own?
    ensures TypeImage(key).Str? ==> TypeImage(key).s == PhotoUrl(ServerTypeImage(key).photo)
    ensures TypeImage(key) == Obj <==> IsInheritedName(key)
  {
  }

  // ---------------------------------------------------------------------------------------
  // The candidate list.

  /** A list of photos, as JavaScript strings. */
  function Strs(ps: seq<Photo>): (r: seq<JsValue>)
    ensures |r| == |ps| && forall n :: 0 <= n < |ps| ==> r[n] == Str(PhotoUrl(ps[n]))
  {
    seq(|ps|, n requires 0 <= n < |ps| => Str(PhotoUrl(ps[n])))
  }

  /** The photos' addresses. */
  function Urls(ps: seq<Photo>): (r: seq<string>)
    ensures |r| == |ps| && forall n :: 0 <= n < |ps| ==> r[n] == PhotoUrl(ps[n])
  {
    seq(|ps|, n requires 0 <= n < |ps| => PhotoUrl(ps[n]))
  }

  /** The pool of a normalised type: the whole tech or outdoor pool, else the type's own
      photo, else nothing. */
  function FallbackByType(key: string): seq<JsValue> {
    if key == "tech" then Strs(SERVER_TECH_FALLBACK_IMAGES)
    else if key == "outdoors" then Strs(OUTDOOR_FALLBACK_IMAGES)
    else if key != "" then
      match ServerTypeImage(key)
      case Own(p) => [Str(PhotoUrl(p))]
      case Inherited => [Obj]
      case Absent => []
    else []
  }

  /** The tech pool offers all six of the server's tech photos, in order. */
  lemma TechPool()
    ensures Usable(FallbackByType("tech")) == Urls(SERVER_TECH_FALLBACK_IMAGES)
  {
    UsableStrs(SERVER_TECH_FALLBACK_IMAGES);
  }

  /** The outdoor pool offers all four outdoor photos, in order. */
  lemma OutdoorPool()
    ensures Usable(FallbackByType("outdoors")) == Urls(OUTDOOR_FALLBACK_IMAGES)
  {
    UsableStrs(OUTDOOR_FALLBACK_IMAGES);
  }

  /** Any other type offers the map's photo when it has one, and nothing otherwise. */
  lemma TypePool(key: string)
    requires key != "tech" && key != "outdoors"
    ensures ServerTypeImage(key).Own? ==> Usable(FallbackByType(key)) == [PhotoUrl(ServerTypeImage(key).photo)]
    ensures !ServerTypeImage(key).Own? ==> Usable(FallbackByType(key)) == []
  {
  }

  /** `filter((value) => typeof value === 'string' && value.length > 0)`. */
  function Usable(raw: seq<JsValue>): (r: seq<string>)
    ensures forall s :: s in r <==> Str(s) in raw && s != ""
  {
    if raw == [] then []
    else
      assert raw == [raw[0]] + raw[1..];
      (if raw[0].Str? && raw[0].s != "" then [raw[0].s] else []) + Usable(raw[1..])
  }

  lemma {:induction false} UsableStrs(ps: seq<Photo>)
    ensures Usable(Strs(ps)) == Urls(ps)
  {
    if ps != [] {
      assert Strs(ps)[1..] == Strs(ps[1..]);
      assert Urls(ps) == [PhotoUrl(ps[0])] + Urls(ps[1..]);
      UsableStrs(ps[1..]);
    }
  }

  /** The filter keeps the order of its input: filtering a concatenation concatenates the
      filtered parts. */
  lemma {:induction false} UsableAppend(a: seq<JsValue>, b: seq<JsValue>)
    ensures Usable(a + b) == Usable(a) + Usable(b)
  {
    if a == [] {
      assert a + b == b;
    } else {
      assert (a + b)[1..] == a[1..] + b;
      UsableAppend(a[1..], b);
    }
  }

  /** One value is kept exactly when it is a non-empty string. */
  lemma UsableOne(v: JsValue)
    ensures Usable([v]) == if v.Str? && v.s != "" then [v.s] else []
  {
  }

  /** A list of strings, as JavaScript values. */
  function Values(ss: seq<string>): (r: seq<JsValue>)
    ensures |r| == |ss| && forall n :: 0 <= n < |ss| ==> r[n] == Str(ss[n])
  {
    seq(|ss|, n requires 0 <= n < |ss| => Str(ss[n]))
  }

  /** The tiers in order: page preview, event image, aggregated candidates, curated image,
      type pool, default photo. */
  function RawCandidates(og: Option<string>, image: Option<string>, imageCandidates: seq<string>,
                         curated: JsValue, pool: seq<JsValue>): seq<JsValue> {
    [FromOption(og), FromOption(image)] + Values(imageCandidates) + [curated] + pool + [Str(PhotoUrl(DEFAULT_FALLBACK_IMAGE))]
  }

  /** The candidate list: usable strings only, each at its first occurrence. */
  function Candidates(raw: seq<JsValue>): seq<string> {
    KeepFirst(Usable(raw))
  }

  /** The candidate list has no duplicates, holds every usable string of the tiers, and keeps
      them in the order of their first appearance. */
  lemma CandidatesProperties(raw: seq<JsValue>)
    ensures var cs := Candidates(raw);
            && NoDup(cs)
            && (forall s :: s in cs <==> Str(s) in raw && s != "")
            && (forall i, j :: 0 <= i < j < |cs| ==> IndexOf(Usable(raw), cs[i]) < IndexOf(Usable(raw), cs[j]))
  {
    KeepFirstIsDedup(Usable(raw));
    DedupOrder(Usable(raw));
  }

  /** Among the candidates, a usable string of the first part of the values comes before
      every usable string that appears only in the second part. */
  lemma EarlierPartFirst(a: seq<JsValue>, b: seq<JsValue>, s: string, t: string)
    requires Str(s) in a && s != ""
    requires Str(t) in b && t != "" && Str(t) !in a
    ensures var cs := Candidates(a + b);
            s in cs && t in cs && IndexOf(cs, s) < IndexOf(cs, t)
  {
    UsableAppend(a, b);
    IndexOfAppend(Usable(a), Usable(b), s);
    IndexOfAppend(Usable(a), Usable(b), t);
    KeepFirstOrder(Usable(a + b), s, t);
  }

  /** The six tiers of the candidate list, in order. */
  function CandidateTiers(og: Option<string>, image: Option<string>, imageCandidates: seq<string>,
                          curated: JsValue, pool: seq<JsValue>): (ts: seq<seq<JsValue>>)
    ensures |ts| == 6 && ts[5] == [Str(PhotoUrl(DEFAULT_FALLBACK_IMAGE))]
  {
    [[FromOption(og)], [FromOption(image)], Values(imageCandidates), [curated], pool, [Str(PhotoUrl(DEFAULT_FALLBACK_IMAGE))]]
  }

  /** The tiers one after the other. */
  function Flatten(ts: seq<seq<JsValue>>): seq<JsValue> {
    if ts == [] then [] else ts[0] + Flatten(ts[1..])
  }

  lemma {:induction false} FlattenSplit(ts: seq<seq<JsValue>>, q: nat)
    requires q <= |ts|
    ensures Flatten(ts) == Flatten(ts[..q]) + Flatten(ts[q..])
  {
    if q > 0 {
      FlattenSplit(ts[1..], q - 1);
      assert ts[1..][..q - 1] == ts[..q][1..];
      assert ts[1..][q - 1..] == ts[q..];
    } else {
      assert ts[..q] == [] && ts[q..] == ts;
    }
  }

  lemma {:induction false} InFlatten(ts: seq<seq<JsValue>>, p: nat, x: JsValue)
    requires p < |ts| && x in ts[p]
    ensures x in Flatten(ts)
  {
    if p > 0 {
      InFlatten(ts[1..], p - 1, x);
    }
  }

  lemma {:induction false} NotInFlatten(ts: seq<seq<JsValue>>, x: JsValue)
    requires forall k :: 0 <= k < |ts| ==> x !in ts[k]
    ensures x !in Flatten(ts)
  {
    if ts != [] {
      NotInFlatten(ts[1..], x);
    }
  }

  lemma Flatten6(t0: seq<JsValue>, t1: seq<JsValue>, t2: seq<JsValue>, t3: seq<JsValue>, t4: seq<JsValue>, t5: seq<JsValue>)
    ensures Flatten([t0, t1, t2, t3, t4, t5]) == t0 + t1 + t2 + t3 + t4 + t5
  {
    var ts := [t0, t1, t2, t3, t4, t5];
    assert ts[1..][1..][1..][1..][1..][1..] == [];
    assert Flatten(ts[1..][1..][1..][1..][1..]) == t5;
    assert Flatten(ts[1..][1..][1..][1..]) == t4 + t5;
    assert Flatten(ts[1..][1..][1..]) == t3 + t4 + t5;
    assert Flatten(ts[1..][1..]) == t2 + t3 + t4 + t5;
  }

  /** The raw candidate list is the tiers one after the other. */
  lemma RawCandidatesAreTiers(og: Option<string>, image: Option<string>, imageCandidates: seq<string>,
                              curated: JsValue, pool: seq<JsValue>)
    ensures RawCandidates(og, image, imageCandidates, curated, pool) == Flatten(CandidateTiers(og, image, imageCandidates, curated, pool))
  {
    var last := [Str(PhotoUrl(DEFAULT_FALLBACK_IMAGE))];
    Flatten6([FromOption(og)], [FromOption(image)], Values(imageCandidates), [curated], pool, last);
    assert [FromOption(og), FromOption(image)] == [FromOption(og)] + [FromOption(image)];
  }

  /** Tier order: a usable string of an earlier tier comes before every string that first
      appears in a later tier. */
  lemma TierOrder(og: Option<string>, image: Option<string>, imageCandidates: seq<string>,
                  curated: JsValue, pool: seq<JsValue>, p: nat, q: nat, s: string, t: string)
    requires p < q < 6
    requires Str(s) in CandidateTiers(og, image, imageCandidates, curated, pool)[p] && s != ""
    requires Str(t) in CandidateTiers(og, image, imageCandidates, curated, pool)[q] && t != ""
    requires forall k :: 0 <= k < q ==> Str(t) !in CandidateTiers(og, image, imageCandidates, curated, pool)[k]
    ensures var cs := Candidates(RawCandidates(og, image, imageCandidates, curated, pool));
            s in cs && t in cs && IndexOf(cs, s) < IndexOf(cs, t)
  {
    var ts := CandidateTiers(og, image, imageCandidates, curated, pool);
    RawCandidatesAreTiers(og, image, imageCandidates, curated, pool);
    FlattenSplit(ts, q);
    InFlatten(ts[..q], p, Str(s));
    InFlatten(ts[q..], 0, Str(t));
    NotInFlatten(ts[..q], Str(t));
    EarlierPartFirst(Flatten(ts[..q]), Flatten(ts[q..]), s, t);
  }

  // ---------------------------------------------------------------------------------------
  // The page preview image.

  /** What one meta key yields: the tag's content, trimmed and resolved against the page's
      URL, when that is an http(s) URL. */
  function MetaImage(env: Env, html: string, baseUrl: string, key: string): Option<string> {
    var tag := env.metaTag(html, key);
    if tag.None? then None
    else
      var content := env.contentOf(tag.value);
      if content.None? then None
      else
        var absolute := env.resolveUrl(Trim(content.value), baseUrl);
        if absolute.Some? && IsHttpUrl(env, absolute.value) then absolute else None
  }

  /** The first present value of a list of optional values, and nothing when all are absent. */
  function FirstSome<T>(xs: seq<Option<T>>): (r: Option<T>)
    ensures r.None? <==> forall n :: 0 <= n < |xs| ==> xs[n].None?
    ensures r.Some? ==> exists n :: 0 <= n < |xs| && xs[n] == r && forall m :: 0 <= m < n ==> xs[m].None?
  {
    if xs == [] then None
    else if xs[0].Some? then xs[0]
    else
      var rest := FirstSome(xs[1..]);
      FirstSomeShift(xs, rest);
      rest
  }

  /** A first present value after an absent head is the first present value of the whole list. */
  lemma FirstSomeShift<T>(xs: seq<Option<T>>, rest: Option<T>)
    requires xs != [] && xs[0].None?
    requires rest.None? <==> forall n :: 0 <= n < |xs[1..]| ==> xs[1..][n].None?
    requires rest.Some? ==> exists n :: 0 <= n < |xs[1..]| && xs[1..][n] == rest && forall m :: 0 <= m < n ==> xs[1..][m].None?
    ensures rest.None? <==> forall n :: 0 <= n < |xs| ==> xs[n].None?
    ensures rest.Some? ==> exists n :: 0 <= n < |xs| && xs[n] == rest && forall m :: 0 <= m < n ==> xs[m].None?
  {
    if rest.Some? {
      var n :| 0 <= n < |xs[1..]| && xs[1..][n] == rest && forall m :: 0 <= m < n ==> xs[1..][m].None?;
      assert xs[n + 1] == rest;
      forall m | 0 <= m < n + 1 ensures xs[m].None? {
        if m > 0 { assert xs[m] == xs[1..][m - 1]; }
      }
    } else {
      forall n | 0 <= n < |xs| ensures xs[n].None? {
        if n > 0 { assert xs[n] == xs[1..][n - 1]; }
      }
    }
  }

  /** What each key yields, in the order of the keys. */
  function MetaImages(env: Env, html: string, baseUrl: string, keys: seq<string>): (images: seq<Option<string>>)
    ensures |images| == |keys|
  {
    if keys == [] then [] else [MetaImage(env, html, baseUrl, keys[0])] + MetaImages(env, html, baseUrl, keys[1..])
  }

  /** Entry `n` of MetaImages is what key `n` yields. */
  lemma {:induction false} MetaImagesAt(env: Env, html: string, baseUrl: string, keys: seq<string>, n: nat)
    requires n < |keys|
    ensures MetaImages(env, html, baseUrl, keys)[n] == MetaImage(env, html, baseUrl, keys[n])
  {
    if n > 0 {
      MetaImagesAt(env, html, baseUrl, keys[1..], n - 1);
    }
  }

  /** The image of the first key that yields one, always an http(s) URL. */
  function MetaContent(env: Env, html: string, baseUrl: string, keys: seq<string>): (r: Option<string>)
    ensures r.Some? ==> IsHttpUrl(env, r.value)
    ensures r == FirstSome(MetaImages(env, html, baseUrl, keys))
  {
    if keys == [] then None
    else
      var r := MetaImage(env, html, baseUrl, keys[0]);
      var images := MetaImages(env, html, baseUrl, keys[1..]);
      assert MetaImages(env, html, baseUrl, keys) == [r] + images;
      assert ([r] + images)[1..] == images;
      if r.Some? then r else MetaContent(env, html, baseUrl, keys[1..])
  }

  /** extractMetaContent: the keys are tried in order; a key without a tag, without content
      or without an http(s) resolution is skipped. */
  method ExtractMetaContent(env: Env, html: string, baseUrl: string, keys: seq<string>) returns (image: Option<string>)
    ensures image == MetaContent(env, html, baseUrl, keys)
  {
    for n := 0 to |keys|
      invariant MetaContent(env, html, baseUrl, keys) == MetaContent(env, html, baseUrl, keys[n..])
    {
      assert keys[n..][1..] == keys[n + 1..];
      var tag := env.metaTag(html, keys[n]);
      if tag.None? {
        continue;
      }
      var content := env.contentOf(tag.value);
      if content.None? {
        continue;
      }
      var absolute := env.resolveUrl(Trim(content.value), baseUrl);
      if absolute.Some? && IsHttpUrl(env, absolute.value) {
        return absolute;
      }
    }
    return None;
  }

  /** fetchOpenGraphImage as a value. */
  function OpenGraphImage(env: Env, target: string): Option<string> {
    if !IsHttpUrl(env, target) then None
    else match env.fetchPage(target)
      case Unreachable => None
      case Page(ok, finalUrl, body) =>
        if !ok then None
        else MetaContent(env, body[..if |body| < SNIPPET_LENGTH then |body| else SNIPPET_LENGTH], finalUrl, OG_KEYS)
  }

  /** fetchOpenGraphImage: the page is fetched only for an http(s) URL, and only its first
      200000 characters are searched. */
  method FetchOpenGraphImage(env: Env, target: string) returns (image: Option<string>)
    ensures image == OpenGraphImage(env, target)
    ensures image.Some? ==> IsHttpUrl(env, target) && IsHttpUrl(env, image.value)
  {
    if !IsHttpUrl(env, target) {
      return None;
    }
    var page := env.fetchPage(target);
    if page.Unreachable? || !page.ok {
      return None;
    }
    var snippet := page.body[..if |page.body| < SNIPPET_LENGTH then |page.body| else SNIPPET_LENGTH];
    image := ExtractMetaContent(env, snippet, page.finalUrl, OG_KEYS);
  }

  // ---------------------------------------------------------------------------------------
  // One event's image and the response.

  /** The preview image of an event: only looked for when its URL is http(s). */
  function PreviewImage(env: Env, url: Option<string>): Option<string> {
    if url.Some? && IsHttpUrl(env, url.value) then OpenGraphImage(env, url.value) else None
  }

  /** The candidate list of an aggregated event. */
  function EventCandidates(env: Env, term: string, a: Aggregated): seq<string> {
    Candidates(RawCandidates(PreviewImage(env, a.event.url), a.event.image, a.imageCandidates,
                             CuratedImage(env, a.event.title, a.event.kind, term), FallbackByType(Normalize(a.event.kind))))
  }

  /** The candidate tiers of an aggregated event. */
  function EventTiers(env: Env, term: string, a: Aggregated): (ts: seq<seq<JsValue>>)
    ensures |ts| == 6
  {
    CandidateTiers(PreviewImage(env, a.event.url), a.event.image, a.imageCandidates,
                   CuratedImage(env, a.event.title, a.event.kind, term), FallbackByType(Normalize(a.event.kind)))
  }

  /** An event's candidates follow its tiers: page preview, own image, aggregated images,
      curated image, type pool, default photo. A usable string of an earlier tier is tried
      before every string that first appears in a later tier. */
  lemma EventTierOrder(env: Env, term: string, a: Aggregated, p: nat, q: nat, s: string, t: string)
    requires p < q < 6
    requires Str(s) in EventTiers(env, term, a)[p] && s != ""
    requires Str(t) in EventTiers(env, term, a)[q] && t != ""
    requires forall k :: 0 <= k < q ==> Str(t) !in EventTiers(env, term, a)[k]
    ensures var cs := EventCandidates(env, term, a);
            s in cs && t in cs && IndexOf(cs, s) < IndexOf(cs, t)
  {
    TierOrder(PreviewImage(env, a.event.url), a.event.image, a.imageCandidates,
              CuratedImage(env, a.event.title, a.event.kind, term), FallbackByType(Normalize(a.event.kind)), p, q, s, t);
  }

  /** The image an aggregated event ends up with. */
  function EventImage(env: Env, term: string, a: Aggregated): Option<string> {
    FirstReachable(env, EventCandidates(env, term, a))
  }

  /** The work done for one aggregated event. */
  method ResolveEventImage(env: Env, term: string, a: Aggregated) returns (image: Option<string>)
    ensures image == EventImage(env, term, a)
  {
    var og: Option<string> := None;
    if a.event.url.Some? && IsHttpUrl(env, a.event.url.value) {
      og := FetchOpenGraphImage(env, a.event.url.value);
    }
    var curated := SelectCuratedImage(env, a.event.title, a.event.kind, term);
    var pool := FallbackByType(Normalize(a.event.kind));
    var candidates := Candidates(RawCandidates(og, a.event.image, a.imageCandidates, curated, pool));
    image := ResolveCandidateImage(env, candidates);
  }

  /** The default photo is on a trusted host, so no event ends up without an image. */
  lemma ImageNeverNull(env: Env, term: string, a: Aggregated)
    requires env.parseUrl(PhotoUrl(DEFAULT_FALLBACK_IMAGE)) == Some(Url("https:", "images.unsplash.com"))
    ensures EventImage(env, term, a).Some?
  {
    var raw := RawCandidates(PreviewImage(env, a.event.url), a.event.image, a.imageCandidates,
                             CuratedImage(env, a.event.title, a.event.kind, term), FallbackByType(Normalize(a.event.kind)));
    assert raw[|raw| - 1] == Str(PhotoUrl(DEFAULT_FALLBACK_IMAGE));
    CandidatesProperties(raw);
    assert IsReachable(env, PhotoUrl(DEFAULT_FALLBACK_IMAGE));
  }

  /** A usable, reachable page preview image beats every other tier. */
  lemma PreviewImageWins(env: Env, term: string, a: Aggregated)
    requires PreviewImage(env, a.event.url).Some? && PreviewImage(env, a.event.url).value != ""
    requires IsReachable(env, PreviewImage(env, a.event.url).value)
    ensures EventImage(env, term, a) == PreviewImage(env, a.event.url)
  {
    FirstTierWins(env, RawCandidates(PreviewImage(env, a.event.url), a.event.image, a.imageCandidates,
                                     CuratedImage(env, a.event.title, a.event.kind, term),
                                     FallbackByType(Normalize(a.event.kind))),
                  PreviewImage(env, a.event.url).value);
  }

  /** Whatever the later tiers hold, a usable reachable first tier is the image chosen. */
  lemma FirstTierWins(env: Env, raw: seq<JsValue>, first: string)
    requires |raw| > 0 && raw[0] == Str(first) && first != ""
    requires IsReachable(env, first)
    ensures FirstReachable(env, Candidates(raw)) == Some(first)
  {
    assert Usable(raw)[0] == first;
    KeepFirstHead(Usable(raw));
    FirstReachableIsFirst(env, Candidates(raw), 0);
  }

  lemma KeepFirstHead<T(!new)>(s: seq<T>)
    requires |s| > 0
    ensures |KeepFirst(s)| > 0 && KeepFirst(s)[0] == s[0]
  {
    FirstOccurrencesHead(s, |s|);
  }
  // ---------------------------------------------------------------------------------------
  // The response.

  /** The request put to the agent for a search term. */
  function UserPrompt(term: string): string {
    "Based on the user request \"" + term + "\", list at least 10 unique, "
    + "verified events happening in " + "Washington, DC this week " + "that match or closely align " + "with it."
  }

  /** The image resolution of one aggregated event, as a function of the event alone. */
  function ImageResolver(env: Env, term: string): Aggregated -> Option<string> {
    a => EventImage(env, term, a)
  }

  /** The first `n` aggregated records, in order, each with the image `resolve` gives it;
      `imageCandidates` is dropped. */
  function ResolvedEvents(resolve: Aggregated -> Option<string>, ags: seq<Aggregated>, n: nat): (events: seq<Event>)
    requires n <= |ags|
    ensures |events| == n
    decreases n
  {
    if n == 0 then []
    else ResolvedEvents(resolve, ags, n - 1) + [ags[n - 1].event.(image := resolve(ags[n - 1]))]
  }

  /** The `j`-th resolved event is the `j`-th record, unchanged but for its image. */
  lemma {:induction false} ResolvedEventAt(resolve: Aggregated -> Option<string>, ags: seq<Aggregated>, n: nat, j: nat)
    requires j < n <= |ags|
    ensures ResolvedEvents(resolve, ags, n)[j] == ags[j].event.(image := resolve(ags[j]))
    decreases n
  {
    if j < n - 1 {
      ResolvedEventAt(resolve, ags, n - 1, j);
    }
  }

  /** The reply's meta object (an empty one when it has none) with `count` set to `n`. */
  function CountedMeta(meta: Option<map<string, Json>>, n: nat): (m: map<string, Json>)
    ensures "count" in m && m["count"] == JNumber(n)
    ensures forall k :: k != "count" ==> (k in m <==> meta.Some? && k in meta.value)
    ensures forall k :: k != "count" && k in m ==> m[k] == meta.value[k]
  {
    meta.GetOr(map[])["count" := JNumber(n)]
  }

  /** createAgentResponse as a value. */
  function ResponseOf(env: Env, cal: Calendar, apiKey: Option<string>, query: Option<string>): Outcome {
    if apiKey.None? || apiKey.value == "" then MissingApiKey
    else
      var term := SanitizedTerm(query);
      var reply := env.ask(UserPrompt(term));
      if reply.None? || reply.value.events.None? then RawResponse
      else Rebuilt(env, term, reply.value, cal)
  }

  /** A reply with an event array, rebuilt: its events aggregated and given their images,
      its meta counted, its other fields kept. */
  function Rebuilt(env: Env, term: string, output: AgentOutput, cal: Calendar): Outcome
    requires output.events.Some?
  {
    var aggregated := Aggregate(output.events, cal);
    Processed(ResolvedEvents(ImageResolver(env, term), aggregated, |aggregated|),
              CountedMeta(output.meta, |aggregated|), output.others)
  }

  /** The image loop of createAgentResponse: each aggregated event in turn gets the image
      resolved for it. */
  method ResolveImages(env: Env, term: string, aggregated: seq<Aggregated>) returns (events: seq<Event>)
    ensures events == ResolvedEvents(ImageResolver(env, term), aggregated, |aggregated|)
  {
    events := [];
    for i := 0 to |aggregated|
      invariant events == ResolvedEvents(ImageResolver(env, term), aggregated, i)
    {
      var image := ResolveEventImage(env, term, aggregated[i]);
      events := events + [aggregated[i].event.(image := image)];
    }
  }

  /** createAgentResponse: the key is checked, the agent is asked about the sanitised term,
      and a reply with an event array is aggregated and rebuilt around the resolved images. */
  method CreateAgentResponse(env: Env, cal: Calendar, apiKey: Option<string>, query: Option<string>) returns (r: Outcome)
    ensures r == ResponseOf(env, cal, apiKey, query)
  {
    if apiKey.None? || apiKey.value == "" {
      return MissingApiKey;
    }
    var term := SanitizedTerm(query);
    var reply := env.ask(UserPrompt(term));
    if reply.None? || reply.value.events.None? {
      return RawResponse;
    }
    var aggregated := AggregateEvents.AggregateEvents(reply.value.events, cal);
    var events := ResolveImages(env, term, aggregated);
    var meta := if reply.value.meta.Some? then reply.value.meta.value else map[];
    return Processed(events, meta["count" := JNumber(|events|)], reply.value.others);
  }

  /** The key check comes first: a missing or empty key is refused whatever else holds, and
      a present key never is. */
  lemma MissingKeyRefused(env: Env, cal: Calendar, apiKey: Option<string>, query: Option<string>)
    ensures ResponseOf(env, cal, apiKey, query) == MissingApiKey <==> apiKey.None? || apiKey.value == ""
  {
  }

  /** A reply without an event array is handed back untouched, and only such a reply. */
  lemma UnreadableReplyPassedThrough(env: Env, cal: Calendar, apiKey: string, query: Option<string>)
    requires apiKey != ""
    ensures var reply := env.ask(UserPrompt(SanitizedTerm(query)));
            ResponseOf(env, cal, Some(apiKey), query) == RawResponse <==> reply.None? || reply.value.events.None?
  {
  }

  /** A processed response holds one event per aggregated record; its meta is the reply's
      meta with `count` set to that number and every other key kept; the other top-level
      fields of the reply are kept. */
  lemma ProcessedResponse(env: Env, cal: Calendar, apiKey: string, query: Option<string>, output: AgentOutput)
    requires apiKey != ""
    requires env.ask(UserPrompt(SanitizedTerm(query))) == Some(output) && output.events.Some?
    ensures var r := ResponseOf(env, cal, Some(apiKey), query);
            var n := |Aggregate(output.events, cal)|;
            && r.Processed?
            && |r.events| == n
            && r.meta == CountedMeta(output.meta, n)
            && r.others == output.others
  {
    assert ResponseOf(env, cal, Some(apiKey), query) == Rebuilt(env, SanitizedTerm(query), output, cal);
  }

  /** The `j`-th event of a processed response is the `j`-th aggregated record with the
      image resolved for it: the aggregator's order is kept. */
  lemma ProcessedEventAt(env: Env, cal: Calendar, apiKey: string, query: Option<string>, output: AgentOutput, j: nat)
    requires apiKey != ""
    requires env.ask(UserPrompt(SanitizedTerm(query))) == Some(output) && output.events.Some?
    requires j < |Aggregate(output.events, cal)|
    ensures var r := ResponseOf(env, cal, Some(apiKey), query);
            var ags := Aggregate(output.events, cal);
            && r.Processed? && j < |r.events|
            && r.events[j] == ags[j].event.(image := EventImage(env, SanitizedTerm(query), ags[j]))
  {
    var term := SanitizedTerm(query);
    var ags := Aggregate(output.events, cal);
    assert ResponseOf(env, cal, Some(apiKey), query) == Rebuilt(env, term, output, cal);
    ResolvedEventAt(ImageResolver(env, term), ags, |ags|, j);
  }

  /** With the default photo's address read as an https address on a trusted host, every
      event of a processed response has an image. */
  lemma EveryEventHasImage(env: Env, cal: Calendar, apiKey: Option<string>, query: Option<string>, j: nat)
    requires env.parseUrl(PhotoUrl(DEFAULT_FALLBACK_IMAGE)) == Some(Url("https:", "images.unsplash.com"))
    requires ResponseOf(env, cal, apiKey, query).Processed? && j < |ResponseOf(env, cal, apiKey, query).events|
    ensures ResponseOf(env, cal, apiKey, query).events[j].image.Some?
  {
    var term := SanitizedTerm(query);
    var ags := Aggregate(env.ask(UserPrompt(term)).value.events, cal);
    ResolvedEventAt(ImageResolver(env, term), ags, |ags|, j);
    ImageNeverNull(env, term, ags[j]);
  }
}
