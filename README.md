# event-tinder: the event pipeline in Dafny

event-tinder asks a language-model agent for events in Washington, DC, turns its reply
into a list of swipe cards, and falls back to sample data offline. This project models
the logic between the agent's reply and the card on screen:

- `aggregate_events.dfy` (module `AggregateEvents`) is the aggregator of
  `server/aggregateEvents.js`. Raw events are grouped by their normalised title, venue,
  address and description. Each group becomes one record that is based on its first event,
  with the group's dates and times folded into labels and its images kept as candidates.
  The aggregator is an imperative method with two loops: one fills a key-ordered map of
  groups, the other finishes them. It is proved equal to a declarative definition, and the
  aggregator's promises are proved as lemmas about that definition.
- `agent_response.dfy` (module `AgentResponse`) covers the post-processing of
  `server/agentResponse.js`. That is the search term, the curated image table, the type
  pools, the tiered candidate list, the reachability rule with its first-reachable search,
  the page-preview lookup, and the response built around the aggregated events. The loops
  of the source are methods, each proved against a function.
- `event_swipe.dfy` (module `EventSwipe`) is the card logic of `src/EventSwipe.jsx`: the
  32-bit title hash, the pool pick, the fallback photo, the image check, and the image and
  type label of a card.
- `sample_data.dfy` (module `SampleData`) covers the 12-hour time labels and the sample
  response of `src/sampleData.js`.
- Shared modules:
  - `Wrappers` holds Option, standing for null and undefined.
  - `Js` holds JavaScript numbers: ToInt32, the truncating `%`, and `String(n)`.
  - `Text` holds trim, toLowerCase, normalisation, prefix and suffix tests, join, and the
    string order (by character).
  - `Seqs` holds insertion-ordered sets as sequences, and the two ways the source removes
    duplicates.
  - `Catalog` holds the configured photos, the trusted hosts and the two type maps.

What comes from outside is a parameter:

- `AgentResponse.Env` carries the URL parser, URL resolution and the two network answers
  (page GET and image HEAD). It also carries the meta-tag scraper, the curated patterns as
  predicates, and the agent's parsed reply (`ask`).
- `AggregateEvents.Calendar` carries `new Date(raw)` and the ISO day.
- `CreateSampleData` takes `dayAt`, the ISO day a given number of days after today's
  midnight.

## Model

| member | source | states |
|---|---|---|
| AggregateEvents.AggregateEvents | server/aggregateEvents.js:11-91 | The two loops return exactly `Aggregate(events)`. A null event list gives an empty result. |
| AggregateEvents.Aggregate | server/aggregateEvents.js:11-91 | The declarative aggregator: the object records grouped by key, finished in first-seen key order. Its properties are the lemmas below. |
| AggregateEvents.Records | server/aggregateEvents.js:14-15 | The object entries in order, null and primitive entries dropped. NonObjectIgnored and NonObjectDropped state it. |
| AggregateEvents.Finish | server/aggregateEvents.js:82-87 | The record of one group: its base event with the date and time labels, and its images as candidates. AggregateRecord states it. |
| AggregateEvents.GroupKey | server/aggregateEvents.js:17-24 | The grouping key: normalised title, venue, address and description joined by a vertical bar. SameGroup and MembersOfKey state what it groups. |
| AggregateEvents.DateLabel | server/aggregateEvents.js:53-72 | The date label of a group. DateLabelRange, DateLabelOneInstant, DateLabelUnparsed and LabelsWithoutValues state its cases. |
| AggregateEvents.TimeLabel | server/aggregateEvents.js:74-80 | One collected time as is, several joined by ", ", none gives the base's own time or "TBA". LabelsWithoutValues and TimesOfGroup state its inputs. |
| AggregateEvents.FinishGroups | server/aggregateEvents.js:50-90 | The second loop yields one finished record per group, in the map's key order. |
| AggregateEvents.GroupsReadStep | server/aggregateEvents.js:26-47 | Reading one more object keeps the loop invariant. The key list is the distinct keys in first-seen order, and each key maps to the group of its records. |
| AggregateEvents.GroupOfSnoc | server/aggregateEvents.js:26-47 | A new key starts a group based on that event. A known key's group is folded with the event's date, trimmed time and image. |
| AggregateEvents.OtherGroupUnchanged | server/aggregateEvents.js:35-47 | Reading an event leaves the groups of all other keys unchanged. |
| AggregateEvents.FoldFields | server/aggregateEvents.js:37-47 | A group's dates and times are the insertion-ordered sets of its truthy dates and non-blank trimmed times. Its images are all its truthy images, in order. |
| AggregateEvents.Fold | server/aggregateEvents.js:37-47 | One event folded into its group: a truthy date added to the date set, a non-blank trimmed string time to the time set, a truthy image pushed. GroupOfSnoc and FoldFields state it. |
| AggregateEvents.Parsed | server/aggregateEvents.js:53-56 | Exactly the collected dates that parse, each paired with its instant. |
| AggregateEvents.Earliest | server/aggregateEvents.js:61-62 | An instant of some parsed date that no parsed date precedes. |
| AggregateEvents.Latest | server/aggregateEvents.js:61-63 | An instant of some parsed date that no parsed date follows. |
| AggregateEvents.AggregateAt | server/aggregateEvents.js:52-88 | Output record `i` is the finished group of the `i`-th distinct key. |
| AggregateEvents.AggregateRecord | server/aggregateEvents.js:26-87 | Output record `i` has three properties. (1) Its event is the first record with its key, changed only in date and time. (2) Its labels come from the group's distinct dates and times. (3) Its candidates are every truthy image of the group, in arrival order, duplicates kept. |
| AggregateEvents.AggregateKeysDistinct | server/aggregateEvents.js:17-33 | No two output records share a key. |
| AggregateEvents.AggregateCoversRecords | server/aggregateEvents.js:14-33 | Every object of the input has an output record with its key. |
| AggregateEvents.AggregateFirstSeenOrder | server/aggregateEvents.js:26-52 | Output records follow the first appearance of their keys in the input. |
| AggregateEvents.SameGroup | server/aggregateEvents.js:17-24 | Two records agreeing on normalised title, venue, address and description share a group, whatever their other fields. |
| AggregateEvents.MembersOfKey | server/aggregateEvents.js:17-35 | A group's members are exactly the records with its key. |
| AggregateEvents.FirstWithKeyIsFirst | server/aggregateEvents.js:26-28 | The base of a group is a record with its key, and no earlier record has that key. |
| AggregateEvents.NonObjectIgnored | server/aggregateEvents.js:14-15 | Removing a null or primitive entry leaves the result unchanged. |
| AggregateEvents.NonObjectDropped | server/aggregateEvents.js:15 | A null or primitive entry adds no record. |
| AggregateEvents.DateLabelRange | server/aggregateEvents.js:60-67 | Parsed dates spanning two instants give the ISO day of the earliest, " - ", then the ISO day of the latest. Unparsable dates play no part. |
| AggregateEvents.DateLabelOneInstant | server/aggregateEvents.js:60-66 | When every parsed date is one instant, the label is the first parsed date as written. |
| AggregateEvents.DateLabelUnparsed | server/aggregateEvents.js:68-72 | With no parsable date, a single date is the label itself. Otherwise the label is the smallest and the largest date in string order, joined by " - ". |
| AggregateEvents.LabelsWithoutValues | server/aggregateEvents.js:58-85 | With nothing collected, the base's own date (else "Unknown") and own time (else "TBA") are kept. |
| AggregateEvents.TimesOfGroup | server/aggregateEvents.js:41-43 | The collected times are exactly the trimmed, non-blank string times of the group. |
| Seqs.Add | server/aggregateEvents.js:38 | Set.add keeps the list free of duplicates and adds exactly the new element. |
| Seqs.Dedup | server/aggregateEvents.js:53 | The set of a list's elements, free of duplicates. |
| Seqs.IndexOf | server/agentResponse.js:401 | The first index holding the element, or -1 exactly when it is absent. |
| Seqs.KeepFirst | server/agentResponse.js:400-402 | `filter((v, i) => s.indexOf(v) === i)`. KeepFirstIsDedup, KeepFirstOrder and CandidatesProperties state it. |
| Seqs.FirstOccurrencesIsDedup | server/agentResponse.js:400-402 | Filtering the first `n` elements on `indexOf(v) === i` gives the insertion-ordered set of that prefix. |
| Seqs.KeepFirstIsDedup | server/agentResponse.js:400-402 | The indexOf filter gives the same list as adding the elements to a Set one by one. |
| Seqs.DedupOrder | server/agentResponse.js:400-402 | The deduplicated list is ordered by first occurrence. |
| Seqs.IndexOfAppend | server/agentResponse.js:400-402 | In a concatenation, an element of the first part keeps its index, and an element only in the second part comes after the whole first part. |
| Seqs.KeepFirstOrder | server/agentResponse.js:400-402 | The indexOf filter keeps both elements and keeps the order of their first occurrences. |
| Text.TrimIsInfix | server/aggregateEvents.js:1 | Trim returns the one infix with only white space outside it and none at its own ends. |
| Text.Trim | server/aggregateEvents.js:1 | String.prototype.trim: white space and line terminators removed at both ends. TrimIsInfix and TrimEnds state its meaning. |
| Text.Normalize | server/aggregateEvents.js:1 | `typeof value === 'string' ? value.trim().toLowerCase() : ''`, on a string or a missing value; normalizeType (server/agentResponse.js line 77, src/EventSwipe.jsx line 38) is the same. NormalizeIdempotent and NormalizeLowerWord state its properties. |
| Text.TrimEnds | server/aggregateEvents.js:1 | A trimmed string has no white space at either end. |
| Text.Lower | server/aggregateEvents.js:1 | An ASCII capital becomes the small letter at the same place in the alphabet, and every other character is unchanged. Hence white space stays white space and no capital remains. |
| Text.ToLower | server/aggregateEvents.js:1 | Lower-casing maps each character and keeps the length. |
| Text.NormalizeIdempotent | server/aggregateEvents.js:1 | Normalising an already normalised string changes nothing. |
| Text.LexLessIrreflexive | server/aggregateEvents.js:69 | No string precedes itself in the string order. |
| Text.LexLessTransitive | server/aggregateEvents.js:69 | The string order is transitive. |
| Text.LexLessTotal | server/aggregateEvents.js:69 | Of two different strings, one precedes the other. |
| Text.LexLessAsymmetric | server/aggregateEvents.js:69 | Two strings never precede each other. |
| Text.LexLess | server/aggregateEvents.js:69 | The string comparison of the default sort: lexicographic by character, a proper prefix first. The four lemmas above make it a strict total order. |
| Text.Join | server/aggregateEvents.js:79 | Array.prototype.join: the parts with the separator between neighbours, "" for none. TimeLabel uses it for the ", " list. |
| Text.StartsWith | server/agentResponse.js:224 | String.prototype.startsWith: the prefix is the string's first characters. Used for the image/ content type. |
| Text.EndsWith | src/EventSwipe.jsx:89 | String.prototype.endsWith: the suffix is the string's last characters. Used for the unsplash.com host and the label's period. |
| Text.LexMin | server/aggregateEvents.js:69-71 | The first element after the default sort: a member that precedes every other member. |
| Text.LexMax | server/aggregateEvents.js:69-71 | The last element after the default sort: a member that every other member precedes. |
| Js.ToInt32 | src/EventSwipe.jsx:47 | `hash \|= 0` lands in [-2^31, 2^31) and is congruent to its operand modulo 2^32. |
| Js.ToInt32Congruent | src/EventSwipe.jsx:46-47 | Operands congruent modulo 2^32 wrap to the same 32-bit integer. |
| Js.Rem | src/EventSwipe.jsx:56 | JavaScript's `%`: the remainder is congruent to the dividend modulo the divisor, has the sign of the dividend, and has a smaller magnitude than the divisor. |
| Js.Abs | src/EventSwipe.jsx:49 | Math.abs, never negative. HashOf and HashString state the hash it returns. |
| Js.FromOption | server/agentResponse.js:392-393 | A missing value is null; a present one is that string. |
| Js.NatToString | src/sampleData.js:13 | `${n}` for n >= 0 is a non-empty string of decimal digits. |
| Js.IntToString | src/sampleData.js:14 | `${i}`: a minus sign before the digits of a negative number. LabelReadsBack states the labels it prints. |
| Js.ParseNatToString | src/sampleData.js:13-14 | Reading back the printed digits gives the number. |
| Js.NatToStringNoLeadingZero | src/sampleData.js:14 | A printed number starts with '0' exactly when it is zero. |
| Js.ParseDigitsLeadingZeros | src/sampleData.js:13 | Zeros padded in front of digits do not change their value. |
| Catalog.PhotoUrl | server/agentResponse.js:20-96 | Every configured photo address is a non-empty string: the curated table, the type map and the pools of the server, and the same literals in src/EventSwipe.jsx lines 4-36. |
| Catalog.ServerTypeImage | server/agentResponse.js:67-75 | The server's type map as an object literal: an own photo for its seven types, the inherited members for "constructor" and "__proto__", nothing otherwise. TypeImageCases and TypePool state it. |
| Catalog.ClientTypeImage | src/EventSwipe.jsx:22-30 | The client's type map, which differs from the server's in its tech and outdoors photos. FallbackPhoto, InheritedTypeYieldsNoAddress and FallbackAgreesOutsideInheritedNames state it. |
| AgentResponse.StripTrailingPunctuation | server/agentResponse.js:256 | The result is a prefix of the input. Everything removed is '.', '?' or '!', and the result does not end in one. |
| AgentResponse.SearchTerm | server/agentResponse.js:253-255 | The trimmed query, or the default query when it is missing or blank. SanitizedDefault and SanitizedQuery state it. |
| AgentResponse.SanitizedTerm | server/agentResponse.js:253-256 | The search term without its trailing '.', '?' and '!'. SanitizedDefault and SanitizedQuery state it. |
| AgentResponse.SanitizedDefault | server/agentResponse.js:253-256 | A missing or blank query asks about the default query, unchanged. |
| AgentResponse.SanitizedQuery | server/agentResponse.js:253-256 | A given query is trimmed, then loses exactly its trailing run of '.', '?' and '!'. |
| AgentResponse.IsHttpUrl | server/agentResponse.js:10-18 | isHttpUrl: the value parses and its protocol is "http:" or "https:". |
| AgentResponse.IsLikelyBrokenUnsplashUrl | server/agentResponse.js:189-196 | The value parses and its host is image.unsplash.com. |
| AgentResponse.IsTrustedHost | server/agentResponse.js:210-212 | The value parses and its host is one of the trusted image hosts. |
| AgentResponse.ProbeAccepts | server/agentResponse.js:214-235 | A HEAD answer accepts the image when it is 2xx with no content type, an empty one or an image/ one, or when it is 405. A failed request accepts nothing. |
| AgentResponse.IsReachable | server/agentResponse.js:198-236 | isReachableImageUrl. ProbeOnlyWhenNeeded and ReachableByProbe state its cases. |
| AgentResponse.ProbeOnlyWhenNeeded | server/agentResponse.js:198-212 | A URL that is not http(s), or is on the broken host or a trusted host, is judged without the network. It is reachable exactly when it is http(s) on a trusted host. |
| AgentResponse.ReachableByProbe | server/agentResponse.js:214-235 | Any other URL is reachable exactly when its HEAD answer is accepted: 2xx with no content type or an image one, or 405. |
| AgentResponse.FirstReachable | server/agentResponse.js:238-246 | A reachable candidate from the list, or none exactly when no candidate is reachable. |
| AgentResponse.FirstReachableIsFirst | server/agentResponse.js:238-246 | The candidate returned is the first reachable one. |
| AgentResponse.ResolveCandidateImage | server/agentResponse.js:238-246 | The loop returns the first reachable candidate, every earlier one being unreachable, or null when none is reachable. |
| AgentResponse.CatalogMatch | server/agentResponse.js:102-106 | The photo of the first entry whose pattern matches, or none exactly when no pattern matches. |
| AgentResponse.Haystack | server/agentResponse.js:99 | The string title and the term joined by a space and lower-cased, or only the term when the title is missing. |
| AgentResponse.TypeImage | server/agentResponse.js:108-112 | The type map's value for a non-empty normalised type, including inherited members. TypeImageCases states its cases. |
| AgentResponse.CuratedImage | server/agentResponse.js:98-113 | selectCuratedImage. CuratedImageChoice states it. |
| AgentResponse.FindCatalogMatch | server/agentResponse.js:102-106 | The table walk stops at the first match and agrees with CatalogMatch. |
| AgentResponse.SelectCuratedImage | server/agentResponse.js:98-113 | selectCuratedImage returns the curated image: the table's photo, else the type's image. |
| AgentResponse.CuratedImageChoice | server/agentResponse.js:98-113 | The curated image is the photo of the first matching pattern. Only when no pattern matches is it the type's image. |
| AgentResponse.TypeImageCases | server/agentResponse.js:108-112 | The type's image is a URL exactly for the map's own types, and then that type's photo. It is a non-string exactly for the two inherited names; otherwise it is null. |
| AgentResponse.TechPool | server/agentResponse.js:379-381 | The tech type offers all six server tech photos, in order. |
| AgentResponse.OutdoorPool | server/agentResponse.js:382-384 | The outdoors type offers all four outdoor photos, in order. |
| AgentResponse.TypePool | server/agentResponse.js:385-388 | Any other type offers its map photo when it has one, and nothing otherwise. |
| AgentResponse.FallbackByType | server/agentResponse.js:376-389 | The type pool. TechPool, OutdoorPool and TypePool state what it offers. |
| AgentResponse.Usable | server/agentResponse.js:398 | Exactly the non-empty strings of the tiers are kept. |
| AgentResponse.RawCandidates | server/agentResponse.js:391-397 | The tiers before filtering. RawCandidatesAreTiers and TierOrder state their order. |
| AgentResponse.UsableAppend | server/agentResponse.js:391-398 | The filter keeps order and repeats: filtering a concatenation concatenates the filtered parts. |
| AgentResponse.UsableOne | server/agentResponse.js:398 | One value is kept exactly when it is a non-empty string. |
| AgentResponse.Candidates | server/agentResponse.js:391-402 | The usable strings of the tiers, each at its first occurrence. CandidatesProperties and TierOrder state it. |
| AgentResponse.CandidatesProperties | server/agentResponse.js:391-402 | The candidate list has no duplicates and holds exactly the non-empty strings of the tiers, in order of first appearance. |
| AgentResponse.EarlierPartFirst | server/agentResponse.js:391-402 | Among the candidates, a usable string of the first part of the values precedes every usable string found only in the second part. |
| AgentResponse.CandidateTiers | server/agentResponse.js:391-398 | The six tiers, the last being the default photo alone. |
| AgentResponse.RawCandidatesAreTiers | server/agentResponse.js:391-398 | The raw candidate list is the six tiers one after the other. |
| AgentResponse.TierOrder | server/agentResponse.js:391-402 | A usable string of an earlier tier comes before every string that first appears in a later tier. |
| AgentResponse.FirstSome | server/agentResponse.js:116-140 | The first present value of a list, and nothing exactly when all are absent. |
| AgentResponse.MetaImage | server/agentResponse.js:120-138 | What one meta key yields: the tag's content, trimmed and resolved against the page's URL, when that is an http(s) URL. MetaContent states it. |
| AgentResponse.MetaImages | server/agentResponse.js:116-140 | What every key yields, one entry per key in order. |
| AgentResponse.MetaImagesAt | server/agentResponse.js:116-140 | Entry `n` is exactly what key `n` yields, so MetaContent is the yield of the first key that gives an image. |
| AgentResponse.MetaContent | server/agentResponse.js:115-141 | The image of the first key that yields one, which is always an http(s) URL. |
| AgentResponse.ExtractMetaContent | server/agentResponse.js:115-141 | The loop skips keys with no tag, no content or no http(s) resolution, and returns the first image found. |
| AgentResponse.FetchOpenGraphImage | server/agentResponse.js:143-180 | Only an http(s) page that answers ok is searched, and only its first 200000 characters. Any image found is an http(s) URL. |
| AgentResponse.OpenGraphImage | server/agentResponse.js:143-180 | The page-preview image of a URL. FetchOpenGraphImage and MetaContent state it. |
| AgentResponse.PreviewImage | server/agentResponse.js:366-368 | The preview image is looked for only when the event's URL is http(s). |
| AgentResponse.ResolveEventImage | server/agentResponse.js:364-404 | One event's work returns the first reachable candidate of its tiers. |
| AgentResponse.EventCandidates | server/agentResponse.js:391-402 | One event's `uniqueCandidates`: its tiers filtered and deduplicated. EventTierOrder, ImageNeverNull and PreviewImageWins state it. |
| AgentResponse.EventImage | server/agentResponse.js:364-404 | The image of one event: the first reachable of its candidates. ImageNeverNull, PreviewImageWins and EventTierOrder state it. |
| AgentResponse.EventTiers | server/agentResponse.js:364-398 | An event's six tiers. |
| AgentResponse.EventTierOrder | server/agentResponse.js:364-402 | An event's candidates are tried in tier order: preview image, own image, aggregated images, curated image, type pool, default photo. A usable string of an earlier tier precedes every string that first appears later. |
| AgentResponse.ImageNeverNull | server/agentResponse.js:391-404 | Because the default photo is always appended and lives on a trusted host, every event ends up with an image. |
| AgentResponse.PreviewImageWins | server/agentResponse.js:391-404 | A reachable page-preview image beats every other tier. |
| AgentResponse.FirstTierWins | server/agentResponse.js:391-404 | A usable, reachable first tier is chosen, whatever the later tiers hold. |
| AgentResponse.ResolvedEvents | server/agentResponse.js:362-413 | One output event per aggregated record, in order. |
| AgentResponse.ResolvedEventAt | server/agentResponse.js:406-411 | The `j`-th output event is the `j`-th record with only its image replaced and its candidates dropped. |
| AgentResponse.CountedMeta | server/agentResponse.js:418-421 | `count` is set to the number of events, and every other meta key is kept with its value. |
| AgentResponse.UserPrompt | server/agentResponse.js:257 | The request put to the agent, with the sanitised term quoted in it. |
| AgentResponse.ResolveImages | server/agentResponse.js:362-413 | The per-event loop gives each record, in order, the image resolved for it. |
| AgentResponse.CreateAgentResponse | server/agentResponse.js:248-423 | createAgentResponse returns the response the model defines, ResponseOf. |
| AgentResponse.ResponseOf | server/agentResponse.js:248-423 | The response: refused without a key, raw without an event array, otherwise processed. MissingKeyRefused, UnreadableReplyPassedThrough, ProcessedResponse and ProcessedEventAt state it. |
| AgentResponse.Rebuilt | server/agentResponse.js:415-422 | A reply with an event array, rebuilt. ProcessedResponse and ProcessedEventAt state it. |
| AgentResponse.MissingKeyRefused | server/agentResponse.js:249-251 | The call is refused exactly when the key is missing or empty, before anything else. |
| AgentResponse.UnreadableReplyPassedThrough | server/agentResponse.js:356-358 | With a key present, the raw response comes back exactly when the reply yields no event array. |
| AgentResponse.ProcessedResponse | server/agentResponse.js:415-422 | A processed response has one event per aggregated record, the counted meta, and the reply's other fields. |
| AgentResponse.ProcessedEventAt | server/agentResponse.js:360-413 | The `j`-th event of a processed response is the `j`-th aggregated record with its resolved image. |
| AgentResponse.EveryEventHasImage | server/agentResponse.js:395-410 | Every event of a processed response has a non-null image. |
| EventSwipe.ShiftLeft5 | src/EventSwipe.jsx:46 | `x << 5` is a signed 32-bit integer. |
| EventSwipe.HashStep | src/EventSwipe.jsx:46-47 | One step of the hash stays a signed 32-bit integer. |
| EventSwipe.HashFold | src/EventSwipe.jsx:44-48 | The folded hash stays a signed 32-bit integer. |
| EventSwipe.HashStepIsTimes31 | src/EventSwipe.jsx:46-47 | `(h << 5) - h + c` wrapped to 32 bits is 31 times h plus c, wrapped. |
| EventSwipe.HashFoldIsPolynomial | src/EventSwipe.jsx:44-48 | The hash is the base-31 polynomial of the character codes, wrapped once to 32 bits. |
| EventSwipe.HashOf | src/EventSwipe.jsx:40-50 | The hash lies in [0, 2^31]. |
| EventSwipe.HashString | src/EventSwipe.jsx:40-50 | The loop returns 0 for the empty string, else the absolute value of the wrapped polynomial hash. |
| EventSwipe.PickFromArray | src/EventSwipe.jsx:52-58 | A pick is an element of the array. For a non-negative seed there is a pick exactly when the array is non-empty. |
| EventSwipe.PickIsPeriodic | src/EventSwipe.jsx:56-57 | For a non-negative seed the pick is the element at `seed mod length`, and seeds a length apart pick the same element. |
| EventSwipe.FallbackImageAsWritten | src/EventSwipe.jsx:60-77 | As written: the pool pick for tech and outdoors, and any truthy map value otherwise, inherited members included, else the default photo. InheritedTypeYieldsNoAddress and FallbackAgreesOutsideInheritedNames state it. |
| EventSwipe.SelectFallbackImageAsWritten | src/EventSwipe.jsx:60-77 | As written, for an event: its normalised type and the hash of its title (empty when missing). |
| EventSwipe.SelectFallbackPhoto | src/EventSwipe.jsx:60-77 | Corrected (own entries only), for an event: its normalised type and the hash of its title (empty when missing). |
| EventSwipe.FallbackPhoto | src/EventSwipe.jsx:60-77 | Corrected (own entries only). Tech gives the client tech pool's photo at `seed mod 5`, and outdoors the outdoor pool's at `seed mod 4`. Another own type of the map gives its photo; anything else gives the default photo. |
| EventSwipe.FallbackAgreesOutsideInheritedNames | src/EventSwipe.jsx:60-77 | Except for the two inherited names, the fallback as written is the address of the corrected fallback photo. |
| EventSwipe.UntitledEventTakesFirstPoolPhoto | src/EventSwipe.jsx:60-69 | Corrected (own entries only), which agrees with the source for these two types. A missing or empty title hashes to 0 and takes the first photo of the tech or outdoor pool. |
| EventSwipe.InheritedTypeYieldsNoAddress | src/EventSwipe.jsx:72-74 | As written, the type "constructor" or "__proto__" yields an inherited non-string, whatever the seed. |
| EventSwipe.ConstructorTypeYieldsNoAddress | src/EventSwipe.jsx:60-77 | As written, an event typed "constructor" gets the Object constructor as its fallback, not an address. |
| EventSwipe.NormalizeLowerWord | src/EventSwipe.jsx:38 | A word of lower-case ASCII letters is its own normalised type. |
| EventSwipe.CardImage | src/EventSwipe.jsx:127-129 | Corrected (own entries only). The card shows the event's image when that passes the check, else the corrected fallback photo's address. |
| EventSwipe.CardImageAsWritten | src/EventSwipe.jsx:127-129 | As written: the event's image when valid, else the as-written fallback, which may be a non-string. ConstructorCardHasNoAddress states it. |
| EventSwipe.IsValidImageUrl | src/EventSwipe.jsx:79-96 | isValidImageUrl: a non-empty string that parses as http(s) and is not on an untrusted unsplash.com host. PhotoIsValid, TrustedServerImagePassesCard and BrokenHostRefusedByCard state it. |
| EventSwipe.PhotoIsValid | src/EventSwipe.jsx:79-96 | Every configured photo passes the card's image check. |
| EventSwipe.CardImageAlwaysValid | src/EventSwipe.jsx:127-129 | Whatever the event, the card's image passes the card's own check. |
| EventSwipe.ConstructorCardHasNoAddress | src/EventSwipe.jsx:127-129 | As written, an event typed "constructor" without a valid image gets a card whose image source is not a string. |
| EventSwipe.TypeLabel | src/EventSwipe.jsx:130 | The label is never empty. It is the type when that is a non-empty string, else "event". |
| EventSwipe.TrustedServerImagePassesCard | src/EventSwipe.jsx:79-96 | An address the server accepts without a probe (http(s) on a trusted host) passes the card's check. |
| EventSwipe.BrokenHostRefusedByCard | src/EventSwipe.jsx:89-91 | An address on the host the server treats as broken is refused by the card. |
| SampleData.Period | src/sampleData.js:11 | "PM" exactly from hour 12 on, "AM" before. |
| SampleData.DisplayHour | src/sampleData.js:12 | The displayed hour is never 0, is congruent to the hour modulo 12, and lies in 1..12 for a non-negative hour. |
| SampleData.PadStart | src/sampleData.js:13 | The string keeps its characters at the end, preceded only by the pad character, to at least the target length. |
| SampleData.ToLabel | src/sampleData.js:10-15 | toLabel. LabelPeriod and LabelReadsBack state its shape and round trip. |
| SampleData.FormatTimeRange | src/sampleData.js:9-18 | formatTimeRange. TimeRangeParts states it. |
| SampleData.LabelPeriod | src/sampleData.js:10-15 | A label ends in "PM" exactly from hour 12 on, and in "AM" otherwise. |
| SampleData.PaddedMinuteReadsBack | src/sampleData.js:13 | The padded minute has at least two digits and reads back as the minute. |
| SampleData.ClockHourReadsBack | src/sampleData.js:11-12 | For hours 0..23, the displayed hour with its period gives back the hour of the day. |
| SampleData.LabelReadsBack | src/sampleData.js:10-15 | A label is the displayed hour (no leading zero), ':', the padded minute, ' ' and the period, and the hour and the minute can be read back from it. |
| SampleData.TimeRangeParts | src/sampleData.js:17 | A range starts with the start label followed by " - ", and ends with the end label. |
| SampleData.CreateSampleData | src/sampleData.js:191-207 | One event per entry, and the count is the number of events. Each event keeps its entry's offset and every field but `date`, which becomes the day `offsetDays` after today's midnight (default 0). |

## Left out

- Network I/O is not modelled. The page GET and the image HEAD are the `fetchPage` and `probe` answers of `Env`; timeouts, headers and redirects are folded into those answers.
- The agent call is not modelled: the OpenAI client, the system prompt, the JSON schema, the model name and `JSON.parse`. `Env.ask` gives the parsed reply for the user prompt, or none when there is no text or it is not JSON.
- The curated patterns, the meta-tag regular expressions and `escapeForRegex` are uninterpreted (`Env.matches`, `Env.metaTag`, `Env.contentOf`).
- `new URL` is not modelled. Parsing is `Env.parseUrl`, reduced to protocol and host name, and resolution against a base is `Env.resolveUrl`.
- JavaScript dates and time zones are not modelled: `new Date`, `toISOString`, `addDays` and the clock in createSampleData. They are the `Calendar` and `dayAt` parameters.
- `Promise.all` over the events is modelled as a sequential loop; the events share no state. One `Env.probe` answers for every event, so a URL probed by two events gets the same answer in both. In the source each request can fail or time out on its own.
- `console` logging is not modelled.
- Event fields are strings or null. Non-string values of `title`, `type`, `date`, `time` or `image` are not modelled.
- A non-object `meta` in the reply is not modelled; `meta` is a map or absent. Key order in the rebuilt response is not kept, because objects are maps.
- `toLowerCase` maps ASCII letters only. A Dafny `char` is a Unicode scalar value, while JavaScript strings are UTF-16 code units. The two agree only on characters of the Basic Multilingual Plane. For characters outside it, such as emoji, the model differs in three places: hashString hashes the code point, not its two surrogates; string order compares code points, not code units; and the 200000-character snippet cut counts characters. Lone surrogates are not representable.
- The fifteen literal sample entries of src/sampleData.js are not restated. `CreateSampleData` works on any list of entries.
- The React rendering, state and effects of src/EventSwipe.jsx are not modelled, beyond the image and label a card shows.
- server/index.js, src/App.jsx, vite.config.js and the Netlify wrapper are not part of this model.
- AgentResponse.ImageNeverNull: holds only if the URL parser reads the default photo's address as https on images.unsplash.com, because URL parsing is a parameter. AgentResponse.EveryEventHasImage has the same assumption.
- EventSwipe.CardImageAlwaysValid: holds only if the parser reads every configured photo address as https on its own host (`ParsesCatalog`).
- AgentResponse.PreviewImageWins: requires the preview image to be non-empty. With an arbitrary parser, an empty string could pass as an http(s) URL, and the candidate filter drops empty strings.
- SampleData.LabelReadsBack: stated for hours 0..23 and non-negative minutes only. The other functions still model negative values with JavaScript's `%` and `${}`.

## Findings

| source | as written | input that shows it | evidently intended | confidence | as-written member | corrected member |
|---|---|---|---|---|---|---|
| src/EventSwipe.jsx:72-74 | `TYPE_IMAGE_MAP[normalized]` also finds what every object inherits. The type "constructor" yields the Object constructor and "__proto__" yields Object.prototype; both are truthy, so selectFallbackImage returns them, and the card uses them as its image source (lines 127-129). | an event with type "constructor" and no valid image of its own | only the map's own entries count, and any other type falls back to the default photo | not executed | EventSwipe.ConstructorCardHasNoAddress | EventSwipe.CardImageAlwaysValid |
