/** The aggregator of server/aggregateEvents.js: raw agent events are grouped by a key made
    from their normalized title, venue, address and description; each group becomes one
    record built from its first event, with the group's dates and times folded into single
    labels and every image of the group kept as a candidate. */
module AggregateEvents {
  import opened Wrappers
  import opened Text
  import opened Seqs

  /** An event as the agent reports it. Every field may be missing (null); `kind` is the
      source's `type` field. */
  datatype Event = Event(
    title: Option<string>, kind: Option<string>, venue: Option<string>, address: Option<string>,
    date: Option<string>, time: Option<string>, description: Option<string>,
    url: Option<string>, image: Option<string>)

  /** One element of the agent's list: null or a primitive, or an object. */
  datatype RawEntry = NotAnObject | Object(event: Event)

  /** JavaScript truthiness of an optional string: present and not empty. */
  predicate Truthy(v: Option<string>) {
    v.Some? && v.value != ""
  }

  /** The grouping key: the four normalized fields joined with '|'. */
  function GroupKey(e: Event): string {
    Normalize(e.title) + "|" + Normalize(e.venue) + "|" + Normalize(e.address) + "|" + Normalize(e.description)
  }

  /** What the aggregator keeps per key: the first event, the insertion-ordered sets of
      dates and trimmed times, and the images in arrival order. */
  datatype Group = Group(base: Event, dates: seq<string>, times: seq<string>, images: seq<string>)

  /** `new Date(raw)` (an instant in milliseconds, or none when the string does not parse)
      and `toISOString().slice(0, 10)`. */
  datatype Calendar = Calendar(parse: string -> Option<int>, iso: int -> string)

  /** An output record: the base event with its `date` and `time` labels, and the group's
      images as `imageCandidates`. */
  datatype Aggregated = Aggregated(event: Event, imageCandidates: seq<string>)

  // ---------------------------------------------------------------------------------------
  // The groups, stated declaratively over the objects of the input in order.

  /** The objects of the input, in order; null and primitive entries are dropped. */
  function Records(entries: seq<RawEntry>): seq<Event> {
    if entries == [] then []
    else
      var last := entries[|entries| - 1];
      Records(entries[..|entries| - 1]) + (if last.Object? then [last.event] else [])
  }

  /** The key of every record, in order. */
  function Keys(rs: seq<Event>): (ks: seq<string>)
    ensures |ks| == |rs|
  {
    if rs == [] then [] else Keys(rs[..|rs| - 1]) + [GroupKey(rs[|rs| - 1])]
  }

  /** The records with key `k`, in order. */
  function Members(rs: seq<Event>, k: string): (ms: seq<Event>)
    ensures |ms| > 0 <==> k in Keys(rs)
  {
    if rs == [] then []
    else
      var last := rs[|rs| - 1];
      Members(rs[..|rs| - 1], k) + (if GroupKey(last) == k then [last] else [])
  }

  /** The truthy dates of some records, in order. */
  function CollectedDates(ms: seq<Event>): seq<string> {
    if ms == [] then []
    else
      var last := ms[|ms| - 1];
      CollectedDates(ms[..|ms| - 1]) + (if Truthy(last.date) then [last.date.value] else [])
  }

  /** The string times of some records that are not blank, trimmed, in order. */
  function CollectedTimes(ms: seq<Event>): seq<string> {
    if ms == [] then []
    else
      var last := ms[|ms| - 1];
      CollectedTimes(ms[..|ms| - 1]) + (if last.time.Some? && Trim(last.time.value) != "" then [Trim(last.time.value)] else [])
  }

  /** The truthy images of some records, in order. */
  function CollectedImages(ms: seq<Event>): seq<string> {
    if ms == [] then []
    else
      var last := ms[|ms| - 1];
      CollectedImages(ms[..|ms| - 1]) + (if Truthy(last.image) then [last.image.value] else [])
  }

  /** The group of key `k` after all of `rs` has been read. */
  function GroupOf(rs: seq<Event>, k: string): Group
    requires k in Keys(rs)
  {
    GroupOfMembers(Members(rs, k))
  }

  // ---------------------------------------------------------------------------------------
  // The labels.

  /** The dates that parse, each with its instant, in insertion order. */
  function Parsed(dates: seq<string>, cal: Calendar): (ps: seq<(string, int)>)
    ensures forall p :: p in ps ==> p.0 in dates && cal.parse(p.0) == Some(p.1)
    ensures forall d :: d in dates && cal.parse(d).Some? ==> (d, cal.parse(d).value) in ps
  {
    if dates == [] then []
    else
      (if cal.parse(dates[0]).Some? then [(dates[0], cal.parse(dates[0]).value)] else [])
      + Parsed(dates[1..], cal)
  }

  /** The instant of the first element after sorting by instant. */
  function Earliest(ps: seq<(string, int)>): (t: int)
    requires |ps| > 0
    ensures exists p :: p in ps && p.1 == t
    ensures forall p :: p in ps ==> t <= p.1
  {
    if |ps| == 1 then ps[0].1
    else
      var rest := Earliest(ps[1..]);
      assert ps == [ps[0]] + ps[1..];
      if ps[0].1 < rest then ps[0].1 else rest
  }

  /** The instant of the last element after sorting by instant. */
  function Latest(ps: seq<(string, int)>): (t: int)
    requires |ps| > 0
    ensures exists p :: p in ps && p.1 == t
    ensures forall p :: p in ps ==> p.1 <= t
  {
    if |ps| == 1 then ps[0].1
    else
      var rest := Latest(ps[1..]);
      assert ps == [ps[0]] + ps[1..];
      if ps[0].1 > rest then ps[0].1 else rest
  }

  /** The date label of a group (server/aggregateEvents.js:53-72 and :84). */
  function DateLabel(baseDate: Option<string>, dates: seq<string>, cal: Calendar): string {
    var parsed := Parsed(dates, cal);
    if |parsed| > 0 then
      var lo, hi := Earliest(parsed), Latest(parsed);
      // a stable sort keeps the first of equal instants first
      if lo == hi then parsed[0].0 else cal.iso(lo) + " - " + cal.iso(hi)
    else if |dates| > 0 then
      if |dates| == 1 then dates[0] else LexMin(dates) + " - " + LexMax(dates)
    else
      baseDate.GetOr("Unknown")
  }

  /** The time label of a group (server/aggregateEvents.js:74-80 and :85). */
  function TimeLabel(baseTime: Option<string>, times: seq<string>): string {
    if |times| == 1 then times[0]
    else if |times| > 1 then Join(times, ", ")
    else baseTime.GetOr("TBA")
  }

  /** The output record of one group. */
  function Finish(g: Group, cal: Calendar): Aggregated {
    var labelled := g.base.(date := Some(DateLabel(g.base.date, g.dates, cal)), time := Some(TimeLabel(g.base.time, g.times)));
    Aggregated(labelled, g.images)
  }

  /** What aggregateEvents returns: one record per distinct key, in the order the keys were
      first seen. */
  function Aggregate(events: Option<seq<RawEntry>>, cal: Calendar): seq<Aggregated> {
    var rs := Records(events.GetOr([]));
    FinishAll(GroupsOf(rs), Dedup(Keys(rs)), cal)
  }

  // ---------------------------------------------------------------------------------------
  // The imperative aggregator.

  /** aggregateEvents: one pass fills the key-ordered map of groups, a second pass turns
      each group into its output record. */
  method AggregateEvents(events: Option<seq<RawEntry>>, cal: Calendar) returns (aggregated: seq<Aggregated>)
    ensures aggregated == Aggregate(events, cal)
    ensures events.None? ==> aggregated == []
  {
    var entries := events.GetOr([]);
    // the Map of the source: its key order and its contents
    var keys: seq<string> := [];
    var groups: map<string, Group> := map[];
    for i := 0 to |entries|
      invariant GroupsRead(Records(entries[..i]), keys, groups)
    {
      RecordsSnoc(entries, i);
      var entry := entries[i];
      if !entry.Object? {
        assert Records(entries[..i + 1]) == Records(entries[..i]) + [];
        assert Records(entries[..i]) + [] == Records(entries[..i]);
      } else {
        var event := entry.event;
        ghost var keys0, groups0 := keys, groups;
        var key := GroupKey(event);
        // a new key gets an empty group, remembered in first-seen order
        var group := if key in groups then groups[key] else Group(event, [], [], []);
        if key !in groups {
          keys := keys + [key];
        }
        if Truthy(event.date) {
          group := group.(dates := Add(group.dates, event.date.value));
        }
        if event.time.Some? && Trim(event.time.value) != "" {
          group := group.(times := Add(group.times, Trim(event.time.value)));
        }
        if Truthy(event.image) {
          group := group.(images := group.images + [event.image.value]);
        }
        groups := groups[key := group];
        assert group == Fold(if key in groups0 then groups0[key] else Group(event, [], [], []), event);
        GroupsReadStep(Records(entries[..i]), event, keys0, groups0, keys, groups);
      }
    }
    assert entries[..|entries|] == entries;

    AggregateOfGroups(events, cal, keys, groups);
    aggregated := FinishGroups(groups, keys, cal);
  }

  /** The second pass: one output record per group, in key order. */
  method FinishGroups(groups: map<string, Group>, keys: seq<string>, cal: Calendar) returns (aggregated: seq<Aggregated>)
    requires forall k :: k in keys ==> k in groups
    ensures aggregated == FinishAll(groups, keys, cal)
  {
    aggregated := [];
    for j := 0 to |keys|
      invariant aggregated == FinishAll(groups, keys[..j], cal)
    {
      FinishAllSnoc(groups, keys, j, cal);
      aggregated := aggregated + [Finish(groups[keys[j]], cal)];
    }
    assert keys[..|keys|] == keys;
  }

  /** The output records of the groups of `ks`, in order. */
  function FinishAll(groups: map<string, Group>, ks: seq<string>, cal: Calendar): (out: seq<Aggregated>)
    requires forall k :: k in ks ==> k in groups
    ensures |out| == |ks|
  {
    if ks == [] then [] else FinishAll(groups, ks[..|ks| - 1], cal) + [Finish(groups[ks[|ks| - 1]], cal)]
  }

  lemma FinishAllSnoc(groups: map<string, Group>, ks: seq<string>, j: nat, cal: Calendar)
    requires forall k :: k in ks ==> k in groups
    requires j < |ks|
    ensures FinishAll(groups, ks[..j + 1], cal) == FinishAll(groups, ks[..j], cal) + [Finish(groups[ks[j]], cal)]
  {
    assert ks[..j + 1][..j] == ks[..j];
  }

  lemma {:induction false} FinishAllAt(groups: map<string, Group>, ks: seq<string>, cal: Calendar, n: nat)
    requires forall k :: k in ks ==> k in groups
    requires n < |ks|
    ensures FinishAll(groups, ks, cal)[n] == Finish(groups[ks[n]], cal)
  {
    if n < |ks| - 1 {
      FinishAllAt(groups, ks[..|ks| - 1], cal, n);
    }
  }

  lemma {:induction false} FinishAllCongruent(g1: map<string, Group>, g2: map<string, Group>, ks: seq<string>, cal: Calendar)
    requires forall k :: k in ks ==> k in g1 && k in g2 && g1[k] == g2[k]
    ensures FinishAll(g1, ks, cal) == FinishAll(g2, ks, cal)
  {
    if ks != [] {
      FinishAllCongruent(g1, g2, ks[..|ks| - 1], cal);
    }
  }

  /** The groups the first pass builds, as a map from key to group. */
  function GroupsOf(rs: seq<Event>): map<string, Group> {
    map k | k in Keys(rs) :: GroupOf(rs, k)
  }

  lemma AggregateOfGroups(events: Option<seq<RawEntry>>, cal: Calendar, keys: seq<string>, groups: map<string, Group>)
    requires GroupsRead(Records(events.GetOr([])), keys, groups)
    ensures forall k :: k in keys ==> k in groups
    ensures FinishAll(groups, keys, cal) == Aggregate(events, cal)
  {
    var rs := Records(events.GetOr([]));
    FinishAllCongruent(groups, GroupsOf(rs), keys, cal);
  }

  /** The state of the first loop after reading the records `rs`: the keys in first-seen
      order, and for each of them its group. */
  ghost predicate GroupsRead(rs: seq<Event>, keys: seq<string>, groups: map<string, Group>) {
    && keys == Dedup(Keys(rs))
    && GroupsMatch(rs, groups)
  }

  /** `groups` holds exactly the keys of `rs`, each with its group. */
  ghost predicate GroupsMatch(rs: seq<Event>, groups: map<string, Group>) {
    && (forall k :: k in groups <==> k in Keys(rs))
    && (forall k :: k in groups ==> groups[k] == GroupOf(rs, k))
  }

  lemma RecordsSnoc(entries: seq<RawEntry>, i: nat)
    requires i < |entries|
    ensures Records(entries[..i + 1]) ==
            Records(entries[..i]) + (if entries[i].Object? then [entries[i].event] else [])
  {
    assert entries[..i + 1][..i] == entries[..i];
  }

  /** One iteration of the first loop on the group of the event's key. */
  function Fold(g: Group, e: Event): Group {
    Group(
      g.base,
      if Truthy(e.date) then Add(g.dates, e.date.value) else g.dates,
      if e.time.Some? && Trim(e.time.value) != "" then Add(g.times, Trim(e.time.value)) else g.times,
      if Truthy(e.image) then g.images + [e.image.value] else g.images)
  }

  /** Reading one more record creates or folds exactly the group of its key. */
  lemma GroupsReadStep(rs: seq<Event>, e: Event, keys: seq<string>, groups: map<string, Group>,
                       keys': seq<string>, groups': map<string, Group>)
    requires GroupsRead(rs, keys, groups)
    requires keys' == if GroupKey(e) in groups then keys else keys + [GroupKey(e)]
    requires groups' == groups[GroupKey(e) := Fold(if GroupKey(e) in groups then groups[GroupKey(e)] else Group(e, [], [], []), e)]
    ensures GroupsRead(rs + [e], keys', groups')
  {
    KeysStep(rs, e, keys);
    GroupsStep(rs, e, groups, groups');
  }

  lemma KeysStep(rs: seq<Event>, e: Event, keys: seq<string>)
    requires keys == Dedup(Keys(rs))
    ensures Dedup(Keys(rs + [e])) == if GroupKey(e) in keys then keys else keys + [GroupKey(e)]
  {
    KeysSnoc(rs, e);
    DedupSnoc(Keys(rs), GroupKey(e));
  }

  lemma GroupsStep(rs: seq<Event>, e: Event, groups: map<string, Group>, groups': map<string, Group>)
    requires GroupsMatch(rs, groups)
    requires groups' == groups[GroupKey(e) := Fold(if GroupKey(e) in groups then groups[GroupKey(e)] else Group(e, [], [], []), e)]
    ensures GroupsMatch(rs + [e], groups')
  {
    var key := GroupKey(e);
    KeysSnoc(rs, e);
    forall k | k in groups' ensures groups'[k] == GroupOf(rs + [e], k) {
      if k == key {
        GroupOfSnoc(rs, e);
      } else {
        OtherGroupUnchanged(rs, e, k);
      }
    }
  }

  lemma OtherGroupUnchanged(rs: seq<Event>, e: Event, k: string)
    requires k in Keys(rs) && k != GroupKey(e)
    ensures k in Keys(rs + [e]) && GroupOf(rs + [e], k) == GroupOf(rs, k)
  {
    KeysSnoc(rs, e);
    MembersSnoc(rs, e, k);
    assert Members(rs + [e], k) == Members(rs, k) + [];
    assert Members(rs, k) + [] == Members(rs, k);
  }

  lemma KeysSnoc(rs: seq<Event>, e: Event)
    ensures Keys(rs + [e]) == Keys(rs) + [GroupKey(e)]
  {
    assert (rs + [e])[..|rs|] == rs;
  }

  lemma MembersSnoc(rs: seq<Event>, e: Event, k: string)
    ensures Members(rs + [e], k) == Members(rs, k) + (if GroupKey(e) == k then [e] else [])
  {
    assert (rs + [e])[..|rs|] == rs;
  }

  lemma CollectedSnoc(ms: seq<Event>, e: Event)
    ensures CollectedDates(ms + [e]) == CollectedDates(ms) + (if Truthy(e.date) then [e.date.value] else [])
    ensures CollectedTimes(ms + [e]) == CollectedTimes(ms) + (if e.time.Some? && Trim(e.time.value) != "" then [Trim(e.time.value)] else [])
    ensures CollectedImages(ms + [e]) == CollectedImages(ms) + (if Truthy(e.image) then [e.image.value] else [])
  {
    assert (ms + [e])[..|ms|] == ms;
  }

  /** The group of the new record's key after reading it. */
  lemma GroupOfSnoc(rs: seq<Event>, e: Event)
    ensures GroupKey(e) in Keys(rs + [e])
    ensures GroupKey(e) in Keys(rs) ==> GroupOf(rs + [e], GroupKey(e)) == Fold(GroupOf(rs, GroupKey(e)), e)
    ensures GroupKey(e) !in Keys(rs) ==> GroupOf(rs + [e], GroupKey(e)) == Fold(Group(e, [], [], []), e)
  {
    var k := GroupKey(e);
    KeysSnoc(rs, e);
    MembersSnoc(rs, e, k);
    var ms := Members(rs, k);
    var ms' := ms + [e];
    assert Members(rs + [e], k) == ms';
    if k !in Keys(rs) {
      FoldFirstMember(e);
      assert ms == [];
      assert GroupOf(rs + [e], k) == GroupOfMembers(ms');
      assert GroupOfMembers([] + [e]) == Fold(Group(e, [], [], []), e);
    } else {
      FoldMembers(ms, e);
      assert GroupOf(rs + [e], k) == GroupOfMembers(ms');
      assert GroupOf(rs, k) == GroupOfMembers(ms);
    }
  }

  /** The group a non-empty list of members describes. */
  function GroupOfMembers(ms: seq<Event>): Group
    requires |ms| > 0
  {
    Group(ms[0], Dedup(CollectedDates(ms)), Dedup(CollectedTimes(ms)), CollectedImages(ms))
  }

  lemma FoldMembers(ms: seq<Event>, e: Event)
    requires |ms| > 0
    ensures GroupOfMembers(ms + [e]) == Fold(GroupOfMembers(ms), e)
  {
    FoldFields(ms, e);
    assert (ms + [e])[0] == ms[0];
  }

  lemma FoldFirstMember(e: Event)
    ensures GroupOfMembers([e]) == Fold(Group(e, [], [], []), e)
  {
    FoldFields([], e);
    assert [] + [e] == [e];
  }

  lemma FoldFields(ms: seq<Event>, e: Event)
    ensures Dedup(CollectedDates(ms + [e])) == if Truthy(e.date) then Add(Dedup(CollectedDates(ms)), e.date.value) else Dedup(CollectedDates(ms))
    ensures Dedup(CollectedTimes(ms + [e])) == if e.time.Some? && Trim(e.time.value) != "" then Add(Dedup(CollectedTimes(ms)), Trim(e.time.value)) else Dedup(CollectedTimes(ms))
    ensures CollectedImages(ms + [e]) == if Truthy(e.image) then CollectedImages(ms) + [e.image.value] else CollectedImages(ms)
  {
    FoldDates(ms, e);
    FoldTimes(ms, e);
    CollectedSnoc(ms, e);
  }

  lemma FoldDates(ms: seq<Event>, e: Event)
    ensures Dedup(CollectedDates(ms + [e])) == if Truthy(e.date) then Add(Dedup(CollectedDates(ms)), e.date.value) else Dedup(CollectedDates(ms))
  {
    CollectedSnoc(ms, e);
    if Truthy(e.date) {
      DedupSnoc(CollectedDates(ms), e.date.value);
    } else {
      assert CollectedDates(ms + [e]) == CollectedDates(ms) + [];
      assert CollectedDates(ms) + [] == CollectedDates(ms);
    }
  }

  lemma FoldTimes(ms: seq<Event>, e: Event)
    ensures Dedup(CollectedTimes(ms + [e])) == if e.time.Some? && Trim(e.time.value) != "" then Add(Dedup(CollectedTimes(ms)), Trim(e.time.value)) else Dedup(CollectedTimes(ms))
  {
    CollectedSnoc(ms, e);
    var kept := e.time.Some? && Trim(e.time.value) != "";
    if kept {
      DedupSnoc(CollectedTimes(ms), Trim(e.time.value));
    } else {
      assert CollectedTimes(ms + [e]) == CollectedTimes(ms) + [];
      assert CollectedTimes(ms) + [] == CollectedTimes(ms);
    }
  }

  // ---------------------------------------------------------------------------------------
  // What the aggregator promises.

  lemma {:induction false} KeyAt(rs: seq<Event>, n: nat)
    requires n < |rs|
    ensures Keys(rs)[n] == GroupKey(rs[n])
  {
    if n < |rs| - 1 {
      KeyAt(rs[..|rs| - 1], n);
    }
  }

  /** The members of a key are exactly the records with that key. */
  lemma {:induction false} MembersOfKey(rs: seq<Event>, k: string)
    ensures forall e :: e in Members(rs, k) <==> e in rs && GroupKey(e) == k
  {
    if rs != [] {
      var p, x := rs[..|rs| - 1], rs[|rs| - 1];
      assert rs == p + [x];
      MembersOfKey(p, k);
    }
  }

  /** The first record with key `k`: the base of the group of `k`. */
  function FirstWithKey(rs: seq<Event>, k: string): Event
    requires k in Keys(rs)
  {
    rs[IndexOf(Keys(rs), k)]
  }

  /** No record before the base has its key. */
  lemma FirstWithKeyIsFirst(rs: seq<Event>, k: string)
    requires k in Keys(rs)
    ensures var n := IndexOf(Keys(rs), k);
            0 <= n < |rs| && rs[n] == FirstWithKey(rs, k) && GroupKey(rs[n]) == k &&
            forall m :: 0 <= m < n ==> GroupKey(rs[m]) != k
  {
    var n := IndexOf(Keys(rs), k);
    KeyAt(rs, n);
    forall m | 0 <= m < n ensures GroupKey(rs[m]) != k {
      KeyAt(rs, m);
    }
  }

  lemma {:induction false} FirstMember(rs: seq<Event>, k: string)
    requires k in Keys(rs)
    ensures Members(rs, k)[0] == FirstWithKey(rs, k)
  {
    var p, x := rs[..|rs| - 1], rs[|rs| - 1];
    assert rs == p + [x];
    KeysSnoc(p, x);
    MembersSnoc(p, x, k);
    IndexOfSnoc(Keys(p), GroupKey(x), k);
    if k in Keys(p) {
      FirstMember(p, k);
    } else {
      assert Members(p, k) == [];
    }
  }

  /** Output record `i` is the finished group of the `i`-th key in first-seen order. */
  lemma AggregateAt(events: Option<seq<RawEntry>>, cal: Calendar, i: nat)
    requires i < |Dedup(Keys(Records(events.GetOr([]))))|
    ensures var rs := Records(events.GetOr([]));
            var k := Dedup(Keys(rs))[i];
            k in Keys(rs) && i < |Aggregate(events, cal)| &&
            Aggregate(events, cal)[i] == Finish(GroupOf(rs, k), cal)
  {
    var rs := Records(events.GetOr([]));
    var ks := Dedup(Keys(rs));
    assert ks[i] in ks;
    FinishAllAt(GroupsOf(rs), ks, cal, i);
  }

  /** The key of output record `i` is the `i`-th distinct key; its event is the first record
      with that key, with only `date` and `time` replaced; its candidates are the truthy images
      of all records with that key, in arrival order. */
  lemma AggregateRecord(events: Option<seq<RawEntry>>, cal: Calendar, i: nat)
    requires i < |Aggregate(events, cal)|
    ensures var rs := Records(events.GetOr([]));
            var out := Aggregate(events, cal)[i];
            var k := Dedup(Keys(rs))[i];
            && k in Keys(rs)
            && GroupKey(out.event) == k
            && out.event.(date := FirstWithKey(rs, k).date, time := FirstWithKey(rs, k).time) == FirstWithKey(rs, k)
            && out.event.date == Some(DateLabel(FirstWithKey(rs, k).date, Dedup(CollectedDates(Members(rs, k))), cal))
            && out.event.time == Some(TimeLabel(FirstWithKey(rs, k).time, Dedup(CollectedTimes(Members(rs, k)))))
            && out.imageCandidates == CollectedImages(Members(rs, k))
  {
    var rs := Records(events.GetOr([]));
    var k := Dedup(Keys(rs))[i];
    AggregateAt(events, cal, i);
    FirstMember(rs, k);
    FirstWithKeyIsFirst(rs, k);
  }

  lemma AggregateKeyAt(events: Option<seq<RawEntry>>, cal: Calendar, i: nat)
    requires i < |Aggregate(events, cal)|
    ensures i < |Dedup(Keys(Records(events.GetOr([]))))|
    ensures GroupKey(Aggregate(events, cal)[i].event) == Dedup(Keys(Records(events.GetOr([]))))[i]
  {
    AggregateRecord(events, cal, i);
  }

  /** The output records have pairwise different keys. */
  lemma AggregateKeysDistinct(events: Option<seq<RawEntry>>, cal: Calendar)
    ensures var out := Aggregate(events, cal);
            forall i, j :: 0 <= i < j < |out| ==> GroupKey(out[i].event) != GroupKey(out[j].event)
  {
    var out := Aggregate(events, cal);
    forall i | 0 <= i < |out| ensures GroupKey(out[i].event) == Dedup(Keys(Records(events.GetOr([]))))[i] {
      AggregateKeyAt(events, cal, i);
    }
  }

  /** Every record of the input has the output record of its key. */
  lemma AggregateCoversRecords(events: Option<seq<RawEntry>>, cal: Calendar, e: Event)
    requires e in Records(events.GetOr([]))
    ensures exists i :: 0 <= i < |Aggregate(events, cal)| && GroupKey(Aggregate(events, cal)[i].event) == GroupKey(e)
  {
    var rs := Records(events.GetOr([]));
    var ks := Dedup(Keys(rs));
    var n :| 0 <= n < |rs| && rs[n] == e;
    KeyAt(rs, n);
    assert GroupKey(e) in ks;
    var i :| 0 <= i < |ks| && ks[i] == GroupKey(e);
    AggregateKeyAt(events, cal, i);
  }

  /** Output records follow the first appearance of their keys in the input. */
  lemma AggregateFirstSeenOrder(events: Option<seq<RawEntry>>, cal: Calendar)
    ensures var rs := Records(events.GetOr([]));
            var out := Aggregate(events, cal);
            forall i, j :: 0 <= i < j < |out| ==>
              IndexOf(Keys(rs), GroupKey(out[i].event)) < IndexOf(Keys(rs), GroupKey(out[j].event))
  {
    var rs := Records(events.GetOr([]));
    var out := Aggregate(events, cal);
    forall i | 0 <= i < |out| ensures GroupKey(out[i].event) == Dedup(Keys(rs))[i] {
      AggregateKeyAt(events, cal, i);
    }
    DedupOrder(Keys(rs));
  }

  /** Records with the same normalized title, venue, address and description share their
      group; the other fields do not take part in the key. */
  lemma SameGroup(rs: seq<Event>, e1: Event, e2: Event)
    requires e1 in rs && e2 in rs
    requires Normalize(e1.title) == Normalize(e2.title) && Normalize(e1.venue) == Normalize(e2.venue)
    requires Normalize(e1.address) == Normalize(e2.address) && Normalize(e1.description) == Normalize(e2.description)
    ensures e1 in Members(rs, GroupKey(e2)) && e2 in Members(rs, GroupKey(e1))
  {
    MembersOfKey(rs, GroupKey(e1));
    MembersOfKey(rs, GroupKey(e2));
  }

  lemma {:induction false} RecordsAppend(a: seq<RawEntry>, b: seq<RawEntry>)
    ensures Records(a + b) == Records(a) + Records(b)
  {
    if b != [] {
      var b', y := b[..|b| - 1], b[|b| - 1];
      assert a + b == (a + b') + [y];
      assert (a + b)[..|a + b| - 1] == a + b';
      RecordsAppend(a, b');
    } else {
      assert a + b == a;
    }
  }

  /** A null or primitive entry creates no group and changes no output record. */
  lemma NonObjectIgnored(entries: seq<RawEntry>, i: nat, cal: Calendar)
    requires i < |entries| && entries[i].NotAnObject?
    ensures Aggregate(Some(entries), cal) == Aggregate(Some(entries[..i] + entries[i + 1..]), cal)
  {
    NonObjectDropped(entries, i);
  }

  lemma NonObjectDropped(entries: seq<RawEntry>, i: nat)
    requires i < |entries| && entries[i].NotAnObject?
    ensures Records(entries) == Records(entries[..i] + entries[i + 1..])
  {
    var a, x, c := entries[..i], entries[i], entries[i + 1..];
    assert entries == (a + [x]) + c;
    RecordsAppend(a + [x], c);
    RecordsAppend(a, [x]);
    RecordsAppend(a, c);
    assert Records([x]) == [] by {
      assert [x][..0] == [];
    }
    assert Records(a) + [] == Records(a);
  }

  // The labels, characterised without the sort.

  lemma ParsedInstants(dates: seq<string>, cal: Calendar, t: int)
    requires exists d :: d in dates && cal.parse(d) == Some(t)
    ensures (forall d :: d in dates && cal.parse(d).Some? ==> t <= cal.parse(d).value) ==> Earliest(Parsed(dates, cal)) == t
    ensures (forall d :: d in dates && cal.parse(d).Some? ==> cal.parse(d).value <= t) ==> Latest(Parsed(dates, cal)) == t
  {
    var d :| d in dates && cal.parse(d) == Some(t);
    assert (d, t) in Parsed(dates, cal);
  }

  /** When the parsing dates span more than one instant, the label is the ISO range from the
      earliest to the latest; dates that do not parse play no part. */
  lemma DateLabelRange(baseDate: Option<string>, dates: seq<string>, cal: Calendar, lo: int, hi: int)
    requires lo != hi
    requires exists d :: d in dates && cal.parse(d) == Some(lo)
    requires exists d :: d in dates && cal.parse(d) == Some(hi)
    requires forall d :: d in dates && cal.parse(d).Some? ==> lo <= cal.parse(d).value <= hi
    ensures DateLabel(baseDate, dates, cal) == cal.iso(lo) + " - " + cal.iso(hi)
  {
    ParsedInstants(dates, cal, lo);
    ParsedInstants(dates, cal, hi);
  }

  lemma {:induction false} FirstParsed(dates: seq<string>, cal: Calendar, n: nat)
    requires n < |dates| && cal.parse(dates[n]).Some?
    requires forall m :: 0 <= m < n ==> cal.parse(dates[m]).None?
    ensures |Parsed(dates, cal)| > 0 && Parsed(dates, cal)[0].0 == dates[n]
  {
    if n > 0 {
      FirstParsed(dates[1..], cal, n - 1);
    }
  }

  /** When every parsing date denotes the same instant, the label is the first of them as
      written. */
  lemma DateLabelOneInstant(baseDate: Option<string>, dates: seq<string>, cal: Calendar, n: nat)
    requires n < |dates| && cal.parse(dates[n]).Some?
    requires forall m :: 0 <= m < n ==> cal.parse(dates[m]).None?
    requires forall d :: d in dates && cal.parse(d).Some? ==> cal.parse(d) == cal.parse(dates[n])
    ensures DateLabel(baseDate, dates, cal) == dates[n]
  {
    FirstParsed(dates, cal, n);
    ParsedInstants(dates, cal, cal.parse(dates[n]).value);
  }

  /** When no date parses, the label is the smallest and largest raw string in JavaScript's
      string order, or the only one. */
  lemma DateLabelUnparsed(baseDate: Option<string>, dates: seq<string>, cal: Calendar, lo: string, hi: string)
    requires forall d :: d in dates ==> cal.parse(d).None?
    requires lo in dates && hi in dates
    requires forall d :: d in dates ==> d == lo || LexLess(lo, d)
    requires forall d :: d in dates ==> d == hi || LexLess(d, hi)
    ensures |dates| == 1 ==> DateLabel(baseDate, dates, cal) == lo
    ensures |dates| > 1 ==> DateLabel(baseDate, dates, cal) == lo + " - " + hi
  {
    NoneParsed(dates, cal);
    var m, x := LexMin(dates), LexMax(dates);
    if m != lo {
      LexLessAsymmetric(m, lo);
    }
    if x != hi {
      LexLessAsymmetric(x, hi);
    }
  }

  lemma {:induction false} NoneParsed(dates: seq<string>, cal: Calendar)
    requires forall d :: d in dates ==> cal.parse(d).None?
    ensures Parsed(dates, cal) == []
  {
    if dates != [] {
      NoneParsed(dates[1..], cal);
    }
  }

  /** With no collected date the base's own date stays, else "Unknown"; with no collected
      time the base's own time stays, else "TBA". */
  lemma LabelsWithoutValues(base: Event, cal: Calendar)
    ensures DateLabel(base.date, [], cal) == base.date.GetOr("Unknown")
    ensures TimeLabel(base.time, []) == base.time.GetOr("TBA")
  {
  }

  /** The collected times are the distinct non-blank times of the group, trimmed. */
  lemma {:induction false} TimesOfGroup(ms: seq<Event>)
    ensures forall t :: t in CollectedTimes(ms) <==>
              exists e :: e in ms && e.time.Some? && Trim(e.time.value) == t && t != ""
  {
    if ms != [] {
      var p, x := ms[..|ms| - 1], ms[|ms| - 1];
      assert ms == p + [x];
      TimesOfGroup(p);
    }
  }
}
