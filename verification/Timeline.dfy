/** The diagnostics timeline: delta events, byte-bounded markers and what can be rebuilt from them. */
module Timeline {
  import opened Common
  import opened Decimals
  import opened BoundedBuffer
  import opened Paging

  datatype Section = PageSection | ChatSection | PipelineSection | RunSection | FeaturesSection

  const SECTIONS: seq<Section> := [PageSection, ChatSection, PipelineSection, RunSection, FeaturesSection]

  function SectionName(s: Section): string {
    match s
    case PageSection => "page"
    case ChatSection => "chat"
    case PipelineSection => "pipeline"
    case RunSection => "run"
    case FeaturesSection => "features"
  }

  /** One summarized renderer state: the JSON text of each section. */
  datatype Snapshot = Snapshot(page: string, chat: string, pipeline: string, run: string, features: string)

  function At(s: Snapshot, section: Section): string {
    match section
    case PageSection => s.page
    case ChatSection => s.chat
    case PipelineSection => s.pipeline
    case RunSection => s.run
    case FeaturesSection => s.features
  }

  datatype Truncation = Truncation(limitBytes: nat, sourceBytes: nat, returnedBytes: nat)

  /** timestamp is the number as JSON prints it. */
  datatype Event = Event(
    cursor: nat,
    timestamp: string,
    instanceId: string,
    workspaceKey: Option<string>,
    changed: seq<Section>,
    state: map<Section, string>,
    truncation: Option<Truncation>)

  // ----- Serialized size -----

  function EscapedBytes(c: char): nat {
    if c == '"' || c == '\\' || c == '\n' || c == '\r' || c == '\t' || c == '\U{8}' || c == '\U{c}' then 2
    else if c < ' ' then 6
    else CharBytes(c)
  }

  function BodyBytes(s: string): nat {
    if s == [] then 0 else EscapedBytes(s[0]) + BodyBytes(s[1..])
  }

  /** UTF-8 length of a string in JSON, with its quotes. */
  function QuotedBytes(s: string): nat {
    2 + BodyBytes(s)
  }

  function ChangedBytes(changed: seq<Section>): nat {
    if changed == [] then 0
    else |SectionName(changed[0])| + 2 + (if |changed| > 1 then 1 else 0) + ChangedBytes(changed[1..])
  }

  /** Members of the state object, each after the first preceded by a comma. */
  function StateBytes(changed: seq<Section>, state: map<Section, string>, first: bool): nat {
    if changed == [] then 0
    else if changed[0] !in state then StateBytes(changed[1..], state, first)
    else (if first then 0 else 1) + |SectionName(changed[0])| + 3 + Utf8Length(state[changed[0]])
         + StateBytes(changed[1..], state, false)
  }

  // Lengths of the fixed pieces of a serialized event.
  const CURSOR_TEXT := |"{\"cursor\":"|
  const TIMESTAMP_TEXT := |",\"timestamp\":"|
  const INSTANCE_TEXT := |",\"source\":\"renderer.snapshot\",\"instanceId\":"|
  const WORKSPACE_TEXT := |",\"workspaceKey\":"|
  const NULL_TEXT := |"null"|
  const CHANGED_TEXT := |",\"changedSections\":["|
  const STATE_TEXT := |"],\"state\":{"|
  const CLOSE_TEXT := |"}"|
  const LIMIT_TEXT := |",\"truncation\":{\"layer\":\"diagnostics-timeline-event\",\"reason\":\"byte-limit\",\"limitBytes\":"|
  const SOURCE_TEXT := |",\"sourceBytes\":"|
  const RETURNED_TEXT := |",\"returnedBytes\":"|

  /** The part of the serialized event before the truncation record; fixed text and numbers are ASCII. */
  function HeadBytes(e: Event): nat {
    CURSOR_TEXT + |ToDecimal(e.cursor)| + TIMESTAMP_TEXT + |e.timestamp|
    + INSTANCE_TEXT + QuotedBytes(e.instanceId)
    + WORKSPACE_TEXT + (if e.workspaceKey.Some? then QuotedBytes(e.workspaceKey.value) else NULL_TEXT)
    + CHANGED_TEXT + ChangedBytes(e.changed)
    + STATE_TEXT + StateBytes(e.changed, e.state, true) + CLOSE_TEXT
  }

  /** Everything around the number in the truncation record's last field. */
  function TruncationFrame(t: Truncation): nat {
    LIMIT_TEXT + |ToDecimal(t.limitBytes)| + SOURCE_TEXT + |ToDecimal(t.sourceBytes)| + RETURNED_TEXT + CLOSE_TEXT
  }

  function Digits(n: nat): nat {
    |ToDecimal(n)|
  }

  /** The size of a marker without the digits of its own size. */
  function Base(e: Event): nat
    requires e.truncation.Some?
  {
    HeadBytes(e) + TruncationFrame(e.truncation.value) + CLOSE_TEXT
  }

  /** serializedTimelineEventBytes */
  function EventBytes(e: Event): nat {
    if e.truncation.Some? then Base(e) + Digits(e.truncation.value.returnedBytes) else HeadBytes(e) + CLOSE_TEXT
  }

  // ----- The self-describing size -----

  function WithReturned(e: Event, returned: nat): Event
    requires e.truncation.Some?
  {
    e.(truncation := Some(e.truncation.value.(returnedBytes := returned)))
  }

  lemma SizeIsBasePlusDigits(e: Event, returned: nat)
    requires e.truncation.Some?
    ensures EventBytes(WithReturned(e, returned)) == Base(e) + Digits(returned)
    ensures Base(WithReturned(e, returned)) == Base(e)
  {
  }

  lemma DigitsGrow(m: nat, n: nat)
    requires m <= n
    ensures 1 <= Digits(m) <= Digits(n)
  {
    PrintThenParse(m);
    PrintThenParse(n);
    DigitCount(n, Digits(n));
    DigitCount(m, Digits(n));
  }

  /** Adding fewer than its number of digits to a number adds at most one digit. */
  lemma DigitsGrowSlowly(n: nat, m: nat)
    requires n <= m <= n + Digits(n)
    ensures Digits(m) <= Digits(n) + 1
  {
    PrintThenParse(n);
    var d := Digits(n);
    DigitCount(n, d);
    DigitCount(m, d + 1);
    PowerGrows(d);
  }

  /** Iterating r := base + digits(r) from zero is stable from the third value on. */
  lemma ThirdIterateIsFixed(base: nat, r1: nat, r2: nat, r3: nat)
    requires r1 == base + Digits(0) && r2 == base + Digits(r1) && r3 == base + Digits(r2)
    ensures base + Digits(r3) == r3
  {
    assert Digits(0) == 1;
    DigitsGrow(0, r1);
    DigitsGrow(r1, r2);
    DigitsGrow(r2, r3);
    DigitsGrowSlowly(r1, r2);
    if Digits(r2) == Digits(r1) + 1 {
      assert r3 == r2 + 1 && r3 == r1 + Digits(r1);
      DigitsGrowSlowly(r1, r3);
    }
  }

  /**
   * settleReturnedBytes: at most ten attempts are made; the fourth always finds the size settled, so the assignment
   * that follows the attempts in the program is never reached.
   */
  method SettleReturnedBytes(marker: Event) returns (settled: Event)
    requires marker.truncation.Some? && marker.truncation.value.returnedBytes == 0
    ensures settled.truncation.Some? && settled == WithReturned(marker, settled.truncation.value.returnedBytes)
    ensures settled.truncation.value.returnedBytes == EventBytes(settled)
  {
    settled := marker;
    ghost var base := Base(marker);
    ghost var r1 := base + Digits(0);
    ghost var r2 := base + Digits(r1);
    ghost var r3 := base + Digits(r2);
    ThirdIterateIsFixed(base, r1, r2, r3);
    var attempt := 0;
    while attempt < 10
      invariant 0 <= attempt <= 3
      invariant settled.truncation.Some?
      invariant settled == WithReturned(marker, settled.truncation.value.returnedBytes)
      invariant settled.truncation.value.returnedBytes ==
                  if attempt == 0 then 0 else if attempt == 1 then r1 else if attempt == 2 then r2 else r3
      decreases 10 - attempt
    {
      SizeIsBasePlusDigits(marker, settled.truncation.value.returnedBytes);
      var returned := EventBytes(settled);
      if settled.truncation.value.returnedBytes == returned {
        return;
      }
      settled := WithReturned(settled, returned);
      attempt := attempt + 1;
    }
  }

  // ----- Bounded strings -----

  const SUFFIX := "...[truncated]"

  /** A text that fits is kept; a longer one becomes its longest prefix that leaves room for the suffix. */
  ghost predicate IsBounded(value: string, maxBytes: nat, suffix: string, output: string) {
    if Utf8Length(value) <= maxBytes then output == value
    else exists n: nat :: BoundedAt(value, maxBytes, suffix, output, n)
  }

  ghost predicate BoundedAt(value: string, maxBytes: nat, suffix: string, output: string, n: nat) {
    && n < |value| && output == value[..n] + suffix
    && (n == 0 || Utf8Length(value[..n]) + |suffix| <= maxBytes)
    && Utf8Length(value[..n + 1]) + |suffix| > maxBytes
  }

  method BoundedUtf8String(value: string, maxBytes: nat) returns (output: string)
    ensures IsBounded(value, maxBytes, SUFFIX, output)
  {
    if Utf8Length(value) <= maxBytes {
      return value;
    }
    output := "";
    var outputBytes := 0;
    var i := 0;
    Utf8Prefix(value, |value|);
    assert value[..|value|] == value;
    while i < |value| && outputBytes + CharBytes(value[i]) + |SUFFIX| <= maxBytes
      invariant 0 <= i <= |value|
      invariant output == value[..i] && outputBytes == Utf8Length(value[..i])
      invariant i == 0 || outputBytes + |SUFFIX| <= maxBytes
    {
      Utf8Prefix(value, i + 1);
      assert value[..i + 1] == value[..i] + [value[i]];
      output := output + [value[i]];
      outputBytes := outputBytes + CharBytes(value[i]);
      i := i + 1;
    }
    Utf8Prefix(value, if i < |value| then i + 1 else i);
    output := output + SUFFIX;
    assert BoundedAt(value, maxBytes, SUFFIX, output, i);
  }

  /** The result is within the limit exactly if the text is, or the suffix alone is. */
  lemma BoundedStringFits(value: string, maxBytes: nat, suffix: string, output: string)
    requires IsBounded(value, maxBytes, suffix, output) && Utf8Length(suffix) == |suffix|
    ensures Utf8Length(output) <= maxBytes <==> Utf8Length(value) <= maxBytes || |suffix| <= maxBytes
  {
    if Utf8Length(value) > maxBytes {
      var n: nat :| BoundedAt(value, maxBytes, suffix, output, n);
      Utf8Append(value[..n], suffix);
    }
  }

  /** Under the limits a marker asks for, the result always fits. */
  lemma MarkerNamesFit(value: string, maxBytes: nat, output: string)
    requires maxBytes == 128 || maxBytes == 256
    requires IsBounded(value, maxBytes, SUFFIX, output)
    ensures Utf8Length(output) <= maxBytes
  {
    SuffixBytes();
    BoundedStringFits(value, maxBytes, SUFFIX, output);
  }

  lemma SuffixBytes()
    ensures Utf8Length(SUFFIX) == |SUFFIX| == 14
  {
    Ascii(SUFFIX);
  }

  lemma {:induction false} Ascii(s: string)
    requires forall i | 0 <= i < |s| :: CharBytes(s[i]) == 1
    ensures Utf8Length(s) == |s|
  {
    if s != [] {
      Ascii(s[1..]);
    }
  }

  lemma Utf8Prefix(value: string, n: nat)
    requires n <= |value|
    ensures n > 0 ==> Utf8Length(value[..n]) == Utf8Length(value[..n - 1]) + CharBytes(value[n - 1])
  {
    if n > 0 {
      assert value[..n] == value[..n - 1] + [value[n - 1]];
      Utf8Append(value[..n - 1], [value[n - 1]]);
      assert [value[n - 1]][1..] == [];
    }
  }

  // ----- Overflow markers -----

  const MAX_SAFE_INTEGER: nat := 9007199254740991
  const OMITTED_ID := "[timeline-event-id-omitted]"
  const OMITTED_LENGTH := 27

  /** A marker reduced to its smallest form has a short fixed id and no workspace key. */
  predicate IsBare(marker: Event) {
    |marker.instanceId| == OMITTED_LENGTH && marker.workspaceKey == None
  }

  /** What a marker keeps of the event it replaces. */
  ghost predicate IsMarker(e: Event, limitBytes: nat, sourceBytes: nat, marker: Event) {
    && marker.cursor == e.cursor && marker.timestamp == e.timestamp && marker.changed == e.changed
    && marker.state == map[]
    && marker.truncation == Some(Truncation(limitBytes, sourceBytes, EventBytes(marker)))
  }

  /** Numbers the program can print as integers, a timestamp JSON can print, and sections listed once. */
  ghost predicate Printable(e: Event, limitBytes: nat, sourceBytes: nat) {
    && e.cursor <= MAX_SAFE_INTEGER && limitBytes <= MAX_SAFE_INTEGER && sourceBytes <= MAX_SAFE_INTEGER
    && |e.timestamp| <= 25 && |e.changed| <= |SECTIONS|
  }

  method MarkerWith(e: Event, id: string, key: Option<string>, limitBytes: nat, sourceBytes: nat) returns (marker: Event)
    ensures IsMarker(e, limitBytes, sourceBytes, marker)
    ensures marker.instanceId == id && marker.workspaceKey == key
  {
    marker := SettleReturnedBytes(Event(e.cursor, e.timestamp, id, key, e.changed, map[],
                                        Some(Truncation(limitBytes, sourceBytes, 0))));
  }

  /** A marker names its instance and workspace in bounded form. */
  ghost predicate NamesInstance(e: Event, marker: Event) {
    && IsBounded(e.instanceId, 128, SUFFIX, marker.instanceId) && Utf8Length(marker.instanceId) <= 128
    && (e.workspaceKey.Some? <==> marker.workspaceKey.Some?)
    && (e.workspaceKey.Some? ==>
          && IsBounded(e.workspaceKey.value, 256, SUFFIX, marker.workspaceKey.value)
          && Utf8Length(marker.workspaceKey.value) <= 256)
  }

  method TimelineOverflowMarker(e: Event, limitBytes: nat, sourceBytes: nat) returns (marker: Event)
    ensures IsMarker(e, limitBytes, sourceBytes, marker)
    ensures (NamesInstance(e, marker) && EventBytes(marker) <= limitBytes)
         || (marker.instanceId == OMITTED_ID && marker.workspaceKey == None)
  {
    var id := BoundedUtf8String(e.instanceId, 128);
    MarkerNamesFit(e.instanceId, 128, id);
    var key := None;
    if e.workspaceKey.Some? {
      var bounded := BoundedUtf8String(e.workspaceKey.value, 256);
      MarkerNamesFit(e.workspaceKey.value, 256, bounded);
      key := Some(bounded);
    }
    marker := MarkerWith(e, id, key, limitBytes, sourceBytes);
    var size := EventBytes(marker);
    if size > limitBytes {
      marker := MarkerWith(e, OMITTED_ID, None, limitBytes, sourceBytes);
    }
  }

  lemma {:induction false} BodyBound(s: string)
    ensures BodyBytes(s) <= 6 * |s|
  {
    if s != [] {
      BodyBound(s[1..]);
    }
  }

  lemma {:induction false} ChangedBound(changed: seq<Section>)
    ensures ChangedBytes(changed) <= 11 * |changed|
  {
    if changed != [] {
      ChangedBound(changed[1..]);
    }
  }

  lemma {:induction false} NoStateBytes(changed: seq<Section>, first: bool)
    ensures StateBytes(changed, map[], first) == 0
  {
    if changed != [] {
      NoStateBytes(changed[1..], first);
    }
  }

  lemma SafeDigits(n: nat)
    requires n <= MAX_SAFE_INTEGER
    ensures Digits(n) <= 16
  {
    assert Power10(16) == 10000000000000000 by {
      assert Power10(4) == 10000;
      assert Power10(8) == 100000000;
      assert Power10(12) == 1000000000000;
    }
    DigitCount(n, 16);
  }

  /** Digits of a small size. */
  lemma SmallDigits(n: nat)
    requires n < 10000
    ensures Digits(n) <= 4
  {
    assert Power10(4) == 10000;
    DigitCount(n, 4);
  }

  /** A number of d digits is at least ten times d - 1. */
  lemma DigitsBound(n: nat)
    ensures 10 * (Digits(n) - 1) <= n
  {
    PrintThenParse(n);
    var d := Digits(n);
    if d > 1 {
      DigitCount(n, d - 1);
      PowerGrows(d - 1);
    }
  }

  lemma SizeDigits(base: nat, r: nat)
    requires base <= 900 && r == base + Digits(r)
    ensures r <= base + 4
  {
    DigitsBound(r);
    SmallDigits(r);
  }

  /** The bare marker always fits into the smallest limit the hub accepts. */
  lemma BareMarkerFits(e: Event, limitBytes: nat, sourceBytes: nat, marker: Event)
    requires IsMarker(e, limitBytes, sourceBytes, marker) && Printable(e, limitBytes, sourceBytes)
    requires IsBare(marker)
    ensures EventBytes(marker) <= 1024
  {
    SafeDigits(marker.cursor);
    SafeDigits(limitBytes);
    SafeDigits(sourceBytes);
    BodyBound(marker.instanceId);
    ChangedBound(marker.changed);
    NoStateBytes(marker.changed, true);
    assert Base(marker) <= 900;
    SizeIsBasePlusDigits(marker, EventBytes(marker));
    SizeDigits(Base(marker), EventBytes(marker));
  }

  const MIN_TIMELINE_BYTES: nat := 1024

  /** A marker never exceeds the limit it was made for. */
  lemma MarkerFits(e: Event, limitBytes: nat, sourceBytes: nat, marker: Event)
    requires limitBytes >= MIN_TIMELINE_BYTES && Printable(e, limitBytes, sourceBytes)
    requires IsMarker(e, limitBytes, sourceBytes, marker)
    requires EventBytes(marker) <= limitBytes || IsBare(marker)
    ensures EventBytes(marker) <= limitBytes
  {
    if EventBytes(marker) > limitBytes {
      BareMarkerFits(e, limitBytes, sourceBytes, marker);
    }
  }

  // ----- Recording -----

  datatype Report = Report(instanceId: string, workspaceKey: Option<string>, timestamp: string, snapshot: Snapshot)

  /** comparison is the latest state reported by each renderer instance. */
  datatype TimelineBuffer = TimelineBuffer(
    events: seq<Event>, bytes: nat, cursor: nat, dropped: nat, comparison: map<string, Snapshot>)

  const EmptyTimeline := TimelineBuffer([], 0, 0, 0, map[])

  function Differing(sections: seq<Section>, a: Snapshot, b: Snapshot): (changed: seq<Section>)
    ensures |changed| <= |sections|
    ensures forall s :: s in changed <==> s in sections && At(a, s) != At(b, s)
  {
    if sections == [] then []
    else if At(a, sections[0]) != At(b, sections[0]) then [sections[0]] + Differing(sections[1..], a, b)
    else Differing(sections[1..], a, b)
  }

  /** All sections of a first report, then only those whose text differs. */
  function ChangedSections(t: TimelineBuffer, r: Report): (changed: seq<Section>)
    ensures |changed| <= |SECTIONS|
  {
    if r.instanceId in t.comparison then Differing(SECTIONS, t.comparison[r.instanceId], r.snapshot) else SECTIONS
  }

  function SourceEvent(t: TimelineBuffer, r: Report): Event {
    var changed := ChangedSections(t, r);
    Event(t.cursor + 1, r.timestamp, r.instanceId, r.workspaceKey, changed,
          map s: Section | s in changed :: At(r.snapshot, s), None)
  }

  /** An event is stored as it is, or as a marker when it alone exceeds the byte limit. */
  ghost predicate Stored(limits: Limits, source: Event, stored: Event) {
    if EventBytes(source) <= limits.maxBytes then stored == source
    else IsMarker(source, limits.maxBytes, EventBytes(source), stored)
         && (EventBytes(stored) <= limits.maxBytes || IsBare(stored))
  }

  /** One report: nothing but the comparison changes unless some section changed. */
  ghost predicate Recorded(limits: Limits, before: TimelineBuffer, r: Report, stored: Event, after: TimelineBuffer) {
    var comparison := before.comparison[r.instanceId := r.snapshot];
    if ChangedSections(before, r) == [] then after == before.(comparison := comparison)
    else
      var kept := Evict(limits, before.events + [stored], EventBytes);
      && Stored(limits, SourceEvent(before, r), stored)
      && |kept| <= |before.events| + 1
      && after == TimelineBuffer(kept, TotalSize(kept, EventBytes), before.cursor + 1,
                           before.dropped + |before.events| + 1 - |kept|, comparison)
  }

  // ----- What the buffer keeps -----

  /** The text of a section after all changes of one instance. */
  function LastChange(events: seq<Event>, instanceId: string, section: Section): Option<string> {
    if events == [] then None
    else
      var last := events[|events| - 1];
      if last.instanceId == instanceId && section in last.state then Some(last.state[section])
      else LastChange(events[..|events| - 1], instanceId, section)
  }

  /** Changes add up to the latest state of every instance that has reported. */
  ghost predicate Rebuilds(events: seq<Event>, comparison: map<string, Snapshot>) {
    forall id: string, section: Section ::
      LastChange(events, id, section) == if id in comparison then Some(At(comparison[id], section)) else None
  }

  ghost predicate AllStored(limits: Limits, sources: seq<Event>, stored: seq<Event>) {
    |sources| == |stored| && forall i | 0 <= i < |stored| :: Stored(limits, sources[i], stored[i])
  }

  /** The events are what the limits allow of the stored ones; their byte count is kept and within the limit. */
  ghost predicate Bounded(limits: Limits, stored: seq<Event>, t: TimelineBuffer) {
    && Retained(limits, stored, t.events, EventBytes)
    && t.dropped + |t.events| == t.cursor == |stored|
    && t.bytes == TotalSize(t.events, EventBytes) <= limits.maxBytes
  }

  /**
   * Every event ever made, every event as stored, and the timeline: its events are what the limits allow of the
   * stored ones, its byte count is theirs and within the limit, and the changes rebuild the latest states.
   */
  ghost predicate TimelineOf(limits: Limits, sources: seq<Event>, stored: seq<Event>, t: TimelineBuffer) {
    && AllStored(limits, sources, stored)
    && Bounded(limits, stored, t)
    && Rebuilds(sources, t.comparison)
  }

  lemma AllSections(section: Section)
    ensures section in SECTIONS
  {
    assert SECTIONS[0] == PageSection && SECTIONS[1] == ChatSection && SECTIONS[2] == PipelineSection
           && SECTIONS[3] == RunSection && SECTIONS[4] == FeaturesSection;
  }

  lemma LastChangeAppend(events: seq<Event>, e: Event, id: string, section: Section)
    ensures LastChange(events + [e], id, section) ==
              if e.instanceId == id && section in e.state then Some(e.state[section])
              else LastChange(events, id, section)
  {
    assert (events + [e])[..|events|] == events;
  }

  lemma RebuildStep(sources: seq<Event>, t: TimelineBuffer, r: Report)
    requires Rebuilds(sources, t.comparison)
    ensures var comparison := t.comparison[r.instanceId := r.snapshot];
            if ChangedSections(t, r) == [] then Rebuilds(sources, comparison)
            else Rebuilds(sources + [SourceEvent(t, r)], comparison)
  {
    var comparison, e := t.comparison[r.instanceId := r.snapshot], SourceEvent(t, r);
    forall id: string, section: Section
      ensures LastChange(if ChangedSections(t, r) == [] then sources else sources + [e], id, section)
           == if id in comparison then Some(At(comparison[id], section)) else None
    {
      AllSections(section);
      LastChangeAppend(sources, e, id, section);
    }
  }

  lemma StoredFits(limits: Limits, t: TimelineBuffer, r: Report, stored: Event)
    requires limits.maxBytes >= MIN_TIMELINE_BYTES
    requires Printable(SourceEvent(t, r), limits.maxBytes, EventBytes(SourceEvent(t, r)))
    requires Stored(limits, SourceEvent(t, r), stored)
    ensures EventBytes(stored) <= limits.maxBytes
  {
    var source := SourceEvent(t, r);
    if EventBytes(source) > limits.maxBytes {
      MarkerFits(source, limits.maxBytes, EventBytes(source), stored);
    }
  }

  lemma KeptFits(limits: Limits, stored: seq<Event>, kept: seq<Event>)
    requires Retained(limits, stored, kept, EventBytes) && stored != []
    requires EventBytes(stored[|stored| - 1]) <= limits.maxBytes
    ensures TotalSize(kept, EventBytes) <= limits.maxBytes
  {
    if |kept| == 1 {
      assert kept[0] == stored[|stored| - 1];
      assert kept[1..] == [];
    }
  }

  lemma StoredAppend(limits: Limits, sources: seq<Event>, stored: seq<Event>, source: Event, event: Event)
    requires AllStored(limits, sources, stored) && Stored(limits, source, event)
    ensures AllStored(limits, sources + [source], stored + [event])
  {
    var allSources, allStored := sources + [source], stored + [event];
    forall i | 0 <= i < |allStored|
      ensures Stored(limits, allSources[i], allStored[i])
    {
      if i < |stored| {
        assert allSources[i] == sources[i] && allStored[i] == stored[i];
      }
    }
  }

  lemma BoundedStep(limits: Limits, stored: seq<Event>, before: TimelineBuffer, event: Event, after: TimelineBuffer)
    requires Bounded(limits, stored, before) && EventBytes(event) <= limits.maxBytes
    requires after.events == Evict(limits, before.events + [event], EventBytes)
    requires after.bytes == TotalSize(after.events, EventBytes) && after.cursor == before.cursor + 1
    requires after.dropped == before.dropped + |before.events| + 1 - |after.events|
    ensures Bounded(limits, stored + [event], after)
  {
    OnlineEviction(limits, stored, before.events, event, EventBytes);
    KeptFits(limits, stored + [event], after.events);
  }

  /** Every report keeps the timeline in step with its history, within its byte limit. */
  lemma RecordKeepsTimeline(limits: Limits, sources: seq<Event>, stored: seq<Event>, before: TimelineBuffer, r: Report,
                            event: Event, after: TimelineBuffer)
    requires limits.maxBytes >= MIN_TIMELINE_BYTES
    requires TimelineOf(limits, sources, stored, before) && Recorded(limits, before, r, event, after)
    requires Printable(SourceEvent(before, r), limits.maxBytes, EventBytes(SourceEvent(before, r)))
    ensures if ChangedSections(before, r) == [] then TimelineOf(limits, sources, stored, after)
            else TimelineOf(limits, sources + [SourceEvent(before, r)], stored + [event], after)
  {
    RebuildStep(sources, before, r);
    if ChangedSections(before, r) != [] {
      StoredFits(limits, before, r, event);
      StoredAppend(limits, sources, stored, SourceEvent(before, r), event);
      BoundedStep(limits, stored, before, event, after);
    }
  }

  /** The states a timeline goes through, one report after another; stored holds an event for every report. */
  ghost predicate Run(limits: Limits, states: seq<TimelineBuffer>, reports: seq<Report>, stored: seq<Event>) {
    && |states| == |reports| + 1 == |stored| + 1
    && states[0] == EmptyTimeline
    && forall i | 0 <= i < |reports| :: ReportedAt(limits, states, reports, stored, i)
  }

  ghost predicate ReportedAt(limits: Limits, states: seq<TimelineBuffer>, reports: seq<Report>, stored: seq<Event>, i: nat)
    requires i < |reports| && |states| == |reports| + 1 == |stored| + 1
  {
    var source := SourceEvent(states[i], reports[i]);
    && Printable(source, limits.maxBytes, EventBytes(source))
    && Recorded(limits, states[i], reports[i], stored[i], states[i + 1])
  }

  lemma NothingReported(limits: Limits)
    ensures TimelineOf(limits, [], [], EmptyTimeline)
  {
  }

  /** A history with the event of one more report, if the report changes a section. */
  function WithSource(sources: seq<Event>, t: TimelineBuffer, r: Report): seq<Event> {
    if ChangedSections(t, r) == [] then sources else sources + [SourceEvent(t, r)]
  }

  function WithStored(stored: seq<Event>, t: TimelineBuffer, r: Report, event: Event): seq<Event> {
    if ChangedSections(t, r) == [] then stored else stored + [event]
  }

  /** The events the first i reports made: one for each report with a changed section. */
  ghost function SourcesOf(states: seq<TimelineBuffer>, reports: seq<Report>, i: nat): seq<Event>
    requires i <= |reports| <= |states|
  {
    if i == 0 then [] else WithSource(SourcesOf(states, reports, i - 1), states[i - 1], reports[i - 1])
  }

  /** The same events as they were stored. */
  ghost function StoredOf(states: seq<TimelineBuffer>, reports: seq<Report>, events: seq<Event>, i: nat): seq<Event>
    requires i <= |reports| <= |states| && |reports| <= |events|
  {
    if i == 0 then [] else WithStored(StoredOf(states, reports, events, i - 1), states[i - 1], reports[i - 1], events[i - 1])
  }

  lemma ReportStep(limits: Limits, sources: seq<Event>, stored: seq<Event>, before: TimelineBuffer, r: Report,
                   event: Event, after: TimelineBuffer)
    requires limits.maxBytes >= MIN_TIMELINE_BYTES
    requires TimelineOf(limits, sources, stored, before) && Recorded(limits, before, r, event, after)
    requires Printable(SourceEvent(before, r), limits.maxBytes, EventBytes(SourceEvent(before, r)))
    ensures TimelineOf(limits, WithSource(sources, before, r), WithStored(stored, before, r, event), after)
  {
    RecordKeepsTimeline(limits, sources, stored, before, r, event, after);
  }

  ghost predicate InStep(limits: Limits, states: seq<TimelineBuffer>, reports: seq<Report>, events: seq<Event>, i: nat)
    requires i <= |reports| < |states| && |reports| <= |events|
  {
    TimelineOf(limits, SourcesOf(states, reports, i), StoredOf(states, reports, events, i), states[i])
  }

  lemma RunStep(limits: Limits, states: seq<TimelineBuffer>, reports: seq<Report>, events: seq<Event>, i: nat, next: nat)
    requires limits.maxBytes >= MIN_TIMELINE_BYTES && Run(limits, states, reports, events) && next == i + 1 <= |reports|
    requires InStep(limits, states, reports, events, i)
    ensures InStep(limits, states, reports, events, next)
  {
    var sources, stored := SourcesOf(states, reports, i), StoredOf(states, reports, events, i);
    var after := states[next];
    assert after == states[i + 1];
    assert ReportedAt(limits, states, reports, events, i);
    ReportStep(limits, sources, stored, states[i], reports[i], events[i], after);
    assert SourcesOf(states, reports, next) == WithSource(sources, states[i], reports[i]);
    assert StoredOf(states, reports, events, next) == WithStored(stored, states[i], reports[i], events[i]);
  }

  lemma RunStart(limits: Limits, states: seq<TimelineBuffer>, reports: seq<Report>, events: seq<Event>)
    requires Run(limits, states, reports, events)
    ensures InStep(limits, states, reports, events, 0)
  {
    NothingReported(limits);
  }

  lemma {:induction false} RunInStep(limits: Limits, states: seq<TimelineBuffer>, reports: seq<Report>, events: seq<Event>,
                                     i: nat)
    requires limits.maxBytes >= MIN_TIMELINE_BYTES && Run(limits, states, reports, events) && i <= |reports|
    ensures InStep(limits, states, reports, events, i)
  {
    if i == 0 {
      RunStart(limits, states, reports, events);
    } else {
      var last := i - 1;
      RunInStep(limits, states, reports, events, last);
      RunStep(limits, states, reports, events, last, i);
    }
  }

  /** After any sequence of reports the timeline is in step with everything reported, within its byte limit. */
  lemma RunKeepsTimeline(limits: Limits, states: seq<TimelineBuffer>, reports: seq<Report>, events: seq<Event>, i: nat)
    requires limits.maxBytes >= MIN_TIMELINE_BYTES && Run(limits, states, reports, events) && i <= |reports|
    ensures TimelineOf(limits, SourcesOf(states, reports, i), StoredOf(states, reports, events, i), states[i])
  {
    RunInStep(limits, states, reports, events, i);
  }

  /** The newest change to a section of an instance is event k of the history. */
  ghost predicate NewestChange(sources: seq<Event>, id: string, section: Section, k: nat) {
    && k < |sources|
    && sources[k].instanceId == id && section in sources[k].state
    && forall i | k < i < |sources| :: sources[i].instanceId != id || section !in sources[i].state
  }

  /** Stored events change nothing their sources do not: a marker carries no section. */
  ghost predicate Faithful(sources: seq<Event>, stored: seq<Event>) {
    |sources| == |stored| && forall i | 0 <= i < |stored| :: FaithfulAt(sources[i], stored[i])
  }

  ghost predicate FaithfulAt(source: Event, stored: Event) {
    stored == source || (stored.truncation.Some? && stored.state == map[])
  }

  lemma StoredIsFaithful(limits: Limits, sources: seq<Event>, stored: seq<Event>)
    requires AllStored(limits, sources, stored)
    ensures Faithful(sources, stored)
  {
    forall i | 0 <= i < |stored|
      ensures FaithfulAt(sources[i], stored[i])
    {
      assert Stored(limits, sources[i], stored[i]);
    }
  }

  lemma {:induction false} NewestFound(events: seq<Event>, id: string, section: Section, k: nat)
    requires NewestChange(events, id, section, k)
    ensures LastChange(events, id, section) == Some(events[k].state[section])
  {
    var n := |events| - 1;
    if k < n {
      assert events[..n][k] == events[k];
      NewestFound(events[..n], id, section, k);
    }
  }

  lemma {:induction false} ChangeFound(events: seq<Event>, id: string, section: Section) returns (k: nat)
    requires LastChange(events, id, section).Some?
    ensures NewestChange(events, id, section, k)
  {
    var n := |events| - 1;
    if events[n].instanceId == id && section in events[n].state {
      k := n;
    } else {
      k := ChangeFound(events[..n], id, section);
      assert events[..n][k] == events[k];
      forall i | k < i < |events|
        ensures events[i].instanceId != id || section !in events[i].state
      {
        assert i < n ==> events[..n][i] == events[i];
      }
    }
  }

  /** The newest change of a history is the newest one of any retained end of it that holds it unmarked. */
  lemma NewestRetained(sources: seq<Event>, stored: seq<Event>, events: seq<Event>, dropped: nat, id: string,
                       section: Section, k: nat)
    requires Faithful(sources, stored) && dropped <= |stored| && events == stored[dropped..]
    requires NewestChange(sources, id, section, k) && k >= dropped && stored[k].truncation.None?
    ensures NewestChange(events, id, section, k - dropped) && events[k - dropped] == sources[k]
  {
    assert FaithfulAt(sources[k], stored[k]);
    forall i | k - dropped < i < |events|
      ensures events[i].instanceId != id || section !in events[i].state
    {
      assert FaithfulAt(sources[i + dropped], stored[i + dropped]);
    }
  }

  /** The same, from what the timeline's history gives. */
  lemma NewestInTimeline(sources: seq<Event>, stored: seq<Event>, t: TimelineBuffer, id: string, section: Section, k: nat)
    requires Faithful(sources, stored) && t.dropped <= |stored| && t.events == stored[t.dropped..]
    requires Rebuilds(sources, t.comparison)
    requires NewestChange(sources, id, section, k) && k >= t.dropped && stored[k].truncation.None?
    ensures id in t.comparison
    ensures LastChange(t.events, id, section) == Some(At(t.comparison[id], section))
  {
    NewestFound(sources, id, section, k);
    NewestRetained(sources, stored, t.events, t.dropped, id, section, k);
    NewestFound(t.events, id, section, k - t.dropped);
  }

  /**
   * A section can be rebuilt from the retained events whenever its newest change is retained and was not replaced by
   * a marker: folding the retained changes of the instance then gives its latest text.
   */
  lemma RetainedChangesRebuild(limits: Limits, sources: seq<Event>, stored: seq<Event>, t: TimelineBuffer, id: string,
                               section: Section, k: nat)
    requires TimelineOf(limits, sources, stored, t)
    requires NewestChange(sources, id, section, k) && k >= t.dropped && stored[k].truncation.None?
    ensures id in t.comparison
    ensures LastChange(t.events, id, section) == Some(At(t.comparison[id], section))
  {
    StoredIsFaithful(limits, sources, stored);
    NewestInTimeline(sources, stored, t, id, section, k);
  }

  /** Every event of an instance is retained as it was made. */
  ghost predicate RetainsInstance(sources: seq<Event>, stored: seq<Event>, t: TimelineBuffer, id: string) {
    forall i | 0 <= i < |sources| && i < |stored| && sources[i].instanceId == id ::
      i >= t.dropped && stored[i].truncation.None?
  }

  /** The retained events of an instance whose reports are all retained unmarked rebuild its whole latest state. */
  lemma InstanceRebuilds(limits: Limits, sources: seq<Event>, stored: seq<Event>, t: TimelineBuffer, id: string, section: Section)
    requires TimelineOf(limits, sources, stored, t)
    requires id in t.comparison && RetainsInstance(sources, stored, t, id)
    ensures LastChange(t.events, id, section) == Some(At(t.comparison[id], section))
  {
    var k := ChangeFound(sources, id, section);
    RetainedChangesRebuild(limits, sources, stored, t, id, section, k);
  }

  /** When nothing was dropped and nothing marked, the events rebuild the whole latest state of every instance. */
  lemma CompleteBufferRebuildsAll(limits: Limits, sources: seq<Event>, stored: seq<Event>, t: TimelineBuffer)
    requires TimelineOf(limits, sources, stored, t) && t.dropped == 0
    requires forall i | 0 <= i < |stored| :: EventBytes(sources[i]) <= limits.maxBytes
    ensures Rebuilds(t.events, t.comparison)
  {
    assert t.events == stored;
    forall i | 0 <= i < |stored|
      ensures stored[i] == sources[i]
    {
      assert Stored(limits, sources[i], stored[i]);
    }
    assert stored == sources;
  }

  // ----- Rebuilding after a run -----

  /** The latest of the first i reports of an instance. */
  ghost predicate LatestReport(reports: seq<Report>, i: nat, id: string, latest: nat) {
    && latest < i <= |reports|
    && reports[latest].instanceId == id
    && forall m | latest < m < i :: reports[m].instanceId != id
  }

  /** Every report becomes its instance's latest state. */
  lemma ReportCompared(limits: Limits, states: seq<TimelineBuffer>, reports: seq<Report>, events: seq<Event>, i: nat)
    requires Run(limits, states, reports, events) && i < |reports|
    ensures states[i + 1].comparison == states[i].comparison[reports[i].instanceId := reports[i].snapshot]
  {
    assert ReportedAt(limits, states, reports, events, i);
  }

  lemma {:induction false} ComparisonIsLatest(limits: Limits, states: seq<TimelineBuffer>, reports: seq<Report>,
                                              events: seq<Event>, i: nat, id: string, latest: nat)
    requires Run(limits, states, reports, events) && LatestReport(reports, i, id, latest)
    ensures id in states[i].comparison && states[i].comparison[id] == reports[latest].snapshot
  {
    ReportCompared(limits, states, reports, events, i - 1);
    if latest < i - 1 {
      ComparisonIsLatest(limits, states, reports, events, i - 1, id, latest);
    }
  }

  /** Report j changed a section of its instance, and no later one of the first i did. */
  ghost predicate LastToChange(states: seq<TimelineBuffer>, reports: seq<Report>, i: nat, section: Section, j: nat)
    requires i <= |reports| <= |states|
  {
    && j < i && section in ChangedSections(states[j], reports[j])
    && forall m | j < m < i && reports[m].instanceId == reports[j].instanceId ::
         section !in ChangedSections(states[m], reports[m])
  }

  /** The event of report j is in the buffer after i reports, as it was made. */
  ghost predicate RetainedReport(limits: Limits, states: seq<TimelineBuffer>, reports: seq<Report>, i: nat, j: nat)
    requires i <= |reports| <= |states| && i < |states| && j < i
  {
    states[j].cursor >= states[i].dropped && EventBytes(SourceEvent(states[j], reports[j])) <= limits.maxBytes
  }

  /** One more report keeps the newest change, or makes one. */
  lemma NewestWithSource(sources: seq<Event>, t: TimelineBuffer, r: Report, id: string, section: Section, k: nat)
    requires if r.instanceId == id && section in ChangedSections(t, r) then k == |sources|
             else NewestChange(sources, id, section, k)
    ensures NewestChange(WithSource(sources, t, r), id, section, k)
    ensures k < |sources| ==> WithSource(sources, t, r)[k] == sources[k]
    ensures k == |sources| ==> WithSource(sources, t, r)[k] == SourceEvent(t, r)
  {
  }

  lemma SourceCount(limits: Limits, states: seq<TimelineBuffer>, reports: seq<Report>, events: seq<Event>, i: nat)
    requires limits.maxBytes >= MIN_TIMELINE_BYTES && Run(limits, states, reports, events) && i <= |reports|
    ensures |SourcesOf(states, reports, i)| == states[i].cursor
  {
    RunKeepsTimeline(limits, states, reports, events, i);
  }

  lemma {:induction false} HistoryStep(states: seq<TimelineBuffer>, reports: seq<Report>, i: nat, id: string,
                                       section: Section, k: nat)
    requires i < |reports| <= |states|
    requires if reports[i].instanceId == id && section in ChangedSections(states[i], reports[i])
             then k == |SourcesOf(states, reports, i)| else NewestChange(SourcesOf(states, reports, i), id, section, k)
    ensures NewestChange(SourcesOf(states, reports, i + 1), id, section, k)
    ensures SourcesOf(states, reports, i + 1)[k] ==
              if k < |SourcesOf(states, reports, i)| then SourcesOf(states, reports, i)[k]
              else SourceEvent(states[i], reports[i])
  {
    NewestWithSource(SourcesOf(states, reports, i), states[i], reports[i], id, section, k);
  }

  /** The event of a report is the one its cursor counts, and the newest change when no later report made another. */
  lemma {:induction false} ChangeInHistory(limits: Limits, states: seq<TimelineBuffer>, reports: seq<Report>,
                                           events: seq<Event>, i: nat, section: Section, j: nat)
    requires limits.maxBytes >= MIN_TIMELINE_BYTES && Run(limits, states, reports, events) && i <= |reports|
    requires LastToChange(states, reports, i, section, j)
    ensures NewestChange(SourcesOf(states, reports, i), reports[j].instanceId, section, states[j].cursor)
    ensures SourcesOf(states, reports, i)[states[j].cursor] == SourceEvent(states[j], reports[j])
  {
    SourceCount(limits, states, reports, events, i - 1);
    if j < i - 1 {
      ChangeInHistory(limits, states, reports, events, i - 1, section, j);
    }
    HistoryStep(states, reports, i - 1, reports[j].instanceId, section, states[j].cursor);
  }

  /**
   * A section can be rebuilt after a run whenever the last report that changed it left an event that is retained and
   * unmarked: folding the retained changes of the instance gives the text its latest report gave.
   */
  lemma RunRebuildsSection(limits: Limits, states: seq<TimelineBuffer>, reports: seq<Report>, events: seq<Event>, i: nat,
                           section: Section, j: nat, latest: nat)
    requires limits.maxBytes >= MIN_TIMELINE_BYTES && Run(limits, states, reports, events) && i <= |reports|
    requires LastToChange(states, reports, i, section, j) && RetainedReport(limits, states, reports, i, j)
    requires LatestReport(reports, i, reports[j].instanceId, latest)
    ensures LastChange(states[i].events, reports[j].instanceId, section) == Some(At(reports[latest].snapshot, section))
  {
    var sources, stored := SourcesOf(states, reports, i), StoredOf(states, reports, events, i);
    var k := states[j].cursor;
    RunKeepsTimeline(limits, states, reports, events, i);
    ChangeInHistory(limits, states, reports, events, i, section, j);
    assert Stored(limits, sources[k], stored[k]);
    RetainedChangesRebuild(limits, sources, stored, states[i], reports[j].instanceId, section, k);
    ComparisonIsLatest(limits, states, reports, events, i, reports[j].instanceId, latest);
  }

  lemma FirstReportChangesAll(t: TimelineBuffer, r: Report, section: Section)
    ensures r.instanceId in t.comparison || section in ChangedSections(t, r)
  {
    AllSections(section);
  }

  lemma JustChanged(states: seq<TimelineBuffer>, reports: seq<Report>, i: nat, next: nat, section: Section)
    requires next == i + 1 <= |reports| <= |states| && section in ChangedSections(states[i], reports[i])
    ensures LastToChange(states, reports, next, section, i)
  {
  }

  lemma StillLast(states: seq<TimelineBuffer>, reports: seq<Report>, i: nat, next: nat, section: Section, j: nat)
    requires next == i + 1 <= |reports| <= |states| && LastToChange(states, reports, i, section, j)
    requires reports[i].instanceId == reports[j].instanceId ==> section !in ChangedSections(states[i], reports[i])
    ensures LastToChange(states, reports, next, section, j)
  {
  }

  /** Every section of an instance that has reported was changed by some report: the first one changes them all. */
  lemma {:induction false} LastChanger(limits: Limits, states: seq<TimelineBuffer>, reports: seq<Report>,
                                       events: seq<Event>, i: nat, id: string, section: Section)
    returns (j: nat)
    requires Run(limits, states, reports, events) && i <= |reports| && id in states[i].comparison
    ensures LastToChange(states, reports, i, section, j) && reports[j].instanceId == id
  {
    var last := i - 1;
    ReportCompared(limits, states, reports, events, last);
    FirstReportChangesAll(states[last], reports[last], section);
    if reports[last].instanceId == id && section in ChangedSections(states[last], reports[last]) {
      j := last;
      JustChanged(states, reports, last, i, section);
    } else {
      j := LastChanger(limits, states, reports, events, last, id, section);
      StillLast(states, reports, last, i, section, j);
    }
  }

  /** When all events of an instance are retained unmarked, they rebuild the whole snapshot of its latest report. */
  lemma RunRebuildsInstance(limits: Limits, states: seq<TimelineBuffer>, reports: seq<Report>, events: seq<Event>, i: nat,
                            id: string, latest: nat, section: Section)
    requires limits.maxBytes >= MIN_TIMELINE_BYTES && Run(limits, states, reports, events)
    requires LatestReport(reports, i, id, latest)
    requires forall j | 0 <= j < i && reports[j].instanceId == id && ChangedSections(states[j], reports[j]) != [] ::
               RetainedReport(limits, states, reports, i, j)
    ensures LastChange(states[i].events, id, section) == Some(At(reports[latest].snapshot, section))
  {
    ComparisonIsLatest(limits, states, reports, events, i, id, latest);
    var j := LastChanger(limits, states, reports, events, i, id, section);
    RunRebuildsSection(limits, states, reports, events, i, section, j, latest);
  }

  // ----- Reading the timeline in pages -----

  const CursorOf: Event -> nat := (e: Event) => e.cursor

  function AsBuffer(t: TimelineBuffer): Buffer<Event> {
    Buffer(t.events, t.cursor, t.dropped)
  }

  datatype Action = Submit(report: Report, event: Event) | Read(limit: Number)

  /** The timeline, every event made and as stored, and what one reader has seen. */
  datatype Session = Session(t: TimelineBuffer, sources: seq<Event>, stored: seq<Event>, reader: Reader<Event>)

  ghost predicate Acted(limits: Limits, s: Session, a: Action, next: Session) {
    match a
    case Submit(r, event) =>
      && Printable(SourceEvent(s.t, r), limits.maxBytes, EventBytes(SourceEvent(s.t, r)))
      && Recorded(limits, s.t, r, event, next.t)
      && next.sources == WithSource(s.sources, s.t, r) && next.stored == WithStored(s.stored, s.t, r, event)
      && next.reader == s.reader
    case Read(limit) => next == s.(reader := Ask(AsBuffer(s.t), CursorOf, s.reader, limit))
  }

  /** The timeline is in step with its history, and the reader has lost nothing unaccounted for. */
  ghost predicate Sound(limits: Limits, s: Session) {
    && TimelineOf(limits, s.sources, s.stored, s.t)
    && EndOf(s.stored, AsBuffer(s.t), CursorOf)
    && Conserved(s.stored, CursorOf, s.reader)
  }

  lemma StoredCursor(limits: Limits, t: TimelineBuffer, r: Report, event: Event)
    requires Stored(limits, SourceEvent(t, r), event)
    ensures event.cursor == t.cursor + 1
  {
  }

  /** A recorded event extends the end of the history the timeline holds. */
  lemma RecordedEnd(limits: Limits, stored: seq<Event>, before: TimelineBuffer, event: Event, after: TimelineBuffer)
    requires EndOf(stored, AsBuffer(before), CursorOf) && Bounded(limits, stored + [event], after)
    requires event.cursor == before.cursor + 1 && after.cursor == before.cursor + 1
    requires |after.events| <= |before.events| + 1
    requires after.dropped == before.dropped + |before.events| + 1 - |after.events|
    ensures EndOf(stored + [event], AsBuffer(after), CursorOf)
  {
    ExtendEnd(stored, AsBuffer(before), CursorOf, event, AsBuffer(after));
  }

  lemma ReportSound(limits: Limits, s: Session, r: Report, event: Event, next: Session)
    requires limits.maxBytes >= MIN_TIMELINE_BYTES && Sound(limits, s)
    requires Acted(limits, s, Submit(r, event), next)
    ensures Sound(limits, next)
  {
    ReportStep(limits, s.sources, s.stored, s.t, r, event, next.t);
    if ChangedSections(s.t, r) != [] {
      StoredCursor(limits, s.t, r, event);
      RecordedEnd(limits, s.stored, s.t, event, next.t);
      WriteConserves(s.stored, CursorOf, s.reader, [event]);
    }
  }

  ghost predicate SessionRun(limits: Limits, states: seq<Session>, actions: seq<Action>) {
    && |states| == |actions| + 1
    && states[0] == Session(EmptyTimeline, [], [], NewReader())
    && forall i | 0 <= i < |actions| :: ActedAt(limits, states, actions, i)
  }

  ghost predicate ActedAt(limits: Limits, states: seq<Session>, actions: seq<Action>, i: nat)
    requires i < |actions| && |states| == |actions| + 1
  {
    Acted(limits, states[i], actions[i], states[i + 1])
  }

  lemma StartSound(limits: Limits)
    ensures Sound(limits, Session(EmptyTimeline, [], [], NewReader()))
  {
    NothingReported(limits);
  }

  lemma SessionStep(limits: Limits, states: seq<Session>, actions: seq<Action>, i: nat, next: nat)
    requires limits.maxBytes >= MIN_TIMELINE_BYTES && SessionRun(limits, states, actions) && next == i + 1 <= |actions|
    requires Sound(limits, states[i])
    ensures Sound(limits, states[next])
  {
    assert ActedAt(limits, states, actions, i);
    ActSound(limits, states[i], actions[i], states[next]);
  }

  lemma ActSound(limits: Limits, s: Session, a: Action, next: Session)
    requires limits.maxBytes >= MIN_TIMELINE_BYTES && Sound(limits, s) && Acted(limits, s, a, next)
    ensures Sound(limits, next)
  {
    match a {
      case Submit(r, event) => ReportSound(limits, s, r, event, next);
      case Read(limit) => AskConserves(s.stored, AsBuffer(s.t), CursorOf, s.reader, limit);
    }
  }

  /**
   * Over every interleaving of reports and reads, the timeline is in step with its history, and paging conserves
   * events as they were stored.
   */
  lemma {:induction false} PagingConserves(limits: Limits, states: seq<Session>, actions: seq<Action>, i: nat)
    requires limits.maxBytes >= MIN_TIMELINE_BYTES && SessionRun(limits, states, actions) && i <= |actions|
    ensures Sound(limits, states[i])
  {
    if i == 0 {
      StartSound(limits);
    } else {
      var last := i - 1;
      PagingConserves(limits, states, actions, last);
      SessionStep(limits, states, actions, last, i);
    }
  }
}
