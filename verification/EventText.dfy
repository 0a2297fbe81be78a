/** The JSON text of a timeline event, and the byte counts of the timeline measured on it. */
module EventText {
  import opened Common
  import opened Decimals
  import opened BoundedBuffer
  import opened Timeline

  // ----- JSON.stringify on an event -----

  function HexDigit(n: nat): (h: char)
    requires n < 16
    ensures IsDigit(h) || 'a' <= h <= 'f'
  {
    if n < 10 then '0' + n as char else 'a' + (n - 10) as char
  }

  function Escaped(c: char): string {
    if c == '"' then "\\\""
    else if c == '\\' then "\\\\"
    else if c == '\n' then "\\n"
    else if c == '\r' then "\\r"
    else if c == '\t' then "\\t"
    else if c == '\U{8}' then "\\b"
    else if c == '\U{c}' then "\\f"
    else if c < ' ' then "\\u00" + [HexDigit(c as nat / 16), HexDigit(c as nat % 16)]
    else [c]
  }

  function EscapedText(s: string): string {
    if s == [] then "" else Escaped(s[0]) + EscapedText(s[1..])
  }

  function Quoted(s: string): string {
    "\"" + EscapedText(s) + "\""
  }

  function Joined(parts: seq<string>): string {
    if parts == [] then "" else if |parts| == 1 then parts[0] else parts[0] + "," + Joined(parts[1..])
  }

  /** A property whose name needs no escapes. */
  function Member(name: string, value: string): string {
    "\"" + name + "\":" + value
  }

  function Object(members: seq<string>): string {
    "{" + Joined(members) + "}"
  }

  function Names(changed: seq<Section>): (names: seq<string>)
    ensures |names| == |changed|
  {
    if changed == [] then [] else ["\"" + SectionName(changed[0]) + "\""] + Names(changed[1..])
  }

  /** The state was filled in the order in which the changed sections are listed. */
  function StateMembers(changed: seq<Section>, state: map<Section, string>): seq<string> {
    if changed == [] then []
    else (if changed[0] in state then [Member(SectionName(changed[0]), state[changed[0]])] else [])
         + StateMembers(changed[1..], state)
  }

  function KeyText(key: Option<string>): string {
    if key.Some? then Quoted(key.value) else "null"
  }

  function TruncationMembers(t: Truncation): seq<string> {
    [Member("layer", "\"diagnostics-timeline-event\""), Member("reason", "\"byte-limit\""),
     Member("limitBytes", ToDecimal(t.limitBytes)), Member("sourceBytes", ToDecimal(t.sourceBytes)),
     Member("returnedBytes", ToDecimal(t.returnedBytes))]
  }

  function TruncationMember(e: Event): seq<string> {
    if e.truncation.Some? then [Member("truncation", Object(TruncationMembers(e.truncation.value)))] else []
  }

  function HeadMembers(e: Event): seq<string> {
    [Member("cursor", ToDecimal(e.cursor)), Member("timestamp", e.timestamp),
     Member("source", "\"renderer.snapshot\""), Member("instanceId", Quoted(e.instanceId)),
     Member("workspaceKey", KeyText(e.workspaceKey)),
     Member("changedSections", "[" + Joined(Names(e.changed)) + "]"),
     Member("state", Object(StateMembers(e.changed, e.state)))]
  }

  function EventMembers(e: Event): seq<string> {
    HeadMembers(e) + TruncationMember(e)
  }

  function Serialize(e: Event): string {
    Object(EventMembers(e))
  }

  /** Buffer.byteLength(JSON.stringify(event), 'utf8') */
  function TextBytes(e: Event): nat {
    Utf8Length(Serialize(e))
  }

  // ----- The size of the parts -----

  lemma EscapedSize(c: char)
    ensures Utf8Length(Escaped(c)) == EscapedBytes(c)
  {
    if EscapedBytes(c) == 2 && CharBytes(c) == 1 {
      Ascii(Escaped(c));
    } else if c < ' ' {
      var high, low := HexDigit(c as nat / 16), HexDigit(c as nat % 16);
      Ascii([high, low]);
      Ascii("\\u00");
      Utf8Append("\\u00", [high, low]);
    } else {
      assert Escaped(c)[1..] == [];
    }
  }

  lemma {:induction false} EscapedTextSize(s: string)
    ensures Utf8Length(EscapedText(s)) == BodyBytes(s)
  {
    if s != [] {
      EscapedSize(s[0]);
      EscapedTextSize(s[1..]);
      Utf8Append(Escaped(s[0]), EscapedText(s[1..]));
    }
  }

  lemma Around(open: char, text: string, close: char)
    requires CharBytes(open) == CharBytes(close) == 1
    ensures Utf8Length([open] + text + [close]) == Utf8Length(text) + 2
  {
    Ascii([open]);
    Ascii([close]);
    Utf8Append([open] + text, [close]);
    Utf8Append([open], text);
  }

  lemma QuotedSize(s: string)
    ensures Utf8Length(Quoted(s)) == QuotedBytes(s)
  {
    Around('"', EscapedText(s), '"');
    EscapedTextSize(s);
  }

  predicate IsAscii(s: string) {
    forall i | 0 <= i < |s| :: s[i] < '\U{80}'
  }

  lemma MemberSize(name: string, value: string)
    requires IsAscii(name)
    ensures Utf8Length(Member(name, value)) == |name| + 3 + Utf8Length(value)
  {
    Ascii("\"");
    Ascii("\":");
    Ascii(name);
    Utf8Append("\"" + name + "\":", value);
    Utf8Append("\"" + name, "\":");
    Utf8Append("\"", name);
  }

  /** The sizes of some parts, each after the first preceded by a comma. */
  function JoinedBytes(parts: seq<string>, first: bool): nat {
    if parts == [] then 0
    else (if first then 0 else 1) + Utf8Length(parts[0]) + JoinedBytes(parts[1..], false)
  }

  lemma {:induction false} JoinedSize(parts: seq<string>)
    ensures Utf8Length(Joined(parts)) == JoinedBytes(parts, true)
    ensures parts != [] ==> JoinedBytes(parts, false) == 1 + JoinedBytes(parts, true)
  {
    if |parts| > 1 {
      JoinedSize(parts[1..]);
      Ascii(",");
      Utf8Append(parts[0] + ",", Joined(parts[1..]));
      Utf8Append(parts[0], ",");
    } else if parts != [] {
      assert parts[1..] == [];
    }
  }

  lemma ObjectSize(members: seq<string>)
    ensures Utf8Length(Object(members)) == JoinedBytes(members, true) + 2
  {
    JoinedSize(members);
    Around('{', Joined(members), '}');
  }

  lemma SectionSize(s: Section)
    ensures IsAscii(SectionName(s)) && Utf8Length("\"" + SectionName(s) + "\"") == |SectionName(s)| + 2
  {
    Ascii(SectionName(s));
    Around('"', SectionName(s), '"');
  }

  lemma {:induction false} NamesSize(changed: seq<Section>)
    ensures JoinedBytes(Names(changed), true) == ChangedBytes(changed)
    ensures changed != [] ==> JoinedBytes(Names(changed), false) == 1 + ChangedBytes(changed)
  {
    if changed != [] {
      NamesSize(changed[1..]);
      SectionSize(changed[0]);
      assert Names(changed)[1..] == Names(changed[1..]);
    }
  }

  lemma {:induction false} StateSize(changed: seq<Section>, state: map<Section, string>, first: bool)
    ensures JoinedBytes(StateMembers(changed, state), first) == StateBytes(changed, state, first)
  {
    if changed != [] {
      var rest := StateMembers(changed[1..], state);
      if changed[0] in state {
        var member := Member(SectionName(changed[0]), state[changed[0]]);
        SectionSize(changed[0]);
        MemberSize(SectionName(changed[0]), state[changed[0]]);
        StateSize(changed[1..], state, false);
        assert ([member] + rest)[1..] == rest;
      } else {
        StateSize(changed[1..], state, first);
        assert [] + rest == rest;
      }
    }
  }


  lemma {:induction false} JoinedAppend(a: seq<string>, b: seq<string>, first: bool)
    requires a != []
    ensures JoinedBytes(a + b, first) == JoinedBytes(a, first) + JoinedBytes(b, false)
  {
    assert (a + b)[1..] == a[1..] + b;
    if |a| > 1 {
      JoinedAppend(a[1..], b, false);
    } else {
      assert a[1..] + b == b;
    }
  }

  lemma OnePart(part: string)
    ensures JoinedBytes([part], false) == 1 + Utf8Length(part)
  {
    assert [part][1..] == [];
  }

  lemma ThreeParts(a: string, b: string, c: string)
    ensures JoinedBytes([a, b, c], false) == 3 + Utf8Length(a) + Utf8Length(b) + Utf8Length(c)
  {
    assert [a, b, c][1..] == [b, c];
    assert [b, c][1..] == [c];
    OnePart(c);
  }

  lemma FourParts(a: string, b: string, c: string, d: string)
    ensures JoinedBytes([a, b, c, d], true) == 3 + Utf8Length(a) + Utf8Length(b) + Utf8Length(c) + Utf8Length(d)
  {
    assert [a, b, c, d][1..] == [b, c, d];
    ThreeParts(b, c, d);
  }

  lemma FiveParts(a: string, b: string, c: string, d: string, e: string)
    ensures Utf8Length(Object([a, b, c, d, e])) ==
              6 + Utf8Length(a) + Utf8Length(b) + Utf8Length(c) + Utf8Length(d) + Utf8Length(e)
  {
    ObjectSize([a, b, c, d, e]);
    assert [a, b, c, d, e] == [a, b, c, d] + [e];
    JoinedAppend([a, b, c, d], [e], true);
    FourParts(a, b, c, d);
    OnePart(e);
  }

  lemma SevenParts(a: string, b: string, c: string, d: string, e: string, f: string, g: string)
    ensures JoinedBytes([a, b, c, d, e, f, g], true) ==
              6 + Utf8Length(a) + Utf8Length(b) + Utf8Length(c) + Utf8Length(d)
              + Utf8Length(e) + Utf8Length(f) + Utf8Length(g)
  {
    var parts, head, tail := [a, b, c, d, e, f, g], [a, b, c, d], [e, f, g];
    FourParts(a, b, c, d);
    ThreeParts(e, f, g);
    assert parts == head + tail;
    JoinedAppend(head, tail, true);
  }

  lemma FixedSize(name: string, value: string)
    requires IsAscii(name) && IsAscii(value)
    ensures Utf8Length(Member(name, value)) == |name| + 3 + |value|
  {
    MemberSize(name, value);
    Ascii(value);
  }

  lemma NumberSize(name: string, n: nat)
    requires IsAscii(name)
    ensures Utf8Length(Member(name, ToDecimal(n))) == |name| + 3 + Digits(n)
  {
    MemberSize(name, ToDecimal(n));
    PrintThenParse(n);
    Ascii(ToDecimal(n));
  }

  lemma LayerSize()
    ensures Utf8Length(Member("layer", "\"diagnostics-timeline-event\"")) == 36
  {
    FixedSize("layer", "\"diagnostics-timeline-event\"");
  }

  lemma ReasonSize()
    ensures Utf8Length(Member("reason", "\"byte-limit\"")) == 21
  {
    FixedSize("reason", "\"byte-limit\"");
  }

  lemma LimitSize(n: nat)
    ensures Utf8Length(Member("limitBytes", ToDecimal(n))) == 13 + Digits(n)
  {
    NumberSize("limitBytes", n);
  }

  lemma SourceSize(n: nat)
    ensures Utf8Length(Member("sourceBytes", ToDecimal(n))) == 14 + Digits(n)
  {
    NumberSize("sourceBytes", n);
  }

  lemma ReturnedSize(n: nat)
    ensures Utf8Length(Member("returnedBytes", ToDecimal(n))) == 16 + Digits(n)
  {
    NumberSize("returnedBytes", n);
  }

  lemma TruncationSize(t: Truncation)
    ensures Utf8Length(Object(TruncationMembers(t))) ==
              106 + Digits(t.limitBytes) + Digits(t.sourceBytes) + Digits(t.returnedBytes)
  {
    LayerSize();
    ReasonSize();
    LimitSize(t.limitBytes);
    SourceSize(t.sourceBytes);
    ReturnedSize(t.returnedBytes);
    FiveParts(Member("layer", "\"diagnostics-timeline-event\""), Member("reason", "\"byte-limit\""),
              Member("limitBytes", ToDecimal(t.limitBytes)), Member("sourceBytes", ToDecimal(t.sourceBytes)),
              Member("returnedBytes", ToDecimal(t.returnedBytes)));
  }

  lemma CursorSize(n: nat)
    ensures Utf8Length(Member("cursor", ToDecimal(n))) == 9 + Digits(n)
  {
    NumberSize("cursor", n);
  }

  lemma TimestampSize(timestamp: string)
    requires IsAscii(timestamp)
    ensures Utf8Length(Member("timestamp", timestamp)) == 12 + |timestamp|
  {
    MemberSize("timestamp", timestamp);
    Ascii(timestamp);
  }

  lemma OriginSize()
    ensures Utf8Length(Member("source", "\"renderer.snapshot\"")) == 28
  {
    FixedSize("source", "\"renderer.snapshot\"");
  }

  lemma InstanceSize(id: string)
    ensures Utf8Length(Member("instanceId", Quoted(id))) == 13 + QuotedBytes(id)
  {
    MemberSize("instanceId", Quoted(id));
    QuotedSize(id);
  }

  lemma WorkspaceSize(key: Option<string>)
    ensures Utf8Length(Member("workspaceKey", KeyText(key))) == 15 + if key.Some? then QuotedBytes(key.value) else 4
  {
    MemberSize("workspaceKey", KeyText(key));
    if key.Some? {
      QuotedSize(key.value);
    } else {
      Ascii("null");
    }
  }

  lemma ChangedSize(changed: seq<Section>)
    ensures Utf8Length(Member("changedSections", "[" + Joined(Names(changed)) + "]")) == 20 + ChangedBytes(changed)
  {
    var list := "[" + Joined(Names(changed)) + "]";
    MemberSize("changedSections", list);
    Around('[', Joined(Names(changed)), ']');
    JoinedSize(Names(changed));
    NamesSize(changed);
  }

  lemma SectionsSize(changed: seq<Section>, state: map<Section, string>)
    ensures Utf8Length(Member("state", Object(StateMembers(changed, state)))) == 10 + StateBytes(changed, state, true)
  {
    MemberSize("state", Object(StateMembers(changed, state)));
    ObjectSize(StateMembers(changed, state));
    StateSize(changed, state, true);
  }

  lemma RecordSize(t: Truncation)
    ensures Utf8Length(Member("truncation", Object(TruncationMembers(t)))) ==
              119 + Digits(t.limitBytes) + Digits(t.sourceBytes) + Digits(t.returnedBytes)
  {
    MemberSize("truncation", Object(TruncationMembers(t)));
    TruncationSize(t);
  }

  lemma FrameSize(t: Truncation)
    ensures TruncationFrame(t) == 120 + Digits(t.limitBytes) + Digits(t.sourceBytes)
  {
  }

  lemma HeadSize(e: Event)
    ensures HeadBytes(e) == 114 + Digits(e.cursor) + |e.timestamp| + QuotedBytes(e.instanceId)
              + (if e.workspaceKey.Some? then QuotedBytes(e.workspaceKey.value) else 4)
              + ChangedBytes(e.changed) + StateBytes(e.changed, e.state, true)
  {
  }

  // ----- The size of an event -----

  lemma MembersSize(e: Event)
    requires IsAscii(e.timestamp)
    ensures JoinedBytes(EventMembers(e), true) == HeadBytes(e) - 1 + JoinedBytes(TruncationMember(e), false)
  {
    CursorSize(e.cursor);
    TimestampSize(e.timestamp);
    OriginSize();
    InstanceSize(e.instanceId);
    WorkspaceSize(e.workspaceKey);
    ChangedSize(e.changed);
    SectionsSize(e.changed, e.state);
    HeadSize(e);
    SevenParts(Member("cursor", ToDecimal(e.cursor)), Member("timestamp", e.timestamp),
               Member("source", "\"renderer.snapshot\""), Member("instanceId", Quoted(e.instanceId)),
               Member("workspaceKey", KeyText(e.workspaceKey)),
               Member("changedSections", "[" + Joined(Names(e.changed)) + "]"),
               Member("state", Object(StateMembers(e.changed, e.state))));
    JoinedAppend(HeadMembers(e), TruncationMember(e), true);
  }

  /** The size the timeline counts is the size of the event's JSON text. */
  lemma SizeOfText(e: Event)
    requires IsAscii(e.timestamp)
    ensures EventBytes(e) == TextBytes(e)
  {
    ObjectSize(EventMembers(e));
    MembersSize(e);
    if e.truncation.Some? {
      RecordSize(e.truncation.value);
      FrameSize(e.truncation.value);
      OnePart(Member("truncation", Object(TruncationMembers(e.truncation.value))));
    }
  }

  // ----- The timeline's limit, measured on the text -----

  /** The changed sections are listed once each, and the state holds no other: the state object's names are distinct. */
  ghost predicate ListsOnce(e: Event) {
    Distinct(e.changed) && forall s | s in e.state :: s in e.changed
  }

  /** An event whose text is within the limit is kept; another becomes a marker that gives both sizes and is within it. */
  ghost predicate StoredByText(limits: Limits, source: Event, stored: Event) {
    && ListsOnce(source)
    && if TextBytes(source) <= limits.maxBytes then stored == source
       else
         && stored.cursor == source.cursor && stored.timestamp == source.timestamp && stored.changed == source.changed
         && stored.state == map[]
         && stored.truncation == Some(Truncation(limits.maxBytes, TextBytes(source), TextBytes(stored)))
         && TextBytes(stored) <= limits.maxBytes
  }

  lemma {:induction false} DifferingOnce(sections: seq<Section>, a: Snapshot, b: Snapshot)
    requires Distinct(sections)
    ensures Distinct(Differing(sections, a, b))
  {
    if sections != [] {
      DifferingOnce(sections[1..], a, b);
    }
  }

  lemma SourceListsOnce(t: TimelineBuffer, r: Report)
    ensures ListsOnce(SourceEvent(t, r))
  {
    if r.instanceId in t.comparison {
      DifferingOnce(SECTIONS, t.comparison[r.instanceId], r.snapshot);
    }
  }

  /** The event lists its sections once, under an ASCII timestamp. */
  ghost predicate Plain(limits: Limits, source: Event) {
    ListsOnce(source) && IsAscii(source.timestamp) && Printable(source, limits.maxBytes, EventBytes(source))
  }

  ghost predicate AllPlain(limits: Limits, sources: seq<Event>) {
    forall k | 0 <= k < |sources| :: Plain(limits, sources[k])
  }

  /** Timestamps are numbers as JSON prints them. */
  ghost predicate AsciiTimes(reports: seq<Report>) {
    forall k | 0 <= k < |reports| :: IsAscii(reports[k].timestamp)
  }

  lemma PlainNext(limits: Limits, sources: seq<Event>, t: TimelineBuffer, r: Report)
    requires AllPlain(limits, sources) && IsAscii(r.timestamp)
    requires Printable(SourceEvent(t, r), limits.maxBytes, EventBytes(SourceEvent(t, r)))
    ensures AllPlain(limits, WithSource(sources, t, r))
  {
    SourceListsOnce(t, r);
    assert Plain(limits, SourceEvent(t, r));
  }

  lemma PlainStep(limits: Limits, states: seq<TimelineBuffer>, reports: seq<Report>, events: seq<Event>, i: nat, next: nat)
    requires Run(limits, states, reports, events) && AsciiTimes(reports) && next == i + 1 <= |reports|
    requires AllPlain(limits, SourcesOf(states, reports, i))
    ensures AllPlain(limits, SourcesOf(states, reports, next))
  {
    assert ReportedAt(limits, states, reports, events, i);
    PlainNext(limits, SourcesOf(states, reports, i), states[i], reports[i]);
    assert SourcesOf(states, reports, next) == WithSource(SourcesOf(states, reports, i), states[i], reports[i]);
  }

  lemma {:induction false} SourcesArePlain(limits: Limits, states: seq<TimelineBuffer>, reports: seq<Report>,
                                           events: seq<Event>, i: nat)
    requires Run(limits, states, reports, events) && AsciiTimes(reports) && i <= |reports|
    ensures AllPlain(limits, SourcesOf(states, reports, i))
  {
    if i > 0 {
      var last := i - 1;
      SourcesArePlain(limits, states, reports, events, last);
      PlainStep(limits, states, reports, events, last, i);
    }
  }

  lemma StoredText(limits: Limits, source: Event, stored: Event)
    requires limits.maxBytes >= MIN_TIMELINE_BYTES && Stored(limits, source, stored)
    requires Plain(limits, source)
    ensures StoredByText(limits, source, stored) && IsAscii(stored.timestamp)
  {
    SizeOfText(source);
    SizeOfText(stored);
    if EventBytes(source) > limits.maxBytes {
      MarkerFits(source, limits.maxBytes, EventBytes(source), stored);
    }
  }

  lemma {:induction false} SameTotal<T>(items: seq<T>, f: T -> nat, g: T -> nat)
    requires forall i | 0 <= i < |items| :: f(items[i]) == g(items[i])
    ensures TotalSize(items, f) == TotalSize(items, g)
  {
    if items != [] {
      SameTotal(items[1..], f, g);
    }
  }

  /** What is retained depends on the sizes of the items only. */
  lemma RetainedAlike<T>(limits: Limits, history: seq<T>, kept: seq<T>, f: T -> nat, g: T -> nat)
    requires forall i | 0 <= i < |history| :: f(history[i]) == g(history[i])
    requires Retained(limits, history, kept, f)
    ensures Retained(limits, history, kept, g) && TotalSize(kept, f) == TotalSize(kept, g)
  {
    SameTotal(kept, f, g);
    forall k | 0 <= k < |history| - |kept|
      ensures Oversized(limits, history, k, g)
    {
      assert Oversized(limits, history, k, f);
      SameTotal(history[k..], f, g);
    }
  }

  /**
   * After any run of reports the timeline holds the longest end of the stored events whose JSON texts are within the
   * limits, its byte count is the length of those texts, and each event is stored as it was made or, if its own text
   * is too long, as a marker that states the length of the event's text and of its own.
   */
  lemma RunWithinLimit(limits: Limits, states: seq<TimelineBuffer>, reports: seq<Report>, events: seq<Event>, i: nat)
    requires limits.maxBytes >= MIN_TIMELINE_BYTES && Run(limits, states, reports, events) && i <= |reports|
    requires AsciiTimes(reports)
    ensures var sources, stored := SourcesOf(states, reports, i), StoredOf(states, reports, events, i);
            && Retained(limits, stored, states[i].events, TextBytes)
            && states[i].bytes == TotalSize(states[i].events, TextBytes) <= limits.maxBytes
            && |stored| == |sources| && forall k | 0 <= k < |stored| :: StoredByText(limits, sources[k], stored[k])
  {
    var sources, stored := SourcesOf(states, reports, i), StoredOf(states, reports, events, i);
    RunKeepsTimeline(limits, states, reports, events, i);
    SourcesArePlain(limits, states, reports, events, i);
    forall k | 0 <= k < |stored|
      ensures StoredByText(limits, sources[k], stored[k]) && EventBytes(stored[k]) == TextBytes(stored[k])
    {
      assert Stored(limits, sources[k], stored[k]);
      StoredText(limits, sources[k], stored[k]);
      SizeOfText(stored[k]);
    }
    RetainedAlike(limits, stored, states[i].events, EventBytes, TextBytes);
  }
}
