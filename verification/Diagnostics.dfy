/** The diagnostics hub: its two bounded buffers, updated in place. */
module Diagnostics {
  import opened Common
  import opened BoundedBuffer
  import opened Paging
  import opened LogBuffer
  import opened Timeline

  class DiagnosticsHub {
    const maxLogEntries: nat
    const maxLogBytes: nat
    const maxTimelineEntries: nat
    const maxTimelineBytes: nat

    var session: bool
    var logs: seq<LogEntry>
    var logBytes: nat
    var logCursor: nat
    var droppedLogEntryCount: nat
    var timeline: seq<Event>
    var timelineBytes: nat
    var timelineCursor: nat
    var droppedTimelineEventCount: nat
    var timelineComparisonState: map<string, Snapshot>

    function LogLimits(): Limits {
      Limits(maxLogEntries, maxLogBytes)
    }

    function TimelineLimits(): Limits {
      Limits(maxTimelineEntries, maxTimelineBytes)
    }

    function LogState(): Log
      reads this
    {
      Log(logs, logBytes, logCursor, droppedLogEntryCount)
    }

    function TimelineState(): TimelineBuffer
      reads this
    {
      TimelineBuffer(timeline, timelineBytes, timelineCursor, droppedTimelineEventCount, timelineComparisonState)
    }

    /** The byte counter agrees with the buffer it counts, as the eviction loop relies on. */
    ghost predicate LogsCounted()
      reads this`logs, this`logBytes
    {
      logBytes == TotalSize(logs, EntryBytes)
    }

    ghost predicate TimelineCounted()
      reads this`timeline, this`timelineBytes
    {
      timelineBytes == TotalSize(timeline, EventBytes)
    }

    ghost predicate Valid()
      reads this
    {
      LogsCounted() && TimelineCounted()
    }

    /** The limits a caller asks for are raised to workable minima. */
    constructor (logEntries: nat, logByteLimit: nat, timelineEntries: nat, timelineByteLimit: nat)
      ensures Valid() && !session && LogState() == EmptyLog && TimelineState() == EmptyTimeline
      ensures maxLogEntries >= 1 && maxLogEntries >= logEntries && (logEntries >= 1 ==> maxLogEntries == logEntries)
      ensures maxLogBytes >= 1024 && maxLogBytes >= logByteLimit && (logByteLimit >= 1024 ==> maxLogBytes == logByteLimit)
      ensures maxTimelineEntries >= 1 && (timelineEntries >= 1 ==> maxTimelineEntries == timelineEntries)
      ensures maxTimelineBytes >= MIN_TIMELINE_BYTES
      ensures timelineByteLimit >= 1024 ==> maxTimelineBytes == timelineByteLimit
    {
      maxLogEntries := if logEntries < 1 then 1 else logEntries;
      maxLogBytes := if logByteLimit < 1024 then 1024 else logByteLimit;
      maxTimelineEntries := if timelineEntries < 1 then 1 else timelineEntries;
      maxTimelineBytes := if timelineByteLimit < 1024 then 1024 else timelineByteLimit;
      session := false;
      logs, logBytes, logCursor, droppedLogEntryCount := [], 0, 0, 0;
      timeline, timelineBytes, timelineCursor, droppedTimelineEventCount := [], 0, 0, 0;
      timelineComparisonState := map[];
    }

    method ResetCapturedData()
      modifies this
      ensures Valid() && session == old(session) && LogState() == EmptyLog && TimelineState() == EmptyTimeline
    {
      logs, logBytes, logCursor, droppedLogEntryCount := [], 0, 0, 0;
      timeline, timelineBytes, timelineCursor, droppedTimelineEventCount := [], 0, 0, 0;
      timelineComparisonState := map[];
    }

    /** A new session starts from empty buffers, with the announcement of its start as the first log entry. */
    method Enable(announcement: string)
      modifies this
      ensures Valid() && session
      ensures LogState() == Record(LogLimits(), EmptyLog, announcement) && TimelineState() == EmptyTimeline
    {
      ResetCapturedData();
      session := true;
      RecordLog(announcement);
    }

    method Disable()
      modifies this
      ensures Valid() && !session && LogState() == EmptyLog && TimelineState() == EmptyTimeline
    {
      session := false;
      ResetCapturedData();
    }

    method PushLog(entry: LogEntry)
      requires LogsCounted()
      modifies this`logs, this`logBytes, this`droppedLogEntryCount
      ensures LogsCounted()
      ensures logs == Evict(LogLimits(), old(logs) + [entry], EntryBytes)
      ensures |logs| <= |old(logs)| + 1
      ensures droppedLogEntryCount == old(droppedLogEntryCount) + |old(logs)| + 1 - |logs|
    {
      SizeAppend(logs, [entry], EntryBytes);
      assert [entry][1..] == [];
      logs := logs + [entry];
      logBytes := logBytes + EntryBytes(entry);
      ghost var items := logs;
      while |logs| > 1 && (|logs| > maxLogEntries || logBytes > maxLogBytes)
        invariant LogsCounted()
        invariant |logs| <= |items|
        invariant droppedLogEntryCount == old(droppedLogEntryCount) + |items| - |logs|
        invariant Evict(LogLimits(), logs, EntryBytes) == Evict(LogLimits(), items, EntryBytes)
        decreases |logs|
      {
        var removed := logs[0];
        logs := logs[1..];
        logBytes := logBytes - EntryBytes(removed);
        droppedLogEntryCount := droppedLogEntryCount + 1;
      }
    }

    /** The message is given as redacted. */
    method RecordLog(message: string)
      requires Valid()
      modifies this`logs, this`logBytes, this`logCursor, this`droppedLogEntryCount
      ensures Valid()
      ensures LogState() == if session then Record(LogLimits(), old(LogState()), message) else old(LogState())
    {
      if session {
        logCursor := logCursor + 1;
        PushLog(LogEntry(logCursor, message));
      }
    }

    method ReadLogs(afterCursor: Number, limit: Number) returns (page: Page<LogEntry>)
      ensures page == ReadPage(LogBuffer.AsBuffer(LogState()), LogBuffer.CursorOf, afterCursor, limit)
    {
      page := ReadBuffer(Buffer(logs, logCursor, droppedLogEntryCount), LogBuffer.CursorOf, afterCursor, limit);
    }

    method ReadTimeline(afterCursor: Number, limit: Number) returns (page: Page<Event>)
      ensures page == ReadPage(Timeline.AsBuffer(TimelineState()), Timeline.CursorOf, afterCursor, limit)
    {
      page := ReadBuffer(Buffer(timeline, timelineCursor, droppedTimelineEventCount), Timeline.CursorOf, afterCursor, limit);
    }

    /** Appends an event and evicts from the front while a limit is exceeded. */
    method PushEvent(event: Event)
      requires TimelineCounted()
      modifies this`timeline, this`timelineBytes, this`droppedTimelineEventCount
      ensures TimelineCounted()
      ensures timeline == Evict(TimelineLimits(), old(timeline) + [event], EventBytes)
      ensures |timeline| <= |old(timeline)| + 1
      ensures droppedTimelineEventCount == old(droppedTimelineEventCount) + |old(timeline)| + 1 - |timeline|
    {
      var eventBytes := EventBytes(event);
      SizeAppend(timeline, [event], EventBytes);
      assert [event][1..] == [];
      timeline := timeline + [event];
      timelineBytes := timelineBytes + eventBytes;
      ghost var items := timeline;
      while |timeline| > 1 && (|timeline| > maxTimelineEntries || timelineBytes > maxTimelineBytes)
        invariant TimelineCounted()
        invariant |timeline| <= |items|
        invariant droppedTimelineEventCount == old(droppedTimelineEventCount) + |items| - |timeline|
        invariant Evict(TimelineLimits(), timeline, EventBytes) == Evict(TimelineLimits(), items, EventBytes)
        decreases |timeline|
      {
        var removed := timeline[0];
        timeline := timeline[1..];
        timelineBytes := timelineBytes - EventBytes(removed);
        droppedTimelineEventCount := droppedTimelineEventCount + 1;
      }
    }

    /** The event that is stored for a source event: itself, or a marker in its place. */
    method Bound(source: Event) returns (event: Event)
      ensures Stored(TimelineLimits(), source, event)
    {
      var sourceBytes := EventBytes(source);
      if sourceBytes > maxTimelineBytes {
        event := TimelineOverflowMarker(source, maxTimelineBytes, sourceBytes);
      } else {
        event := source;
      }
    }

    /** Stores a changed report's event, once the comparison state holds its snapshot. */
    method RecordChange(source: Event)
      returns (event: Event)
      requires TimelineCounted()
      modifies this`timeline, this`timelineBytes, this`timelineCursor, this`droppedTimelineEventCount
      ensures TimelineCounted()
      ensures Stored(TimelineLimits(), source, event)
      ensures timelineCursor == old(timelineCursor) + 1
      ensures timeline == Evict(TimelineLimits(), old(timeline) + [event], EventBytes)
      ensures |timeline| <= |old(timeline)| + 1
      ensures droppedTimelineEventCount == old(droppedTimelineEventCount) + |old(timeline)| + 1 - |timeline|
    {
      event := Bound(source);
      timelineCursor := timelineCursor + 1;
      PushEvent(event);
    }

    method RecordRendererTimeline(r: Report) returns (ghost stored: Event)
      requires Valid()
      modifies this`timeline, this`timelineBytes, this`timelineCursor, this`droppedTimelineEventCount,
               this`timelineComparisonState
      ensures Valid()
      ensures Recorded(TimelineLimits(), old(TimelineState()), r, stored, TimelineState())
    {
      ghost var before := TimelineState();
      var changed := ChangedSections(TimelineState(), r);
      var source := SourceEvent(TimelineState(), r);
      stored := source;
      timelineComparisonState := timelineComparisonState[r.instanceId := r.snapshot];
      if changed != [] {
        var event := RecordChange(source);
        stored := event;
        ShowRecorded(TimelineLimits(), before, r, event, TimelineState());
      }
    }
  }

  lemma ShowRecorded(limits: Limits, before: TimelineBuffer, r: Report, stored: Event, after: TimelineBuffer)
    requires ChangedSections(before, r) != [] && Stored(limits, SourceEvent(before, r), stored)
    requires after.events == Evict(limits, before.events + [stored], EventBytes)
    requires |after.events| <= |before.events| + 1
    requires after.bytes == TotalSize(after.events, EventBytes) && after.cursor == before.cursor + 1
    requires after.dropped == before.dropped + |before.events| + 1 - |after.events|
    requires after.comparison == before.comparison[r.instanceId := r.snapshot]
    ensures Recorded(limits, before, r, stored, after)
  {
  }
}
