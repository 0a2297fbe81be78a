/** The diagnostics log buffer: eviction by entries and bytes, and a reader that pages through it. */
module LogBuffer {
  import opened Common
  import opened BoundedBuffer
  import opened Paging

  /** The message is kept as redacted; source, level and timestamp play no part in retention. */
  datatype LogEntry = LogEntry(cursor: nat, message: string)

  function EntryBytes(e: LogEntry): nat {
    Utf8Length(e.message)
  }

  datatype Log = Log(entries: seq<LogEntry>, bytes: nat, cursor: nat, dropped: nat)

  const EmptyLog := Log([], 0, 0, 0)

  const CursorOf: LogEntry -> nat := (e: LogEntry) => e.cursor

  function AsBuffer(log: Log): Buffer<LogEntry> {
    Buffer(log.entries, log.cursor, log.dropped)
  }

  /** The log is what the limits allow of the history. */
  ghost predicate LogOf(limits: Limits, history: seq<LogEntry>, log: Log) {
    && EndOf(history, AsBuffer(log), CursorOf)
    && Retained(limits, history, log.entries, EntryBytes)
    && log.bytes == TotalSize(log.entries, EntryBytes)
  }

  function Record(limits: Limits, log: Log, message: string): Log {
    var items := log.entries + [LogEntry(log.cursor + 1, message)];
    var kept := Evict(limits, items, EntryBytes);
    Log(kept, TotalSize(kept, EntryBytes), log.cursor + 1, log.dropped + if |kept| <= |items| then |items| - |kept| else 0)
  }

  /** Recording an entry extends the history and keeps the log in step with it. */
  lemma RecordKeepsLog(limits: Limits, history: seq<LogEntry>, log: Log, message: string)
    requires LogOf(limits, history, log)
    ensures LogOf(limits, history + [LogEntry(log.cursor + 1, message)], Record(limits, log, message))
  {
    var entry := LogEntry(log.cursor + 1, message);
    OnlineEviction(limits, history, log.entries, entry, EntryBytes);
    EvictSuffix(limits, log.entries + [entry], EntryBytes);
    ExtendEnd(history, AsBuffer(log), CursorOf, entry, AsBuffer(Record(limits, log, message)));
  }

  /** Everything the entries say, one message after another. */
  function AllText(entries: seq<LogEntry>): string {
    if entries == [] then "" else entries[0].message + AllText(entries[1..])
  }

  lemma {:induction false} TotalIsText(entries: seq<LogEntry>)
    ensures TotalSize(entries, EntryBytes) == Utf8Length(AllText(entries))
  {
    if entries != [] {
      TotalIsText(entries[1..]);
      Utf8Append(entries[0].message, AllText(entries[1..]));
    }
  }

  /** The bytes counted are those of the retained messages, within the limit exactly if the newest message is. */
  lemma LogWithinLimit(limits: Limits, history: seq<LogEntry>, log: Log)
    requires LogOf(limits, history, log)
    ensures log.bytes == Utf8Length(AllText(log.entries))
    ensures log.bytes <= limits.maxBytes
       <==> history == [] || Utf8Length(history[|history| - 1].message) <= limits.maxBytes
  {
    TotalIsText(log.entries);
    RetainedBytes(limits, history, log.entries, EntryBytes);
  }

  lemma {:induction false} PlainBytes(n: nat)
    ensures Utf8Length(seq(n, _ => 'a')) == n
  {
    if n > 0 {
      PlainBytes(n - 1);
      assert seq(n, _ => 'a')[1..] == seq(n - 1, _ => 'a');
    }
  }

  /** Under the limits a hub accepts, one long message takes the log over its limit. */
  lemma LongMessageStays(limits: Limits)
    requires limits.maxEntries >= 1 && limits.maxBytes >= 1024
    ensures Record(limits, EmptyLog, seq(limits.maxBytes + 1, _ => 'a')).bytes == limits.maxBytes + 1
  {
    var message := seq(limits.maxBytes + 1, _ => 'a');
    PlainBytes(limits.maxBytes + 1);
    var entries := [LogEntry(1, message)];
    assert EmptyLog.entries + [LogEntry(EmptyLog.cursor + 1, message)] == entries;
    assert entries[1..] == [];
    assert TotalSize(entries, EntryBytes) == EntryBytes(entries[0]);
  }

  // ----- A reader of the log -----

  datatype Action = Write(message: string) | Read(limit: Number)

  /** The log, everything ever written to it, and what one reader has seen. */
  datatype Session = Session(log: Log, history: seq<LogEntry>, reader: Reader<LogEntry>)

  function FreshSession(): Session {
    Session(EmptyLog, [], NewReader())
  }

  function Act(limits: Limits, s: Session, a: Action): Session {
    match a
    case Write(message) =>
      s.(log := Record(limits, s.log, message), history := s.history + [LogEntry(s.log.cursor + 1, message)])
    case Read(limit) => s.(reader := Ask(AsBuffer(s.log), CursorOf, s.reader, limit))
  }

  ghost predicate Run(limits: Limits, states: seq<Session>, actions: seq<Action>) {
    && |states| == |actions| + 1
    && states[0] == FreshSession()
    && forall i | 0 <= i < |actions| :: states[i + 1] == Act(limits, states[i], actions[i])
  }

  /** The log is what the limits allow of everything written, and the reader has lost nothing unaccounted for. */
  ghost predicate Sound(limits: Limits, s: Session) {
    LogOf(limits, s.history, s.log) && Conserved(s.history, CursorOf, s.reader)
  }

  lemma ActSound(limits: Limits, s: Session, a: Action)
    requires Sound(limits, s)
    ensures Sound(limits, Act(limits, s, a))
  {
    match a {
      case Write(message) =>
        RecordKeepsLog(limits, s.history, s.log, message);
        WriteConserves(s.history, CursorOf, s.reader, [LogEntry(s.log.cursor + 1, message)]);
      case Read(limit) => AskConserves(s.history, AsBuffer(s.log), CursorOf, s.reader, limit);
    }
  }

  /**
   * Over every interleaving of writes and reads, the buffer is what its limits allow of everything written, and
   * paging conserves entries.
   */
  lemma {:induction false} PagingConserves(limits: Limits, states: seq<Session>, actions: seq<Action>, i: nat)
    requires Run(limits, states, actions) && i <= |actions|
    ensures LogOf(limits, states[i].history, states[i].log)
    ensures Conserved(states[i].history, CursorOf, states[i].reader)
  {
    if i > 0 {
      PagingConserves(limits, states, actions, i - 1);
      ActSound(limits, states[i - 1], actions[i - 1]);
    }
  }
}
