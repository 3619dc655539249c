/** The LIST/WHO/HISTORY queries of `session.py`: collect-buffers and futures on one reply stream
    whose messages carry no query identifier.

    A stretch between awaits is one event. The server may interleave its answers as it likes;
    a message is received when the read loop dispatches it. */
module QueryProtocol {
  import opened Text

  datatype Key = List | Who(target: string) | History(channel: string)

  /** One call of a query method. */
  datatype Query = Query(key: Key, n: nat)

  datatype Command = RplList | RplListEnd | RplWhoReply | RplEndOfWho | HistoryRow | HistoryEnd
  datatype Message = Message(command: Command, params: seq<string>)

  datatype Entry =
    | Channel(name: string)
    | Person(nick: string, user: string, host: string, server: string, flags: string, realname: string)
    | Line(channel: string, nick: string, timestamp: string, text: string)

  /** `_collect_buffers`, `_pending` (whose future waits for a key's end), the futures already
      resolved, and `_query_locks` (who holds a key's lock). */
  datatype State = State(buffers: map<Key, seq<Entry>>, pending: map<Key, Query>, done: set<Query>, locks: map<Key, Query>)

  const IDLE: State := State(map[], map[], {}, map[])

  /** `Write` puts the request on the wire; a send may fail or be cancelled before that or after. */
  datatype Event =
    | Start(q: Query)
    | Write(q: Query)
    | Receive(q: Query, m: Message)
    | Resume(q: Query)
    | TimeOut(q: Query)
    | SendLost(q: Query)
    | CancelSend(q: Query)
    | CancelWait(q: Query)

  // ---- Dispatch on the message alone ----------------------------------------------------------

  function Param(m: Message, i: nat): string {
    if i < |m.params| then m.params[i] else ""
  }

  /** The collect-buffer a row goes to, if it has enough parameters. */
  function RowKey(m: Message): Option<Key> {
    match m.command
    case RplList => if |m.params| >= 2 then Some(List) else None
    case RplWhoReply => if |m.params| >= 6 then Some(Who(m.params[1])) else None
    case HistoryRow => if |m.params| >= 4 then Some(History(m.params[0])) else None
    case _ => None
  }

  function EntryOf(m: Message): Entry {
    match m.command
    case RplWhoReply => Person(Param(m, 5), Param(m, 2), Param(m, 3), Param(m, 4), Param(m, 6), Param(m, 7))
    case HistoryRow => Line(Param(m, 0), Param(m, 1), Param(m, 2), Param(m, 3))
    case _ => Channel(Param(m, 1))
  }

  /** The future an end-of-reply resolves. */
  function EndKey(m: Message): Option<Key> {
    match m.command
    case RplListEnd => Some(List)
    case RplEndOfWho => Some(Who(Param(m, 1)))
    case HistoryEnd => Some(History(Param(m, 0)))
    case _ => None
  }

  function Collect(s: State, k: Key, e: Entry): State {
    if k in s.buffers then s.(buffers := s.buffers[k := s.buffers[k] + [e]]) else s
  }

  function Resolve(s: State, k: Key): State {
    if k in s.pending then s.(pending := s.pending - {k}, done := s.done + {s.pending[k]}) else s
  }

  function Handle(s: State, m: Message): State {
    if RowKey(m).Some? then Collect(s, RowKey(m).value, EntryOf(m))
    else if EndKey(m).Some? then Resolve(s, EndKey(m).value)
    else s
  }

  // ---- `_collect_until`, one stretch at a time --------------------------------------------------

  function Release(s: State, k: Key): State {
    State(s.buffers - {k}, s.pending - {k}, s.done, s.locks - {k})
  }

  /** A cancelled wait leaves its buffer behind, and a cancelled send its future too; the next query
      of the key replaces them. */
  function Step(s: State, e: Event): State {
    match e
    case Start(q) => State(s.buffers[q.key := []], s.pending[q.key := q], s.done, s.locks[q.key := q])
    case Write(_) => s
    case Receive(_, m) => Handle(s, m)
    case Resume(q) => Release(s, q.key)
    case TimeOut(q) => Release(s, q.key)
    case SendLost(q) => Release(s, q.key)
    case CancelSend(q) => s.(locks := s.locks - {q.key})
    case CancelWait(q) => s.(pending := s.pending - {q.key}, locks := s.locks - {q.key})
  }

  function After(events: seq<Event>): State {
    if events == [] then IDLE else Step(After(events[..|events| - 1]), events[|events| - 1])
  }

  /** What the query returns when it resumes; `[]` when its buffer is gone. */
  function Collected(s: State, k: Key): seq<Entry> {
    if k in s.buffers then s.buffers[k] else []
  }

  // ---- What the server sent ----------------------------------------------------------------------

  /** Requests for `k` written and not yet answered to their end. */
  function Owed(events: seq<Event>, k: Key): set<Query> {
    if events == [] then {}
    else
      var before, e := Owed(events[..|events| - 1], k), events[|events| - 1];
      if e.q.key != k then before
      else if e.Write? then before + {e.q}
      else if e.Receive? && EndKey(e.m) == Some(k) then before - {e.q}
      else before
  }

  /** The well-formed rows the server sent in answer to `q`, in order. */
  function RowsFor(events: seq<Event>, q: Query): seq<Entry> {
    if events == [] then []
    else
      var before, e := RowsFor(events[..|events| - 1], q), events[|events| - 1];
      if e.Receive? && e.q == q && RowKey(e.m).Some? then before + [EntryOf(e.m)] else before
  }

  function Started(events: seq<Event>): set<Query> {
    if events == [] then {}
    else
      var e := events[|events| - 1];
      Started(events[..|events| - 1]) + (if e.Start? then {e.q} else {})
  }

  /** The queries whose request was written. */
  function Written(events: seq<Event>): set<Query> {
    if events == [] then {}
    else
      var e := events[|events| - 1];
      Written(events[..|events| - 1]) + (if e.Write? then {e.q} else {})
  }

  /** An answer to `q` names no other key. */
  predicate Answers(q: Query, m: Message) {
    RowKey(m) in {None, Some(q.key)} && EndKey(m) in {None, Some(q.key)}
  }

  predicate Holds(s: State, q: Query) {
    q.key in s.locks && s.locks[q.key] == q
  }

  predicate Enabled(events: seq<Event>, e: Event) {
    var s := After(events);
    match e
    case Start(q) => q.key !in s.locks && q !in Started(events)
    case Receive(q, m) => q in Owed(events, q.key) && Answers(q, m)
    case Write(q) => Holds(s, q) && q !in Written(events)
    case Resume(q) => Holds(s, q) && q in Written(events) && q in s.done
    case TimeOut(q) => Holds(s, q) && q in Written(events) && q !in s.done
    case SendLost(q) => Holds(s, q)
    case CancelSend(q) => Holds(s, q)
    case CancelWait(q) => Holds(s, q) && q in Written(events)
  }

  predicate Legal(events: seq<Event>) {
    events != [] ==>
      Legal(events[..|events| - 1]) && Enabled(events[..|events| - 1], events[|events| - 1])
  }

  /** When the last query of `k` started, no earlier request for `k` was still being answered. */
  predicate CleanStart(events: seq<Event>, k: Key) {
    events != [] ==>
      var before, e := events[..|events| - 1], events[|events| - 1];
      if e.Start? && e.q.key == k then Owed(before, k) == {} else CleanStart(before, k)
  }

  // ---- Isolation ------------------------------------------------------------------------------------

  lemma {:induction false} UnstartedIsUnknown(events: seq<Event>, q: Query)
    requires Legal(events) && q !in Started(events)
    ensures q !in Owed(events, q.key) && RowsFor(events, q) == [] && q !in After(events).done && q !in Written(events)
    ensures forall k | k in After(events).pending :: After(events).pending[k] != q
    ensures forall k | k in After(events).locks :: After(events).locks[k] != q
  {
    if events != [] {
      var n := |events| - 1;
      UnstartedIsUnknown(events[..n], q);
    }
  }

  /** The lane of one key: while a query that started clean holds the lock, its buffer is exactly
      its own rows, and its future is resolved exactly when its answer has ended. */
  predicate LaneOk(events: seq<Event>, k: Key) {
    var s := After(events);
    && (k in s.pending ==> s.pending[k].key == k)
    && (k in s.locks ==> s.locks[k].key == k)
    && (k in s.locks && CleanStart(events, k) ==>
          var q := s.locks[k];
          && k in s.buffers && s.buffers[k] == RowsFor(events, q)
          && Owed(events, k) == (if q in Written(events) && q !in s.done then {q} else {})
          && (q in s.done ==> q in Written(events))
          && (q !in s.done ==> k in s.pending && s.pending[k] == q))
  }

  lemma RowKeepsLane(before: seq<Event>, e: Event, k: Key)
    requires Legal(before) && Enabled(before, e) && e.Receive? && RowKey(e.m).Some? && LaneOk(before, k)
    ensures LaneOk(before + [e], k)
  {
    hide Started, Legal, EntryOf;
    assert (before + [e])[..|before|] == before;
    assert e.q in Owed(before, e.q.key) && RowKey(e.m) == Some(e.q.key) && EndKey(e.m) == None;
    hide RowKey, EndKey, Enabled;
  }

  lemma EndKeepsLane(before: seq<Event>, e: Event, k: Key)
    requires Legal(before) && Enabled(before, e) && e.Receive? && RowKey(e.m) == None
    requires LaneOk(before, k) && LaneOk(before, e.q.key)
    ensures LaneOk(before + [e], k)
  {
    hide Started, Legal, EntryOf;
    assert (before + [e])[..|before|] == before;
    assert e.q in Owed(before, e.q.key) && EndKey(e.m) in {None, Some(e.q.key)};
    hide RowKey, EndKey, Enabled;
  }

  lemma StepKeepsLane(before: seq<Event>, e: Event, k: Key)
    requires Legal(before) && Enabled(before, e) && !e.Receive? && LaneOk(before, k)
    ensures LaneOk(before + [e], k)
  {
    hide Started, Legal, Handle;
    assert (before + [e])[..|before|] == before;
    if e.Start? {
      UnstartedIsUnknown(before, e.q);
    }
  }

  lemma {:induction false} LanesStayOk(events: seq<Event>, k: Key)
    requires Legal(events)
    ensures LaneOk(events, k)
  {
    if events != [] {
      hide LaneOk, Enabled;
      var n := |events| - 1;
      LanesStayOk(events[..n], k);
      assert events == events[..n] + [events[n]];
      if events[n].Receive? {
        LanesStayOk(events[..n], events[n].q.key);
        if RowKey(events[n].m).Some? {
          RowKeepsLane(events[..n], events[n], k);
        } else {
          EndKeepsLane(events[..n], events[n], k);
        }
      } else {
        StepKeepsLane(events[..n], events[n], k);
      }
    } else {
      assert LaneOk(events, k);
    }
  }

  /** However many queries run at once: a query that started clean can resume exactly when its
      own answer has ended, and returns exactly the well-formed rows sent for it. */
  lemma QueryIsolation(events: seq<Event>, q: Query)
    requires Legal(events) && Holds(After(events), q) && CleanStart(events, q.key)
    ensures q in After(events).done <==> q in Written(events) && q !in Owed(events, q.key)
    ensures Collected(After(events), q.key) == RowsFor(events, q)
  {
    LanesStayOk(events, q.key);
  }

  // ---- Whom an event touches --------------------------------------------------------------------------

  predicate Ends(e: Event) { e.Resume? || GivesUp(e) }

  /** However a query ends, another of its key can start at once. */
  lemma EveryEndFreesItsKey(events: seq<Event>, e: Event, next: Query)
    requires Enabled(events, e) && Ends(e) && next.key == e.q.key && next !in Started(events)
    ensures Enabled(events + [e], Start(next)) && next.key !in After(events + [e]).locks
  {
    hide Handle;
    assert (events + [e])[..|events|] == events;
  }

  /** An event leaves the buffers, futures and locks of all other keys alone. */
  lemma OtherKeysAreLeftAlone(events: seq<Event>, e: Event, k: Key)
    requires Enabled(events, e) && e.q.key != k
    ensures var s, s' := After(events), After(events + [e]);
            && (k in s'.buffers <==> k in s.buffers) && (k in s.buffers ==> s'.buffers[k] == s.buffers[k])
            && (k in s'.pending <==> k in s.pending) && (k in s.pending ==> s'.pending[k] == s.pending[k])
            && (k in s'.locks <==> k in s.locks) && (k in s.locks ==> s'.locks[k] == s.locks[k])
  {
    hide Started, Owed, Written, RowKey, EndKey, EntryOf;
    assert (events + [e])[..|events|] == events;
  }

  // ---- Rows as the server writes them -----------------------------------------------------------------

  /** A row on the wire: RPL_LIST names the channel after the client's own nick, RPL_WHOREPLY may stop
      after the nick or the flags, and HISTORY may say more after the text. */
  datatype Row =
    | ListRow(me: string, channel: string, more: seq<string>)
    | WhoRow(me: string, target: string, user: string, host: string, server: string, nick: string,
             rest: WhoRest)
    | PastLine(channel: string, nick: string, timestamp: string, text: string, more: seq<string>)

  datatype WhoRest = NickOnly | Flags(flags: string) | Full(flags: string, realname: string, more: seq<string>)

  function Wire(row: Row): Message {
    match row
    case ListRow(me, channel, more) => Message(RplList, [me, channel] + more)
    case WhoRow(me, target, user, host, server, nick, rest) =>
      Message(RplWhoReply, [me, target, user, host, server, nick] + WireRest(rest))
    case PastLine(channel, nick, timestamp, text, more) =>
      Message(HistoryRow, [channel, nick, timestamp, text] + more)
  }

  function WireRest(rest: WhoRest): seq<string> {
    match rest
    case NickOnly => []
    case Flags(flags) => [flags]
    case Full(flags, realname, more) => [flags, realname] + more
  }

  /** What the query is to return for a row. */
  function EntryFor(row: Row): Entry {
    match row
    case ListRow(_, channel, _) => Channel(channel)
    case WhoRow(_, _, user, host, server, nick, rest) =>
      Person(nick, user, host, server, if rest.NickOnly? then "" else rest.flags, if rest.Full? then rest.realname else "")
    case PastLine(channel, nick, timestamp, text, _) => Line(channel, nick, timestamp, text)
  }

  function KeyOf(row: Row): Key {
    match row
    case ListRow(_, _, _) => List
    case WhoRow(_, target, _, _, _, _, _) => Who(target)
    case PastLine(channel, _, _, _, _) => History(channel)
  }

  /** A row is read back as it was written, and goes to the query it answers. */
  lemma RowRoundTrip(row: Row)
    ensures RowKey(Wire(row)) == Some(KeyOf(row)) && EntryOf(Wire(row)) == EntryFor(row) && EndKey(Wire(row)) == None
  {
  }

  /** An end of reply resolves the query it names, whatever it says after that. */
  lemma EndsNameTheirQuery(me: string, name: string, more: seq<string>)
    ensures EndKey(Message(RplListEnd, more)) == Some(List)
    ensures EndKey(Message(RplEndOfWho, [me, name] + more)) == Some(Who(name))
    ensures EndKey(Message(HistoryEnd, [name] + more)) == Some(History(name))
  {
  }

  /** Every message that is put in a buffer is some row as the server writes it. */
  lemma RowsAreWritten(m: Message) returns (row: Row)
    requires RowKey(m).Some?
    ensures Wire(row) == m
  {
    var p := m.params;
    match m.command {
      case RplList =>
        row := ListRow(p[0], p[1], p[2..]);
        assert [p[0], p[1]] + p[2..] == p;
      case RplWhoReply =>
        var rest := if |p| == 6 then NickOnly else if |p| == 7 then Flags(p[6]) else Full(p[6], p[7], p[8..]);
        row := WhoRow(p[0], p[1], p[2], p[3], p[4], p[5], rest);
        assert WireRest(rest) == p[6..];
        assert [p[0], p[1], p[2], p[3], p[4], p[5]] + p[6..] == p;
      case HistoryRow =>
        row := PastLine(p[0], p[1], p[2], p[3], p[4..]);
        assert [p[0], p[1], p[2], p[3]] + p[4..] == p;
    }
  }

  /** The row messages received in answer to `q`, in order. */
  function RowMessages(events: seq<Event>, q: Query): seq<Message> {
    if events == [] then []
    else
      var before, e := RowMessages(events[..|events| - 1], q), events[|events| - 1];
      if e.Receive? && e.q == q && RowKey(e.m).Some? then before + [e.m] else before
  }

  function WireAll(rows: seq<Row>): seq<Message> {
    if rows == [] then [] else WireAll(rows[..|rows| - 1]) + [Wire(rows[|rows| - 1])]
  }

  function EntriesFor(rows: seq<Row>): seq<Entry> {
    if rows == [] then [] else EntriesFor(rows[..|rows| - 1]) + [EntryFor(rows[|rows| - 1])]
  }

  function EntriesOf(ms: seq<Message>): seq<Entry> {
    if ms == [] then [] else EntriesOf(ms[..|ms| - 1]) + [EntryOf(ms[|ms| - 1])]
  }

  lemma {:induction false} RowsAreEntries(events: seq<Event>, q: Query)
    ensures RowsFor(events, q) == EntriesOf(RowMessages(events, q))
  {
    if events != [] {
      hide EntryOf, RowKey;
      var n := |events| - 1;
      RowsAreEntries(events[..n], q);
      var before, e := RowMessages(events[..n], q), events[n];
      if e.Receive? && e.q == q && RowKey(e.m).Some? {
        assert (before + [e.m])[..|before|] == before;
      }
    }
  }

  lemma {:induction false} RowsComeBack(rows: seq<Row>)
    ensures EntriesOf(WireAll(rows)) == EntriesFor(rows)
  {
    if rows != [] {
      var n := |rows| - 1;
      RowsComeBack(rows[..n]);
      RowRoundTrip(rows[n]);
      hide EntryOf, EntryFor, Wire;
      assert WireAll(rows)[..|WireAll(rows)| - 1] == WireAll(rows[..n]);
    }
  }

  /** A query that started clean returns, field by field, the rows the server wrote for it. */
  lemma QueryReturnsTheRowsWritten(events: seq<Event>, q: Query, rows: seq<Row>)
    requires Legal(events) && Holds(After(events), q) && CleanStart(events, q.key)
    requires RowMessages(events, q) == WireAll(rows)
    ensures Collected(After(events), q.key) == EntriesFor(rows)
  {
    QueryIsolation(events, q);
    RowsAreEntries(events, q);
    RowsComeBack(rows);
  }

  predicate GivesUp(e: Event) { e.TimeOut? || e.SendLost? || e.CancelSend? || e.CancelWait? }

  /** No query of this key was given up after its request was written. */
  predicate NoneGivenUp(events: seq<Event>, k: Key) {
    events != [] ==>
      var e := events[|events| - 1];
      && NoneGivenUp(events[..|events| - 1], k)
      && (e.q.key == k && e.q in Written(events[..|events| - 1]) ==> !GivesUp(e))
  }

  lemma {:induction false} NeverGivenUpIsClean(events: seq<Event>, k: Key)
    requires Legal(events) && NoneGivenUp(events, k)
    ensures CleanStart(events, k)
    ensures k !in After(events).locks ==> Owed(events, k) == {}
  {
    if events != [] {
      var n := |events| - 1;
      NeverGivenUpIsClean(events[..n], k);
      LanesStayOk(events[..n], k);
      LanesStayOk(events, k);
      hide Legal, Started, RowsFor, LaneOk, Handle;
      FreeIsSettled(events[..n], events[n], k);
      assert events == events[..n] + [events[n]];
    }
  }

  lemma FreeIsSettled(before: seq<Event>, e: Event, k: Key)
    requires Legal(before) && Enabled(before, e) && LaneOk(before, k) && CleanStart(before, k)
    requires k !in After(before).locks ==> Owed(before, k) == {}
    requires e.q.key == k && e.q in Written(before) ==> !GivesUp(e)
    ensures k !in After(before + [e]).locks ==> Owed(before + [e], k) == {}
  {
    assert (before + [e])[..|before|] == before;
    hide Legal, Started, RowsFor;
  }

  /** With no query of the key given up after it was written, every result is exactly its own rows. */
  lemma NoTimeoutsNoMixing(events: seq<Event>, q: Query)
    requires Legal(events) && NoneGivenUp(events, q.key) && Enabled(events, Resume(q))
    ensures Collected(After(events), q.key) == RowsFor(events, q) && q !in Owed(events, q.key)
  {
    NeverGivenUpIsClean(events, q.key);
    QueryIsolation(events, q);
  }

  // ---- The condition is exact ----------------------------------------------------------------------

  function SampleRow(k: Key): Message {
    match k
    case List => Message(RplList, ["n", "#late"])
    case Who(t) => Message(RplWhoReply, ["n", t, "u", "h", "s", "late"])
    case History(c) => Message(HistoryRow, [c, "late", "0", "x"])
  }

  function SampleEnd(k: Key): Message {
    match k
    case List => Message(RplListEnd, [])
    case Who(t) => Message(RplEndOfWho, ["n", t])
    case History(c) => Message(HistoryEnd, [c])
  }

  /** A query starts, a row of `stale`'s answer comes late, and the new answer ends. */
  function Pollution(stale: Query, q: Query): seq<Event> {
    [Start(q), Write(q), Receive(stale, SampleRow(q.key)), Receive(q, SampleEnd(q.key))]
  }

  lemma Extend(events: seq<Event>, e: Event)
    requires Legal(events) && Enabled(events, e)
    ensures Legal(events + [e]) && After(events + [e]) == Step(After(events), e)
    ensures forall q :: RowsFor(events + [e], q)
              == RowsFor(events, q) + (if e.Receive? && e.q == q && RowKey(e.m).Some? then [EntryOf(e.m)] else [])
    ensures Owed(events + [e], e.q.key)
         == if e.Write? then Owed(events, e.q.key) + {e.q}
            else if e.Receive? && EndKey(e.m) == Some(e.q.key) then Owed(events, e.q.key) - {e.q}
            else Owed(events, e.q.key)
    ensures Written(events + [e]) == Written(events) + (if e.Write? then {e.q} else {})
    ensures Started(events + [e]) == Started(events) + (if e.Start? then {e.q} else {})
  {
    hide Enabled, Step;
    assert (events + [e])[..|events|] == events;
  }

  lemma LateRowStays(events: seq<Event>, stale: Query, q: Query, row: Message, end: Message)
    requires Legal(events) && Enabled(events, Start(q))
    requires stale in Owed(events, q.key) && stale.key == q.key && stale != q
    requires RowKey(row) == Some(q.key) && EndKey(row) == None && RowKey(end) == None && EndKey(end) == Some(q.key)
    requires RowsFor(events, q) == [] && q !in Written(events)
    ensures var all := events + [Start(q), Write(q), Receive(stale, row), Receive(q, end)];
            && Legal(all) && Enabled(all, Resume(q))
            && Collected(After(all), q.key) == [EntryOf(row)] && RowsFor(all, q) == []
  {
    hide Started, Written, Owed, RowsFor, Legal, After, RowKey, EndKey, EntryOf;
    Extend(events, Start(q));
    var one := events + [Start(q)];
    Extend(one, Write(q));
    var two := one + [Write(q)];
    Extend(two, Receive(stale, row));
    var three := two + [Receive(stale, row)];
    Extend(three, Receive(q, end));
    assert events + [Start(q), Write(q), Receive(stale, row), Receive(q, end)] == three + [Receive(q, end)];
  }

  /** A clean start is necessary: from any state where an earlier request is still owed an answer,
      a run follows in which the new query returns a row that was not sent for it. */
  lemma DirtyStartCanPollute(events: seq<Event>, stale: Query, q: Query)
    requires Legal(events) && Enabled(events, Start(q))
    requires stale in Owed(events, q.key) && stale.key == q.key
    ensures var all := events + Pollution(stale, q);
            && Legal(all) && Enabled(all, Resume(q))
            && Collected(After(all), q.key) == [EntryOf(SampleRow(q.key))] && RowsFor(all, q) == []
  {
    UnstartedIsUnknown(events, q);
    SamplesFit(q.key);
    hide Started, Owed, RowsFor, Legal, After, Enabled, RowKey, EndKey, SampleRow, SampleEnd;
    LateRowStays(events, stale, q, SampleRow(q.key), SampleEnd(q.key));
  }

  lemma SamplesFit(k: Key)
    ensures RowKey(SampleRow(k)) == Some(k) && EndKey(SampleRow(k)) == None
    ensures RowKey(SampleEnd(k)) == None && EndKey(SampleEnd(k)) == Some(k)
  {
  }

  lemma TimedOutRun(first: Query)
    ensures var events := [Start(first), Write(first), TimeOut(first)];
            && Legal(events) && first.key !in After(events).locks
            && Owed(events, first.key) == {first} && Started(events) == {first}
  {
    hide Handle;
    Extend([], Start(first));
    var one := [Start(first)];
    assert [] + one == one && one[..0] == [];
    Extend(one, Write(first));
    var two := [Start(first), Write(first)];
    assert one + [Write(first)] == two && two[..1] == one;
    Extend(two, TimeOut(first));
    var three := [Start(first), Write(first), TimeOut(first)];
    assert two + [TimeOut(first)] == three && three[..2] == two;
    assert Started(one) == {first} && Started(two) == {first} && Started(three) == {first};
  }

  /** A run in which it happens, for any key: the first query times out, and its late row is what
      the second one returns. */
  lemma LateRowAfterTimeOut(k: Key)
    ensures var first, second := Query(k, 0), Query(k, 1);
            var all := [Start(first), Write(first), TimeOut(first)] + Pollution(first, second);
            && Legal(all) && Enabled(all, Resume(second))
            && Collected(After(all), k) == [EntryOf(SampleRow(k))] && RowsFor(all, second) == []
  {
    hide EntryOf, SampleRow, Legal, Started, Owed, Written, RowsFor, After;
    var first, second := Query(k, 0), Query(k, 1);
    TimedOutRun(first);
    var events := [Start(first), Write(first), TimeOut(first)];
    assert Enabled(events, Start(second));
    DirtyStartCanPollute(events, first, second);
  }

  // ---- `list_channels` -------------------------------------------------------------------------------

  /** Python's order on strings: by code point. */
  predicate Leq(a: string, b: string) {
    || a == ""
    || (b != "" && (a[0] < b[0] || (a[0] == b[0] && Leq(a[1..], b[1..]))))
  }

  function Insert(x: string, sorted: seq<string>): seq<string> {
    if sorted == [] || Leq(x, sorted[0]) then [x] + sorted else [sorted[0]] + Insert(x, sorted[1..])
  }

  function Sort(names: seq<string>): seq<string> {
    if names == [] then [] else Insert(names[0], Sort(names[1..]))
  }

  function Permitted(names: seq<string>, may: string -> bool): seq<string> {
    if names == [] then []
    else (if may(names[0]) then [names[0]] else []) + Permitted(names[1..], may)
  }

  function Names(rows: seq<Entry>): seq<string> {
    seq(|rows|, i requires 0 <= i < |rows| => if rows[i].Channel? then rows[i].name else "")
  }

  predicate Ordered(names: seq<string>) {
    |names| >= 2 ==> Leq(names[0], names[1]) && Ordered(names[1..])
  }

  lemma {:induction false} LeqTotal(a: string, b: string)
    ensures Leq(a, b) || Leq(b, a)
  {
    if a != "" && b != "" { LeqTotal(a[1..], b[1..]); }
  }

  lemma {:induction false} LeqTransitive(a: string, b: string, c: string)
    requires Leq(a, b) && Leq(b, c)
    ensures Leq(a, c)
  {
    if a != "" && a[0] == b[0] && b[0] == c[0] { LeqTransitive(a[1..], b[1..], c[1..]); }
  }

  lemma {:induction false} InsertSorts(x: string, names: seq<string>)
    requires Ordered(names)
    ensures Ordered(Insert(x, names)) && multiset(Insert(x, names)) == multiset(names) + multiset{x}
  {
    if names != [] {
      LeqTotal(x, names[0]);
      hide Leq;
      assert names == [names[0]] + names[1..];
      if !Leq(x, names[0]) {
        InsertSorts(x, names[1..]);
        var rest := Insert(x, names[1..]);
        assert Insert(x, names)[1..] == rest;
      } else {
        assert Insert(x, names)[1..] == names;
      }
    }
  }

  lemma {:induction false} SortSorts(names: seq<string>)
    ensures Ordered(Sort(names)) && multiset(Sort(names)) == multiset(names)
  {
    if names != [] {
      SortSorts(names[1..]);
      InsertSorts(names[0], Sort(names[1..]));
      assert names == [names[0]] + names[1..];
    }
  }

  lemma {:induction false} PermittedCounts(names: seq<string>, may: string -> bool, x: string)
    ensures multiset(Permitted(names, may))[x] == if may(x) then multiset(names)[x] else 0
  {
    if names != [] {
      PermittedCounts(names[1..], may, x);
      assert names == [names[0]] + names[1..];
    }
  }

  lemma {:induction false} PermittedStaysOrdered(names: seq<string>, may: string -> bool)
    requires Ordered(names)
    ensures Ordered(Permitted(names, may))
    ensures Permitted(names, may) != [] ==> Leq(names[0], Permitted(names, may)[0])
  {
    if names != [] {
      hide Leq;
      PermittedStaysOrdered(names[1..], may);
      var rest := Permitted(names[1..], may);
      LeqTotal(names[0], names[0]);
      if rest != [] { LeqTransitive(names[0], names[1], rest[0]); }
      if may(names[0]) {
        assert Permitted(names, may)[1..] == rest;
      } else {
        assert Permitted(names, may) == rest;
      }
    }
  }

  lemma {:induction false} ListRowsAreChannels(events: seq<Event>, q: Query)
    requires Legal(events) && q.key == List
    ensures forall i | 0 <= i < |RowsFor(events, q)| :: RowsFor(events, q)[i].Channel?
  {
    if events != [] {
      ListRowsAreChannels(events[..|events| - 1], q);
      hide Started, Owed, After;
    }
  }

  /** LIST: sorted, and each permitted channel as often as the server listed it. */
  lemma ListIsSortedAndPermitted(events: seq<Event>, q: Query, may: string -> bool, x: string)
    requires Legal(events) && q.key == List && CleanStart(events, List) && Enabled(events, Resume(q))
    ensures var rows := Collected(After(events), List);
            && (forall i | 0 <= i < |rows| :: rows[i] == Channel(Names(rows)[i]))
            && var result := Permitted(Sort(Names(rows)), may);
               && Ordered(result)
               && multiset(result)[x] == if may(x) then multiset(Names(RowsFor(events, q)))[x] else 0
  {
    QueryIsolation(events, q);
    ListRowsAreChannels(events, q);
    hide Legal, Enabled, CleanStart, RowsFor, After, Collected;
    var rows := Collected(After(events), List);
    SortSorts(Names(rows));
    PermittedStaysOrdered(Sort(Names(rows)), may);
    PermittedCounts(Sort(Names(rows)), may, x);
  }

  // ---- The session ---------------------------------------------------------------------------------

  class Session {
    var collectBuffers: map<Key, seq<Entry>>
    var pending: map<Key, Query>
    var done: set<Query>
    var queryLocks: map<Key, Query>

    function Contents(): State
      reads this
    {
      State(collectBuffers, pending, done, queryLocks)
    }

    constructor ()
      ensures Contents() == IDLE
    {
      collectBuffers, pending, done, queryLocks := map[], map[], {}, map[];
    }

    /** Under the key's lock: stage the buffer and the future, before the request is written. */
    method Begin(q: Query)
      requires q.key !in queryLocks
      modifies this
      ensures Contents() == Step(old(Contents()), Start(q))
    {
      queryLocks := queryLocks[q.key := q];
      collectBuffers := collectBuffers[q.key := []];
      pending := pending[q.key := q];
    }

    /** After the wait, resolved or timed out: drain the buffer and let the next query in. */
    method Drain(q: Query) returns (items: seq<Entry>)
      requires Holds(Contents(), q)
      modifies this
      ensures Contents() == Step(old(Contents()), Resume(q)) == Step(old(Contents()), TimeOut(q))
      ensures items == Collected(old(Contents()), q.key)
    {
      pending := pending - {q.key};
      items := [];
      if q.key in collectBuffers {
        items := collectBuffers[q.key];
      }
      collectBuffers := collectBuffers - {q.key};
      queryLocks := queryLocks - {q.key};
    }

    method OnRplList(params: seq<string>)
      modifies this
      ensures Contents() == Handle(old(Contents()), Message(RplList, params))
    {
      if |params| >= 2 && List in collectBuffers {
        collectBuffers := collectBuffers[List := collectBuffers[List] + [Channel(params[1])]];
      }
    }

    method OnRplListEnd(params: seq<string>)
      modifies this
      ensures Contents() == Handle(old(Contents()), Message(RplListEnd, params))
    {
      SetResult(List);
    }

    method OnRplWhoReply(params: seq<string>)
      modifies this
      ensures Contents() == Handle(old(Contents()), Message(RplWhoReply, params))
    {
      if |params| >= 6 {
        var entry := Person(params[5], params[2], params[3], params[4],
                            if |params| > 6 then params[6] else "", if |params| > 7 then params[7] else "");
        var key := Who(params[1]);
        if key in collectBuffers {
          collectBuffers := collectBuffers[key := collectBuffers[key] + [entry]];
        }
      }
    }

    method OnRplEndOfWho(params: seq<string>)
      modifies this
      ensures Contents() == Handle(old(Contents()), Message(RplEndOfWho, params))
    {
      var target := if |params| >= 2 then params[1] else "";
      SetResult(Who(target));
    }

    method OnHistory(params: seq<string>)
      modifies this
      ensures Contents() == Handle(old(Contents()), Message(HistoryRow, params))
    {
      if |params| >= 4 {
        var key := History(params[0]);
        if key in collectBuffers {
          collectBuffers := collectBuffers[key := collectBuffers[key] + [Line(params[0], params[1], params[2], params[3])]];
        }
      }
    }

    method OnHistoryEnd(params: seq<string>)
      modifies this
      ensures Contents() == Handle(old(Contents()), Message(HistoryEnd, params))
    {
      var channel := if params != [] then params[0] else "";
      SetResult(History(channel));
    }

    /** Pop the key's future, if any, and resolve it. */
    method SetResult(key: Key)
      modifies this
      ensures Contents() == Resolve(old(Contents()), key)
    {
      if key in pending {
        done := done + {pending[key]};
        pending := pending - {key};
      }
    }
  }
}
