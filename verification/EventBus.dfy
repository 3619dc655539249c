/** `session.py`, `_Subscriber`: a bounded queue that drops its oldest events and injects one
    notice for each overflow burst. */
module EventBus {

  datatype Event = Event(name: string, data: string)

  /** A queue entry: an injected overflow notice, or a published event. */
  datatype Entry = Notice | Plain(event: Event)

  datatype Sub = Sub(queue: seq<Entry>, flagged: bool)

  /** `max <= 0` is asyncio's unbounded queue. */
  predicate Full(max: int, queue: seq<Entry>) { 0 < max <= |queue| }

  /** `_drop_one_oldest` */
  function DropOne(queue: seq<Entry>): seq<Entry> {
    if queue == [] then [] else queue[1..]
  }

  /** `put_nowait`, with `QueueFull` passed over. */
  function Put(max: int, queue: seq<Entry>, e: Entry): seq<Entry> {
    if Full(max, queue) then queue else queue + [e]
  }

  function Publish(max: int, s: Sub, event: Event): Sub {
    if !Full(max, s.queue) then Sub(s.queue + [Plain(event)], false)
    else if s.flagged then Sub(Put(max, DropOne(s.queue), Plain(event)), true)
    else
      var room := DropOne(DropOne(s.queue));
      Sub(Put(max, Put(max, room, Notice), Plain(event)), !Full(max, room))
  }

  class Subscriber {
    const max: int
    var queue: seq<Entry>
    var overflowFlagged: bool

    function Fields(): Sub
      reads this
    {
      Sub(queue, overflowFlagged)
    }

    constructor (max: int)
      ensures Fields() == Sub([], false) && this.max == max
    {
      this.max := max;
      queue, overflowFlagged := [], false;
    }

    method PutNoWait(e: Entry) returns (ok: bool)
      modifies this`queue
      ensures ok == !Full(max, old(queue)) && queue == Put(max, old(queue), e)
    {
      ok := !Full(max, queue);
      if ok {
        queue := queue + [e];
      }
    }

    method DropOldest()
      modifies this`queue
      ensures queue == DropOne(old(queue))
    {
      if queue != [] {
        queue := queue[1..];
      }
    }

    method PublishEvent(event: Event)
      modifies this
      ensures Fields() == Publish(max, old(Fields()), event)
    {
      if !Full(max, queue) {
        queue := queue + [Plain(event)];
        overflowFlagged := false;
        return;
      }
      if !overflowFlagged {
        DropOldest();
        DropOldest();
        var ok := PutNoWait(Notice);
        if ok {
          overflowFlagged := true;
        }
      } else {
        DropOldest();
      }
      var _ := PutNoWait(Plain(event));
    }
  }

  // ---- Runs of publishes and gets -----------------------------------------------------------------

  datatype Op = Pub(event: Event) | Get

  /** The subscriber and its history: what was published, which publishes met a full queue,
      and how many notices were injected. */
  datatype Run = Run(sub: Sub, published: seq<Event>, overflowed: seq<bool>, notices: nat)

  const INIT: Run := Run(Sub([], false), [], [], 0)

  /** The notice this publish injects, if any. */
  function Injected(max: int, s: Sub): nat {
    if Full(max, s.queue) && !s.flagged && !Full(max, DropOne(DropOne(s.queue))) then 1 else 0
  }

  /** How many of the oldest entries this publish drops. */
  function Drops(max: int, s: Sub): (n: nat)
    ensures n <= |s.queue|
  {
    if !Full(max, s.queue) then 0 else if s.flagged || |s.queue| == 1 then 1 else 2
  }

  /** What a publish leaves in the queue: the entries it did not drop, the notice it injects if any,
      and the event. So the notices counted are the ones put there. */
  lemma PublishPutsInjected(max: int, s: Sub, event: Event)
    requires max != 1 && (0 < max ==> |s.queue| <= max)
    ensures Publish(max, s, event).queue
         == s.queue[Drops(max, s)..] + (if Injected(max, s) == 1 then [Notice] else []) + [Plain(event)]
  {
    var kept := s.queue[Drops(max, s)..];
    assert kept + [] == kept;
    if Drops(max, s) == 2 {
      assert DropOne(DropOne(s.queue)) == s.queue[2..];
    } else if Drops(max, s) == 0 {
      assert kept == s.queue;
    }
  }

  function Step(max: int, r: Run, op: Op): Run {
    match op
    case Pub(event) =>
      Run(Publish(max, r.sub, event), r.published + [event], r.overflowed + [Full(max, r.sub.queue)],
          r.notices + Injected(max, r.sub))
    case Get => r.(sub := r.sub.(queue := DropOne(r.sub.queue)))
  }

  function After(max: int, ops: seq<Op>): Run {
    if ops == [] then INIT else Step(max, After(max, ops[..|ops| - 1]), ops[|ops| - 1])
  }

  /** The published events of a queue, oldest first. */
  function Events(queue: seq<Entry>): seq<Event> {
    if queue == [] then []
    else
      var last := queue[|queue| - 1];
      Events(queue[..|queue| - 1]) + if last.Plain? then [last.event] else []
  }

  predicate IsEndOf(part: seq<Event>, whole: seq<Event>) {
    |part| <= |whole| && forall i | 0 <= i < |part| :: part[i] == whole[|whole| - |part| + i]
  }

  /** Maximal runs of consecutive overflowing publishes. */
  function Bursts(overflowed: seq<bool>): nat {
    if overflowed == [] then 0
    else
      var n := |overflowed| - 1;
      Bursts(overflowed[..n]) + if overflowed[n] && !EndsOver(overflowed[..n]) then 1 else 0
  }

  /** The last publish, if any, overflowed. */
  predicate EndsOver(overflowed: seq<bool>) {
    overflowed != [] && overflowed[|overflowed| - 1]
  }

  ghost predicate Inv(max: int, r: Run) {
    && (0 < max ==> |r.sub.queue| <= max)
    && IsEndOf(Events(r.sub.queue), r.published)
    && r.notices == Bursts(r.overflowed)
    && (r.sub.flagged <==> EndsOver(r.overflowed))
  }

  lemma EventsSnoc(queue: seq<Entry>, e: Entry)
    ensures Events(queue + [e]) == Events(queue) + if e.Plain? then [e.event] else []
  {
    assert (queue + [e])[..|queue|] == queue;
  }

  /** Dropping the oldest entry drops the oldest event or a notice. */
  lemma {:induction false} EventsDrop(queue: seq<Entry>)
    requires queue != []
    ensures queue[0].Plain? ==> Events(queue) == [queue[0].event] + Events(DropOne(queue))
    ensures queue[0].Notice? ==> Events(queue) == Events(DropOne(queue))
    decreases |queue|
  {
    var n := |queue| - 1;
    if n == 0 {
      assert queue[..0] == [] && DropOne(queue) == [];
    } else {
      EventsDrop(queue[..n]);
      assert DropOne(queue[..n]) == queue[1..n] && queue[1..] == queue[1..n] + [queue[n]];
      assert DropOne(queue) == DropOne(queue[..n]) + [queue[n]];
      EventsSnoc(DropOne(queue[..n]), queue[n]);
    }
  }

  lemma DropKeepsEnd(queue: seq<Entry>, published: seq<Event>)
    requires IsEndOf(Events(queue), published)
    ensures IsEndOf(Events(DropOne(queue)), published)
  {
    if queue != [] {
      EventsDrop(queue);
      var events, left := Events(queue), Events(DropOne(queue));
      if queue[0].Plain? {
        forall i | 0 <= i < |left| ensures left[i] == events[i + 1] {}
      }
    }
  }

  lemma PutKeepsEnd(queue: seq<Entry>, published: seq<Event>, event: Event)
    requires IsEndOf(Events(queue), published)
    ensures IsEndOf(Events(queue + [Plain(event)]), published + [event])
  {
    EventsSnoc(queue, Plain(event));
  }

  lemma NoticeKeepsEnd(queue: seq<Entry>, published: seq<Event>)
    requires IsEndOf(Events(queue), published)
    ensures IsEndOf(Events(queue + [Notice]), published)
  {
    EventsSnoc(queue, Notice);
    assert Events(queue) + [] == Events(queue);
  }

  lemma PublishKeepsEnd(max: int, s: Sub, published: seq<Event>, event: Event)
    requires max != 1 && (0 < max ==> |s.queue| <= max) && IsEndOf(Events(s.queue), published)
    ensures var s' := Publish(max, s, event);
            && IsEndOf(Events(s'.queue), published + [event])
            && (0 < max ==> |s'.queue| <= max)
            && s'.queue[|s'.queue| - 1..] == [Plain(event)]
  {
    if !Full(max, s.queue) {
      PutKeepsEnd(s.queue, published, event);
    } else {
      DropKeepsEnd(s.queue, published);
      var one := DropOne(s.queue);
      if s.flagged {
        PutKeepsEnd(one, published, event);
      } else {
        DropKeepsEnd(one, published);
        NoticeKeepsEnd(DropOne(one), published);
        PutKeepsEnd(DropOne(one) + [Notice], published, event);
      }
    }
  }

  lemma BurstsSnoc(overflowed: seq<bool>, b: bool)
    ensures Bursts(overflowed + [b])
         == Bursts(overflowed) + if b && !EndsOver(overflowed) then 1 else 0
  {
    assert (overflowed + [b])[..|overflowed|] == overflowed;
  }

  lemma StepKeepsInv(max: int, r: Run, op: Op)
    requires max != 1 && Inv(max, r)
    ensures Inv(max, Step(max, r, op))
  {
    hide Events, Bursts;
    match op {
      case Pub(event) =>
        PublishKeepsEnd(max, r.sub, r.published, event);
        BurstsSnoc(r.overflowed, Full(max, r.sub.queue));
      case Get => DropKeepsEnd(r.sub.queue, r.published);
    }
  }

  lemma {:induction false} AfterInv(max: int, ops: seq<Op>)
    requires max != 1
    ensures Inv(max, After(max, ops))
  {
    if ops != [] {
      AfterInv(max, ops[..|ops| - 1]);
      StepKeepsInv(max, After(max, ops[..|ops| - 1]), ops[|ops| - 1]);
    }
  }

  /** Over any run of publishes and gets on a queue of any size but one: the bound holds, the
      events waiting are exactly the end of the published stream, and one notice was injected
      for each burst of overflows. */
  lemma BusKeepsNewest(max: int, ops: seq<Op>)
    requires max != 1
    ensures var r := After(max, ops);
            && (0 < max ==> |r.sub.queue| <= max)
            && IsEndOf(Events(r.sub.queue), r.published)
            && r.notices == Bursts(r.overflowed)
  {
    AfterInv(max, ops);
  }

  /** The newest event survives its publish exactly unless the queue has size one, is full,
      and no burst is under way: then the notice takes the only place. */
  lemma NewestSurvivesExactly(max: int, s: Sub, event: Event)
    requires 0 < max ==> |s.queue| <= max
    ensures var q := Publish(max, s, event).queue;
            (q != [] && q[|q| - 1] == Plain(event)) <==> !(max == 1 && |s.queue| == 1 && !s.flagged)
  {
    var room := DropOne(DropOne(s.queue));
    if Full(max, s.queue) && !s.flagged {
      assert |room| == if max == 1 then 0 else max - 2;
    }
  }

  /** Size one: of two publishes in a row the second is lost. */
  lemma SizeOneLosesNewest(a: Event, b: Event)
    ensures After(1, [Pub(a), Pub(b)]).sub.queue == [Notice]
  {
    var ops := [Pub(a), Pub(b)];
    assert ops[..1] == [Pub(a)] && [Pub(a)][..0] == [];
    assert After(1, [Pub(a)]).sub.queue == [Plain(a)];
  }

  /** Where in the published stream the queue begins. */
  function Position(r: Run): int { |r.published| - |Events(r.sub.queue)| }

  /** A get hands out the event at the queue's position, which only ever advances: what a
      consumer sees is the published stream in order, with gaps where events were dropped. */
  lemma ConsumptionIsInOrder(max: int, r: Run, op: Op)
    requires max != 1 && Inv(max, r)
    ensures Position(Step(max, r, op)) >= Position(r)
    ensures op.Get? && r.sub.queue != [] && r.sub.queue[0].Plain? ==>
              && 0 <= Position(r) < |r.published| && r.sub.queue[0].event == r.published[Position(r)]
              && Position(Step(max, r, op)) == Position(r) + 1
  {
    if r.sub.queue != [] {
      EventsDrop(r.sub.queue);
      var one := DropOne(r.sub.queue);
      if r.sub.queue[0].Plain? {
        assert Events(r.sub.queue)[0] == r.sub.queue[0].event;
      }
      if one != [] {
        EventsDrop(one);
      }
      if op.Pub? {
        EventsSnoc(r.sub.queue, Plain(op.event));
        EventsSnoc(one, Plain(op.event));
        EventsSnoc(DropOne(one), Notice);
        EventsSnoc(DropOne(one) + [Notice], Plain(op.event));
      }
    } else if op.Pub? {
      EventsSnoc(r.sub.queue, Plain(op.event));
    }
  }
}
