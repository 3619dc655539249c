/** `web/agent_sessions.py`: what reaches an agent's inbox, and how reads drain it. */
module AgentInbox {
  import opened Text

  const INBOX_MAX: nat := 500
  const DM_TARGET: string := "DM"

  datatype Kind = Chat | Action

  datatype Line = Line(n: nat, target: string, nick: string, text: string, kind: Kind, owner: bool)

  // ---- The receive-side filter -----------------------------------------------------------------

  /** The human's own browser session, as the registry shows it. */
  datatype HumanSession = HumanSession(healthy: bool, connected: bool, nick: string)

  /** What a decision reads: the agent's nick, its human, the human's grants now, and whether a
      text names the agent. */
  datatype Env = Env(me: string, human: Option<HumanSession>, humanNick: string,
                     mayRead: string -> bool, namesMe: string -> bool)

  datatype Message = Message(command: string, prefix: string, params: seq<string>)

  datatype Reason = Addressed | Dm
  datatype Verdict =
    | Ignore
    | Withhold(reason: Reason)
    | Deliver(target: string, nick: string, text: string, kind: Kind, owner: bool)

  predicate StartsWith(s: string, p: string) { |p| <= |s| && s[..|p|] == p }

  const CTCP: string := "\U{0001}"
  const CTCP_ACTION: string := CTCP + "ACTION "

  predicate IsCtcp(text: string) { text != "" && text[0] == CTCP[0] && text[|text| - 1] == CTCP[0] }

  /** Lens state, never nick text: the human's own live session must hold the human's nick. */
  predicate IsOwner(env: Env, sender: string) {
    && env.human.Some? && env.human.value.healthy && env.human.value.connected
    && Lower(env.human.value.nick) == Lower(env.humanNick)
    && Lower(sender) == Lower(env.human.value.nick)
  }

  /** `classify`, before the line gets its number. */
  function Classify(env: Env, sender: string, target: string, raw: string): Verdict {
    if sender == "" || Lower(sender) == Lower(env.me) || StartsWith(sender, "system-") then Ignore
    else if IsCtcp(raw) && !StartsWith(raw, CTCP_ACTION) then Ignore
    else
      var action := IsCtcp(raw) && |raw| > |CTCP_ACTION|;
      var text := if action then raw[|CTCP_ACTION|..|raw| - 1] else raw;
      var kind := if action then Action else Chat;
      var owner := IsOwner(env, sender);
      if StartsWith(target, "#") then
        if !env.mayRead(target) then Ignore
        else if !owner && env.namesMe(text) then Withhold(Addressed)
        else Deliver(target, sender, text, kind, owner)
      else if !owner then Withhold(Dm)
      else Deliver(DM_TARGET, sender, text, kind, owner)
  }

  /** `_on_message` */
  function VerdictOf(env: Env, msg: Message): Verdict {
    if '!' !in msg.prefix || |msg.params| < 2 then Ignore
    else if msg.command == "NOTICE" && StartsWith(msg.params[1], CTCP) then Ignore
    else Classify(env, msg.prefix[..IndexOf(msg.prefix, '!')], msg.params[0], msg.params[1])
  }

  /** Only the owner reaches the agent directly: every other delivered line is from a channel the
      human may read and does not name the agent. */
  lemma OnlyOwnerReaches(env: Env, msg: Message)
    ensures var v := VerdictOf(env, msg);
            v.Deliver? ==>
              && v.owner == IsOwner(env, v.nick)
              && (v.owner ||
                  (StartsWith(v.target, "#") && env.mayRead(v.target) && !env.namesMe(v.text) && v.target == msg.params[0]))
              && (v.target == DM_TARGET ==> v.owner)
  {
    hide Lower;
    assert !StartsWith(DM_TARGET, "#") by {
      assert DM_TARGET[..1][0] == 'D';
    }
  }

  /** What a line of chat says, and whether it is one: not the agent's own, not a system nick's,
      not a CTCP query. */
  predicate IsChat(env: Env, sender: string, raw: string) {
    && sender != "" && Lower(sender) != Lower(env.me) && !StartsWith(sender, "system-")
    && (IsCtcp(raw) ==> StartsWith(raw, CTCP_ACTION))
  }

  /** The filter withholds exactly the direct messages of others and the readable channel lines of
      others that name the agent; every other chat line the human may read is delivered. */
  lemma WithheldExactly(env: Env, sender: string, target: string, raw: string)
    requires IsChat(env, sender, raw)
    ensures var v := Classify(env, sender, target, raw);
            var text := Spoken(raw);
            var channel := StartsWith(target, "#");
            && (v == Withhold(Dm) <==> !channel && !IsOwner(env, sender))
            && (v == Withhold(Addressed) <==> channel && env.mayRead(target) && !IsOwner(env, sender) && env.namesMe(text))
            && (v == Ignore <==> channel && !env.mayRead(target))
            && (v.Deliver? ==> v.nick == sender && v.text == text && v.target == (if channel then target else DM_TARGET))
            && (v.Deliver? && v.kind == Action <==> v.Deliver? && IsCtcp(raw))
  {
    hide Lower, IsOwner;
    if IsCtcp(raw) {
      assert raw[|CTCP_ACTION| - 1] == raw[..|CTCP_ACTION|][|CTCP_ACTION| - 1] == ' ';
    }
  }

  /** Who is taken for the agent's human: nobody unless the human's own browser session is healthy and
      connected and holds the human's nick, and then whoever writes under that nick, case aside. */
  lemma OwnerExactly(env: Env, sender: string)
    ensures env.human == None ==> !IsOwner(env, sender)
    ensures env.human.Some? && !(env.human.value.healthy && env.human.value.connected) ==> !IsOwner(env, sender)
    ensures env.human.Some? && Lower(env.human.value.nick) != Lower(env.humanNick) ==> !IsOwner(env, sender)
    ensures env.human.Some? && env.human.value.healthy && env.human.value.connected
            && Lower(env.human.value.nick) == Lower(env.humanNick) ==>
              (IsOwner(env, sender) <==> Lower(sender) == Lower(env.humanNick))
  {
  }

  /** A line of chat sent to the agent directly is delivered exactly if it comes from its human, whose
      session is live and holds the human's nick; otherwise it is withheld. */
  lemma DirectMessagesExactly(env: Env, sender: string, target: string, raw: string)
    requires IsChat(env, sender, raw) && !StartsWith(target, "#")
    ensures var v := Classify(env, sender, target, raw);
            var fromHuman := && env.human.Some? && env.human.value.healthy && env.human.value.connected
                             && Lower(sender) == Lower(env.human.value.nick) == Lower(env.humanNick);
            && (fromHuman ==> v.Deliver? && v.owner && v.target == "DM" && v.nick == sender && v.text == Spoken(raw))
            && (!fromHuman ==> v == Withhold(Dm))
  {
    WithheldExactly(env, sender, target, raw);
    OwnerExactly(env, sender);
    hide Lower;
  }

  lemma StartsWithExactly(s: string, p: string)
    ensures StartsWith(s, p) <==> exists rest :: s == p + rest
  {
    if StartsWith(s, p) {
      assert s == p + s[|p|..];
    }
  }

  /** How a text is read: wrapped in CTCP marks it is an action if it says so and no chat otherwise;
      any other text is taken as it stands. */
  lemma WrappedExactly(env: Env, sender: string, target: string, said: string)
    requires sender != "" && Lower(sender) != Lower(env.me) && !StartsWith(sender, "system-")
    ensures IsChat(env, sender, CTCP + "ACTION " + said + CTCP)
    ensures Spoken(CTCP + "ACTION " + said + CTCP) == said
    ensures !StartsWith(said, "ACTION ") ==>
              !IsChat(env, sender, CTCP + said + CTCP) && Classify(env, sender, target, CTCP + said + CTCP) == Ignore
    ensures said == "" || said[0] != CTCP[0] || said[|said| - 1] != CTCP[0] ==>
              IsChat(env, sender, said) && Spoken(said) == said
  {
    var action := CTCP + "ACTION " + said + CTCP;
    assert action[..|CTCP_ACTION|] == CTCP_ACTION && action[|CTCP_ACTION|..|action| - 1] == said;
    var other := CTCP + said + CTCP;
    if !StartsWith(said, "ACTION ") && StartsWith(other, CTCP_ACTION) {
      NoActionInside(said);
    }
  }

  lemma NoActionInside(said: string)
    requires StartsWith(CTCP + said + CTCP, CTCP_ACTION)
    ensures StartsWith(said, "ACTION ")
  {
    var other := CTCP + said + CTCP;
    assert other[..8] == CTCP_ACTION && |other| == |said| + 2;
    assert other[..8][7] == other[7] == ' ' && other[|said| + 1] == CTCP[0];
    assert |said| + 1 != 7;
    forall i | 0 <= i < 7
      ensures said[i] == "ACTION "[i]
    {
      assert other[..8][i + 1] == other[i + 1] == said[i] && CTCP_ACTION[i + 1] == "ACTION "[i];
    }
    assert said[..7] == "ACTION ";
  }

  /** What is said: the text, or what a CTCP ACTION wraps. */
  function Spoken(raw: string): string {
    if IsCtcp(raw) && |raw| > |CTCP_ACTION| then raw[|CTCP_ACTION|..|raw| - 1] else raw
  }

  /** A delivery across humans: chat of somebody who is not the agent's human, either sent to the agent
      directly or naming it in a channel its human may read. */
  predicate CrossHuman(env: Env, msg: Message) {
    && '!' in msg.prefix && |msg.params| >= 2
    && !(msg.command == "NOTICE" && StartsWith(msg.params[1], CTCP))
    && var sender := msg.prefix[..IndexOf(msg.prefix, '!')];
       var target, raw := msg.params[0], msg.params[1];
       && IsChat(env, sender, raw) && !IsOwner(env, sender)
       && (StartsWith(target, "#") ==> env.mayRead(target) && env.namesMe(Spoken(raw)))
  }

  lemma WithheldIsCrossHuman(env: Env, msg: Message)
    ensures VerdictOf(env, msg).Withhold? <==> CrossHuman(env, msg)
  {
    hide Lower, IsOwner, StartsWith;
    if '!' in msg.prefix && |msg.params| >= 2 {
      var sender := msg.prefix[..IndexOf(msg.prefix, '!')];
      if IsChat(env, sender, msg.params[1]) {
        WithheldExactly(env, sender, msg.params[0], msg.params[1]);
        hide Classify, IsChat, IsCtcp;
      }
    }
  }

  // ---- The inbox ---------------------------------------------------------------------------------

  type Seen = map<string, nat>

  function Get(seen: Seen, target: string): nat { if target in seen then seen[target] else 0 }

  datatype State = State(inbox: seq<Line>, last: nat, seen: Seen)

  const EMPTY: State := State([], 0, map[])

  /** A bounded deque: appending to a full one drops the oldest line. */
  function Append(inbox: seq<Line>, line: Line): seq<Line> {
    if |inbox| >= INBOX_MAX then inbox[|inbox| - INBOX_MAX + 1..] + [line] else inbox + [line]
  }

  function Arrive(s: State, v: Verdict): State {
    if !v.Deliver? then s
    else State(Append(s.inbox, Line(s.last + 1, v.target, v.nick, v.text, v.kind, v.owner)), s.last + 1, s.seen)
  }

  predicate Unread(ln: Line, seen: Seen, target: string) {
    ln.n > Get(seen, ln.target) && (target == "" || ln.target == target)
  }

  predicate Visible(ln: Line, may: string -> bool) { ln.target == DM_TARGET || may(ln.target) }

  /** The unread lines a read with this filter would come to, oldest first. */
  function Pending(inbox: seq<Line>, seen: Seen, target: string): seq<Line> {
    if inbox == [] then []
    else (if Unread(inbox[0], seen, target) then [inbox[0]] else []) + Pending(inbox[1..], seen, target)
  }

  function VisibleOf(lines: seq<Line>, may: string -> bool): seq<Line> {
    if lines == [] then []
    else
      var n := |lines| - 1;
      VisibleOf(lines[..n], may) + (if Visible(lines[n], may) then [lines[n]] else [])
  }

  /** How far a read gets: to the `limit`-th visible line, or the end. */
  function Reach(lines: seq<Line>, limit: nat, may: string -> bool): (k: nat)
    ensures k <= |lines|
  {
    if lines == [] || limit == 0 then 0
    else 1 + Reach(lines[1..], if Visible(lines[0], may) then limit - 1 else limit, may)
  }

  /** The watermarks after coming to `lines` in turn. */
  function Mark(seen: Seen, lines: seq<Line>): Seen {
    if lines == [] then seen
    else Mark(seen, lines[..|lines| - 1])[lines[|lines| - 1].target := lines[|lines| - 1].n]
  }

  function Clamp(limit: int): nat {
    if limit < 1 then 1 else if limit > INBOX_MAX then INBOX_MAX else limit
  }

  /** The lines a read comes to (it marks them all, and returns the visible ones). */
  function Reached(s: State, target: string, limit: int, may: string -> bool): seq<Line> {
    var pending := Pending(s.inbox, s.seen, target);
    pending[..Reach(pending, Clamp(limit), may)]
  }

  // ---- Numbers only grow ------------------------------------------------------------------------

  predicate AllAbove(lines: seq<Line>, n: nat) { forall i | 0 <= i < |lines| :: lines[i].n > n }

  predicate AllAtMost(lines: seq<Line>, n: nat) { forall i | 0 <= i < |lines| :: lines[i].n <= n }

  predicate Sorted(lines: seq<Line>) {
    lines != [] ==> AllAbove(lines[1..], lines[0].n) && Sorted(lines[1..])
  }

  predicate Inv(s: State) {
    Sorted(s.inbox) && AllAtMost(s.inbox, s.last) && forall t | t in s.seen :: s.seen[t] <= s.last
  }

  lemma {:induction false} SortedSnoc(lines: seq<Line>, ln: Line)
    requires Sorted(lines) && (forall i | 0 <= i < |lines| :: lines[i].n < ln.n)
    ensures Sorted(lines + [ln])
  {
    if lines != [] {
      assert (lines + [ln])[1..] == lines[1..] + [ln];
      SortedSnoc(lines[1..], ln);
    }
  }

  lemma {:induction false} SortedDrop(lines: seq<Line>, k: nat)
    requires Sorted(lines) && k <= |lines|
    ensures Sorted(lines[k..])
  {
    if k > 0 {
      SortedDrop(lines[1..], k - 1);
      assert lines[1..][k - 1..] == lines[k..];
    }
  }

  lemma ArriveKeepsInv(s: State, v: Verdict)
    requires Inv(s)
    ensures Inv(Arrive(s, v))
  {
    if v.Deliver? {
      var k := if |s.inbox| >= INBOX_MAX then |s.inbox| - INBOX_MAX + 1 else 0;
      SortedDrop(s.inbox, k);
      assert s.inbox[0..] == s.inbox;
      SortedSnoc(s.inbox[k..], Line(s.last + 1, v.target, v.nick, v.text, v.kind, v.owner));
    }
  }

  /** The inbox holds exactly the newest lines, at most 500 of them, ending with the new one. */
  lemma AppendKeepsNewest(inbox: seq<Line>, line: Line)
    requires |inbox| <= INBOX_MAX
    ensures var all := inbox + [line];
            Append(inbox, line) == if |all| <= INBOX_MAX then all else all[|all| - INBOX_MAX..]
  {
    var all := inbox + [line];
    if |all| > INBOX_MAX {
      assert all[|all| - INBOX_MAX..] == inbox[1..] + [line];
    }
  }

  // ---- What a read does --------------------------------------------------------------------------

  lemma {:induction false} PendingIsUnread(inbox: seq<Line>, seen: Seen, target: string)
    ensures forall ln | ln in Pending(inbox, seen, target) :: ln in inbox && Unread(ln, seen, target)
    ensures forall ln | ln in inbox && Unread(ln, seen, target) :: ln in Pending(inbox, seen, target)
  {
    if inbox != [] {
      PendingIsUnread(inbox[1..], seen, target);
      assert forall ln :: ln in inbox <==> ln == inbox[0] || ln in inbox[1..];
    }
  }

  lemma {:induction false} PendingSorted(inbox: seq<Line>, seen: Seen, target: string)
    requires Sorted(inbox)
    ensures Sorted(Pending(inbox, seen, target))
  {
    if inbox != [] {
      PendingSorted(inbox[1..], seen, target);
      PendingIsUnread(inbox[1..], seen, target);
      var rest := Pending(inbox[1..], seen, target);
      assert AllAbove(rest, inbox[0].n) by {
        forall i | 0 <= i < |rest| ensures rest[i].n > inbox[0].n {
          assert rest[i] in inbox[1..];
        }
      }
      assert ([inbox[0]] + rest)[1..] == rest && [] + rest == rest;
    }
  }

  /** A delivered line is unread, and comes last. */
  lemma NewLineIsUnread(s: State, v: Verdict)
    requires Inv(s) && v.Deliver?
    ensures var s' := Arrive(s, v);
            var line := Line(s.last + 1, v.target, v.nick, v.text, v.kind, v.owner);
            var pending := Pending(s'.inbox, s'.seen, "");
            pending != [] && pending[|pending| - 1] == line
  {
    var line := Line(s.last + 1, v.target, v.nick, v.text, v.kind, v.owner);
    var kept := Arrive(s, v).inbox;
    PendingSnoc(kept[..|kept| - 1], s.seen, "", line);
    assert kept == kept[..|kept| - 1] + [line];
  }

  lemma {:induction false} PendingSnoc(inbox: seq<Line>, seen: Seen, target: string, ln: Line)
    ensures Pending(inbox + [ln], seen, target)
         == Pending(inbox, seen, target) + (if Unread(ln, seen, target) then [ln] else [])
  {
    hide Unread;
    var more := if Unread(ln, seen, target) then [ln] else [];
    if inbox == [] {
      assert inbox + [ln] == [ln] && [ln][1..] == [];
      assert more + [] == more && [] + more == more;
    } else {
      PendingSnoc(inbox[1..], seen, target, ln);
      assert (inbox + [ln])[1..] == inbox[1..] + [ln] && (inbox + [ln])[0] == inbox[0];
      Assoc(if Unread(inbox[0], seen, target) then [inbox[0]] else [], Pending(inbox[1..], seen, target), more);
    }
  }

  lemma Assoc(a: seq<Line>, b: seq<Line>, c: seq<Line>)
    ensures a + (b + c) == a + b + c
  {
  }

  /** Coming to one line leaves the later ones as unread as they were. */
  lemma {:induction false} MarkOneKeepsLater(rest: seq<Line>, seen: Seen, target: string, ln: Line)
    requires AllAbove(rest, ln.n) && ln.n > Get(seen, ln.target)
    ensures Pending(rest, seen[ln.target := ln.n], target) == Pending(rest, seen, target)
  {
    if rest != [] {
      assert rest[0].n > ln.n;
      assert AllAbove(rest[1..], ln.n);
      MarkOneKeepsLater(rest[1..], seen, target, ln);
    }
  }

  lemma {:induction false} MarkCons(seen: Seen, ln: Line, rest: seq<Line>)
    ensures Mark(seen, [ln] + rest) == Mark(seen[ln.target := ln.n], rest)
  {
    var all := [ln] + rest;
    if rest == [] {
      assert all == [ln];
    } else {
      var n := |rest| - 1;
      MarkCons(seen, ln, rest[..n]);
      assert all[..|all| - 1] == [ln] + rest[..n];
    }
  }

  /** Watermarks rise to lines the read came to, and to no others. */
  lemma {:induction false} MarkBounds(seen: Seen, lines: seq<Line>, target: string, t: string)
    requires Sorted(lines) && (forall ln | ln in lines :: Unread(ln, seen, target))
    ensures Get(Mark(seen, lines), t) >= Get(seen, t)
    ensures target != "" && t != target ==> Get(Mark(seen, lines), t) == Get(seen, t)
    decreases |lines|
  {
    if lines != [] {
      var ln, rest := lines[0], lines[1..];
      assert lines == [ln] + rest;
      MarkCons(seen, ln, rest);
      assert Unread(ln, seen, target);
      var seen' := seen[ln.target := ln.n];
      forall x | x in rest ensures Unread(x, seen', target) {
        assert x in lines && x.n > ln.n;
      }
      MarkBounds(seen', rest, target, t);
    }
  }

  /** After coming to the first `k` pending lines, a line of the inbox counts as read exactly when
      it did before or is one of them. */
  lemma {:induction false} MarkMeaning(inbox: seq<Line>, seen: Seen, target: string, k: nat, ln: Line)
    requires Sorted(inbox) && ln in inbox && k <= |Pending(inbox, seen, target)|
    ensures ln.n <= Get(Mark(seen, Pending(inbox, seen, target)[..k]), ln.target)
            <==> ln.n <= Get(seen, ln.target) || ln in Pending(inbox, seen, target)[..k]
    decreases |inbox|
  {
    var first, rest := inbox[0], inbox[1..];
    var pending := Pending(inbox, seen, target);
    if k == 0 {
      assert pending[..k] == [];
    } else if !Unread(first, seen, target) {
      assert pending == Pending(rest, seen, target);
      if ln in rest {
        MarkMeaning(rest, seen, target, k, ln);
      } else {
        NotReachedStays(inbox, seen, target, k, first);
      }
    } else {
      assert pending == [first] + Pending(rest, seen, target);
      FirstReached(inbox, seen, target, k, ln);
    }
  }

  lemma NotReachedStays(inbox: seq<Line>, seen: Seen, target: string, k: nat, ln: Line)
    requires Sorted(inbox) && k <= |Pending(inbox, seen, target)| && !Unread(ln, seen, target)
    ensures ln !in Pending(inbox, seen, target)[..k]
    ensures ln.n <= Get(Mark(seen, Pending(inbox, seen, target)[..k]), ln.target) <==> ln.n <= Get(seen, ln.target)
  {
    PendingIsUnread(inbox, seen, target);
    PendingSorted(inbox, seen, target);
    var pending := Pending(inbox, seen, target);
    SortedPrefix(pending, k);
    forall x | x in pending[..k] ensures Unread(x, seen, target) {
      assert x in pending;
    }
    MarkBounds(seen, pending[..k], target, ln.target);
  }

  lemma {:induction false} SortedPrefix(lines: seq<Line>, k: nat)
    requires Sorted(lines) && k <= |lines|
    ensures Sorted(lines[..k])
  {
    if k > 0 {
      SortedPrefix(lines[1..], k - 1);
      assert lines[..k][1..] == lines[1..][..k - 1];
    }
  }

  lemma SplitFirst(inbox: seq<Line>, seen: Seen, target: string, k: nat)
    requires Sorted(inbox) && inbox != [] && 0 < k <= |Pending(inbox, seen, target)| && Unread(inbox[0], seen, target)
    ensures var seen' := seen[inbox[0].target := inbox[0].n];
            var pending, later := Pending(inbox, seen, target), Pending(inbox[1..], seen', target);
            && k - 1 <= |later| && pending[..k] == [inbox[0]] + later[..k - 1] && pending[k..] == later[k - 1..]
            && Mark(seen, pending[..k]) == Mark(seen', later[..k - 1])
  {
    var first, rest := inbox[0], inbox[1..];
    var later := Pending(rest, seen, target);
    assert AllAbove(rest, first.n);
    MarkOneKeepsLater(rest, seen, target, first);
    assert Pending(inbox, seen, target) == [first] + later;
    hide Pending, Mark, Sorted, Unread, AllAbove;
    assert ([first] + later)[..k] == [first] + later[..k - 1] && ([first] + later)[k..] == later[k - 1..];
    MarkCons(seen, first, later[..k - 1]);
  }

  lemma FirstReached(inbox: seq<Line>, seen: Seen, target: string, k: nat, ln: Line)
    requires Sorted(inbox) && ln in inbox && 0 < k <= |Pending(inbox, seen, target)|
    requires Unread(inbox[0], seen, target)
    ensures ln.n <= Get(Mark(seen, Pending(inbox, seen, target)[..k]), ln.target)
            <==> ln.n <= Get(seen, ln.target) || ln in Pending(inbox, seen, target)[..k]
    decreases |inbox|, 0
  {
    hide Pending, Mark;
    var first, rest := inbox[0], inbox[1..];
    var seen' := seen[first.target := first.n];
    SplitFirst(inbox, seen, target, k);
    if ln in rest {
      assert ln.n > first.n;
      MarkMeaning(rest, seen', target, k - 1, ln);
    } else {
      NotReachedStays(rest, seen', target, k - 1, first);
    }
  }

  /** What is left pending after coming to the first `k` lines is exactly the rest of them. */
  lemma {:induction false} RestStaysPending(inbox: seq<Line>, seen: Seen, target: string, k: nat)
    requires Sorted(inbox) && k <= |Pending(inbox, seen, target)|
    ensures Pending(inbox, Mark(seen, Pending(inbox, seen, target)[..k]), target) == Pending(inbox, seen, target)[k..]
    decreases |inbox|
  {
    var pending := Pending(inbox, seen, target);
    if k == 0 {
      assert pending[..k] == [] && pending[k..] == pending;
    } else {
      var first, rest := inbox[0], inbox[1..];
      var seen' := Mark(seen, pending[..k]);
      MarkMeaning(inbox, seen, target, k, first);
      if !Unread(first, seen, target) {
        assert pending == Pending(rest, seen, target);
        NotReachedStays(inbox, seen, target, k, first);
        RestStaysPending(rest, seen, target, k);
      } else {
        SplitFirst(inbox, seen, target, k);
        assert pending[..k][0] == first;
        RestStaysPending(rest, seen[first.target := first.n], target, k - 1);
      }
    }
  }

  function Read(s: State, target: string, limit: int, may: string -> bool): State {
    s.(seen := Mark(s.seen, Reached(s, target, limit, may)))
  }

  function Returned(s: State, target: string, limit: int, may: string -> bool): seq<Line> {
    VisibleOf(Reached(s, target, limit, may), may)
  }

  lemma {:induction false} VisibleOfCons(ln: Line, rest: seq<Line>, may: string -> bool)
    ensures VisibleOf([ln] + rest, may) == (if Visible(ln, may) then [ln] else []) + VisibleOf(rest, may)
  {
    var all := [ln] + rest;
    if rest == [] {
      assert all == [ln] && all[..0] == [];
    } else {
      var n := |rest| - 1;
      VisibleOfCons(ln, rest[..n], may);
      assert all[..|all| - 1] == [ln] + rest[..n];
    }
  }

  lemma {:induction false} ReachCounts(lines: seq<Line>, limit: nat, may: string -> bool)
    ensures var k := Reach(lines, limit, may);
            && |VisibleOf(lines[..k], may)| <= limit
            && (k < |lines| ==> |VisibleOf(lines[..k], may)| == limit)
  {
    var k := Reach(lines, limit, may);
    if k > 0 {
      var limit' := if Visible(lines[0], may) then limit - 1 else limit;
      ReachCounts(lines[1..], limit', may);
      assert lines[..k] == [lines[0]] + lines[1..][..k - 1];
      VisibleOfCons(lines[0], lines[1..][..k - 1], may);
    } else {
      assert lines[..k] == [];
    }
  }

  /** A read comes to the oldest unread lines of its filter, returns at most `limit` of them, the
      visible ones in order, leaves exactly the others for later, and stops early only when it
      has `limit` lines. */
  lemma ReadTakesOldest(s: State, target: string, limit: int, may: string -> bool)
    requires Inv(s)
    ensures var pending, reached := Pending(s.inbox, s.seen, target), Reached(s, target, limit, may);
            && pending == reached + Pending(s.inbox, Read(s, target, limit, may).seen, target)
            && |Returned(s, target, limit, may)| <= Clamp(limit)
            && (|reached| < |pending| ==> |Returned(s, target, limit, may)| == Clamp(limit))
            && Sorted(pending)
  {
    var pending := Pending(s.inbox, s.seen, target);
    var k := Reach(pending, Clamp(limit), may);
    RestStaysPending(s.inbox, s.seen, target, k);
    ReachCounts(pending, Clamp(limit), may);
    PendingSorted(s.inbox, s.seen, target);
    hide Pending, Mark, Sorted, VisibleOf, Reach;
    assert pending == pending[..k] + pending[k..];
  }

  /** Of the lines a read comes to it returns the direct messages and the lines of channels the human
      may read now, and no others; and it returns between 1 and 500 lines' worth at most. */
  lemma ReadReturnsReadable(s: State, target: string, limit: int, may: string -> bool, ln: Line)
    ensures ln in Returned(s, target, limit, may)
        <==> ln in Reached(s, target, limit, may) && (ln.target == "DM" || may(ln.target))
    ensures Clamp(limit) == if 1 <= limit <= 500 then limit else if limit < 1 then 1 else 500
  {
    VisibleOfMembers(Reached(s, target, limit, may), may);
  }

  lemma {:induction false} MarkStaysSmall(seen: Seen, lines: seq<Line>, n: nat)
    requires (forall t | t in seen :: seen[t] <= n) && AllAtMost(lines, n)
    ensures forall t | t in Mark(seen, lines) :: Mark(seen, lines)[t] <= n
  {
    if lines != [] {
      MarkStaysSmall(seen, lines[..|lines| - 1], n);
    }
  }

  lemma ReadKeepsInv(s: State, target: string, limit: int, may: string -> bool)
    requires Inv(s)
    ensures Inv(Read(s, target, limit, may))
  {
    var reached := Reached(s, target, limit, may);
    PendingIsUnread(s.inbox, s.seen, target);
    forall i | 0 <= i < |reached| ensures reached[i].n <= s.last {
      assert reached[i] in Pending(s.inbox, s.seen, target);
      assert reached[i] in s.inbox;
    }
    MarkStaysSmall(s.seen, reached, s.last);
  }

  // ---- Runs --------------------------------------------------------------------------------------

  datatype Event =
    | Received(env: Env, msg: Message)
    | Reading(target: string, limit: int, may: string -> bool)

  function Step(s: State, e: Event): State {
    match e
    case Received(env, msg) => Arrive(s, VerdictOf(env, msg))
    case Reading(target, limit, may) => Read(s, target, limit, may)
  }

  function After(events: seq<Event>): State {
    if events == [] then EMPTY else Step(After(events[..|events| - 1]), events[|events| - 1])
  }

  function LinesOf(s: State, e: Event): seq<Line> {
    if e.Reading? then Returned(s, e.target, e.limit, e.may) else []
  }

  /** Everything the reads of the run returned, in order. */
  function AllReturned(events: seq<Event>): seq<Line> {
    if events == [] then []
    else
      var before := events[..|events| - 1];
      AllReturned(before) + LinesOf(After(before), events[|events| - 1])
  }

  /** The lines some read came to and passed over, as the human could no longer see them. */
  function PassedOver(events: seq<Event>): set<Line> {
    if events == [] then {}
    else
      var before, e := events[..|events| - 1], events[|events| - 1];
      var s := After(before);
      PassedOver(before)
      + (if e.Reading? then set ln | ln in Reached(s, e.target, e.limit, e.may) && !Visible(ln, e.may) else {})
  }

  /** A line is behind its watermark exactly when a read came to it. */
  ghost predicate History(s: State, returned: seq<Line>, passed: set<Line>) {
    && Inv(s)
    && (forall ln | ln in returned || ln in passed :: ln.n <= Get(s.seen, ln.target) && ln.n <= s.last)
    && (forall ln | ln in s.inbox :: ln.n <= Get(s.seen, ln.target) ==> ln in returned || ln in passed)
  }

  lemma {:induction false} VisibleOfMembers(lines: seq<Line>, may: string -> bool)
    ensures forall ln :: ln in VisibleOf(lines, may) <==> ln in lines && Visible(ln, may)
  {
    if lines != [] {
      var n := |lines| - 1;
      VisibleOfMembers(lines[..n], may);
      assert lines == lines[..n] + [lines[n]];
    }
  }

  lemma ArriveKeepsHistory(s: State, v: Verdict, returned: seq<Line>, passed: set<Line>)
    requires History(s, returned, passed)
    ensures History(Arrive(s, v), returned, passed)
  {
    ArriveKeepsInv(s, v);
    assert v.Deliver? ==> s.last + 1 > Get(s.seen, v.target);
    hide Inv;
  }

  lemma ReadKeepsHistory(s: State, target: string, limit: int, may: string -> bool, returned: seq<Line>, passed: set<Line>)
    requires History(s, returned, passed)
    ensures var reached := Reached(s, target, limit, may);
            History(Read(s, target, limit, may), returned + Returned(s, target, limit, may),
                    passed + set ln | ln in reached && !Visible(ln, may))
  {
    var reached := Reached(s, target, limit, may);
    var pending := Pending(s.inbox, s.seen, target);
    var k := Reach(pending, Clamp(limit), may);
    var s' := Read(s, target, limit, may);
    ReadKeepsInv(s, target, limit, may);
    VisibleOfMembers(reached, may);
    PendingIsUnread(s.inbox, s.seen, target);
    PendingSorted(s.inbox, s.seen, target);
    SortedPrefix(pending, k);
    forall x | x in reached
      ensures x in s.inbox && Unread(x, s.seen, target)
    {
      assert x in pending;
    }
    var returned' := returned + Returned(s, target, limit, may);
    var passed' := passed + set ln | ln in reached && !Visible(ln, may);
    forall ln | ln in returned' || ln in passed'
      ensures ln.n <= Get(s'.seen, ln.target) && ln.n <= s'.last
    {
      if ln in reached {
        MarkMeaning(s.inbox, s.seen, target, k, ln);
      } else {
        MarkBounds(s.seen, reached, target, ln.target);
      }
    }
    forall ln | ln in s.inbox && ln.n <= Get(s'.seen, ln.target)
      ensures ln in returned' || ln in passed'
    {
      MarkMeaning(s.inbox, s.seen, target, k, ln);
    }
  }

  lemma {:induction false} HistoryHolds(events: seq<Event>)
    ensures History(After(events), AllReturned(events), PassedOver(events))
  {
    if events != [] {
      var n := |events| - 1;
      HistoryHolds(events[..n]);
      var s, e := After(events[..n]), events[n];
      hide History;
      if e.Reading? {
        ReadKeepsHistory(s, e.target, e.limit, e.may, AllReturned(events[..n]), PassedOver(events[..n]));
      } else {
        ArriveKeepsHistory(s, VerdictOf(e.env, e.msg), AllReturned(events[..n]), PassedOver(events[..n]));
        assert AllReturned(events) == AllReturned(events[..n]);
      }
    }
  }

  predicate Distinct(lines: seq<Line>) {
    lines != [] ==> Distinct(lines[..|lines| - 1]) && lines[|lines| - 1] !in lines[..|lines| - 1]
  }

  lemma {:induction false} DistinctAppend(a: seq<Line>, b: seq<Line>)
    requires Distinct(a) && Distinct(b) && (forall ln | ln in b :: ln !in a)
    ensures Distinct(a + b)
  {
    if b == [] {
      assert a + b == a;
    } else {
      var n := |b| - 1;
      DistinctAppend(a, b[..n]);
      assert (a + b)[..|a + b| - 1] == a + b[..n];
      assert b[n] in b;
    }
  }

  lemma {:induction false} VisibleDistinct(lines: seq<Line>, may: string -> bool)
    requires Sorted(lines)
    ensures Distinct(VisibleOf(lines, may))
    decreases |lines|
  {
    if lines != [] {
      var n := |lines| - 1;
      SortedPrefix(lines, n);
      VisibleDistinct(lines[..n], may);
      VisibleOfMembers(lines[..n], may);
      LastAbove(lines);
      var rest := VisibleOf(lines[..n], may);
      if Visible(lines[n], may) {
        assert (rest + [lines[n]])[..|rest|] == rest;
      } else {
        assert rest + [] == rest;
      }
    }
  }

  lemma {:induction false} LastAbove(lines: seq<Line>)
    requires Sorted(lines) && lines != []
    ensures forall i | 0 <= i < |lines| - 1 :: lines[i].n < lines[|lines| - 1].n
    decreases |lines|
  {
    if |lines| > 1 {
      LastAbove(lines[1..]);
      forall i | 0 <= i < |lines| - 1 ensures lines[i].n < lines[|lines| - 1].n {
        if i == 0 {
          assert lines[|lines| - 1] == lines[1..][|lines| - 2];
        } else {
          assert lines[i] == lines[1..][i - 1];
        }
      }
    }
  }

  /** Over any interleaving of arrivals, evictions and reads, no line is returned twice. */
  lemma {:induction false} EachLineAtMostOnce(events: seq<Event>)
    ensures Distinct(AllReturned(events))
  {
    if events != [] {
      var n := |events| - 1;
      EachLineAtMostOnce(events[..n]);
      HistoryHolds(events[..n]);
      var s, e := After(events[..n]), events[n];
      if e.Reading? {
        OneReadIsNew(s, e.target, e.limit, e.may, AllReturned(events[..n]), PassedOver(events[..n]));
        DistinctAppend(AllReturned(events[..n]), Returned(s, e.target, e.limit, e.may));
      } else {
        assert AllReturned(events) == AllReturned(events[..n]);
      }
    }
  }

  lemma OneReadIsNew(s: State, target: string, limit: int, may: string -> bool, returned: seq<Line>, passed: set<Line>)
    requires History(s, returned, passed)
    ensures Distinct(Returned(s, target, limit, may))
    ensures forall ln | ln in Returned(s, target, limit, may) :: ln !in returned
  {
    var pending, reached := Pending(s.inbox, s.seen, target), Reached(s, target, limit, may);
    PendingSorted(s.inbox, s.seen, target);
    PendingIsUnread(s.inbox, s.seen, target);
    SortedPrefix(pending, |reached|);
    VisibleDistinct(reached, may);
    VisibleOfMembers(reached, may);
    forall ln | ln in Returned(s, target, limit, may) ensures ln !in returned {
      assert ln in pending;
    }
  }

  /** A line still in the inbox is behind its watermark exactly when it was returned, or was
      unreadable when a read came to it; so a line cut off by a limit stays unread. */
  lemma WatermarkMeaning(events: seq<Event>, ln: Line)
    requires ln in After(events).inbox
    ensures ln.n <= Get(After(events).seen, ln.target) <==> ln in AllReturned(events) || ln in PassedOver(events)
  {
    HistoryHolds(events);
  }

  /** `n` reads in a row with the same filter and grants. */
  function Drain(s: State, target: string, limit: int, may: string -> bool, n: nat): seq<Line>
    decreases n
  {
    if n == 0 then []
    else Returned(s, target, limit, may) + Drain(Read(s, target, limit, may), target, limit, may, n - 1)
  }

  lemma DrainStep(s: State, target: string, limit: int, may: string -> bool, n: nat)
    requires n > 0
    ensures Drain(s, target, limit, may, n)
         == Returned(s, target, limit, may) + Drain(Read(s, target, limit, may), target, limit, may, n - 1)
  {
    hide Read, Returned;
  }

  /** Cut-off lines come back: repeated reads return every visible unread line, oldest first. */
  lemma {:induction false} DrainReturnsAll(s: State, target: string, limit: int, may: string -> bool, n: nat)
    requires Inv(s) && n >= |Pending(s.inbox, s.seen, target)|
    ensures Drain(s, target, limit, may, n) == VisibleOf(Pending(s.inbox, s.seen, target), may)
    decreases n
  {
    if n == 0 {
      assert Pending(s.inbox, s.seen, target) == [];
      hide Pending;
    } else {
      DrainStep(s, target, limit, may, n);
      PendingShrinks(s, target, limit, may);
      ReadKeepsInv(s, target, limit, may);
      hide Drain, Read, Pending, Reached, Inv, VisibleOf;
      var s' := Read(s, target, limit, may);
      DrainReturnsAll(s', target, limit, may, n - 1);
      VisibleOfAppend(Reached(s, target, limit, may), Pending(s'.inbox, s'.seen, target), may);
    }
  }

  lemma PendingShrinks(s: State, target: string, limit: int, may: string -> bool)
    requires Inv(s)
    ensures var pending, s' := Pending(s.inbox, s.seen, target), Read(s, target, limit, may);
            var rest := Pending(s'.inbox, s'.seen, target);
            && pending == Reached(s, target, limit, may) + rest
            && (pending != [] ==> |rest| < |pending|)
  {
    ReadMakesProgress(s, target, limit, may);
    ReadTakesOldest(s, target, limit, may);
    hide Pending, Reached, Inv, Mark;
  }

  lemma ReadMakesProgress(s: State, target: string, limit: int, may: string -> bool)
    ensures Pending(s.inbox, s.seen, target) != [] ==> Reached(s, target, limit, may) != []
  {
  }

  lemma {:induction false} VisibleOfAppend(a: seq<Line>, b: seq<Line>, may: string -> bool)
    ensures VisibleOf(a + b, may) == VisibleOf(a, may) + VisibleOf(b, may)
  {
    if b == [] {
      assert a + b == a;
    } else {
      var n := |b| - 1;
      VisibleOfAppend(a, b[..n], may);
      assert (a + b)[..|a + b| - 1] == a + b[..n];
    }
  }

  // ---- What is in the inbox ------------------------------------------------------------------------

  /** The lines the filter let through, numbered in order of arrival. */
  function Delivered(events: seq<Event>): seq<Line> {
    if events == [] then []
    else
      var before, e := Delivered(events[..|events| - 1]), events[|events| - 1];
      if !e.Received? || !VerdictOf(e.env, e.msg).Deliver? then before
      else
        var v := VerdictOf(e.env, e.msg);
        before + [Line(|before| + 1, v.target, v.nick, v.text, v.kind, v.owner)]
  }

  function Newest(lines: seq<Line>): seq<Line> {
    if |lines| <= INBOX_MAX then lines else lines[|lines| - INBOX_MAX..]
  }

  lemma NewestSnoc(lines: seq<Line>, ln: Line)
    ensures Append(Newest(lines), ln) == Newest(lines + [ln])
  {
    AppendKeepsNewest(Newest(lines), ln);
    var all := lines + [ln];
    if |all| > INBOX_MAX {
      var kept := Newest(lines) + [ln];
      assert kept[|kept| - INBOX_MAX..] == all[|all| - INBOX_MAX..];
    }
  }

  lemma {:induction false} InboxIsNewest(events: seq<Event>)
    ensures After(events).inbox == Newest(Delivered(events)) && After(events).last == |Delivered(events)|
  {
    if events != [] {
      hide VerdictOf, Append, Newest, Reached, Mark;
      var n := |events| - 1;
      InboxIsNewest(events[..n]);
      var e, before := events[n], Delivered(events[..n]);
      if e.Received? && VerdictOf(e.env, e.msg).Deliver? {
        var v := VerdictOf(e.env, e.msg);
        NewestSnoc(before, Line(|before| + 1, v.target, v.nick, v.text, v.kind, v.owner));
      }
    } else {
      assert Newest([]) == [];
    }
  }

  /** Whatever was read in between, the inbox is exactly the newest 500 delivered lines: nothing is
      lost but by eviction, and nothing else gets in. */
  lemma InboxIsNewestDelivered(events: seq<Event>)
    ensures var all := Delivered(events);
            After(events).inbox == (if |all| <= 500 then all else all[|all| - 500..]) && After(events).last == |all|
  {
    InboxIsNewest(events);
  }

  // ---- What was withheld -----------------------------------------------------------------------------

  /** The counter `withheld` after a run. */
  function WithheldCount(events: seq<Event>): nat {
    if events == [] then 0
    else
      var e := events[|events| - 1];
      WithheldCount(events[..|events| - 1])
      + (if e.Received? && VerdictOf(e.env, e.msg).Withhold? then 1 else 0)
  }

  function CrossHumanIn(events: seq<Event>): set<nat> {
    set i: nat | i < |events| && events[i].Received? && CrossHuman(events[i].env, events[i].msg)
  }

  /** Over any run, the counter is the number of messages received so far that were deliveries across
      humans, whatever was read or evicted in between. */
  lemma {:induction false} WithheldCountsCrossHuman(events: seq<Event>)
    ensures WithheldCount(events) == |CrossHumanIn(events)|
  {
    hide VerdictOf, CrossHuman;
    if events != [] {
      var n := |events| - 1;
      WithheldCountsCrossHuman(events[..n]);
      var e := events[n];
      if e.Received? {
        WithheldIsCrossHuman(e.env, e.msg);
      }
      var more := if e.Received? && CrossHuman(e.env, e.msg) then {n} else {};
      assert CrossHumanIn(events) == CrossHumanIn(events[..n]) + more;
    } else {
      assert CrossHumanIn(events) == {};
    }
  }

  // ---- Nothing withheld is ever read ---------------------------------------------------------------

  /** Some received message was delivered as this line. */
  predicate Warranted(events: seq<Event>, ln: Line) {
    exists i :: 0 <= i < |events| && events[i].Received?
             && VerdictOf(events[i].env, events[i].msg) == Deliver(ln.target, ln.nick, ln.text, ln.kind, ln.owner)
  }

  lemma WarrantLasts(events: seq<Event>, n: nat, ln: Line)
    requires n <= |events| && Warranted(events[..n], ln)
    ensures Warranted(events, ln)
  {
    var i :| 0 <= i < n && events[..n][i].Received?
          && VerdictOf(events[..n][i].env, events[..n][i].msg) == Deliver(ln.target, ln.nick, ln.text, ln.kind, ln.owner);
    assert events[i].Received?;
  }

  lemma JustDelivered(events: seq<Event>, ln: Line)
    requires events != [] && events[|events| - 1].Received?
    requires var e := events[|events| - 1];
             VerdictOf(e.env, e.msg) == Deliver(ln.target, ln.nick, ln.text, ln.kind, ln.owner)
    ensures Warranted(events, ln)
  {
  }

  lemma {:induction false} InboxIsWarranted(events: seq<Event>, ln: Line)
    requires ln in After(events).inbox
    ensures Warranted(events, ln)
  {
    var n := |events| - 1;
    var s, e := After(events[..n]), events[n];
    hide Warranted, VerdictOf, Mark, Reached;
    if ln in s.inbox {
      InboxIsWarranted(events[..n], ln);
      WarrantLasts(events, n, ln);
    } else {
      JustDelivered(events, ln);
    }
  }

  /** Everything an agent ever reads was delivered by the filter: a direct message only from its
      human, and from anyone else only a line of a readable channel that does not name it. */
  lemma {:induction false} ReadsAreFiltered(events: seq<Event>, ln: Line)
    requires ln in AllReturned(events)
    ensures exists i :: 0 <= i < |events| && events[i].Received?
              && VerdictOf(events[i].env, events[i].msg) == Deliver(ln.target, ln.nick, ln.text, ln.kind, ln.owner)
              && (ln.owner || (events[i].env.mayRead(ln.target) && !events[i].env.namesMe(ln.text) && ln.target != DM_TARGET))
  {
    ReturnedIsWarranted(events, ln);
    var i :| 0 <= i < |events| && events[i].Received?
          && VerdictOf(events[i].env, events[i].msg) == Deliver(ln.target, ln.nick, ln.text, ln.kind, ln.owner);
    OnlyOwnerReaches(events[i].env, events[i].msg);
  }

  lemma {:induction false} ReturnedIsWarranted(events: seq<Event>, ln: Line)
    requires ln in AllReturned(events)
    ensures Warranted(events, ln)
  {
    var n := |events| - 1;
    var s, e := After(events[..n]), events[n];
    hide Warranted, VerdictOf;
    if ln in AllReturned(events[..n]) {
      ReturnedIsWarranted(events[..n], ln);
    } else {
      VisibleOfMembers(Reached(s, e.target, e.limit, e.may), e.may);
      PendingIsUnread(s.inbox, s.seen, e.target);
      assert ln in Pending(s.inbox, s.seen, e.target);
      InboxIsWarranted(events[..n], ln);
    }
    WarrantLasts(events, n, ln);
  }

  // ---- The session object --------------------------------------------------------------------------

  lemma NextLine(inbox: seq<Line>, i: nat, seen: Seen, target: string, limit: nat, may: string -> bool)
    requires i < |inbox| && limit > 0 && Sorted(inbox[i..])
    ensures Sorted(inbox[i + 1..])
    ensures var ln, pending := inbox[i], Pending(inbox[i..], seen, target);
            if Unread(ln, seen, target) then
              var later := Pending(inbox[i + 1..], seen[ln.target := ln.n], target);
              && pending == [ln] + later
              && Reach(pending, limit, may) == 1 + Reach(later, if Visible(ln, may) then limit - 1 else limit, may)
            else
              pending == Pending(inbox[i + 1..], seen, target)
  {
    var ln := inbox[i];
    assert inbox[i..][1..] == inbox[i + 1..];
    if Unread(ln, seen, target) {
      MarkOneKeepsLater(inbox[i + 1..], seen, target, ln);
      assert ([ln] + Pending(inbox[i + 1..], seen, target))[1..] == Pending(inbox[i + 1..], seen, target);
    }
  }

  /** Part way through a read: `i` lines looked at, `reached` of them come to. */
  ghost predicate MidRead(inbox: seq<Line>, i: nat, was: Seen, seen: Seen, reached: seq<Line>, lines: seq<Line>,
                          target: string, most: nat, may: string -> bool) {
    && i <= |inbox| && |lines| <= most && Sorted(inbox[i..])
    && Pending(inbox, was, target) == reached + Pending(inbox[i..], seen, target)
    && seen == Mark(was, reached) && lines == VisibleOf(reached, may)
    && Reach(Pending(inbox, was, target), most, may)
       == |reached| + Reach(Pending(inbox[i..], seen, target), most - |lines|, may)
  }

  lemma MidReadStart(inbox: seq<Line>, seen: Seen, target: string, most: nat, may: string -> bool)
    requires Sorted(inbox)
    ensures MidRead(inbox, 0, seen, seen, [], [], target, most, may)
  {
    assert inbox[0..] == inbox;
    assert [] + Pending(inbox, seen, target) == Pending(inbox, seen, target);
  }

  lemma MidReadSkip(inbox: seq<Line>, i: nat, was: Seen, seen: Seen, reached: seq<Line>, lines: seq<Line>,
                    target: string, most: nat, may: string -> bool)
    requires MidRead(inbox, i, was, seen, reached, lines, target, most, may)
    requires i < |inbox| && |lines| < most && !Unread(inbox[i], seen, target)
    ensures MidRead(inbox, i + 1, was, seen, reached, lines, target, most, may)
  {
    hide Pending, Reach, Sorted, Unread, Visible, Mark, VisibleOf;
    NextLine(inbox, i, seen, target, most - |lines|, may);
  }

  lemma OneMore(seen: Seen, lines: seq<Line>, ln: Line, may: string -> bool)
    ensures Mark(seen, lines + [ln]) == Mark(seen, lines)[ln.target := ln.n]
    ensures VisibleOf(lines + [ln], may) == VisibleOf(lines, may) + (if Visible(ln, may) then [ln] else [])
  {
    assert (lines + [ln])[..|lines|] == lines;
  }

  lemma MidReadTake(inbox: seq<Line>, i: nat, was: Seen, seen: Seen, reached: seq<Line>, lines: seq<Line>,
                    target: string, most: nat, may: string -> bool)
    requires MidRead(inbox, i, was, seen, reached, lines, target, most, may)
    requires i < |inbox| && |lines| < most && Unread(inbox[i], seen, target)
    ensures var ln := inbox[i];
            MidRead(inbox, i + 1, was, seen[ln.target := ln.n], reached + [ln],
                    if Visible(ln, may) then lines + [ln] else lines, target, most, may)
  {
    hide Pending, Reach, Sorted, Unread, Visible, Mark, VisibleOf;
    var ln := inbox[i];
    NextLine(inbox, i, seen, target, most - |lines|, may);
    OneMore(was, reached, ln, may);
    assert reached + ([ln] + Pending(inbox[i + 1..], seen[ln.target := ln.n], target))
        == (reached + [ln]) + Pending(inbox[i + 1..], seen[ln.target := ln.n], target);
    assert lines + [] == lines;
  }

  lemma MidReadEnd(inbox: seq<Line>, i: nat, was: Seen, seen: Seen, reached: seq<Line>, lines: seq<Line>,
                   target: string, most: nat, may: string -> bool)
    requires MidRead(inbox, i, was, seen, reached, lines, target, most, may)
    requires i == |inbox| || |lines| == most
    ensures var pending := Pending(inbox, was, target);
            var k := Reach(pending, most, may);
            seen == Mark(was, pending[..k]) && lines == VisibleOf(pending[..k], may)
  {
    assert Reach(Pending(inbox[i..], seen, target), most - |lines|, may) == 0;
    hide Pending, Sorted, Mark, VisibleOf;
    assert Pending(inbox, was, target)[..|reached|] == reached;
  }

  lemma StepSnoc(log: seq<Event>, e: Event)
    ensures After(log + [e]) == Step(After(log), e)
    ensures WithheldCount(log + [e])
         == WithheldCount(log) + (if e.Received? && VerdictOf(e.env, e.msg).Withhold? then 1 else 0)
  {
    hide Step, VerdictOf;
    assert (log + [e])[..|log|] == log;
  }

  class AgentSession {
    var inbox: seq<Line>
    var last: nat
    var seen: Seen
    var withheld: nat
    /** What happened so far. */
    ghost var log: seq<Event>

    ghost function Contents(): State
      reads this
    {
      State(inbox, last, seen)
    }

    /** The fields are those the results about runs speak of. */
    ghost predicate Valid()
      reads this
    {
      Contents() == After(log) && withheld == WithheldCount(log)
    }

    constructor ()
      ensures Valid() && log == []
    {
      inbox, last, seen, withheld, log := [], 0, map[], 0, [];
    }

    method OnMessage(env: Env, msg: Message)
      requires Valid()
      modifies this
      ensures Valid() && log == old(log) + [Received(env, msg)]
      ensures Contents() == Arrive(old(Contents()), VerdictOf(env, msg))
      ensures withheld == old(withheld) + (if CrossHuman(env, msg) then 1 else 0)
    {
      hide Classify, After, WithheldCount, CrossHuman;
      StepSnoc(log, Received(env, msg));
      WithheldIsCrossHuman(env, msg);
      log := log + [Received(env, msg)];
      if '!' !in msg.prefix || |msg.params| < 2 {
        return;
      }
      var target, text := msg.params[0], msg.params[1];
      if msg.command == "NOTICE" && StartsWith(text, CTCP) {
        return;
      }
      var v := Classify(env, msg.prefix[..IndexOf(msg.prefix, '!')], target, text);
      if v.Deliver? {
        last := last + 1;
        inbox := Append(inbox, Line(last, v.target, v.nick, v.text, v.kind, v.owner));
      } else if v.Withhold? {
        withheld := withheld + 1;
      }
    }

    /** One pass over the inbox that raises watermarks as it goes; the answer also says how many
        deliveries across humans were withheld so far. */
    method ReadLines(target: string, limit: int, may: string -> bool) returns (lines: seq<Line>, count: nat)
      requires Valid()
      modifies this`seen, this`log
      ensures Valid() && log == old(log) + [Reading(target, limit, may)]
      ensures Contents() == Read(old(Contents()), target, limit, may)
      ensures lines == Returned(old(Contents()), target, limit, may)
      ensures AllReturned(log) == AllReturned(old(log)) + lines
      ensures count == |CrossHumanIn(log)|
    {
      hide Pending, Reach, Unread, Visible, Mark, VisibleOf, MidRead;
      hide After, WithheldCount, History, AllReturned, CrossHumanIn;
      HistoryHolds(log);
      assert Inv(Contents()) by { InvOf(Contents(), AllReturned(log), PassedOver(log)); }
      var most := Clamp(limit);
      lines := [];
      ghost var was, reached: seq<Line> := seen, [];
      MidReadStart(inbox, seen, target, most, may);
      var i := 0;
      while i < |inbox| && |lines| < most
        invariant 0 <= i <= |inbox| && |lines| <= most && log == old(log)
        invariant MidRead(inbox, i, was, seen, reached, lines, target, most, may)
      {
        var ln := inbox[i];
        if !Unread(ln, seen, target) {
          MidReadSkip(inbox, i, was, seen, reached, lines, target, most, may);
        } else {
          MidReadTake(inbox, i, was, seen, reached, lines, target, most, may);
          seen := seen[ln.target := ln.n];
          reached := reached + [ln];
          if Visible(ln, may) {
            lines := lines + [ln];
          }
        }
        i := i + 1;
      }
      MidReadEnd(inbox, i, was, seen, reached, lines, target, most, may);
      ReadSnoc(log, target, limit, may);
      StepSnoc(log, Reading(target, limit, may));
      log := log + [Reading(target, limit, may)];
      WithheldCountsCrossHuman(log);
      count := withheld;
    }
  }

  lemma InvOf(s: State, returned: seq<Line>, passed: set<Line>)
    requires History(s, returned, passed)
    ensures Inv(s)
  {
  }

  lemma ReadSnoc(log: seq<Event>, target: string, limit: int, may: string -> bool)
    ensures AllReturned(log + [Reading(target, limit, may)])
         == AllReturned(log) + Returned(After(log), target, limit, may)
  {
    hide Returned, After;
    assert (log + [Reading(target, limit, may)])[..|log|] == log;
  }
}
