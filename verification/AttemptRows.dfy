/** The `attempts` and `signin_budget` tables of `guest_store.py`: rolling rate counters and
    the two-mode sign-in budget of each email. */
module AttemptRows {
  import opened Text
  import W = SlidingWindow

  const DAY_S: int := 86400
  const ATTEMPT_RETENTION_S: int := DAY_S + 3600
  const SIGNIN_LIMIT: nat := 3
  const SIGNIN_WINDOW: int := 900
  const STRICT_LIMIT: nat := 2
  const STRICT_WINDOW: int := 1800
  const QUIET_S: int := DAY_S

  /** The rate-limit kinds; only the sign-in budget's own kind matters here. */
  datatype Kind = SigninEmail | OtherKind(name: string)
  /** `e:<email>` keys, which an erasure deletes, and all others. */
  datatype Key = ByEmail(email: string) | OtherKey(name: string)
  datatype Attempt = Attempt(kind: Kind, key: Key, ts: int)

  type Blocks = map<string, int>
  datatype Table = Table(rows: seq<Attempt>, blocks: Blocks)

  datatype Op =
    | TakeBudget(email: string)
    | Record(kind: Kind, key: Key)
    | Count(kind: Kind, key: Key, window: int)
    | Unrecord(kind: Kind, key: Key)
    | EraseEmail(email: string)

  datatype Answer = Done | Decision(ok: bool) | Counted(n: nat)

  predicate IsFor(r: Attempt, kind: Kind, key: Key) { r.kind == kind && r.key == key }

  /** `SELECT COUNT(*) FROM attempts WHERE kind=? AND key=? AND ts > ?` */
  function CountRows(rows: seq<Attempt>, kind: Kind, key: Key, cutoff: int): nat {
    if rows == [] then 0
    else
      var r := rows[|rows| - 1];
      CountRows(rows[..|rows| - 1], kind, key, cutoff) + if IsFor(r, kind, key) && r.ts > cutoff then 1 else 0
  }

  /** `DELETE ... WHERE rowid = (SELECT MAX(rowid) ... WHERE kind=? AND key=?)` */
  function DropLatest(rows: seq<Attempt>, kind: Kind, key: Key): seq<Attempt> {
    if rows == [] then []
    else
      var rest, r := rows[..|rows| - 1], rows[|rows| - 1];
      if IsFor(r, kind, key) then rest else DropLatest(rest, kind, key) + [r]
  }

  /** `DELETE FROM attempts WHERE ts < ?` */
  function KeepFrom(rows: seq<Attempt>, cutoff: int): seq<Attempt> {
    if rows == [] then []
    else
      var r := rows[|rows| - 1];
      KeepFrom(rows[..|rows| - 1], cutoff) + if r.ts < cutoff then [] else [r]
  }

  /** `DELETE FROM attempts WHERE key = ?` */
  function DropKey(rows: seq<Attempt>, key: Key): seq<Attempt> {
    if rows == [] then []
    else
      var r := rows[|rows| - 1];
      DropKey(rows[..|rows| - 1], key) + if r.key == key then [] else [r]
  }

  predicate Strict(blocks: Blocks, email: string, now: int) {
    email in blocks && now - blocks[email] < QUIET_S
  }

  predicate Admits(t: Table, email: string, now: int) {
    if Strict(t.blocks, email, now)
    then CountRows(t.rows, SigninEmail, ByEmail(email), now - STRICT_WINDOW) < STRICT_LIMIT
    else CountRows(t.rows, SigninEmail, ByEmail(email), now - SIGNIN_WINDOW) < SIGNIN_LIMIT
  }

  function Apply(t: Table, now: int, op: Op): (Table, Answer) {
    match op
    case TakeBudget(email) =>
      if Admits(t, email, now)
      then (Table(t.rows + [Attempt(SigninEmail, ByEmail(email), now)], t.blocks), Decision(true))
      else (Table(t.rows, t.blocks[email := now]), Decision(false))
    case Record(kind, key) => (Table(t.rows + [Attempt(kind, key, now)], t.blocks), Done)
    case Count(kind, key, window) => (t, Counted(CountRows(t.rows, kind, key, now - window)))
    case Unrecord(kind, key) => (Table(DropLatest(t.rows, kind, key), t.blocks), Done)
    case EraseEmail(email) => (Table(DropKey(t.rows, ByEmail(email)), t.blocks), Done)
  }

  function SweepBlocks(blocks: Blocks, now: int): Blocks {
    map e | e in blocks && blocks[e] > now - QUIET_S :: blocks[e]
  }

  function Sweep(t: Table, now: int): Table {
    Table(KeepFrom(t.rows, now - ATTEMPT_RETENTION_S), SweepBlocks(t.blocks, now))
  }

  /** No counted window is longer than the rows are kept. */
  predicate Proper(op: Op) {
    op.Count? ==> op.window <= ATTEMPT_RETENTION_S
  }

  // ---- The swept table against one that is never swept ----------------------------------------

  predicate AllOld(rows: seq<Attempt>, cutoff: int) {
    forall i | 0 <= i < |rows| :: rows[i].ts < cutoff
  }

  /** Rows in clock order, none later than `last`. */
  predicate OrderedTo(rows: seq<Attempt>, last: int) {
    rows == [] || (rows[|rows| - 1].ts <= last && OrderedTo(rows[..|rows| - 1], rows[|rows| - 1].ts))
  }

  ghost predicate RowsSim(all: seq<Attempt>, kept: seq<Attempt>, gone: seq<Attempt>, now: int) {
    all == gone + kept && AllOld(gone, now - ATTEMPT_RETENTION_S) && OrderedTo(kept, now)
  }

  ghost predicate BlocksSim(all: Blocks, kept: Blocks, now: int) {
    && (forall e | e in kept :: e in all && all[e] == kept[e])
    && (forall e | e in all && all[e] > now - QUIET_S :: e in kept)
  }

  /** `gone` are the rows sweeps took, all too old to count. */
  ghost predicate Sim(all: Table, kept: Table, gone: seq<Attempt>, now: int) {
    RowsSim(all.rows, kept.rows, gone, now) && BlocksSim(all.blocks, kept.blocks, now)
  }

  lemma {:induction false} CountOfOld(gone: seq<Attempt>, kept: seq<Attempt>, kind: Kind, key: Key, cutoff: int)
    requires AllOld(gone, cutoff + 1)
    ensures CountRows(gone + kept, kind, key, cutoff) == CountRows(kept, kind, key, cutoff)
    decreases |gone| + |kept|
  {
    if kept != [] {
      CountOfOld(gone, kept[..|kept| - 1], kind, key, cutoff);
      assert (gone + kept)[..|gone + kept| - 1] == gone + kept[..|kept| - 1];
    } else if gone != [] {
      assert gone + kept == gone && gone[..|gone| - 1] + [] == gone[..|gone| - 1];
      CountOfOld(gone[..|gone| - 1], [], kind, key, cutoff);
    }
  }

  predicate HasRow(rows: seq<Attempt>, kind: Kind, key: Key) {
    rows != [] && (IsFor(rows[|rows| - 1], kind, key) || HasRow(rows[..|rows| - 1], kind, key))
  }

  /** A refund takes the newest row of the key, from the kept rows if any is there. */
  lemma {:induction false} DropLatestSplits(gone: seq<Attempt>, kept: seq<Attempt>, kind: Kind, key: Key)
    ensures HasRow(kept, kind, key) ==> DropLatest(gone + kept, kind, key) == gone + DropLatest(kept, kind, key)
    ensures !HasRow(kept, kind, key) ==>
              DropLatest(gone + kept, kind, key) == DropLatest(gone, kind, key) + DropLatest(kept, kind, key)
    decreases |kept|
  {
    if kept == [] {
      assert gone + kept == gone;
      assert DropLatest(gone, kind, key) + [] == DropLatest(gone, kind, key);
    } else {
      var rest, r := kept[..|kept| - 1], kept[|kept| - 1];
      DropLatestSnoc(gone + rest, r, kind, key);
      assert gone + kept == gone + rest + [r];
      if !IsFor(r, kind, key) {
        DropLatestSplits(gone, rest, kind, key);
      }
    }
  }

  lemma DropLatestSnoc(rows: seq<Attempt>, r: Attempt, kind: Kind, key: Key)
    ensures DropLatest(rows + [r], kind, key)
         == if IsFor(r, kind, key) then rows else DropLatest(rows, kind, key) + [r]
  {
    assert (rows + [r])[..|rows|] == rows;
  }

  lemma {:induction false} DropLatestIsOld(rows: seq<Attempt>, kind: Kind, key: Key, cutoff: int)
    requires AllOld(rows, cutoff)
    ensures AllOld(DropLatest(rows, kind, key), cutoff)
  {
    if rows != [] {
      DropLatestIsOld(rows[..|rows| - 1], kind, key, cutoff);
    }
  }

  lemma OrderedToLater(rows: seq<Attempt>, last: int, later: int)
    requires OrderedTo(rows, last) && last <= later
    ensures OrderedTo(rows, later)
  {
  }

  lemma OrderedSnoc(rows: seq<Attempt>, last: int, r: Attempt, end: int)
    requires OrderedTo(rows, last) && last <= r.ts <= end
    ensures OrderedTo(rows + [r], end)
  {
    assert (rows + [r])[..|rows|] == rows;
    OrderedToLater(rows, last, r.ts);
  }

  lemma {:induction false} DropLatestOrdered(rows: seq<Attempt>, kind: Kind, key: Key, last: int)
    requires OrderedTo(rows, last)
    ensures OrderedTo(DropLatest(rows, kind, key), last)
  {
    if rows != [] {
      var rest, r := rows[..|rows| - 1], rows[|rows| - 1];
      if IsFor(r, kind, key) {
        OrderedToLater(rest, r.ts, last);
      } else {
        DropLatestOrdered(rest, kind, key, r.ts);
        OrderedSnoc(DropLatest(rest, kind, key), r.ts, r, last);
      }
    }
  }

  lemma {:induction false} DropKeyOrdered(rows: seq<Attempt>, key: Key, last: int)
    requires OrderedTo(rows, last)
    ensures OrderedTo(DropKey(rows, key), last)
  {
    if rows != [] {
      var rest, r := rows[..|rows| - 1], rows[|rows| - 1];
      DropKeyOrdered(rest, key, r.ts);
      if r.key == key {
        assert DropKey(rest, key) + [] == DropKey(rest, key);
        OrderedToLater(DropKey(rest, key), r.ts, last);
      } else {
        OrderedSnoc(DropKey(rest, key), r.ts, r, last);
      }
    }
  }

  lemma {:induction false} DropKeySplits(gone: seq<Attempt>, kept: seq<Attempt>, key: Key)
    ensures DropKey(gone + kept, key) == DropKey(gone, key) + DropKey(kept, key)
    decreases |kept|
  {
    if kept == [] {
      assert gone + kept == gone;
      assert DropKey(gone, key) + [] == DropKey(gone, key);
    } else {
      DropKeySplits(gone, kept[..|kept| - 1], key);
      assert (gone + kept)[..|gone + kept| - 1] == gone + kept[..|kept| - 1];
    }
  }

  lemma {:induction false} DropKeyIsOld(rows: seq<Attempt>, key: Key, cutoff: int)
    requires AllOld(rows, cutoff)
    ensures AllOld(DropKey(rows, key), cutoff)
  {
    if rows != [] {
      DropKeyIsOld(rows[..|rows| - 1], key, cutoff);
    }
  }

  lemma {:induction false} OrderedIsOld(rows: seq<Attempt>, last: int, cutoff: int)
    requires OrderedTo(rows, last) && last < cutoff
    ensures AllOld(rows, cutoff) && KeepFrom(rows, cutoff) == []
  {
    if rows != [] {
      OrderedIsOld(rows[..|rows| - 1], rows[|rows| - 1].ts, cutoff);
    }
  }

  lemma SnocAssoc(a: seq<Attempt>, b: seq<Attempt>, r: Attempt)
    ensures a + b + [r] == a + (b + [r])
  {
  }

  /** On rows in clock order the sweep deletes a prefix of old rows. */
  lemma {:induction false} KeepFromDropsPrefix(rows: seq<Attempt>, last: int, cutoff: int) returns (stale: seq<Attempt>)
    requires OrderedTo(rows, last)
    ensures rows == stale + KeepFrom(rows, cutoff)
    ensures AllOld(stale, cutoff) && OrderedTo(KeepFrom(rows, cutoff), last)
  {
    if rows == [] {
      stale := [];
    } else if rows[|rows| - 1].ts < cutoff {
      OrderedIsOld(rows, rows[|rows| - 1].ts, cutoff);
      stale := rows;
    } else {
      var rest, r := rows[..|rows| - 1], rows[|rows| - 1];
      stale := KeepFromDropsPrefix(rest, r.ts, cutoff);
      OrderedSnoc(KeepFrom(rest, cutoff), r.ts, r, last);
      SnocAssoc(stale, KeepFrom(rest, cutoff), r);
      assert rows == rest + [r];
    }
  }

  /** A refund removes the newest row of the key and keeps the rest in order; with no such row it
      removes nothing. */
  lemma {:induction false} DropLatestTakesNewest(rows: seq<Attempt>, i: nat, kind: Kind, key: Key)
    requires i <= |rows| && (forall j | i <= j < |rows| :: !IsFor(rows[j], kind, key))
    requires i > 0 ==> IsFor(rows[i - 1], kind, key)
    ensures DropLatest(rows, kind, key) == if i == 0 then rows else rows[..i - 1] + rows[i..]
    decreases |rows|
  {
    if i < |rows| {
      var rest, r := rows[..|rows| - 1], rows[|rows| - 1];
      DropLatestTakesNewest(rest, i, kind, key);
      assert rows == rest + [r];
      if i > 0 {
        SnocAssoc(rest[..i - 1], rest[i..], r);
        assert rest[i..] + [r] == rows[i..];
      }
    } else if i > 0 {
      assert rows[..i - 1] + rows[i..] == rows[..i - 1];
    }
  }

  // ---- One call ---------------------------------------------------------------------------------

  lemma AppendAgrees(all: seq<Attempt>, kept: seq<Attempt>, gone: seq<Attempt>, now: int, r: Attempt)
    requires RowsSim(all, kept, gone, now) && r.ts == now
    ensures RowsSim(all + [r], kept + [r], gone, now)
  {
    SnocAssoc(gone, kept, r);
    OrderedSnoc(kept, now, r, now);
  }

  lemma RefundAgrees(all: seq<Attempt>, kept: seq<Attempt>, gone: seq<Attempt>, now: int, kind: Kind, key: Key)
    returns (gone': seq<Attempt>)
    requires RowsSim(all, kept, gone, now)
    ensures RowsSim(DropLatest(all, kind, key), DropLatest(kept, kind, key), gone', now)
  {
    DropLatestSplits(gone, kept, kind, key);
    DropLatestOrdered(kept, kind, key, now);
    if HasRow(kept, kind, key) {
      gone' := gone;
    } else {
      DropLatestIsOld(gone, kind, key, now - ATTEMPT_RETENTION_S);
      gone' := DropLatest(gone, kind, key);
    }
  }

  lemma EraseAgrees(all: seq<Attempt>, kept: seq<Attempt>, gone: seq<Attempt>, now: int, key: Key)
    requires RowsSim(all, kept, gone, now)
    ensures RowsSim(DropKey(all, key), DropKey(kept, key), DropKey(gone, key), now)
  {
    DropKeySplits(gone, kept, key);
    DropKeyIsOld(gone, key, now - ATTEMPT_RETENTION_S);
    DropKeyOrdered(kept, key, now);
  }

  lemma BudgetAgrees(all: Table, kept: Table, gone: seq<Attempt>, now: int, email: string)
    requires Sim(all, kept, gone, now)
    ensures Admits(all, email, now) == Admits(kept, email, now)
  {
    assert Strict(all.blocks, email, now) == Strict(kept.blocks, email, now);
    CountOfOld(gone, kept.rows, SigninEmail, ByEmail(email), now - STRICT_WINDOW);
    CountOfOld(gone, kept.rows, SigninEmail, ByEmail(email), now - SIGNIN_WINDOW);
  }

  lemma CallAgrees(all: Table, kept: Table, gone: seq<Attempt>, now: int, op: Op) returns (gone': seq<Attempt>)
    requires Sim(all, kept, gone, now) && Proper(op)
    ensures Apply(all, now, op).1 == Apply(kept, now, op).1
    ensures Sim(Apply(all, now, op).0, Apply(kept, now, op).0, gone', now)
  {
    gone' := gone;
    match op {
      case TakeBudget(email) =>
        BudgetAgrees(all, kept, gone, now, email);
        AppendAgrees(all.rows, kept.rows, gone, now, Attempt(SigninEmail, ByEmail(email), now));
      case Record(kind, key) =>
        AppendAgrees(all.rows, kept.rows, gone, now, Attempt(kind, key, now));
      case Count(kind, key, window) =>
        CountOfOld(gone, kept.rows, kind, key, now - window);
      case Unrecord(kind, key) =>
        gone' := RefundAgrees(all.rows, kept.rows, gone, now, kind, key);
      case EraseEmail(email) =>
        EraseAgrees(all.rows, kept.rows, gone, now, ByEmail(email));
        gone' := DropKey(gone, ByEmail(email));
    }
  }

  lemma SimLater(all: Table, kept: Table, gone: seq<Attempt>, last: int, now: int)
    requires Sim(all, kept, gone, last) && last <= now
    ensures Sim(all, kept, gone, now)
  {
    OrderedToLater(kept.rows, last, now);
  }

  lemma SweepKeepsSim(all: Table, kept: Table, gone: seq<Attempt>, now: int) returns (gone': seq<Attempt>)
    requires Sim(all, kept, gone, now)
    ensures Sim(all, Sweep(kept, now), gone', now)
  {
    var cutoff := now - ATTEMPT_RETENTION_S;
    var stale := KeepFromDropsPrefix(kept.rows, now, cutoff);
    gone' := gone + stale;
    assert gone + (stale + KeepFrom(kept.rows, cutoff)) == gone' + KeepFrom(kept.rows, cutoff);
  }

  // ---- What a count counts ----------------------------------------------------------------------------

  datatype Call = Call(now: int, op: Op)

  function After(run: seq<Call>): Table {
    if run == [] then Table([], map[]) else Apply(After(run[..|run| - 1]), run[|run| - 1].now, run[|run| - 1].op).0
  }

  /** The attempts of one kind and key a run recorded and neither refunded nor erased, in order. */
  function Recorded(run: seq<Call>, kind: Kind, key: Key): seq<int> {
    if run == [] then [] else RecordedNext(Recorded(run[..|run| - 1], kind, key), run[|run| - 1], kind, key)
  }

  function RecordedNext(was: seq<int>, c: Call, kind: Kind, key: Key): seq<int> {
    if c.op == Record(kind, key) then was + [c.now]
    else if c.op == Unrecord(kind, key) then if was == [] then [] else was[..|was| - 1]
    else if c.op.EraseEmail? && key == ByEmail(c.op.email) then []
    else was
  }

  function TimesOf(rows: seq<Attempt>, kind: Kind, key: Key): seq<int> {
    if rows == [] then []
    else
      var r := rows[|rows| - 1];
      TimesOf(rows[..|rows| - 1], kind, key) + if IsFor(r, kind, key) then [r.ts] else []
  }

  lemma TimesOfSnoc(rows: seq<Attempt>, r: Attempt, kind: Kind, key: Key)
    ensures TimesOf(rows + [r], kind, key) == TimesOf(rows, kind, key) + if IsFor(r, kind, key) then [r.ts] else []
  {
    assert (rows + [r])[..|rows|] == rows;
  }

  lemma {:induction false} CountsTimes(rows: seq<Attempt>, kind: Kind, key: Key, cutoff: int)
    ensures CountRows(rows, kind, key, cutoff) == W.CountAfter(TimesOf(rows, kind, key), cutoff)
  {
    if rows != [] {
      hide W.CountAfter;
      var rest, r := rows[..|rows| - 1], rows[|rows| - 1];
      CountsTimes(rest, kind, key, cutoff);
      W.CountAfterSnoc(TimesOf(rest, kind, key), r.ts, cutoff);
      assert TimesOf(rest, kind, key) + [] == TimesOf(rest, kind, key);
    } else {
      assert W.CountAfter([], cutoff) == 0;
    }
  }

  lemma {:induction false} DropLatestTimes(rows: seq<Attempt>, kind: Kind, key: Key, kind': Kind, key': Key)
    ensures var was, left := TimesOf(rows, kind, key), TimesOf(DropLatest(rows, kind', key'), kind, key);
            left == if kind == kind' && key == key' && was != [] then was[..|was| - 1] else was
  {
    if rows != [] {
      var rest, r := rows[..|rows| - 1], rows[|rows| - 1];
      if !IsFor(r, kind', key') {
        DropLatestTimes(rest, kind, key, kind', key');
        TimesOfSnoc(DropLatest(rest, kind', key'), r, kind, key);
        assert DropLatest(rows, kind', key') == DropLatest(rest, kind', key') + [r];
      } else {
        assert DropLatest(rows, kind', key') == rest;
      }
      hide DropLatest;
    }
  }

  lemma {:induction false} DropKeyTimes(rows: seq<Attempt>, kind: Kind, key: Key, erased: Key)
    ensures TimesOf(DropKey(rows, erased), kind, key) == if key == erased then [] else TimesOf(rows, kind, key)
  {
    if rows != [] {
      var rest, r := rows[..|rows| - 1], rows[|rows| - 1];
      DropKeyTimes(rest, kind, key, erased);
      TimesOfSnoc(DropKey(rest, erased), r, kind, key);
      assert DropKey(rest, erased) + [] == DropKey(rest, erased);
    }
  }

  lemma CallRecords(t: Table, c: Call, kind: Kind, key: Key)
    requires kind != SigninEmail
    ensures TimesOf(Apply(t, c.now, c.op).0.rows, kind, key) == RecordedNext(TimesOf(t.rows, kind, key), c, kind, key)
  {
    hide TimesOf, Admits, DropLatest, DropKey;
    match c.op {
      case TakeBudget(email) => TimesOfSnoc(t.rows, Attempt(SigninEmail, ByEmail(email), c.now), kind, key);
      case Record(k, y) => TimesOfSnoc(t.rows, Attempt(k, y, c.now), kind, key);
      case Unrecord(k, y) => DropLatestTimes(t.rows, kind, key, k, y);
      case EraseEmail(email) => DropKeyTimes(t.rows, kind, key, ByEmail(email));
      case Count(_, _, _) =>
    }
  }

  lemma {:induction false} TimesAreRecorded(run: seq<Call>, kind: Kind, key: Key)
    requires kind != SigninEmail
    ensures TimesOf(After(run).rows, kind, key) == Recorded(run, kind, key)
  {
    if run != [] {
      hide TimesOf, Apply, RecordedNext;
      TimesAreRecorded(run[..|run| - 1], kind, key);
      CallRecords(After(run[..|run| - 1]), run[|run| - 1], kind, key);
    } else {
      assert TimesOf([], kind, key) == [];
    }
  }

  /** Over every run, a count answers how many attempts of that kind and key were recorded in the
      window, those refunded or erased left out (the sign-in budget counts its own kind). */
  lemma CountsWhatWasRecorded(run: seq<Call>, now: int, kind: Kind, key: Key, window: int)
    requires kind != SigninEmail
    ensures Apply(After(run), now, Count(kind, key, window)).1
         == Counted(W.CountAfter(Recorded(run, kind, key), now - window))
  {
    TimesAreRecorded(run, kind, key);
    CountsTimes(After(run).rows, kind, key, now - window);
  }
}
