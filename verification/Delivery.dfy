/**
 The retry machine of alert deliveries: what the dispatcher sends and schedules
 (internal/alert/dispatcher.go, internal/alert/webhook/webhook.go) and what the delivery table
 remembers between cycles (internal/store/deliveries.go), when any statement may fail and the
 process may die at any call.
 */
module Delivery {
  import opened Optional
  import opened Text
  import opened Calendar
  import opened Timestamps

  const MAX_ATTEMPTS: int := 5

  /** The most deliveries one call of `RetryPending` reads. */
  const LIMIT: nat := 50

  // ---- the delays ----

  function Pow4(k: nat): nat {
    if k == 0 then 1 else 4 * Pow4(k - 1)
  }

  /** How long to wait after the given attempt failed; zero when the attempts have run out. */
  function Delay(attempt: int): (d: int)
    ensures 0 <= d <= 64 * SECOND
  {
    if 1 <= attempt < MAX_ATTEMPTS then
      LastPower(attempt - 1);
      Pow4(attempt - 1) * SECOND
    else 0
  }

  lemma LastPower(k: nat)
    requires k <= 3
    ensures Pow4(k) <= 64
  {
    assert Pow4(0) == 1;
    assert Pow4(2) == 16 by { assert Pow4(1) == 4; }
  }

  method Backoff(attempt: int) returns (d: int)
    ensures d == Delay(attempt)
  {
    if attempt < 1 || attempt >= MAX_ATTEMPTS { return 0; }
    d := SECOND;
    var i := 1;
    while i < attempt
      invariant 1 <= i <= attempt
      invariant d == Pow4(i - 1) * SECOND
    {
      d := d * 4;
      i := i + 1;
    }
  }

  /** The whole ladder: 1, 4, 16 and 64 seconds, and never the 256 seconds of the documentation. */
  lemma Ladder(attempt: int)
    ensures Delay(attempt) ==
      (if attempt == 1 then 1 else if attempt == 2 then 4 else if attempt == 3 then 16 else if attempt == 4 then 64 else 0) * SECOND
  {
    assert Pow4(0) == 1;
    assert Pow4(2) == 16 by { assert Pow4(1) == 4; }
    assert Pow4(3) == 64;
  }

  // ---- the table ----

  /** A clock reading: after the zero time, and a delay short of the end of the year 9999. */
  type Clock = t: Instant | ZERO < t < DAYS * DAY - 64 * SECOND witness ZERO + 1

  datatype Channel = Webhook | Email

  datatype Status = Pending | Delivered | Failed

  /** A row of `deliveries`; `created` and `next` are the stored texts. */
  datatype Row = Row(channel: Channel, target: string, created: string, status: Status, attempts: nat, next: Option<string>)

  /**
   Not part of the program: per delivery, the clock of the last recorded failure that scheduled a
   retry, the calls that reached the endpoint, those of them whose record was lost, and the
   recorded attempts that never reached it.
   */
  datatype History = History(failedAt: Instant, sends: nat, lost: nat, unsent: nat)

  datatype Queue = Queue(rows: map<string, Row>, log: map<string, History>)

  /** How a statement ends; one that fails or dies may still have taken effect. */
  datatype Fate = Works | Fails(effective: bool) | Dies(effective: bool)

  predicate Effective(fate: Fate) {
    fate.Works? || fate.effective
  }

  function NewRow(channel: Channel, target: string, created: Clock): Row {
    Row(channel, target, FormatTime(created), Pending, 0, None)
  }

  /** `EnqueueDelivery`: the primary key refuses an id that is already there. */
  function Enqueue(q: Queue, id: string, row: Row, fate: Fate): Queue {
    if id !in q.rows && Effective(fate) then Queue(q.rows[id := row], q.log[id := History(ZERO, 0, 0, 0)]) else q
  }

  /** The row that `RecordAttempt` writes: with no next attempt the chances are used up. */
  function Recorded(row: Row, ok: bool, next: Instant): Row
    requires InRange(next)
  {
    row.(status := if ok then Delivered else if next == ZERO then Failed else Pending,
         attempts := row.attempts + 1, next := NullTime(next))
  }

  /** `UPDATE deliveries ... WHERE delivery_id = ?`: whatever the status of the row. */
  function Updated(rows: map<string, Row>, id: string, ok: bool, next: Instant, fate: Fate): map<string, Row>
    requires InRange(next)
  {
    if id in rows && Effective(fate) then rows[id := Recorded(rows[id], ok, next)] else rows
  }

  function Booked(h: History, sent: bool, recorded: bool, clock: Instant, next: Instant): History {
    History(if recorded && next != ZERO then clock else h.failedAt, if sent then h.sends + 1 else h.sends,
            if sent && !recorded then h.lost + 1 else h.lost, if !sent && recorded then h.unsent + 1 else h.unsent)
  }

  function Noted(log: map<string, History>, id: string, sent: bool, recorded: bool, clock: Instant, next: Instant)
    : map<string, History>
  {
    if id in log then log[id := Booked(log[id], sent, recorded, clock, next)] else log
  }

  /** One recorded attempt, and what it adds to the history. */
  function Settle(q: Queue, id: string, ok: bool, sent: bool, clock: Instant, next: Instant, fate: Fate): Queue
    requires InRange(next)
  {
    Queue(Updated(q.rows, id, ok, next, fate), Noted(q.log, id, sent, Effective(fate), clock, next))
  }

  // ---- attempts ----

  /** What one call of `Deliver` comes to: the process dies in it, no request could be built, or an answer came or did not. */
  datatype Reply = DiedFirst | Unsendable | Accepted | Rejected

  datatype Try = Try(readable: bool, reply: Reply, clock: Clock, record: Fate)

  datatype Progress = Progress(queue: Queue, died: bool, count: nat)

  /** The next attempt after this one: only a refused request is tried again. */
  function NextAfter(attempt: int, t: Try): (next: Instant)
    ensures InRange(next)
  {
    Ladder(attempt);
    if t.reply.Rejected? && Delay(attempt) > 0 then t.clock + Delay(attempt) else ZERO
  }

  function Attempt(q: Queue, id: string, attempt: int, t: Try): Progress {
    if t.reply.DiedFirst? then Progress(q, true, 0)
    else
      var q1 := Settle(q, id, t.reply.Accepted?, !t.reply.Unsendable?, t.clock, NextAfter(attempt, t), t.record);
      Progress(q1, t.record.Dies?, 1)
  }

  /** Closing a delivery that can no longer be sent. */
  function GiveUp(q: Queue, id: string, t: Try): Progress {
    Progress(Settle(q, id, false, false, t.clock, ZERO, t.record), t.record.Dies?, 0)
  }

  // ---- Dispatch ----

  datatype Hook = Hook(id: string, enabled: bool, events: seq<string>)

  /** What a webhook's turn draws: the delivery id, the clock, and how its calls go. */
  datatype Shot = Shot(id: string, created: Clock, marshals: bool, insert: Fate, attempt: Try)

  /** One webhook's turn: queued before it is sent; an insert that reports failure ends the turn. */
  function NotifyOne(q: Queue, hook: Hook, event: string, shot: Shot): Progress {
    if !hook.enabled || event !in hook.events || !shot.marshals then Progress(q, false, 0)
    else
      var q1 := Enqueue(q, shot.id, NewRow(Webhook, hook.id, shot.created), shot.insert);
      if shot.insert.Dies? then Progress(q1, true, 0)
      else if shot.id in q.rows || !shot.insert.Works? then Progress(q1, false, 0)
      else Attempt(q1, shot.id, 1, shot.attempt)
  }

  /** `dispatchWebhooks`, up to the first death. */
  function Notify(q: Queue, hooks: seq<Hook>, event: string, shots: nat -> Shot): Progress {
    if hooks == [] then Progress(q, false, 0)
    else
      var p := Notify(q, hooks[..|hooks| - 1], event, shots);
      if p.died then p else NotifyOne(p.queue, hooks[|hooks| - 1], event, shots(|hooks| - 1))
  }

  /** `dispatchEmail`, once it is decided that there is a message: the failure of the insert is ignored. */
  function Mail(q: Queue, target: string, shot: Shot): Progress {
    var q1 := Enqueue(q, shot.id, NewRow(Email, target, shot.created), shot.insert);
    if shot.insert.Dies? || shot.attempt.reply.DiedFirst? then Progress(q1, true, 0)
    else
      var ok := shot.attempt.reply.Accepted?;
      Progress(Settle(q1, shot.id, ok, ok, shot.attempt.clock, ZERO, shot.attempt.record), shot.attempt.record.Dies?, 0)
  }

  // ---- RetryPending ----

  /** `status = 'pending' AND (next_attempt_at IS NULL OR next_attempt_at <= ?)`, on the stored text. */
  predicate Due(row: Row, now: Clock) {
    row.status.Pending? && (row.next.None? || !Less(FormatTime(now), row.next.value))
  }

  /** `PendingDeliveries`: the due rows `ORDER BY created_at LIMIT 50`. */
  ghost predicate Listed(rows: map<string, Row>, now: Clock, ids: seq<string>) {
    && |ids| <= LIMIT
    && (forall i, j :: 0 <= i < j < |ids| ==> ids[i] != ids[j])
    && (forall id :: id in ids ==> id in rows && Due(rows[id], now))
    && (forall i, j :: 0 <= i < j < |ids| ==> !Less(rows[ids[j]].created, rows[ids[i]].created))
    && (forall d, id :: d in rows && Due(rows[d], now) && id in ids && Less(rows[d].created, rows[id].created) ==> d in ids)
    && (|ids| < LIMIT ==> forall d :: d in rows && Due(rows[d], now) ==> d in ids)
  }

  predicate AllIn(ids: seq<string>, rows: map<string, Row>) {
    forall id :: id in ids ==> id in rows
  }

  /** `webhookByID` finds the first webhook of that id, and it is enabled. */
  predicate Reachable(hooks: seq<Hook>, target: string) {
    hooks != [] && if hooks[0].id == target then hooks[0].enabled else Reachable(hooks[1..], target)
  }

  /** One listed delivery, as the query read it. */
  function RetryOne(q: Queue, hooks: seq<Hook>, id: string, row: Row, t: Try): Progress {
    if !row.channel.Webhook? then Progress(q, false, 0)
    else if !Reachable(hooks, row.target) || !t.readable then GiveUp(q, id, t)
    else Attempt(q, id, row.attempts + 1, t)
  }

  /** The first `n` listed deliveries, up to the first death; the rows are those of the query. */
  function Retry(q: Queue, hooks: seq<Hook>, ids: seq<string>, tries: nat -> Try, n: nat): Progress
    requires n <= |ids| && AllIn(ids, q.rows)
  {
    if n == 0 then Progress(q, false, 0)
    else
      var p := Retry(q, hooks, ids, tries, n - 1);
      if p.died then p
      else
        var one := RetryOne(p.queue, hooks, ids[n - 1], q.rows[ids[n - 1]], tries(n - 1));
        one.(count := p.count + one.count)
  }

  lemma {:induction false} NotifyStops(q: Queue, hooks: seq<Hook>, event: string, shots: nat -> Shot, i: nat)
    requires i <= |hooks| && Notify(q, hooks[..i], event, shots).died
    ensures Notify(q, hooks, event, shots) == Notify(q, hooks[..i], event, shots)
  {
    if i == |hooks| {
      assert hooks[..i] == hooks;
    } else {
      var front := hooks[..|hooks| - 1];
      assert front[..i] == hooks[..i];
      NotifyStops(q, front, event, shots, i);
    }
  }

  lemma {:induction false} RetryStops(q: Queue, hooks: seq<Hook>, ids: seq<string>, tries: nat -> Try, i: nat, n: nat)
    requires i <= n <= |ids| && AllIn(ids, q.rows)
    requires Retry(q, hooks, ids, tries, i).died
    ensures Retry(q, hooks, ids, tries, n) == Retry(q, hooks, ids, tries, i)
  {
    if i < n { RetryStops(q, hooks, ids, tries, i, n - 1); }
  }

  // ---- the operations ----

  class Dispatcher {
    var rows: map<string, Row>
    ghost var log: map<string, History>

    constructor (rows: map<string, Row>, ghost log: map<string, History>)
      ensures this.rows == rows && this.log == log
    {
      this.rows := rows;
      this.log := log;
    }

    ghost function State(): Queue
      reads this
    {
      Queue(rows, log)
    }

    /** `EnqueueDelivery`. */
    method EnqueueDelivery(id: string, row: Row, fate: Fate) returns (ok: bool)
      modifies this
      ensures State() == Enqueue(old(State()), id, row, fate)
      ensures ok <==> id !in old(rows) && fate.Works?
    {
      if id in rows { return false; }
      if Effective(fate) {
        rows := rows[id := row];
        log := log[id := History(ZERO, 0, 0, 0)];
      }
      ok := fate.Works?;
    }

    /** `RecordAttempt`. */
    method RecordAttempt(id: string, ok: bool, next: Instant, fate: Fate)
      requires InRange(next)
      modifies this`rows
      ensures rows == Updated(old(rows), id, ok, next, fate)
    {
      var status := Pending;
      if ok {
        status := Delivered;
      } else if next == ZERO {
        status := Failed;
      }
      if id in rows && Effective(fate) {
        var row := rows[id];
        rows := rows[id := row.(status := status, attempts := row.attempts + 1, next := NullTime(next))];
      }
    }

    ghost method Book(id: string, sent: bool, recorded: bool, clock: Instant, next: Instant)
      modifies this`log
      ensures log == Noted(old(log), id, sent, recorded, clock, next)
    {
      log := Noted(log, id, sent, recorded, clock, next);
    }

    /** `attemptWebhook`: one call of `Deliver`, and its record. */
    method AttemptWebhook(id: string, attempt: int, t: Try) returns (died: bool)
      modifies this
      ensures State() == Attempt(old(State()), id, attempt, t).queue
      ensures died == Attempt(old(State()), id, attempt, t).died
    {
      hide FormatFixed;
      if t.reply.DiedFirst? { return true; }
      var next := ZERO;
      if t.reply.Rejected? {
        var b := Backoff(attempt);
        Ladder(attempt);
        if b > 0 { next := t.clock + b; }
      }
      RecordAttempt(id, t.reply.Accepted?, next, t.record);
      Book(id, !t.reply.Unsendable?, Effective(t.record), t.clock, next);
      died := t.record.Dies?;
    }

    /** `dispatchWebhooks`. */
    method DispatchWebhooks(hooks: seq<Hook>, event: string, shots: nat -> Shot) returns (died: bool)
      modifies this
      ensures State() == Notify(old(State()), hooks, event, shots).queue
      ensures died == Notify(old(State()), hooks, event, shots).died
    {
      died := false;
      var i := 0;
      while i < |hooks|
        invariant 0 <= i <= |hooks| && !died
        invariant Notify(old(State()), hooks[..i], event, shots) == Progress(State(), false, Notify(old(State()), hooks[..i], event, shots).count)
      {
        assert hooks[..i + 1][..i] == hooks[..i];
        var hook, shot := hooks[i], shots(i);
        ghost var before := State();
        if hook.enabled && event in hook.events && shot.marshals {
          var ok := EnqueueDelivery(shot.id, NewRow(Webhook, hook.id, shot.created), shot.insert);
          died := shot.insert.Dies?;
          if !died && ok {
            died := AttemptWebhook(shot.id, 1, shot.attempt);
          }
        }
        assert NotifyOne(before, hook, event, shot).queue == State();
        if died {
          NotifyStops(old(State()), hooks, event, shots, i + 1);
          return;
        }
        i := i + 1;
      }
      assert hooks[..i] == hooks;
    }

    /** `dispatchEmail`. */
    method DispatchEmail(target: string, shot: Shot) returns (died: bool)
      modifies this
      ensures State() == Mail(old(State()), target, shot).queue && died == Mail(old(State()), target, shot).died
    {
      var _ := EnqueueDelivery(shot.id, NewRow(Email, target, shot.created), shot.insert);
      if shot.insert.Dies? || shot.attempt.reply.DiedFirst? { return true; }
      var ok := shot.attempt.reply.Accepted?;
      RecordAttempt(shot.id, ok, ZERO, shot.attempt.record);
      Book(shot.id, ok, Effective(shot.attempt.record), shot.attempt.clock, ZERO);
      died := shot.attempt.record.Dies?;
    }

    /** The body of the loop of `RetryPending`. */
    method RetryDelivery(hooks: seq<Hook>, id: string, row: Row, t: Try) returns (attempted: bool, died: bool)
      modifies this
      ensures var p := RetryOne(old(State()), hooks, id, row, t);
        State() == p.queue && died == p.died && (!died ==> p.count == if attempted then 1 else 0)
    {
      hide FormatFixed;
      attempted, died := false, false;
      if row.channel.Webhook? {
        if !Reachable(hooks, row.target) || !t.readable {
          RecordAttempt(id, false, ZERO, t.record);
          Book(id, false, Effective(t.record), t.clock, ZERO);
          died := t.record.Dies?;
        } else {
          died := AttemptWebhook(id, row.attempts + 1, t);
          attempted := true;
        }
      }
    }

    /** `RetryPending`, on the deliveries the query listed. */
    method RetryPending(now: Clock, hooks: seq<Hook>, ids: seq<string>, tries: nat -> Try) returns (n: nat, died: bool)
      requires Listed(rows, now, ids)
      modifies this
      ensures State() == Retry(old(State()), hooks, ids, tries, |ids|).queue
      ensures died == Retry(old(State()), hooks, ids, tries, |ids|).died
      ensures !died ==> n == Retry(old(State()), hooks, ids, tries, |ids|).count
    {
      hide FormatFixed;
      n, died := 0, false;
      var pending := rows;
      ghost var start := State();
      assert AllIn(ids, pending);
      var i := 0;
      while i < |ids|
        invariant 0 <= i <= |ids| && !died
        invariant Retry(start, hooks, ids, tries, i) == Progress(State(), false, n)
      {
        var attempted: bool;
        assert ids[i] in ids;
        attempted, died := RetryDelivery(hooks, ids[i], pending[ids[i]], tries(i));
        if died {
          RetryStops(start, hooks, ids, tries, i + 1, |ids|);
          return;
        }
        if attempted { n := n + 1; }
        i := i + 1;
      }
    }
  }
}
