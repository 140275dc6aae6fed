/** What every sequential run of the alert dispatcher keeps, whatever fails and wherever it dies. */
module DeliveryRuns {
  import opened Optional
  import opened Text
  import opened Calendar
  import opened Timestamps
  import opened Delivery

  // ---- the invariant ----

  /**
   A delivery that waits for a retry has one to four recorded attempts, and its column holds the
   time of its last failure plus the delay of that attempt. The calls that reached the endpoint
   are the recorded attempts, plus those whose record was lost, less those never sent.
   */
  ghost predicate Sound(r: Row, h: History) {
    && r.attempts <= MAX_ATTEMPTS
    && h.sends + h.unsent == r.attempts + h.lost
    && if r.status != Pending then r.attempts >= 1 && r.next == None
       else if r.attempts == 0 then r.next == None
       else Waits(r, h)
  }

  ghost predicate Waits(r: Row, h: History) {
    && r.channel.Webhook? && 1 <= r.attempts <= 4 && ZERO < h.failedAt < DAYS * DAY - 64 * SECOND
    && InRange(h.failedAt + Pow4(r.attempts - 1) * SECOND)
    && r.next == NullTime(h.failedAt + Pow4(r.attempts - 1) * SECOND)
  }

  ghost predicate Inv(q: Queue) {
    q.rows.Keys == q.log.Keys && forall id :: id in q.rows ==> Sound(q.rows[id], q.log[id])
  }

  /** A row changes only by a recorded attempt, and not at all once it is delivered or failed. */
  ghost predicate Later(q: Queue, q': Queue, id: string)
    requires id in q.rows && id in q.log
  {
    && id in q'.rows && id in q'.log
    && q'.rows[id].(status := Pending, attempts := 0, next := None) == q.rows[id].(status := Pending, attempts := 0, next := None)
    && (q'.rows[id] == q.rows[id] || MAX_ATTEMPTS - q'.rows[id].attempts < MAX_ATTEMPTS - q.rows[id].attempts)
    && (q.rows[id].status != Pending ==> q'.rows[id] == q.rows[id] && q'.log[id] == q.log[id])
  }

  ghost predicate Advances(q: Queue, q': Queue)
    requires q.rows.Keys == q.log.Keys
  {
    forall id :: id in q.rows ==> Later(q, q', id)
  }

  /** Nothing but this delivery differs. */
  ghost predicate OnlyAt(q: Queue, q': Queue, id: string) {
    && q'.rows.Keys == q.rows.Keys && q'.log.Keys == q.log.Keys
    && (forall d :: d in q.rows && d != id ==> q'.rows[d] == q.rows[d])
    && (forall d :: d in q.log && d != id ==> q'.log[d] == q.log[d])
  }

  ghost predicate Kept(q: Queue, q': Queue)
    requires q.rows.Keys == q.log.Keys
  {
    Inv(q') && Advances(q, q')
  }

  lemma KeptCompose(a: Queue, b: Queue, c: Queue)
    requires Inv(a) && Kept(a, b) && Kept(b, c)
    ensures Kept(a, c)
  {
    forall id | id in a.rows ensures Later(a, c, id) { assert Later(a, b, id) && Later(b, c, id); }
  }

  // ---- one delivery ----

  lemma SettleKeeps(q: Queue, id: string, ok: bool, sent: bool, clock: Instant, next: Instant, fate: Fate)
    requires Inv(q) && id in q.rows && q.rows[id].status == Pending && InRange(next)
    requires q.rows[id].attempts < MAX_ATTEMPTS && (ok ==> next == ZERO)
    requires next != ZERO ==>
      && q.rows[id].channel.Webhook? && q.rows[id].attempts <= 3 && ZERO < clock < DAYS * DAY - 64 * SECOND
      && next == clock + Pow4(q.rows[id].attempts) * SECOND
    ensures var q' := Settle(q, id, ok, sent, clock, next, fate); Kept(q, q') && OnlyAt(q, q', id)
  {
    hide FormatFixed, Sound;
    var q' := Settle(q, id, ok, sent, clock, next, fate);
    SettledSound(q.rows[id], q.log[id], ok, sent, clock, next);
    LostSound(q.rows[id], q.log[id], sent, clock, next);
    forall d | d in q'.rows ensures Sound(q'.rows[d], q'.log[d]) {}
  }

  lemma SettledSound(r: Row, h: History, ok: bool, sent: bool, clock: Instant, next: Instant)
    requires Sound(r, h) && r.status == Pending && InRange(next)
    requires r.attempts < MAX_ATTEMPTS && (ok ==> next == ZERO)
    requires next != ZERO ==>
      && r.channel.Webhook? && r.attempts <= 3 && ZERO < clock < DAYS * DAY - 64 * SECOND
      && next == clock + Pow4(r.attempts) * SECOND
    ensures Sound(Recorded(r, ok, next), Booked(h, sent, true, clock, next))
  {
    hide FormatFixed;
  }

  lemma LostSound(r: Row, h: History, sent: bool, clock: Instant, next: Instant)
    requires Sound(r, h)
    ensures Sound(r, Booked(h, sent, false, clock, next))
  {
    hide FormatFixed;
  }

  lemma NothingKept(q: Queue, id: string)
    requires Inv(q)
    ensures Kept(q, q) && OnlyAt(q, q, id)
  {
    hide Sound;
  }

  /** An attempt numbered one past the recorded ones keeps the machine in order. */
  lemma AttemptKeeps(q: Queue, id: string, t: Try)
    requires Inv(q) && id in q.rows && q.rows[id].status == Pending && q.rows[id].channel.Webhook?
    ensures var q' := Attempt(q, id, q.rows[id].attempts + 1, t).queue; Kept(q, q') && OnlyAt(q, q', id)
  {
    hide FormatFixed, Settle, Kept, OnlyAt;
    assert Kept(q, q) && OnlyAt(q, q, id) by { NothingKept(q, id); }
    assert Sound(q.rows[id], q.log[id]);
    if !t.reply.DiedFirst? {
      var k := q.rows[id].attempts + 1;
      Ladder(k);
      SettleKeeps(q, id, t.reply.Accepted?, !t.reply.Unsendable?, t.clock, NextAfter(k, t), t.record);
    }
  }

  lemma EnqueueKeeps(q: Queue, id: string, channel: Channel, target: string, created: Clock, fate: Fate)
    requires Inv(q)
    ensures Kept(q, Enqueue(q, id, NewRow(channel, target, created), fate))
  {
  }

  lemma NotifyOneKeeps(q: Queue, hook: Hook, event: string, shot: Shot)
    requires Inv(q)
    ensures Kept(q, NotifyOne(q, hook, event, shot).queue)
  {
    hide FormatTime, Attempt, Sound, Later;
    var q1 := Enqueue(q, shot.id, NewRow(Webhook, hook.id, shot.created), shot.insert);
    EnqueueKeeps(q, shot.id, Webhook, hook.id, shot.created, shot.insert);
    assert Kept(q, q) by { NothingKept(q, shot.id); }
    if shot.id !in q.rows && shot.insert.Works? {
      AttemptKeeps(q1, shot.id, shot.attempt);
      KeptCompose(q, q1, Attempt(q1, shot.id, 1, shot.attempt).queue);
    }
  }

  /**
   Queued before it is sent: once the insert has taken effect, wherever the process dies, the
   delivery is in the table, with its one attempt recorded or due at any clock.
   */
  lemma QueuedIsNotLost(q: Queue, hook: Hook, event: string, shot: Shot, now: Clock)
    requires hook.enabled && event in hook.events && shot.marshals && shot.id !in q.rows && Effective(shot.insert)
    ensures var rows := NotifyOne(q, hook, event, shot).queue.rows;
      && shot.id in rows && rows[shot.id].target == hook.id && rows[shot.id].channel == Webhook
      && ((rows[shot.id].attempts == 0 && Due(rows[shot.id], now))
          || (rows[shot.id].attempts == 1 && shot.insert.Works? && Effective(shot.attempt.record)))
  {
    hide FormatFixed, Delay;
  }

  lemma {:induction false} NotifyKeeps(q: Queue, hooks: seq<Hook>, event: string, shots: nat -> Shot)
    requires Inv(q)
    ensures Kept(q, Notify(q, hooks, event, shots).queue)
  {
    if hooks != [] {
      var front := hooks[..|hooks| - 1];
      NotifyKeeps(q, front, event, shots);
      var p := Notify(q, front, event, shots);
      NotifyOneKeeps(p.queue, hooks[|hooks| - 1], event, shots(|hooks| - 1));
      KeptCompose(q, p.queue, NotifyOne(p.queue, hooks[|hooks| - 1], event, shots(|hooks| - 1)).queue);
    }
  }

  /** A mail under a fresh id is recorded once. */
  lemma MailKeeps(q: Queue, target: string, shot: Shot)
    requires Inv(q) && shot.id !in q.rows
    ensures Kept(q, Mail(q, target, shot).queue)
  {
    hide FormatFixed;
    var q1 := Enqueue(q, shot.id, NewRow(Email, target, shot.created), shot.insert);
    EnqueueKeeps(q, shot.id, Email, target, shot.created, shot.insert);
    var ok := shot.attempt.reply.Accepted?;
    var q2 := Settle(q1, shot.id, ok, ok, shot.attempt.clock, ZERO, shot.attempt.record);
    if shot.id in q1.rows {
      SettleKeeps(q1, shot.id, ok, ok, shot.attempt.clock, ZERO, shot.attempt.record);
      KeptCompose(q, q1, q2);
    } else {
      assert q2 == q1 == q;
    }
  }

  /**
   The insert's failure is ignored for mail, and the record that follows is an UPDATE by id: the
   rows already there survive every mail exactly when the id drawn is none of theirs.
   */
  lemma MailFreshExactly(q: Queue, target: string, id: string)
    requires Inv(q)
    ensures (forall shot: Shot, d :: shot.id == id && d in q.rows ==> d in Mail(q, target, shot).queue.rows && Mail(q, target, shot).queue.rows[d] == q.rows[d])
       <==> id !in q.rows
  {
    hide FormatFixed;
    if id in q.rows {
      var t := Try(true, Accepted, ZERO + 1, Works);
      var shot := Shot(id, ZERO + 1, true, Works, t);
      assert Mail(q, target, shot).queue.rows[id].attempts == q.rows[id].attempts + 1;
      assert shot.id == id;
    }
  }

  // ---- one call of RetryPending ----

  lemma GiveUpKeeps(q: Queue, id: string, t: Try)
    requires Inv(q) && id in q.rows && q.rows[id].status == Pending
    ensures var q' := GiveUp(q, id, t).queue; Kept(q, q') && OnlyAt(q, q', id)
  {
    hide FormatFixed;
    assert Sound(q.rows[id], q.log[id]);
    SettleKeeps(q, id, false, false, t.clock, ZERO, t.record);
  }

  lemma RetryOneKeeps(q: Queue, hooks: seq<Hook>, id: string, t: Try)
    requires Inv(q) && id in q.rows && q.rows[id].status == Pending
    ensures var q' := RetryOne(q, hooks, id, q.rows[id], t).queue; Kept(q, q') && OnlyAt(q, q', id)
  {
    hide Sound, Attempt, GiveUp;
    if q.rows[id].channel.Webhook? {
      AttemptKeeps(q, id, t);
      GiveUpKeeps(q, id, t);
    }
  }

  ghost predicate AllPending(q: Queue, ids: seq<string>) {
    && (forall i :: 0 <= i < |ids| ==> ids[i] in q.rows && q.rows[ids[i]].status == Pending)
    && (forall i, j :: 0 <= i < j < |ids| ==> ids[i] != ids[j])
  }

  /** The deliveries past the first `n` listed are as the query read them. */
  ghost predicate Unvisited(q: Queue, q': Queue, ids: seq<string>, n: nat)
    requires n <= |ids|
  {
    && q'.rows.Keys == q.rows.Keys && q'.log.Keys == q.log.Keys
    && (forall d :: d in q.rows && d !in ids[..n] ==> q'.rows[d] == q.rows[d])
    && (forall d :: d in q.log && d !in ids[..n] ==> q'.log[d] == q.log[d])
  }

  lemma NextUnvisited(q: Queue, p: Queue, ids: seq<string>, n: nat)
    requires n < |ids| && AllPending(q, ids) && Unvisited(q, p, ids, n) && q.rows.Keys == q.log.Keys
    ensures ids[n] in p.rows && ids[n] in p.log && p.rows[ids[n]] == q.rows[ids[n]] && p.log[ids[n]] == q.log[ids[n]]
  {
    assert ids[n] !in ids[..n];
  }

  lemma VisitOne(q: Queue, p: Queue, q': Queue, ids: seq<string>, n: nat)
    requires n < |ids| && Unvisited(q, p, ids, n) && OnlyAt(p, q', ids[n])
    ensures Unvisited(q, q', ids, n + 1)
  {
    assert ids[..n + 1] == ids[..n] + [ids[n]];
  }

  lemma StayUnvisited(q: Queue, p: Queue, ids: seq<string>, n: nat)
    requires n < |ids| && Unvisited(q, p, ids, n)
    ensures Unvisited(q, p, ids, n + 1)
  {
    assert ids[..n + 1] == ids[..n] + [ids[n]];
  }

  lemma RetryStep(q: Queue, hooks: seq<Hook>, ids: seq<string>, tries: nat -> Try, n: nat)
    requires n < |ids| && AllIn(ids, q.rows)
    ensures var p := Retry(q, hooks, ids, tries, n);
      Retry(q, hooks, ids, tries, n + 1).queue
        == if p.died then p.queue else RetryOne(p.queue, hooks, ids[n], q.rows[ids[n]], tries(n)).queue
  {
  }

  lemma RetryNone(q: Queue, hooks: seq<Hook>, ids: seq<string>, tries: nat -> Try)
    requires Inv(q) && AllIn(ids, q.rows)
    ensures Retry(q, hooks, ids, tries, 0).queue == q && Kept(q, q) && Unvisited(q, q, ids, 0)
  {
    hide Sound;
  }

  lemma {:induction false} RetryKeeps(q: Queue, hooks: seq<Hook>, ids: seq<string>, tries: nat -> Try, n: nat)
    requires Inv(q) && AllPending(q, ids) && n <= |ids| && AllIn(ids, q.rows)
    ensures var q' := Retry(q, hooks, ids, tries, n).queue; Kept(q, q') && Unvisited(q, q', ids, n)
  {
    hide Sound, RetryOne, Retry, Unvisited, OnlyAt, Later;
    if n == 0 {
      RetryNone(q, hooks, ids, tries);
    } else {
      RetryKeeps(q, hooks, ids, tries, n - 1);
      RetryStep(q, hooks, ids, tries, n - 1);
      var p, id := Retry(q, hooks, ids, tries, n - 1), ids[n - 1];
      if p.died {
        StayUnvisited(q, p.queue, ids, n - 1);
      } else {
        NextUnvisited(q, p.queue, ids, n - 1);
        RetryOneKeeps(p.queue, hooks, id, tries(n - 1));
        var q' := RetryOne(p.queue, hooks, id, q.rows[id], tries(n - 1)).queue;
        KeptCompose(q, p.queue, q');
        VisitOne(q, p.queue, q', ids, n - 1);
      }
    }
  }

  /** What one listed delivery becomes, on its own. */
  function Alone(q: Queue, hooks: seq<Hook>, id: string, t: Try): Row
    requires id in q.rows
  {
    var q' := RetryOne(q, hooks, id, q.rows[id], t).queue;
    if id in q'.rows then q'.rows[id] else q.rows[id]
  }

  lemma RetriesDied(q: Queue, hooks: seq<Hook>, ids: seq<string>, tries: nat -> Try, n: nat)
    requires 0 < n <= |ids| && AllIn(ids, q.rows) && !Retry(q, hooks, ids, tries, n).died
    ensures !Retry(q, hooks, ids, tries, n - 1).died
  {
  }

  /** The row a retry writes depends on the row alone, not on the rest of the table. */
  lemma AloneIsLocal(q: Queue, p: Queue, hooks: seq<Hook>, id: string, t: Try)
    requires id in q.rows && id in p.rows && p.rows[id] == q.rows[id]
    ensures var q' := RetryOne(p, hooks, id, q.rows[id], t).queue; id in q'.rows && q'.rows[id] == Alone(q, hooks, id, t)
  {
    hide FormatFixed, NextAfter;
  }

  /** Each listed delivery gets the outcome of its own attempt, whatever the others come to. */
  lemma {:induction false} RetryActsOnEach(q: Queue, hooks: seq<Hook>, ids: seq<string>, tries: nat -> Try, n: nat, i: nat)
    requires Inv(q) && AllPending(q, ids) && i < n <= |ids| && AllIn(ids, q.rows)
    requires !Retry(q, hooks, ids, tries, n).died
    ensures var q' := Retry(q, hooks, ids, tries, n).queue;
      ids[i] in q'.rows && q'.rows[ids[i]] == Alone(q, hooks, ids[i], tries(i))
  {
    hide Sound, RetryOne, Retry, Alone, Later, Unvisited;
    RetriesDied(q, hooks, ids, tries, n);
    RetryStep(q, hooks, ids, tries, n - 1);
    RetryKeeps(q, hooks, ids, tries, n - 1);
    var p, id := Retry(q, hooks, ids, tries, n - 1), ids[n - 1];
    NextUnvisited(q, p.queue, ids, n - 1);
    if i == n - 1 {
      AloneIsLocal(q, p.queue, hooks, id, tries(i));
    } else {
      RetryActsOnEach(q, hooks, ids, tries, n - 1, i);
      RetryOneKeeps(p.queue, hooks, id, tries(n - 1));
    }
  }

  /**
   What a listed webhook delivery comes to once its attempt is recorded: delivered exactly when the
   endpoint accepted it, waiting exactly when it refused one of the first four attempts, failed
   otherwise; a webhook no longer configured and an unreadable payload end it.
   */
  lemma OutcomeExactly(q: Queue, hooks: seq<Hook>, id: string, t: Try)
    requires Inv(q) && id in q.rows && q.rows[id].status == Pending && q.rows[id].channel.Webhook?
    requires Effective(t.record) && !t.reply.DiedFirst?
    ensures var row, sendable := Alone(q, hooks, id, t), Reachable(hooks, q.rows[id].target) && t.readable;
      && row.attempts == q.rows[id].attempts + 1
      && (row.status == Delivered <==> sendable && t.reply == Accepted)
      && (row.status == Pending <==> sendable && t.reply == Rejected && q.rows[id].attempts < MAX_ATTEMPTS - 1)
      && (row.status == Pending ==> row.next == Some(FormatTime(t.clock + Delay(row.attempts))))
  {
    hide FormatFixed;
    assert Sound(q.rows[id], q.log[id]);
    Ladder(q.rows[id].attempts + 1);
  }

  lemma ListedPending(rows: map<string, Row>, now: Clock, ids: seq<string>)
    requires Listed(rows, now, ids)
    ensures AllIn(ids, rows) && AllPending(Queue(rows, map[]), ids)
  {
    forall i | 0 <= i < |ids| ensures ids[i] in rows && rows[ids[i]].status == Pending { assert ids[i] in ids; }
  }

  // ---- when a delivery is tried again ----

  /** The query's text comparison reads the schedule exactly: due means that the delay has passed. */
  lemma DueExactly(q: Queue, id: string, now: Clock)
    requires Inv(q) && id in q.rows && q.rows[id].status == Pending && q.rows[id].attempts >= 1
    ensures Due(q.rows[id], now) <==> q.log[id].failedAt + Pow4(q.rows[id].attempts - 1) * SECOND <= now
  {
    hide FormatFixed;
    assert Sound(q.rows[id], q.log[id]);
    ColumnNotAfter(q.log[id].failedAt + Pow4(q.rows[id].attempts - 1) * SECOND, now);
  }

  /** The delivery may be sent at this clock: it was never tried, or the delay after its last recorded failure is over. */
  ghost predicate OnTime(q: Queue, id: string, now: Clock) {
    && id in q.rows && id in q.log && q.rows[id].status == Pending
    && (q.rows[id].attempts >= 1 ==> q.log[id].failedAt + Pow4(q.rows[id].attempts - 1) * SECOND <= now)
  }

  lemma ListedOnTime(q: Queue, now: Clock, ids: seq<string>, id: string)
    requires Inv(q) && Listed(q.rows, now, ids) && id in ids
    ensures OnTime(q, id, now)
  {
    hide Sound, FormatTime;
    if q.rows[id].attempts >= 1 { DueExactly(q, id, now); }
  }

  // ---- runs ----

  datatype Op =
    | DoNotify(hooks: seq<Hook>, event: string, shots: nat -> Shot)
    | DoMail(target: string, shot: Shot)
    | DoRetry(now: Clock, configured: seq<Hook>, ids: seq<string>, tries: nat -> Try)

  /** The database answers the query, and mails draw fresh ids. */
  ghost predicate Permitted(q: Queue, op: Op) {
    && (op.DoRetry? ==> Listed(q.rows, op.now, op.ids))
    && (op.DoMail? ==> op.shot.id !in q.rows)
  }

  ghost function Step(q: Queue, op: Op): Queue {
    match op
    case DoNotify(hooks, event, shots) => Notify(q, hooks, event, shots).queue
    case DoMail(target, shot) => Mail(q, target, shot).queue
    case DoRetry(now, hooks, ids, tries) => if AllIn(ids, q.rows) then Retry(q, hooks, ids, tries, |ids|).queue else q
  }

  ghost function Run(q: Queue, ops: seq<Op>): Queue {
    if ops == [] then q else Step(Run(q, ops[..|ops| - 1]), ops[|ops| - 1])
  }

  ghost predicate PermittedRun(q: Queue, ops: seq<Op>) {
    forall i :: 0 <= i < |ops| ==> Permitted(Run(q, ops[..i]), ops[i])
  }

  lemma StepKeeps(q: Queue, op: Op)
    requires Inv(q) && Permitted(q, op)
    ensures Kept(q, Step(q, op))
  {
    match op
    case DoNotify(hooks, event, shots) => NotifyKeeps(q, hooks, event, shots);
    case DoMail(target, shot) => MailKeeps(q, target, shot);
    case DoRetry(now, hooks, ids, tries) =>
      ListedPending(q.rows, now, ids);
      RetryKeeps(q, hooks, ids, tries, |ids|);
  }

  lemma PermittedPrefix(q: Queue, ops: seq<Op>, i: nat)
    requires PermittedRun(q, ops) && i <= |ops|
    ensures PermittedRun(q, ops[..i])
  {
    hide Permitted, Step;
    forall j | 0 <= j < i ensures Permitted(Run(q, ops[..i][..j]), ops[..i][j]) {
      assert ops[..i][..j] == ops[..j];
    }
  }

  lemma {:induction false} RunKeeps(q: Queue, ops: seq<Op>)
    requires Inv(q) && PermittedRun(q, ops)
    ensures Kept(q, Run(q, ops))
  {
    hide Step, Permitted, Sound, Advances;
    if ops == [] {
      NothingKept(q, "");
    } else {
      var front := ops[..|ops| - 1];
      PermittedPrefix(q, ops, |ops| - 1);
      RunKeeps(q, front);
      StepKeeps(Run(q, front), ops[|ops| - 1]);
      KeptCompose(q, Run(q, front), Run(q, ops));
    }
  }

  /**
   The retry machine over whole runs, from any state in order: at most five recorded attempts; a
   waiting delivery has one to four of them and was scheduled 4^(k-1) seconds after its last
   failure; delivered and failed are final; every change of a row uses up one of the five.
   */
  lemma {:induction false} DeliveriesAreBounded(q: Queue, ops: seq<Op>, id: string)
    requires Inv(q) && PermittedRun(q, ops) && id in q.rows
    ensures var end := Run(q, ops);
      && id in end.rows && id in end.log && id in q.log
      && q.rows[id].attempts <= end.rows[id].attempts <= MAX_ATTEMPTS
      && (end.rows[id].status == Pending && end.rows[id].attempts >= 1 ==> Waits(end.rows[id], end.log[id]))
      && (q.rows[id].status != Pending ==> end.rows[id] == q.rows[id] && end.log[id] == q.log[id])
      && (end.rows[id] != q.rows[id] ==> MAX_ATTEMPTS - end.rows[id].attempts < MAX_ATTEMPTS - q.rows[id].attempts)
  {
    RunKeeps(q, ops);
    assert Later(q, Run(q, ops), id);
    assert Sound(Run(q, ops).rows[id], Run(q, ops).log[id]);
  }

  /** In no run is a delivery tried again before its delay has passed since its last recorded failure. */
  lemma {:induction false} NeverRetriedEarly(q: Queue, ops: seq<Op>, i: nat, id: string)
    requires Inv(q) && PermittedRun(q, ops) && i < |ops| && ops[i].DoRetry? && id in ops[i].ids
    ensures OnTime(Run(q, ops[..i]), id, ops[i].now)
  {
    hide Step, Sound, Listed;
    PermittedPrefix(q, ops, i);
    RunKeeps(q, ops[..i]);
    assert Permitted(Run(q, ops[..i]), ops[i]);
    ListedOnTime(Run(q, ops[..i]), ops[i].now, ops[i].ids, id);
  }

  // ---- what is sent, against what is recorded ----

  /** The calls that reached an endpoint exceed the five only by records that were lost. */
  lemma {:induction false} SendsAreBounded(q: Queue, ops: seq<Op>, id: string)
    requires Inv(q) && PermittedRun(q, ops) && id in q.rows
    ensures var end := Run(q, ops);
      && id in end.rows && id in end.log
      && end.log[id].sends == end.rows[id].attempts + end.log[id].lost - end.log[id].unsent
      && (end.log[id].lost == 0 ==> end.log[id].sends <= MAX_ATTEMPTS)
  {
    RunKeeps(q, ops);
    assert Sound(Run(q, ops).rows[id], Run(q, ops).log[id]);
  }

  /** A retry whose request is refused and whose record is lost. */
  function Unrecorded(n: nat): Try {
    Try(true, Rejected, ZERO + 1, Fails(false))
  }

  function Stuck(id: string, hook: Hook, sends: nat): Queue {
    Queue(map[id := NewRow(Webhook, hook.id, ZERO + 1)], map[id := History(ZERO, sends, sends, 0)])
  }

  function Retries(id: string, hook: Hook, n: nat): (ops: seq<Op>)
    ensures |ops| == n
    ensures forall i :: 0 <= i < n ==> ops[i] == DoRetry(ZERO + 1, [hook], [id], Unrecorded)
  {
    seq(n, i requires 0 <= i < n => DoRetry(ZERO + 1, [hook], [id], Unrecorded))
  }

  lemma StuckStep(id: string, hook: Hook, sends: nat)
    requires hook.enabled
    ensures var op := DoRetry(ZERO + 1, [hook], [id], Unrecorded);
      Permitted(Stuck(id, hook, sends), op) && Step(Stuck(id, hook, sends), op) == Stuck(id, hook, sends + 1)
  {
    hide FormatFixed;
    var q, ids := Stuck(id, hook, sends), [id];
    assert Reachable([hook], hook.id);
    assert Retry(q, [hook], ids, Unrecorded, 0) == Progress(q, false, 0);
    Ladder(1);
  }

  lemma StuckInOrder(id: string, hook: Hook)
    ensures Inv(Stuck(id, hook, 0))
  {
  }

  /**
   "Five attempts in total" is a bound on records, not on requests: for every number there is a
   run, each of its records lost, that sends the same delivery that many times.
   */
  lemma {:induction false} LostRecordsRepeat(id: string, hook: Hook, n: nat)
    requires hook.enabled
    ensures var q, ops := Stuck(id, hook, 0), Retries(id, hook, n);
      Inv(q) && PermittedRun(q, ops) && Run(q, ops) == Stuck(id, hook, n)
  {
    hide FormatFixed, Permitted, Step, Retries;
    StuckInOrder(id, hook);
    if n > 0 {
      hide Inv, Stuck;
      var q, ops, front := Stuck(id, hook, 0), Retries(id, hook, n), Retries(id, hook, n - 1);
      LostRecordsRepeat(id, hook, n - 1);
      StuckStep(id, hook, n - 1);
      assert ops[..n - 1] == front;
      forall i | 0 <= i < n ensures Permitted(Run(q, ops[..i]), ops[i]) {
        if i < n - 1 { assert ops[..i] == front[..i]; }
      }
    }
  }

  // ---- the fifty oldest ----

  /** The due deliveries created before this one. */
  ghost function Older(rows: map<string, Row>, now: Clock, id: string): set<string>
    requires id in rows
  {
    set d | d in rows && Due(rows[d], now) && Less(rows[d].created, rows[id].created)
  }

  function Elements(ids: seq<string>): set<string> {
    set i | 0 <= i < |ids| :: ids[i]
  }

  lemma {:induction false} DistinctCount(ids: seq<string>)
    requires forall i, j :: 0 <= i < j < |ids| ==> ids[i] != ids[j]
    ensures |Elements(ids)| == |ids|
  {
    if ids != [] {
      var front, last := ids[..|ids| - 1], ids[|ids| - 1];
      DistinctCount(front);
      assert Elements(ids) == Elements(front) + {last};
    }
  }

  lemma {:induction false} SubsetCount<T>(a: set<T>, b: set<T>)
    requires a <= b
    ensures |a| <= |b|
  {
    if a != {} {
      var x :| x in a;
      SubsetCount(a - {x}, b - {x});
    }
  }

  /** The other due deliveries created no later than this one. */
  ghost function NoLater(rows: map<string, Row>, now: Clock, id: string): set<string>
    requires id in rows
  {
    set d | d in rows && d != id && Due(rows[d], now) && !Less(rows[id].created, rows[d].created)
  }

  /** No other due delivery was created at the same instant. */
  predicate SoleInstant(rows: map<string, Row>, now: Clock, id: string)
    requires id in rows
  {
    forall d :: d in rows && d != id && Due(rows[d], now) ==> rows[d].created != rows[id].created
  }

  /** Some answer that the query permits reads the delivery. */
  ghost predicate MayBeRead(rows: map<string, Row>, now: Clock, id: string) {
    exists ids :: Listed(rows, now, ids) && id in ids
  }

  /** Every answer that the query permits reads it. */
  ghost predicate MustBeRead(rows: map<string, Row>, now: Clock, id: string) {
    forall ids :: Listed(rows, now, ids) ==> id in ids
  }

  /**
   Which due deliveries are read, exactly: one may be if and only if fewer than fifty due ones were
   created before it, and must be if and only if fewer than fifty others were created no later. The
   query leaves the order of equal instants open; for a delivery that shares its instant with no
   other the two are one.
   */
  lemma ListedExactly(rows: map<string, Row>, now: Clock, ids: seq<string>, id: string)
    requires Listed(rows, now, ids) && id in rows && Due(rows[id], now)
    ensures MayBeRead(rows, now, id) <==> |Older(rows, now, id)| < LIMIT
    ensures MustBeRead(rows, now, id) <==> |NoLater(rows, now, id)| < LIMIT
    ensures SoleInstant(rows, now, id) ==> Older(rows, now, id) == NoLater(rows, now, id)
  {
    hide Due, Listed, Older, NoLater, SoleInstant;
    forall other | Listed(rows, now, other)
      ensures id in other ==> |Older(rows, now, id)| < LIMIT
      ensures |NoLater(rows, now, id)| < LIMIT ==> id in other
    {
      if id in other { OlderListed(rows, now, other, id); } else { NoLaterFill(rows, now, other, id); }
    }
    if id !in ids && |Older(rows, now, id)| < LIMIT { var other := CanBeRead(rows, now, ids, id); }
    if id in ids && |NoLater(rows, now, id)| >= LIMIT { var other := CanBeLeft(rows, now, ids, id); }
    SoleOlder(rows, now, id);
  }

  lemma NoLaterFill(rows: map<string, Row>, now: Clock, ids: seq<string>, id: string)
    requires Listed(rows, now, ids) && id in rows && Due(rows[id], now) && id !in ids
    ensures |NoLater(rows, now, id)| >= LIMIT
  {
    hide Due;
    DistinctCount(ids);
    forall d | d in Elements(ids) ensures d in NoLater(rows, now, id) { assert d in ids; }
    SubsetCount(Elements(ids), NoLater(rows, now, id));
  }

  /** Of two due deliveries of one instant the query may read either. */
  lemma EitherOfTwo(rows: map<string, Row>, now: Clock, ids: seq<string>, k: nat, d: string)
    requires Listed(rows, now, ids) && k < |ids| && d !in ids && d in rows && Due(rows[d], now)
    requires rows[d].created == rows[ids[k]].created
    ensures Listed(rows, now, ids[k := d]) && d in ids[k := d] && ids[k] !in ids[k := d]
  {
    hide Due, Less;
    var other := ids[k := d];
    assert other[k] == d;
    assert forall i :: 0 <= i < |ids| ==> rows[other[i]].created == rows[ids[i]].created;
    forall e, f | e in rows && Due(rows[e], now) && f in other && Less(rows[e].created, rows[f].created) ensures e in other {
      var i :| 0 <= i < |other| && other[i] == f;
      assert ids[i] in ids && Less(rows[e].created, rows[ids[i]].created);
      var j :| 0 <= j < |ids| && ids[j] == e;
      if j != k { assert other[j] == e; }
    }
  }

  lemma CanBeRead(rows: map<string, Row>, now: Clock, ids: seq<string>, id: string) returns (other: seq<string>)
    requires Listed(rows, now, ids) && id in rows && Due(rows[id], now) && id !in ids && |Older(rows, now, id)| < LIMIT
    ensures Listed(rows, now, other) && id in other
  {
    hide Due, Less;
    DistinctCount(ids);
    if Elements(ids) <= Older(rows, now, id) { SubsetCount(Elements(ids), Older(rows, now, id)); }
    var e :| e in Elements(ids) && e !in Older(rows, now, id);
    var k :| 0 <= k < |ids| && ids[k] == e;
    assert e in ids;
    LessTotal(rows[e].created, rows[id].created);
    EitherOfTwo(rows, now, ids, k, id);
    other := ids[k := id];
  }

  lemma CanBeLeft(rows: map<string, Row>, now: Clock, ids: seq<string>, id: string) returns (other: seq<string>)
    requires Listed(rows, now, ids) && id in ids && |NoLater(rows, now, id)| >= LIMIT
    ensures Listed(rows, now, other) && id !in other
  {
    hide Due, Less;
    DistinctCount(ids);
    if NoLater(rows, now, id) <= Elements(ids) - {id} { SubsetCount(NoLater(rows, now, id), Elements(ids) - {id}); }
    var d :| d in NoLater(rows, now, id) && d !in Elements(ids) - {id};
    assert d !in ids;
    LessTotal(rows[d].created, rows[id].created);
    var k :| 0 <= k < |ids| && ids[k] == id;
    EitherOfTwo(rows, now, ids, k, d);
    other := ids[k := d];
  }

  lemma SoleOlder(rows: map<string, Row>, now: Clock, id: string)
    requires id in rows
    ensures Older(rows, now, id) <= NoLater(rows, now, id)
    ensures SoleInstant(rows, now, id) ==> Older(rows, now, id) == NoLater(rows, now, id)
  {
    hide Due;
    LessIrreflexive(rows[id].created);
    forall d | d in rows && Less(rows[d].created, rows[id].created) ensures d != id && !Less(rows[id].created, rows[d].created) {
      if Less(rows[id].created, rows[d].created) { LessTransitive(rows[id].created, rows[d].created, rows[id].created); }
    }
    forall d | d in rows && !Less(rows[id].created, rows[d].created)
      ensures rows[d].created == rows[id].created || Less(rows[d].created, rows[id].created)
    {
      LessTotal(rows[d].created, rows[id].created);
    }
  }

  lemma OlderListed(rows: map<string, Row>, now: Clock, ids: seq<string>, id: string)
    requires Listed(rows, now, ids) && id in ids
    ensures |Older(rows, now, id)| < LIMIT
  {
    DistinctCount(ids);
    LessIrreflexive(rows[id].created);
    forall d | d in Older(rows, now, id) + {id} ensures d in Elements(ids) {
      assert d in ids;
    }
    SubsetCount(Older(rows, now, id) + {id}, Elements(ids));
  }

  /** Mails that wait in the table, created before the delivery. */
  ghost function OlderMail(q: Queue, id: string): set<string>
    requires id in q.rows
  {
    set d | d in q.rows && WaitingMail(q.rows[d]) && Less(q.rows[d].created, q.rows[id].created)
  }

  predicate WaitingMail(r: Row) {
    r.channel.Email? && r.status == Pending && r.next.None?
  }

  lemma StarvedStep(q: Queue, op: Op, id: string)
    requires Inv(q) && Permitted(q, op) && id in q.rows && |OlderMail(q, id)| >= LIMIT
    ensures var q' := Step(q, op); id in q'.rows && q'.rows[id] == q.rows[id] && OlderMail(q, id) <= OlderMail(q', id)
  {
    match op
    case DoNotify(hooks, event, shots) => NotifyLeaves(q, hooks, event, shots);
    case DoMail(target, shot) => MailFreshExactly(q, target, shot.id);
    case DoRetry(now, hooks, ids, tries) =>
      if id in ids {
        SubsetCount(OlderMail(q, id), Older(q.rows, now, id));
        OlderListed(q.rows, now, ids, id);
      }
      ListedPending(q.rows, now, ids);
      RetryKeeps(q, hooks, ids, tries, |ids|);
      RetrySkipsMail(q, hooks, ids, tries, |ids|);
  }

  lemma {:induction false} NotifyLeaves(q: Queue, hooks: seq<Hook>, event: string, shots: nat -> Shot)
    ensures forall d :: d in q.rows ==>
      d in Notify(q, hooks, event, shots).queue.rows && Notify(q, hooks, event, shots).queue.rows[d] == q.rows[d]
  {
    hide FormatFixed;
    if hooks != [] { NotifyLeaves(q, hooks[..|hooks| - 1], event, shots); }
  }

  lemma {:induction false} RetrySkipsMail(q: Queue, hooks: seq<Hook>, ids: seq<string>, tries: nat -> Try, n: nat)
    requires n <= |ids| && AllIn(ids, q.rows)
    ensures var q' := Retry(q, hooks, ids, tries, n).queue;
      forall d :: d in q.rows && q.rows[d].channel.Email? ==> d in q'.rows && q'.rows[d] == q.rows[d]
  {
    if n > 0 { RetrySkipsMail(q, hooks, ids, tries, n - 1); }
  }

  /**
   Mails left pending by a death are skipped but still read: behind fifty of them, no run ever
   tries a webhook delivery again.
   */
  lemma {:induction false} MailStarvesRetries(q: Queue, ops: seq<Op>, id: string)
    requires Inv(q) && PermittedRun(q, ops) && id in q.rows && |OlderMail(q, id)| >= LIMIT
    ensures var end := Run(q, ops); id in end.rows && end.rows[id] == q.rows[id] && OlderMail(q, id) <= OlderMail(end, id)
  {
    if ops != [] {
      hide Inv, Permitted, Step, OlderMail, Advances;
      var front := ops[..|ops| - 1];
      PermittedPrefix(q, ops, |ops| - 1);
      assert ops[..|ops| - 1] == front;
      MailStarvesRetries(q, front, id);
      RunKeeps(q, front);
      SubsetCount(OlderMail(q, id), OlderMail(Run(q, front), id));
      StarvedStep(Run(q, front), ops[|ops| - 1], id);
    }
  }
}
