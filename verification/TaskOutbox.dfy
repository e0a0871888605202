/** The local task queue and the worker that drains it onto the event bus. */
module TaskOutbox {
  import opened Common
  import Ordering

  const BATCH := 50

  datatype Event = Event(id: string, action: string, task: string, created: int, synced: bool)

  function Ids(es: seq<Event>): (ids: seq<string>)
    ensures |ids| == |es|
  {
    seq(|es|, i requires 0 <= i < |es| => es[i].id)
  }

  function Stamps(es: seq<Event>): (ks: seq<Ordering.Key>)
    ensures |ks| == |es|
  {
    seq(|es|, i requires 0 <= i < |es| => Ordering.Key(es[i].created, 0))
  }

  // ----- the SQL statements of the queue

  function Unsynced(rows: seq<Event>): seq<Event> {
    if rows == [] then []
    else (if rows[0].synced then [] else [rows[0]]) + Unsynced(rows[1..])
  }

  /** Up to `limit` unsynced rows, oldest first. */
  function PendingOf(rows: seq<Event>, limit: nat): seq<Event> {
    var es := Unsynced(rows);
    var order := Ordering.SortPositions(Stamps(es));
    var n := if limit < |es| then limit else |es|;
    seq(n, i requires 0 <= i < n => es[order[i]])
  }

  function Mark(rows: seq<Event>, ids: seq<string>): (r: seq<Event>)
    ensures |r| == |rows|
  {
    seq(|rows|, i requires 0 <= i < |rows| => if rows[i].id in ids then rows[i].(synced := true) else rows[i])
  }

  function Pruned(rows: seq<Event>, cutoff: int): seq<Event> {
    if rows == [] then []
    else (if rows[0].synced && rows[0].created < cutoff then [] else [rows[0]]) + Pruned(rows[1..], cutoff)
  }

  class TaskQueue {
    var rows: seq<Event>

    constructor ()
      ensures rows == []
    {
      rows := [];
    }

    /** `push`; a second row with the same id is refused by the primary key. */
    method Push(id: string, action: string, task: string, now: int) returns (ok: bool)
      modifies this
      ensures ok == (id !in Ids(old(rows)))
      ensures rows == if ok then old(rows) + [Event(id, action, task, now, false)] else old(rows)
    {
      ok := id !in Ids(rows);
      if ok {
        rows := rows + [Event(id, action, task, now, false)];
      }
    }

    method Pending(limit: nat) returns (batch: seq<Event>)
      ensures batch == PendingOf(rows, limit)
    {
      batch := PendingOf(rows, limit);
    }

    method MarkSynced(ids: seq<string>) returns (updated: nat)
      modifies this
      ensures rows == Mark(old(rows), ids)
      ensures updated == |set i | 0 <= i < |old(rows)| && old(rows)[i].id in ids|
    {
      ghost var hit: set<int> := {};
      updated := 0;
      for i := 0 to |rows|
        invariant rows == old(rows) && updated == |hit|
        invariant hit == set k | 0 <= k < i && rows[k].id in ids
      {
        if rows[i].id in ids {
          updated, hit := updated + 1, hit + {i};
        }
      }
      rows := Mark(rows, ids);
    }

    method Prune(cutoff: int) returns (deleted: nat)
      modifies this
      ensures rows == Pruned(old(rows), cutoff) && deleted == |old(rows)| - |rows|
    {
      PrunedShorter(rows, cutoff);
      deleted := |rows| - |Pruned(rows, cutoff)|;
      rows := Pruned(rows, cutoff);
    }
  }

  lemma PrunedShorter(rows: seq<Event>, cutoff: int)
    ensures |Pruned(rows, cutoff)| <= |rows|
  {
  }

  /** Exactly the synced rows older than the cutoff go. */
  lemma {:induction false} PrunedHolds(rows: seq<Event>, cutoff: int, e: Event)
    ensures e in Pruned(rows, cutoff) <==> e in rows && !(e.synced && e.created < cutoff)
  {
    if rows != [] {
      PrunedHolds(rows[1..], cutoff, e);
      assert rows == [rows[0]] + rows[1..];
    }
  }

  /** Marking sets the flag of the named rows and changes nothing else. */
  lemma MarkIsExact(rows: seq<Event>, ids: seq<string>, i: nat)
    requires i < |rows|
    ensures var x, y := rows[i], Mark(rows, ids)[i];
      y == Event(x.id, x.action, x.task, x.created, x.synced || x.id in ids)
  {
  }

  lemma {:induction false} UnsyncedHolds(rows: seq<Event>, e: Event)
    ensures e in Unsynced(rows) <==> e in rows && !e.synced
  {
    if rows != [] {
      UnsyncedHolds(rows[1..], e);
      assert rows == [rows[0]] + rows[1..];
    }
  }

  /** The batch holds unsynced rows, oldest first, and no unsynced row left out is older than one in it. */
  lemma PendingIsOldest(rows: seq<Event>, limit: nat, e: Event)
    ensures var b := PendingOf(rows, limit);
      && (forall i, j :: 0 <= i < j < |b| ==> b[i].created <= b[j].created)
      && (e in b ==> e in rows && !e.synced)
      && (e in rows && !e.synced && e !in b ==> |b| == limit && forall i :: 0 <= i < |b| ==> b[i].created <= e.created)
  {
    var es, b := Unsynced(rows), PendingOf(rows, limit);
    var keys := Stamps(es);
    var order := Ordering.SortPositions(keys);
    Ordering.SortHolds(keys);
    UnsyncedHolds(rows, e);
    forall i, j | 0 <= i < j < |b| ensures b[i].created <= b[j].created {
      assert Ordering.Before(keys, order[i], order[j]);
    }
    if e in es && e !in b {
      var p: nat :| p < |es| && es[p] == e;
      assert p in order;
      var l :| 0 <= l < |order| && order[l] == p;
      assert forall i :: 0 <= i < |b| ==> b[i] in b && b[i] == es[order[i]] && order[i] != p;
      forall i | 0 <= i < |b| ensures b[i].created <= e.created {
        assert Ordering.Before(keys, order[i], order[l]);
      }
    }
  }

  // ----- the protocol

  datatype Worker = Idle | Draining(batch: seq<Event>, next: nat, synced: seq<string>, stopped: bool)

  /** `pushed` and `log` only grow: every event ever queued, and every publication that took effect. */
  datatype World = World(pushed: seq<Event>, rows: seq<Event>, log: seq<string>, worker: Worker)

  /** What may happen next. A publication may fail with or without having reached the stream;
      a crash loses the worker's memory but not the table. */
  datatype Action =
    | Push(id: string, action: string, task: string, now: int)
    | Begin
    | PublishOk
    | PublishFail(reached: bool)
    | Finish
    | Crash
    | Prune(cutoff: int)

  const INIT := World([], [], [], Idle)

  predicate CanPublish(w: Worker) {
    w.Draining? && !w.stopped && w.next < |w.batch|
  }

  function Step(w: World, a: Action): World {
    match a
    case Push(id, action, task, now) =>
      var e := Event(id, action, task, now, false);
      if id in Ids(w.rows) then w else w.(pushed := w.pushed + [e], rows := w.rows + [e])
    case Begin =>
      if !w.worker.Idle? then w
      else
        var batch := PendingOf(w.rows, BATCH);
        if batch == [] then w else w.(worker := Draining(batch, 0, [], false))
    case PublishOk =>
      if !CanPublish(w.worker) then w
      else
        var id := w.worker.batch[w.worker.next].id;
        w.(log := w.log + [id], worker := w.worker.(next := w.worker.next + 1, synced := w.worker.synced + [id]))
    case PublishFail(reached) =>
      if !CanPublish(w.worker) then w
      else
        var log := if reached then w.log + [w.worker.batch[w.worker.next].id] else w.log;
        w.(log := log, worker := w.worker.(stopped := true))
    case Finish =>
      if !w.worker.Draining? || CanPublish(w.worker) then w
      else w.(rows := Mark(w.rows, w.worker.synced), worker := Idle)
    case Crash => w.(worker := Idle)
    case Prune(cutoff) => w.(rows := Pruned(w.rows, cutoff))
  }

  function Run(w: World, acts: seq<Action>): World {
    if acts == [] then w else Step(Run(w, acts[..|acts| - 1]), acts[|acts| - 1])
  }

  /** Event ids are new, and each event is stamped later than the ones before it. */
  ghost predicate WellStamped(w: World, a: Action) {
    a.Push? ==> a.id !in Ids(w.pushed) && forall e :: e in w.pushed ==> e.created < a.now
  }

  ghost predicate ValidRun(acts: seq<Action>) {
    forall k :: 0 <= k < |acts| ==> WellStamped(Run(INIT, acts[..k]), acts[k])
  }

  /** The log without repetitions, in order of first publication. */
  function Firsts(log: seq<string>): seq<string> {
    if log == [] then []
    else
      var n := |log| - 1;
      Firsts(log[..n]) + if log[n] in log[..n] then [] else [log[n]]
  }

  // ----- the invariant

  /** The table when the first `q` events are pruned and the first `m` are marked. */
  function Table(pushed: seq<Event>, q: nat, m: nat): (r: seq<Event>)
    requires q <= |pushed|
    ensures |r| == |pushed| - q
  {
    seq(|pushed| - q, i requires 0 <= i < |pushed| - q => pushed[q + i].(synced := q + i < m))
  }

  ghost predicate History(pushed: seq<Event>) {
    && Distinct(Ids(pushed))
    && (forall i :: 0 <= i < |pushed| ==> !pushed[i].synced)
    && (forall i, j :: 0 <= i < j < |pushed| ==> pushed[i].created < pushed[j].created)
  }

  ghost predicate WorkerOk(pushed: seq<Event>, worker: Worker, m: nat, p: nat) {
    worker.Draining? ==>
      && m + |worker.batch| <= |pushed| && |worker.batch| <= BATCH && worker.next <= |worker.batch|
      && worker.batch == pushed[m..m + |worker.batch|]
      && worker.synced == Ids(worker.batch[..worker.next])
      && m + worker.next <= p <= m + |worker.batch|
  }

  /** `q` events pruned, `m` marked or pruned, `p` published. */
  ghost predicate At(w: World, q: nat, m: nat, p: nat) {
    && History(w.pushed)
    && q <= m <= p <= |w.pushed| && p <= m + BATCH
    && w.rows == Table(w.pushed, q, m)
    && Firsts(w.log) == Ids(w.pushed)[..p]
    && WorkerOk(w.pushed, w.worker, m, p)
  }

  ghost predicate Inv(w: World) {
    exists q, m, p :: At(w, q, m, p)
  }

  // ----- the statements on a table of this shape

  lemma {:induction false} UnsyncedOfTable(pushed: seq<Event>, q: nat, m: nat)
    requires History(pushed) && q <= |pushed| && m <= |pushed|
    ensures Unsynced(Table(pushed, q, m)) == pushed[if q < m then m else q..]
    decreases |pushed| - q
  {
    if q < |pushed| {
      UnsyncedOfTable(pushed, q + 1, m);
      assert Table(pushed, q, m)[1..] == Table(pushed, q + 1, m);
      assert pushed[q..] == [pushed[q]] + pushed[q + 1..];
    }
  }

  lemma PendingOfTable(pushed: seq<Event>, q: nat, m: nat)
    requires History(pushed) && q <= m <= |pushed|
    ensures PendingOf(Table(pushed, q, m), BATCH) ==
      pushed[m..m + if BATCH < |pushed| - m then BATCH else |pushed| - m]
  {
    UnsyncedOfTable(pushed, q, m);
    var es := Unsynced(Table(pushed, q, m));
    assert es == pushed[m..];
    Ordering.SortedStays(Stamps(es), 0);
    var order := Ordering.SortPositions(Stamps(es));
    assert forall i :: 0 <= i < |es| ==> order[i] == i;
  }

  lemma IdPlaces(pushed: seq<Event>, lo: nat, hi: nat, i: nat)
    requires History(pushed) && lo <= hi <= |pushed| && i < |pushed|
    ensures pushed[i].id in Ids(pushed[lo..hi]) <==> lo <= i < hi
  {
    var ids := Ids(pushed[lo..hi]);
    if lo <= i < hi {
      assert ids[i - lo] == pushed[i].id;
    }
    if pushed[i].id in ids {
      var k :| 0 <= k < |ids| && ids[k] == pushed[i].id;
      assert Ids(pushed)[lo + k] == Ids(pushed)[i];
    }
  }

  lemma MarkOfTable(pushed: seq<Event>, q: nat, m: nat, k: nat)
    requires History(pushed) && q <= m && m + k <= |pushed|
    ensures Mark(Table(pushed, q, m), Ids(pushed[m..m + k])) == Table(pushed, q, m + k)
  {
    var rows, ids := Table(pushed, q, m), Ids(pushed[m..m + k]);
    var marked, table := Mark(rows, ids), Table(pushed, q, m + k);
    forall i | 0 <= i < |rows| ensures marked[i] == table[i] {
      IdPlaces(pushed, m, m + k, q + i);
    }
  }

  lemma {:induction false} PrunedKeeps(rows: seq<Event>, cutoff: int)
    requires forall i :: 0 <= i < |rows| ==> !rows[i].synced || rows[i].created >= cutoff
    ensures Pruned(rows, cutoff) == rows
  {
    if rows != [] {
      PrunedKeeps(rows[1..], cutoff);
    }
  }

  lemma {:induction false} PrunedOfTable(pushed: seq<Event>, q: nat, m: nat, cutoff: int) returns (q': nat)
    requires History(pushed) && q <= m <= |pushed|
    ensures q <= q' <= m && Pruned(Table(pushed, q, m), cutoff) == Table(pushed, q', m)
    decreases m - q
  {
    var rows := Table(pushed, q, m);
    if q < m && pushed[q].created < cutoff {
      assert rows[1..] == Table(pushed, q + 1, m);
      q' := PrunedOfTable(pushed, q + 1, m, cutoff);
    } else {
      PrunedKeeps(rows, cutoff);
      q' := q;
    }
  }

  lemma {:induction false} FirstsSame(log: seq<string>, id: string)
    ensures id in Firsts(log) <==> id in log
  {
    if log != [] {
      var n := |log| - 1;
      FirstsSame(log[..n], id);
      assert log == log[..n] + [log[n]];
    }
  }

  lemma {:induction false} FirstsAppend(log: seq<string>, id: string)
    ensures Firsts(log + [id]) == Firsts(log) + if id in Firsts(log) then [] else [id]
  {
    assert (log + [id])[..|log|] == log;
    FirstsSame(log, id);
  }

  // ----- every step keeps the invariant

  lemma PushKeeps(w: World, a: Action, q: nat, m: nat, p: nat)
    requires At(w, q, m, p) && a.Push? && WellStamped(w, a)
    ensures At(Step(w, a), q, m, p)
  {
    var e := Event(a.id, a.action, a.task, a.now, false);
    var pushed := w.pushed + [e];
    assert a.id !in Ids(w.rows) by {
      forall i | 0 <= i < |w.rows| ensures Ids(w.rows)[i] != a.id {
        assert Ids(w.pushed)[q + i] == w.rows[i].id;
      }
    }
    assert Ids(pushed) == Ids(w.pushed) + [a.id];
    assert Table(pushed, q, m) == w.rows + [e];
    assert forall e :: e in w.pushed ==> e.created < a.now;
    assert w.worker.Draining? ==> pushed[m..m + |w.worker.batch|] == w.pushed[m..m + |w.worker.batch|];
  }

  lemma BeginKeeps(w: World, q: nat, m: nat, p: nat)
    requires At(w, q, m, p)
    ensures At(Step(w, Begin), q, m, p)
  {
    PendingOfTable(w.pushed, q, m);
    assert w.worker.Idle? ==> Ids([]) == [];
  }

  /** The published prefix grows by the event at place `i`, if it was not published before. */
  lemma LogGrows(w: World, p: nat, i: nat)
    requires History(w.pushed) && i <= p <= |w.pushed| && i < |w.pushed| && Firsts(w.log) == Ids(w.pushed)[..p]
    ensures Firsts(w.log + [w.pushed[i].id]) == Ids(w.pushed)[..if i == p then p + 1 else p]
  {
    FirstsAppend(w.log, w.pushed[i].id);
    assert Ids(w.pushed)[i] == w.pushed[i].id;
    if i < p {
      assert Ids(w.pushed)[..p][i] == w.pushed[i].id;
    } else {
      assert Ids(w.pushed)[..p + 1] == Ids(w.pushed)[..p] + [w.pushed[i].id];
      assert forall k :: 0 <= k < p ==> Ids(w.pushed)[..p][k] == Ids(w.pushed)[k];
    }
  }

  lemma PublishOkKeeps(w: World, q: nat, m: nat, p: nat) returns (p': nat)
    requires At(w, q, m, p)
    ensures At(Step(w, PublishOk), q, m, p')
  {
    p' := p;
    if CanPublish(w.worker) {
      var k := w.worker.next;
      assert w.worker.batch[k] == w.pushed[m + k];
      LogGrows(w, p, m + k);
      IdsSnoc(w.worker.batch, k);
      p' := if m + k == p then p + 1 else p;
    }
  }

  lemma PublishFailKeeps(w: World, reached: bool, q: nat, m: nat, p: nat) returns (p': nat)
    requires At(w, q, m, p)
    ensures At(Step(w, PublishFail(reached)), q, m, p')
  {
    p' := p;
    if CanPublish(w.worker) {
      var k := w.worker.next;
      assert w.worker.batch[k] == w.pushed[m + k];
      LogGrows(w, p, m + k);
      p' := if reached && m + k == p then p + 1 else p;
    }
  }

  lemma IdsSnoc(b: seq<Event>, k: nat)
    requires k < |b|
    ensures Ids(b[..k + 1]) == Ids(b[..k]) + [b[k].id]
  {
  }

  lemma FinishKeeps(w: World, q: nat, m: nat, p: nat) returns (m': nat)
    requires At(w, q, m, p)
    ensures At(Step(w, Finish), q, m', p)
    ensures m' == if w.worker.Draining? && !CanPublish(w.worker) then m + w.worker.next else m
  {
    m' := m;
    if w.worker.Draining? && !CanPublish(w.worker) {
      var k := w.worker.next;
      assert w.worker.batch[..k] == w.pushed[m..m + k];
      MarkOfTable(w.pushed, q, m, k);
      m' := m + k;
    }
  }

  lemma StepKeeps(w: World, a: Action)
    requires Inv(w) && WellStamped(w, a)
    ensures Inv(Step(w, a))
  {
    var q, m, p :| At(w, q, m, p);
    match a
    case Push(_, _, _, _) => PushKeeps(w, a, q, m, p);
    case Begin => BeginKeeps(w, q, m, p);
    case PublishOk => var p' := PublishOkKeeps(w, q, m, p);
    case PublishFail(reached) => var p' := PublishFailKeeps(w, reached, q, m, p);
    case Finish => var m' := FinishKeeps(w, q, m, p);
    case Crash => assert At(Step(w, a), q, m, p);
    case Prune(cutoff) =>
      var q' := PrunedOfTable(w.pushed, q, m, cutoff);
      assert At(Step(w, a), q', m, p);
  }

  lemma {:induction false} RunKeeps(acts: seq<Action>)
    requires ValidRun(acts)
    ensures Inv(Run(INIT, acts))
  {
    if acts == [] {
      assert At(INIT, 0, 0, 0);
    } else {
      var n := |acts| - 1;
      forall k | 0 <= k < n ensures WellStamped(Run(INIT, acts[..n][..k]), acts[..n][k]) {
        assert acts[..n][..k] == acts[..k];
      }
      RunKeeps(acts[..n]);
      StepKeeps(Run(INIT, acts[..n]), acts[n]);
    }
  }

  // ----- what holds after every run

  /** No longer waiting in the table: marked as synced, or pruned. */
  predicate Settled(w: World, e: Event) {
    e !in w.rows
  }

  /** The log without repetitions follows the push order, and what stopped waiting was published. */
  ghost predicate Delivered(w: World) {
    && Firsts(w.log) <= Ids(w.pushed)
    && (forall e :: e in w.pushed && Settled(w, e) ==> e.id in w.log)
  }

  /** Published, but not marked yet. */
  function Unmarked(w: World): set<Event> {
    set e | e in w.rows && !e.synced && e.id in w.log
  }

  lemma DeliveredAt(w: World, q: nat, m: nat, p: nat)
    requires At(w, q, m, p)
    ensures Delivered(w)
  {
    forall e | e in w.pushed && Settled(w, e) ensures e.id in w.log {
      var i :| 0 <= i < |w.pushed| && w.pushed[i] == e;
      assert i >= q ==> w.rows[i - q] == e.(synced := i < m);
      assert Firsts(w.log)[i] == Ids(w.pushed)[i];
      FirstsSame(w.log, e.id);
    }
  }

  lemma UnmarkedPlace(w: World, q: nat, m: nat, p: nat, e: Event)
    requires At(w, q, m, p) && e in Unmarked(w)
    ensures e in w.pushed[m..p]
  {
    var i :| 0 <= i < |w.rows| && w.rows[i] == e;
    assert Ids(w.pushed)[..p] == Ids(w.pushed[0..p]);
    FirstsSame(w.log, e.id);
    IdPlaces(w.pushed, 0, p, q + i);
    assert w.pushed[m..p][q + i - m] == e;
  }

  lemma UnmarkedAt(w: World, q: nat, m: nat, p: nat)
    requires At(w, q, m, p)
    ensures |Unmarked(w)| <= BATCH
  {
    forall e | e in Unmarked(w) ensures e in w.pushed[m..p] {
      UnmarkedPlace(w, q, m, p, e);
    }
    WithinSeq(Unmarked(w), w.pushed[m..p]);
  }

  /** After every run, with crashes, failures and pruning: at-least-once delivery in push order,
      with at most one batch published and not yet marked. */
  lemma {:induction false} DeliveryHolds(acts: seq<Action>)
    requires ValidRun(acts)
    ensures Delivered(Run(INIT, acts)) && |Unmarked(Run(INIT, acts))| <= 50
  {
    RunKeeps(acts);
    var w := Run(INIT, acts);
    var q, m, p :| At(w, q, m, p);
    DeliveredAt(w, q, m, p);
    UnmarkedAt(w, q, m, p);
  }

  lemma {:induction false} WithinSeq<T>(s: set<T>, xs: seq<T>)
    requires forall x :: x in s ==> x in xs
    ensures |s| <= |xs|
  {
    if xs == [] {
      assert s == {};
    } else {
      var n := |xs| - 1;
      WithinSeq(s - {xs[n]}, xs[..n]);
      assert s <= (s - {xs[n]}) + {xs[n]};
      assert |s| <= |s - {xs[n]}| + 1;
    }
  }

  // ----- the worker

  /** How a publication ends: acknowledged, or failed before or after reaching the stream. */
  datatype Reply = Acknowledged | Failed(reached: bool)

  /** Publications from the `i`-th of `n` events on: up to the first failure. */
  function Publications(replies: nat -> Reply, i: nat, n: nat): seq<Action>
    requires i <= n
    decreases n - i
  {
    if i == n then []
    else if replies(i).Acknowledged? then [PublishOk] + Publications(replies, i + 1, n)
    else [PublishFail(replies(i).reached)]
  }

  /** The protocol steps of one drain over a batch of `n` events. */
  function DrainScript(replies: nat -> Reply, n: nat): seq<Action> {
    if n == 0 then [] else [Begin] + Publications(replies, 0, n) + [Finish]
  }

  // ----- progress

  function AllAcknowledged(i: nat): Reply {
    Acknowledged
  }

  function CleanDrain(w: World): World {
    Run(w, DrainScript(AllAcknowledged, |PendingOf(w.rows, BATCH)|))
  }

  function Repeat(f: World -> World, w: World, k: nat): World {
    if k == 0 then w else f(Repeat(f, w, k - 1))
  }

  /** The world after `k` drains without failures, and nothing else. */
  function CleanDrains(w: World, k: nat): World {
    Repeat(CleanDrain, w, k)
  }

  lemma {:induction false} RunConcat(w: World, a: seq<Action>, b: seq<Action>)
    ensures Run(w, a + b) == Run(Run(w, a), b)
  {
    if b == [] {
      assert a + b == a;
    } else {
      var n := |b| - 1;
      assert (a + b)[..|a + b| - 1] == a + b[..n];
      RunConcat(w, a, b[..n]);
    }
  }

  lemma {:induction false} RunOne(w: World, a: Action)
    ensures Run(w, [a]) == Step(w, a)
  {
    assert [a][..0] == [];
  }

  /** The worker has published the first `i` of `n` events. */
  ghost predicate Midway(w: World, pushed: seq<Event>, rows: seq<Event>, i: nat, n: nat) {
    && w.pushed == pushed && w.rows == rows
    && w.worker.Draining? && !w.worker.stopped && w.worker.next == i && |w.worker.batch| == n
  }

  lemma {:induction false} PublishesRest(w: World, q: nat, m: nat, p: nat, i: nat, n: nat) returns (p': nat)
    requires At(w, q, m, p) && Midway(w, w.pushed, w.rows, i, n) && i <= n
    ensures var w' := Run(w, Publications(AllAcknowledged, i, n));
      At(w', q, m, p') && Midway(w', w.pushed, w.rows, n, n)
    decreases n - i
  {
    p' := p;
    if i < n {
      var w1 := Step(w, PublishOk);
      p' := PublishOkKeeps(w, q, m, p);
      p' := PublishesRest(w1, q, m, p', i + 1, n);
      RunConcat(w, [PublishOk], Publications(AllAcknowledged, i + 1, n));
      RunOne(w, PublishOk);
    }
  }

  function Least(a: nat, b: nat): nat {
    if a < b then a else b
  }

  lemma {:induction false} RunAround(w: World, a: Action, acts: seq<Action>, b: Action)
    ensures Run(w, [a] + acts + [b]) == Step(Run(Step(w, a), acts), b)
  {
    RunOne(w, a);
    RunConcat(w, [a], acts);
    RunConcat(w, [a] + acts, [b]);
    RunOne(Run(Step(w, a), acts), b);
  }

  lemma {:induction false} DrainRuns(w: World, n: nat)
    requires n > 0
    ensures Run(w, DrainScript(AllAcknowledged, n)) == Drained(w, n)
  {
    RunAround(w, Begin, Publications(AllAcknowledged, 0, n), Finish);
  }

  lemma BeginsMidway(w: World, q: nat, m: nat, p: nat)
    requires At(w, q, m, p) && w.worker.Idle? && m < |w.pushed|
    ensures |PendingOf(w.rows, BATCH)| == Least(BATCH, |w.pushed| - m) > 0
    ensures Midway(Step(w, Begin), w.pushed, w.rows, 0, |PendingOf(w.rows, BATCH)|)
  {
    PendingOfTable(w.pushed, q, m);
  }

  lemma NothingToDrain(w: World, q: nat, m: nat, p: nat)
    requires At(w, q, m, p) && m == |w.pushed|
    ensures CleanDrain(w) == w
  {
    PendingOfTable(w.pushed, q, m);
  }

  lemma FinishesMidway(w: World, pushed: seq<Event>, rows: seq<Event>, n: nat)
    requires Midway(w, pushed, rows, n, n)
    ensures Step(w, Finish).worker.Idle? && Step(w, Finish).pushed == pushed && !CanPublish(w.worker) &&
      w.worker.next == n
  {
  }

  ghost predicate DrainedTo(w: World, pushed: seq<Event>, q: nat, m: nat) {
    w.worker.Idle? && w.pushed == pushed && m <= |pushed| && exists p: nat :: At(w, q, m, p)
  }

  lemma IsDrained(w: World, pushed: seq<Event>, q: nat, m: nat, p: nat)
    requires At(w, q, m, p) && w.worker.Idle? && w.pushed == pushed
    ensures DrainedTo(w, pushed, q, m)
  {
  }

  lemma DrainEnds(w: World, pushed: seq<Event>, rows: seq<Event>, q: nat, m: nat, p: nat, n: nat)
    requires At(w, q, m, p) && Midway(w, pushed, rows, n, n)
    ensures DrainedTo(Step(w, Finish), pushed, q, m + n)
  {
    FinishesMidway(w, pushed, rows, n);
    var m' := FinishKeeps(w, q, m, p);
    IsDrained(Step(w, Finish), pushed, q, m', p);
  }

  lemma {:induction false} DrainBegins(w: World, q: nat, m: nat, p: nat, n: nat)
    requires At(w, q, m, p) && Midway(w, w.pushed, w.rows, 0, n)
    ensures DrainedTo(Step(Run(w, Publications(AllAcknowledged, 0, n)), Finish), w.pushed, q, m + n)
  {
    var p' := PublishesRest(w, q, m, p, 0, n);
    DrainEnds(Run(w, Publications(AllAcknowledged, 0, n)), w.pushed, w.rows, q, m, p', n);
  }

  /** A drain of `n` events, taken apart. */
  function Drained(w: World, n: nat): World {
    Step(Run(Step(w, Begin), Publications(AllAcknowledged, 0, n)), Finish)
  }

  lemma DrainedKeeps(w: World, q: nat, m: nat, p: nat)
    requires At(w, q, m, p) && w.worker.Idle? && m < |w.pushed|
    ensures var n := |PendingOf(w.rows, BATCH)|;
      n == Least(BATCH, |w.pushed| - m) > 0 && DrainedTo(Drained(w, n), w.pushed, q, m + n)
  {
    BeginsMidway(w, q, m, p);
    BeginKeeps(w, q, m, p);
    DrainBegins(Step(w, Begin), q, m, p, |PendingOf(w.rows, BATCH)|);
  }

  lemma DrainedFurther(w: World, pushed: seq<Event>, q: nat, m: nat)
    requires DrainedTo(w, pushed, q, m)
    ensures DrainedTo(CleanDrain(w), pushed, q, m + Least(BATCH, |pushed| - m))
  {
    var p: nat :| At(w, q, m, p);
    if m == |pushed| {
      NothingToDrain(w, q, m, p);
    } else {
      DrainedKeeps(w, q, m, p);
      DrainRuns(w, |PendingOf(w.rows, BATCH)|);
    }
  }

  /** As many events as `k` full batches hold. */
  function Batches(k: nat): (n: nat)
    ensures n == k * 50
  {
    if k == 0 then 0 else Batches(k - 1) + BATCH
  }

  lemma LeastStep(m: nat, taken: nat, n: nat)
    ensures Least(m + taken, n) <= n
    ensures Least(m + taken, n) + Least(BATCH, n - Least(m + taken, n)) == Least(m + (taken + BATCH), n)
  {
  }

  /** What holds of a count that grows by a batch each time, up to `n`. */
  lemma {:induction false} RepeatHolds(f: World -> World, w: World, k: nat, inv: (World, nat) -> bool, m: nat, n: nat)
    requires m <= n && inv(w, m)
    requires forall x, j: nat :: j <= n && inv(x, j) ==> inv(f(x), j + Least(BATCH, n - j))
    ensures inv(Repeat(f, w, k), Least(m + Batches(k), n))
  {
    if k > 0 {
      RepeatHolds(f, w, k - 1, inv, m, n);
      LeastStep(m, Batches(k - 1), n);
    }
  }

  lemma {:induction false} CleanDrainsTo(w: World, k: nat, pushed: seq<Event>, q: nat, m: nat)
    requires DrainedTo(w, pushed, q, m)
    ensures DrainedTo(CleanDrains(w, k), pushed, q, Least(m + Batches(k), |pushed|))
  {
    ghost var inv := (x: World, j: nat) => DrainedTo(x, pushed, q, j);
    forall x, j: nat | j <= |pushed| && inv(x, j) ensures inv(CleanDrain(x), j + Least(BATCH, |pushed| - j)) {
      DrainedFurther(x, pushed, q, j);
    }
    RepeatHolds(CleanDrain, w, k, inv, m, |pushed|);
    assert inv(CleanDrains(w, k), Least(m + Batches(k), |pushed|));
  }

  /** After any run, each drain without failures takes a batch off what is pending: `k` of them leave
      the pending events but the oldest `k` batches, and once none is pending all were published. */
  lemma {:induction false} DrainsProgress(acts: seq<Action>, k: nat)
    requires ValidRun(acts) && Run(INIT, acts).worker.Idle?
    ensures var w := Run(INIT, acts); var w' := CleanDrains(w, k); var n := |Unsynced(w.rows)|;
      && Unsynced(w'.rows) == Unsynced(w.rows)[Least(Batches(k), n)..]
      && (Batches(k) >= n ==> forall e :: e in w.pushed ==> e.id in w'.log)
  {
    RunKeeps(acts);
    var w := Run(INIT, acts);
    var q: nat, m: nat, p: nat :| At(w, q, m, p);
    CleanDrainsTo(w, k, w.pushed, q, m);
    var p': nat :| At(CleanDrains(w, k), q, Least(m + Batches(k), |w.pushed|), p');
    DrainedRows(w, CleanDrains(w, k), q, m, p, p', Batches(k));
  }

  lemma DrainedRows(w: World, w': World, q: nat, m: nat, p: nat, p': nat, taken: nat)
    requires At(w, q, m, p) && At(w', q, Least(m + taken, |w.pushed|), p') && w'.pushed == w.pushed
    ensures var n := |Unsynced(w.rows)|;
      && Unsynced(w'.rows) == Unsynced(w.rows)[Least(taken, n)..]
      && (taken >= n ==> forall e :: e in w.pushed ==> e.id in w'.log)
  {
    var m' := Least(m + taken, |w.pushed|);
    UnsyncedOfTable(w.pushed, q, m);
    UnsyncedOfTable(w.pushed, q, m');
    if m' == |w.pushed| {
      AllPublished(w', q, m', p');
    }
  }

  lemma AllPublished(w: World, q: nat, m: nat, p: nat)
    requires At(w, q, m, p) && m == |w.pushed|
    ensures forall e :: e in w.pushed ==> e.id in w.log
  {
    forall e | e in w.pushed ensures e.id in w.log {
      var i :| 0 <= i < |w.pushed| && w.pushed[i] == e;
      assert Firsts(w.log)[i] == Ids(w.pushed)[i];
      FirstsSame(w.log, e.id);
    }
  }

  // ----- what one drain does

  /** The first `k` of `n` publications are acknowledged, and the next one, if any, is not. */
  predicate Leading(replies: nat -> Reply, k: nat, n: nat) {
    k <= n && (forall j :: 0 <= j < k ==> replies(j).Acknowledged?) && (k < n ==> replies(k).Failed?)
  }

  /** The id of the event that was not acknowledged but reached the stream all the same. */
  function Straggler(batch: seq<Event>, replies: nat -> Reply, k: nat): seq<string>
    requires k <= |batch|
  {
    if k < |batch| && replies(k).Failed? && replies(k).reached then [batch[k].id] else []
  }

  lemma {:induction false} PublicationsRun(w: World, replies: nat -> Reply, i: nat, k: nat)
    requires CanPublish(w.worker) || (w.worker.Draining? && !w.worker.stopped)
    requires w.worker.next == i <= k && Leading(replies, k, |w.worker.batch|)
    ensures var b := w.worker.batch;
      Run(w, Publications(replies, i, |b|)) ==
        World(w.pushed, w.rows, w.log + Ids(b[i..k]) + Straggler(b, replies, k),
              Draining(b, k, w.worker.synced + Ids(b[i..k]), k < |b|))
    decreases k - i
  {
    var b := w.worker.batch;
    if i < k {
      var next := Step(w, PublishOk);
      PublicationsRun(next, replies, i + 1, k);
      RunConcat(w, [PublishOk], Publications(replies, i + 1, |b|));
      RunOne(w, PublishOk);
      assert Ids(b[i..k]) == [b[i].id] + Ids(b[i + 1..k]);
      Regroup(w.log, [b[i].id], Ids(b[i + 1..k]), Straggler(b, replies, k));
      Regroup(w.worker.synced, [b[i].id], Ids(b[i + 1..k]), []);
    } else {
      assert Ids(b[i..k]) == [] && w.log + [] == w.log && w.worker.synced + [] == w.worker.synced;
      if k < |b| {
        RunOne(w, PublishFail(replies(k).reached));
      }
    }
  }

  lemma Regroup(a: seq<string>, b: seq<string>, c: seq<string>, d: seq<string>)
    ensures a + (b + c) + d == a + b + c + d && a + (b + c) == a + b + c
  {
  }

  lemma {:induction false} MarkedRows(rows: seq<Event>, b: seq<Event>, k: nat)
    requires k <= |b|
    ensures var r := Mark(rows, Ids(b[..k]));
      |r| == |rows| && forall i :: 0 <= i < |rows| ==>
        r[i] == if exists j :: 0 <= j < k && b[j].id == rows[i].id then rows[i].(synced := true) else rows[i]
  {
    forall id ensures id in Ids(b[..k]) <==> exists j :: 0 <= j < k && b[j].id == id {
      if j :| 0 <= j < k && b[j].id == id {
        assert Ids(b[..k])[j] == id;
      }
    }
  }

  lemma {:induction false} DrainSteps(w: World, replies: nat -> Reply, k: nat, b: seq<Event>)
    requires w.worker == Idle && b == PendingOf(w.rows, BATCH) != [] && Leading(replies, k, |b|)
    ensures Run(w, [Begin] + Publications(replies, 0, |b|) + [Finish]) ==
      World(w.pushed, Mark(w.rows, Ids(b[..k])), w.log + Ids(b[..k]) + Straggler(b, replies, k), Idle)
  {
    PublicationsRun(Step(w, Begin), replies, 0, k);
    RunAround(w, Begin, Publications(replies, 0, |b|), Finish);
    assert b[0..k] == b[..k];
  }

  /** One drain, literally: the oldest unsynced events are published in order up to the first failure, and
      exactly the acknowledged ones are marked. */
  lemma {:induction false} DrainIsExact(w: World, replies: nat -> Reply, k: nat)
    requires w.worker == Idle && Leading(replies, k, |PendingOf(w.rows, 50)|)
    ensures var b := PendingOf(w.rows, 50); var w' := Run(w, DrainScript(replies, |b|));
      && w'.pushed == w.pushed && w'.worker == Idle
      && w'.log == w.log + Ids(b[..k]) + Straggler(b, replies, k)
      && |w'.rows| == |w.rows|
      && forall i :: 0 <= i < |w.rows| ==>
           w'.rows[i] == if exists j :: 0 <= j < k && b[j].id == w.rows[i].id
                         then w.rows[i].(synced := true) else w.rows[i]
  {
    var b := PendingOf(w.rows, 50);
    MarkedRows(w.rows, b, k);
    if b == [] {
      assert Ids(b[..k]) == [] && w.log + [] == w.log;
    } else {
      DrainSteps(w, replies, k, b);
    }
  }

  // ----- the worker's own steps

  function ActionOf(reply: Reply): Action {
    if reply.Acknowledged? then PublishOk else PublishFail(reply.reached)
  }

  /** The world after the reply to the worker's current publication. */
  lemma {:induction false} AfterReply(before: World, acts: seq<Action>, w: World, reply: Reply)
    requires Run(before, acts) == w && CanPublish(w.worker)
    ensures var id, k := w.worker.batch[w.worker.next].id, w.worker;
      Run(before, acts + [ActionOf(reply)]) ==
        World(w.pushed, w.rows, if reply.Acknowledged? || reply.reached then w.log + [id] else w.log,
              if reply.Acknowledged? then Draining(k.batch, k.next + 1, k.synced + [id], false)
              else Draining(k.batch, k.next, k.synced, true))
  {
  }

  lemma {:induction false} AfterBegin(w: World)
    requires w.worker.Idle? && PendingOf(w.rows, BATCH) != []
    ensures Run(w, [Begin]) == w.(worker := Draining(PendingOf(w.rows, BATCH), 0, [], false))
  {
    assert [] + [Begin] == [Begin];
  }

  lemma {:induction false} AfterFinish(before: World, acts: seq<Action>, w: World)
    requires Run(before, acts) == w && w.worker.Draining? && !CanPublish(w.worker)
    ensures Run(before, acts + [Finish]) ==
      w.(rows := if w.worker.synced == [] then w.rows else Mark(w.rows, w.worker.synced), worker := Idle)
  {
    assert Mark(w.rows, []) == w.rows;
  }

  lemma PublicationStep(replies: nat -> Reply, i: nat, n: nat, acts: seq<Action>, all: seq<Action>)
    requires i < n && acts + Publications(replies, i, n) == all
    ensures acts + [ActionOf(replies(i))]
      + (if replies(i).Acknowledged? then Publications(replies, i + 1, n) else []) == all
  {
  }

  class TaskSyncWorker {
    const queue: TaskQueue
    var published: seq<string>
    var running: bool

    constructor (queue: TaskQueue)
      ensures this.queue == queue && published == [] && !running
    {
      this.queue := queue;
      published, running := [], false;
    }

    ghost function Snapshot(pushed: seq<Event>): World
      reads this, queue
    {
      World(pushed, queue.rows, published, Idle)
    }

    method Stop()
      modifies this`running
      ensures !running
    {
      running := false;
    }

    /** `_drain_once`, with `replies` for the outcomes of the publications: a run of protocol steps. */
    method DrainOnce(replies: nat -> Reply, ghost pushed: seq<Event>)
      modifies this`published, queue
      ensures Snapshot(pushed) ==
        Run(old(Snapshot(pushed)), DrainScript(replies, |PendingOf(old(queue.rows), BATCH)|))
    {
      var pending := queue.Pending(BATCH);
      ghost var acts := [];
      if pending == [] {
        return;
      }
      ghost var before := Snapshot(pushed);
      acts := [Begin];
      AfterBegin(before);
      ghost var script := [Begin] + Publications(replies, 0, |pending|);
      var syncedIds: seq<string>, failed, i := [], false, 0;
      while i < |pending| && !failed
        invariant i <= |pending| && queue.rows == before.rows
        invariant acts + (if failed then [] else Publications(replies, i, |pending|)) == script
        invariant Run(before, acts) == World(pushed, queue.rows, published, Draining(pending, i, syncedIds, failed))
        decreases |pending| - i, !failed
      {
        AfterReply(before, acts, World(pushed, queue.rows, published, Draining(pending, i, syncedIds, failed)),
          replies(i));
        PublicationStep(replies, i, |pending|, acts, script);
        acts := acts + [ActionOf(replies(i))];
        if replies(i).Acknowledged? || replies(i).reached {
          published := published + [pending[i].id];
        }
        if replies(i).Acknowledged? {
          syncedIds := syncedIds + [pending[i].id];
          i := i + 1;
        } else {
          failed := true;
        }
      }
      AfterFinish(before, acts, World(pushed, queue.rows, published, Draining(pending, i, syncedIds, failed)));
      assert acts == script;
      if syncedIds != [] {
        var n := queue.MarkSynced(syncedIds);
      }
    }
  }
}
