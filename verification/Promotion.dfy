/** Promotion of working-memory entries into the persistent store. */
module Promotion {
  import opened Common
  import Sentences

  /** A stored value: text that is no JSON, or the fields read from it. */
  datatype Stored = BadJson | Data(importance: real, accessCount: int, content: string, kind: string)

  datatype Item = Item(id: string, value: Stored)

  datatype MemoryRow = MemoryRow(agent: string, kind: string, content: string, importance: real, accessCount: int,
                                 source: string)

  const ACCESS_THRESHOLD: int := 3
  const IMPORTANCE_FLOOR: real := 0.4

  // ----- one item

  predicate ValidKind(k: string) {
    k == "fact" || k == "observation" || k == "decision" || k == "context" || k == "preference" || k == "episode" ||
    k == "learning"
  }

  datatype Verdict = Broken | Skip | Promote

  function Judge(v: Stored): Verdict {
    if v.BadJson? then Broken
    else if v.importance < IMPORTANCE_FLOOR && v.accessCount < ACCESS_THRESHOLD then Skip
    else if Sentences.Strip(v.content) == "" then Skip
    else Promote
  }

  function RowOf(agent: string, item: Item): MemoryRow
    requires item.value.Data?
  {
    var v := item.value;
    MemoryRow(agent, if ValidKind(v.kind) then v.kind else "context", Sentences.Strip(v.content), v.importance,
              v.accessCount, item.id)
  }

  const PREFIX := "wm:"

  function AgentOf(key: string): string {
    var name := if PREFIX <= key then key[|PREFIX|..] else key;
    if name == "" then "default" else name
  }

  // ----- what a row keeps of its entry

  ghost predicate AllSpace(s: string) {
    forall i :: 0 <= i < |s| ==> Sentences.IsSpace(s[i])
  }

  /** `t` is `s` without the whitespace at its ends. */
  ghost predicate Bare(s: string, t: string) {
    && (exists a, b {:trigger AllSpace(a), AllSpace(b)} :: s == a + t + b && AllSpace(a) && AllSpace(b))
    && t != "" && !Sentences.IsSpace(t[0]) && !Sentences.IsSpace(t[|t| - 1])
  }

  ghost predicate AgentFits(agent: string, key: string) {
    && (forall name :: key == "wm:" + name ==> agent == if name == "" then "default" else name)
    && (!("wm:" <= key) ==> agent == if key == "" then "default" else key)
  }

  ghost predicate KindFits(kind: string, given: string) {
    if given in {"fact", "observation", "decision", "context", "preference", "episode", "learning"} then kind == given
    else kind == "context"
  }

  /** The row holds the entry: its text, its figures, its id, its kind if it is one, and its agent. */
  ghost predicate RowFits(row: MemoryRow, key: string, item: Item) {
    item.value.Data? && var v := item.value;
    && Bare(v.content, row.content) && KindFits(row.kind, v.kind) && AgentFits(row.agent, key)
    && row.importance == v.importance && row.accessCount == v.accessCount && row.source == item.id
  }

  ghost predicate HasRow(rows: seq<MemoryRow>, key: string, item: Item) {
    exists row :: row in rows && RowFits(row, key, item)
  }

  /** Important or often used, and not blank. */
  ghost predicate Worthy(v: Stored) {
    v.Data? && (v.importance >= 0.4 || v.accessCount >= 3) &&
    exists i :: 0 <= i < |v.content| && !Sentences.IsSpace(v.content[i])
  }

  lemma {:induction false} StripHolds(s: string)
    ensures var t := Sentences.Strip(s); if AllSpace(s) then t == "" else Bare(s, t)
    decreases |s|
  {
    if s == "" {
    } else if Sentences.IsSpace(s[0]) {
      StripHolds(s[1..]);
      StripFront(s, Sentences.Strip(s[1..]));
    } else if Sentences.IsSpace(s[|s| - 1]) {
      StripHolds(s[..|s| - 1]);
      StripBack(s, Sentences.Strip(s[..|s| - 1]));
    } else {
      assert s == "" + s + "" && AllSpace("");
    }
  }

  lemma StripFront(s: string, t: string)
    requires s != "" && Sentences.IsSpace(s[0])
    requires if AllSpace(s[1..]) then t == "" else Bare(s[1..], t)
    ensures if AllSpace(s) then t == "" else Bare(s, t)
  {
    assert AllSpace(s[1..]) ==> AllSpace(s) by {
      assert forall i :: 1 <= i < |s| ==> s[i] == s[1..][i - 1];
    }
    if !AllSpace(s[1..]) {
      var a, b :| s[1..] == a + t + b && AllSpace(a) && AllSpace(b);
      assert s == ([s[0]] + a) + t + b && AllSpace([s[0]] + a);
      assert !AllSpace(s) by {
        assert t[0] == s[1 + |a|];
      }
    }
  }

  lemma StripBack(s: string, t: string)
    requires s != "" && Sentences.IsSpace(s[|s| - 1]) && !Sentences.IsSpace(s[0])
    requires if AllSpace(s[..|s| - 1]) then t == "" else Bare(s[..|s| - 1], t)
    ensures if AllSpace(s) then t == "" else Bare(s, t)
  {
    var n := |s| - 1;
    assert s[..n][0] == s[0];
    var a, b :| s[..n] == a + t + b && AllSpace(a) && AllSpace(b);
    assert s == a + t + (b + [s[n]]) && AllSpace(b + [s[n]]);
  }

  lemma JudgeHolds(v: Stored)
    ensures Judge(v) == Broken <==> v.BadJson?
    ensures Judge(v) == Promote <==> Worthy(v)
  {
    if v.Data? {
      StripHolds(v.content);
    }
  }

  lemma RowOfFits(key: string, item: Item)
    requires Judge(item.value) == Promote
    ensures RowFits(RowOf(AgentOf(key), item), key, item)
  {
    StripHolds(item.value.content);
    forall name | key == "wm:" + name ensures AgentOf(key) == if name == "" then "default" else name {
      assert key[3..] == name;
    }
  }

  // ----- stores that may fail

  datatype Reply = Reply(insert: Fate, delete: Fate)

  type Redis = map<string, seq<Item>>

  datatype Stores = Stores(redis: Redis, rows: seq<MemoryRow>)

  datatype Tally = Promoted | Skipped | Error

  function Dropped(items: seq<Item>, id: string): seq<Item> {
    if items == [] then [] else (if items[0].id == id then [] else [items[0]]) + Dropped(items[1..], id)
  }

  /** The table's bounds on the importance refuse a row outside them. */
  function InsertFate(row: MemoryRow, f: Fate): Fate {
    if 0.0 <= row.importance <= 1.0 then f else Refused
  }

  function InsertRow(s: Stores, row: MemoryRow, f: Fate): Stores {
    if Effective(InsertFate(row, f)) then s.(rows := s.rows + [row]) else s
  }

  function DropField(s: Stores, key: string, id: string, f: Fate): Stores {
    if Effective(f) && key in s.redis then s.(redis := s.redis[key := Dropped(s.redis[key], id)]) else s
  }

  function PromoteOne(s: Stores, key: string, item: Item, r: Reply): Stores {
    if Judge(item.value) != Promote then s
    else
      var row := RowOf(AgentOf(key), item);
      var s1 := InsertRow(s, row, r.insert);
      if InsertFate(row, r.insert) == Done then DropField(s1, key, item.id, r.delete) else s1
  }

  function TallyOf(key: string, item: Item, r: Reply): Tally {
    match Judge(item.value)
    case Broken => Error
    case Skip => Skipped
    case Promote =>
      if InsertFate(RowOf(AgentOf(key), item), r.insert) == Done && r.delete == Done then Promoted else Error
  }

  // ----- nothing is lost

  /** The item is still in Redis, or the persistent store has a row that holds it. */
  ghost predicate Kept(s: Stores, key: string, item: Item) {
    (key in s.redis && item in s.redis[key]) || HasRow(s.rows, key, item)
  }

  ghost predicate UniqueFields(redis: Redis) {
    forall key, i, j :: key in redis && 0 <= i < j < |redis[key]| ==> redis[key][i].id != redis[key][j].id
  }

  lemma {:induction false} DroppedHolds(items: seq<Item>, id: string, x: Item)
    ensures x in Dropped(items, id) <==> x in items && x.id != id
  {
    if items != [] {
      DroppedHolds(items[1..], id, x);
      assert items == [items[0]] + items[1..];
    }
  }

  /** What is left in Redis is part of what was there. */
  ghost predicate Shrinks(a: Redis, b: Redis) {
    b.Keys == a.Keys && forall key, x :: key in b && x in b[key] ==> x in a[key]
  }

  lemma PromoteOneShrinks(start: Redis, s: Stores, key: string, item: Item, r: Reply)
    requires Shrinks(start, s.redis)
    ensures Shrinks(start, PromoteOne(s, key, item, r).redis)
  {
    var s' := PromoteOne(s, key, item, r);
    forall k, x | k in s'.redis && x in s'.redis[k] ensures x in start[k] {
      if k == key {
        DroppedHolds(s.redis[key], item.id, x);
      }
    }
  }

  /** Handling one item moves it or leaves it, and keeps all others, whatever fails. */
  lemma PromoteOneKeeps(start: Redis, s: Stores, key: string, item: Item, r: Reply, k: string, x: Item)
    requires UniqueFields(start) && key in start && item in start[key] && k in start && x in start[k]
    requires Kept(s, k, x)
    ensures Kept(PromoteOne(s, key, item, r), k, x)
  {
    if Judge(item.value) == Promote {
      var row := RowOf(AgentOf(key), item);
      var s1 := InsertRow(s, row, r.insert);
      RowOfFits(key, item);
      assert Kept(s1, k, x);
      if key in s.redis {
        DroppedHolds(s.redis[key], item.id, x);
        if k == key && x.id == item.id {
        }
      }
    }
  }

  /** An item that is not worth promoting stays where it is. */
  lemma PromoteOneLeaves(start: Redis, s: Stores, key: string, item: Item, r: Reply, k: string, x: Item)
    requires UniqueFields(start) && key in start && item in start[key] && k in start && x in start[k]
    requires !Worthy(x.value) && k in s.redis && x in s.redis[k]
    ensures var s' := PromoteOne(s, key, item, r); k in s'.redis && x in s'.redis[k]
  {
    JudgeHolds(item.value);
    if Judge(item.value) == Promote && key in s.redis {
      DroppedHolds(s.redis[key], item.id, x);
      if k == key && x.id == item.id {
      }
    }
  }

  ghost predicate NothingLost(start: Redis, s: Stores) {
    forall k, x :: k in start && x in start[k] ==> Kept(s, k, x)
  }

  ghost predicate NothingTaken(start: Redis, s: Stores) {
    forall k, x :: k in start && x in start[k] && !Worthy(x.value) ==> k in s.redis && x in s.redis[k]
  }

  /** The state in the middle of a pass that started from `start`. */
  ghost predicate Midway(start: Redis, s: Stores) {
    Shrinks(start, s.redis) && NothingLost(start, s) && NothingTaken(start, s)
  }

  lemma PromoteOneMidway(start: Redis, s: Stores, key: string, item: Item, r: Reply)
    requires UniqueFields(start) && Midway(start, s) && key in start && item in start[key]
    ensures Midway(start, PromoteOne(s, key, item, r))
  {
    PromoteOneShrinks(start, s, key, item, r);
    forall k, x | k in start && x in start[k] ensures Kept(PromoteOne(s, key, item, r), k, x) {
      PromoteOneKeeps(start, s, key, item, r, k, x);
    }
    forall k, x | k in start && x in start[k] && !Worthy(x.value)
      ensures k in PromoteOne(s, key, item, r).redis && x in PromoteOne(s, key, item, r).redis[k]
    {
      PromoteOneLeaves(start, s, key, item, r, k, x);
    }
  }

  // ----- the pass

  datatype Progress = Progress(s: Stores, scanned: nat, promoted: nat, skipped: nat, errors: nat)

  function ReplyAt(replies: seq<Reply>, i: nat): Reply {
    if i < |replies| then replies[i] else Reply(Done, Done)
  }

  function Handle(p: Progress, key: string, item: Item, replies: seq<Reply>): Progress {
    var r := ReplyAt(replies, p.scanned);
    var t := TallyOf(key, item, r);
    Progress(PromoteOne(p.s, key, item, r), p.scanned + 1,
      p.promoted + if t == Promoted then 1 else 0,
      p.skipped + if t == Skipped then 1 else 0,
      p.errors + if t == Error then 1 else 0)
  }

  function HandleItems(p: Progress, key: string, items: seq<Item>, replies: seq<Reply>, n: nat): Progress
    requires n <= |items|
  {
    if n == 0 then p else Handle(HandleItems(p, key, items, replies, n - 1), key, items[n - 1], replies)
  }

  function ItemsUnder(redis: Redis, key: string): seq<Item> {
    if key in redis then redis[key] else []
  }

  /** The first `n` scanned keys; the scan may name a key twice, or one that is gone. */
  function HandleKeys(p: Progress, keys: seq<string>, replies: seq<Reply>, n: nat): Progress
    requires n <= |keys|
  {
    if n == 0 then p
    else
      var before := HandleKeys(p, keys, replies, n - 1);
      var items := ItemsUnder(before.s.redis, keys[n - 1]);
      HandleItems(before, keys[n - 1], items, replies, |items|)
  }

  class WorkingMemory {
    var redis: Redis
    var rows: seq<MemoryRow>

    constructor (redis: Redis, rows: seq<MemoryRow>)
      ensures State() == Stores(redis, rows)
    {
      this.redis, this.rows := redis, rows;
    }

    function State(): Stores
      reads this
    {
      Stores(redis, rows)
    }

    method PromoteItem(key: string, item: Item, r: Reply) returns (t: Tally)
      modifies this
      ensures State() == PromoteOne(old(State()), key, item, r)
      ensures t == TallyOf(key, item, r)
    {
      if item.value.BadJson? {
        return Error;
      }
      var data := item.value;
      if data.importance < IMPORTANCE_FLOOR && data.accessCount < ACCESS_THRESHOLD {
        return Skipped;
      }
      var content := Sentences.Strip(data.content);
      if content == "" {
        return Skipped;
      }
      var kind := if ValidKind(data.kind) then data.kind else "context";
      var row := MemoryRow(AgentOf(key), kind, content, data.importance, data.accessCount, item.id);
      var inserted := InsertFate(row, r.insert);
      if Effective(inserted) {
        rows := rows + [row];
      }
      if inserted != Done {
        return Error;
      }
      if Effective(r.delete) && key in redis {
        redis := redis[key := Dropped(redis[key], item.id)];
      }
      return if r.delete == Done then Promoted else Error;
    }

    method PromoteWorkingMemory(keys: seq<string>, replies: seq<Reply>) returns (p: Progress)
      modifies this
      ensures p == HandleKeys(Progress(old(State()), 0, 0, 0, 0), keys, replies, |keys|) && State() == p.s
    {
      p := Progress(State(), 0, 0, 0, 0);
      for k := 0 to |keys|
        invariant p == HandleKeys(Progress(old(State()), 0, 0, 0, 0), keys, replies, k) && State() == p.s
      {
        p := PromoteKey(keys[k], replies, p);
      }
    }

    method PromoteKey(key: string, replies: seq<Reply>, before: Progress) returns (p: Progress)
      requires before.s == State()
      modifies this
      ensures p == HandleItems(before, key, ItemsUnder(old(redis), key), replies, |ItemsUnder(old(redis), key)|) &&
        State() == p.s
    {
      var items := ItemsUnder(redis, key);
      p := before;
      for i := 0 to |items|
        invariant p == HandleItems(before, key, items, replies, i) && State() == p.s
      {
        p := CountItem(key, items[i], replies, p);
      }
    }

    method CountItem(key: string, item: Item, replies: seq<Reply>, before: Progress) returns (p: Progress)
      requires before.s == State()
      modifies this
      ensures p == Handle(before, key, item, replies) && State() == p.s
    {
      var t := PromoteItem(key, item, ReplyAt(replies, before.scanned));
      p := before.(s := State(), scanned := before.scanned + 1);
      match t
      case Promoted => p := p.(promoted := p.promoted + 1);
      case Skipped => p := p.(skipped := p.skipped + 1);
      case Error => p := p.(errors := p.errors + 1);
    }
  }

  ghost predicate Sound(start: Redis, p: Progress) {
    Midway(start, p.s) && p.scanned == p.promoted + p.skipped + p.errors
  }

  lemma {:induction false} ItemsKeepSound(start: Redis, p: Progress, key: string, items: seq<Item>,
                                          replies: seq<Reply>, n: nat)
    requires UniqueFields(start) && Sound(start, p) && n <= |items|
    requires items != [] ==> key in start
    requires forall i :: 0 <= i < |items| ==> items[i] in start[key]
    ensures Sound(start, HandleItems(p, key, items, replies, n))
  {
    if n > 0 {
      ItemsKeepSound(start, p, key, items, replies, n - 1);
      var before := HandleItems(p, key, items, replies, n - 1);
      PromoteOneMidway(start, before.s, key, items[n - 1], ReplyAt(replies, before.scanned));
    }
  }

  lemma {:induction false} KeysKeepSound(start: Redis, p: Progress, keys: seq<string>, replies: seq<Reply>, n: nat)
    requires UniqueFields(start) && Sound(start, p) && n <= |keys|
    ensures Sound(start, HandleKeys(p, keys, replies, n))
  {
    if n > 0 {
      KeysKeepSound(start, p, keys, replies, n - 1);
      var before := HandleKeys(p, keys, replies, n - 1);
      var items := ItemsUnder(before.s.redis, keys[n - 1]);
      ItemsKeepSound(start, before, keys[n - 1], items, replies, |items|);
    }
  }

  /** Whatever inserts and deletes fail and however often the scan repeats a key: every entry ends in
      Redis or in the persistent store, none that is not worth it leaves Redis, and the counts add up. */
  lemma PromotionLosesNothing(s: Stores, keys: seq<string>, replies: seq<Reply>)
    requires UniqueFields(s.redis)
    ensures var p := HandleKeys(Progress(s, 0, 0, 0, 0), keys, replies, |keys|);
      NothingLost(s.redis, p.s) && NothingTaken(s.redis, p.s) && Shrinks(s.redis, p.s.redis) &&
      p.scanned == p.promoted + p.skipped + p.errors
  {
    KeysKeepSound(s.redis, Progress(s, 0, 0, 0, 0), keys, replies, |keys|);
  }

  // ----- a pass without failures

  /** The item has left Redis for the persistent store. */
  ghost predicate Moved(s: Stores, key: string, item: Item) {
    key in s.redis && item !in s.redis[key] && HasRow(s.rows, key, item)
  }

  lemma MovedStays(s: Stores, key: string, item: Item, r: Reply, k: string, x: Item)
    requires Moved(s, k, x)
    ensures Moved(PromoteOne(s, key, item, r), k, x)
  {
    if key in s.redis {
      DroppedHolds(s.redis[key], item.id, x);
    }
  }

  lemma {:induction false} ItemsStayMoved(p: Progress, key: string, items: seq<Item>, replies: seq<Reply>, n: nat,
                                          k: string, x: Item)
    requires n <= |items| && Moved(p.s, k, x)
    ensures Moved(HandleItems(p, key, items, replies, n).s, k, x)
  {
    if n > 0 {
      ItemsStayMoved(p, key, items, replies, n - 1, k, x);
      var before := HandleItems(p, key, items, replies, n - 1);
      MovedStays(before.s, key, items[n - 1], ReplyAt(replies, before.scanned), k, x);
    }
  }

  ghost predicate Movable(x: Item) {
    Worthy(x.value) && 0.0 <= x.value.importance <= 1.0
  }

  lemma {:induction false} ItemsMove(p: Progress, key: string, items: seq<Item>, n: nat, i: nat)
    requires i < n <= |items| && key in p.s.redis && Movable(items[i])
    ensures Moved(HandleItems(p, key, items, [], n).s, key, items[i])
  {
    var before := HandleItems(p, key, items, [], n - 1);
    if i < n - 1 {
      ItemsMove(p, key, items, n - 1, i);
      MovedStays(before.s, key, items[n - 1], ReplyAt([], before.scanned), key, items[i]);
    } else {
      ItemsKeepKey(p, key, items, n - 1);
      JudgeHolds(items[i].value);
      RowOfFits(key, items[i]);
      DroppedHolds(before.s.redis[key], items[i].id, items[i]);
    }
  }

  lemma ItemKeepsKey(p: Progress, key: string, item: Item)
    requires key in p.s.redis
    ensures key in Handle(p, key, item, []).s.redis
  {
  }

  lemma {:induction false} ItemsKeepKey(p: Progress, key: string, items: seq<Item>, n: nat)
    requires n <= |items| && key in p.s.redis
    ensures key in HandleItems(p, key, items, [], n).s.redis
  {
    if n > 0 {
      ItemsKeepKey(p, key, items, n - 1);
      var before := HandleItems(p, key, items, [], n - 1);
      ItemKeepsKey(before, key, items[n - 1]);
    }
  }

  /** Without failures every entry worth promoting, of every scanned key, is moved. */
  lemma {:induction false} CleanPassMoves(start: Redis, p: Progress, keys: seq<string>, n: nat, j: nat, x: Item)
    requires UniqueFields(start) && Sound(start, p) && n <= |keys| && j < n
    requires keys[j] in start && x in start[keys[j]] && Movable(x) && p.s.redis == start
    ensures Moved(HandleKeys(p, keys, [], n).s, keys[j], x)
  {
    var before := HandleKeys(p, keys, [], n - 1);
    var items := ItemsUnder(before.s.redis, keys[n - 1]);
    if j < n - 1 {
      CleanPassMoves(start, p, keys, n - 1, j, x);
      ItemsStayMoved(before, keys[n - 1], items, [], |items|, keys[j], x);
    } else {
      KeysKeepSound(start, p, keys, [], n - 1);
      assert Kept(before.s, keys[j], x);
      if x in before.s.redis[keys[j]] {
        var i :| 0 <= i < |items| && items[i] == x;
        ItemsMove(before, keys[j], items, |items|, i);
      } else {
        ItemsStayMoved(before, keys[n - 1], items, [], |items|, keys[j], x);
      }
    }
  }

  /** Handling one entry, whatever fails. What is no JSON is an error, and what is not worth it is
      skipped; neither changes anything. The rest gets a row that holds it, if the table accepts its
      importance and the insert takes effect, and is deleted only after the insert returned. */
  lemma HandlingIsExact(s: Stores, key: string, item: Item, r: Reply)
    ensures var s', t := PromoteOne(s, key, item, r), TallyOf(key, item, r);
      && (item.value.BadJson? ==> t == Error && s' == s)
      && (item.value.Data? && !Worthy(item.value) ==> t == Skipped && s' == s)
      && (Worthy(item.value) ==>
            var accepted := 0.0 <= item.value.importance <= 1.0;
            && (t == Promoted <==> accepted && r.insert == Done && r.delete == Done) && t != Skipped
            && (if accepted && r.insert != Refused then Added(s.rows, s'.rows, key, item) else s'.rows == s.rows)
            && (if accepted && r.insert == Done && r.delete != Refused && key in s.redis
                then s'.redis == s.redis[key := Dropped(s.redis[key], item.id)] else s'.redis == s.redis))
  {
    JudgeHolds(item.value);
    if Worthy(item.value) {
      RowOfFits(key, item);
    }
  }

  /** One row more, and it holds the entry. */
  ghost predicate Added(a: seq<MemoryRow>, b: seq<MemoryRow>, key: string, item: Item) {
    |b| == |a| + 1 && b[..|a|] == a && RowFits(b[|a|], key, item)
  }

  // ----- the counts

  /** What the counts gained since `a` says about the rows gained: one for each promotion, and else at most
      one for each error. */
  ghost predicate RowsMatch(a: Progress, b: Progress) {
    && a.promoted <= b.promoted && a.errors <= b.errors
    && b.promoted - a.promoted <= |b.s.rows| - |a.s.rows| <= (b.promoted - a.promoted) + (b.errors - a.errors)
  }

  lemma HandleMatches(p: Progress, key: string, item: Item, replies: seq<Reply>)
    ensures RowsMatch(p, Handle(p, key, item, replies))
    ensures Handle(p, key, item, replies).skipped > p.skipped <==> item.value.Data? && !Worthy(item.value)
  {
    HandlingIsExact(p.s, key, item, ReplyAt(replies, p.scanned));
  }

  lemma {:induction false} ItemsMatch(p: Progress, key: string, items: seq<Item>, replies: seq<Reply>, n: nat)
    requires n <= |items|
    ensures RowsMatch(p, HandleItems(p, key, items, replies, n))
  {
    if n > 0 {
      ItemsMatch(p, key, items, replies, n - 1);
      HandleMatches(HandleItems(p, key, items, replies, n - 1), key, items[n - 1], replies);
    }
  }

  /** Over a whole pass, whatever fails, every promotion that is counted has added a row, and every row
      that was added is counted as a promotion or as an error. */
  lemma {:induction false} CountsMatchRows(p: Progress, keys: seq<string>, replies: seq<Reply>, n: nat)
    requires n <= |keys|
    ensures RowsMatch(p, HandleKeys(p, keys, replies, n))
  {
    if n > 0 {
      CountsMatchRows(p, keys, replies, n - 1);
      var before := HandleKeys(p, keys, replies, n - 1);
      var items := ItemsUnder(before.s.redis, keys[n - 1]);
      ItemsMatch(before, keys[n - 1], items, replies, |items|);
    }
  }
}
