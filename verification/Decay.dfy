/** Importance decay of memory entries that are no longer accessed. */
module Decay {
  import opened Common

  /** Times are in seconds. */
  datatype Entry = Entry(id: string, importance: real, lastAccessed: int, createdAt: int, expiresAt: Option<int>)

  const DAY: int := 86400
  const HALF_LIFE_DAYS: nat := 30
  const FLOOR: real := 0.05
  const GRACE_DAYS: int := 7

  // ----- the decay factor

  function Pow(base: real, n: nat): real
    decreases n, base
  {
    if n == 0 then 1.0 else base * Pow(base, n - 1)
  }

  /** `root` is one half to the power of one thirtieth. */
  ghost predicate DailyFactor(root: real) {
    root > 0.0 && Pow(root, HALF_LIFE_DAYS) == 0.5
  }

  lemma {:induction false} PowPositive(base: real, n: nat)
    requires base > 0.0
    ensures Pow(base, n) > 0.0
  {
    if n > 0 {
      PowPositive(base, n - 1);
    }
  }

  lemma {:induction false} PowAboveOne(base: real, n: nat)
    requires base >= 1.0
    ensures Pow(base, n) >= 1.0
  {
    if n > 0 {
      PowAboveOne(base, n - 1);
    }
  }

  lemma {:induction false} PowFalls(base: real, m: nat, n: nat)
    requires 0.0 < base <= 1.0 && m <= n
    ensures 0.0 < Pow(base, n) <= Pow(base, m)
    decreases n
  {
    if m == n {
      PowPositive(base, n);
    } else {
      PowFalls(base, m, n - 1);
    }
  }

  /** Thirty days or more at least halve. */
  lemma FactorHalves(root: real, days: nat)
    requires DailyFactor(root) && days >= HALF_LIFE_DAYS
    ensures 0.0 < Pow(root, days) <= 0.5
  {
    if root >= 1.0 {
      PowAboveOne(root, HALF_LIFE_DAYS);
    } else {
      PowFalls(root, HALF_LIFE_DAYS, days);
    }
  }

  lemma {:induction false} PowProduct(a: real, b: real, c: real, n: nat)
    requires c == a * b
    ensures Pow(c, n) == Pow(a, n) * Pow(b, n)
  {
    if n > 0 {
      PowProduct(a, b, c, n - 1);
      FourFactors(a, b, Pow(a, n - 1), Pow(b, n - 1));
    }
  }

  lemma FourFactors(a: real, b: real, x: real, y: real)
    ensures (a * b) * (x * y) == (a * x) * (b * y)
  {
  }

  lemma {:induction false} PowOfOne(n: nat)
    ensures Pow(1.0, n) == 1.0
  {
    if n > 0 {
      PowOfOne(n - 1);
    }
  }

  /** Powers of powers commute. */
  lemma {:induction false} PowPow(r: real, d: nat, n: nat)
    ensures Pow(Pow(r, d), n) == Pow(Pow(r, n), d)
  {
    if d == 0 {
      PowOfOne(n);
    } else {
      PowPow(r, d - 1, n);
      PowProduct(r, Pow(r, d - 1), Pow(r, d), n);
    }
  }

  lemma {:induction false} PowRises(a: real, b: real, n: nat)
    requires 0.0 < a < b && n > 0
    ensures 0.0 < Pow(a, n) < Pow(b, n)
  {
    if n > 1 {
      PowRises(a, b, n - 1);
      ProductRises(a, b, Pow(a, n - 1), Pow(b, n - 1));
    }
  }

  lemma ProductRises(a: real, b: real, x: real, y: real)
    requires 0.0 < a < b && 0.0 < x < y
    ensures 0.0 < a * x < b * y
  {
    assert a * x < b * x && b * x < b * y;
  }

  /** A positive number is fixed by its `n`-th power. */
  lemma PowInjective(a: real, b: real, n: nat)
    requires a > 0.0 && b > 0.0 && n > 0 && Pow(a, n) == Pow(b, n)
    ensures a == b
  {
    if a < b {
      PowRises(a, b, n);
    } else if b < a {
      PowRises(b, a, n);
    }
  }

  // ----- one entry

  function Days(from: int, to: int): int {
    (to - from) / DAY
  }

  predicate Stale(e: Entry, now: int) {
    e.lastAccessed < now - HALF_LIFE_DAYS * DAY && e.importance > FLOOR &&
    (e.expiresAt.None? || e.expiresAt.value > now)
  }

  /** Only stale entries, last accessed in the past, are ever decayed. */
  function Decayed(e: Entry, now: int, root: real): real {
    if Days(e.lastAccessed, now) < 0 then e.importance else e.importance * Pow(root, Days(e.lastAccessed, now))
  }

  predicate Removable(e: Entry, now: int, root: real) {
    Stale(e, now) && Decayed(e, now, root) < FLOOR && Days(e.createdAt, now) > GRACE_DAYS
  }

  /** Which statements of a pass fail: updates by entry, and the final delete. */
  datatype Faults = Faults(updates: set<string>, delete: bool)

  function After(e: Entry, now: int, root: real, f: Faults): Option<Entry> {
    if !Stale(e, now) then Some(e)
    else if Removable(e, now, root) then (if f.delete then Some(e) else None)
    else if e.id in f.updates then Some(e)
    else Some(e.(importance := Decayed(e, now, root)))
  }

  /** `r` is the importance times one half to the power of days / 30, for the whole days since the last access. */
  ghost predicate IsDecayed(e: Entry, now: int, r: real) {
    now >= e.lastAccessed && e.importance > 0.0 &&
    r > 0.0 && Pow(r / e.importance, 30) == Pow(0.5, (now - e.lastAccessed) / 86400)
  }

  lemma Quotient(x: real, k: real, r: real)
    requires x > 0.0 && k > 0.0
    ensures r == x * k ==> r > 0.0
    ensures r == x * k <==> r / x == k
    ensures r > 0.0 ==> r / x > 0.0
  {
  }

  lemma DecayedFits(e: Entry, now: int, root: real)
    requires DailyFactor(root) && e.importance > 0.0 && e.lastAccessed <= now
    ensures IsDecayed(e, now, Decayed(e, now, root))
  {
    var days: nat, r := (now - e.lastAccessed) / 86400, Decayed(e, now, root);
    PowPositive(root, days);
    PowPow(root, days, 30);
    assert r == e.importance * Pow(root, days);
    Quotient(e.importance, Pow(root, days), r);
    assert r / e.importance == Pow(root, days);
  }

  lemma DecayedOnly(e: Entry, now: int, root: real, r: real)
    requires DailyFactor(root) && e.importance > 0.0 && IsDecayed(e, now, r)
    ensures r == Decayed(e, now, root)
  {
    var days: nat := (now - e.lastAccessed) / 86400;
    PowPositive(root, days);
    PowPow(root, days, 30);
    Quotient(e.importance, Pow(root, days), r);
    PowInjective(r / e.importance, Pow(root, days), 30);
  }

  /** There is exactly one such value. */
  lemma DecayedIs(e: Entry, now: int, root: real, r: real)
    requires DailyFactor(root) && e.importance > 0.0 && e.lastAccessed <= now
    ensures IsDecayed(e, now, r) <==> r == Decayed(e, now, root)
  {
    DecayedFits(e, now, root);
    if IsDecayed(e, now, r) {
      DecayedOnly(e, now, root, r);
    }
  }

  /** What a pass does to an entry. Not accessed for more than thirty days, above the floor and not
      expired, it gets the decayed value, or goes if that is below the floor and it is more than seven
      days old; what fails leaves it as it is, and any other entry is left alone. */
  lemma PassIsExact(e: Entry, now: int, root: real, f: Faults, r: real)
    requires root > 0.0 && Pow(root, 30) == 0.5
    ensures var stale := now - e.lastAccessed > 30 * 86400 && e.importance > 0.05 &&
        (e.expiresAt.Some? ==> e.expiresAt.value > now);
      var after := After(e, now, root, f);
      && (!stale ==> after == Some(e))
      && (stale && IsDecayed(e, now, r) ==>
            after == if r < 0.05 && (now - e.createdAt) / 86400 > 7 then (if f.delete then Some(e) else None)
                     else if e.id in f.updates then Some(e) else Some(e.(importance := r)))
      && (stale ==> exists x :: IsDecayed(e, now, x))
  {
    if e.lastAccessed <= now && e.importance > 0.0 {
      DecayedIs(e, now, root, r);
      DecayedFits(e, now, root);
    }
  }

  /** A pass never raises an importance, never makes one negative, and changes nothing else. */
  lemma NeverRises(e: Entry, now: int, root: real, f: Faults)
    requires DailyFactor(root) && e.importance >= 0.0
    ensures var r := After(e, now, root, f);
      r.Some? ==> 0.0 <= r.value.importance <= e.importance && r.value == e.(importance := r.value.importance)
  {
    if Stale(e, now) {
      FactorHalves(root, Days(e.lastAccessed, now));
    }
  }

  /** A successful pass at least halves an entry that is stale and old enough, or removes it below the floor. */
  lemma Halves(e: Entry, now: int, root: real, f: Faults)
    requires DailyFactor(root) && Stale(e, now) && e.createdAt <= e.lastAccessed
    requires e.id !in f.updates && !f.delete
    ensures var r := After(e, now, root, f);
      (r.Some? ==>
         FLOOR <= r.value.importance <= e.importance / 2.0 && r.value == e.(importance := r.value.importance)) &&
      (r.None? <==> Decayed(e, now, root) < FLOOR)
  {
    var k := Pow(root, Days(e.lastAccessed, now));
    FactorHalves(root, Days(e.lastAccessed, now));
    HalfOf(e.importance, k);
  }

  lemma HalfOf(x: real, k: real)
    requires x >= 0.0 && 0.0 < k <= 0.5
    ensures 0.0 <= x * k <= x / 2.0
  {
  }

  // ----- repeated passes over an entry nobody accesses

  datatype Pass = Pass(now: int, faults: Faults)

  function AfterAll(e: Entry, ps: seq<Pass>, root: real): Option<Entry> {
    if ps == [] then Some(e)
    else
      var before := AfterAll(e, ps[..|ps| - 1], root);
      if before.None? then None else After(before.value, ps[|ps| - 1].now, root, ps[|ps| - 1].faults)
  }

  predicate Undisturbed(e: Entry, p: Pass) {
    && e.lastAccessed < p.now - HALF_LIFE_DAYS * DAY && (e.expiresAt.None? || e.expiresAt.value > p.now)
    && e.id !in p.faults.updates && !p.faults.delete
  }

  lemma {:induction false} HalvesEachTime(e: Entry, ps: seq<Pass>, root: real)
    requires DailyFactor(root) && FLOOR < e.importance <= 1.0 && e.createdAt <= e.lastAccessed
    requires forall i :: 0 <= i < |ps| ==> Undisturbed(e, ps[i])
    ensures var r := AfterAll(e, ps, root);
      r.Some? ==>
        && r.value == e.(importance := r.value.importance) && r.value.importance >= FLOOR
        && (r.value.importance == FLOOR || r.value.importance <= Pow(0.5, |ps|))
  {
    if ps != [] {
      var n := |ps| - 1;
      HalvesEachTime(e, ps[..n], root);
      var before := AfterAll(e, ps[..n], root);
      if before.Some? && before.value.importance > FLOOR {
        assert Undisturbed(e, ps[n]);
        Halves(before.value, ps[n].now, root, ps[n].faults);
      }
    }
  }

  /** Within five successful passes an entry nobody accesses is gone, or rests exactly at the floor. */
  lemma GoneWithinFive(e: Entry, ps: seq<Pass>, root: real)
    requires DailyFactor(root) && FLOOR < e.importance <= 1.0 && e.createdAt <= e.lastAccessed
    requires |ps| >= 5 && forall i :: 0 <= i < |ps| ==> Undisturbed(e, ps[i])
    ensures AfterAll(e, ps, root) in {None, Some(e.(importance := FLOOR))}
  {
    HalvesEachTime(e, ps, root);
    PowFalls(0.5, 5, |ps|);
  }

  /** The factor is applied to what earlier passes left: a second pass at the same moment decays again,
      where the documented formula gives the same value. The two agree exactly when the first pass took
      the entry to the floor or below. */
  lemma PassesCompound(e: Entry, now: int, root: real)
    requires DailyFactor(root) && Stale(e, now)
    ensures var once := AfterAll(e, [Pass(now, Faults({}, false))], root);
      once.Some? && once.value.importance > FLOOR ==>
        once.value.importance == Decayed(e, now, root) &&
        After(once.value, now, root, Faults({}, false)) != once
    ensures var once := AfterAll(e, [Pass(now, Faults({}, false))], root);
      once.Some? ==> (After(once.value, now, root, Faults({}, false)) == once <==> once.value.importance <= FLOOR)
  {
    var p := Pass(now, Faults({}, false));
    assert AfterAll(e, [p][..0], root) == Some(e);
    assert AfterAll(e, [p], root) == After(e, now, root, p.faults);
    FactorHalves(root, Days(e.lastAccessed, now));
    var once := After(e, now, root, p.faults);
    if once.Some? && once.value.importance > FLOOR {
      assert Stale(once.value, now);
      HalfOf(once.value.importance, Pow(root, Days(e.lastAccessed, now)));
    }
  }

  /** One second more than thirty days after its last access an entry of importance one goes to one
      half, and a second pass at the same moment takes it further. */
  lemma SecondPassDecaysAgain(root: real)
    requires DailyFactor(root)
    ensures var e, now := Entry("a", 1.0, 0, 0, None), 30 * DAY + 1;
      var once := e.(importance := 0.5);
      && After(e, now, root, Faults({}, false)) == Some(once) && Decayed(e, now, root) == 0.5
      && After(once, now, root, Faults({}, false)) == Some(e.(importance := 0.25))
  {
  }

  // ----- the pass over the table

  function PassOver(entries: seq<Entry>, now: int, root: real, f: Faults): seq<Entry> {
    if entries == [] then []
    else
      var r := After(entries[0], now, root, f);
      (if r.Some? then [r.value] else []) + PassOver(entries[1..], now, root, f)
  }

  function StaleCount(entries: seq<Entry>, now: int): nat {
    if entries == [] then 0 else (if Stale(entries[0], now) then 1 else 0) + StaleCount(entries[1..], now)
  }

  function RemovableCount(entries: seq<Entry>, now: int, root: real): nat {
    if entries == [] then 0
    else (if Removable(entries[0], now, root) then 1 else 0) + RemovableCount(entries[1..], now, root)
  }

  /** Stale rows that are to stay and whose update fails. */
  function RefusedCount(entries: seq<Entry>, now: int, root: real, f: Faults): nat {
    if entries == [] then 0
    else
      var e := entries[0];
      (if Stale(e, now) && !Removable(e, now, root) && e.id in f.updates then 1 else 0) +
      RefusedCount(entries[1..], now, root, f)
  }

  function Updated(e: Entry, now: int, root: real, f: Faults): Entry {
    if Stale(e, now) && !Removable(e, now, root) && e.id !in f.updates
    then e.(importance := Decayed(e, now, root)) else e
  }

  function UpdatedAll(entries: seq<Entry>, now: int, root: real, f: Faults): (r: seq<Entry>)
    ensures |r| == |entries|
  {
    seq(|entries|, i requires 0 <= i < |entries| => Updated(entries[i], now, root, f))
  }

  function Without(entries: seq<Entry>, ids: set<string>): seq<Entry> {
    if entries == [] then [] else (if entries[0].id in ids then [] else [entries[0]]) + Without(entries[1..], ids)
  }

  /** Updating row by row and deleting the removable rows at the end treats each row by itself. */
  lemma {:induction false} DeleteAtEnd(entries: seq<Entry>, now: int, root: real, f: Faults, ids: set<string>)
    requires forall i :: 0 <= i < |entries| ==> (entries[i].id in ids <==> Removable(entries[i], now, root))
    ensures PassOver(entries, now, root, f) ==
      if f.delete then UpdatedAll(entries, now, root, f) else Without(UpdatedAll(entries, now, root, f), ids)
  {
    if entries != [] {
      DeleteAtEnd(entries[1..], now, root, f, ids);
      assert UpdatedAll(entries, now, root, f)[1..] == UpdatedAll(entries[1..], now, root, f);
    }
  }

  lemma {:induction false} NothingToDelete(entries: seq<Entry>)
    ensures Without(entries, {}) == entries
  {
    if entries != [] {
      NothingToDelete(entries[1..]);
    }
  }

  lemma {:induction false} CountsExtend(entries: seq<Entry>, now: int, root: real, f: Faults, n: nat)
    requires n < |entries|
    ensures StaleCount(entries[..n + 1], now) == StaleCount(entries[..n], now) + if Stale(entries[n], now) then 1 else 0
    ensures RemovableCount(entries[..n + 1], now, root) == RemovableCount(entries[..n], now, root)
      + if Removable(entries[n], now, root) then 1 else 0
    ensures RefusedCount(entries[..n + 1], now, root, f) == RefusedCount(entries[..n], now, root, f) +
      if Stale(entries[n], now) && !Removable(entries[n], now, root) && entries[n].id in f.updates then 1 else 0
  {
    if n > 0 {
      CountsExtend(entries[1..], now, root, f, n - 1);
      assert entries[..n + 1][1..] == entries[1..][..n] && entries[..n][1..] == entries[1..][..n - 1];
    } else {
      assert entries[..1][1..] == [] && entries[..0] == [];
    }
  }

  datatype Summary = Summary(decayed: nat, removable: nat, errors: nat)

  ghost predicate UniqueIds(entries: seq<Entry>) {
    forall i, j :: 0 <= i < j < |entries| ==> entries[i].id != entries[j].id
  }

  class MemoryTable {
    var entries: seq<Entry>

    constructor (entries: seq<Entry>)
      ensures this.entries == entries
    {
      this.entries := entries;
    }

    method SetImportance(id: string, importance: real)
      modifies this
      ensures |entries| == |old(entries)|
      ensures forall k :: 0 <= k < |entries| ==>
        entries[k] == if old(entries)[k].id == id then old(entries)[k].(importance := importance) else old(entries)[k]
    {
      var rows := entries;
      entries := seq(|rows|, k requires 0 <= k < |rows| =>
        if rows[k].id == id then rows[k].(importance := importance) else rows[k]);
    }

    /** Each row of the table is treated as `After` says; without faults or not, every stale row is
        counted as decayed or as an error. */
    method DecayStaleEntries(now: int, root: real, f: Faults, dryRun: bool) returns (summary: Summary)
      requires UniqueIds(entries)
      modifies this
      ensures entries == if dryRun then old(entries) else PassOver(old(entries), now, root, f)
      ensures summary.removable == RemovableCount(old(entries), now, root)
      ensures summary.decayed + summary.errors == if dryRun then 0 else StaleCount(old(entries), now)
      ensures summary.errors == if dryRun then 0
        else RefusedCount(old(entries), now, root, f) + if f.delete then summary.removable else 0
    {
      var rows := entries;
      var removable: set<string>, removed, decayed, errors := {}, 0, 0, 0;
      for i := 0 to |rows|
        invariant |entries| == |rows|
        invariant forall k :: 0 <= k < |rows| ==>
          entries[k] == if k < i && !dryRun then Updated(rows[k], now, root, f) else rows[k]
        invariant forall k :: 0 <= k < |rows| ==> (rows[k].id in removable <==> k < i && Removable(rows[k], now, root))
        invariant removed == RemovableCount(rows[..i], now, root)
        invariant errors == if dryRun then 0 else RefusedCount(rows[..i], now, root, f)
        invariant decayed + errors == if dryRun then 0 else StaleCount(rows[..i], now) - removed
        invariant removed == 0 ==> removable == {}
      {
        CountsExtend(rows, now, root, f, i);
        var row := rows[i];
        if Stale(row, now) {
          var importance := Decayed(row, now, root);
          if importance < FLOOR && Days(row.createdAt, now) > GRACE_DAYS {
            removable, removed := removable + {row.id}, removed + 1;
          } else if !dryRun {
            if row.id in f.updates {
              errors := errors + 1;
            } else {
              SetImportance(row.id, importance);
              decayed := decayed + 1;
            }
          }
        }
      }
      assert rows[..|rows|] == rows;
      if !dryRun {
        assert entries == UpdatedAll(rows, now, root, f);
        DeleteAtEnd(rows, now, root, f, removable);
        NothingToDelete(entries);
        if removed > 0 {
          if f.delete {
            errors := errors + removed;
          } else {
            entries := Without(entries, removable);
            decayed := decayed + removed;
          }
        }
      }
      summary := Summary(decayed, removed, errors);
    }
  }

  /** An entry is in the table after a pass exactly as its own treatment leaves it. */
  lemma {:induction false} PassTreatsEach(entries: seq<Entry>, now: int, root: real, f: Faults, e: Entry)
    ensures e in PassOver(entries, now, root, f) <==>
      exists i :: 0 <= i < |entries| && After(entries[i], now, root, f) == Some(e)
  {
    if entries != [] {
      PassTreatsEach(entries[1..], now, root, f, e);
      var rest := PassOver(entries[1..], now, root, f);
      if e in rest {
        var i :| 0 <= i < |entries[1..]| && After(entries[1..][i], now, root, f) == Some(e);
        assert entries[i + 1] == entries[1..][i];
      }
      if i :| 0 < i < |entries| && After(entries[i], now, root, f) == Some(e) {
        assert entries[1..][i - 1] == entries[i];
      }
    }
  }

  /** The counts of the summary add up row by row: stale rows, rows that a pass removes, and rows to stay
      whose update fails. */
  lemma {:induction false} CountsAdd(a: seq<Entry>, b: seq<Entry>, now: int, root: real, f: Faults)
    ensures StaleCount(a + b, now) == StaleCount(a, now) + StaleCount(b, now)
    ensures RemovableCount(a + b, now, root) == RemovableCount(a, now, root) + RemovableCount(b, now, root)
    ensures RefusedCount(a + b, now, root, f) == RefusedCount(a, now, root, f) + RefusedCount(b, now, root, f)
  {
    if a == [] {
      assert a + b == b;
    } else {
      assert (a + b)[1..] == a[1..] + b;
      CountsAdd(a[1..], b, now, root, f);
    }
  }

  lemma CountsOfOne(e: Entry, now: int, root: real, f: Faults)
    requires root > 0.0 && Pow(root, 30) == 0.5
    ensures var stale := now - e.lastAccessed > 30 * 86400 && e.importance > 0.05 &&
        (e.expiresAt.Some? ==> e.expiresAt.value > now);
      var after := After(e, now, root, Faults({}, false));
      && StaleCount([e], now) == (if stale then 1 else 0)
      && RemovableCount([e], now, root) == (if after == None then 1 else 0)
      && RefusedCount([e], now, root, f) == (if stale && after != None && e.id in f.updates then 1 else 0)
  {
    assert [e][1..] == [];
  }
}
