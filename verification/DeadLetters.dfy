/** Dead letters on the event bus: setting failing messages aside and replaying them. */
module DeadLetters {
  import opened Common

  type Fields = map<string, string>

  datatype Entry = Entry(id: string, fields: Fields)

  /** An append that took effect, with the dead letter it came from. */
  datatype Append = Append(from: string, stream: string, payload: Fields)

  const MSG_ID := "msg_id"
  const REASON := "dead_letter_reason"
  const STREAM := "original_stream"
  const ORIGINAL_ID := "original_msg_id"

  predicate Reserved(k: string) {
    k == MSG_ID || k == REASON || k == STREAM || k == ORIGINAL_ID
  }

  predicate NoReserved(fields: Fields) {
    MSG_ID !in fields && REASON !in fields && STREAM !in fields && ORIGINAL_ID !in fields
  }

  // ----- setting a message aside

  function DeadFields(fields: Fields, id: string, stream: string, reason: string): Fields {
    fields[REASON := reason][STREAM := stream][ORIGINAL_ID := id]
  }

  /** What `read_dead_letters` returns for an entry: a field of the same name hides the entry's id. */
  function ReadBack(e: Entry): Fields {
    map[MSG_ID := e.id] + e.fields
  }

  function Target(e: Entry): string {
    if MSG_ID in e.fields then e.fields[MSG_ID] else e.id
  }

  predicate HasOrigin(e: Entry) {
    STREAM in e.fields && e.fields[STREAM] != ""
  }

  function Payload(e: Entry): Fields {
    map k | k in ReadBack(e) && !Reserved(k) :: ReadBack(e)[k]
  }

  /** Setting a message aside and replaying it gives back its exact fields when none of them is a
      reserved name, and only then; the stream it goes to is the one it came from. */
  lemma ReplayRestores(fields: Fields, id: string, stream: string, reason: string, dead: string)
    ensures var e := Entry(dead, DeadFields(fields, id, stream, reason));
      (Payload(e) == fields <==> NoReserved(fields)) && e.fields[STREAM] == stream && (HasOrigin(e) <==> stream != "")
  {
    var e := Entry(dead, DeadFields(fields, id, stream, reason));
    if NoReserved(fields) {
      assert forall k :: k in fields ==> !Reserved(k);
      assert Payload(e).Keys == fields.Keys;
      assert Payload(e) == fields;
    } else {
      assert exists k :: k in fields && k !in Payload(e);
    }
  }

  /** A dead letter holds the message's fields, and under three more names why it failed, where it came
      from and under which id. */
  lemma DeadFieldsHold(fields: Fields, id: string, stream: string, reason: string, k: string)
    ensures var dead := DeadFields(fields, id, stream, reason);
      && dead.Keys == fields.Keys + {"dead_letter_reason", "original_stream", "original_msg_id"}
      && dead["dead_letter_reason"] == reason && dead["original_stream"] == stream && dead["original_msg_id"] == id
      && (k in fields && k !in {"dead_letter_reason", "original_stream", "original_msg_id"} ==> dead[k] == fields[k])
  {
  }

  ghost predicate Own(k: string) {
    k !in {"msg_id", "dead_letter_reason", "original_stream", "original_msg_id"}
  }

  /** What is replayed are the entry's fields but for the four reserved names. */
  lemma PayloadHolds(e: Entry, k: string)
    ensures k in Payload(e) <==> k in e.fields && Own(k)
    ensures k in Payload(e) ==> Payload(e)[k] == e.fields[k]
    ensures Payload(e) == map[] <==> forall k :: k in e.fields ==> !Own(k)
  {
    forall k ensures k in Payload(e) <==> k in e.fields && Own(k) {
    }
    if Payload(e) != map[] {
      var k :| k in Payload(e);
    }
  }

  // ----- replay

  datatype Reply = Reply(add: Fate, del: Fate)

  datatype Streams = Streams(dead: seq<Entry>, appended: seq<Append>)

  datatype Tally = Replayed | Skipped | Error

  function ReplyAt(replies: seq<Reply>, i: nat): Reply {
    if i < |replies| then replies[i] else Reply(Done, Done)
  }

  /** The stream refuses an entry without fields. */
  function AddFate(e: Entry, f: Fate): Fate {
    if Payload(e) == map[] then Refused else f
  }

  predicate Deletes(e: Entry, deleteReplayed: bool, r: Reply) {
    HasOrigin(e) && AddFate(e, r.add) == Done && deleteReplayed && Target(e) != ""
  }

  function Removed(dead: seq<Entry>, id: string): seq<Entry> {
    if dead == [] then [] else (if dead[0].id == id then [] else [dead[0]]) + Removed(dead[1..], id)
  }

  function ReplayOne(s: Streams, e: Entry, deleteReplayed: bool, r: Reply): Streams {
    Streams(
      if Deletes(e, deleteReplayed, r) && Effective(r.del) then Removed(s.dead, Target(e)) else s.dead,
      if HasOrigin(e) && Effective(AddFate(e, r.add)) then s.appended + [Append(e.id, e.fields[STREAM], Payload(e))]
        else s.appended)
  }

  function TallyOf(e: Entry, deleteReplayed: bool, r: Reply): Tally {
    if !HasOrigin(e) then Skipped
    else if AddFate(e, r.add) != Done || (Deletes(e, deleteReplayed, r) && r.del != Done) then Error
    else Replayed
  }

  /** The first `n` inspected entries have been handled. */
  function Replay(s: Streams, entries: seq<Entry>, deleteReplayed: bool, replies: seq<Reply>, n: nat): Streams
    requires n <= |entries|
  {
    if n == 0 then s
    else ReplayOne(Replay(s, entries, deleteReplayed, replies, n - 1), entries[n - 1], deleteReplayed,
      ReplyAt(replies, n - 1))
  }

  function Counted(entries: seq<Entry>, deleteReplayed: bool, replies: seq<Reply>, n: nat, t: Tally): nat
    requires n <= |entries|
  {
    if n == 0 then 0
    else
      (if TallyOf(entries[n - 1], deleteReplayed, ReplyAt(replies, n - 1)) == t then 1 else 0) +
      Counted(entries, deleteReplayed, replies, n - 1, t)
  }

  lemma {:induction false} EveryEntryIsCounted(entries: seq<Entry>, deleteReplayed: bool, replies: seq<Reply>, n: nat)
    requires n <= |entries|
    ensures Counted(entries, deleteReplayed, replies, n, Replayed)
      + Counted(entries, deleteReplayed, replies, n, Skipped)
      + Counted(entries, deleteReplayed, replies, n, Error) == n
  {
    if n > 0 {
      EveryEntryIsCounted(entries, deleteReplayed, replies, n - 1);
    }
  }

  function Inspected(dead: seq<Entry>, count: nat): (es: seq<Entry>)
    ensures es <= dead && |es| == if count < |dead| then count else |dead|
  {
    if count < |dead| then dead[..count] else dead
  }

  /** Replaying one entry. It is appended to the stream it came from, if it came from one and has a field
      of its own; if that returned and deletion is asked for, the dead letters of the id it shows are
      deleted. Whatever raises is an error, an entry from nowhere is skipped. */
  lemma ReplayIsExact(s: Streams, e: Entry, deleteReplayed: bool, r: Reply, x: Entry)
    ensures var s', t := ReplayOne(s, e, deleteReplayed, r), TallyOf(e, deleteReplayed, r);
      var origin := "original_stream" in e.fields && e.fields["original_stream"] != "";
      var appendable := origin && exists k :: k in e.fields && Own(k);
      var shown := if "msg_id" in e.fields then e.fields["msg_id"] else e.id;
      var deletes := appendable && r.add == Done && deleteReplayed && shown != "";
      && s'.appended == (if appendable && r.add != Refused
           then s.appended + [Append(e.id, e.fields["original_stream"], Payload(e))] else s.appended)
      && (x in s'.dead <==> x in s.dead && !(deletes && r.del != Refused && x.id == shown))
      && t == if !origin then Skipped
              else if !appendable || r.add != Done || (deletes && r.del != Done) then Error else Replayed
  {
    PayloadHolds(e, "");
    RemovedHolds(s.dead, Target(e), x);
  }

  datatype Summary = Summary(inspected: nat, replayed: nat, skipped: nat, errors: nat)

  class DeadLetterBus {
    var dead: seq<Entry>
    var appended: seq<Append>

    constructor (dead: seq<Entry>)
      ensures State() == Streams(dead, [])
    {
      this.dead, appended := dead, [];
    }

    function State(): Streams
      reads this
    {
      Streams(dead, appended)
    }

    /** A write that fails is only logged: the message is then nowhere but in its own stream. */
    method DeadLetter(id: string, stream: string, fields: Fields, reason: string, newId: string, add: Fate)
      modifies this
      ensures appended == old(appended)
      ensures dead == old(dead) + if Effective(add) then [Entry(newId, DeadFields(fields, id, stream, reason))] else []
    {
      var payload := fields[REASON := reason];
      payload := payload[STREAM := stream];
      payload := payload[ORIGINAL_ID := id];
      if Effective(add) {
        dead := dead + [Entry(newId, payload)];
      }
    }

    method Delete(id: string, del: Fate) returns (ok: bool)
      modifies this
      ensures ok == (del == Done) && appended == old(appended)
      ensures dead == if Effective(del) then Removed(old(dead), id) else old(dead)
    {
      ok := del == Done;
      if Effective(del) {
        dead := Removed(dead, id);
      }
    }

    /** One entry; an error after the append leaves the entry in place and is counted. */
    method ReplayEntry(e: Entry, deleteReplayed: bool, r: Reply) returns (t: Tally)
      modifies this
      ensures State() == ReplayOne(old(State()), e, deleteReplayed, r)
      ensures t == TallyOf(e, deleteReplayed, r)
    {
      var entry := ReadBack(e);
      if STREAM !in entry || entry[STREAM] == "" {
        return Skipped;
      }
      var payload: Fields := map k | k in entry && !Reserved(k) :: entry[k];
      var added := if payload == map[] then Refused else r.add;
      if Effective(added) {
        appended := appended + [Append(e.id, entry[STREAM], payload)];
      }
      if added != Done {
        return Error;
      }
      var id := entry[MSG_ID];
      if deleteReplayed && id != "" {
        var ok := Delete(id, r.del);
        if !ok {
          return Error;
        }
      }
      return Replayed;
    }

    method ReplayDeadLetters(count: nat, deleteReplayed: bool, readable: bool, replies: seq<Reply>)
      returns (r: Result<Summary, string>)
      modifies this
      ensures !readable ==> r.Failure? && State() == old(State())
      ensures readable ==> State() == var es := Inspected(old(dead), count);
        Replay(old(State()), es, deleteReplayed, replies, |es|)
      ensures readable ==> r.Success? && (var es := Inspected(old(dead), count); r.value == Summary(|es|,
        Counted(es, deleteReplayed, replies, |es|, Replayed),
        Counted(es, deleteReplayed, replies, |es|, Skipped),
        Counted(es, deleteReplayed, replies, |es|, Error)))
    {
      if !readable {
        return Failure("Failed to read dead-letter stream");
      }
      var entries := Inspected(dead, count);
      var replayed, skipped, errors := 0, 0, 0;
      for i := 0 to |entries|
        invariant State() == Replay(old(State()), entries, deleteReplayed, replies, i)
        invariant replayed == Counted(entries, deleteReplayed, replies, i, Replayed)
        invariant skipped == Counted(entries, deleteReplayed, replies, i, Skipped)
        invariant errors == Counted(entries, deleteReplayed, replies, i, Error)
      {
        var t := ReplayEntry(entries[i], deleteReplayed, ReplyAt(replies, i));
        match t
        case Replayed => replayed := replayed + 1;
        case Skipped => skipped := skipped + 1;
        case Error => errors := errors + 1;
      }
      return Success(Summary(|entries|, replayed, skipped, errors));
    }
  }

  // ----- no dead letter is lost

  /** The stream's own ids are unique. */
  ghost predicate UniqueIds(dead: seq<Entry>) {
    forall i, j :: 0 <= i < j < |dead| ==> dead[i].id != dead[j].id
  }

  predicate NamesOther(dead: seq<Entry>, e: Entry) {
    HasOrigin(e) && Payload(e) != map[] && Target(e) != "" && Target(e) != e.id &&
    exists i :: 0 <= i < |dead| && dead[i].id == Target(e)
  }

  /** `e` is still among the dead letters, or its payload was appended to its original stream. */
  ghost predicate Safe(s: Streams, e: Entry) {
    e in s.dead || (HasOrigin(e) && Append(e.id, e.fields[STREAM], Payload(e)) in s.appended)
  }

  ghost predicate NothingLost(dead: seq<Entry>, s: Streams) {
    forall i :: 0 <= i < |dead| ==> Safe(s, dead[i])
  }

  lemma {:induction false} RemovedHolds(dead: seq<Entry>, id: string, e: Entry)
    ensures e in Removed(dead, id) <==> e in dead && e.id != id
  {
    if dead != [] {
      RemovedHolds(dead[1..], id, e);
      assert dead == [dead[0]] + dead[1..];
    }
  }

  lemma ReplayOneKeeps(dead: seq<Entry>, s: Streams, e: Entry, deleteReplayed: bool, r: Reply, x: Entry)
    requires UniqueIds(dead) && e in dead && x in dead && Safe(s, x)
    requires deleteReplayed ==> !NamesOther(dead, e)
    ensures Safe(ReplayOne(s, e, deleteReplayed, r), x)
  {
    RemovedHolds(s.dead, Target(e), x);
    if Deletes(e, deleteReplayed, r) && Target(e) == x.id {
      var i :| 0 <= i < |dead| && dead[i] == x;
    }
  }

  lemma {:induction false} ReplayKeeps(dead: seq<Entry>, count: nat, deleteReplayed: bool, replies: seq<Reply>, n: nat)
    requires UniqueIds(dead) && n <= |Inspected(dead, count)|
    requires deleteReplayed ==> forall i :: 0 <= i < |Inspected(dead, count)| ==>
      !NamesOther(dead, Inspected(dead, count)[i])
    ensures NothingLost(dead, Replay(Streams(dead, []), Inspected(dead, count), deleteReplayed, replies, n))
  {
    var es := Inspected(dead, count);
    if n > 0 {
      ReplayKeeps(dead, count, deleteReplayed, replies, n - 1);
      var s := Replay(Streams(dead, []), es, deleteReplayed, replies, n - 1);
      assert es[n - 1] in dead;
      forall i | 0 <= i < |dead|
        ensures Safe(ReplayOne(s, es[n - 1], deleteReplayed, ReplyAt(replies, n - 1)), dead[i])
      {
        ReplayOneKeeps(dead, s, es[n - 1], deleteReplayed, ReplyAt(replies, n - 1), dead[i]);
      }
    }
  }

  /** Everything fails but the replay of entry `j`. */
  function OnlyReplays(j: nat, n: nat): seq<Reply> {
    seq(n, i => if i == j then Reply(Done, Done) else Reply(Refused, Refused))
  }

  lemma {:induction false} OnlyOneReplayed(dead: seq<Entry>, count: nat, j: nat, n: nat)
    requires j < |Inspected(dead, count)| && n <= |Inspected(dead, count)|
    ensures var es := Inspected(dead, count);
      var s := Replay(Streams(dead, []), es, true, OnlyReplays(j, |es|), n);
      s == if n <= j then Streams(dead, []) else ReplayOne(Streams(dead, []), es[j], true, Reply(Done, Done))
  {
    if n > 0 {
      OnlyOneReplayed(dead, count, j, n - 1);
    }
  }

  lemma LosesNamed(dead: seq<Entry>, e: Entry, x: Entry)
    requires NamesOther(dead, e) && x.id == Target(e)
    ensures !Safe(ReplayOne(Streams(dead, []), e, true, Reply(Done, Done)), x)
  {
    RemovedHolds(dead, Target(e), x);
    var s := ReplayOne(Streams(dead, []), e, true, Reply(Done, Done));
    assert s.appended == [Append(e.id, e.fields[STREAM], Payload(e))];
  }

  lemma NamedIsLost(dead: seq<Entry>, count: nat, j: nat) returns (replies: seq<Reply>)
    requires UniqueIds(dead) && j < |Inspected(dead, count)| && NamesOther(dead, Inspected(dead, count)[j])
    ensures var es := Inspected(dead, count);
      !NothingLost(dead, Replay(Streams(dead, []), es, true, replies, |es|))
  {
    var es := Inspected(dead, count);
    replies := OnlyReplays(j, |es|);
    OnlyOneReplayed(dead, count, j, |es|);
    var i :| 0 <= i < |dead| && dead[i].id == Target(es[j]);
    LosesNamed(dead, es[j], dead[i]);
  }

  /** No pattern of failures loses a dead letter, exactly when replayed entries are kept or no
      inspected entry that can be replayed carries a `msg_id` field that names another dead letter. */
  lemma NoLossIff(dead: seq<Entry>, count: nat, deleteReplayed: bool)
    requires UniqueIds(dead)
    ensures var es := Inspected(dead, count);
      (forall replies :: NothingLost(dead, Replay(Streams(dead, []), es, deleteReplayed, replies, |es|)))
      <==> (!deleteReplayed || forall i :: 0 <= i < |es| ==> !NamesOther(dead, es[i]))
  {
    var es := Inspected(dead, count);
    if !deleteReplayed || forall i :: 0 <= i < |es| ==> !NamesOther(dead, es[i]) {
      forall replies ensures NothingLost(dead, Replay(Streams(dead, []), es, deleteReplayed, replies, |es|)) {
        ReplayKeeps(dead, count, deleteReplayed, replies, |es|);
      }
    } else {
      var j :| 0 <= j < |es| && NamesOther(dead, es[j]);
      var replies := NamedIsLost(dead, count, j);
    }
  }

  // ----- a pass without failures

  predicate Leaves(e: Entry) {
    HasOrigin(e) && Payload(e) != map[] && Target(e) == e.id && e.id != ""
  }

  lemma {:induction false} CleanPass(dead: seq<Entry>, count: nat, n: nat, x: Entry)
    requires UniqueIds(dead) && n <= |Inspected(dead, count)| && x in dead
    requires forall i :: 0 <= i < |Inspected(dead, count)| ==> !NamesOther(dead, Inspected(dead, count)[i])
    ensures var s := Replay(Streams(dead, []), Inspected(dead, count), true, [], n);
      (x in s.dead <==> !(x in Inspected(dead, count)[..n] && Leaves(x))) &&
      (x in Inspected(dead, count)[..n] && HasOrigin(x) && Payload(x) != map[] ==>
         Append(x.id, x.fields[STREAM], Payload(x)) in s.appended)
  {
    var es := Inspected(dead, count);
    if n > 0 {
      CleanPass(dead, count, n - 1, x);
      assert es[..n] == es[..n - 1] + [es[n - 1]];
      assert es[n - 1] in dead;
      CleanOne(dead, Replay(Streams(dead, []), es, true, [], n - 1), es[n - 1], x);
    }
  }

  lemma CleanOne(dead: seq<Entry>, s: Streams, e: Entry, x: Entry)
    requires UniqueIds(dead) && e in dead && x in dead && !NamesOther(dead, e)
    ensures var s' := ReplayOne(s, e, true, Reply(Done, Done));
      && (x in s'.dead <==> x in s.dead && !(x == e && Leaves(x)))
      && (forall a :: a in s.appended ==> a in s'.appended)
      && (HasOrigin(e) && Payload(e) != map[] ==> Append(e.id, e.fields[STREAM], Payload(e)) in s'.appended)
  {
    RemovedHolds(s.dead, Target(e), x);
    var i :| 0 <= i < |dead| && dead[i] == x;
  }

  // ----- the consumer side

  datatype Message = Message(id: string, fields: Fields)

  /** Whether the message parses, and the fates of its acknowledgement and of setting it aside. */
  datatype Handling = Handling(parses: bool, ack: Fate, aside: Fate, reason: string, newId: string)

  datatype Group = Group(unacked: set<string>, yielded: seq<string>, dead: seq<Entry>)

  predicate Handled(h: Handling) {
    h.parses && h.ack == Done
  }

  function HandleOne(g: Group, stream: string, m: Message, h: Handling): Group {
    Group(
      if h.parses && Effective(h.ack) then g.unacked - {m.id} else g.unacked,
      if h.parses then g.yielded + [m.id] else g.yielded,
      if !Handled(h) && Effective(h.aside)
      then g.dead + [Entry(h.newId, DeadFields(m.fields, m.id, stream, h.reason))] else g.dead)
  }

  function HandleAll(g: Group, stream: string, batch: seq<Message>, hs: seq<Handling>, n: nat): Group
    requires n <= |batch| == |hs|
  {
    if n == 0 then g else HandleOne(HandleAll(g, stream, batch, hs, n - 1), stream, batch[n - 1], hs[n - 1])
  }

  class GroupConsumer {
    var unacked: set<string>
    var yielded: seq<string>
    var dead: seq<Entry>

    constructor ()
      ensures State() == Group({}, [], [])
    {
      unacked, yielded, dead := {}, [], [];
    }

    function State(): Group
      reads this
    {
      Group(unacked, yielded, dead)
    }

    method HandleMessage(stream: string, m: Message, h: Handling)
      modifies this
      ensures State() == HandleOne(old(State()), stream, m, h)
    {
      var ok := h.parses;
      if ok {
        yielded := yielded + [m.id];
        if Effective(h.ack) {
          unacked := unacked - {m.id};
        }
        ok := h.ack == Done;
      }
      if !ok && Effective(h.aside) {
        dead := dead + [Entry(h.newId, DeadFields(m.fields, m.id, stream, h.reason))];
      }
    }

    /** What one read of the group returned is pending until it is acknowledged. */
    method HandleBatch(stream: string, batch: seq<Message>, hs: seq<Handling>)
      requires |batch| == |hs|
      modifies this
      ensures var read := old(State()).(unacked := old(unacked) + set m | m in batch :: m.id);
        State() == HandleAll(read, stream, batch, hs, |batch|)
    {
      unacked := unacked + set m | m in batch :: m.id;
      ghost var start := State();
      for i := 0 to |batch|
        invariant State() == HandleAll(start, stream, batch, hs, i)
      {
        HandleMessage(stream, batch[i], hs[i]);
      }
    }
  }

  /** The messages that parse are yielded, in order; those that do not, or whose acknowledgement
      raised, get a dead letter each, in order, as far as writing it takes effect. */
  lemma {:induction false} BatchIsExact(g: Group, stream: string, batch: seq<Message>, hs: seq<Handling>, n: nat)
    requires n < |batch| == |hs|
    ensures var before, after := HandleAll(g, stream, batch, hs, n), HandleAll(g, stream, batch, hs, n + 1);
      var m, h := batch[n], hs[n];
      && after.yielded == before.yielded + (if h.parses then [m.id] else [])
      && after.unacked == before.unacked - (if h.parses && h.ack != Refused then {m.id} else {})
      && after.dead == before.dead + if !(h.parses && h.ack == Done) && h.aside != Refused
           then [Entry(h.newId, DeadFields(m.fields, m.id, stream, h.reason))] else []
  {
  }

  /** Nothing is acknowledged before it was yielded, and a message whose handling failed is still
      pending or has a dead letter that restores it, unless an acknowledgement that took effect was
      reported as an error. */
  lemma {:induction false} NoMessageVanishes(g: Group, stream: string, batch: seq<Message>, hs: seq<Handling>, n: nat,
                                             i: nat)
    requires n <= |batch| == |hs| && i < n
    requires batch[i].id in g.unacked && forall j, k :: 0 <= j < k < |batch| ==> batch[j].id != batch[k].id
    ensures var g' := HandleAll(g, stream, batch, hs, n);
      && (batch[i].id !in g'.unacked ==> batch[i].id in g'.yielded)
      && (batch[i].id in g'.unacked <==> !(hs[i].parses && Effective(hs[i].ack)))
      && (!Handled(hs[i]) && Effective(hs[i].aside) ==>
           Entry(hs[i].newId, DeadFields(batch[i].fields, batch[i].id, stream, hs[i].reason)) in g'.dead)
  {
    if i < n - 1 {
      NoMessageVanishes(g, stream, batch, hs, n - 1, i);
    } else {
      StillPending(g, stream, batch, hs, n - 1, i);
    }
  }

  lemma {:induction false} StillPending(g: Group, stream: string, batch: seq<Message>, hs: seq<Handling>, n: nat,
                                        i: nat)
    requires n <= i < |batch| == |hs|
    requires batch[i].id in g.unacked && forall j, k :: 0 <= j < k < |batch| ==> batch[j].id != batch[k].id
    ensures batch[i].id in HandleAll(g, stream, batch, hs, n).unacked
  {
    if n > 0 {
      StillPending(g, stream, batch, hs, n - 1, i);
    }
  }
}
