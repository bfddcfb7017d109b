/** The ACMP controller: a bounded table of commands in flight, each retried once. */
module Acmp {
  import opened Wire

  const MAX_INFLIGHT := 16
  const ID_SPACE := 0x1_0000

  /** The fields of a command or response that the controller only passes on. */
  datatype Fields = Fields(talker: nat, listener: nat, talkerUnique: nat, listenerUnique: nat, connections: nat, flags: nat, vlan: nat)

  datatype Message = Message(mtype: nat, controller: nat, sequenceId: nat, fields: Fields)

  datatype Entry = Entry(command: Message, deadline: int, retried: bool)

  /** The transmit callback: not set, refusing, or accepting the command. */
  datatype Tx = Unset | Refuses | Accepts

  /** acmp_timeout_for_message_type, in milliseconds. */
  function TimeoutFor(mtype: nat): (ms: nat)
    ensures 200 <= ms <= 4500
  {
    match mtype
    case 0 => 2000
    case 6 => 4500
    case 8 => 500
    case _ => 200
  }

  // ---- the slot table ----

  /** Removal moves the last entry into the hole. */
  function RemoveAt<X>(s: seq<X>, i: nat): (r: seq<X>)
    requires i < |s|
    ensures |r| == |s| - 1
    ensures forall j :: 0 <= j < |r| ==> r[j] == if j == i then s[|s| - 1] else s[j]
  {
    s[i := s[|s| - 1]][..|s| - 1]
  }

  /** The command read through slot i right after removing it: the storage there holds the entry that
      was last. */
  function Reported(s: seq<Entry>, i: nat): (m: Message)
    requires i < |s|
  {
    s[i := s[|s| - 1]][i].command
  }

  predicate Matches(e: Entry, resp: Message) {
    e.command.controller == resp.controller && e.command.sequenceId == resp.sequenceId && e.command.mtype + 1 == resp.mtype
  }

  predicate TimedOut(e: Entry, now: int) {
    now >= e.deadline
  }

  datatype Table = Table(id: nat, capacity: nat, next: nat, slots: seq<Entry>)

  predicate WfTable(t: Table) {
    |t.slots| <= t.capacity <= MAX_INFLIGHT && t.next < ID_SPACE
  }

  /** The command a send builds. */
  function Built(t: Table, mtype: nat, fields: Fields): (m: Message) {
    Message(mtype, t.id, t.next, fields)
  }

  /** send_command: nothing at all when full; otherwise a sequence id is used up, and the command is
      tracked when the callback accepted it. */
  function AfterSend(t: Table, mtype: nat, fields: Fields, now: int, tx: Tx): (t': Table)
    requires WfTable(t)
    ensures WfTable(t')
  {
    if |t.slots| >= t.capacity then t else
      var c := Built(t, mtype, fields);
      t.(next := (t.next + 1) % ID_SPACE,
         slots := if tx == Accepts then t.slots + [Entry(c, now + TimeoutFor(mtype), false)] else t.slots)
  }

  /** handle_timeout on a slot. */
  function AfterTimeout(t: Table, slot: nat, now: int): (t': Table)
    requires WfTable(t)
    ensures WfTable(t')
  {
    if slot >= |t.slots| then t else
      var e := t.slots[slot];
      t.(slots := if e.retried then RemoveAt(t.slots, slot) else t.slots[slot := Retried(e, now)])
  }

  function Retried(e: Entry, now: int): (r: Entry) {
    e.(retried := true, deadline := now + TimeoutFor(e.command.mtype))
  }

  /** handle_response on a slot. */
  function AfterResponse(t: Table, slot: nat): (t': Table)
    requires WfTable(t)
    ensures WfTable(t')
  {
    if slot >= |t.slots| then t else t.(slots := RemoveAt(t.slots, slot))
  }

  // ---- sums over a table ----

  /** The sum of f over a sequence. */
  ghost function Gather<E(!new), X>(s: seq<E>, f: E -> multiset<X>): (m: multiset<X>) {
    if s == [] then multiset{} else Gather(s[..|s| - 1], f) + f(s[|s| - 1])
  }

  lemma MoveIn<X>(a: multiset<X>, b: multiset<X>, p: multiset<X>, q: multiset<X>, r: multiset<X>)
    requires a + p == b + q
    ensures (a + r) + p == (b + r) + q
  {
    assert (a + r) + p == (a + p) + r;
    assert (b + r) + q == (b + q) + r;
  }

  lemma Cancel<X>(a: multiset<X>, b: multiset<X>, p: multiset<X>, r: multiset<X>)
    requires (a + r) + p == b + r
    ensures a + p == b
  {
    assert (a + r) + p == (a + p) + r;
    assert a + p == ((a + p) + r) - r;
    assert b == (b + r) - r;
  }

  lemma {:induction false} GatherUpdate<E(!new), X>(s: seq<E>, f: E -> multiset<X>, i: nat, x: E)
    requires i < |s|
    ensures Gather(s[i := x], f) + f(s[i]) == Gather(s, f) + f(x)
  {
    var n := |s| - 1;
    if i < n {
      GatherUpdate(s[..n], f, i, x);
      assert s[i := x][..n] == s[..n][i := x];
      MoveIn(Gather(s[..n][i := x], f), Gather(s[..n], f), f(s[i]), f(x), f(s[n]));
    } else {
      assert s[i := x][..n] == s[..n];
      var g := Gather(s[..n], f);
      assert (g + f(x)) + f(s[i]) == (g + f(s[i])) + f(x);
    }
  }

  lemma GatherSnoc<E(!new), X>(s: seq<E>, f: E -> multiset<X>)
    requires s != []
    ensures Gather(s, f) == Gather(s[..|s| - 1], f) + f(s[|s| - 1])
  {
  }

  lemma RemovedIsUpdated<X>(s: seq<X>, i: nat)
    requires i < |s|
    ensures var u := s[i := s[|s| - 1]]; RemoveAt(s, i) == u[..|u| - 1] && u[|u| - 1] == s[|s| - 1] && |u| == |s|
  {
  }

  lemma GatherRemove<E(!new), X>(s: seq<E>, f: E -> multiset<X>, i: nat)
    requires i < |s|
    ensures Gather(RemoveAt(s, i), f) + f(s[i]) == Gather(s, f)
  {
    hide Gather, RemoveAt;
    var last := s[|s| - 1];
    var u := s[i := last];
    RemovedIsUpdated(s, i);
    GatherSnoc(u, f);
    GatherUpdate(s, f, i, last);
    var a, b, p, r := Gather(RemoveAt(s, i), f), Gather(s, f), f(s[i]), f(last);
    Cancel(a, b, p, r);
  }

  lemma GatherAppend<E(!new), X>(s: seq<E>, f: E -> multiset<X>, x: E)
    ensures Gather(s + [x], f) == Gather(s, f) + f(x)
  {
    assert (s + [x])[..|s|] == s;
  }

  // ---- one tick ----

  /** What a tick at now leaves of an entry. */
  ghost function SurvivorOf(now: int): (f: Entry -> multiset<Entry>) {
    e => if !TimedOut(e, now) then multiset{e} else if e.retried then multiset{} else multiset{Retried(e, now)}
  }

  ghost function FreshOf(now: int): (f: Entry -> multiset<Message>) {
    e => if TimedOut(e, now) && !e.retried then multiset{e.command} else multiset{}
  }

  ghost function GivenUpOf(now: int): (f: Entry -> multiset<Message>) {
    e => if TimedOut(e, now) && e.retried then multiset{e.command} else multiset{}
  }

  ghost function Survivors(s: seq<Entry>, now: int): (m: multiset<Entry>) {
    Gather(s, SurvivorOf(now))
  }

  /** The timed-out commands to transmit again. */
  ghost function Fresh(s: seq<Entry>, now: int): (m: multiset<Message>) {
    Gather(s, FreshOf(now))
  }

  /** The timed-out commands to give up. */
  ghost function GivenUp(s: seq<Entry>, now: int): (m: multiset<Message>) {
    Gather(s, GivenUpOf(now))
  }

  ghost function SlotsAfterTimeout(s: seq<Entry>, i: nat, now: int): (r: seq<Entry>)
    requires i < |s|
  {
    if s[i].retried then RemoveAt(s, i) else s[i := Retried(s[i], now)]
  }

  lemma TickStep(s: seq<Entry>, i: nat, now: int)
    requires i < |s| && TimedOut(s[i], now)
    ensures var r, e := SlotsAfterTimeout(s, i, now), s[i];
            && Survivors(r, now) == Survivors(s, now)
            && Fresh(r, now) + (if e.retried then multiset{} else multiset{e.command}) == Fresh(s, now)
            && GivenUp(r, now) + (if e.retried then multiset{e.command} else multiset{}) == GivenUp(s, now)
  {
    hide Gather;
    var r, e := SlotsAfterTimeout(s, i, now), s[i];
    if e.retried {
      GatherRemove(s, SurvivorOf(now), i);
      GatherRemove(s, FreshOf(now), i);
      GatherRemove(s, GivenUpOf(now), i);
    } else {
      var x := Retried(e, now);
      GatherUpdate(s, SurvivorOf(now), i, x);
      SameSum(Survivors(r, now), Survivors(s, now), multiset{x});
      GatherUpdate(s, FreshOf(now), i, x);
      GatherUpdate(s, GivenUpOf(now), i, x);
    }
  }

  lemma SameSum<X>(a: multiset<X>, b: multiset<X>, r: multiset<X>)
    requires a + r == b + r
    ensures a == b
  {
    assert a == (a + r) - r;
    assert b == (b + r) - r;
  }

  lemma {:induction false} AllSurvive(s: seq<Entry>, now: int)
    requires forall e <- s :: !TimedOut(e, now)
    ensures Survivors(s, now) == multiset(s) && Fresh(s, now) == multiset{} && GivenUp(s, now) == multiset{}
  {
    if s != [] {
      AllSurvive(s[..|s| - 1], now);
      assert s == s[..|s| - 1] + [s[|s| - 1]];
    }
  }

  /** A command given up from slot at.1 of the table at.0, and what the report read through that slot once it was
      removed. */
  ghost predicate ReportedAt(at: (seq<Entry>, nat), now: int, gaveUp: Message, reported: Message) {
    && at.1 < |at.0| && at.0[at.1].retried && TimedOut(at.0[at.1], now)
    && gaveUp == at.0[at.1].command && reported == Reported(at.0, at.1)
  }

  ghost predicate DistinctCommands(s: seq<Entry>) {
    forall j, k :: 0 <= j < k < |s| ==> s[j].command != s[k].command
  }

  lemma StayDistinct(s: seq<Entry>, i: nat, now: int)
    requires i < |s| && DistinctCommands(s)
    ensures DistinctCommands(SlotsAfterTimeout(s, i, now))
  {
  }

  lemma ReportRead(s: seq<Entry>, i: nat, now: int)
    requires i < |s| && s[i].retried && TimedOut(s[i], now)
    ensures ReportedAt((s, i), now, s[i].command, Reported(s, i))
  {
  }

  lemma ReportNames(at: (seq<Entry>, nat), now: int, gaveUp: Message, reported: Message)
    requires ReportedAt(at, now, gaveUp, reported) && DistinctCommands(at.0)
    ensures reported == gaveUp <==> at.1 == |at.0| - 1
  {
  }

  /** What a tick has given up and reported so far, from the slots it started with. */
  ghost predicate Ledger(start: seq<Entry>, slots: seq<Entry>, now: int, gaveUp: seq<Message>, reported: seq<Message>,
                         at: seq<(seq<Entry>, nat)>) {
    && multiset(gaveUp) + GivenUp(slots, now) == GivenUp(start, now)
    && |reported| == |gaveUp| == |at|
    && (forall k :: 0 <= k < |at| ==> ReportedAt(at[k], now, gaveUp[k], reported[k]))
    && (DistinctCommands(start) ==> DistinctCommands(slots) && forall k :: 0 <= k < |at| ==> DistinctCommands(at[k].0))
  }

  lemma LedgerStep(start: seq<Entry>, s: seq<Entry>, i: nat, now: int, gaveUp: seq<Message>, reported: seq<Message>,
                   at: seq<(seq<Entry>, nat)>)
    requires Ledger(start, s, now, gaveUp, reported, at) && i < |s| && TimedOut(s[i], now)
    ensures s[i].retried ==>
              Ledger(start, SlotsAfterTimeout(s, i, now), now, gaveUp + [s[i].command], reported + [Reported(s, i)], at + [(s, i)])
    ensures !s[i].retried ==> Ledger(start, SlotsAfterTimeout(s, i, now), now, gaveUp, reported, at)
  {
    hide GivenUp, Fresh, Survivors, DistinctCommands, ReportedAt, SlotsAfterTimeout;
    TickStep(s, i, now);
    if DistinctCommands(s) {
      StayDistinct(s, i, now);
    }
    if s[i].retried {
      ReportRead(s, i, now);
      assert multiset(gaveUp + [s[i].command]) == multiset(gaveUp) + multiset{s[i].command};
      assert multiset(gaveUp) + multiset{s[i].command} + GivenUp(SlotsAfterTimeout(s, i, now), now)
             == multiset(gaveUp) + (GivenUp(SlotsAfterTimeout(s, i, now), now) + multiset{s[i].command});
    }
  }

  lemma NoLedger(s: seq<Entry>, now: int)
    ensures Ledger(s, s, now, [], [], [])
  {
  }

  lemma LedgerEnd(start: seq<Entry>, s: seq<Entry>, now: int, gaveUp: seq<Message>, reported: seq<Message>, at: seq<(seq<Entry>, nat)>)
    requires Ledger(start, s, now, gaveUp, reported, at) && GivenUp(s, now) == multiset{}
    ensures multiset(gaveUp) == GivenUp(start, now) && |reported| == |gaveUp| == |at|
    ensures forall k :: 0 <= k < |at| ==> ReportedAt(at[k], now, gaveUp[k], reported[k])
    ensures DistinctCommands(start) ==> forall k :: 0 <= k < |at| ==> (reported[k] == gaveUp[k] <==> at[k].1 == |at[k].0| - 1)
  {
    hide GivenUp, DistinctCommands, ReportedAt;
    forall k | 0 <= k < |at| && DistinctCommands(start) ensures reported[k] == gaveUp[k] <==> at[k].1 == |at[k].0| - 1 {
      ReportNames(at[k], now, gaveUp[k], reported[k]);
    }
  }

  // ---- the controller ----

  class Controller {
    const id: nat
    const capacity: nat
    var nextSequenceId: nat
    var slots: seq<Entry>

    function View(): (t: Table)
      reads this
    {
      Table(id, capacity, nextSequenceId, slots)
    }

    constructor (id: nat, softCap: nat)
      ensures View() == Table(id, if softCap < 16 then softCap else 16, 0, [])
    {
      this.id := id;
      this.capacity := if softCap < MAX_INFLIGHT then softCap else MAX_INFLIGHT;
      nextSequenceId := 0;
      slots := [];
    }

    /** The first slot whose command the response answers, or MAX_INFLIGHT: a response answers a command with its
        controller, its id and the message type one below. */
    method FindInflight(resp: Message) returns (i: nat)
      requires WfTable(View())
      ensures i < capacity <==>
                exists k :: && 0 <= k < |slots| && slots[k].command.controller == resp.controller
                            && slots[k].command.sequenceId == resp.sequenceId && slots[k].command.mtype + 1 == resp.mtype
      ensures i < capacity ==> i < |slots| && Matches(slots[i], resp) && forall k :: 0 <= k < i ==> !Matches(slots[k], resp)
    {
      i := 0;
      while i < |slots|
        invariant i <= |slots| && forall k :: 0 <= k < i ==> !Matches(slots[k], resp)
      {
        if Matches(slots[i], resp) {
          return;
        }
        i := i + 1;
      }
      i := MAX_INFLIGHT;
    }

    /** controller_should_handle_response. */
    method ShouldHandleResponse(resp: Message) returns (b: bool)
      requires WfTable(View())
      ensures b <==> && resp.mtype % 2 == 1 && resp.controller == id
                     && exists k :: && 0 <= k < |slots| && slots[k].command.controller == id
                                    && slots[k].command.sequenceId == resp.sequenceId && slots[k].command.mtype + 1 == resp.mtype
    {
      if resp.mtype % 2 == 0 {
        return false;
      }
      if resp.controller != id {
        return false;
      }
      var i := FindInflight(resp);
      b := i < capacity;
    }

    method FindTimedOut(now: int) returns (i: nat)
      requires WfTable(View())
      ensures i < capacity <==> exists k :: 0 <= k < |slots| && slots[k].deadline <= now
      ensures i < capacity ==> i < |slots| && TimedOut(slots[i], now)
    {
      i := 0;
      while i < |slots|
        invariant i <= |slots| && forall k :: 0 <= k < i ==> !TimedOut(slots[k], now)
      {
        if TimedOut(slots[i], now) {
          return;
        }
        i := i + 1;
      }
      i := MAX_INFLIGHT;
    }

    /** The message handed to the transmit callback, if any. */
    method SendCommand(mtype: nat, fields: Fields, now: int, tx: Tx) returns (sent: Option<Message>)
      requires WfTable(View())
      modifies this
      ensures View() == AfterSend(old(View()), mtype, fields, now, tx)
      ensures sent == if old(|slots|) < capacity && tx != Unset then Some(Built(old(View()), mtype, fields)) else None
    {
      sent := None;
      if |slots| >= capacity {
        return;
      }
      var c := Message(mtype, id, nextSequenceId, fields);
      nextSequenceId := (nextSequenceId + 1) % ID_SPACE;
      if tx != Unset {
        sent := Some(c);
        if tx == Accepts {
          slots := slots + [Entry(c, now + TimeoutFor(c.mtype), false)];
        }
      }
    }

    method HandleTimeout(slot: nat, now: int, tx: Tx) returns (sent: Option<Message>)
      requires WfTable(View())
      modifies this`slots
      ensures View() == AfterTimeout(old(View()), slot, now)
      ensures sent == if slot < old(|slots|) && !old(slots)[slot].retried && tx != Unset then Some(old(slots)[slot].command) else None
    {
      sent := None;
      if slot >= |slots| {
        return;
      }
      var e := slots[slot];
      if e.retried {
        slots := RemoveAt(slots, slot);
      } else {
        e := e.(retried := true);
        e := e.(deadline := now + TimeoutFor(e.command.mtype));
        slots := slots[slot := e];
        if tx != Unset {
          sent := Some(e.command);
        }
      }
    }

    method HandleResponse(slot: nat, resp: Message) returns (processed: Option<Message>)
      requires WfTable(View())
      modifies this`slots
      ensures View() == AfterResponse(old(View()), slot)
      ensures processed == if slot < old(|slots|) then Some(resp) else None
    {
      processed := None;
      if slot >= |slots| {
        return;
      }
      processed := Some(resp);
      slots := RemoveAt(slots, slot);
    }

    /** NanoAvbAcmpController::tick: handle timed-out slots until none is left. Every entry that had
        timed out is handled once: retried if it was fresh, given up if it had been retried. `gaveUp` are the
        commands given up, in order; `at` is the table and the slot each was given up from, and what the report
        read there afterwards. */
    method Tick(now: int, tx: Tx)
      returns (resent: seq<Message>, reported: seq<Message>, ghost gaveUp: seq<Message>, ghost at: seq<(seq<Entry>, nat)>)
      requires WfTable(View())
      modifies this`slots
      ensures WfTable(View())
      ensures forall e <- slots :: !TimedOut(e, now)
      ensures multiset(slots) == Survivors(old(slots), now)
      ensures multiset(resent) == if tx == Unset then multiset{} else Fresh(old(slots), now)
      ensures multiset(gaveUp) == GivenUp(old(slots), now)
      ensures |reported| == |gaveUp| == |at| && forall k :: 0 <= k < |at| ==> ReportedAt(at[k], now, gaveUp[k], reported[k])
      ensures DistinctCommands(old(slots)) ==>
                forall k :: 0 <= k < |at| ==> (reported[k] == gaveUp[k] <==> at[k].1 == |at[k].0| - 1)
    {
      hide Survivors, Fresh, GivenUp, SurvivorOf, DistinctCommands, ReportedAt, Ledger;
      resent, reported, gaveUp, at := [], [], [], [];
      NoLedger(slots, now);
      var i: nat := FindTimedOut(now);
      while i < capacity
        invariant WfTable(View())
        invariant i < capacity <==> exists k :: 0 <= k < |slots| && TimedOut(slots[k], now)
        invariant i < capacity ==> i < |slots| && TimedOut(slots[i], now)
        invariant Survivors(slots, now) == Survivors(old(slots), now)
        invariant if tx == Unset then resent == [] else multiset(resent) + Fresh(slots, now) == Fresh(old(slots), now)
        invariant Ledger(old(slots), slots, now, gaveUp, reported, at)
        decreases |Fresh(slots, now)| + |GivenUp(slots, now)|
      {
        ghost var before := slots;
        var wasRetried := slots[i].retried;
        var seen := Reported(slots, i);
        TickStep(before, i, now);
        LedgerStep(old(slots), before, i, now, gaveUp, reported, at);
        var sent := HandleTimeout(i, now, tx);
        if sent.Some? {
          resent := resent + [sent.value];
        }
        if wasRetried {
          reported, gaveUp, at := reported + [seen], gaveUp + [before[i].command], at + [(before, i)];
        }
        i := FindTimedOut(now);
      }
      AllSurvive(slots, now);
      LedgerEnd(old(slots), slots, now, gaveUp, reported, at);
    }
  }
}
