/** Every run of the ACMP controller: what each accepted command goes through. */
module AcmpRuns {
  import opened Wire
  import opened Acmp

  /** The history of an accepted command: its number among the ids used, when it was first sent, when
      it was retried, and how often it was handed to the transmit callback. */
  datatype Life = Life(ordinal: nat, command: Message, sentAt: int, retriedAt: Option<int>, sends: nat)

  datatype Step =
    | Send(mtype: nat, fields: Fields, now: int, tx: Tx)
    | Timeout(slot: nat, now: int, tx: Tx)
    | Response(slot: nat, resp: Message)

  /** The table together with the history of every accepted command: live[i] is that of slot i. */
  datatype World = World(t: Table, used: nat, accepted: seq<(nat, Message)>, live: seq<Life>,
                         answered: seq<(Life, Message)>, abandoned: seq<(Life, int)>)

  predicate Shaped(w: World) {
    WfTable(w.t) && |w.live| == |w.t.slots|
  }

  function Start(id: nat, capacity: nat): (w: World) {
    World(Table(id, capacity, 0, []), 0, [], [], [], [])
  }

  /** One step. The table moves as the controller moves it; the history only records. */
  function Apply(w: World, step: Step): (w': World)
    requires Shaped(w)
    ensures Shaped(w')
  {
    match step
    case Send(mtype, fields, now, tx) =>
      var t := AfterSend(w.t, mtype, fields, now, tx);
      if |w.t.slots| >= w.t.capacity then w
      else if tx != Accepts then w.(t := t, used := w.used + 1)
      else
        var c := Built(w.t, mtype, fields);
        w.(t := t, used := w.used + 1, accepted := w.accepted + [(w.used, c)],
           live := w.live + [Life(w.used, c, now, None, 1)])
    case Timeout(slot, now, tx) =>
      var t := AfterTimeout(w.t, slot, now);
      if slot >= |w.live| then w
      else if w.t.slots[slot].retried then
        w.(t := t, live := RemoveAt(w.live, slot), abandoned := w.abandoned + [(w.live[slot], now)])
      else
        var l := w.live[slot];
        w.(t := t, live := w.live[slot := l.(retriedAt := Some(now), sends := if tx == Unset then l.sends else l.sends + 1)])
    case Response(slot, resp) =>
      var t := AfterResponse(w.t, slot);
      if slot >= |w.live| then w
      else w.(t := t, live := RemoveAt(w.live, slot), answered := w.answered + [(w.live[slot], resp)])
  }

  function Run(w: World, steps: seq<Step>): (w': World)
    requires Shaped(w)
    ensures Shaped(w')
  {
    if steps == [] then w else Apply(Run(w, steps[..|steps| - 1]), steps[|steps| - 1])
  }

  // ---- what every run keeps ----

  predicate WfLife(l: Life, used: nat) {
    && l.ordinal < used && l.command.sequenceId == l.ordinal % ID_SPACE
    && 1 <= l.sends <= (if l.retriedAt.Some? then 2 else 1)
  }

  /** A slot and the history of its command say the same. */
  predicate Agrees(e: Entry, l: Life) {
    && e.command == l.command && e.retried == l.retriedAt.Some?
    && e.deadline == (if l.retriedAt.Some? then l.retriedAt.value else l.sentAt) + TimeoutFor(l.command.mtype)
  }

  ghost function BornLive(): (f: Life -> multiset<(nat, Message)>) { (l: Life) => multiset{(l.ordinal, l.command)} }
  ghost function BornAnswered(): (f: ((Life, Message)) -> multiset<(nat, Message)>) { (a: (Life, Message)) => multiset{(a.0.ordinal, a.0.command)} }
  ghost function BornAbandoned(): (f: ((Life, int)) -> multiset<(nat, Message)>) { (a: (Life, int)) => multiset{(a.0.ordinal, a.0.command)} }

  /** Accepted commands are the ones in flight, answered and given up, each once. */
  ghost predicate Balanced(accepted: seq<(nat, Message)>, live: seq<Life>, answered: seq<(Life, Message)>, abandoned: seq<(Life, int)>) {
    multiset(accepted) == Gather(live, BornLive()) + Gather(answered, BornAnswered()) + Gather(abandoned, BornAbandoned())
  }

  predicate Histories(w: World) {
    && (forall i :: 0 <= i < |w.live| ==> WfLife(w.live[i], w.used))
    && (forall i :: 0 <= i < |w.answered| ==> WfLife(w.answered[i].0, w.used))
    && (forall i :: 0 <= i < |w.abandoned| ==> WfLife(w.abandoned[i].0, w.used) && w.abandoned[i].0.retriedAt.Some?)
  }

  predicate Numbered(w: World) {
    && (forall i :: 0 <= i < |w.accepted| ==> w.accepted[i].0 < w.used)
    && (forall i, j :: 0 <= i < j < |w.accepted| ==> w.accepted[i].0 < w.accepted[j].0)
    && (forall i, j :: 0 <= i < j < |w.live| ==> w.live[i].ordinal != w.live[j].ordinal)
  }

  ghost predicate Inv(w: World)
    ensures Inv(w) ==> Shaped(w)
  {
    && Shaped(w) && w.t.next == w.used % ID_SPACE
    && (forall i :: 0 <= i < |w.live| ==> Agrees(w.t.slots[i], w.live[i]))
    && Histories(w) && Numbered(w) && Balanced(w.accepted, w.live, w.answered, w.abandoned)
  }

  lemma StartInv(id: nat, capacity: nat)
    requires capacity <= MAX_INFLIGHT
    ensures Inv(Start(id, capacity))
  {
  }

  lemma NextId(used: nat)
    ensures (used % ID_SPACE + 1) % ID_SPACE == (used + 1) % ID_SPACE
  {
  }

  lemma SendBalanced(w: World, b: (nat, Message), l: Life)
    requires Balanced(w.accepted, w.live, w.answered, w.abandoned) && b == (l.ordinal, l.command)
    ensures Balanced(w.accepted + [b], w.live + [l], w.answered, w.abandoned)
  {
    hide Gather;
    GatherAppend(w.live, BornLive(), l);
    var x, y, z := Gather(w.live, BornLive()), Gather(w.answered, BornAnswered()), Gather(w.abandoned, BornAbandoned());
    assert (x + multiset{b}) + y + z == (x + y + z) + multiset{b};
  }

  lemma AnswerBalanced(w: World, slot: nat, resp: Message)
    requires Balanced(w.accepted, w.live, w.answered, w.abandoned) && slot < |w.live|
    ensures Balanced(w.accepted, RemoveAt(w.live, slot), w.answered + [(w.live[slot], resp)], w.abandoned)
  {
    hide Gather;
    GatherRemove(w.live, BornLive(), slot);
    GatherAppend(w.answered, BornAnswered(), (w.live[slot], resp));
    var x, y, z := Gather(RemoveAt(w.live, slot), BornLive()), Gather(w.answered, BornAnswered()), Gather(w.abandoned, BornAbandoned());
    var b := multiset{(w.live[slot].ordinal, w.live[slot].command)};
    assert (x + b) + y + z == x + (y + b) + z;
  }

  lemma AbandonBalanced(w: World, slot: nat, now: int)
    requires Balanced(w.accepted, w.live, w.answered, w.abandoned) && slot < |w.live|
    ensures Balanced(w.accepted, RemoveAt(w.live, slot), w.answered, w.abandoned + [(w.live[slot], now)])
  {
    hide Gather;
    GatherRemove(w.live, BornLive(), slot);
    GatherAppend(w.abandoned, BornAbandoned(), (w.live[slot], now));
    var x, y, z := Gather(RemoveAt(w.live, slot), BornLive()), Gather(w.answered, BornAnswered()), Gather(w.abandoned, BornAbandoned());
    var b := multiset{(w.live[slot].ordinal, w.live[slot].command)};
    assert (x + b) + y + z == x + y + (z + b);
  }

  lemma RetryBalanced(w: World, slot: nat, l: Life)
    requires Balanced(w.accepted, w.live, w.answered, w.abandoned) && slot < |w.live| && l.ordinal == w.live[slot].ordinal && l.command == w.live[slot].command
    ensures Balanced(w.accepted, w.live[slot := l], w.answered, w.abandoned)
  {
    hide Gather;
    GatherUpdate(w.live, BornLive(), slot, l);
    SameSum(Gather(w.live[slot := l], BornLive()), Gather(w.live, BornLive()), multiset{(l.ordinal, l.command)});
  }

  lemma SendInv(w: World, step: Step)
    requires Inv(w) && step.Send?
    ensures Inv(Apply(w, step))
  {
    hide Balanced;
    NextId(w.used);
    if |w.t.slots| < w.t.capacity && step.tx == Accepts {
      var c := Built(w.t, step.mtype, step.fields);
      SendBalanced(w, (w.used, c), Life(w.used, c, step.now, None, 1));
    }
  }

  lemma TimeoutInv(w: World, step: Step)
    requires Inv(w) && step.Timeout?
    ensures Inv(Apply(w, step))
  {
    hide Balanced, TimeoutFor;
    if step.slot < |w.live| {
      var l := w.live[step.slot];
      assert Agrees(w.t.slots[step.slot], l);
      if w.t.slots[step.slot].retried {
        AbandonBalanced(w, step.slot, step.now);
      } else {
        RetryBalanced(w, step.slot, l.(retriedAt := Some(step.now), sends := if step.tx == Unset then l.sends else l.sends + 1));
      }
    }
  }

  lemma ResponseInv(w: World, step: Step)
    requires Inv(w) && step.Response?
    ensures Inv(Apply(w, step))
  {
    hide Balanced, TimeoutFor;
    if step.slot < |w.live| {
      AnswerBalanced(w, step.slot, step.resp);
    }
  }

  lemma StepInv(w: World, step: Step)
    requires Inv(w)
    ensures Inv(Apply(w, step))
  {
    hide Inv, Apply;
    match step {
      case Send(_, _, _, _) => SendInv(w, step);
      case Timeout(_, _, _) => TimeoutInv(w, step);
      case Response(_, _) => ResponseInv(w, step);
    }
  }

  /** The invariant holds after every run. */
  lemma {:induction false} RunInv(w: World, steps: seq<Step>)
    requires Inv(w)
    ensures Inv(Run(w, steps))
  {
    hide Inv, Apply;
    if steps != [] {
      RunInv(w, steps[..|steps| - 1]);
      StepInv(Run(w, steps[..|steps| - 1]), steps[|steps| - 1]);
    }
  }

  // ---- the promises, over every run from the start ----

  /** The table never outgrows its capacity; as many commands were accepted as were answered, given
      up or are in flight; and every accepted command is in exactly one of the three places. */
  lemma RunsConserve(id: nat, capacity: nat, steps: seq<Step>)
    requires capacity <= MAX_INFLIGHT
    ensures var w := Run(Start(id, capacity), steps);
            && |w.t.slots| <= w.t.capacity == capacity
            && |w.accepted| == |w.answered| + |w.abandoned| + |w.t.slots|
            && forall b <- w.accepted ::
                 Gather(w.live, BornLive())[b] + Gather(w.answered, BornAnswered())[b] + Gather(w.abandoned, BornAbandoned())[b] == 1
  {
    hide Gather, Apply;
    var w := Run(Start(id, capacity), steps);
    StartInv(id, capacity);
    RunInv(Start(id, capacity), steps);
    CapacityFixed(Start(id, capacity), steps);
    GatherSize(w.live, BornLive());
    GatherSize(w.answered, BornAnswered());
    GatherSize(w.abandoned, BornAbandoned());
    assert |multiset(w.accepted)| == |w.accepted|;
    forall b <- w.accepted ensures multiset(w.accepted)[b] == 1 {
      OnceAccepted(w.accepted, b);
    }
  }

  lemma {:induction false} CapacityFixed(w: World, steps: seq<Step>)
    requires Shaped(w)
    ensures Run(w, steps).t.capacity == w.t.capacity && Run(w, steps).t.id == w.t.id
  {
    if steps != [] {
      CapacityFixed(w, steps[..|steps| - 1]);
    }
  }

  lemma {:induction false} GatherSize<E(!new), X>(s: seq<E>, f: E -> multiset<X>)
    requires forall e :: |f(e)| == 1
    ensures |Gather(s, f)| == |s|
  {
    if s != [] {
      GatherSize(s[..|s| - 1], f);
    }
  }

  lemma {:induction false} OnceAccepted(a: seq<(nat, Message)>, b: (nat, Message))
    requires b in a && forall i, j :: 0 <= i < j < |a| ==> a[i].0 < a[j].0
    ensures multiset(a)[b] == 1
  {
    var n := |a| - 1;
    assert a == a[..n] + [a[n]];
    if b == a[n] {
      assert b !in a[..n];
    } else {
      OnceAccepted(a[..n], b);
    }
  }

  /** Each accepted command is handed to the transmit callback once or twice, the second time only
      after a timeout, and its sequence id never changes; a command given up was retried. */
  lemma SentAtMostTwice(id: nat, capacity: nat, steps: seq<Step>)
    requires capacity <= MAX_INFLIGHT
    ensures Histories(Run(Start(id, capacity), steps))
  {
    StartInv(id, capacity);
    RunInv(Start(id, capacity), steps);
  }

  // ---- time ----

  /** The drivers' discipline: a timeout is handled at or after its deadline, a response with the
      slot that matches it. */
  predicate Disciplined(w: World, step: Step)
    requires Shaped(w)
  {
    match step
    case Send(_, _, _, _) => true
    case Timeout(slot, now, _) => slot < |w.t.slots| ==> TimedOut(w.t.slots[slot], now)
    case Response(slot, resp) => slot < |w.t.slots| ==> Matches(w.t.slots[slot], resp)
  }

  predicate DisciplinedRun(w: World, steps: seq<Step>)
    requires Shaped(w)
  {
    steps == [] ||
    (DisciplinedRun(w, steps[..|steps| - 1]) && Disciplined(Run(w, steps[..|steps| - 1]), steps[|steps| - 1]))
  }

  predicate TimelyLife(l: Life) {
    l.retriedAt.Some? ==> l.retriedAt.value >= l.sentAt + TimeoutFor(l.command.mtype)
  }

  predicate AnswersLife(a: (Life, Message)) {
    a.1.controller == a.0.command.controller && a.1.sequenceId == a.0.command.sequenceId && a.1.mtype == a.0.command.mtype + 1
  }

  predicate Timely(w: World) {
    && (forall i :: 0 <= i < |w.live| ==> TimelyLife(w.live[i]))
    && (forall i :: 0 <= i < |w.abandoned| ==>
          w.abandoned[i].1 >= w.abandoned[i].0.sentAt + 2 * TimeoutFor(w.abandoned[i].0.command.mtype))
    && (forall i :: 0 <= i < |w.answered| ==> AnswersLife(w.answered[i]))
  }

  lemma StepTimely(w: World, step: Step)
    requires Inv(w) && Timely(w) && Disciplined(w, step)
    ensures Timely(Apply(w, step))
  {
    hide Balanced, TimeoutFor;
  }

  lemma {:induction false} RunTimely(w: World, steps: seq<Step>)
    requires Inv(w) && Timely(w) && DisciplinedRun(w, steps)
    ensures Timely(Run(w, steps))
  {
    hide Inv, Apply, Timely, Disciplined;
    if steps != [] {
      RunInv(w, steps[..|steps| - 1]);
      RunTimely(w, steps[..|steps| - 1]);
      StepTimely(Run(w, steps[..|steps| - 1]), steps[|steps| - 1]);
    }
  }

  /** No command is given up before two full timeouts of its message type have passed since it was
      sent, and every answer recorded answers the command it is recorded for. */
  lemma NoEarlyGivingUp(id: nat, capacity: nat, steps: seq<Step>)
    requires capacity <= MAX_INFLIGHT && DisciplinedRun(Start(id, capacity), steps)
    ensures Timely(Run(Start(id, capacity), steps))
  {
    hide Inv, Apply, Run;
    StartInv(id, capacity);
    RunTimely(Start(id, capacity), steps);
  }

  /** The milliseconds a command of each message type waits: 2 s for CONNECT_TX, 4.5 s for CONNECT_RX, half a second for
      DISCONNECT_RX, and 200 ms otherwise. */
  function Patience(mtype: nat): (ms: nat) {
    if mtype == 0 then 2000 else if mtype == 6 then 4500 else if mtype == 8 then 500 else 200
  }

  /** A slot times out exactly that long after its command was last sent. */
  lemma TimesOutWhen(w: World, i: nat, now: int)
    requires Inv(w) && i < |w.live|
    ensures var l := w.live[i];
            TimedOut(w.t.slots[i], now) <==> now >= (if l.retriedAt.Some? then l.retriedAt.value else l.sentAt) + Patience(l.command.mtype)
  {
    hide Balanced;
    assert Agrees(w.t.slots[i], w.live[i]);
  }

  /** So no command is given up before twice as long. */
  lemma GivenUpLate(id: nat, capacity: nat, steps: seq<Step>, i: nat)
    requires capacity <= 16 && DisciplinedRun(Start(id, capacity), steps) && i < |Run(Start(id, capacity), steps).abandoned|
    ensures var a := Run(Start(id, capacity), steps).abandoned[i]; a.1 >= a.0.sentAt + 2 * Patience(a.0.command.mtype)
  {
    hide Run, DisciplinedRun;
    NoEarlyGivingUp(id, capacity, steps);
  }

  // ---- draining ----

  /** How many timeouts an entry still has to go through. */
  ghost function LivesOf(): (f: Entry -> multiset<Message>) {
    (e: Entry) => if e.retried then multiset{e.command} else multiset{e.command, e.command}
  }

  ghost function Weight(t: Table): (n: nat) {
    |Gather(t.slots, LivesOf())|
  }

  /** A timeout on an occupied slot takes exactly one off the weight. */
  lemma TimeoutDrains(t: Table, slot: nat, now: int)
    requires WfTable(t) && slot < |t.slots|
    ensures Weight(AfterTimeout(t, slot, now)) == Weight(t) - 1
  {
    hide Gather;
    var e := t.slots[slot];
    if e.retried {
      GatherRemove(t.slots, LivesOf(), slot);
      assert |multiset{e.command}| == 1;
    } else {
      GatherUpdate(t.slots, LivesOf(), slot, Retried(e, now));
      assert |Gather(t.slots[slot := Retried(e, now)], LivesOf()) + multiset{e.command, e.command}|
          == |Gather(t.slots, LivesOf()) + multiset{e.command}|;
    }
  }

  lemma {:induction false} WeightBounds(s: seq<Entry>)
    ensures |s| <= |Gather(s, LivesOf())| <= 2 * |s|
  {
    if s != [] {
      WeightBounds(s[..|s| - 1]);
    }
  }

  predicate NoSends(steps: seq<Step>) {
    forall i :: 0 <= i < |steps| ==> !steps[i].Send?
  }

  /** The step finds its slot occupied. */
  predicate Hits(w: World, step: Step)
    requires Shaped(w)
  {
    match step
    case Send(_, _, _, _) => false
    case Timeout(slot, _, _) => slot < |w.t.slots|
    case Response(slot, _) => slot < |w.t.slots|
  }

  /** How many timeouts of a run found their slot occupied. */
  function TimeoutsHit(w: World, steps: seq<Step>): (n: nat)
    requires Shaped(w)
  {
    if steps == [] then 0 else
      var init, last := steps[..|steps| - 1], steps[|steps| - 1];
      TimeoutsHit(w, init) + if last.Timeout? && Hits(Run(w, init), last) then 1 else 0
  }

  /** How many responses of a run removed an entry. */
  function Answers(w: World, steps: seq<Step>): (n: nat)
    requires Shaped(w)
  {
    if steps == [] then 0 else
      var init, last := steps[..|steps| - 1], steps[|steps| - 1];
      Answers(w, init) + if last.Response? && Hits(Run(w, init), last) then 1 else 0
  }

  /** A response that removes an entry takes the timeouts the entry had before it. */
  lemma ResponseRelieves(t: Table, slot: nat)
    requires WfTable(t) && slot < |t.slots|
    ensures 1 <= Weight(t) - Weight(AfterResponse(t, slot)) <= 2
  {
    hide Gather;
    var e := t.slots[slot];
    GatherRemove(t.slots, LivesOf(), slot);
    assert |Gather(RemoveAt(t.slots, slot), LivesOf()) + LivesOf()(e)| == |Gather(RemoveAt(t.slots, slot), LivesOf())| + |LivesOf()(e)|;
  }

  /** One step of the conservation below. */
  lemma StepWeighs(w: World, step: Step)
    requires Shaped(w) && !step.Send?
    ensures !Hits(w, step) ==> Weight(Apply(w, step).t) == Weight(w.t)
    ensures Hits(w, step) && step.Timeout? ==> Weight(Apply(w, step).t) == Weight(w.t) - 1
    ensures Hits(w, step) && step.Response? ==> 1 <= Weight(w.t) - Weight(Apply(w, step).t) <= 2
  {
    hide Gather, Weight;
    match step {
      case Timeout(slot, now, _) => if slot < |w.t.slots| { TimeoutDrains(w.t, slot, now); }
      case Response(slot, _) => if slot < |w.t.slots| { ResponseRelieves(w.t, slot); }
    }
  }

  lemma {:induction false} WeightGoesDown(w: World, steps: seq<Step>)
    requires Shaped(w) && NoSends(steps)
    ensures TimeoutsHit(w, steps) + Answers(w, steps) + Weight(Run(w, steps).t) <= Weight(w.t)
    ensures Weight(w.t) <= TimeoutsHit(w, steps) + 2 * Answers(w, steps) + Weight(Run(w, steps).t)
  {
    hide Apply, Weight, Hits;
    if steps != [] {
      var init, last := steps[..|steps| - 1], steps[|steps| - 1];
      WeightGoesDown(w, init);
      StepWeighs(Run(w, init), last);
    }
  }

  /** Over every run without new sends: the timeouts that find an entry, and what still weighs at the end, are
      together at most what weighed at the start, never more than two for each slot; they are exactly that when
      no response removed an entry; and the table is empty exactly when nothing weighs. */
  lemma TimeoutsDrain(w: World, steps: seq<Step>)
    requires Inv(w) && NoSends(steps)
    ensures TimeoutsHit(w, steps) + Weight(Run(w, steps).t) <= Weight(w.t) <= 2 * w.t.capacity
    ensures TimeoutsHit(w, steps) + Weight(Run(w, steps).t) == Weight(w.t) <==> Answers(w, steps) == 0
    ensures Run(w, steps).t.slots == [] <==> Weight(Run(w, steps).t) == 0
    ensures TimeoutsHit(w, steps) == Weight(w.t) ==> Run(w, steps).t.slots == []
  {
    hide Inv, Apply, Gather;
    WeightGoesDown(w, steps);
    InvTable(w);
    WeightBounds(w.t.slots);
    WeightBounds(Run(w, steps).t.slots);
  }

  lemma InvTable(w: World)
    requires Inv(w)
    ensures |w.t.slots| <= w.t.capacity
  {
  }

  // ---- sequence ids ----

  /** Two commands in flight carry the same id exactly when their numbers differ by a multiple of
      65536; so while no command in flight is older than 65536 ids, a response matches at most one
      slot and can only be taken as the answer to the command it answers. */
  lemma IdsCollide(w: World, i: nat, j: nat)
    requires Inv(w) && i < |w.live| && j < |w.live| && i != j
    ensures w.t.slots[i].command.sequenceId == w.t.slots[j].command.sequenceId
            <==> (w.live[i].ordinal - w.live[j].ordinal) % ID_SPACE == 0
    ensures w.live[i].ordinal != w.live[j].ordinal
  {
    hide Balanced;
    assert Agrees(w.t.slots[i], w.live[i]) && Agrees(w.t.slots[j], w.live[j]);
    SameResidue(w.live[i].ordinal, w.live[j].ordinal);
    assert i < j || j < i;
  }

  lemma SameResidue(a: nat, b: nat)
    ensures a % ID_SPACE == b % ID_SPACE <==> (a - b) % ID_SPACE == 0
  {
  }

  lemma AtMostOneMatch(w: World, resp: Message, i: nat, j: nat)
    requires Inv(w) && i < |w.live| && j < |w.live| && Matches(w.t.slots[i], resp) && Matches(w.t.slots[j], resp)
    requires forall l <- w.live :: w.used - l.ordinal <= ID_SPACE
    ensures i == j
  {
    hide Balanced;
    assert w.live[i] in w.live && w.live[j] in w.live && WfLife(w.live[i], w.used) && WfLife(w.live[j], w.used);
    if i != j {
      IdsCollide(w, i, j);
    }
  }

  /** A response to a command in flight, with its controller and id and the next message type, is found, and at the
      command's own slot; and no other response is found there. */
  lemma AnswersAreFound(w: World, resp: Message, i: nat)
    requires Inv(w) && i < |w.live| && forall l <- w.live :: w.used - l.ordinal <= 0x1_0000
    ensures Matches(w.t.slots[i], resp) <==>
              && resp.controller == w.live[i].command.controller && resp.mtype == w.live[i].command.mtype + 1
              && resp.sequenceId == w.live[i].ordinal % 0x1_0000
    ensures Matches(w.t.slots[i], resp) ==> forall k :: 0 <= k < |w.t.slots| && k != i ==> !Matches(w.t.slots[k], resp)
  {
    hide Balanced;
    assert WfLife(w.live[i], w.used) && Agrees(w.t.slots[i], w.live[i]);
    forall k | 0 <= k < |w.t.slots| && k != i && Matches(w.t.slots[i], resp) ensures !Matches(w.t.slots[k], resp) {
      if Matches(w.t.slots[k], resp) { AtMostOneMatch(w, resp, i, k); }
    }
  }

  // ---- what a tick reports ----

  /** While no command in flight is older than 65536 ids, no two of them are the same message. */
  lemma CommandsDiffer(w: World)
    requires Inv(w) && forall l <- w.live :: w.used - l.ordinal <= ID_SPACE
    ensures DistinctCommands(w.t.slots)
  {
    hide Balanced;
    forall j, k | 0 <= j < k < |w.t.slots| ensures w.t.slots[j].command != w.t.slots[k].command {
      assert w.live[j] in w.live && w.live[k] in w.live && WfLife(w.live[j], w.used) && WfLife(w.live[k], w.used);
      IdsCollide(w, j, k);
    }
  }

  /** The tick reads the command it reports through the slot it has just removed. What stands there
      is the entry that was last: the report names the abandoned command exactly when that was the
      last slot, and otherwise a command still in flight. */
  lemma MisreportedTimeout(w: World, slot: nat, now: int, tx: Tx)
    requires Inv(w) && slot < |w.t.slots| && w.t.slots[slot].retried
    requires forall l <- w.live :: w.used - l.ordinal <= ID_SPACE
    ensures var w', named := Apply(w, Timeout(slot, now, tx)), Reported(w.t.slots, slot);
            && w'.abandoned == w.abandoned + [(w.live[slot], now)]
            && (named == w.live[slot].command <==> slot == |w.t.slots| - 1)
            && (slot < |w.t.slots| - 1 ==> slot < |w'.t.slots| && w'.t.slots[slot].command == named)
  {
    hide Balanced;
    CommandsDiffer(w);
    assert Agrees(w.t.slots[slot], w.live[slot]);
  }

  /** Two commands of any kind, sent one after the other: the first is retried and given up, and the report names
      the second, which is still waiting for its answer. */
  lemma MisreportIsReachable(id: nat, capacity: nat, first: Step, second: Step, t: int, t': int, tx: Tx)
    requires 2 <= capacity <= MAX_INFLIGHT && first.Send? && first.tx == Accepts && second.Send? && second.tx == Accepts
    ensures var w := Run(Start(id, capacity), [first, second, Timeout(0, t, tx)]);
            var w' := Run(Start(id, capacity), [first, second, Timeout(0, t, tx), Timeout(0, t', tx)]);
            var a, b := Message(first.mtype, id, 0, first.fields), Message(second.mtype, id, 1, second.fields);
            && |w'.abandoned| == 1 && w'.abandoned[0].0.command == a
            && |w.t.slots| == 2 && Reported(w.t.slots, 0) == b != a
            && |w'.t.slots| == 1 && w'.t.slots[0].command == b && !w'.t.slots[0].retried
  {
    var w0 := Start(id, capacity);
    var s1, s2, s3, s4 := [first], [first, second], [first, second, Timeout(0, t, tx)],
                          [first, second, Timeout(0, t, tx), Timeout(0, t', tx)];
    assert s1[..0] == [] && s2[..1] == s1 && s3[..2] == s2 && s4[..3] == s3;
    var w1 := Apply(w0, first);
    var w2 := Apply(w1, second);
    var w3 := Apply(w2, Timeout(0, t, tx));
    assert Run(w0, s1) == w1 by { assert Run(w0, []) == w0; }
    assert Run(w0, s2) == w2;
    assert Run(w0, s3) == w3;
    assert Run(w0, s4) == Apply(w3, Timeout(0, t', tx));
  }
}
