/**
 The backend loop, its tasks and their finishers, and the submitters, as interleaved steps over the
 locked queue, the semaphore, the done channel and the notifier.
 */
module Backend {
  import opened Prelude
  import opened RequestQueue

  const CHANNEL_CAPACITY: nat := 1000

  /** Where the loop stands; a key or request is in its hands between two of its steps. */
  datatype Pc = Draining | Completing(key: Key) | Acquiring | Choosing | Dispatching(request: Request) | Parking | Parked

  /** A submitter holds the queue from before it adds until after it notifies. */
  datatype Lock = Free | Adding | Leaving

  datatype State = State(
    queue: Contents, lock: Lock, pc: Pc,
    permits: nat,               // free permits of the semaphore
    running: multiset<Key>,     // tasks that hold a permit
    ended: multiset<Key>,       // finishers that have not sent their key
    sent: multiset<Key>,        // finishers that have sent their key but not notified
    channel: seq<Key>,
    stored: bool,               // the notifier's stored permit
    admitted: seq<Key>,         // history: keys in the order of admission
    dispatched: seq<Key>)       // history: keys in the order they left the queue

  function Initial(limit: nat, permits: nat): State {
    State(Contents([], [], [], {}, {}, limit), Free, Draining, permits,
          multiset{}, multiset{}, multiset{}, [], false, [], [])
  }

  datatype Event =
    | Submit(request: Request) | Notify | Release              // a submitter
    | Receive | Finish | Acquire | Choose | Spawn | Park       // the loop
    | End(key: Key) | Send(key: Key) | Wake(key: Key)          // a task and its finisher

  predicate Enabled(s: State, e: Event) {
    match e
    case Submit(r) => s.lock.Free?
    case Notify => s.lock.Adding?
    case Release => s.lock.Leaving?
    case Receive => s.pc.Draining?
    case Finish => s.pc.Completing? && s.lock.Free?
    case Acquire => s.pc.Acquiring? && s.permits > 0
    case Choose => s.pc.Choosing? && s.lock.Free?
    case Spawn => s.pc.Dispatching?
    case Park => s.pc.Parking?
    case End(k) => k in s.running
    case Send(k) => k in s.ended && |s.channel| < CHANNEL_CAPACITY
    case Wake(k) => k in s.sent
  }

  /** `notify_one`: wakes the loop if it waits, else leaves one permit behind. */
  function NotifyOne(s: State): State {
    if s.pc.Parked? then s.(pc := Draining) else s.(stored := true)
  }

  function Submitted(s: State, r: Request): State {
    var added := AddPending(s.queue, r);
    if r.key in s.queue.queued || added.Err? then s
    else s.(queue := added.value, lock := Adding, admitted := s.admitted + [r.key])
  }

  function Chosen(s: State): State {
    match TryNext(s.queue)
    case Some((r, q)) => s.(queue := q, pc := Dispatching(r), dispatched := s.dispatched + [r.key])
    case None => s.(permits := s.permits + 1, pc := Parking)
  }

  function Apply(s: State, e: Event): State
    requires Enabled(s, e)
  {
    match e
    case Submit(r) => Submitted(s, r)
    case Notify => NotifyOne(s).(lock := Leaving)
    case Release => s.(lock := Free)
    case Receive =>
      if s.channel == [] then s.(pc := Acquiring) else s.(pc := Completing(s.channel[0]), channel := s.channel[1..])
    case Finish => s.(queue := Complete(s.queue, s.pc.key), pc := Draining)
    case Acquire => s.(permits := s.permits - 1, pc := Choosing)
    case Choose => Chosen(s)
    case Spawn => s.(running := s.running + multiset{s.pc.request.key}, pc := Draining)
    case Park => if s.stored then s.(stored := false, pc := Draining) else s.(pc := Parked)
    case End(k) => s.(running := s.running - multiset{k}, permits := s.permits + 1, ended := s.ended + multiset{k})
    case Send(k) =>
      s.(ended := s.ended - multiset{k}, channel := s.channel + [k], sent := s.sent + multiset{k})
    case Wake(k) => NotifyOne(s.(sent := s.sent - multiset{k}))
  }

  // ----- the invariants

  function InHand(pc: Pc, k: Key): nat {
    if pc == Completing(k) || (pc.Dispatching? && pc.request.key == k) then 1 else 0
  }

  /** In how many places a key is under way, outside the queue. */
  function Copies(s: State, k: Key): nat {
    s.running[k] + s.ended[k] + multiset(s.channel)[k] + InHand(s.pc, k)
  }

  /** Every key in progress is under way in exactly one place, and no other key is. */
  ghost predicate OneCopyEach(s: State) {
    forall k :: Copies(s, k) == if k in s.queue.working then 1 else 0
  }

  predicate PermitsAddUp(s: State, total: nat) {
    s.permits + |s.running| + (if s.pc.Choosing? || s.pc.Dispatching? then 1 else 0) == total
  }

  ghost predicate NothingPending(q: Contents) {
    forall k :: !InLane(q, k)
  }

  /** Why the loop never sleeps over work: a wakeup is stored, or still to come. */
  ghost predicate WillWake(s: State) {
    && (s.pc.Draining? || s.pc.Completing? || s.stored || multiset(s.channel) <= s.sent)
    && (s.pc.Parking? || s.pc.Parked? ==> s.stored || s.lock.Adding? || NothingPending(s.queue))
    && (s.pc.Parked? ==> !s.stored)
  }

  function OfKind(keys: seq<Key>, kind: Kind): seq<Key> {
    if keys == [] then []
    else
      var rest := OfKind(keys[..|keys| - 1], kind);
      if keys[|keys| - 1].kind == kind then rest + [keys[|keys| - 1]] else rest
  }

  function KeysOf(lane: seq<Request>): seq<Key> {
    seq(|lane|, i requires 0 <= i < |lane| => lane[i].key)
  }

  /** Within a class, requests leave in the order in which they were admitted. */
  ghost predicate FirstInFirstOut(s: State) {
    forall kind :: OfKind(s.admitted, kind) == OfKind(s.dispatched, kind) + KeysOf(Lane(s.queue, kind))
  }

  ghost predicate Inv(s: State, total: nat) {
    && Sound(s.queue) && OneCopyEach(s) && PermitsAddUp(s, total) && WillWake(s) && FirstInFirstOut(s)
    && |s.channel| <= CHANNEL_CAPACITY
  }

  // ----- every step keeps them

  lemma {:induction false} InitialInv(limit: nat, permits: nat)
    ensures Inv(Initial(limit, permits), permits)
  {
    var s := Initial(limit, permits);
    forall kind ensures Lane(s.queue, kind) == [] && LaneSound(Lane(s.queue, kind), kind) { }
  }

  lemma {:induction false} OfKindGrows(keys: seq<Key>, k: Key, kind: Kind)
    ensures OfKind(keys + [k], kind) == OfKind(keys, kind) + if k.kind == kind then [k] else []
  {
    assert (keys + [k])[..|keys|] == keys;
  }

  lemma {:induction false} SubmitKeepsOrder(s: State, r: Request)
    requires FirstInFirstOut(s)
    ensures FirstInFirstOut(Submitted(s, r))
  {
    var t := Submitted(s, r);
    if t != s {
      forall kind ensures OfKind(t.admitted, kind) == OfKind(t.dispatched, kind) + KeysOf(Lane(t.queue, kind)) {
        OfKindGrows(s.admitted, r.key, kind);
        if kind == r.key.kind {
          assert KeysOf(Lane(s.queue, kind) + [r]) == KeysOf(Lane(s.queue, kind)) + [r.key];
        }
      }
    }
  }

  lemma {:induction false} SubmitKeepsInv(s: State, r: Request, total: nat)
    requires Inv(s, total) && s.lock.Free?
    ensures Inv(Submitted(s, r), total)
  {
    var t := Submitted(s, r);
    SubmitKeepsOrder(s, r);
    if t != s {
      AddKeepsSound(s.queue, r);
      assert t.queue.working == s.queue.working;
      forall k ensures Copies(t, k) == Copies(s, k) { }
    }
  }

  lemma {:induction false} OrderAfterTaking(dispatched: seq<Key>, r: Request, lane: seq<Request>)
    ensures OfKind(dispatched, r.key.kind) + KeysOf([r] + lane) == OfKind(dispatched + [r.key], r.key.kind) + KeysOf(lane)
  {
    OfKindGrows(dispatched, r.key, r.key.kind);
    assert KeysOf([r] + lane) == [r.key] + KeysOf(lane);
  }

  lemma {:induction false} ChooseKeepsOrder(s: State, r: Request, q: Contents)
    requires FirstInFirstOut(s) && Sound(s.queue) && TryNext(s.queue) == Some((r, q))
    ensures FirstInFirstOut(s.(queue := q, pc := Dispatching(r), dispatched := s.dispatched + [r.key]))
  {
    forall kind ensures OfKind(s.admitted, kind) == OfKind(s.dispatched + [r.key], kind) + KeysOf(Lane(q, kind)) {
      TakenIsHead(s.queue, kind);
      assert OfKind(s.admitted, kind) == OfKind(s.dispatched, kind) + KeysOf(Lane(s.queue, kind));
      if kind == r.key.kind {
        OrderAfterTaking(s.dispatched, r, Lane(q, kind));
      } else {
        OfKindGrows(s.dispatched, r.key, kind);
      }
    }
  }

  lemma {:induction false} TakeKeepsCopies(s: State, r: Request, q: Contents)
    requires Sound(s.queue) && OneCopyEach(s) && s.pc.Choosing? && TryNext(s.queue) == Some((r, q))
    ensures OneCopyEach(s.(queue := q, pc := Dispatching(r), dispatched := s.dispatched + [r.key]))
  {
    var t := s.(queue := q, pc := Dispatching(r), dispatched := s.dispatched + [r.key]);
    HeadIsPending(s.queue);
    assert q.working == s.queue.working + {r.key};
    forall k ensures Copies(t, k) == if k in q.working then 1 else 0 {
      assert Copies(t, k) == Copies(s, k) + if k == r.key then 1 else 0;
    }
  }

  lemma {:induction false} ChooseKeepsInv(s: State, total: nat)
    requires Inv(s, total) && s.pc.Choosing?
    ensures Inv(Chosen(s), total)
  {
    var n := TryNext(s.queue);
    if n.Some? {
      ChooseKeepsOrder(s, n.value.0, n.value.1);
      TakeKeepsCopies(s, n.value.0, n.value.1);
      NextKeepsSound(s.queue);
    } else {
      ServiceIsStrict(s.queue);
      forall k ensures Copies(Chosen(s), k) == Copies(s, k) { }
    }
  }

  lemma {:induction false} ReceiveKeepsInv(s: State, total: nat)
    requires Inv(s, total) && s.pc.Draining?
    ensures Inv(Apply(s, Receive), total)
  {
    var t := Apply(s, Receive);
    if s.channel != [] {
      assert s.channel == [s.channel[0]] + s.channel[1..];
    }
    forall k ensures Copies(t, k) == Copies(s, k) { }
  }

  lemma {:induction false} FinishKeepsInv(s: State, total: nat)
    requires Inv(s, total) && s.pc.Completing?
    ensures Inv(s.(queue := Complete(s.queue, s.pc.key), pc := Draining), total)
  {
    var j := s.pc.key;
    var t := s.(queue := Complete(s.queue, j), pc := Draining);
    assert Copies(s, j) >= 1;
    CompleteKeepsSound(s.queue, j);
    forall k ensures Copies(t, k) == if k in t.queue.working then 1 else 0 {
      assert Copies(t, k) == Copies(s, k) - if k == j then 1 else 0;
    }
    forall kind ensures Lane(t.queue, kind) == Lane(s.queue, kind) { }
  }

  lemma {:induction false} LoopKeepsInv(s: State, e: Event, total: nat)
    requires Inv(s, total) && Enabled(s, e) && (e.Acquire? || e.Spawn? || e.Park?)
    ensures Inv(Apply(s, e), total)
  {
    var t := Apply(s, e);
    forall k ensures Copies(t, k) == Copies(s, k) { }
  }

  lemma {:induction false} NotifyKeepsInv(s: State, e: Event, total: nat)
    requires Inv(s, total) && Enabled(s, e) && (e.Notify? || e.Release? || e.Wake?)
    ensures Inv(Apply(s, e), total)
  {
    var t := Apply(s, e);
    forall k ensures Copies(t, k) == Copies(s, k) { }
  }

  lemma {:induction false} TaskKeepsInv(s: State, e: Event, total: nat)
    requires Inv(s, total) && Enabled(s, e) && (e.End? || e.Send?)
    ensures Inv(Apply(s, e), total)
  {
    var t := Apply(s, e);
    forall k ensures Copies(t, k) == Copies(s, k) { }
  }

  lemma {:induction false} StepKeepsInv(s: State, e: Event, total: nat)
    requires Inv(s, total) && Enabled(s, e)
    ensures Inv(Apply(s, e), total)
  {
    match e
    case Submit(r) => SubmitKeepsInv(s, r, total);
    case Receive => ReceiveKeepsInv(s, total);
    case Finish => FinishKeepsInv(s, total);
    case Choose => ChooseKeepsInv(s, total);
    case Acquire => LoopKeepsInv(s, e, total);
    case Spawn => LoopKeepsInv(s, e, total);
    case Park => LoopKeepsInv(s, e, total);
    case End(_) => TaskKeepsInv(s, e, total);
    case Send(_) => TaskKeepsInv(s, e, total);
    case _ => NotifyKeepsInv(s, e, total);
  }

  // ----- whole runs

  /** The events lead from `s` to `t`. */
  predicate Runs(s: State, events: seq<Event>, t: State)
    decreases |events|
  {
    if events == [] then s == t else Enabled(s, events[0]) && Runs(Apply(s, events[0]), events[1..], t)
  }

  lemma {:induction false} RunKeepsInv(s: State, events: seq<Event>, t: State, total: nat)
    requires Inv(s, total) && Runs(s, events, t)
    ensures Inv(t, total)
    decreases |events|
  {
    if events != [] {
      StepKeepsInv(s, events[0], total);
      RunKeepsInv(Apply(s, events[0]), events[1..], t, total);
    }
  }

  lemma {:induction false} OneTaskPerKey(s: State, k: Key)
    requires OneCopyEach(s)
    ensures s.running[k] + s.ended[k] <= 1 && (k in s.running ==> k in s.queue.working)
  {
    assert Copies(s, k) <= 1;
  }

  /** In every interleaving: the books of the queue balance and no key is worked on twice at a time. */
  lemma {:induction false} SchedulerIsSafe(limit: nat, total: nat, events: seq<Event>, s: State)
    requires Runs(Initial(limit, total), events, s)
    ensures forall k :: k in s.queue.queued <==> k in s.queue.working || InLane(s.queue, k)
    ensures forall k :: k in s.queue.working ==> !InLane(s.queue, k)
    ensures forall kind :: LaneSound(Lane(s.queue, kind), kind)
    ensures |s.queue.queued| <= s.queue.limit
    ensures |s.running| <= total
    ensures forall k :: s.running[k] + s.ended[k] <= 1 && (k in s.running ==> k in s.queue.working)
    ensures forall kind :: OfKind(s.dispatched, kind) <= OfKind(s.admitted, kind)
  {
    InitialInv(limit, total);
    RunKeepsInv(Initial(limit, total), events, s, total);
    forall k ensures s.running[k] + s.ended[k] <= 1 && (k in s.running ==> k in s.queue.working) { OneTaskPerKey(s, k); }
  }

  /**
   Service is strict by class, and by age within a class: whenever the loop chooses in any run, it takes
   a waiting request if there is one, and every other waiting request is behind it.
   */
  lemma {:induction false} DispatchIsStrict(limit: nat, total: nat, events: seq<Event>, s: State)
    requires Runs(Initial(limit, total), events, s) && Enabled(s, Choose)
    ensures var t := Apply(s, Choose);
            if t.pc.Dispatching? then TakesFirst(s.queue, t.pc.request, t.queue) else t.pc.Parking? && NothingPending(s.queue)
  {
    InitialInv(limit, total);
    RunKeepsInv(Initial(limit, total), events, s, total);
    ServiceIsStrict(s.queue);
  }

  lemma {:induction false} StepKeepsAhead(s: State, e: Event, k: Key, j: Key, total: nat)
    requires Inv(s, total) && Enabled(s, e) && Ahead(s.queue, k, j)
    ensures var t := Apply(s, e); Ahead(t.queue, k, j) || t.dispatched == s.dispatched + [k]
    ensures s.dispatched <= Apply(s, e).dispatched
  {
    if e.Submit? {
      if AddPending(s.queue, e.request).Ok? { AddKeepsAhead(s.queue, e.request, k, j); }
    } else if e.Choose? {
      NextIsFirst(s.queue, k);
      if TryNext(s.queue).value.0.key != k { NextKeepsAhead(s.queue, k, j); }
    } else if e.Finish? {
      assert forall kind :: Lane(Apply(s, e).queue, kind) == Lane(s.queue, kind);
    }
  }

  lemma {:induction false} DispatchedGrows(s: State, events: seq<Event>, t: State)
    requires Runs(s, events, t)
    ensures s.dispatched <= t.dispatched
    decreases |events|
  {
    if events != [] { DispatchedGrows(Apply(s, events[0]), events[1..], t); }
  }

  lemma {:induction false} LaterPart(x: seq<Key>, y: seq<Key>, z: seq<Key>, k: Key)
    requires x <= y <= z
    ensures k in z[|y|..] ==> k in z[|x|..]
  {
    if k in z[|y|..] {
      var i :| 0 <= i < |z| - |y| && z[|y|..][i] == k;
      assert z[|x|..][i + |y| - |x|] == k;
    }
  }

  /** Over any stretch of any run: a request that waits behind another is not served before it. */
  lemma {:induction false} NoOvertaking(s: State, events: seq<Event>, t: State, k: Key, j: Key, total: nat)
    requires Inv(s, total) && Runs(s, events, t) && Ahead(s.queue, k, j)
    ensures s.dispatched <= t.dispatched
    ensures Ahead(t.queue, k, j) || k in t.dispatched[|s.dispatched|..]
    decreases |events|
  {
    DispatchedGrows(s, events, t);
    if events != [] {
      var u := Apply(s, events[0]);
      StepKeepsInv(s, events[0], total);
      StepKeepsAhead(s, events[0], k, j, total);
      DispatchedGrows(u, events[1..], t);
      if Ahead(u.queue, k, j) {
        NoOvertaking(u, events[1..], t, k, j, total);
        LaterPart(s.dispatched, u.dispatched, t.dispatched, k);
      } else {
        assert t.dispatched[|s.dispatched|..][0] == u.dispatched[|s.dispatched|] == k;
      }
    }
  }

  /**
   No lost wakeup: a loop that waits, waits with no notification stored and no request pending but one
   whose submitter is about to notify, and every completion it has not seen is one whose finisher is.
   */
  lemma {:induction false} NoLostWakeup(limit: nat, total: nat, events: seq<Event>, s: State)
    requires Runs(Initial(limit, total), events, s) && s.pc.Parked?
    ensures !s.stored
    ensures NothingPending(s.queue) || s.lock.Adding?
    ensures multiset(s.channel) <= s.sent
  {
    InitialInv(limit, total);
    RunKeepsInv(Initial(limit, total), events, s, total);
  }

  // ----- progress

  predicate Quiet(s: State) {
    s.lock.Free? && s.pc.Parked? && s.running == multiset{} && s.ended == multiset{} && s.sent == multiset{}
  }

  lemma {:induction false} SomeMember(m: multiset<Key>) returns (k: Key)
    requires m != multiset{}
    ensures k in m
  {
    k :| k in m;
  }

  /** Whatever the state, someone can move, unless the loop waits with nothing left under way. */
  lemma {:induction false} SomeoneCanMove(s: State, total: nat) returns (e: Event)
    requires Inv(s, total) && total > 0 && !Quiet(s)
    ensures !e.Submit? && Enabled(s, e)
  {
    if s.lock.Adding? { return Notify; }
    if s.lock.Leaving? { return Release; }
    if s.running != multiset{} { var k := SomeMember(s.running); return End(k); }
    if s.sent != multiset{} { var k := SomeMember(s.sent); return Wake(k); }
    match s.pc
    case Draining => return Receive;
    case Completing(_) => return Finish;
    case Acquiring => return Acquire;
    case Choosing => return Choose;
    case Dispatching(_) => return Spawn;
    case Parking => return Park;
    case Parked =>
      assert |multiset(s.channel)| == |s.channel|;
      var k := SomeMember(s.ended);
      return Send(k);
  }

  lemma {:induction false} QuietIsDone(s: State, total: nat)
    requires Inv(s, total) && Quiet(s)
    ensures s.queue.queued == {}
  {
    forall k ensures k !in s.queue.queued {
      assert !InLane(s.queue, k);
      assert multiset(s.channel)[k] == 0;
      assert Copies(s, k) == 0;
    }
  }

  function Rank(pc: Pc): nat {
    match pc
    case Draining => 4
    case Completing(_) => 5
    case Acquiring => 3
    case Choosing => 2
    case Dispatching(_) => 17
    case Parking => 1
    case Parked => 0
  }

  function Waiting(q: Contents): nat {
    |q.aggregations| + |q.batches| + |q.others|
  }

  /** What is still to be done; every step but a new submission brings it down. */
  function Work(s: State): nat {
    17 * Waiting(s.queue)
    + 12 * |s.running| + 11 * |s.ended| + 5 * |s.channel| + 5 * |s.sent|
    + (if s.stored then 4 else 0) + (match s.lock case Free => 0 case Adding => 6 case Leaving => 1)
    + Rank(s.pc)
  }

  lemma {:induction false} TakingShortens(q: Contents)
    requires TryNext(q).Some?
    ensures Waiting(TryNext(q).value.1) == Waiting(q) - 1
  {
  }

  lemma {:induction false} ChoiceShrinks(s: State)
    requires s.pc.Choosing?
    ensures Work(Chosen(s)) < Work(s)
  {
    if TryNext(s.queue).Some? { TakingShortens(s.queue); }
  }

  lemma {:induction false} LoopShrinks(s: State, e: Event)
    requires Enabled(s, e) && (e.Receive? || e.Finish? || e.Acquire? || e.Spawn? || e.Park?)
    ensures Work(Apply(s, e)) < Work(s)
  {
  }

  lemma {:induction false} TaskShrinks(s: State, e: Event)
    requires Enabled(s, e) && (e.End? || e.Send?)
    ensures Work(Apply(s, e)) < Work(s)
  {
  }

  lemma {:induction false} NotifyShrinks(s: State, e: Event)
    requires Enabled(s, e) && (e.Notify? || e.Release? || e.Wake?)
    ensures Work(Apply(s, e)) < Work(s)
  {
  }

  lemma {:induction false} WorkShrinks(s: State, e: Event)
    requires Enabled(s, e) && !e.Submit?
    ensures Work(Apply(s, e)) < Work(s)
  {
    if e.Choose? {
      ChoiceShrinks(s);
    } else if e.End? || e.Send? {
      TaskShrinks(s, e);
    } else if e.Notify? || e.Release? || e.Wake? {
      NotifyShrinks(s, e);
    } else {
      LoopShrinks(s, e);
    }
  }

  ghost predicate NoSubmission(events: seq<Event>) {
    forall i :: 0 <= i < |events| ==> !events[i].Submit?
  }

  lemma {:induction false} RunsAreShort(s: State, events: seq<Event>, t: State)
    requires Runs(s, events, t) && NoSubmission(events)
    ensures |events| + Work(t) <= Work(s)
    decreases |events|
  {
    if events != [] {
      WorkShrinks(s, events[0]);
      RunsAreShort(Apply(s, events[0]), events[1..], t);
    }
  }

  /**
   Every accepted request completes: once submissions stop, every run ends, and it ends in a state in
   which nothing is queued; before that, someone can always move.
   */
  lemma {:induction false} EveryRequestCompletes(limit: nat, total: nat, before: seq<Event>, s: State,
                                                 after: seq<Event>, t: State)
    requires total > 0 && Runs(Initial(limit, total), before, s)
    requires Runs(s, after, t) && NoSubmission(after)
    ensures |after| <= Work(s)
    ensures (forall e: Event :: !e.Submit? ==> !Enabled(t, e)) ==> t.queue.queued == {}
  {
    InitialInv(limit, total);
    RunKeepsInv(Initial(limit, total), before, s, total);
    RunKeepsInv(s, after, t, total);
    RunsAreShort(s, after, t);
    if Quiet(t) {
      QuietIsDone(t, total);
    } else {
      var e := SomeoneCanMove(t, total);
    }
  }

  // ----- what is submitted while there is room is served

  lemma {:induction false} OfKindCounts(keys: seq<Key>, k: Key)
    ensures multiset(OfKind(keys, k.kind))[k] == multiset(keys)[k]
    decreases |keys|
  {
    if keys != [] {
      var most, last := keys[..|keys| - 1], keys[|keys| - 1];
      assert keys == most + [last];
      OfKindCounts(most, k);
    }
  }

  /** Every admission of a key was followed by a dispatch, or the key still waits. */
  lemma {:induction false} AdmissionsAddUp(s: State, k: Key)
    requires FirstInFirstOut(s)
    ensures multiset(s.admitted)[k] == multiset(s.dispatched)[k] + multiset(KeysOf(Lane(s.queue, k.kind)))[k]
  {
    OfKindCounts(s.admitted, k);
    OfKindCounts(s.dispatched, k);
  }

  lemma {:induction false} HistoryGrows(s: State, events: seq<Event>, t: State)
    requires Runs(s, events, t)
    ensures s.admitted <= t.admitted && t.queue.limit == s.queue.limit
    decreases |events|
  {
    if events != [] { HistoryGrows(Apply(s, events[0]), events[1..], t); }
  }

  /** A submission takes effect exactly if its key is new and there is room: then it waits, last of its class. */
  lemma {:induction false} SubmissionExactly(s: State, r: Request)
    requires Enabled(s, Submit(r)) && Sound(s.queue)
    ensures var t := Apply(s, Submit(r));
            if r.key !in s.queue.queued && |s.queue.queued| < s.queue.limit
            then && t.admitted == s.admitted + [r.key] && t.lock == Adding
                 && r.key in t.queue.queued && Lane(t.queue, r.key.kind) == Lane(s.queue, r.key.kind) + [r]
            else t == s
  {
    AdmittedExactly(s.queue, r, s.queue);
  }

  lemma {:induction false} QuietHasServed(t: State, total: nat, k: Key)
    requires Inv(t, total) && Quiet(t)
    ensures multiset(t.admitted)[k] == multiset(t.dispatched)[k]
  {
    QuietIsDone(t, total);
    AdmissionsAddUp(t, k);
    var lane := Lane(t.queue, k.kind);
    if i :| 0 <= i < |lane| && lane[i].key == k { assert InLane(t.queue, k); }
    assert k !in KeysOf(lane);
  }

  lemma {:induction false} OneMoreServed(s: State, t: State, total: nat, k: Key)
    requires FirstInFirstOut(s) && Inv(t, total) && Quiet(t) && s.admitted + [k] <= t.admitted
    ensures multiset(t.dispatched)[k] > multiset(s.dispatched)[k] && t.queue.queued == {}
  {
    QuietIsDone(t, total);
    QuietHasServed(t, total, k);
    AdmissionsAddUp(s, k);
    assert t.admitted == s.admitted + [k] + t.admitted[|s.admitted| + 1..];
  }

  /**
   In every run: a request that is submitted under a new key while there is room has been dispatched once more
   by the time that nothing is left to do, whatever was submitted before and after it.
   */
  lemma {:induction false} SubmittedIsServed(limit: nat, total: nat, before: seq<Event>, s: State, r: Request,
                                             after: seq<Event>, t: State)
    requires total > 0 && Runs(Initial(limit, total), before, s) && Enabled(s, Submit(r))
    requires r.key !in s.queue.queued && |s.queue.queued| < limit
    requires Runs(Apply(s, Submit(r)), after, t)
    requires forall e: Event :: !e.Submit? ==> !Enabled(t, e)
    ensures multiset(t.dispatched)[r.key] > multiset(s.dispatched)[r.key] && t.queue.queued == {}
  {
    var u, k := Apply(s, Submit(r)), r.key;
    InitialInv(limit, total);
    RunKeepsInv(Initial(limit, total), before, s, total);
    HistoryGrows(Initial(limit, total), before, s);
    SubmissionExactly(s, r);
    StepKeepsInv(s, Submit(r), total);
    RunKeepsInv(u, after, t, total);
    HistoryGrows(u, after, t);
    if !Quiet(t) { var e := SomeoneCanMove(t, total); }
    OneMoreServed(s, t, total, k);
  }
}
