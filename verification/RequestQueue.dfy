/** The three-level priority queue of requests. */
module RequestQueue {
  import opened Prelude

  datatype Kind = Aggregation | BatchProof | Other

  datatype Key = Key(kind: Kind, id: nat)

  datatype Request = Request(key: Key, payload: Bytes)

  /** The contents of a queue. */
  datatype Contents = Contents(
    aggregations: seq<Request>, batches: seq<Request>, others: seq<Request>,
    working: set<Key>, queued: set<Key>, limit: nat)

  function Lane(q: Contents, kind: Kind): seq<Request> {
    match kind
    case Aggregation => q.aggregations
    case BatchProof => q.batches
    case Other => q.others
  }

  function WithLane(q: Contents, kind: Kind, lane: seq<Request>): Contents {
    match kind
    case Aggregation => q.(aggregations := lane)
    case BatchProof => q.(batches := lane)
    case Other => q.(others := lane)
  }

  /** The class that is served next. */
  function FirstKind(q: Contents): Option<Kind> {
    if q.aggregations != [] then Some(Aggregation)
    else if q.batches != [] then Some(BatchProof)
    else if q.others != [] then Some(Other)
    else None
  }

  ghost predicate InLane(q: Contents, k: Key) {
    exists i :: 0 <= i < |Lane(q, k.kind)| && Lane(q, k.kind)[i].key == k
  }

  /** Every request of a lane is of its class, and no key is there twice. */
  ghost predicate LaneSound(lane: seq<Request>, kind: Kind) {
    && (forall i :: 0 <= i < |lane| ==> lane[i].key.kind == kind)
    && forall i, j :: 0 <= i < j < |lane| ==> lane[i].key != lane[j].key
  }

  /** The queued keys are the pending and the working ones, with none in both, within the limit. */
  ghost predicate Sound(q: Contents) {
    && (forall kind :: LaneSound(Lane(q, kind), kind))
    && (forall k :: k in q.queued <==> k in q.working || InLane(q, k))
    && (forall k :: k in q.working ==> !InLane(q, k))
    && |q.queued| <= q.limit
  }

  // ----- the operations

  function AddPending(q: Contents, r: Request): Result<Contents, ()> {
    if |q.queued| >= q.limit then Err(())
    else if r.key in q.queued then Ok(q)
    else
      var added := q.(queued := q.queued + {r.key});
      Ok(WithLane(added, r.key.kind, Lane(q, r.key.kind) + [r]))
  }

  function TryNext(q: Contents): Option<(Request, Contents)> {
    match FirstKind(q)
    case None => None
    case Some(kind) =>
      var r := Lane(q, kind)[0];
      Some((r, WithLane(q, kind, Lane(q, kind)[1..]).(working := q.working + {r.key})))
  }

  function Complete(q: Contents, k: Key): Contents {
    q.(working := q.working - {k}, queued := q.queued - {k})
  }

  // ----- who is admitted, and where

  /**
   A request is admitted exactly while there is room, whether or not its key is known. A known key changes
   nothing; a new one joins the end of the lane of its class, and nothing else changes.
   */
  lemma {:induction false} AdmittedExactly(q: Contents, r: Request, p: Contents)
    ensures AddPending(q, r).Ok? <==> |q.queued| < q.limit
    ensures AddPending(q, r) == Ok(p) <==>
            && |q.queued| < q.limit
            && p.aggregations == (if r.key !in q.queued && r.key.kind == Aggregation then q.aggregations + [r] else q.aggregations)
            && p.batches == (if r.key !in q.queued && r.key.kind == BatchProof then q.batches + [r] else q.batches)
            && p.others == (if r.key !in q.queued && r.key.kind == Other then q.others + [r] else q.others)
            && p.queued == q.queued + {r.key} && p.working == q.working && p.limit == q.limit
  {
    if r.key in q.queued { assert q.queued + {r.key} == q.queued; }
  }

  // ----- what they keep

  lemma {:induction false} AddedLane(q: Contents, r: Request, k: Key)
    requires AddPending(q, r).Ok? && r.key !in q.queued
    ensures InLane(AddPending(q, r).value, k) <==> InLane(q, k) || k == r.key
  {
    var lane, p := Lane(q, r.key.kind), AddPending(q, r).value;
    assert Lane(p, r.key.kind) == lane + [r] && (lane + [r])[|lane|] == r;
    if InLane(q, k) {
      var i :| 0 <= i < |Lane(q, k.kind)| && Lane(q, k.kind)[i].key == k;
      assert Lane(p, k.kind)[i].key == k;
    }
    if InLane(p, k) && k != r.key {
      var i :| 0 <= i < |Lane(p, k.kind)| && Lane(p, k.kind)[i].key == k;
      assert Lane(q, k.kind)[i].key == k;
    }
  }

  lemma {:induction false} AddKeepsSound(q: Contents, r: Request)
    requires Sound(q) && AddPending(q, r).Ok?
    ensures Sound(AddPending(q, r).value)
  {
    if r.key !in q.queued {
      var p := AddPending(q, r).value;
      forall kind ensures LaneSound(Lane(p, kind), kind) {
        assert LaneSound(Lane(q, kind), kind);
        if kind == r.key.kind { assert !InLane(q, r.key); }
      }
      forall k ensures k in p.queued <==> k in p.working || InLane(p, k)
        ensures k in p.working ==> !InLane(p, k)
      {
        AddedLane(q, r, k);
      }
    }
  }

  lemma {:induction false} TakenIsHead(q: Contents, kind: Kind)
    requires Sound(q) && TryNext(q).Some?
    ensures var n := TryNext(q).value;
            if kind == n.0.key.kind then Lane(q, kind) == [n.0] + Lane(n.1, kind) else Lane(n.1, kind) == Lane(q, kind)
  {
    var first := FirstKind(q).value;
    assert LaneSound(Lane(q, first), first);
  }

  lemma {:induction false} LaneWithoutHead(r: Request, tail: seq<Request>, k: Key)
    requires LaneSound([r] + tail, r.key.kind)
    ensures (exists i :: 0 <= i < |tail| && tail[i].key == k) <==>
            (exists i :: 0 <= i < |[r] + tail| && ([r] + tail)[i].key == k) && k != r.key
  {
    var lane := [r] + tail;
    if i :| 0 <= i < |tail| && tail[i].key == k { assert lane[i + 1].key == k && lane[0] == r; }
    if i :| 0 <= i < |lane| && lane[i].key == k && k != r.key { assert tail[i - 1].key == k; }
  }

  lemma {:induction false} TakenLane(q: Contents, k: Key)
    requires Sound(q) && TryNext(q).Some?
    ensures var n := TryNext(q).value; InLane(n.1, k) <==> InLane(q, k) && k != n.0.key
  {
    var n := TryNext(q).value;
    TakenIsHead(q, k.kind);
    assert LaneSound(Lane(q, k.kind), k.kind);
    if k.kind == n.0.key.kind { LaneWithoutHead(n.0, Lane(n.1, k.kind), k); }
  }

  lemma {:induction false} HeadIsPending(q: Contents)
    requires Sound(q) && TryNext(q).Some?
    ensures var r := TryNext(q).value.0; InLane(q, r.key) && r.key in q.queued && r.key !in q.working
  {
    var kind := FirstKind(q).value;
    assert LaneSound(Lane(q, kind), kind);
    assert Lane(q, kind)[0].key == TryNext(q).value.0.key;
  }

  lemma {:induction false} NextKeepsSound(q: Contents)
    requires Sound(q) && TryNext(q).Some?
    ensures Sound(TryNext(q).value.1)
  {
    var n := TryNext(q).value;
    forall kind ensures LaneSound(Lane(n.1, kind), kind) { assert LaneSound(Lane(q, kind), kind); }
    HeadIsPending(q);
    forall k ensures k in n.1.queued <==> k in n.1.working || InLane(n.1, k)
      ensures k in n.1.working ==> !InLane(n.1, k)
    {
      TakenLane(q, k);
    }
  }

  /** Completing a key keeps the queue sound exactly when the key is not still waiting. */
  lemma {:induction false} CompleteKeepsSound(q: Contents, k: Key)
    requires Sound(q)
    ensures Sound(Complete(q, k)) <==> !InLane(q, k)
  {
    var p := Complete(q, k);
    forall kind ensures LaneSound(Lane(p, kind), kind) { assert LaneSound(Lane(q, kind), kind); }
    forall j ensures InLane(p, j) <==> InLane(q, j) {
      assert Lane(p, j.kind) == Lane(q, j.kind);
    }
    if k in q.queued { assert q.queued == p.queued + {k}; } else { assert q.queued == p.queued; }
  }

  /** Completing the only waiting key leaves a lane whose key is not queued. */
  lemma {:induction false} CompletionCanBreakTheBooks(payload: Bytes)
    ensures var k := Key(Aggregation, 0);
            var q := Contents([Request(k, payload)], [], [], {}, {k}, 1);
            Sound(q) && InLane(q, k) && !Sound(Complete(q, k))
  {
    var k := Key(Aggregation, 0);
    var q := Contents([Request(k, payload)], [], [], {}, {k}, 1);
    forall kind ensures LaneSound(Lane(q, kind), kind) { }
    assert Lane(q, Aggregation)[0].key == k;
    CompleteKeepsSound(q, k);
  }

  // ----- the order of service

  function Priority(kind: Kind): nat {
    match kind
    case Aggregation => 2
    case BatchProof => 1
    case Other => 0
  }

  ghost predicate Before(lane: seq<Request>, k: Key, j: Key) {
    exists x, y :: 0 <= x < y < |lane| && lane[x].key == k && lane[y].key == j
  }

  /** Both keys wait, and the first is of a higher class, or of the same class and longer there. */
  ghost predicate Ahead(q: Contents, k: Key, j: Key) {
    && InLane(q, k) && InLane(q, j)
    && (Priority(k.kind) > Priority(j.kind) || (k.kind == j.kind && Before(Lane(q, k.kind), k, j)))
  }

  /** Nothing is taken only if nothing waits; and what is taken is not behind any key that waits. */
  lemma {:induction false} NextIsFirst(q: Contents, k: Key)
    requires Sound(q) && InLane(q, k)
    ensures TryNext(q).Some? && !Ahead(q, k, TryNext(q).value.0.key)
    ensures var r := TryNext(q).value.0; r.key == k || Ahead(q, r.key, k)
    ensures k.kind == Aggregation ==> TryNext(q).value.0.key.kind == Aggregation
    ensures k.kind == BatchProof ==> TryNext(q).value.0.key.kind != Other
  {
    var r := TryNext(q).value.0;
    var kind := FirstKind(q).value;
    HeadIsPending(q);
    assert LaneSound(Lane(q, kind), kind) && Lane(q, kind)[0] == r;
    var i :| 0 <= i < |Lane(q, k.kind)| && Lane(q, k.kind)[i].key == k;
    if k.kind == kind && k != r.key { assert Lane(q, kind)[0].key == r.key && Lane(q, kind)[i].key == k; }
  }

  /** What is taken was waiting, waits no longer, and everything else that waits is behind it. */
  ghost predicate TakesFirst(q: Contents, r: Request, after: Contents) {
    && InLane(q, r.key) && !InLane(after, r.key)
    && forall k :: InLane(q, k) && k != r.key ==> Ahead(q, r.key, k) && !Ahead(q, k, r.key)
  }

  lemma {:induction false} ServiceIsStrict(q: Contents)
    requires Sound(q)
    ensures TryNext(q).None? ==> forall k :: !InLane(q, k)
    ensures TryNext(q).Some? ==> TakesFirst(q, TryNext(q).value.0, TryNext(q).value.1)
  {
    if TryNext(q).Some? {
      var n := TryNext(q).value;
      HeadIsPending(q);
      TakenLane(q, n.0.key);
      forall k | InLane(q, k) && k != n.0.key ensures Ahead(q, n.0.key, k) && !Ahead(q, k, n.0.key) { NextIsFirst(q, k); }
    }
  }

  lemma {:induction false} TailKeepsBefore(r: Request, tail: seq<Request>, k: Key, j: Key)
    requires Before([r] + tail, k, j) && r.key != k
    ensures Before(tail, k, j)
  {
    var lane := [r] + tail;
    var x, y :| 0 <= x < y < |lane| && lane[x].key == k && lane[y].key == j;
    assert tail[x - 1].key == k && tail[y - 1].key == j;
  }

  /** Whoever is ahead stays ahead until it is taken. */
  lemma {:induction false} NextKeepsAhead(q: Contents, k: Key, j: Key)
    requires Sound(q) && Ahead(q, k, j) && TryNext(q).Some? && TryNext(q).value.0.key != k
    ensures Ahead(TryNext(q).value.1, k, j)
  {
    var n := TryNext(q).value;
    NextIsFirst(q, k);
    TakenLane(q, k);
    TakenLane(q, j);
    TakenIsHead(q, k.kind);
    if k.kind == j.kind && k.kind == n.0.key.kind { TailKeepsBefore(n.0, Lane(n.1, k.kind), k, j); }
  }

  lemma {:induction false} AddKeepsAhead(q: Contents, r: Request, k: Key, j: Key)
    requires Ahead(q, k, j) && AddPending(q, r).Ok?
    ensures Ahead(AddPending(q, r).value, k, j)
  {
    if r.key !in q.queued {
      var p := AddPending(q, r).value;
      AddedLane(q, r, k);
      AddedLane(q, r, j);
      if k.kind == j.kind {
        var lane := Lane(q, k.kind);
        if Before(lane, k, j) {
          var x, y :| 0 <= x < y < |lane| && lane[x].key == k && lane[y].key == j;
          assert Lane(p, k.kind)[x].key == k && Lane(p, k.kind)[y].key == j;
        }
      }
    }
  }

  // ----- the queue as the program keeps it

  class Queue {
    var aggQueue: seq<Request>
    var batchQueue: seq<Request>
    var preflightQueue: seq<Request>
    var workingInProgress: set<Key>
    var queuedKeys: set<Key>
    const maxQueueSize: nat

    ghost function View(): Contents
      reads this
    {
      Contents(aggQueue, batchQueue, preflightQueue, workingInProgress, queuedKeys, maxQueueSize)
    }

    constructor (size: nat)
      ensures View() == Contents([], [], [], {}, {}, size) && Sound(View())
    {
      aggQueue, batchQueue, preflightQueue, workingInProgress, queuedKeys, maxQueueSize := [], [], [], {}, {}, size;
      new;
      assert forall kind :: Lane(View(), kind) == [];
    }

    predicate IsAtCapacity()
      reads this
    {
      |queuedKeys| >= maxQueueSize
    }

    method Add(r: Request) returns (ok: bool)
      requires Sound(View())
      modifies this
      ensures Sound(View())
      ensures ok <==> |old(queuedKeys)| < maxQueueSize
      ensures View() == if ok then AddPending(old(View()), r).value else old(View())
      ensures var joins := ok && r.key !in old(queuedKeys);
              && aggQueue == old(aggQueue) + (if joins && r.key.kind == Aggregation then [r] else [])
              && batchQueue == old(batchQueue) + (if joins && r.key.kind == BatchProof then [r] else [])
              && preflightQueue == old(preflightQueue) + (if joins && r.key.kind == Other then [r] else [])
              && queuedKeys == old(queuedKeys) + (if ok then {r.key} else {})
              && workingInProgress == old(workingInProgress)
    {
      if IsAtCapacity() { return false; }
      if r.key !in queuedKeys {
        queuedKeys := queuedKeys + {r.key};
        match r.key.kind
        case Aggregation => aggQueue := aggQueue + [r];
        case BatchProof => batchQueue := batchQueue + [r];
        case Other => preflightQueue := preflightQueue + [r];
      }
      ok := true;
      AddKeepsSound(old(View()), r);
    }

    method Next() returns (r: Option<Request>)
      requires Sound(View())
      modifies this
      ensures Sound(View())
      ensures var n := TryNext(old(View()));
              if n.None? then r.None? && View() == old(View()) else r == Some(n.value.0) && View() == n.value.1
      ensures r == if old(aggQueue) != [] then Some(old(aggQueue)[0])
                   else if old(batchQueue) != [] then Some(old(batchQueue)[0])
                   else if old(preflightQueue) != [] then Some(old(preflightQueue)[0]) else None
    {
      if aggQueue != [] {
        r, aggQueue := Some(aggQueue[0]), aggQueue[1..];
      } else if batchQueue != [] {
        r, batchQueue := Some(batchQueue[0]), batchQueue[1..];
      } else if preflightQueue != [] {
        r, preflightQueue := Some(preflightQueue[0]), preflightQueue[1..];
      } else {
        return None;
      }
      workingInProgress := workingInProgress + {r.value.key};
      NextKeepsSound(old(View()));
    }

    method Finish(k: Key)
      requires Sound(View())
      modifies this
      ensures View() == Complete(old(View()), k)
      ensures Sound(View()) <==> !InLane(old(View()), k)
    {
      workingInProgress := workingInProgress - {k};
      queuedKeys := queuedKeys - {k};
      CompleteKeepsSound(old(View()), k);
    }
  }
}
