/** The lifecycle of the per-source pollers (internal/gitsync/service.go, worker.go) under every
    interleaving of concurrent create, update and delete calls. startWorker is one locked section;
    stopWorker is a locked section that removes the worker, and the close of its stop channel after
    the lock is released. */
module GitWorkers {
  /** Workers are named by the order of their creation. `closing` are the workers whose stop channel
      some stopWorker call is about to close, `closes` the closes made so far, `running` the
      goroutines that have not returned, and `waitGroup` the counter. */
  datatype Pool = Pool(
    workers: map<string, nat>,
    source: map<nat, string>,
    closing: multiset<nat>,
    closes: multiset<nat>,
    running: set<nat>,
    waitGroup: int,
    next: nat)

  datatype Step =
    | Start(id: string)     // startWorker
    | Remove(id: string)    // the locked half of stopWorker
    | Close(worker: nat)    // its second half
    | Return(worker: nat)   // the goroutine sees the closed channel or the cancelled context

  const EMPTY: Pool := Pool(map[], map[], multiset{}, multiset{}, {}, 0, 0)

  function Apply(p: Pool, e: Step): Pool
  {
    match e
    case Start(id) =>
      if id in p.workers then p
      else p.(workers := p.workers[id := p.next], source := p.source[p.next := id],
           running := p.running + {p.next}, waitGroup := p.waitGroup + 1, next := p.next + 1)
    case Remove(id) =>
      if id !in p.workers then p
      else p.(workers := p.workers - {id}, closing := p.closing + multiset{p.workers[id]})
    case Close(w) =>
      if w !in p.closing then p
      else p.(closing := p.closing - multiset{w}, closes := p.closes + multiset{w})
    case Return(w) =>
      if w !in p.running then p
      else p.(running := p.running - {w}, waitGroup := p.waitGroup - 1)
  }

  function Run(p: Pool, es: seq<Step>): Pool
    decreases |es|
  {
    if es == [] then p else Run(Apply(p, es[0]), es[1..])
  }

  predicate Registered(p: Pool, w: nat)
  {
    w in p.source && p.source[w] in p.workers && p.workers[p.source[w]] == w
  }

  /** In how many of its possible places a worker is found. */
  function Places(p: Pool, w: nat): nat
  {
    (if Registered(p, w) then 1 else 0) + p.closing[w] + p.closes[w]
  }

  /** Every worker is registered, about to be closed, or closed; once, and only one of these. */
  ghost predicate Accounted(p: Pool)
  {
    && (forall w: nat :: w in p.source <==> w < p.next)
    && (forall id <- p.workers :: p.workers[id] < p.next && p.source[p.workers[id]] == id)
    && (forall w: nat :: Places(p, w) == if w < p.next then 1 else 0)
    && (forall w <- p.running :: w < p.next)
    && p.waitGroup == |p.running|
  }

  lemma StartPlaces(p: Pool, id: string, w: nat)
    requires Accounted(p) && id !in p.workers
    ensures Places(Apply(p, Start(id)), w) == if w < p.next + 1 then 1 else 0
  {
    var q := Apply(p, Start(id));
    assert Places(p, w) == if w < p.next then 1 else 0;
    if w < p.next {
      assert q.source[w] == p.source[w];
      assert Registered(q, w) <==> Registered(p, w);
    } else {
      assert w in p.source <==> w < p.next;
      assert Registered(q, w) <==> w == p.next;
    }
  }

  lemma RemovePlaces(p: Pool, id: string, w: nat)
    requires Accounted(p) && id in p.workers
    ensures Places(Apply(p, Remove(id)), w) == Places(p, w)
  {
    var q := Apply(p, Remove(id));
    assert p.source[p.workers[id]] == id;
    assert Registered(q, w) <==> Registered(p, w) && w != p.workers[id];
    assert q.closing[w] == p.closing[w] + if w == p.workers[id] then 1 else 0;
  }

  lemma PlacesKept(p: Pool, e: Step, w: nat)
    requires Accounted(p)
    ensures Places(Apply(p, e), w) == if w < Apply(p, e).next then 1 else 0
  {
    assert Places(p, w) == if w < p.next then 1 else 0;
    if e.Start? && e.id !in p.workers {
      StartPlaces(p, e.id, w);
    } else if e.Remove? && e.id in p.workers {
      RemovePlaces(p, e.id, w);
    } else {
      assert Registered(Apply(p, e), w) <==> Registered(p, w);
    }
  }

  lemma StepAccounts(p: Pool, e: Step)
    requires Accounted(p)
    ensures Accounted(Apply(p, e))
  {
    var q := Apply(p, e);
    forall w: nat ensures Places(q, w) == if w < q.next then 1 else 0 {
      PlacesKept(p, e, w);
    }
    assert e.Start? ==> p.next !in p.running;
  }

  lemma {:induction false} RunAccounts(p: Pool, es: seq<Step>)
    requires Accounted(p)
    ensures Accounted(Run(p, es))
    decreases |es|
  {
    if es != [] {
      StepAccounts(p, es[0]);
      RunAccounts(Apply(p, es[0]), es[1..]);
    }
  }

  /** In every interleaving a source has at most one registered worker and a worker serves one source
      only, no stop channel is closed twice, a closed worker is never registered again, and the
      wait-group counts exactly the goroutines that have not returned. */
  lemma WorkersAreSafe(es: seq<Step>, w: nat)
    ensures var p := Run(EMPTY, es);
            && p.closes[w] + p.closing[w] <= 1
            && (w in p.closes ==> forall id <- p.workers :: p.workers[id] != w)
            && (forall id, other :: id in p.workers && other in p.workers && p.workers[id] == p.workers[other] ==>
                                      id == other)
            && p.waitGroup == |p.running|
  {
    assert Accounted(EMPTY);
    RunAccounts(EMPTY, es);
    var p := Run(EMPTY, es);
    assert Places(p, w) == if w < p.next then 1 else 0;
    forall id <- p.workers | p.workers[id] == w ensures Registered(p, w) {
      assert p.source[p.workers[id]] == id;
    }
  }

  /** The last step that starts or removes a worker of the source is a start. */
  predicate LastIsStart(es: seq<Step>, id: string)
  {
    if es == [] then false
    else
      var last := es[|es| - 1];
      if last == Start(id) then true else if last == Remove(id) then false else LastIsStart(es[..|es| - 1], id)
  }

  lemma {:induction false} RunLast(p: Pool, es: seq<Step>, e: Step)
    ensures Run(p, es + [e]) == Apply(Run(p, es), e)
    decreases |es|
  {
    if es == [] {
      assert [] + [e] == [e] && [e][1..] == [];
    } else {
      RunLast(Apply(p, es[0]), es[1..], e);
      assert (es + [e])[1..] == es[1..] + [e];
    }
  }

  /** In every interleaving, a source has a registered worker exactly when the last of its start and remove
      steps was a start. */
  lemma {:induction false} RegisteredExactlyWhen(es: seq<Step>, id: string)
    ensures id in Run(EMPTY, es).workers <==> LastIsStart(es, id)
    decreases |es|
  {
    if es != [] {
      var init, last := es[..|es| - 1], es[|es| - 1];
      assert es == init + [last];
      RunLast(EMPTY, init, last);
      RegisteredExactlyWhen(init, id);
    }
  }

  /** Starting a source without a worker creates exactly one new running worker for it, and starting one
      that has a worker changes nothing; a removed worker is the one that is closed next. */
  lemma StepsDoTheirWork(p: Pool, id: string)
    requires Accounted(p)
    ensures id in p.workers ==> Apply(p, Start(id)) == p
    ensures id !in p.workers ==>
              var q := Apply(p, Start(id));
              && q.workers == p.workers[id := p.next] && q.running == p.running + {p.next} && p.next !in p.running
              && q.closing == p.closing && q.closes == p.closes
    ensures id in p.workers ==>
              var q := Apply(p, Remove(id));
              var r := Apply(q, Close(p.workers[id]));
              && q.workers == p.workers - {id} && q.running == p.running && q.closes == p.closes
              && r.closes == p.closes + multiset{p.workers[id]} && r.closing == p.closing
  {
    if id in p.workers {
      assert Registered(p, p.workers[id]);
      assert Places(p, p.workers[id]) == 1;
    }
  }
}
