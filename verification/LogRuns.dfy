/** The log and the review queue over whole runs. */
module LogRuns {
  import opened Wrappers
  import opened Events
  import opened Layers
  import opened Writer
  import opened Handlers
  import opened Samples

  // ---------- the log ----------

  lemma EditKeepsLog(layer: Layer, step: Step)
    requires WellKept(layer.events)
    requires Edit(layer, step).Ok?
    ensures WellKept(Edit(layer, step).value.events)
  {
    match step {
      case AppendEvent(event, _) => AppendOneExtends(layer.events, event);
      case SubmitBatch(events, _, _) => AppendManyKeeps(layer.events, events);
      case Countersign(req, _) => AppendOneExtends(layer.events, CountersignEvent(layer, req));
      case Restate(req, _) => AppendOneExtends(layer.events, BuildRestatementEvent(req));
      case RestateDirectly(event, _, _) => AppendOneExtends(layer.events, event);
      case _ =>
    }
  }

  /** Ids stay pairwise distinct and every event obeys the writer's rules. */
  lemma StepKeepsLog(layer: Layer, step: Step)
    requires WellKept(layer.events)
    ensures WellKept(Next(layer, step).events) && layer.events <= Next(layer, step).events
  {
    if Apply(layer, step).Ok? {
      ApplyIsEdit(layer, step);
      EditKeepsLog(layer, step);
    }
  }

  /** Append-only: no run of any writes, accepted or refused, removes, reorders or rewrites
      an event, repeats an id, or admits an unlawful event. */
  lemma {:induction false} LogOverRuns(layer: Layer, steps: seq<Step>)
    requires WellKept(layer.events)
    ensures WellKept(Run(layer, steps).events)
    ensures layer.events <= Run(layer, steps).events
    decreases |steps|
  {
    if steps != [] {
      var init := steps[..|steps| - 1];
      LogOverRuns(layer, init);
      StepKeepsLog(Run(layer, init), steps[|steps| - 1]);
    }
  }

  /** Whatever the log was to begin with, it only grows. */
  lemma {:induction false} LogGrowsOverRuns(layer: Layer, steps: seq<Step>)
    ensures layer.events <= Run(layer, steps).events
    decreases |steps|
  {
    if steps != [] {
      var mid, last := Run(layer, steps[..|steps| - 1]), steps[|steps| - 1];
      LogGrowsOverRuns(layer, steps[..|steps| - 1]);
      if Apply(mid, last).Ok? {
        ApplyIsEdit(mid, last);
      }
    }
  }

  // ---------- the queue ----------

  /** The items a write adds to the queue, defaulted to pending. */
  function Queued(layer: Layer, step: Step): seq<ReviewItem> {
    if step.SubmitBatch? then
      EnqueueExtends(layer.queue, step.items);
      Enqueue(layer.queue, step.items)[|layer.queue|..]
    else []
  }

  /** Every item added is sound against the log the same write leaves.  An item handed in
      without a status always is; a caller may also hand one in already closed. */
  ghost predicate QueuesSound(layer: Layer, step: Step)
    requires Edit(layer, step).Ok?
  {
    forall item :: item in Queued(layer, step) ==> ItemSound(item, Edit(layer, step).value.events)
  }

  lemma StatuslessIsSound(layer: Layer, step: Step)
    requires Edit(layer, step).Ok?
    requires step.SubmitBatch? ==> forall item :: item in step.items ==> item.status.None?
    ensures QueuesSound(layer, step)
  {
    if step.SubmitBatch? {
      EnqueueExtends(layer.queue, step.items);
    }
  }

  lemma HasFindingGrows(a: seq<Event>, b: seq<Event>, findingRef: string)
    requires a <= b && HasFinding(a, findingRef)
    ensures HasFinding(b, findingRef)
  {
    var i :| 0 <= i < |a| && a[i].findingRef == findingRef;
    assert b[i].findingRef == findingRef;
  }

  lemma ItemSoundGrows(item: ReviewItem, a: seq<Event>, b: seq<Event>)
    requires a <= b && ItemSound(item, a)
    ensures ItemSound(item, b)
  {
    if item.status == Some(ConfirmedItem) {
      HasFindingGrows(a, b, item.suggestedRef.value);
    }
  }

  /** A successful resolve closes exactly one item: the first pending one with the key. */
  lemma ResolveChangesExactlyOne(
    layer: Layer, key: ReviewKey, status: ReviewStatus, note: Option<string>, actor: Option<Actor>)
    requires Resolve(layer, key, status, note, actor).Ok?
    ensures
      var (queue, changed) := Resolve(layer, key, status, note, actor).value;
      && |queue| == |layer.queue|
      && (!changed <==> forall j :: 0 <= j < |layer.queue| ==> !PendingMatch(layer.queue[j], key))
      && (!changed ==> queue == layer.queue)
      && (changed ==> exists i ::
            && 0 <= i < |queue| && PendingMatch(layer.queue[i], key)
            && queue[i].status == Some(status) && KeyOf(queue[i]) == key
            && forall j :: 0 <= j < |queue| && j != i ==> queue[j] == layer.queue[j])
  {
    var i := FirstPending(layer.queue, key);
    var queue := Resolve(layer, key, status, note, actor).value.0;
    if i < |layer.queue| {
      assert PendingMatch(layer.queue[i], key) && queue[i].status == Some(status) && KeyOf(queue[i]) == key;
    }
  }

  lemma QueueSoundGrows(queue: seq<ReviewItem>, a: seq<Event>, b: seq<Event>)
    requires a <= b && QueueSound(queue, a)
    ensures QueueSound(queue, b)
  {
    forall i | 0 <= i < |queue|
      ensures ItemSound(queue[i], b)
    {
      ItemSoundGrows(queue[i], a, b);
    }
  }

  lemma EnqueueSoundExact(queue: seq<ReviewItem>, items: seq<ReviewItem>, events: seq<Event>)
    requires QueueSound(queue, events)
    ensures queue <= Enqueue(queue, items)
    ensures QueueSound(Enqueue(queue, items), events)
       <==> forall item :: item in Enqueue(queue, items)[|queue|..] ==> ItemSound(item, events)
  {
    EnqueueExtends(queue, items);
    var all := Enqueue(queue, items);
    assert all == queue + all[|queue|..];
    if forall item :: item in all[|queue|..] ==> ItemSound(item, events) {
      forall i | 0 <= i < |all|
        ensures ItemSound(all[i], events)
      {
        if i >= |queue| {
          assert all[i] in all[|queue|..];
        }
      }
    }
  }

  lemma ResolveKeepsSound(layer: Layer, key: ReviewKey, status: ReviewStatus, note: Option<string>,
      actor: Option<Actor>)
    requires QueueSound(layer.queue, layer.events)
    requires Resolve(layer, key, status, note, actor).Ok?
    ensures QueueSound(Resolve(layer, key, status, note, actor).value.0, layer.events)
  {
    var i := FirstPending(layer.queue, key);
    if i < |layer.queue| {
      assert ItemSound(Closed(layer.queue[i], status, note, actor), layer.events);
    }
  }

  lemma EditQueueExact(layer: Layer, step: Step)
    requires QueueSound(layer.queue, layer.events)
    requires Edit(layer, step).Ok?
    ensures QueueSound(Edit(layer, step).value.queue, Edit(layer, step).value.events) <==> QueuesSound(layer, step)
  {
    EditShape(layer, step);
    var events := Edit(layer, step).value.events;
    match step {
      case SubmitBatch(_, items, _) =>
        QueueSoundGrows(layer.queue, layer.events, events);
        EnqueueSoundExact(layer.queue, items, events);
      case ResolveItem(key, status, note, _) => ResolveKeepsSound(layer, key, status, note, None);
      case _ => QueueSoundGrows(layer.queue, layer.events, events);
    }
  }

  /** For every accepted write: the queue stays sound if and only if what it adds is sound. */
  lemma StepQueueExact(layer: Layer, step: Step)
    requires QueueSound(layer.queue, layer.events)
    ensures QueueSound(Next(layer, step).queue, Next(layer, step).events)
       <==> (Apply(layer, step).Ok? ==> Edit(layer, step).Ok? && QueuesSound(layer, step))
  {
    if Apply(layer, step).Ok? {
      ApplyIsEdit(layer, step);
      EditQueueExact(layer, step);
    }
  }

  /** An item keeps its place and its key, and once closed it never changes again. */
  predicate QueueFollows(a: seq<ReviewItem>, b: seq<ReviewItem>) {
    && |a| <= |b|
    && forall i :: 0 <= i < |a| ==>
         && KeyOf(b[i]) == KeyOf(a[i])
         && (a[i].status != Some(Pending) ==> b[i] == a[i])
  }

  lemma EditFollowsQueue(layer: Layer, step: Step)
    requires Edit(layer, step).Ok?
    ensures QueueFollows(layer.queue, Edit(layer, step).value.queue)
  {
    if step.SubmitBatch? {
      EnqueueExtends(layer.queue, step.items);
    }
  }

  lemma StepFollowsQueue(layer: Layer, step: Step)
    ensures QueueFollows(layer.queue, Next(layer, step).queue)
  {
    if Apply(layer, step).Ok? {
      ApplyIsEdit(layer, step);
      EditFollowsQueue(layer, step);
    }
  }

  ghost predicate SoundRun(layer: Layer, steps: seq<Step>) {
    steps == [] ||
    var mid, last := Run(layer, steps[..|steps| - 1]), steps[|steps| - 1];
    && SoundRun(layer, steps[..|steps| - 1])
    && (Apply(mid, last).Ok? ==> Edit(mid, last).Ok? && QueuesSound(mid, last))
  }

  ghost predicate SoundThroughout(layer: Layer, steps: seq<Step>) {
    var end := Run(layer, steps);
    QueueSound(end.queue, end.events) && (steps == [] || SoundThroughout(layer, steps[..|steps| - 1]))
  }

  /** Over any run of any writes: keys stay distinct, every status is pending or one terminal
      state, a confirmed item's finding occurs in the log and a rejected item says why, all
      through, if and only if every write adds only such items. */
  lemma {:induction false} QueueOverRuns(layer: Layer, steps: seq<Step>)
    requires QueueSound(layer.queue, layer.events)
    ensures SoundThroughout(layer, steps) <==> SoundRun(layer, steps)
    decreases |steps|
  {
    if steps != [] {
      var init := steps[..|steps| - 1];
      QueueOverRuns(layer, init);
      if SoundThroughout(layer, init) {
        StepQueueExact(Run(layer, init), steps[|steps| - 1]);
      }
    }
  }

  ghost predicate StatuslessRun(steps: seq<Step>) {
    forall step :: step in steps && step.SubmitBatch? ==> forall item :: item in step.items ==> item.status.None?
  }

  lemma {:induction false} StatuslessRunAddsSound(layer: Layer, steps: seq<Step>)
    requires StatuslessRun(steps)
    ensures SoundRun(layer, steps)
    decreases |steps|
  {
    if steps != [] {
      var init, last := steps[..|steps| - 1], steps[|steps| - 1];
      assert last in steps;
      StatuslessRunAddsSound(layer, init);
      if Apply(Run(layer, init), last).Ok? {
        ApplyIsEdit(Run(layer, init), last);
        StatuslessIsSound(Run(layer, init), last);
      }
    }
  }

  /** In particular when items are handed in without a status, as documented: the queue is sound
      after any run of any writes. */
  lemma StatuslessRunIsSound(layer: Layer, steps: seq<Step>)
    requires QueueSound(layer.queue, layer.events)
    requires StatuslessRun(steps)
    ensures QueueSound(Run(layer, steps).queue, Run(layer, steps).events)
  {
    StatuslessRunAddsSound(layer, steps);
    QueueOverRuns(layer, steps);
  }

  lemma FollowsTransitive(a: seq<ReviewItem>, b: seq<ReviewItem>, c: seq<ReviewItem>)
    requires QueueFollows(a, b) && QueueFollows(b, c)
    ensures QueueFollows(a, c)
  {
  }

  /** Whatever is written, no item is moved or removed, and a closed one never changes again. */
  lemma {:induction false} QueueFollowsOverRuns(layer: Layer, steps: seq<Step>)
    ensures QueueFollows(layer.queue, Run(layer, steps).queue)
    decreases |steps|
  {
    if steps != [] {
      var mid := Run(layer, steps[..|steps| - 1]);
      QueueFollowsOverRuns(layer, steps[..|steps| - 1]);
      StepFollowsQueue(mid, steps[|steps| - 1]);
      FollowsTransitive(layer.queue, mid.queue, Run(layer, steps).queue);
    }
  }

  /** Re-queueing a closed item does not reopen it: the key is still taken, so the new item
      is dropped although the resolver's documentation offers this as the way to reopen. */
  lemma RequeueIsDropped(queue: seq<ReviewItem>, items: seq<ReviewItem>)
    requires forall item :: item in items ==> KeyOf(item) in Keys(queue)
    ensures Enqueue(queue, items) == queue
    decreases |items|
  {
    if items != [] {
      assert items[0] in items;
      RequeueIsDropped(queue, items[1..]);
    }
  }

  /** An item that claims to be confirmed by a finding the log has never seen. */
  const Preconfirmed := ReviewItem(Some("doc"), Some("F-1"), None, None, Some(ConfirmedItem), None, None)

  /** A batch may hand in an item already closed; nothing checks it against the log. */
  lemma ClosedItemIsQueued()
    ensures
      var step := SubmitBatch([], [Preconfirmed], Signing);
      && Apply(Shell, step).Ok?
      && Next(Shell, step).queue == [Preconfirmed] && !QueueSound(Next(Shell, step).queue, Next(Shell, step).events)
  {
    assert [Preconfirmed][1..] == [];
    assert Enqueue([], [Preconfirmed]) == Enqueue([Preconfirmed], []);
    assert !ItemSound([Preconfirmed][0], []);
  }
}
