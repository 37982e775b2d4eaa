/** What the writer's mutators compute, as functions on values: event preparation, the
    idempotent appends, the review queue, and the coverage check on metadata. */
module Writer {
  import opened Wrappers
  import opened Events
  import opened Layers
  import opened Restatements
  import opened Gates

  const ALGO_VERSION := "v3"

  // ---------- preparing an event ----------

  /** A human false positive must carry a named, verified identity. */
  predicate IdentityRule(event: Event) {
    event.disposition.validity == Some(FalsePositive) && event.source.actor.kind == Human ==>
      TruthyText(event.source.actor.identity) && ActorVerified(event.source.actor)
  }

  function StampAlgo(event: Event): Event {
    if TruthyText(event.fingerprint) && !TruthyText(event.fingerprintAlgo)
    then event.(fingerprintAlgo := Some(ALGO_VERSION)) else event
  }

  /** An event as the log keeps it. */
  function AsStored(event: Event): Event {
    StampAlgo(event.(eventId := CanonicalId(event)))
  }

  function Prepare(event: Event): Result<Event, LedgerError> {
    var id := CanonicalId(event);
    if IsRestatement(event) && event.disposition != EmptyDisposition then Err(RestatementCarriesDisposition)
    else if event.eventId != Absent && event.eventId != OtherText("") && event.eventId != id then Err(EventIdMismatch)
    else if !IdentityRule(event) then Err(IdentityUnverified)
    else Ok(AsStored(event))
  }

  /** What holds of every event that went through `_prepare_event`. */
  predicate Lawful(event: Event) {
    && event.eventId == CanonicalId(event)
    && (IsRestatement(event) ==> event.disposition == EmptyDisposition)
    && IdentityRule(event)
  }

  // ---------- appending ----------

  function IdsOf(events: seq<Event>): set<EventId> {
    set e | e in events :: e.eventId
  }

  function IdList(events: seq<Event>): seq<EventId> {
    seq(|events|, i requires 0 <= i < |events| => events[i].eventId)
  }

  function AppendOne(events: seq<Event>, event: Event): Result<(seq<Event>, EventId), LedgerError> {
    match Prepare(event)
    case Err(e) => Err(e)
    case Ok(prepared) =>
      if prepared.eventId in IdsOf(events) then Ok((events, prepared.eventId))
      else Ok((events + [prepared], prepared.eventId))
  }

  /** The batch append; the ids returned are those newly appended. */
  function AppendMany(events: seq<Event>, incoming: seq<Event>): Result<(seq<Event>, seq<EventId>), LedgerError>
    decreases |incoming|
  {
    if incoming == [] then Ok((events, []))
    else
      match Prepare(incoming[0])
      case Err(e) => Err(e)
      case Ok(prepared) =>
        if prepared.eventId in IdsOf(events) then AppendMany(events, incoming[1..])
        else
          match AppendMany(events + [prepared], incoming[1..])
          case Err(e) => Err(e)
          case Ok((all, ids)) => Ok((all, [prepared.eventId] + ids))
  }

  predicate DistinctIds(events: seq<Event>) {
    forall i, j :: 0 <= i < j < |events| ==> events[i].eventId != events[j].eventId
  }

  predicate AllLawful(events: seq<Event>) {
    forall e :: e in events ==> Lawful(e)
  }

  /** A log as the writer builds it. */
  predicate WellKept(events: seq<Event>) {
    DistinctIds(events) && AllLawful(events)
  }

  lemma AppendOneExtends(events: seq<Event>, event: Event)
    requires AppendOne(events, event).Ok?
    ensures events <= AppendOne(events, event).value.0
    ensures WellKept(events) ==> WellKept(AppendOne(events, event).value.0)
  {
  }

  // ---------- a batch, read off the request ----------

  /** What a batch adds to a log that knows these ids: the first event of each new id. */
  function Novel(known: set<EventId>, incoming: seq<Event>): seq<Event>
    decreases |incoming|
  {
    if incoming == [] then []
    else
      var id := CanonicalId(incoming[0]);
      if id in known then Novel(known, incoming[1..])
      else [AsStored(incoming[0])] + Novel(known + {id}, incoming[1..])
  }

  predicate FirstOfId(known: set<EventId>, incoming: seq<Event>, i: nat)
    requires i < |incoming|
  {
    && CanonicalId(incoming[i]) !in known
    && forall j :: 0 <= j < i ==> CanonicalId(incoming[j]) != CanonicalId(incoming[i])
  }

  lemma {:induction false} NovelExact(known: set<EventId>, incoming: seq<Event>, e: Event)
    ensures e in Novel(known, incoming)
       <==> exists i :: 0 <= i < |incoming| && FirstOfId(known, incoming, i) && AsStored(incoming[i]) == e
    decreases |incoming|
  {
    if incoming != [] {
      var id, rest := CanonicalId(incoming[0]), incoming[1..];
      var more := if id in known then known else known + {id};
      NovelExact(more, rest, e);
      if e in Novel(more, rest) {
        var i :| 0 <= i < |rest| && FirstOfId(more, rest, i) && AsStored(rest[i]) == e;
        FirstOfTail(known, incoming, i);
      }
      if i :| 0 <= i < |incoming| && FirstOfId(known, incoming, i) && AsStored(incoming[i]) == e {
        if i > 0 {
          FirstOfTail(known, incoming, i - 1);
        }
      }
    }
  }

  lemma FirstOfTail(known: set<EventId>, incoming: seq<Event>, i: nat)
    requires i + 1 < |incoming|
    ensures
      var id := CanonicalId(incoming[0]);
      FirstOfId(if id in known then known else known + {id}, incoming[1..], i) <==> FirstOfId(known, incoming, i + 1)
  {
    var id, rest := CanonicalId(incoming[0]), incoming[1..];
    var more := if id in known then known else known + {id};
    if FirstOfId(more, rest, i) {
      forall j | 0 <= j < i + 1
        ensures CanonicalId(incoming[j]) != CanonicalId(incoming[i + 1])
      {
        if j > 0 {
          assert CanonicalId(rest[j - 1]) != CanonicalId(rest[i]);
        }
      }
    }
    if FirstOfId(known, incoming, i + 1) {
      assert CanonicalId(incoming[0]) != CanonicalId(incoming[i + 1]);
      forall j | 0 <= j < i
        ensures CanonicalId(rest[j]) != CanonicalId(rest[i])
      {
        assert CanonicalId(incoming[j + 1]) != CanonicalId(incoming[i + 1]);
      }
    }
  }

  lemma IdsOfSnoc(events: seq<Event>, event: Event)
    ensures IdsOf(events + [event]) == IdsOf(events) + {event.eventId}
  {
    forall id
      ensures id in IdsOf(events + [event]) <==> id in IdsOf(events) + {event.eventId}
    {
      if id == event.eventId {
        assert event in events + [event];
      }
      if id in IdsOf(events) {
        var e :| e in events && e.eventId == id;
        assert e in events + [event];
      }
    }
  }

  /** Every event a batch adds was handed in. */
  lemma {:induction false} NovelIsIncoming(known: set<EventId>, incoming: seq<Event>, e: Event)
    requires e in Novel(known, incoming)
    ensures exists x :: x in incoming && AsStored(x) == e
  {
    NovelExact(known, incoming, e);
  }

  lemma {:induction false} AppendManyAccepts(events: seq<Event>, incoming: seq<Event>)
    ensures AppendMany(events, incoming).Ok? <==> forall e :: e in incoming ==> Prepare(e).Ok?
    decreases |incoming|
  {
    if incoming != [] {
      var first, rest := incoming[0], incoming[1..];
      assert first in incoming && forall e :: e in incoming <==> e == first || e in rest;
      if Prepare(first).Ok? {
        AppendManyAccepts(AppendOne(events, first).value.0, rest);
      }
    }
  }

  lemma {:induction false} AppendManyAdds(events: seq<Event>, incoming: seq<Event>)
    requires AppendMany(events, incoming).Ok?
    ensures
      var novel := Novel(IdsOf(events), incoming);
      AppendMany(events, incoming).value == (events + novel, IdList(novel))
    decreases |incoming|
  {
    if incoming == [] {
      var none := Novel(IdsOf(events), incoming);
      assert events + none == events && IdList(none) == [];
    } else {
      var stored, rest := AsStored(incoming[0]), incoming[1..];
      if stored.eventId in IdsOf(events) {
        AppendManyAdds(events, rest);
      } else {
        AppendManyAdds(events + [stored], rest);
        IdsOfSnoc(events, stored);
        ConsNovel(events, stored, Novel(IdsOf(events + [stored]), rest));
      }
    }
  }

  lemma ConsNovel(events: seq<Event>, stored: Event, tail: seq<Event>)
    ensures (events + [stored]) + tail == events + ([stored] + tail)
    ensures IdList([stored] + tail) == [stored.eventId] + IdList(tail)
  {
  }

  /** A batch is accepted if and only if every event in it can be prepared, duplicates too, and
      then adds exactly the first event of each new id, in order. */
  lemma AppendManyExact(events: seq<Event>, incoming: seq<Event>)
    ensures AppendMany(events, incoming).Ok? <==> forall e :: e in incoming ==> Prepare(e).Ok?
    ensures
      var novel := Novel(IdsOf(events), incoming);
      AppendMany(events, incoming).Ok? ==> AppendMany(events, incoming) == Ok((events + novel, IdList(novel)))
  {
    AppendManyAccepts(events, incoming);
    if AppendMany(events, incoming).Ok? {
      AppendManyAdds(events, incoming);
    }
  }

  /** A batch extends the log by a suffix whose ids are exactly the ones returned. */
  lemma AppendManyExtends(events: seq<Event>, incoming: seq<Event>)
    requires AppendMany(events, incoming).Ok?
    ensures
      var (all, ids) := AppendMany(events, incoming).value;
      events <= all && ids == IdList(all[|events|..])
  {
    AppendManyAdds(events, incoming);
    var novel := Novel(IdsOf(events), incoming);
    assert (events + novel)[|events|..] == novel;
  }

  /** A batch keeps the log well kept. */
  lemma {:induction false} AppendManyKeeps(events: seq<Event>, incoming: seq<Event>)
    requires AppendMany(events, incoming).Ok? && WellKept(events)
    ensures WellKept(AppendMany(events, incoming).value.0)
    decreases |incoming|
  {
    if incoming != [] {
      AppendOneExtends(events, incoming[0]);
      AppendManyKeeps(AppendOne(events, incoming[0]).value.0, incoming[1..]);
    }
  }

  /** Every incoming event's id ends up in the log, and every new event was incoming. */
  lemma {:induction false} AppendManyCovers(events: seq<Event>, incoming: seq<Event>)
    requires AppendMany(events, incoming).Ok?
    ensures
      var all := AppendMany(events, incoming).value.0;
      && (forall e :: e in incoming ==> CanonicalId(e) in IdsOf(all))
      && (forall e :: e in all && e !in events ==> exists x :: x in incoming && Prepare(x) == Ok(e))
    decreases |incoming|
  {
    if incoming != [] {
      var prepared := Prepare(incoming[0]).value;
      assert incoming == [incoming[0]] + incoming[1..];
      var next := if prepared.eventId in IdsOf(events) then events else events + [prepared];
      AppendManyCovers(next, incoming[1..]);
      var all := AppendMany(events, incoming).value.0;
      AppendManyExtends(next, incoming[1..]);
      assert next <= all;
      assert prepared.eventId in IdsOf(all) by {
        var e :| e in next && e.eventId == prepared.eventId;
        assert e in all;
      }
      forall e | e in all && e !in events
        ensures exists x :: x in incoming && Prepare(x) == Ok(e)
      {
        if e in next {
          assert e == prepared && incoming[0] in incoming;
        }
      }
    }
  }

  /** Nothing is appended when every id is already present. */
  lemma {:induction false} AppendManyOfKnown(events: seq<Event>, incoming: seq<Event>)
    requires forall e :: e in incoming ==> Prepare(e).Ok? && CanonicalId(e) in IdsOf(events)
    ensures AppendMany(events, incoming) == Ok((events, []))
    decreases |incoming|
  {
    if incoming != [] {
      assert incoming[0] in incoming;
      AppendManyOfKnown(events, incoming[1..]);
    }
  }

  /** Resubmitting an accepted batch appends nothing and returns no ids. */
  lemma ResubmitAppendsNothing(events: seq<Event>, incoming: seq<Event>)
    requires AppendMany(events, incoming).Ok?
    ensures
      var all := AppendMany(events, incoming).value.0;
      AppendMany(all, incoming) == Ok((all, []))
  {
    AppendManyCovers(events, incoming);
    AppendManyAccepts(events, incoming);
    AppendManyOfKnown(AppendMany(events, incoming).value.0, incoming);
  }

  // ---------- metadata updates and coverage ----------

  /** The updates of a restatement; null removes the field. */
  function ApplyUpdates(meta: Metadata, updates: map<Target, Json>): Metadata {
    meta.(
      claimHashes := if ClaimHashes in updates then updates[ClaimHashes] else meta.claimHashes,
      auditReport := if AuditReport in updates then updates[AuditReport] else meta.auditReport,
      artifactDigests := if ArtifactDigests in updates then updates[ArtifactDigests] else meta.artifactDigests)
  }

  /** A destructive change is allowed to the field the restatement targets, and only if
      the result is the stored value plus the event's own delta. */
  predicate ChangeExplained(prior: Json, changed: Json, event: Event, target: Target) {
    Destructive(prior, changed) ==>
      && IsRestatement(event) && event.restatement.value.target == target
      && changed == Merge(prior, event.restatement.value.after)
  }

  predicate Covered(prior: Metadata, changed: Metadata, event: Event) {
    && ChangeExplained(prior.claimHashes, changed.claimHashes, event, ClaimHashes)
    && ChangeExplained(prior.auditReport, changed.auditReport, event, AuditReport)
    && ChangeExplained(prior.artifactDigests, changed.artifactDigests, event, ArtifactDigests)
  }

  /** The writer's `append_restatement` up to finalization, for any updates a caller asks for. */
  function AppendRestatement(layer: Layer, event: Event, updates: map<Target, Json>): Result<Layer, LedgerError> {
    match AppendOne(layer.events, event)
    case Err(e) => Err(e)
    case Ok((events, _)) =>
      var meta := ApplyUpdates(layer.meta, updates);
      if Covered(layer.meta, meta, event) then Ok(layer.(events := events, meta := meta))
      else Err(UnexplainedMetadataChange)
  }

  // ---------- the review queue ----------

  function Keys(queue: seq<ReviewItem>): set<ReviewKey> {
    set item | item in queue :: KeyOf(item)
  }

  function DefaultPending(item: ReviewItem): ReviewItem {
    if item.status.None? then item.(status := Some(Pending)) else item
  }

  function Enqueue(queue: seq<ReviewItem>, items: seq<ReviewItem>): seq<ReviewItem>
    decreases |items|
  {
    if items == [] then queue
    else if KeyOf(items[0]) in Keys(queue) then Enqueue(queue, items[1..])
    else Enqueue(queue + [DefaultPending(items[0])], items[1..])
  }

  predicate PendingMatch(item: ReviewItem, key: ReviewKey) {
    item.status == Some(Pending) && KeyOf(item) == key
  }

  /** The first pending item with the key, or the queue's length. */
  function FirstPending(queue: seq<ReviewItem>, key: ReviewKey): (i: nat)
    ensures i <= |queue|
    ensures i < |queue| ==> PendingMatch(queue[i], key)
    ensures forall j :: 0 <= j < i ==> !PendingMatch(queue[j], key)
  {
    if queue == [] then 0
    else if PendingMatch(queue[0], key) then 0
    else 1 + FirstPending(queue[1..], key)
  }

  predicate HasFinding(events: seq<Event>, findingRef: string) {
    exists i :: 0 <= i < |events| && events[i].findingRef == findingRef
  }

  function Closed(item: ReviewItem, status: ReviewStatus, note: Option<string>, actor: Option<Actor>): ReviewItem {
    item.(
      status := Some(status),
      note := if TruthyText(note) then note else item.note,
      resolvedBy := if actor.Some? then actor else item.resolvedBy)
  }

  /** `resolve_review_item`: the new queue, and whether an item changed. */
  function Resolve(layer: Layer, key: ReviewKey, status: ReviewStatus, note: Option<string>, actor: Option<Actor>)
    : Result<(seq<ReviewItem>, bool), LedgerError>
  {
    if status != ConfirmedItem && status != RejectedItem then Err(InvalidStatus)
    else if status == RejectedItem && Blank(TextOrEmpty(note)) then Err(NoteRequired)
    else
      var i := FirstPending(layer.queue, key);
      if i == |layer.queue| then Ok((layer.queue, false))
      else
        var ref := layer.queue[i].suggestedRef;
        if status == ConfirmedItem && !(TruthyText(ref) && HasFinding(layer.events, ref.value)) then Err(NoSuchEvent)
        else Ok((layer.queue[i := Closed(layer.queue[i], status, note, actor)], true))
  }

  predicate DistinctKeys(queue: seq<ReviewItem>) {
    forall i, j :: 0 <= i < j < |queue| ==> KeyOf(queue[i]) != KeyOf(queue[j])
  }

  /** What a queued item's status promises about the rest of the layer. */
  predicate ItemSound(item: ReviewItem, events: seq<Event>) {
    && (item.status == Some(Pending) || item.status == Some(ConfirmedItem) || item.status == Some(RejectedItem))
    && (item.status == Some(ConfirmedItem) ==>
          TruthyText(item.suggestedRef) && HasFinding(events, item.suggestedRef.value))
    && (item.status == Some(RejectedItem) ==> !Blank(TextOrEmpty(item.note)))
  }

  predicate QueueSound(queue: seq<ReviewItem>, events: seq<Event>) {
    DistinctKeys(queue) && forall i :: 0 <= i < |queue| ==> ItemSound(queue[i], events)
  }

  /** Enqueueing only adds pending items with new keys, and drops nothing. */
  lemma {:induction false} EnqueueExtends(queue: seq<ReviewItem>, items: seq<ReviewItem>)
    ensures queue <= Enqueue(queue, items)
    ensures DistinctKeys(queue) ==> DistinctKeys(Enqueue(queue, items))
    ensures
      (forall item :: item in items ==> item.status.None?) ==>
      forall i :: |queue| <= i < |Enqueue(queue, items)| ==> Enqueue(queue, items)[i].status == Some(Pending)
    ensures forall item :: item in items ==> KeyOf(item) in Keys(Enqueue(queue, items))
    decreases |items|
  {
    if items != [] {
      assert items == [items[0]] + items[1..];
      if KeyOf(items[0]) in Keys(queue) {
        EnqueueExtends(queue, items[1..]);
        var item :| item in queue && KeyOf(item) == KeyOf(items[0]);
        assert item in Enqueue(queue, items);
      } else {
        var longer := queue + [DefaultPending(items[0])];
        EnqueueExtends(longer, items[1..]);
        assert DefaultPending(items[0]) in longer;
        assert DefaultPending(items[0]) in Enqueue(queue, items);
      }
    }
  }
}
