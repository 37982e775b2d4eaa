/** The writer's own operations, answered completely in terms of the fields they are handed: preparing
    an event, queueing and closing review items, patching and restating metadata, and one whole step. */
module Writes {
  import opened Wrappers
  import opened Events
  import opened Layers
  import opened Restatements
  import opened Integrity
  import opened Gates
  import opened Writer
  import opened Handlers
  import opened Identities
  import opened Requests

  // ---------- preparing an event ----------

  /** The canonical id of an event, as a text before it is hashed. */
  function IdText(event: Event): string {
    event.source.ref + "|" + event.findingRef + "|" + ValidityText(event.disposition.validity) + "|" +
    if event.disposition.resolution.Some? then event.disposition.resolution.value else ""
  }

  /** A human's false positive has to name somebody authenticated. */
  predicate Unvouched(event: Event) {
    && event.disposition.validity == Some(FalsePositive) && event.source.actor.kind == Human
    && (|| event.source.actor.identity.None? || event.source.actor.identity == Some("")
        || !Authenticated(event.source.actor))
  }

  /** An event is refused for the first of three reasons.  Otherwise it is kept as it came, under its
      canonical id and, when it has a fingerprint of no stated version, the current version. */
  lemma PrepareAnswered(event: Event)
    ensures
      var id := Sha256Hex(IdText(event));
      var unversioned := && event.fingerprint.Some? && event.fingerprint != Some("")
                         && (event.fingerprintAlgo.None? || event.fingerprintAlgo == Some(""));
      Prepare(event) ==
        if event.restatement.Some? && event.source.kind == RestatementSource
           && event.disposition != Disposition(None, None, None) then Err(RestatementCarriesDisposition)
        else if event.eventId !in {Absent, OtherText(""), id} then Err(EventIdMismatch)
        else if Unvouched(event) then Err(IdentityUnverified)
        else Ok(event.(eventId := id, fingerprintAlgo := if unversioned then Some("v3") else event.fingerprintAlgo))
  {
  }

  lemma ValidityWords(a: Option<Validity>, b: Option<Validity>)
    ensures '|' !in ValidityText(a)
    ensures ValidityText(a) == ValidityText(b) <==> a == b
  {
    assert "confirmed"[2] == 'n' && "corrected"[2] == 'r';
    assert |"confirmed"| == 9 && |"corrected"| == 9 && |"hardening"| == 9;
    assert "confirmed"[0] == 'c' && "corrected"[0] == 'c' && "hardening"[0] == 'h';
  }

  /** Two events share a canonical id if and only if they agree on source reference, finding, validity
      and resolution, absent and empty resolutions being one. */
  lemma CanonicalIdExact(a: Event, b: Event)
    requires '|' !in a.source.ref && '|' !in a.findingRef && '|' !in b.source.ref && '|' !in b.findingRef
    ensures CanonicalId(a) == CanonicalId(b) <==>
      && a.source.ref == b.source.ref && a.findingRef == b.findingRef
      && a.disposition.validity == b.disposition.validity
      && TextOrEmpty(a.disposition.resolution) == TextOrEmpty(b.disposition.resolution)
  {
    var va, vb := ValidityText(a.disposition.validity), ValidityText(b.disposition.validity);
    var ra, rb := TextOrEmpty(a.disposition.resolution), TextOrEmpty(b.disposition.resolution);
    ValidityWords(a.disposition.validity, b.disposition.validity);
    ValidityWords(b.disposition.validity, a.disposition.validity);
    FourParts(a.source.ref, a.findingRef, va, ra, b.source.ref, b.findingRef, vb, rb);
  }

  lemma FourParts(a: string, b: string, c: string, d: string, x: string, y: string, z: string, w: string)
    requires '|' !in a && '|' !in b && '|' !in c && '|' !in x && '|' !in y && '|' !in z
    ensures a + "|" + b + "|" + c + "|" + d == x + "|" + y + "|" + z + "|" + w
       <==> a == x && b == y && c == z && d == w
  {
    var s, t := b + "|" + c + "|" + d, y + "|" + z + "|" + w;
    assert a + "|" + b + "|" + c + "|" + d == a + "|" + s;
    assert x + "|" + y + "|" + z + "|" + w == x + "|" + t;
    if a + "|" + s == x + "|" + t {
      HeadDetermined(a, x, s, t, '|');
      assert s == b + "|" + (c + "|" + d) && t == y + "|" + (z + "|" + w);
      HeadDetermined(b, y, c + "|" + d, z + "|" + w, '|');
      HeadDetermined(c, z, d, w, '|');
    }
  }

  // ---------- the review queue ----------

  /** Two items are the same to the queue. */
  predicate SameItem(a: ReviewItem, b: ReviewItem) {
    && a.sourceRef == b.sourceRef && a.suggestedRef == b.suggestedRef
    && a.queueReason == b.queueReason && a.quote == b.quote
  }

  /** Not queued yet, and the first of its kind among the items handed in. */
  predicate New(queue: seq<ReviewItem>, items: seq<ReviewItem>, i: nat)
    requires i < |items|
  {
    && (forall j :: 0 <= j < |queue| ==> !SameItem(queue[j], items[i]))
    && (forall j :: 0 <= j < i ==> !SameItem(items[j], items[i]))
  }

  lemma {:induction false} EnqueueSnoc(queue: seq<ReviewItem>, items: seq<ReviewItem>, item: ReviewItem)
    ensures Enqueue(queue, items + [item]) ==
      if KeyOf(item) in Keys(Enqueue(queue, items)) then Enqueue(queue, items)
      else Enqueue(queue, items) + [DefaultPending(item)]
    decreases |items|
  {
    if items == [] {
      assert (items + [item])[1..] == [];
    } else {
      assert (items + [item])[1..] == items[1..] + [item];
      var longer := if KeyOf(items[0]) in Keys(queue) then queue else queue + [DefaultPending(items[0])];
      EnqueueSnoc(longer, items[1..], item);
    }
  }

  /** Items added to the queue, by position: `picks` in order, pending unless a status was given. */
  ghost predicate Queued(queue: seq<ReviewItem>, items: seq<ReviewItem>, picks: seq<nat>, all: seq<ReviewItem>) {
    && |all| == |queue| + |picks| && queue <= all
    && forall k :: 0 <= k < |picks| ==>
         && picks[k] < |items|
         && all[|queue| + k] == items[picks[k]].(
              status := if items[picks[k]].status.None? then Some(Pending) else items[picks[k]].status)
  }

  /** The positions of the new items, in order. */
  ghost predicate Picks(queue: seq<ReviewItem>, items: seq<ReviewItem>, picks: seq<nat>) {
    && (forall k, l :: 0 <= k < l < |picks| ==> picks[k] < picks[l])
    && (forall k :: 0 <= k < |picks| ==> picks[k] < |items| && New(queue, items, picks[k]))
    && (forall i :: 0 <= i < |items| && New(queue, items, i) ==> i in picks)
  }

  lemma PicksSnoc(queue: seq<ReviewItem>, items: seq<ReviewItem>, picks: seq<nat>, item: ReviewItem)
    requires Picks(queue, items, picks)
    ensures
      var longer := items + [item];
      Picks(queue, longer, if New(queue, longer, |items|) then picks + [|items|] else picks)
  {
    var longer := items + [item];
    assert forall i :: 0 <= i < |items| ==> longer[i] == items[i];
    forall i | 0 <= i < |items|
      ensures New(queue, items, i) <==> New(queue, longer, i)
    {
      assert forall j :: 0 <= j < i ==> longer[j] == items[j];
    }
    if New(queue, longer, |items|) {
      assert (picks + [|items|])[|picks|] == |items|;
      assert forall i :: i in picks ==> i in picks + [|items|];
    }
  }

  lemma QueuedSnoc(
    queue: seq<ReviewItem>, items: seq<ReviewItem>, picks: seq<nat>, all: seq<ReviewItem>, item: ReviewItem)
    requires Queued(queue, items, picks, all)
    ensures Queued(queue, items + [item], picks, all)
    ensures Queued(queue, items + [item], picks + [|items|], all + [DefaultPending(item)])
  {
  }

  lemma PickNext(queue: seq<ReviewItem>, items: seq<ReviewItem>, earlier: seq<nat>, item: ReviewItem)
      returns (picks: seq<nat>)
    requires Queued(queue, items, earlier, Enqueue(queue, items)) && Picks(queue, items, earlier)
    ensures Queued(queue, items + [item], picks, Enqueue(queue, items + [item]))
    ensures Picks(queue, items + [item], picks)
  {
    EnqueueSnoc(queue, items, item);
    KeysAreItems(queue, items, earlier, item);
    PicksSnoc(queue, items, earlier, item);
    QueuedSnoc(queue, items, earlier, Enqueue(queue, items), item);
    picks := if New(queue, items + [item], |items|) then earlier + [|items|] else earlier;
    NewIsUnknown(queue, items, item);
  }

  lemma NewIsUnknown(queue: seq<ReviewItem>, items: seq<ReviewItem>, item: ReviewItem)
    ensures New(queue, items + [item], |items|) <==>
      && !(exists j :: 0 <= j < |queue| && SameItem(queue[j], item))
      && !(exists j :: 0 <= j < |items| && SameItem(items[j], item))
  {
    var longer := items + [item];
    assert forall j :: 0 <= j < |items| ==> longer[j] == items[j];
  }

  /** Queueing adds exactly the new items, in the order they came, and nothing else. */
  lemma {:induction false} EnqueueExact(queue: seq<ReviewItem>, items: seq<ReviewItem>) returns (picks: seq<nat>)
    ensures Queued(queue, items, picks, Enqueue(queue, items))
    ensures Picks(queue, items, picks)
    decreases |items|
  {
    if items == [] {
      picks := [];
    } else {
      var init, last := items[..|items| - 1], items[|items| - 1];
      assert items == init + [last];
      picks := EnqueueExact(queue, init);
      picks := PickNext(queue, init, picks, last);
    }
  }

  lemma KeysAreItems(queue: seq<ReviewItem>, items: seq<ReviewItem>, picks: seq<nat>, item: ReviewItem)
    requires Queued(queue, items, picks, Enqueue(queue, items))
    ensures KeyOf(item) in Keys(Enqueue(queue, items)) <==>
      || (exists j :: 0 <= j < |queue| && SameItem(queue[j], item))
      || (exists j :: 0 <= j < |items| && SameItem(items[j], item))
  {
    var all := Enqueue(queue, items);
    EnqueueExtends(queue, items);
    if KeyOf(item) in Keys(all) {
      var other :| other in all && KeyOf(other) == KeyOf(item);
      var k :| 0 <= k < |all| && all[k] == other;
      if k < |queue| {
        assert SameItem(queue[k], item);
      } else {
        assert SameItem(items[picks[k - |queue|]], item);
      }
    }
    if j :| 0 <= j < |queue| && SameItem(queue[j], item) {
      assert all[j] in all && KeyOf(all[j]) == KeyOf(item);
    }
    if j :| 0 <= j < |items| && SameItem(items[j], item) {
      assert items[j] in items && KeyOf(items[j]) == KeyOf(item);
    }
  }

  /** Item `i` is the first still open under these four fields. */
  predicate FirstOpen(queue: seq<ReviewItem>, key: ReviewKey, i: nat) {
    && i < |queue| && Open(queue[i], key) && forall j :: 0 <= j < i ==> !Open(queue[j], key)
  }

  predicate Open(item: ReviewItem, key: ReviewKey) {
    && item.status == Some(Pending) && item.sourceRef == key.0 && item.suggestedRef == key.1
    && item.queueReason == key.2 && item.quote == key.3
  }

  /** A resolution confirms or rejects, and a rejection says why; with nothing open it changes nothing. */
  lemma ResolveAnswered(layer: Layer, key: ReviewKey, status: ReviewStatus, note: Option<string>, actor: Option<Actor>)
    ensures status != ConfirmedItem && status != RejectedItem ==>
      Resolve(layer, key, status, note, actor) == Err(InvalidStatus)
    ensures status == RejectedItem && (note.None? || !HasText(note.value)) ==>
      Resolve(layer, key, status, note, actor) == Err(NoteRequired)
    ensures
      && (status == ConfirmedItem || (status == RejectedItem && note.Some? && HasText(note.value)))
      && (forall i :: 0 <= i < |layer.queue| ==> !Open(layer.queue[i], key))
      ==> Resolve(layer, key, status, note, actor) == Ok((layer.queue, false))
  {
    assert note.Some? ==> (Blank(note.value) <==> !HasText(note.value));
    var i := FirstPending(layer.queue, key);
    assert forall item :: PendingMatch(item, key) <==> Open(item, key);
  }

  /** The first open item is closed in place: status, the note if it is not empty, and whoever did it.
      A confirmation needs the suggested finding to have an event. */
  lemma ResolveWrites(
    layer: Layer, key: ReviewKey, status: ReviewStatus, note: Option<string>, actor: Option<Actor>, i: nat)
    requires status == ConfirmedItem || (status == RejectedItem && note.Some? && HasText(note.value))
    requires FirstOpen(layer.queue, key, i)
    ensures
      var item := layer.queue[i];
      var backed := && item.suggestedRef.Some? && item.suggestedRef != Some("")
                    && exists e :: e in layer.events && Some(e.findingRef) == item.suggestedRef;
      Resolve(layer, key, status, note, actor) ==
        if status == ConfirmedItem && !backed then Err(NoSuchEvent)
        else Ok((layer.queue[i := item.(
                   status := Some(status),
                   note := if note.None? || note == Some("") then item.note else note,
                   resolvedBy := if actor.None? then item.resolvedBy else actor)], true))
  {
    assert note.Some? ==> (Blank(note.value) <==> !HasText(note.value));
    assert forall item :: PendingMatch(item, key) <==> Open(item, key);
    assert FirstPending(layer.queue, key) == i;
    var ref := layer.queue[i].suggestedRef;
    if ref.Some? {
      assert HasFinding(layer.events, ref.value) <==> exists e :: e in layer.events && e.findingRef == ref.value;
    }
  }

  // ---------- patching metadata ----------

  predicate Recorded(value: Json) {
    value != Null && value != Str("") && value != Obj(map[])
  }

  /** A patch of `held` by `given` changes something recorded: an entry of a map, or the whole value. */
  predicate Overwrites(held: Json, given: Json) {
    Recorded(held) &&
    if held.Obj? && given.Obj? then
      exists key :: key in held.entries && key in given.entries && given.entries[key] != held.entries[key]
    else given != held
  }

  lemma OverwritesExact(held: Json, given: Json)
    ensures Destructive(held, PatchValue(held, given)) <==> Overwrites(held, given)
  {
    if held.Obj? && given.Obj? {
      var both := held.entries + given.entries;
      assert forall key :: key in held.entries ==>
        EntryOf(both, key) == if key in given.entries then given.entries[key] else held.entries[key];
      if Destructive(held, Obj(both)) {
        var key :| key in held.entries && EntryOf(both, key) != held.entries[key];
        assert key in given.entries;
      }
      if Overwrites(held, given) {
        var key :| key in held.entries && key in given.entries && given.entries[key] != held.entries[key];
        assert EntryOf(both, key) != held.entries[key];
      }
    }
  }

  lemma NothingDestroyed(value: Json)
    ensures !Destructive(value, value)
  {
  }

  /** A patch is refused exactly when it would overwrite a recorded signature-bound value, or else when
      it nulls the epoch. */
  lemma PatchAnswered(layer: Layer, updates: Updates, now: string)
    ensures
      var meta, fields := layer.meta, updates.fields;
      var overwrites :=
        || (ClaimHashes in fields && Overwrites(meta.claimHashes, fields[ClaimHashes]))
        || (AuditReport in fields && Overwrites(meta.auditReport, fields[AuditReport]))
        || (ArtifactDigests in fields && Overwrites(meta.artifactDigests, fields[ArtifactDigests]));
      && (overwrites ==> EditPatch(layer, updates, now) == Err(SignedValueOverwritten))
      && (!overwrites && updates.merkle.epoch == Some(None) ==> EditPatch(layer, updates, now) == Err(EpochUnreadable))
      && (!overwrites && updates.merkle.epoch != Some(None) ==>
            EditPatch(layer, updates, now) == Ok(layer.(meta := Patched(layer.meta, updates, now))))
  {
    var meta := Patched(layer.meta, updates, now);
    forall t: Target
      ensures Destructive(Field(layer.meta, t), Field(meta, t))
         <==> t in updates.fields && Overwrites(Field(layer.meta, t), updates.fields[t])
    {
      PatchedFieldExact(layer.meta, updates, now, t);
    }
  }

  lemma PatchedFieldExact(meta: Metadata, updates: Updates, now: string, t: Target)
    ensures Destructive(Field(meta, t), Field(Patched(meta, updates, now), t))
       <==> t in updates.fields && Overwrites(Field(meta, t), updates.fields[t])
  {
    if t in updates.fields {
      OverwritesExact(Field(meta, t), updates.fields[t]);
      assert Field(Patched(meta, updates, now), t) == PatchValue(Field(meta, t), updates.fields[t]);
    } else {
      NothingDestroyed(Field(meta, t));
      assert Field(Patched(meta, updates, now), t) == Field(meta, t);
    }
  }

  /** One field after a patch: two maps are joined and the given entries win, anything else replaces. */
  ghost predicate Joined(held: Json, given: Json, now: Json) {
    if held.Obj? && given.Obj? then
      && now.Obj? && now.entries.Keys == held.entries.Keys + given.entries.Keys
      && forall key :: key in now.entries ==>
           now.entries[key] == if key in given.entries then given.entries[key] else held.entries[key]
    else now == given
  }

  ghost predicate FieldPatched(held: Json, fields: map<Target, Json>, t: Target, now: Json) {
    if t in fields then Joined(held, fields[t], now) else now == held
  }

  /** What a patch leaves: each named field joined, aliases joined or emptied, Merkle members assigned,
      and the time of the update. */
  lemma PatchWrites(meta: Metadata, updates: Updates, now: string)
    ensures
      var next := Patched(meta, updates, now);
      && FieldPatched(meta.claimHashes, updates.fields, ClaimHashes, next.claimHashes)
      && FieldPatched(meta.auditReport, updates.fields, AuditReport, next.auditReport)
      && FieldPatched(meta.artifactDigests, updates.fields, ArtifactDigests, next.artifactDigests)
      && (updates.aliases.None? ==> next.findingAliases == meta.findingAliases)
      && (updates.aliases == Some(None) ==> next.findingAliases == map[])
      && next.updated == Some(now)
      && MembersAssigned(meta, updates.merkle, next)
  {
  }

  /** Aliases are joined entry by entry under a patch. */
  lemma PatchJoinsAliases(meta: Metadata, updates: Updates, now: string, ref: string)
    requires updates.aliases.Some? && updates.aliases.value.Some?
    ensures
      var next, given := Patched(meta, updates, now).findingAliases, updates.aliases.value.value;
      && (ref in next <==> ref in given || ref in meta.findingAliases)
      && (ref in given ==> next[ref] == given[ref])
      && (ref in meta.findingAliases && ref !in given ==> next[ref] == meta.findingAliases[ref])
  {
  }

  /** A member that was written holds what was written, a null included; the others are kept. */
  predicate MembersAssigned(meta: Metadata, written: MerkleUpdates, next: Metadata) {
    && next.merkleEpoch == (if written.epoch.None? then meta.merkleEpoch else written.epoch.value)
    && next.merkleRoot == (if written.root.None? then meta.merkleRoot else written.root.value)
    && next.rootSignature == (if written.signature.None? then meta.rootSignature else written.signature.value)
    && next.signingMethod == (if written.scheme.None? then meta.signingMethod else written.scheme.value)
    && next.signatureFormat == (if written.format.None? then meta.signatureFormat else written.format.value)
    && next.merkleSize == meta.merkleSize && next.merkleAlgorithm == meta.merkleAlgorithm
    && next.leafFormat == meta.leafFormat && next.checkpoint == meta.checkpoint
  }

  // ---------- the writer's own restatement entry point ----------

  /** Replacing `held` by `given` loses something recorded. */
  predicate Loses(held: Json, given: Json) {
    Recorded(held) &&
    if held.Obj? && given.Obj? then
      exists key :: key in held.entries
                 && held.entries[key] != if key in given.entries then given.entries[key] else None
    else given != held
  }

  /** A recorded value may be lost only in the field the event restates, and only to the stored value
      changed by the event's own `after`. */
  predicate LossExplained(event: Event, fields: map<Target, Json>, t: Target, held: Json) {
    t in fields && Loses(held, fields[t]) ==>
      && event.restatement.Some? && event.source.kind == RestatementSource
      && event.restatement.value.target == t
      && fields[t] == Merge(held, event.restatement.value.after)
  }

  lemma ExplainedExact(prior: Metadata, event: Event, fields: map<Target, Json>, t: Target)
    ensures ChangeExplained(Field(prior, t), Field(ApplyUpdates(prior, fields), t), event, t)
       <==> LossExplained(event, fields, t, Field(prior, t))
  {
    NothingDestroyed(Field(prior, t));
    if t in fields {
      assert Field(ApplyUpdates(prior, fields), t) == fields[t];
      LosesExact(Field(prior, t), fields[t]);
    }
  }

  lemma LosesExact(held: Json, given: Json)
    ensures Destructive(held, given) <==> Loses(held, given)
  {
    if held.Obj? && given.Obj? {
      if Destructive(held, given) {
        var key :| key in held.entries && EntryOf(given.entries, key) != held.entries[key];
        assert held.entries[key] != if key in given.entries then given.entries[key] else None;
      }
      if Loses(held, given) {
        var key :| key in held.entries
                && held.entries[key] != if key in given.entries then given.entries[key] else None;
        assert EntryOf(given.entries, key) != held.entries[key];
      }
    }
  }

  /** The writer's entry point refuses an event it cannot prepare, then a loss the event does not
      explain; nothing else. */
  lemma DirectAnswered(layer: Layer, event: Event, updates: Updates)
    ensures
      var explained := && LossExplained(event, updates.fields, ClaimHashes, layer.meta.claimHashes)
                       && LossExplained(event, updates.fields, AuditReport, layer.meta.auditReport)
                       && LossExplained(event, updates.fields, ArtifactDigests, layer.meta.artifactDigests);
      && (Prepare(event).Err? ==> EditDirect(layer, event, updates) == Err(Prepare(event).error))
      && (Prepare(event).Ok? && !explained ==> EditDirect(layer, event, updates) == Err(UnexplainedMetadataChange))
      && (Prepare(event).Ok? && explained ==> EditDirect(layer, event, updates).Ok?)
  {
    ExplainedExact(layer.meta, event, updates.fields, ClaimHashes);
    ExplainedExact(layer.meta, event, updates.fields, AuditReport);
    ExplainedExact(layer.meta, event, updates.fields, ArtifactDigests);
    if Prepare(event).Ok? {
      var added := AppendOne(layer.events, event);
      assert added.Ok?;
    }
  }

  /** Accepted, it appends the prepared event unless its id is there, and assigns every update. */
  lemma DirectWrites(layer: Layer, event: Event, updates: Updates)
    requires EditDirect(layer, event, updates).Ok?
    ensures Prepare(event).Ok?
    ensures
      var done, stored := EditDirect(layer, event, updates).value, Prepare(event).value;
      && done.events == (if Known(layer.events, stored.eventId) then layer.events else layer.events + [stored])
      && done.queue == layer.queue
      && done.meta.claimHashes ==
           (if ClaimHashes in updates.fields then updates.fields[ClaimHashes] else layer.meta.claimHashes)
      && done.meta.auditReport ==
           (if AuditReport in updates.fields then updates.fields[AuditReport] else layer.meta.auditReport)
      && done.meta.artifactDigests ==
           (if ArtifactDigests in updates.fields then updates.fields[ArtifactDigests] else layer.meta.artifactDigests)
      && done.meta.findingAliases ==
           (match updates.aliases
            case None => layer.meta.findingAliases
            case Some(given) => if given.None? then map[] else given.value)
      && done.meta.updated == layer.meta.updated
      && MembersAssigned(layer.meta, updates.merkle, done.meta)
  {
    KnownIds(layer.events, Prepare(event).value.eventId);
  }

  // ---------- one step ----------

  /** A step is accepted if and only if the key it insists on is there, its edit goes through, the
      outcome is finalized unless only the queue changed, and the schema accepts it. */
  lemma StepAnswered(layer: Layer, step: Step)
    ensures
      var unprovisioned := && step.config.signingRequired && !step.config.keyProvisioned
                           && !step.AppendEvent? && !step.RestateDirectly? && !step.PatchMetadata? && !step.SignLayer?;
      var queueOnly := step.ResolveItem? || (step.SubmitBatch? && |step.events| == 0);
      && (unprovisioned ==> Apply(layer, step) == Err(SigningRequired))
      && (!unprovisioned && Edit(layer, step).Err? ==> Apply(layer, step) == Err(Edit(layer, step).error))
      && (!unprovisioned && Edit(layer, step).Ok? ==>
            var edited := Edit(layer, step).value;
            var done := if queueOnly then Ok(edited) else Finalize(edited, step.config);
            Apply(layer, step) == if done.Ok? && !step.config.schemaAccepts then Err(SchemaViolation) else done)
  {
  }
}
