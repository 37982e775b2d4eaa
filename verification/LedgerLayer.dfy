/** A loaded layer, edited in place the way the writer, the stamper and the client edit the
    layer dictionary.  Each method is proved against the value it should produce; on an
    error the caller discards the object, as the storage backend does. */
module LedgerLayers {
  import opened Wrappers
  import opened Events
  import opened Merkle
  import opened Layers
  import opened Restatements
  import opened Integrity
  import opened Gates
  import opened Writer
  import opened Handlers

  class LedgerLayer {
    var events: seq<Event>
    var metadata: Metadata
    var needsReview: seq<ReviewItem>

    function Contents(): (layer: Layer)
      reads this
    {
      Layer(events, metadata, needsReview)
    }

    constructor (layer: Layer)
      ensures Contents() == layer
    {
      events, metadata, needsReview := layer.events, layer.meta, layer.queue;
    }

    // ---------- stamping and signing ----------

    /** Recompute the Merkle fields; true when a stale signature was dropped. */
    method StampMerkleMetadata() returns (result: Result<bool, LedgerError>)
      modifies this`metadata
      ensures match Stamp(old(Contents()))
              case Err(e) => result == Err(e)
              case Ok((meta, dropped)) => result == Ok(dropped) && metadata == meta
    {
      if metadata.merkleEpoch.None? {
        metadata := metadata.(merkleEpoch := Some(0));
      }
      var epoch := metadata.merkleEpoch.value;
      if epoch < 0 {
        return Err(EpochOutOfRange);
      }
      if |events| == 0 {
        if epoch != 0 {
          return Err(EpochOutOfRange);
        }
      } else if epoch >= |events| {
        return Err(EpochOutOfRange);
      }
      if epoch > 0 {
        metadata := metadata.(checkpoint := Some(Checkpoint(events[..epoch])));
      } else {
        metadata := metadata.(checkpoint := None);
      }
      var priorRoot := metadata.merkleRoot;
      var postEpoch := events[epoch..];
      var root := MerkleRoot(postEpoch, LEAF_FORMAT_CURRENT);
      metadata := metadata.(merkleRoot := Some(root));
      metadata := metadata.(merkleSize := Some(|postEpoch|));
      metadata := metadata.(merkleAlgorithm := Some("sha256"));
      metadata := metadata.(leafFormat := Some(LEAF_FORMAT_CURRENT));
      if priorRoot.Some? && priorRoot.value != root {
        metadata := metadata.(rootSignature := None, signingMethod := None, signatureFormat := None);
        return Ok(true);
      }
      return Ok(false);
    }

    /** Sign the stamped metadata in place when a key is configured. */
    method SignIfConfigured(signer: Signer) returns (attempt: SignAttempt)
      modifies this`metadata
      ensures (metadata, attempt) == Sign(old(metadata), signer)
    {
      if signer.Unconfigured? {
        return NotConfigured;
      }
      if metadata.merkleRoot.None? || signer.Fails? {
        return AttemptFailed;
      }
      var payload := SignaturePayload(metadata, SIGNATURE_FORMAT_CURRENT);
      metadata := metadata.(rootSignature := Some(Signature(payload)));
      metadata := metadata.(signingMethod := Some(signer.scheme));
      metadata := metadata.(signatureFormat := Some(SIGNATURE_FORMAT_CURRENT));
      return Signed;
    }

    /** Stamp, sign, and refuse an unsigned outcome when a signature is required. */
    method FinalizeLayer(config: Config) returns (result: Result<Option<Digest>, LedgerError>)
      modifies this`metadata
      ensures match Finalize(old(Contents()), config)
              case Err(e) => result == Err(e)
              case Ok(layer) => result == Ok(layer.meta.merkleRoot) && Contents() == layer
    {
      var stamped := StampMerkleMetadata();
      if stamped.Err? {
        return Err(stamped.error);
      }
      var attempt := SignIfConfigured(config.signer);
      if config.signingRequired && attempt != Signed {
        return Err(SigningFailed);
      }
      return Ok(metadata.merkleRoot);
    }

    // ---------- appending ----------

    method AppendOneEvent(event: Event) returns (result: Result<EventId, LedgerError>)
      modifies this`events
      ensures match AppendOne(old(events), event)
              case Err(e) => result == Err(e) && events == old(events)
              case Ok((all, id)) => result == Ok(id) && events == all
    {
      var prepared := Prepare(event);
      if prepared.Err? {
        return Err(prepared.error);
      }
      var id := prepared.value.eventId;
      if id in IdsOf(events) {
        return Ok(id);
      }
      events := events + [prepared.value];
      return Ok(id);
    }

    /** The batch loop; an error part-way leaves the events appended so far. */
    method AppendManyEvents(incoming: seq<Event>) returns (result: Result<seq<EventId>, LedgerError>)
      modifies this`events
      ensures match AppendMany(old(events), incoming)
              case Err(e) => result == Err(e)
              case Ok((all, ids)) => result == Ok(ids) && events == all
    {
      var ids: seq<EventId> := [];
      var existingIds := IdsOf(events);
      ghost var whole := AppendMany(events, incoming);
      assert incoming[0..] == incoming && (whole.Ok? ==> ids + whole.value.1 == whole.value.1);
      for i := 0 to |incoming|
        invariant existingIds == IdsOf(events)
        invariant match AppendMany(events, incoming[i..])
                  case Err(e) => AppendMany(old(events), incoming) == Err(e)
                  case Ok((all, rest)) => AppendMany(old(events), incoming) == Ok((all, ids + rest))
      {
        assert incoming[i..][1..] == incoming[i + 1..];
        var prepared := Prepare(incoming[i]);
        if prepared.Err? {
          return Err(prepared.error);
        }
        var id := prepared.value.eventId;
        if id !in existingIds {
          ghost var before := ids;
          events := events + [prepared.value];
          existingIds := existingIds + {id};
          ids := ids + [id];
          ghost var tail := AppendMany(events, incoming[i + 1..]);
          assert tail.Ok? ==> before + ([id] + tail.value.1) == ids + tail.value.1;
        }
      }
      assert ids + [] == ids;
      return Ok(ids);
    }

    // ---------- the review queue ----------

    /** Queue items whose key is not yet taken; the number added. */
    method AppendNeedsReview(items: seq<ReviewItem>) returns (added: nat)
      modifies this`needsReview
      ensures needsReview == Enqueue(old(needsReview), items)
      ensures added == |needsReview| - |old(needsReview)|
    {
      var existingKeys := Keys(needsReview);
      added := 0;
      for i := 0 to |items|
        invariant existingKeys == Keys(needsReview)
        invariant Enqueue(needsReview, items[i..]) == Enqueue(old(needsReview), items)
        invariant added == |needsReview| - |old(needsReview)|
      {
        assert items[i..][1..] == items[i + 1..];
        var item := DefaultPending(items[i]);
        var key := KeyOf(item);
        if key !in existingKeys {
          needsReview := needsReview + [item];
          existingKeys := existingKeys + {key};
          added := added + 1;
        }
      }
    }

    /** Close the first pending item with the key; true if one changed. */
    method ResolveReviewItem(key: ReviewKey, status: ReviewStatus, note: Option<string>, actor: Option<Actor>)
      returns (result: Result<bool, LedgerError>)
      modifies this`needsReview
      ensures match Resolve(old(Contents()), key, status, note, actor)
              case Err(e) => result == Err(e) && needsReview == old(needsReview)
              case Ok((queue, changed)) => result == Ok(changed) && needsReview == queue
    {
      if status != ConfirmedItem && status != RejectedItem {
        return Err(InvalidStatus);
      }
      if status == RejectedItem && Blank(TextOrEmpty(note)) {
        return Err(NoteRequired);
      }
      var i := 0;
      while i < |needsReview| && !PendingMatch(needsReview[i], key)
        invariant 0 <= i <= |needsReview|
        invariant forall j :: 0 <= j < i ==> !PendingMatch(needsReview[j], key)
      {
        i := i + 1;
      }
      if i == |needsReview| {
        return Ok(false);
      }
      var target := needsReview[i];
      if status == ConfirmedItem && !(TruthyText(target.suggestedRef)
          && HasFinding(events, target.suggestedRef.value)) {
        return Err(NoSuchEvent);
      }
      target := target.(status := Some(status));
      if TruthyText(note) {
        target := target.(note := note);
      }
      if actor.Some? {
        target := target.(resolvedBy := actor);
      }
      needsReview := needsReview[i := target];
      return Ok(true);
    }

    // ---------- metadata ----------

    /** Assign the updates one field at a time; null removes the field. */
    method AssignFields(fields: map<Target, Json>)
      modifies this`metadata
      ensures metadata == ApplyUpdates(old(metadata), fields)
    {
      var todo := fields.Keys;
      while todo != {}
        invariant todo <= fields.Keys
        invariant metadata == ApplyUpdates(old(metadata), fields - todo)
        decreases todo
      {
        var target :| target in todo;
        metadata := WithField(metadata, target, fields[target]);
        todo := todo - {target};
      }
      assert fields - {} == fields;
    }

    /** Append a restatement and its effect; refuse any change the event does not explain. */
    method AppendRestatementEvent(event: Event, updates: Updates) returns (result: Result<EventId, LedgerError>)
      modifies this`events, this`metadata
      ensures match EditDirect(old(Contents()), event, updates)
              case Err(e) => result == Err(e)
              case Ok(layer) => result.Ok? && Contents() == layer
    {
      var snapshot := metadata;
      var appended := AppendOneEvent(event);
      if appended.Err? {
        return appended;
      }
      AssignFields(updates.fields);
      metadata := MerkleWritten(metadata, updates.merkle);
      metadata := metadata.(findingAliases := AssignAliases(metadata.findingAliases, updates.aliases));
      if !Covered(snapshot, metadata, event) {
        return Err(UnexplainedMetadataChange);
      }
      return appended;
    }

    /** Merge updates into the metadata, then refuse if a signed value was overwritten. */
    method PatchFields(updates: Updates, now: string) returns (result: Result<(), LedgerError>)
      modifies this`metadata
      ensures match EditPatch(old(Contents()), updates, now)
              case Err(e) => result == Err(e)
              case Ok(layer) => result == Ok(()) && Contents() == layer
    {
      var prior, fields := metadata, updates.fields;
      var todo := fields.Keys;
      while todo != {}
        invariant todo <= fields.Keys
        invariant metadata == FieldsPatched(prior, fields - todo)
        decreases todo
      {
        var target :| target in todo;
        metadata := WithField(metadata, target, PatchValue(Field(metadata, target), fields[target]));
        todo := todo - {target};
      }
      assert fields - {} == fields;
      metadata := MerkleWritten(metadata, updates.merkle);
      metadata := metadata.(findingAliases := PatchAliases(metadata.findingAliases, updates.aliases));
      if exists t: Target :: Destructive(Field(prior, t), Field(metadata, t)) {
        return Err(SignedValueOverwritten);
      }
      if updates.merkle.epoch == Some(None) {
        return Err(EpochUnreadable);
      }
      metadata := metadata.(updated := Some(now));
      return Ok(());
    }

    // ---------- gated edits ----------

    /** The countersign path: gates, identity, append. */
    method CountersignFinding(req: CountersignRequest) returns (result: Result<EventId, LedgerError>)
      modifies this`events
      ensures match EditCountersign(old(Contents()), req)
              case Err(e) => result == Err(e)
              case Ok(layer) => result.Ok? && Contents() == layer
    {
      var precheck := CountersignPrecheck(req);
      if precheck.Some? {
        return Err(precheck.value);
      }
      if RequireValidEpoch(Contents()).Some? {
        return Err(InvalidEpoch);
      }
      var gate := RequireTwoPerson(ParseAll(events), req.findingRef, TextOrEmpty(req.actor.identity),
          CountersignValidity(req));
      if gate.Some? {
        return Err(gate.value);
      }
      result := AppendOneEvent(CountersignEvent(Contents(), req));
    }

    /** The restatement path: request checks, then the gates on stored state, then the write. */
    method RestateField(req: RestateRequest) returns (result: Result<EventId, LedgerError>)
      modifies this`events, this`metadata
      ensures match EditRestate(old(Contents()), req)
              case Err(e) => result == Err(e)
              case Ok(layer) => result.Ok? && Contents() == layer
    {
      var precheck := RestatePrecheck(req);
      if precheck.Some? {
        return Err(precheck.value);
      }
      var gate := RestateGates(Contents(), req.block);
      if gate.Some? {
        return Err(gate.value);
      }
      var target := req.block.target;
      var merged := MergeDelta(Field(metadata, target), req.block.after);
      result := AppendRestatementEvent(BuildRestatementEvent(req), Updates(map[target := merged], None, NoMerkle));
    }

    /** The edit of any step. */
    method EditInPlace(step: Step) returns (result: Result<(), LedgerError>)
      modifies this
      ensures match Edit(old(Contents()), step)
              case Err(e) => result == Err(e)
              case Ok(layer) => result == Ok(()) && Contents() == layer
    {
      match step {
        case AppendEvent(event, _) =>
          var r := AppendOneEvent(event);
          return if r.Ok? then Ok(()) else Err(r.error);
        case SubmitBatch(incoming, items, _) =>
          var r := AppendManyEvents(incoming);
          if r.Err? {
            return Err(r.error);
          }
          var added := AppendNeedsReview(items);
          return Ok(());
        case Countersign(req, _) =>
          var r := CountersignFinding(req);
          return if r.Ok? then Ok(()) else Err(r.error);
        case Restate(req, _) =>
          var r := RestateField(req);
          return if r.Ok? then Ok(()) else Err(r.error);
        case RestateDirectly(event, updates, _) =>
          var r := AppendRestatementEvent(event, updates);
          return if r.Ok? then Ok(()) else Err(r.error);
        case PatchMetadata(updates, now, _) =>
          result := PatchFields(updates, now);
        case SignLayer(_) =>
          return Ok(());
        case ResolveItem(key, status, note, _) =>
          var r := ResolveReviewItem(key, status, note, None);
          return if r.Ok? then Ok(()) else Err(r.error);
      }
    }
  }

  /** One stored layer behind its lock. */
  class LayerStore {
    var stored: Layer

    constructor (layer: Layer)
      ensures stored == layer
    {
      stored := layer;
    }

    /** `Backend.mutate`: load, run the mutator, validate, store.  Any error, however far the
        mutator got, leaves the stored layer exactly as it was. */
    method Mutate(step: Step) returns (result: Result<(), LedgerError>)
      modifies this
      ensures stored == Next(old(stored), step)
      ensures result.Ok? <==> Apply(old(stored), step).Ok?
      ensures result.Err? ==> stored == old(stored) && Apply(old(stored), step) == Err(result.error)
    {
      if ChecksKeyFirst(step) && step.config.signingRequired && !step.config.keyProvisioned {
        return Err(SigningRequired);
      }
      var data := new LedgerLayer(stored);
      var edited := data.EditInPlace(step);
      if edited.Err? {
        return edited;
      }
      if Finalizes(step) {
        var finalized := data.FinalizeLayer(step.config);
        if finalized.Err? {
          return Err(finalized.error);
        }
      }
      if !step.config.schemaAccepts {
        return Err(SchemaViolation);
      }
      stored := data.Contents();
      return Ok(());
    }
  }
}
