/** The normalised database backend: one row per layer, one row per event, and the plain
    documents they stand for. */
module RowStore {
  import opened Wrappers
  import opened Events
  import opened Layers
  import opened Gates
  import opened Columns

  // ---------- documents and their records ----------

  /** A layer document; a member is None when its root key is absent. */
  datatype Document = Document(
    metadata: Option<Metadata>,
    events: Option<seq<Event>>,
    needsReview: Option<seq<ReviewItem>>,
    extensions: map<string, string>)

  /** Canonical JSON bytes; the encoding is injective, so bytes are the value they encode. */
  datatype Bytes<T> = Encoded(value: T)

  datatype RootKey = MetadataKey | EventsKey | NeedsReviewKey

  const EmptyMetadata := Metadata(None, None, None, None, None, None, None, None, None, Null, Null, Null, map[], None)

  datatype LayerRow = LayerRow(
    metadata: Bytes<Metadata>,
    needsReview: Bytes<seq<ReviewItem>>,
    extensions: Bytes<map<string, string>>,
    rootKeys: Bytes<set<RootKey>>,
    columns: LayerColumns,
    owner: string)

  datatype EventRow = EventRow(
    layerId: string,
    sequence: nat,
    eventId: EventId,
    columns: EventColumns,
    payload: Bytes<Event>)

  datatype StorageError =
    | OwnerRequired
    | InvalidDocument
    | NotInitialized
    | Conflict
    | IntegrityViolation
    | MutatorRaised

  function EventsOf(doc: Document): seq<Event> {
    if doc.events.Some? then doc.events.value else []
  }

  function RootKeys(doc: Document): set<RootKey> {
    (if doc.metadata.Some? then {MetadataKey} else {}) +
    (if doc.events.Some? then {EventsKey} else {}) +
    (if doc.needsReview.Some? then {NeedsReviewKey} else {})
  }

  /** `LayerRecord.layer_values`. */
  function ToRow(doc: Document, owner: string): LayerRow {
    var metadata := if doc.metadata.Some? then doc.metadata.value else EmptyMetadata;
    LayerRow(
      Encoded(metadata),
      Encoded(if doc.needsReview.Some? then doc.needsReview.value else []),
      Encoded(doc.extensions),
      Encoded(RootKeys(doc)),
      LayerColumnsOf(metadata),
      owner)
  }

  /** `StoredLayerRecord.reconstruct`: only the root keys that were present come back. */
  function Reconstruct(row: LayerRow, payloads: seq<Bytes<Event>>): Document {
    Document(
      if MetadataKey in row.rootKeys.value then Some(row.metadata.value) else None,
      if EventsKey in row.rootKeys.value
      then Some(seq(|payloads|, i requires 0 <= i < |payloads| => payloads[i].value)) else None,
      if NeedsReviewKey in row.rootKeys.value then Some(row.needsReview.value) else None,
      row.extensions.value)
  }

  function Payloads(events: seq<Event>): (payloads: seq<Bytes<Event>>)
    ensures |payloads| == |events|
  {
    seq(|events|, i requires 0 <= i < |events| => Encoded(events[i]))
  }

  /** Splitting a document into rows and reading it back is the identity. */
  lemma ReconstructRoundTrip(doc: Document, owner: string)
    ensures Reconstruct(ToRow(doc, owner), Payloads(EventsOf(doc))) == doc
  {
    var back := Reconstruct(ToRow(doc, owner), Payloads(EventsOf(doc)));
    if doc.events.Some? {
      assert back.events.value == doc.events.value;
    }
  }

  /** `EventRecord.from_document` accepts the event. */
  predicate HasId(event: Event) {
    event.eventId != Absent && event.eventId != OtherText("")
  }

  /** `LayerRecord.from_document` accepts the document. */
  predicate Recordable(doc: Document) {
    forall i :: 0 <= i < |EventsOf(doc)| ==> HasId(EventsOf(doc)[i])
  }

  /** What the unique (layer_id, event_id) constraint admits. */
  predicate UniqueIds(doc: Document) {
    forall i, j :: 0 <= i < j < |EventsOf(doc)| ==> EventsOf(doc)[i].eventId != EventsOf(doc)[j].eventId
  }

  // ---------- the specification: a map of documents ----------

  datatype Entry = Entry(document: Document, owner: string)

  type Catalog = map<string, Entry>

  /** A mutator returns the edited document or raises. */
  datatype Op =
    | Initialize(id: string, doc: Document, owner: Option<string>)
    | Import(id: string, doc: Document, owner: Option<string>, dryRun: bool)
    | Store(id: string, doc: Document)
    | Mutate(id: string, mutator: Document -> Option<Document>)

  datatype Outcome = Done | Skipped | WouldInsert | Inserted

  /** Refusals, skips and dry runs write nothing. */
  predicate Writes(result: Result<Outcome, StorageError>) {
    result == Ok(Done) || result == Ok(Inserted)
  }

  /** The surroundings a store runs in: schema validation, and the registered owners. */
  datatype Environment = Environment(schema: Document -> bool, registered: set<string>)

  predicate OwnerTaken(catalog: Catalog, owner: string) {
    exists id :: id in catalog && catalog[id].owner == owner
  }

  predicate ValidOwner(owner: Option<string>) {
    owner.Some? && !Blank(owner.value)
  }

  function Create(catalog: Catalog, env: Environment, id: string, doc: Document, owner: string): Result<Catalog,
      StorageError> {
    if OwnerTaken(catalog, owner) then Err(Conflict)
    else if !Recordable(doc) then Err(InvalidDocument)
    else if owner !in env.registered || !UniqueIds(doc) then Err(Conflict)
    else Ok(catalog[id := Entry(doc, owner)])
  }

  /** Replace a document; history may only be extended. */
  function Replace(catalog: Catalog, env: Environment, id: string, doc: Document): Result<Catalog, StorageError>
    requires id in catalog
  {
    if !env.schema(doc) || !Recordable(doc) then Err(InvalidDocument)
    else if !(EventsOf(catalog[id].document) <= EventsOf(doc)) then Err(Conflict)
    else if !UniqueIds(doc) then Err(IntegrityViolation)
    else Ok(catalog[id := catalog[id].(document := doc)])
  }

  function ApplyOp(catalog: Catalog, env: Environment, op: Op): Result<(Catalog, Outcome), StorageError> {
    match op
    case Initialize(id, doc, owner) =>
      if !ValidOwner(owner) then Err(OwnerRequired)
      else if !env.schema(doc) then Err(InvalidDocument)
      else if id in catalog then Err(Conflict)
      else
        (match Create(catalog, env, id, doc, owner.value)
         case Err(e) => Err(e)
         case Ok(next) => Ok((next, Done)))
    case Import(id, doc, owner, dryRun) =>
      if !ValidOwner(owner) then Err(OwnerRequired)
      else if !env.schema(doc) || !Recordable(doc) then Err(InvalidDocument)
      else if id in catalog then
        if catalog[id] != Entry(doc, owner.value) then Err(Conflict) else Ok((catalog, Skipped))
      else if dryRun then
        if OwnerTaken(catalog, owner.value) then Err(Conflict) else Ok((catalog, WouldInsert))
      else
        (match Create(catalog, env, id, doc, owner.value)
         case Err(e) => Err(e)
         case Ok(next) => Ok((next, Inserted)))
    case Store(id, doc) =>
      if !env.schema(doc) then Err(InvalidDocument)
      else if id !in catalog then Err(NotInitialized)
      else
        (match Replace(catalog, env, id, doc)
         case Err(e) => Err(e)
         case Ok(next) => Ok((next, Done)))
    case Mutate(id, mutator) =>
      if id !in catalog then Err(NotInitialized)
      else
        match mutator(catalog[id].document)
        case None => Err(MutatorRaised)
        case Some(doc) =>
          (match Replace(catalog, env, id, doc)
           case Err(e) => Err(e)
           case Ok(next) => Ok((next, Done)))
  }

  function NextCatalog(catalog: Catalog, env: Environment, op: Op): Catalog {
    match ApplyOp(catalog, env, op)
    case Ok((next, _)) => next
    case Err(_) => catalog
  }

  ghost function RunOps(catalog: Catalog, env: Environment, ops: seq<Op>): Catalog {
    if ops == [] then catalog else NextCatalog(RunOps(catalog, env, ops[..|ops| - 1]), env, ops[|ops| - 1])
  }

  /** One layer per owner. */
  predicate OwnersDistinct(catalog: Catalog) {
    forall a, b :: a in catalog && b in catalog && a != b ==> catalog[a].owner != catalog[b].owner
  }

  /** No layer disappears, no owner changes, and every history is extended only. */
  predicate Succeeds(earlier: Catalog, later: Catalog) {
    forall id :: id in earlier ==>
      && id in later && later[id].owner == earlier[id].owner
      && EventsOf(earlier[id].document) <= EventsOf(later[id].document)
  }

  lemma CreateKeeps(catalog: Catalog, env: Environment, id: string, doc: Document, owner: string)
    requires OwnersDistinct(catalog) && id !in catalog && Create(catalog, env, id, doc, owner).Ok?
    ensures OwnersDistinct(Create(catalog, env, id, doc, owner).value)
    ensures Succeeds(catalog, Create(catalog, env, id, doc, owner).value)
  {
  }

  lemma ReplaceKeeps(catalog: Catalog, env: Environment, id: string, doc: Document)
    requires OwnersDistinct(catalog) && id in catalog && Replace(catalog, env, id, doc).Ok?
    ensures OwnersDistinct(Replace(catalog, env, id, doc).value)
    ensures Succeeds(catalog, Replace(catalog, env, id, doc).value)
  {
  }

  lemma StepKeepsCatalog(catalog: Catalog, env: Environment, op: Op)
    requires OwnersDistinct(catalog)
    ensures OwnersDistinct(NextCatalog(catalog, env, op))
    ensures Succeeds(catalog, NextCatalog(catalog, env, op))
  {
    if ApplyOp(catalog, env, op).Ok? && NextCatalog(catalog, env, op) != catalog {
      match op {
        case Initialize(id, doc, owner) => CreateKeeps(catalog, env, id, doc, owner.value);
        case Import(id, doc, owner, _) => CreateKeeps(catalog, env, id, doc, owner.value);
        case Store(id, doc) => ReplaceKeeps(catalog, env, id, doc);
        case Mutate(id, mutator) => ReplaceKeeps(catalog, env, id, mutator(catalog[id].document).value);
      }
    }
  }

  lemma SucceedsTransitive(a: Catalog, b: Catalog, c: Catalog)
    requires Succeeds(a, b) && Succeeds(b, c)
    ensures Succeeds(a, c)
  {
  }

  /** Over any run of creations, imports, stores and mutations, refused or not. */
  lemma {:induction false} CatalogOverRuns(catalog: Catalog, env: Environment, ops: seq<Op>)
    requires OwnersDistinct(catalog)
    ensures OwnersDistinct(RunOps(catalog, env, ops))
    ensures Succeeds(catalog, RunOps(catalog, env, ops))
    decreases |ops|
  {
    if ops != [] {
      CatalogOverRuns(catalog, env, ops[..|ops| - 1]);
      var mid := RunOps(catalog, env, ops[..|ops| - 1]);
      StepKeepsCatalog(mid, env, ops[|ops| - 1]);
      SucceedsTransitive(catalog, mid, NextCatalog(mid, env, ops[|ops| - 1]));
    }
  }

  // ---------- the tables ----------

  function RowsOf(table: seq<EventRow>, id: string): seq<EventRow> {
    if table == [] then []
    else
      var last := table[|table| - 1];
      RowsOf(table[..|table| - 1], id) + if last.layerId == id then [last] else []
  }

  lemma {:induction false} RowsOfConcat(a: seq<EventRow>, b: seq<EventRow>, id: string)
    ensures RowsOf(a + b, id) == RowsOf(a, id) + RowsOf(b, id)
    decreases |b|
  {
    if b == [] {
      assert a + b == a;
    } else {
      assert (a + b)[..|a + b| - 1] == a + b[..|b| - 1];
      RowsOfConcat(a, b[..|b| - 1], id);
    }
  }

  function InsertBySequence(rows: seq<EventRow>, row: EventRow): seq<EventRow> {
    if rows == [] || rows[|rows| - 1].sequence <= row.sequence then rows + [row]
    else InsertBySequence(rows[..|rows| - 1], row) + [rows[|rows| - 1]]
  }

  /** `ORDER BY seq`. */
  function OrderBySequence(rows: seq<EventRow>): seq<EventRow> {
    if rows == [] then [] else InsertBySequence(OrderBySequence(rows[..|rows| - 1]), rows[|rows| - 1])
  }

  predicate Numbered(rows: seq<EventRow>) {
    forall i :: 0 <= i < |rows| ==> rows[i].sequence == i
  }

  lemma InsertAtEnd(rows: seq<EventRow>, row: EventRow)
    requires rows == [] || rows[|rows| - 1].sequence <= row.sequence
    ensures InsertBySequence(rows, row) == rows + [row]
  {
  }

  lemma {:induction false} NumberedIsOrdered(rows: seq<EventRow>)
    requires Numbered(rows)
    ensures OrderBySequence(rows) == rows
  {
    if rows != [] {
      var init, last := rows[..|rows| - 1], rows[|rows| - 1];
      assert Numbered(init);
      NumberedIsOrdered(init);
      InsertAtEnd(init, last);
      assert OrderBySequence(rows) == init + [last];
    }
  }

  function SelectPayloads(table: seq<EventRow>, id: string): seq<Bytes<Event>> {
    var rows := OrderBySequence(RowsOf(table, id));
    seq(|rows|, i requires 0 <= i < |rows| => rows[i].payload)
  }

  /** `new_event_values`: rows for the events from `offset` on. */
  function NewRows(id: string, events: seq<Event>, offset: nat): (rows: seq<EventRow>)
    requires offset <= |events|
    ensures |rows| == |events| - offset
  {
    seq(|events| - offset, i requires 0 <= i < |events| - offset =>
      EventRow(id, offset + i, events[offset + i].eventId, ColumnsOf(events[offset + i]), Encoded(events[offset + i])))
  }

  lemma {:induction false} RowsOfOneLayer(rows: seq<EventRow>, id: string, other: string)
    requires forall i :: 0 <= i < |rows| ==> rows[i].layerId == id
    ensures RowsOf(rows, other) == if other == id then rows else []
  {
    if rows != [] {
      RowsOfOneLayer(rows[..|rows| - 1], id, other);
      assert rows == rows[..|rows| - 1] + [rows[|rows| - 1]];
    }
  }

  /** The rows of one layer spell out `events`: numbered from 0, payload and id in place. */
  predicate Spells(table: seq<EventRow>, id: string, events: seq<Event>) {
    RowsOf(table, id) == NewRows(id, events, 0)
  }

  lemma SpellsSelects(table: seq<EventRow>, id: string, events: seq<Event>)
    requires Spells(table, id, events)
    ensures SelectPayloads(table, id) == Payloads(events)
    ensures Numbered(RowsOf(table, id))
  {
    NumberedIsOrdered(RowsOf(table, id));
  }

  lemma SpellsExtends(table: seq<EventRow>, id: string, events: seq<Event>, all: seq<Event>, other: string,
      theirs: seq<Event>)
    requires Spells(table, id, events) && events <= all
    requires other != id ==> Spells(table, other, theirs)
    ensures
      var next := table + NewRows(id, all, |events|);
      Spells(next, id, all) && (other != id ==> Spells(next, other, theirs))
  {
    var more := NewRows(id, all, |events|);
    RowsOfConcat(table, more, id);
    RowsOfConcat(table, more, other);
    RowsOfOneLayer(more, id, id);
    RowsOfOneLayer(more, id, other);
    NewRowsExtend(id, events, all);
  }

  lemma NewRowsExtend(id: string, events: seq<Event>, all: seq<Event>)
    requires events <= all
    ensures NewRows(id, events, 0) + NewRows(id, all, |events|) == NewRows(id, all, 0)
  {
  }

  // ---------- the backend ----------

  /** The history of a layer; empty when there is none. */
  function StoredEvents(catalog: Catalog, id: string): seq<Event> {
    if id in catalog then EventsOf(catalog[id].document) else []
  }

  /** Every layer row and its event rows are exactly the document catalogued. */
  ghost predicate Represents(layers: map<string, LayerRow>, events: seq<EventRow>, catalog: Catalog) {
    && layers.Keys == catalog.Keys
    && (forall id :: id in catalog ==> layers[id] == ToRow(catalog[id].document, catalog[id].owner))
    && (forall id :: Spells(events, id, StoredEvents(catalog, id)))
  }

  lemma {:induction false} RowsOfMember(table: seq<EventRow>, row: EventRow)
    requires row in table
    ensures row in RowsOf(table, row.layerId)
  {
    if row != table[|table| - 1] {
      assert row in table[..|table| - 1];
      RowsOfMember(table[..|table| - 1], row);
    }
  }

  /** Whatever was written, the query columns of every row are those of its payload, so a query
      for a projected value finds exactly the rows that hold the value. */
  lemma ColumnsFollowPayload(layers: map<string, LayerRow>, events: seq<EventRow>, catalog: Catalog, row: EventRow)
    requires Represents(layers, events, catalog) && row in events
    ensures row.columns == ColumnsOf(row.payload.value) && row.eventId == row.payload.value.eventId
    ensures forall id :: id in layers ==> layers[id].columns == LayerColumnsOf(layers[id].metadata.value)
    ensures forall ref :: row.columns.findingRef == Projected(Some(ref)) <==> row.payload.value.findingRef == ref
  {
    RowsOfMember(events, row);
    var stored := StoredEvents(catalog, row.layerId);
    assert Spells(events, row.layerId, stored);
    var i :| 0 <= i < |stored| && row == NewRows(row.layerId, stored, 0)[i];
    forall ref
      ensures row.columns.findingRef == Projected(Some(ref)) <==> row.payload.value.findingRef == ref
    {
      ProjectedInjective(Some(row.payload.value.findingRef), Some(ref));
    }
  }

  /** Writing one layer row and its new event rows stores exactly that document. */
  lemma PersistRepresents(layers: map<string, LayerRow>, events: seq<EventRow>, catalog: Catalog, id: string,
      entry: Entry)
    requires Represents(layers, events, catalog)
    requires StoredEvents(catalog, id) <= EventsOf(entry.document)
    ensures
      Represents(layers[id := ToRow(entry.document, entry.owner)],
                 events + NewRows(id, EventsOf(entry.document), |StoredEvents(catalog, id)|),
                 catalog[id := entry])
  {
    var stored := StoredEvents(catalog, id);
    var next, all := catalog[id := entry], EventsOf(entry.document);
    forall other
      ensures Spells(events + NewRows(id, all, |stored|), other, StoredEvents(next, other))
    {
      assert Spells(events, id, stored) && Spells(events, other, StoredEvents(catalog, other));
      SpellsExtends(events, id, stored, all, other, StoredEvents(catalog, other));
      if other != id {
        assert StoredEvents(next, other) == StoredEvents(catalog, other);
      }
    }
  }

  class DbBackend {
    const env: Environment
    var layers: map<string, LayerRow>
    var events: seq<EventRow>

    /** What the catalogue of documents is, for these tables. */
    ghost var catalog: Catalog

    ghost predicate Valid()
      reads this
    {
      OwnersDistinct(catalog) && Represents(layers, events, catalog)
    }

    constructor (env: Environment)
      ensures Valid() && catalog == map[] && this.env == env
    {
      this.env, layers, events, catalog := env, map[], [], map[];
    }

    /** Reconstruct a stored document; None when there is no such layer. */
    method Load(id: string) returns (doc: Option<Document>)
      requires Valid()
      ensures doc == if id in catalog then Some(catalog[id].document) else None
    {
      if id !in layers {
        return None;
      }
      SpellsSelects(events, id, StoredEvents(catalog, id));
      ReconstructRoundTrip(catalog[id].document, catalog[id].owner);
      return Some(Reconstruct(layers[id], SelectPayloads(events, id)));
    }

    /** Refuse removed or rewritten history, write the layer row, append the new event rows.
        A violated constraint rolls the transaction back. */
    method Persist(id: string, doc: Document, owner: string) returns (result: Result<(), StorageError>)
      requires Valid()
      requires id in catalog ==> owner == catalog[id].owner
      requires id !in catalog ==> !OwnerTaken(catalog, owner)
      requires Recordable(doc)
      modifies this
      ensures Valid()
      ensures result ==
        if id in old(catalog) && !(EventsOf(old(catalog[id].document)) <= EventsOf(doc)) then Err(Conflict)
        else if !UniqueIds(doc) || (id !in old(catalog) && owner !in env.registered) then Err(IntegrityViolation)
        else Ok(())
      ensures result.Err? ==> catalog == old(catalog) && layers == old(layers) && events == old(events)
      ensures result.Ok? ==> catalog == old(catalog)[id := Entry(doc, owner)]
    {
      ghost var stored := StoredEvents(catalog, id);
      SpellsSelects(events, id, stored);
      var storedPayloads := SelectPayloads(events, id);
      var incoming := Payloads(EventsOf(doc));
      if |incoming| < |storedPayloads| || incoming[..|storedPayloads|] != storedPayloads {
        assert !(stored <= EventsOf(doc)) by {
          PayloadPrefix(stored, EventsOf(doc));
        }
        return Err(Conflict);
      }
      PayloadPrefix(stored, EventsOf(doc));
      var offset := |storedPayloads|;
      if !UniqueIds(doc) || (id !in layers && owner !in env.registered) {
        return Err(IntegrityViolation);
      }
      PersistRepresents(layers, events, catalog, id, Entry(doc, owner));
      layers := layers[id := ToRow(doc, owner)];
      events := events + NewRows(id, EventsOf(doc), offset);
      catalog := catalog[id := Entry(doc, owner)];
      return Ok(());
    }

    /** The result a caller sees is the one the specification gives. */
    ghost predicate Reports(before: Catalog, op: Op, result: Result<Outcome, StorageError>) {
      match ApplyOp(before, env, op)
      case Ok((_, outcome)) => result == Ok(outcome)
      case Err(e) => result == Err(e)
    }

    /** Create a layer once; never replace one. */
    method Initialize(id: string, doc: Document, owner: Option<string>) returns (result: Result<Outcome, StorageError>)
      requires Valid()
      modifies this
      ensures Valid() && catalog == NextCatalog(old(catalog), env, Op.Initialize(id, doc, owner))
      ensures Reports(old(catalog), Op.Initialize(id, doc, owner), result)
      ensures !Writes(result) ==> layers == old(layers) && events == old(events)
    {
      if !ValidOwner(owner) {
        return Err(OwnerRequired);
      }
      if !env.schema(doc) {
        return Err(InvalidDocument);
      }
      if id in layers {
        return Err(Conflict);
      }
      var unowned := RequireUnowned(owner.value);
      if !unowned {
        return Err(Conflict);
      }
      if !Recordable(doc) {
        return Err(InvalidDocument);
      }
      var r := Persist(id, doc, owner.value);
      return if r.Ok? then Ok(Done) else Err(Conflict);
    }

    /** Copy history in; an exact rerun is skipped and a dry run writes nothing. */
    method ImportLayer(id: string, doc: Document, owner: Option<string>, dryRun: bool)
        returns (result: Result<Outcome, StorageError>)
      requires Valid()
      modifies this
      ensures Valid() && catalog == NextCatalog(old(catalog), env, Import(id, doc, owner, dryRun))
      ensures Reports(old(catalog), Import(id, doc, owner, dryRun), result)
      ensures !Writes(result) ==> layers == old(layers) && events == old(events)
    {
      if !ValidOwner(owner) {
        return Err(OwnerRequired);
      }
      if !env.schema(doc) || !Recordable(doc) {
        return Err(InvalidDocument);
      }
      var existing := Load(id);
      if existing.Some? {
        if existing.value != doc || layers[id].owner != owner.value {
          return Err(Conflict);
        }
        return Ok(Skipped);
      }
      var unowned := RequireUnowned(owner.value);
      if !unowned {
        return Err(Conflict);
      }
      if dryRun {
        return Ok(WouldInsert);
      }
      var r := Persist(id, doc, owner.value);
      return if r.Ok? then Ok(Inserted) else Err(Conflict);
    }

    /** Replace a document whose history only grows. */
    method StoreDocument(id: string, doc: Document) returns (result: Result<Outcome, StorageError>)
      requires Valid()
      modifies this
      ensures Valid() && catalog == NextCatalog(old(catalog), env, Store(id, doc))
      ensures Reports(old(catalog), Store(id, doc), result)
      ensures !Writes(result) ==> layers == old(layers) && events == old(events)
    {
      if !env.schema(doc) {
        return Err(InvalidDocument);
      }
      if id !in layers {
        return Err(NotInitialized);
      }
      if !Recordable(doc) {
        return Err(InvalidDocument);
      }
      var r := Persist(id, doc, layers[id].owner);
      return if r.Ok? then Ok(Done) else Err(r.error);
    }

    /** Load, edit and store under one lock; a raising mutator changes nothing. */
    method MutateDocument(id: string, mutator: Document -> Option<Document>)
        returns (result: Result<Outcome, StorageError>)
      requires Valid()
      modifies this
      ensures Valid() && catalog == NextCatalog(old(catalog), env, Mutate(id, mutator))
      ensures Reports(old(catalog), Mutate(id, mutator), result)
      ensures !Writes(result) ==> layers == old(layers) && events == old(events)
    {
      var existing := Load(id);
      if existing.None? {
        return Err(NotInitialized);
      }
      var edited := mutator(existing.value);
      if edited.None? {
        return Err(MutatorRaised);
      }
      if !env.schema(edited.value) || !Recordable(edited.value) {
        return Err(InvalidDocument);
      }
      var r := Persist(id, edited.value, layers[id].owner);
      return if r.Ok? then Ok(Done) else Err(r.error);
    }

    /** One layer per owner: no stored row claims it yet. */
    method RequireUnowned(owner: string) returns (unowned: bool)
      requires Valid()
      ensures unowned <==> !OwnerTaken(catalog, owner)
    {
      unowned := !exists id :: id in layers && layers[id].owner == owner;
      assert forall id :: id in layers <==> id in catalog;
      assert forall id :: id in catalog ==> layers[id].owner == catalog[id].owner;
    }
  }

  lemma PayloadPrefix(a: seq<Event>, b: seq<Event>)
    ensures a <= b <==> |a| <= |b| && Payloads(b)[..|a|] == Payloads(a)
  {
    if |a| <= |b| && Payloads(b)[..|a|] == Payloads(a) {
      forall i | 0 <= i < |a|
        ensures a[i] == b[i]
      {
        assert Payloads(b)[..|a|][i] == Payloads(a)[i];
      }
    }
  }
}
