/** Which storage operations are carried out, and what they leave, in terms of the stored documents. */
module CatalogAnswers {
  import opened Wrappers
  import opened Events
  import opened Gates
  import opened RowStore

  /** Every event has an id, and no two the same. */
  predicate Identified(doc: Document) {
    doc.events.Some? ==>
      var events := doc.events.value;
      && (forall i :: 0 <= i < |events| ==> events[i].eventId != Absent && events[i].eventId != OtherText(""))
      && (forall i, j :: 0 <= i < |events| && 0 <= j < |events| && i != j ==> events[i].eventId != events[j].eventId)
  }

  /** Nothing recorded is dropped or rewritten. */
  predicate Grows(earlier: Document, later: Document) {
    earlier.events.None? || earlier.events.value == [] ||
    (&& later.events.Some? && |earlier.events.value| <= |later.events.value|
     && forall i :: 0 <= i < |earlier.events.value| ==> earlier.events.value[i] == later.events.value[i])
  }

  predicate Unclaimed(catalog: Catalog, owner: string) {
    forall id :: id in catalog ==> catalog[id].owner != owner
  }

  predicate NamesOwner(owner: Option<string>) {
    owner.Some? && HasText(owner.value)
  }

  lemma IdentifiedExact(doc: Document)
    ensures Recordable(doc) && UniqueIds(doc) <==> Identified(doc)
  {
    if Recordable(doc) && UniqueIds(doc) && doc.events.Some? {
      var events := doc.events.value;
      forall i, j | 0 <= i < |events| && 0 <= j < |events| && i != j
        ensures events[i].eventId != events[j].eventId
      {
        var first, second := if i < j then i else j, if i < j then j else i;
        assert EventsOf(doc)[first].eventId != EventsOf(doc)[second].eventId;
      }
      forall i | 0 <= i < |events|
        ensures events[i].eventId != Absent && events[i].eventId != OtherText("")
      {
        assert HasId(EventsOf(doc)[i]);
      }
    }
  }

  lemma GrowsExact(earlier: Document, later: Document)
    ensures EventsOf(earlier) <= EventsOf(later) <==> Grows(earlier, later)
  {
  }

  lemma OwnerExact(owner: Option<string>)
    ensures ValidOwner(owner) <==> NamesOwner(owner)
  {
    assert owner.Some? ==> (Blank(owner.value) <==> !HasText(owner.value));
  }

  /** A layer is created if and only if somebody registered is named who has none, the id is free, and
      the document passes the schema with identified events; it is then stored as given. */
  lemma InitializeExact(catalog: Catalog, env: Environment, id: string, doc: Document, owner: Option<string>)
    ensures
      var accepted :=
        && NamesOwner(owner) && owner.value in env.registered && Unclaimed(catalog, owner.value)
        && id !in catalog && env.schema(doc) && Identified(doc);
      var result := ApplyOp(catalog, env, Initialize(id, doc, owner));
      && (result.Ok? <==> accepted)
      && (accepted ==> result == Ok((catalog[id := Entry(doc, owner.value)], Done)))
  {
    OwnerExact(owner);
    IdentifiedExact(doc);
  }

  /** An import of the very document stored under the same owner is skipped; a dry run says what would
      be inserted and stores nothing; otherwise it creates as above. */
  lemma ImportExact(catalog: Catalog, env: Environment, id: string, doc: Document, owner: Option<string>, dryRun: bool)
    ensures
      var result := ApplyOp(catalog, env, Import(id, doc, owner, dryRun));
      var readable := NamesOwner(owner) && env.schema(doc) && Recordable(doc);
      && (result == Ok((catalog, Skipped)) <==>
            readable && id in catalog && catalog[id].document == doc && catalog[id].owner == owner.value)
      && (result == Ok((catalog, WouldInsert)) <==>
            readable && id !in catalog && dryRun && Unclaimed(catalog, owner.value))
      && (result.Ok? && result.value.1 == Inserted <==>
            && readable && id !in catalog && !dryRun && Unclaimed(catalog, owner.value)
            && owner.value in env.registered && Identified(doc))
      && (result.Ok? && result.value.1 == Inserted ==> result.value.0 == catalog[id := Entry(doc, owner.value)])
      && (result.Ok? ==> result.value.1 in {Skipped, WouldInsert, Inserted})
  {
    OwnerExact(owner);
    IdentifiedExact(doc);
  }

  lemma ReplaceExact(catalog: Catalog, env: Environment, id: string, doc: Document)
    requires id in catalog
    ensures
      var accepted := env.schema(doc) && Identified(doc) && Grows(catalog[id].document, doc);
      && (Replace(catalog, env, id, doc).Ok? <==> accepted)
      && (accepted ==> Replace(catalog, env, id, doc) == Ok(catalog[id := Entry(doc, catalog[id].owner)]))
  {
    IdentifiedExact(doc);
    GrowsExact(catalog[id].document, doc);
  }

  /** A document is replaced if and only if it is stored, the new one passes the schema with identified
      events, and no event recorded is dropped or changed; the owner stays. */
  lemma StoreExact(catalog: Catalog, env: Environment, id: string, doc: Document)
    ensures
      var accepted := id in catalog && env.schema(doc) && Identified(doc) && Grows(catalog[id].document, doc);
      var result := ApplyOp(catalog, env, Store(id, doc));
      && (result.Ok? <==> accepted)
      && (accepted ==> result == Ok((catalog[id := Entry(doc, catalog[id].owner)], Done)))
  {
    if id in catalog {
      ReplaceExact(catalog, env, id, doc);
    }
  }

  /** A mutation is a store of what the mutator returns for the stored document, if it returns. */
  lemma MutateExact(catalog: Catalog, env: Environment, id: string, mutator: Document -> Option<Document>)
    requires id in catalog && mutator(catalog[id].document).Some?
    ensures ApplyOp(catalog, env, Mutate(id, mutator))
        == ApplyOp(catalog, env, Store(id, mutator(catalog[id].document).value))
  {
  }
}
