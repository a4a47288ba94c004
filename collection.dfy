/** The issue collection as the MongoDB driver presents it to the handlers:
    documents keyed by their `_id`, and the four operations the handlers call
    (`find(...).project(...).toArray`, `insertOne`, `updateOne`, `deleteOne`).
    A storage fault is an input flag; a faulted operation changes nothing. */
module Collection {
  import opened Values

  type Docs = map<ObjectId, Doc>

  /** Every stored document carries its own key as `_id`. */
  predicate IdsConsistent(docs: Docs)
  {
    forall id :: id in docs ==> Id in docs[id] && docs[id][Id] == Oid(id)
  }

  /** The ids of the documents a filter selects. */
  function MatchingIds(docs: Docs, filter: Doc): set<ObjectId>
  {
    set id | id in docs && Matches(docs[id], filter)
  }

  /** A filter that names one document by its ObjectId (the only kind the
      handlers pass to `updateOne` and `deleteOne`). */
  predicate ById(filter: Doc)
  {
    Id in filter && filter[Id].Oid?
  }

  /** The filter `{_id: ObjectID(id), project}` used by Update and Delete. */
  function IdFilter(id: ObjectId, project: string): (filter: Doc)
  {
    map[Id := Oid(id), Project := Str(project)]
  }

  /** `items` lists, in some order and each once, the documents of `docs`
      selected by `filter`, with the keys in `exclude` projected away;
      `ids` says which document each item came from. */
  ghost predicate Listed(docs: Docs, filter: Doc, exclude: set<Key>, ids: seq<ObjectId>, items: seq<Doc>)
  {
    && |ids| == |items|
    && (forall i :: 0 <= i < |ids| ==> ids[i] in MatchingIds(docs, filter) && items[i] == docs[ids[i]] - exclude)
    && (forall id :: id in MatchingIds(docs, filter) ==> id in ids)
    && (forall i, j :: 0 <= i < j < |ids| ==> ids[i] != ids[j])
  }

  /** The collection after a successful `insertOne(doc)` to which the driver
      gave the fresh id `newId`. */
  function AfterInsertOne(docs: Docs, doc: Doc, newId: ObjectId): (after: Docs)
    requires newId !in docs
    ensures after.Keys == docs.Keys + {newId}
    ensures IdsConsistent(docs) ==> IdsConsistent(after)
  {
    docs[newId := doc[Id := Oid(newId)]]
  }

  /** The collection after a successful `updateOne(filter, {$set: fields})`. */
  function AfterUpdateOne(docs: Docs, filter: Doc, fields: Doc): Docs
    requires ById(filter)
  {
    var id := filter[Id].id;
    if id in docs && Matches(docs[id], filter) then docs[id := docs[id] + fields] else docs
  }

  /** The collection after a successful `deleteOne(filter)`. */
  function AfterDeleteOne(docs: Docs, filter: Doc): Docs
    requires ById(filter)
  {
    var id := filter[Id].id;
    if id in docs && Matches(docs[id], filter) then docs - {id} else docs
  }

  /** A filter on `_id` selects at most the one document stored under that id,
      so "the first matching document" of `updateOne`/`deleteOne` is unambiguous. */
  lemma ByIdMatchesAtMostOne(docs: Docs, filter: Doc)
    requires IdsConsistent(docs) && ById(filter)
    ensures var id := filter[Id].id;
      MatchingIds(docs, filter) == if id in docs && Matches(docs[id], filter) then {id} else {}
  {
  }

  /** `{_id, project}` selects the document with that id exactly when it
      belongs to that project. */
  lemma IdFilterSelects(docs: Docs, id: ObjectId, project: string)
    requires IdsConsistent(docs)
    ensures MatchingIds(docs, IdFilter(id, project))
         == if id in docs && Get(docs[id], Project) == Str(project) then {id} else {}
  {
    var filter := IdFilter(id, project);
    ByIdMatchesAtMostOne(docs, filter);
    if id in docs {
      if Get(docs[id], Project) == Str(project) {
        forall key | key in filter
          ensures FieldMatches(docs[id], key, filter[key])
        {
        }
      } else {
        assert !FieldMatches(docs[id], Project, filter[Project]);
      }
    }
  }

  /** `updateOne` rewrites only the matched document, and in it only the keys
      it sets; every other document and every other key is unchanged. */
  lemma UpdateOneChangesOnlyMatch(docs: Docs, filter: Doc, fields: Doc)
    requires IdsConsistent(docs) && ById(filter) && Id !in fields
    ensures var after := AfterUpdateOne(docs, filter, fields);
      && after.Keys == docs.Keys
      && IdsConsistent(after)
      && (forall j :: j in docs && j !in MatchingIds(docs, filter) ==> after[j] == docs[j])
      && (forall j :: j in MatchingIds(docs, filter) ==>
            after[j].Keys == docs[j].Keys + fields.Keys
            && (forall key :: key in fields ==> after[j][key] == fields[key])
            && (forall key :: key in docs[j] && key !in fields ==> after[j][key] == docs[j][key]))
  {
  }

  /** `deleteOne` removes exactly the documents the filter selects. */
  lemma DeleteOneRemovesMatches(docs: Docs, filter: Doc)
    requires IdsConsistent(docs) && ById(filter)
    ensures AfterDeleteOne(docs, filter) == docs - MatchingIds(docs, filter)
    ensures IdsConsistent(AfterDeleteOne(docs, filter))
  {
  }

  /** Once deleted, a document is selected by no later query, and nothing
      else becomes selected. */
  lemma DeletedIsNeverFound(docs: Docs, filter: Doc, query: Doc)
    requires ById(filter) && filter[Id].id in MatchingIds(docs, filter)
    ensures filter[Id].id !in MatchingIds(AfterDeleteOne(docs, filter), query)
    ensures MatchingIds(AfterDeleteOne(docs, filter), query) <= MatchingIds(docs, query)
  {
  }

  /** Repeating a `deleteOne` changes nothing more. */
  lemma DeleteOneIdempotent(docs: Docs, filter: Doc)
    requires ById(filter)
    ensures AfterDeleteOne(AfterDeleteOne(docs, filter), filter) == AfterDeleteOne(docs, filter)
  {
  }

  class IssueCollection {
    var docs: Docs

    ghost predicate Valid()
      reads this
    {
      IdsConsistent(docs)
    }

    constructor ()
      ensures Valid() && docs == map[]
    {
      docs := map[];
    }

    /** `find(filter).project(p).toArray(cb)`, where `p` sets each key of
        `exclude` to 0: every selected document once, in an order the store
        chooses, with the excluded keys removed. */
    method Find(filter: Doc, exclude: set<Key>, fault: bool)
      returns (err: bool, items: seq<Doc>, ghost ids: seq<ObjectId>)
      ensures err == fault
      ensures !err ==> Listed(docs, filter, exclude, ids, items)
    {
      err, items, ids := fault, [], [];
      if err {
        return;
      }
      var remaining := docs.Keys;
      while remaining != {}
        invariant remaining <= docs.Keys
        invariant |ids| == |items|
        invariant forall i :: 0 <= i < |ids| ==>
          ids[i] !in remaining && ids[i] in MatchingIds(docs, filter) && items[i] == docs[ids[i]] - exclude
        invariant forall id :: id in MatchingIds(docs, filter) && id !in remaining ==> id in ids
        invariant forall i, j :: 0 <= i < j < |ids| ==> ids[i] != ids[j]
        decreases remaining
      {
        var id :| id in remaining;
        if Matches(docs[id], filter) {
          items, ids := items + [docs[id] - exclude], ids + [id];
        }
        remaining := remaining - {id};
      }
    }

    /** `insertOne(doc)`: the driver gives the document the fresh id `newId`;
        an id already in use is a duplicate-key error. */
    method InsertOne(doc: Doc, newId: ObjectId, fault: bool) returns (err: bool, inserted: Doc)
      requires Valid() && Id !in doc
      modifies this
      ensures Valid()
      ensures err <==> fault || newId in old(docs)
      ensures inserted == doc[Id := Oid(newId)]
      ensures docs == if err then old(docs) else AfterInsertOne(old(docs), doc, newId)
    {
      inserted := doc[Id := Oid(newId)];
      err := fault || newId in docs;
      if !err {
        docs := docs[newId := inserted];
      }
    }

    /** `updateOne(filter, {$set: fields})`. Matching no document is not an error. */
    method UpdateOne(filter: Doc, fields: Doc, fault: bool) returns (err: bool)
      requires Valid() && ById(filter) && Id !in fields
      modifies this
      ensures Valid()
      ensures err == fault
      ensures docs == if err then old(docs) else AfterUpdateOne(old(docs), filter, fields)
    {
      err := fault;
      if !err {
        UpdateOneChangesOnlyMatch(docs, filter, fields);
        var id := filter[Id].id;
        if id in docs && Matches(docs[id], filter) {
          docs := docs[id := docs[id] + fields];
        }
      }
    }

    /** `deleteOne(filter)`. Matching no document is not an error. */
    method DeleteOne(filter: Doc, fault: bool) returns (err: bool)
      requires Valid() && ById(filter)
      modifies this
      ensures Valid()
      ensures err == fault
      ensures docs == if err then old(docs) else AfterDeleteOne(old(docs), filter)
    {
      err := fault;
      if !err {
        DeleteOneRemovesMatches(docs, filter);
        var id := filter[Id].id;
        if id in docs && Matches(docs[id], filter) {
          docs := docs - {id};
        }
      }
    }
  }
}
