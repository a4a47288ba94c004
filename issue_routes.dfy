/** The four handlers of `/api/issues/:project` (List, Create, Update,
    Delete) over the shared issue collection. Each returns the HTTP status
    and the JSON payload it would send. `ObjectID.isValid` and the
    `ObjectID(...)` constructor are the parameters `isValid` and
    `toObjectId`; the clock, the id the driver assigns and storage faults
    are parameters too. */
module IssueRoutes {
  import opened Values
  import opened Collection
  import opened IssueRules

  const DATABASE_ERROR := "Database error"
  const REQUIRED_MISSING := "required field(s) missing"
  const MISSING_ID := "missing _id"
  const COULD_NOT_UPDATE := "could not update"
  const NO_UPDATE_FIELDS := "no update field(s) sent"
  const UPDATED := "successfully updated"
  const COULD_NOT_DELETE := "could not delete"
  const DELETED := "successfully deleted"

  /** The JSON bodies the handlers send. */
  datatype Payload =
    | Issues(items: seq<Doc>)              // an array of issues
    | Issue(doc: Doc)                      // one issue
    | Error(error: string)                 // {error}
    | ErrorWithId(error: string, id: Value) // {error, _id}
    | Result(result: string, id: Value)    // {result, _id}

  datatype Response = Response(status: int, payload: Payload)

  /** A stored issue keeps a string `project`, its `created_on`, truthy
      required fields, and no `undefined` field. */
  ghost predicate IssueWellFormed(doc: Doc)
  {
    Project in doc && doc[Project].Str? && CreatedOn in doc && RequiredPresent(doc) && NoUndefined(doc)
  }

  ghost predicate IssuesWellFormed(docs: Docs)
  {
    forall id :: id in docs ==> IssueWellFormed(docs[id])
  }

  /** The `_id` of a PUT or DELETE body. */
  function IdOf(body: Doc): Value
  {
    Get(body, Id)
  }

  /** The two `_id` checks shared by Update and Delete, in the handlers'
      order: `None` lets the request through, `Some(p)` answers `p`. */
  function CheckId(id: Value, isValid: Value -> bool, failure: string): (rejection: Option<Payload>)
    ensures rejection == None <==> Truthy(id) && isValid(id)
    ensures !Truthy(id) ==> rejection == Some(Error(MISSING_ID))
    ensures Truthy(id) && !isValid(id) ==> rejection == Some(ErrorWithId(failure, id))
  {
    if !Truthy(id) then Some(Error(MISSING_ID))
    else if !isValid(id) then Some(ErrorWithId(failure, id))
    else None
  }

  // ---------------------------------------------------------------------------
  // GET

  /** List: every issue of the project that agrees with the query, each once,
      without its `project` field; a storage fault answers 500. */
  method List(db: IssueCollection, project: string, query: Doc, fault: bool)
    returns (r: Response, ghost ids: seq<ObjectId>)
    ensures fault ==> r == Response(500, Error(DATABASE_ERROR))
    ensures !fault ==>
      && r.status == 200 && r.payload.Issues?
      && Listed(db.docs, ListFilter(project, query), {Project}, ids, r.payload.items)
      && (forall i :: 0 <= i < |ids| ==>
            Get(db.docs[ids[i]], Project) == Str(project) && Project !in r.payload.items[i])
  {
    var filter := BuildListFilter(project, query);
    var err, items;
    err, items, ids := db.Find(filter, {Project}, fault);
    if err {
      r := Response(500, Error(DATABASE_ERROR));
      return;
    }
    r := Response(200, Issues(items));
    forall i | 0 <= i < |ids|
      ensures Get(db.docs[ids[i]], Project) == Str(project)
    {
      assert FieldMatches(db.docs[ids[i]], Project, filter[Project]);
    }
  }

  // ---------------------------------------------------------------------------
  // POST

  /** Create: refuses a body missing a required field, otherwise inserts
      `NewIssue` under the id the driver assigns and answers the inserted
      document without `project`. */
  method Create(db: IssueCollection, project: string, body: Doc,
                createdOn: int, updatedOn: int, newId: ObjectId, fault: bool)
    returns (r: Response)
    requires db.Valid() && IssuesWellFormed(db.docs)
    modifies db
    ensures db.Valid() && IssuesWellFormed(db.docs)
    ensures MissingRequired(body) ==>
      r == Response(200, Error(REQUIRED_MISSING)) && db.docs == old(db.docs)
    ensures !MissingRequired(body) && (fault || newId in old(db.docs)) ==>
      r == Response(500, Error(DATABASE_ERROR)) && db.docs == old(db.docs)
    ensures !MissingRequired(body) && !fault && newId !in old(db.docs) ==>
      && db.docs == AfterInsertOne(old(db.docs), NewIssue(project, body, createdOn, updatedOn), newId)
      && r == Response(200, Issue(db.docs[newId] - {Project}))
  {
    var issue := NewIssue(project, body, createdOn, updatedOn);
    if MissingRequired(body) {
      r := Response(200, Error(REQUIRED_MISSING));
      return;
    }
    assert IssueWellFormed(issue[Id := Oid(newId)]);
    var err, inserted := db.InsertOne(issue, newId, fault);
    if err {
      r := Response(500, Error(DATABASE_ERROR));
      return;
    }
    r := Response(200, Issue(inserted - {Project}));
  }

  /** What Create answers: every stored field but `project`, plus the `_id`. */
  lemma CreatedResponseFields(project: string, body: Doc, createdOn: int, updatedOn: int, newId: ObjectId)
    ensures var shown := NewIssue(project, body, createdOn, updatedOn)[Id := Oid(newId)] - {Project};
      && shown.Keys == ISSUE_FIELDS - {Project} + {Id}
      && shown[Id] == Oid(newId)
      && (forall key :: key in REQUIRED_FIELDS ==> shown[key] == Get(body, key))
      && shown[Open] == Bool(true)
  {
  }

  /** A created issue is listed by every query of its project whose supplied
      text fields equal the stored ones and whose `open`, if given, is "true". */
  lemma CreatedIssueIsListed(project: string, body: Doc, createdOn: int, updatedOn: int,
                             newId: ObjectId, query: Doc)
    requires forall key :: key in TEXT_FIELDS && Get(query, key) != Undefined ==>
      Get(query, key) == NewIssue(project, body, createdOn, updatedOn)[key]
    requires OpenGiven(query) ==> Get(query, Open) == Str("true")
    ensures Matches(NewIssue(project, body, createdOn, updatedOn)[Id := Oid(newId)], ListFilter(project, query))
  {
    var issue := NewIssue(project, body, createdOn, updatedOn);
    var stored := issue[Id := Oid(newId)];
    forall key | key in TEXT_FIELDS && Get(query, key) != Undefined
      ensures Get(stored, key) == Get(query, key)
    {
      assert stored[key] == issue[key];
    }
    AgreeingIssueIsListed(stored, project, query);
  }

  /** An issue of the project that holds every supplied text field of the
      query, and is open when the query asks for `open=true`, is listed. */
  lemma AgreeingIssueIsListed(doc: Doc, project: string, query: Doc)
    requires Get(doc, Project) == Str(project)
    requires forall key :: key in TEXT_FIELDS && Get(query, key) != Undefined ==> Get(doc, key) == Get(query, key)
    requires OpenGiven(query) ==> Get(query, Open) == Str("true") && Get(doc, Open) == Bool(true)
    ensures Matches(doc, ListFilter(project, query))
  {
  }

  // ---------------------------------------------------------------------------
  // PUT

  /** Update: the `_id` checks, then the empty-update check, then `$set` of
      the supplied fields and `updated_on` on the issue with that id in this
      project. Success does not depend on whether an issue matched. */
  method Update(db: IssueCollection, project: string, body: Doc,
                isValid: Value -> bool, toObjectId: Value -> ObjectId, now: int, fault: bool)
    returns (r: Response)
    requires db.Valid() && IssuesWellFormed(db.docs)
    modifies db
    ensures db.Valid() && IssuesWellFormed(db.docs)
    ensures !Truthy(IdOf(body)) ==>
      r == Response(200, Error(MISSING_ID)) && db.docs == old(db.docs)
    ensures Truthy(IdOf(body)) && !isValid(IdOf(body)) ==>
      r == Response(200, ErrorWithId(COULD_NOT_UPDATE, IdOf(body))) && db.docs == old(db.docs)
    ensures Truthy(IdOf(body)) && isValid(IdOf(body)) && |UpdateFields(body)| == 0 ==>
      r == Response(200, ErrorWithId(NO_UPDATE_FIELDS, IdOf(body))) && db.docs == old(db.docs)
    ensures Truthy(IdOf(body)) && isValid(IdOf(body)) && |UpdateFields(body)| != 0 && fault ==>
      r == Response(200, ErrorWithId(COULD_NOT_UPDATE, IdOf(body))) && db.docs == old(db.docs)
    ensures Truthy(IdOf(body)) && isValid(IdOf(body)) && |UpdateFields(body)| != 0 && !fault ==>
      && r == Response(200, Result(UPDATED, IdOf(body)))
      && db.docs == AfterUpdateOne(old(db.docs), IdFilter(toObjectId(IdOf(body)), project),
                                   UpdateSet(body, now))
  {
    var id := IdOf(body);
    var rejection := CheckId(id, isValid, COULD_NOT_UPDATE);
    if rejection.Some? {
      r := Response(200, rejection.value);
      return;
    }
    var fields := BuildUpdateFields(body);
    if |fields| == 0 {
      r := Response(200, ErrorWithId(NO_UPDATE_FIELDS, id));
      return;
    }
    fields := fields[UpdatedOn := Date(now)];
    UpdateChangesOnlyThatIssue(db.docs, project, toObjectId(id), body, now);
    var err := db.UpdateOne(IdFilter(toObjectId(id), project), fields, fault);
    if err {
      r := Response(200, ErrorWithId(COULD_NOT_UPDATE, id));
      return;
    }
    r := Response(200, Result(UPDATED, id));
  }

  /** The `$set` a successful Update sends: the supplied fields and `updated_on`. */
  function UpdateSet(body: Doc, now: int): (fields: Doc)
    ensures Id !in fields && Project !in fields && CreatedOn !in fields
    ensures NoUndefined(fields)
  {
    UpdateFields(body)[UpdatedOn := Date(now)]
  }

  /** `$set` on one issue: the supplied fields take the body's values,
      `updated_on` the clock's, and every other field, `_id`, `project` and
      `created_on` among them, keeps its value. */
  lemma SetOnIssue(doc: Doc, body: Doc, now: int)
    requires IssueWellFormed(doc)
    ensures var after := doc + UpdateSet(body, now);
      && after.Keys == doc.Keys + UpdateFields(body).Keys + {UpdatedOn}
      && (forall key :: key in UpdateFields(body) ==> after[key] == Get(body, key))
      && after[UpdatedOn] == Date(now)
      && (forall key :: key in doc && key !in UpdateFields(body) && key != UpdatedOn ==> after[key] == doc[key])
      && after[Project] == doc[Project] && after[CreatedOn] == doc[CreatedOn]
      && (Id in doc ==> after[Id] == doc[Id])
      && NoUndefined(after)
  {
    var supplied := UpdateFields(body);
    assert UpdatedOn !in supplied;
  }

  /** Adding `updated_on` to the set does not disturb the required fields. */
  lemma UpdateSetKeepsRequired(doc: Doc, body: Doc, now: int)
    requires RequiredPresent(doc)
    ensures RequiredPresent(doc + UpdateSet(body, now))
  {
    UpdateKeepsRequired(doc, body);
    var after := doc + UpdateSet(body, now);
    forall key | key in REQUIRED_FIELDS
      ensures Get(after, key) == Get(doc + UpdateFields(body), key)
    {
      assert key != UpdatedOn;
    }
  }

  /** A successful Update rewrites only the issue with that id in that
      project; no other issue changes, and every issue stays well formed. */
  lemma UpdateChangesOnlyThatIssue(docs: Docs, project: string, oid: ObjectId, body: Doc, now: int)
    requires IdsConsistent(docs) && IssuesWellFormed(docs)
    ensures var after := AfterUpdateOne(docs, IdFilter(oid, project), UpdateSet(body, now));
      && IdsConsistent(after) && IssuesWellFormed(after)
      && after == if oid in docs && Get(docs[oid], Project) == Str(project)
                  then docs[oid := docs[oid] + UpdateSet(body, now)]
                  else docs
  {
    var fields := UpdateSet(body, now);
    var filter := IdFilter(oid, project);
    IdFilterSelects(docs, oid, project);
    UpdateOneChangesOnlyMatch(docs, filter, fields);
    if oid in docs && Get(docs[oid], Project) == Str(project) {
      assert oid in MatchingIds(docs, filter);
      SetOnIssue(docs[oid], body, now);
      UpdateSetKeepsRequired(docs[oid], body, now);
    } else {
      assert oid !in MatchingIds(docs, filter);
    }
  }

  /** Update stores `open` as sent, but List compares `open` against a
      boolean: once `open` is set to a string, no List query giving `open`
      finds the issue. */
  lemma StringOpenNeverListed(doc: Doc, body: Doc, now: int, project: string, query: Doc)
    requires Get(body, Open).Str? && OpenGiven(query)
    ensures !Matches(doc + UpdateSet(body, now), ListFilter(project, query))
  {
    var after := doc + UpdateSet(body, now);
    var filter := ListFilter(project, query);
    assert after[Open] == Get(body, Open);
    assert !FieldMatches(after, Open, filter[Open]);
  }

  // ---------------------------------------------------------------------------
  // DELETE

  /** Delete: the `_id` checks, then removal of the issue with that id in
      this project. Success does not depend on whether an issue matched. */
  method Delete(db: IssueCollection, project: string, body: Doc,
                isValid: Value -> bool, toObjectId: Value -> ObjectId, fault: bool)
    returns (r: Response)
    requires db.Valid() && IssuesWellFormed(db.docs)
    modifies db
    ensures db.Valid() && IssuesWellFormed(db.docs)
    ensures !Truthy(IdOf(body)) ==>
      r == Response(200, Error(MISSING_ID)) && db.docs == old(db.docs)
    ensures Truthy(IdOf(body)) && !isValid(IdOf(body)) ==>
      r == Response(200, ErrorWithId(COULD_NOT_DELETE, IdOf(body))) && db.docs == old(db.docs)
    ensures Truthy(IdOf(body)) && isValid(IdOf(body)) && fault ==>
      r == Response(200, ErrorWithId(COULD_NOT_DELETE, IdOf(body))) && db.docs == old(db.docs)
    ensures Truthy(IdOf(body)) && isValid(IdOf(body)) && !fault ==>
      && r == Response(200, Result(DELETED, IdOf(body)))
      && db.docs == AfterDeleteOne(old(db.docs), IdFilter(toObjectId(IdOf(body)), project))
  {
    var id := IdOf(body);
    var rejection := CheckId(id, isValid, COULD_NOT_DELETE);
    if rejection.Some? {
      r := Response(200, rejection.value);
      return;
    }
    var err := db.DeleteOne(IdFilter(toObjectId(id), project), fault);
    if err {
      r := Response(200, ErrorWithId(COULD_NOT_DELETE, id));
      return;
    }
    r := Response(200, Result(DELETED, id));
  }

  /** A successful Delete removes the issue with that id when it belongs to
      the project, and nothing else. */
  lemma DeleteRemovesOnlyThatIssue(docs: Docs, project: string, oid: ObjectId)
    requires IdsConsistent(docs) && IssuesWellFormed(docs)
    ensures AfterDeleteOne(docs, IdFilter(oid, project))
         == if oid in docs && Get(docs[oid], Project) == Str(project) then docs - {oid} else docs
    ensures IssuesWellFormed(AfterDeleteOne(docs, IdFilter(oid, project)))
  {
    IdFilterSelects(docs, oid, project);
    DeleteOneRemovesMatches(docs, IdFilter(oid, project));
  }
}
