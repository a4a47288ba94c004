/** The validation and construction rules of the `/api/issues/:project`
    handlers: the List filter, the Create record and its required fields,
    the `_id` checks and the Update set. */
module IssueRules {
  import opened Values

  /** The five free-text fields of an issue. */
  const TEXT_FIELDS: set<Key> := {IssueTitle, IssueText, CreatedBy, AssignedTo, StatusText}

  /** The text fields Create refuses to do without. */
  const REQUIRED_FIELDS: set<Key> := {IssueTitle, IssueText, CreatedBy}

  /** The text fields Create defaults to the empty string. */
  const DEFAULTED_FIELDS: set<Key> := {AssignedTo, StatusText}

  /** Every key Create stores besides `_id`. */
  const ISSUE_FIELDS: set<Key> := TEXT_FIELDS + {Project, Open, CreatedOn, UpdatedOn}

  // ---------------------------------------------------------------------------
  // List

  /** GET's `open` parameter is used when it is neither `undefined`, `null` nor `''`. */
  predicate OpenGiven(query: Doc)
  {
    Get(query, Open) != Undefined && Get(query, Open) != Null && Get(query, Open) != Str("")
  }

  /** The equality filter List sends to `find`: the project, every text field
      the query supplies, and `open` coerced to a boolean. */
  function ListFilter(project: string, query: Doc): (filter: Doc)
    ensures Project in filter && filter[Project] == Str(project)
    ensures forall key :: key in TEXT_FIELDS ==> (key in filter <==> Get(query, key) != Undefined)
    ensures forall key :: key in TEXT_FIELDS && key in filter ==> filter[key] == Get(query, key)
    ensures Open in filter <==> OpenGiven(query)
    ensures Open in filter ==> (filter[Open] == Bool(true) <==> Get(query, Open) == Str("true"))
    ensures Open in filter ==> filter[Open].Bool?
    ensures filter.Keys <= TEXT_FIELDS + {Project, Open}
    ensures NoUndefined(filter)
  {
    map[Project := Str(project)]
    + (map key | key in TEXT_FIELDS && Get(query, key) != Undefined :: Get(query, key))
    + (if OpenGiven(query) then map[Open := Bool(Get(query, Open) == Str("true"))] else map[])
  }

  /** Builds List's filter as the handler does: an object literal holding the
      project and the five text fields (some possibly `undefined`), `open`
      added when given, then every `undefined` key deleted in a pass over
      the object's keys. */
  method BuildListFilter(project: string, query: Doc) returns (filter: Doc)
    ensures filter == ListFilter(project, query)
  {
    filter := map[
      Project := Str(project),
      IssueTitle := Get(query, IssueTitle),
      IssueText := Get(query, IssueText),
      CreatedBy := Get(query, CreatedBy),
      AssignedTo := Get(query, AssignedTo),
      StatusText := Get(query, StatusText)
    ];
    assert filter.Keys == TEXT_FIELDS + {Project};
    assert forall key :: key in TEXT_FIELDS ==> filter[key] == Get(query, key);
    if OpenGiven(query) {
      if Get(query, Open) == Str("true") {
        filter := filter[Open := Bool(true)];
      } else {
        filter := filter[Open := Bool(false)];
      }
    }
    ghost var literal := filter;
    var keys := filter.Keys;
    while keys != {}
      invariant keys <= literal.Keys
      invariant forall key :: key in filter <==> key in literal && (key in keys || literal[key] != Undefined)
      invariant forall key :: key in filter ==> filter[key] == literal[key]
      decreases keys
    {
      var key :| key in keys;
      if filter[key] == Undefined {
        filter := filter - {key};
      }
      keys := keys - {key};
    }
    CleanedQueryIsListFilter(project, query, literal, filter);
  }

  /** The query object of List, once its `undefined` keys are gone, is the
      filter `ListFilter` describes. */
  lemma CleanedQueryIsListFilter(project: string, query: Doc, literal: Doc, filter: Doc)
    requires literal.Keys == TEXT_FIELDS + {Project} + (if OpenGiven(query) then {Open} else {})
    requires literal[Project] == Str(project)
    requires forall key :: key in TEXT_FIELDS ==> literal[key] == Get(query, key)
    requires OpenGiven(query) ==> literal[Open] == Bool(Get(query, Open) == Str("true"))
    requires forall key :: key in filter <==> key in literal && literal[key] != Undefined
    requires forall key :: key in filter ==> filter[key] == literal[key]
    ensures filter == ListFilter(project, query)
  {
    var spec := ListFilter(project, query);
    assert forall key :: key in filter <==> key in spec;
  }

  /** A document is listed exactly when it belongs to the project and agrees
      with every supplied query field: several fields select the intersection
      of what each selects alone. */
  lemma ListFilterMatches(doc: Doc, project: string, query: Doc)
    ensures Matches(doc, ListFilter(project, query)) <==>
      && FieldMatches(doc, Project, Str(project))
      && (forall key :: key in TEXT_FIELDS && Get(query, key) != Undefined ==> FieldMatches(doc, key, Get(query, key)))
      && (OpenGiven(query) ==> FieldMatches(doc, Open, Bool(Get(query, Open) == Str("true"))))
  {
  }

  // ---------------------------------------------------------------------------
  // Create

  /** Create's required-field check: some required field is falsy. */
  predicate MissingRequired(body: Doc)
  {
    !Truthy(Get(body, IssueTitle)) || !Truthy(Get(body, IssueText)) || !Truthy(Get(body, CreatedBy))
  }

  /** Every required field of `doc` is truthy: what the required-field
      check guarantees of a stored issue. */
  predicate RequiredPresent(doc: Doc)
  {
    forall key :: key in REQUIRED_FIELDS ==> Truthy(Get(doc, key))
  }

  /** The record Create inserts, from the project, the body and the two
      clock readings the handler takes. */
  function NewIssue(project: string, body: Doc, createdOn: int, updatedOn: int): (issue: Doc)
    ensures issue.Keys == ISSUE_FIELDS
    ensures issue[Project] == Str(project)
    ensures forall key :: key in REQUIRED_FIELDS ==> issue[key] == Get(body, key)
    ensures forall key :: key in DEFAULTED_FIELDS ==>
      issue[key] == if Truthy(Get(body, key)) then Get(body, key) else Str("")
    ensures issue[Open] == Bool(true)
    ensures issue[CreatedOn] == Date(createdOn) && issue[UpdatedOn] == Date(updatedOn)
    ensures !MissingRequired(body) ==> forall key :: key in issue ==> Truthy(issue[key]) || issue[key] == Str("")
    ensures RequiredPresent(issue) <==> !MissingRequired(body)
  {
    map[
      Project := Str(project),
      IssueTitle := Get(body, IssueTitle),
      IssueText := Get(body, IssueText),
      CreatedBy := Get(body, CreatedBy),
      AssignedTo := Or(Get(body, AssignedTo), Str("")),
      StatusText := Or(Get(body, StatusText), Str("")),
      CreatedOn := Date(createdOn),
      UpdatedOn := Date(updatedOn),
      Open := Bool(true)
    ]
  }

  // ---------------------------------------------------------------------------
  // Update

  /** The `$set` of an Update before `updated_on` is added: every truthy text
      field of the body, and `open` whenever it is not `undefined`. */
  function UpdateFields(body: Doc): (fields: Doc)
    ensures forall key :: key in fields ==> fields[key] == Get(body, key)
    ensures forall key :: key in TEXT_FIELDS ==> (key in fields <==> Truthy(Get(body, key)))
    ensures Open in fields <==> Get(body, Open) != Undefined
    ensures fields.Keys <= TEXT_FIELDS + {Open}
    ensures NoUndefined(fields)
  {
    (map key | key in TEXT_FIELDS && Truthy(Get(body, key)) :: Get(body, key))
    + (if Get(body, Open) != Undefined then map[Open := Get(body, Open)] else map[])
  }

  /** Update answers "no update field(s) sent" exactly when no text field is
      truthy and `open` is `undefined`; `open: false` alone is an update. */
  lemma NothingToUpdate(body: Doc)
    ensures |UpdateFields(body)| == 0 <==>
      (forall key :: key in TEXT_FIELDS ==> !Truthy(Get(body, key))) && Get(body, Open) == Undefined
  {
  }

  /** An empty string is never written by Update: a text field cannot be
      cleared back to `''`. */
  lemma UpdateCannotClear(body: Doc, key: Key)
    requires key in TEXT_FIELDS && Get(body, key) == Str("")
    ensures key !in UpdateFields(body)
  {
  }

  /** Update keeps every required field truthy: it writes a text field only
      with a truthy value, so an issue never loses a required field. */
  lemma UpdateKeepsRequired(doc: Doc, body: Doc)
    requires RequiredPresent(doc)
    ensures RequiredPresent(doc + UpdateFields(body))
  {
    var fields := UpdateFields(body);
    forall key | key in REQUIRED_FIELDS
      ensures Truthy(Get(doc + fields, key))
    {
      assert key in TEXT_FIELDS;
    }
  }

  /** `fields` holds exactly the truthy fields of `body` among `done`. */
  ghost predicate Collected(fields: Doc, body: Doc, done: set<Key>)
  {
    && (forall key :: key in fields ==> key in done && fields[key] == Get(body, key))
    && (forall key :: key in done ==> (key in fields <==> Truthy(Get(body, key))))
  }

  /** Adding `open` to the collected text fields gives `UpdateFields`. */
  lemma CollectedIsUpdateFields(fields: Doc, body: Doc)
    requires Collected(fields, body, TEXT_FIELDS)
    ensures (if Get(body, Open) != Undefined then fields[Open := Get(body, Open)] else fields) == UpdateFields(body)
  {
  }

  /** Builds the Update set as the handler does, one conditional assignment
      per field. */
  method BuildUpdateFields(body: Doc) returns (fields: Doc)
    ensures fields == UpdateFields(body)
  {
    fields := map[];
    if Truthy(Get(body, IssueTitle)) {
      fields := fields[IssueTitle := Get(body, IssueTitle)];
    }
    assert Collected(fields, body, {IssueTitle});
    if Truthy(Get(body, IssueText)) {
      fields := fields[IssueText := Get(body, IssueText)];
    }
    assert Collected(fields, body, {IssueTitle, IssueText});
    if Truthy(Get(body, CreatedBy)) {
      fields := fields[CreatedBy := Get(body, CreatedBy)];
    }
    assert Collected(fields, body, {IssueTitle, IssueText, CreatedBy});
    if Truthy(Get(body, AssignedTo)) {
      fields := fields[AssignedTo := Get(body, AssignedTo)];
    }
    assert Collected(fields, body, {IssueTitle, IssueText, CreatedBy, AssignedTo});
    if Truthy(Get(body, StatusText)) {
      fields := fields[StatusText := Get(body, StatusText)];
    }
    assert Collected(fields, body, TEXT_FIELDS);
    CollectedIsUpdateFields(fields, body);
    if Get(body, Open) != Undefined {
      fields := fields[Open := Get(body, Open)];
    }
  }
}
