# Issue tracker API: a verified model of the `/api/issues/:project` handlers

This project models the issue tracker's request handler (`routes/api.js`).
The handler serves four routes over one MongoDB collection of issue
documents:

- **List** (GET) builds an equality filter. The filter holds the project and
  the supplied text fields, plus `open` coerced to a boolean. List answers
  every matching issue with its `project` field removed.
- **Create** (POST) refuses a body that lacks a required field. Otherwise it
  fills in the defaults and both timestamps, inserts the issue, and answers
  the inserted document without `project`.
- **Update** (PUT) checks `_id` is present, then checks it is valid, then
  checks there is something to update. It then `$set`s the supplied fields
  and `updated_on` on the issue with that `_id` in that project.
- **Delete** (DELETE) runs the same two `_id` checks. It then removes the
  issue with that `_id` in that project.

The model has three layers:

- **`Values`** covers JavaScript/BSON values and truthiness. A request body,
  a query, a filter and a stored document are all maps from key to value; a
  missing key reads as `undefined`. It also defines MongoDB's equality
  match, where a `null` condition matches a missing field.
- **`Collection`** is the collection the driver presents. It is a class
  holding a map from ObjectId to document, with `Find`, `InsertOne`,
  `UpdateOne` and `DeleteOne` methods. `InsertOne`, `UpdateOne` and
  `DeleteOne` are specified by pure functions of the old state; `Find` is
  specified by the predicate `Listed`, because the store chooses the order.
  Each method keeps the invariant that every document carries its own key
  as `_id`.
- **`IssueRules`** and **`IssueRoutes`** cover the handlers themselves:
  - the filter and the update set, each as a declarative function and as
    the step-by-step builder the handler runs, proved equal;
  - the Create record;
  - the `_id` checks;
  - the four handlers as methods returning the HTTP status and JSON payload.

## Model

| member | source | states |
|---|---|---|
| IssueRules.ListFilter | routes/api.js:21-41 | The filter always holds `project` equal to the path segment. Each of the five text fields is a key exactly when the query supplies it (not `undefined`), with the query's value. `open` is a key exactly when it is neither `undefined`, `null` nor `''`; it is then a boolean, `true` exactly when the query says `"true"`. No other key occurs and no value is `undefined`. |
| IssueRules.BuildListFilter | routes/api.js:21-41 | Building the object literal, adding `open`, then deleting every `undefined` key in a pass over the keys yields exactly `ListFilter`. |
| IssueRules.CleanedQueryIsListFilter | routes/api.js:36-41 | Removing the `undefined` entries from the literal query object leaves exactly `ListFilter`. |
| IssueRules.ListFilterMatches | routes/api.js:43-45 | A document matches the filter if and only if it belongs to the project, agrees with every supplied text field, and agrees with the coerced `open` when given. |
| IssueRules.NewIssue | routes/api.js:68-78 | The record has exactly the nine issue keys. `project` is the path segment and the required fields are stored as given. `assigned_to` and `status_text` become `''` when falsy. `open` is `true`, and the dates come from the two clock readings. When no required field is missing, every stored value is truthy or `''`. The record has all three required fields (`issue_title`, `issue_text`, `created_by`) truthy exactly when the required-field check of lines 80-84 lets the body through. |
| IssueRules.UpdateFields | routes/api.js:121-127 | Every text field is in the update set exactly when the body's value is truthy. `open` is in it exactly when it is not `undefined`, so `false` is kept. Each value is the body's own, no other key occurs, and nothing is `undefined`. |
| IssueRules.BuildUpdateFields | routes/api.js:121-127 | The six conditional assignments build exactly `UpdateFields`. |
| IssueRules.CollectedIsUpdateFields | routes/api.js:122-127 | The truthy text fields, plus `open` when defined, are exactly `UpdateFields`. |
| IssueRules.NothingToUpdate | routes/api.js:129-134 | The update set is empty exactly when no text field is truthy and `open` is `undefined`. |
| IssueRules.UpdateKeepsRequired | routes/api.js:122-124 | An issue whose required fields are truthy keeps them truthy after its update fields are applied, because Update writes a text field only with a truthy value. |
| IssueRules.UpdateCannotClear | routes/api.js:122-126 | A text field sent as `''` is never written, so Update cannot clear a field. |
| IssueRoutes.CheckId | routes/api.js:110-120 | The request passes exactly when `_id` is truthy and valid. A falsy `_id` answers `missing _id`; a truthy invalid one answers the failure message with the `_id`. |
| IssueRoutes.List | routes/api.js:11-57 | A storage fault answers 500 `Database error`. Otherwise the answer is 200 with every issue the filter selects, each exactly once. Each listed issue belongs to the project and is shown without `project`. |
| IssueRoutes.Create | routes/api.js:59-97 | A missing required field answers `required field(s) missing` and leaves the collection unchanged. A storage fault or duplicate key answers 500 and leaves it unchanged. Otherwise the collection gains exactly `NewIssue` under the new id, and the answer is that stored document without `project`. Stored issues stay well formed: each has a string `project`, a `created_on`, truthy required fields and no `undefined` value. |
| IssueRoutes.CreatedResponseFields | routes/api.js:86-95 | The Create answer holds every stored key but `project`, plus the new `_id`. It carries the required fields as given and `open: true`. |
| IssueRoutes.CreatedIssueIsListed | routes/api.js:43-48 | A created issue is found by every List query of its project whose supplied text fields equal the stored ones and whose `open`, if given, is `"true"`. |
| IssueRoutes.AgreeingIssueIsListed | routes/api.js:21-45 | An issue of the project that holds every supplied text field, and is open when `open=true` is asked for, matches the List filter. |
| IssueRoutes.Update | routes/api.js:99-156 | The checks run in this order, each leaving the collection unchanged: `missing _id`, then `could not update` for an invalid `_id`, then `no update field(s) sent`. A storage fault answers `could not update`. Otherwise the answer is `successfully updated` and the collection is `updateOne` of `UpdateSet` on `{_id, project}`. This answer does not depend on whether an issue matched. |
| IssueRoutes.UpdateSet | routes/api.js:135-141 | The `$set` never touches `_id`, `project` or `created_on`, and holds no `undefined` value. |
| IssueRoutes.SetOnIssue | routes/api.js:135-141 | On the updated issue, the supplied fields take the body's values and `updated_on` takes the clock. Every other field keeps its value, including `_id`, `project` and `created_on`. |
| IssueRoutes.UpdateSetKeepsRequired | routes/api.js:122-140 | The full `$set`, with `updated_on` included, also keeps an issue's required fields truthy. |
| IssueRoutes.UpdateChangesOnlyThatIssue | routes/api.js:136-141 | Only the issue with that id, and only if it belongs to the project, is rewritten. All other issues are unchanged, and every issue stays well formed. |
| IssueRoutes.StringOpenNeverListed | routes/api.js:29-35 | After an Update that sets `open` to a string, the issue matches no List filter that includes `open`: Update stores the string as sent (line 127), but List compares against a boolean. |
| IssueRoutes.Delete | routes/api.js:158-191 | The order is `missing _id`, then `could not delete` for an invalid `_id`, each leaving the collection unchanged. A storage fault answers `could not delete`. Otherwise the answer is `successfully deleted` and the collection is `deleteOne` on `{_id, project}`, whether or not an issue matched. |
| IssueRoutes.DeleteRemovesOnlyThatIssue | routes/api.js:174-177 | Delete removes the issue with that id exactly when it belongs to the project, and nothing else. |
| Collection.IssueCollection.Find | routes/api.js:43-49 | A storage fault is reported. Otherwise every selected document appears exactly once, with the excluded keys projected away, and nothing else appears. |
| Collection.IssueCollection.InsertOne | routes/api.js:86 | The document is stored under the fresh id, which is also written into it as `_id`. An id already in use, or a fault, is an error that changes nothing. |
| Collection.IssueCollection.UpdateOne | routes/api.js:136-141 | A fault changes nothing. Otherwise the matched document is overwritten with the `$set` fields, and matching nothing is not an error. |
| Collection.IssueCollection.DeleteOne | routes/api.js:174-177 | A fault changes nothing. Otherwise the matched document is removed, and matching nothing is not an error. |
| Collection.AfterInsertOne | routes/api.js:86 | Insertion adds exactly the new id and keeps every document's `_id` equal to its key. |
| Collection.ByIdMatchesAtMostOne | routes/api.js:136-138 | A filter on `_id` selects at most the document stored under that id, so "the first match" is unambiguous. |
| Collection.IdFilterSelects | routes/api.js:174-177 | `{_id, project}` selects the issue with that id exactly when it belongs to that project, and nothing otherwise. |
| Collection.UpdateOneChangesOnlyMatch | routes/api.js:136-141 | `updateOne` changes only the matched document, and in it only the `$set` keys. Ids stay consistent. |
| Collection.DeleteOneRemovesMatches | routes/api.js:174-177 | `deleteOne` removes exactly the documents the filter selects. Ids stay consistent. |
| Collection.DeletedIsNeverFound | routes/api.js:174-177 | After a delete, no query selects the removed issue, and no query selects anything it did not select before. |
| Collection.DeleteOneIdempotent | routes/api.js:174-177 | Repeating the same delete changes nothing further. |

## Left out

- Express routing, the `req`/`res` objects and JSON serialisation are framework I/O. A handler returns its status and payload as data.
- The MongoDB driver's callbacks and asynchrony are not modelled. Each driver call is one atomic step on an in-memory map.
- A storage error is an input flag of each driver call, and an operation that fails changes nothing. The driver does not say what a failed write leaves behind.
- `find` returns issues in an order the store chooses, so `Listed` promises the set of issues, each once, but no order.
- `ObjectID.isValid` and `ObjectID(...)` belong to a foreign library. They are the function parameters `isValid` and `toObjectId`, and an ObjectId is an opaque string. Whether `toObjectId` is injective is not modelled.
- The id that `insertOne` assigns is a parameter. A clash with an existing id is modelled as the driver's duplicate-key error.
- `new Date()` is a clock parameter. Create reads the clock twice (routes/api.js:75-76), so `created_on` and `updated_on` are separate inputs.
- The model does not promise `updated_on >= created_on`. That would need a monotonic clock, which the code does not assume.
- Numbers are integers. Floating point, `NaN` and `-0`, which are falsy in JavaScript, are not modelled.
- A query parameter repeated in the URL arrives as an array. Arrays, and objects nested in a body, are not modelled. Objects in the query string (bracket syntax, such as `?issue_title[$ne]=x`) are not modelled either. MongoDB would read their `$` keys as operators, so List's filter is an equality filter only for scalar parameters.
- Only the ten keys the handlers read or write are modelled. Other keys of a request body are never read, and the handlers never store them.
- Collection.IssueCollection.UpdateOne and Collection.IssueCollection.InsertOne require that `_id` is absent from the `$set` fields and from the new document. Both hold for every call the handlers make.
- `tests/2_functional-tests.js` is an HTTP test suite that needs a live server and database. It is not part of this model.
- Three behaviours of the code a reader may not expect:
  - List uses an empty-string text field as a filter term; only `undefined` fields are dropped.
  - Update and Delete answer success whenever the driver reports no error, even if no issue matched. So a repeated Delete also answers `successfully deleted`.
  - Update stores `open` as sent (routes/api.js:127), but List compares `open` with a boolean (routes/api.js:29-35). So an issue updated with the form value `open: "false"` is found by no query that gives `open` (`IssueRoutes.StringOpenNeverListed`).
