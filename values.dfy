/** JavaScript / BSON values as the request handlers see them, and MongoDB's
    equality match of a document against a filter. */
module Values {

  datatype Option<+T> = None | Some(value: T)

  /** An ObjectId, kept as an opaque string. */
  type ObjectId = string

  /** The values a request field or a document field can hold.
      `Undefined` is JavaScript's `undefined`: what a missing key reads as. */
  datatype Value =
    | Undefined
    | Null
    | Bool(b: bool)
    | Num(n: int)
    | Str(s: string)
    | Date(time: int)
    | Oid(id: ObjectId)

  /** The field names the handlers read or write: `_id`, `project`,
      `issue_title`, `issue_text`, `created_by`, `assigned_to`,
      `status_text`, `open`, `created_on`, `updated_on`. No handler reads
      any other key of a request, so no other key is modelled. */
  datatype Key =
    | Id | Project | IssueTitle | IssueText | CreatedBy | AssignedTo | StatusText | Open | CreatedOn | UpdatedOn

  /** A JavaScript object: a request's query or body, a filter, a stored document. */
  type Doc = map<Key, Value>

  /** `obj.key` in JavaScript: a missing key reads as `undefined`. */
  function Get(obj: Doc, key: Key): Value
  {
    if key in obj then obj[key] else Undefined
  }

  /** JavaScript truthiness: `undefined`, `null`, `false`, `0` and `''` are falsy. */
  predicate Truthy(v: Value)
  {
    match v
    case Undefined => false
    case Null => false
    case Bool(b) => b
    case Num(n) => n != 0
    case Str(s) => s != ""
    case Date(_) => true
    case Oid(_) => true
  }

  /** JavaScript `v || fallback`. */
  function Or(v: Value, fallback: Value): Value
  {
    if Truthy(v) then v else fallback
  }

  predicate NoUndefined(obj: Doc)
  {
    forall key :: key in obj ==> obj[key] != Undefined
  }

  /** MongoDB's equality condition `{key: v}`: a document without the key
      matches only `null`. */
  predicate FieldMatches(doc: Doc, key: Key, v: Value)
  {
    if key in doc then doc[key] == v else v == Null
  }

  /** A document matches a filter when it meets every equality condition in it. */
  predicate Matches(doc: Doc, filter: Doc)
  {
    forall key :: key in filter ==> FieldMatches(doc, key, filter[key])
  }
}
