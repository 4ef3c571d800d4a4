/**
 * The database record of the older library (lib/Phpcouch/Database.class.php):
 * database information accessors and the document operations, which talk to
 * the adapter directly. Updating is shared with the namespaced class
 * (`Records.UpdateDocument`).
 */
module LegacyDatabase {
  import opened Wrappers
  import opened PhpValues
  import opened Exceptions
  import opened Records

  const DocumentCountField: string := "doc_count"
  const UpdateSequenceField: string := "update_seq"

  function GetDocumentCount(db: Record): (r: Value)
    ensures DocumentCountField in Dehydrate(db) ==> r == Dehydrate(db)[DocumentCountField]
    ensures DocumentCountField !in Dehydrate(db) ==> r == Null
  {
    Field(db, DocumentCountField)
  }

  function GetUpdateSequence(db: Record): (r: Value)
    ensures UpdateSequenceField in Dehydrate(db) ==> r == Dehydrate(db)[UpdateSequenceField]
    ensures UpdateSequenceField !in Dehydrate(db) ==> r == Null
  {
    Field(db, UpdateSequenceField)
  }

  /** A database record hydrated from the server's database information reports that information. */
  lemma AccessorsReadHydratedInfo(db: Record, info: map<string, Value>)
    ensures DatabaseNameField in info ==> DatabaseName(Hydrate(db, info)) == info[DatabaseNameField]
    ensures DocumentCountField in info ==> GetDocumentCount(Hydrate(db, info)) == info[DocumentCountField]
    ensures UpdateSequenceField in info ==> GetUpdateSequence(Hydrate(db, info)) == info[UpdateSequenceField]
    ensures DatabaseNameField !in info ==> DatabaseName(Hydrate(db, info)) == DatabaseName(db)
  {
  }

  /** The exception every failed save becomes. */
  const SaveFailure: Exc := Exc(PhpcouchSaveException, "", 0, None)

  /**
   * `createDocument`: the same request as the namespaced class. A non-ok
   * answer or an adapter error exception becomes a save exception; other
   * exceptions propagate.
   */
  function CreateDocument(doc: Record, reply: Reply): (r: Step<Record>)
    ensures r.call == CreateCall(doc)
    ensures r.outcome.Success? <==> reply.Answered? && IsOk(reply.body)
    ensures r.outcome.Success? ==> r.outcome.value == Created(doc, reply.body)
    ensures reply.Answered? && !IsOk(reply.body) ==> r.outcome == Failure(SaveFailure)
    ensures reply.Thrown? && reply.e.cls == PhpcouchErrorException ==> r.outcome == Failure(SaveFailure)
    ensures reply.Thrown? && reply.e.cls != PhpcouchErrorException ==> r.outcome == Failure(reply.e)
  {
    var call := CreateCall(doc);
    match reply
    case Answered(body) =>
      if IsOk(body) then Step(call, Success(Created(doc, body))) else Step(call, Failure(SaveFailure))
    case Thrown(e) =>
      if e.cls == PhpcouchErrorException then Step(call, Failure(SaveFailure)) else Step(call, Failure(e))
  }

  /** A failed create never leaks an adapter error exception: it is always turned into a save exception. */
  lemma CreateNeverLeaksErrorException(doc: Record, reply: Reply)
    requires CreateDocument(doc, reply).outcome.Failure?
    ensures CreateDocument(doc, reply).outcome.error.cls != PhpcouchErrorException
    ensures reply.Answered? ==> CreateDocument(doc, reply).outcome.error == SaveFailure
  {
  }

  /** The query `retrieveDocument` asks for: the wanted revision (null for the latest) and the revision history. */
  function RetrieveQuery(revision: Value): (q: map<string, Value>)
    ensures q.Keys == {"rev", "_revs_info"}
    ensures q["rev"] == revision && q["_revs_info"] == Bool(true)
  {
    map["rev" := revision, "_revs_info" := Bool(true)]
  }

  /** `retrieveDocument`: a GET of the document's URI with the revision query. */
  function RetrieveDocument(id: Value, revision: Value, reply: Reply): (r: Step<Option<Record>>)
    ensures r.call == AdapterCall(Get, Uri(Some(id), RetrieveQuery(revision)), None, map[])
    ensures r.outcome == Retrieved(reply)
    ensures reply.Thrown? ==> r.outcome == Failure(reply.e)
    ensures reply.Answered? ==> r.outcome.Success? && (r.outcome.value.Some? <==> IsSet(reply.body, IdField))
    ensures r.outcome.Success? && r.outcome.value.Some? ==> Dehydrate(r.outcome.value.value) == reply.body
  {
    Step(AdapterCall(Get, Uri(Some(id), RetrieveQuery(revision)), None, map[]), Retrieved(reply))
  }

  /** The argument of the older `deleteDocument`: a document, or an id. */
  datatype DocumentOrId = ByDocument(doc: Record) | ById(id: Value)

  /**
   * `deleteDocument`: a DELETE of the document's URI, without a revision
   * header; the adapter's answer is returned as it is.
   */
  function DeleteDocument(target: DocumentOrId, reply: Reply): (r: Step<map<string, Value>>)
    ensures r.call.verb == Delete && r.call.payload == None && r.call.headers == map[]
    ensures target.ByDocument? ==> r.call.uri == Uri(Some(Field(target.doc, IdField)), map[])
    ensures target.ById? ==> r.call.uri == Uri(Some(target.id), map[])
    ensures r.outcome == PassedThrough(reply)
  {
    var id := match target
      case ByDocument(doc) => Field(doc, IdField)
      case ById(id) => id;
    Step(AdapterCall(Delete, Uri(Some(id), map[]), None, map[]), PassedThrough(reply))
  }

  /** Deleting a document and deleting by its id make the same request. */
  lemma DeleteByDocumentOrId(doc: Record, reply: Reply)
    ensures DeleteDocument(ByDocument(doc), reply) == DeleteDocument(ById(Field(doc, IdField)), reply)
  {
  }
}
