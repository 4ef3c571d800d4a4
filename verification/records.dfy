/**
 * Documents and databases are records: bags of named fields that are
 * filled from server responses (`hydrate`) and turned back into the
 * payload of a request (`dehydrate`). This module also fixes the shape of
 * one exchange with the HTTP adapter, and holds the document logic both
 * database classes share.
 */
module Records {
  import opened Wrappers
  import opened PhpValues
  import opened Exceptions

  // ---------------------------------------------------------------------
  // Records

  /** A record's fields; a missing field reads as null, like PHP's magic `__get`. */
  datatype Record = Record(fields: map<string, Value>)

  const IdField: string := "_id"
  const RevisionField: string := "_rev"

  /** `newDocument`: a document with no fields. */
  const NewDocument: Record := Record(map[])

  /** Reading a key of a PHP array or a member of a decoded JSON object: null when absent. */
  function Lookup(m: map<string, Value>, name: string): Value {
    if name in m then m[name] else Null
  }

  /** Reading a record's field, which PHP's magic getter does: null when absent. */
  function Field(r: Record, name: string): Value {
    Lookup(r.fields, name)
  }

  /** `hydrate`: every field of `data` is set on the record; the others keep their value. */
  function Hydrate(r: Record, data: map<string, Value>): (h: Record)
    ensures h.fields.Keys == r.fields.Keys + data.Keys
    ensures forall k :: k in data ==> Field(h, k) == data[k]
    ensures forall k :: k !in data ==> Field(h, k) == Field(r, k)
  {
    Record(r.fields + data)
  }

  /** `dehydrate`: the record's fields, as the payload of a request. */
  function Dehydrate(r: Record): map<string, Value> {
    r.fields
  }

  /** The field a database record keeps its name in; both database classes report it from `getName`. */
  const DatabaseNameField: string := "db_name"

  function DatabaseName(db: Record): (r: Value)
    ensures DatabaseNameField in Dehydrate(db) ==> r == Dehydrate(db)[DatabaseNameField]
    ensures DatabaseNameField !in Dehydrate(db) ==> r == Null
  {
    Field(db, DatabaseNameField)
  }

  // ---------------------------------------------------------------------
  // Exchanges with the adapter

  datatype Method = Get | Post | Put | Delete

  /**
   * The arguments given to the connection's `buildUri`: the path target (a
   * document id, or nothing for the database itself) and the query
   * parameters. The URI text the connection builds is not modelled.
   */
  datatype Uri = Uri(target: Option<Value>, query: map<string, Value>)

  /** One call into the adapter: its verb, URI, JSON payload and extra headers. */
  datatype AdapterCall = AdapterCall(verb: Method, uri: Uri, payload: Option<map<string, Value>>, headers: map<string, Value>)

  /** What the adapter did: returned a decoded JSON object, or threw. */
  datatype Reply = Answered(body: map<string, Value>) | Thrown(e: Exc)

  /** The adapter call an operation makes, and how the operation ends given the adapter's reply. */
  datatype Step<T> = Step(call: AdapterCall, outcome: Result<T, Exc>)

  /** `isset($result->ok) && $result->ok === true`. */
  predicate IsOk(body: map<string, Value>) {
    "ok" in body && body["ok"] == Bool(true)
  }

  // ---------------------------------------------------------------------
  // Creating a document

  /** The payload of a create request: the document's fields, less an `_id` that is set. */
  function CreatePayload(doc: Record): (p: map<string, Value>)
    ensures IsSet(Dehydrate(doc), IdField) ==> IdField !in p
    ensures !IsSet(Dehydrate(doc), IdField) ==> p == Dehydrate(doc)
    ensures p - {IdField} == Dehydrate(doc) - {IdField}
  {
    var values := Dehydrate(doc);
    if IsSet(values, IdField) then values - {IdField} else values
  }


  /**
   * The request a create makes: a PUT to the document's own URI when its
   * `_id` is truthy, otherwise a POST to the database so the server picks an id.
   */
  function CreateCall(doc: Record): (c: AdapterCall)
    ensures c.verb == Put <==> Truthy(Field(doc, IdField))
    ensures c.verb == Put || c.verb == Post
    ensures c.uri.target.Some? <==> c.verb == Put
    ensures c.uri.target.Some? ==> c.uri.target.value == Field(doc, IdField)
    ensures c.uri.query == map[] && c.headers == map[]
    ensures c.payload == Some(CreatePayload(doc))
  {
    if Truthy(Field(doc, IdField)) then
      AdapterCall(Put, Uri(Some(Field(doc, IdField)), map[]), Some(CreatePayload(doc)), map[])
    else
      AdapterCall(Post, Uri(None, map[]), Some(CreatePayload(doc)), map[])
  }

  /** A PUT create carries the whole document: the URI's id put back into the payload restores it. */
  lemma CreateCallCarriesDocument(doc: Record)
    requires Truthy(Field(doc, IdField))
    ensures CreateCall(doc).payload.value[IdField := CreateCall(doc).uri.target.value] == Dehydrate(doc)
  {
  }

  /**
   * A document whose `_id` is set but falsy in PHP (the string "0", say) is
   * POSTed without its id, so the server assigns a different one.
   */
  lemma FalsyIdIsDropped(doc: Record)
    requires IsSet(Dehydrate(doc), IdField) && !Truthy(Field(doc, IdField))
    ensures CreateCall(doc).verb == Post
    ensures IdField !in CreateCall(doc).payload.value
  {
  }

  /** The document after a successful create: id and revision taken from the response, the rest untouched. */
  function Created(doc: Record, body: map<string, Value>): (r: Record)
    ensures Field(r, IdField) == Lookup(body, "id")
    ensures Field(r, RevisionField) == Lookup(body, "rev")
    ensures forall k :: k != IdField && k != RevisionField ==> Field(r, k) == Field(doc, k)
  {
    Hydrate(doc, map[IdField := Lookup(body, "id"), RevisionField := Lookup(body, "rev")])
  }

  /**
   * What the server stores for a create answered with `id` and `rev`,
   * read back with `retrieveDocument`, equals the document the create left behind.
   */
  lemma CreatedDocumentReadsBack(doc: Record, id: Value, rev: Value)
    ensures Hydrate(NewDocument, CreatePayload(doc)[IdField := id][RevisionField := rev])
      == Created(doc, map["ok" := Bool(true), "id" := id, "rev" := rev])
  {
    var body := map["ok" := Bool(true), "id" := id, "rev" := rev];
    var a := Hydrate(NewDocument, CreatePayload(doc)[IdField := id][RevisionField := rev]);
    var b := Created(doc, body);
    assert Lookup(body, "id") == id && Lookup(body, "rev") == rev;
    assert a.fields.Keys == b.fields.Keys;
    forall k | k in a.fields
      ensures a.fields[k] == b.fields[k]
    {
      assert Field(a, k) == Field(b, k);
    }
  }

  // ---------------------------------------------------------------------
  // Retrieving and deleting

  /**
   * How a retrieve ends, in both database classes: a response carrying an
   * `_id` becomes a fresh document holding exactly the response's fields;
   * any other response yields no document (PHP's null); an adapter exception propagates.
   */
  function Retrieved(reply: Reply): (r: Result<Option<Record>, Exc>)
    ensures reply.Thrown? ==> r == Failure(reply.e)
    ensures reply.Answered? ==> r.Success? && (r.value.Some? <==> IsSet(reply.body, IdField))
    ensures r.Success? && r.value.Some? ==> Dehydrate(r.value.value) == reply.body
  {
    match reply
    case Thrown(e) => Failure(e)
    case Answered(body) => if IsSet(body, IdField) then Success(Some(Hydrate(NewDocument, body))) else Success(None)
  }

  /** The adapter's answer to a delete, handed back to the caller as it is. */
  function PassedThrough(reply: Reply): (r: Result<map<string, Value>, Exc>)
    ensures reply.Answered? <==> r.Success?
    ensures reply.Answered? ==> r.value == reply.body
    ensures reply.Thrown? ==> r.error == reply.e
  {
    match reply
    case Answered(body) => Success(body)
    case Thrown(e) => Failure(e)
  }

  // ---------------------------------------------------------------------
  // Updating a document (the same in both database classes)

  /**
   * `updateDocument`: PUTs the whole document to its URI. When the server
   * answers ok the document takes the new revision and nothing else
   * changes; any other answer leaves it as it was. An adapter exception
   * propagates.
   */
  function UpdateDocument(doc: Record, reply: Reply): (r: Step<Record>)
    ensures r.call == AdapterCall(Put, Uri(Some(Field(doc, IdField)), map[]), Some(Dehydrate(doc)), map[])
    ensures reply.Thrown? ==> r.outcome == Failure(reply.e)
    ensures reply.Answered? ==> r.outcome.Success?
    ensures reply.Answered? && IsOk(reply.body) ==> Field(r.outcome.value, RevisionField) == Lookup(reply.body, "rev")
    ensures reply.Answered? && !IsOk(reply.body) ==> r.outcome.value == doc
    ensures r.outcome.Success? ==> forall k :: k != RevisionField ==> Field(r.outcome.value, k) == Field(doc, k)
  {
    var call := AdapterCall(Put, Uri(Some(Field(doc, IdField)), map[]), Some(Dehydrate(doc)), map[]);
    match reply
    case Thrown(e) => Step(call, Failure(e))
    case Answered(body) =>
      if IsOk(body) then Step(call, Success(Hydrate(doc, map[RevisionField := Lookup(body, "rev")])))
      else Step(call, Success(doc))
  }

  /**
   * After an ok update, what the server now stores (the payload with the
   * new revision) reads back as the updated document, provided the document has an id.
   */
  lemma UpdatedDocumentReadsBack(doc: Record, rev: Value)
    requires IsSet(Dehydrate(doc), IdField)
    ensures var r := UpdateDocument(doc, Answered(map["ok" := Bool(true), "rev" := rev]));
      Hydrate(NewDocument, r.call.payload.value[RevisionField := rev]) == r.outcome.value
  {
    var body := map["ok" := Bool(true), "rev" := rev];
    assert IsOk(body) && Lookup(body, "rev") == rev;
  }
}
