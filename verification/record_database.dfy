/**
 * The database record of the namespaced library
 * (lib/phpcouch/record/Database.php): document operations through the
 * connection's adapter, and view queries through `executeView`.
 */
module RecordDatabase {
  import opened Wrappers
  import opened PhpValues
  import opened Exceptions
  import opened HttpMessage
  import opened Records
  import opened ViewQuery

  const AllDocsPattern: string := "%s/%s/_all_docs"
  const ViewPattern: string := "%s/%s/_design/%s/_view/%s"

  const DesignPrefix: string := "_design/"
  const IfMatchHeader: string := "If-Match"
  const NotOkMessage: string := "Result not OK :("

  // ---------------------------------------------------------------------
  // Documents

  /** The exception `createDocument` throws in place of a library exception it caught. */
  function Rethrown(e: Exc): (w: Exc)
    ensures w.cls == LibraryException && w.message == e.message && w.code == e.code
    ensures w.previous == Some(e)
  {
    Exc(LibraryException, e.message, e.code, Some(e))
  }

  /**
   * `createDocument`: makes the create request; on an ok answer the
   * document takes the id and revision from it. A non-ok answer throws a
   * library exception, which the method's own catch clause wraps once
   * more; any library exception from the adapter is wrapped likewise, and
   * exceptions of other classes propagate untouched.
   */
  function CreateDocument(doc: Record, reply: Reply): (r: Step<Record>)
    ensures r.call == CreateCall(doc)
    ensures r.outcome.Success? <==> reply.Answered? && IsOk(reply.body)
    ensures r.outcome.Success? ==> r.outcome.value == Created(doc, reply.body)
    ensures reply.Answered? && !IsOk(reply.body) ==>
      r.outcome == Failure(Exc(LibraryException, NotOkMessage, 0, Some(Exc(LibraryException, NotOkMessage, 0, None))))
    ensures reply.Thrown? && reply.e.cls == LibraryException ==> r.outcome == Failure(Rethrown(reply.e))
    ensures reply.Thrown? && reply.e.cls != LibraryException ==> r.outcome == Failure(reply.e)
  {
    var call := CreateCall(doc);
    match reply
    case Answered(body) =>
      if IsOk(body) then Step(call, Success(Created(doc, body)))
      else Step(call, Failure(Rethrown(Exc(LibraryException, NotOkMessage, 0, None))))
    case Thrown(e) =>
      if e.cls == LibraryException then Step(call, Failure(Rethrown(e))) else Step(call, Failure(e))
  }

  /** Every failed create surfaces as a library exception, except a foreign one that passes through. */
  lemma CreateFailuresAreLibraryExceptions(doc: Record, reply: Reply)
    requires CreateDocument(doc, reply).outcome.Failure?
    ensures var e := CreateDocument(doc, reply).outcome.error;
      e.cls == LibraryException || (reply.Thrown? && e == reply.e)
    ensures var e := CreateDocument(doc, reply).outcome.error;
      e.cls == LibraryException ==> e.previous.Some? && e.previous.value.cls == LibraryException
  {
  }

  /** `retrieveDocument`: a GET of the document's URI. */
  function RetrieveDocument(id: Value, reply: Reply): (r: Step<Option<Record>>)
    ensures r.call == AdapterCall(Get, Uri(Some(id), map[]), None, map[])
    ensures r.outcome == Retrieved(reply)
    ensures reply.Thrown? ==> r.outcome == Failure(reply.e)
    ensures reply.Answered? ==> r.outcome.Success? && (r.outcome.value.Some? <==> IsSet(reply.body, IdField))
    ensures r.outcome.Success? && r.outcome.value.Some? ==> Dehydrate(r.outcome.value.value) == reply.body
  {
    Step(AdapterCall(Get, Uri(Some(id), map[]), None, map[]), Retrieved(reply))
  }

  /**
   * A document created with an id and then fetched back, with the server
   * storing what was sent plus the revision it assigned, comes back equal
   * to the document the create left behind.
   */
  lemma RetrieveAfterCreate(doc: Record, rev: Value)
    requires Truthy(Field(doc, IdField))
    ensures var id := Field(doc, IdField);
      var created := CreateDocument(doc, Answered(map["ok" := Bool(true), "id" := id, "rev" := rev]));
      var stored := created.call.payload.value[IdField := created.call.uri.target.value][RevisionField := rev];
      RetrieveDocument(id, Answered(stored)).outcome == Success(Some(created.outcome.value))
  {
    var id := Field(doc, IdField);
    CreatedDocumentReadsBack(doc, id, rev);
  }

  /**
   * `deleteDocument`: a DELETE of the document's URI carrying its revision
   * in an `If-Match` header; the adapter's answer is returned as it is.
   */
  function DeleteDocument(doc: Record, reply: Reply): (r: Step<map<string, Value>>)
    ensures r.call.verb == Delete && r.call.payload == None
    ensures r.call.uri == Uri(Some(Field(doc, IdField)), map[])
    ensures r.call.headers.Keys == {IfMatchHeader} && r.call.headers[IfMatchHeader] == Field(doc, RevisionField)
    ensures r.outcome == PassedThrough(reply)
  {
    Step(AdapterCall(Delete, Uri(Some(Field(doc, IdField)), map[]), None, map[IfMatchHeader := Field(doc, RevisionField)]), PassedThrough(reply))
  }

  /** The `If-Match` name is already in the form the message normalizes header names to. */
  lemma IfMatchIsCanonical()
    ensures NormalizeHeaderName(IfMatchHeader) == IfMatchHeader
  {
    assert Lower(IfMatchHeader) == "if" + "-" + "match";
    CapitalizeWordsSplits("if", "match");
    CapitalizeWordsOfWord("if");
    CapitalizeWordsOfWord("match");
  }

  /** A deleted document's revision can be read back from the request message the adapter builds. */
  lemma DeleteRevisionReachesHeader(doc: Record, reply: Reply)
    ensures var h := DeleteDocument(doc, reply).call.headers;
      GetHeader(SetHeader(EmptyMessage, IfMatchHeader, h[IfMatchHeader], true), "if-match")
        == Some(HeaderValues(Field(doc, RevisionField)))
  {
    IfMatchIsCanonical();
    assert Lower("if-match") == Lower(IfMatchHeader);
    NormalizeIgnoresCase("if-match", IfMatchHeader);
  }

  // ---------------------------------------------------------------------
  // Views

  /** `listDocuments`: the all-documents view of this database. */
  function ListDocuments(db: Record, options: map<string, Value>): (r: ViewRequest)
    ensures r.url.pattern == AllDocsPattern && r.url.values == [DatabaseName(db)]
    ensures r.verb == Some(Post) <==> IsSet(options, KeysOption)
    ensures r.url.query.Keys == options.Keys - (if IsSet(options, KeysOption) then {KeysOption} else {})
    ensures r == ExecuteView(AllDocsPattern, [DatabaseName(db)], options)
  {
    ExecuteView(AllDocsPattern, [DatabaseName(db)], options)
  }

  /** The design document argument of `callView`: a name, or a design document record. */
  datatype DesignRef = DesignName(name: Value) | DesignDocument(doc: Record)

  /** A design document stands for its id with the `_design/` prefix taken out. */
  function DesignNameOf(design: DesignRef): Value {
    match design
    case DesignName(name) => name
    case DesignDocument(doc) => Str(StrReplace(DesignPrefix, "", StrVal(Field(doc, IdField))))
  }

  /** `callView`: a named view of a design document of this database. */
  function CallView(db: Record, design: DesignRef, view: Value, options: map<string, Value>): (r: ViewRequest)
    ensures r.url.pattern == ViewPattern && r.url.values == [DatabaseName(db), DesignNameOf(design), view]
    ensures r.verb == Some(Post) <==> IsSet(options, KeysOption)
    ensures r.url.query.Keys == options.Keys - (if IsSet(options, KeysOption) then {KeysOption} else {})
    ensures r == ExecuteView(ViewPattern, [DatabaseName(db), DesignNameOf(design), view], options)
  {
    ExecuteView(ViewPattern, [DatabaseName(db), DesignNameOf(design), view], options)
  }

  /** Calling a view through the design document `_design/<name>` is calling it by `<name>`. */
  lemma CallViewByDocument(db: Record, doc: Record, name: string, view: Value, options: map<string, Value>)
    requires Field(doc, IdField) == Str(DesignPrefix + name)
    requires !Occurs(DesignPrefix, name)
    ensures CallView(db, DesignDocument(doc), view, options) == CallView(db, DesignName(Str(name)), view, options)
  {
    StrReplaceStripsPrefix(DesignPrefix, name);
  }
}
