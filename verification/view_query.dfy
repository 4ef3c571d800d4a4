/**
 * How `executeView` turns the caller's view options into a request: each
 * option named in the cleanup table is rewritten into the form CouchDB
 * expects in a query string, and a `keys` option moves out of the query
 * into a JSON body sent with POST.
 */
module ViewQuery {
  import opened Wrappers
  import opened PhpValues
  import opened Json
  import opened HttpMessage
  import opened Records

  /** The rewrites an option can undergo. */
  datatype Cleanup =
    | JsonEncode     // `json_encode`
    | IntegerValue   // `intval`
    | StaleFlag      // "ok" when truthy, null otherwise
    | BooleanString  // `var_export((bool)$value, true)`: "true" or "false"

  /** The cleanup table of `executeView`; options not named in it pass through untouched. */
  function CleanupFor(option: string): Option<Cleanup> {
    if option == "key" || option == "startkey" || option == "endkey" then Some(JsonEncode)
    else if option == "limit" || option == "skip" || option == "group_level" then Some(IntegerValue)
    else if option == "stale" then Some(StaleFlag)
    else if option == "descending" || option == "group" || option == "reduce" || option == "include_docs" then Some(BooleanString)
    else None
  }

  const KeysOption: string := "keys"

  function ApplyCleanup(rule: Cleanup, v: Value): Value {
    match rule
    case JsonEncode => Str(Encode(v))
    case IntegerValue => Int(IntVal(v))
    case StaleFlag => if Truthy(v) then Str("ok") else Null
    case BooleanString => Str(if Truthy(v) then "true" else "false")
  }

  /** Every option keeps its name; the ones in the table are rewritten as the table says. */
  function CleanOptions(options: map<string, Value>): (r: map<string, Value>)
    ensures r.Keys == options.Keys
    ensures forall k :: k in options && CleanupFor(k).None? ==> r[k] == options[k]
    ensures forall k :: k in options && k in {"key", "startkey", "endkey"} ==> r[k] == Str(Encode(options[k]))
    ensures forall k :: k in options && k in {"limit", "skip", "group_level"} ==> r[k] == Int(IntVal(options[k]))
    ensures forall k :: k in options && k in {"descending", "group", "reduce", "include_docs"} ==>
      r[k] == Str(if Truthy(options[k]) then "true" else "false")
    ensures "stale" in options ==> r["stale"] == (if Truthy(options["stale"]) then Str("ok") else Null)
  {
    map k | k in options :: if CleanupFor(k).Some? then ApplyCleanup(CleanupFor(k).value, options[k]) else options[k]
  }

  /** `keys` is not in the cleanup table: its value reaches the request as given. */
  lemma KeysAreNotCleaned(options: map<string, Value>)
    ensures KeysOption in options ==> CleanOptions(options)[KeysOption] == options[KeysOption]
  {
    assert CleanupFor(KeysOption).None? by {
      assert KeysOption[0] == 'k' && KeysOption[1] == 'e' && |KeysOption| == 4;
    }
  }

  /** A string key, once JSON-encoded for the query, decodes back to the same string. */
  lemma CleanedStringKeyDecodes(options: map<string, Value>, name: string)
    requires name in options && options[name].Str?
    requires name == "key" || name == "startkey" || name == "endkey"
    ensures CleanOptions(options)[name].Str?
    ensures Unquote(CleanOptions(options)[name].s) == Some(options[name].s)
  {
    QuoteRoundTrip(options[name].s);
  }

  /** An integer option, printed into the query, reads back as the same 64-bit integer. */
  lemma CleanedIntegerReadsBack(options: map<string, Value>, name: string)
    requires name in options
    requires options[name].Int? ==> PhpIntMin <= options[name].i <= PhpIntMax
    requires name == "limit" || name == "skip" || name == "group_level"
    ensures CleanOptions(options)[name].Int?
    ensures IntVal(Str(IntToString(CleanOptions(options)[name].i))) == CleanOptions(options)[name].i
  {
    IntValOfPrintedInt(CleanOptions(options)[name].i);
  }

  /**
   * Boolean cleanup is not idempotent: the string "false" is truthy in PHP,
   * so cleaning an already cleaned `descending` flips it to "true".
   */
  lemma BooleanCleanupNotIdempotent()
    ensures CleanOptions(CleanOptions(map["descending" := Bool(false)]))["descending"] == Str("true")
  {
    assert CleanOptions(map["descending" := Bool(false)])["descending"] == Str("false");
  }

  // ---------------------------------------------------------------------
  // The request

  /** The arguments given to the connection's `buildUrl`: the pattern, its values and the query. */
  datatype ViewUrl = ViewUrl(pattern: string, values: seq<Value>, query: map<string, Value>)

  /**
   * The request `executeView` hands to the connection. `verb` is None when
   * the request keeps the request class's default method.
   */
  datatype ViewRequest = ViewRequest(verb: Option<Method>, url: ViewUrl, message: Message)

  const JsonContentType: string := "application/json"

  /** The POST body for a `keys` option: `{"keys":[...]}`, a single key becoming a one-element list. */
  function KeysBody(keys: Value): string {
    EncodeObject([(KeysOption, Arr(ToArray(keys)))])
  }

  /**
   * `executeView` up to sending the request: cleans the options; when a
   * `keys` option is set it becomes a JSON body sent with POST and leaves
   * the query; everything else goes into the URL.
   */
  function ExecuteView(pattern: string, values: seq<Value>, options: map<string, Value>): (r: ViewRequest)
    ensures r.url.pattern == pattern && r.url.values == values
    ensures r.verb == Some(Post) <==> IsSet(options, KeysOption)
    ensures r.verb == None <==> !IsSet(options, KeysOption)
    ensures IsSet(options, KeysOption) ==> r.url.query == CleanOptions(options) - {KeysOption}
    ensures IsSet(options, KeysOption) ==> GetContent(r.message) == Str(KeysBody(options[KeysOption]))
    ensures IsSet(options, KeysOption) ==> GetContentType(r.message) == Str(JsonContentType)
    ensures !IsSet(options, KeysOption) ==> r.url.query == CleanOptions(options) && r.message == EmptyMessage
    ensures KeysOption in r.url.query ==> r.url.query[KeysOption] == Null
  {
    var cleaned := CleanOptions(options);
    KeysAreNotCleaned(options);
    if IsSet(cleaned, KeysOption) then
      var message := SetContentType(SetContent(EmptyMessage, Str(KeysBody(cleaned[KeysOption]))), Str(JsonContentType));
      ViewRequest(Some(Post), ViewUrl(pattern, values, cleaned - {KeysOption}), message)
    else
      ViewRequest(None, ViewUrl(pattern, values, cleaned), EmptyMessage)
  }

  /** Every option the caller gave, except a set `keys`, reaches the query under its own name. */
  lemma ExecuteViewKeepsOptionNames(pattern: string, values: seq<Value>, options: map<string, Value>)
    ensures ExecuteView(pattern, values, options).url.query.Keys
      == if IsSet(options, KeysOption) then options.Keys - {KeysOption} else options.Keys
  {
  }

  /** The body is the JSON object with the single member `keys`, holding the keys as a list. */
  lemma KeysBodyShape(keys: Value)
    ensures KeysBody(keys) == "{\"keys\":" + Encode(Arr(ToArray(keys))) + "}"
  {
    var list := Encode(Arr(ToArray(keys)));
    var members := [(KeysOption, Arr(ToArray(keys)))];
    var entries := seq(|members|, k requires 0 <= k < |members| => Quote(members[k].0) + ":" + Encode(members[k].1));
    EscapeLettersUnchanged(KeysOption);
    var name := Quote(KeysOption);
    assert name == "\"keys\"";
    assert entries == [name + ":" + list];
    assert JoinCommas(entries) == name + ":" + list;
    assert KeysBody(keys) == "{" + (name + ":" + list) + "}";
    assert "{" + (name + ":" + list) + "}" == ("{" + name + ":") + list + "}";
    assert "{" + name + ":" == "{\"keys\":";
  }

  lemma EncodeTwoStrings()
    ensures Encode(Arr([Str("a"), Str("b")])) == "[\"a\",\"b\"]"
  {
    EscapeLettersUnchanged("a");
    EscapeLettersUnchanged("b");
    var items := [Str("a"), Str("b")];
    var parts := seq(|items|, k requires 0 <= k < |items| => Encode(items[k]));
    assert Encode(Str("a")) == "\"a\"";
    assert Encode(Str("b")) == "\"b\"";
    assert parts[0] == "\"a\"" && parts[1] == "\"b\"";
    assert parts == ["\"a\"", "\"b\""];
    assert JoinCommas(parts) == "\"a\",\"b\"";
  }

  /** The body for the keys "a" and "b". */
  lemma KeysBodyExample()
    ensures KeysBody(Arr([Str("a"), Str("b")])) == "{\"keys\":[\"a\",\"b\"]}"
  {
    KeysBodyShape(Arr([Str("a"), Str("b")]));
    EncodeTwoStrings();
  }
}
