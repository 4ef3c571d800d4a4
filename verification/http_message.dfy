/**
 * The content and header store shared by HTTP requests and responses
 * (lib/phpcouch/http/HttpMessage.php). Headers live in a map from the
 * normalised header name to the list of values set for it; every lookup,
 * update and removal normalises the name it is given first.
 */
module HttpMessage {
  import opened Wrappers
  import opened PhpValues

  datatype Message = Message(content: Value, headers: map<string, seq<Value>>)

  /** A freshly constructed message: no content, no headers. */
  const EmptyMessage: Message := Message(Null, map[])

  // ---------------------------------------------------------------------
  // Header name normalisation

  /** `str_replace(from, to, s)` for single characters. */
  function ReplaceChar(s: string, from: char, to: char): (r: string)
    ensures |r| == |s|
  {
    seq(|s|, i requires 0 <= i < |s| => if s[i] == from then to else s[i])
  }

  /** PHP's `ucwords`: upper-case the first character and every character after a delimiter. */
  function UcWords(s: string): (r: string)
    ensures |r| == |s|
  {
    seq(|s|, i requires 0 <= i < |s| => if i == 0 || IsBlank(s[i - 1]) then UpperChar(s[i]) else s[i])
  }

  /**
   * The general rule for a lower-cased name, as the source composes it:
   * hyphens become spaces, `ucwords` capitalises, spaces become hyphens.
   */
  function ComposedRule(l: string): (r: string)
    ensures |r| == |l|
  {
    ReplaceChar(UcWords(ReplaceChar(l, '-', ' ')), ' ', '-')
  }

  /** The break character a hyphen stands for while `ucwords` runs. */
  function Unhyphen(c: char): char {
    if c == '-' then ' ' else c
  }

  /** One character of the general rule's output, given whether it starts a word. */
  function RuleChar(c: char, startsWord: bool): char {
    var d := if startsWord then UpperChar(Unhyphen(c)) else Unhyphen(c);
    if d == ' ' then '-' else d
  }

  /** A character starts a word when it is first or follows a hyphen or a `ucwords` delimiter. */
  predicate StartsWord(l: string, i: int)
    requires 0 <= i < |l|
  {
    i == 0 || IsBlank(Unhyphen(l[i - 1]))
  }

  /** The general rule, one character at a time. */
  function CapitalizeWords(l: string): (r: string)
    ensures |r| == |l|
  {
    seq(|l|, i requires 0 <= i < |l| => RuleChar(l[i], StartsWord(l, i)))
  }

  /** The character-wise rule is the source's composition of replacements and `ucwords`. */
  lemma CapitalizeWordsIsComposedRule(l: string)
    ensures CapitalizeWords(l) == ComposedRule(l)
  {
    forall i | 0 <= i < |l| ensures CapitalizeWords(l)[i] == ComposedRule(l)[i] {
      ComposedRuleAt(l, i);
    }
  }

  lemma ComposedRuleAt(l: string, i: int)
    requires 0 <= i < |l|
    ensures ComposedRule(l)[i] == RuleChar(l[i], StartsWord(l, i))
  {
    var a := ReplaceChar(l, '-', ' ');
    assert a[i] == Unhyphen(l[i]);
    if i > 0 {
      assert a[i - 1] == Unhyphen(l[i - 1]);
    }
  }

  /** The canonical form under which a header is stored and looked up. */
  function NormalizeHeaderName(name: string): (r: string)
    ensures Lower(name) == "etag" ==> r == "ETag"
    ensures Lower(name) == "www-authenticate" ==> r == "WWW-Authenticate"
    ensures |r| == |name|
  {
    var l := Lower(name);
    if l == "etag" then "ETag"
    else if l == "www-authenticate" then "WWW-Authenticate"
    else CapitalizeWords(l)
  }

  /** Two names that differ only in letter case are normalised alike. */
  lemma NormalizeIgnoresCase(a: string, b: string)
    requires Lower(a) == Lower(b)
    ensures NormalizeHeaderName(a) == NormalizeHeaderName(b)
  {
  }

  predicate HasNoUpper(s: string) {
    forall i :: 0 <= i < |s| ==> !IsUpperLetter(s[i])
  }

  lemma LowerHasNoUpper(s: string)
    ensures HasNoUpper(Lower(s))
  {
  }

  lemma CapitalizeWordsAt(l: string, i: int)
    requires 0 <= i < |l|
    ensures CapitalizeWords(l)[i] == RuleChar(l[i], i == 0 || IsBlank(Unhyphen(l[i - 1])))
  {
  }

  lemma LowerRuleChar(c: char, startsWord: bool)
    requires !IsUpperLetter(c)
    ensures LowerChar(RuleChar(c, startsWord)) == if c == ' ' then '-' else c
  {
  }

  /** Lower-casing the general rule's output gives back the input with spaces turned into hyphens. */
  lemma LowerOfCapitalizeWords(l: string)
    requires HasNoUpper(l)
    ensures Lower(CapitalizeWords(l)) == ReplaceChar(l, ' ', '-')
  {
    var r := CapitalizeWords(l);
    forall i | 0 <= i < |l|
      ensures Lower(r)[i] == ReplaceChar(l, ' ', '-')[i]
    {
      CapitalizeWordsAt(l, i);
      LowerRuleChar(l[i], i == 0 || IsBlank(Unhyphen(l[i - 1])));
    }
  }

  /** The general rule cannot tell a space from a hyphen. */
  lemma CapitalizeWordsIgnoresSpaces(l: string)
    ensures CapitalizeWords(ReplaceChar(l, ' ', '-')) == CapitalizeWords(l)
  {
    var a := ReplaceChar(l, ' ', '-');
    forall i | 0 <= i < |l| ensures CapitalizeWords(a)[i] == CapitalizeWords(l)[i] {
      if i > 0 {
        assert Unhyphen(a[i - 1]) == Unhyphen(l[i - 1]);
      }
    }
  }

  /** A name normalises to `ETag` exactly when it is some casing of `etag`. */
  lemma NormalizeIsETag(name: string)
    ensures NormalizeHeaderName(name) == "ETag" <==> Lower(name) == "etag"
  {
    var l := Lower(name);
    if l != "etag" && l != "www-authenticate" && |l| == 4 {
      var r := CapitalizeWords(l);
      LowerHasNoUpper(name);
      assert r[0] != 'E' || r[1] != 'T';
    }
  }

  /** A name normalises to `WWW-Authenticate` exactly when it is some casing of `www-authenticate`. */
  lemma NormalizeIsWwwAuthenticate(name: string)
    ensures NormalizeHeaderName(name) == "WWW-Authenticate" <==> Lower(name) == "www-authenticate"
  {
    var l := Lower(name);
    if l != "etag" && l != "www-authenticate" && |l| == 16 {
      LowerHasNoUpper(name);
      GeneralRuleNeverUpperPair(l);
      assert NormalizeHeaderName(name) == CapitalizeWords(l);
      assert "WWW-Authenticate"[0] == 'W' && "WWW-Authenticate"[1] == 'W';
    }
  }

  /** The general rule never yields two upper-case letters at the start of a lower-case name. */
  lemma GeneralRuleNeverUpperPair(l: string)
    requires HasNoUpper(l) && |l| >= 2
    ensures CapitalizeWords(l)[0] != 'W' || CapitalizeWords(l)[1] != 'W'
  {
    CapitalizeWordsAt(l, 0);
    CapitalizeWordsAt(l, 1);
  }

  /** Where a name and its space-to-hyphen rewrite differ, the name had a space. */
  lemma ReplaceSpacesPointwise(l: string, t: string)
    requires ReplaceChar(l, ' ', '-') == t
    ensures |l| == |t|
    ensures forall i :: 0 <= i < |l| ==> l[i] == t[i] || (l[i] == ' ' && t[i] == '-')
  {
  }

  /** The only lower-case names whose space-to-hyphen rewrite is a special name. */
  lemma SpecialAfterRewrite(l: string)
    requires l != "etag" && l != "www-authenticate"
    ensures ReplaceChar(l, ' ', '-') != "etag"
    ensures ReplaceChar(l, ' ', '-') == "www-authenticate" ==> l == "www authenticate"
  {
    var t := ReplaceChar(l, ' ', '-');
    ReplaceSpacesPointwise(l, t);
    if t == "www-authenticate" {
      assert forall i | 0 <= i < 16 :: l[i] == "www authenticate"[i];
    }
  }

  lemma NormalizeGeneralIdempotent(name: string)
    requires Lower(name) != "etag" && Lower(name) != "www-authenticate" && Lower(name) != "www authenticate"
    ensures NormalizeHeaderName(NormalizeHeaderName(name)) == NormalizeHeaderName(name)
  {
    var l := Lower(name);
    var n := CapitalizeWords(l);
    LowerHasNoUpper(name);
    LowerOfCapitalizeWords(l);
    SpecialAfterRewrite(l);
    CapitalizeWordsIgnoresSpaces(l);
  }

  lemma SpaceToHyphenInWwwAuthenticate()
    ensures ReplaceChar("www authenticate", ' ', '-') == "www-authenticate"
  {
    var t := ReplaceChar("www authenticate", ' ', '-');
    forall i | 0 <= i < 16 ensures t[i] == "www-authenticate"[i] {
    }
  }

  lemma SpacedAuthenticateLowerCase(name: string)
    requires Lower(name) == "www authenticate"
    ensures Lower(NormalizeHeaderName(name)) == "www-authenticate"
  {
    LowerHasNoUpper(name);
    LowerOfCapitalizeWords(Lower(name));
    SpaceToHyphenInWwwAuthenticate();
  }

  lemma SpacedAuthenticateSecondLetter(name: string)
    requires Lower(name) == "www authenticate"
    ensures NormalizeHeaderName(name)[1] == 'w'
  {
    var l := Lower(name);
    assert l[0] == 'w' && l[1] == 'w' && l[3] == ' ';
    assert l != "www-authenticate" by {
      assert "www-authenticate"[3] == '-';
    }
    CapitalizeWordsAt(l, 1);
  }

  lemma NormalizeSpacedAuthenticate(name: string)
    requires Lower(name) == "www authenticate"
    ensures NormalizeHeaderName(name)[1] == 'w'
    ensures NormalizeHeaderName(NormalizeHeaderName(name)) == "WWW-Authenticate"
  {
    SpacedAuthenticateSecondLetter(name);
    SpacedAuthenticateLowerCase(name);
  }

  lemma ETagIsFixed()
    ensures NormalizeHeaderName("ETag") == "ETag"
  {
    assert Lower("ETag") == "etag";
  }

  lemma WwwAuthenticateIsFixed()
    ensures NormalizeHeaderName("WWW-Authenticate") == "WWW-Authenticate"
  {
    var w := Lower("WWW-Authenticate");
    assert w == "www-authenticate" by {
      forall i | 0 <= i < 16 ensures w[i] == "www-authenticate"[i] {
      }
    }
  }

  /** The two special names are their own normal form, and neither is the spaced name. */
  lemma SpecialNameIdempotent(name: string)
    requires Lower(name) == "etag" || Lower(name) == "www-authenticate"
    ensures NormalizeHeaderName(NormalizeHeaderName(name)) == NormalizeHeaderName(name)
    ensures Lower(name) != "www authenticate"
  {
    if Lower(name) == "etag" {
      ETagIsFixed();
    } else {
      WwwAuthenticateIsFixed();
      assert Lower(name)[3] != "www authenticate"[3];
    }
  }

  /**
   * Normalising twice is normalising once, for every name except the casings
   * of "www authenticate" (with a space): the first pass yields
   * "Www-Authenticate", which the second pass maps to "WWW-Authenticate".
   */
  lemma NormalizeIdempotent(name: string)
    ensures NormalizeHeaderName(NormalizeHeaderName(name)) == NormalizeHeaderName(name)
        <==> Lower(name) != "www authenticate"
  {
    var l := Lower(name);
    if l == "etag" || l == "www-authenticate" {
      SpecialNameIdempotent(name);
    } else if l == "www authenticate" {
      NormalizeSpacedAuthenticate(name);
      assert NormalizeHeaderName(NormalizeHeaderName(name))[1] != NormalizeHeaderName(name)[1];
    } else {
      NormalizeGeneralIdempotent(name);
    }
  }

  // ---------------------------------------------------------------------
  // An independent reading of the general rule: split on hyphens,
  // capitalise each word, join with hyphens.

  function Capitalize(w: string): (r: string) {
    if w == [] then [] else [UpperChar(w[0])] + w[1..]
  }

  /** Index of the first hyphen in `s`, or `|s|` when there is none. */
  function HyphenIndex(s: string): (k: nat)
    ensures k <= |s|
    ensures forall i :: 0 <= i < k ==> s[i] != '-'
    ensures k < |s| ==> s[k] == '-'
    decreases |s|
  {
    if s == [] then 0 else if s[0] == '-' then 0 else 1 + HyphenIndex(s[1..])
  }

  function CapitalizeHyphenatedWords(s: string): string
    decreases |s|
  {
    var k := HyphenIndex(s);
    if k == |s| then Capitalize(s) else Capitalize(s[..k]) + "-" + CapitalizeHyphenatedWords(s[k + 1..])
  }

  predicate HasNoWordDelimiter(s: string) {
    forall i :: 0 <= i < |s| ==> !IsBlank(s[i])
  }

  lemma CapitalizeWordsOfWord(w: string)
    requires HasNoWordDelimiter(w)
    requires forall i :: 0 <= i < |w| ==> w[i] != '-'
    ensures CapitalizeWords(w) == Capitalize(w)
  {
    if w != [] {
      var r := CapitalizeWords(w);
      assert r[0] == UpperChar(w[0]);
      forall i | 1 <= i < |w| ensures r[i] == w[i] {}
    }
  }

  lemma CapitalizeWordsSplits(w: string, rest: string)
    ensures CapitalizeWords(w + "-" + rest) == CapitalizeWords(w) + "-" + CapitalizeWords(rest)
  {
    var s := w + "-" + rest;
    var lhs := CapitalizeWords(s);
    var rhs := CapitalizeWords(w) + "-" + CapitalizeWords(rest);
    forall i | 0 <= i < |s| ensures lhs[i] == rhs[i] {
      CapitalizeWordsAt(s, i);
      if i < |w| {
        CapitalizeWordsAt(w, i);
        assert s[i] == w[i];
        if i > 0 {
          assert s[i - 1] == w[i - 1];
        }
      } else if i > |w| {
        var j := i - |w| - 1;
        CapitalizeWordsAt(rest, j);
        assert s[i] == rest[j];
        if j > 0 {
          assert s[i - 1] == rest[j - 1];
        }
      }
    }
  }

  /**
   * For names without whitespace the general rule is exactly "capitalise each
   * hyphen-separated word": `x-custom-header` becomes `X-Custom-Header`.
   */
  lemma {:induction false} CapitalizeWordsIsPerWord(s: string)
    requires HasNoWordDelimiter(s)
    ensures CapitalizeWords(s) == CapitalizeHyphenatedWords(s)
    decreases |s|
  {
    var k := HyphenIndex(s);
    if k == |s| {
      CapitalizeWordsOfWord(s);
    } else {
      var w := s[..k];
      var rest := s[k + 1..];
      assert s == w + "-" + rest;
      CapitalizeWordsSplits(w, rest);
      CapitalizeWordsOfWord(w);
      CapitalizeWordsIsPerWord(rest);
    }
  }

  /** Normalisation of an ordinary header name, stated through the per-word reading. */
  lemma NormalizeCapitalizesEachWord(name: string)
    requires HasNoWordDelimiter(name)
    requires Lower(name) != "etag" && Lower(name) != "www-authenticate"
    ensures NormalizeHeaderName(name) == CapitalizeHyphenatedWords(Lower(name))
  {
    CapitalizeWordsIsPerWord(Lower(name));
  }

  lemma LowerOfLowerCase(s: string)
    requires HasNoUpper(s)
    ensures Lower(s) == s
  {
  }

  lemma TwoHyphensNotSpecial(n: string, i: int, j: int)
    requires 0 <= i < j < |n| && n[i] == '-' && n[j] == '-'
    ensures n != "etag" && n != "www-authenticate"
  {
    if n == "www-authenticate" {
      assert forall k | 0 <= k < 16 && k != 3 :: n[k] != '-';
    }
  }

  lemma JoinedHasNoUpper(x: string, y: string)
    requires HasNoUpper(x) && HasNoUpper(y)
    ensures HasNoUpper(x + "-" + y)
  {
    var n := x + "-" + y;
    forall i | 0 <= i < |n| ensures !IsUpperLetter(n[i]) {
      if i < |x| {
        assert n[i] == x[i];
      } else if i > |x| {
        assert n[i] == y[i - |x| - 1];
      }
    }
  }

  lemma CapitalizeThreeWords(a: string, b: string, c: string)
    requires HasNoWordDelimiter(a) && HasNoWordDelimiter(b) && HasNoWordDelimiter(c)
    requires forall i :: 0 <= i < |a| ==> a[i] != '-'
    requires forall i :: 0 <= i < |b| ==> b[i] != '-'
    requires forall i :: 0 <= i < |c| ==> c[i] != '-'
    ensures CapitalizeWords(a + "-" + b + "-" + c) == Capitalize(a) + "-" + Capitalize(b) + "-" + Capitalize(c)
  {
    assert a + "-" + b + "-" + c == a + "-" + (b + "-" + c);
    CapitalizeWordsSplits(a, b + "-" + c);
    CapitalizeWordsSplits(b, c);
    CapitalizeWordsOfWord(a);
    CapitalizeWordsOfWord(b);
    CapitalizeWordsOfWord(c);
  }

  /** A three-word name such as `x-custom-header` normalises to `X-Custom-Header`. */
  lemma NormalizeThreeWords(a: string, b: string, c: string)
    requires HasNoWordDelimiter(a) && HasNoWordDelimiter(b) && HasNoWordDelimiter(c)
    requires HasNoUpper(a) && HasNoUpper(b) && HasNoUpper(c)
    requires forall i :: 0 <= i < |a| ==> a[i] != '-'
    requires forall i :: 0 <= i < |b| ==> b[i] != '-'
    requires forall i :: 0 <= i < |c| ==> c[i] != '-'
    ensures NormalizeHeaderName(a + "-" + b + "-" + c) == Capitalize(a) + "-" + Capitalize(b) + "-" + Capitalize(c)
  {
    var n := a + "-" + b + "-" + c;
    JoinedHasNoUpper(a, b);
    JoinedHasNoUpper(a + "-" + b, c);
    LowerOfLowerCase(n);
    TwoHyphensNotSpecial(n, |a|, |a| + 1 + |b|);
    CapitalizeThreeWords(a, b, c);
  }

  // ---------------------------------------------------------------------
  // The header store

  /** The values a header holds after a replacing `setHeader`: an array is taken as the list, anything else as one value. */
  function HeaderValues(value: Value): (r: seq<Value>)
    ensures value.Arr? ==> r == value.items
    ensures !value.Arr? ==> r == [value]
  {
    if value.Arr? then value.items else [value]
  }

  /** `getHeader`: the values stored under the normalised name, or null. */
  function GetHeader(m: Message, name: string): (r: Option<seq<Value>>)
    ensures r.Some? <==> NormalizeHeaderName(name) in m.headers
    ensures r.Some? ==> r.value == m.headers[NormalizeHeaderName(name)]
  {
    var key := NormalizeHeaderName(name);
    if key in m.headers then Some(m.headers[key]) else None
  }

  /** `hasHeader`. */
  predicate HasHeader(m: Message, name: string) {
    NormalizeHeaderName(name) in m.headers
  }

  /** `getHeaders`: the whole store. */
  function GetHeaders(m: Message): map<string, seq<Value>> {
    m.headers
  }

  /** `hasHeader` answers true exactly when `getHeader` finds values, under any casing of the name. */
  lemma HasHeaderIffGetHeader(m: Message, name: string, other: string)
    requires Lower(name) == Lower(other)
    ensures HasHeader(m, name) <==> GetHeader(m, name).Some?
    ensures HasHeader(m, name) <==> HasHeader(m, other)
  {
    NormalizeIgnoresCase(name, other);
  }

  /** The store `getHeaders` returns holds every header `getHeader` finds, under its canonical name. */
  lemma GetHeadersHoldsEveryHeader(m: Message, name: string)
    ensures GetHeader(m, name).Some? <==> NormalizeHeaderName(name) in GetHeaders(m)
    ensures GetHeader(m, name).Some? ==> GetHeaders(m)[NormalizeHeaderName(name)] == GetHeader(m, name).value
  {
  }

  /** `clearHeaders`: afterwards no header is set and the content is untouched. */
  function ClearHeaders(m: Message): (r: Message)
    ensures forall name :: !HasHeader(r, name)
    ensures r.content == m.content
  {
    m.(headers := map[])
  }

  /**
   * `setHeader` as written. With `replace` the entry becomes exactly the new
   * values; without it an absent entry becomes the empty list and a present
   * one is left alone -- the value passed in is dropped in both cases.
   */
  function SetHeader(m: Message, name: string, value: Value, replace: bool): (r: Message)
    ensures replace ==> GetHeader(r, name) == Some(HeaderValues(value))
    ensures !replace && HasHeader(m, name) ==> r == m
    ensures !replace && !HasHeader(m, name) ==> GetHeader(r, name) == Some([])
    ensures r.headers - {NormalizeHeaderName(name)} == m.headers - {NormalizeHeaderName(name)}
    ensures r.content == m.content
  {
    var key := NormalizeHeaderName(name);
    if replace then m.(headers := m.headers[key := HeaderValues(value)])
    else if key in m.headers then m
    else m.(headers := m.headers[key := []])
  }

  /** A header set under one casing of a name is found under every other casing. */
  lemma SetHeaderAnyCasing(m: Message, setName: string, get: string, value: Value)
    requires Lower(setName) == Lower(get)
    ensures GetHeader(SetHeader(m, setName, value, true), get) == Some(HeaderValues(value))
    ensures HasHeader(SetHeader(m, setName, value, true), get)
  {
    NormalizeIgnoresCase(setName, get);
  }

  /** Setting a header leaves every header with a different canonical name as it was. */
  lemma SetHeaderKeepsOthers(m: Message, setName: string, other: string, value: Value, replace: bool)
    requires NormalizeHeaderName(setName) != NormalizeHeaderName(other)
    ensures GetHeader(SetHeader(m, setName, value, replace), other) == GetHeader(m, other)
  {
    var r := SetHeader(m, setName, value, replace);
    var k := NormalizeHeaderName(other);
    assert k in r.headers <==> k in r.headers - {NormalizeHeaderName(setName)};
    assert k in m.headers <==> k in m.headers - {NormalizeHeaderName(setName)};
    if k in r.headers {
      assert r.headers[k] == (r.headers - {NormalizeHeaderName(setName)})[k];
      assert m.headers[k] == (m.headers - {NormalizeHeaderName(setName)})[k];
    }
  }

  /**
   * The documented contract of `setHeader` without `replace` is to append;
   * the code drops the value instead. Setting "1" on an absent header leaves
   * an empty list, where appending would leave ["1"].
   */
  lemma SetHeaderWithoutReplaceDropsValue()
    ensures GetHeader(SetHeader(EmptyMessage, "X-Count", Str("1"), false), "X-Count") == Some([])
    ensures GetHeader(SetHeaderAppending(EmptyMessage, "X-Count", Str("1"), false), "X-Count") == Some([Str("1")])
  {
    assert !HasHeader(EmptyMessage, "X-Count");
  }

  /** `setHeader` as its doc-comment describes it: without `replace`, the new values are appended. */
  function SetHeaderAppending(m: Message, name: string, value: Value, replace: bool): (r: Message)
    ensures replace ==> GetHeader(r, name) == Some(HeaderValues(value))
    ensures !replace && HasHeader(m, name) ==> GetHeader(r, name) == Some(GetHeader(m, name).value + HeaderValues(value))
    ensures !replace && !HasHeader(m, name) ==> GetHeader(r, name) == Some(HeaderValues(value))
    ensures r.headers - {NormalizeHeaderName(name)} == m.headers - {NormalizeHeaderName(name)}
    ensures r.content == m.content
  {
    var key := NormalizeHeaderName(name);
    var values := if replace || key !in m.headers then HeaderValues(value) else m.headers[key] + HeaderValues(value);
    m.(headers := m.headers[key := values])
  }

  /** `removeHeader`: returns what was stored (or null) and forgets it; nothing else changes. */
  function RemoveHeader(m: Message, name: string): (r: (Message, Option<seq<Value>>))
    ensures r.1 == GetHeader(m, name)
    ensures !HasHeader(r.0, name)
    ensures r.0.headers - {NormalizeHeaderName(name)} == m.headers - {NormalizeHeaderName(name)}
    ensures r.0.content == m.content
  {
    var key := NormalizeHeaderName(name);
    if key in m.headers then (m.(headers := m.headers - {key}), Some(m.headers[key])) else (m, None)
  }

  /** Removing under any casing of a name removes the entry set under another casing. */
  lemma RemoveHeaderAnyCasing(m: Message, setName: string, remove: string, value: Value)
    requires Lower(setName) == Lower(remove)
    ensures RemoveHeader(SetHeader(m, setName, value, true), remove).1 == Some(HeaderValues(value))
    ensures !HasHeader(RemoveHeader(SetHeader(m, setName, value, true), remove).0, setName)
  {
    NormalizeIgnoresCase(setName, remove);
  }

  // ---------------------------------------------------------------------
  // Content type

  const ContentTypeHeader: string := "Content-Type"

  lemma LowerContentType()
    ensures Lower(ContentTypeHeader) == "content" + "-" + "type"
  {
    var l := Lower(ContentTypeHeader);
    forall i | 0 <= i < 12 ensures l[i] == ("content" + "-" + "type")[i] {
    }
  }

  lemma CapitalizeContent()
    ensures CapitalizeWords("content") == Capitalize("content")
  {
    CapitalizeWordsOfWord("content");
  }

  lemma CapitalizeType()
    ensures CapitalizeWords("type") == Capitalize("type")
  {
    CapitalizeWordsOfWord("type");
  }

  lemma ContentTypeWords()
    ensures Capitalize("content") + "-" + Capitalize("type") == ContentTypeHeader
  {
    var r := Capitalize("content") + "-" + Capitalize("type");
    forall i | 0 <= i < 12 ensures r[i] == ContentTypeHeader[i] {
    }
  }

  lemma ContentTypeIsCanonical()
    ensures NormalizeHeaderName(ContentTypeHeader) == ContentTypeHeader
  {
    LowerContentType();
    CapitalizeWordsSplits("content", "type");
    CapitalizeContent();
    CapitalizeType();
    ContentTypeWords();
  }

  /** `getContentType`: the first `Content-Type` value, or null when there is none. */
  function GetContentType(m: Message): (r: Value)
    ensures !HasHeader(m, ContentTypeHeader) ==> r == Null
    ensures HasHeader(m, ContentTypeHeader) && GetHeader(m, ContentTypeHeader).value != []
      ==> r == GetHeader(m, ContentTypeHeader).value[0]
    ensures HasHeader(m, ContentTypeHeader) && GetHeader(m, ContentTypeHeader).value == [] ==> r == Null
  {
    match GetHeader(m, ContentTypeHeader)
    case Some(values) => if values != [] then values[0] else Null
    case None => Null
  }

  /** `setContentType`: replaces the `Content-Type` header. */
  function SetContentType(m: Message, contentType: Value): (r: Message)
    ensures GetContentType(r) == (if contentType.Arr? then (if contentType.items == [] then Null else contentType.items[0]) else contentType)
    ensures r.headers - {ContentTypeHeader} == m.headers - {ContentTypeHeader}
    ensures r.content == m.content
  {
    ContentTypeIsCanonical();
    SetHeader(m, ContentTypeHeader, contentType, true)
  }

  /** A content type set through any casing of the header name is the one reported. */
  lemma ContentTypeAnyCasing(m: Message, name: string, contentType: string)
    requires Lower(name) == "content-type"
    ensures GetContentType(SetHeader(m, name, Str(contentType), true)) == Str(contentType)
  {
    assert Lower(ContentTypeHeader) == "content-type";
    NormalizeIgnoresCase(name, ContentTypeHeader);
  }

  // ---------------------------------------------------------------------
  // Content

  /** `hasContent`: anything but null and the empty string counts as content. */
  predicate HasContent(m: Message) {
    m.content != Null && m.content != Str("")
  }

  function GetContent(m: Message): Value {
    m.content
  }

  /** `getContent` reads back what `setContent` stored, and null after `clearContent`. */
  lemma GetContentReadsBack(m: Message, content: Value)
    ensures GetContent(SetContent(m, content)) == content
    ensures GetContent(ClearContent(m)) == Null
  {
  }

  /** `setContent`: afterwards the content is the value given, and the headers are untouched. */
  function SetContent(m: Message, content: Value): (r: Message)
    ensures GetContent(r) == content
    ensures HasContent(r) <==> content != Null && content != Str("")
    ensures r.headers == m.headers
  {
    m.(content := content)
  }

  /** `clearContent`: afterwards there is no content. */
  function ClearContent(m: Message): (r: Message)
    ensures !HasContent(r) && GetContent(r) == Null
    ensures r.headers == m.headers
  {
    m.(content := Null)
  }

  /** Number of bytes UTF-8 uses for one character. */
  function Utf8Width(c: char): (w: nat)
    ensures 1 <= w <= 4
  {
    if c as int < 0x80 then 1 else if c as int < 0x800 then 2 else if c as int < 0x10000 then 3 else 4
  }

  function Utf8Length(s: string): nat
    decreases |s|
  {
    if s == [] then 0 else Utf8Width(s[0]) + Utf8Length(s[1..])
  }

  lemma {:induction false} Utf8LengthBounds(s: string)
    ensures |s| <= Utf8Length(s) <= 4 * |s|
    ensures (forall i :: 0 <= i < |s| ==> s[i] as int < 0x80) ==> Utf8Length(s) == |s|
    decreases |s|
  {
    if s != [] {
      Utf8LengthBounds(s[1..]);
    }
  }

  /**
   * `getContentSize` for content that is not a stream: `strlen` of the
   * content, in bytes of its UTF-8 form. An array has no size.
   */
  function GetContentSize(m: Message): (r: Option<nat>)
    ensures m.content.Str? ==> r.Some? && |m.content.s| <= r.value <= 4 * |m.content.s|
    ensures m.content.Str? && (forall i :: 0 <= i < |m.content.s| ==> m.content.s[i] as int < 0x80) ==> r == Some(|m.content.s|)
    ensures m.content.Int? ==> r == Some(|IntToString(m.content.i)|)
    ensures m.content.Bool? ==> r == Some(|StrVal(m.content)|)
    ensures !HasContent(m) ==> r == Some(0)
    ensures m.content.Arr? <==> r.None?
  {
    match m.content
    case Null => Some(0)
    case Bool(b) => Some(if b then 1 else 0)
    case Int(i) => Some(|IntToString(i)|)
    case Str(s) => Utf8LengthBounds(s); Some(Utf8Length(s))
    case Arr(_) => None
  }

  /** Without content, `getContentSize` reports zero bytes; with it, `getContent` is neither null nor empty. */
  lemma NoContentHasNoSize(m: Message)
    ensures !HasContent(m) ==> GetContentSize(m) == Some(0)
    ensures HasContent(m) <==> GetContent(m) != Null && GetContent(m) != Str("")
  {
  }
}
