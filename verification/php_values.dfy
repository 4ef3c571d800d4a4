/**
 * The slice of PHP's value semantics the library leans on: a tagged value
 * type, boolean conversion, `intval`, string conversion, the `(array)`
 * cast, ASCII case mapping (`strtolower`), `str_replace` and `array_merge`.
 */
module PhpValues {

  /**
   * A PHP value as it reaches the library from a caller or from a decoded
   * response. `Int` stands for a 64-bit PHP integer; the type leaves it
   * unbounded, so a contract that depends on the width says so with
   * `PhpIntMin`/`PhpIntMax`. `Arr` is a list (an array whose keys are
   * 0..n-1). Floats, objects and resources are not part of this model.
   */
  datatype Value = Null | Bool(b: bool) | Int(i: int) | Str(s: string) | Arr(items: seq<Value>)

  /** Bounds of a 64-bit PHP integer. */
  const PhpIntMax: int := 0x7FFF_FFFF_FFFF_FFFF
  const PhpIntMin: int := -0x8000_0000_0000_0000

  /** PHP's `(bool)` conversion: null, false, 0, "", "0" and the empty array are false. */
  predicate Truthy(v: Value) {
    match v
    case Null => false
    case Bool(b) => b
    case Int(i) => i != 0
    case Str(s) => s != "" && s != "0"
    case Arr(items) => items != []
  }

  /** PHP's `isset` on an array entry: present and not null. */
  predicate IsSet(m: map<string, Value>, key: string) {
    key in m && m[key] != Null
  }

  // ---------------------------------------------------------------------
  // Decimal digits

  predicate IsDigit(c: char) {
    '0' <= c <= '9'
  }

  predicate AllDigits(s: string) {
    forall i :: 0 <= i < |s| ==> IsDigit(s[i])
  }

  function DigitChar(d: nat): (c: char)
    requires d < 10
    ensures IsDigit(c)
  {
    ('0' as int + d) as char
  }

  function DigitValue(c: char): (d: nat)
    requires IsDigit(c)
    ensures d < 10
  {
    c as int - '0' as int
  }

  /** The decimal representation of a natural number, without leading zeros. */
  function Decimal(n: nat): (r: string)
    ensures r != [] && AllDigits(r)
    decreases n
  {
    if n < 10 then [DigitChar(n)] else Decimal(n / 10) + [DigitChar(n % 10)]
  }

  /** The number a string of decimal digits denotes (the empty string denotes 0). */
  function DigitsValue(d: string): nat
    requires AllDigits(d)
    decreases |d|
  {
    if d == [] then 0 else 10 * DigitsValue(d[..|d| - 1]) + DigitValue(d[|d| - 1])
  }

  /** How PHP prints an integer: an optional minus sign and the decimal digits. */
  function IntToString(n: int): string {
    if n < 0 then "-" + Decimal(-n) else Decimal(n)
  }

  lemma {:induction false} DigitsValueOfDecimal(n: nat)
    ensures DigitsValue(Decimal(n)) == n
    decreases n
  {
    if n >= 10 {
      DigitsValueOfDecimal(n / 10);
      var d := Decimal(n);
      assert d[..|d| - 1] == Decimal(n / 10);
    }
  }

  // ---------------------------------------------------------------------
  // intval

  /**
   * PHP's six blank characters: `intval` skips them before a number, and
   * `ucwords` takes them as word boundaries by default.
   */
  predicate IsBlank(c: char) {
    c == ' ' || c == '\t' || c == '\n' || c == '\r' || c == '\U{000B}' || c == '\U{000C}'
  }

  function SkipSpaces(s: string): (r: string)
    ensures |r| <= |s|
    decreases |s|
  {
    if s != [] && IsBlank(s[0]) then SkipSpaces(s[1..]) else s
  }

  /** The longest prefix of `s` made of decimal digits. */
  function LeadingDigits(s: string): (r: string)
    ensures AllDigits(r) && r <= s
    decreases |s|
  {
    if s != [] && IsDigit(s[0]) then [s[0]] + LeadingDigits(s[1..]) else []
  }

  /** Saturation of an out-of-range integer string to the 64-bit bounds. */
  function Clamp(n: int): int {
    if n > PhpIntMax then PhpIntMax else if n < PhpIntMin then PhpIntMin else n
  }

  /**
   * `intval` of a string: leading whitespace, an optional sign, then as many
   * digits as follow; anything else ends the number, and a string that does
   * not start with a number gives 0. Out-of-range values saturate.
   */
  function StringToInt(s: string): (r: int)
    ensures PhpIntMin <= r <= PhpIntMax
  {
    var t := SkipSpaces(s);
    if t != [] && (t[0] == '-' || t[0] == '+') then
      var m: int := DigitsValue(LeadingDigits(t[1..]));
      Clamp(if t[0] == '-' then -m else m)
    else
      Clamp(DigitsValue(LeadingDigits(t)))
  }

  /** PHP's `intval`. */
  function IntVal(v: Value): (r: int)
    ensures v.Str? ==> PhpIntMin <= r <= PhpIntMax
    ensures v.Bool? || v.Arr? ==> r == 0 || r == 1
  {
    match v
    case Null => 0
    case Bool(b) => if b then 1 else 0
    case Int(i) => i
    case Str(s) => StringToInt(s)
    case Arr(items) => if items == [] then 0 else 1
  }

  lemma {:induction false} LeadingDigitsOfDigits(d: string)
    requires AllDigits(d)
    ensures LeadingDigits(d) == d
    decreases |d|
  {
    if d != [] {
      LeadingDigitsOfDigits(d[1..]);
    }
  }

  /** `intval` reads back every 64-bit integer PHP prints. */
  lemma IntValOfPrintedInt(n: int)
    requires PhpIntMin <= n <= PhpIntMax
    ensures IntVal(Str(IntToString(n))) == n
  {
    if n < 0 {
      var d := Decimal(-n);
      var t := "-" + d;
      assert SkipSpaces(t) == t;
      assert t[1..] == d;
      LeadingDigitsOfDigits(d);
      DigitsValueOfDecimal(-n);
    } else {
      var d := Decimal(n);
      assert SkipSpaces(d) == d;
      LeadingDigitsOfDigits(d);
      DigitsValueOfDecimal(n);
    }
  }

  // ---------------------------------------------------------------------
  // String conversion and the array cast

  /** PHP's `(string)` conversion; an array converts to the word "Array". */
  function StrVal(v: Value): string {
    match v
    case Null => ""
    case Bool(b) => if b then "1" else ""
    case Int(i) => IntToString(i)
    case Str(s) => s
    case Arr(_) => "Array"
  }

  /** PHP's `(array)` cast: null becomes the empty array, a scalar a one-element array. */
  function ToArray(v: Value): (r: seq<Value>)
    ensures v.Arr? ==> r == v.items
    ensures v.Null? ==> r == []
    ensures !v.Arr? && !v.Null? ==> r == [v]
  {
    match v
    case Null => []
    case Arr(items) => items
    case _ => [v]
  }

  // ---------------------------------------------------------------------
  // ASCII case mapping (strtolower / strtoupper)

  predicate IsUpperLetter(c: char) {
    'A' <= c <= 'Z'
  }

  predicate IsLowerLetter(c: char) {
    'a' <= c <= 'z'
  }

  function LowerChar(c: char): char {
    if IsUpperLetter(c) then (c as int + 32) as char else c
  }

  function UpperChar(c: char): char {
    if IsLowerLetter(c) then (c as int - 32) as char else c
  }

  /** PHP's `strtolower`, which maps only the ASCII letters. */
  function Lower(s: string): (r: string)
    ensures |r| == |s|
  {
    seq(|s|, i requires 0 <= i < |s| => LowerChar(s[i]))
  }

  // ---------------------------------------------------------------------
  // str_replace

  /** `needle` occurs in `s` starting at index `i`. */
  predicate OccursAt(needle: string, s: string, i: int) {
    0 <= i && i + |needle| <= |s| && s[i..i + |needle|] == needle
  }

  /** `needle` occurs somewhere in `s`. */
  ghost predicate Occurs(needle: string, s: string) {
    exists i :: OccursAt(needle, s, i)
  }

  /**
   * PHP's `str_replace` on one subject: scan left to right, replace each
   * non-overlapping occurrence of `search`, never rescan the replacement.
   * An empty search string leaves the subject alone.
   */
  function StrReplace(search: string, replace: string, subject: string): string
    decreases |subject|
  {
    if search == [] || |subject| < |search| then subject
    else if subject[..|search|] == search then replace + StrReplace(search, replace, subject[|search|..])
    else [subject[0]] + StrReplace(search, replace, subject[1..])
  }

  /** A subject in which the search string does not occur comes back unchanged. */
  lemma {:induction false} StrReplaceWithoutOccurrence(search: string, replace: string, subject: string)
    requires !Occurs(search, subject)
    ensures StrReplace(search, replace, subject) == subject
    decreases |subject|
  {
    if search != [] && |subject| >= |search| {
      assert !OccursAt(search, subject, 0);
      var rest := subject[1..];
      forall i | OccursAt(search, rest, i)
        ensures false
      {
        assert subject[i + 1..i + 1 + |search|] == rest[i..i + |search|];
        assert OccursAt(search, subject, i + 1);
      }
      StrReplaceWithoutOccurrence(search, replace, rest);
    }
  }

  /** Removing a leading `search` from `search + rest` leaves `rest` when `rest` has no further occurrence. */
  lemma StrReplaceStripsPrefix(search: string, rest: string)
    requires search != []
    requires !Occurs(search, rest)
    ensures StrReplace(search, "", search + rest) == rest
  {
    var s := search + rest;
    assert s[..|search|] == search;
    assert s[|search|..] == rest;
    StrReplaceWithoutOccurrence(search, "", rest);
  }

  // ---------------------------------------------------------------------
  // Ordered arrays and array_merge

  /** A non-empty run of digits without a leading zero (a lone "0" is fine). */
  predicate CanonicalDigits(d: string) {
    d != [] && AllDigits(d) && (d[0] == '0' ==> |d| == 1)
  }

  /**
   * A string PHP stores as an integer array key: the canonical decimal form
   * of a 64-bit integer ("8" and "-3", but not "08", "-0" or "8 ").
   */
  predicate IsIntegerKey(k: string) {
    if k != [] && k[0] == '-' then
      CanonicalDigits(k[1..]) && k[1..] != "0" && DigitsValue(k[1..]) <= -PhpIntMin
    else
      CanonicalDigits(k) && DigitsValue(k) <= PhpIntMax
  }

  /** A PHP array as its entries in order; an integer key appears in its decimal form. */
  type Entries = seq<(string, Value)>

  /** The key-to-value view of an array whose keys are distinct. */
  function EntriesMap(a: Entries): map<string, Value>
    decreases |a|
  {
    if a == [] then map[] else EntriesMap(a[1..])[a[0].0 := a[0].1]
  }

  /** No key occurs twice, as in every PHP array. */
  predicate UniqueKeys(a: Entries)
    decreases |a|
  {
    a == [] || (a[0].0 !in EntriesMap(a[1..]) && UniqueKeys(a[1..]))
  }

  predicate NoIntegerKeys(a: Entries) {
    forall i :: 0 <= i < |a| ==> !IsIntegerKey(a[i].0)
  }

  function IntegerKeyCount(a: Entries): nat
    decreases |a|
  {
    if a == [] then 0 else (if IsIntegerKey(a[0].0) then 1 else 0) + IntegerKeyCount(a[1..])
  }

  /** Stores a value under a key: in place when the key is there, at the end otherwise. */
  function Put(a: Entries, k: string, v: Value): Entries
    decreases |a|
  {
    if a == [] then [(k, v)]
    else if a[0].0 == k then [(k, v)] + a[1..]
    else [a[0]] + Put(a[1..], k, v)
  }

  /**
   * Adds the entries of `b` to `acc` the way `array_merge` does: an entry
   * with an integer key is appended under the next integer after those
   * already there, one with a string key overwrites in place or is appended.
   */
  function MergeInto(acc: Entries, b: Entries): Entries
    decreases |b|
  {
    if b == [] then acc
    else if IsIntegerKey(b[0].0) then MergeInto(acc + [(IntToString(IntegerKeyCount(acc)), b[0].1)], b[1..])
    else MergeInto(Put(acc, b[0].0, b[0].1), b[1..])
  }

  /** PHP's `array_merge` of two arrays: integer keys are renumbered from 0 in order. */
  function ArrayMerge(a: Entries, b: Entries): Entries {
    MergeInto(MergeInto([], a), b)
  }

  lemma {:induction false} PutMap(a: Entries, k: string, v: Value)
    ensures EntriesMap(Put(a, k, v)) == EntriesMap(a)[k := v]
    decreases |a|
  {
    if a != [] && a[0].0 != k {
      PutMap(a[1..], k, v);
      assert Put(a, k, v)[1..] == Put(a[1..], k, v);
    } else if a != [] {
      assert Put(a, k, v)[1..] == a[1..];
    }
  }

  lemma {:induction false} PutKeepsKeysApart(a: Entries, k: string, v: Value)
    requires UniqueKeys(a)
    requires NoIntegerKeys(a) && !IsIntegerKey(k)
    ensures UniqueKeys(Put(a, k, v)) && NoIntegerKeys(Put(a, k, v))
    decreases |a|
  {
    var p := Put(a, k, v);
    if a != [] && a[0].0 != k {
      PutKeepsKeysApart(a[1..], k, v);
      PutMap(a[1..], k, v);
      assert p[1..] == Put(a[1..], k, v);
      assert p[0] == a[0];
      forall i | 0 <= i < |p| ensures !IsIntegerKey(p[i].0) {
        if i > 0 {
          assert p[i] == Put(a[1..], k, v)[i - 1];
        }
      }
    } else if a != [] {
      assert p[1..] == a[1..];
      forall i | 0 <= i < |p| ensures !IsIntegerKey(p[i].0) {
        if i > 0 {
          assert p[i] == a[i];
        }
      }
    }
  }

  lemma TailKeysApart(b: Entries)
    requires b != [] && UniqueKeys(b) && NoIntegerKeys(b)
    ensures UniqueKeys(b[1..]) && NoIntegerKeys(b[1..]) && !IsIntegerKey(b[0].0)
    ensures b[0].0 !in EntriesMap(b[1..])
    ensures EntriesMap(b) == EntriesMap(b[1..])[b[0].0 := b[0].1]
  {
    forall i | 0 <= i < |b[1..]| ensures !IsIntegerKey(b[1..][i].0) {
      assert b[1..][i] == b[i + 1];
    }
  }

  lemma UpdateThenUnion(m: map<string, Value>, n: map<string, Value>, k: string, v: Value)
    requires k !in n
    ensures m[k := v] + n == m + n[k := v]
  {
  }

  /** Without integer keys, merging is the right-biased union of the two key-to-value views. */
  lemma {:induction false} MergeIntoWithoutIntegerKeys(acc: Entries, b: Entries)
    requires UniqueKeys(acc) && NoIntegerKeys(acc)
    requires UniqueKeys(b) && NoIntegerKeys(b)
    ensures EntriesMap(MergeInto(acc, b)) == EntriesMap(acc) + EntriesMap(b)
    ensures UniqueKeys(MergeInto(acc, b)) && NoIntegerKeys(MergeInto(acc, b))
    decreases |b|
  {
    if b != [] {
      var k, v := b[0].0, b[0].1;
      TailKeysApart(b);
      var next := Put(acc, k, v);
      assert MergeInto(acc, b) == MergeInto(next, b[1..]);
      PutMap(acc, k, v);
      PutKeepsKeysApart(acc, k, v);
      MergeIntoWithoutIntegerKeys(next, b[1..]);
      UpdateThenUnion(EntriesMap(acc), EntriesMap(b[1..]), k, v);
    }
  }

  /** `array_merge` of arrays without integer keys keeps every key, the second array's values winning. */
  lemma ArrayMergeWithoutIntegerKeys(a: Entries, b: Entries)
    requires UniqueKeys(a) && NoIntegerKeys(a)
    requires UniqueKeys(b) && NoIntegerKeys(b)
    ensures EntriesMap(ArrayMerge(a, b)) == EntriesMap(a) + EntriesMap(b)
    ensures UniqueKeys(ArrayMerge(a, b)) && NoIntegerKeys(ArrayMerge(a, b))
  {
    MergeIntoWithoutIntegerKeys([], a);
    assert EntriesMap([]) + EntriesMap(a) == EntriesMap(a);
    MergeIntoWithoutIntegerKeys(MergeInto([], a), b);
  }
}
