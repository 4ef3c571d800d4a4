/**
 * The process-wide state of the older library's entry class
 * (lib/Phpcouch.class.php): configuration options, some of which can be
 * locked read-only, and a registry of named connections. Both are
 * modelled as explicit values passed in and returned, not as globals.
 */
module Phpcouch {
  import opened Wrappers
  import opened PhpValues
  import opened Exceptions

  // ---------------------------------------------------------------------
  // Named connections

  function NotConfigured(name: string): Exc {
    Exc(PhpcouchException, "Connection \"" + name + "\" not configured.", 0, None)
  }

  /** `getConnection`: the registered connection, or the "not configured" exception. */
  function GetConnection<C>(registry: map<string, C>, name: string): (r: Result<C, Exc>)
    ensures r.Success? <==> name in registry
    ensures r.Success? ==> r.value == registry[name]
    ensures r.Failure? ==> r.error == NotConfigured(name)
  {
    if name in registry then Success(registry[name]) else Failure(NotConfigured(name))
  }

  /** `registerConnection`: afterwards the name yields this connection; other names are unaffected. */
  function RegisterConnection<C>(registry: map<string, C>, name: string, connection: C): (r: map<string, C>)
    ensures GetConnection(r, name) == Success(connection)
    ensures forall n :: n != name ==> GetConnection(r, n) == GetConnection(registry, n)
  {
    registry[name := connection]
  }

  /**
   * `unregisterConnection`: returns the removed connection (null when the
   * name was not registered); afterwards looking the name up throws.
   */
  function UnregisterConnection<C>(registry: map<string, C>, name: string): (r: (map<string, C>, Option<C>))
    ensures r.1.Some? <==> name in registry
    ensures r.1.Some? ==> r.1.value == registry[name]
    ensures GetConnection(r.0, name) == Failure(NotConfigured(name))
    ensures forall n :: n != name ==> GetConnection(r.0, n) == GetConnection(registry, n)
  {
    if name in registry then (registry - {name}, Some(registry[name])) else (registry, None)
  }

  /** Registering and then unregistering a name hands back the connection and forgets the name. */
  lemma RegisterThenUnregister<C>(registry: map<string, C>, name: string, connection: C)
    ensures UnregisterConnection(RegisterConnection(registry, name, connection), name).1 == Some(connection)
    ensures GetConnection(UnregisterConnection(RegisterConnection(registry, name, connection), name).0, name).Failure?
  {
  }

  // ---------------------------------------------------------------------
  // Options with read-only locks

  /** The option values, and the values of the options locked read-only. */
  datatype Config = Config(options: map<string, Value>, readonlies: map<string, Value>)

  const InitialConfig: Config := Config(map[], map[])


  /** `hasOption`. A stored null does not count as set. */
  predicate HasOption(c: Config, name: string) {
    IsSet(c.options, name)
  }

  /** `isOptionReadonly`. A read-only lock on a null value does not count. */
  predicate IsOptionReadonly(c: Config, name: string) {
    IsSet(c.readonlies, name)
  }

  /** `getOption`: the stored value when it is set, otherwise the default. */
  function GetOption(c: Config, name: string, default: Value): (r: Value)
    ensures HasOption(c, name) ==> r == c.options[name]
    ensures !HasOption(c, name) ==> r == default
  {
    if IsSet(c.options, name) then c.options[name] else default
  }

  function GetOptions(c: Config): map<string, Value> {
    c.options
  }

  /** `hasOption` answers true exactly when `getOption` ignores its default, which happens when `getOptions` holds a non-null value. */
  lemma HasOptionIffGetOptionIgnoresDefault(c: Config, name: string, default: Value)
    ensures HasOption(c, name) <==> GetOption(c, name, Null) != Null
    ensures HasOption(c, name) <==> name in GetOptions(c) && GetOptions(c)[name] != Null
    ensures HasOption(c, name) ==> GetOption(c, name, default) == GetOptions(c)[name]
  {
  }

  /** `isOptionReadonly` answers true exactly when every `setOption` and `removeOption` on the name is refused. */
  lemma ReadonlyIffSetOptionRefused(c: Config, name: string)
    ensures IsOptionReadonly(c, name) <==> !SetOption(c, name, Null, true, false).1
    ensures IsOptionReadonly(c, name) ==> forall v, o, ro :: !SetOption(c, name, v, o, ro).1
    ensures IsOptionReadonly(c, name) ==> !RemoveOption(c, name).1
  {
  }

  /**
   * `setOption`: succeeds exactly when overwriting is allowed (or the option
   * is not set yet) and the option is not locked; on success the value is
   * stored, and locked too when `readonly` is asked for. On failure nothing changes.
   */
  function SetOption(c: Config, name: string, value: Value, overwrite: bool, readonly: bool): (r: (Config, bool))
    ensures r.1 <==> (overwrite || !HasOption(c, name)) && !IsOptionReadonly(c, name)
    ensures r.1 ==> name in r.0.options && r.0.options[name] == value
    ensures r.1 && readonly ==> name in r.0.readonlies && r.0.readonlies[name] == value
    ensures r.0.options - {name} == c.options - {name}
    ensures r.0.readonlies - {name} == c.readonlies - {name}
    ensures !r.1 || !readonly ==> r.0.readonlies == c.readonlies
    ensures !r.1 ==> r.0 == c
  {
    if (overwrite || !IsSet(c.options, name)) && !IsSet(c.readonlies, name) then
      var options := c.options[name := value];
      (Config(options, if readonly then c.readonlies[name := value] else c.readonlies), true)
    else
      (c, false)
  }

  /** `removeOption`: deletes the option and answers true exactly when it is set and not locked. */
  function RemoveOption(c: Config, name: string): (r: (Config, bool))
    ensures r.1 <==> HasOption(c, name) && !IsOptionReadonly(c, name)
    ensures r.1 ==> name !in r.0.options && r.0.options - {name} == c.options - {name}
    ensures r.0.readonlies == c.readonlies
    ensures !r.1 ==> r.0 == c
  {
    if IsSet(c.options, name) && !IsSet(c.readonlies, name) then
      (c.(options := c.options - {name}), true)
    else
      (c, false)
  }

  /**
   * `setOptions`: merges `data` over the current options, then merges the
   * locked values over that, so a locked option keeps its locked value.
   */
  function SetOptions(c: Config, data: map<string, Value>): (r: Config)
    ensures r.readonlies == c.readonlies
    ensures r.options.Keys == c.options.Keys + data.Keys + c.readonlies.Keys
    ensures forall k :: k in c.readonlies ==> r.options[k] == c.readonlies[k]
    ensures forall k :: k in data && k !in c.readonlies ==> r.options[k] == data[k]
    ensures forall k :: k in c.options && k !in data && k !in c.readonlies ==> r.options[k] == c.options[k]
  {
    c.(options := c.options + data + c.readonlies)
  }

  /**
   * `setOptions` as written, over the ordered arrays PHP keeps: two
   * `array_merge`s. For option names that are not integer keys it is the
   * key-preserving merge `SetOptions` states.
   */
  function SetOptionsAsWritten(options: Entries, data: Entries, readonlies: Entries): Entries {
    ArrayMerge(ArrayMerge(options, data), readonlies)
  }

  /** Over option names that are not integer keys, `setOptions` as written is the merge `SetOptions` states. */
  lemma SetOptionsAsWrittenAgrees(options: Entries, data: Entries, readonlies: Entries)
    requires UniqueKeys(options) && NoIntegerKeys(options)
    requires UniqueKeys(data) && NoIntegerKeys(data)
    requires UniqueKeys(readonlies) && NoIntegerKeys(readonlies)
    ensures EntriesMap(SetOptionsAsWritten(options, data, readonlies))
      == SetOptions(Config(EntriesMap(options), EntriesMap(readonlies)), EntriesMap(data)).options
  {
    ArrayMergeWithoutIntegerKeys(options, data);
    ArrayMergeWithoutIntegerKeys(ArrayMerge(options, data), readonlies);
  }

  /**
   * `array_merge` renumbers integer keys, so an option locked under the
   * name "8" loses its value on any `setOptions` call, even an empty one:
   * `getOption("8")` then answers the default while `isOptionReadonly("8")`
   * stays true.
   */
  lemma SetOptionsLosesIntegerNamedLock()
    ensures var r := SetOptionsAsWritten([("8", Str("x"))], [], [("8", Str("x"))]);
      r == [("0", Str("x")), ("1", Str("x"))]
    ensures var c := Config(EntriesMap(SetOptionsAsWritten([("8", Str("x"))], [], [("8", Str("x"))])), map["8" := Str("x")]);
      IsOptionReadonly(c, "8") && GetOption(c, "8", Null) == Null && !LocksHeld(c)
  {
    assert IsIntegerKey("8") && IsIntegerKey("0");
    assert IntToString(0) == "0" && IntToString(1) == "1";
    var once := ArrayMerge([("8", Str("x"))], []);
    assert MergeInto([], [("8", Str("x"))]) == [("0", Str("x"))];
    assert once == [("0", Str("x"))];
    assert MergeInto([], once) == [("0", Str("x"))];
    assert ArrayMerge(once, [("8", Str("x"))]) == [("0", Str("x")), ("1", Str("x"))];
    var c := Config(EntriesMap([("0", Str("x")), ("1", Str("x"))]), map["8" := Str("x")]);
    assert "8" !in c.options;
  }

  /**
   * `clearOptions`: keeps only the locked entries whose locked value equals
   * the current one (compared as strings, as `array_intersect_assoc` does),
   * holding the locked value.
   */
  function ClearOptions(c: Config): (r: Config)
    ensures r.readonlies == c.readonlies
    ensures forall k :: k in r.options <==> k in c.readonlies && k in c.options && StrVal(c.readonlies[k]) == StrVal(c.options[k])
    ensures forall k :: k in r.options ==> r.options[k] == c.readonlies[k]
  {
    c.(options := map k | k in c.readonlies && k in c.options && StrVal(c.readonlies[k]) == StrVal(c.options[k]) :: c.readonlies[k])
  }

  // ---------------------------------------------------------------------
  // The read-only invariant

  /** Every locked option is present and holds its locked value. */
  ghost predicate LocksHeld(c: Config) {
    forall k :: IsOptionReadonly(c, k) ==> k in c.options && c.options[k] == c.readonlies[k]
  }

  /** The option operations, for reasoning about any sequence of them. */
  datatype ConfigOp =
    | SetOptionOp(name: string, value: Value, overwrite: bool, readonly: bool)
    | RemoveOptionOp(name: string)
    | SetOptionsOp(data: map<string, Value>)
    | ClearOptionsOp

  function Apply(c: Config, op: ConfigOp): Config {
    match op
    case SetOptionOp(name, value, overwrite, readonly) => SetOption(c, name, value, overwrite, readonly).0
    case RemoveOptionOp(name) => RemoveOption(c, name).0
    case SetOptionsOp(data) => SetOptions(c, data)
    case ClearOptionsOp => ClearOptions(c)
  }

  function Run(c: Config, ops: seq<ConfigOp>): Config
    decreases |ops|
  {
    if ops == [] then c else Run(Apply(c, ops[0]), ops[1..])
  }

  /**
   * Each operation keeps every lock held, never drops or alters a lock,
   * and never changes the value of a locked option.
   */
  lemma ApplyKeepsLocks(c: Config, op: ConfigOp)
    requires LocksHeld(c)
    ensures LocksHeld(Apply(c, op))
    ensures forall k :: IsOptionReadonly(c, k) ==> IsOptionReadonly(Apply(c, op), k)
    ensures forall k :: IsOptionReadonly(c, k) ==> Apply(c, op).readonlies[k] == c.readonlies[k]
    ensures forall k :: IsOptionReadonly(c, k) ==> k in Apply(c, op).options && Apply(c, op).options[k] == c.options[k]
  {
    var r := Apply(c, op);
    match op {
      case SetOptionOp(name, value, overwrite, readonly) =>
        forall k | IsOptionReadonly(r, k)
          ensures k in r.options && r.options[k] == r.readonlies[k]
        {
          if k != name {
            assert k in r.readonlies - {name};
            assert k in c.readonlies - {name};
            assert k in c.options - {name};
            assert r.options[k] == (r.options - {name})[k];
            assert r.readonlies[k] == (r.readonlies - {name})[k];
          }
        }
        forall k | IsOptionReadonly(c, k)
          ensures IsOptionReadonly(r, k) && r.readonlies[k] == c.readonlies[k] && r.options[k] == c.options[k]
        {
          assert k != name || !SetOption(c, name, value, overwrite, readonly).1;
          if k != name {
            assert k in c.readonlies - {name};
            assert k in c.options - {name};
            assert r.options[k] == (r.options - {name})[k];
            assert r.readonlies[k] == (r.readonlies - {name})[k];
          }
        }
      case RemoveOptionOp(name) =>
        forall k | IsOptionReadonly(c, k)
          ensures k in r.options && r.options[k] == c.options[k]
        {
          if k != name {
            assert k in c.options - {name};
            assert r.options[k] == (r.options - {name})[k];
          }
        }
      case SetOptionsOp(data) =>
      case ClearOptionsOp =>
    }
  }

  /** Once an option is locked with a non-null value, no sequence of operations changes it. */
  lemma {:induction false} LockedOptionNeverChanges(c: Config, ops: seq<ConfigOp>, name: string)
    requires LocksHeld(c)
    requires IsOptionReadonly(c, name)
    ensures LocksHeld(Run(c, ops))
    ensures IsOptionReadonly(Run(c, ops), name)
    ensures Run(c, ops).readonlies[name] == c.readonlies[name]
    ensures HasOption(Run(c, ops), name) && GetOptions(Run(c, ops))[name] == c.options[name]
    decreases |ops|
  {
    if ops != [] {
      ApplyKeepsLocks(c, ops[0]);
      LockedOptionNeverChanges(Apply(c, ops[0]), ops[1..], name);
    }
  }

  /** Every configuration reached by option operations from one whose locks hold keeps them held. */
  lemma {:induction false} ReachableLocksHeld(c: Config, ops: seq<ConfigOp>)
    requires LocksHeld(c)
    ensures LocksHeld(Run(c, ops))
    decreases |ops|
  {
    if ops != [] {
      ApplyKeepsLocks(c, ops[0]);
      ReachableLocksHeld(Apply(c, ops[0]), ops[1..]);
    }
  }

  /**
   * Whatever operations came before, a successful `setOption` with a
   * non-null value and `readonly` pins that value for good.
   */
  lemma LockPinsOption(before: seq<ConfigOp>, name: string, value: Value, overwrite: bool, after: seq<ConfigOp>)
    requires value != Null
    ensures var c := SetOption(Run(InitialConfig, before), name, value, overwrite, true);
      c.1 ==> GetOption(Run(c.0, after), name, Null) == value
  {
    var start := Run(InitialConfig, before);
    ReachableLocksHeld(InitialConfig, before);
    var c := SetOption(start, name, value, overwrite, true);
    ApplyKeepsLocks(start, SetOptionOp(name, value, overwrite, true));
    if c.1 {
      assert IsOptionReadonly(c.0, name);
      LockedOptionNeverChanges(c.0, after, name);
    }
  }

  /** `clearOptions` keeps every held lock, and nothing that is not locked. */
  lemma ClearOptionsKeepsExactlyLocks(c: Config, name: string)
    requires LocksHeld(c)
    ensures IsOptionReadonly(c, name) ==> HasOption(ClearOptions(c), name) && ClearOptions(c).options[name] == c.readonlies[name]
    ensures !IsOptionReadonly(c, name) ==> !HasOption(ClearOptions(c), name)
  {
  }

  /**
   * `isset` treats a stored null as unset, so locking an option with a null
   * value does not lock it: a later `setOption` still succeeds.
   */
  lemma NullLockDoesNotLock(c: Config, name: string, value: Value)
    requires !IsOptionReadonly(c, name)
    ensures var locked := SetOption(c, name, Null, true, true).0;
      !IsOptionReadonly(locked, name) && SetOption(locked, name, value, true, false).1
  {
  }
}
