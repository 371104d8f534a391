// Structured logging (pkg/observability/logging.go): log levels and their names, a logger carrying a
// level and a map of fields, and the text of one log entry. Field values
// are held as the text `%v` prints for them; the clock, the caller lookup
// and the order in which Go ranges over a map are parameters.
module Observability {
  import opened Wrappers

  /** Go's LogLevel is an int; the five named levels are 0 to 4. */
  type LogLevel = int

  const DEBUG: LogLevel := 0
  const INFO: LogLevel := 1
  const WARN: LogLevel := 2
  const ERROR: LogLevel := 3
  const FATAL: LogLevel := 4

  /** time.RFC3339, the logger's time format. */
  const RFC3339: string := "2006-01-02T15:04:05Z07:00"

  /** A field value as `%v` formats it. */
  type Value = string

  type Fields = map<string, Value>

  // Level names.

  /** The name of a level; any int outside the five levels is "UNKNOWN". */
  function LevelString(l: LogLevel): (name: string)
    ensures (DEBUG <= l <= FATAL) <==> name != "UNKNOWN"
    ensures |name| >= 4
  {
    if l == DEBUG then "DEBUG"
    else if l == INFO then "INFO"
    else if l == WARN then "WARN"
    else if l == ERROR then "ERROR"
    else if l == FATAL then "FATAL"
    else "UNKNOWN"
  }

  /** ASCII lower case. */
  function Lower(s: string): (t: string)
    ensures |t| == |s|
  {
    seq(|s|, i requires 0 <= i < |s| => if 'A' <= s[i] <= 'Z' then (s[i] as int + 32) as char else s[i])
  }

  /**
   * A level from its name in upper or in lower case, or "WARNING" in
   * either case for WARN; anything else falls back to INFO.
   */
  function ParseLogLevel(level: string): (l: LogLevel)
    ensures DEBUG <= l <= FATAL
  {
    if level == "DEBUG" || level == "debug" then DEBUG
    else if level == "INFO" || level == "info" then INFO
    else if level == "WARN" || level == "warn" || level == "WARNING" || level == "warning" then WARN
    else if level == "ERROR" || level == "error" then ERROR
    else if level == "FATAL" || level == "fatal" then FATAL
    else INFO
  }

  /** The five names are distinct, so the name determines the level. */
  lemma LevelStringInjective(a: LogLevel, b: LogLevel)
    requires DEBUG <= a <= FATAL && DEBUG <= b <= FATAL
    ensures LevelString(a) == LevelString(b) <==> a == b
  {
    assert LevelString(a)[0] == LevelString(b)[0] ==> a == b;
  }

  /** The lower-case spellings the parser compares against. */
  lemma LowerNames()
    ensures Lower("DEBUG") == "debug" && Lower("INFO") == "info" && Lower("WARN") == "warn"
    ensures Lower("ERROR") == "error" && Lower("FATAL") == "fatal" && Lower("WARNING") == "warning"
  {
    assert Lower("DEBUG") == ['d', 'e', 'b', 'u', 'g'];
    assert Lower("INFO") == ['i', 'n', 'f', 'o'];
    assert Lower("WARN") == ['w', 'a', 'r', 'n'];
    assert Lower("ERROR") == ['e', 'r', 'r', 'o', 'r'];
    assert Lower("FATAL") == ['f', 'a', 't', 'a', 'l'];
    assert Lower("WARNING") == ['w', 'a', 'r', 'n', 'i', 'n', 'g'];
  }

  /**
   * Parsing a level's name, in upper or in lower case, gives the level back;
   * "WARNING" is a second name for WARN, in either case.
   */
  lemma ParseRoundTrip(l: LogLevel)
    requires DEBUG <= l <= FATAL
    ensures ParseLogLevel(LevelString(l)) == l
    ensures ParseLogLevel(Lower(LevelString(l))) == l
    ensures ParseLogLevel("WARNING") == WARN && ParseLogLevel(Lower("WARNING")) == WARN
  {
    LowerNames();
  }

  /** A string that is no level's name in either case, nor WARNING, parses as INFO. */
  lemma ParseUnknown(level: string)
    requires forall l :: DEBUG <= l <= FATAL ==> level != LevelString(l) && level != Lower(LevelString(l))
    requires level != "WARNING" && level != Lower("WARNING")
    ensures ParseLogLevel(level) == INFO
  {
    LowerNames();
    assert level != LevelString(DEBUG) && level != Lower(LevelString(DEBUG));
    assert level != LevelString(WARN) && level != Lower(LevelString(WARN));
    assert level != LevelString(ERROR) && level != Lower(LevelString(ERROR));
    assert level != LevelString(FATAL) && level != Lower(LevelString(FATAL));
  }

  // Field maps.

  /** The fields of `base` overlaid by each of `extras` in turn, later maps winning. */
  function MergeAll(base: Fields, extras: seq<Fields>): Fields
  {
    if extras == [] then base else MergeAll(base, extras[..|extras| - 1]) + extras[|extras| - 1]
  }

  /** Looking a key up: the latest map that has it, else `base`. */
  function Lookup(base: Fields, extras: seq<Fields>, k: string): Option<Value>
  {
    if extras == [] then (if k in base then Some(base[k]) else None)
    else if k in extras[|extras| - 1] then Some(extras[|extras| - 1][k])
    else Lookup(base, extras[..|extras| - 1], k)
  }

  /** The merged map holds exactly the keys some map has, each with its value from the latest map that has it. */
  lemma {:induction false} MergeAllLookup(base: Fields, extras: seq<Fields>, k: string)
    ensures k in MergeAll(base, extras) <==> Lookup(base, extras, k).Some?
    ensures k in MergeAll(base, extras) ==> MergeAll(base, extras)[k] == Lookup(base, extras, k).value
    decreases |extras|
  {
    if extras != [] {
      MergeAllLookup(base, extras[..|extras| - 1], k);
    }
  }

  /** The fields an entry shows: the logger's, each extra map's, then "file" from the caller when known. */
  function AllFields(fields: Fields, extras: seq<Fields>, caller: Option<string>): Fields
  {
    var merged := MergeAll(fields, extras);
    if caller.Some? then merged["file" := caller.value] else merged
  }

  /** `order` lists each key of `keys` exactly once: one order Go may range over the map in. */
  ghost predicate Enumerates(order: seq<string>, keys: set<string>)
  {
    (forall i, j :: 0 <= i < j < |order| ==> order[i] != order[j]) &&
    (forall i :: 0 <= i < |order| ==> order[i] in keys) &&
    (forall k :: k in keys ==> k in order)
  }

  /** The entries of m whose keys are in ks. */
  function Restrict(m: Fields, ks: set<string>): Fields
  {
    map k | k in m.Keys * ks :: m[k]
  }

  lemma MergeStep(dst: Fields, src: Fields, done: set<string>, k: string)
    requires k in src
    ensures (dst + Restrict(src, done))[k := src[k]] == dst + Restrict(src, done + {k})
  {
  }

  lemma RestrictAll(src: Fields)
    ensures Restrict(src, src.Keys) == src
  {
  }

  /** Copy every entry of src into dst, one key at a time, as Go's `for k, v := range src` does. */
  method MergeInto(dst: Fields, src: Fields) returns (r: Fields)
    ensures r == dst + src
  {
    r := dst;
    var rest := src.Keys;
    assert Restrict(src, src.Keys - rest) == map[];
    while rest != {}
      invariant rest <= src.Keys
      invariant r == dst + Restrict(src, src.Keys - rest)
      decreases |rest|
    {
      var k :| k in rest;
      MergeStep(dst, src, src.Keys - rest, k);
      assert (src.Keys - rest) + {k} == src.Keys - (rest - {k});
      r := r[k := src[k]];
      rest := rest - {k};
    }
    RestrictAll(src);
  }

  /** Merging overlays: the keys of both maps, the new map's values where it has the key, the old values elsewhere. */
  lemma MergeOverrides(dst: Fields, src: Fields)
    ensures (dst + src).Keys == dst.Keys + src.Keys
    ensures forall k :: k in src ==> (dst + src)[k] == src[k]
    ensures forall k :: k in dst && k !in src ==> (dst + src)[k] == dst[k]
  {
  }

  // Entry text.

  /** One field as the entry shows it: " key=value". */
  function Pair(all: Fields, k: string): string
    requires k in all
  {
    " " + k + "=" + all[k]
  }

  /** The fields in the given order. */
  function FieldsText(all: Fields, order: seq<string>): string
    requires forall i :: 0 <= i < |order| ==> order[i] in all
  {
    if order == [] then "" else FieldsText(all, order[..|order| - 1]) + Pair(all, order[|order| - 1])
  }

  /** The first line of an entry: "[timestamp] LEVEL: message". */
  function Head(timestamp: string, level: LogLevel, msg: string): string
  {
    "[" + timestamp + "] " + LevelString(level) + ": " + msg
  }

  /** A whole entry: the head, then " |" and the fields when there are any, then a newline. */
  function Entry(timestamp: string, level: LogLevel, msg: string, all: Fields, order: seq<string>): string
    requires forall i :: 0 <= i < |order| ==> order[i] in all
  {
    Head(timestamp, level, msg) + (if |all| > 0 then " |" + FieldsText(all, order) else "") + "\n"
  }

  /** The fields text of two runs of keys is the text of one then the other. */
  lemma {:induction false} FieldsTextAppend(all: Fields, o1: seq<string>, o2: seq<string>)
    requires forall i :: 0 <= i < |o1| ==> o1[i] in all
    requires forall i :: 0 <= i < |o2| ==> o2[i] in all
    ensures forall i :: 0 <= i < |o1 + o2| ==> (o1 + o2)[i] in all
    ensures FieldsText(all, o1 + o2) == FieldsText(all, o1) + FieldsText(all, o2)
    decreases |o2|
  {
    if o2 == [] {
      assert o1 + o2 == o1;
    } else {
      var n := |o2| - 1;
      var o := o1 + o2;
      assert o[..|o| - 1] == o1 + o2[..n];
      assert o[|o| - 1] == o2[n];
      var front := o2[..n];
      assert forall i :: 0 <= i < |front| ==> front[i] == o2[i];
      FieldsTextAppend(all, o1, front);
      var a, b, p := FieldsText(all, o1), FieldsText(all, front), Pair(all, o2[n]);
      assert FieldsText(all, o2) == b + p;
      assert FieldsText(all, o) == (a + b) + p;
      assert (a + b) + p == a + (b + p);
    }
  }

  /** Every listed key appears as " key=value", at the place its position in the order gives it. */
  lemma FieldsTextAt(all: Fields, order: seq<string>, i: nat)
    requires forall j :: 0 <= j < |order| ==> order[j] in all
    requires i < |order|
    ensures FieldsText(all, order) ==
      FieldsText(all, order[..i]) + Pair(all, order[i]) + FieldsText(all, order[i + 1..])
  {
    assert order == order[..i] + [order[i]] + order[i + 1..];
    FieldsTextAppend(all, order[..i] + [order[i]], order[i + 1..]);
    assert ([] + [order[i]])[..0] == [];
    assert FieldsText(all, [order[i]]) == Pair(all, order[i]) by {
      assert [order[i]][..0] == [];
    }
    FieldsTextAppend(all, order[..i], [order[i]]);
  }

  /** An entry begins with its head and ends with a newline; with no fields it is exactly the head and the newline. */
  lemma EntryShape(timestamp: string, level: LogLevel, msg: string, all: Fields, order: seq<string>)
    requires forall i :: 0 <= i < |order| ==> order[i] in all
    ensures var e := Entry(timestamp, level, msg, all, order);
      var h := Head(timestamp, level, msg);
      |e| > |h| && e[..|h|] == h && e[|e| - 1] == '\n' &&
      (|all| == 0 ==> e == h + "\n")
  {
    var e := Entry(timestamp, level, msg, all, order);
    var h := Head(timestamp, level, msg);
    assert e == h + ((if |all| > 0 then " |" + FieldsText(all, order) else "") + "\n");
  }

  /** Where written entries go: Go's io.Writer, shared between a logger and those derived from it. */
  class Sink {
    var written: seq<string>

    constructor()
      ensures written == []
    {
      written := [];
    }

    method Write(entry: string)
      modifies this
      ensures written == old(written) + [entry]
    {
      written := written + [entry];
    }
  }

  class Logger {
    var level: LogLevel
    const output: Sink
    var fields: Fields
    const timeFormat: string

    /** NewLogger: the given level and writer, no fields, RFC 3339 times. */
    constructor(level: LogLevel, output: Sink)
      ensures this.level == level && this.output == output && fields == map[] && timeFormat == RFC3339
    {
      this.level := level;
      this.output := output;
      this.fields := map[];
      this.timeFormat := RFC3339;
    }

    constructor Derived(level: LogLevel, output: Sink, fields: Fields, timeFormat: string)
      ensures this.level == level && this.output == output && this.fields == fields && this.timeFormat == timeFormat
    {
      this.level := level;
      this.output := output;
      this.fields := fields;
      this.timeFormat := timeFormat;
    }

    /**
     * A new logger on the same writer and level whose fields are this
     * one's overlaid by `extra`; this logger's fields are not touched.
     */
    method WithFields(extra: Fields) returns (r: Logger)
      ensures fresh(r) && r.level == level && r.output == output && r.timeFormat == timeFormat
      ensures r.fields.Keys == fields.Keys + extra.Keys
      ensures forall k :: k in extra ==> r.fields[k] == extra[k]
      ensures forall k :: k in fields && k !in extra ==> r.fields[k] == fields[k]
      ensures r.fields == fields + extra
    {
      var merged := MergeInto(map[], fields);
      assert merged == fields;
      merged := MergeInto(merged, extra);
      MergeOverrides(fields, extra);
      r := new Logger.Derived(level, output, merged, timeFormat);
    }

    method WithField(key: string, value: Value) returns (r: Logger)
      ensures fresh(r) && r.level == level && r.output == output && r.timeFormat == timeFormat
      ensures r.fields == fields[key := value]
    {
      r := WithFields(map[key := value]);
      assert fields + map[key := value] == fields[key := value];
    }

    method SetLevel(level: LogLevel)
      modifies this
      ensures this.level == level && fields == old(fields)
    {
      this.level := level;
    }

    /**
     * log: a message below the logger's level writes nothing; otherwise one
     * entry with the message, its level's name and every field is written.
     * `timestamp` is the formatted clock reading, `caller` the "file:line"
     * of the caller when it is known, and `order` the order the runtime
     * ranges over the merged fields in.
     */
    method Log(lvl: LogLevel, msg: string, extras: seq<Fields>, timestamp: string, caller: Option<string>, order: seq<string>)
      requires lvl >= level ==> Enumerates(order, AllFields(fields, extras, caller).Keys)
      modifies output
      ensures lvl < level ==> output.written == old(output.written)
      ensures lvl >= level ==>
        output.written == old(output.written) + [Entry(timestamp, lvl, msg, AllFields(fields, extras, caller), order)]
    {
      if lvl < level {
        return;
      }
      var allFields := CollectFields(fields, extras, caller);
      var entry := FormatEntry(timestamp, lvl, msg, allFields, order);
      output.Write(entry);
    }
  }

  /** log's field map: the logger's fields, each extra map copied over them in turn, then "file". */
  method CollectFields(fields: Fields, extras: seq<Fields>, caller: Option<string>) returns (allFields: Fields)
    ensures allFields == AllFields(fields, extras, caller)
  {
    allFields := MergeInto(map[], fields);
    assert allFields == MergeAll(fields, extras[..0]);
    for i := 0 to |extras|
      invariant allFields == MergeAll(fields, extras[..i])
    {
      allFields := MergeInto(allFields, extras[i]);
      assert extras[..i + 1][..i] == extras[..i];
    }
    assert extras[..|extras|] == extras;
    if caller.Some? {
      allFields := allFields["file" := caller.value];
    }
  }

  /** log's entry text, built one field at a time in the order given. */
  method FormatEntry(timestamp: string, lvl: LogLevel, msg: string, all: Fields, order: seq<string>) returns (entry: string)
    requires forall i :: 0 <= i < |order| ==> order[i] in all
    ensures entry == Entry(timestamp, lvl, msg, all, order)
  {
    entry := Head(timestamp, lvl, msg);
    if |all| > 0 {
      entry := entry + " |";
      ghost var head := entry;
      for i := 0 to |order|
        invariant entry == head + FieldsText(all, order[..i])
      {
        FieldsTextStep(all, order, i);
        entry := entry + Pair(all, order[i]);
      }
      assert order[..|order|] == order;
      assert entry == Head(timestamp, lvl, msg) + (" |" + FieldsText(all, order));
    }
    entry := entry + "\n";
  }

  /** One more key in the order appends that key's pair to the fields text. */
  lemma FieldsTextStep(all: Fields, order: seq<string>, i: nat)
    requires forall k :: 0 <= k < |order| ==> order[k] in all
    requires i < |order|
    ensures FieldsText(all, order[..i + 1]) == FieldsText(all, order[..i]) + Pair(all, order[i])
  {
    assert order[..i + 1][..i] == order[..i];
  }

  /**
   * LogAccess: the request's method, path, status and duration, overlaid
   * by the extra fields, logged at INFO as "Access".
   */
  method LogAccess(logger: Logger, httpMethod: string, path: string, status: string, duration: Value, extra: Fields,
                   timestamp: string, caller: Option<string>, order: seq<string>)
    requires INFO >= logger.level ==>
      Enumerates(order, AllFields(logger.fields, [AccessFields(httpMethod, path, status, duration, extra)], caller).Keys)
    modifies logger.output
    ensures INFO < logger.level ==> logger.output.written == old(logger.output.written)
    ensures INFO >= logger.level ==>
      logger.output.written == old(logger.output.written) +
        [Entry(timestamp, INFO, "Access", AllFields(logger.fields, [AccessFields(httpMethod, path, status, duration, extra)], caller), order)]
  {
    var base := map["method" := httpMethod, "path" := path, "status" := status, "duration" := duration];
    var all := MergeInto(base, extra);
    logger.Log(INFO, "Access", [all], timestamp, caller, order);
  }

  function AccessFields(httpMethod: string, path: string, status: string, duration: Value, extra: Fields): Fields
  {
    map["method" := httpMethod, "path" := path, "status" := status, "duration" := duration] + extra
  }
}
