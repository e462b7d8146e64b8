/** `normalizeRecord` and `parseTimestamp`: a bag of named fields becomes a log record with
    canonical field names, a port number and a resolved timestamp. */
module Records {
  import opened Text
  import opened JsValues
  import opened Matchers

  /** An object's own fields; a field it does not have reads as `undefined`. */
  type Bag = map<string, Value>

  function Get(bag: Bag, key: string): Value {
    if key in bag then bag[key] else Undefined
  }

  /** Every field holds a string: the bags the text strategies build. */
  predicate AllText(bag: Bag) {
    forall k :: k in bag ==> bag[k].Str?
  }

  /** `JSON.stringify` of an object: never the empty string. */
  type Serialiser = f: Bag -> string | forall b :: f(b) != [] witness (b: Bag) => "{}"

  /** What the browser provides: `new Date(string)` as milliseconds (None for an Invalid Date),
      `JSON.parse` (None when it throws) and `JSON.stringify`. */
  datatype Host = Host(parseDate: string -> Option<int>, parseJson: string -> Option<Bag>, stringify: Serialiser)

  const SrcIPAliases: seq<string> := ["srcIP", "ip", "client", "src", "source"]
  const DestIPAliases: seq<string> := ["destIP", "dst", "destination", "server", "dest"]
  const TimeAliases: seq<string> := ["time", "timestamp", "ts", "date"]
  const RequestAliases: seq<string> := ["request", "method", "msg"]
  const StatusAliases: seq<string> := ["status", "code", "result"]

  /** The year `parseTimestamp` appends to a syslog stamp. */
  const AssumedYear: string := " 2025"

  /** Largest distance from the epoch, in milliseconds, that a `Date` can hold. */
  const MaxTimeMs: int := 8_640_000_000_000_000

  /** `v` is what `bag[keys[0]] || bag[keys[1]] || ...` evaluates to: the first truthy field,
      or the last field when none is truthy. */
  predicate IsFirstTruthy(bag: Bag, keys: seq<string>, v: Value) {
    exists i :: 0 <= i < |keys| && v == Get(bag, keys[i])
      && (forall k :: 0 <= k < i ==> !Truthy(Get(bag, keys[k])))
      && (Truthy(v) || i == |keys| - 1)
  }

  /** The `||` chain over the aliases. */
  function FirstTruthy(bag: Bag, keys: seq<string>): Value
    requires keys != []
  {
    if |keys| == 1 || Truthy(Get(bag, keys[0])) then Get(bag, keys[0]) else FirstTruthy(bag, keys[1..])
  }

  /** The chain evaluates to the first truthy alias, or to the last alias when none is truthy. */
  lemma {:induction false} FirstTruthyMeaning(bag: Bag, keys: seq<string>)
    requires keys != []
    ensures IsFirstTruthy(bag, keys, FirstTruthy(bag, keys))
    decreases |keys|
  {
    if |keys| > 1 && !Truthy(Get(bag, keys[0])) {
      var v := FirstTruthy(bag, keys[1..]);
      FirstTruthyMeaning(bag, keys[1..]);
      var i :| 0 <= i < |keys| - 1 && v == Get(bag, keys[1..][i])
        && (forall k :: 0 <= k < i ==> !Truthy(Get(bag, keys[1..][k])))
        && (Truthy(v) || i == |keys| - 2);
      assert v == Get(bag, keys[i + 1]);
    } else {
      assert FirstTruthy(bag, keys) == Get(bag, keys[0]);
    }
  }

  /** The `||` chain has exactly one value. */
  lemma FirstTruthyUnique(bag: Bag, keys: seq<string>, v: Value, w: Value)
    requires IsFirstTruthy(bag, keys, v) && IsFirstTruthy(bag, keys, w)
    ensures v == w
  {
    var i :| 0 <= i < |keys| && v == Get(bag, keys[i])
      && (forall k :: 0 <= k < i ==> !Truthy(Get(bag, keys[k]))) && (Truthy(v) || i == |keys| - 1);
    var j :| 0 <= j < |keys| && w == Get(bag, keys[j])
      && (forall k :: 0 <= k < j ==> !Truthy(Get(bag, keys[k]))) && (Truthy(w) || j == |keys| - 1);
  }

  /** In a bag of strings, every `||` chain gives a string or `undefined`. */
  lemma TextFieldsStayText(bag: Bag, keys: seq<string>, v: Value)
    requires keys != [] && v == FirstTruthy(bag, keys)
    ensures AllText(bag) ==> v.Str? || v.Undefined?
  {
    FirstTruthyMeaning(bag, keys);
    var i :| 0 <= i < |keys| && v == Get(bag, keys[i]);
  }

  /** What `r.parsedTime = parseTimestamp(r.time)` ends in. */
  datatype TimeOutcome =
    | Resolved(ms: int)   // a valid Date, with this `getTime()`
    | Unresolved          // `undefined`
    | Threw               // `s.match` on a value that is not a string: a TypeError

  /** `parseTimestamp` on a string: the host's date parser, then the syslog stamp with the
      assumed year. */
  function ParseTimestampText(host: Host, s: string): (o: TimeOutcome)
    ensures o != Threw
    ensures host.parseDate(s).Some? ==> o == Resolved(host.parseDate(s).value)
    ensures host.parseDate(s).None? && SyslogStamp(s).None? ==> o == Unresolved
  {
    match host.parseDate(s)
    case Some(ms) => Resolved(ms)
    case None =>
      match SyslogStamp(s)
      case None => Unresolved
      case Some(stamp) =>
        match host.parseDate(stamp + AssumedYear)
        case Some(ms) => Resolved(ms)
        case None => Unresolved
  }

  /** `parseTimestamp(v)` on any value. `new Date(v)` takes a number as milliseconds (valid
      within `MaxTimeMs`), `true` as 1, `null` as 0 and an object or array by its text;
      when that Date is invalid, `v.match` throws unless `v` is a string. */
  function ResolveTime(host: Host, v: Value): (o: TimeOutcome)
    ensures v.Str? ==> o != Threw
    ensures v.Num? ==> o == if -MaxTimeMs <= v.n <= MaxTimeMs then Resolved(v.n) else Threw
  {
    match v
    case Str(s) => ParseTimestampText(host, s)
    case Num(n) => if -MaxTimeMs <= n <= MaxTimeMs then Resolved(n) else Threw
    case Bool(b) => Resolved(if b then 1 else 0)
    case Null => Resolved(0)
    case Composite(text) => if host.parseDate(text).Some? then Resolved(host.parseDate(text).value) else Threw
    case Undefined => Threw
    case NaN => Threw
  }

  /** A normalised record. `port` is `Number(...)` of the port field, or `undefined`;
      `parsedTime` is the `getTime()` of the parsed Date, None when it is null or undefined. */
  datatype LogRecord = LogRecord(
    srcIP: Value, destIP: Value, time: Value, request: Value, status: Value,
    port: Value, raw: Value, parsedTime: Option<int>)

  /** `obj.port ? Number(obj.port) : obj.destination_port ? Number(obj.destination_port) : undefined`. */
  function PortOf(bag: Bag): (p: Value)
    ensures p.Undefined? || p.NaN? || p.Num?
    ensures Truthy(Get(bag, "port")) ==> p == ToNumber(Get(bag, "port"))
    ensures !Truthy(Get(bag, "port")) && Truthy(Get(bag, "destination_port")) ==> p == ToNumber(Get(bag, "destination_port"))
    ensures !Truthy(Get(bag, "port")) && !Truthy(Get(bag, "destination_port")) ==> p == Undefined
  {
    if Truthy(Get(bag, "port")) then ToNumber(Get(bag, "port"))
    else if Truthy(Get(bag, "destination_port")) then ToNumber(Get(bag, "destination_port"))
    else Undefined
  }

  /** `normalizeRecord(obj)`, None when `parseTimestamp` throws inside it. */
  function Normalize(host: Host, bag: Bag): (r: Option<LogRecord>)
    ensures r.None? <==> var time := FirstTruthy(bag, TimeAliases); Truthy(time) && ResolveTime(host, time) == Threw
    ensures AllText(bag) ==> r.Some?
    ensures r.Some? ==> r.value.port == PortOf(bag)
    ensures r.Some? ==> Truthy(r.value.raw)
    ensures r.Some? ==> Truthy(Get(bag, "raw")) ==> r.value.raw == Get(bag, "raw")
    ensures r.Some? ==> !Truthy(Get(bag, "raw")) ==> r.value.raw == Str(host.stringify(bag))
    ensures r.Some? && !Truthy(r.value.time) ==> r.value.parsedTime.None?
  {
    var time := FirstTruthy(bag, TimeAliases);
    var outcome := if Truthy(time) then ResolveTime(host, time) else Unresolved;
    TextFieldsStayText(bag, TimeAliases, time);
    if outcome == Threw then None
    else
      var raw := if Truthy(Get(bag, "raw")) then Get(bag, "raw") else Str(host.stringify(bag));
      Some(LogRecord(
        FirstTruthy(bag, SrcIPAliases), FirstTruthy(bag, DestIPAliases), time,
        FirstTruthy(bag, RequestAliases), FirstTruthy(bag, StatusAliases),
        PortOf(bag), raw, if outcome.Resolved? then Some(outcome.ms) else None))
  }

  /** Each canonical field is the first truthy value among its aliases, in alias order. */
  lemma NormalizeAliases(host: Host, bag: Bag)
    requires Normalize(host, bag).Some?
    ensures var r := Normalize(host, bag).value;
      && IsFirstTruthy(bag, SrcIPAliases, r.srcIP)
      && IsFirstTruthy(bag, DestIPAliases, r.destIP)
      && IsFirstTruthy(bag, TimeAliases, r.time)
      && IsFirstTruthy(bag, RequestAliases, r.request)
      && IsFirstTruthy(bag, StatusAliases, r.status)
  {
    FirstTruthyMeaning(bag, SrcIPAliases);
    FirstTruthyMeaning(bag, DestIPAliases);
    FirstTruthyMeaning(bag, TimeAliases);
    FirstTruthyMeaning(bag, RequestAliases);
    FirstTruthyMeaning(bag, StatusAliases);
  }

  /** The only field names the text strategies put in a bag: each is the first alias of its
      field, or `port` or `raw`. */
  const TextKeys: set<string> := {"srcIP", "time", "request", "status", "port", "raw"}

  predicate TextKeysOnly(bag: Bag) {
    forall k :: k in bag ==> k in TextKeys
  }

  /** A field as a `||` chain leaves it when no later alias is present: itself when truthy,
      `undefined` otherwise. */
  function Canon(v: Value): Value {
    if Truthy(v) then v else Undefined
  }

  /** No alias but the first of each chain is a text-strategy field name. */
  lemma LaterAliasesNotTextKeys()
    ensures forall i :: 1 <= i < |SrcIPAliases| ==> SrcIPAliases[i] !in TextKeys
    ensures forall i :: 0 <= i < |DestIPAliases| ==> DestIPAliases[i] !in TextKeys
    ensures forall i :: 1 <= i < |TimeAliases| ==> TimeAliases[i] !in TextKeys
    ensures forall i :: 1 <= i < |RequestAliases| ==> RequestAliases[i] !in TextKeys
    ensures forall i :: 1 <= i < |StatusAliases| ==> StatusAliases[i] !in TextKeys
    ensures "destination_port" !in TextKeys
  {
  }

  lemma {:induction false} FirstTruthyAbsent(bag: Bag, keys: seq<string>)
    requires keys != [] && forall i :: 0 <= i < |keys| ==> keys[i] !in bag
    ensures FirstTruthy(bag, keys) == Undefined
    decreases |keys|
  {
    if |keys| > 1 {
      FirstTruthyAbsent(bag, keys[1..]);
    }
  }

  /** When only the first alias can be present, the chain gives that field or `undefined`. */
  lemma FirstTruthyOnlyFirst(bag: Bag, keys: seq<string>)
    requires |keys| >= 2 && forall i :: 1 <= i < |keys| ==> keys[i] !in bag
    ensures FirstTruthy(bag, keys) == Canon(Get(bag, keys[0]))
  {
    if !Truthy(Get(bag, keys[0])) {
      FirstTruthyAbsent(bag, keys[1..]);
    }
  }

  /** `normalizeRecord` on a bag of a text strategy keeps every field where the strategy put
      it: a truthy field is taken as it is and a falsy one reads as `undefined`. */
  lemma NormalizeTextBag(host: Host, bag: Bag)
    requires AllText(bag) && TextKeysOnly(bag)
    ensures var r := Normalize(host, bag).value;
      && r.srcIP == Canon(Get(bag, "srcIP")) && r.destIP == Undefined
      && r.time == Canon(Get(bag, "time")) && r.request == Canon(Get(bag, "request"))
      && r.status == Canon(Get(bag, "status"))
      && r.port == (if Truthy(Get(bag, "port")) then ToNumber(Get(bag, "port")) else Undefined)
      && r.raw == (if Truthy(Get(bag, "raw")) then Get(bag, "raw") else Str(host.stringify(bag)))
  {
    LaterAliasesNotTextKeys();
    FirstTruthyOnlyFirst(bag, SrcIPAliases);
    FirstTruthyAbsent(bag, DestIPAliases);
    FirstTruthyOnlyFirst(bag, TimeAliases);
    FirstTruthyOnlyFirst(bag, RequestAliases);
    FirstTruthyOnlyFirst(bag, StatusAliases);
  }
}
