/** `detectAnomalies` (src/App.jsx:116-194): the records grouped by source address, then a
    brute-force detector, a port-scan detector and a blacklist filter over them. */
module Detector {
  import opened Text
  import opened JsValues
  import opened Records
  import opened Search
  import opened Sorting

  // ---------------------------------------------------------------------------
  // Grouping: byIP[r.srcIP || "unknown"].push(r)

  const Unknown: string := "unknown"

  /** The names an empty object literal inherits from `Object.prototype`. For them `byIP[ip]`
      is already truthy (a function, or the prototype itself for `__proto__`), so no array is
      made, and `byIP[ip].push(r)` throws a TypeError. */
  const PrototypeNames: set<string> := {
    "constructor", "hasOwnProperty", "isPrototypeOf", "propertyIsEnumerable", "toLocaleString",
    "toString", "valueOf", "__proto__", "__defineGetter__", "__defineSetter__",
    "__lookupGetter__", "__lookupSetter__"}

  /** The property name a record is filed under: its truthy source address as a string. */
  function GroupKey(r: LogRecord): string {
    if Truthy(r.srcIP) then ToJsString(r.srcIP) else Unknown
  }

  function GroupKeys(recs: seq<LogRecord>): (keys: seq<string>)
    ensures |keys| == |recs|
  {
    if recs == [] then [] else GroupKeys(recs[..|recs| - 1]) + [GroupKey(recs[|recs| - 1])]
  }

  /** Each record's key stands at its own position. */
  lemma {:induction false} GroupKeysAt(recs: seq<LogRecord>, i: nat)
    requires i < |recs|
    ensures GroupKeys(recs)[i] == GroupKey(recs[i])
    decreases |recs|
  {
    if i < |recs| - 1 {
      GroupKeysAt(recs[..|recs| - 1], i);
    }
  }

  /** The records filed under `key`, in input order. */
  function Bucket(recs: seq<LogRecord>, key: string): seq<LogRecord> {
    if recs == [] then []
    else Bucket(recs[..|recs| - 1], key) + (if GroupKey(recs[|recs| - 1]) == key then [recs[|recs| - 1]] else [])
  }

  /** The property names of `byIP` in the order they were first created. */
  function Sources(recs: seq<LogRecord>): seq<string> {
    Distinct(GroupKeys(recs))
  }

  /** Some record is filed under a name `byIP` inherits: the `push` throws. */
  predicate Clashes(recs: seq<LogRecord>) {
    recs != [] && (Clashes(recs[..|recs| - 1]) || GroupKey(recs[|recs| - 1]) in PrototypeNames)
  }

  /** The `forEach` that fills `byIP`. `threw` is the TypeError of a clashing name; otherwise
      `keys` lists the property names in creation order and each holds its bucket. */
  method GroupBySource(recs: seq<LogRecord>) returns (keys: seq<string>, byIp: map<string, seq<LogRecord>>, threw: bool)
    ensures threw <==> Clashes(recs)
    ensures !threw ==> keys == Sources(recs)
    ensures !threw ==> forall k :: k in byIp <==> k in keys
    ensures !threw ==> forall k :: k in byIp ==> byIp[k] == Bucket(recs, k)
  {
    ghost var ks := GroupKeys(recs);
    keys, byIp, threw := [], map[], false;
    for i := 0 to |recs|
      invariant FiledState(recs[..i], ks[..i], keys, byIp)
      invariant !Clashes(recs[..i])
    {
      var r := recs[i];
      var ip := GroupKey(r);
      GroupKeysAt(recs, i);
      SliceSnoc(recs, 0, i);
      SliceSnoc(ks, 0, i);
      assert recs[..i + 1][..i] == recs[..i];
      if ip in PrototypeNames {
        ClashesPrefix(recs, i + 1);
        threw := true;
        return;
      }
      ghost var keys0, byIp0 := keys, byIp;
      var bucket := if ip in byIp then byIp[ip] else [];
      if ip !in byIp {
        keys := keys + [ip];
      }
      byIp := byIp[ip := bucket + [r]];
      FileOne(recs[..i], ks[..i], keys0, byIp0, r, ip, keys, byIp);
    }
    assert recs[..|recs|] == recs && ks[..|recs|] == ks;
    forall k | k in byIp ensures byIp[k] == Bucket(recs, k) {
      BucketIsFiled(recs, k);
    }
  }

  /** `keys` and `byIp` are what the loop has built from the records `xs` filed under `ks`:
      the names in creation order, each holding its records in order. */
  ghost predicate FiledState<T>(xs: seq<T>, ks: seq<string>, keys: seq<string>, byIp: map<string, seq<T>>)
    requires |ks| == |xs|
  {
    && keys == Distinct(ks)
    && (forall k :: k in byIp <==> k in keys)
    && (forall k :: k in byIp ==> byIp[k] == Filed(xs, ks, k))
  }

  /** One `byIP[ip].push(r)`, with the array created first when the name is new. */
  lemma FileOne<T>(xs: seq<T>, ks: seq<string>, keys: seq<string>, byIp: map<string, seq<T>>, x: T, k: string,
                   names: seq<string>, next: map<string, seq<T>>)
    requires |ks| == |xs| && FiledState(xs, ks, keys, byIp)
    requires names == if k in byIp then keys else keys + [k]
    requires next == byIp[k := (if k in byIp then byIp[k] else []) + [x]]
    ensures FiledState(xs + [x], ks + [k], names, next)
  {
    FileOneNames(ks, keys, byIp, k, next, names);
    FileOneBuckets(xs, ks, keys, byIp, x, k);
  }

  lemma FileOneNames<T>(ks: seq<string>, keys: seq<string>, byIp: map<string, seq<T>>, k: string,
                         next: map<string, seq<T>>, names: seq<string>)
    requires keys == Distinct(ks) && forall j :: j in byIp <==> j in keys
    requires next.Keys == byIp.Keys + {k} && names == if k in byIp then keys else keys + [k]
    ensures names == Distinct(ks + [k])
    ensures forall j :: j in next <==> j in names
  {
    DistinctSnoc(ks, k);
    DistinctMembers(ks, k);
  }

  lemma FileOneBuckets<T>(xs: seq<T>, ks: seq<string>, keys: seq<string>, byIp: map<string, seq<T>>, x: T, k: string)
    requires |ks| == |xs| && FiledState(xs, ks, keys, byIp)
    ensures var next := byIp[k := (if k in byIp then byIp[k] else []) + [x]];
      forall j :: j in next ==> next[j] == Filed(xs + [x], ks + [k], j)
  {
    if k !in byIp {
      DistinctMembers(ks, k);
      FiledAbsent(xs, ks, k);
    }
    var next := byIp[k := (if k in byIp then byIp[k] else []) + [x]];
    forall j | j in next ensures next[j] == Filed(xs + [x], ks + [k], j) {
      FiledSnoc(xs, ks, x, k, j);
    }
  }

  lemma FiledSnoc<T>(xs: seq<T>, ks: seq<string>, x: T, k: string, j: string)
    requires |ks| == |xs|
    ensures Filed(xs + [x], ks + [k], j) == Filed(xs, ks, j) + (if k == j then [x] else [])
  {
    assert (xs + [x])[..|xs|] == xs && (ks + [k])[..|xs|] == ks;
  }

  /** The records whose key in `keys` is `k`, in order. */
  function Filed<T>(recs: seq<T>, keys: seq<string>, k: string): seq<T>
    requires |keys| == |recs|
  {
    if recs == [] then []
    else Filed(recs[..|recs| - 1], keys[..|recs| - 1], k) + (if keys[|recs| - 1] == k then [recs[|recs| - 1]] else [])
  }

  /** A key nobody has is filed under nothing. */
  lemma {:induction false} FiledAbsent<T>(recs: seq<T>, keys: seq<string>, k: string)
    requires |keys| == |recs| && forall i :: 0 <= i < |keys| ==> keys[i] != k
    ensures Filed(recs, keys, k) == []
    decreases |recs|
  {
    if recs != [] {
      FiledAbsent(recs[..|recs| - 1], keys[..|recs| - 1], k);
    }
  }

  lemma {:induction false} BucketIsFiled(recs: seq<LogRecord>, k: string)
    ensures Bucket(recs, k) == Filed(recs, GroupKeys(recs), k)
    decreases |recs|
  {
    if recs != [] {
      BucketIsFiled(recs[..|recs| - 1], k);
    }
  }

  lemma {:induction false} ClashesPrefix(recs: seq<LogRecord>, n: nat)
    requires n <= |recs| && Clashes(recs[..n])
    ensures Clashes(recs)
    decreases |recs| - n
  {
    if n < |recs| {
      SliceSnoc(recs, 0, n);
      assert recs[..n + 1][..n] == recs[..n];
      ClashesPrefix(recs, n + 1);
    } else {
      assert recs[..n] == recs;
    }
  }

  /** Every record is in the bucket of its own key and in no other. */
  lemma {:induction false} BucketMembership(recs: seq<LogRecord>, r: LogRecord, key: string)
    ensures r in Bucket(recs, key) <==> r in recs && GroupKey(r) == key
    decreases |recs|
  {
    if recs != [] {
      var init := recs[..|recs| - 1];
      BucketMembership(init, r, key);
      assert recs == init + [recs[|recs| - 1]];
    }
  }

  /** Buckets keep input order: filing two runs of records one after the other gives the two
      runs' buckets one after the other. */
  lemma {:induction false} BucketAppend(a: seq<LogRecord>, b: seq<LogRecord>, key: string)
    ensures Bucket(a + b, key) == Bucket(a, key) + Bucket(b, key)
    decreases |b|
  {
    if b == [] {
      assert a + b == a;
    } else {
      var b' := b[..|b| - 1];
      assert (a + b)[..|a + b| - 1] == a + b';
      BucketAppend(a, b', key);
    }
  }

  /** Total size of the buckets of `names`. */
  function BucketSizes(recs: seq<LogRecord>, names: seq<string>): nat {
    if names == [] then 0 else BucketSizes(recs, names[..|names| - 1]) + |Bucket(recs, names[|names| - 1])|
  }

  /** Total size of what `keys` files under `names`. */
  function FiledSizes<T>(xs: seq<T>, keys: seq<string>, names: seq<string>): nat
    requires |keys| == |xs|
  {
    if names == [] then 0 else FiledSizes(xs, keys, names[..|names| - 1]) + |Filed(xs, keys, names[|names| - 1])|
  }

  function Multiplicity(names: seq<string>, k: string): nat {
    if names == [] then 0 else Multiplicity(names[..|names| - 1], k) + (if names[|names| - 1] == k then 1 else 0)
  }

  lemma {:induction false} MultiplicityOfDistinct(names: seq<string>, k: string)
    requires forall i, j :: 0 <= i < j < |names| ==> names[i] != names[j]
    ensures Multiplicity(names, k) == if k in names then 1 else 0
    decreases |names|
  {
    if names != [] {
      var init := names[..|names| - 1];
      MultiplicityOfDistinct(init, k);
      assert names == init + [names[|names| - 1]];
    }
  }

  lemma {:induction false} FiledSizesSnoc<T>(xs: seq<T>, keys: seq<string>, x: T, k: string, names: seq<string>)
    requires |keys| == |xs|
    ensures FiledSizes(xs + [x], keys + [k], names) == FiledSizes(xs, keys, names) + Multiplicity(names, k)
    decreases |names|
  {
    if names != [] {
      FiledSizesSnoc(xs, keys, x, k, names[..|names| - 1]);
      assert (xs + [x])[..|xs|] == xs;
      assert (keys + [k])[..|xs|] == keys;
    }
  }

  /** Whatever `keys` files records under, each record lands in exactly one of the distinct keys. */
  lemma {:induction false} FiledPartition<T>(xs: seq<T>, keys: seq<string>)
    requires |keys| == |xs|
    ensures FiledSizes(xs, keys, Distinct(keys)) == |xs|
    decreases |xs|
  {
    if xs != [] {
      var n := |xs| - 1;
      FiledPartition(xs[..n], keys[..n]);
      LastSplit(xs);
      LastSplit(keys);
      FiledPartitionStep(xs[..n], keys[..n], xs[n], keys[n]);
    }
  }

  lemma FiledPartitionStep<T>(xs: seq<T>, keys: seq<string>, x: T, k: string)
    requires |keys| == |xs| && FiledSizes(xs, keys, Distinct(keys)) == |xs|
    ensures FiledSizes(xs + [x], keys + [k], Distinct(keys + [k])) == |xs| + 1
  {
    var d := Distinct(keys + [k]);
    DistinctSnoc(keys, k);
    DistinctMembers(keys + [k], k);
    FiledSizesSnoc(xs, keys, x, k, d);
    MultiplicityOfDistinct(d, k);
    if k !in keys {
      FiledAbsent(xs, keys, k);
      assert (Distinct(keys) + [k])[..|Distinct(keys)|] == Distinct(keys);
    }
  }

  lemma {:induction false} BucketSizesFiled(recs: seq<LogRecord>, names: seq<string>)
    ensures BucketSizes(recs, names) == FiledSizes(recs, GroupKeys(recs), names)
    decreases |names|
  {
    if names != [] {
      BucketSizesFiled(recs, names[..|names| - 1]);
      BucketIsFiled(recs, names[|names| - 1]);
    }
  }

  /** The buckets partition the records: together they hold exactly as many records as
      there are, one bucket per property name. */
  lemma BucketsPartition(recs: seq<LogRecord>)
    ensures BucketSizes(recs, Sources(recs)) == |recs|
  {
    BucketSizesFiled(recs, Sources(recs));
    FiledPartition(recs, GroupKeys(recs));
  }

  // ---------------------------------------------------------------------------
  // Object.entries(byIP): integer-like names first, in ascending numeric order, then the
  // others in creation order.

  /** A canonical array index: the decimal form of an integer below 2^32 - 1. */
  predicate IsIndexKey(k: string) {
    k != [] && AllDigits(k) && (|k| == 1 || k[0] != '0') && DecimalValue(k) < 4294967295
  }

  function IndexValue(k: string): int {
    if AllDigits(k) then DecimalValue(k) else 0
  }

  function IndexKeys(keys: seq<string>): (r: seq<string>)
    ensures forall i :: 0 <= i < |r| ==> IsIndexKey(r[i])
  {
    if keys == [] then []
    else IndexKeys(keys[..|keys| - 1]) + (if IsIndexKey(keys[|keys| - 1]) then [keys[|keys| - 1]] else [])
  }

  function NamedKeys(keys: seq<string>): (r: seq<string>)
    ensures forall i :: 0 <= i < |r| ==> !IsIndexKey(r[i])
  {
    if keys == [] then []
    else NamedKeys(keys[..|keys| - 1]) + (if IsIndexKey(keys[|keys| - 1]) then [] else [keys[|keys| - 1]])
  }

  /** The order `Object.entries` visits the property names created in the order `keys`. */
  function EntriesOrder(keys: seq<string>): seq<string> {
    SortBy(IndexKeys(keys), IndexValue) + NamedKeys(keys)
  }

  lemma {:induction false} SplitKeysMultiset(keys: seq<string>)
    ensures multiset(IndexKeys(keys)) + multiset(NamedKeys(keys)) == multiset(keys)
    decreases |keys|
  {
    if keys != [] {
      SplitKeysMultiset(keys[..|keys| - 1]);
      assert keys == keys[..|keys| - 1] + [keys[|keys| - 1]];
    }
  }

  /** Every property is visited exactly as often as it was created; the array indices come
      first, in ascending order, and the other names keep creation order. */
  lemma EntriesOrderFacts(keys: seq<string>)
    ensures multiset(EntriesOrder(keys)) == multiset(keys)
    ensures var n := |IndexKeys(keys)|;
      && EntriesOrder(keys)[n..] == NamedKeys(keys)
      && SortedBy(EntriesOrder(keys)[..n], IndexValue)
      && (forall i :: 0 <= i < n ==> IsIndexKey(EntriesOrder(keys)[i]))
  {
    var idx := IndexKeys(keys);
    SortByFacts(idx, IndexValue);
    SplitKeysMultiset(keys);
    var sorted := SortBy(idx, IndexValue);
    assert EntriesOrder(keys)[..|idx|] == sorted;
    forall i | 0 <= i < |idx| ensures IsIndexKey(sorted[i]) {
      assert sorted[i] in multiset(idx);
    }
  }

  // ---------------------------------------------------------------------------
  // Brute force (App.jsx:121-156)

  const BfThreshold: nat := 5
  const BfWindowMs: int := 1 * 60 * 1000

  /** `{ t, status }`: the record's time in milliseconds, null when it has none. */
  datatype Attempt = Attempt(t: Option<int>, status: Value)

  function Attempts(arr: seq<LogRecord>): (ts: seq<Attempt>)
    ensures |ts| == |arr|
    ensures forall i :: 0 <= i < |arr| ==> ts[i] == Attempt(arr[i].parsedTime, arr[i].status)
  {
    if arr == [] then [] else Attempts(arr[..|arr| - 1]) + [Attempt(arr[|arr| - 1].parsedTime, arr[|arr| - 1].status)]
  }

  /** The sort key `a.t || 0`. */
  function AttemptKey(a: Attempt): int {
    a.t.GetOr(0)
  }

  /** The window time `t || now`: a missing time and the epoch itself both read as now. */
  function AttemptTime(a: Attempt, now: int): int {
    if a.t.Some? && a.t.value != 0 then a.t.value else now
  }

  /** `(status || "").toString().toLowerCase()` contains `fail` or `unauthorized`, or is
      `401` or `403`. */
  predicate IsFailure(status: Value) {
    var st := LowerAscii(if Truthy(status) then ToJsString(status) else "");
    Contains(st, "fail") || st == "401" || st == "403" || Contains(st, "unauthorized")
  }

  /** The test ignores case: a status and its lower-cased form count alike. */
  lemma IsFailureIgnoresCase(s: string)
    ensures IsFailure(Str(s)) == IsFailure(Str(LowerAscii(s)))
  {
    LowerAsciiIdempotent(s);
  }

  /** The sshd strategy's `Failed` counts and its `OK` does not; the HTTP codes 401 and 403
      count as numbers and as text, 200 does not, and a missing status never counts. */
  lemma IsFailureStatuses()
    ensures IsFailure(Str("Failed")) && !IsFailure(Str("OK"))
    ensures IsFailure(Num(401)) && IsFailure(Num(403)) && IsFailure(Str("401"))
    ensures !IsFailure(Num(200)) && !IsFailure(Undefined)
  {
    FailedCounts();
    OkDoesNot();
    CodeCounts(401);
    CodeCounts(403);
    TwoHundredDoesNot();
  }

  lemma FailedCounts()
    ensures IsFailure(Str("Failed"))
  {
    LowerAsciiSpec("Failed");
    assert LowerAscii("Failed") == "failed";
    assert OccursAt("failed", "fail", 0);
  }

  lemma OkDoesNot()
    ensures !IsFailure(Str("OK"))
  {
    LowerAsciiSpec("OK");
    assert LowerAscii("OK") == "ok";
  }

  function DigitChar(k: nat): char
    requires k < 10
  {
    ('0' as int + k) as char
  }

  /** `String(n)` of a three-digit code is its three digits, which lower-casing keeps. */
  lemma CodeText(n: nat)
    requires 100 <= n < 1000
    ensures ToJsString(Num(n)) == [DigitChar(n / 100), DigitChar(n / 10 % 10), DigitChar(n % 10)]
    ensures LowerAscii(ToJsString(Num(n))) == ToJsString(Num(n))
  {
    var d := ToJsString(Num(n));
    assert NatToDecimal(n / 10) == NatToDecimal(n / 100) + [DigitChar(n / 10 % 10)];
    assert d == NatToDecimal(n / 10) + [DigitChar(n % 10)];
    LowerAsciiSpec(d);
  }

  lemma CodeCounts(n: nat)
    requires n == 401 || n == 403
    ensures IsFailure(Num(n)) && IsFailure(Str(ToJsString(Num(n))))
    ensures n == 401 ==> ToJsString(Num(n)) == "401"
  {
    CodeText(n);
  }

  lemma TwoHundredDoesNot()
    ensures !IsFailure(Num(200))
  {
    CodeText(200);
    assert ToJsString(Num(200)) == "200";
  }

  /** End of the run from `j` on whose window times stay within the window of `start`: the
      first attempt past the window, where the inner loop breaks. */
  function BfRunEnd(ts: seq<Attempt>, now: int, start: int, j: nat): (k: nat)
    requires j <= |ts|
    ensures j <= k <= |ts|
    decreases |ts| - j
  {
    if j == |ts| || AttemptTime(ts[j], now) - start > BfWindowMs then j else BfRunEnd(ts, now, start, j + 1)
  }

  function Failures(s: seq<Attempt>): (n: nat)
    ensures n <= |s|
  {
    if s == [] then 0 else Failures(s[..|s| - 1]) + (if IsFailure(s[|s| - 1].status) then 1 else 0)
  }

  /** `count` after the inner loop started at `i`. */
  function BfCount(ts: seq<Attempt>, now: int, i: nat): nat
    requires i < |ts|
  {
    Failures(ts[i..BfRunEnd(ts, now, AttemptTime(ts[i], now), i)])
  }

  function BfQualifies(ts: seq<Attempt>, now: int): nat -> bool {
    (i: nat) => i < |ts| && BfCount(ts, now, i) >= BfThreshold
  }

  /** `{ ip, firstSeen, attempts }`, with `firstSeen` kept as milliseconds. */
  datatype BruteForceFinding = BruteForceFinding(ip: string, firstSeen: int, attempts: nat)

  /** The finding for one address: the first window start whose count reaches the threshold. */
  function BruteForceIn(ip: string, ts: seq<Attempt>, now: int): (r: Option<BruteForceFinding>)
    ensures r.Some? ==> r.value.ip == ip
  {
    match LeftmostFrom(BfQualifies(ts, now), |ts|, 0)
    case None => None
    case Some(i) => Some(BruteForceFinding(ip, AttemptTime(ts[i], now), BfCount(ts, now, i)))
  }

  lemma FailuresSnoc(s: seq<Attempt>, x: Attempt)
    ensures Failures(s + [x]) == Failures(s) + (if IsFailure(x.status) then 1 else 0)
  {
    assert (s + [x])[..|s|] == s;
  }

  /** The inner loop: the failures of the window that starts at `i`. */
  method CountFailures(ts: seq<Attempt>, now: int, i: nat) returns (count: nat)
    requires i < |ts|
    ensures count == BfCount(ts, now, i)
  {
    var start := AttemptTime(ts[i], now);
    count := 0;
    var j := i;
    while j < |ts|
      invariant i <= j <= |ts|
      invariant BfRunEnd(ts, now, start, j) == BfRunEnd(ts, now, start, i)
      invariant count == Failures(ts[i..j])
    {
      if AttemptTime(ts[j], now) - start <= BfWindowMs {
        FailuresSnoc(ts[i..j], ts[j]);
        SliceSnoc(ts, i, j);
        if IsFailure(ts[j].status) {
          count := count + 1;
        }
        j := j + 1;
      } else {
        break;
      }
    }
  }

  /** The outer loop over one address's sorted attempts: the first start whose window count
      reaches the threshold is reported, and the scan stops there. */
  method ScanBruteForce(ip: string, ts: seq<Attempt>, now: int) returns (f: Option<BruteForceFinding>)
    ensures f == BruteForceIn(ip, ts, now)
  {
    ghost var ok := BfQualifies(ts, now);
    f := None;
    var i := 0;
    while i < |ts|
      invariant 0 <= i <= |ts|
      invariant LeftmostFrom(ok, |ts|, 0) == LeftmostFrom(ok, |ts|, i)
    {
      var start := AttemptTime(ts[i], now);
      var count := CountFailures(ts, now, i);
      if count >= BfThreshold {
        f := Some(BruteForceFinding(ip, start, count));
        break;
      }
      i := i + 1;
    }
  }

  /** The window from `i`: every attempt in it lies within the window of the start, and the
      run stops at the first attempt that does not. */
  lemma {:induction false} BfRunEndSpec(ts: seq<Attempt>, now: int, start: int, j: nat)
    requires j <= |ts|
    ensures var k := BfRunEnd(ts, now, start, j);
      && (forall m :: j <= m < k ==> AttemptTime(ts[m], now) - start <= BfWindowMs)
      && (k < |ts| ==> AttemptTime(ts[k], now) - start > BfWindowMs)
    decreases |ts| - j
  {
    if j < |ts| && AttemptTime(ts[j], now) - start <= BfWindowMs {
      BfRunEndSpec(ts, now, start, j + 1);
    }
  }

  /** A finding reports the first qualifying start: its `attempts` reach the threshold and
      count the failures of the window from that start, and every earlier start falls short. */
  lemma BruteForceInFacts(ip: string, ts: seq<Attempt>, now: int)
    ensures var f := BruteForceIn(ip, ts, now);
      f.Some? ==> exists i :: (0 <= i < |ts|
        && f.value == BruteForceFinding(ip, AttemptTime(ts[i], now), BfCount(ts, now, i))
        && f.value.attempts >= BfThreshold
        && forall k :: 0 <= k < i ==> BfCount(ts, now, k) < BfThreshold)
    ensures BruteForceIn(ip, ts, now).None? <==> forall k :: 0 <= k < |ts| ==> BfCount(ts, now, k) < BfThreshold
  {
    var ok := BfQualifies(ts, now);
    LeftmostFromSpec(ok, |ts|, 0);
    var r := LeftmostFrom(ok, |ts|, 0);
    if r.Some? {
      var i := r.value;
      assert ok(i);
      forall k | 0 <= k < i ensures BfCount(ts, now, k) < BfThreshold {
        assert !ok(k);
      }
      assert BfCount(ts, now, i) >= BfThreshold;
    } else {
      forall k | 0 <= k < |ts| ensures BfCount(ts, now, k) < BfThreshold {
        assert !ok(k);
      }
    }
  }

  // ---------------------------------------------------------------------------
  // Port scan (App.jsx:158-185)

  const PsThreshold: nat := 20
  const PsWindowMs: int := 5 * 60 * 1000
  const SampleSize: nat := 10

  /** `{ t, port }`. */
  datatype Probe = Probe(t: int, port: int)

  /** `r.port && !isNaN(r.port)`. */
  predicate HasPort(r: LogRecord) {
    r.port.Num? && r.port.n != 0
  }

  /** The records with a port, timed by their Date (the epoch included) or else by now. */
  function Probes(arr: seq<LogRecord>, now: int): seq<Probe> {
    if arr == [] then []
    else
      var r := arr[|arr| - 1];
      Probes(arr[..|arr| - 1], now) + (if HasPort(r) then [Probe(r.parsedTime.GetOr(now), r.port.n)] else [])
  }

  lemma {:induction false} ProbesEmpty(arr: seq<LogRecord>, now: int)
    ensures Probes(arr, now) == [] <==> forall i :: 0 <= i < |arr| ==> !HasPort(arr[i])
    decreases |arr|
  {
    if arr != [] {
      ProbesEmpty(arr[..|arr| - 1], now);
      assert forall i :: 0 <= i < |arr| - 1 ==> arr[..|arr| - 1][i] == arr[i];
    }
  }

  function ProbeKey(p: Probe): int {
    p.t
  }

  function PsRunEnd(ts: seq<Probe>, start: int, j: nat): (k: nat)
    requires j <= |ts|
    ensures j <= k <= |ts|
    decreases |ts| - j
  {
    if j == |ts| || ts[j].t - start > PsWindowMs then j else PsRunEnd(ts, start, j + 1)
  }

  function PortsOf(s: seq<Probe>): (ps: seq<int>)
    ensures |ps| == |s|
    ensures forall i :: 0 <= i < |s| ==> ps[i] == s[i].port
  {
    if s == [] then [] else PortsOf(s[..|s| - 1]) + [s[|s| - 1].port]
  }

  /** `Array.from(ports)` after the inner loop started at `i`. */
  function WindowPorts(ts: seq<Probe>, i: nat): seq<int>
    requires i < |ts|
  {
    Distinct(PortsOf(ts[i..PsRunEnd(ts, ts[i].t, i)]))
  }

  function PsQualifies(ts: seq<Probe>): nat -> bool {
    (i: nat) => i < |ts| && |WindowPorts(ts, i)| >= PsThreshold
  }

  /** `{ ip, firstSeen, uniquePorts, samplePorts }`, with `firstSeen` kept as milliseconds. */
  datatype PortScanFinding = PortScanFinding(ip: string, firstSeen: int, uniquePorts: nat, samplePorts: seq<int>)

  function Sample(ports: seq<int>): seq<int> {
    if |ports| <= SampleSize then ports else ports[..SampleSize]
  }

  /** The finding for one address: the first window start with enough distinct ports. */
  function PortScanIn(ip: string, ts: seq<Probe>): (r: Option<PortScanFinding>)
    ensures r.Some? ==> r.value.ip == ip
  {
    match LeftmostFrom(PsQualifies(ts), |ts|, 0)
    case None => None
    case Some(i) =>
      var ports := WindowPorts(ts, i);
      Some(PortScanFinding(ip, ts[i].t, |ports|, Sample(ports)))
  }

  lemma PortsOfSnoc(s: seq<Probe>, x: Probe)
    ensures PortsOf(s + [x]) == PortsOf(s) + [x.port]
  {
    assert (s + [x])[..|s|] == s;
  }

  /** The inner loop: the distinct ports of the window that starts at `i`, in the order
      `ports.add` first saw them. */
  method CollectPorts(ts: seq<Probe>, i: nat) returns (ports: seq<int>)
    requires i < |ts|
    ensures ports == WindowPorts(ts, i)
  {
    var start := ts[i].t;
    ports := [];
    var j := i;
    while j < |ts|
      invariant i <= j <= |ts|
      invariant PsRunEnd(ts, start, j) == PsRunEnd(ts, start, i)
      invariant ports == Distinct(PortsOf(ts[i..j]))
    {
      if ts[j].t - start <= PsWindowMs {
        PortsOfSnoc(ts[i..j], ts[j]);
        SliceSnoc(ts, i, j);
        DistinctSnoc(PortsOf(ts[i..j]), ts[j].port);
        if ts[j].port !in ports {
          ports := ports + [ts[j].port];
        }
        j := j + 1;
      } else {
        break;
      }
    }
  }

  /** The outer loop over one address's sorted probes; an address without probes returns early. */
  method ScanPortScan(ip: string, ts: seq<Probe>) returns (f: Option<PortScanFinding>)
    ensures f == PortScanIn(ip, ts)
  {
    ghost var ok := PsQualifies(ts);
    f := None;
    if |ts| == 0 {
      return;
    }
    var i := 0;
    while i < |ts|
      invariant 0 <= i <= |ts|
      invariant LeftmostFrom(ok, |ts|, 0) == LeftmostFrom(ok, |ts|, i)
    {
      var start := ts[i].t;
      var ports := CollectPorts(ts, i);
      if |ports| >= PsThreshold {
        f := Some(PortScanFinding(ip, start, |ports|, Sample(ports)));
        break;
      }
      i := i + 1;
    }
  }

  lemma {:induction false} PsRunEndSpec(ts: seq<Probe>, start: int, j: nat)
    requires j <= |ts|
    ensures var k := PsRunEnd(ts, start, j);
      && (forall m :: j <= m < k ==> ts[m].t - start <= PsWindowMs)
      && (k < |ts| ==> ts[k].t - start > PsWindowMs)
    decreases |ts| - j
  {
    if j < |ts| && ts[j].t - start <= PsWindowMs {
      PsRunEndSpec(ts, start, j + 1);
    }
  }

  /** A finding reports the first start whose window holds at least 20 distinct ports; its
      `uniquePorts` is their number, and its sample is at most 10 of them, in first-seen order. */
  lemma PortScanInFacts(ip: string, ts: seq<Probe>)
    ensures var f := PortScanIn(ip, ts);
      f.Some? ==> exists i :: (0 <= i < |ts|
        && var ports := WindowPorts(ts, i);
        && f.value.firstSeen == ts[i].t
        && f.value.uniquePorts == |ports| >= PsThreshold
        && (forall k :: 0 <= k < i ==> |WindowPorts(ts, k)| < PsThreshold)
        && f.value.samplePorts == ports[..SampleSize])
    ensures PortScanIn(ip, ts).None? <==> forall k :: 0 <= k < |ts| ==> |WindowPorts(ts, k)| < PsThreshold
    ensures ts == [] ==> PortScanIn(ip, ts).None?
  {
    var ok := PsQualifies(ts);
    LeftmostFromSpec(ok, |ts|, 0);
    var r := LeftmostFrom(ok, |ts|, 0);
    if r.Some? {
      var i := r.value;
      assert ok(i);
      forall k | 0 <= k < i ensures |WindowPorts(ts, k)| < PsThreshold {
        assert !ok(k);
      }
    } else {
      forall k | 0 <= k < |ts| ensures |WindowPorts(ts, k)| < PsThreshold {
        assert !ok(k);
      }
    }
  }

  /** The distinct ports of a window are the ports seen in it, each once. */
  lemma WindowPortsMeaning(ts: seq<Probe>, i: nat, p: int)
    requires i < |ts|
    ensures var k := PsRunEnd(ts, ts[i].t, i);
      p in WindowPorts(ts, i) <==> exists m :: i <= m < k && ts[m].port == p
  {
    var k := PsRunEnd(ts, ts[i].t, i);
    var ps := PortsOf(ts[i..k]);
    if p in WindowPorts(ts, i) {
      var n :| 0 <= n < |ps| && ps[n] == p;
      assert ts[i + n].port == p;
    }
    if exists m :: i <= m < k && ts[m].port == p {
      var m :| i <= m < k && ts[m].port == p;
      assert ps[m - i] == p;
    }
  }

  // ---------------------------------------------------------------------------
  // Blacklist (App.jsx:11, 187-191)

  const Blacklist: seq<string> := ["203.0.113.45", "198.51.100.23"]

  /** The record's address survives `.filter(Boolean)` and `localBlacklist.includes(ip)`,
      which compares by SameValueZero and so only ever matches a string. */
  predicate Blacklisted(r: LogRecord) {
    Truthy(r.srcIP) && r.srcIP.Str? && r.srcIP.s in Blacklist
  }

  /** `suspiciousIPs`: the address of each blacklisted record, in record order. */
  function Suspicious(recs: seq<LogRecord>): seq<string> {
    if recs == [] then []
    else Suspicious(recs[..|recs| - 1]) + (if Blacklisted(recs[|recs| - 1]) then [recs[|recs| - 1].srcIP.s] else [])
  }

  function BlacklistedCount(recs: seq<LogRecord>): nat {
    if recs == [] then 0 else BlacklistedCount(recs[..|recs| - 1]) + (if Blacklisted(recs[|recs| - 1]) then 1 else 0)
  }

  /** One entry per blacklisted record, each a blacklisted address, nothing else, in order. */
  lemma {:induction false} SuspiciousFacts(recs: seq<LogRecord>)
    ensures |Suspicious(recs)| == BlacklistedCount(recs)
    ensures forall i :: 0 <= i < |Suspicious(recs)| ==> Suspicious(recs)[i] in Blacklist
    decreases |recs|
  {
    if recs != [] {
      SuspiciousFacts(recs[..|recs| - 1]);
    }
  }

  lemma {:induction false} SuspiciousAppend(a: seq<LogRecord>, b: seq<LogRecord>)
    ensures Suspicious(a + b) == Suspicious(a) + Suspicious(b)
    decreases |b|
  {
    if b == [] {
      assert a + b == a;
    } else {
      var b' := b[..|b| - 1];
      assert (a + b)[..|a + b| - 1] == a + b';
      SuspiciousAppend(a, b');
    }
  }

  /** An address is reported exactly when some record carries it and it is blacklisted. */
  lemma {:induction false} SuspiciousMembership(recs: seq<LogRecord>, ip: string)
    ensures ip in Suspicious(recs) <==> ip in Blacklist && exists i :: 0 <= i < |recs| && recs[i].srcIP == Str(ip)
    decreases |recs|
  {
    if recs != [] {
      var init := recs[..|recs| - 1];
      SuspiciousMembership(init, ip);
      assert recs == init + [recs[|recs| - 1]];
      assert forall i :: 0 <= i < |init| ==> recs[i] == init[i];
    }
  }

  // ---------------------------------------------------------------------------
  // detectAnomalies

  datatype Anomalies = Anomalies(bruteForce: seq<BruteForceFinding>, portScans: seq<PortScanFinding>, suspiciousIPs: seq<string>)

  /** One address's attempts, sorted as the brute-force detector sorts them. */
  function SortedAttempts(recs: seq<LogRecord>, ip: string): seq<Attempt> {
    SortBy(Attempts(Bucket(recs, ip)), AttemptKey)
  }

  function SortedProbes(recs: seq<LogRecord>, ip: string, now: int): seq<Probe> {
    SortBy(Probes(Bucket(recs, ip), now), ProbeKey)
  }

  /** The findings of `find` over `entries`, in entry order: one `for` over `Object.entries`
      that pushes what each address yields. */
  function Collect<F>(entries: seq<string>, find: string -> Option<F>): (r: seq<F>)
    ensures |r| <= |entries|
  {
    if entries == [] then []
    else Collect(entries[..|entries| - 1], find) + (match find(entries[|entries| - 1]) case Some(f) => [f] case None => [])
  }

  /** When every finding is named after the address it came from, the findings name entries,
      and distinct entries give findings that name distinct addresses. */
  lemma {:induction false} CollectNames<F>(entries: seq<string>, find: string -> Option<F>, name: F -> string)
    requires forall e :: find(e).Some? ==> name(find(e).value) == e
    ensures forall i :: 0 <= i < |Collect(entries, find)| ==> name(Collect(entries, find)[i]) in entries
    ensures (forall i, j :: 0 <= i < j < |entries| ==> entries[i] != entries[j]) ==>
      forall i, j :: 0 <= i < j < |Collect(entries, find)| ==> name(Collect(entries, find)[i]) != name(Collect(entries, find)[j])
    decreases |entries|
  {
    if entries != [] {
      var init, e := entries[..|entries| - 1], entries[|entries| - 1];
      CollectNames(init, find, name);
      var fs := Collect(init, find);
      assert forall i :: 0 <= i < |init| ==> init[i] == entries[i];
      if find(e).Some? {
        assert Collect(entries, find) == fs + [find(e).value];
        if forall i, j :: 0 <= i < j < |entries| ==> entries[i] != entries[j] {
          assert e !in init;
        }
      } else {
        assert Collect(entries, find) == fs;
      }
    }
  }

  function BruteForceFinder(recs: seq<LogRecord>, now: int): string -> Option<BruteForceFinding> {
    ip => BruteForceIn(ip, SortedAttempts(recs, ip), now)
  }

  function PortScanFinder(recs: seq<LogRecord>, now: int): string -> Option<PortScanFinding> {
    ip => PortScanIn(ip, SortedProbes(recs, ip, now))
  }

  function BruteForceIp(f: BruteForceFinding): string { f.ip }
  function PortScanIp(f: PortScanFinding): string { f.ip }

  function BruteForceFindings(entries: seq<string>, recs: seq<LogRecord>, now: int): seq<BruteForceFinding> {
    Collect(entries, BruteForceFinder(recs, now))
  }

  function PortScanFindings(entries: seq<string>, recs: seq<LogRecord>, now: int): seq<PortScanFinding> {
    Collect(entries, PortScanFinder(recs, now))
  }

  /** What `detectAnomalies(recs)` hands to `setAnomalies`, None when filing the records throws. */
  function AnomaliesOf(recs: seq<LogRecord>, now: int): Option<Anomalies> {
    if Clashes(recs) then None
    else
      var entries := EntriesOrder(Sources(recs));
      Some(Anomalies(BruteForceFindings(entries, recs, now), PortScanFindings(entries, recs, now), Suspicious(recs)))
  }

  /** The brute-force loop over the entries. */
  method ReportBruteForce(entries: seq<string>, byIp: map<string, seq<LogRecord>>, recs: seq<LogRecord>, now: int)
    returns (found: seq<BruteForceFinding>)
    requires forall k :: k in byIp ==> byIp[k] == Bucket(recs, k)
    requires forall i :: 0 <= i < |entries| ==> entries[i] in byIp
    ensures found == BruteForceFindings(entries, recs, now)
  {
    found := [];
    for k := 0 to |entries|
      invariant found == Collect(entries[..k], BruteForceFinder(recs, now))
    {
      var ip := entries[k];
      assert entries[..k + 1][..k] == entries[..k];
      var f := ScanBruteForce(ip, SortBy(Attempts(byIp[ip]), AttemptKey), now);
      assert f == BruteForceFinder(recs, now)(ip);
      if f.Some? {
        found := found + [f.value];
      }
    }
    assert entries[..|entries|] == entries;
  }

  /** The port-scan loop over the entries. */
  method ReportPortScans(entries: seq<string>, byIp: map<string, seq<LogRecord>>, recs: seq<LogRecord>, now: int)
    returns (found: seq<PortScanFinding>)
    requires forall k :: k in byIp ==> byIp[k] == Bucket(recs, k)
    requires forall i :: 0 <= i < |entries| ==> entries[i] in byIp
    ensures found == PortScanFindings(entries, recs, now)
  {
    found := [];
    for k := 0 to |entries|
      invariant found == Collect(entries[..k], PortScanFinder(recs, now))
    {
      var ip := entries[k];
      assert entries[..k + 1][..k] == entries[..k];
      var f := ScanPortScan(ip, SortBy(Probes(byIp[ip], now), ProbeKey));
      assert f == PortScanFinder(recs, now)(ip);
      if f.Some? {
        found := found + [f.value];
      }
    }
    assert entries[..|entries|] == entries;
  }

  /** Every name `Object.entries` visits is a property name. */
  lemma EntriesWithin(keys: seq<string>)
    ensures forall i :: 0 <= i < |EntriesOrder(keys)| ==> EntriesOrder(keys)[i] in keys
  {
    EntriesOrderFacts(keys);
    var entries := EntriesOrder(keys);
    forall i | 0 <= i < |entries| ensures entries[i] in keys {
      assert entries[i] in multiset(entries);
    }
  }

  /** `detectAnomalies` with `Date.now()` passed in as `now`. */
  method DetectAnomalies(recs: seq<LogRecord>, now: int) returns (a: Option<Anomalies>)
    ensures a == AnomaliesOf(recs, now)
  {
    var keys, byIp, threw := GroupBySource(recs);
    if threw {
      return None;
    }
    var entries := EntriesOrder(keys);
    EntriesWithin(keys);
    var bruteForce := ReportBruteForce(entries, byIp, recs, now);
    var portScans := ReportPortScans(entries, byIp, recs, now);
    a := Some(Anomalies(bruteForce, portScans, Suspicious(recs)));
  }

  /** Each address yields at most one brute-force finding, named after it, so distinct
      entries give findings for distinct addresses. */
  lemma BruteForceFindingsIps(entries: seq<string>, recs: seq<LogRecord>, now: int)
    ensures |BruteForceFindings(entries, recs, now)| <= |entries|
    ensures forall i :: 0 <= i < |BruteForceFindings(entries, recs, now)| ==> BruteForceFindings(entries, recs, now)[i].ip in entries
    ensures (forall i, j :: 0 <= i < j < |entries| ==> entries[i] != entries[j]) ==>
      forall i, j :: 0 <= i < j < |BruteForceFindings(entries, recs, now)| ==>
        BruteForceFindings(entries, recs, now)[i].ip != BruteForceFindings(entries, recs, now)[j].ip
  {
    CollectNames(entries, BruteForceFinder(recs, now), BruteForceIp);
  }

  lemma PortScanFindingsIps(entries: seq<string>, recs: seq<LogRecord>, now: int)
    ensures |PortScanFindings(entries, recs, now)| <= |entries|
    ensures forall i :: 0 <= i < |PortScanFindings(entries, recs, now)| ==> PortScanFindings(entries, recs, now)[i].ip in entries
    ensures (forall i, j :: 0 <= i < j < |entries| ==> entries[i] != entries[j]) ==>
      forall i, j :: 0 <= i < j < |PortScanFindings(entries, recs, now)| ==>
        PortScanFindings(entries, recs, now)[i].ip != PortScanFindings(entries, recs, now)[j].ip
  {
    CollectNames(entries, PortScanFinder(recs, now), PortScanIp);
  }

  /** What `detectAnomalies` reports: nothing at all when filing the records throws; otherwise
      each detector names every property name of `byIP` at most once and no other address. */
  lemma ReportFacts(recs: seq<LogRecord>, now: int)
    ensures AnomaliesOf(recs, now).None? <==> Clashes(recs)
    ensures AnomaliesOf(recs, now).Some? ==> var a := AnomaliesOf(recs, now).value;
      && |a.bruteForce| <= |Sources(recs)| && |a.portScans| <= |Sources(recs)|
      && (forall i :: 0 <= i < |a.bruteForce| ==> a.bruteForce[i].ip in Sources(recs))
      && (forall i :: 0 <= i < |a.portScans| ==> a.portScans[i].ip in Sources(recs))
      && (forall i, j :: 0 <= i < j < |a.bruteForce| ==> a.bruteForce[i].ip != a.bruteForce[j].ip)
      && (forall i, j :: 0 <= i < j < |a.portScans| ==> a.portScans[i].ip != a.portScans[j].ip)
      && a.suspiciousIPs == Suspicious(recs)
  {
    if !Clashes(recs) {
      var keys := Sources(recs);
      var entries := EntriesOrder(keys);
      EntriesOrderFacts(keys);
      EntriesWithin(keys);
      PermutationKeepsDistinct(entries, keys);
      assert |entries| == |keys| by {
        assert |multiset(entries)| == |multiset(keys)|;
      }
      BruteForceFindingsIps(entries, recs, now);
      PortScanFindingsIps(entries, recs, now);
    }
  }
}
