/** `parseLogLine` and the `map`/`filter` half of `parseText`: one line of a log becomes a
    record through the first strategy that accepts it, and a text becomes the records of its
    lines in order. */
module LineParser {
  import opened Text
  import opened JsValues
  import opened Matchers
  import opened Records

  /** The strategies of `parseLogLine`. */
  datatype Strategy = Blank | Json | Csv | Clf | KeyValue | Sshd | Kernel | Fallback

  /** Wrapped in braces: the line is handed to `JSON.parse`. */
  predicate IsBraced(t: string) {
    StartsWith(t, "{") && EndsWith(t, "}")
  }

  /** The test with which each strategy takes the trimmed line `t`. */
  predicate Accepts(s: Strategy, t: string) {
    match s
    case Blank => t == []
    case Json => IsBraced(t)
    case Csv => CsvApplies(Split(t, ','))
    case Clf => ClfMatch(t).Some?
    case KeyValue => KvScan(t, 0) != []
    case Sshd => FirstSshd(t).Some?
    case Kernel => FirstKernel(t).Some?
    case Fallback => true
  }

  /** Place of each strategy in the order of App.jsx:25-89. */
  function SourceRank(s: Strategy): nat {
    match s
    case Blank => 0 case Json => 1 case Csv => 2 case Clf => 3
    case KeyValue => 4 case Sshd => 5 case Kernel => 6 case Fallback => 7
  }

  /** Place of each strategy once the kernel test comes ahead of key=value. */
  function CorrectedRank(s: Strategy): nat {
    match s
    case Blank => 0 case Json => 1 case Csv => 2 case Clf => 3
    case Kernel => 4 case KeyValue => 5 case Sshd => 6 case Fallback => 7
  }

  /** The strategy that handles the trimmed line `t` as App.jsx:25-89 is written: the first
      that takes it in source order. */
  function ClassifyAsWritten(t: string): (s: Strategy)
    ensures Accepts(s, t)
    ensures forall s' :: SourceRank(s') < SourceRank(s) ==> !Accepts(s', t)
  {
    if t == [] then Blank
    else if IsBraced(t) then Json
    else if CsvApplies(Split(t, ',')) then Csv
    else if ClfMatch(t).Some? then Clf
    else if KvScan(t, 0) != [] then KeyValue
    else if FirstSshd(t).Some? then Sshd
    else if FirstKernel(t).Some? then Kernel
    else Fallback
  }

  /** The strategy that handles `t` with the kernel test ahead of key=value: as written,
      every kernel line is taken by key=value first, and this order is the correction. */
  function Classify(t: string): (s: Strategy)
    ensures Accepts(s, t)
    ensures forall s' :: CorrectedRank(s') < CorrectedRank(s) ==> !Accepts(s', t)
  {
    if t == [] then Blank
    else if IsBraced(t) then Json
    else if CsvApplies(Split(t, ',')) then Csv
    else if ClfMatch(t).Some? then Clf
    else if FirstKernel(t).Some? then Kernel
    else if KvScan(t, 0) != [] then KeyValue
    else if FirstSshd(t).Some? then Sshd
    else Fallback
  }

  /** Field `i` of a comma-separated line, trimmed, as the bag holds it (absent when missing). */
  function CsvBag(parts: seq<string>): (bag: Bag)
    requires |parts| >= 3
    ensures AllText(bag) && TextKeysOnly(bag)
  {
    var bag := map["srcIP" := Str(Trim(parts[0])), "time" := Str(Trim(parts[1])), "request" := Str(Trim(parts[2]))];
    var bag := if |parts| > 3 then bag["status" := Str(Trim(parts[3]))] else bag;
    if |parts| > 4 then bag["port" := Str(Trim(parts[4]))] else bag
  }

  function ClfBag(p: ClfParts): (bag: Bag)
    ensures AllText(bag) && TextKeysOnly(bag)
  {
    map["srcIP" := Str(p.client), "time" := Str(p.time), "request" := Str(p.request), "status" := Str(p.status)]
  }

  /** The name JavaScript reserves for an object's prototype: `kv["__proto__"] = "..."` leaves
      `kv` unchanged, as the setter ignores non-object values. */
  const ProtoKey: string := "__proto__"

  /** `kv[k] = v` for every token in turn: a later token with the same key overwrites. */
  function KvBag(tokens: seq<KvToken>): (kv: Bag)
    ensures AllText(kv)
    ensures forall k :: k in kv ==> k != ProtoKey
  {
    if tokens == [] then map[]
    else
      var kv := KvBag(tokens[..|tokens| - 1]);
      var last := tokens[|tokens| - 1];
      if last.key == ProtoKey then kv else kv[last.key := Str(last.value)]
  }

  /** The `forEach` at App.jsx:58-61 that fills the `kv` object. */
  method CollectKeyValues(tokens: seq<KvToken>) returns (kv: Bag)
    ensures kv == KvBag(tokens)
  {
    kv := map[];
    for i := 0 to |tokens|
      invariant kv == KvBag(tokens[..i])
    {
      assert tokens[..i + 1][..i] == tokens[..i];
      var token := tokens[i];
      if token.key != ProtoKey {
        kv := kv[token.key := Str(token.value)];
      }
    }
    assert tokens[..|tokens|] == tokens;
  }

  /** A key keeps the value of its last token. */
  lemma {:induction false} KvLastWriteWins(tokens: seq<KvToken>, i: nat)
    requires i < |tokens| && tokens[i].key != ProtoKey
    requires forall j :: i < j < |tokens| ==> tokens[j].key != tokens[i].key
    ensures Get(KvBag(tokens), tokens[i].key) == Str(tokens[i].value)
    decreases |tokens|
  {
    if i < |tokens| - 1 {
      var init := tokens[..|tokens| - 1];
      assert init[i] == tokens[i];
      KvLastWriteWins(init, i);
    }
  }

  /** A key no token names is not in the bag. */
  lemma {:induction false} KvAbsentKey(tokens: seq<KvToken>, key: string)
    requires forall j :: 0 <= j < |tokens| ==> tokens[j].key != key
    ensures key !in KvBag(tokens)
    decreases |tokens|
  {
    if tokens != [] {
      KvAbsentKey(tokens[..|tokens| - 1], key);
    }
  }

  /** `line.toLowerCase().includes("failed") || ... includes("brute")`. */
  predicate SaysFailed(t: string) {
    Contains(LowerAscii(t), "failed") || Contains(LowerAscii(t), "brute")
  }

  /** The syslog stamp at the start of the line, when there is one. */
  function StampField(t: string, bag: Bag): (b: Bag)
    ensures AllText(bag) ==> AllText(b)
    ensures TextKeysOnly(bag) ==> TextKeysOnly(b)
    ensures Get(b, "time") == if SyslogStamp(t).Some? then Str(SyslogStamp(t).value) else Get(bag, "time")
    ensures forall k :: k != "time" ==> Get(b, k) == Get(bag, k)
  {
    match SyslogStamp(t)
    case Some(stamp) => bag["time" := Str(stamp)]
    case None => bag
  }

  function SshdBag(t: string, m: AddressPort): (bag: Bag)
    ensures AllText(bag) && TextKeysOnly(bag)
  {
    StampField(t, map["srcIP" := Str(m.ip), "port" := Str(m.port),
      "status" := Str(if SaysFailed(t) then "Failed" else "OK"), "request" := Str(t)])
  }

  function KernelBag(t: string, m: AddressPort): (bag: Bag)
    ensures AllText(bag) && TextKeysOnly(bag)
  {
    StampField(t, map["srcIP" := Str(m.ip), "port" := Str(m.port), "request" := Str(t)])
  }

  /** The first dotted quad anywhere and the first `[...]` text, with the line as `raw`. */
  function FallbackBag(t: string): (bag: Bag)
    ensures AllText(bag) && TextKeysOnly(bag)
  {
    var bag := map["raw" := Str(t)];
    var bag := if FirstIp(t).Some? then bag["srcIP" := Str(FirstIp(t).value)] else bag;
    if FirstBracket(t).Some? then bag["time" := Str(FirstBracket(t).value)] else bag
  }

  /** The fields a text strategy hands to `normalizeRecord`. */
  function TextBag(t: string, s: Strategy): (bag: Bag)
    requires Accepts(s, t) && s !in {Blank, Json}
    ensures AllText(bag)
  {
    match s
    case Csv => CsvBag(Split(t, ','))
    case Clf => ClfBag(ClfMatch(t).value)
    case KeyValue => KvBag(KvScan(t, 0))
    case Sshd => SshdBag(t, FirstSshd(t).value)
    case Kernel => KernelBag(t, FirstKernel(t).value)
    case Fallback => FallbackBag(t)
  }

  /** `JSON.parse` rejects the line, or `normalizeRecord` throws on what it gave. */
  predicate JsonRejected(host: Host, t: string) {
    host.parseJson(t).None? || Normalize(host, host.parseJson(t).value).None?
  }

  /** What strategy `s` returns for `t`; None is `null`. */
  function ParseWith(host: Host, t: string, s: Strategy): (r: Option<LogRecord>)
    requires Accepts(s, t)
    ensures s !in {Blank, Json} ==> r.Some?
  {
    match s
    case Blank => None
    case Json => if host.parseJson(t).None? then None else Normalize(host, host.parseJson(t).value)
    case _ => Normalize(host, TextBag(t, s))
  }

  /** `parseLogLine` after `line.trim()`, strategies tried in source order; None is `null`.
      Only a blank line and a rejected braced line give null: every other line yields a
      record, if need be through the fallback. */
  function ParseTrimmedAsWritten(host: Host, t: string): (r: Option<LogRecord>)
    ensures r.None? <==> t == [] || (IsBraced(t) && JsonRejected(host, t))
    ensures r.Some? ==> Truthy(r.value.raw)
  {
    ParseWith(host, t, ClassifyAsWritten(t))
  }

  /** `parseLogLine` after `line.trim()`, with the kernel test ahead of key=value. */
  function ParseTrimmed(host: Host, t: string): (r: Option<LogRecord>)
    ensures r.None? <==> t == [] || (IsBraced(t) && JsonRejected(host, t))
    ensures r.Some? ==> Truthy(r.value.raw)
  {
    ParseWith(host, t, Classify(t))
  }

  /** `parseLogLine(line)`, as written. */
  function ParseLogLine(host: Host, line: string): (r: Option<LogRecord>)
    ensures r.None? <==> Trim(line) == [] || (IsBraced(Trim(line)) && JsonRejected(host, Trim(line)))
    ensures r.Some? ==> Truthy(r.value.raw)
  {
    ParseTrimmedAsWritten(host, Trim(line))
  }

  /** `parseLogLine(line)` with the kernel test moved ahead of key=value. */
  function ParseLogLineCorrected(host: Host, line: string): (r: Option<LogRecord>)
    ensures r.None? <==> Trim(line) == [] || (IsBraced(Trim(line)) && JsonRejected(host, Trim(line)))
    ensures r.Some? ==> Truthy(r.value.raw)
  {
    ParseTrimmed(host, Trim(line))
  }

  /** The correction changes the outcome only for a line that has a kernel match and that
      key=value takes as written. */
  lemma ParseLogLineCorrection(host: Host, line: string)
    ensures ParseLogLineCorrected(host, line) != ParseLogLine(host, line) ==>
      ClassifyAsWritten(Trim(line)) == KeyValue && FirstKernel(Trim(line)).Some?
  {
    ClassifyCorrection(Trim(line));
  }

  /** A trimmed field as `normalizeRecord` reads it back: an empty field reads as `undefined`. */
  function FieldValue(s: string): Value {
    if s == [] then Undefined else Str(s)
  }

  /** Field `i` of the split line, trimmed; `undefined` when the line has fewer fields. */
  function CsvField(parts: seq<string>, i: nat): Value {
    if i < |parts| then FieldValue(Trim(parts[i])) else Undefined
  }

  /** A text strategy hands its bag to `normalizeRecord` and returns what that gives. */
  lemma TextRecord(host: Host, t: string)
    requires ClassifyAsWritten(t) !in {Blank, Json}
    ensures ParseTrimmedAsWritten(host, t) == Normalize(host, TextBag(t, ClassifyAsWritten(t)))
  {
  }

  /** The comma-separated strategy takes the trimmed fields by position, in the order
      `ip,time,request,status,port`; the missing trailing fields stay undefined. */
  lemma CsvPositional(host: Host, t: string)
    requires ClassifyAsWritten(t) == Csv
    ensures var parts := Split(t, ',');
      var r := ParseTrimmedAsWritten(host, t).value;
      && r.srcIP == CsvField(parts, 0) && r.time == CsvField(parts, 1)
      && r.request == CsvField(parts, 2) && r.status == CsvField(parts, 3)
      && r.destIP == Undefined
      && r.port == (if CsvField(parts, 4) == Undefined then Undefined else ToNumber(CsvField(parts, 4)))
  {
    CsvParsed(host, t);
    CsvNormalized(host, Split(t, ','));
  }

  lemma CsvParsed(host: Host, t: string)
    requires ClassifyAsWritten(t) == Csv
    ensures |Split(t, ',')| >= 3
    ensures ParseTrimmedAsWritten(host, t) == Normalize(host, CsvBag(Split(t, ',')))
  {
    assert t != [] && !IsBraced(t);
    assert CsvApplies(Split(t, ','));
    TextRecord(host, t);
  }

  lemma CsvNormalized(host: Host, parts: seq<string>)
    requires |parts| >= 3
    ensures var r := Normalize(host, CsvBag(parts)).value;
      && r.srcIP == CsvField(parts, 0) && r.time == CsvField(parts, 1)
      && r.request == CsvField(parts, 2) && r.status == CsvField(parts, 3)
      && r.destIP == Undefined
      && r.port == (if CsvField(parts, 4) == Undefined then Undefined else ToNumber(CsvField(parts, 4)))
  {
    NormalizeTextBag(host, CsvBag(parts));
    CsvBagGet(parts);
  }

  lemma CsvBagGet(parts: seq<string>)
    requires |parts| >= 3
    ensures var bag := CsvBag(parts);
      && Get(bag, "srcIP") == Str(Trim(parts[0]))
      && Get(bag, "time") == Str(Trim(parts[1]))
      && Get(bag, "request") == Str(Trim(parts[2]))
      && Get(bag, "status") == (if |parts| > 3 then Str(Trim(parts[3])) else Undefined)
      && Get(bag, "port") == (if |parts| > 4 then Str(Trim(parts[4])) else Undefined)
  {
  }

  /** Common Log Format: the client as source, the bracketed time, the quoted request and the
      three-digit status, the whole line spelled out by them; the size is not kept and there
      is no port. */
  lemma ClfRecord(host: Host, t: string)
    requires ClassifyAsWritten(t) == Clf
    ensures var p := ClfMatch(t).value;
      var r := ParseTrimmedAsWritten(host, t).value;
      && r.srcIP == Str(p.client) && r.time == FieldValue(p.time) && r.request == FieldValue(p.request)
      && r.status == Str(p.status) && |p.status| == 3 && AllDigits(p.status)
      && r.port == Undefined
  {
    ClfCaptures(t);
    ClfParsed(host, t);
    ClfNormalized(host, ClfMatch(t).value);
  }

  lemma ClfParsed(host: Host, t: string)
    requires ClassifyAsWritten(t) == Clf
    ensures ParseTrimmedAsWritten(host, t) == Normalize(host, ClfBag(ClfMatch(t).value))
  {
    TextRecord(host, t);
  }

  lemma ClfNormalized(host: Host, p: ClfParts)
    requires p.client != [] && p.status != []
    ensures var r := Normalize(host, ClfBag(p)).value;
      && r.srcIP == Str(p.client) && r.time == FieldValue(p.time) && r.request == FieldValue(p.request)
      && r.status == Str(p.status) && r.port == Undefined
  {
    NormalizeTextBag(host, ClfBag(p));
    ClfBagGet(p);
  }

  lemma ClfCaptures(t: string)
    requires ClfMatch(t).Some?
    ensures var p := ClfMatch(t).value; p.client != [] && |p.status| == 3 && AllDigits(p.status)
  {
    ClfMatchSound(t);
  }

  lemma ClfBagGet(p: ClfParts)
    ensures var bag := ClfBag(p);
      && Get(bag, "srcIP") == Str(p.client) && Get(bag, "time") == Str(p.time)
      && Get(bag, "request") == Str(p.request) && Get(bag, "status") == Str(p.status)
      && Get(bag, "port") == Undefined
  {
  }

  /** The key=value strategy normalises the pairs, the last pair of a key winning. As written
      it also takes every kernel line that is not JSON, CSV or CLF. */
  lemma KeyValueRecord(host: Host, t: string)
    requires ClassifyAsWritten(t) == KeyValue
    ensures ParseTrimmedAsWritten(host, t) == Normalize(host, KvBag(KvScan(t, 0)))
    ensures ParseTrimmedAsWritten(host, t).Some?
  {
    TextRecord(host, t);
  }

  /** A line with a `word=value` token that is not braced, comma-separated or in Common Log
      Format is read as key=value pairs, whatever else it contains: the sshd, kernel and
      fallback strategies never see it. */
  lemma KeyValueShadowsLaterStrategies(t: string, i: nat, j: nat, k: nat)
    requires t != [] && !IsBraced(t) && !CsvApplies(Split(t, ',')) && ClfMatch(t).None?
    requires KvTokenAt(t, i, j, k)
    ensures ClassifyAsWritten(t) == KeyValue
  {
    KvScanNonEmpty(t, 0);
  }

  /** A kernel match always holds a key=value token: `SRC=` and the first digit of the
      address are `\w+=\S+`. */
  lemma KernelHasKeyValue(t: string)
    requires FirstKernel(t).Some?
    ensures KvScan(t, 0) != []
  {
    KernelAtToken(t, KernelFrom(t, 0).value);
    KvScanNonEmpty(t, 0);
  }

  /** As written, the kernel strategy is never reached. */
  lemma KernelUnreachable(t: string)
    ensures ClassifyAsWritten(t) != Kernel
  {
    if FirstKernel(t).Some? {
      KernelHasKeyValue(t);
    }
  }

  /** The two orders differ only on kernel lines that key=value takes as written. */
  lemma ClassifyCorrection(t: string)
    ensures Classify(t) == if ClassifyAsWritten(t) == KeyValue && FirstKernel(t).Some? then Kernel else ClassifyAsWritten(t)
  {
    if FirstKernel(t).None? {
      ClassifyAgrees(t);
    } else {
      KernelHasKeyValue(t);
      KernelLineOrders(t);
    }
  }

  /** On a line without a kernel match the two orders pick the same strategy. */
  lemma ClassifyAgrees(t: string)
    requires FirstKernel(t).None?
    ensures Classify(t) == ClassifyAsWritten(t)
  {
  }

  lemma KernelLineOrders(t: string)
    requires FirstKernel(t).Some? && KvScan(t, 0) != []
    ensures Classify(t) == if ClassifyAsWritten(t) == KeyValue then Kernel else ClassifyAsWritten(t)
  {
    if t == [] || IsBraced(t) || CsvApplies(Split(t, ',')) || ClfMatch(t).Some? {
      assert Classify(t) == ClassifyAsWritten(t) != KeyValue;
    } else {
      assert Classify(t) == Kernel && ClassifyAsWritten(t) == KeyValue;
    }
  }

  /** Without a lower-case letter, as in a netfilter line's `SRC`, `DST` and `DPT`. */
  predicate NoLowerAscii(w: string) {
    forall i :: 0 <= i < |w| ==> !IsLowerAscii(w[i])
  }

  lemma LowerStartDiffers(w: string, name: string)
    requires NoLowerAscii(w) && name != [] && IsLowerAscii(name[0])
    ensures w != name
  {
    assert |w| > 0 ==> !IsLowerAscii(w[0]);
  }

  /** A name that begins with a lower-case letter is no key of such tokens. */
  lemma UpperKeysMiss(tokens: seq<KvToken>, name: string)
    requires name != [] && IsLowerAscii(name[0])
    requires forall j :: 0 <= j < |tokens| ==> NoLowerAscii(tokens[j].key)
    ensures name !in KvBag(tokens)
  {
    forall j | 0 <= j < |tokens| ensures tokens[j].key != name {
      LowerStartDiffers(tokens[j].key, name);
    }
    KvAbsentKey(tokens, name);
  }

  /** As written, a kernel line (one that is not JSON, CSV or CLF) is read as key=value pairs,
      and when its keys are upper-case, as netfilter writes them, its record has no source
      address, no destination and no port: the `SRC=` and `DPT=` fields are lost. */
  lemma KernelLineAsWritten(host: Host, t: string)
    requires !IsBraced(t) && !CsvApplies(Split(t, ',')) && ClfMatch(t).None? && FirstKernel(t).Some?
    requires forall j :: 0 <= j < |KvScan(t, 0)| ==> NoLowerAscii(KvScan(t, 0)[j].key)
    ensures ClassifyAsWritten(t) == KeyValue
    ensures var r := ParseTrimmedAsWritten(host, t).value;
      r.srcIP == Undefined && r.destIP == Undefined && r.port == Undefined
  {
    KernelLineReadAsPairs(host, t);
    UpperKeysRecord(host, KvScan(t, 0));
  }

  lemma KernelLineReadAsPairs(host: Host, t: string)
    requires !IsBraced(t) && !CsvApplies(Split(t, ',')) && ClfMatch(t).None? && FirstKernel(t).Some?
    ensures ClassifyAsWritten(t) == KeyValue
    ensures ParseTrimmedAsWritten(host, t) == Normalize(host, KvBag(KvScan(t, 0)))
  {
    KernelHasKeyValue(t);
  }

  /** Pairs whose keys have no lower-case letter give no source, destination or port. */
  lemma UpperKeysRecord(host: Host, tokens: seq<KvToken>)
    requires forall j :: 0 <= j < |tokens| ==> NoLowerAscii(tokens[j].key)
    ensures var r := Normalize(host, KvBag(tokens)).value;
      r.srcIP == Undefined && r.destIP == Undefined && r.port == Undefined
  {
    UpperKeysNoAddress(tokens);
    NoAddressRecord(host, KvBag(tokens));
  }

  /** None of the address and port names is a key of such pairs. */
  lemma UpperKeysNoAddress(tokens: seq<KvToken>)
    requires forall j :: 0 <= j < |tokens| ==> NoLowerAscii(tokens[j].key)
    ensures NoAddressFields(KvBag(tokens))
  {
    AddressNamesStartLower();
    forall i | 0 <= i < |SrcIPAliases| ensures SrcIPAliases[i] !in KvBag(tokens) {
      UpperKeysMiss(tokens, SrcIPAliases[i]);
    }
    forall i | 0 <= i < |DestIPAliases| ensures DestIPAliases[i] !in KvBag(tokens) {
      UpperKeysMiss(tokens, DestIPAliases[i]);
    }
    UpperKeysMiss(tokens, "port");
    UpperKeysMiss(tokens, "destination_port");
  }

  lemma AddressNamesStartLower()
    ensures forall i :: 0 <= i < |SrcIPAliases| ==> SrcIPAliases[i] != [] && IsLowerAscii(SrcIPAliases[i][0])
    ensures forall i :: 0 <= i < |DestIPAliases| ==> DestIPAliases[i] != [] && IsLowerAscii(DestIPAliases[i][0])
    ensures IsLowerAscii("port"[0]) && IsLowerAscii("destination_port"[0])
  {
  }

  /** A bag with no field under an address alias or a port name. */
  predicate NoAddressFields(bag: Bag) {
    && (forall i :: 0 <= i < |SrcIPAliases| ==> SrcIPAliases[i] !in bag)
    && (forall i :: 0 <= i < |DestIPAliases| ==> DestIPAliases[i] !in bag)
    && "port" !in bag && "destination_port" !in bag
  }

  lemma NoAddressRecord(host: Host, bag: Bag)
    requires AllText(bag) && NoAddressFields(bag)
    ensures var r := Normalize(host, bag).value;
      r.srcIP == Undefined && r.destIP == Undefined && r.port == Undefined
  {
    FirstTruthyAbsent(bag, SrcIPAliases);
    FirstTruthyAbsent(bag, DestIPAliases);
  }

  /** With the kernel test ahead of key=value, a kernel line that is not JSON, CSV or CLF is
      taken by the kernel strategy, and its record holds the `SRC=` address and the `DPT=`
      port. */
  lemma KernelLineCorrected(host: Host, t: string)
    requires !IsBraced(t) && !CsvApplies(Split(t, ',')) && ClfMatch(t).None? && FirstKernel(t).Some?
    ensures Classify(t) == Kernel
    ensures var m := FirstKernel(t).value;
      var r := ParseTrimmed(host, t).value;
      && r.srcIP == Str(m.ip) && IsDottedQuad(m.ip) && r.port == ToNumber(Str(m.port))
  {
    var q := KernelFrom(t, 0).value;
    KernelAtShape(t, q, FirstKernel(t).value);
    KernelRecord(host, t);
  }

  /** The sshd strategy: the address and port after `from`, status `Failed` when the line
      mentions a failure or brute force and `OK` otherwise, and the whole line as request. */
  lemma SshdRecord(host: Host, t: string)
    requires ClassifyAsWritten(t) == Sshd
    ensures var m := FirstSshd(t).value;
      var r := ParseTrimmedAsWritten(host, t).value;
      && r.srcIP == Str(m.ip) && IsDottedQuad(m.ip)
      && r.port == ToNumber(Str(m.port)) && r.port.Num?
      && r.status == Str(if SaysFailed(t) then "Failed" else "OK")
      && r.request == Str(t)
      && r.time == (if SyslogStamp(t).Some? then Str(SyslogStamp(t).value) else Undefined)
  {
    var m := FirstSshd(t).value;
    SshdAtCaptures(t, SshdFrom(t, 0).value);
    SshdParsed(host, t);
    SshdNormalized(host, t, m);
  }

  lemma SshdParsed(host: Host, t: string)
    requires ClassifyAsWritten(t) == Sshd
    ensures ParseTrimmedAsWritten(host, t) == Normalize(host, SshdBag(t, FirstSshd(t).value))
  {
    TextRecord(host, t);
  }

  lemma SshdNormalized(host: Host, t: string, m: AddressPort)
    requires t != [] && m.ip != [] && DigitField(m.port)
    ensures var r := Normalize(host, SshdBag(t, m)).value;
      && r.srcIP == Str(m.ip) && r.port == ToNumber(Str(m.port)) && r.port.Num?
      && r.status == Str(if SaysFailed(t) then "Failed" else "OK")
      && r.request == Str(t)
      && r.time == (if SyslogStamp(t).Some? then Str(SyslogStamp(t).value) else Undefined)
  {
    NormalizeTextBag(host, SshdBag(t, m));
    SshdBagGet(t, m);
    DigitsUntrimmed(m.port);
  }

  /** The fields of the sshd bag. */
  lemma SshdBagGet(t: string, m: AddressPort)
    ensures var bag := SshdBag(t, m);
      && Get(bag, "srcIP") == Str(m.ip) && Get(bag, "port") == Str(m.port) && Get(bag, "request") == Str(t)
      && Get(bag, "time") == (if SyslogStamp(t).Some? then Str(SyslogStamp(t).value) else Undefined)
      && Get(bag, "status") == Str(if SaysFailed(t) then "Failed" else "OK")
  {
  }

  /** The fields of the kernel bag. */
  lemma KernelBagGet(t: string, m: AddressPort)
    ensures var bag := KernelBag(t, m);
      && Get(bag, "srcIP") == Str(m.ip) && Get(bag, "port") == Str(m.port) && Get(bag, "request") == Str(t)
      && Get(bag, "time") == (if SyslogStamp(t).Some? then Str(SyslogStamp(t).value) else Undefined)
      && Get(bag, "status") == Undefined
  {
  }

  /** The kernel strategy: the address after `SRC=`, the port after the last `DPT=` and the
      whole line as request, with no status. */
  lemma KernelRecord(host: Host, t: string)
    requires Classify(t) == Kernel
    ensures var m := FirstKernel(t).value;
      var r := ParseTrimmed(host, t).value;
      && r.srcIP == Str(m.ip) && r.port == ToNumber(Str(m.port))
      && r.request == Str(t) && r.status == Undefined
      && r.time == (if SyslogStamp(t).Some? then Str(SyslogStamp(t).value) else Undefined)
  {
    var m := FirstKernel(t).value;
    KernelCaptures(t, m);
    KernelParsed(host, t);
    KernelNormalized(host, t, m);
  }

  lemma KernelParsed(host: Host, t: string)
    requires Classify(t) == Kernel
    ensures ParseTrimmed(host, t) == Normalize(host, KernelBag(t, FirstKernel(t).value))
  {
  }

  lemma KernelNormalized(host: Host, t: string, m: AddressPort)
    requires t != [] && m.ip != [] && m.port != []
    ensures var r := Normalize(host, KernelBag(t, m)).value;
      && r.srcIP == Str(m.ip) && r.port == ToNumber(Str(m.port))
      && r.request == Str(t) && r.status == Undefined
      && r.time == (if SyslogStamp(t).Some? then Str(SyslogStamp(t).value) else Undefined)
  {
    NormalizeTextBag(host, KernelBag(t, m));
    KernelBagGet(t, m);
  }

  lemma KernelCaptures(t: string, m: AddressPort)
    requires FirstKernel(t) == Some(m)
    ensures m.ip != [] && m.port != []
  {
    var q := KernelFrom(t, 0).value;
    var e := IpEnd(t, q + 4, false).value;
    var d := KernelDpt(t, e).value;
    assert DigitRun(t, d + 4) > 0;
  }

  /** The fallback strategy keeps the whole line as `raw`, takes the first dotted quad as the
      source address and the first bracketed text as the time. */
  lemma FallbackRecord(host: Host, t: string)
    requires ClassifyAsWritten(t) == Fallback
    ensures var r := ParseTrimmedAsWritten(host, t).value;
      && r.raw == Str(t)
      && r.srcIP == (if FirstIp(t).Some? then Str(FirstIp(t).value) else Undefined)
      && r.time == (if FirstBracket(t).Some? then FieldValue(FirstBracket(t).value) else Undefined)
      && r.request == Undefined && r.status == Undefined && r.port == Undefined
  {
    FallbackParsed(host, t);
    FallbackNormalized(host, t);
  }

  lemma FallbackParsed(host: Host, t: string)
    requires ClassifyAsWritten(t) == Fallback
    ensures ParseTrimmedAsWritten(host, t) == Normalize(host, FallbackBag(t))
  {
    TextRecord(host, t);
  }

  lemma FallbackNormalized(host: Host, t: string)
    requires t != []
    ensures var r := Normalize(host, FallbackBag(t)).value;
      && r.raw == Str(t)
      && r.srcIP == (if FirstIp(t).Some? then Str(FirstIp(t).value) else Undefined)
      && r.time == (if FirstBracket(t).Some? then FieldValue(FirstBracket(t).value) else Undefined)
      && r.request == Undefined && r.status == Undefined && r.port == Undefined
  {
    NormalizeTextBag(host, FallbackBag(t));
    FallbackBagGet(t);
  }

  lemma FallbackBagGet(t: string)
    ensures var bag := FallbackBag(t);
      && Get(bag, "raw") == Str(t)
      && Canon(Get(bag, "srcIP")) == (if FirstIp(t).Some? then Str(FirstIp(t).value) else Undefined)
      && Canon(Get(bag, "time")) == (if FirstBracket(t).Some? then FieldValue(FirstBracket(t).value) else Undefined)
      && Get(bag, "request") == Undefined && Get(bag, "status") == Undefined && Get(bag, "port") == Undefined
  {
  }

  /** `lines.map(parseLogLine).filter(Boolean)`: the records of the lines that gave one,
      in line order. */
  function ParseLines(host: Host, lines: seq<string>): (recs: seq<LogRecord>)
    ensures |recs| <= |lines|
  {
    if lines == [] then []
    else
      var init := ParseLines(host, lines[..|lines| - 1]);
      match ParseLogLine(host, lines[|lines| - 1])
      case Some(r) => init + [r]
      case None => init
  }

  /** Each record is the record of some line. */
  lemma {:induction false} ParseLinesFrom(host: Host, lines: seq<string>)
    ensures forall r :: r in ParseLines(host, lines) ==> exists i :: 0 <= i < |lines| && ParseLogLine(host, lines[i]) == Some(r)
    decreases |lines|
  {
    if lines != [] {
      var init := lines[..|lines| - 1];
      ParseLinesFrom(host, init);
      assert forall i :: 0 <= i < |init| ==> init[i] == lines[i];
    }
  }

  /** Mapping and filtering commute with splitting the lines: the records keep line order. */
  lemma {:induction false} ParseLinesAppend(host: Host, a: seq<string>, b: seq<string>)
    ensures ParseLines(host, a + b) == ParseLines(host, a) + ParseLines(host, b)
    decreases |b|
  {
    if b == [] {
      assert a + b == a;
    } else {
      var b' := b[..|b| - 1];
      assert (a + b)[..|a + b| - 1] == a + b';
      assert (a + b)[|a + b| - 1] == b[|b| - 1];
      ParseLinesAppend(host, a, b');
    }
  }

  /** One line gives its record, or nothing when it gives null. */
  lemma ParseLinesSingle(host: Host, line: string)
    ensures ParseLines(host, [line]) == match ParseLogLine(host, line) case Some(r) => [r] case None => []
  {
    assert [line][..0] == [];
  }

  /** Every line that yields a record contributes exactly one, so the count is the number
      of lines that are not null. */
  function NullLines(host: Host, lines: seq<string>): nat {
    if lines == [] then 0
    else NullLines(host, lines[..|lines| - 1]) + (if ParseLogLine(host, lines[|lines| - 1]).None? then 1 else 0)
  }

  lemma {:induction false} ParseLinesCount(host: Host, lines: seq<string>)
    ensures |ParseLines(host, lines)| == |lines| - NullLines(host, lines)
    decreases |lines|
  {
    if lines != [] {
      ParseLinesCount(host, lines[..|lines| - 1]);
    }
  }

  /** `text.split(/\r?\n/).map(parseLogLine).filter(Boolean)`. */
  function ParseRecords(host: Host, text: string): (recs: seq<LogRecord>)
    ensures |recs| <= Occurrences(text, '\n') + 1
  {
    ParseLines(host, SplitLines(text))
  }
}
