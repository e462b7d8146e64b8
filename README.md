# Log analysis core of `analiza-logi-sieciowe`, in Dafny

This project models the parsing and detection core of the log analyser in `src/App.jsx`, and proves properties of that model.

- **Parsing.** `parseLogLine` turns one line of a security or access log into a record. It tries, in order: JSON, CSV, Common Log Format, key=value pairs, an sshd `from IP port N` message, a kernel/IDS `SRC=… DPT=…` message, and a fallback that looks for any dotted quad and any `[...]` text.
  - As written, the kernel strategy is never reached: every kernel line already holds a key=value token, so the key=value strategy takes it (see "## Findings").
  - The model proves this fact about the source order (`LineParser.ClassifyAsWritten`, `LineParser.KernelUnreachable`).
  - The line parser and everything built on it follow the source order: `LineParser.ParseLogLine`, `LineParser.ParseLines`, `App.ParseText` and every record the detectors receive.
  - The corrected order, with the kernel test ahead of key=value, is kept beside it as the intended behaviour (`LineParser.Classify`, `LineParser.ParseLogLineCorrected`). `LineParser.ParseLogLineCorrection` shows that the two differ only on lines with a kernel match.
- **Normalisation.** `normalizeRecord` maps the many field-name aliases onto canonical fields. It also converts the port and resolves the timestamp through `parseTimestamp`.
- **Whole text.** `parseText` applies both steps to every line of a text.
- **Detection.** `detectAnomalies` files the records by source address and runs three heuristics:
  - a sliding-window brute-force detector;
  - a sliding-window port-scan detector;
  - a blacklist filter.

## Modules

- **`Text`** (text.dfy) covers JavaScript's `trim`, `split` on one character, `split(/\r?\n/)`, `includes`, `toLowerCase` and the regex classes `\s`, `\d`, `\w`.
- **`JsValues`** (values.dfy) covers the JavaScript values a field can hold, truthiness, `String(x)` and `Number(x)`.
- **`Search`** (search.dfy) is the leftmost search that both unanchored regex matching and the "first qualifying window" scans rely on.
- **`Sorting`** (sorting.dfy) covers the stable `Array.prototype.sort` by a numeric key, and `Array.from(new Set(...))`.
- **`Matchers`** (matchers.dfy) writes every regular expression of the parser as a scanner. Each scanner returns the captures the JavaScript `match` returns: the leftmost match, with greedy and lazy quantifiers resolved as a backtracking engine does.
- **`Records`** (records.dfy) models `normalizeRecord` and `parseTimestamp`.
- **`LineParser`** (parser.dfy) models `parseLogLine` and the `map(parseLogLine).filter(Boolean)` step of `parseText`.
- **`Detector`** (detector.dfy) models `detectAnomalies` as imperative code:
  - the `byIP` grouping loop;
  - the two nested window loops;
  - the loops over `Object.entries(byIP)`.

  Each loop is a method proved equal to a specification function. The properties are proved as lemmas about those functions.
- **`App`** (app.dfy) models `parseText`: records, the `{ total }` summary and the anomaly report.

## Behaviour of the code that the model keeps

- **The `try` around `JSON.parse` also covers `normalizeRecord`.**
  - `parseTimestamp` calls `s.match` whenever `new Date(s)` is invalid. When the JSON time is not a string (a number outside the Date range, an object or array whose text is no date…), that call throws a TypeError.
  - The line then yields null.
  - Bags built by the text strategies hold only strings, so they never throw (`Records.Normalize`, `LineParser.ParseTrimmedAsWritten`).
- **`byIP` is an ordinary object literal.**
  - A source address that names a property inherited from `Object.prototype` already reads as truthy: `constructor`, `toString`, `__proto__` and the others in `Detector.PrototypeNames`. No array is created for it, and `byIP[ip].push(r)` throws.
  - `detectAnomalies` then produces no report at all. `Detector.GroupBySource` returns `threw` and `Detector.AnomaliesOf` gives None exactly then.
  - A key=value line such as `src=toString` is enough to reach this.
- **`kv["__proto__"] = v` with a string value leaves `kv` unchanged** (`LineParser.KvBag`).
- **`Object.entries(byIP)` visits canonical array-index names first, in ascending numeric order, then the other names in creation order** (`Detector.EntriesOrder`). Both detectors report their findings in that order.
- **Times.**
  - The brute-force sort key is `t || 0`, but its window time is `t || now`. A record at the epoch, or one without a time, therefore sorts at key 0, ahead of every record with a later time (a pre-1970 time has a negative key and sorts before it), and counts as "now".
  - The port-scan detector uses the Date's time when there is one (the epoch included), else `now`.

Further facts about the code that the model keeps:

- A braced line that `JSON.parse` rejects gives null (App.jsx:28-35). It does not fall through to the next strategy.
- No strategy handles a line that holds only a syslog timestamp. Such a line reaches the fallback.
- The brute-force window is 1 minute (App.jsx:124), although the comment on that line says 15 minutes.
- A brute-force finding needs at least 5 failures (`count >= BF_THRESHOLD`, App.jsx:151), although the comment at App.jsx:122 says more than the threshold.
- A failure is a status whose lower-cased text contains `fail` or `unauthorized`, or equals `401` or `403` (App.jsx:147-148).
- In the brute-force sort a record without a time has the key 0 (App.jsx:138). It sorts ahead of every record with a later time, and behind any with a pre-1970 (negative) time.
- The port-scan threshold is 20 distinct ports (App.jsx:160).
- The blacklist filter gives one `{ ip }` entry per blacklisted record, in record order (App.jsx:187-191). The model keeps the list of addresses.
- Filing the records can abort the whole report, as described above.

The browser facilities are parameters:

- `new Date(string)`;
- `JSON.parse` (None when it throws);
- `JSON.stringify` (never empty).

They are gathered in `Records.Host`. `Date.now()` is the parameter `now`.

## Model

| member | source | states |
|---|---|---|
| Text.SkipSpace | src/App.jsx:24 | the position found is the first non-white-space position at or after `i`, everything skipped being white space |
| Text.TrimSpec | src/App.jsx:24 | `trim` keeps the slice between the first and last non-white-space characters, cuts only white space, and gives the empty string exactly when the line is all white space |
| Text.TrimUnchanged | src/App.jsx:24 | a string that neither starts nor ends with white space is left as it is |
| Text.TrimIdempotent | src/App.jsx:24 | trimming twice is trimming once |
| Text.LowerAsciiIdempotent | src/App.jsx:147 | lower-casing twice is lower-casing once |
| Text.LowerAsciiSpec | src/App.jsx:71 | lower-casing maps each character on its own: upper-case ASCII letters become lower case, others stay, and no upper-case ASCII letter is left |
| Text.ContainsMeaning | src/App.jsx:71 | `includes` holds exactly when the substring occurs at some position |
| Text.Split | src/App.jsx:38 | `split` on one character gives at least one piece and no piece contains the separator |
| Text.SplitJoin | src/App.jsx:38 | joining the pieces of `split` with the separator gives back the string |
| Text.SplitCount | src/App.jsx:38 | `split` gives one piece more than there are separators |
| Text.SplitLines | src/App.jsx:110 | `split(/\r?\n/)` gives one line per line feed plus one, and no line holds a line feed |
| Text.DropCarriageReturns | src/App.jsx:110 | every line but the last loses exactly one trailing carriage return, the last is kept whole, and each line is a prefix of its piece |
| Text.DigitRunSpec | src/App.jsx:66 | the run of `\d` from a position is made of digits and stops at the first non-digit |
| Text.DigitRunExact | src/App.jsx:66 | `n` digits closed by a non-digit or the end are the whole run of `\d` |
| Text.NonSpaceRun | src/App.jsx:45 | the run of `\S` from a position holds no white space and stops at white space or the end |
| Text.WordRun | src/App.jsx:56 | the run of `\w` from a position holds only word characters and stops at the first other character |
| JsValues.FalsyValues | src/App.jsx:128 | a value is falsy exactly when it is `undefined`, `null`, `false`, `0`, `NaN` or the empty string, and every object is truthy |
| JsValues.ToJsStringFacts | src/App.jsx:129 | `String(x)` keeps a string as it is, writes a number that `Number` reads back, and gives the empty text only for the empty string or an object whose text is empty |
| JsValues.NatToDecimalDigits | src/App.jsx:128 | `String(n)` of a natural number is all digits, with no leading zero |
| JsValues.DecimalRoundTrip | src/App.jsx:100 | reading the digits `String(n)` writes gives back `n` |
| JsValues.StringToNumber | src/App.jsx:100 | `Number(s)` is a number or NaN, and a run of digits gives its decimal value |
| JsValues.ToNumber | src/App.jsx:100 | `Number(v)` is always a number or NaN |
| JsValues.NumberOfStringRoundTrip | src/App.jsx:100 | `Number(String(n))` is `n` for every integer, negative ones included |
| Search.LeftmostFrom | src/App.jsx:141-155 | the position found lies in range and satisfies the test |
| Search.LeftmostFromSpec | src/App.jsx:141-155 | no position before the one found satisfies the test, and none at all when nothing is found |
| Search.LeftmostFromSkip | src/App.jsx:141-155 | positions that fail the test can be skipped without changing the result, which is what an outer loop that moves on after a failed start relies on |
| Sorting.SortByFacts | src/App.jsx:138 | the sort orders by key, is a permutation (same multiset), and is stable (elements with equal keys keep their order) |
| Sorting.InsertSorted | src/App.jsx:138 | inserting into a sorted sequence keeps it sorted |
| Sorting.InsertMultiset | src/App.jsx:138 | inserting adds exactly the new element |
| Sorting.InsertWithKey | src/App.jsx:138 | inserting puts the new element behind every element with the same key |
| Sorting.Distinct | src/App.jsx:173-180 | `Array.from(new Set(s))` has no repeats, holds every element of `s` and nothing else |
| Sorting.DistinctLength | src/App.jsx:179 | there are no more distinct elements than elements |
| Sorting.DistinctSnoc | src/App.jsx:176 | `add` of an element already seen changes nothing; a new one goes at the end |
| Sorting.DistinctOfDistinct | src/App.jsx:134 | a sequence without repeats is its own set of distinct elements |
| Sorting.PermutationKeepsDistinct | src/App.jsx:134 | a permutation of a sequence without repeats has no repeats |
| Matchers.DottedDigitsShape | src/App.jsx:39 | `/^\d+\.\d+\.\d+\.\d+$/` accepts exactly the strings `a.b.c.d` with four non-empty digit runs |
| Matchers.SplitDotted | src/App.jsx:39 | `a.b.c.d` with digit runs splits at its dots into exactly `[a, b, c, d]` |
| Matchers.SplitToken | src/App.jsx:45 | a leading `\S+ ` is a non-empty token followed by a space and the rest of the line |
| Matchers.TrailingDigitRun | src/App.jsx:45 | the run found at the end consists of digits |
| Matchers.ClfTail | src/App.jsx:45 | `"(.*?)" (\d{3}) (\d+\|-)$` read from the end spells out the text, with a three-digit status and a size of digits or `-` |
| Matchers.FindFrom | src/App.jsx:45 | the leftmost occurrence of a substring at or after a position, and none earlier |
| Matchers.SplitMid | src/App.jsx:45 | the lazy `(.*?)\] "` stops at the first `] "`, so the time holds none |
| Matchers.ClfRestMatch | src/App.jsx:45 | what follows the three tokens matches exactly when it is `[time] "request" status size` with well-formed parts |
| Matchers.ClfMatchSound | src/App.jsx:45 | a Common Log Format match is well formed and spells out the whole line |
| Matchers.ClfMatchComplete | src/App.jsx:45 | every well-formed decomposition of a line is the one the regex finds, so the match is unique |
| Matchers.ClfRestExact | src/App.jsx:45 | a well-formed rest is matched back exactly into its parts |
| Matchers.SplitMidExact | src/App.jsx:45 | a time without `] "` followed by `] "` and the request is split back into the two |
| Matchers.SplitTokenExact | src/App.jsx:45 | a token followed by a space is read back as that token |
| Matchers.ClfTailExact | src/App.jsx:45 | a well-formed tail is read back into its request text, status and size |
| Matchers.KvMatchEnd | src/App.jsx:56 | a `\w+=\S+` match starting at a position has a whole word before the `=` and a non-empty value after it |
| Matchers.TokenPairKey | src/App.jsx:59 | `split("=")` of `word=...` gives the word as the key |
| Matchers.KvScan | src/App.jsx:56 | every key the global match yields is a non-empty word; `KvScanLeftmost` and `KvScanNonEmpty` say which tokens it yields |
| Matchers.KvScanLeftmost | src/App.jsx:56-59 | from a position, the global match yields first the leftmost `word=value` token, its value the whole run of non-space, as the pair of the word and the value cut at its next `=`, then the matches after its end |
| Matchers.KvMatchMaximal | src/App.jsx:56 | a match that starts at a `word=value` takes the whole word and extends the value to white space or the end of the line |
| Matchers.TokenPairValue | src/App.jsx:59 | `split("=")` of `word=rest` gives the word and `rest` up to its first `=` |
| Matchers.KvScanNonEmpty | src/App.jsx:56-57 | the global match is non-null exactly when some `word=value` stands in the line |
| Matchers.KvMatchAtToken | src/App.jsx:56 | wherever a `word=value` starts, the scanner finds a match there |
| Matchers.IpEnd | src/App.jsx:66 | a dotted-quad match ends after its start and within the line |
| Matchers.OctetDotSpec | src/App.jsx:66 | `\d{1,3}\.` covers digits and ends with the dot |
| Matchers.IpEndShape | src/App.jsx:66 | the text a dotted-quad match covers is four octets of one to three digits joined by dots |
| Matchers.IpShape | src/App.jsx:66 | four digit runs of at most three digits separated by dots form a dotted quad |
| Matchers.IpEndAt | src/App.jsx:66 | wherever a dotted quad stands, the address pattern matches there and covers it, plus only digits, and exactly it when a non-digit follows |
| Matchers.IpEndWhole | src/App.jsx:66 | a dotted quad followed by a non-digit is matched exactly |
| Matchers.SshdFrom | src/App.jsx:66 | the match position found holds a `from IP port N` match |
| Matchers.SshdFromLeftmost | src/App.jsx:66 | no `from IP port N` match starts before the one found, and none at all when none is found |
| Matchers.SshdAtCaptures | src/App.jsx:66 | the sshd match captures a dotted quad and a non-empty run of digits |
| Matchers.SshdAtShape | src/App.jsx:66 | the line spells out `from <ip> port <port>` at the match position |
| Matchers.SshdPortWhole | src/App.jsx:66 | the captured port is the whole run of digits: no digit follows it |
| Matchers.SshdAtComplete | src/App.jsx:66 | wherever `from IP port N` stands with a dotted quad, the pattern matches there with that address and a port that begins with `N`, exactly `N` when no digit follows |
| Matchers.NextLineTerminator | src/App.jsx:77 | `.*` runs up to the first line terminator |
| Matchers.LastDpt | src/App.jsx:77 | greedy `.*DPT=\d` takes the last `DPT=` followed by a digit before the line ends, and none later qualifies |
| Matchers.KernelFrom | src/App.jsx:77 | the match position found holds a `SRC=IP…DPT=N` match, which `KernelAtShape` spells out |
| Matchers.KernelFromLeftmost | src/App.jsx:77 | no kernel match starts before the one found, and none at all when none is found |
| Matchers.KernelDptLast | src/App.jsx:77 | greedy `.*DPT=(\d+)` settles on the last `DPT=` followed by a digit on the line after the address |
| Matchers.KernelDptFound | src/App.jsx:77 | a `DPT=` and digit on the line after the address is found, or a later one is |
| Matchers.KernelAtShape | src/App.jsx:77 | a match spells out `SRC=` and a dotted quad at its position, and its port is the whole digit run after the last `DPT=` on that line |
| Matchers.KernelPiecesShape | src/App.jsx:77 | the pieces a kernel match is made of are `SRC=`, a dotted quad, and the last `DPT=` with its whole digit run |
| Matchers.KernelAtComplete | src/App.jsx:77 | wherever `SRC=` and a dotted quad stand with a `DPT=` and digit later on the same line, the pattern matches there with an address that begins with that quad, exactly it when a non-digit follows |
| Matchers.KernelPiecesFound | src/App.jsx:77 | the scanner finds `SRC=`, the address and a `DPT=` wherever they stand on one line |
| Matchers.KernelAtToken | src/App.jsx:77 | `SRC=` and the first digit of a kernel match form a `\w+=\S+` token |
| Matchers.IpAt | src/App.jsx:87 | an address match is non-empty |
| Matchers.IpAtShape | src/App.jsx:87 | the fallback's address is a dotted quad standing at the match position |
| Matchers.IpAtComplete | src/App.jsx:87 | wherever a dotted quad stands, the fallback's address pattern matches there, beginning with the quad and exactly it when a non-digit follows |
| Matchers.IpFrom | src/App.jsx:87 | the match position found holds an address |
| Matchers.IpFromLeftmost | src/App.jsx:87 | no address starts before the one found, and none at all when none is found |
| Matchers.BracketStop | src/App.jsx:88 | the lazy `.*?` of `\[(.*?)\]` stops at the first `]` or line terminator |
| Matchers.BracketAt | src/App.jsx:88 | the bracketed capture holds no `]` and no line terminator |
| Matchers.BracketAtShape | src/App.jsx:88 | the line spells out `[`, the capture and `]` at the match position |
| Matchers.BracketAtComplete | src/App.jsx:88 | wherever `[x]` stands with no line terminator in `x`, the pattern matches there and lazily captures `x` up to its first `]`, so all of `x` when it holds none |
| Matchers.BracketFrom | src/App.jsx:88 | the match position found holds a bracketed text |
| Matchers.BracketFromLeftmost | src/App.jsx:88 | no bracketed text starts before the one found, and none at all when none is found |
| Matchers.SyslogStamp | src/App.jsx:17 | a syslog stamp is a prefix of the line, 14 or 15 characters long |
| Matchers.SyslogStampMeaning | src/App.jsx:17 | the anchored pattern gives `u` exactly when the line begins with `u` and `u` is a month, one or two day digits and a time `hh:mm:ss` |
| Matchers.SyslogStampNone | src/App.jsx:17 | there is no stamp exactly when neither the first 14 nor the first 15 characters form one |
| Records.FirstTruthyMeaning | src/App.jsx:95-99 | an `\|\|` alias chain gives the first truthy alias, or the last alias when none is truthy |
| Records.FirstTruthyUnique | src/App.jsx:95-99 | that description has exactly one value, so it determines the chain |
| Records.TextFieldsStayText | src/App.jsx:95-99 | over a bag of strings, a chain gives a string or `undefined` |
| Records.FirstTruthyAbsent | src/App.jsx:95-99 | a chain none of whose aliases is present gives `undefined` |
| Records.FirstTruthyOnlyFirst | src/App.jsx:95-99 | when only the first alias can be present, the chain gives it if truthy and `undefined` otherwise |
| Records.LaterAliasesNotTextKeys | src/App.jsx:95-100 | the text strategies only ever write the first alias of each chain, never `destIP` or `destination_port` |
| Records.ParseTimestampText | src/App.jsx:14-19 | a string time is never an exception; a valid Date is taken as it is, and text that is neither a date nor a syslog stamp is unresolved |
| Records.ResolveTime | src/App.jsx:14-19 | a string time never throws; a number is valid exactly within the Date range and throws outside it |
| Records.PortOf | src/App.jsx:100 | the port is `Number(port)` when `port` is truthy, else `Number(destination_port)` when that is truthy, else `undefined` |
| Records.Normalize | src/App.jsx:93-106 | it fails exactly when a truthy time makes `parseTimestamp` throw; a bag of strings never fails; `raw` is always truthy and is the bag's `raw` or its JSON text; a falsy time gives no parsed time |
| Records.NormalizeAliases | src/App.jsx:94-99 | each canonical field is the first truthy alias in alias order |
| Records.NormalizeTextBag | src/App.jsx:93-105 | on a text strategy's bag, every field keeps what the strategy put there, a falsy one reading as `undefined`, and `destIP` is `undefined` |
| LineParser.CsvBag | src/App.jsx:40-41 | the CSV bag holds only strings under text-strategy names |
| LineParser.CsvBagGet | src/App.jsx:40-41 | proof step (it unfolds the definitions), a step towards `LineParser.CsvPositional`: the bag holds the trimmed fields by position, with status and port only when the line has that many fields |
| LineParser.ClfBag | src/App.jsx:47-51 | the CLF bag holds only strings under text-strategy names |
| LineParser.ClfBagGet | src/App.jsx:47-51 | proof step (it unfolds the definitions), a step towards `LineParser.ClfRecord`: it holds client, time, request and status and no port |
| LineParser.KvBag | src/App.jsx:55-61 | the key=value bag holds only strings and never a `__proto__` key |
| LineParser.CollectKeyValues | src/App.jsx:55-61 | the `forEach` fills `kv` as the succession of assignments does |
| LineParser.KvLastWriteWins | src/App.jsx:58-61 | a key keeps the value of its last token |
| LineParser.KvAbsentKey | src/App.jsx:58-61 | a key no token names is not in the bag |
| LineParser.StampField | src/App.jsx:69-70 | the time is the syslog stamp when there is one and no other field changes |
| LineParser.SshdBag | src/App.jsx:68-73 | the sshd bag holds only strings under text-strategy names |
| LineParser.SshdBagGet | src/App.jsx:68-73 | proof step (it unfolds the definitions), a step towards `LineParser.SshdRecord`: it holds the address, port, whole line, stamp and a status `Failed`/`OK` |
| LineParser.KernelBag | src/App.jsx:79-82 | the kernel bag holds only strings under text-strategy names |
| LineParser.KernelBagGet | src/App.jsx:79-82 | proof step (it unfolds the definitions), a step towards `LineParser.KernelRecord`: it holds the address, port, whole line and stamp, and no status |
| LineParser.FallbackBag | src/App.jsx:87-89 | the fallback bag holds only strings under text-strategy names |
| LineParser.FallbackBagGet | src/App.jsx:87-89 | proof step (it unfolds the definitions), a step towards `LineParser.FallbackRecord`: it holds the whole line as `raw`, the first address and the first bracketed text, and nothing else |
| LineParser.ClassifyAsWritten | src/App.jsx:25-89 | the strategy chosen in source order takes the line, and every strategy before it in that order rejects it |
| LineParser.Classify | src/App.jsx:25-89 | the strategy chosen with the kernel test ahead of key=value takes the line, and every strategy before it in that order rejects it |
| LineParser.TextBag | src/App.jsx:37-89 | every text strategy's bag holds only strings |
| LineParser.ParseWith | src/App.jsx:25-89 | every text strategy yields a record |
| LineParser.ParseTrimmedAsWritten | src/App.jsx:24-89 | in source order, a trimmed line gives null exactly when it is empty or a braced line that `JSON.parse` or `normalizeRecord` rejects; every record has a truthy `raw` |
| LineParser.ParseTrimmed | src/App.jsx:24-89 | with the kernel test ahead of key=value, a trimmed line gives null exactly when it is empty or a braced line that `JSON.parse` or `normalizeRecord` rejects; every record has a truthy `raw` |
| LineParser.ParseLogLine | src/App.jsx:23-90 | with the strategies in source order, a line gives null exactly when it trims to nothing or to a rejected braced line; every record has a truthy `raw` |
| LineParser.ParseLogLineCorrected | src/App.jsx:23-90 | with the kernel test ahead of key=value, a line gives null exactly when it trims to nothing or to a rejected braced line; every record has a truthy `raw` |
| LineParser.ParseLogLineCorrection | src/App.jsx:54-83 | the corrected parser gives a different result only for a line that has a kernel match and that key=value takes in source order |
| LineParser.TextRecord | src/App.jsx:37-89 | proof step (it unfolds the definitions), a step towards the `*Parsed` lemmas and `LineParser.KeyValueRecord`: in source order, a text strategy's record is `normalizeRecord` of its bag |
| LineParser.CsvParsed | src/App.jsx:38-41 | proof step (it unfolds the definitions), a step towards `LineParser.CsvPositional`: a CSV line has at least three fields and is normalised from its bag |
| LineParser.CsvNormalized | src/App.jsx:40-41 | the CSV record takes the trimmed fields by position, empty ones reading as `undefined` |
| LineParser.CsvPositional | src/App.jsx:37-42 | a CSV record is `ip,time,request,status,port` by position, missing trailing fields undefined and the port converted by `Number` |
| LineParser.ClfParsed | src/App.jsx:45-51 | proof step (it unfolds the definitions), a step towards `LineParser.ClfRecord`: a CLF line is normalised from its bag |
| LineParser.ClfNormalized | src/App.jsx:47-51 | the CLF record holds the captured client, time, request and status, and no port |
| LineParser.ClfCaptures | src/App.jsx:45 | the client is non-empty and the status three digits |
| LineParser.ClfRecord | src/App.jsx:44-52 | a CLF record holds the client as source, the bracketed time, the quoted request and the three-digit status, and no port |
| LineParser.KeyValueRecord | src/App.jsx:54-63 | proof step (it unfolds the definitions); what the fields then hold is stated by `Records.NormalizeAliases` and `LineParser.KvLastWriteWins`: in source order, every line that key=value takes, kernel lines included, gives a record normalised from its pairs |
| LineParser.KeyValueShadowsLaterStrategies | src/App.jsx:54-74 | in source order, any line with a `word=value` token that is not JSON, CSV or CLF is read as key=value and never reaches the sshd, kernel or fallback strategies |
| LineParser.KernelHasKeyValue | src/App.jsx:54-83 | a line with a kernel match has a key=value match |
| LineParser.KernelUnreachable | src/App.jsx:54-83 | in source order the kernel strategy is never chosen |
| LineParser.ClassifyCorrection | src/App.jsx:54-83 | the two orders choose the same strategy except on a kernel line that key=value takes in source order, which the corrected order gives to the kernel strategy |
| LineParser.ClassifyAgrees | src/App.jsx:54-83 | on a line without a kernel match the two orders agree |
| LineParser.KernelLineAsWritten | src/App.jsx:54-83 | in source order a kernel line that is not JSON, CSV or CLF is read as key=value, and with upper-case keys its record has no source address, destination or port |
| LineParser.UpperKeysRecord | src/App.jsx:95-100 | pairs whose keys have no lower-case letter give a record without source address, destination or port |
| LineParser.NoAddressRecord | src/App.jsx:95-100 | a bag without any address alias or port name gives a record without source address, destination or port |
| LineParser.KernelLineCorrected | src/App.jsx:76-83 | with the kernel test first, a kernel line that is not JSON, CSV or CLF is taken by the kernel strategy, and its record has the dotted quad after `SRC=` as source and `Number` of the `DPT=` digits as port |
| LineParser.SshdParsed | src/App.jsx:66-73 | proof step (it unfolds the definitions), a step towards `LineParser.SshdRecord`: an sshd line is normalised from its bag |
| LineParser.SshdNormalized | src/App.jsx:68-73 | the sshd record holds the address, a numeric port, the status, the whole line and the stamp |
| LineParser.SshdRecord | src/App.jsx:65-74 | an sshd record has a dotted quad as source, a number as port, status `Failed` exactly when the line mentions failed or brute, the whole line as request and the stamp as time |
| LineParser.KernelParsed | src/App.jsx:77-82 | proof step (it unfolds the definitions), a step towards `LineParser.KernelRecord`: with the kernel test first, a kernel line is normalised from its bag |
| LineParser.KernelNormalized | src/App.jsx:79-82 | the kernel record holds the address, port, whole line and stamp, and no status |
| LineParser.KernelCaptures | src/App.jsx:77 | the captured address and port are non-empty |
| LineParser.KernelRecord | src/App.jsx:76-83 | with the kernel test first, a kernel record has the `SRC=` address, `Number` of the `DPT=` digits as port, the whole line as request, the stamp as time and no status |
| LineParser.FallbackParsed | src/App.jsx:87-89 | proof step (it unfolds the definitions), a step towards `LineParser.FallbackRecord`: a fallback line is normalised from its bag |
| LineParser.FallbackNormalized | src/App.jsx:87-89 | the fallback record keeps the line as `raw`, the first address as source and the first bracketed text as time, and nothing else |
| LineParser.FallbackRecord | src/App.jsx:86-89 | every line that no earlier strategy takes still gives a record with the line as `raw` |
| LineParser.ParseLines | src/App.jsx:111 | `map(parseLogLine).filter(Boolean)` gives at most one record per line |
| LineParser.ParseLinesFrom | src/App.jsx:111 | each record `map(parseLogLine).filter(Boolean)` gives is the record of some line |
| LineParser.ParseLinesAppend | src/App.jsx:111 | mapping and filtering distribute over concatenation, so records keep line order |
| LineParser.ParseLinesSingle | src/App.jsx:111 | one line gives its record, or nothing when it gives null |
| LineParser.ParseLinesCount | src/App.jsx:111 | the number of records is the number of lines minus the null ones |
| LineParser.ParseRecords | src/App.jsx:110-111 | a text gives at most one record more than it has line feeds |
| Detector.GroupKeys | src/App.jsx:128 | there is one key per record |
| Detector.GroupKeysAt | src/App.jsx:128 | each record's key is `String(srcIP)` for a truthy address, else `unknown` |
| Detector.GroupBySource | src/App.jsx:126-131 | the loop throws exactly when a record is filed under an inherited name; otherwise the names are the distinct keys in creation order and each holds exactly its records, in order |
| Detector.FileOne | src/App.jsx:129-130 | one `push` keeps the names distinct in creation order and each bucket exactly its records |
| Detector.FiledAbsent | src/App.jsx:129-130 | a name no record has holds nothing |
| Detector.BucketIsFiled | src/App.jsx:126-131 | the bucket the loop builds is the records with that key |
| Detector.ClashesPrefix | src/App.jsx:129-130 | once a prefix throws, the whole `forEach` throws |
| Detector.BucketMembership | src/App.jsx:126-131 | a record lies in the bucket of its own key and of no other |
| Detector.BucketAppend | src/App.jsx:126-131 | buckets keep input order |
| Detector.FiledPartition | src/App.jsx:126-131 | the buckets of the distinct keys hold exactly as many records as there are |
| Detector.BucketsPartition | src/App.jsx:126-131 | the buckets partition the records: their sizes add up to the number of records |
| Detector.EntriesOrderFacts | src/App.jsx:134 | `Object.entries` visits every name exactly once, array indices first and ascending, then the other names in creation order |
| Detector.EntriesWithin | src/App.jsx:134 | every name visited is a property name of `byIP` |
| Detector.Attempts | src/App.jsx:136-137 | one `{ t, status }` per record, in order |
| Detector.BfRunEnd | src/App.jsx:144-149 | the inner loop ends within the attempts |
| Detector.BfRunEndSpec | src/App.jsx:144-149 | every attempt the inner loop counts lies within one minute of the start, and it breaks at the first that does not |
| Detector.IsFailureIgnoresCase | src/App.jsx:147-148 | the failure test ignores case: a status and its lower-cased form count alike |
| Detector.IsFailureStatuses | src/App.jsx:147-148 | the sshd strategy's `Failed` counts as a failure and its `OK` does not; 401 and 403 count as numbers and as text; 200 and a missing status do not |
| Detector.Failures | src/App.jsx:147-148 | no more failures than attempts |
| Detector.CountFailures | src/App.jsx:141-150 | the inner loop's `count` is the number of failures in the window that starts at `i` |
| Detector.ScanBruteForce | src/App.jsx:141-155 | the outer loop reports the first window start whose count reaches the threshold, or nothing |
| Detector.BruteForceIn | src/App.jsx:151-152 | a finding names the address it was computed for |
| Detector.BruteForceInFacts | src/App.jsx:141-155 | a finding has at least 5 attempts, counts the window of its start, and every earlier start falls short; there is none exactly when every start falls short |
| Detector.ProbesEmpty | src/App.jsx:165-166 | an address has no probes exactly when none of its records has a non-zero numeric port |
| Detector.PsRunEnd | src/App.jsx:174-177 | the inner loop ends within the probes |
| Detector.PsRunEndSpec | src/App.jsx:174-177 | every probe the inner loop collects lies within five minutes of the start, and it breaks at the first that does not |
| Detector.PortsOf | src/App.jsx:168 | one port per probe, in order |
| Detector.CollectPorts | src/App.jsx:171-178 | the inner loop's set holds the distinct ports of the window, in first-seen order |
| Detector.WindowPortsMeaning | src/App.jsx:173-177 | a port is in the window's set exactly when some probe of the window carries it |
| Detector.ScanPortScan | src/App.jsx:164-184 | the outer loop reports the first window start with enough distinct ports, or nothing, and an address without probes returns early |
| Detector.PortScanIn | src/App.jsx:179-180 | a finding names the address it was computed for |
| Detector.PortScanInFacts | src/App.jsx:171-183 | a finding has at least 20 distinct ports in the window of its start, every earlier start has fewer, and its sample is the first 10 of those ports in first-seen order; there is none exactly when every start has fewer |
| Detector.SuspiciousFacts | src/App.jsx:187-191 | one entry per blacklisted record, each a blacklisted address |
| Detector.SuspiciousAppend | src/App.jsx:187-191 | the filter keeps record order |
| Detector.SuspiciousMembership | src/App.jsx:187-191 | an address is reported exactly when it is blacklisted and some record carries it as its source |
| Detector.Collect | src/App.jsx:133-156 | no more findings than entries |
| Detector.CollectNames | src/App.jsx:134-155 | findings named after their entries name entries, and distinct entries give distinct names |
| Detector.ReportBruteForce | src/App.jsx:133-156 | the brute-force loop over `Object.entries(byIP)` pushes exactly the findings of the entries, in entry order |
| Detector.ReportPortScans | src/App.jsx:163-184 | the port-scan loop over `Object.entries(byIP)` pushes exactly the findings of the entries, in entry order |
| Detector.BruteForceFindingsIps | src/App.jsx:133-156 | at most one brute-force finding per entry, each naming an entry, and distinct entries give distinct addresses |
| Detector.PortScanFindingsIps | src/App.jsx:163-184 | at most one port-scan finding per entry, each naming an entry, and distinct entries give distinct addresses |
| Detector.DetectAnomalies | src/App.jsx:118-194 | `detectAnomalies` produces exactly `AnomaliesOf`: the findings of both detectors over the entries in `Object.entries` order and the blacklist filter, or nothing when filing throws |
| Detector.ReportFacts | src/App.jsx:118-193 | no report exactly when filing throws; otherwise each detector reports each source address at most once and no other, and the suspicious list is the blacklist filter |
| App.ParseText | src/App.jsx:109-115 | `parseText` yields the parsed records, a total equal to their number and at most the number of lines, and the anomaly report of those records |

## Left out

- The React component state (`useState`, `setRecords`, `setSummary`, `setAnomalies`) and the JSX. `App.ParseText` returns what those setters receive.
- Reading a file is left out: `handleFileChange` and `FileReader`.
- `exportCSV` and the Chart.js chart are left out.
- `new Date(string)`, `JSON.parse` and `JSON.stringify` are not modelled. They are parameters in `Records.Host`, with only the facts the code relies on: a failed parse is None, and `JSON.stringify` of an object is never empty. `Date.now()` is the parameter `now`.
- JsValues.StringToNumber: `Number` is modelled on decimal integer syntax only. Fractions, exponents, hexadecimal and `Infinity` all read as NaN here, and JSON numbers are integers (`Num(int)`).
- Text.LowerAscii: `toLowerCase` is modelled on ASCII letters only. The failure tests still agree with the code.
  - Only two other characters lower-case into ASCII. U+0130 (`İ`) becomes `i` followed by U+0307, and the Kelvin sign U+212A becomes `k`.
  - No word the tests look for (`fail`, `failed`, `brute`, `unauthorized`, `401`, `403`) contains `k`.
  - None ends in `i` or has an `i` followed by U+0307. So an `i` that comes from `İ` can never be part of a match.
- Records.ParseTimestampText: an Invalid Date is modelled as no time. It arises when the host cannot parse a syslog stamp with the year appended (App.jsx:18).
  - The code keeps the Invalid Date object. It is truthy and its `getTime()` is NaN.
  - In the brute-force detector `t || now` reads NaN as `now`, as the model does.
  - In the port-scan detector the NaN stays (App.jsx:168), and the sort comparator returns NaN (App.jsx:169).
  - A NaN `start` or `t` also makes `times[j].t - start <= PS_WINDOW_MS` false (App.jsx:175), so the window breaks at once. The model times such a probe by `now` instead.
- Detector.BruteForceIn: `firstSeen` is kept as milliseconds; `toISOString` is not modelled. The same holds for Detector.PortScanIn.
- Records.ResolveTime: for an object or array time, `new Date(...)` is read from its string form through the host parser. JSON can give an object an own `toString` or `valueOf` member that is not a function, such as `{"toString":1}`. For such an object the conversion throws a TypeError, which the model does not capture here or anywhere else.
- JsValues.ToNumber: a port such as `{"toString":1}` makes `Number(...)` throw (App.jsx:100). The `try` catches it and the line gives null, while the model gives the port NaN.
- JsValues.ToJsString: the same objects are not modelled as making `String(x)` throw.
  - As a status, `.toString()` throws (App.jsx:147) and `detectAnomalies` fails as a whole, while the model reports.
  - As a source address, `byIP[ip]` throws (App.jsx:129), while the model files the record under its text.
- JsValues.ToNumber: numbers are unbounded integers here, while JavaScript's are doubles.
  - Beyond 2^53, distinct digit strings can give the same number: `Number("9007199254740993") === Number("9007199254740992")`.
  - So the `Set` at App.jsx:176 counts such ports once, while `Detector.WindowPorts` counts two.
- JsValues.NatToDecimal: `String(n)` writes a number of magnitude at least 1e21 in exponent notation (`1e+21`), while this function writes every digit.
- Symbol keys, getters and other property kinds JSON cannot produce are not modelled in the field bags.
- Strings are sequences of Unicode scalar values here, while JavaScript strings are UTF-16 code units. A lone surrogate, such as one from a JSON `\uD800` escape, cannot be represented. No test the core makes depends on it.

## Findings

| source | as written | input that shows it | evidently intended | confidence | as-written member | corrected member |
|---|---|---|---|---|---|---|
| src/App.jsx:54-83 | the key=value test (App.jsx:56-57) runs before the kernel test (App.jsx:77); `SRC=` with the first digit of the address is already a `\w+=\S+` token, so the kernel branch never runs, and a netfilter line becomes key=value pairs with upper-case keys, whose record has no source address, no destination and no port | `Nov 06 10:00:00 fw kernel: SRC=203.0.113.9 DST=10.0.0.1 DPT=22` | the kernel strategy takes such a line and records source `203.0.113.9` and port 22 | not executed | LineParser.KernelLineAsWritten | LineParser.KernelLineCorrected |
