/** The regular expressions of the line parser (src/App.jsx), written out as scanners over
    `seq<char>`. Each scanner returns what the JavaScript `match` returns: the captures of
    the leftmost match, with greedy and lazy quantifiers resolved as the backtracking
    engine resolves them. */
module Matchers {
  import opened Text
  import opened JsValues
  import opened Search

  function Min(a: nat, b: nat): nat { if a <= b then a else b }

  predicate NoLineTerminator(s: string) {
    forall i :: 0 <= i < |s| ==> !IsLineTerminator(s[i])
  }

  /** A non-empty run of `\S`. */
  predicate IsToken(t: string) {
    t != [] && forall i :: 0 <= i < |t| ==> !IsSpace(t[i])
  }

  // ---------------------------------------------------------------------------
  // Splitting lemmas shared by the dotted-number shapes

  lemma SplitCons(a: string, sep: char, rest: string)
    requires sep !in a
    ensures Split(a + [sep] + rest, sep) == [a] + Split(rest, sep)
  {
    var s := a + [sep] + rest;
    IndexOfExact(s, sep, |a|);
    assert s[..|a|] == a && s[|a| + 1..] == rest;
  }

  lemma SplitSingle(a: string, sep: char)
    requires sep !in a
    ensures Split(a, sep) == [a]
  {
    IndexOfExact(a, sep, |a|);
  }

  lemma IndexOfExact(s: string, c: char, k: nat)
    requires k <= |s| && (forall i :: 0 <= i < k ==> s[i] != c) && (k < |s| ==> s[k] == c)
    ensures IndexOf(s, c) == k
  {
    if s != [] && s[0] != c { IndexOfExact(s[1..], c, k - 1); }
  }

  // ---------------------------------------------------------------------------
  // CSV: `line.split(",")` and `/^\d+\.\d+\.\d+\.\d+$/` on the first field (App.jsx:38-39)

  /** `/^\d+\.\d+\.\d+\.\d+$/`: four non-empty runs of digits joined by three dots. */
  predicate IsDottedDigits(s: string) {
    var parts := Split(s, '.');
    |parts| == 4 && forall i :: 0 <= i < 4 ==> parts[i] != [] && AllDigits(parts[i])
  }

  /** The dotted-digits test accepts exactly the strings `a.b.c.d` with digit runs `a`..`d`. */
  lemma DottedDigitsShape(s: string)
    ensures IsDottedDigits(s) <==>
      exists a, b, c, d :: DigitField(a) && DigitField(b) && DigitField(c) && DigitField(d)
        && s == Dotted(a, b, c, d)
  {
    if IsDottedDigits(s) {
      var parts := Split(s, '.');
      SplitJoin(s, '.');
      JoinFour(parts);
      assert DigitField(parts[0]) && DigitField(parts[1]) && DigitField(parts[2]) && DigitField(parts[3]);
    }
    if exists a, b, c, d :: DigitField(a) && DigitField(b) && DigitField(c) && DigitField(d)
        && s == Dotted(a, b, c, d) {
      var a, b, c, d :| DigitField(a) && DigitField(b) && DigitField(c) && DigitField(d) && s == Dotted(a, b, c, d);
      SplitDotted(a, b, c, d);
    }
  }

  lemma JoinFour(parts: seq<string>)
    requires |parts| == 4
    ensures Join(parts, '.') == Dotted(parts[0], parts[1], parts[2], parts[3])
  {
    assert Join(parts[3..], '.') == parts[3];
    assert Join(parts[2..], '.') == parts[2] + ['.'] + Join(parts[3..], '.');
    assert Join(parts[1..], '.') == parts[1] + ['.'] + Join(parts[2..], '.');
  }

  predicate DigitField(a: string) { a != [] && AllDigits(a) }

  /** `a.b.c.d`. */
  function Dotted(a: string, b: string, c: string, d: string): string {
    a + ['.'] + (b + ['.'] + (c + ['.'] + d))
  }

  lemma SplitDotted(a: string, b: string, c: string, d: string)
    requires AllDigits(a) && AllDigits(b) && AllDigits(c) && AllDigits(d)
    ensures Split(Dotted(a, b, c, d), '.') == [a, b, c, d]
  {
    NoDotInDigits(a);
    SplitThree(b, c, d);
    SplitCons(a, '.', b + ['.'] + (c + ['.'] + d));
    Prepend3(a, b, c, d);
  }

  lemma SplitThree(b: string, c: string, d: string)
    requires AllDigits(b) && AllDigits(c) && AllDigits(d)
    ensures Split(b + ['.'] + (c + ['.'] + d), '.') == [b, c, d]
  {
    NoDotInDigits(b);
    SplitTwo(c, d);
    SplitCons(b, '.', c + ['.'] + d);
    Prepend2(b, c, d);
  }

  lemma Prepend3<T>(a: T, b: T, c: T, d: T)
    ensures [a] + [b, c, d] == [a, b, c, d]
  {
  }

  lemma Prepend2<T>(b: T, c: T, d: T)
    ensures [b] + [c, d] == [b, c, d]
  {
  }

  lemma SplitTwo(c: string, d: string)
    requires AllDigits(c) && AllDigits(d)
    ensures Split(c + ['.'] + d, '.') == [c, d]
  {
    NoDotInDigits(c);
    NoDotInDigits(d);
    SplitSingle(d, '.');
    SplitCons(c, '.', d);
  }

  lemma NoDotInDigits(a: string)
    requires AllDigits(a)
    ensures '.' !in a
  {
    forall i | 0 <= i < |a| ensures a[i] != '.' { assert IsDigit(a[i]); }
  }

  /** The fields `line.split(",")` gives, when the comma-separated strategy applies to them. */
  predicate CsvApplies(parts: seq<string>) {
    |parts| >= 3 && IsDottedDigits(parts[0])
  }

  // ---------------------------------------------------------------------------
  // Common Log Format: /^(\S+) \S+ \S+ \[(.*?)\] "(.*?)" (\d{3}) (\d+|-)$/ (App.jsx:45)

  /** Every part of a CLF line; the regex captures client, time, request and status. */
  datatype ClfParts = ClfParts(client: string, ident: string, user: string, time: string,
                               request: string, status: string, size: string)

  /** What follows the three leading tokens: `[time] "request" status size`. */
  datatype ClfRest = ClfRest(time: string, request: string, status: string, size: string)

  function ClfRestText(q: ClfRest): string {
    "[" + (q.time + "] \"" + q.request) + "\" " + q.status + " " + q.size
  }

  /** The line a CLF match spells out. */
  function ClfLine(p: ClfParts): string {
    p.client + " " + (p.ident + " " + (p.user + " " + ClfRestText(RestOf(p))))
  }

  function RestOf(p: ClfParts): ClfRest { ClfRest(p.time, p.request, p.status, p.size) }

  /** `(.*?)` is lazy, so the time ends at the first `] "`. */
  predicate LazyTime(time: string) {
    forall k :: 0 <= k < |time| ==> !OccursAt(time + "] \"", "] \"", k)
  }

  /** What the regex demands after the tokens: `.`-only (no line terminator) time and request,
      three status digits, a size of digits or `-`, and the lazy time. */
  predicate ClfRestWellFormed(q: ClfRest) {
    && NoLineTerminator(q.time) && NoLineTerminator(q.request)
    && |q.status| == 3 && AllDigits(q.status)
    && (q.size == "-" || DigitField(q.size))
    && LazyTime(q.time)
  }

  /** Three `\S+` tokens and a well-formed rest. */
  predicate ClfWellFormed(p: ClfParts) {
    IsToken(p.client) && IsToken(p.ident) && IsToken(p.user) && ClfRestWellFormed(RestOf(p))
  }

  /** `\S+ ` at the start of `s`: the token and what follows the space. */
  function SplitToken(s: string): (r: Option<(string, string)>)
    ensures r.Some? ==> IsToken(r.value.0) && s == r.value.0 + " " + r.value.1
  {
    var n := NonSpaceRun(s, 0);
    if n == 0 || n >= |s| || s[n] != ' ' then None
    else
      assert s == s[..n] + " " + s[n + 1..];
      Some((s[..n], s[n + 1..]))
  }

  /** Length of the run of digits that ends `s`. */
  function TrailingDigitRun(s: string): (n: nat)
    ensures n <= |s| && AllDigits(s[|s| - n..])
  {
    if s == [] || !IsDigit(s[|s| - 1]) then 0
    else
      var t := s[..|s| - 1];
      var n := 1 + TrailingDigitRun(t);
      assert s[|s| - n..] == t[|t| - (n - 1)..] + [s[|s| - 1]];
      n
  }

  /** `"(.*?)" (\d{3}) (\d+|-)$` read from the end: what stands before the closing quote,
      the status and the size. The size is the whole trailing run of digits (or `-`),
      since the run must be preceded by a space. */
  function ClfTail(body: string): (r: Option<(string, string, string)>)
    ensures r.Some? ==> body == r.value.0 + "\" " + r.value.1 + " " + r.value.2
    ensures r.Some? ==> |r.value.1| == 3 && AllDigits(r.value.1) && (r.value.2 == "-" || DigitField(r.value.2))
  {
    var n := |body|;
    var z := if n > 0 && body[n - 1] == '-' then 1 else TrailingDigitRun(body);
    if z == 0 || n < z + 6 then None
    else
      var e := n - z;
      if body[e - 1] == ' ' && AllDigits(body[e - 4..e - 1]) && body[e - 5] == ' ' && body[e - 6] == '"'
      then
        assert body == body[..e - 6] + body[e - 6..e - 4] + body[e - 4..e - 1] + body[e - 1..e] + body[e..];
        assert body[e - 6..e - 4] == "\" " && body[e - 1..e] == " ";
        Some((body[..e - 6], body[e - 4..e - 1], body[e..]))
      else None
  }

  /** Leftmost occurrence of `sub` in `s` at or after `i`. */
  function FindFrom(s: string, sub: string, i: nat): (r: Option<nat>)
    ensures r.Some? ==> i <= r.value && OccursAt(s, sub, r.value)
    ensures r.Some? ==> forall j :: i <= j < r.value ==> !OccursAt(s, sub, j)
    ensures r.None? ==> forall j :: i <= j ==> !OccursAt(s, sub, j)
    decreases |s| - i
  {
    if i + |sub| > |s| then None else if OccursAt(s, sub, i) then Some(i) else FindFrom(s, sub, i + 1)
  }

  /** `(.*?)\] "(.*?)` on the text between `[` and the closing quote: split at the first `] "`. */
  function SplitMid(mid: string): (r: Option<(string, string)>)
    ensures r.Some? ==> mid == r.value.0 + "] \"" + r.value.1 && LazyTime(r.value.0)
  {
    match FindFrom(mid, "] \"", 0)
    case None => None
    case Some(k) =>
      SplitAtOccurrence(mid, "] \"", k);
      LazyTimeSound(mid[..k], mid, k);
      Some((mid[..k], mid[k + 3..]))
  }

  lemma SplitAtOccurrence(s: string, sub: string, k: nat)
    requires OccursAt(s, sub, k)
    ensures s == s[..k] + sub + s[k + |sub|..]
  {
    assert s == s[..k] + s[k..k + |sub|] + s[k + |sub|..];
  }

  lemma LazyTimeSound(time: string, mid: string, k: nat)
    requires k <= |mid| && time == mid[..k]
    requires forall j :: 0 <= j < k ==> !OccursAt(mid, "] \"", j)
    requires OccursAt(mid, "] \"", k)
    ensures LazyTime(time)
  {
    assert time + "] \"" == mid[..k + 3];
    forall j | 0 <= j < |time|
      ensures !OccursAt(time + "] \"", "] \"", j)
    {
      assert !OccursAt(mid, "] \"", j);
      assert (time + "] \"")[j..j + 3] == mid[j..j + 3];
    }
  }

  lemma NoLineTerminatorConcat(a: string, b: string)
    requires NoLineTerminator(a) && NoLineTerminator(b)
    ensures NoLineTerminator(a + b)
  {
    forall i | 0 <= i < |a + b| ensures !IsLineTerminator((a + b)[i]) {
      if i >= |a| { assert (a + b)[i] == b[i - |a|]; }
    }
  }

  lemma NoLineTerminatorParts(a: string, b: string)
    requires NoLineTerminator(a + b)
    ensures NoLineTerminator(a) && NoLineTerminator(b)
  {
    forall i | 0 <= i < |a| ensures !IsLineTerminator(a[i]) { assert a[i] == (a + b)[i]; }
    forall i | 0 <= i < |b| ensures !IsLineTerminator(b[i]) { assert b[i] == (a + b)[|a| + i]; }
  }

  /** `\[(.*?)\] "(.*?)" (\d{3}) (\d+|-)$` on what follows the three tokens. */
  function ClfRestMatch(r3: string): (r: Option<ClfRest>)
    ensures r.Some? ==> ClfRestWellFormed(r.value) && ClfRestText(r.value) == r3
  {
    if r3 == [] || r3[0] != '[' then None
    else
      match ClfTail(r3[1..])
      case None => None
      case Some((mid, status, size)) =>
        if !NoLineTerminator(mid) then None
        else
          match SplitMid(mid)
          case None => None
          case Some((time, request)) =>
            NoLineTerminatorParts(time + "] \"", request);
            NoLineTerminatorParts(time, "] \"");
            assert r3 == "[" + r3[1..];
            Some(ClfRest(time, request, status, size))
  }

  /** The CLF regex applied to a whole line. */
  function ClfMatch(line: string): Option<ClfParts> {
    match SplitToken(line)
    case None => None
    case Some((client, r1)) =>
      match SplitToken(r1)
      case None => None
      case Some((ident, r2)) =>
        match SplitToken(r2)
        case None => None
        case Some((user, r3)) =>
          match ClfRestMatch(r3)
          case None => None
          case Some(q) => Some(ClfParts(client, ident, user, q.time, q.request, q.status, q.size))
  }

  /** Soundness: what the regex captures is well formed and spells out the line. */
  lemma ClfMatchSound(line: string)
    requires ClfMatch(line).Some?
    ensures ClfWellFormed(ClfMatch(line).value) && ClfLine(ClfMatch(line).value) == line
  {
  }

  /** Completeness and uniqueness: every well-formed decomposition of a line is the one
      the regex finds, so `ClfMatch(line) == Some(p)` exactly when `p` is well formed
      and spells out `line`. */
  lemma ClfMatchComplete(p: ClfParts)
    requires ClfWellFormed(p)
    ensures ClfMatch(ClfLine(p)) == Some(p)
  {
    var r3 := ClfRestText(RestOf(p));
    var r2 := p.user + " " + r3;
    var r1 := p.ident + " " + r2;
    SplitTokenExact(p.client, r1);
    SplitTokenExact(p.ident, r2);
    SplitTokenExact(p.user, r3);
    ClfRestExact(RestOf(p));
  }

  lemma ClfRestExact(q: ClfRest)
    requires ClfRestWellFormed(q)
    ensures ClfRestMatch(ClfRestText(q)) == Some(q)
  {
    var r3 := ClfRestText(q);
    var mid := q.time + "] \"" + q.request;
    assert r3[1..] == mid + "\" " + q.status + " " + q.size;
    ClfTailExact(mid, q.status, q.size);
    assert NoLineTerminator("] \"");
    NoLineTerminatorConcat(q.time, "] \"");
    NoLineTerminatorConcat(q.time + "] \"", q.request);
    SplitMidExact(q.time, q.request);
  }

  lemma SplitMidExact(time: string, request: string)
    requires LazyTime(time)
    ensures SplitMid(time + "] \"" + request) == Some((time, request))
  {
    var mid := time + "] \"" + request;
    assert OccursAt(mid, "] \"", |time|) by { assert mid[|time|..|time| + 3] == "] \""; }
    forall j | 0 <= j < |time| ensures !OccursAt(mid, "] \"", j) {
      assert !OccursAt(time + "] \"", "] \"", j);
      assert (time + "] \"")[j..j + 3] == mid[j..j + 3];
    }
    assert mid[..|time|] == time && mid[|time| + 3..] == request;
  }

  lemma SplitTokenExact(t: string, rest: string)
    requires IsToken(t)
    ensures SplitToken(t + " " + rest) == Some((t, rest))
  {
    var s := t + " " + rest;
    NonSpaceRunExact(s, 0, |t|);
    assert s[..|t|] == t && s[|t| + 1..] == rest;
  }

  lemma {:induction false} NonSpaceRunExact(s: string, i: nat, n: nat)
    requires i + n <= |s|
    requires forall k :: i <= k < i + n ==> !IsSpace(s[k])
    requires i + n == |s| || IsSpace(s[i + n])
    ensures NonSpaceRun(s, i) == n
    decreases n
  {
    if n > 0 { NonSpaceRunExact(s, i + 1, n - 1); }
  }

  lemma ClfTailExact(mid: string, status: string, size: string)
    requires |status| == 3 && AllDigits(status) && (size == "-" || DigitField(size))
    ensures ClfTail(mid + "\" " + status + " " + size) == Some((mid, status, size))
  {
    var body := mid + "\" " + status + " " + size;
    var n := |body|;
    if size == "-" {
      assert body[n - 1] == '-';
    } else {
      assert body == (mid + "\" " + status) + [' '] + size;
      TrailingDigitRunExact(mid + "\" " + status, size);
      assert body[n - 1] == size[|size| - 1];
    }
    var e := n - |size|;
    assert body[..e - 6] == mid;
    assert body[e - 4..e - 1] == status;
    assert body[e..] == size;
  }

  lemma {:induction false} TrailingDigitRunExact(x: string, d: string)
    requires AllDigits(d)
    ensures TrailingDigitRun(x + [' '] + d) == |d|
    decreases |d|
  {
    var s := x + [' '] + d;
    if d == [] {
      assert s[|s| - 1] == ' ';
    } else {
      var d' := d[..|d| - 1];
      assert s[..|s| - 1] == x + [' '] + d';
      TrailingDigitRunExact(x, d');
    }
  }

  // ---------------------------------------------------------------------------
  // key=value: /(\w+=[^\s]+)/g and `p.split("=")` (App.jsx:56-61)

  datatype KvToken = KvToken(key: string, value: string)

  /** `\w+=\S+` occurs in `s` between `i` and `k`, the `=` at `j`. */
  predicate KvTokenAt(s: string, i: nat, j: nat, k: nat) {
    && i < j && j + 1 < k <= |s|
    && (forall m :: i <= m < j ==> IsWordChar(s[m]))
    && s[j] == '='
    && (forall m :: j < m < k ==> !IsSpace(s[m]))
  }

  /** End of a `\w+=\S+` match that starts at position `p`, if one starts there: the word
      is the whole run of `\w` (only a `=` may end it) and the value the whole run of `\S`. */
  function KvMatchEnd(s: string, p: nat): (r: Option<nat>)
    ensures r.Some? ==> KvTokenAt(s, p, p + WordRun(s, p), r.value)
  {
    var w := WordRun(s, p);
    if w == 0 || p + w >= |s| || s[p + w] != '=' then None
    else
      var v := NonSpaceRun(s, p + w + 1);
      if v == 0 then None else Some(p + w + 1 + v)
  }

  /** `[k, v] = token.split("=")`: the key before the first `=`, the value up to the next `=`. */
  function TokenPair(token: string): KvToken {
    var parts := Split(token, '=');
    KvToken(parts[0], if |parts| > 1 then parts[1] else "")
  }

  predicate IsWord(w: string) {
    w != [] && forall i :: 0 <= i < |w| ==> IsWordChar(w[i])
  }

  /** The key of a `word=...` token is the word. */
  lemma TokenPairKey(w: string, rest: string)
    requires IsWord(w)
    ensures TokenPair(w + ['='] + rest).key == w
  {
    forall i | 0 <= i < |w| ensures w[i] != '=' { assert IsWordChar(w[i]); }
    SplitCons(w, '=', rest);
  }

  /** All matches of the global regex from position `p`, left to right, each scan resuming
      where the previous match ended. */
  function KvScan(s: string, p: nat): (tokens: seq<KvToken>)
    ensures forall t :: t in tokens ==> IsWord(t.key)
    decreases |s| - p
  {
    if p >= |s| then []
    else
      match KvMatchEnd(s, p)
      case Some(e) =>
        var w := WordRun(s, p);
        SliceConcat(s, p, p + w, e);
        assert s[p..e] == s[p..p + w] + ['='] + s[p + w + 1..e];
        TokenPairKey(s[p..p + w], s[p + w + 1..e]);
        [TokenPair(s[p..e])] + KvScan(s, e)
      case None => KvScan(s, p + 1)
  }

  /** The regex, as `line.match(...)`, is non-null exactly when some `word=value` stands in the line. */
  lemma {:induction false} KvScanNonEmpty(s: string, p: nat)
    ensures KvScan(s, p) != [] <==> exists i: nat, j: nat, k: nat :: p <= i && KvTokenAt(s, i, j, k)
    decreases |s| - p
  {
    if p >= |s| {
      assert forall i: nat, j: nat, k: nat :: p <= i ==> !KvTokenAt(s, i, j, k);
    } else if KvMatchEnd(s, p).Some? {
      assert KvTokenAt(s, p, p + WordRun(s, p), KvMatchEnd(s, p).value);
    } else {
      KvScanNonEmpty(s, p + 1);
      forall i: nat, j: nat, k: nat | p <= i && KvTokenAt(s, i, j, k) ensures p + 1 <= i {
        if i == p { KvMatchAtToken(s, i, j, k); }
      }
    }
  }

  /** Wherever a `word=value` starts, the scanner finds a match. */
  lemma KvMatchAtToken(s: string, i: nat, j: nat, k: nat)
    requires KvTokenAt(s, i, j, k)
    ensures KvMatchEnd(s, i).Some?
  {
    WordRunExact(s, i, j - i);
    assert !IsSpace(s[j + 1]);
  }

  /** `[k, v] = token.split("=")` on `word=rest`: the key is the word and the value is what
      follows the first `=` up to the next `=`, or all of it when there is none. */
  lemma TokenPairValue(w: string, rest: string)
    requires IsWord(w)
    ensures TokenPair(w + ['='] + rest) == KvToken(w, rest[..IndexOf(rest, '=')])
  {
    forall i | 0 <= i < |w| ensures w[i] != '=' { assert IsWordChar(w[i]); }
    SplitCons(w, '=', rest);
  }

  /** Positions where no match starts are passed over. */
  lemma {:induction false} KvScanSkip(s: string, p: nat, i: nat)
    requires p <= i <= |s|
    requires forall q :: p <= q < i ==> KvMatchEnd(s, q).None?
    ensures KvScan(s, p) == KvScan(s, i)
    decreases i - p
  {
    if p < i { KvScanSkip(s, p + 1, i); }
  }

  /** The global match: with `i` the leftmost position at or after `p` where a `word=value`
      token starts (its `=` at `j`), the scan yields that token, whose value runs to the next
      white space (greedy `\S+`), cut by `split("=")` at its next `=`, and resumes after it,
      so that matches never overlap. */
  lemma KvScanLeftmost(s: string, p: nat, i: nat, j: nat, k: nat)
    requires p <= i && KvTokenAt(s, i, j, k)
    requires forall q, j', k' :: p <= q < i ==> !KvTokenAt(s, q, j', k')
    ensures KvMatchEnd(s, i).Some?
    ensures var e := KvMatchEnd(s, i).value;
      && k <= e && KvTokenAt(s, i, j, e) && (e == |s| || IsSpace(s[e]))
      && KvScan(s, p) == [KvToken(s[i..j], s[j + 1..e][..IndexOf(s[j + 1..e], '=')])] + KvScan(s, e)
  {
    KvNoMatchBefore(s, p, i);
    KvMatchMaximal(s, i, j, k);
    KvScanAtMatch(s, i);
    KvTokenPairAt(s, i, j, KvMatchEnd(s, i).value);
  }

  lemma KvNoMatchBefore(s: string, p: nat, i: nat)
    requires p <= i <= |s|
    requires forall q, j', k' :: p <= q < i ==> !KvTokenAt(s, q, j', k')
    ensures KvScan(s, p) == KvScan(s, i)
  {
    assert forall q :: p <= q < i ==> KvMatchEnd(s, q).None?;
    KvScanSkip(s, p, i);
  }

  /** The pair `split("=")` makes of the text of a token. */
  lemma KvTokenPairAt(s: string, i: nat, j: nat, e: nat)
    requires KvTokenAt(s, i, j, e)
    ensures TokenPair(s[i..e]) == KvToken(s[i..j], s[j + 1..e][..IndexOf(s[j + 1..e], '=')])
  {
    SliceConcat(s, i, j, e);
    assert s[i..e] == s[i..j] + ['='] + s[j + 1..e];
    TokenPairValue(s[i..j], s[j + 1..e]);
  }

  /** A match at `i` is the token from `i` to the end of its `\S` run. */
  lemma KvMatchMaximal(s: string, i: nat, j: nat, k: nat)
    requires KvTokenAt(s, i, j, k)
    ensures KvMatchEnd(s, i).Some?
    ensures var e := KvMatchEnd(s, i).value;
      && j == i + WordRun(s, i) && k <= e && KvTokenAt(s, i, j, e) && (e == |s| || IsSpace(s[e]))
  {
    WordRunExact(s, i, j - i);
    KvMatchAtToken(s, i, j, k);
  }

  /** Where a match starts, the scan yields its pair and resumes at its end. */
  lemma KvScanAtMatch(s: string, i: nat)
    requires KvMatchEnd(s, i).Some?
    ensures var e := KvMatchEnd(s, i).value; KvScan(s, i) == [TokenPair(s[i..e])] + KvScan(s, e)
  {
  }

  lemma {:induction false} WordRunExact(s: string, i: nat, n: nat)
    requires i + n <= |s|
    requires forall k :: i <= k < i + n ==> IsWordChar(s[k])
    requires i + n == |s| || !IsWordChar(s[i + n])
    ensures WordRun(s, i) == n
    decreases n
  {
    if n > 0 { WordRunExact(s, i + 1, n - 1); }
  }

  // ---------------------------------------------------------------------------
  // Dotted IPv4 shapes: \d{1,3}(?:\.\d{1,3}){3}

  /** One to three digits: an octet of the regex. */
  predicate IsOctet(a: string) { 1 <= |a| <= 3 && AllDigits(a) }

  /** Four octets joined by dots. */
  predicate IsDottedQuad(ip: string) {
    var parts := Split(ip, '.');
    |parts| == 4 && forall i :: 0 <= i < 4 ==> IsOctet(parts[i])
  }

  /** End of `\d{1,3}(?:\.\d{1,3}){3}` starting at `i`. The first three octets must be whole
      runs of at most three digits (a dot follows). When `wholeLast`, so must the fourth
      (the regex goes on with a non-digit); otherwise the fourth octet is the first three
      digits of its run, as greedy `\d{1,3}` takes them. */
  function IpEnd(s: string, i: nat, wholeLast: bool): (r: Option<nat>)
    ensures r.Some? ==> i < r.value <= |s|
  {
    match OctetDot(s, i)
    case None => None
    case Some(i2) =>
      match OctetDot(s, i2)
      case None => None
      case Some(i3) =>
        match OctetDot(s, i3)
        case None => None
        case Some(i4) =>
          var r4 := DigitRun(s, i4);
          if r4 == 0 || (wholeLast && r4 > 3) then None
          else Some(i4 + Min(r4, 3))
  }

  /** `\d{1,3}\.` from `i`, with the whole digit run taken: the position after the dot. */
  function OctetDot(s: string, i: nat): (r: Option<nat>)
    ensures r.Some? ==> i + 2 <= r.value <= i + 4 && r.value < |s| + 1
  {
    var n := DigitRun(s, i);
    if !(1 <= n <= 3) || i + n >= |s| || s[i + n] != '.' then None else Some(i + n + 1)
  }

  lemma OctetDotSpec(s: string, i: nat)
    requires OctetDot(s, i).Some?
    ensures var e := OctetDot(s, i).value;
      e <= |s| && s[e - 1] == '.' && forall k :: i <= k < e - 1 ==> IsDigit(s[k])
  {
    DigitRunSpec(s, i);
  }

  /** What the address pattern matches is four dot-separated octets. */
  lemma IpEndShape(s: string, i: nat, wholeLast: bool)
    requires IpEnd(s, i, wholeLast).Some?
    ensures IsDottedQuad(s[i..IpEnd(s, i, wholeLast).value])
  {
    var i2 := OctetDot(s, i).value;
    var i3 := OctetDot(s, i2).value;
    var i4 := OctetDot(s, i3).value;
    OctetDotSpec(s, i);
    OctetDotSpec(s, i2);
    OctetDotSpec(s, i3);
    var r4 := DigitRun(s, i4);
    DigitRunSpec(s, i4);
    assert IpEnd(s, i, wholeLast).value == i4 + Min(r4, 3);
    IpShape(s, i, i2, i3, i4, IpEnd(s, i, wholeLast).value);
  }

  lemma IpShape(s: string, i: nat, i2: nat, i3: nat, i4: nat, e: nat)
    requires i < i2 <= i3 <= i4 < e <= |s| && e - i4 <= 3
    requires 1 <= i2 - i - 1 <= 3 && 1 <= i3 - i2 - 1 <= 3 && 1 <= i4 - i3 - 1 <= 3
    requires s[i2 - 1] == '.' && s[i3 - 1] == '.' && s[i4 - 1] == '.'
    requires forall k :: i <= k < i2 - 1 ==> IsDigit(s[k])
    requires forall k :: i2 <= k < i3 - 1 ==> IsDigit(s[k])
    requires forall k :: i3 <= k < i4 - 1 ==> IsDigit(s[k])
    requires forall k :: i4 <= k < e ==> IsDigit(s[k])
    ensures IsDottedQuad(s[i..e])
  {
    var a := DigitSlice(s, i, i2 - 1);
    var b := DigitSlice(s, i2, i3 - 1);
    var c := DigitSlice(s, i3, i4 - 1);
    var d := DigitSlice(s, i4, e);
    SliceDot(s, i3, i4, e);
    SliceDot(s, i2, i3, e);
    SliceDot(s, i, i2, e);
    SplitDotted(a, b, c, d);
  }

  /** A dotted quad is `a.b.c.d` with its four octets. */
  lemma DottedQuadParts(ip: string)
    requires IsDottedQuad(ip)
    ensures var parts := Split(ip, '.'); ip == Dotted(parts[0], parts[1], parts[2], parts[3])
  {
    SplitJoin(ip, '.');
    JoinFour(Split(ip, '.'));
  }

  /** What stands at `i` as `x + y`: `x` there and `y` right after it. */
  lemma OccursSplit(s: string, x: string, y: string, i: nat)
    requires OccursAt(s, x + y, i)
    ensures OccursAt(s, x, i) && OccursAt(s, y, i + |x|)
  {
    assert s[i..i + |x|] == (x + y)[..|x|];
    assert s[i + |x|..i + |x| + |y|] == (x + y)[|x|..];
  }

  /** Completeness of `\d{1,3}\.`: where an octet and a dot stand, the scan steps over both. */
  lemma OctetDotAt(s: string, i: nat, a: string, rest: string)
    requires IsOctet(a) && OccursAt(s, a + ['.'] + rest, i)
    ensures OctetDot(s, i) == Some(i + |a| + 1) && OccursAt(s, rest, i + |a| + 1)
  {
    OccursSplit(s, a + ['.'], rest, i);
    OccursSplit(s, a, ['.'], i);
    forall k | i <= k < i + |a| ensures IsDigit(s[k]) {
      assert s[k] == s[i..i + |a|][k - i];
    }
    assert s[i + |a|] == s[i + |a|..i + |a| + 1][0];
    DigitRunExact(s, i, |a|);
  }

  /** Completeness of the address pattern: where a dotted quad stands at `i`, the scan
      matches there and covers at least the quad, any further text it takes being digits
      of a longer last run; a non-digit after the quad makes the match exactly the quad.
      When `wholeLast`, the quad must be followed by a non-digit (or the end). */
  lemma IpEndAt(s: string, i: nat, ip: string, wholeLast: bool)
    requires IsDottedQuad(ip) && OccursAt(s, ip, i)
    requires wholeLast ==> i + |ip| == |s| || !IsDigit(s[i + |ip|])
    ensures IpEnd(s, i, wholeLast).Some?
    ensures var e := IpEnd(s, i, wholeLast).value;
      && i + |ip| <= e && (forall m :: i + |ip| <= m < e ==> IsDigit(s[m]))
      && (i + |ip| == |s| || !IsDigit(s[i + |ip|]) ==> e == i + |ip|)
  {
    var a, b, c, d := QuadOctets(ip);
    DottedEndAt(s, i, a, b, c, d, wholeLast);
  }

  /** The four octets of a dotted quad. */
  lemma QuadOctets(ip: string) returns (a: string, b: string, c: string, d: string)
    requires IsDottedQuad(ip)
    ensures IsOctet(a) && IsOctet(b) && IsOctet(c) && IsOctet(d) && ip == Dotted(a, b, c, d)
  {
    var parts := Split(ip, '.');
    DottedQuadParts(ip);
    a, b, c, d := parts[0], parts[1], parts[2], parts[3];
    assert IsOctet(parts[0]) && IsOctet(parts[1]) && IsOctet(parts[2]) && IsOctet(parts[3]);
  }

  lemma DottedEndAt(s: string, i: nat, a: string, b: string, c: string, d: string, wholeLast: bool)
    requires IsOctet(a) && IsOctet(b) && IsOctet(c) && IsOctet(d) && OccursAt(s, Dotted(a, b, c, d), i)
    requires var n := |Dotted(a, b, c, d)|; wholeLast ==> i + n == |s| || !IsDigit(s[i + n])
    ensures IpEnd(s, i, wholeLast).Some?
    ensures var e := IpEnd(s, i, wholeLast).value; var n := |Dotted(a, b, c, d)|;
      && i + n <= e && (forall m :: i + n <= m < e ==> IsDigit(s[m]))
      && (i + n == |s| || !IsDigit(s[i + n]) ==> e == i + n)
  {
    var i4 := ThreeOctetsAt(s, i, a, b, c, d);
    LastOctetAt(s, i4, d, wholeLast);
  }

  /** The first three octets, each with its dot; `i4` is where the fourth begins. */
  lemma ThreeOctetsAt(s: string, i: nat, a: string, b: string, c: string, d: string) returns (i4: nat)
    requires IsOctet(a) && IsOctet(b) && IsOctet(c) && OccursAt(s, Dotted(a, b, c, d), i)
    ensures i4 + |d| == i + |Dotted(a, b, c, d)| && OccursAt(s, d, i4)
    ensures OctetDot(s, i).Some? && OctetDot(s, OctetDot(s, i).value).Some?
    ensures OctetDot(s, OctetDot(s, OctetDot(s, i).value).value) == Some(i4)
  {
    OctetDotAt(s, i, a, b + ['.'] + (c + ['.'] + d));
    var i2 := i + |a| + 1;
    OctetDotAt(s, i2, b, c + ['.'] + d);
    var i3 := i2 + |b| + 1;
    OctetDotAt(s, i3, c, d);
    i4 := i3 + |c| + 1;
  }

  /** A dotted quad that a non-digit (or the end) closes is matched exactly. */
  lemma IpEndWhole(s: string, i: nat, ip: string, wholeLast: bool)
    requires IsDottedQuad(ip) && OccursAt(s, ip, i)
    requires i + |ip| == |s| || !IsDigit(s[i + |ip|])
    ensures IpEnd(s, i, wholeLast) == Some(i + |ip|)
  {
    IpEndAt(s, i, ip, wholeLast);
  }

  /** The fourth octet: at least its digits, the whole run when `wholeLast`. */
  lemma LastOctetAt(s: string, i4: nat, d: string, wholeLast: bool)
    requires IsOctet(d) && OccursAt(s, d, i4)
    requires wholeLast ==> i4 + |d| == |s| || !IsDigit(s[i4 + |d|])
    ensures var r4 := DigitRun(s, i4);
      && r4 > 0 && !(wholeLast && r4 > 3)
      && i4 + |d| <= i4 + Min(r4, 3) && (forall m :: i4 + |d| <= m < i4 + Min(r4, 3) ==> IsDigit(s[m]))
      && (i4 + |d| == |s| || !IsDigit(s[i4 + |d|]) ==> Min(r4, 3) == |d|)
  {
    forall k | i4 <= k < i4 + |d| ensures IsDigit(s[k]) {
      assert s[k] == s[i4..i4 + |d|][k - i4];
    }
    DigitRunAtLeast(s, i4, |d|);
    DigitRunSpec(s, i4);
    if i4 + |d| == |s| || !IsDigit(s[i4 + |d|]) {
      DigitRunExact(s, i4, |d|);
    }
  }

  function DigitSlice(s: string, i: nat, j: nat): (a: string)
    requires i <= j <= |s|
    requires forall k :: i <= k < j ==> IsDigit(s[k])
    ensures a == s[i..j] && AllDigits(a)
  {
    s[i..j]
  }

  lemma SliceDot(s: string, i: nat, j: nat, e: nat)
    requires i < j <= e <= |s| && s[j - 1] == '.'
    ensures s[i..e] == s[i..j - 1] + ['.'] + s[j..e]
  {
    assert s[i..e] == s[i..j - 1] + s[j - 1..j] + s[j..e];
  }

  // ---------------------------------------------------------------------------
  // sshd: /from (\d{1,3}(?:\.\d{1,3}){3}) port (\d+)/ (App.jsx:66)

  datatype AddressPort = AddressPort(ip: string, port: string)

  /** The match that starts at position `p`, if one does. */
  function SshdAt(s: string, p: nat): Option<AddressPort> {
    if !OccursAt(s, "from ", p) then None
    else
      match IpEnd(s, p + 5, true)
      case None => None
      case Some(e) =>
        if !OccursAt(s, " port ", e) then None
        else
          if DigitRun(s, e + 6) == 0 then None else Some(AddressPort(s[p + 5..e], DigitsAt(s, e + 6)))
  }

  /** Position of the leftmost match at or after `p`. */
  function SshdStarts(s: string): nat -> bool {
    (q: nat) => SshdAt(s, q).Some?
  }

  function SshdFrom(s: string, p: nat): (r: Option<nat>)
    ensures r.Some? ==> p <= r.value && SshdAt(s, r.value).Some?
  {
    LeftmostFrom(SshdStarts(s), |s|, p)
  }

  /** It is the leftmost match: none starts between `p` and it, and none at all when it is None. */
  lemma SshdFromLeftmost(s: string, p: nat)
    ensures SshdFrom(s, p).None? ==> forall q :: p <= q < |s| ==> SshdAt(s, q).None?
    ensures SshdFrom(s, p).Some? ==> forall q :: p <= q < SshdFrom(s, p).value ==> SshdAt(s, q).None?
  {
    LeftmostFromSpec(SshdStarts(s), |s|, p);
    var lim := if SshdFrom(s, p).Some? then SshdFrom(s, p).value else |s|;
    forall q | p <= q < lim ensures SshdAt(s, q).None? {
      assert !SshdStarts(s)(q);
    }
  }


  /** What a match captures: a dotted quad and a run of digits, in the text `from IP port N`. */
  lemma SshdAtCaptures(s: string, p: nat)
    requires SshdAt(s, p).Some?
    ensures IsDottedQuad(SshdAt(s, p).value.ip) && DigitField(SshdAt(s, p).value.port)
  {
    SshdIpCapture(s, p);
    SshdPortCapture(s, p);
  }

  lemma SshdIpCapture(s: string, p: nat)
    requires SshdAt(s, p).Some?
    ensures IsDottedQuad(SshdAt(s, p).value.ip)
  {
    IpEndShape(s, p + 5, true);
    assert SshdAt(s, p).value.ip == s[p + 5..IpEnd(s, p + 5, true).value];
  }

  lemma SshdPortCapture(s: string, p: nat)
    requires SshdAt(s, p).Some?
    ensures DigitField(SshdAt(s, p).value.port)
  {
    var e := IpEnd(s, p + 5, true).value;
    DigitsAtField(s, e + 6);
  }

  lemma DigitsAtField(s: string, i: nat)
    requires DigitRun(s, i) > 0
    ensures i <= |s| && DigitField(DigitsAt(s, i))
  {
    DigitRunField(s, i);
  }

  lemma DigitRunField(s: string, i: nat)
    requires DigitRun(s, i) > 0
    ensures i + DigitRun(s, i) <= |s| && DigitField(s[i..i + DigitRun(s, i)])
  {
    DigitRunSpec(s, i);
  }

  /** The match spells out `from IP port N` at its position. */
  lemma SshdAtShape(s: string, p: nat)
    requires SshdAt(s, p).Some?
    ensures var m := SshdAt(s, p).value; OccursAt(s, "from " + m.ip + " port " + m.port, p)
  {
    var e := IpEnd(s, p + 5, true).value;
    var q := e + 6 + DigitRun(s, e + 6);
    var m := SshdAt(s, p).value;
    assert m.ip == s[p + 5..e] && m.port == s[e + 6..q];
    assert s[p..p + 5] == "from " && s[e..e + 6] == " port ";
    FourPieces(s, p, p + 5, e, e + 6, q);
    assert s[p..q] == "from " + m.ip + " port " + m.port;
  }

  /** The captured port is the whole run of digits: no digit follows it. */
  lemma SshdPortWhole(s: string, p: nat)
    requires SshdAt(s, p).Some?
    ensures var m := SshdAt(s, p).value; var q := p + |"from " + m.ip + " port " + m.port|;
      q == |s| || !IsDigit(s[q])
  {
    var e := IpEnd(s, p + 5, true).value;
    DigitRunSpec(s, e + 6);
  }

  /** Completeness: wherever `from IP port N` stands, with a dotted quad of whole octets and
      digits `N`, the pattern matches at that position with that address, and the port it
      captures is the whole run of digits that begins with `N`. */
  lemma SshdAtComplete(s: string, p: nat, ip: string, port: string)
    requires IsDottedQuad(ip) && DigitField(port) && OccursAt(s, "from " + ip + " port " + port, p)
    ensures SshdAt(s, p).Some? && SshdAt(s, p).value.ip == ip
    ensures StartsWith(SshdAt(s, p).value.port, port)
    ensures var q := p + |"from " + ip + " port " + port|;
      q == |s| || !IsDigit(s[q]) ==> SshdAt(s, p).value.port == port
  {
    SshdTextAt(s, p, ip, port);
    var e := p + 5 + |ip|;
    assert s[e] == s[e..e + 6][0];
    IpEndWhole(s, p + 5, ip, true);
    SshdPortAt(s, e + 6, port);
    SshdAtParts(s, p, e);
  }

  /** The scanner at `p` once `from `, the address up to `e` and ` port ` are in place. */
  lemma SshdAtParts(s: string, p: nat, e: nat)
    requires OccursAt(s, "from ", p) && IpEnd(s, p + 5, true) == Some(e) && OccursAt(s, " port ", e)
    requires DigitRun(s, e + 6) > 0
    ensures SshdAt(s, p) == Some(AddressPort(s[p + 5..e], DigitsAt(s, e + 6)))
  {
  }

  /** The pieces of `from IP port N` at `p`. */
  lemma SshdTextAt(s: string, p: nat, ip: string, port: string)
    requires OccursAt(s, "from " + ip + " port " + port, p)
    ensures OccursAt(s, "from ", p) && OccursAt(s, ip, p + 5)
    ensures OccursAt(s, " port ", p + 5 + |ip|) && OccursAt(s, port, p + 5 + |ip| + 6)
  {
    OccursSplit(s, "from " + ip + " port ", port, p);
    OccursSplit(s, "from " + ip, " port ", p);
    OccursSplit(s, "from ", ip, p);
  }

  /** `(\d+)` where the digits `port` stand: the run holds them and the digits after them. */
  lemma SshdPortAt(s: string, q: nat, port: string)
    requires DigitField(port) && OccursAt(s, port, q)
    ensures DigitRun(s, q) >= |port| && StartsWith(s[q..q + DigitRun(s, q)], port)
    ensures q + |port| == |s| || !IsDigit(s[q + |port|]) ==> s[q..q + DigitRun(s, q)] == port
  {
    forall k | q <= k < q + |port| ensures IsDigit(s[k]) {
      assert s[k] == s[q..q + |port|][k - q];
    }
    DigitRunAtLeast(s, q, |port|);
    assert s[q..q + DigitRun(s, q)][..|port|] == s[q..q + |port|];
    if q + |port| == |s| || !IsDigit(s[q + |port|]) {
      DigitRunExact(s, q, |port|);
    }
  }

  lemma FourPieces(s: string, a: nat, b: nat, c: nat, d: nat, e: nat)
    requires a <= b <= c <= d <= e <= |s|
    ensures s[a..e] == s[a..b] + s[b..c] + s[c..d] + s[d..e]
  {
    SliceConcat(s, a, d, e);
    SliceConcat(s, a, c, d);
    SliceConcat(s, a, b, c);
  }



  // ---------------------------------------------------------------------------
  // kernel / IDS: /SRC=(\d{1,3}(?:\.\d{1,3}){3}).*DPT=(\d+)/ (App.jsx:77)

  /** First line terminator at or after `i` (the `.*` cannot run past it), or `|s|`. */
  function NextLineTerminator(s: string, i: nat): (k: nat)
    ensures i <= k <= |s| || (i > |s| && k == i)
    ensures forall m :: i <= m < k ==> !IsLineTerminator(s[m])
    ensures k < |s| ==> IsLineTerminator(s[k])
    decreases |s| - i
  {
    if i >= |s| || IsLineTerminator(s[i]) then i else NextLineTerminator(s, i + 1)
  }

  /** `SRC=` at `p`, tested character by character. */
  predicate SrcAt(s: string, p: nat) {
    p + 4 <= |s| && s[p] == 'S' && s[p + 1] == 'R' && s[p + 2] == 'C' && s[p + 3] == '='
  }

  /** `DPT=` and a digit at `d`, tested character by character. */
  predicate DptAt(s: string, d: nat) {
    d + 4 < |s| && s[d] == 'D' && s[d + 1] == 'P' && s[d + 2] == 'T' && s[d + 3] == '=' && IsDigit(s[d + 4])
  }

  /** A four-character word stands at `p` exactly when its characters do. */
  lemma FourCharsAt(s: string, p: nat, w: string)
    requires |w| == 4
    ensures OccursAt(s, w, p) <==> p + 4 <= |s| && s[p] == w[0] && s[p + 1] == w[1] && s[p + 2] == w[2] && s[p + 3] == w[3]
  {
    if p + 4 <= |s| && s[p] == w[0] && s[p + 1] == w[1] && s[p + 2] == w[2] && s[p + 3] == w[3] {
      assert s[p..p + 4] == w;
    }
  }

  /** `x` at `i` and `y` right after it make `x + y` at `i`. */
  lemma OccursJoin(s: string, x: string, y: string, i: nat)
    requires OccursAt(s, x, i) && OccursAt(s, y, i + |x|)
    ensures OccursAt(s, x + y, i)
  {
    assert s[i..i + |x| + |y|] == s[i..i + |x|] + s[i + |x|..i + |x| + |y|];
  }

  /** Greedy `.*DPT=\d`: the last `DPT=` followed by a digit in `s[e..lim]`, searched downwards from `d`. */
  function LastDpt(s: string, e: nat, lim: nat, d: int): (r: Option<nat>)
    requires d + 5 <= lim <= |s|
    ensures r.Some? ==> e <= r.value <= d && DptAt(s, r.value)
    ensures r.Some? ==> forall d' :: r.value < d' <= d ==> !DptAt(s, d')
    ensures r.None? ==> forall d' :: e <= d' <= d ==> !DptAt(s, d')
    decreases d
  {
    if d < e then None else if DptAt(s, d) then Some(d) else LastDpt(s, e, lim, d - 1)
  }

  /** The match that starts at position `p`, if one does. */
  function KernelAt(s: string, p: nat): Option<AddressPort> {
    if !SrcAt(s, p) then None
    else
      match IpEnd(s, p + 4, false)
      case None => None
      case Some(e) =>
        match KernelDpt(s, e)
        case None => None
        case Some(d) => Some(AddressPort(s[p + 4..e], DigitsAt(s, d + 4)))
  }

  /** `.*DPT=(\d+)` after the address ends at `e`: the last `DPT=` and digit on that line. */
  function KernelDpt(s: string, e: nat): (r: Option<nat>)
    ensures r.Some? ==> e <= r.value && DptAt(s, r.value)
  {
    if e > |s| then None
    else
      var lim := NextLineTerminator(s, e);
      LastDpt(s, e, lim, lim - 5)
  }

  /** Position of the leftmost match at or after `p`. */
  function KernelStarts(s: string): nat -> bool {
    (q: nat) => KernelAt(s, q).Some?
  }

  function KernelFrom(s: string, p: nat): (r: Option<nat>)
    ensures r.Some? ==> p <= r.value && KernelAt(s, r.value).Some?
  {
    LeftmostFrom(KernelStarts(s), |s|, p)
  }

  /** It is the leftmost match: none starts between `p` and it, and none at all when it is None. */
  lemma KernelFromLeftmost(s: string, p: nat)
    ensures KernelFrom(s, p).None? ==> forall q :: p <= q < |s| ==> KernelAt(s, q).None?
    ensures KernelFrom(s, p).Some? ==> forall q :: p <= q < KernelFrom(s, p).value ==> KernelAt(s, q).None?
  {
    LeftmostFromSpec(KernelStarts(s), |s|, p);
    var lim := if KernelFrom(s, p).Some? then KernelFrom(s, p).value else |s|;
    forall q | p <= q < lim ensures KernelAt(s, q).None? {
      assert !KernelStarts(s)(q);
    }
  }


  /** No line terminator from `e` to `x`: the line runs on at least to `x`. */
  lemma {:induction false} LineEndBeyond(s: string, e: nat, x: nat)
    requires e <= x <= |s| && NoLineTerminator(s[e..x])
    ensures NextLineTerminator(s, e) >= x
    decreases x - e
  {
    if e < x {
      assert s[e] == s[e..x][0];
      assert s[e + 1..x] == s[e..x][1..];
      LineEndBeyond(s, e + 1, x);
    }
  }

  lemma NoLineTerminatorSuffix(s: string, a: nat, b: nat, x: nat)
    requires a <= b <= x <= |s| && NoLineTerminator(s[a..x])
    ensures NoLineTerminator(s[b..x])
  {
    assert s[a..x] == s[a..b] + s[b..x];
    NoLineTerminatorParts(s[a..b], s[b..x]);
  }

  /** `d` holds the last `DPT=` and digit on the line that runs on from `e`. */
  predicate LastDptOnLine(s: string, e: nat, d: nat) {
    && e <= d && DptAt(s, d) && NoLineTerminator(s[e..d])
    && forall d' :: d < d' && d' + 5 <= |s| && NoLineTerminator(s[e..d' + 5]) ==> !DptAt(s, d')
  }

  /** Greedy `.*` backs off to the last `DPT=` and digit before the line ends. */
  lemma KernelDptLast(s: string, e: nat)
    requires KernelDpt(s, e).Some?
    ensures LastDptOnLine(s, e, KernelDpt(s, e).value)
  {
    var lim := NextLineTerminator(s, e);
    assert KernelDpt(s, e) == LastDpt(s, e, lim, lim - 5);
    var d := KernelDpt(s, e).value;
    assert e <= d <= lim;
    forall i | 0 <= i < d - e ensures !IsLineTerminator(s[e..d][i]) {
      assert s[e..d][i] == s[e + i];
    }
    forall d' | d < d' && d' + 5 <= |s| && NoLineTerminator(s[e..d' + 5]) ensures !DptAt(s, d') {
      LineEndBeyond(s, e, d' + 5);
    }
  }

  /** A `DPT=` and digit at `d`, on the line from `e`, is found (or a later one is). */
  lemma KernelDptFound(s: string, e: nat, d: nat)
    requires e <= d && DptAt(s, d) && NoLineTerminator(s[e..d + 5])
    ensures KernelDpt(s, e).Some? && d <= KernelDpt(s, e).value
  {
    LineEndBeyond(s, e, d + 5);
  }

  /** What a match spells out: `SRC=` and a dotted quad at `p`, then, further on the same line,
      `DPT=` and the whole run of digits after it, at the last such place on that line
      (greedy `.*`). */
  lemma KernelAtShape(s: string, p: nat, m: AddressPort)
    requires KernelAt(s, p) == Some(m)
    ensures OccursAt(s, "SRC=" + m.ip, p) && IsDottedQuad(m.ip)
    ensures exists d: nat {:trigger DptAt(s, d)} :: KernelPortShape(s, p + 4 + |m.ip|, d, m.port)
  {
    var e := IpEnd(s, p + 4, false).value;
    var d := KernelDpt(s, e).value;
    KernelAtValue(s, p, e, d);
    assert m.ip == s[p + 4..e] && m.port == DigitsAt(s, d + 4);
    KernelPiecesShape(s, p, e, d);
    assert DptAt(s, d) && KernelPortShape(s, p + 4 + |m.ip|, d, m.port);
  }

  /** The pieces a match is made of, spelled out. */
  lemma KernelPiecesShape(s: string, p: nat, e: nat, d: nat)
    requires SrcAt(s, p) && IpEnd(s, p + 4, false) == Some(e) && KernelDpt(s, e) == Some(d)
    ensures OccursAt(s, "SRC=" + s[p + 4..e], p) && IsDottedQuad(s[p + 4..e])
    ensures e == p + 4 + |s[p + 4..e]| && KernelPortShape(s, e, d, DigitsAt(s, d + 4))
  {
    IpEndShape(s, p + 4, false);
    FourCharsAt(s, p, "SRC=");
    OccursJoin(s, "SRC=", s[p + 4..e], p);
    KernelDptLast(s, e);
    KernelPortAt(s, d);
  }

  /** `SRC=` and the first digit of the address form a `\w+=\S+` token. */
  lemma KernelAtToken(s: string, p: nat)
    requires KernelAt(s, p).Some?
    ensures KvTokenAt(s, p, p + 3, p + 5)
  {
    SrcToken(s, p);
  }

  lemma SrcToken(s: string, p: nat)
    requires SrcAt(s, p) && IpEnd(s, p + 4, false).Some?
    ensures KvTokenAt(s, p, p + 3, p + 5)
  {
    OctetDotSpec(s, p + 4);
  }

  /** The port of a match: digits after the last `DPT=` on the line from `e`, the whole run. */
  predicate KernelPortShape(s: string, e: nat, d: nat, port: string) {
    && LastDptOnLine(s, e, d) && OccursAt(s, "DPT=" + port, d) && DigitField(port)
    && (d + 4 + |port| == |s| || !IsDigit(s[d + 4 + |port|]))
  }

  lemma KernelAtValue(s: string, p: nat, e: nat, d: nat)
    requires SrcAt(s, p) && IpEnd(s, p + 4, false) == Some(e) && KernelDpt(s, e) == Some(d)
    ensures KernelAt(s, p) == Some(AddressPort(s[p + 4..e], DigitsAt(s, d + 4)))
  {
  }

  /** `DPT=(\d+)` at `d`: the whole digit run follows `DPT=`. */
  lemma KernelPortAt(s: string, d: nat)
    requires DptAt(s, d)
    ensures var port := DigitsAt(s, d + 4);
      && OccursAt(s, "DPT=" + port, d) && DigitField(port)
      && (d + 4 + |port| == |s| || !IsDigit(s[d + 4 + |port|]))
  {
    DigitRunField(s, d + 4);
    DigitRunSpec(s, d + 4);
    FourCharsAt(s, d, "DPT=");
    OccursJoin(s, "DPT=", DigitsAt(s, d + 4), d);
  }

  /** Completeness: wherever `SRC=` and a dotted quad stand at `p` and `DPT=` and a digit
      stand further on the same line, the pattern matches at `p`, its address beginning with
      the quad (and equal to it when a non-digit follows the quad). */
  lemma KernelAtComplete(s: string, p: nat, ip: string, d: nat)
    requires IsDottedQuad(ip) && OccursAt(s, "SRC=" + ip, p)
    requires p + 4 + |ip| <= d && DptAt(s, d) && NoLineTerminator(s[p + 4 + |ip|..d + 5])
    ensures KernelAt(s, p).Some? && StartsWith(KernelAt(s, p).value.ip, ip)
    ensures p + 4 + |ip| == |s| || !IsDigit(s[p + 4 + |ip|]) ==> KernelAt(s, p).value.ip == ip
  {
    var e := KernelPiecesFound(s, p, ip, d);
    KernelAtParts(s, p, e);
  }

  /** The pieces of the pattern are found where the completeness lemma says they stand. */
  lemma KernelPiecesFound(s: string, p: nat, ip: string, d: nat) returns (e: nat)
    requires IsDottedQuad(ip) && OccursAt(s, "SRC=" + ip, p)
    requires p + 4 + |ip| <= d && DptAt(s, d) && NoLineTerminator(s[p + 4 + |ip|..d + 5])
    ensures SrcAt(s, p) && IpEnd(s, p + 4, false) == Some(e) && KernelDpt(s, e).Some?
    ensures StartsWith(s[p + 4..e], ip)
    ensures p + 4 + |ip| == |s| || !IsDigit(s[p + 4 + |ip|]) ==> s[p + 4..e] == ip
  {
    e := SrcAddressAt(s, p, ip);
    DptAfterAddress(s, p + 4 + |ip|, e, d);
  }

  lemma DptAfterAddress(s: string, a: nat, e: nat, d: nat)
    requires a <= e <= |s| && forall m :: a <= m < e ==> IsDigit(s[m])
    requires a <= d && DptAt(s, d) && NoLineTerminator(s[a..d + 5])
    ensures KernelDpt(s, e).Some?
  {
    assert !IsDigit(s[d]);
    assert e <= d;
    NoLineTerminatorSuffix(s, a, e, d + 5);
    KernelDptFound(s, e, d);
  }

  /** `SRC=` and the address found where they stand. */
  lemma SrcAddressAt(s: string, p: nat, ip: string) returns (e: nat)
    requires IsDottedQuad(ip) && OccursAt(s, "SRC=" + ip, p)
    ensures SrcAt(s, p) && IpEnd(s, p + 4, false) == Some(e)
    ensures p + 4 + |ip| <= e && forall m :: p + 4 + |ip| <= m < e ==> IsDigit(s[m])
    ensures StartsWith(s[p + 4..e], ip)
    ensures p + 4 + |ip| == |s| || !IsDigit(s[p + 4 + |ip|]) ==> s[p + 4..e] == ip
  {
    OccursSplit(s, "SRC=", ip, p);
    FourCharsAt(s, p, "SRC=");
    IpEndAt(s, p + 4, ip, false);
    e := IpEnd(s, p + 4, false).value;
    assert s[p + 4..e][..|ip|] == s[p + 4..p + 4 + |ip|];
  }

  /** The scanner at `p` once `SRC=` and the address up to `e` are in place and a `DPT=`
      with a digit is on the line. */
  lemma KernelAtParts(s: string, p: nat, e: nat)
    requires SrcAt(s, p) && IpEnd(s, p + 4, false) == Some(e)
    requires KernelDpt(s, e).Some?
    ensures KernelAt(s, p).Some? && KernelAt(s, p).value.ip == s[p + 4..e]
  {
  }

  // ---------------------------------------------------------------------------
  // fallback: /(\d{1,3}(?:\.\d{1,3}){3})/ and /\[(.*?)\]/ (App.jsx:87-88)

  function IpAt(s: string, p: nat): (r: Option<string>)
    ensures r.Some? ==> r.value != []
  {
    match IpEnd(s, p, false)
    case None => None
    case Some(e) => Some(s[p..e])
  }

  /** The fallback's address is four dot-separated octets. */
  lemma IpAtShape(s: string, p: nat)
    requires IpAt(s, p).Some?
    ensures IsDottedQuad(IpAt(s, p).value) && OccursAt(s, IpAt(s, p).value, p)
  {
    IpEndShape(s, p, false);
  }

  /** Completeness: wherever a dotted quad stands, the pattern matches there; the match begins
      with that quad and is exactly it when no digit follows the quad. */
  lemma IpAtComplete(s: string, p: nat, ip: string)
    requires IsDottedQuad(ip) && OccursAt(s, ip, p)
    ensures IpAt(s, p).Some? && StartsWith(IpAt(s, p).value, ip)
    ensures p + |ip| == |s| || !IsDigit(s[p + |ip|]) ==> IpAt(s, p).value == ip
  {
    IpEndAt(s, p, ip, false);
    var e := IpEnd(s, p, false).value;
    assert s[p..e][..|ip|] == s[p..p + |ip|];
  }

  /** Position of the leftmost match at or after `p`. */
  function IpStarts(s: string): nat -> bool {
    (q: nat) => IpAt(s, q).Some?
  }

  function IpFrom(s: string, p: nat): (r: Option<nat>)
    ensures r.Some? ==> p <= r.value && IpAt(s, r.value).Some?
  {
    LeftmostFrom(IpStarts(s), |s|, p)
  }

  /** It is the leftmost match: none starts between `p` and it, and none at all when it is None. */
  lemma IpFromLeftmost(s: string, p: nat)
    ensures IpFrom(s, p).None? ==> forall q :: p <= q < |s| ==> IpAt(s, q).None?
    ensures IpFrom(s, p).Some? ==> forall q :: p <= q < IpFrom(s, p).value ==> IpAt(s, q).None?
  {
    LeftmostFromSpec(IpStarts(s), |s|, p);
    var lim := if IpFrom(s, p).Some? then IpFrom(s, p).value else |s|;
    forall q | p <= q < lim ensures IpAt(s, q).None? {
      assert !IpStarts(s)(q);
    }
  }


  /** First `]` or line terminator after position `i`, or `|s|`. */
  function BracketStop(s: string, i: nat): (k: nat)
    ensures i <= k <= |s| || (i > |s| && k == i)
    ensures forall m :: i <= m < k ==> s[m] != ']' && !IsLineTerminator(s[m])
    ensures k < |s| ==> s[k] == ']' || IsLineTerminator(s[k])
    decreases |s| - i
  {
    if i >= |s| || s[i] == ']' || IsLineTerminator(s[i]) then i else BracketStop(s, i + 1)
  }

  /** `\[(.*?)\]` at position `p`: the text up to the first `]`, which no line terminator may precede. */
  function BracketAt(s: string, p: nat): (r: Option<string>)
    ensures r.Some? ==> ']' !in r.value && NoLineTerminator(r.value)
  {
    if p >= |s| || s[p] != '[' then None
    else
      var k := BracketStop(s, p + 1);
      if k < |s| && s[k] == ']' then Some(s[p + 1..k]) else None
  }

  /** The match spells out `[`, the capture and `]` at its position. */
  lemma BracketAtShape(s: string, p: nat)
    requires BracketAt(s, p).Some?
    ensures OccursAt(s, "[" + BracketAt(s, p).value + "]", p)
  {
    var k := BracketStop(s, p + 1);
    assert s[p..k + 1] == [s[p]] + s[p + 1..k] + [s[k]];
  }

  /** Completeness: wherever `[x]` stands with no line terminator in `x`, the pattern matches
      there; lazily, its capture is the part of `x` before the first `]`, so `x` itself when
      `x` holds no `]`. */
  lemma BracketAtComplete(s: string, p: nat, x: string)
    requires OccursAt(s, "[" + x + "]", p) && NoLineTerminator(x)
    ensures BracketAt(s, p).Some? && StartsWith(x, BracketAt(s, p).value)
    ensures ']' !in x ==> BracketAt(s, p).value == x
  {
    assert s[p] == ("[" + x + "]")[0];
    forall m | p + 1 <= m < p + 1 + |x| ensures s[m] == x[m - p - 1] {
      assert s[m] == ("[" + x + "]")[m - p];
    }
    assert s[p + 1 + |x|] == ("[" + x + "]")[|x| + 1];
    var k := BracketStop(s, p + 1);
    assert k <= p + 1 + |x|;
    assert s[p + 1..k] == x[..k - p - 1];
  }

  /** Position of the leftmost match at or after `p`. */
  function BracketStarts(s: string): nat -> bool {
    (q: nat) => BracketAt(s, q).Some?
  }

  function BracketFrom(s: string, p: nat): (r: Option<nat>)
    ensures r.Some? ==> p <= r.value && BracketAt(s, r.value).Some?
  {
    LeftmostFrom(BracketStarts(s), |s|, p)
  }

  /** It is the leftmost match: none starts between `p` and it, and none at all when it is None. */
  lemma BracketFromLeftmost(s: string, p: nat)
    ensures BracketFrom(s, p).None? ==> forall q :: p <= q < |s| ==> BracketAt(s, q).None?
    ensures BracketFrom(s, p).Some? ==> forall q :: p <= q < BracketFrom(s, p).value ==> BracketAt(s, q).None?
  {
    LeftmostFromSpec(BracketStarts(s), |s|, p);
    var lim := if BracketFrom(s, p).Some? then BracketFrom(s, p).value else |s|;
    forall q | p <= q < lim ensures BracketAt(s, q).None? {
      assert !BracketStarts(s)(q);
    }
  }


  // ---------------------------------------------------------------------------
  // syslog timestamp: /^[A-Z][a-z]{2} \d{1,2} \d{2}:\d{2}:\d{2}/ (App.jsx:17, 69, 80)

  /** The matched prefix, e.g. `Nov 06 09:12:04`. */
  function SyslogStamp(s: string): (r: Option<string>)
    ensures r.Some? ==> StartsWith(s, r.value) && (|r.value| == 14 || |r.value| == 15)
  {
    if |s| < 14 || !IsUpperAscii(s[0]) || !IsLowerAscii(s[1]) || !IsLowerAscii(s[2]) || s[3] != ' ' then None
    else
      var r := DigitRun(s, 4);
      var q := 5 + r;
      if !(1 <= r <= 2) || q + 8 > |s| || s[4 + r] != ' ' then None
      else if IsDigit(s[q]) && IsDigit(s[q + 1]) && s[q + 2] == ':' && IsDigit(s[q + 3]) && IsDigit(s[q + 4])
              && s[q + 5] == ':' && IsDigit(s[q + 6]) && IsDigit(s[q + 7])
      then Some(s[..q + 8])
      else None
  }

  /** `[A-Z][a-z]{2} \d{1,2} \d{2}:\d{2}:\d{2}` spelled out: a month, one or two day digits,
      and a two-digit time of day. */
  predicate IsSyslogStamp(u: string) {
    && (|u| == 14 || |u| == 15)
    && IsUpperAscii(u[0]) && IsLowerAscii(u[1]) && IsLowerAscii(u[2]) && u[3] == ' '
    && AllDigits(u[4..|u| - 9]) && u[|u| - 9] == ' '
    && IsDigit(u[|u| - 8]) && IsDigit(u[|u| - 7]) && u[|u| - 6] == ':'
    && IsDigit(u[|u| - 5]) && IsDigit(u[|u| - 4]) && u[|u| - 3] == ':'
    && IsDigit(u[|u| - 2]) && IsDigit(u[|u| - 1])
  }

  /** The anchored pattern yields `u` exactly when the line begins with a stamp `u`. */
  lemma SyslogStampMeaning(s: string, u: string)
    ensures SyslogStamp(s) == Some(u) <==> StartsWith(s, u) && IsSyslogStamp(u)
  {
    if SyslogStamp(s) == Some(u) {
      DigitRunSpec(s, 4);
      var n := DigitRun(s, 4);
      assert forall k :: 4 <= k < 4 + n ==> u[k] == s[k];
      assert u[4..|u| - 9] == s[4..4 + n];
    }
    if StartsWith(s, u) && IsSyslogStamp(u) {
      SyslogStampDay(s, u);
    }
  }

  lemma SyslogStampDay(s: string, u: string)
    requires StartsWith(s, u) && IsSyslogStamp(u)
    ensures SyslogStamp(s) == Some(u)
  {
    var n := |u| - 13;
    forall k | 4 <= k < 4 + n ensures IsDigit(s[k]) {
      assert s[k] == u[k] == u[4..|u| - 9][k - 4];
    }
    assert s[4 + n] == u[4 + n];
    DigitRunExact(s, 4, n);
    assert 5 + n + 8 == |u|;
    assert s[..|u|] == u;
  }

  /** No match exactly when neither the first 14 nor the first 15 characters form a stamp. */
  lemma SyslogStampNone(s: string)
    ensures SyslogStamp(s).None? <==> forall n :: 14 <= n <= 15 && n <= |s| ==> !IsSyslogStamp(s[..n])
  {
    if SyslogStamp(s).Some? {
      var u := SyslogStamp(s).value;
      SyslogStampMeaning(s, u);
      assert s[..|u|] == u;
    } else {
      forall n | 14 <= n <= 15 && n <= |s| ensures !IsSyslogStamp(s[..n]) {
        SyslogStampMeaning(s, s[..n]);
      }
    }
  }

  // ---------------------------------------------------------------------------
  // The captures of the leftmost match, as `line.match(...)` returns them

  function FirstSshd(s: string): Option<AddressPort> {
    match SshdFrom(s, 0)
    case None => None
    case Some(q) => SshdAt(s, q)
  }

  function FirstKernel(s: string): Option<AddressPort> {
    match KernelFrom(s, 0)
    case None => None
    case Some(q) => KernelAt(s, q)
  }

  function FirstIp(s: string): Option<string> {
    match IpFrom(s, 0)
    case None => None
    case Some(q) => IpAt(s, q)
  }

  function FirstBracket(s: string): Option<string> {
    match BracketFrom(s, 0)
    case None => None
    case Some(q) => BracketAt(s, q)
  }
}
