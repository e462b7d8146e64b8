/** Character classes and string operations with JavaScript's meaning:
    `String.prototype.trim`, `split` on one character, `includes`, `toLowerCase`
    and the regular-expression classes `\s`, `\d`, `\w` and `.`. */
module Text {

  /** The characters JavaScript's `trim` removes and `\s` matches (WhiteSpace and LineTerminator). */
  predicate IsSpace(c: char) {
    c == '\t' || c == '\n' || c == '\U{000B}' || c == '\U{000C}' || c == '\r' || c == ' '
    || c == '\U{00A0}' || c == '\U{1680}' || ('\U{2000}' <= c <= '\U{200A}')
    || c == '\U{2028}' || c == '\U{2029}' || c == '\U{202F}' || c == '\U{205F}'
    || c == '\U{3000}' || c == '\U{FEFF}'
  }

  /** The characters the regex `.` does not match. */
  predicate IsLineTerminator(c: char) {
    c == '\n' || c == '\r' || c == '\U{2028}' || c == '\U{2029}'
  }

  /** `\d` without the `u` flag. */
  predicate IsDigit(c: char) { '0' <= c <= '9' }

  /** `\w` without the `u` flag. */
  predicate IsWordChar(c: char) {
    ('a' <= c <= 'z') || ('A' <= c <= 'Z') || IsDigit(c) || c == '_'
  }

  predicate IsUpperAscii(c: char) { 'A' <= c <= 'Z' }
  predicate IsLowerAscii(c: char) { 'a' <= c <= 'z' }

  predicate AllDigits(s: string) { forall i :: 0 <= i < |s| ==> IsDigit(s[i]) }

  /** First position at or after `i` that holds no white space, or `|s|`. */
  function SkipSpace(s: string, i: nat): (k: nat)
    requires i <= |s|
    ensures i <= k <= |s|
    ensures forall m :: i <= m < k ==> IsSpace(s[m])
    ensures k < |s| ==> !IsSpace(s[k])
    decreases |s| - i
  {
    if i < |s| && IsSpace(s[i]) then SkipSpace(s, i + 1) else i
  }

  /** End of `s[lo..j]` once its trailing white space is dropped. */
  function SkipSpaceBack(s: string, lo: nat, j: nat): (k: nat)
    requires lo <= j <= |s|
    ensures lo <= k <= j
    ensures forall m :: k <= m < j ==> IsSpace(s[m])
    ensures k > lo ==> !IsSpace(s[k - 1])
    decreases j
  {
    if j > lo && IsSpace(s[j - 1]) then SkipSpaceBack(s, lo, j - 1) else j
  }

  /** Start and end of `s.trim()` within `s`. */
  function TrimStartIndex(s: string): nat { SkipSpace(s, 0) }
  function TrimEndIndex(s: string): nat { SkipSpaceBack(s, SkipSpace(s, 0), |s|) }

  /** `s.trim()`. */
  function Trim(s: string): string {
    s[TrimStartIndex(s)..TrimEndIndex(s)]
  }

  /** `s.trim()` is the longest slice of `s` that neither starts nor ends with white space:
      only white space is cut away, and nothing is left exactly when `s` is all white space. */
  lemma TrimSpec(s: string)
    ensures var a, b := TrimStartIndex(s), TrimEndIndex(s);
      && a <= b <= |s| && Trim(s) == s[a..b]
      && (forall m :: 0 <= m < a || b <= m < |s| ==> IsSpace(s[m]))
      && (a < b ==> !IsSpace(s[a]) && !IsSpace(s[b - 1]))
    ensures Trim(s) == [] <==> forall i :: 0 <= i < |s| ==> IsSpace(s[i])
  {
    var a, b := TrimStartIndex(s), TrimEndIndex(s);
    if a < b {
      assert !IsSpace(s[a]);
    }
  }

  /** A string that neither starts nor ends with white space is left as it is. */
  lemma TrimUnchanged(s: string)
    requires s == [] || (!IsSpace(s[0]) && !IsSpace(s[|s| - 1]))
    ensures Trim(s) == s
  {
  }

  /** Trimming is idempotent. */
  lemma TrimIdempotent(s: string)
    ensures Trim(Trim(s)) == Trim(s)
  {
    TrimSpec(s);
    var r := Trim(s);
    if r != [] {
      TrimUnchanged(r);
    }
  }

  /** ASCII lower-casing. Non-ASCII letters are left alone; none of them lower-cases
      into a character of the ASCII words the detectors look for. */
  function LowerAscii(s: string): (r: string)
    ensures |r| == |s|
  {
    if s == [] then []
    else [LowerChar(s[0])] + LowerAscii(s[1..])
  }

  function LowerChar(c: char): char {
    if IsUpperAscii(c) then (c as int + 32) as char else c
  }

  /** Lower-casing works character by character: an upper-case ASCII letter becomes its
      lower-case form and every other character stays. */
  lemma {:induction false} LowerAsciiSpec(s: string)
    ensures forall i :: 0 <= i < |s| ==> LowerAscii(s)[i] == LowerChar(s[i])
    ensures forall i :: 0 <= i < |s| ==> !IsUpperAscii(LowerAscii(s)[i])
  {
    if s != [] {
      LowerAsciiSpec(s[1..]);
      assert forall i :: 1 <= i < |s| ==> LowerAscii(s)[i] == LowerAscii(s[1..])[i - 1];
    }
  }

  /** Lower-casing twice is lower-casing once. */
  lemma LowerAsciiIdempotent(s: string)
    ensures LowerAscii(LowerAscii(s)) == LowerAscii(s)
  {
    var l := LowerAscii(s);
    LowerAsciiSpec(s);
    LowerAsciiSpec(l);
    assert forall i :: 0 <= i < |l| ==> LowerAscii(l)[i] == l[i];
  }

  /** `s.includes(sub)`, searched from the left. */
  predicate Contains(s: string, sub: string) {
    ContainsFrom(s, sub, 0)
  }

  predicate ContainsFrom(s: string, sub: string, i: nat)
    decreases |s| - i
  {
    i + |sub| <= |s| && (OccursAt(s, sub, i) || ContainsFrom(s, sub, i + 1))
  }

  /** `sub` stands somewhere in `s`. */
  lemma {:induction false} ContainsMeaning(s: string, sub: string, i: nat)
    ensures ContainsFrom(s, sub, i) <==> exists k :: i <= k <= |s| - |sub| && OccursAt(s, sub, k)
    decreases |s| - i
  {
    if i + |sub| <= |s| {
      ContainsMeaning(s, sub, i + 1);
    }
  }

  /** `sub` stands in `s` from position `i`. */
  predicate OccursAt(s: string, sub: string, i: int) {
    0 <= i <= |s| - |sub| && s[i..i + |sub|] == sub
  }

  predicate StartsWith(s: string, prefix: string) {
    |prefix| <= |s| && s[..|prefix|] == prefix
  }

  predicate EndsWith(s: string, suffix: string) {
    |suffix| <= |s| && s[|s| - |suffix|..] == suffix
  }

  lemma SliceConcat(s: string, i: nat, j: nat, k: nat)
    requires i <= j <= k <= |s|
    ensures s[i..k] == s[i..j] + s[j..k]
  {
  }

  /** Index of the first `c` in `s`, or `|s|` when there is none. */
  function IndexOf(s: string, c: char): (k: nat)
    ensures k <= |s|
    ensures forall i :: 0 <= i < k ==> s[i] != c
    ensures k < |s| ==> s[k] == c
  {
    if s == [] then 0 else if s[0] == c then 0 else 1 + IndexOf(s[1..], c)
  }

  /** `s.split(sep)` for a one-character separator: every piece, empty ones included. */
  function Split(s: string, sep: char): (parts: seq<string>)
    ensures |parts| >= 1
    ensures forall p :: p in parts ==> sep !in p
    decreases |s|
  {
    var k := IndexOf(s, sep);
    if k == |s| then [s] else [s[..k]] + Split(s[k + 1..], sep)
  }

  /** Pieces joined back with the separator. */
  function Join(parts: seq<string>, sep: char): string {
    if parts == [] then [] else if |parts| == 1 then parts[0] else parts[0] + [sep] + Join(parts[1..], sep)
  }

  /** Number of occurrences of `c` in `s`. */
  function Occurrences(s: string, c: char): nat {
    if s == [] then 0 else (if s[0] == c then 1 else 0) + Occurrences(s[1..], c)
  }

  lemma OccurrencesAppend(a: string, b: string, c: char)
    ensures Occurrences(a + b, c) == Occurrences(a, c) + Occurrences(b, c)
  {
    if a != [] {
      assert (a + b)[0] == a[0];
      assert (a + b)[1..] == a[1..] + b;
      OccurrencesAppend(a[1..], b, c);
    } else {
      assert a + b == b;
    }
  }

  /** Splitting and joining again gives back the string. */
  lemma {:induction false} SplitJoin(s: string, sep: char)
    ensures Join(Split(s, sep), sep) == s
    decreases |s|
  {
    var k := IndexOf(s, sep);
    if k < |s| {
      SplitJoin(s[k + 1..], sep);
      SplitAt(s, sep);
      JoinCons(s[..k], Split(s[k + 1..], sep), sep);
      Around(s, k);
    }
  }

  /** There is one piece more than there are separators. */
  lemma {:induction false} SplitCount(s: string, sep: char)
    ensures |Split(s, sep)| == Occurrences(s, sep) + 1
    decreases |s|
  {
    var k := IndexOf(s, sep);
    if k == |s| {
      NoOccurrences(s, sep);
    } else {
      var pre, rest := s[..k], s[k + 1..];
      SplitCount(rest, sep);
      SplitAt(s, sep);
      Around(s, k);
      NoOccurrences(pre, sep);
      OccurrencesAppend(pre + [sep], rest, sep);
      OccurrencesAppend(pre, [sep], sep);
    }
  }

  /** Where the first separator stands, the split cuts off the text before it. */
  lemma SplitAt(s: string, sep: char)
    requires IndexOf(s, sep) < |s|
    ensures Split(s, sep) == [s[..IndexOf(s, sep)]] + Split(s[IndexOf(s, sep) + 1..], sep)
  {
  }

  lemma JoinCons(a: string, t: seq<string>, sep: char)
    requires t != []
    ensures Join([a] + t, sep) == a + [sep] + Join(t, sep)
  {
    assert ([a] + t)[0] == a && ([a] + t)[1..] == t;
  }

  /** A sequence is what stands before position `k`, the element at `k` and what follows. */
  lemma Around<T>(s: seq<T>, k: nat)
    requires k < |s|
    ensures s == s[..k] + [s[k]] + s[k + 1..]
  {
  }

  lemma NoOccurrences(s: string, c: char)
    requires c !in s
    ensures Occurrences(s, c) == 0
  {
    if s != [] { NoOccurrences(s[1..], c); }
  }

  /** `text.split(/\r?\n/)`: split at every line feed, and drop one carriage return that
      stands right before a line feed. */
  function SplitLines(text: string): (lines: seq<string>)
    ensures |lines| == Occurrences(text, '\n') + 1
    ensures forall l :: l in lines ==> '\n' !in l
  {
    SplitCount(text, '\n');
    var pieces := Split(text, '\n');
    var lines := DropCarriageReturns(pieces);
    assert forall i :: 0 <= i < |lines| ==> '\n' !in pieces[i];
    lines
  }

  /** Every piece but the last loses one trailing `\r`, because that `\r` was part of the separator. */
  function DropCarriageReturns(pieces: seq<string>): (lines: seq<string>)
    requires pieces != []
    ensures |lines| == |pieces|
    ensures lines[|lines| - 1] == pieces[|pieces| - 1]
    ensures forall i :: 0 <= i < |pieces| - 1 ==>
      lines[i] == if EndsWith(pieces[i], "\r") then pieces[i][..|pieces[i]| - 1] else pieces[i]
    ensures forall i :: 0 <= i < |lines| ==> lines[i] <= pieces[i]
  {
    if |pieces| == 1 then pieces
    else
      var p := pieces[0];
      [if EndsWith(p, "\r") then p[..|p| - 1] else p] + DropCarriageReturns(pieces[1..])
  }

  /** Number of consecutive characters satisfying `\d` from position `i`. */
  function DigitRun(s: string, i: nat): (n: nat)
    ensures i + n <= |s| || (i > |s| && n == 0)
    decreases |s| - i
  {
    if i < |s| && IsDigit(s[i]) then 1 + DigitRun(s, i + 1) else 0
  }

  /** The run is made of digits and ends where the digits end. */
  lemma {:induction false} DigitRunSpec(s: string, i: nat)
    ensures forall k :: i <= k < i + DigitRun(s, i) ==> IsDigit(s[k])
    ensures i + DigitRun(s, i) < |s| ==> !IsDigit(s[i + DigitRun(s, i)])
    decreases |s| - i
  {
    if i < |s| && IsDigit(s[i]) {
      DigitRunSpec(s, i + 1);
    }
  }

  /** What greedy `(\d+)` captures from `i`: the whole run of digits there. */
  function DigitsAt(s: string, i: nat): string
    requires i <= |s|
  {
    s[i..i + DigitRun(s, i)]
  }

  /** A run of `n` digits that a non-digit (or the end) closes is the whole run. */
  lemma {:induction false} DigitRunExact(s: string, i: nat, n: nat)
    requires i + n <= |s|
    requires forall k :: i <= k < i + n ==> IsDigit(s[k])
    requires i + n == |s| || !IsDigit(s[i + n])
    ensures DigitRun(s, i) == n
    decreases n
  {
    if n > 0 { DigitRunExact(s, i + 1, n - 1); }
  }

  /** `n` digits from `i` lie inside the run. */
  lemma {:induction false} DigitRunAtLeast(s: string, i: nat, n: nat)
    requires i + n <= |s|
    requires forall k :: i <= k < i + n ==> IsDigit(s[k])
    ensures DigitRun(s, i) >= n
    decreases n
  {
    if n > 0 { DigitRunAtLeast(s, i + 1, n - 1); }
  }

  /** Number of consecutive characters satisfying `\S` from position `i`. */
  function NonSpaceRun(s: string, i: nat): (n: nat)
    ensures i + n <= |s| || (i > |s| && n == 0)
    ensures forall k :: i <= k < i + n ==> !IsSpace(s[k])
    ensures i + n < |s| ==> IsSpace(s[i + n])
    decreases |s| - i
  {
    if i < |s| && !IsSpace(s[i]) then 1 + NonSpaceRun(s, i + 1) else 0
  }

  /** Number of consecutive characters satisfying `\w` from position `i`. */
  function WordRun(s: string, i: nat): (n: nat)
    ensures i + n <= |s| || (i > |s| && n == 0)
    ensures forall k :: i <= k < i + n ==> IsWordChar(s[k])
    ensures i + n < |s| ==> !IsWordChar(s[i + n])
    decreases |s| - i
  {
    if i < |s| && IsWordChar(s[i]) then 1 + WordRun(s, i + 1) else 0
  }
}
