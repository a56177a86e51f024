/** Character classes and the scanners of the request parser (src/HttpRequest.cpp).
    A scanner looks at the bytes `d[i..]` and says how far the next token reaches. */
module HttpSyntax {

  datatype CharClass =
    | MethodSymbol
    | Blank
    | UrlSymbol
    | NotBlank
    | NotBreak
    | Break
    | KeySymbol
    | Separator

  predicate IsLetter(c: char) {
    'a' <= c <= 'z' || 'A' <= c <= 'Z'
  }

  predicate IsDigit(c: char) {
    '0' <= c <= '9'
  }

  predicate IsBreak(c: char) {
    c == '\r' || c == '\n'
  }

  predicate InClass(c: char, k: CharClass) {
    match k
    case MethodSymbol => 'A' <= c <= 'Z'
    case Blank => c == ' '
    case UrlSymbol =>
      IsLetter(c) || IsDigit(c) || c == '/' || c == '.' || c == '_' || c == '=' || c == '-' || c == '%'
    case NotBlank => c != ' '
    case NotBreak => !IsBreak(c)
    case Break => IsBreak(c)
    case KeySymbol => IsLetter(c) || c == '-'
    case Separator => c == ':' || c == ' '
  }

  predicate AllIn(s: string, k: CharClass) {
    forall i :: 0 <= i < |s| ==> InClass(s[i], k)
  }

  /** The end of the longest run of class `k` that starts at `i`. */
  function Span(d: string, i: nat, k: CharClass): (j: nat)
    requires i <= |d|
    ensures i <= j <= |d|
    ensures forall x :: i <= x < j ==> InClass(d[x], k)
    ensures j < |d| ==> !InClass(d[j], k)
    decreases |d| - i
  {
    if i < |d| && InClass(d[i], k) then Span(d, i + 1, k) else i
  }

  /** Only one position can be the end of a run. */
  lemma {:induction false} SpanIs(d: string, i: nat, k: CharClass, j: nat)
    requires i <= j < |d|
    requires forall x :: i <= x < j ==> InClass(d[x], k)
    requires !InClass(d[j], k)
    ensures Span(d, i, k) == j
    decreases j - i
  {
    if i < j {
      SpanIs(d, i + 1, k, j);
    }
  }

  /** A run that ended inside `d` ends at the same place when more bytes follow. */
  lemma SpanExtend(d: string, e: string, i: nat, k: CharClass)
    requires i <= |d| && d <= e
    requires Span(d, i, k) < |d|
    ensures Span(e, i, k) == Span(d, i, k)
  {
    SpanIs(e, i, k, Span(d, i, k));
  }

  /** The number of line feeds in `d[i..j]`. */
  function LineFeeds(d: string, i: nat, j: nat): (n: nat)
    requires i <= j <= |d|
    ensures n <= j - i
  {
    if i == j then 0 else LineFeeds(d, i, j - 1) + (if d[j - 1] == '\n' then 1 else 0)
  }

  lemma {:induction false} LineFeedsExtend(d: string, e: string, i: nat, j: nat, l: nat)
    requires i <= j <= l <= |e| && j <= |d| && d <= e
    ensures LineFeeds(d, i, j) <= LineFeeds(e, i, l)
    ensures j == l ==> LineFeeds(d, i, j) == LineFeeds(e, i, l)
    decreases l
  {
    if j < l {
      LineFeedsExtend(d, e, i, j, l - 1);
    } else if i < j {
      LineFeedsExtend(d, e, i, j - 1, j - 1);
    }
  }

  datatype ReadOutcome =
    | Malformed
    | NeedMore
    | Ok(length: nat)
    | Question(length: nat)
    | EndOfHeaders(length: nat)

  function ScanMethod(d: string, i: nat): ReadOutcome
    requires i <= |d|
  {
    var j := Span(d, i, MethodSymbol);
    if j == |d| then NeedMore else if d[j] == ' ' then Ok(j - i) else Malformed
  }

  function ScanSpaces(d: string, i: nat): ReadOutcome
    requires i <= |d|
  {
    var j := Span(d, i, Blank);
    if j == |d| then NeedMore else if IsBreak(d[j]) then Malformed else Ok(j - i)
  }

  function ScanUrl(d: string, i: nat): ReadOutcome
    requires i <= |d|
  {
    var j := Span(d, i, UrlSymbol);
    if j == |d| then NeedMore
    else if d[j] == ' ' then Ok(j - i)
    else if d[j] == '?' then Question(j - i)
    else Malformed
  }

  function ScanUrlParameters(d: string, i: nat): ReadOutcome
    requires i <= |d|
  {
    var j := Span(d, i, NotBlank);
    if j == |d| then NeedMore else Ok(j - i)
  }

  function ScanToNextLine(d: string, i: nat): ReadOutcome
    requires i <= |d|
  {
    var j := Span(d, i, NotBreak);
    if j == |d| then NeedMore
    else
      var k := Span(d, j, Break);
      if LineFeeds(d, j, k) > 1 then EndOfHeaders(k - i)
      else if k == |d| then NeedMore
      else Ok(k - i)
  }

  function ScanHeaderKey(d: string, i: nat): ReadOutcome
    requires i <= |d|
  {
    var j := Span(d, i, KeySymbol);
    if j == |d| then NeedMore else if d[j] == ':' then Ok(j - i) else Malformed
  }

  function ScanHeaderSpace(d: string, i: nat): ReadOutcome
    requires i <= |d|
  {
    var j := Span(d, i, Separator);
    if j == |d| then NeedMore else if IsBreak(d[j]) then Malformed else Ok(j - i)
  }

  function ScanHeaderValue(d: string, i: nat): ReadOutcome
    requires i <= |d|
  {
    var j := Span(d, i, NotBreak);
    if j == |d| then NeedMore else Ok(j - i)
  }

  function ScanHeaderLineBreak(d: string, i: nat): ReadOutcome
    requires i <= |d|
  {
    var j := Span(d, i, Break);
    if LineFeeds(d, i, j) > 1 then EndOfHeaders(j - i)
    else if j == |d| then NeedMore
    else Ok(j - i)
  }

  function Lower(c: char): char {
    if 'A' <= c <= 'Z' then c + ('a' - 'A') else c
  }

  /** `strncasecmp(name, key, |key|) == 0` for a key without NUL bytes: only as many
      characters as the key has are compared. */
  predicate MatchesName(name: string, key: string) {
    |key| <= |name| && forall i :: 0 <= i < |key| ==> Lower(name[i]) == Lower(key[i])
  }

  /** `isspace`: the blank and the control characters from tab to carriage return. */
  predicate IsWhite(c: char) {
    c == ' ' || 9 as char <= c <= 13 as char
  }

  function SkipWhite(s: string): (t: string) {
    if s != [] && IsWhite(s[0]) then SkipWhite(s[1..]) else s
  }

  function Digits(s: string, value: nat): nat
    decreases |s|
  {
    if s != [] && IsDigit(s[0]) then Digits(s[1..], 10 * value + (s[0] - '0') as nat) else value
  }

  /** `atoi`, on values that fit the machine's `int`. */
  function Atoi(s: string): int {
    var t := SkipWhite(s);
    if t != [] && t[0] == '-' then -(Digits(t[1..], 0) as int)
    else if t != [] && t[0] == '+' then Digits(t[1..], 0)
    else Digits(t, 0)
  }
}
