/** The configuration reader and printer (src/utils/ConfigReader.cpp): a hand-written scanner over a C
    string, reading a file line by line, and the printer that should undo it. */
module ConfigReader {
  import opened CString
  import HttpSyntax

  const COMMENT_SYMBOL: char := '#'
  const PARAM_SEPARATOR_SYMBOL: char := '='

  type Params = map<string, string>

  datatype Parsed = Parsed(ok: bool, params: Params)

  datatype TokenClass = Space | White | Key | InLine

  predicate IsSpace(c: char) {
    c == ' ' || c == '\t'
  }

  predicate IsBreak(c: char) {
    HttpSyntax.IsBreak(c)
  }

  /** The digit 9 is not a key symbol. */
  predicate IsKey(c: char) {
    'a' <= c <= 'z' || 'A' <= c <= 'Z' || '0' <= c < '9' || c == '.'
  }

  predicate In(c: char, k: TokenClass) {
    match k
    case Space => IsSpace(c)
    case White => IsSpace(c) || IsBreak(c)
    case Key => IsKey(c)
    case InLine => !IsBreak(c)
  }

  predicate AllOf(s: string, k: TokenClass) {
    forall i :: 0 <= i < |s| ==> In(s[i], k)
  }

  /** How many characters of class `k` the text starts with. */
  function Leading(t: string, k: TokenClass): (n: nat)
    ensures n <= |t| && AllOf(t[..n], k)
    ensures n < |t| ==> !In(t[n], k)
  {
    if t != "" && In(t[0], k) then
      var n := Leading(t[1..], k);
      assert t[..n + 1] == [t[0]] + t[1..][..n];
      n + 1
    else 0
  }

  function Skip(t: string, k: TokenClass): (u: string)
    ensures |u| <= |t|
  {
    t[Leading(t, k)..]
  }

  function Take(t: string, k: TokenClass): string {
    t[..Leading(t, k)]
  }

  /** The part of a parameter line after its key, up to the value. */
  datatype Separator = NoSeparator | ValueAt(rest: string)

  function ReadSeparator(t: string): (s: Separator)
    ensures s.ValueAt? ==> |s.rest| < |t|
  {
    if t == "" || !(IsSpace(t[0]) || t[0] == PARAM_SEPARATOR_SYMBOL) then NoSeparator
    else
      var u := Skip(t, Space);
      if u == "" || u[0] != PARAM_SEPARATOR_SYMBOL then NoSeparator
      else ValueAt(Skip(u[1..], Space))
  }

  /** What one round of the reader finds in a text. */
  datatype Piece = End | Bad | Comment(rest: string) | Entry(key: string, value: string, rest: string)

  function Next(t: string): (p: Piece)
    ensures p.Comment? || p.Entry? ==> |p.rest| < |t|
  {
    FirstPiece(Skip(t, White))
  }

  /** The same for a text that starts with no white space. */
  function FirstPiece(u: string): (p: Piece)
    ensures p.Comment? || p.Entry? ==> |p.rest| < |u|
  {
    if u == "" then End
    else if u[0] == COMMENT_SYMBOL then
      assert Leading(u, InLine) >= 1;
      Comment(Skip(u, InLine))
    else if IsKey(u[0]) then
      var s := ReadSeparator(Skip(u, Key));
      if s.NoSeparator? || Take(s.rest, InLine) == "" then Bad
      else Entry(Take(u, Key), Take(s.rest, InLine), Skip(s.rest, InLine))
    else Bad
  }

  /** Parse the text `t`, adding to `m`; on a syntax error the parameters read so far remain. */
  function Parse(t: string, m: Params): Parsed
    decreases |t|
  {
    match Next(t)
    case End => Parsed(true, m)
    case Bad => Parsed(false, m)
    case Comment(rest) => Parse(rest, m)
    case Entry(key, value, rest) => Parse(rest, m[key := value])
  }

  // ---- Printing ----

  function PrintEntry(k: string, v: string): string {
    k + ([PARAM_SEPARATOR_SYMBOL] + (v + "\n"))
  }

  /** One line per parameter, in the order of `keys`. */
  function Print(keys: seq<string>, m: Params): string
    requires forall k <- keys :: k in m
  {
    if keys == [] then "" else PrintEntry(keys[0], m[keys[0]]) + Print(keys[1..], m)
  }

  /** `keys` lists the keys of `m`, each once; std::map iterates over one such listing. */
  ghost predicate Lists(keys: seq<string>, m: Params) {
    && (forall i, j :: 0 <= i < j < |keys| ==> keys[i] != keys[j])
    && (forall k :: k in keys <==> k in m)
  }

  predicate PrintableEntry(k: string, v: string) {
    && k != "" && AllOf(k, Key)
    && v != "" && AllOf(v, InLine) && NUL !in v && !IsSpace(v[0])
  }

  predicate Printable(m: Params) {
    forall k <- m :: PrintableEntry(k, m[k])
  }

  // ---- Parsing what was printed ----

  lemma {:induction false} LeadingConcat(a: string, b: string, k: TokenClass)
    requires AllOf(a, k) && (b == "" || !In(b[0], k))
    ensures Leading(a + b, k) == |a|
    ensures Take(a + b, k) == a && Skip(a + b, k) == b
  {
    if a == "" {
      assert a + b == b;
    } else {
      assert (a + b)[1..] == a[1..] + b && (a + b)[0] == a[0];
      LeadingConcat(a[1..], b, k);
    }
    assert (a + b)[..|a|] == a && (a + b)[|a|..] == b;
  }

  lemma LeadingSplits(a: string, b: string, k: TokenClass)
    requires b != "" && !In(b[0], k)
    ensures Leading(a + b, k) == Leading(a, k)
    ensures Take(a + b, k) == Take(a, k) && Skip(a + b, k) == Skip(a, k) + b
  {
    var n := Leading(a, k);
    assert a + b == a[..n] + (a[n..] + b);
    assert a[n..] + b == "" || !In((a[n..] + b)[0], k);
    LeadingConcat(a[..n], a[n..] + b, k);
  }

  /** Leading white space does not matter. */
  lemma WhiteThen(a: string, b: string)
    requires AllOf(a, White)
    ensures Next(a + b) == Next(b)
  {
    var n := Leading(b, White);
    assert b == b[..n] + b[n..];
    assert a + b == (a + b[..n]) + b[n..];
    LeadingConcat(a + b[..n], b[n..], White);
  }

  lemma SeparatorSplits(w: string, b: string)
    requires b != "" && IsBreak(b[0])
    ensures ReadSeparator(w + b)
         == if ReadSeparator(w).NoSeparator? then NoSeparator else ValueAt(ReadSeparator(w).rest + b)
  {
    hide Leading, Skip;
    if w != "" {
      LeadingSplits(w, b, Space);
      var u := Skip(w, Space);
      assert (w + b)[0] == w[0];
      if u != "" {
        assert (u + b)[0] == u[0] && (u + b)[1..] == u[1..] + b;
        LeadingSplits(u[1..], b, Space);
      } else {
        assert u + b == b;
      }
    } else {
      assert w + b == b;
    }
  }

  /** The piece found at the start of `l`, when `b` follows `l`. */
  function Followed(p: Piece, b: string): Piece {
    match p
    case End => Next(b)
    case Bad => Bad
    case Comment(rest) => Comment(rest + b)
    case Entry(key, value, rest) => Entry(key, value, rest + b)
  }

  lemma PieceSplits(u: string, b: string)
    requires u != "" && b != "" && IsBreak(b[0])
    ensures FirstPiece(u + b) == Followed(FirstPiece(u), b)
  {
    hide Leading, ReadSeparator, AllOf, Skip, Take, Next;
    assert (u + b)[0] == u[0];
    LeadingSplits(u, b, InLine);
    LeadingSplits(u, b, Key);
    var w := Skip(u, Key);
    SeparatorSplits(w, b);
    if ReadSeparator(w).ValueAt? {
      LeadingSplits(ReadSeparator(w).rest, b, InLine);
    }
  }

  lemma NextSplits(l: string, b: string)
    requires b != "" && IsBreak(b[0])
    ensures Next(l + b) == Followed(Next(l), b)
  {
    hide FirstPiece, In, Skip, Take;
    var n := Leading(l, White);
    var a, u := l[..n], l[n..];
    assert a + u == l && l + b == a + (u + b);
    WhiteThen(a, u);
    WhiteThen(a, u + b);
    if u == "" {
      assert u + b == b;
      EmptyText();
    } else {
      NothingToSkip(u, White);
      assert (u + b)[0] == u[0];
      NothingToSkip(u + b, White);
      PieceSplits(u, b);
    }
  }

  /** What a parse that ended with `p` makes of the text that follows. */
  function Then(p: Parsed, rest: string): Parsed {
    if p.ok then Parse(rest, p.params) else p
  }

  /** A line break of either kind is where a parse can be cut in two, whatever stands on either side of it. */
  lemma {:induction false} ParseSplits(l: string, br: char, rest: string, m: Params)
    requires IsBreak(br)
    ensures Parse(l + ([br] + rest), m) == Then(Parse(l, m), rest)
    decreases |l|
  {
    hide Next;
    NextSplits(l, [br] + rest);
    match Next(l)
    case End =>
      WhiteThen([br], rest);
    case Bad =>
    case Comment(r) => ParseSplits(r, br, rest, m);
    case Entry(k, v, r) => ParseSplits(r, br, rest, m[k := v]);
  }

  // ---- Printing and parsing back ----

  lemma NothingToSkip(t: string, k: TokenClass)
    requires t != "" && !In(t[0], k)
    ensures Skip(t, k) == t
  {
  }

  /** The line of a printable parameter is read as that parameter. */
  lemma EntryIsRead(k: string, v: string, m: Params)
    requires PrintableEntry(k, v)
    ensures Parse(k + ([PARAM_SEPARATOR_SYMBOL] + v), m) == Parsed(true, m[k := v])
  {
    hide Leading, Skip, Take;
    var afterKey := [PARAM_SEPARATOR_SYMBOL] + v;
    var t := k + afterKey;
    assert t[0] == k[0];
    NothingToSkip(t, White);
    LeadingConcat(k, afterKey, Key);
    NothingToSkip(afterKey, Space);
    assert afterKey[1..] == v;
    NothingToSkip(v, Space);
    assert v + "" == v;
    LeadingConcat(v, "", InLine);
    assert Next(t) == Entry(k, v, "");
    EmptyText();
  }

  /** `acc` after the parameters of `m` named by `keys` are added to it. */
  function Added(keys: seq<string>, m: Params, acc: Params): (r: Params)
    requires forall k <- keys :: k in m
    ensures forall k :: k in r <==> k in acc || k in keys
    ensures forall k <- r :: r[k] == if k in keys then m[k] else acc[k]
  {
    if keys == [] then acc else Added(keys[1..], m, acc[keys[0] := m[keys[0]]])
  }

  lemma {:induction false} PrintedIsRead(keys: seq<string>, m: Params, acc: Params)
    requires Printable(m) && forall k <- keys :: k in m
    ensures Parse(Print(keys, m), acc) == Parsed(true, Added(keys, m, acc))
    ensures NUL !in Print(keys, m)
  {
    hide Next, PrintableEntry;
    if keys == [] {
      assert Next("") == End by { EmptyText(); }
    } else {
      var k, v := keys[0], m[keys[0]];
      var rest := Print(keys[1..], m);
      assert Print(keys, m) == (k + ([PARAM_SEPARATOR_SYMBOL] + v)) + ("\n" + rest);
      EntryIsRead(k, v, acc);
      ParseSplits(k + ([PARAM_SEPARATOR_SYMBOL] + v), '\n', rest, acc);
      PrintedIsRead(keys[1..], m, acc[k := v]);
      EntryHasNoNul(k, v);
    }
  }

  lemma EmptyText()
    ensures Next("") == End
  {
  }

  lemma EntryHasNoNul(k: string, v: string)
    requires PrintableEntry(k, v)
    ensures NUL !in PrintEntry(k, v)
  {
    forall i | 0 <= i < |k| ensures k[i] != NUL {
      assert In(k[i], Key);
    }
  }

  lemma SlicesAreClean(t: string, k: TokenClass)
    requires NUL !in t
    ensures NUL !in Skip(t, k) && NUL !in Take(t, k) && AllOf(Take(t, k), k)
    ensures t != "" && In(t[0], k) ==> Take(t, k) != "" && Take(t, k)[0] == t[0]
    ensures Skip(t, k) != "" ==> !In(Skip(t, k)[0], k)
  {
    hide In, AllOf;
    var n := Leading(t, k);
    assert t == t[..n] + t[n..];
  }

  lemma SeparatorIsClean(w: string)
    requires NUL !in w && ReadSeparator(w).ValueAt?
    ensures NUL !in ReadSeparator(w).rest
    ensures ReadSeparator(w).rest != "" ==> !IsSpace(ReadSeparator(w).rest[0])
  {
    hide Skip, Take;
    SlicesAreClean(w, Space);
    SlicesAreClean(Skip(w, Space)[1..], Space);
  }

  /** Everything the reader adds can be printed. */
  lemma NextIsPrintable(t: string)
    requires NUL !in t
    ensures Next(t).Entry? ==> PrintableEntry(Next(t).key, Next(t).value)
    ensures Next(t).Entry? || Next(t).Comment? ==> NUL !in Next(t).rest
  {
    hide Leading, Skip, Take, ReadSeparator, AllOf;
    var u := Skip(t, White);
    SlicesAreClean(t, White);
    SlicesAreClean(u, InLine);
    SlicesAreClean(u, Key);
    var w := Skip(u, Key);
    if ReadSeparator(w).ValueAt? {
      SeparatorIsClean(w);
      SlicesAreClean(ReadSeparator(w).rest, InLine);
      FirstOfValue(ReadSeparator(w).rest);
    }
  }

  lemma FirstOfValue(v: string)
    ensures Take(v, InLine) != "" ==> v != "" && Take(v, InLine)[0] == v[0]
  {
  }

  lemma {:induction false} ParsedIsPrintable(t: string, m: Params)
    requires NUL !in t && Printable(m)
    ensures Printable(Parse(t, m).params)
    decreases |t|
  {
    hide Next, PrintableEntry;
    NextIsPrintable(t);
    match Next(t)
    case End =>
    case Bad =>
    case Comment(rest) => ParsedIsPrintable(rest, m);
    case Entry(k, v, rest) => ParsedIsPrintable(rest, m[k := v]);
  }

  lemma NothingIsPrintable()
    ensures Printable(map[])
  {
  }

  lemma AddedToNothing(keys: seq<string>, m: Params)
    requires Lists(keys, m)
    ensures Added(keys, m, map[]) == m
  {
  }

  /** Reading what was printed gives the map back if and only if every key is a non-empty word in the key
      alphabet and every value is a non-empty line that starts with no blank. */
  lemma RoundTrip(keys: seq<string>, m: Params)
    requires Lists(keys, m)
    ensures Parse(UpToNul(Print(keys, m)), map[]) == Parsed(true, m) <==> Printable(m)
  {
    hide Parse, PrintableEntry, Print, UpToNul, Printable;
    if Printable(m) {
      PrintedIsRead(keys, m, map[]);
      AddedToNothing(keys, m);
    }
    NothingIsPrintable();
    ParsedIsPrintable(UpToNul(Print(keys, m)), map[]);
  }

  /** Any map that was read without error is a fixpoint of printing and reading back. */
  lemma ReadIsFixpoint(t: string, keys: seq<string>)
    requires Lists(keys, Parse(UpToNul(t), map[]).params)
    ensures Parse(UpToNul(Print(keys, Parse(UpToNul(t), map[]).params)), map[])
         == Parsed(true, Parse(UpToNul(t), map[]).params)
  {
    hide Parse, PrintableEntry, Print;
    ParsedIsPrintable(UpToNul(t), map[]);
    RoundTrip(keys, Parse(UpToNul(t), map[]).params);
  }

  // ---- Reading line by line ----

  function LineLength(t: string): (n: nat)
    ensures n <= |t| && '\n' !in t[..n]
    ensures n < |t| ==> t[n] == '\n'
  {
    if t == "" || t[0] == '\n' then 0
    else
      var n := 1 + LineLength(t[1..]);
      assert t[..n] == [t[0]] + t[1..][..n - 1];
      n
  }

  /** The text after the first line of `t` and its line break. */
  function AfterLine(t: string): (u: string)
    ensures t != "" ==> |u| < |t|
  {
    var n := LineLength(t);
    if n < |t| then t[n + 1..] else ""
  }

  /** The lines std::getline delivers: the last one needs no line break, and an empty one after the last
      line break is not delivered. */
  function Lines(t: string): seq<string>
    decreases |t|
  {
    if t == "" then [] else [t[..LineLength(t)]] + Lines(AfterLine(t))
  }

  function ReadLines(lines: seq<string>, m: Params): Parsed {
    if lines == [] then Parsed(true, m)
    else
      var p := Parse(UpToNul(lines[0]), m);
      if p.ok then ReadLines(lines[1..], p.params) else p
  }

  /** The text without what follows a NUL in the same line. */
  function CutLines(t: string): (u: string)
    ensures NUL !in t ==> u == t
  {
    if t == "" then ""
    else
      var n := LineLength(t);
      if n < |t| then
        assert t == t[..n] + ("\n" + t[n + 1..]);
        UpToNul(t[..n]) + ("\n" + CutLines(t[n + 1..]))
      else UpToNul(t)
  }

  /** Reading a file line by line gives what reading its text in one go would give, if no line holds a NUL;
      a NUL only hides the rest of its own line. */
  lemma {:induction false} LineByLine(t: string, m: Params)
    ensures ReadLines(Lines(t), m) == Parse(CutLines(t), m)
    ensures NUL !in t ==> ReadLines(Lines(t), m) == Parse(t, m)
    decreases |t|
  {
    hide Next, LineLength, UpToNul;
    EmptyText();
    if t != "" {
      var n := LineLength(t);
      var line := UpToNul(t[..n]);
      var p := Parse(line, m);
      assert Lines(t)[0] == t[..n] && Lines(t)[1..] == Lines(AfterLine(t));
      LineByLine(AfterLine(t), p.params);
      if n < |t| {
        ParseSplits(line, '\n', CutLines(t[n + 1..]), m);
      } else {
        assert t[..n] == t;
      }
    }
  }

  // ---- The three procedures of the source ----

  lemma LeadingAt(t: string, i: nat, j: nat, k: TokenClass)
    requires i <= j <= |t| && AllOf(t[i..j], k) && (j < |t| ==> !In(t[j], k))
    ensures Skip(t[i..], k) == t[j..] && Take(t[i..], k) == t[i..j]
  {
    assert t[i..] == t[i..j] + t[j..];
    LeadingConcat(t[i..j], t[j..], k);
  }

  lemma UpToNulEnds(s: string)
    requires NUL in s
    ensures |UpToNul(s)| < |s| && s[|UpToNul(s)|] == NUL
    ensures forall i :: 0 <= i < |UpToNul(s)| ==> s[i] == UpToNul(s)[i] && s[i] != NUL
  {
  }

  /** The scanning loops of configReadString: pass characters of class `k` up to the terminating NUL. */
  method Scan(s: string, start: nat, k: TokenClass) returns (i: nat)
    requires NUL in s && start <= |UpToNul(s)|
    ensures start <= i <= |UpToNul(s)| && i < |s| && (s[i] == NUL || !In(s[i], k))
    ensures Skip(UpToNul(s)[start..], k) == UpToNul(s)[i..]
    ensures Take(UpToNul(s)[start..], k) == s[start..i]
  {
    hide Leading, Skip, Take, UpToNul;
    ghost var t := UpToNul(s);
    UpToNulEnds(s);
    i := start;
    while s[i] != NUL && In(s[i], k)
      invariant start <= i <= |t|
      invariant AllOf(t[start..i], k)
      decreases |t| - i
    {
      assert s[i] == t[i];
      assert t[start..i + 1] == t[start..i] + [t[i]];
      i := i + 1;
    }
    assert i < |t| ==> t[i] == s[i];
    assert t[start..i] == s[start..i];
    LeadingAt(t, start, i, k);
  }

  /** The loop that should remove trailing blanks. It tests the character after the value, so it steps back
      only over blanks that start there. */
  method TrimBlanks(s: string, valueStart: nat, end: nat) returns (valueEnd: nat)
    requires valueStart <= end < |s|
    ensures valueStart <= valueEnd <= end
    ensures forall k :: valueEnd < k <= end ==> IsSpace(s[k])
    ensures valueEnd == valueStart || !IsSpace(s[valueEnd])
  {
    valueEnd := end;
    while valueEnd > valueStart && IsSpace(s[valueEnd])
      invariant valueStart <= valueEnd <= end
      invariant forall k :: valueEnd < k <= end ==> IsSpace(s[k])
    {
      valueEnd := valueEnd - 1;
    }
  }

  /** The branch of configReadString that reads `key = value`: the key, the blanks around the separator and
      the value, or nothing if one of them is missing. */
  method ReadEntry(s: string, start: nat) returns (ok: bool, key: string, value: string, i: nat)
    requires NUL in s && start < |UpToNul(s)| && IsKey(s[start])
    ensures start < i <= |UpToNul(s)|
    ensures Next(UpToNul(s)[start..]) == if ok then Entry(key, value, UpToNul(s)[i..]) else Bad
  {
    hide Leading, Skip, Take, UpToNul, AllOf;
    ghost var t := UpToNul(s);
    UpToNulEnds(s);
    assert t[start..][0] == s[start];
    NothingToSkip(t[start..], White);
    i := Scan(s, start, Key);
    assert s[i] != NUL ==> t[i..][0] == s[i];
    if !IsSpace(s[i]) && s[i] != PARAM_SEPARATOR_SYMBOL {
      return false, "", "", i;
    }
    var keyEnd := i;
    i := Scan(s, i, Space);
    assert s[i] != NUL ==> t[i..][0] == s[i];
    if s[i] != PARAM_SEPARATOR_SYMBOL {
      return false, "", "", i;
    }
    i := i + 1;
    assert t[i - 1..][1..] == t[i..];
    i := Scan(s, i, Space);
    assert ReadSeparator(t[keyEnd..]) == ValueAt(t[i..]);
    if s[i] == NUL {
      EmptyTake(InLine);
      return false, "", "", i;
    }
    var valueStart := i;
    i := Scan(s, i, InLine);
    var valueEnd := TrimBlanks(s, valueStart, i);
    if valueEnd <= valueStart {
      return false, "", "", i;
    }
    ok, key, value := true, s[start..keyEnd], s[valueStart..valueEnd];
  }

  lemma EmptyTake(k: TokenClass)
    ensures Take("", k) == ""
  {
  }

  /** configReadString over a C string: everything from the first NUL of `s` on is ignored. */
  method ConfigReadString(s: string, params: Params) returns (r: Parsed)
    requires NUL in s
    ensures r == Parse(UpToNul(s), params)
  {
    hide Leading, Skip, Take, UpToNul, ReadSeparator;
    ghost var t := UpToNul(s);
    UpToNulEnds(s);
    var i := 0;
    var m := params;
    assert t[0..] == t;
    while true
      invariant i <= |t|
      invariant Parse(t[i..], m) == Parse(t, params)
      decreases |t| - i
    {
      ghost var before := i;
      i := Scan(s, i, White);
      SkipTwice(t[before..]);
      assert Next(t[before..]) == Next(t[i..]);
      if s[i] == NUL {
        return Parsed(true, m);
      }
      assert t[i..][0] == s[i];
      if s[i] == COMMENT_SYMBOL {
        i := Scan(s, i, InLine);
        assert Next(t[before..]) == Comment(t[i..]);
      } else if IsKey(s[i]) {
        var ok, key, value;
        ok, key, value, i := ReadEntry(s, i);
        if !ok {
          return Parsed(false, m);
        }
        m := m[key := value];
      } else {
        return Parsed(false, m);
      }
    }
  }

  lemma SkipTwice(t: string)
    ensures Skip(Skip(t, White), White) == Skip(t, White)
  {
  }

  /** A file that may fail to open. */
  datatype File = Missing | Opened(text: string)

  method ConfigReadFile(file: File, params: Params) returns (r: Parsed)
    ensures file.Missing? ==> r == Parsed(false, params)
    ensures file.Opened? ==> r == ReadLines(Lines(file.text), params)
  {
    hide Parse, LineLength, UpToNul;
    if file.Missing? {
      return Parsed(false, params);
    }
    var text := file.text;
    var m := params;
    while text != ""
      invariant ReadLines(Lines(text), m) == ReadLines(Lines(file.text), params)
      decreases |text|
    {
      var n := LineLength(text);
      var line := text[..n];
      assert Lines(text)[0] == line && Lines(text)[1..] == Lines(AfterLine(text));
      assert UpToNul(line + [NUL]) == UpToNul(line) by { TerminatorIsInvisible(line); }
      var p := ConfigReadString(line + [NUL], m);
      if !p.ok {
        return p;
      }
      m := p.params;
      text := AfterLine(text);
    }
    return Parsed(true, m);
  }

  lemma TerminatorIsInvisible(s: string)
    ensures UpToNul(s + [NUL]) == UpToNul(s)
  {
    if s != "" {
      assert (s + [NUL])[1..] == s[1..] + [NUL];
    }
  }

  /** configToString, over the keys in the order the map delivers them. */
  method ConfigToString(keys: seq<string>, params: Params) returns (s: string)
    requires Lists(keys, params)
    ensures s == Print(keys, params)
  {
    s := "";
    assert keys[0..] == keys;
    for i := 0 to |keys|
      invariant s + Print(keys[i..], params) == Print(keys, params)
    {
      var line := keys[i] + ([PARAM_SEPARATOR_SYMBOL] + (params[keys[i]] + "\n"));
      PrintFrom(keys, i, params, s);
      s := s + line;
    }
    assert s + "" == s;
  }

  lemma PrintFrom(keys: seq<string>, i: nat, m: Params, s: string)
    requires i < |keys| && forall k <- keys :: k in m
    ensures s + Print(keys[i..], m) == (s + PrintEntry(keys[i], m[keys[i]])) + Print(keys[i + 1..], m)
  {
    assert keys[i..][1..] == keys[i + 1..];
  }
}
