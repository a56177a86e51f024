/** Which configuration texts are read, and as what: lines that are blank, comments or parameters, in any layout
    (src/utils/ConfigReader.cpp). */
module ConfigGrammar {
  import opened CString
  import opened ConfigReader
  import HttpSyntax

  /** A line as its author laid it out. */
  datatype Line =
    | BlankLine(indent: string)
    | CommentLine(indent: string, comment: string)
    | ParamLine(indent: string, key: string, before: string, after: string, value: string)

  predicate ValidLine(line: Line) {
    AllOf(line.indent, Space) &&
    match line
    case BlankLine(_) => true
    case CommentLine(_, comment) => AllOf(comment, InLine)
    case ParamLine(_, key, before, after, value) =>
      && key != "" && AllOf(key, Key)
      && AllOf(before, Space) && AllOf(after, Space)
      && value != "" && AllOf(value, InLine) && !IsSpace(value[0])
  }

  function Text(line: Line): string {
    match line
    case BlankLine(indent) => indent
    case CommentLine(indent, comment) => indent + ("#" + comment)
    case ParamLine(indent, key, before, after, value) => indent + (key + (before + ("=" + (after + value))))
  }

  /** A later parameter of the same name overrides an earlier one. */
  function Apply(line: Line, m: Params): Params {
    if line.ParamLine? then m[line.key := line.value] else m
  }

  lemma SpaceIsWhite(s: string)
    requires AllOf(s, Space)
    ensures AllOf(s, White) && AllOf(s, InLine)
  {
    forall i | 0 <= i < |s| ensures In(s[i], White) && In(s[i], InLine) {
      assert In(s[i], Space);
    }
  }

  lemma WholeLine(s: string)
    requires AllOf(s, InLine)
    ensures Take(s, InLine) == s && Skip(s, InLine) == ""
  {
    assert s + "" == s;
    LeadingConcat(s, "", InLine);
  }

  lemma ParamIsRead(key: string, before: string, after: string, value: string)
    requires ValidLine(ParamLine("", key, before, after, value))
    ensures FirstPiece(key + (before + ("=" + (after + value)))) == Entry(key, value, "")
  {
    hide Leading, Skip, Take;
    var afterKey := before + ("=" + (after + value));
    assert afterKey[0] == if before == "" then '=' else before[0];
    assert before != "" ==> In(before[0], Space);
    assert In(key[0], Key);
    LeadingConcat(key, afterKey, Key);
    LeadingConcat(before, "=" + (after + value), Space);
    assert ("=" + (after + value))[1..] == after + value;
    LeadingConcat(after, value, Space);
    WholeLine(value);
  }

  /** Every line is read as what its author meant. */
  lemma LineIsRead(line: Line, m: Params)
    requires ValidLine(line)
    ensures Parse(Text(line), m) == Parsed(true, Apply(line, m))
  {
    hide Leading, Skip, Take, FirstPiece;
    SpaceIsWhite(line.indent);
    EmptyText();
    match line
    case BlankLine(indent) =>
      assert indent + "" == indent;
      WhiteThen(indent, "");
    case CommentLine(indent, comment) =>
      WhiteThen(indent, "#" + comment);
      NothingToSkip("#" + comment, White);
      CommentIsRead(comment);
    case ParamLine(indent, key, before, after, value) =>
      var t := key + (before + ("=" + (after + value)));
      WhiteThen(indent, t);
      assert t[0] == key[0] && In(key[0], Key);
      NothingToSkip(t, White);
      ParamIsRead(key, before, after, value);
  }

  lemma CommentIsRead(comment: string)
    requires AllOf(comment, InLine)
    ensures FirstPiece("#" + comment) == Comment("")
  {
    forall i | 0 <= i < |"#" + comment| ensures In(("#" + comment)[i], InLine) {
    }
    WholeLine("#" + comment);
  }

  /** Keys are made of letters, dots and all digits but the nine. */
  lemma NineIsNoKey(c: char)
    ensures IsKey(c) <==> HttpSyntax.IsLetter(c) || (HttpSyntax.IsDigit(c) && c != '9') || c == '.'
  {
  }

  ghost predicate GoodLine(t: string) {
    exists line :: ValidLine(line) && Text(line) == t
  }

  lemma KeyParts(u: string) returns (line: Line)
    requires AllOf(u, InLine) && FirstPiece(u).Entry?
    ensures line.ParamLine? && line.indent == "" && ValidLine(line) && Text(line) == u
  {
    hide Leading, AllOf, ValidLine, Text;
    var key, w := Take(u, Key), Skip(u, Key);
    TakeSkip(u, Key);
    FirstTaken(u, Key);
    var before, v := Take(w, Space), Skip(w, Space);
    TakeSkip(w, Space);
    var after, value := Take(v[1..], Space), Skip(v[1..], Space);
    TakeSkip(v[1..], Space);
    SliceInLine(u, w, v);
    assert v == "=" + v[1..];
    WholeLine(value);
    SkippedStart(v[1..], Space);
    line := ParamLineIs(key, before, after, value, u);
  }

  lemma ParamLineIs(key: string, before: string, after: string, value: string, u: string)
    returns (line: Line)
    requires key != "" && AllOf(key, Key) && AllOf(before, Space) && AllOf(after, Space)
    requires value != "" && AllOf(value, InLine) && !IsSpace(value[0])
    requires u == key + (before + ("=" + (after + value)))
    ensures line.ParamLine? && line.indent == "" && ValidLine(line) && Text(line) == u
  {
    hide AllOf;
    NothingIn();
    line := ParamLine("", key, before, after, value);
    assert "" + u == u;
  }

  lemma NothingIn()
    ensures AllOf("", Space)
  {
  }

  lemma TakeSkip(t: string, k: TokenClass)
    ensures t == Take(t, k) + Skip(t, k) && AllOf(Take(t, k), k)
    ensures AllOf(t, InLine) ==> AllOf(Skip(t, k), InLine)
  {
    var n := Leading(t, k);
    assert t == t[..n] + t[n..];
    if AllOf(t, InLine) {
      forall i | 0 <= i < |t[n..]| ensures In(t[n..][i], InLine) {
        assert In(t[n + i], InLine);
      }
    }
  }

  lemma FirstTaken(t: string, k: TokenClass)
    requires t != "" && In(t[0], k)
    ensures Take(t, k) != ""
  {
  }

  lemma SkippedStart(t: string, k: TokenClass)
    ensures Skip(t, k) != "" ==> !In(Skip(t, k)[0], k)
  {
  }

  /** The rests of a text without line breaks have none. */
  lemma SliceInLine(u: string, w: string, v: string)
    requires AllOf(u, InLine) && w == Skip(u, Key) && v == Skip(w, Space)
    ensures AllOf(w, InLine) && AllOf(v, InLine)
    ensures v != "" ==> AllOf(v[1..], InLine) && AllOf(Skip(v[1..], Space), InLine)
  {
    hide Leading;
    TakeSkip(u, Key);
    TakeSkip(w, Space);
    if v != "" {
      forall i | 0 <= i < |v[1..]| ensures In(v[1..][i], InLine) {
        assert In(v[i + 1], InLine);
      }
      TakeSkip(v[1..], Space);
    }
  }

  lemma IndentIsSpace(t: string)
    requires AllOf(t, InLine)
    ensures AllOf(Take(t, White), Space) && AllOf(Skip(t, White), InLine)
  {
    TakeSkip(t, White);
    var n := Leading(t, White);
    forall i | 0 <= i < n ensures In(t[..n][i], Space) {
      assert In(t[..n][i], White) && In(t[i], InLine);
    }
  }

  lemma Indented(line: Line, indent: string, u: string)
    requires ValidLine(line) && line.indent == "" && Text(line) == u && AllOf(indent, Space)
    ensures GoodLine(indent + u)
  {
    hide AllOf;
    var line' := line.(indent := indent);
    match line
    case BlankLine(_) => assert Text(line') == indent + u;
    case CommentLine(_, comment) => assert Text(line') == indent + u;
    case ParamLine(_, key, before, after, value) => assert Text(line') == indent + u;
    assert ValidLine(line');
  }

  lemma ReadLineIsGood(t: string, m: Params)
    requires AllOf(t, InLine) && Parse(t, m).ok
    ensures GoodLine(t)
  {
    hide Leading, AllOf, ValidLine, Text, GoodLine;
    TakeSkip(t, White);
    IndentIsSpace(t);
    var indent, u := Take(t, White), Skip(t, White);
    SkippedStart(t, White);
    if u == "" {
      var line := BlankIs();
      Indented(line, indent, u);
    } else if u[0] == COMMENT_SYMBOL {
      var line := CommentIs(u);
      Indented(line, indent, u);
    } else {
      var line := KeyParts(u);
      Indented(line, indent, u);
    }
  }

  lemma BlankIs() returns (line: Line)
    ensures ValidLine(line) && line.indent == "" && Text(line) == ""
  {
    line := BlankLine("");
  }

  lemma CommentIs(u: string) returns (line: Line)
    requires u != "" && u[0] == COMMENT_SYMBOL && AllOf(u, InLine)
    ensures ValidLine(line) && line.indent == "" && Text(line) == u
  {
    line := CommentLine("", u[1..]);
    assert u == "#" + u[1..];
    forall i | 0 <= i < |u[1..]| ensures In(u[1..][i], InLine) {
      assert In(u[i + 1], InLine);
    }
  }

  lemma RefusedAddsNothing(t: string, m: Params)
    requires AllOf(t, InLine) && !Parse(t, m).ok
    ensures Parse(t, m).params == m
  {
    hide Leading, Take;
    TakeSkip(t, White);
    var u := Skip(t, White);
    EmptyText();
    if FirstPiece(u).Comment? {
      WholeLine(u);
    } else if FirstPiece(u).Entry? {
      SliceInLine(u, Skip(u, Key), Skip(Skip(u, Key), Space));
      WholeLine(Skip(Skip(Skip(u, Key), Space)[1..], Space));
    }
  }

  // ---- Whole texts ----

  function BreakAt(t: string): (n: nat)
    ensures n <= |t| && AllOf(t[..n], InLine)
    ensures n < |t| ==> IsBreak(t[n])
  {
    Leading(t, InLine)
  }

  /** The pieces of a text between its line breaks, of either kind. */
  function Pieces(t: string): (ps: seq<string>)
    ensures ps != []
    decreases |t|
  {
    var n := BreakAt(t);
    if n < |t| then [t[..n]] + Pieces(t[n + 1..]) else [t]
  }

  lemma LastPiece(t: string)
    ensures BreakAt(t) == |t| ==> AllOf(t, InLine)
  {
    if BreakAt(t) == |t| {
      assert t[..|t|] == t;
    }
  }

  ghost predicate AllGood(ps: seq<string>) {
    forall i :: 0 <= i < |ps| ==> GoodLine(ps[i])
  }

  /** A text is read without error if and only if every one of its lines is blank, a comment or a parameter; the first
      other line stops the reading. */
  lemma {:induction false} TextExactly(t: string, m: Params)
    ensures Parse(t, m).ok <==> AllGood(Pieces(t))
    decreases |t|
  {
    hide Parse, GoodLine, BreakAt, AllOf, AllGood;
    var n := BreakAt(t);
    var ps := Pieces(t);
    if n < |t| {
      var l, rest := t[..n], t[n + 1..];
      assert t == l + ([t[n]] + rest);
      ParseSplits(l, t[n], rest, m);
      LineExactly(l, m);
      TextExactly(rest, Parse(l, m).params);
      assert ps == [l] + Pieces(rest);
      AllOfFirst(l, Pieces(rest));
    } else {
      LastPiece(t);
      LineExactly(t, m);
      OnlyOne(Pieces(t), t);
    }
  }

  lemma OnlyOne(ps: seq<string>, t: string)
    requires ps == [t]
    ensures AllGood(ps) <==> GoodLine(t)
  {
    hide GoodLine;
    assert ps[0] == t;
  }

  lemma AllOfFirst(l: string, rest: seq<string>)
    ensures AllGood([l] + rest) <==> GoodLine(l) && AllGood(rest)
  {
    hide GoodLine;
    var ps := [l] + rest;
    if AllGood(ps) {
      assert GoodLine(ps[0]);
      forall i | 0 <= i < |rest| ensures GoodLine(rest[i]) {
        assert rest[i] == ps[i + 1];
      }
    }
  }

  /** A line is read if and only if it is blank, a comment or a parameter in some layout; and one that is refused adds
      nothing. */
  lemma LineExactly(t: string, m: Params)
    requires AllOf(t, InLine)
    ensures Parse(t, m).ok <==> GoodLine(t)
    ensures !Parse(t, m).ok ==> Parse(t, m).params == m
  {
    hide Parse, AllOf, ValidLine, Text;
    if Parse(t, m).ok {
      ReadLineIsGood(t, m);
    } else {
      RefusedAddsNothing(t, m);
    }
    if GoodLine(t) {
      var line :| ValidLine(line) && Text(line) == t;
      LineIsRead(line, m);
    }
  }

  /** Lines, each followed by a line break of either kind. */
  function Document(lines: seq<Line>, breaks: string): string
    requires |breaks| == |lines|
  {
    if lines == [] then "" else Text(lines[0]) + ([breaks[0]] + Document(lines[1..], breaks[1..]))
  }

  function ApplyAll(lines: seq<Line>, m: Params): Params {
    if lines == [] then m else ApplyAll(lines[1..], Apply(lines[0], m))
  }

  /** A document is read as its parameters, in order; comments, blank lines and layout do not matter. */
  lemma {:induction false} DocumentIsRead(lines: seq<Line>, breaks: string, m: Params)
    requires |breaks| == |lines| && (forall i :: 0 <= i < |lines| ==> ValidLine(lines[i]) && IsBreak(breaks[i]))
    ensures Parse(Document(lines, breaks), m) == Parsed(true, ApplyAll(lines, m))
    decreases |lines|
  {
    hide Next, ValidLine, Text, Apply;
    EmptyText();
    if lines != [] {
      assert ValidLine(lines[0]) && IsBreak(breaks[0]);
      LineIsRead(lines[0], m);
      ParseSplits(Text(lines[0]), breaks[0], Document(lines[1..], breaks[1..]), m);
      DocumentIsRead(lines[1..], breaks[1..], Apply(lines[0], m));
    }
  }
}
