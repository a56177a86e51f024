/** How the parser compares header names, and what that does to the body length and to lookups. It compares only
    as many characters as the name in the message has (src/HttpRequest.cpp), so a proper prefix matches as well. */
module HttpNames {
  import opened HttpSyntax
  import opened HttpMachine
  import opened Decimals

  /** A header as its author wrote it: the name, a colon and blanks, the value, the end of the line. */
  datatype HeaderText = HeaderText(key: string, sep: string, value: string, eol: string)

  /** The names are equal up to case, as section 3.2 of RFC 7230 has it. */
  predicate SameName(name: string, key: string) {
    |key| == |name| && MatchesName(name, key)
  }

  /** The same letter in upper or lower case. */
  predicate SameLetter(a: char, b: char) {
    a == b || (IsLetter(a) && IsLetter(b) && (a as int - b as int == 32 || b as int - a as int == 32))
  }

  /** Upper and lower case do not matter, and nothing else is taken for the same. */
  lemma CaseDoesNotMatter(name: string, key: string)
    ensures MatchesName(name, key) <==>
              |key| <= |name| && forall i :: 0 <= i < |key| ==> SameLetter(name[i], key[i])
  {
    forall a: char, b: char ensures Lower(a) == Lower(b) <==> SameLetter(a, b) {
    }
  }

  predicate Abbreviates(name: string, key: string) {
    |key| < |name| && MatchesName(name, key)
  }

  // ---- The length of the body ----

  /** The parser takes the header for the body length. */
  predicate Taken(h: HeaderText) {
    MatchesName(CONTENT_LENGTH, h.key)
  }

  predicate Named(h: HeaderText) {
    SameName(CONTENT_LENGTH, h.key)
  }

  /** The parser refuses a body length of more characters. */
  predicate TooLong(h: HeaderText) {
    Taken(h) && |h.value| > MAX_LENGTH_CHARS
  }

  predicate AnyTooLong(hs: seq<HeaderText>) {
    exists i :: 0 <= i < |hs| && TooLong(hs[i])
  }

  /** The body length as the parser sees it; a later header overrides an earlier one. */
  function AnnouncedLength(hs: seq<HeaderText>, otherwise: int): int {
    if hs == [] then otherwise
    else AnnouncedLength(hs[1..], if Taken(hs[0]) then Atoi(hs[0].value) else otherwise)
  }

  /** The number that a value stands for in decimal. A value that is not one or more digits is an error in the
      standard; the parser reads something into it, and only then that is taken here. */
  function RfcNumber(value: string): int {
    if IsNumber(value) then Value(value) else Atoi(value)
  }

  lemma RfcNumberIsRead(value: string)
    ensures RfcNumber(value) == Atoi(value)
  {
    if IsNumber(value) {
      NumberIsRead(value);
    }
  }

  /** The body length of section 3.3.2 of RFC 7230, where only the header of that very name counts. */
  function RfcLength(hs: seq<HeaderText>, otherwise: int): int {
    if hs == [] then otherwise
    else RfcLength(hs[1..], if Named(hs[0]) then RfcNumber(hs[0].value) else otherwise)
  }

  predicate LastTaken(hs: seq<HeaderText>, i: nat) {
    i < |hs| && Taken(hs[i]) && forall j :: i < j < |hs| ==> !Taken(hs[j])
  }

  /** The last header that the parser takes for the body length has another name and announces something else. */
  predicate Misled(hs: seq<HeaderText>) {
    exists i :: 0 <= i < |hs| && LastTaken(hs, i) && !Named(hs[i]) && RfcNumber(hs[i].value) != RfcLength(hs, 0)
  }

  lemma {:induction false} NoneTaken(hs: seq<HeaderText>, otherwise: int)
    requires forall j :: 0 <= j < |hs| ==> !Taken(hs[j])
    ensures AnnouncedLength(hs, otherwise) == otherwise && RfcLength(hs, otherwise) == otherwise
  {
    if hs != [] {
      NoneTaken(hs[1..], otherwise);
    }
  }

  lemma {:induction false} LastCounts(hs: seq<HeaderText>, otherwise: int, i: nat)
    requires LastTaken(hs, i)
    ensures AnnouncedLength(hs, otherwise) == Atoi(hs[i].value)
    ensures Named(hs[i]) ==> RfcLength(hs, otherwise) == Atoi(hs[i].value)
  {
    hide Taken, Named, Atoi, RfcNumber;
    if i > 0 {
      assert LastTaken(hs[1..], i - 1);
      LastCounts(hs[1..], if Taken(hs[0]) then Atoi(hs[0].value) else otherwise, i - 1);
      LastCounts(hs[1..], if Named(hs[0]) then RfcNumber(hs[0].value) else otherwise, i - 1);
    } else {
      LastIsFirst(hs, otherwise);
    }
  }

  lemma LastIsFirst(hs: seq<HeaderText>, otherwise: int)
    requires LastTaken(hs, 0)
    ensures AnnouncedLength(hs, otherwise) == Atoi(hs[0].value)
    ensures Named(hs[0]) ==> RfcLength(hs, otherwise) == Atoi(hs[0].value)
  {
    hide Taken, Atoi, RfcNumber;
    RfcNumberIsRead(hs[0].value);
    NoneTaken(hs[1..], Atoi(hs[0].value));
  }

  lemma {:induction false} FindLastTaken(hs: seq<HeaderText>) returns (i: nat)
    ensures i == |hs| || LastTaken(hs, i)
    ensures i == |hs| ==> forall j :: 0 <= j < |hs| ==> !Taken(hs[j])
  {
    hide Taken;
    i := |hs|;
    if hs != [] {
      var j := FindLastTaken(hs[1..]);
      if j < |hs| - 1 {
        i := j + 1;
        assert forall k :: i < k < |hs| ==> hs[k] == hs[1..][k - 1];
      } else {
        assert forall k :: 0 < k < |hs| ==> hs[k] == hs[1..][k - 1];
        i := if Taken(hs[0]) then 0 else |hs|;
      }
    }
  }

  lemma OnlyOneLast(hs: seq<HeaderText>, i: nat, j: nat)
    requires LastTaken(hs, i) && LastTaken(hs, j)
    ensures i == j
  {
    hide Taken;
  }

  /** The parser and the standard agree about the length of the body if and only if the parser is not misled. */
  lemma AnnouncedExactly(hs: seq<HeaderText>)
    ensures AnnouncedLength(hs, 0) == RfcLength(hs, 0) <==> !Misled(hs)
  {
    hide Taken, Named, Atoi, RfcNumber, AnnouncedLength, RfcLength;
    var i := FindLastTaken(hs);
    if i < |hs| {
      RfcNumberIsRead(hs[i].value);
      LastCounts(hs, 0, i);
      forall j | 0 <= j < |hs| && LastTaken(hs, j) ensures j == i {
        OnlyOneLast(hs, i, j);
      }
    } else {
      NoneTaken(hs, 0);
    }
  }

  /** A last header of the very name that holds a number in decimal announces that number, and nothing misleads. */
  lemma NumberAnnounced(hs: seq<HeaderText>, i: nat)
    requires LastTaken(hs, i) && Named(hs[i]) && IsNumber(hs[i].value)
    ensures RfcLength(hs, 0) == AnnouncedLength(hs, 0) == Value(hs[i].value) && !Misled(hs)
  {
    hide Taken, Named, Atoi, AnnouncedLength, RfcLength, Value;
    NumberIsRead(hs[i].value);
    LastCounts(hs, 0, i);
    AnnouncedExactly(hs);
  }

  // ---- Looking a header up ----

  /** The header that a lookup finds, or the number of headers. */
  function FirstFound(name: string, keys: seq<string>): (i: nat)
    ensures i <= |keys|
  {
    if keys == [] || MatchesName(name, keys[0]) then 0 else 1 + FirstFound(name, keys[1..])
  }

  /** The first header of that very name, or the number of headers. */
  function FirstNamed(name: string, keys: seq<string>): (i: nat)
    ensures i <= |keys|
  {
    if keys == [] || SameName(name, keys[0]) then 0 else 1 + FirstNamed(name, keys[1..])
  }

  lemma {:induction false} FirstFoundIs(name: string, keys: seq<string>, i: nat)
    requires i <= |keys| && (i < |keys| ==> MatchesName(name, keys[i]))
    requires forall j :: 0 <= j < i ==> !MatchesName(name, keys[j])
    ensures FirstFound(name, keys) == i
  {
    hide MatchesName;
    if i > 0 {
      FirstFoundIs(name, keys[1..], i - 1);
    }
  }

  /** A lookup finds what it should, the first header of that very name or none if there is none, if and only if
      no header in front of it has a name that abbreviates it. */
  lemma {:induction false} LookupExactly(name: string, keys: seq<string>)
    ensures FirstFound(name, keys) == FirstNamed(name, keys) <==>
              forall j :: 0 <= j < FirstNamed(name, keys) ==> !Abbreviates(name, keys[j])
  {
    hide Lower;
    if keys != [] {
      var rest, n := keys[1..], FirstNamed(name, keys);
      LookupExactly(name, rest);
      if n > 0 {
        assert forall j :: 0 < j < n ==> keys[j] == rest[j - 1];
        assert forall j :: 0 <= j < n - 1 ==> rest[j] == keys[j + 1];
      }
    }
  }

  /** The header `I: x` answers a lookup of If-Modified-Since. */
  lemma AbbreviationIsFound()
    ensures FirstFound("If-Modified-Since", ["I", "If-Modified-Since"]) == 0
    ensures FirstNamed("If-Modified-Since", ["I", "If-Modified-Since"]) == 1
  {
    assert ["I", "If-Modified-Since"][1..] == ["If-Modified-Since"];
  }
}
