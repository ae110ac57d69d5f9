/** What JSON makes of the text a GraphQL literal converts to: a JSON reader over strings,
    and a scan of the literal itself that finds the same tokens. */
module JsonText {
  import opened Common
  import opened ObjectLiteral

  // ---------------------------------------------------------------- reading JSON

  /** One token of JSON text.  A string or number may not be one JSON allows; `Bad` is text
      that is no token, and nothing is read after it. */
  datatype Piece = Text(ok: bool) | Numeral(ok: bool) | Constant | Punct(c: char) | Bad

  predicate IsHex(c: char) { IsDigit(c) || 'a' <= c <= 'f' || 'A' <= c <= 'F' }

  /** The body of a JSON string: no control characters and only JSON's escapes. */
  predicate JsonBody(s: string)
  {
    s == [] ||
    if s[0] != '\\' then s[0] >= ' ' && s[0] != '"' && JsonBody(s[1..])
    else if |s| > 1 && s[1] in "\"\\/bfnrt" then JsonBody(s[2..])
    else |s| > 5 && s[1] == 'u' && IsHex(s[2]) && IsHex(s[3]) && IsHex(s[4]) && IsHex(s[5]) && JsonBody(s[6..])
  }

  predicate AllDigits(s: string) { s != [] && forall c | c in s :: IsDigit(c) }

  predicate JsonExponent(s: string)
  {
    s == [] ||
    ((s[0] == 'e' || s[0] == 'E') && AllDigits(if |s| > 1 && (s[1] == '+' || s[1] == '-') then s[2..] else s[1..]))
  }

  predicate JsonFraction(s: string)
  {
    if s != [] && s[0] == '.' then exists i | 1 <= i <= |s| :: AllDigits(s[1..i]) && JsonExponent(s[i..])
    else JsonExponent(s)
  }

  predicate JsonNumber(s: string)
  {
    var t := if s != [] && s[0] == '-' then s[1..] else s;
    exists i | 0 <= i <= |t| :: AllDigits(t[..i]) && (t[0] == '0' ==> i == 1) && JsonFraction(t[i..])
  }

  predicate NumeralChar(c: char) { NumberChar(c) || c == '+' || c == 'e' || c == 'E' }

  predicate IsConstant(word: string) { word == "true" || word == "false" || word == "null" }

  /** What follows the closing quote of a string whose opening quote has been read. */
  function Close(s: string): (r: Option<string>)
    ensures r.Some? ==> |r.value| < |s|
  {
    if s == [] then None
    else if s[0] == '\\' then if |s| == 1 then None else Close(s[2..])
    else if s[0] == '"' then Some(s[1..])
    else Close(s[1..])
  }

  /** The tokens of a JSON text. */
  function Lex(s: string): seq<Piece>
    decreases |s|
  {
    if s == [] then []
    else if Blank(s[0]) then Lex(s[1..])
    else if Structural(s[0]) then [Punct(s[0])] + Lex(s[1..])
    else if s[0] == '"' then
      var rest := Close(s[1..]);
      if rest.None? then [Bad] else [Text(JsonBody(s[1..|s| - |rest.value| - 1]))] + Lex(rest.value)
    else if NumberChar(s[0]) then
      var rest := AfterRun(s[1..], NumeralChar);
      [Numeral(JsonNumber(Taken(s, rest)))] + Lex(rest)
    else if IsLetter(s[0]) then
      var rest := AfterRun(s[1..], WordChar);
      if IsConstant(Taken(s, rest)) then [Constant] + Lex(rest) else [Bad]
    else [Bad]
  }

  predicate Next(ps: seq<Piece>, c: char) { ps != [] && ps[0] == Punct(c) }

  /** What follows a JSON value, if one stands here. */
  function AfterValue(ps: seq<Piece>): (r: Option<seq<Piece>>)
    ensures r.Some? ==> |r.value| < |ps|
    decreases |ps|, 0
  {
    if ps == [] then None
    else
      match ps[0]
      case Text(ok) => if ok then Some(ps[1..]) else None
      case Numeral(ok) => if ok then Some(ps[1..]) else None
      case Constant => Some(ps[1..])
      case Bad => None
      case Punct(c) =>
        if c == '[' then if Next(ps[1..], ']') then Some(ps[2..]) else AfterElements(ps[1..])
        else if c == '{' then if Next(ps[1..], '}') then Some(ps[2..]) else AfterMembers(ps[1..])
        else None
  }

  function AfterElements(ps: seq<Piece>): (r: Option<seq<Piece>>)
    ensures r.Some? ==> |r.value| < |ps|
    decreases |ps|, 1
  {
    var v := AfterValue(ps);
    if v.None? then None else AfterItem(v.value, ']')
  }

  /** After an element: the closing bracket, or a comma and more elements. */
  function AfterItem(rest: seq<Piece>, close: char): (r: Option<seq<Piece>>)
    ensures r.Some? ==> |r.value| < |rest|
    decreases |rest|, 2
  {
    if Next(rest, close) then Some(rest[1..])
    else if !Next(rest, ',') then None
    else if close == ']' then AfterElements(rest[1..])
    else AfterMembers(rest[1..])
  }

  function AfterMembers(ps: seq<Piece>): (r: Option<seq<Piece>>)
    ensures r.Some? ==> |r.value| < |ps|
    decreases |ps|, 1
  {
    if ps == [] || ps[0] != Text(true) || !Next(ps[1..], ':') then None
    else
      var v := AfterValue(ps[2..]);
      if v.None? then None else AfterItem(v.value, '}')
  }

  /** The text is one JSON value. */
  predicate IsJson(s: string) { AfterValue(Lex(s)) == Some([]) }

  predicate ConvertsToJson(s: string) { Translate(s).Converted? && IsJson(Translate(s).json) }

  // ------------------------------------------------------- scanning the literal

  /** The tokens the output will have, read off the literal. */
  function Scan(s: string): seq<Piece>
    decreases |s|
  {
    if s == [] then []
    else if Blank(s[0]) then Scan(s[1..])
    else if Structural(s[0]) then [Punct(s[0])] + Scan(s[1..])
    else if s[0] == '"' then
      var rest := Close(s[1..]);
      if rest.None? then [Bad] else [Text(JsonBody(s[1..|s| - |rest.value| - 1]))] + Scan(rest.value)
    else if NumberChar(s[0]) then
      var rest := AfterRun(s[1..], NumberChar);
      [Numeral(JsonNumber(Taken(s, rest)))] + Scan(rest)
    else if IsLetter(s[0]) then
      var rest := AfterRun(s[1..], WordChar);
      [WordPiece(Taken(s, rest), BeforeColon(rest))] + Scan(rest)
    else [Bad]
  }

  function WordPiece(word: string, key: bool): Piece { if !key && IsConstant(word) then Constant else Text(true) }

  // -- the ends of strings

  /** The conversion's scan of a string ends at the closing quote, or at the end without one. */
  lemma {:induction false} QuoteCloses(s: string)
    ensures Close(s).Some? ==> AfterQuote(s) == Close(s)
    ensures Close(s).None? ==> AfterQuote(s).None? || AfterQuote(s) == Some([])
  {
    if s != [] && s[0] == '\\' && |s| > 1 {
      QuoteCloses(s[2..]);
    } else if s != [] && s[0] != '\\' && s[0] != '"' {
      QuoteCloses(s[1..]);
    }
  }

  /** What was closed is still closed in front of another text. */
  lemma {:induction false} CloseMoves(s: string, x: string)
    requires Close(s).Some?
    ensures Close(Taken(s, Close(s).value) + x) == Some(x)
    ensures s[|s| - |Close(s).value| - 1] == '"'
  {
    var rest := Close(s).value;
    var t := Taken(s, rest) + x;
    if s[0] == '\\' {
      CloseMoves(s[2..], x);
      assert t[2..] == Taken(s[2..], rest) + x;
    } else if s[0] == '"' {
      assert t[1..] == x;
    } else {
      CloseMoves(s[1..], x);
      assert t[1..] == Taken(s[1..], rest) + x;
    }
  }

  lemma {:induction false} WordCloses(word: string, x: string)
    requires Made(word, WordChar)
    ensures Close(word + ("\"" + x)) == Some(x) && JsonBody(word)
  {
    var t := word + ("\"" + x);
    if word == [] {
      assert t[1..] == x;
    } else {
      assert word[0] in word;
      assert t[1..] == word[1..] + ("\"" + x);
      WordCloses(word[1..], x);
    }
  }

  lemma {:induction false} RunStops(s: string, keep: char -> bool)
    ensures Stops(AfterRun(s, keep), keep) && Made(Taken(s, AfterRun(s, keep)), keep)
  {
    if s != [] && keep(s[0]) {
      RunStops(s[1..], keep);
      var rest := AfterRun(s, keep);
      assert Taken(s, rest) == [s[0]] + Taken(s[1..], rest);
    }
  }

  // -- reading one token of the output

  lemma LexBlank(x: string)
    ensures Lex(" " + x) == Lex(x)
  {
    assert (" " + x)[1..] == x;
  }

  lemma LexMark(c: char, x: string)
    requires Structural(c)
    ensures Lex([c] + x) == [Punct(c)] + Lex(x)
  {
    assert ([c] + x)[1..] == x;
  }

  lemma Delimited(body: string, x: string)
    ensures var s := "\"" + body + "\"" + x;
            s != [] && s[0] == '"' && s[1..] == body + ("\"" + x) && |x| + 2 <= |s| && s[1..|s| - |x| - 1] == body
  {
  }

  lemma LexText(body: string, x: string)
    requires Close(body + ("\"" + x)) == Some(x)
    ensures Lex("\"" + body + "\"" + x) == [Text(JsonBody(body))] + Lex(x)
  {
    Delimited(body, x);
    LexQuote("\"" + body + "\"" + x, x);
  }

  lemma LexQuote(s: string, rest: string)
    requires s != [] && s[0] == '"' && Close(s[1..]) == Some(rest)
    ensures Lex(s) == [Text(JsonBody(s[1..|s| - |rest| - 1]))] + Lex(rest)
  {
  }

  lemma MadeWider(s: string)
    requires Made(s, NumberChar)
    ensures Made(s, NumeralChar)
  {
  }

  lemma LexNumber(digits: string, x: string)
    requires digits != [] && Made(digits, NumberChar) && Stops(x, NumeralChar)
    ensures Lex(digits + x) == [Numeral(JsonNumber(digits))] + Lex(x)
  {
    var s := digits + x;
    assert digits[0] in digits && s[1..] == digits[1..] + x;
    MadeWider(digits[1..]);
    RunReads(digits[1..], NumeralChar, x);
    assert Taken(s, x) == digits;
  }

  lemma ConstantIsWord(word: string)
    requires IsConstant(word)
    ensures word != [] && IsLetter(word[0]) && Made(word, WordChar)
  {
  }

  lemma LexConstant(word: string, x: string)
    requires IsConstant(word) && Stops(x, WordChar)
    ensures Lex(word + x) == [Constant] + Lex(x)
  {
    ConstantIsWord(word);
    WordRun(word, x);
  }

  lemma WordRun(word: string, x: string)
    requires word != [] && Made(word, WordChar) && Stops(x, WordChar)
    ensures AfterRun((word + x)[1..], WordChar) == x && Taken(word + x, x) == word
  {
    assert (word + x)[1..] == word[1..] + x;
    RunReads(word[1..], WordChar, x);
  }

  lemma LexWord(word: string, key: bool, x: string)
    requires Made(word, WordChar) && Stops(x, WordChar)
    ensures Lex(WordJson(word, key) + x) == [WordPiece(word, key)] + Lex(x)
  {
    if !key && IsConstant(word) {
      LexConstant(word, x);
    } else {
      WordCloses(word, x);
      LexText(word, x);
    }
  }

  // -- the output starts where the literal starts

  /** The converted text cannot run into the token before it. */
  lemma OutputStops(s: string)
    requires Translate(s).Converted?
    ensures Stops(s, NumberChar) ==> Stops(Translate(s).json, NumeralChar)
    ensures Stops(s, WordChar) ==> Stops(Translate(s).json, WordChar)
  {
    if s != [] && s[0] == '"' {
      QuoteEnds(s[1..]);
    }
  }

  // --------------------------------------------------------------- the result

  ghost predicate Agrees(s: string)
  {
    if Translate(s).Converted? then Lex(Translate(s).json) == Scan(s)
    else Scan(s) != [] && Scan(s)[|Scan(s)| - 1] == Bad
  }

  /** Where the conversion gives a text, JSON reads in it exactly the tokens scanned; where
      it gives none, the scan ends badly. */
  lemma {:induction false} ScanAgrees(s: string)
    ensures Agrees(s)
    decreases |s|
  {
    if s != [] {
      if Blank(s[0]) {
        ScanAgrees(s[1..]);
        BlankAgrees(s);
      } else if Structural(s[0]) {
        ScanAgrees(s[1..]);
        MarkAgrees(s);
      } else if s[0] == '"' {
        if Close(s[1..]).Some? {
          ScanAgrees(Close(s[1..]).value);
        }
        TextAgrees(s);
      } else if NumberChar(s[0]) {
        ScanAgrees(AfterRun(s[1..], NumberChar));
        NumberAgrees(s);
      } else if IsLetter(s[0]) {
        ScanAgrees(AfterRun(s[1..], WordChar));
        WordAgrees(s);
      }
    }
  }

  /** One token: the output's next token is the scanned one. */
  lemma StepAgrees(s: string, rest: string, piece: string, p: Piece)
    requires s != [] && Agrees(rest) && Translate(s) == Prepend(piece, Translate(rest)) && Scan(s) == [p] + Scan(rest)
    requires Translate(rest).Converted? ==> Lex(piece + Translate(rest).json) == [p] + Lex(Translate(rest).json)
    ensures Agrees(s)
  {
  }

  lemma BlankAgrees(s: string)
    requires s != [] && Blank(s[0]) && Agrees(s[1..])
    ensures Agrees(s)
  {
    if Translate(s[1..]).Converted? {
      LexBlank(Translate(s[1..]).json);
    }
  }

  lemma MarkAgrees(s: string)
    requires s != [] && Structural(s[0]) && Agrees(s[1..])
    ensures Agrees(s)
  {
    if Translate(s[1..]).Converted? {
      LexMark(s[0], Translate(s[1..]).json);
    }
  }

  /** A string's text is its quotes and its body. */
  lemma Copied(s: string, rest: string, x: string)
    requires s != [] && s[0] == '"' && Close(s[1..]) == Some(rest)
    ensures var body := s[1..|s| - |rest| - 1];
            Taken(s, rest) == "\"" + body + "\"" && Taken(s[1..], rest) + x == body + ("\"" + x)
  {
    CloseMoves(s[1..], x);
    var body := s[1..|s| - |rest| - 1];
    assert Taken(s[1..], rest) == body + "\"";
    Regroup(body, "\"", x);
  }

  lemma Regroup(a: string, b: string, c: string)
    ensures a + b + c == a + (b + c)
  {
  }

  /** A copied string is read back as it stood. */
  lemma LexCopied(s: string, rest: string, x: string)
    requires s != [] && s[0] == '"' && Close(s[1..]) == Some(rest)
    ensures Lex(Taken(s, rest) + x) == [Text(JsonBody(s[1..|s| - |rest| - 1]))] + Lex(x)
  {
    Copied(s, rest, x);
    CloseMoves(s[1..], x);
    LexText(s[1..|s| - |rest| - 1], x);
  }

  lemma UnclosedAgrees(s: string)
    requires s != [] && s[0] == '"' && Close(s[1..]).None?
    ensures Agrees(s)
  {
    QuoteCloses(s[1..]);
    assert s + "" == s;
  }

  lemma TextAgrees(s: string)
    requires s != [] && s[0] == '"' && (Close(s[1..]).Some? ==> Agrees(Close(s[1..]).value))
    ensures Agrees(s)
  {
    if Close(s[1..]).None? {
      UnclosedAgrees(s);
    } else {
      var rest := Close(s[1..]).value;
      QuoteCloses(s[1..]);
      if Translate(rest).Converted? {
        LexCopied(s, rest, Translate(rest).json);
      }
      StepAgrees(s, rest, Taken(s, rest), Text(JsonBody(s[1..|s| - |rest| - 1])));
    }
  }

  /** The first character and the run after it. */
  lemma RunFrom(s: string, keep: char -> bool)
    requires s != [] && keep(s[0])
    ensures var rest := AfterRun(s[1..], keep);
            Stops(rest, keep) && Taken(s, rest) != [] && Made(Taken(s, rest), keep)
  {
    var rest := AfterRun(s[1..], keep);
    RunStops(s[1..], keep);
    assert Taken(s, rest) == [s[0]] + Taken(s[1..], rest);
  }

  lemma NumberAgrees(s: string)
    requires s != [] && NumberChar(s[0]) && Agrees(AfterRun(s[1..], NumberChar))
    ensures Agrees(s)
  {
    var rest := AfterRun(s[1..], NumberChar);
    RunFrom(s, NumberChar);
    if Translate(rest).Converted? {
      OutputStops(rest);
      LexNumber(Taken(s, rest), Translate(rest).json);
    }
    StepAgrees(s, rest, Taken(s, rest), Numeral(JsonNumber(Taken(s, rest))));
  }

  lemma WordAgrees(s: string)
    requires s != [] && IsLetter(s[0]) && Agrees(AfterRun(s[1..], WordChar))
    ensures Agrees(s)
  {
    var rest := AfterRun(s[1..], WordChar);
    RunFrom(s, WordChar);
    if Translate(rest).Converted? {
      OutputStops(rest);
      LexWord(Taken(s, rest), BeforeColon(rest), Translate(rest).json);
    }
    StepAgrees(s, rest, WordJson(Taken(s, rest), BeforeColon(rest)), WordPiece(Taken(s, rest), BeforeColon(rest)));
  }

  // -- a scan that ends badly is not JSON

  ghost predicate EndsBadly(ps: seq<Piece>) { ps != [] && ps[|ps| - 1] == Bad }

  ghost predicate LeavesBad(r: Option<seq<Piece>>) { r.Some? ==> EndsBadly(r.value) }

  lemma {:induction false} BadValue(ps: seq<Piece>)
    requires EndsBadly(ps)
    ensures LeavesBad(AfterValue(ps))
    decreases |ps|, 0
  {
    if ps[0].Punct? {
      BadElements(ps[1..]);
      BadMembers(ps[1..]);
    }
  }

  lemma {:induction false} BadElements(ps: seq<Piece>)
    requires EndsBadly(ps)
    ensures LeavesBad(AfterElements(ps))
    decreases |ps|, 1
  {
    BadValue(ps);
    if AfterValue(ps).Some? {
      BadItem(AfterValue(ps).value, ']');
    }
  }

  lemma {:induction false} BadItem(rest: seq<Piece>, close: char)
    requires EndsBadly(rest)
    ensures LeavesBad(AfterItem(rest, close))
    decreases |rest|, 2
  {
    if Next(rest, ',') {
      BadElements(rest[1..]);
      BadMembers(rest[1..]);
    }
  }

  lemma {:induction false} BadMembers(ps: seq<Piece>)
    requires EndsBadly(ps)
    ensures LeavesBad(AfterMembers(ps))
    decreases |ps|, 1
  {
    if ps[0] == Text(true) && Next(ps[1..], ':') {
      BadValue(ps[2..]);
      if AfterValue(ps[2..]).Some? {
        BadItem(AfterValue(ps[2..]).value, '}');
      }
    }
  }

  /** Of any text at all: it converts to JSON exactly when its own tokens, as they stand,
      are those of one JSON value. */
  lemma ConvertsIffScanned(s: string)
    ensures ConvertsToJson(s) <==> AfterValue(Scan(s)) == Some([])
  {
    ScanAgrees(s);
    if !Translate(s).Converted? {
      BadValue(Scan(s));
    }
  }
}
