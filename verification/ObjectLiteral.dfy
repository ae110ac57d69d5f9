/** The executor's conversion of a GraphQL object literal to JSON text.  Inside
    a string it skips two bytes on a backslash, so its slice bound can run past
    the end; the values the query parser hands it never let that happen. */
module ObjectLiteral {
  import opened Common
  import opened QueryAst
  import S = QuerySyntax
  import P = QueryParser

  /** `Panicked` is the slice bound out of range. */
  datatype Conversion = Converted(json: string) | Unexpected(c: char) | Panicked

  predicate IsLetter(c: char) { 'a' <= c <= 'z' || 'A' <= c <= 'Z' || c == '_' }

  predicate NumberChar(c: char) { c == '-' || c == '.' || IsDigit(c) }

  predicate Structural(c: char) { c == '{' || c == '}' || c == '[' || c == ']' || c == ':' || c == ',' }

  predicate Blank(c: char) { c == ' ' || c == '\n' || c == '\t' || c == '\r' }

  predicate WordChar(c: char) { IsLetter(c) || IsDigit(c) }

  /** The conversion's words are the query parser's names, and so are its blanks but for the
      comma, which JSON does not skip. */
  lemma WordsAreNames(c: char)
    ensures WordChar(c) <==> S.NameChar(c)
    ensures IsLetter(c) <==> S.NameChar(c) && !IsDigit(c)
    ensures Blank(c) <==> S.Blank(c) && c != ','
  {
  }

  // ---------------------------------------------------------- what it computes

  /** What follows a string whose opening quote has been read: everything is consumed if
      it is not closed, and a backslash that ends the text overruns it. */
  function AfterQuote(s: string): (r: Option<string>)
    ensures r.Some? ==> |r.value| <= |s|
  {
    if s == [] then Some([])
    else if s[0] == '\\' then if |s| == 1 then None else AfterQuote(s[2..])
    else if s[0] == '"' then Some(s[1..])
    else AfterQuote(s[1..])
  }

  function AfterRun(s: string, keep: char -> bool): (r: string)
    ensures |r| <= |s|
  {
    if s != [] && keep(s[0]) then AfterRun(s[1..], keep) else s
  }

  /** Only spaces and tabs stand between here and a colon. */
  predicate BeforeColon(s: string)
  {
    s != [] && (s[0] == ':' || ((s[0] == ' ' || s[0] == '\t') && BeforeColon(s[1..])))
  }

  function Taken(s: string, rest: string): string
    requires |rest| <= |s|
  {
    s[..|s| - |rest|]
  }

  function Prepend(t: string, c: Conversion): Conversion { if c.Converted? then Converted(t + c.json) else c }

  /** JSON for a bare word: only the three literals stay unquoted, and not as keys. */
  function WordJson(word: string, key: bool): string
  {
    if !key && (word == "true" || word == "false" || word == "null") then word else "\"" + word + "\""
  }

  function Translate(s: string): Conversion
    decreases |s|
  {
    if s == [] then Converted("")
    else if Blank(s[0]) then Prepend(" ", Translate(s[1..]))
    else if Structural(s[0]) then Prepend([s[0]], Translate(s[1..]))
    else if s[0] == '"' then
      var rest := AfterQuote(s[1..]);
      if rest.None? then Panicked else Prepend(Taken(s, rest.value), Translate(rest.value))
    else if NumberChar(s[0]) then
      var rest := AfterRun(s[1..], NumberChar);
      Prepend(Taken(s, rest), Translate(rest))
    else if IsLetter(s[0]) then
      var rest := AfterRun(s[1..], WordChar);
      Prepend(WordJson(Taken(s, rest), BeforeColon(rest)), Translate(rest))
    else Unexpected(s[0])
  }

  // ----------------------------------------------------------------- the code

  /** End of the string that opens at `i`; past the end after a trailing backslash. */
  method StringEnd(s: string, i: nat) returns (j: nat)
    requires i < |s|
    ensures i < j <= |s| + 1
    ensures j <= |s| <==> AfterQuote(s[i + 1..]).Some?
    ensures j <= |s| ==> AfterQuote(s[i + 1..]) == Some(s[j..])
  {
    j := i + 1;
    ghost var start := s[i + 1..];
    while j < |s|
      invariant i < j <= |s| + 1
      invariant if j <= |s| then AfterQuote(start) == AfterQuote(s[j..]) else AfterQuote(start).None?
      decreases |s| + 1 - j
    {
      ghost var t := s[j..];
      if s[j] == '\\' {
        j := j + 2;
        assert j <= |s| ==> s[j..] == t[2..];
        continue;
      }
      assert s[j + 1..] == t[1..];
      if s[j] == '"' {
        return j + 1;
      }
      j := j + 1;
    }
  }

  method RunEnd(s: string, i: nat, keep: char -> bool) returns (j: nat)
    requires i <= |s|
    ensures i <= j <= |s| && s[j..] == AfterRun(s[i..], keep)
  {
    j := i;
    while j < |s| && keep(s[j])
      invariant i <= j <= |s| && AfterRun(s[j..], keep) == AfterRun(s[i..], keep)
    {
      assert s[j..][1..] == s[j + 1..];
      j := j + 1;
    }
  }

  method IsKey(s: string, j: nat) returns (key: bool)
    requires j <= |s|
    ensures key == BeforeColon(s[j..])
  {
    var k := j;
    while k < |s| && (s[k] == ' ' || s[k] == '\t')
      invariant j <= k <= |s| && BeforeColon(s[k..]) == BeforeColon(s[j..])
    {
      assert s[k..][1..] == s[k + 1..];
      k := k + 1;
    }
    key := k < |s| && s[k] == ':';
  }

  /** One turn of the loop: the token at `i`, or the reason to stop. */
  method NextToken(s: string, i: nat) returns (j: nat, piece: string, stop: Option<Conversion>)
    requires i < |s|
    ensures stop.None? ==> i < j <= |s| && FirstToken(s[i..], s[j..], piece)
    ensures stop.Some? ==> Translate(s[i..]) == stop.value && !stop.value.Converted?
  {
    var c := s[i];
    j, piece, stop := i + 1, "", None;
    ghost var t := s[i..];
    assert t[1..] == s[i + 1..];
    if Blank(c) {
      piece := " ";
    } else if Structural(c) {
      piece := [c];
    } else if c == '"' {
      j := StringEnd(s, i);
      if j > |s| {
        return j, "", Some(Panicked);
      }
      piece := s[i..j];
      assert piece == Taken(t, s[j..]);
    } else if NumberChar(c) {
      j := RunEnd(s, i + 1, NumberChar);
      piece := s[i..j];
      assert piece == Taken(t, s[j..]);
    } else if IsLetter(c) {
      j := RunEnd(s, i + 1, WordChar);
      var key := IsKey(s, j);
      assert s[i..j] == Taken(t, s[j..]);
      piece := WordJson(s[i..j], key);
    } else {
      stop := Some(Unexpected(c));
    }
  }

  /** Computes the translation, and is in range on every value the parser hands over. */
  method ToJson(s: string) returns (r: Conversion)
    ensures r == Translate(s)
    ensures S.SafeRaw(s) ==> !r.Panicked?
  {
    if S.SafeRaw(s) {
      TranslateInRange(s);
    }
    var out, i := "", 0;
    assert s[0..] == s;
    PrependNothing(Translate(s));
    while i < |s|
      invariant i <= |s|
      invariant Translate(s) == Prepend(out, Translate(s[i..]))
      decreases |s| - i
    {
      var j, piece, stop := NextToken(s, i);
      if stop.Some? {
        return stop.value;
      }
      TranslateStep(s[i..], s[j..], piece);
      PrependTwice(out, piece, Translate(s[j..]));
      out, i := out + piece, j;
    }
    r := Converted(out);
  }

  lemma PrependNothing(c: Conversion)
    ensures Prepend("", c) == c
  {
  }

  /** `piece` is what the first token of `t` becomes, and `rest` what follows it. */
  ghost predicate FirstToken(t: string, rest: string, piece: string)
    requires t != []
  {
    if Blank(t[0]) then rest == t[1..] && piece == " "
    else if Structural(t[0]) then rest == t[1..] && piece == [t[0]]
    else if t[0] == '"' then AfterQuote(t[1..]) == Some(rest) && piece == Taken(t, rest)
    else if NumberChar(t[0]) then rest == AfterRun(t[1..], NumberChar) && piece == Taken(t, rest)
    else IsLetter(t[0]) && rest == AfterRun(t[1..], WordChar) && piece == WordJson(Taken(t, rest), BeforeColon(rest))
  }

  lemma TranslateStep(t: string, rest: string, piece: string)
    requires t != [] && FirstToken(t, rest, piece)
    ensures Translate(t) == Prepend(piece, Translate(rest))
  {
  }

  lemma PrependTwice(a: string, b: string, c: Conversion)
    ensures Prepend(a, Prepend(b, c)) == Prepend(a + b, c)
  {
    if c.Converted? {
      assert a + (b + c.json) == (a + b) + c.json;
    }
  }

  lemma {:induction false} QuoteEnds(s: string)
    ensures AfterQuote(s).None? ==> s != [] && s[|s| - 1] == '\\'
    ensures AfterQuote(s).Some? ==> AfterQuote(s).value == s[|s| - |AfterQuote(s).value|..]
  {
    if s != [] && s[0] == '\\' && |s| > 1 {
      QuoteEnds(s[2..]);
    } else if s != [] && s[0] != '\\' && s[0] != '"' {
      QuoteEnds(s[1..]);
    }
  }

  lemma {:induction false} RunEnds(s: string, keep: char -> bool)
    ensures AfterRun(s, keep) == s[|s| - |AfterRun(s, keep)|..]
  {
    if s != [] && keep(s[0]) {
      RunEnds(s[1..], keep);
    }
  }

  predicate Unescaped(s: string) { s == [] || s[|s| - 1] != '\\' }

  lemma QuoteLeavesUnescaped(s: string)
    requires Unescaped(s)
    ensures AfterQuote(s).Some? && Unescaped(AfterQuote(s).value)
  {
    QuoteEnds(s);
  }

  lemma RunLeavesUnescaped(s: string, keep: char -> bool)
    requires Unescaped(s)
    ensures Unescaped(AfterRun(s, keep))
  {
    RunEnds(s, keep);
  }

  /** A text that does not end in a backslash never overruns. */
  lemma {:induction false} TranslateInRange(s: string)
    requires Unescaped(s)
    ensures !Translate(s).Panicked?
    decreases |s|
  {
    if s != [] {
      var t := s[1..];
      assert Unescaped(t);
      if Blank(s[0]) || Structural(s[0]) {
        TranslateInRange(t);
      } else if s[0] == '"' {
        QuoteLeavesUnescaped(t);
        TranslateInRange(AfterQuote(t).value);
      } else if NumberChar(s[0]) {
        RunLeavesUnescaped(t, NumberChar);
        TranslateInRange(AfterRun(t, NumberChar));
      } else if IsLetter(s[0]) {
        RunLeavesUnescaped(t, WordChar);
        TranslateInRange(AfterRun(t, WordChar));
      }
    }
  }

  // -------------------------------------------------- literals and their JSON

  /** A token of an object literal, as written. */
  datatype Token =
    | Space(c: char)
    | Mark(c: char)
    | Quoted(body: string)
    | Number(digits: string)
    | Word(name: string)

  function TokenText(t: Token): string
  {
    match t
    case Space(c) => [c]
    case Mark(c) => [c]
    case Quoted(body) => "\"" + body + "\""
    case Number(digits) => digits
    case Word(name) => name
  }

  function Source(ts: seq<Token>): string { if ts == [] then "" else TokenText(ts[0]) + Source(ts[1..]) }

  /** The JSON of a token; a word is a key when a colon follows it. */
  function TokenJson(t: Token, key: bool): string
  {
    match t
    case Space(_) => " "
    case Mark(c) => [c]
    case Quoted(body) => "\"" + body + "\""
    case Number(digits) => digits
    case Word(name) => WordJson(name, key)
  }

  function Json(ts: seq<Token>): string
  {
    if ts == [] then "" else TokenJson(ts[0], BeforeColon(Source(ts[1..]))) + Json(ts[1..])
  }

  /** Escapes come in pairs and no bare quote occurs. */
  predicate BodyOk(body: string)
  {
    body == [] ||
    if body[0] == '\\' then |body| > 1 && BodyOk(body[2..]) else body[0] != '"' && BodyOk(body[1..])
  }

  predicate Made(s: string, keep: char -> bool) { forall c | c in s :: keep(c) }

  predicate Stops(x: string, keep: char -> bool) { x == [] || !keep(x[0]) }

  /** The token is well formed and does not run into what follows it. */
  predicate TokenOk(t: Token, x: string)
  {
    match t
    case Space(c) => Blank(c)
    case Mark(c) => Structural(c)
    case Quoted(body) => BodyOk(body)
    case Number(digits) => digits != [] && Made(digits, NumberChar) && Stops(x, NumberChar)
    case Word(name) => name != [] && IsLetter(name[0]) && Made(name, WordChar) && Stops(x, WordChar)
  }

  predicate TokensOk(ts: seq<Token>)
  {
    ts == [] || (TokenOk(ts[0], Source(ts[1..])) && TokensOk(ts[1..]))
  }

  lemma {:induction false} BodyReads(body: string, x: string)
    requires BodyOk(body)
    ensures AfterQuote(body + "\"" + x) == Some(x)
  {
    var s := body + "\"" + x;
    if body == [] {
      assert s[1..] == x;
    } else if body[0] == '\\' {
      assert s[2..] == body[2..] + "\"" + x;
      BodyReads(body[2..], x);
    } else {
      assert s[1..] == body[1..] + "\"" + x;
      BodyReads(body[1..], x);
    }
  }

  lemma {:induction false} RunReads(s: string, keep: char -> bool, x: string)
    requires Made(s, keep) && Stops(x, keep)
    ensures AfterRun(s + x, keep) == x
  {
    if s == [] {
      assert s + x == x;
    } else {
      assert (s + x)[1..] == s[1..] + x;
      RunReads(s[1..], keep, x);
    }
  }

  lemma TokenReads(t: Token, x: string)
    requires TokenOk(t, x)
    ensures TokenText(t) != [] && FirstToken(TokenText(t) + x, x, TokenJson(t, BeforeColon(x)))
  {
    var s := TokenText(t) + x;
    match t
    case Space(_) => assert s[1..] == x;
    case Mark(_) => assert s[1..] == x;
    case Quoted(body) =>
      assert s[1..] == body + "\"" + x;
      BodyReads(body, x);
      assert Taken(s, x) == TokenText(t);
    case Number(digits) =>
      assert s[1..] == digits[1..] + x && s[0] == digits[0] && digits[0] in digits;
      RunReads(digits[1..], NumberChar, x);
      assert Taken(s, x) == digits;
    case Word(name) =>
      assert s[1..] == name[1..] + x;
      RunReads(name[1..], WordChar, x);
      assert Taken(s, x) == name;
  }

  /** Every well-formed literal converts, token by token: keys and enum words are quoted,
      true, false and null are kept, strings and numbers are copied. */
  lemma {:induction false} LiteralConverts(ts: seq<Token>)
    requires TokensOk(ts)
    ensures Translate(Source(ts)) == Converted(Json(ts))
  {
    if ts != [] {
      var x := Source(ts[1..]);
      LiteralConverts(ts[1..]);
      TokenReads(ts[0], x);
      TranslateStep(TokenText(ts[0]) + x, x, TokenJson(ts[0], BeforeColon(x)));
    }
  }

  // ------------------------------------------------------- from the parser

  /** Where a field stands: in one of the operations or in a fragment definition. */
  datatype Place = InOperation(index: nat) | InFragment(name: string)

  function SelectionsAt(doc: Document, place: Place): Option<seq<Selection>>
  {
    match place
    case InOperation(i) => if i < |doc.operations| then Some(doc.operations[i].sels) else None
    case InFragment(n) => if n in doc.fragments then Some(doc.fragments[n].sels) else None
  }

  lemma SafePlace(doc: Document, place: Place)
    requires S.SafeDocument(doc) && SelectionsAt(doc, place).Some?
    ensures S.SafeSels(SelectionsAt(doc, place).value)
  {
    if place.InOperation? {
      assert doc.operations[place.index] in doc.operations;
    }
  }

  /** Converting any argument of any field of any operation or fragment of any parsed
      source is in range. */
  method ConvertParsed(src: string, place: Place, path: seq<nat>, arg: string) returns (r: Option<Conversion>)
    ensures r.Some? ==> !r.value.Panicked?
    ensures r.Some? <==> S.ReadDocument(src).Ok? && Holds(S.ReadDocument(src).value, place, path, arg)
  {
    var doc := P.ParseQuery(src);
    if doc.None? {
      return None;
    }
    var sels := SelectionsAt(doc.value, place);
    if sels.None? {
      return None;
    }
    SafePlace(doc.value, place);
    var f := FieldAt(sels.value, path);
    if f.None? || arg !in f.value.args {
      return None;
    }
    SafeAt(sels.value, path);
    var json := ToJson(f.value.args[arg].raw);
    r := Some(json);
  }

  /** The document has that argument on the field at that path. */
  predicate Holds(doc: Document, place: Place, path: seq<nat>, arg: string)
  {
    var sels := SelectionsAt(doc, place);
    && sels.Some?
    && var f := FieldAt(sels.value, path);
    f.Some? && arg in f.value.args
  }

  /** The field at a path of child positions. */
  function FieldAt(sels: seq<Selection>, path: seq<nat>): Option<Field>
    decreases |path|
  {
    if path == [] || path[0] >= |sels| then None
    else
      match sels[path[0]]
      case FieldSel(f) => if |path| == 1 then Some(f) else FieldAt(f.sels, path[1..])
      case Inline(_, inner) => FieldAt(inner, path[1..])
      case Spread(_) => None
  }

  lemma {:induction false} SafeAt(sels: seq<Selection>, path: seq<nat>)
    requires S.SafeSels(sels) && FieldAt(sels, path).Some?
    ensures S.SafeArgs(FieldAt(sels, path).value.args)
    decreases |path|
  {
    var s := sels[path[0]];
    assert S.SafeSel(s);
    if s.FieldSel? && |path| > 1 {
      SafeAt(s.field.sels, path[1..]);
    } else if s.Inline? {
      SafeAt(s.sels, path[1..]);
    }
  }

  // -- every field has a path

  ghost predicate Within(sels: seq<Selection>, f: Field)
    decreases sels
  {
    exists i | 0 <= i < |sels| :: WithinOne(sels[i], f)
  }

  /** The selection is the field or has it inside. */
  ghost predicate WithinOne(s: Selection, f: Field)
    decreases s
  {
    || s == FieldSel(f)
    || (s.FieldSel? && Within(s.field.sels, f))
    || (s.Inline? && Within(s.sels, f))
  }

  lemma {:induction false} PathOf(sels: seq<Selection>, f: Field) returns (path: seq<nat>)
    requires Within(sels, f)
    ensures FieldAt(sels, path) == Some(f)
    decreases sels
  {
    var i :| 0 <= i < |sels| && WithinOne(sels[i], f);
    if sels[i] == FieldSel(f) {
      path := [i];
    } else {
      var rest := PathBelow(sels[i], f);
      path := [i] + rest;
      assert path[1..] == rest;
    }
  }

  lemma {:induction false} PathBelow(s: Selection, f: Field) returns (path: seq<nat>)
    requires WithinOne(s, f) && s != FieldSel(f)
    ensures s.FieldSel? ==> path != [] && FieldAt(s.field.sels, path) == Some(f)
    ensures s.Inline? ==> FieldAt(s.sels, path) == Some(f)
    decreases s
  {
    if s.FieldSel? {
      path := PathOf(s.field.sels, f);
    } else {
      path := PathOf(s.sels, f);
    }
  }

  lemma {:induction false} PathLeads(sels: seq<Selection>, path: seq<nat>)
    requires FieldAt(sels, path).Some?
    ensures Within(sels, FieldAt(sels, path).value)
    decreases |path|
  {
    var s, f := sels[path[0]], FieldAt(sels, path).value;
    if s.FieldSel? && |path| > 1 {
      PathLeads(s.field.sels, path[1..]);
    } else if s.Inline? {
      PathLeads(s.sels, path[1..]);
    }
    assert WithinOne(s, f);
  }

  /** The paths lead to the fields that stand in the selections, at any depth, and to no other. */
  lemma PathsLeadToFields(sels: seq<Selection>, f: Field)
    ensures Within(sels, f) <==> exists path :: FieldAt(sels, path) == Some(f)
  {
    if Within(sels, f) {
      var path := PathOf(sels, f);
    }
    forall path | FieldAt(sels, path) == Some(f) ensures Within(sels, f) {
      PathLeads(sels, path);
    }
  }
}
