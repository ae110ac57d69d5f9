/** The hand-written recursive-descent parser: a cursor into the source that
    every production moves forward.  Each method is proved against the reading
    function of the same production. */
module QueryParser {
  import opened Common
  import opened QueryAst
  import S = QuerySyntax

  lemma NameStep(src: string, start: nat, pos: nat)
    requires start <= pos < |src| && S.NameChar(src[pos])
    ensures S.DropName(src[pos..]) == S.DropName(src[pos + 1..])
    ensures src[start..pos] + S.NameOf(src[pos..]) == src[start..pos + 1] + S.NameOf(src[pos + 1..])
  {
    assert src[pos..][1..] == src[pos + 1..];
    assert src[start..pos + 1] == src[start..pos] + [src[pos]];
  }

  class Parser {
    const src: string
    var pos: nat

    constructor (src: string)
      ensures this.src == src && pos == 0
    {
      this.src, pos := src, 0;
    }

    /** The cursor may stand one past the end after a failed escape skip. */
    predicate Eof() reads this { pos >= |src| }

    predicate Peek(c: char) reads this { !Eof() && src[pos] == c }

    method SkipWS()
      requires pos <= |src|
      modifies this
      ensures old(pos) <= pos <= |src| && src[pos..] == S.SkipWS(src[old(pos)..])
    {
      while !Eof()
        invariant old(pos) <= pos <= |src| && S.SkipWS(src[pos..]) == S.SkipWS(src[old(pos)..])
        decreases |src| - pos
      {
        var c := src[pos];
        if S.Blank(c) {
          pos := pos + 1;
        } else if c == '#' {
          ghost var start := pos;
          while !Eof() && src[pos] != '\n'
            invariant start <= pos <= |src| && S.DropComment(src[pos..]) == S.DropComment(src[start..])
            invariant pos == start ==> src[pos] != '\n'
            decreases |src| - pos
          {
            pos := pos + 1;
          }
        } else {
          return;
        }
      }
    }

    method ReadIdent() returns (name: string)
      requires pos <= |src|
      modifies this
      ensures old(pos) <= pos <= |src|
      ensures name == S.ReadName(src[old(pos)..]) && src[pos..] == S.AfterName(src[old(pos)..])
    {
      SkipWS();
      name := TakeName();
    }

    method TakeName() returns (name: string)
      requires pos <= |src|
      modifies this
      ensures old(pos) <= pos <= |src|
      ensures name == S.NameOf(src[old(pos)..]) && src[pos..] == S.DropName(src[old(pos)..])
    {
      var start := pos;
      while !Eof()
        invariant start <= pos <= |src|
        invariant S.DropName(src[start..]) == S.DropName(src[pos..])
        invariant S.NameOf(src[start..]) == src[start..pos] + S.NameOf(src[pos..])
        decreases |src| - pos
      {
        var c := src[pos];
        if S.NameChar(c) {
          NameStep(src, start, pos);
          pos := pos + 1;
          continue;
        }
        break;
      }
      name := src[start..pos];
    }

    method Expect(c: char) returns (ok: bool)
      requires pos <= |src|
      modifies this
      ensures old(pos) <= pos <= |src|
      ensures ok == S.Expect(src[old(pos)..], c).Ok?
      ensures ok ==> src[pos..] == S.Expect(src[old(pos)..], c).rest
    {
      SkipWS();
      if Eof() || src[pos] != c {
        return false;
      }
      pos := pos + 1;
      ok := true;
    }

    method ReadString() returns (r: Option<string>)
      requires pos < |src| && src[pos] == '"'
      modifies this
      ensures r.Some? == S.ReadString(src[old(pos)..]).Ok?
      ensures r.Some? ==> old(pos) < pos <= |src| && S.ReadString(src[old(pos)..]) == S.Ok(r.value, src[pos..])
    {
      ghost var s := src[pos..];
      var start := pos;
      var ok := SkipString();
      if !ok {
        return None;
      }
      r := Some(src[start..pos]);
      assert src[start..pos] == S.Taken(s, src[pos..]);
    }

    method SkipString() returns (ok: bool)
      requires pos < |src| && src[pos] == '"'
      modifies this
      ensures ok == S.AfterString(src[old(pos)..]).Some?
      ensures ok ==> old(pos) < pos <= |src| && S.AfterString(src[old(pos)..]) == Some(src[pos..])
    {
      if S.TRIPLE <= src[pos..] {
        ok := SkipBlock();
      } else {
        ok := SkipQuoted();
      }
    }

    method SkipBlock() returns (ok: bool)
      requires pos + 3 <= |src|
      modifies this
      ensures ok == S.AfterTriple(src[old(pos) + 3..]).Some?
      ensures ok ==> old(pos) < pos <= |src| && S.AfterTriple(src[old(pos) + 3..]) == Some(src[pos..])
    {
      var i := pos + 3;
      while i + 3 <= |src|
        invariant pos == old(pos) && pos + 3 <= i <= |src|
        invariant S.AfterTriple(src[i..]) == S.AfterTriple(src[pos + 3..])
        decreases |src| - i
      {
        if src[i..i + 3] == S.TRIPLE {
          assert src[i..][..3] == src[i..i + 3];
          pos := i + 3;
          return true;
        }
        assert src[i..][..3] == src[i..i + 3];
        i := i + 1;
      }
      ok := false;
    }

    method SkipQuoted() returns (ok: bool)
      requires pos < |src|
      modifies this
      ensures ok == S.AfterBody(src[old(pos) + 1..]).Some?
      ensures ok ==> old(pos) < pos <= |src| && S.AfterBody(src[old(pos) + 1..]) == Some(src[pos..])
    {
      ghost var body := src[pos + 1..];
      pos := pos + 1;
      while !Eof()
        invariant old(pos) < pos <= |src| + 1
        invariant pos > |src| ==> S.AfterBody(body).None?
        invariant pos <= |src| ==> S.AfterBody(body) == S.AfterBody(src[pos..])
        decreases |src| + 1 - pos
      {
        var c := src[pos];
        if c == '\\' {
          pos := pos + 2;
          continue;
        }
        if c == '"' {
          pos := pos + 1;
          return true;
        }
        pos := pos + 1;
      }
      ok := false;
    }

    method SkipBalanced(open: char, close: char) returns (ok: bool)
      requires pos <= |src| && open != close && open != '"' && close != '"'
      modifies this
      ensures ok == S.SkipBalanced(src[old(pos)..], open, close).Ok?
      ensures ok ==> old(pos) < pos <= |src| && src[pos..] == S.SkipBalanced(src[old(pos)..], open, close).rest
    {
      if Eof() || src[pos] != open {
        return false;
      }
      ghost var s := src[pos..];
      var depth := 0;
      while !Eof()
        invariant old(pos) <= pos <= |src|
        invariant S.Balance(s, open, close, 0) == S.Balance(src[pos..], open, close, depth)
        decreases |src| - pos
      {
        var c := src[pos];
        if c == open {
          depth := depth + 1;
        } else if c == close {
          depth := depth - 1;
          if depth == 0 {
            pos := pos + 1;
            return true;
          }
        } else if c == '"' {
          ok := SkipString();
          if !ok {
            return;
          }
          continue;
        }
        pos := pos + 1;
      }
      ok := false;
    }

    method SkipDigits()
      requires pos <= |src|
      modifies this
      ensures old(pos) <= pos <= |src| && src[pos..] == S.DropDigits(src[old(pos)..])
    {
      while !Eof()
        invariant old(pos) <= pos <= |src|
        invariant S.DropDigits(src[pos..]) == S.DropDigits(src[old(pos)..])
        decreases |src| - pos
      {
        var c := src[pos];
        if IsDigit(c) {
          pos := pos + 1;
          continue;
        }
        break;
      }
    }

    method ReadNumber() returns (v: ArgValue)
      requires pos < |src| && (src[pos] == '-' || IsDigit(src[pos]))
      modifies this
      ensures old(pos) <= pos <= |src|
      ensures S.ReadNumber(src[old(pos)..]) == S.Ok(v, src[pos..])
    {
      ghost var s := src[pos..];
      var start := pos;
      var hasDot := SkipNumber();
      var raw := src[start..pos];
      assert raw == S.Taken(s, src[pos..]);
      v := ArgValue(if hasDot then None else Atoi(raw), raw);
    }

    method SkipNumber() returns (hasDot: bool)
      requires pos < |src|
      modifies this
      ensures old(pos) <= pos <= |src|
      ensures var t := S.DropWhole(src[old(pos)..]);
        && hasDot == S.Starts(t, '.')
        && src[pos..] == if hasDot then S.DropDigits(t[1..]) else t
    {
      ghost var s := src[pos..];
      if src[pos] == '-' {
        pos := pos + 1;
        assert src[pos..] == s[1..];
      }
      SkipDigits();
      ghost var t := src[pos..];
      assert t == S.DropWhole(s);
      hasDot := false;
      if !Eof() && src[pos] == '.' {
        hasDot := true;
        pos := pos + 1;
        assert src[pos..] == t[1..];
        SkipDigits();
      }
    }

    method ParseValue() returns (r: Option<ArgValue>)
      requires pos <= |src|
      modifies this
      ensures r.Some? == S.ReadValue(src[old(pos)..]).Ok?
      ensures r.Some? ==> old(pos) < pos <= |src| && S.ReadValue(src[old(pos)..]) == S.Ok(r.value, src[pos..])
    {
      SkipWS();
      if Eof() {
        return None;
      }
      var c := src[pos];
      if c == '$' {
        pos := pos + 1;
        var name := ReadIdent();
        r := Some(ArgValue(None, "$" + name));
      } else if c == '"' {
        var raw := ReadString();
        r := if raw.None? then None else Some(ArgValue(None, raw.value));
      } else if c == '[' {
        r := CaptureSpan('[', ']');
      } else if c == '{' {
        r := CaptureSpan('{', '}');
      } else if c == '-' || IsDigit(c) {
        var v := ReadNumber();
        r := Some(v);
      } else {
        var ident := ReadIdent();
        r := if ident == "" then None else Some(ArgValue(None, ident));
      }
    }

    method CaptureSpan(open: char, close: char) returns (r: Option<ArgValue>)
      requires pos <= |src| && open != close && open != '"' && close != '"' && close != '\\'
      modifies this
      ensures r.Some? == S.Span(src[old(pos)..], open, close).Ok?
      ensures r.Some? ==> old(pos) < pos <= |src| && S.Span(src[old(pos)..], open, close) == S.Ok(r.value, src[pos..])
    {
      ghost var s := src[pos..];
      var start := pos;
      var ok := SkipBalanced(open, close);
      if !ok {
        return None;
      }
      assert src[start..pos] == S.Taken(s, src[pos..]);
      r := Some(ArgValue(None, src[start..pos]));
    }

    method ParseArg(ghost into: map<string, ArgValue>) returns (r: Option<(string, ArgValue)>)
      requires pos <= |src| && S.SkipWS(src[pos..]) == src[pos..]
      requires pos < |src| && src[pos] != ')'
      modifies this
      ensures r.Some? ==> old(pos) < pos <= |src|
      ensures S.ReadArgs(src[old(pos)..], into) ==
              if r.None? then S.Bad else S.ReadArgs(src[pos..], into[r.value.0 := r.value.1])
    {
      var name := ReadIdent();
      if name == "" {
        return None;
      }
      var ok := Expect(':');
      if !ok {
        return None;
      }
      var val := ParseValue();
      r := if val.None? then None else Some((name, val.value));
    }

    method ParseArgs() returns (r: Option<map<string, ArgValue>>)
      requires pos < |src| && src[pos] == '('
      modifies this
      ensures r.Some? == S.ReadArgs(src[old(pos) + 1..], map[]).Ok?
      ensures r.Some? ==> old(pos) < pos <= |src| && S.ReadArgs(src[old(pos) + 1..], map[]) == S.Ok(r.value, src[pos..])
    {
      var ok := Expect('(');
      var into: map<string, ArgValue> := map[];
      while true
        invariant old(pos) < pos <= |src|
        invariant S.ReadArgs(src[old(pos) + 1..], map[]) == S.ReadArgs(src[pos..], into)
        decreases |src| - pos
      {
        S.SkipTwiceArgs(src[pos..], into);
        SkipWS();
        if Eof() {
          return None;
        }
        if Peek(')') {
          pos := pos + 1;
          return Some(into);
        }
        var arg := ParseArg(into);
        if arg.None? {
          return None;
        }
        into := into[arg.value.0 := arg.value.1];
      }
    }

    method SkipOptional() returns (ok: bool)
      requires pos <= |src|
      modifies this
      ensures ok == S.SkipOptional(src[old(pos)..]).Ok?
      ensures ok ==> old(pos) <= pos <= |src| && src[pos..] == S.SkipOptional(src[old(pos)..]).rest
    {
      ok := true;
      if Peek('(') {
        ok := SkipBalanced('(', ')');
      }
    }

    method ParseDirectives() returns (r: Option<seq<string>>)
      requires pos <= |src|
      modifies this
      ensures r.Some? == S.ReadDirectives(src[old(pos)..]).Ok?
      ensures r.Some? ==> old(pos) <= pos <= |src| && S.ReadDirectives(src[old(pos)..]) == S.Ok(r.value, src[pos..])
    {
      var names: seq<string> := [];
      ghost var all := S.ReadDirectives(src[pos..]);
      S.PrependNothing(all);
      while Peek('@')
        invariant old(pos) <= pos <= |src|
        invariant all == S.Prepend(names, S.ReadDirectives(src[pos..]))
        decreases |src| - pos
      {
        var dname := ParseDirective();
        if dname.None? {
          return None;
        }
        S.PrependOne(names, dname.value, S.ReadDirectives(src[pos..]));
        names := names + [dname.value];
      }
      assert names + [] == names;
      r := Some(names);
    }

    method ParseDirective() returns (r: Option<string>)
      requires Peek('@')
      modifies this
      ensures r.Some? ==> old(pos) < pos <= |src|
      ensures S.ReadDirectives(src[old(pos)..]) ==
              if r.None? then S.Bad else S.Prepend([r.value], S.ReadDirectives(src[pos..]))
    {
      pos := pos + 1;
      var dname := ReadIdent();
      SkipWS();
      var ok := SkipOptional();
      if !ok {
        return None;
      }
      SkipWS();
      r := Some(dname);
    }

    method ParseSelectionSet() returns (r: Option<seq<Selection>>)
      requires pos <= |src|
      modifies this
      ensures r.Some? == S.ReadSet(src[old(pos)..]).Ok?
      ensures r.Some? ==> old(pos) < pos <= |src| && S.ReadSet(src[old(pos)..]) == S.Ok(r.value, src[pos..])
      decreases |src| - pos, 0
    {
      var ok := Expect('{');
      if !ok {
        return None;
      }
      var out: seq<Selection> := [];
      ghost var all := S.ReadSels(src[pos..]);
      S.PrependNothing(all);
      while true
        invariant old(pos) < pos <= |src|
        invariant all == S.Prepend(out, S.ReadSels(src[pos..]))
        decreases |src| - pos
      {
        SkipWS();
        if Eof() {
          return None;
        }
        if Peek('}') {
          assert out + [] == out;
          pos := pos + 1;
          return Some(out);
        }
        var sel := ParseSelection();
        if sel.None? {
          return None;
        }
        S.PrependOne(out, sel.value, S.ReadSels(src[pos..]));
        out := out + [sel.value];
      }
    }

    method ParseSelection() returns (r: Option<Selection>)
      requires pos < |src|
      modifies this
      ensures r.Some? == S.ReadSel(src[old(pos)..]).Ok?
      ensures r.Some? ==> old(pos) < pos <= |src| && S.ReadSel(src[old(pos)..]) == S.Ok(r.value, src[pos..])
      decreases |src| - pos, 2
    {
      if pos + 2 < |src| && src[pos] == '.' && src[pos + 1] == '.' && src[pos + 2] == '.' {
        assert "..." <= src[pos..];
        pos := pos + 3;
        SkipWS();
        var ident := ReadIdent();
        if ident == "on" {
          var typeName := ReadIdent();
          SkipWS();
          var dirs := ParseDirectives();
          if dirs.None? {
            return None;
          }
          var sels := ParseSelectionSet();
          if sels.None? {
            return None;
          }
          return Some(Inline(typeName, sels.value));
        }
        return Some(Spread(ident));
      }
      var f := ParseField();
      r := if f.None? then None else Some(FieldSel(f.value));
    }

    method ParseHead() returns (r: Option<(string, string)>)
      requires pos <= |src|
      modifies this
      ensures r.Some? == S.ReadHead(src[old(pos)..]).Ok?
      ensures r.Some? ==> old(pos) < pos <= |src| && S.ReadHead(src[old(pos)..]) == S.Ok(r.value, src[pos..])
    {
      var name := ReadIdent();
      if name == "" {
        return None;
      }
      SkipWS();
      ghost var t := src[pos..];
      assert t == S.SkipWS(S.AfterName(src[old(pos)..]));
      if !Peek(':') {
        return Some((name, ""));
      }
      pos := pos + 1;
      SkipWS();
      ghost var u := src[pos..];
      assert u == S.SkipWS(t[1..]);
      var alias := name;
      name := ReadIdent();
      if name == "" {
        return None;
      }
      SkipWS();
      r := Some((name, alias));
    }

    method ParseOptionalArgs() returns (r: Option<map<string, ArgValue>>)
      requires pos <= |src|
      modifies this
      ensures r.Some? == S.ReadOptionalArgs(src[old(pos)..]).Ok?
      ensures r.Some? ==> old(pos) <= pos <= |src| && S.ReadOptionalArgs(src[old(pos)..]) == S.Ok(r.value, src[pos..])
    {
      r := Some(map[]);
      if Peek('(') {
        r := ParseArgs();
      }
    }

    method ParseField() returns (r: Option<Field>)
      requires pos <= |src|
      modifies this
      ensures r.Some? == S.ReadField(src[old(pos)..]).Ok?
      ensures r.Some? ==> old(pos) < pos <= |src| && S.ReadField(src[old(pos)..]) == S.Ok(r.value, src[pos..])
      decreases |src| - pos, 1
    {
      r := ParseFlatField();
      if r.None? {
        return;
      }
      if Peek('{') {
        var sub := ParseSelectionSet();
        if sub.None? {
          return None;
        }
        r := Some(r.value.(sels := sub.value));
      }
    }

    method ParseFlatField() returns (r: Option<Field>)
      requires pos <= |src|
      modifies this
      ensures r.Some? == S.ReadFlatField(src[old(pos)..]).Ok?
      ensures r.Some? ==> old(pos) < pos <= |src| && S.ReadFlatField(src[old(pos)..]) == S.Ok(r.value, src[pos..])
    {
      var head := ParseHead();
      if head.None? {
        return None;
      }
      var args := ParseOptionalArgs();
      if args.None? {
        return None;
      }
      SkipWS();
      var dirs := ParseDirectives();
      if dirs.None? {
        return None;
      }
      r := Some(Field(head.value.0, head.value.1, args.value, dirs.value, []));
    }

    method ParseOperation(kind: OperationKind) returns (r: Option<Operation>)
      requires pos <= |src|
      modifies this
      ensures r.Some? == S.ReadOperation(src[old(pos)..], kind).Ok?
      ensures r.Some? ==>
        old(pos) < pos <= |src| && S.ReadOperation(src[old(pos)..], kind) == S.Ok(r.value, src[pos..])
    {
      var name := ReadIdent();
      SkipWS();
      var ok := SkipOptional();
      if !ok {
        return None;
      }
      SkipWS();
      var dirs := ParseDirectives();
      if dirs.None? {
        return None;
      }
      var sels := ParseSelectionSet();
      r := if sels.None? then None else Some(Operation(kind, name, sels.value));
    }

    method ParseFragment() returns (r: Option<Fragment>)
      requires pos <= |src|
      modifies this
      ensures r.Some? == S.ReadFragment(src[old(pos)..]).Ok?
      ensures r.Some? ==>
        old(pos) < pos <= |src| && S.ReadFragment(src[old(pos)..]) == S.Ok(r.value, src[pos..])
    {
      var name := ReadIdent();
      if name == "" {
        return None;
      }
      var on := ReadIdent();
      if on != "on" {
        return None;
      }
      var onType := ReadIdent();
      if onType == "" {
        return None;
      }
      var sels := ParseSelectionSet();
      r := if sels.None? then None else Some(Fragment(name, onType, sels.value));
    }
  }

  /** Total on every input; agrees with the reading functions, and every raw
      argument value in the result is safe for the executor's escape skip. */
  method ParseQuery(src: string) returns (r: Option<Document>)
    ensures r.Some? == S.ReadDocument(src).Ok?
    ensures r.Some? ==> r.value == S.ReadDocument(src).value && S.SafeDocument(r.value)
  {
    var p := new Parser(src);
    assert src[0..] == src;
    p.SkipWS();
    if p.Peek('{') {
      var sels := p.ParseSelectionSet();
      if sels.None? {
        return None;
      }
      p.SkipWS();
      if !p.Eof() {
        return None;
      }
      return Some(Document([Operation(OpQuery, "", sels.value)], map[]));
    }
    var doc := Document([], map[]);
    ghost var all := src[p.pos..];
    while !p.Eof()
      invariant p.src == src && p.pos <= |src|
      invariant S.ReadDefinitions(all, Document([], map[])) == S.ReadDefinitions(src[p.pos..], doc)
      decreases |src| - p.pos
    {
      var kw := p.ReadIdent();
      if kw == "query" || kw == "mutation" {
        var op := p.ParseOperation(if kw == "mutation" then OpMutation else OpQuery);
        if op.None? {
          return None;
        }
        doc := doc.(operations := doc.operations + [op.value]);
      } else if kw == "fragment" {
        var frag := p.ParseFragment();
        if frag.None? {
          return None;
        }
        doc := doc.(fragments := doc.fragments[frag.value.name := frag.value]);
      } else {
        return None;
      }
      p.SkipWS();
    }
    if |doc.operations| == 0 {
      return None;
    }
    r := Some(doc);
  }
}
