/** `Interpolate` of `src/template/template.ts`: two global regular-expression
    replacements, first of `<%%=\s*requestBody\s*=%%>` by the request body and
    then of `<%%=\s*scriptContent\s*=%%>` by the script content. Replacement
    values are inserted literally (values containing `$` patterns are not
    modelled). */
module Template {
  import opened Wrappers

  const Open := "<%%="
  const Close := "=%%>"
  const RequestBodyName := "requestBody"
  const ScriptContentName := "scriptContent"

  /** The characters `\s` matches in a JavaScript regular expression: the
      ASCII blanks, the line terminators and the Unicode space separators. */
  predicate IsJsWhitespace(c: char) {
    || c == ' ' || c == '\t' || c == '\n' || c == '\r' || c == '\U{000B}' || c == '\U{000C}'
    || c == '\U{00A0}' || c == '\U{1680}' || ('\U{2000}' <= c <= '\U{200A}')
    || c == '\U{2028}' || c == '\U{2029}' || c == '\U{202F}' || c == '\U{205F}'
    || c == '\U{3000}' || c == '\U{FEFF}'
  }

  predicate AllWhitespace(s: string) {
    forall i :: 0 <= i < |s| ==> IsJsWhitespace(s[i])
  }

  /** Length of the longest run of whitespace at the front of `s`. */
  function WhitespaceRun(s: string): (n: nat)
    ensures n <= |s|
  {
    if s == [] || !IsJsWhitespace(s[0]) then 0 else 1 + WhitespaceRun(s[1..])
  }

  predicate StartsWith(s: string, prefix: string) {
    |prefix| <= |s| && s[..|prefix|] == prefix
  }

  lemma StartsWithConcat(prefix: string, rest: string)
    ensures StartsWith(prefix + rest, prefix) && (prefix + rest)[|prefix|..] == rest
  {
  }

  /** Length of the match of `\s*=%%>` at the front of `s`, if any. */
  function CloseAt(s: string): (m: Option<nat>)
    ensures m.Some? ==> |Close| <= m.value <= |s|
  {
    var w := WhitespaceRun(s);
    if StartsWith(s[w..], Close) then Some(w + |Close|) else None
  }

  /** Adds `k` to a match length found `k` characters further on. */
  function Shift(m: Option<nat>, k: nat): Option<nat> {
    if m.None? then None else Some(k + m.value)
  }

  /** Length of the match of `\s*name\s*=%%>` at the front of `s`, if any. */
  function NameAt(s: string, name: string): (m: Option<nat>)
    ensures m.Some? ==> |Close| <= m.value <= |s|
  {
    var w := WhitespaceRun(s);
    if !StartsWith(s[w..], name) then None
    else Shift(CloseAt(s[w + |name|..]), w + |name|)
  }

  /** Length of the match of `<%%=\s*name\s*=%%>` at the front of `s`, if any.
      The name starts with a non-whitespace character, so the greedy `\s*`
      never has to give characters back and the match is unique. */
  function TokenAt(s: string, name: string): (m: Option<nat>)
    ensures m.Some? ==> |Open| + |Close| <= m.value <= |s|
  {
    if !StartsWith(s, Open) then None
    else Shift(NameAt(s[|Open|..], name), |Open|)
  }

  /** `s.replace(/<%%=\s*name\s*=%%>/g, value)`: scanning left to right, each
      match is replaced and scanning resumes after it. */
  function ReplaceToken(s: string, name: string, value: string): string
    decreases |s|
  {
    if s == [] then []
    else match TokenAt(s, name)
      case Some(n) => value + ReplaceToken(s[n..], name, value)
      case None => [s[0]] + ReplaceToken(s[1..], name, value)
  }

  function Interpolate(content: string, requestBody: string, scriptContent: string): string {
    ReplaceToken(ReplaceToken(content, RequestBodyName, requestBody), ScriptContentName, scriptContent)
  }

  /** True when no match of the token starts anywhere in `s`. */
  predicate NoToken(s: string, name: string) {
    forall i :: 0 <= i <= |s| ==> TokenAt(s[i..], name).None?
  }

  /** Text that holds no token is returned unchanged. */
  lemma {:induction false} ReplaceTokenAbsent(s: string, name: string, value: string)
    requires NoToken(s, name)
    ensures ReplaceToken(s, name, value) == s
  {
    if s != [] {
      assert TokenAt(s[0..], name).None?;
      assert s[0..] == s;
      assert NoToken(s[1..], name) by {
        forall i | 0 <= i <= |s[1..]|
          ensures TokenAt(s[1..][i..], name).None?
        {
          assert s[1..][i..] == s[i + 1..];
        }
      }
      ReplaceTokenAbsent(s[1..], name, value);
    }
  }

  /** A template holding neither token interpolates to itself. */
  lemma InterpolateWithoutTokens(content: string, requestBody: string, scriptContent: string)
    requires NoToken(content, RequestBodyName) && NoToken(content, ScriptContentName)
    ensures Interpolate(content, requestBody, scriptContent) == content
  {
    ReplaceTokenAbsent(content, RequestBodyName, requestBody);
    ReplaceTokenAbsent(content, ScriptContentName, scriptContent);
  }

  /** A template as a sequence of literal text and tokens; a token may carry
      any whitespace between its delimiters and its name. */
  datatype Piece = Lit(text: string) | Token(name: string, before: string, after: string)

  function PieceText(p: Piece): string {
    match p
    case Lit(t) => t
    case Token(n, b, a) => Open + b + n + a + Close
  }

  function Render(pieces: seq<Piece>): string {
    if pieces == [] then [] else PieceText(pieces[0]) + Render(pieces[1..])
  }

  /** What one replacement pass should produce: every token named `name`
      becomes `value`, everything else is kept. */
  function Fill(pieces: seq<Piece>, name: string, value: string): string {
    if pieces == [] then []
    else
      var p := pieces[0];
      (if p.Token? && p.name == name then value else PieceText(p)) + Fill(pieces[1..], name, value)
  }

  /** No match can start at the front of `u`, whatever text follows it:
      `u` neither starts with `<%%=` nor is a non-empty proper prefix of it. */
  predicate OpenBlocked(u: string) {
    if |u| >= |Open| then u[..|Open|] != Open else u != Open[..|u|]
  }

  /** Literal text in which no match starts: it holds no `<%%=` and does not
      end in a non-empty proper prefix of it. Any other `<`, as in the
      comparisons of a script, is allowed. */
  predicate NoOpenStart(t: string) {
    t == [] || (OpenBlocked(t) && NoOpenStart(t[1..]))
  }

  /** Text without `<` never starts a match. */
  lemma {:induction false} NoAngleNoOpen(t: string)
    requires '<' !in t
    ensures NoOpenStart(t)
  {
    if t != [] {
      assert t[0] != Open[0];
      if |t| >= |Open| {
        assert t[..|Open|][0] != Open[0];
      } else {
        assert Open[..|t|][0] == '<';
      }
      assert '<' !in t[1..] by {
        forall i | 0 <= i < |t[1..]| ensures t[1..][i] != '<' {
          assert t[1..][i] == t[i + 1];
        }
      }
      NoAngleNoOpen(t[1..]);
    }
  }

  /** Literal text starts no match; token names hold no `<`; a token is
      delimited by whitespace only and its name starts with a non-whitespace
      character that differs from the first character of `name` unless it is
      `name`. */
  predicate PieceOk(p: Piece, name: string) {
    match p
    case Lit(t) => NoOpenStart(t)
    case Token(n, b, a) =>
      && AllWhitespace(b) && AllWhitespace(a) && n != []
      && !IsJsWhitespace(n[0]) && '<' !in n && (n == name || (name != [] && n[0] != name[0]))
  }

  predicate WellFormedFor(pieces: seq<Piece>, name: string) {
    && name != [] && !IsJsWhitespace(name[0])
    && forall i :: 0 <= i < |pieces| ==> PieceOk(pieces[i], name)
  }

  lemma {:induction false} WhitespaceRunPrefix(w: string, rest: string)
    requires AllWhitespace(w)
    requires rest == [] || !IsJsWhitespace(rest[0])
    ensures WhitespaceRun(w + rest) == |w|
  {
    if w != [] {
      assert (w + rest)[1..] == w[1..] + rest;
      WhitespaceRunPrefix(w[1..], rest);
    } else {
      assert w + rest == rest;
    }
  }

  lemma CloseAtWhitespace(w: string, rest: string)
    requires AllWhitespace(w)
    ensures CloseAt(w + Close + rest) == Some(|w| + |Close|)
  {
    var s := w + (Close + rest);
    assert w + Close + rest == s;
    WhitespaceRunPrefix(w, Close + rest);
    StartsWithConcat(w, Close + rest);
    StartsWithConcat(Close, rest);
  }

  lemma NameAtUnfold(s: string, name: string, w: nat)
    requires w == WhitespaceRun(s) && StartsWith(s[w..], name)
    ensures NameAt(s, name) == Shift(CloseAt(s[w + |name|..]), w + |name|)
  {
  }

  /** After leading whitespace, a name is matched and the close delimiter
      is looked for right after it. */
  lemma {:induction false} NameAtPrefix(before: string, name: string, tail: string)
    requires name != [] && !IsJsWhitespace(name[0]) && AllWhitespace(before)
    ensures NameAt(before + (name + tail), name) == Shift(CloseAt(tail), |before| + |name|)
  {
    var inner := name + tail;
    var s := before + inner;
    WhitespaceRunPrefix(before, inner);
    StartsWithConcat(before, inner);
    StartsWithConcat(name, tail);
    assert s[|before| + |name|..] == inner[|name|..];
    NameAtUnfold(s, name, |before|);
  }

  lemma NameAtWhitespace(before: string, name: string, after: string, rest: string)
    requires name != [] && !IsJsWhitespace(name[0])
    requires AllWhitespace(before) && AllWhitespace(after)
    ensures NameAt(before + name + after + Close + rest, name) == Some(|before| + |name| + |after| + |Close|)
  {
    var tail := after + Close + rest;
    assert before + name + after + Close + rest == before + (name + tail);
    NameAtPrefix(before, name, tail);
    CloseAtWhitespace(after, rest);
  }

  /** A token of the searched name is matched exactly over its own text. */
  lemma TokenMatches(name: string, before: string, after: string, rest: string)
    requires name != [] && !IsJsWhitespace(name[0])
    requires AllWhitespace(before) && AllWhitespace(after)
    ensures TokenAt(Open + before + name + after + Close + rest, name)
            == Some(|Open + before + name + after + Close|)
  {
    var tail := before + name + after + Close + rest;
    assert Open + before + name + after + Close + rest == Open + tail;
    StartsWithConcat(Open, tail);
    NameAtWhitespace(before, name, after, rest);
  }

  /** A token of another name, starting with a different letter, is not a match. */
  lemma TokenOtherName(n: string, before: string, after: string, rest: string, name: string)
    requires name != [] && n != [] && !IsJsWhitespace(n[0]) && n[0] != name[0]
    requires AllWhitespace(before)
    ensures TokenAt(Open + before + n + after + Close + rest, name).None?
  {
    var inner := n + after + Close + rest;
    var tail := before + inner;
    assert Open + before + n + after + Close + rest == Open + tail;
    StartsWithConcat(Open, tail);
    WhitespaceRunPrefix(before, inner);
    StartsWithConcat(before, inner);
    assert tail[|before|..][0] == n[0];
  }

  /** Text in which no match starts is copied through, whatever follows. */
  lemma {:induction false} ReplaceTokenLiteral(t: string, rest: string, name: string, value: string)
    requires NoOpenStart(t)
    ensures ReplaceToken(t + rest, name, value) == t + ReplaceToken(rest, name, value)
  {
    if t != [] {
      LiteralStep(t, rest, name, value);
      ReplaceTokenLiteral(t[1..], rest, name, value);
      ConsFront(t, ReplaceToken(rest, name, value));
    } else {
      assert t + rest == rest;
    }
  }

  lemma ConsFront(t: string, x: string)
    requires t != []
    ensures [t[0]] + (t[1..] + x) == t + x
  {
    assert t == [t[0]] + t[1..];
  }

  /** The first character of literal text is copied, and the rest is
      literal text again. */
  lemma LiteralStep(t: string, rest: string, name: string, value: string)
    requires t != [] && NoOpenStart(t)
    ensures ReplaceToken(t + rest, name, value) == [t[0]] + ReplaceToken(t[1..] + rest, name, value)
    ensures NoOpenStart(t[1..])
  {
    var s := t + rest;
    BlockedFront(t, rest);
    CopyFront(s, name, value);
    assert s[1..] == t[1..] + rest;
  }

  /** Where no match starts, one character is copied. */
  lemma CopyFront(s: string, name: string, value: string)
    requires s != [] && !StartsWith(s, Open)
    ensures ReplaceToken(s, name, value) == [s[0]] + ReplaceToken(s[1..], name, value)
  {
    CopyUnmatched(s, name, value);
  }

  lemma CopyUnmatched(s: string, name: string, value: string)
    requires s != [] && TokenAt(s, name).None?
    ensures ReplaceToken(s, name, value) == [s[0]] + ReplaceToken(s[1..], name, value)
  {
  }

  /** Text blocked at its front starts no match there, whatever follows. */
  lemma BlockedFront(t: string, rest: string)
    requires t != [] && OpenBlocked(t)
    ensures !StartsWith(t + rest, Open)
  {
    var s := t + rest;
    if |t| >= |Open| {
      assert s[..|Open|] == t[..|Open|];
    } else if |s| >= |Open| {
      assert s[..|Open|][..|t|] == t;
    }
  }

  /** The text after a match begins right after the matched token. */
  lemma {:induction false} ReplaceTokenAfter(tok: string, rest: string, name: string, value: string, out: string)
    requires tok != [] && TokenAt(tok + rest, name) == Some(|tok|)
    requires out == value
    ensures ReplaceToken(tok + rest, name, value) == out + ReplaceToken(rest, name, value)
  {
    assert (tok + rest)[|tok|..] == rest;
  }

  lemma WhitespaceHasNoAngle(w: string)
    requires AllWhitespace(w)
    ensures '<' !in w
  {
  }

  /** A token of another name is copied through. */
  lemma OtherTokenStep(n: string, b: string, a: string, rest: string, name: string, value: string)
    requires name != [] && n != [] && !IsJsWhitespace(n[0]) && n[0] != name[0] && '<' !in n
    requires AllWhitespace(b) && AllWhitespace(a)
    ensures ReplaceToken(Open + b + n + a + Close + rest, name, value)
            == Open + b + n + a + Close + ReplaceToken(rest, name, value)
  {
    var tok := Open + b + n + a + Close;
    assert Open + b + n + a + Close + rest == tok + rest;
    TokenOtherName(n, b, a, rest, name);
    CopyUnmatched(tok + rest, name, value);
    var tail := tok[1..];
    assert (tok + rest)[1..] == tail + rest;
    TokenTailNoAngle(n, b, a);
    NoAngleNoOpen(tail);
    ReplaceTokenLiteral(tail, rest, name, value);
    ConsFront(tok, ReplaceToken(rest, name, value));
  }

  /** After its first character, a token without `<` in its name holds no
      `<`. */
  lemma TokenTailNoAngle(n: string, b: string, a: string)
    requires '<' !in n && AllWhitespace(b) && AllWhitespace(a)
    ensures '<' !in (Open + b + n + a + Close)[1..]
  {
    var tok := Open + b + n + a + Close;
    assert tok[1..] == Open[1..] + b + n + a + Close;
    assert '<' !in Open[1..] && '<' !in Close;
    WhitespaceHasNoAngle(b);
    WhitespaceHasNoAngle(a);
  }

  /** One piece followed by any text: the piece is replaced as `Fill` says. */
  lemma PieceStep(p: Piece, rest: string, name: string, value: string)
    requires name != [] && !IsJsWhitespace(name[0]) && PieceOk(p, name)
    ensures ReplaceToken(PieceText(p) + rest, name, value)
            == (if p.Token? && p.name == name then value else PieceText(p)) + ReplaceToken(rest, name, value)
  {
    match p {
      case Lit(t) =>
        ReplaceTokenLiteral(t, rest, name, value);
      case Token(n, b, a) =>
        if n == name {
          TokenMatches(name, b, a, rest);
          ReplaceTokenAfter(Open + b + n + a + Close, rest, name, value, value);
        } else {
          OtherTokenStep(n, b, a, rest, name, value);
        }
    }
  }

  /** One pass replaces exactly the tokens of its name: the reference
      definition `Fill` and the scanning replacement agree. */
  lemma {:induction false} ReplaceTokenRender(pieces: seq<Piece>, name: string, value: string)
    requires WellFormedFor(pieces, name)
    ensures ReplaceToken(Render(pieces), name, value) == Fill(pieces, name, value)
  {
    if pieces != [] {
      assert WellFormedFor(pieces[1..], name) by {
        forall i | 0 <= i < |pieces[1..]| ensures PieceOk(pieces[1..][i], name) {
          assert pieces[1..][i] == pieces[i + 1];
        }
      }
      ReplaceTokenRender(pieces[1..], name, value);
      assert PieceOk(pieces[0], name);
      PieceStep(pieces[0], Render(pieces[1..]), name, value);
    }
  }

  /** `Interpolate` replaces every token of both names, the request body
      first: a `scriptContent` token carried in by the request body is
      replaced by the second pass too. */
  lemma {:induction false} InterpolateRender(pieces: seq<Piece>, second: seq<Piece>, requestBody: string, scriptContent: string)
    requires WellFormedFor(pieces, RequestBodyName)
    requires WellFormedFor(second, ScriptContentName)
    requires Render(second) == Fill(pieces, RequestBodyName, requestBody)
    ensures Interpolate(Render(pieces), requestBody, scriptContent) == Fill(second, ScriptContentName, scriptContent)
  {
    ReplaceTokenRender(pieces, RequestBodyName, requestBody);
    ReplaceTokenRender(second, ScriptContentName, scriptContent);
  }

  lemma RenderCons(p: Piece, rest: seq<Piece>)
    ensures Render([p] + rest) == PieceText(p) + Render(rest)
  {
    assert ([p] + rest)[1..] == rest;
  }

  lemma FillCons(p: Piece, rest: seq<Piece>, name: string, value: string)
    ensures Fill([p] + rest, name, value)
            == (if p.Token? && p.name == name then value else PieceText(p)) + Fill(rest, name, value)
  {
    assert ([p] + rest)[1..] == rest;
  }

  /** The text of one piece after a pass for `name`. */
  function Filled(p: Piece, name: string, value: string): string {
    if p.Token? && p.name == name then value else PieceText(p)
  }

  lemma Render3(p0: Piece, p1: Piece, p2: Piece)
    ensures Render([p0, p1, p2]) == PieceText(p0) + (PieceText(p1) + PieceText(p2))
  {
    RenderCons(p2, []);
    assert [p2] == [p2] + [];
    RenderCons(p1, [p2]);
    assert [p1, p2] == [p1] + [p2];
    RenderCons(p0, [p1, p2]);
    assert [p0, p1, p2] == [p0] + [p1, p2];
  }

  lemma Fill3(p0: Piece, p1: Piece, p2: Piece, name: string, value: string)
    ensures Fill([p0, p1, p2], name, value)
            == Filled(p0, name, value) + (Filled(p1, name, value) + Filled(p2, name, value))
  {
    FillCons(p2, [], name, value);
    assert [p2] == [p2] + [];
    FillCons(p1, [p2], name, value);
    assert [p1, p2] == [p1] + [p2];
    FillCons(p0, [p1, p2], name, value);
    assert [p0, p1, p2] == [p0] + [p1, p2];
  }

  lemma Render5(p0: Piece, p1: Piece, p2: Piece, p3: Piece, p4: Piece)
    ensures Render([p0, p1, p2, p3, p4])
            == PieceText(p0) + (PieceText(p1) + (PieceText(p2) + (PieceText(p3) + PieceText(p4))))
  {
    Render3(p2, p3, p4);
    RenderCons(p1, [p2, p3, p4]);
    assert [p1, p2, p3, p4] == [p1] + [p2, p3, p4];
    RenderCons(p0, [p1, p2, p3, p4]);
    assert [p0, p1, p2, p3, p4] == [p0] + [p1, p2, p3, p4];
  }

  lemma Fill5(p0: Piece, p1: Piece, p2: Piece, p3: Piece, p4: Piece, name: string, value: string)
    ensures Fill([p0, p1, p2, p3, p4], name, value)
            == Filled(p0, name, value) + (Filled(p1, name, value) + (Filled(p2, name, value)
               + (Filled(p3, name, value) + Filled(p4, name, value))))
  {
    Fill3(p2, p3, p4, name, value);
    FillCons(p1, [p2, p3, p4], name, value);
    assert [p1, p2, p3, p4] == [p1] + [p2, p3, p4];
    FillCons(p0, [p1, p2, p3, p4], name, value);
    assert [p0, p1, p2, p3, p4] == [p0] + [p1, p2, p3, p4];
  }

  lemma RenderOne(p: Piece)
    ensures Render([p]) == PieceText(p)
  {
    RenderCons(p, []);
    assert [p] == [p] + [];
  }

  /** A request body that itself holds a `scriptContent` token gets that
      token replaced by the second pass, whatever whitespace pads either
      token. */
  lemma RequestBodyPassFirst(b: string, a: string, b2: string, a2: string, scriptContent: string)
    requires AllWhitespace(b) && AllWhitespace(a) && AllWhitespace(b2) && AllWhitespace(a2)
    ensures Interpolate(Open + b + RequestBodyName + a + Close, Open + b2 + ScriptContentName + a2 + Close, scriptContent)
            == scriptContent
  {
    var first := Token(RequestBodyName, b, a);
    var second := Token(ScriptContentName, b2, a2);
    RenderOne(first);
    RenderOne(second);
    assert Fill([first], RequestBodyName, PieceText(second)) == PieceText(second) by {
      FillCons(first, [], RequestBodyName, PieceText(second));
      assert [first] == [first] + [];
    }
    assert Fill([second], ScriptContentName, scriptContent) == scriptContent by {
      FillCons(second, [], ScriptContentName, scriptContent);
      assert [second] == [second] + [];
    }
    InterpolateRender([first], [second], PieceText(second), scriptContent);
  }

  /** The pieces of the pre-request template of the tests: literal text, a
      request-body token, literal text, a script-content token padded with
      two blanks before and one after its name, and literal text. */
  function TwoTokenPieces(head: string, middle: string, tail: string): seq<Piece> {
    [Lit(head), Token(RequestBodyName, "", ""), Lit(middle), Token(ScriptContentName, "  ", " "), Lit(tail)]
  }

  /** The same template after the request-body pass. */
  function AfterFirstPass(head: string, middle: string, tail: string, body: string): seq<Piece> {
    [Lit(head + body + middle), Token(ScriptContentName, "  ", " "), Lit(tail)]
  }

  lemma TwoTokenFill(head: string, middle: string, tail: string, body: string)
    ensures Fill(TwoTokenPieces(head, middle, tail), RequestBodyName, body)
            == Render(AfterFirstPass(head, middle, tail, body))
  {
    var n := RequestBodyName;
    var other := Token(ScriptContentName, "  ", " ");
    var t := PieceText(other);
    assert Filled(other, n, body) == t by {
      assert ScriptContentName[0] != n[0];
    }
    Fill5(Lit(head), Token(n, "", ""), Lit(middle), other, Lit(tail), n, body);
    Render3(Lit(head + body + middle), other, Lit(tail));
    ConcatAssoc(head, body, middle, t + tail);
  }

  lemma ConcatAssoc(a: string, b: string, c: string, d: string)
    ensures a + (b + (c + d)) == (a + b + c) + d
  {
  }

  lemma TwoTokenSecondFill(first: string, tail: string, script: string)
    ensures Fill([Lit(first), Token(ScriptContentName, "  ", " "), Lit(tail)], ScriptContentName, script)
            == first + script + tail
  {
    Fill3(Lit(first), Token(ScriptContentName, "  ", " "), Lit(tail), ScriptContentName, script);
  }

  /** The worked example of the template tests: a request body without `<`
      is inserted verbatim in place of its token, and the script content in
      place of the padded script-content token after it. */
  lemma InterpolateTwoTokens(head: string, middle: string, tail: string, body: string, script: string)
    requires '<' !in head && '<' !in middle && '<' !in tail && '<' !in body
    ensures Interpolate(Render(TwoTokenPieces(head, middle, tail)), body, script) == head + body + middle + script + tail
  {
    TwoTokenFill(head, middle, tail, body);
    TwoTokenSecondFill(head + body + middle, tail, script);
    TwoTokenWellFormed(head, middle, tail, body);
    InterpolateRender(TwoTokenPieces(head, middle, tail), AfterFirstPass(head, middle, tail, body), body, script);
  }

  lemma TwoTokenWellFormed(head: string, middle: string, tail: string, body: string)
    requires '<' !in head && '<' !in middle && '<' !in tail && '<' !in body
    ensures WellFormedFor(TwoTokenPieces(head, middle, tail), RequestBodyName)
    ensures WellFormedFor(AfterFirstPass(head, middle, tail, body), ScriptContentName)
  {
    NoAngleNoOpen(head);
    NoAngleNoOpen(middle);
    NoAngleNoOpen(tail);
    NoAngleNoOpen(head + body + middle);
    TwoTokensOk();
    var p := TwoTokenPieces(head, middle, tail);
    assert forall i :: 0 <= i < |p| ==> PieceOk(p[i], RequestBodyName) by {
      assert p[0] == Lit(head) && p[2] == Lit(middle) && p[4] == Lit(tail);
    }
    var q := AfterFirstPass(head, middle, tail, body);
    assert forall i :: 0 <= i < |q| ==> PieceOk(q[i], ScriptContentName) by {
      assert q[0] == Lit(head + body + middle) && q[2] == Lit(tail);
    }
  }

  /** The two tokens of the template tests are well formed for both names. */
  lemma TwoTokensOk()
    ensures RequestBodyName != [] && !IsJsWhitespace(RequestBodyName[0])
    ensures ScriptContentName != [] && !IsJsWhitespace(ScriptContentName[0])
    ensures PieceOk(Token(RequestBodyName, "", ""), RequestBodyName)
    ensures PieceOk(Token(ScriptContentName, "  ", " "), RequestBodyName)
    ensures PieceOk(Token(ScriptContentName, "  ", " "), ScriptContentName)
  {
    assert AllWhitespace("  ") && AllWhitespace(" ");
  }
}
