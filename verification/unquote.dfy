/** `unquoteReplacer` of `src/converter/converter.ts`: a global replace of
    the pattern `"<unquote>[^"]+"` in serialized JSON. Each match, a quoted
    string whose text starts with the marker and continues with at least one
    more character before the next quote, is replaced by that rest without
    quotes and marker. The scan runs left to right and resumes after each
    match, so matches never overlap.

    `Unquote` is the scan; `Chunk` describes serialized text as a sequence of
    plain runs, ordinary quoted strings and marked strings, and
    `UnquoteRender` says what the scan does to such text. */
module Unquote {
  import opened Wrappers

  const Marker := "<unquote>"

  /** The first quote at or after `from`, if any. */
  function NextQuote(s: string, from: nat): (r: Option<nat>)
    requires from <= |s|
    ensures r.Some? ==> from <= r.value < |s| && s[r.value] == '"'
    ensures r.Some? ==> forall i :: from <= i < r.value ==> s[i] != '"'
    ensures r.None? ==> forall i :: from <= i < |s| ==> s[i] != '"'
    decreases |s| - from
  {
    if from == |s| then None
    else if s[from] == '"' then Some(from)
    else NextQuote(s, from + 1)
  }

  /** Where a match starting at the front of `s` ends (exclusive), if one
      starts there. */
  function MatchEnd(s: string): (r: Option<nat>)
    ensures r.Some? ==> 1 + |Marker| < r.value - 1 < |s| && s[r.value - 1] == '"'
    ensures r.Some? ==> s[0] == '"' && s[1..1 + |Marker|] == Marker
    ensures r.Some? ==> forall i :: 1 + |Marker| <= i < r.value - 1 ==> s[i] != '"'
  {
    if |s| > |Marker| && s[0] == '"' && s[1..1 + |Marker|] == Marker then
      match NextQuote(s, 1 + |Marker|)
      case Some(q) => if q > 1 + |Marker| then Some(q + 1) else None
      case None => None
    else None
  }

  /** The replacement scan. */
  function Unquote(s: string): (r: string)
    ensures |r| <= |s|
    decreases |s|
  {
    if s == [] then []
    else
      match MatchEnd(s)
      case Some(e) => s[1 + |Marker|..e - 1] + Unquote(s[e..])
      case None => [s[0]] + Unquote(s[1..])
  }

  /** Text with no quote passes through the scan untouched. */
  lemma {:induction false} UnquoteNoQuote(t: string, rest: string)
    requires '"' !in t
    ensures Unquote(t + rest) == t + Unquote(rest)
  {
    if t != [] {
      var s := t + rest;
      assert s[0] == t[0] && t[0] in t;
      assert MatchEnd(s).None?;
      assert Unquote(s) == [s[0]] + Unquote(s[1..]);
      assert s[1..] == t[1..] + rest;
      assert '"' !in t[1..];
      UnquoteNoQuote(t[1..], rest);
      assert Unquote(s) == [t[0]] + (t[1..] + Unquote(rest));
      assert t == [t[0]] + t[1..];
    } else {
      assert t + rest == rest;
    }
  }

  /** Text that does not start with the marker's first character. */
  predicate NoLeadingAngle(s: string) {
    s == [] || s[0] != '<'
  }

  /** A quote followed by text that cannot continue a match is kept. */
  lemma QuoteKept(rest: string)
    requires NoLeadingAngle(rest)
    ensures Unquote(['"'] + rest) == ['"'] + Unquote(rest)
  {
    var s := ['"'] + rest;
    assert s[1..] == rest;
    if |s| > |Marker| {
      assert s[1] != Marker[0];
    }
  }

  /** Whether a quoted string's text makes it a match. */
  predicate IsMarked(t: string) {
    |t| > |Marker| && t[..|Marker|] == Marker
  }

  /** A string in quotes. */
  function Quote(t: string): (r: string)
    ensures |r| == |t| + 2 && r[0] == '"' && r[|r| - 1] == '"' && r[1..|r| - 1] == t
  {
    ['"'] + t + ['"']
  }

  /** No match starts at an ordinary quoted string. */
  lemma QuotedNoMatch(t: string, rest: string)
    requires '"' !in t && !IsMarked(t)
    ensures MatchEnd(Quote(t) + rest).None?
  {
    var s := Quote(t) + rest;
    assert s[1 + |t|] == '"';
    if |s| > |Marker| && s[1..1 + |Marker|] == Marker {
      assert |t| >= |Marker|;
      assert t[..|Marker|] == s[1..1 + |Marker|];
      assert |t| == |Marker|;
      assert NextQuote(s, 1 + |Marker|) == Some(1 + |t|);
    }
  }

  /** The scan steps over a first character where no match starts. */
  lemma UnquoteStep(s: string)
    requires s != [] && MatchEnd(s).None?
    ensures Unquote(s) == [s[0]] + Unquote(s[1..])
  {
  }

  lemma QuoteConcat(t: string, rest: string)
    ensures Quote(t) + rest == ['"'] + (t + (['"'] + rest))
  {
  }

  /** An ordinary quoted string is kept, quotes included. */
  lemma UnquoteQuoted(t: string, rest: string)
    requires '"' !in t && !IsMarked(t) && NoLeadingAngle(rest)
    ensures Unquote(Quote(t) + rest) == Quote(t) + Unquote(rest)
  {
    var tail := ['"'] + rest;
    var s := ['"'] + (t + tail);
    QuoteConcat(t, rest);
    QuotedNoMatch(t, rest);
    UnquoteStep(s);
    assert s[1..] == t + tail;
    UnquoteNoQuote(t, tail);
    QuoteKept(rest);
    QuoteConcat(t, Unquote(rest));
  }

  /** A marked string in quotes. */
  function MarkedQuote(t: string): (r: string)
    ensures r == Quote(Marker + t)
  {
    ['"'] + Marker + t + ['"']
  }

  /** A marked string is replaced by its text after the marker. */
  lemma UnquoteMarked(t: string, rest: string)
    requires '"' !in t && t != []
    ensures Unquote(MarkedQuote(t) + rest) == t + Unquote(rest)
  {
    var s := MarkedQuote(t) + rest;
    var q := 1 + |Marker| + |t|;
    assert s[1..1 + |Marker|] == Marker;
    assert s[q] == '"';
    assert forall i :: 1 + |Marker| <= i < q ==> s[i] == t[i - 1 - |Marker|];
    assert NextQuote(s, 1 + |Marker|) == Some(q);
    assert MatchEnd(s) == Some(q + 1);
    assert s[1 + |Marker|..q] == t;
    assert s[q + 1..] == rest;
  }

  /** A piece of serialized text: a run without quotes or `<`, an ordinary
      quoted string, or a marked quoted string. */
  datatype Chunk = Plain(text: string) | Quoted(text: string) | Marked(text: string)

  predicate ChunkOk(c: Chunk) {
    match c
    case Plain(t) => '"' !in t && '<' !in t
    case Quoted(t) => '"' !in t && !IsMarked(t)
    case Marked(t) => '"' !in t && t != []
  }

  /** The serialized text of the chunks. */
  function Render(chunks: seq<Chunk>): string {
    if chunks == [] then []
    else
      (match chunks[0]
       case Plain(t) => t
       case Quoted(t) => Quote(t)
       case Marked(t) => MarkedQuote(t))
      + Render(chunks[1..])
  }

  /** The text the scan should leave: marked strings lose their quotes and
      marker, everything else is kept. */
  function Expected(chunks: seq<Chunk>): string {
    if chunks == [] then []
    else
      (match chunks[0]
       case Plain(t) => t
       case Quoted(t) => Quote(t)
       case Marked(t) => t)
      + Expected(chunks[1..])
  }

  lemma {:induction false} RenderNoLeadingAngle(chunks: seq<Chunk>)
    requires forall i :: 0 <= i < |chunks| ==> ChunkOk(chunks[i])
    ensures NoLeadingAngle(Render(chunks))
  {
    if chunks != [] {
      RenderNoLeadingAngle(chunks[1..]);
      match chunks[0] {
        case Plain(t) =>
          if t != [] {
            assert t[0] in t;
          }
        case Quoted(t) =>
        case Marked(t) =>
      }
    }
  }

  /** The scan removes exactly the markers and quotes of marked strings. */
  lemma {:induction false} UnquoteRender(chunks: seq<Chunk>)
    requires forall i :: 0 <= i < |chunks| ==> ChunkOk(chunks[i])
    ensures Unquote(Render(chunks)) == Expected(chunks)
  {
    if chunks != [] {
      var rest := Render(chunks[1..]);
      RenderNoLeadingAngle(chunks[1..]);
      UnquoteRender(chunks[1..]);
      match chunks[0] {
        case Plain(t) =>
          UnquoteNoQuote(t, rest);
        case Quoted(t) =>
          UnquoteQuoted(t, rest);
        case Marked(t) =>
          UnquoteMarked(t, rest);
      }
    }
  }

  /** Text without a marked string, such as serialized JSON with no
      type placeholder, is left unchanged. */
  lemma UnquoteUnmarked(chunks: seq<Chunk>)
    requires forall i :: 0 <= i < |chunks| ==> ChunkOk(chunks[i]) && !chunks[i].Marked?
    ensures Unquote(Render(chunks)) == Render(chunks)
  {
    UnquoteRender(chunks);
    RenderExpectedUnmarked(chunks);
  }

  lemma {:induction false} RenderExpectedUnmarked(chunks: seq<Chunk>)
    requires forall i :: 0 <= i < |chunks| ==> !chunks[i].Marked?
    ensures Expected(chunks) == Render(chunks)
  {
    if chunks != [] {
      RenderExpectedUnmarked(chunks[1..]);
    }
  }
}
