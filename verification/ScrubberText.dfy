/** What the scrubber does to a line, stated on its text: which bodies are rewritten, what is
    copied, and what is still open at the end. */
module ScrubberText {
  import opened Texts
  import opened Scrubber
  import opened ScrubberProof
  import opened ScrubberFile

  // ---- texts ----

  /** close does not occur in body, nor across its end when it follows. */
  predicate EndsAt(body: string, close: string) { forall i | 0 <= i < |body| :: !At(body + close, close, i) }

  predicate Without(body: string, sub: string) { forall i | 0 <= i <= |body| :: !At(body, sub, i) }

  /** The quote that follows body is the first one an even number of backslashes precedes. */
  predicate EndsAtQuote(body: string, q: char) {
    Closes(body + [q], |body|, q) && forall i | 0 <= i < |body| :: !Closes(body + [q], i, q)
  }

  /** No quote in body is one that closes. */
  predicate WithoutQuote(body: string, q: char) { forall i | 0 <= i < |body| :: !Closes(body, i, q) }

  /** No comment, string or raw string starts in prefix when tail follows it. */
  predicate Quiet(prefix: string, tail: string, lang: Language) {
    forall i | 0 <= i < |prefix| ::
      var c := prefix[i];
      && c != '"' && c != '\''
      && (lang == Hash ==> c != '#')
      && (lang == Slashes ==> c != '`')
      && (lang == Slashes && c == '/' && i + 1 < |prefix + tail| ==> (prefix + tail)[i + 1] !in {'/', '*'})
  }

  /** The line is not the start of a triple-quoted string. */
  predicate NotTripled(s: string, q: char, lang: Language) {
    lang == Hash ==> !(|s| >= 3 && s[0] == q && s[1] == q && s[2] == q)
  }

  // ---- from texts to regions ----

  lemma {:induction false} FindIs(s: string, sub: string, k: nat)
    requires sub != "" && At(s, sub, k) && forall i | 0 <= i < k :: !At(s, sub, i)
    ensures Find(s, sub) == k
  {
    FindIsFirst(s, sub);
  }

  lemma {:induction false} EndsDelimits(d: Delimiter, body: string)
    requires !d.Escapes() && d.Close() != "" && EndsAt(body, d.Close())
    ensures Delimits(d, body)
  {
    assert (body + d.Close())[|body|..] == d.Close();
    FindIs(body + d.Close(), d.Close(), |body|);
  }

  lemma {:induction false} WithoutRuns(d: Delimiter, body: string)
    requires !d.Escapes() && d.Close() != "" && Without(body, d.Close())
    ensures CloseIn(d, body) == -1
  {
    FindIsFirst(body, d.Close());
  }

  lemma {:induction false} QuoteDelimits(d: Delimiter, body: string, q: char)
    requires d.Escapes() && d.Close() == [q] && q != '\\' && EndsAtQuote(body, q)
    ensures Delimits(d, body)
  {
    UnescapedIsFirstClosing(body + [q], q);
  }

  lemma {:induction false} QuoteRuns(d: Delimiter, body: string, q: char)
    requires d.Escapes() && d.Close() == [q] && q != '\\' && WithoutQuote(body, q)
    ensures CloseIn(d, body) == -1
  {
    UnescapedIsFirstClosing(body, q);
  }

  function Behind(head: string, w: (string, State)): (string, State) { (head + w.0, w.1) }

  /** The rewriting of a line that starts with a region that closes. */
  lemma {:induction false} SpanFirst(d: Delimiter, body: string, rest: string, lang: Language, scrub: string -> string)
    requires d != Nothing && OpenerOf'(SpanText(d, body, rest), lang) == d && Delimits(d, body)
    ensures Rewritten(SpanText(d, body, rest), Normal, lang, scrub)
            == Behind(d.Open() + BodyOf(d, body, scrub) + d.Close(), Rewritten(rest, Normal, lang, scrub))
  {
    var s, t, r := SpanText(d, body, rest), Span(d, body), Lex(rest, lang);
    SpanOpener(d, body, body, rest, rest, lang);
    SpanStays(d, body, body, rest, rest, lang);
    LexUnfolds(s, t, lang);
    assert s[|Text(t)|..] == rest;
    ThenGoesOn(t, s, rest, lang);
    StartWritten(t, r, "" + Text(Scrubbed(t, scrub)), scrub);
    SpanTextScrubbed(d, body, scrub);
  }

  lemma {:induction false} SpanTextScrubbed(d: Delimiter, body: string, scrub: string -> string)
    ensures "" + Text(Scrubbed(Span(d, body), scrub)) == d.Open() + BodyOf(d, body, scrub) + d.Close()
  {}

  /** The rewriting of a line that is a region left open. */
  lemma {:induction false} RunningFirst(d: Delimiter, body: string, lang: Language, scrub: string -> string)
    requires d != Nothing && OpenerOf'(d.Open() + body, lang) == d && CloseIn(d, body) == -1
    ensures Rewritten(d.Open() + body, Normal, lang, scrub)
            == (d.Open() + (if d.Escapes() then body else BodyOf(d, body, scrub)), d.Carried())
  {
    var s, t := d.Open() + body, Running(d, body);
    FirstIsRegion(s, d, body, lang);
    LexUnfolds(s, t, lang);
    FromNothing(Lexed([t], d.Carried()), scrub);
    LastWritten("", t, d.Carried(), scrub);
    RunningText(d, body, scrub);
    assert "" + Text(Scrubbed(t, scrub)) == Text(Scrubbed(t, scrub));
  }

  // ---- text outside of comments and strings ----

  /** Text in which nothing starts is copied, and what follows is rewritten on its own. */
  lemma {:induction false} CodeIsCopied(prefix: string, tail: string, lang: Language, scrub: string -> string)
    requires Quiet(prefix, tail, lang)
    ensures Rewritten(prefix + tail, Normal, lang, scrub) == Behind(prefix, Rewritten(tail, Normal, lang, scrub))
    decreases |prefix|
  {
    if prefix == "" {
      assert prefix + tail == tail;
      BehindNothing(Rewritten(tail, Normal, lang, scrub));
    } else {
      QuietRest(prefix, tail, lang);
      CodeIsCopied(prefix[1..], tail, lang, scrub);
      OneMoreCopied(prefix[0], prefix[1..], tail, lang, scrub, Rewritten(tail, Normal, lang, scrub));
      assert [prefix[0]] + prefix[1..] == prefix;
    }
  }

  lemma {:induction false} OneMoreCopied(c: char, more: string, tail: string, lang: Language, scrub: string -> string,
      w: (string, State))
    requires OpenerOf([c] + (more + tail), lang) == Nothing
    requires Rewritten(more + tail, Normal, lang, scrub) == Behind(more, w)
    ensures Rewritten([c] + more + tail, Normal, lang, scrub) == Behind([c] + more, w)
  {
    CharacterCopied(c, more + tail, lang, scrub);
    BehindBehind([c], more, w);
    SameText(c, more, tail);
  }

  lemma {:induction false} SameText(c: char, more: string, tail: string)
    ensures [c] + more + tail == [c] + (more + tail)
  {}

  lemma {:induction false} BehindBehind(a: string, b: string, w: (string, State))
    ensures Behind(a, Behind(b, w)) == Behind(a + b, w)
  {
    assert a + (b + w.0) == a + b + w.0;
  }

  lemma {:induction false} BehindNothing(w: (string, State))
    ensures Behind("", w) == w
  {
    assert "" + w.0 == w.0;
  }

  lemma {:induction false} QuietRest(prefix: string, tail: string, lang: Language)
    requires prefix != "" && Quiet(prefix, tail, lang)
    ensures Quiet(prefix[1..], tail, lang) && OpenerOf([prefix[0]] + (prefix[1..] + tail), lang) == Nothing
  {
    var more := prefix[1..];
    var s := [prefix[0]] + (more + tail);
    assert s == prefix + tail;
    forall i | 0 <= i < |more|
      ensures more[i] == prefix[i + 1] && (i + 1 < |more + tail| ==> (more + tail)[i + 1] == (prefix + tail)[i + 2])
    {}
  }

  lemma {:induction false} CharacterCopied(c: char, s: string, lang: Language, scrub: string -> string)
    requires OpenerOf([c] + s, lang) == Nothing
    ensures Rewritten([c] + s, Normal, lang, scrub) == Behind([c], Rewritten(s, Normal, lang, scrub))
  {
    var line := [c] + s;
    LexUnfolds(line, Plain(c), lang);
    assert line[1..] == s;
    ThenGoesOn(Plain(c), line, s, lang);
    StartWritten(Plain(c), Lex(s, lang), [c], scrub);
  }

  // ---- comments ----

  /** A line comment is rewritten to the end of the line. */
  lemma {:induction false} LineCommentIsScrubbed(body: string, scrub: string -> string)
    ensures Rewritten(['/', '/'] + body, Normal, Slashes, scrub) == (['/', '/'] + scrub(body), Normal)
    ensures Rewritten(['#'] + body, Normal, Hash, scrub) == (['#'] + scrub(body), Normal)
  {
    RunningFirst(LineComment(Slashes), body, Slashes, scrub);
    RunningFirst(LineComment(Hash), body, Hash, scrub);
  }

  /** A block comment is rewritten, closed or not. */
  lemma {:induction false} BlockCommentIsScrubbed(body: string, rest: string, scrub: string -> string)
    ensures EndsAt(body, ['*', '/']) ==>
      Rewritten(['/', '*'] + body + ['*', '/'] + rest, Normal, Slashes, scrub)
      == Behind(['/', '*'] + scrub(body) + ['*', '/'], Rewritten(rest, Normal, Slashes, scrub))
    ensures Without(body, ['*', '/']) ==>
      Rewritten(['/', '*'] + body, Normal, Slashes, scrub) == (['/', '*'] + scrub(body), Block)
  {
    var d := BlockComment;
    if EndsAt(body, ['*', '/']) {
      EndsDelimits(d, body);
      SpanFirst(d, body, rest, Slashes, scrub);
    }
    if Without(body, ['*', '/']) {
      WithoutRuns(d, body);
      RunningFirst(d, body, Slashes, scrub);
    }
  }

  // ---- strings ----

  /** A triple-quoted Python string is rewritten, closed or not. */
  lemma {:induction false} TripleIsScrubbed(q: char, body: string, rest: string, scrub: string -> string)
    requires q == '"' || q == '\''
    ensures EndsAt(body, [q, q, q]) ==>
      Rewritten([q, q, q] + body + [q, q, q] + rest, Normal, Hash, scrub)
      == Behind([q, q, q] + scrub(body) + [q, q, q], Rewritten(rest, Normal, Hash, scrub))
    ensures Without(body, [q, q, q]) ==>
      Rewritten([q, q, q] + body, Normal, Hash, scrub) == ([q, q, q] + scrub(body), Triple(q))
  {
    var d := TripleString(q);
    if EndsAt(body, [q, q, q]) {
      EndsDelimits(d, body);
      SpanFirst(d, body, rest, Hash, scrub);
    }
    if Without(body, [q, q, q]) {
      WithoutRuns(d, body);
      RunningFirst(d, body, Hash, scrub);
    }
  }

  /** A double-quoted string is rewritten in both languages. */
  lemma {:induction false} DoubleQuotedIsScrubbed(body: string, rest: string, lang: Language, scrub: string -> string)
    requires EndsAtQuote(body, '"') && NotTripled(['"'] + body + ['"'] + rest, '"', lang)
    ensures Rewritten(['"'] + body + ['"'] + rest, Normal, lang, scrub)
            == Behind(['"'] + scrub(body) + ['"'], Rewritten(rest, Normal, lang, scrub))
  {
    QuoteDelimits(DoubleQuoted, body, '"');
    SpanFirst(DoubleQuoted, body, rest, lang, scrub);
  }

  /** A single-quoted text is rewritten in Python and copied in Go and C. */
  lemma {:induction false} SingleQuotedIsScrubbedInPython(body: string, rest: string, lang: Language,
      scrub: string -> string)
    requires EndsAtQuote(body, '\'') && NotTripled(['\''] + body + ['\''] + rest, '\'', lang)
    ensures Rewritten(['\''] + body + ['\''] + rest, Normal, lang, scrub)
            == Behind(['\''] + (if lang == Hash then scrub(body) else body) + ['\''],
                Rewritten(rest, Normal, lang, scrub))
  {
    var d := SingleQuoted(lang);
    QuoteDelimits(d, body, '\'');
    SpanFirst(d, body, rest, lang, scrub);
  }

  /** A quote that nothing closes on its line is copied with all that follows it. */
  lemma {:induction false} LoneQuoteIsCopied(q: char, body: string, lang: Language, scrub: string -> string)
    requires (q == '"' || q == '\'') && WithoutQuote(body, q) && NotTripled([q] + body, q, lang)
    ensures Rewritten([q] + body, Normal, lang, scrub) == ([q] + body, Normal)
  {
    var d := if q == '"' then DoubleQuoted else SingleQuoted(lang);
    QuoteRuns(d, body, q);
    RunningFirst(d, body, lang, scrub);
  }

  /** A raw string of Go is copied, closed or not. */
  lemma {:induction false} RawStringIsCopied(body: string, rest: string, scrub: string -> string)
    ensures EndsAt(body, ['`']) ==>
      Rewritten(['`'] + body + ['`'] + rest, Normal, Slashes, scrub)
      == Behind(['`'] + body + ['`'], Rewritten(rest, Normal, Slashes, scrub))
    ensures Without(body, ['`']) ==> Rewritten(['`'] + body, Normal, Slashes, scrub) == (['`'] + body, Raw)
  {
    var d := RawString;
    if EndsAt(body, ['`']) {
      EndsDelimits(d, body);
      SpanFirst(d, body, rest, Slashes, scrub);
    }
    if Without(body, ['`']) {
      WithoutRuns(d, body);
      RunningFirst(d, body, Slashes, scrub);
    }
  }

  // ---- what is carried into a line ----

  /** What ends the region a line starts in. */
  function Closer(state: State): string {
    match state
    case Normal => ""
    case Block => ['*', '/']
    case Raw => ['`']
    case Triple(q) => [q, q, q]
  }

  /** A line that starts in a comment or a triple-quoted string is rewritten, and one in a raw string
      copied, up to the closer or, without one, to its end; then the scan starts afresh. */
  lemma {:induction false} CarriedRegion(state: State, body: string, rest: string, lang: Language,
      scrub: string -> string)
    requires state != Normal
    ensures EndsAt(body, Closer(state)) ==>
      Rewritten(body + Closer(state) + rest, state, lang, scrub)
      == Behind((if state == Raw then body else scrub(body)) + Closer(state), Rewritten(rest, Normal, lang, scrub))
    ensures Without(body, Closer(state)) ==>
      Rewritten(body, state, lang, scrub) == (if state == Raw then body else scrub(body), state)
  {
    var d := Continued(state);
    assert d.Close() == Closer(state);
    if EndsAt(body, Closer(state)) {
      EndsDelimits(d, body);
      CarriedCloses(state, body, rest, lang, scrub);
    }
    if Without(body, Closer(state)) {
      WithoutRuns(d, body);
      StaysOpen(body, state, lang, scrub);
    }
  }

  lemma {:induction false} CarriedCloses(state: State, body: string, rest: string, lang: Language,
      scrub: string -> string)
    requires state != Normal && Delimits(Continued(state), body)
    ensures Rewritten(body + Closer(state) + rest, state, lang, scrub)
            == Behind((if state == Raw then body else scrub(body)) + Closer(state),
                Rewritten(rest, Normal, lang, scrub))
  {
    var d := Continued(state);
    var line := body + d.Close() + rest;
    CloseLocal(d, body + d.Close(), rest, |body|);
    assert line[..|body|] == body && line[|body| + |d.Close()|..] == rest;
    var out := BodyOf(d, body, scrub) + d.Close();
    Reopens(line, state, |body|, |body| + |d.Close()|, lang, scrub, out);
  }

  // ---- over lines ----

  /** What one line leaves open is what the next one starts in. */
  lemma {:induction false} LinesInOrder(x: string, y: string, lang: Language, scrub: string -> string)
    requires '\n' !in x && '\n' !in y
    ensures
      var first := Rewritten(x, Normal, lang, scrub);
      NewBodies([x + ['\n'], y + ['\n']], lang, scrub) == [first.0, Rewritten(y, first.1, lang, scrub).0]
  {
    var lines := [x + ['\n'], y + ['\n']];
    ChompLine(x);
    ChompLine(y);
    FirstState(lines, lang);
    LineProcessed(lines, 0, lang, scrub);
    LineProcessed(lines, 1, lang, scrub);
  }

  lemma {:induction false} FirstState(lines: seq<string>, lang: Language)
    requires lines != []
    ensures States(lines, lang)[0] == Normal
  {}

  /** A comment that runs over several lines is rewritten on each of them. */
  lemma {:induction false} CommentOverLines(a: string, b: string, scrub: string -> string)
    requires Without(a, ['*', '/']) && Without(b, ['*', '/']) && '\n' !in a && '\n' !in b
    ensures NewBodies([['/', '*'] + a + ['\n'], b + ['\n']], Slashes, scrub) == [['/', '*'] + scrub(a), scrub(b)]
  {
    BlockCommentIsScrubbed(a, "", scrub);
    CarriedRegion(Block, b, "", Slashes, scrub);
    LinesInOrder(['/', '*'] + a, b, Slashes, scrub);
  }

  lemma {:induction false} ChompLine(body: string)
    requires '\n' !in body
    ensures Chomp(body + ['\n']) == body
  {
    assert (body + ['\n'])[..|body|] == body;
    assert body != "" ==> body[|body| - 1] in body;
  }
}
