/** What rewriting the bodies of a line leaves alone. */
module ScrubberProof {
  import opened Texts
  import opened Scrubber

  // ---- the identity ----

  lemma {:induction false} ScrubAllIdentity(tokens: seq<Token>)
    ensures ScrubAll(tokens, (b: string) => b) == tokens
  {
    if tokens != [] { ScrubAllIdentity(tokens[1..]); }
  }

  /** A rewriting that changes no body changes no line. */
  lemma {:induction false} IdentityChangesNothing(line: string, state: State, lang: Language)
    ensures Rewritten(line, state, lang, (b: string) => b).0 == line
  {
    ScrubAllIdentity(LexLine(line, state, lang).tokens);
    LosslessLine(line, state, lang);
  }

  // ---- where a region closes depends on nothing behind its closer ----

  lemma {:induction false} FindLocal(x: string, y: string, sub: string, k: nat)
    requires sub != "" && k + |sub| <= |x|
    ensures Find(x + y, sub) == k <==> Find(x, sub) == k
  {
    assert (x + y)[..|sub|] == x[..|sub|];
    if k > 0 {
      assert (x + y)[1..] == x[1..] + y;
      FindLocal(x[1..], y, sub, k - 1);
    }
  }

  lemma {:induction false} UnescapedLocal(x: string, y: string, quote: char, k: nat)
    requires k < |x|
    ensures Unescaped(x + y, quote) == k <==> Unescaped(x, quote) == k
  {
    var n := if x[0] == '\\' then 2 else 1;
    if n <= k {
      assert (x + y)[n..] == x[n..] + y;
      UnescapedLocal(x[n..], y, quote, k - n);
    }
  }

  lemma {:induction false} CloseLocal(d: Delimiter, x: string, y: string, k: nat)
    requires k + |d.Close()| <= |x| && d.Close() != ""
    ensures CloseIn(d, x + y) == k <==> CloseIn(d, x) == k
  {
    FindLocal(x, y, d.Close(), k);
    UnescapedLocal(x, y, d.Close()[0], k);
  }

  /** The body ends where its closer is first seen. */
  predicate Delimits(d: Delimiter, body: string) {
    d.Close() != "" && CloseIn(d, body + d.Close()) == |body|
  }

  lemma {:induction false} SpanDelimits(d: Delimiter, s: string)
    requires Region(d, s).Span?
    ensures Delimits(d, Region(d, s).body)
  {
    var k := CloseIn(d, s);
    ClosesThere(d, s);
    Reassemble(s, k, d.Close());
    CloseLocal(d, s[..k] + d.Close(), s[k..][|d.Close()|..], k);
  }

  lemma {:induction false} RegionOfSpan(d: Delimiter, body: string, rest: string)
    requires Delimits(d, body)
    ensures Region(d, body + d.Close() + rest) == Span(d, body)
  {
    CloseLocal(d, body + d.Close(), rest, |body|);
    assert (body + d.Close() + rest)[..|body|] == body;
  }

  // ---- the rewritten line has the same structure ----

  /** The rewriting leaves the closer of a body where it is, and does not empty a Python string
      that its own quote follows: three quotes in a row would open a triple-quoted one. after
      is the text behind the token. */
  predicate Safe(t: Token, after: string, lang: Language, scrub: string -> string) {
    match t
    case Plain(_) => true
    case Span(d, body) => d.Scrubs() ==> Delimits(d, scrub(body)) && !Doubles(d, scrub(body), after, lang)
    case Running(d, body) => d.Scrubs() && !d.Escapes() ==> CloseIn(d, scrub(body)) == -1
  }

  /** An empty Python string with its own quote behind it. */
  predicate Doubles(d: Delimiter, body: string, after: string, lang: Language) {
    lang.Hash? && d.Escapes() && body == "" && after != "" && after[0] == d.Open()[0]
  }

  predicate AllSafe(tokens: seq<Token>, lang: Language, scrub: string -> string) {
    tokens == [] || (Safe(tokens[0], TextOf(tokens[1..]), lang, scrub) && AllSafe(tokens[1..], lang, scrub))
  }

  predicate SameHead(a: string, b: string) { if a == "" then b == "" else b != "" && a[0] == b[0] }

  lemma {:induction false} PlainStays(c: char, a: string, b: string, lang: Language)
    requires OpenerOf([c] + a, lang) == Nothing && SameHead(a, b)
    ensures OpenerOf([c] + b, lang) == Nothing
  {
    var s, t := [c] + a, [c] + b;
    assert t[0] == c && s[0] == c;
    assert a != "" ==> s[1] == a[0] && t[1] == b[0];
  }

  lemma {:induction false} OpenerByPrefix(s: string, t: string, d: Delimiter, lang: Language)
    requires s != "" && OpenerOf(s, lang) == d && d != Nothing && StartsWith(t, d.Open())
    requires lang.Hash? ==> !d.Escapes()
    ensures t != "" && OpenerOf(t, lang) == d
  {
    var open := d.Open();
    assert t[0] == open[0] && (|open| > 1 ==> t[1] == open[1]) && (|open| > 2 ==> t[2] == open[2]);
  }

  /** Whether a quoted string of Python is still seen as one. */
  lemma {:induction false} QuoteStays(d: Delimiter, b: string, y: string)
    requires d == DoubleQuoted || d == SingleQuoted(Hash)
    requires Delimits(d, b)
    ensures OpenerOf(d.Open() + b + d.Close() + y, Hash) == d <==> !Doubles(d, b, y, Hash)
  {
    var q := d.Open()[0];
    var t := d.Open() + b + d.Close() + y;
    assert t[0] == q;
    if b == "" {
      assert t[1] == q;
      assert y != "" ==> t[2] == y[0];
    } else {
      assert (b + d.Close())[0] == b[0];
      assert t[1] == b[0] && b[0] != q;
    }
  }

  lemma {:induction false} FirstIsRegion(s: string, d: Delimiter, rest: string, lang: Language)
    requires s == d.Open() + rest && s != "" && OpenerOf(s, lang) == d && d != Nothing
    ensures First(s, lang) == Region(d, rest)
  {
    assert s[|d.Open()|..] == rest;
  }

  /** The text of a closed region, then x. */
  function SpanText(d: Delimiter, body: string, x: string): string { d.Open() + body + d.Close() + x }

  /** OpenerOf on any text. */
  function OpenerOf'(s: string, lang: Language): Delimiter { if s == "" then Nothing else OpenerOf(s, lang) }

  lemma {:induction false} SpanOpener(d: Delimiter, a: string, b: string, x: string, y: string, lang: Language)
    requires d != Nothing && OpenerOf'(SpanText(d, a, x), lang) == d && Delimits(d, b)
    ensures OpenerOf'(SpanText(d, b, y), lang) == d <==> !Doubles(d, b, y, lang)
  {
    if lang.Hash? && d.Escapes() {
      QuoteStays(d, b, y);
    } else {
      OpenerByPrefix(SpanText(d, a, x), SpanText(d, b, y), d, lang);
    }
  }

  /** A closed region is found again with its new body exactly if the body still ends at the
      closer and no quotes have joined. */
  lemma {:induction false} SpanStays(d: Delimiter, a: string, b: string, x: string, y: string, lang: Language)
    requires d != Nothing && OpenerOf'(SpanText(d, a, x), lang) == d
    ensures SpanText(d, b, y) != ""
    ensures First(SpanText(d, b, y), lang) == Span(d, b) <==> Delimits(d, b) && !Doubles(d, b, y, lang)
  {
    var s := SpanText(d, b, y);
    FirstShape(s, lang);
    if Delimits(d, b) {
      SpanOpener(d, a, b, x, y, lang);
      if !Doubles(d, b, y, lang) {
        RegionOfSpan(d, b, y);
        Regroup(d.Open(), b, d.Close(), y);
        FirstIsRegion(s, d, b + d.Close() + y, lang);
      }
    }
  }

  /** An open region is found again with its new body exactly if the body does not close it. */
  lemma {:induction false} RunningStays(d: Delimiter, a: string, b: string, lang: Language)
    requires d != Nothing && OpenerOf'(d.Open() + a, lang) == d && (d.Escapes() ==> a == b)
    ensures d.Open() + b != ""
    ensures First(d.Open() + b, lang) == Running(d, b) <==> CloseIn(d, b) == -1
  {
    if a != b { OpenerByPrefix(d.Open() + a, d.Open() + b, d, lang); }
    FirstIsRegion(d.Open() + b, d, b, lang);
  }

  /** What First finds, in terms of the text. */
  lemma {:induction false} FirstShape(s: string, lang: Language)
    requires s != ""
    ensures
      match First(s, lang)
      case Plain(c) => s == [c] + s[1..] && OpenerOf(s, lang) == Nothing
      case Span(d, body) =>
        && d != Nothing && OpenerOf(s, lang) == d && Delimits(d, body)
        && |SpanText(d, body, "")| <= |s| && s == SpanText(d, body, s[|SpanText(d, body, "")|..])
      case Running(d, body) =>
        d != Nothing && OpenerOf(s, lang) == d && s == d.Open() + body && CloseIn(d, body) == -1
  {
    FirstText(s, lang);
    var d := OpenerOf(s, lang);
    OpenerStarts(s, lang);
    var rest := s[|d.Open()|..];
    assert s == d.Open() + rest;
    if Region(d, rest).Span? { SpanDelimits(d, rest); }
    assert forall b: string :: SpanText(d, b, "") == d.Open() + b + d.Close();
  }

  /** The tokens behind t. */
  function Rest(t: Token, s: string, lang: Language): Lexed
    requires Heads(t, s)
  {
    if t.Running? then Lexed([], t.d.Carried()) else Lex(s[|Text(t)|..], lang)
  }

  function ScrubLexed(lexed: Lexed, scrub: string -> string): Lexed {
    Lexed(ScrubAll(lexed.tokens, scrub), lexed.state)
  }

  lemma {:induction false} ThenIsCons(t: Token, s: string, lang: Language, scrub: string -> string)
    requires Heads(t, s)
    ensures Then(t, s, lang) == Cons(t, Rest(t, s, lang))
    ensures ScrubLexed(Then(t, s, lang), scrub) == Cons(Scrubbed(t, scrub), ScrubLexed(Rest(t, s, lang), scrub))
    ensures Written(Then(t, s, lang), scrub).0 == Text(Scrubbed(t, scrub)) + Written(Rest(t, s, lang), scrub).0
  {
    var r := Rest(t, s, lang);
    assert [t] + [] == [t];
    assert ([t] + r.tokens)[1..] == r.tokens;
    ConsWritten("", t, r, scrub);
    FromNothing(Cons(t, r), scrub);
    assert "" + Text(Scrubbed(t, scrub)) == Text(Scrubbed(t, scrub));
  }

  /** A token starts with the same character whatever becomes of its body. */
  lemma {:induction false} TokenHead(s: string, lang: Language, scrub: string -> string)
    requires s != ""
    ensures Text(Scrubbed(First(s, lang), scrub)) != "" && Text(Scrubbed(First(s, lang), scrub))[0] == s[0]
  {
    var d := OpenerOf(s, lang);
    OpenerStarts(s, lang);
    assert d != Nothing ==> d.Open() != "" && d.Open()[0] == s[0];
  }

  lemma {:induction false} HeadStays(s: string, lang: Language, scrub: string -> string)
    ensures SameHead(s, Written(Lex(s, lang), scrub).0)
  {
    if s != "" {
      FirstText(s, lang);
      TokenHead(s, lang, scrub);
      ThenIsCons(First(s, lang), s, lang, scrub);
    }
  }

  /** The first token is found again with its new body exactly if it is safe. w is what becomes
      of the text behind it. */
  lemma {:induction false} FirstStays(s: string, w: string, lang: Language, scrub: string -> string)
    requires s != "" && Heads(First(s, lang), s)
    requires if First(s, lang).Running? then w == "" else SameHead(s[|Text(First(s, lang))|..], w)
    ensures
      var t := First(s, lang);
      var u := Scrubbed(t, scrub);
      && Text(u) + w != ""
      && (First(Text(u) + w, lang) == u <==> Safe(t, s[|Text(t)|..], lang, scrub))
  {
    FirstShape(s, lang);
    match First(s, lang)
    case Plain(c) =>
      PlainStays(c, s[1..], w, lang);
    case Span(d, body) =>
      SpanTokenStays(s, d, body, w, lang, scrub);
    case Running(d, body) =>
      var b := if d.Escapes() then body else BodyOf(d, body, scrub);
      RunningStays(d, body, b, lang);
      assert d.Open() + b + w == d.Open() + b;
  }

  lemma {:induction false} SpanTokenStays(s: string, d: Delimiter, body: string, w: string, lang: Language,
      scrub: string -> string)
    requires s != "" && d != Nothing && OpenerOf(s, lang) == d && Delimits(d, body)
    requires |SpanText(d, body, "")| <= |s| && s == SpanText(d, body, s[|SpanText(d, body, "")|..])
    requires SameHead(s[|SpanText(d, body, "")|..], w)
    ensures SpanText(d, BodyOf(d, body, scrub), w) != ""
    ensures First(SpanText(d, BodyOf(d, body, scrub), w), lang) == Span(d, BodyOf(d, body, scrub))
            <==> Safe(Span(d, body), s[|SpanText(d, body, "")|..], lang, scrub)
  {
    var rest := s[|SpanText(d, body, "")|..];
    SpanOpener(d, body, body, rest, rest, lang);
    SpanStays(d, body, BodyOf(d, body, scrub), rest, w, lang);
  }

  lemma {:induction false} ConsInjective(t: Token, x: Lexed, u: Token, y: Lexed)
    requires Cons(t, x) == Cons(u, y)
    ensures t == u && x == y
  {
    var a, b := Cons(t, x).tokens, Cons(u, y).tokens;
    assert a[0] == t && b[0] == u && a[1..] == x.tokens && b[1..] == y.tokens;
  }

  lemma {:induction false} ConsSafe(t: Token, r: Lexed, lang: Language, scrub: string -> string)
    ensures AllSafe(Cons(t, r).tokens, lang, scrub)
        <==> Safe(t, TextOf(r.tokens), lang, scrub) && AllSafe(r.tokens, lang, scrub)
  {
    var tokens := Cons(t, r).tokens;
    assert tokens[0] == t && tokens[1..] == r.tokens;
  }

  /** What comes after the rewritten first token decides the rest: if the scan starts with u,
      it is the wanted one exactly if the scan of w is. */
  lemma {:induction false} ThenStays(u: Token, v: Token, w: string, r: Lexed, lang: Language)
    requires Heads(v, Text(u) + w) && (u.Running? ==> w == "" && r == Lexed([], u.d.Carried()))
    ensures Then(v, Text(u) + w, lang) == Cons(u, r) <==> v == u && (u.Running? || Lex(w, lang) == r)
  {
    var s := Text(u) + w;
    assert [v] + [] == [v];
    if v.Running? {
      if Then(v, s, lang) == Cons(u, r) { ConsInjective(v, Lexed([], v.d.Carried()), u, r); }
    } else {
      if Then(v, s, lang) == Cons(u, r) { ConsInjective(v, Lex(s[|Text(v)|..], lang), u, r); }
    }
    assert s[|Text(u)|..] == w;
  }

  /** Scanning the rewritten text finds the same tokens with their new bodies, and leaves the
      same state, exactly if every token is safe. */
  lemma {:induction false} Relex(s: string, lang: Language, scrub: string -> string)
    ensures Lex(Written(Lex(s, lang), scrub).0, lang) == ScrubLexed(Lex(s, lang), scrub)
            <==> AllSafe(Lex(s, lang).tokens, lang, scrub)
    decreases |s|
  {
    if s != "" {
      FirstText(s, lang);
      var t := First(s, lang);
      var u, r := Scrubbed(t, scrub), Rest(t, s, lang);
      var w := Written(r, scrub).0;
      ThenIsCons(t, s, lang, scrub);
      ConsSafe(t, r, lang, scrub);
      RestText(t, s, lang);
      if !t.Running? {
        Relex(s[|Text(t)|..], lang, scrub);
        HeadStays(s[|Text(t)|..], lang, scrub);
      }
      FirstStays(s, w, lang, scrub);
      FirstText(Text(u) + w, lang);
      ThenStays(u, First(Text(u) + w, lang), w, ScrubLexed(r, scrub), lang);
    }
  }

  lemma {:induction false} RestText(t: Token, s: string, lang: Language)
    requires Heads(t, s)
    ensures TextOf(Rest(t, s, lang).tokens) == s[|Text(t)|..]
  {
    if !t.Running? { LosslessLine(s[|Text(t)|..], Normal, lang); }
  }

  /** The rewritten line has the tokens of the line, with their new bodies, and leaves the same
      state, exactly if every body stays within its delimiters. */
  lemma {:induction false} StructureSurvives(line: string, state: State, lang: Language, scrub: string -> string)
    ensures LexLine(Rewritten(line, state, lang, scrub).0, state, lang) == ScrubLexed(LexLine(line, state, lang), scrub)
            <==> AllSafe(LexLine(line, state, lang).tokens, lang, scrub)
  {
    if state.Normal? {
      Relex(line, lang, scrub);
    } else {
      var t := ResumedToken(line, state);
      var u, r := Scrubbed(t, scrub), Rest(t, line, lang);
      var w := Written(r, scrub).0;
      ThenIsCons(t, line, lang, scrub);
      ConsSafe(t, r, lang, scrub);
      if !t.Running? { Relex(line[|Text(t)|..], lang, scrub); }
      ResumedStays(line, state, TextOf(r.tokens), w, lang, scrub);
      ThenStays(u, ResumedToken(Text(u) + w, state), w, ScrubLexed(r, scrub), lang);
    }
  }

  lemma {:induction false} ResumedStays(line: string, state: State, after: string, w: string, lang: Language,
      scrub: string -> string)
    requires !state.Normal? && (ResumedToken(line, state).Running? ==> w == "")
    ensures
      var t := ResumedToken(line, state);
      var u := Scrubbed(t, scrub);
      ResumedToken(Text(u) + w, state) == u <==> Safe(t, after, lang, scrub)
  {
    var d, t := Continued(state), ResumedToken(line, state);
    var b := BodyOf(d, t.body, scrub);
    if t.Span? {
      SpanDelimits(d, line);
      SpanAgain(d, b, w);
    } else {
      RunningAgain(d, b);
    }
  }

  lemma {:induction false} SpanAgain(d: Delimiter, b: string, w: string)
    requires d.Continued?
    ensures Region(d, Text(Span(d, b)) + w) == Span(d, b) <==> Delimits(d, b)
  {
    var s := b + d.Close() + w;
    assert Text(Span(d, b)) + w == s;
    if Delimits(d, b) { RegionOfSpan(d, b, w); }
    if Region(d, s) == Span(d, b) { SpanDelimits(d, s); }
  }

  lemma {:induction false} RunningAgain(d: Delimiter, b: string)
    requires d.Continued?
    ensures Region(d, Text(Running(d, b)) + "") == Running(d, b) <==> CloseIn(d, b) == -1
  {
    assert "" + b + "" == b;
  }

  /** A rewriting that is settled after one go on every body is settled after one go on the line. */
  lemma {:induction false} RewritingSettles(line: string, state: State, lang: Language, scrub: string -> string)
    requires AllSafe(LexLine(line, state, lang).tokens, lang, scrub)
    requires forall body :: scrub(scrub(body)) == scrub(body)
    ensures
      var once := Rewritten(line, state, lang, scrub);
      Rewritten(once.0, state, lang, scrub) == once
  {
    StructureSurvives(line, state, lang, scrub);
    ScrubTwice(LexLine(line, state, lang).tokens, scrub);
  }

  lemma {:induction false} ScrubTwice(tokens: seq<Token>, scrub: string -> string)
    requires forall body :: scrub(scrub(body)) == scrub(body)
    ensures ScrubAll(ScrubAll(tokens, scrub), scrub) == ScrubAll(tokens, scrub)
  {
    if tokens != [] {
      ScrubTwice(tokens[1..], scrub);
      var once := ScrubAll(tokens, scrub);
      assert once[0] == Scrubbed(tokens[0], scrub) && once[1..] == ScrubAll(tokens[1..], scrub);
    }
  }

  /** A body without quotes and backslashes, as an id is. */
  predicate Bare(body: string) { '"' !in body && '\\' !in body }

  lemma {:induction false} BareCloses(body: string)
    requires Bare(body)
    ensures Delimits(DoubleQuoted, body)
  {
    if body != "" {
      assert body[0] in body && Bare(body[1..]);
      BareCloses(body[1..]);
      assert (body + ['"'])[1..] == body[1..] + ['"'];
    }
  }

  function Quoted(body: string): string { ['"'] + body + ['"'] }

  lemma {:induction false} StringOf(body: string, rest: string)
    requires Bare(body) && !Doubles(DoubleQuoted, body, rest, Hash)
    ensures Lex(Quoted(body) + rest, Hash) == Cons(Span(DoubleQuoted, body), Lex(rest, Hash))
  {
    var s := SpanText(DoubleQuoted, body, rest);
    BareCloses(body);
    assert s == Quoted(body) + rest;
    QuoteStays(DoubleQuoted, body, rest);
    SpanStays(DoubleQuoted, body, body, rest, rest, Hash);
    LexUnfolds(s, Span(DoubleQuoted, body), Hash);
    assert s[|Quoted(body)|..] == rest;
    ThenGoesOn(Span(DoubleQuoted, body), s, rest, Hash);
  }

  lemma {:induction false} StringWritten(body: string, rest: string, scrub: string -> string)
    requires Bare(body) && !Doubles(DoubleQuoted, body, rest, Hash)
    ensures
      var w := Written(Lex(rest, Hash), scrub);
      Written(Lex(Quoted(body) + rest, Hash), scrub) == (Quoted(scrub(body)) + w.0, w.1)
  {
    var t, r := Span(DoubleQuoted, body), Lex(rest, Hash);
    StringOf(body, rest);
    ConsWritten("", t, r, scrub);
    FromNothing(Cons(t, r), scrub);
    QuotedText(body, scrub);
  }

  lemma {:induction false} QuotedText(body: string, scrub: string -> string)
    ensures "" + Text(Scrubbed(Span(DoubleQuoted, body), scrub)) == Quoted(scrub(body))
  {}

  /** Where structure is lost: emptying the first of two adjacent Python strings opens a
      triple-quoted one, which takes the lines behind it for prose. */
  lemma {:induction false} EmptiedStringOpensTriple(x: string, y: string, scrub: string -> string)
    requires Bare(x) && x != "" && scrub(x) == "" && Bare(y) && scrub(y) == y
    ensures
      var once := Rewritten(Quoted(x) + Quoted(y), Normal, Hash, scrub);
      && once == (Quoted("") + Quoted(y), Normal)
      && LexLine(once.0, Normal, Hash).state == Triple('"')
  {
    WrittenAlone(y, scrub);
    StringWritten(x, Quoted(y), scrub);
    TripleLeftOpen(y);
  }

  lemma {:induction false} WrittenAlone(y: string, scrub: string -> string)
    requires Bare(y) && scrub(y) == y
    ensures Written(Lex(Quoted(y), Hash), scrub) == (Quoted(y), Normal)
  {
    StringWritten(y, "", scrub);
    assert Quoted(y) + "" == Quoted(y);
  }

  lemma {:induction false} TripleLeftOpen(y: string)
    requires Bare(y)
    ensures Lex(Quoted("") + Quoted(y), Hash).state == Triple('"')
  {
    var d, s, rest := TripleString('"'), Quoted("") + Quoted(y), y + ['"'];
    assert s == d.Open() + rest;
    OneQuote(y);
    FirstIsRegion(s, d, rest, Hash);
    LexUnfolds(s, Running(d, rest), Hash);
  }

  lemma {:induction false} OneQuote(y: string)
    requires Bare(y)
    ensures CloseIn(TripleString('"'), y + ['"']) == -1
  {
    if y != "" {
      assert y[0] in y && Bare(y[1..]);
      OneQuote(y[1..]);
      assert (y + ['"'])[1..] == y[1..] + ['"'];
    }
  }
}
