/** The lexer of the internal-id scrubber: which parts of a line are comment or string
    bodies, what is carried to the next line, and what rewriting the bodies leaves alone. */
module Scrubber {
  import opened Texts

  /** The line-comment marker of the file's language: // or #. */
  datatype Language = Slashes | Hash

  /** What is still open at the end of a line. */
  datatype State = Normal | Block | Raw | Triple(quote: char)

  /** The kinds of region, Nothing for none and Continued for one carried into the line. */
  datatype Delimiter =
    | Nothing | LineComment(lang: Language) | BlockComment | RawString | TripleString(q: char)
    | DoubleQuoted | SingleQuoted(lang: Language) | Continued(state: State)
  {
    function Open(): string {
      match this
      case Nothing => ""
      case LineComment(lang) => if lang.Hash? then ['#'] else ['/', '/']
      case BlockComment => ['/', '*']
      case RawString => ['`']
      case TripleString(q) => [q, q, q]
      case DoubleQuoted => ['"']
      case SingleQuoted(_) => ['\'']
      case Continued(_) => ""
    }

    /** What ends the region; empty when only the end of the line does. */
    function Close(): string {
      match this
      case Nothing => ""
      case LineComment(_) => ""
      case BlockComment => ['*', '/']
      case Continued(Normal) => ""
      case Continued(Block) => ['*', '/']
      case Continued(Raw) => ['`']
      case Continued(Triple(q)) => [q, q, q]
      case _ => Open()
    }

    /** The region closes at an unescaped quote and, left open, is kept as it is. */
    predicate Escapes() { DoubleQuoted? || SingleQuoted? }

    /** The body is prose. A single-quoted text is a character in Go and C, a string in Python. */
    predicate Scrubs() {
      LineComment? || BlockComment? || TripleString? || DoubleQuoted? || (SingleQuoted? && lang.Hash?)
      || (Continued? && (state.Block? || state.Triple?))
    }

    /** The state a region left open leaves behind. */
    function Carried(): State {
      match this
      case BlockComment => Block
      case RawString => Raw
      case TripleString(q) => Triple(q)
      case Continued(state) => state
      case _ => Normal
    }
  }

  datatype Token =
    | Plain(c: char)
    | Span(d: Delimiter, body: string)      // closed on this line
    | Running(d: Delimiter, body: string)   // left open at the end of the line

  // ---- searching ----

  predicate At(s: string, sub: string, j: nat) { j <= |s| && StartsWith(s[j..], sub) }

  /** The first position of sub in s, or -1. */
  function Find(s: string, sub: string): (k: int)
    requires sub != ""
    ensures -1 <= k < |s|
  {
    if s == "" then -1 else if StartsWith(s, sub) then 0 else Shift(Find(s[1..], sub), 1)
  }

  lemma {:induction false} FindIsFirst(s: string, sub: string)
    requires sub != ""
    ensures Find(s, sub) >= 0 ==> At(s, sub, Find(s, sub))
    ensures forall j | 0 <= j < (if Find(s, sub) == -1 then |s| else Find(s, sub)) :: !At(s, sub, j)
  {
    if s != "" {
      assert s[0..] == s;
      if !StartsWith(s, sub) {
        FindIsFirst(s[1..], sub);
        assert forall j | 1 <= j <= |s| :: s[j..] == s[1..][j - 1..];
        assert forall j | 1 <= j <= |s| :: At(s, sub, j) <==> At(s[1..], sub, j - 1);
      }
    }
  }

  /** The first quote in s that no backslash escapes, or -1. */
  function Unescaped(s: string, quote: char): (k: int)
    ensures -1 <= k < |s| && (k >= 0 ==> s[k] == quote)
  {
    if s == "" then -1
    else if s[0] == '\\' then
      if |s| == 1 then -1 else Shift(Unescaped(s[2..], quote), 2)
    else if s[0] == quote then 0
    else Shift(Unescaped(s[1..], quote), 1)
  }

  function Shift(k: int, n: nat): int { if k == -1 then -1 else k + n }

  /** The length of the run of backslashes that ends just before position j. */
  function Backslashes(s: string, j: nat): nat
    requires j <= |s|
  {
    if j > 0 && s[j - 1] == '\\' then 1 + Backslashes(s, j - 1) else 0
  }

  /** A quote closes when an even number of backslashes stands before it. */
  predicate Closes(s: string, j: nat, quote: char) { j < |s| && s[j] == quote && Backslashes(s, j) % 2 == 0 }

  lemma {:induction false} BackslashesShift(s: string, n: nat, j: nat)
    requires n <= j <= |s|
    ensures Backslashes(s, j) == Backslashes(s[n..], j - n) + if Backslashes(s[n..], j - n) == j - n
        then Backslashes(s, n) else 0
    ensures Backslashes(s[n..], j - n) <= j - n
  {
    if j > n {
      BackslashesShift(s, n, j - 1);
      assert s[n..][j - n - 1] == s[j - 1];
    }
  }

  lemma {:induction false} ClosesShift(s: string, n: nat, j: nat, quote: char)
    requires n <= j < |s| && Backslashes(s, n) % 2 == 0
    ensures Closes(s, j, quote) <==> Closes(s[n..], j - n, quote)
  {
    BackslashesShift(s, n, j);
  }

  /** The scan for an unescaped quote finds the first one that closes. */
  lemma {:induction false} UnescapedIsFirstClosing(s: string, quote: char)
    requires quote != '\\'
    ensures
      var k := Unescaped(s, quote);
      && (k >= 0 ==> Closes(s, k, quote))
      && forall j | 0 <= j < (if k == -1 then |s| else k) :: !Closes(s, j, quote)
    decreases |s|
  {
    if s != "" && s[0] != quote {
      var n := if s[0] == '\\' then 2 else 1;
      assert Backslashes(s, 1) == n - 1;
      if n <= |s| {
        UnescapedIsFirstClosing(s[n..], quote);
        assert Backslashes(s, n) % 2 == 0;
        forall j | n <= j < |s| ensures Closes(s, j, quote) <==> Closes(s[n..], j - n, quote) {
          ClosesShift(s, n, j, quote);
        }
      }
    }
  }

  /** One position of the scan. */
  lemma {:induction false} UnescapedFrom(line: string, j: nat, quote: char)
    requires j < |line|
    ensures Unescaped(line[j..], quote) ==
      if line[j] == '\\' then (if j + 2 <= |line| then Shift(Unescaped(line[j + 2..], quote), 2) else -1)
      else if line[j] == quote then 0
      else Shift(Unescaped(line[j + 1..], quote), 1)
  {
    if j + 2 <= |line| { SliceShift(line, j, 2); }
    SliceShift(line, j, 1);
  }

  /** r is the first closing quote after position i, or -1 if there is none. */
  predicate IsFirstClosing(line: string, i: nat, quote: char, r: int)
    requires i < |line|
  {
    var s := line[i + 1..];
    && (r != -1 ==> i < r < |line| && Closes(s, r - i - 1, quote))
    && forall j | 0 <= j < (if r == -1 then |s| else r - i - 1) :: !Closes(s, j, quote)
  }

  lemma {:induction false} ScanFinds(line: string, i: nat, quote: char)
    requires i < |line| && quote != '\\'
    ensures IsFirstClosing(line, i, quote, Shift(Unescaped(line[i + 1..], quote), i + 1))
  {
    UnescapedIsFirstClosing(line[i + 1..], quote);
  }

  /** The loop of _scan_quote: skip escaped characters up to the quote. */
  method SkipToQuote(line: string, i: nat, quote: char) returns (r: int)
    requires i < |line|
    ensures r == Shift(Unescaped(line[i + 1..], quote), i + 1)
  {
    var n := |line|;
    var j := i + 1;
    while j < n
      invariant i < j <= n + 1
      invariant Shift(Unescaped(line[i + 1..], quote), i + 1)
                == if j <= n then Shift(Unescaped(line[j..], quote), j) else -1
    {
      UnescapedFrom(line, j, quote);
      if line[j] == '\\' {
        j := j + 2;
        continue;
      }
      if line[j] == quote {
        return j;
      }
      j := j + 1;
    }
    return -1;
  }

  /** _scan_quote: the first closing quote after position i, or -1. */
  method ScanQuote(line: string, i: nat, quote: char) returns (r: int)
    requires i < |line| && quote != '\\'
    ensures r == Shift(Unescaped(line[i + 1..], quote), i + 1)
    ensures IsFirstClosing(line, i, quote, r)
  {
    ScanFinds(line, i, quote);
    r := SkipToQuote(line, i, quote);
  }

  // ---- the lexer ----

  predicate Twice(s: string, c: char, e: char) { |s| > 1 && s[0] == c && s[1] == e }

  predicate Thrice(s: string, c: char) { |s| > 2 && s[0] == c && s[1] == c && s[2] == c }

  /** The region that starts at the head of s, if any. */
  function OpenerOf(s: string, lang: Language): (d: Delimiter)
    requires s != ""
    ensures |d.Open()| <= |s|
  {
    if lang.Hash? && (Thrice(s, '"') || Thrice(s, '\'')) then TripleString(s[0])
    else if lang.Slashes? && Twice(s, '/', '/') then LineComment(lang)
    else if lang.Hash? && s[0] == '#' then LineComment(lang)
    else if lang.Slashes? && Twice(s, '/', '*') then BlockComment
    else if lang.Slashes? && s[0] == '`' then RawString
    else if s[0] == '"' then DoubleQuoted
    else if s[0] == '\'' then SingleQuoted(lang)
    else Nothing
  }

  lemma {:induction false} OpenerStarts(s: string, lang: Language)
    requires s != ""
    ensures StartsWith(s, OpenerOf(s, lang).Open())
  {}

  /** Where the region closes, counted from the start of its body, or -1. */
  function CloseIn(d: Delimiter, s: string): (k: int)
    ensures -1 <= k < |s|
  {
    if d.Close() == "" then -1
    else if d.Escapes() && |d.Close()| == 1 then Unescaped(s, d.Close()[0])
    else Find(s, d.Close())
  }

  lemma {:induction false} ClosesThere(d: Delimiter, s: string)
    ensures CloseIn(d, s) >= 0 ==> d.Close() != "" && At(s, d.Close(), CloseIn(d, s))
  {
    if d.Close() != "" {
      FindIsFirst(s, d.Close());
      var k := CloseIn(d, s);
      assert d.Escapes() && |d.Close()| == 1 && k >= 0 ==> s[k..][..1] == d.Close();
    }
  }

  /** The region d over the text s that follows its opener. */
  function Region(d: Delimiter, s: string): Token {
    var k := CloseIn(d, s);
    if k == -1 then Running(d, s) else Span(d, s[..k])
  }

  function First(s: string, lang: Language): (t: Token)
    requires s != ""
  {
    var d := OpenerOf(s, lang);
    if d == Nothing then Plain(s[0]) else Region(d, s[|d.Open()|..])
  }

  function Text(t: Token): string {
    match t
    case Plain(c) => [c]
    case Span(d, body) => d.Open() + body + d.Close()
    case Running(d, body) => d.Open() + body
  }

  /** The token t spells the head of s, all of s when it is left open. */
  predicate Heads(t: Token, s: string) {
    if t.Running? then Text(t) == s else StartsWith(s, Text(t)) && Text(t) != ""
  }

  lemma {:induction false} RegionText(d: Delimiter, s: string)
    ensures Heads(Region(d, s), d.Open() + s)
  {
    var k := CloseIn(d, s);
    ClosesThere(d, s);
    if k >= 0 {
      Reassemble(s, k, d.Close());
      Regroup(d.Open(), s[..k], d.Close(), s[k..][|d.Close()|..]);
      assert |d.Close()| > 0;
    }
  }

  lemma {:induction false} Reassemble(s: string, k: nat, sub: string)
    requires At(s, sub, k)
    ensures s == s[..k] + sub + s[k..][|sub|..]
  {
    assert s == s[..k] + s[k..];
    assert s[k..] == sub + s[k..][|sub|..];
  }

  lemma {:induction false} FirstText(s: string, lang: Language)
    requires s != ""
    ensures Heads(First(s, lang), s)
  {
    var d := OpenerOf(s, lang);
    OpenerStarts(s, lang);
    assert s == d.Open() + s[|d.Open()|..];
    RegionText(d, s[|d.Open()|..]);
  }

  datatype Lexed = Lexed(tokens: seq<Token>, state: State)

  /** The scan of the text from some position on. */
  function Lex(s: string, lang: Language): Lexed
    decreases |s|, 1
  {
    if s == "" then Lexed([], Normal)
    else
      FirstText(s, lang);
      Then(First(s, lang), s, lang)
  }

  /** The token t, then the scan of what follows it in s. */
  function Then(t: Token, s: string, lang: Language): Lexed
    requires Heads(t, s)
    decreases |s|, 0
  {
    if t.Running? then Lexed([t], t.d.Carried()) else Cons(t, Lex(s[|Text(t)|..], lang))
  }

  function Cons(t: Token, rest: Lexed): Lexed { Lexed([t] + rest.tokens, rest.state) }

  /** The token a line starts with when a state is carried into it. */
  function ResumedToken(line: string, state: State): (t: Token)
    ensures Heads(t, line)
  {
    RegionText(Continued(state), line);
    assert "" + line == line;
    Region(Continued(state), line)
  }

  /** The scan of a line that starts in a carried state. */
  function LexLine(line: string, state: State, lang: Language): Lexed {
    if state.Normal? then Lex(line, lang)
    else Then(ResumedToken(line, state), line, lang)
  }

  function TextOf(tokens: seq<Token>): string {
    if tokens == [] then "" else Text(tokens[0]) + TextOf(tokens[1..])
  }

  lemma {:induction false} ConsText(t: Token, rest: Lexed)
    ensures TextOf(Cons(t, rest).tokens) == Text(t) + TextOf(rest.tokens)
  {
    assert Cons(t, rest).tokens[1..] == rest.tokens;
  }

  lemma {:induction false} ThenIsLossless(t: Token, s: string, lang: Language)
    requires Heads(t, s)
    ensures TextOf(Then(t, s, lang).tokens) == s
    decreases |s|
  {
    if t.Running? {
      ConsText(t, Lexed([], Normal));
      assert [t] + [] == [t] && s + "" == s;
    } else {
      var rest := s[|Text(t)|..];
      ConsText(t, Lex(rest, lang));
      assert s == Text(t) + rest;
      if rest != "" {
        FirstText(rest, lang);
        ThenIsLossless(First(rest, lang), rest, lang);
      }
    }
  }

  /** Nothing is lost and nothing is added: the pieces of a line spell the line. */
  lemma {:induction false} LosslessLine(line: string, state: State, lang: Language)
    ensures TextOf(LexLine(line, state, lang).tokens) == line
  {
    if !state.Normal? {
      ThenIsLossless(ResumedToken(line, state), line, lang);
    } else if line != "" {
      FirstText(line, lang);
      ThenIsLossless(First(line, lang), line, lang);
    }
  }

  // ---- rewriting ----

  /** The token with its body rewritten, where its body is prose. */
  function Scrubbed(t: Token, scrub: string -> string): Token {
    match t
    case Plain(_) => t
    case Span(d, body) => if d.Scrubs() then Span(d, scrub(body)) else t
    case Running(d, body) => if d.Scrubs() && !d.Escapes() then Running(d, scrub(body)) else t
  }

  function ScrubAll(tokens: seq<Token>, scrub: string -> string): (r: seq<Token>)
    ensures |r| == |tokens|
  {
    if tokens == [] then [] else [Scrubbed(tokens[0], scrub)] + ScrubAll(tokens[1..], scrub)
  }

  /** The text a scan is rewritten to, and the state it leaves. */
  function Written(lexed: Lexed, scrub: string -> string): (string, State) {
    (TextOf(ScrubAll(lexed.tokens, scrub)), lexed.state)
  }

  /** What is written in all when out is written and lexed is still to come. */
  function After(out: string, lexed: Lexed, scrub: string -> string): (string, State) {
    (out + Written(lexed, scrub).0, lexed.state)
  }

  lemma {:induction false} ConsWritten(out: string, t: Token, rest: Lexed, scrub: string -> string)
    ensures After(out, Cons(t, rest), scrub) == After(out + Text(Scrubbed(t, scrub)), rest, scrub)
  {
    var tokens := [t] + rest.tokens;
    assert tokens[1..] == rest.tokens;
    var scrubbed := ScrubAll(tokens, scrub);
    assert scrubbed[0] == Scrubbed(t, scrub) && scrubbed[1..] == ScrubAll(rest.tokens, scrub);
    Associate(out, Text(scrubbed[0]), TextOf(scrubbed[1..]));
  }

  lemma {:induction false} LastWritten(out: string, t: Token, state: State, scrub: string -> string)
    ensures After(out, Lexed([t], state), scrub) == (out + Text(Scrubbed(t, scrub)), state)
  {
    ConsWritten(out, t, Lexed([], state), scrub);
    assert [t] + [] == [t];
    assert out + Text(Scrubbed(t, scrub)) + "" == out + Text(Scrubbed(t, scrub));
  }

  lemma {:induction false} Associate(a: string, b: string, c: string)
    ensures a + b + c == a + (b + c)
  {}

  // ---- the rewriting loop ----

  /** str.find with a start position. */
  function FindFrom(line: string, sub: string, i: nat): (k: int)
    requires sub != "" && i <= |line|
    ensures k == -1 || i <= k < |line|
  {
    Shift(Find(line[i..], sub), i)
  }

  lemma {:induction false} RegionIsSpan(d: Delimiter, line: string, from: nat, end: nat)
    requires from <= end <= |line| && CloseIn(d, line[from..]) == end - from
    ensures Region(d, line[from..]) == Span(d, line[from..end]) && end + |d.Close()| <= |line|
  {
    ClosesThere(d, line[from..]);
    assert line[from..][..end - from] == line[from..end];
  }

  /** Where a region of line starts its body, ends it, and lets the scan go on. */
  datatype Extent = Extent(start: nat, end: nat, next: nat)

  ghost predicate Closed(line: string, i: nat, d: Delimiter, e: Extent, lang: Language) {
    && i < |line| && OpenerOf(line[i..], lang) == d && d != Nothing
    && e.start == i + |d.Open()| <= e.end <= |line| && e.next == e.end + |d.Close()|
    && CloseIn(d, line[e.start..]) == e.end - e.start
  }

  lemma {:induction false} LexUnfolds(s: string, t: Token, lang: Language)
    requires s != "" && First(s, lang) == t
    ensures Heads(t, s) && Lex(s, lang) == Then(t, s, lang)
  {
    FirstText(s, lang);
  }

  lemma {:induction false} ThenGoesOn(t: Token, s: string, rest: string, lang: Language)
    requires Heads(t, s) && !t.Running? && s[|Text(t)|..] == rest
    ensures Then(t, s, lang) == Cons(t, Lex(rest, lang))
  {}

  lemma {:induction false} HeadFits(t: Token, s: string)
    requires Heads(t, s) && !t.Running?
    ensures 0 < |Text(t)| <= |s|
  {}

  lemma {:induction false} RestAt(line: string, i: nat, t: Token, next: nat)
    requires i <= |line| && Heads(t, line[i..]) && !t.Running? && next == i + |Text(t)|
    ensures i < next <= |line| && line[i..][|Text(t)|..] == line[next..]
  {
    HeadFits(t, line[i..]);
    SliceShift(line, i, |Text(t)|);
  }

  /** The scan at i is the token found there and the scan behind it. */
  lemma {:induction false} LexFirst(line: string, i: nat, t: Token, next: nat, lang: Language)
    requires i < |line| && First(line[i..], lang) == t && !t.Running? && next == i + |Text(t)|
    ensures i < next <= |line| && Lex(line[i..], lang) == Cons(t, Lex(line[next..], lang))
  {
    LexUnfolds(line[i..], t, lang);
    RestAt(line, i, t, next);
    ThenGoesOn(t, line[i..], line[next..], lang);
  }

  lemma {:induction false} FirstIsSpan(line: string, i: nat, d: Delimiter, e: Extent, lang: Language)
    requires Closed(line, i, d, e, lang)
    ensures First(line[i..], lang) == Span(d, line[e.start..e.end])
  {
    RegionIsSpan(d, line, e.start, e.end);
    SliceShift(line, i, |d.Open()|);
  }

  /** The scan at a region that closes. */
  lemma {:induction false} LexSpan(line: string, i: nat, d: Delimiter, e: Extent, lang: Language)
    requires Closed(line, i, d, e, lang)
    ensures i < e.next <= |line|
    ensures Lex(line[i..], lang) == Cons(Span(d, line[e.start..e.end]), Lex(line[e.next..], lang))
  {
    FirstIsSpan(line, i, d, e, lang);
    LexFirst(line, i, Span(d, line[e.start..e.end]), e.next, lang);
  }

  /** The scan at a region that does not close. */
  lemma {:induction false} LexRunning(line: string, i: nat, d: Delimiter, lang: Language)
    requires i < |line| && OpenerOf(line[i..], lang) == d && d != Nothing
    requires i + |d.Open()| <= |line| && CloseIn(d, line[i + |d.Open()|..]) == -1
    ensures Lex(line[i..], lang) == Lexed([Running(d, line[i + |d.Open()|..])], d.Carried())
  {
    SliceShift(line, i, |d.Open()|);
    FirstText(line[i..], lang);
  }

  lemma {:induction false} LexPlain(line: string, i: nat, lang: Language)
    requires i < |line| && OpenerOf(line[i..], lang) == Nothing
    ensures Lex(line[i..], lang) == Cons(Plain(line[i]), Lex(line[i + 1..], lang))
  {
    FirstText(line[i..], lang);
    SliceShift(line, i, 1);
  }

  /** The line with its bodies rewritten, and the state it leaves. */
  function Rewritten(line: string, state: State, lang: Language, scrub: string -> string): (string, State) {
    Written(LexLine(line, state, lang), scrub)
  }

  /** The scan of a line inside a region that does not close. */
  lemma {:induction false} LexStaysOpen(line: string, state: State, lang: Language)
    requires !state.Normal? && CloseIn(Continued(state), line) == -1
    ensures LexLine(line, state, lang) == Lexed([Running(Continued(state), line)], state)
  {}

  /** The scan of a line inside a region that closes at end. */
  lemma {:induction false} LexReopens(line: string, state: State, end: nat, next: nat, lang: Language)
    requires !state.Normal? && CloseIn(Continued(state), line) == end && next == end + |Continued(state).Close()|
    ensures next <= |line|
    ensures LexLine(line, state, lang) == Cons(Span(Continued(state), line[..end]), Lex(line[next..], lang))
  {
    ClosesThere(Continued(state), line);
    var t := ResumedToken(line, state);
    assert |Text(t)| == next;
  }

  /** The region that the branches of the scan find at i. */
  function OpenerMet(line: string, i: nat, lang: Language): (d: Delimiter)
    requires i < |line|
    ensures d == OpenerOf(line[i..], lang) && i + |d.Open()| <= |line|
  {
    var ch := line[i];
    var two, three := Ahead(line, i, 2), Ahead(line, i, 3);
    var s := line[i..];
    assert two == s[..|two|] && three == s[..|three|];
    assert two == ['/', '/'] <==> Twice(s, '/', '/');
    assert two == ['/', '*'] <==> Twice(s, '/', '*');
    assert three == ['"', '"', '"'] <==> Thrice(s, '"');
    assert three == ['\'', '\'', '\''] <==> Thrice(s, '\'');
    if lang.Hash? && (three == ['"', '"', '"'] || three == ['\'', '\'', '\'']) then TripleString(ch)
    else if (lang.Slashes? && two == ['/', '/']) || (lang.Hash? && ch == '#') then LineComment(lang)
    else if lang.Slashes? && two == ['/', '*'] then BlockComment
    else if lang.Slashes? && ch == '`' then RawString
    else if ch == '"' then DoubleQuoted
    else if ch == '\'' then SingleQuoted(lang)
    else Nothing
  }

  /** The slice of up to n characters at i. */
  function Ahead(line: string, i: nat, n: nat): string
    requires i <= |line|
  {
    if i + n <= |line| then line[i..i + n] else line[i..]
  }

  function BodyOf(d: Delimiter, body: string, scrub: string -> string): string {
    if d.Scrubs() then scrub(body) else body
  }

  /** Writing a region that closes. */
  lemma {:induction false} SpanWritten(line: string, i: nat, d: Delimiter, e: Extent, lang: Language,
      scrub: string -> string,
      out: string, more: string)
    requires Closed(line, i, d, e, lang)
    requires more == out + (d.Open() + BodyOf(d, line[e.start..e.end], scrub) + d.Close())
    ensures i < e.next <= |line|
    ensures After(out, Lex(line[i..], lang), scrub) == After(more, Lex(line[e.next..], lang), scrub)
  {
    LexSpan(line, i, d, e, lang);
    ConsWritten(out, Span(d, line[e.start..e.end]), Lex(line[e.next..], lang), scrub);
  }

  /** Writing a region that does not close. */
  lemma {:induction false} RunningWritten(line: string, i: nat, d: Delimiter, start: nat, lang: Language,
      scrub: string -> string,
      out: string, more: string)
    requires i < |line| && OpenerOf(line[i..], lang) == d && d != Nothing
    requires start == i + |d.Open()| <= |line| && CloseIn(d, line[start..]) == -1
    requires more == out + (d.Open() + if d.Escapes() then line[start..] else BodyOf(d, line[start..], scrub))
    ensures After(out, Lex(line[i..], lang), scrub) == (more, d.Carried())
  {
    LexRunning(line, i, d, lang);
    LastWritten(out, Running(d, line[start..]), d.Carried(), scrub);
    RunningText(d, line[start..], scrub);
  }

  lemma {:induction false} RunningText(d: Delimiter, body: string, scrub: string -> string)
    ensures Text(Scrubbed(Running(d, body), scrub)) == d.Open() + if d.Escapes() then body else BodyOf(d, body, scrub)
  {}

  lemma {:induction false} PlainWritten(line: string, i: nat, lang: Language, scrub: string -> string, out: string,
      more: string)
    requires i < |line| && OpenerOf(line[i..], lang) == Nothing && more == out + [line[i]]
    ensures After(out, Lex(line[i..], lang), scrub) == After(more, Lex(line[i + 1..], lang), scrub)
  {
    LexPlain(line, i, lang);
    ConsWritten(out, Plain(line[i]), Lex(line[i + 1..], lang), scrub);
  }

  lemma {:induction false} FoundCloses(line: string, i: nat, d: Delimiter, e: Extent, lang: Language)
    requires i < |line| && OpenerOf(line[i..], lang) == d && d != Nothing && !d.Escapes() && d.Close() != ""
    requires e.start == i + |d.Open()| <= |line| && e.end == FindFrom(line, d.Close(), e.start)
    requires e.next == e.end + |d.Close()|
    ensures Closed(line, i, d, e, lang)
  {}

  lemma {:induction false} NotFoundRuns(line: string, d: Delimiter, start: nat)
    requires !d.Escapes() && d.Close() != "" && start <= |line| && FindFrom(line, d.Close(), start) == -1
    ensures CloseIn(d, line[start..]) == -1
  {}

  /** A region that closes, written. */
  method WriteSpan(line: string, i: nat, d: Delimiter, e: Extent, ghost lang: Language, scrub: string -> string,
      out: string) returns (more: string)
    requires Closed(line, i, d, e, lang)
    ensures i < e.next <= |line|
    ensures After(out, Lex(line[i..], lang), scrub) == After(more, Lex(line[e.next..], lang), scrub)
  {
    more := out + (d.Open() + BodyOf(d, line[e.start..e.end], scrub) + d.Close());
    SpanWritten(line, i, d, e, lang, scrub, out, more);
  }

  /** A region that does not close, written. */
  method WriteRunning(line: string, i: nat, d: Delimiter, start: nat, ghost lang: Language,
      scrub: string -> string, out: string) returns (more: string)
    requires i < |line| && OpenerOf(line[i..], lang) == d && d != Nothing
    requires start == i + |d.Open()| <= |line| && CloseIn(d, line[start..]) == -1
    ensures After(out, Lex(line[i..], lang), scrub) == (more, d.Carried())
  {
    more := out + (d.Open() + if d.Escapes() then line[start..] else BodyOf(d, line[start..], scrub));
    RunningWritten(line, i, d, start, lang, scrub, out, more);
  }

  /** A region other than a quoted string, opened at i: what is written with it, and where
      the scan goes on, if it does. */
  method TakeRegion(line: string, i: nat, d: Delimiter, ghost lang: Language, scrub: string -> string, out: string)
    returns (more: string, closed: bool, next: nat)
    requires i < |line| && OpenerOf(line[i..], lang) == d && d != Nothing && !d.Escapes() && d.Close() != ""
    requires i + |d.Open()| <= |line|
    ensures !closed ==> After(out, Lex(line[i..], lang), scrub) == (more, d.Carried())
    ensures closed ==>
        i < next <= |line| && After(out, Lex(line[i..], lang), scrub) == After(more, Lex(line[next..], lang), scrub)
  {
    var start := i + |d.Open()|;
    var end := FindFrom(line, d.Close(), start);
    closed, next := end != -1, 0;
    if closed {
      var e := Extent(start, end, end + |d.Close()|);
      FoundCloses(line, i, d, e, lang);
      more := WriteSpan(line, i, d, e, lang, scrub, out);
      next := e.next;
    } else {
      NotFoundRuns(line, d, start);
      more := WriteRunning(line, i, d, start, lang, scrub, out);
    }
  }

  /** A quoted string opened at i. */
  method TakeQuoted(line: string, i: nat, d: Delimiter, ghost lang: Language, scrub: string -> string, out: string)
    returns (more: string, closed: bool, next: nat)
    requires i < |line| && OpenerOf(line[i..], lang) == d && d.Escapes()
    ensures !closed ==> After(out, Lex(line[i..], lang), scrub) == (more, Normal)
    ensures closed ==>
        i < next <= |line| && After(out, Lex(line[i..], lang), scrub) == After(more, Lex(line[next..], lang), scrub)
  {
    var j := ScanQuote(line, i, d.Open()[0]);
    closed, next := j != -1, j + 1;
    if !closed {
      more := WriteRunning(line, i, d, i + 1, lang, scrub, out);
    } else {
      more := WriteSpan(line, i, d, Extent(i + 1, j, next), lang, scrub, out);
    }
  }

  /** _rewrite_line. */
  method RewriteLine(line: string, state: State, lang: Language, scrub: string -> string)
    returns (text: string, next: State)
    ensures (text, next) == Rewritten(line, state, lang, scrub)
  {
    var out, i := "", 0;
    if !state.Normal? {
      var d := Continued(state);
      var end := FindFrom(line, d.Close(), 0);
      assert line[0..] == line;
      if end == -1 {
        StaysOpen(line, state, lang, scrub);
        return BodyOf(d, line, scrub), state;
      }
      out, i := BodyOf(d, line[..end], scrub) + d.Close(), end + |d.Close()|;
      Reopens(line, state, end, i, lang, scrub, out);
    } else {
      NothingWritten(line, lang, scrub);
    }
    text, next := Scan(line, i, lang, scrub, out);
  }

  lemma {:induction false} StaysOpen(line: string, state: State, lang: Language, scrub: string -> string)
    requires !state.Normal? && CloseIn(Continued(state), line) == -1
    ensures Rewritten(line, state, lang, scrub) == (BodyOf(Continued(state), line, scrub), state)
  {
    var t := Running(Continued(state), line);
    LexStaysOpen(line, state, lang);
    FromNothing(Lexed([t], state), scrub);
    LastWritten("", t, state, scrub);
    var body := BodyOf(Continued(state), line, scrub);
    assert "" + ("" + body) == body;
  }

  lemma {:induction false} Reopens(line: string, state: State, end: nat, next: nat, lang: Language,
      scrub: string -> string, out: string)
    requires !state.Normal? && CloseIn(Continued(state), line) == end && next == end + |Continued(state).Close()|
    requires out == BodyOf(Continued(state), line[..end], scrub) + Continued(state).Close()
    ensures next <= |line| && Rewritten(line, state, lang, scrub) == After(out, Lex(line[next..], lang), scrub)
  {
    var t := Span(Continued(state), line[..end]);
    LexReopens(line, state, end, next, lang);
    ContinuedText(state, line[..end], scrub);
    StartWritten(t, Lex(line[next..], lang), out, scrub);
  }

  lemma {:induction false} StartWritten(t: Token, rest: Lexed, out: string, scrub: string -> string)
    requires "" + Text(Scrubbed(t, scrub)) == out
    ensures Written(Cons(t, rest), scrub) == After(out, rest, scrub)
  {
    FromNothing(Cons(t, rest), scrub);
    ConsWritten("", t, rest, scrub);
  }

  lemma {:induction false} ContinuedText(state: State, body: string, scrub: string -> string)
    ensures
      var d := Continued(state);
      "" + Text(Scrubbed(Span(d, body), scrub)) == BodyOf(d, body, scrub) + d.Close()
  {}

  lemma {:induction false} FromNothing(lexed: Lexed, scrub: string -> string)
    ensures After("", lexed, scrub) == Written(lexed, scrub)
  {
    var text := Written(lexed, scrub).0;
    assert "" + text == text;
  }

  lemma {:induction false} NothingWritten(line: string, lang: Language, scrub: string -> string)
    ensures Rewritten(line, Normal, lang, scrub) == After("", Lex(line[0..], lang), scrub)
  {
    assert line[0..] == line;
    FromNothing(Lex(line, lang), scrub);
  }

  lemma {:induction false} AllWritten(line: string, lang: Language, scrub: string -> string, out: string)
    ensures After(out, Lex(line[|line|..], lang), scrub) == (out, Normal)
  {
    assert out + "" == out;
  }

  /** One turn of the scan at i. */
  method Take(line: string, i: nat, lang: Language, scrub: string -> string, out: string)
    returns (more: string, closed: bool, next: nat, state: State)
    requires i < |line|
    ensures !closed ==> After(out, Lex(line[i..], lang), scrub) == (more, state)
    ensures closed ==>
        i < next <= |line| && After(out, Lex(line[i..], lang), scrub) == After(more, Lex(line[next..], lang), scrub)
  {
    var d := OpenerMet(line, i, lang);
    state := d.Carried();
    if d.Nothing? {
      more, closed, next := out + [line[i]], true, i + 1;
      PlainWritten(line, i, lang, scrub, out, more);
    } else if d.LineComment? {
      closed, next := false, i + |d.Open()|;
      more := WriteRunning(line, i, d, next, lang, scrub, out);
    } else if d.Escapes() {
      more, closed, next := TakeQuoted(line, i, d, lang, scrub, out);
    } else {
      more, closed, next := TakeRegion(line, i, d, lang, scrub, out);
    }
  }

  /** The loop of _rewrite_line, from position start with written already written. */
  method Scan(line: string, start: nat, lang: Language, scrub: string -> string, written: string)
    returns (text: string, next: State)
    requires start <= |line|
    ensures (text, next) == After(written, Lex(line[start..], lang), scrub)
  {
    var out, i := written, start;
    while i < |line|
      invariant i <= |line| && After(written, Lex(line[start..], lang), scrub)
          == After(out, Lex(line[i..], lang), scrub)
      decreases |line| - i
    {
      var more, closed, after, state := Take(line, i, lang, scrub, out);
      if !closed {
        return more, state;
      }
      out, i := more, after;
    }
    AllWritten(line, lang, scrub, out);
    return out, Normal;
  }
}
