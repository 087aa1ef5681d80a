/** The scrubber over a whole file: the lines it reports and the content it writes. */
module ScrubberFile {
  import opened Texts
  import opened Scrubber
  import opened ScrubberProof

  predicate Terminated(line: string) { line != "" && line[|line| - 1] == '\n' }

  /** The line without its line ends. */
  function Chomp(line: string): (r: string)
    ensures |r| <= |line| && r == line[..|r|]
  {
    if Terminated(line) then Chomp(line[..|line| - 1]) else line
  }

  /** The lines of a text, each with its own line end. */
  function Lines(text: string): seq<string>
    decreases |text|
  {
    if text == "" then []
    else
      var n := Find(text, ['\n']);
      if n == -1 then [text] else [text[..n + 1]] + Lines(text[n + 1..])
  }

  function Joined(lines: seq<string>): string { if lines == [] then "" else lines[0] + Joined(lines[1..]) }

  /** The state the scan is in when it reaches line k. The rewriting plays no part in it. */
  function StateAt(lines: seq<string>, k: nat, lang: Language): State
    requires k <= |lines|
  {
    if k == 0 then Normal else LexLine(Chomp(lines[k - 1]), StateAt(lines, k - 1, lang), lang).state
  }

  function NewBody(lines: seq<string>, k: nat, lang: Language, scrub: string -> string): string
    requires k < |lines|
  {
    Rewritten(Chomp(lines[k]), StateAt(lines, k, lang), lang, scrub).0
  }

  function Bodies(lines: seq<string>): seq<string> {
    seq(|lines|, k requires 0 <= k < |lines| => Chomp(lines[k]))
  }

  function NewBodies(lines: seq<string>, lang: Language, scrub: string -> string): seq<string> {
    seq(|lines|, k requires 0 <= k < |lines| => NewBody(lines, k, lang, scrub))
  }

  /** The line ends of the lines put behind other bodies. */
  function Ended(bodies: seq<string>, lines: seq<string>): (r: seq<string>)
    requires |bodies| == |lines|
    ensures |r| == |lines|
  {
    seq(|lines|, k requires 0 <= k < |lines| => bodies[k] + End(lines[k]))
  }

  function End(line: string): string { if Terminated(line) then "\n" else "" }

  // ---- the report ----

  datatype Change = Change(number: nat, before: string, after: string)

  /** The lines among the first k that differ. */
  function Changes(before: seq<string>, after: seq<string>, k: nat): seq<Change>
    requires k <= |before| == |after|
  {
    if k == 0 then []
    else Changes(before, after, k - 1) + if before[k - 1] == after[k - 1] then []
        else [Change(k, before[k - 1], after[k - 1])]
  }

  predicate Reported(changes: seq<Change>, number: nat) { exists i | 0 <= i < |changes| :: changes[i].number == number }

  lemma {:induction false} ReportedAppend(a: seq<Change>, b: seq<Change>, number: nat)
    ensures Reported(a + b, number) <==> Reported(a, number) || Reported(b, number)
  {
    var c := a + b;
    assert forall i | 0 <= i < |a| :: c[i] == a[i];
    assert forall i | 0 <= i < |b| :: c[|a| + i] == b[i];
  }

  /** The numbers rise and stay within 1 and k. */
  predicate Ordered(changes: seq<Change>, k: nat) {
    && (forall i | 0 <= i < |changes| :: 1 <= changes[i].number <= k)
    && forall i, j | 0 <= i < j < |changes| :: changes[i].number < changes[j].number
  }

  /** Each entry of the report shows its line as it was and as it will be. */
  lemma {:induction false} ReportShows(before: seq<string>, after: seq<string>, k: nat, i: nat)
    requires k <= |before| == |after| && i < |Changes(before, after, k)|
    ensures
      var c := Changes(before, after, k)[i];
      1 <= c.number <= k && c.before == before[c.number - 1] && c.after == after[c.number - 1]
  {
    if i < |Changes(before, after, k - 1)| { ReportShows(before, after, k - 1, i); }
  }

  /** The report names each line that differs, once, in order, and no other. */
  lemma {:induction false} ReportIsExact(before: seq<string>, after: seq<string>, k: nat)
    requires k <= |before| == |after|
    ensures Ordered(Changes(before, after, k), k)
    ensures forall n | 0 <= n < k :: before[n] != after[n] <==> Reported(Changes(before, after, k), n + 1)
  {
    if k > 0 {
      ReportIsExact(before, after, k - 1);
      var fewer := Changes(before, after, k - 1);
      var more := if before[k - 1] == after[k - 1] then [] else [Change(k, before[k - 1], after[k - 1])];
      forall n | 0 <= n < k ensures before[n] != after[n] <==> Reported(Changes(before, after, k), n + 1) {
        ReportedAppend(fewer, more, n + 1);
        assert n == k - 1 && more != [] ==> more[0].number == n + 1;
      }
    }
  }

  /** Line and state before it give body and state after it. */
  predicate LineStep(line: string, state: State, body: string, next: State, lang: Language, scrub: string -> string) {
    Rewritten(Chomp(line), state, lang, scrub) == (body, next)
  }

  lemma {:induction false} EndedStep(after: seq<string>, lines: seq<string>, k: nat)
    requires k < |lines| == |after|
    ensures Ended(after, lines)[..k] + [after[k] + End(lines[k])] == Ended(after, lines)[..k + 1]
  {}

  lemma {:induction false} EndedAll(after: seq<string>, lines: seq<string>)
    requires |lines| == |after|
    ensures Ended(after, lines)[..|lines|] == Ended(after, lines)
  {}

  lemma {:induction false} ChangesStep(lines: seq<string>, after: seq<string>, k: nat)
    requires k < |lines| == |after|
    ensures Changes(Bodies(lines), after, k + 1)
            == Changes(Bodies(lines), after, k) + if Chomp(lines[k]) == after[k] then []
                else [Change(k + 1, Chomp(lines[k]), after[k])]
  {}

  /** One line of the loop. */
  method RewriteNext(line: string, state: State, lang: Language, scrub: string -> string, ghost body: string,
      ghost after: State)
    returns (rewritten: string, next: State)
    requires LineStep(line, state, body, after, lang, scrub)
    ensures rewritten == body && next == after
  {
    rewritten, next := RewriteLine(Chomp(line), state, lang, scrub);
  }

  /** The loop of process. */
  method Rewriting(lines: seq<string>, lang: Language, scrub: string -> string, ghost after: seq<string>,
      ghost states: seq<State>)
    returns (changed: seq<Change>, content: string)
    requires |after| == |lines| && |states| == |lines| + 1 && states[0] == Normal
    requires forall k | 0 <= k < |lines| :: LineStep(lines[k], states[k], after[k], states[k + 1], lang, scrub)
    ensures changed == Changes(Bodies(lines), after, |lines|) && content == Joined(Ended(after, lines))
  {
    var state := Normal;
    var newLines: seq<string> := [];
    changed := [];
    for k := 0 to |lines|
      invariant state == states[k]
      invariant newLines == Ended(after, lines)[..k]
      invariant changed == Changes(Bodies(lines), after, k)
    {
      var rewritten, next := RewriteNext(lines[k], state, lang, scrub, after[k], states[k + 1]);
      ChangesStep(lines, after, k);
      EndedStep(after, lines, k);
      var body := Chomp(lines[k]);
      changed := changed + if body == rewritten then [] else [Change(k + 1, body, rewritten)];
      newLines := newLines + [rewritten + End(lines[k])];
      state := next;
    }
    EndedAll(after, lines);
    content := Joined(newLines);
  }

  function States(lines: seq<string>, lang: Language): seq<State> {
    seq(|lines| + 1, k requires 0 <= k <= |lines| => StateAt(lines, k, lang))
  }

  lemma {:induction false} StatesAre(lines: seq<string>, k: nat, lang: Language)
    requires k <= |lines|
    ensures States(lines, lang)[k] == StateAt(lines, k, lang)
  {}

  lemma {:induction false} NewBodiesAre(lines: seq<string>, k: nat, lang: Language, scrub: string -> string)
    requires k < |lines|
    ensures NewBodies(lines, lang, scrub)[k] == NewBody(lines, k, lang, scrub)
  {}

  lemma {:induction false} LineGives(lines: seq<string>, k: nat, lang: Language, scrub: string -> string)
    requires k < |lines|
    ensures LineStep(lines[k], StateAt(lines, k, lang), NewBody(lines, k, lang, scrub), StateAt(lines, k + 1, lang),
        lang, scrub)
  {}

  lemma {:induction false} LineProcessed(lines: seq<string>, k: nat, lang: Language, scrub: string -> string)
    requires k < |lines|
    ensures LineStep(lines[k], States(lines, lang)[k], NewBodies(lines, lang, scrub)[k], States(lines, lang)[k + 1],
        lang, scrub)
  {
    StatesAre(lines, k, lang);
    StatesAre(lines, k + 1, lang);
    NewBodiesAre(lines, k, lang, scrub);
    LineGives(lines, k, lang, scrub);
  }

  /** process: the report is of the bodies that differ and the content is the new bodies with
      the old line ends. */
  method Process(lines: seq<string>, lang: Language, scrub: string -> string)
    returns (changed: seq<Change>, content: string)
    ensures changed == Changes(Bodies(lines), NewBodies(lines, lang, scrub), |lines|)
    ensures content == Joined(Ended(NewBodies(lines, lang, scrub), lines))
  {
    ghost var after, states := NewBodies(lines, lang, scrub), States(lines, lang);
    forall k | 0 <= k < |lines| ensures LineStep(lines[k], states[k], after[k], states[k + 1], lang, scrub) {
      LineProcessed(lines, k, lang, scrub);
    }
    changed, content := Rewriting(lines, lang, scrub, after, states);
  }

  // ---- nothing is reported exactly when nothing is written ----

  /** How many line ends s holds. */
  function LineEnds(s: string): nat { if s == "" then 0 else LineEnds(s[1..]) + if s[0] == '\n' then 1 else 0 }

  lemma {:induction false} LineEndsConcat(a: string, b: string)
    ensures LineEnds(a + b) == LineEnds(a) + LineEnds(b)
  {
    if a == "" {
      assert a + b == b;
    } else {
      assert (a + b)[1..] == a[1..] + b;
      LineEndsConcat(a[1..], b);
    }
  }

  lemma {:induction false} NoLineEnds(s: string)
    ensures LineEnds(s) == 0 <==> '\n' !in s
  {
    if s != "" { NoLineEnds(s[1..]); }
  }

  /** A line with at most one line end, behind its body. */
  predicate IsLine(line: string) { line == Chomp(line) + End(line) && '\n' !in Chomp(line) }

  /** The lines of one text: all but the last have a line end. */
  predicate LineList(lines: seq<string>) {
    (forall k | 0 <= k < |lines| :: IsLine(lines[k])) && forall k | 0 <= k < |lines| - 1 :: Terminated(lines[k])
  }

  lemma {:induction false} EndedRest(after: seq<string>, lines: seq<string>)
    requires lines != [] && |after| == |lines|
    ensures Ended(after, lines)[0] == after[0] + End(lines[0])
    ensures Ended(after, lines)[1..] == Ended(after[1..], lines[1..])
  {}

  lemma {:induction false} OwnBodies(lines: seq<string>)
    requires LineList(lines)
    ensures Ended(Bodies(lines), lines) == lines
  {
    forall k | 0 <= k < |lines| ensures Ended(Bodies(lines), lines)[k] == lines[k] { assert IsLine(lines[k]); }
  }

  lemma {:induction false} LineEndsOfLine(line: string)
    requires IsLine(line)
    ensures LineEnds(line) == if Terminated(line) then 1 else 0
  {
    LineEndsConcat(Chomp(line), End(line));
    NoLineEnds(Chomp(line));
    assert LineEnds("\n") == 1 by { assert "\n"[1..] == ""; }
  }

  /** New bodies never take a line end away. */
  lemma {:induction false} LineEndsKept(after: seq<string>, lines: seq<string>)
    requires LineList(lines) && |after| == |lines|
    ensures LineEnds(Joined(Ended(after, lines))) >= LineEnds(Joined(lines))
  {
    if lines != [] {
      var rest := Joined(Ended(after[1..], lines[1..]));
      EndedRest(after, lines);
      LineEndsKept(after[1..], lines[1..]);
      LineEndsConcat(after[0] + End(lines[0]), rest);
      LineEndsConcat(after[0], End(lines[0]));
      LineEndsConcat(lines[0], Joined(lines[1..]));
      assert IsLine(lines[0]);
      LineEndsOfLine(lines[0]);
      assert LineEnds("\n") == 1 by { assert "\n"[1..] == ""; }
    }
  }

  /** Two texts that agree, the second line-ended body free of line ends and the tails in
      order: the bodies agree. */
  lemma {:induction false} FirstLineAgrees(a: string, b: string, x: string, y: string)
    requires '\n' !in b && LineEnds(x) >= LineEnds(y) && a + "\n" + x == b + "\n" + y
    ensures a == b && x == y
  {
    var s := a + "\n" + x;
    assert s == b + "\n" + y;
    assert s[|a|] == '\n' && s[|b|] == '\n';
    NoLineEnds(b);
    LineEndsConcat(a + "\n", x);
    LineEndsConcat(b + "\n", y);
    LineEndsConcat(a, "\n");
    LineEndsConcat(b, "\n");
    NoLineEnds(a);
    assert a == s[..|a|] && b == s[..|b|] && x == s[|a| + 1..] && y == s[|b| + 1..];
  }

  lemma {:induction false} SameTextSameBodies(after: seq<string>, lines: seq<string>)
    requires LineList(lines) && |after| == |lines| && Joined(Ended(after, lines)) == Joined(lines)
    ensures after == Bodies(lines)
  {
    if lines != [] {
      assert IsLine(lines[0]);
      EndedRest(after, lines);
      var x, y := Joined(Ended(after[1..], lines[1..])), Joined(lines[1..]);
      if Terminated(lines[0]) {
        LineEndsKept(after[1..], lines[1..]);
        FirstLineAgrees(after[0], Chomp(lines[0]), x, y);
        SameTextSameBodies(after[1..], lines[1..]);
        assert after == [after[0]] + after[1..] && Bodies(lines) == [Chomp(lines[0])] + Bodies(lines[1..]);
      } else {
        assert |lines| == 1;
        assert after[0] + "" + "" == after[0] && lines[0] + "" == lines[0];
      }
    }
  }

  lemma {:induction false} FirstLineIsLine(text: string, n: nat)
    requires Find(text, ['\n']) == n
    ensures IsLine(text[..n + 1]) && Terminated(text[..n + 1])
  {
    FindIsFirst(text, ['\n']);
    var body := text[..n];
    assert At(text, ['\n'], n) && text[n..][..1] == ['\n'];
    assert text[..n + 1] == body + ['\n'];
    forall i | 0 <= i < n ensures body[i] != '\n' {
      assert !At(text, ['\n'], i);
      assert text[i..][..1] == [text[i]];
    }
    assert Chomp(body) == body;
    assert Chomp(body + ['\n']) == body by { assert (body + ['\n'])[..n] == body; }
  }

  lemma {:induction false} LastLineIsLine(text: string)
    requires Find(text, ['\n']) == -1
    ensures IsLine(text) && !Terminated(text)
  {
    FindIsFirst(text, ['\n']);
    forall i | 0 <= i < |text| ensures text[i] != '\n' {
      assert !At(text, ['\n'], i);
      assert text[i..][..1] == [text[i]];
    }
    assert text + "" == text;
  }

  lemma {:induction false} ConsLines(first: string, rest: seq<string>)
    requires IsLine(first) && Terminated(first) && LineList(rest)
    ensures LineList([first] + rest)
  {
    var lines := [first] + rest;
    assert forall k | 1 <= k < |lines| :: lines[k] == rest[k - 1];
  }

  lemma {:induction false} LinesAreLines(text: string)
    ensures LineList(Lines(text))
    decreases |text|
  {
    if text != "" {
      var n := Find(text, ['\n']);
      if n == -1 {
        LastLineIsLine(text);
      } else {
        FirstLineIsLine(text, n);
        LinesAreLines(text[n + 1..]);
        ConsLines(text[..n + 1], Lines(text[n + 1..]));
      }
    }
  }

  lemma {:induction false} ConsJoined(first: string, rest: seq<string>)
    ensures Joined([first] + rest) == first + Joined(rest)
  {
    assert ([first] + rest)[1..] == rest;
  }

  lemma {:induction false} LinesJoin(text: string)
    ensures Joined(Lines(text)) == text
    decreases |text|
  {
    if text != "" {
      var n := Find(text, ['\n']);
      if n == -1 {
        ConsJoined(text, []);
        assert [text] + [] == [text] && text + "" == text;
      } else {
        LinesJoin(text[n + 1..]);
        ConsJoined(text[..n + 1], Lines(text[n + 1..]));
        assert text == text[..n + 1] + text[n + 1..];
      }
    }
  }

  lemma {:induction false} NoChanges(before: seq<string>, after: seq<string>, k: nat)
    requires k <= |before| == |after|
    ensures Changes(before, after, k) == [] <==> before[..k] == after[..k]
  {
    if k > 0 {
      NoChanges(before, after, k - 1);
      assert before[..k] == before[..k - 1] + [before[k - 1]] && after[..k] == after[..k - 1] + [after[k - 1]];
      assert before[..k][k - 1] == before[k - 1] && after[..k][k - 1] == after[k - 1];
      assert before[..k][..k - 1] == before[..k - 1] && after[..k][..k - 1] == after[..k - 1];
    }
  }

  /** The check reports nothing exactly when applying would leave the file as it is, whatever
      the rewriting does, even where it adds line ends. */
  lemma {:induction false} NothingReportedExactly(text: string, after: seq<string>)
    requires |after| == |Lines(text)|
    ensures Changes(Bodies(Lines(text)), after, |after|) == [] <==> Joined(Ended(after, Lines(text))) == text
  {
    var lines := Lines(text);
    LinesAreLines(text);
    LinesJoin(text);
    NoChanges(Bodies(lines), after, |after|);
    assert Bodies(lines)[..|after|] == Bodies(lines) && after[..|after|] == after;
    OwnBodies(lines);
    if Joined(Ended(after, lines)) == text { SameTextSameBodies(after, lines); }
  }

  // ---- a second pass ----

  /** On line k the bodies stay within their delimiters and the last gains no line end at its end. */
  predicate ContainedAt(lines: seq<string>, k: nat, lang: Language, scrub: string -> string)
    requires k < |lines|
  {
    && AllSafe(LexLine(Chomp(lines[k]), StateAt(lines, k, lang), lang).tokens, lang, scrub)
    && !Terminated(NewBody(lines, k, lang, scrub))
  }

  predicate Contained(lines: seq<string>, lang: Language, scrub: string -> string) {
    forall k | 0 <= k < |lines| :: ContainedAt(lines, k, lang, scrub)
  }

  /** The lines that are written. */
  function NewLines(lines: seq<string>, lang: Language, scrub: string -> string): (r: seq<string>)
    ensures |r| == |lines|
  {
    Ended(NewBodies(lines, lang, scrub), lines)
  }

  lemma {:induction false} NewLineBody(lines: seq<string>, k: nat, lang: Language, scrub: string -> string)
    requires Contained(lines, lang, scrub) && k < |lines|
    ensures Chomp(NewLines(lines, lang, scrub)[k]) == NewBody(lines, k, lang, scrub)
  {
    assert ContainedAt(lines, k, lang, scrub);
    ChompEnded(NewBody(lines, k, lang, scrub), lines[k]);
  }

  lemma {:induction false} ChompEnded(body: string, line: string)
    requires !Terminated(body)
    ensures Chomp(body + End(line)) == body
  {
    assert Chomp(body) == body;
    assert body + "" == body;
    assert (body + "\n")[..|body|] == body;
  }

  lemma {:induction false} SameStateLeft(line: string, state: State, lang: Language, scrub: string -> string)
    requires AllSafe(LexLine(line, state, lang).tokens, lang, scrub)
    ensures LexLine(Rewritten(line, state, lang, scrub).0, state, lang).state == LexLine(line, state, lang).state
  {
    StructureSurvives(line, state, lang, scrub);
  }

  predicate HasNewBody(lines: seq<string>, written: seq<string>, k: nat, lang: Language, scrub: string -> string)
    requires k < |lines| == |written|
  {
    Chomp(written[k]) == NewBody(lines, k, lang, scrub)
  }

  lemma {:induction false} SameNextState(lines: seq<string>, written: seq<string>, k: nat, lang: Language,
      scrub: string -> string)
    requires k < |lines| == |written| && ContainedAt(lines, k, lang, scrub) &&
        HasNewBody(lines, written, k, lang, scrub)
    ensures States(written, lang)[k] == States(lines, lang)[k] ==>
        States(written, lang)[k + 1] == States(lines, lang)[k + 1]
  {
    SameStateLeft(Chomp(lines[k]), StateAt(lines, k, lang), lang, scrub);
  }

  /** Two runs that start alike and take each step alike are alike. */
  lemma {:induction false} Stepwise(a: seq<State>, b: seq<State>, k: nat)
    requires k < |a| == |b| && a[0] == b[0]
    requires forall j | 0 <= j < |a| - 1 :: a[j] == b[j] ==> a[j + 1] == b[j + 1]
    ensures a[k] == b[k]
  {
    if k > 0 { Stepwise(a, b, k - 1); }
  }

  /** The scan of lines with the new bodies goes through the same states. */
  lemma {:induction false} SameStates(lines: seq<string>, written: seq<string>, k: nat, lang: Language,
      scrub: string -> string)
    requires Contained(lines, lang, scrub) && k <= |lines| == |written|
    requires forall j | 0 <= j < |lines| :: HasNewBody(lines, written, j, lang, scrub)
    ensures States(written, lang)[k] == States(lines, lang)[k]
  {
    var a, b := States(written, lang), States(lines, lang);
    forall j | 0 <= j < |lines| ensures a[j] == b[j] ==> a[j + 1] == b[j + 1] {
      SameNextState(lines, written, j, lang, scrub);
    }
    Stepwise(a, b, k);
  }

  lemma {:induction false} CleanLine(lines: seq<string>, written: seq<string>, k: nat, lang: Language,
      scrub: string -> string)
    requires Contained(lines, lang, scrub) && k < |lines| == |written|
    requires forall j | 0 <= j < |lines| :: HasNewBody(lines, written, j, lang, scrub)
    requires forall body :: scrub(scrub(body)) == scrub(body)
    ensures NewBody(written, k, lang, scrub) == Chomp(written[k])
  {
    assert ContainedAt(lines, k, lang, scrub) && HasNewBody(lines, written, k, lang, scrub);
    SameStates(lines, written, k, lang, scrub);
    RewritingSettles(Chomp(lines[k]), StateAt(lines, k, lang), lang, scrub);
  }

  /** After applying, a rewriting that settles each body in one go finds nothing to report. */
  lemma {:induction false} AppliedIsClean(lines: seq<string>, lang: Language, scrub: string -> string)
    requires Contained(lines, lang, scrub)
    requires forall body :: scrub(scrub(body)) == scrub(body)
    ensures
      var written := NewLines(lines, lang, scrub);
      Changes(Bodies(written), NewBodies(written, lang, scrub), |written|) == []
  {
    var written := NewLines(lines, lang, scrub);
    forall j | 0 <= j < |lines| ensures HasNewBody(lines, written, j, lang, scrub) {
      NewLineBody(lines, j, lang, scrub);
    }
    forall k | 0 <= k < |lines| ensures Bodies(written)[k] == NewBodies(written, lang, scrub)[k] {
      CleanLine(lines, written, k, lang, scrub);
    }
    NoChanges(Bodies(written), NewBodies(written, lang, scrub), |written|);
  }
}
