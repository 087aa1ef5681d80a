/** The path of a proxied request: its canonical form, the target it is forwarded to,
    and what reaching it requires. Strings are sequences of characters; the check that
    the router's string is valid UTF-8 is not part of this model. */
module GatewayPath {
  import opened Collections

  // ---- splitting and joining ----

  /** The position of the first c in s, or the length of s. */
  function IndexOf(s: string, c: char): (n: nat)
    ensures n <= |s| && c !in s[..n] && (n < |s| ==> s[n] == c)
  {
    if s == "" || s[0] == c then 0 else 1 + IndexOf(s[1..], c)
  }

  function Split(s: string): (segments: seq<string>)
    ensures segments != []
    decreases |s|
  {
    var n := IndexOf(s, '/');
    if n == |s| then [s] else [s[..n]] + Split(s[n + 1..])
  }

  function Join(segments: seq<string>): string {
    if segments == [] then ""
    else if |segments| == 1 then segments[0]
    else segments[0] + "/" + Join(segments[1..])
  }

  /** Every segment behind its own slash. */
  function PathOf(segments: seq<string>): string {
    if segments == [] then "" else "/" + segments[0] + PathOf(segments[1..])
  }

  predicate SlashFree(segments: seq<string>) { forall i | 0 <= i < |segments| :: '/' !in segments[i] }

  lemma {:induction false} PathOfJoin(segments: seq<string>)
    requires segments != []
    ensures PathOf(segments) == "/" + Join(segments)
  {
    if |segments| > 1 { PathOfJoin(segments[1..]); }
  }

  lemma JoinCons(first: string, rest: seq<string>)
    requires rest != []
    ensures Join([first] + rest) == first + "/" + Join(rest)
    ensures '/' !in first && SlashFree(rest) ==> SlashFree([first] + rest)
  {
    assert ([first] + rest)[1..] == rest;
  }

  lemma {:induction false} JoinSplit(s: string)
    ensures Join(Split(s)) == s && SlashFree(Split(s))
    decreases |s|
  {
    var n := IndexOf(s, '/');
    if n == |s| {
      assert s[..n] == s;
    } else {
      JoinSplit(s[n + 1..]);
      JoinCons(s[..n], Split(s[n + 1..]));
      assert s == s[..n] + "/" + s[n + 1..];
    }
  }

  lemma {:induction false} IndexOfFirst(a: string, rest: string)
    requires '/' !in a
    ensures IndexOf(a + "/" + rest, '/') == |a|
  {
    if a != "" {
      assert a[0] in a && '/' !in a[1..];
      IndexOfFirst(a[1..], rest);
      assert (a + "/" + rest)[1..] == a[1..] + "/" + rest;
    }
  }

  lemma {:induction false} NoSlashToFind(a: string)
    requires '/' !in a
    ensures IndexOf(a, '/') == |a|
  {
    if a != "" {
      assert a[0] in a && '/' !in a[1..];
      NoSlashToFind(a[1..]);
    }
  }

  lemma {:induction false} SplitJoin(segments: seq<string>)
    requires segments != [] && SlashFree(segments)
    ensures Split(Join(segments)) == segments
  {
    if |segments| == 1 {
      NoSlashToFind(segments[0]);
    } else {
      var s, rest := Join(segments), Join(segments[1..]);
      IndexOfFirst(segments[0], rest);
      assert s == segments[0] + "/" + rest;
      assert s[..|segments[0]|] == segments[0] && s[|segments[0]| + 1..] == rest;
      SplitJoin(segments[1..]);
    }
  }

  lemma {:induction false} PathOfConcat(a: seq<string>, b: seq<string>)
    ensures PathOf(a + b) == PathOf(a) + PathOf(b)
  {
    if a == [] {
      assert a + b == b;
    } else {
      assert (a + b)[1..] == a[1..] + b;
      PathOfConcat(a[1..], b);
    }
  }

  // ---- canonical form ----

  const VERSION := "v1"

  /** A path relative to the Gateway API root, and whether the caller wrote the version. */
  datatype Path = Path(rel: string, versioned: bool)

  predicate Hex(s: string, i: nat, digits: set<string>) { i + 3 <= |s| && s[i + 1..i + 3] in digits }

  /** The escaped form hides a separator. */
  predicate EncodedSeparator(escaped: string) {
    exists i | 0 <= i < |escaped| :: escaped[i] == '%' && Hex(escaped, i, {"2f", "2F", "5c", "5C"})
  }

  predicate Forbidden(c: char) { c < ' ' || c == 0x7f as char || c == '\\' || c == '?' || c == '#' }

  predicate BadSegment(s: string) { s == "" || s == "." || s == ".." }

  function TrimSlash(s: string): string {
    if s != "" && s[|s| - 1] == '/' then s[..|s| - 1] else s
  }

  /** The path made of the segments below the root. */
  function Rel(segments: seq<string>): string { "/" + Join(segments) }

  /** CanonicalGatewayPath: refuse or reduce. */
  method Canonical(decoded: string, escaped: string) returns (r: Option<Path>)
    ensures r == CanonicalOf(decoded, escaped)
  {
    if EncodedSeparator(escaped) {
      return None;
    }
    if decoded == "" || decoded[0] != '/' {
      return None;
    }
    for i := 0 to |decoded|
      invariant forall j | 0 <= j < i :: !Forbidden(decoded[j])
    {
      if Forbidden(decoded[i]) {
        return None;
      }
    }
    var trimmed := TrimSlash(decoded);
    if trimmed == "" {
      return Some(Path("/", false));
    }
    var segments := Split(trimmed[1..]);
    for i := 0 to |segments|
      invariant forall j | 0 <= j < i :: !BadSegment(segments[j])
    {
      if BadSegment(segments[i]) {
        return None;
      }
    }
    var versioned := false;
    if segments[0] == VERSION {
      versioned := true;
      segments := segments[1..];
    }
    return Some(Path(Rel(segments), versioned));
  }

  predicate Allowed(text: string) { forall i | 0 <= i < |text| :: !Forbidden(text[i]) }

  function CanonicalOf(decoded: string, escaped: string): Option<Path> {
    if EncodedSeparator(escaped) || decoded == "" || decoded[0] != '/' || !Allowed(decoded) then None
    else if TrimSlash(decoded) == "" then Some(Path("/", false))
    else Reduced(Split(TrimSlash(decoded)[1..]))
  }

  function Reduced(segments: seq<string>): Option<Path> {
    if exists i | 0 <= i < |segments| :: BadSegment(segments[i]) then None else Some(OfSegments(segments))
  }

  /** A segment with an honest reading. */
  predicate Honest(s: string) {
    !BadSegment(s) && '/' !in s && Allowed(s)
  }

  predicate AllHonest(segments: seq<string>) { forall i | 0 <= i < |segments| :: Honest(segments[i]) }

  /** The canonical path of a list of segments. */
  function OfSegments(segments: seq<string>): Path {
    if segments != [] && segments[0] == VERSION then Path(Rel(segments[1..]), true) else Path(Rel(segments), false)
  }

  /** The wildcard that spells the segments, with or without one trailing slash. */
  function Spelling(segments: seq<string>, slash: bool): string {
    if segments == [] then "/" else PathOf(segments) + (if slash then "/" else "")
  }

  lemma {:induction false} HonestJoin(segments: seq<string>)
    requires segments != [] && AllHonest(segments)
    ensures Join(segments) != "" && Join(segments)[0] != '/' && Join(segments)[|Join(segments)| - 1] != '/'
    ensures Allowed(Join(segments))
  {
    var first := segments[0];
    assert Honest(first);
    assert first[0] in first && first[|first| - 1] in first;
    if |segments| > 1 { HonestJoin(segments[1..]); }
  }

  lemma SpellingTrims(segments: seq<string>, slash: bool)
    requires segments != [] && AllHonest(segments)
    ensures TrimSlash(Spelling(segments, slash)) == PathOf(segments) == Rel(segments)
    ensures Rel(segments)[1..] == Join(segments)
  {
    HonestJoin(segments);
    PathOfJoin(segments);
    assert (PathOf(segments) + "/")[..|PathOf(segments)|] == PathOf(segments);
    assert PathOf(segments) + "" == PathOf(segments);
  }

  lemma SpellingAllowed(segments: seq<string>, slash: bool)
    requires AllHonest(segments)
    ensures Spelling(segments, slash) != "" && Spelling(segments, slash)[0] == '/'
    ensures Allowed(Spelling(segments, slash))
  {
    if segments != [] {
      HonestJoin(segments);
      PathOfJoin(segments);
    }
  }

  lemma HonestIsSlashFree(segments: seq<string>)
    requires AllHonest(segments)
    ensures SlashFree(segments)
  {
    forall i | 0 <= i < |segments| ensures '/' !in segments[i] { assert Honest(segments[i]); }
  }

  lemma HonestReduces(segments: seq<string>)
    requires AllHonest(segments)
    ensures Reduced(segments) == Some(OfSegments(segments))
  {
    forall i | 0 <= i < |segments| ensures !BadSegment(segments[i]) { assert Honest(segments[i]); }
  }

  /** Every spelling of honest segments is accepted, as those segments. */
  lemma HonestIsAccepted(segments: seq<string>, slash: bool, escaped: string)
    requires AllHonest(segments) && !EncodedSeparator(escaped)
    ensures CanonicalOf(Spelling(segments, slash), escaped) == Some(OfSegments(segments))
  {
    SpellingAllowed(segments, slash);
    assert Rel([]) == "/";
    if segments != [] {
      SpellingTrims(segments, slash);
      HonestIsSlashFree(segments);
      SplitJoin(segments);
      HonestReduces(segments);
    }
  }

  predicate AllAllowed(segments: seq<string>) { forall i | 0 <= i < |segments| :: Allowed(segments[i]) }

  lemma ConsAllowed(first: string, rest: seq<string>)
    requires Allowed(first) && AllAllowed(rest)
    ensures AllAllowed([first] + rest)
  {}

  lemma {:induction false} SplitAllowed(s: string)
    requires Allowed(s)
    ensures AllAllowed(Split(s))
    decreases |s|
  {
    var n := IndexOf(s, '/');
    assert Allowed(s[..n]);
    if n < |s| {
      SplitAllowed(s[n + 1..]);
      ConsAllowed(s[..n], Split(s[n + 1..]));
    }
  }

  lemma SplitHonest(s: string)
    requires Allowed(s)
    requires forall i | 0 <= i < |Split(s)| :: !BadSegment(Split(s)[i])
    ensures AllHonest(Split(s))
  {
    SplitAllowed(s);
    JoinSplit(s);
    var segments := Split(s);
    forall i | 0 <= i < |segments| ensures Honest(segments[i]) {
      assert Allowed(segments[i]) && '/' !in segments[i] && !BadSegment(segments[i]);
    }
  }

  /** Only spellings of honest segments are accepted. */
  lemma AcceptedIsHonest(decoded: string, escaped: string) returns (segments: seq<string>, slash: bool)
    requires CanonicalOf(decoded, escaped).Some?
    ensures AllHonest(segments) && decoded == Spelling(segments, slash) && !EncodedSeparator(escaped)
    ensures CanonicalOf(decoded, escaped) == Some(OfSegments(segments))
  {
    var trimmed := TrimSlash(decoded);
    slash := trimmed != decoded;
    assert decoded == if slash then trimmed + "/" else trimmed;
    assert Allowed(trimmed);
    if trimmed == "" {
      segments := [];
      assert Rel([]) == "/";
    } else {
      segments := Split(trimmed[1..]);
      SpelledBySplit(trimmed, slash);
    }
  }

  lemma SpelledBySplit(trimmed: string, slash: bool)
    requires trimmed != "" && trimmed[0] == '/' && Allowed(trimmed)
    requires forall i | 0 <= i < |Split(trimmed[1..])| :: !BadSegment(Split(trimmed[1..])[i])
    ensures AllHonest(Split(trimmed[1..]))
    ensures Spelling(Split(trimmed[1..]), slash) == if slash then trimmed + "/" else trimmed
  {
    var body := trimmed[1..];
    JoinSplit(body);
    PathOfJoin(Split(body));
    assert trimmed == "/" + body;
    SplitHonest(body);
  }

  /** What is accepted, exactly: the honest segments behind single slashes, with at most one
      slash after them, in a request that hides no separator. */
  lemma AcceptedExactly(decoded: string, escaped: string)
    ensures CanonicalOf(decoded, escaped).Some? <==>
      && !EncodedSeparator(escaped)
      && exists segments, slash :: AllHonest(segments) && decoded == Spelling(segments, slash)
  {
    if CanonicalOf(decoded, escaped).Some? {
      var segments, slash := AcceptedIsHonest(decoded, escaped);
    } else if !EncodedSeparator(escaped) {
      forall segments, slash | AllHonest(segments) ensures decoded != Spelling(segments, slash) {
        HonestIsAccepted(segments, slash, escaped);
      }
    }
  }

  /** A second trailing slash is refused. */
  lemma TwoSlashesRefused(path: string, escaped: string)
    ensures CanonicalOf(path + "//", escaped) == None
  {
    if CanonicalOf(path + "//", escaped).Some? {
      var segments, slash := AcceptedIsHonest(path + "//", escaped);
      var s := Spelling(segments, slash);
      assert s[|s| - 1] == '/' && s[|s| - 2] == '/';
      if segments != [] {
        HonestJoin(segments);
        PathOfJoin(segments);
      }
      assert false;
    }
  }

  // ---- the target ----

  predicate EndsWith(s: string, suffix: string) { |suffix| <= |s| && s[|s| - |suffix|..] == suffix }

  /** The path part of gatewayTargetURL, for the path of the registered endpoint. */
  function Target(endpoint: string, path: Path): string {
    Versioned(TrimSlash(endpoint), path.versioned) + TrimSlash(path.rel)
  }

  function Versioned(base: string, versioned: bool): string {
    if versioned && !EndsWith(base, "/" + VERSION) then base + "/" + VERSION else base
  }

  /** The path of a URL with a host: empty or rooted. */
  predicate Rooted(path: string) { path == "" || path[0] == '/' }

  function SegmentsOf(path: string): seq<string>
    requires Rooted(path)
  {
    if path == "" then [] else Split(path[1..])
  }

  lemma PathOfSegmentsOf(path: string)
    requires Rooted(path)
    ensures PathOf(SegmentsOf(path)) == path && SlashFree(SegmentsOf(path))
  {
    if path != "" {
      JoinSplit(path[1..]);
      PathOfJoin(SegmentsOf(path));
      assert path == "/" + path[1..];
    }
  }

  lemma SegmentsOfPathOf(segments: seq<string>)
    requires SlashFree(segments)
    ensures Rooted(PathOf(segments)) && SegmentsOf(PathOf(segments)) == segments
  {
    if segments != [] {
      PathOfJoin(segments);
      SplitJoin(segments);
      assert PathOf(segments)[1..] == Join(segments);
    }
  }

  predicate LastIsVersion(segments: seq<string>) { segments != [] && segments[|segments| - 1] == VERSION }

  /** Ending in the text /v1 is having v1 as the last segment. */
  lemma VersionSuffix(segments: seq<string>)
    requires SlashFree(segments)
    ensures EndsWith(PathOf(segments), "/" + VERSION) <==> LastIsVersion(segments)
  {
    if segments != [] {
      var init, last := segments[..|segments| - 1], segments[|segments| - 1];
      assert segments == init + [last];
      PathOfConcat(init, [last]);
      assert PathOf([last]) == "/" + last + PathOf([]);
      var s := PathOf(segments);
      assert s == PathOf(init) + "/" + last;
      SuffixOfLast(PathOf(init), last);
    }
  }

  lemma SuffixOfLast(before: string, last: string)
    requires '/' !in last
    ensures EndsWith(before + "/" + last, "/" + VERSION) <==> last == VERSION
  {
    var s := before + "/" + last;
    assert s[|before|] == '/' && forall i | 0 <= i < |last| :: s[|before| + 1 + i] == last[i];
    assert s[|before|..] == "/" + last;
    if EndsWith(s, "/" + VERSION) {
      var end := s[|s| - 3..];
      assert end == ['/', 'v', '1'];
      assert s[|s| - 3] == end[0] && s[|s| - 2] == end[1] && s[|s| - 1] == end[2];
      assert |last| == 2;
      assert last == ['v', '1'];
    }
  }

  /** The API root a request is forwarded below: the registered base, with the version the
      caller wrote unless the base ends in it already. */
  function RootSegments(base: seq<string>, versioned: bool): seq<string> {
    if versioned && !LastIsVersion(base) then base + [VERSION] else base
  }

  /** The segments below the version that the caller may have written. */
  function Below(segments: seq<string>): seq<string> {
    if segments != [] && segments[0] == VERSION then segments[1..] else segments
  }

  /** The target's segments are the API root's and the caller's, in that order. */
  lemma TargetSegments(endpoint: string, segments: seq<string>)
    requires Rooted(endpoint) && AllHonest(segments)
    ensures Rooted(TrimSlash(endpoint))
    ensures
      var root := RootSegments(SegmentsOf(TrimSlash(endpoint)), OfSegments(segments).versioned);
      && SlashFree(root + Below(segments))
      && Target(endpoint, OfSegments(segments)) == PathOf(root + Below(segments))
  {
    var versioned, below := OfSegments(segments).versioned, Below(segments);
    HonestIsSlashFree(segments);
    VersionedSegments(TrimSlash(endpoint), versioned);
    assert OfSegments(segments).rel == Rel(below);
    RelTrims(below);
    PathOfConcat(RootSegments(SegmentsOf(TrimSlash(endpoint)), versioned), below);
  }

  lemma VersionedSegments(base: string, versioned: bool)
    requires Rooted(base)
    ensures Versioned(base, versioned) == PathOf(RootSegments(SegmentsOf(base), versioned))
    ensures SlashFree(RootSegments(SegmentsOf(base), versioned))
  {
    var segments := SegmentsOf(base);
    PathOfSegmentsOf(base);
    VersionSuffix(segments);
    PathOfConcat(segments, [VERSION]);
    assert PathOf([VERSION]) == "/" + VERSION + PathOf([]);
  }

  lemma RelTrims(segments: seq<string>)
    requires AllHonest(segments)
    ensures TrimSlash(Rel(segments)) == PathOf(segments)
  {
    if segments != [] { SpellingTrims(segments, false); }
  }

  // ---- what a request requires ----

  datatype Access = Denied | Admin | Operator | Authenticated

  const DOCUMENT_FAMILIES: set<string> := {"snapshot", "export", "restore", "import", "persist"}

  const CONFIG_FAMILIES: set<string> := {
    "ai", "bfd", "bgp", "cert", "cistate", "conntrack", "cors", "dpu", "endpoint", "endpointhoststate",
    "fdb", "firewall", "gpu", "halfclose", "ipfilter", "ipsec", "ipv4address", "ipv6address", "l4trace",
    "l7policy", "llamafirewall", "loadbalancer", "metrics", "mirror", "neighbor", "opa", "params", "pii",
    "policy", "port", "route", "securityrate", "session", "sessionulcl", "trace", "tunnel", "vlan", "worker"}

  const OPERATIONAL_FAMILIES: set<string> := {
    "diagnostics", "maintenance", "meta", "metrics", "nodegraph", "sni", "status", "version"}

  predicate IsRead(verb: string) { verb == "GET" || verb == "HEAD" }

  function Standard(verb: string): Access { if IsRead(verb) then Authenticated else Operator }

  /** The decision on a list of segments below the API root. */
  function Decide(verb: string, segments: seq<string>): Access {
    var family := if segments == [] then "" else segments[0];
    var sub := if |segments| > 1 then segments[1] else "";
    if family == "auth" then Denied
    else if family == "config" then
      if sub in DOCUMENT_FAMILIES then Admin else if sub in CONFIG_FAMILIES then Standard(verb) else Admin
    else if family == "audit" then
      if !IsRead(verb) then Admin
      else if sub == "status" && |segments| == 2 then Authenticated else Operator
    else if family == "logs" || family == "log-archives" then
      if IsRead(verb) then Operator else Admin
    else if family in OPERATIONAL_FAMILIES then Standard(verb)
    else Admin
  }

  /** ClassifyGatewayRequest, which splits the canonical text again. */
  function Classify(verb: string, path: Path): Access {
    if path.rel == "" then Denied
    else Decide(verb, Split(if path.rel[0] == '/' then path.rel[1..] else path.rel))
  }

  lemma ClassifiedSegments(verb: string, segments: seq<string>)
    requires AllHonest(segments)
    ensures Classify(verb, OfSegments(segments)) == Decide(verb, Below(segments))
  {
    var below := Below(segments);
    HonestIsSlashFree(segments);
    assert Rel(below)[1..] == Join(below);
    if below != [] { SplitJoin(below); }
  }

  // ---- what is authorized is what is forwarded ----

  /** The target of every accepted request is the API root followed by exactly the segments
      the decision was taken on. */
  lemma AuthorizedIsForwarded(endpoint: string, decoded: string, escaped: string, verb: string)
    returns (below: seq<string>)
    requires Rooted(endpoint) && CanonicalOf(decoded, escaped).Some?
    ensures Rooted(TrimSlash(endpoint)) && AllHonest(below)
    ensures
      var path := CanonicalOf(decoded, escaped).value;
      var root := RootSegments(SegmentsOf(TrimSlash(endpoint)), path.versioned);
      && Rooted(Target(endpoint, path))
      && SegmentsOf(Target(endpoint, path)) == root + below
      && Classify(verb, path) == Decide(verb, below)
      && path.rel == Rel(below)
  {
    var segments, slash := AcceptedIsHonest(decoded, escaped);
    below := Below(segments);
    TargetSegments(endpoint, segments);
    ClassifiedSegments(verb, segments);
    var root := RootSegments(SegmentsOf(TrimSlash(endpoint)), OfSegments(segments).versioned);
    SegmentsOfPathOf(root + below);
  }

  /** One trailing slash changes neither what is accepted nor what is decided or forwarded. */
  lemma TrailingSlashIsHarmless(decoded: string, escaped: string)
    requires decoded != "" && decoded[|decoded| - 1] != '/'
    ensures CanonicalOf(decoded + "/", escaped) == CanonicalOf(decoded, escaped)
  {
    var slashed := decoded + "/";
    assert TrimSlash(slashed) == decoded == TrimSlash(decoded);
    assert slashed[0] == decoded[0];
    assert forall i | 0 <= i < |decoded| :: slashed[i] == decoded[i];
  }

  /** Requests forwarded to one target are decided alike: no second spelling of a target
      gets a different decision. */
  lemma OneTargetOneDecision(endpoint: string, a: seq<string>, b: seq<string>, verb: string)
    requires Rooted(endpoint) && AllHonest(a) && AllHonest(b)
    requires Target(endpoint, OfSegments(a)) == Target(endpoint, OfSegments(b))
    ensures Below(a) == Below(b)
    ensures Classify(verb, OfSegments(a)) == Classify(verb, OfSegments(b))
  {
    var base := SegmentsOf(TrimSlash(endpoint));
    TargetSegments(endpoint, a);
    TargetSegments(endpoint, b);
    SegmentsOfPathOf(RootSegments(base, OfSegments(a).versioned) + Below(a));
    SegmentsOfPathOf(RootSegments(base, OfSegments(b).versioned) + Below(b));
    SameRootSameRest(base, a, b);
    ClassifiedSegments(verb, a);
    ClassifiedSegments(verb, b);
  }

  lemma SameRootSameRest(base: seq<string>, a: seq<string>, b: seq<string>)
    requires RootSegments(base, OfSegments(a).versioned) + Below(a)
        == RootSegments(base, OfSegments(b).versioned) + Below(b)
    ensures Below(a) == Below(b)
  {
    var ra, rb := RootSegments(base, OfSegments(a).versioned), RootSegments(base, OfSegments(b).versioned);
    var x, y := ra + Below(a), rb + Below(b);
    assert |ra| > |base| ==> x[|base|] == VERSION;
    assert |rb| > |base| ==> y[|base|] == VERSION;
    assert |ra| == |base| < |x| ==> x[|base|] == Below(a)[0];
    assert |rb| == |base| < |y| ==> y[|base|] == Below(b)[0];
    assert Below(a) == x[|ra|..] && Below(b) == y[|rb|..];
  }

  /** Writing the version changes neither decision nor target exactly when the registered
      base ends in it and what follows does not start with it. */
  lemma LeadingVersion(endpoint: string, segments: seq<string>, verb: string)
    requires Rooted(endpoint) && AllHonest(segments)
    ensures
      var plain, written := OfSegments(segments), OfSegments([VERSION] + segments);
      && Rooted(TrimSlash(endpoint)) && AllHonest([VERSION] + segments)
      && (Target(endpoint, plain) == Target(endpoint, written) <==>
          LastIsVersion(SegmentsOf(TrimSlash(endpoint))) && (segments == [] || segments[0] != VERSION))
      && (segments == [] || segments[0] != VERSION ==> Classify(verb, plain) == Classify(verb, written))
  {
    var base := SegmentsOf(TrimSlash(endpoint));
    var both := [VERSION] + segments;
    assert Honest(VERSION);
    assert Below(both) == segments;
    TargetSegments(endpoint, segments);
    TargetSegments(endpoint, both);
    var plain := RootSegments(base, OfSegments(segments).versioned) + Below(segments);
    var written := RootSegments(base, true) + segments;
    SegmentsOfPathOf(plain);
    SegmentsOfPathOf(written);
    assert plain == written <==> |plain| == |written| by {
      if |plain| == |written| { assert plain == written; }
    }
    ClassifiedSegments(verb, segments);
    ClassifiedSegments(verb, both);
  }

  // ---- what is decided ----

  /** Segments as a caller may write them: with or without the version, with or without one slash
      behind them. Without the version they do not start with it. */
  function Written(segments: seq<string>, version: bool, slash: bool): string {
    Spelling(if version then ["v1"] + segments else segments, slash)
  }

  predicate Unversioned(segments: seq<string>) { segments == [] || segments[0] != "v1" }

  /** Day-to-day families: read by every role, changed by operators. */
  predicate Everyday(family: string, sub: string) {
    || (family == "config" && sub in EVERYDAY_CONFIG)
    || family in {"diagnostics", "maintenance", "meta", "metrics", "nodegraph", "sni", "status", "version"}
  }

  const EVERYDAY_CONFIG: set<string> := {
    "ai", "bfd", "bgp", "cert", "cistate", "conntrack", "cors", "dpu", "endpoint", "endpointhoststate",
    "fdb", "firewall", "gpu", "halfclose", "ipfilter", "ipsec", "ipv4address", "ipv6address", "l4trace",
    "l7policy", "llamafirewall", "loadbalancer", "metrics", "mirror", "neighbor", "opa", "params", "pii",
    "policy", "port", "route", "securityrate", "session", "sessionulcl", "trace", "tunnel", "vlan", "worker"}

  /** The whole-configuration documents, which carry secrets. */
  const WHOLE_CONFIGURATION: set<string> := {"persist", "import", "restore", "export", "snapshot"}

  lemma TablesAreThose()
    ensures CONFIG_FAMILIES == EVERYDAY_CONFIG && DOCUMENT_FAMILIES == WHOLE_CONFIGURATION
    ensures OPERATIONAL_FAMILIES
            == {"diagnostics", "maintenance", "meta", "metrics", "nodegraph", "sni", "status", "version"}
    ensures CONFIG_FAMILIES * DOCUMENT_FAMILIES == {}
    ensures {"auth", "config", "audit", "logs", "log-archives", ""} * OPERATIONAL_FAMILIES == {}
  {}

  /** The four answers, each exactly: in every spelling of every accepted path the decision depends
      on the verb and the first two segments. */
  lemma DecisionsExactly(segments: seq<string>, version: bool, slash: bool, escaped: string, verb: string)
    requires AllHonest(segments) && (version || Unversioned(segments)) && !EncodedSeparator(escaped)
    ensures
      var path := CanonicalOf(Written(segments, version, slash), escaped);
      var family := if |segments| > 0 then segments[0] else "";
      var sub := if |segments| > 1 then segments[1] else "";
      var read := verb == "GET" || verb == "HEAD";
      && path.Some?
      && var access := Classify(verb, path.value);
         && (access == Denied <==> family == "auth")
         && (access == Authenticated <==>
               read && (Everyday(family, sub) || (family == "audit" && sub == "status" && |segments| == 2)))
         && (access == Operator <==>
               || (!read && Everyday(family, sub))
               || (read && family == "audit" && !(sub == "status" && |segments| == 2))
               || (read && (family == "logs" || family == "log-archives")))
         && (family == "config" && sub in WHOLE_CONFIGURATION ==> access == Admin)
  {
    var written := if version then ["v1"] + segments else segments;
    assert Honest("v1");
    assert AllHonest(written);
    assert Below(written) == segments;
    HonestIsAccepted(written, slash, escaped);
    ClassifiedSegments(verb, written);
    DecisionTable(verb, segments);
  }

  lemma DecisionTable(verb: string, segments: seq<string>)
    ensures
      var family := if |segments| > 0 then segments[0] else "";
      var sub := if |segments| > 1 then segments[1] else "";
      var read := verb == "GET" || verb == "HEAD";
      var access := Decide(verb, segments);
      && (access == Denied <==> family == "auth")
      && (access == Authenticated <==>
            read && (Everyday(family, sub) || (family == "audit" && sub == "status" && |segments| == 2)))
      && (access == Operator <==>
            || (!read && Everyday(family, sub))
            || (read && family == "audit" && !(sub == "status" && |segments| == 2))
            || (read && (family == "logs" || family == "log-archives")))
      && (family == "config" && sub in WHOLE_CONFIGURATION ==> access == Admin)
  {
    TablesAreThose();
    var family := if |segments| > 0 then segments[0] else "";
    var sub := if |segments| > 1 then segments[1] else "";
    assert family in OPERATIONAL_FAMILIES ==> family !in {"auth", "config", "audit", "logs", "log-archives", ""};
    assert sub in CONFIG_FAMILIES ==> sub !in DOCUMENT_FAMILIES;
  }

  // ---- what is refused, letter by letter ----

  function LowerOf(c: char): char { if 'A' <= c <= 'Z' then (c as int + 32) as char else c }

  function Lowered(s: string): (r: string)
    ensures |r| == |s| && forall i | 0 <= i < |s| :: r[i] == LowerOf(s[i])
  {
    if s == "" then "" else [LowerOf(s[0])] + Lowered(s[1..])
  }

  predicate Contains(s: string, sub: string) { exists i | 0 <= i <= |s| - |sub| :: s[i..][..|sub|] == sub }

  lemma PairOf(x: char, y: char)
    ensures [x, y] in {"2f", "2F", "5c", "5C"}
            <==> (x == '2' && (y == 'f' || y == 'F')) || (x == '5' && (y == 'c' || y == 'C'))
  {
    var s := [x, y];
    assert s[0] == x && s[1] == y;
    assert "2f" == ['2', 'f'] && "2F" == ['2', 'F'] && "5c" == ['5', 'c'] && "5C" == ['5', 'C'];
  }

  lemma TripleOf(x: char, y: char, z: char)
    ensures [x, y, z] in {"%2f", "%5c"} <==> x == '%' && ((y == '2' && z == 'f') || (y == '5' && z == 'c'))
  {
    var s := [x, y, z];
    assert s[0] == x && s[1] == y && s[2] == z;
    assert "%2f" == ['%', '2', 'f'] && "%5c" == ['%', '5', 'c'];
  }

  lemma LoweredAt(escaped: string, i: nat)
    requires i + 3 <= |escaped|
    ensures Lowered(escaped)[i..][..3] in {"%2f", "%5c"}
            <==> escaped[i] == '%' && Hex(escaped, i, {"2f", "2F", "5c", "5C"})
  {
    var x, y, z := escaped[i], escaped[i + 1], escaped[i + 2];
    SlicesAt(escaped, i);
    SlicesAt(Lowered(escaped), i);
    PairOf(y, z);
    TripleOf(LowerOf(x), LowerOf(y), LowerOf(z));
  }

  lemma SlicesAt(s: string, i: nat)
    requires i + 3 <= |s|
    ensures s[i..][..3] == [s[i], s[i + 1], s[i + 2]] && s[i + 1..i + 3] == [s[i + 1], s[i + 2]]
  {}

  /** An encoded separator is found in whatever case it is written. */
  lemma EncodedSeparatorIsLowered(escaped: string)
    ensures EncodedSeparator(escaped) <==> Contains(Lowered(escaped), "%2f") || Contains(Lowered(escaped), "%5c")
  {
    var lowered := Lowered(escaped);
    if EncodedSeparator(escaped) {
      var i :| 0 <= i < |escaped| && escaped[i] == '%' && Hex(escaped, i, {"2f", "2F", "5c", "5C"});
      LoweredAt(escaped, i);
      assert lowered[i..][..3] in {"%2f", "%5c"};
    }
    if Contains(lowered, "%2f") {
      var i :| 0 <= i <= |lowered| - 3 && lowered[i..][..3] == "%2f";
      LoweredAt(escaped, i);
    }
    if Contains(lowered, "%5c") {
      var i :| 0 <= i <= |lowered| - 3 && lowered[i..][..3] == "%5c";
      LoweredAt(escaped, i);
    }
  }

  /** A character in a segment is accepted exactly if it is printable and neither a separator nor
      the start of a query or fragment. */
  lemma CharacterAccepted(c: char)
    ensures CanonicalOf(['/', 'a', c, 'b'], "").Some?
            <==> c as int >= 32 && c as int != 127 && c != '\\' && c != '?' && c != '#'
  {
    var decoded := ['/', 'a', c, 'b'];
    assert decoded[2] == c;
    if !Forbidden(c) {
      assert Honest("a") && Honest("b");
      if c == '/' {
        TwoSegments("a", "b");
        assert decoded == "/" + "a" + "/" + "b";
        HonestIsAccepted(["a", "b"], false, "");
      } else {
        var segment := ['a', c, 'b'];
        assert segment[1] == c && |segment| == 3;
        OneSegment(segment);
        assert decoded == "/" + segment;
        HonestIsAccepted([segment], false, "");
      }
    }
  }

  lemma OneSegment(a: string)
    ensures Spelling([a], false) == "/" + a
  {
    assert PathOf([a][1..]) == "";
    assert "/" + a + "" + "" == "/" + a;
  }

  lemma TwoSegments(a: string, b: string)
    ensures Spelling([a, b], false) == "/" + a + "/" + b
  {
    assert [a, b][1..] == [b];
    OneSegment(b);
    assert PathOf([b]) + "" == PathOf([b]);
  }
}

/** The removal of dot segments by section 5.2.4 of RFC 3986, and why it leaves a forwarded
    path alone. */
module DotSegments {
  import opened Texts
  import opened GatewayPath

  /** The output without its last segment and the slash before it. */
  function Popped(output: string): (r: string)
    ensures |r| <= |output|
  {
    if output == "" then ""
    else if output[|output| - 1] == '/' then output[..|output| - 1]
    else Popped(output[..|output| - 1])
  }

  /** The five rules of the section, on its input and output buffers. */
  function Remove(input: string, output: string): string
    decreases |input|
  {
    if input == "" then output
    else if StartsWith(input, "../") then Remove(input[3..], output)
    else if StartsWith(input, "./") then Remove(input[2..], output)
    else if StartsWith(input, "/./") then Remove(input[2..], output)
    else if input == "/." then Remove("/", output)
    else if StartsWith(input, "/../") then Remove(input[3..], Popped(output))
    else if input == "/.." then Remove("/", Popped(output))
    else if input == "." || input == ".." then output
    else
      var n := 1 + IndexOf(input[1..], '/');
      Remove(input[n..], output + input[..n])
  }

  predicate DotFree(segments: seq<string>) {
    forall i | 0 <= i < |segments| :: segments[i] != "." && segments[i] != ".."
  }

  lemma {:induction false} NeverLonger(input: string, output: string)
    ensures |Remove(input, output)| <= |input| + |output|
    decreases |input|
  {
    if input == "" {
    } else if StartsWith(input, "../") { NeverLonger(input[3..], output);
    } else if StartsWith(input, "./") || StartsWith(input, "/./") { NeverLonger(input[2..], output);
    } else if input == "/." { NeverLonger("/", output);
    } else if StartsWith(input, "/../") { NeverLonger(input[3..], Popped(output));
    } else if input == "/.." { NeverLonger("/", Popped(output));
    } else if input == "." || input == ".." {
    } else {
      var n := 1 + IndexOf(input[1..], '/');
      NeverLonger(input[n..], output + input[..n]);
    }
  }

  /** What a rooted path starts with. */
  lemma FirstSegment(segments: seq<string>)
    requires segments != [] && SlashFree(segments)
    ensures
      var input, first := PathOf(segments), segments[0];
      && input[0] == '/'
      && IndexOf(input[1..], '/') == |first|
      && input[..1 + |first|] == "/" + first
      && input[1 + |first|..] == PathOf(segments[1..])
  {
    RootedText(segments[0], PathOf(segments[1..]));
    FirstSlash(segments[0], PathOf(segments[1..]));
  }

  lemma RootedText(first: string, rest: string)
    ensures
      var input := "/" + first + rest;
      input[1..] == first + rest && input[..1 + |first|] == "/" + first && input[1 + |first|..] == rest
  {}

  lemma FirstSlash(first: string, rest: string)
    requires '/' !in first && (rest == "" || rest[0] == '/')
    ensures IndexOf(first + rest, '/') == |first|
  {
    if rest == "" {
      NoSlashToFind(first);
      assert first + rest == first;
    } else {
      assert first + rest == first + "/" + rest[1..];
      IndexOfFirst(first, rest[1..]);
    }
  }

  lemma DotPrefixes(input: string)
    ensures StartsWith(input, "/./") <==> |input| >= 3 && input[0] == '/' && input[1] == '.' && input[2] == '/'
    ensures StartsWith(input, "/../") <==>
      |input| >= 4 && input[0] == '/' && input[1] == '.' && input[2] == '.' && input[3] == '/'
    ensures |input| > 0 && input[0] == '/' ==> !StartsWith(input, "../") && !StartsWith(input, "./")
  {
    assert "/./" == ['/', '.', '/'] && "/../" == ['/', '.', '.', '/'];
  }

  /** None of the rules for dots applies. */
  predicate Undotted(input: string) {
    && !StartsWith(input, "../") && !StartsWith(input, "./") && !StartsWith(input, "/./") && !StartsWith(input, "/../")
    && input !in {"", ".", "..", "/.", "/.."}
  }

  lemma NotDotted(input: string, first: string)
    requires input != "" && input[0] == '/' && IndexOf(input[1..], '/') == |first| && input[1..1 + |first|] == first
    requires first != "." && first != ".."
    ensures Undotted(input)
  {
    var tail := input[1..];
    DotPrefixes(input);
    assert |first| == 1 ==> first[0] == input[1];
    assert |first| == 2 ==> first[0] == input[1] && first[1] == input[2];
    assert forall i | 0 <= i < |first| :: tail[..|first|][i] == input[i + 1];
    assert |first| < |tail| ==> input[1 + |first|] == '/';
  }

  lemma KeepsSegment(input: string, output: string, n: nat)
    requires Undotted(input) && n == 1 + IndexOf(input[1..], '/')
    ensures n <= |input| && Remove(input, output) == Remove(input[n..], output + input[..n])
  {}

  lemma PlainStep(segments: seq<string>, output: string)
    requires segments != [] && SlashFree(segments) && segments[0] != "." && segments[0] != ".."
    ensures Remove(PathOf(segments), output) == Remove(PathOf(segments[1..]), output + "/" + segments[0])
  {
    var input, first := PathOf(segments), segments[0];
    FirstSegment(segments);
    assert first == input[1..1 + |first|];
    NotDotted(input, first);
    KeepsSegment(input, output, 1 + |first|);
    assert output + input[..1 + |first|] == output + "/" + first;
  }

  lemma DottedStep(segments: seq<string>, output: string)
    requires segments != [] && (segments[0] == "." || segments[0] == "..")
    ensures |Remove(PathOf(segments), output)| < |PathOf(segments)| + |output|
  {
    var input, rest := PathOf(segments), PathOf(segments[1..]);
    var first := segments[0];
    assert input == "/" + first + rest;
    DotPrefixes(input);
    if rest == "" {
      assert input == "/" + first;
      NeverLonger("/", output);
      NeverLonger("/", Popped(output));
    } else {
      assert rest[0] == '/';
      assert input[1 + |first|..] == rest;
      NeverLonger(rest, output);
      NeverLonger(rest, Popped(output));
    }
  }

  /** A path without dot segments is left alone. */
  lemma {:induction false} DotFreeIsFixed(segments: seq<string>, output: string)
    requires SlashFree(segments) && DotFree(segments)
    ensures Remove(PathOf(segments), output) == output + PathOf(segments)
  {
    if segments == [] {
      assert output + "" == output;
    } else {
      PlainStep(segments, output);
      DotFreeIsFixed(segments[1..], output + "/" + segments[0]);
      Regroup(output, "/", segments[0], PathOf(segments[1..]));
    }
  }

  /** A path with a dot segment comes out shorter. */
  lemma {:induction false} DottedShrinks(segments: seq<string>, output: string)
    requires SlashFree(segments) && !DotFree(segments)
    ensures |Remove(PathOf(segments), output)| < |PathOf(segments)| + |output|
  {
    if segments[0] == "." || segments[0] == ".." {
      DottedStep(segments, output);
    } else {
      PlainStep(segments, output);
      DottedShrinks(segments[1..], output + "/" + segments[0]);
    }
  }

  /** Being a fixed point of the removal is having no dot segment. */
  lemma FixedExactly(segments: seq<string>)
    requires SlashFree(segments)
    ensures Remove(PathOf(segments), "") == PathOf(segments) <==> DotFree(segments)
  {
    if DotFree(segments) { DotFreeIsFixed(segments, ""); } else { DottedShrinks(segments, ""); }
  }

  /** Forwarding preserves the absence of dot segments: the target is a fixed point of the
      removal exactly when the registered base is. */
  lemma TargetIsFixed(endpoint: string, decoded: string, escaped: string)
    requires Rooted(endpoint) && CanonicalOf(decoded, escaped).Some?
    ensures
      var target, base := Target(endpoint, CanonicalOf(decoded, escaped).value), TrimSlash(endpoint);
      Remove(target, "") == target <==> Remove(base, "") == base
  {
    var segments, slash := AcceptedIsHonest(decoded, escaped);
    var base := SegmentsOf(TrimSlash(endpoint));
    var root := RootSegments(base, OfSegments(segments).versioned);
    TargetSegments(endpoint, segments);
    PathOfSegmentsOf(TrimSlash(endpoint));
    FixedExactly(base);
    FixedExactly(root + Below(segments));
    HonestIsDotFree(Below(segments));
    DotFreeConcat(base, root, Below(segments));
  }

  lemma HonestIsDotFree(segments: seq<string>)
    requires AllHonest(segments)
    ensures DotFree(segments)
  {
    forall i | 0 <= i < |segments| ensures segments[i] != "." && segments[i] != ".." { assert Honest(segments[i]); }
  }

  lemma DotFreeConcat(base: seq<string>, root: seq<string>, below: seq<string>)
    requires (root == base || root == base + [VERSION]) && DotFree(below)
    ensures DotFree(root + below) <==> DotFree(base)
  {
    var all := root + below;
    assert forall i | 0 <= i < |base| :: all[i] == base[i];
    assert forall i | |root| <= i < |all| :: all[i] == below[i - |root|];
  }
}
