/**
 The URL splitter of src/Uri.cpp, and the strings for which it inverts a printer.

 It resembles the generic syntax of section 3 of RFC 3986, but keeps the `?` in the query and
 knows no user information or fragment.
 */
module Uri {

  datatype Uri = Uri(protocol: string, host: string, port: string, path: string, query: string)

  const NOTHING := Uri("", "", "", "", "")

  /** InvertedRange: the code builds a string from, or searches, a range that ends before it
      begins, which C++ leaves undefined. */
  datatype ParseResult = Parsed(uri: Uri) | InvertedRange

  /** `std::find` to the end of the string: the first position from `from` on that holds c, or |u|. */
  function IndexOf(u: string, c: char, from: nat): (k: nat)
    requires from <= |u|
    ensures from <= k <= |u| && (k < |u| ==> u[k] == c)
    decreases |u| - from
  {
    if from == |u| || u[from] == c then from else IndexOf(u, c, from + 1)
  }

  // ---------------------------------------------------------------- where the parts are

  /** The first colon starts "://" and something follows. The source compares a C string, which ends
      at a NUL character. */
  predicate HasProtocol(u: string) {
    var p := IndexOf(u, ':', 0);
    p + 3 < |u| && u[p..p + 3] == "://" && u[p + 3] != '\0'
  }

  function HostStart(u: string): (k: nat)
    ensures k <= |u|
  {
    if HasProtocol(u) then IndexOf(u, ':', 0) + 3 else 0
  }

  function PathStart(u: string): nat {
    IndexOf(u, '/', HostStart(u))
  }

  function QueryStart(u: string): nat {
    IndexOf(u, '?', 0)
  }

  /** Where host and port end. */
  function AuthorityEnd(u: string): nat {
    if PathStart(u) < |u| then PathStart(u) else QueryStart(u)
  }

  /** What the code silently relies on: no `?` before the path, and none before the host when there
      is no path. */
  predicate WellOrdered(u: string) {
    if PathStart(u) < |u| then PathStart(u) <= QueryStart(u) else HostStart(u) <= QueryStart(u)
  }

  function HostEnd(u: string): nat
    requires WellOrdered(u)
  {
    var colon := IndexOf(u, ':', HostStart(u));
    if colon < AuthorityEnd(u) then colon else AuthorityEnd(u)
  }

  function Components(u: string): Uri
    requires WellOrdered(u)
  {
    var start, end, authority := HostStart(u), HostEnd(u), AuthorityEnd(u);
    Uri(if HasProtocol(u) then u[..IndexOf(u, ':', 0)] else "",
        u[start..end],
        if end < authority then u[end + 1..authority] else "",
        if PathStart(u) < |u| then u[PathStart(u)..QueryStart(u)] else "",
        u[QueryStart(u)..])
  }

  // ---------------------------------------------------------------- the parser

  method Find(u: string, from: nat, to: nat, c: char) returns (k: nat)
    requires from <= to <= |u|
    ensures k == if IndexOf(u, c, from) < to then IndexOf(u, c, from) else to
  {
    k := from;
    while k < to && u[k] != c
      invariant from <= k <= to && IndexOf(u, c, from) == IndexOf(u, c, k)
    {
      k := k + 1;
    }
  }

  /** The protocol and where it ends. */
  method ParseProtocol(uri: string) returns (protocol: string, protocolEnd: nat)
    ensures protocolEnd == HostStart(uri)
    ensures protocol == if HasProtocol(uri) then uri[..IndexOf(uri, ':', 0)] else ""
  {
    var uriEnd := |uri|;
    protocol := "";
    protocolEnd := Find(uri, 0, uriEnd, ':');
    if protocolEnd != uriEnd {
      if protocolEnd + 3 < uriEnd && uri[protocolEnd..protocolEnd + 3] == "://" && uri[protocolEnd + 3] != '\0' {
        protocol := uri[..protocolEnd];
        protocolEnd := protocolEnd + 3;
      } else {
        protocolEnd := 0;
      }
    } else {
      protocolEnd := 0;
    }
  }

  method ParseAuthority(uri: string, hostStart: nat, authorityEnd: nat) returns (host: string, port: string)
    requires WellOrdered(uri) && hostStart == HostStart(uri) && authorityEnd == AuthorityEnd(uri)
    ensures host == Components(uri).host && port == Components(uri).port
  {
    var hostEnd := Find(uri, hostStart, authorityEnd, ':');
    assert hostEnd == HostEnd(uri);
    host, port := uri[hostStart..hostEnd], "";
    if hostEnd != |uri| && uri[hostEnd] == ':' {
      hostEnd := hostEnd + 1;
      port := uri[hostEnd..authorityEnd];
    }
  }

  lemma NothingParsed()
    ensures WellOrdered("") && Components("") == NOTHING
  {
  }

  method Parse(uri: string) returns (result: ParseResult)
    ensures result == if WellOrdered(uri) then Parsed(Components(uri)) else InvertedRange
  {
    if |uri| == 0 {
      NothingParsed();
      return Parsed(NOTHING);
    }
    var queryStart := Find(uri, 0, |uri|, '?');
    var protocol, hostStart := ParseProtocol(uri);
    var pathStart := Find(uri, hostStart, |uri|, '/');
    var authorityEnd := if pathStart != |uri| then pathStart else queryStart;
    if authorityEnd < hostStart || (pathStart != |uri| && queryStart < pathStart) {
      return InvertedRange;
    }
    var host, port := ParseAuthority(uri, hostStart, authorityEnd);
    var path, query := "", "";
    if pathStart != |uri| {
      path := uri[pathStart..queryStart];
    }
    if queryStart != |uri| {
      query := uri[queryStart..];
    }
    result := Parsed(Uri(protocol, host, port, path, query));
  }

  // ---------------------------------------------------------------- the printer

  function Prefix(c: Uri): string {
    if c.protocol == "" then "" else c.protocol + "://"
  }

  function PortPart(c: Uri): string {
    if c.port == "" then "" else ":" + c.port
  }

  function Rest(c: Uri): string {
    c.host + PortPart(c) + c.path + c.query
  }

  function Print(c: Uri): string {
    Prefix(c) + Rest(c)
  }

  ghost predicate Grammatical(c: Uri) {
    && ':' !in c.protocol && '?' !in c.protocol
    && ':' !in c.host && '/' !in c.host && '?' !in c.host
    && '/' !in c.port && '?' !in c.port
    && (c.path != "" ==> c.path[0] == '/' && '?' !in c.path)
    && (c.query != "" ==> c.query[0] == '?')
    && (c.path == "" ==> '/' !in c.query)
    && (if c.protocol != "" then Rest(c) != "" && Rest(c)[0] != '\0' else !HasProtocol(Print(c)))
  }

  // ---------------------------------------------------------------- searching

  lemma {:induction false} IndexFirst(u: string, c: char, from: nat)
    requires from <= |u|
    ensures c !in u[from..IndexOf(u, c, from)]
    decreases |u| - from
  {
    if from < |u| && u[from] != c {
      IndexFirst(u, c, from + 1);
      assert u[from..IndexOf(u, c, from)] == [u[from]] + u[from + 1..IndexOf(u, c, from)];
    }
  }

  lemma {:induction false} IndexShift(a: string, b: string, c: char, from: nat)
    requires from <= |b|
    ensures IndexOf(a + b, c, |a| + from) == |a| + IndexOf(b, c, from)
    decreases |b| - from
  {
    if from < |b| && b[from] != c {
      IndexShift(a, b, c, from + 1);
    }
  }

  lemma {:induction false} IndexSkipFrom(a: string, b: string, c: char, from: nat)
    requires from <= |a| && c !in a
    ensures IndexOf(a + b, c, from) == |a| + IndexOf(b, c, 0)
    decreases |a| - from
  {
    if from == |a| {
      IndexShift(a, b, c, 0);
    } else {
      IndexSkipFrom(a, b, c, from + 1);
    }
  }

  /** Searching after a prefix, past a stretch without the character. */
  lemma IndexSkip(p: string, a: string, b: string, c: char)
    requires c !in a
    ensures IndexOf(p + (a + b), c, |p|) == |p| + |a| + IndexOf(b, c, 0)
  {
    IndexShift(p, a + b, c, 0);
    IndexSkipFrom(a, b, c, 0);
  }

  lemma IndexNone(u: string, c: char)
    requires c !in u
    ensures IndexOf(u, c, 0) == |u|
  {
    IndexSkipFrom(u, "", c, 0);
    assert u + "" == u;
  }

  // ---------------------------------------------------------------- a printed URL, parsed

  function Authority(c: Uri): string {
    Prefix(c) + c.host + PortPart(c)
  }

  /** The groupings of a printed URL that the searches see. */
  lemma Groupings(p: string, h: string, o: string, q: string, r: string)
    ensures p + (h + o + q + r) == p + ((h + o) + (q + r))
    ensures p + (h + o + q + r) == p + (h + (o + (q + r)))
    ensures p + (h + o + q + r) == (p + h + o + q) + r
  {
  }

  lemma ProtocolPosition(c: Uri)
    requires Grammatical(c)
    ensures HasProtocol(Print(c)) == (c.protocol != "")
    ensures c.protocol != "" ==> IndexOf(Print(c), ':', 0) == |c.protocol|
    ensures HostStart(Print(c)) == |Prefix(c)|
  {
    if c.protocol != "" {
      var p, tail := c.protocol, "://" + Rest(c);
      assert Print(c) == p + tail;
      IndexSkipFrom(p, tail, ':', 0);
      assert Print(c)[|p|..|p| + 3] == "://";
      assert Print(c)[|p| + 3] == Rest(c)[0];
    }
  }

  /** Before the path there is no slash after the protocol, and no question mark. */
  lemma CleanAuthority(c: Uri)
    requires Grammatical(c)
    ensures '/' !in c.host + PortPart(c) && '?' !in Authority(c) + c.path
  {
    assert '?' !in Prefix(c) && '?' !in PortPart(c) && '/' !in PortPart(c);
    assert '?' !in Authority(c);
  }

  lemma SlashPosition(c: Uri)
    requires Grammatical(c)
    ensures PathStart(Print(c)) == if c.path != "" then |Authority(c)| else |Print(c)|
  {
    ProtocolPosition(c);
    CleanAuthority(c);
    Groupings(Prefix(c), c.host, PortPart(c), c.path, c.query);
    IndexSkip(Prefix(c), c.host + PortPart(c), c.path + c.query, '/');
    if c.path == "" {
      assert c.path + c.query == c.query;
      IndexNone(c.query, '/');
    }
  }

  lemma QuestionPosition(c: Uri)
    requires Grammatical(c)
    ensures QueryStart(Print(c)) == |Authority(c)| + |c.path|
  {
    CleanAuthority(c);
    Groupings(Prefix(c), c.host, PortPart(c), c.path, c.query);
    IndexSkipFrom(Authority(c) + c.path, c.query, '?', 0);
  }

  lemma ColonPosition(c: Uri)
    requires Grammatical(c)
    ensures var k := IndexOf(Print(c), ':', |Prefix(c)|);
      if c.port != "" then k == |Prefix(c)| + |c.host| else k >= |Prefix(c)| + |c.host|
  {
    var b := PortPart(c) + (c.path + c.query);
    Groupings(Prefix(c), c.host, PortPart(c), c.path, c.query);
    IndexSkip(Prefix(c), c.host, b, ':');
    assert c.port != "" ==> b[0] == ':';
  }

  lemma Positions(c: Uri)
    requires Grammatical(c)
    ensures WellOrdered(Print(c))
    ensures HostStart(Print(c)) == |Prefix(c)| && HostEnd(Print(c)) == |Prefix(c)| + |c.host|
    ensures AuthorityEnd(Print(c)) == |Authority(c)|
  {
    ProtocolPosition(c);
    SlashPosition(c);
    QuestionPosition(c);
    ColonPosition(c);
  }

  /** Cutting a concatenation where its parts meet. */
  lemma Cuts(p: string, h: string, o: string, q: string, r: string)
    ensures var u := p + (h + o + q + r);
      && u[|p|..|p| + |h|] == h
      && u[|p| + |h|..|p + h + o|] == o
      && u[|p + h + o|..|p + h + o| + |q|] == q
      && u[|p + h + o| + |q|..] == r
  {
    var u := p + (h + o + q + r);
    Groupings(p, h, o, q, r);
    assert u == p + h + (o + (q + r));
    assert u == p + h + o + (q + r);
  }

  lemma PrintedProtocol(p: string, r: string)
    ensures (p + "://" + r)[..|p|] == p
  {
  }

  lemma ProtocolParsed(c: Uri)
    requires Grammatical(c) && WellOrdered(Print(c))
    ensures Components(Print(c)).protocol == c.protocol
  {
    ProtocolPosition(c);
    if c.protocol != "" {
      PrintedProtocol(c.protocol, Rest(c));
    }
  }

  lemma HostParsed(c: Uri)
    requires Grammatical(c) && WellOrdered(Print(c))
    ensures Components(Print(c)).host == c.host
  {
    Positions(c);
    Cuts(Prefix(c), c.host, PortPart(c), c.path, c.query);
  }

  lemma ComponentsPort(u: string)
    requires WellOrdered(u)
    ensures HostEnd(u) <= AuthorityEnd(u) <= |u|
    ensures Components(u).port == if HostEnd(u) < AuthorityEnd(u) then u[HostEnd(u) + 1..AuthorityEnd(u)] else ""
  {
  }

  lemma PortCut(c: Uri)
    requires c.port != ""
    ensures Print(c)[|Prefix(c)| + |c.host| + 1..|Authority(c)|] == c.port
  {
    var e, a := |Prefix(c)| + |c.host|, |Authority(c)|;
    Cuts(Prefix(c), c.host, PortPart(c), c.path, c.query);
    assert Print(c)[e + 1..a] == Print(c)[e..a][1..] == PortPart(c)[1..];
  }

  lemma AuthorityLength(c: Uri)
    ensures |Authority(c)| == |Prefix(c)| + |c.host| + (if c.port == "" then 0 else 1 + |c.port|)
  {
  }

  lemma PortParsed(c: Uri)
    requires Grammatical(c) && WellOrdered(Print(c))
    ensures Components(Print(c)).port == c.port
  {
    Positions(c);
    AuthorityLength(c);
    ComponentsPort(Print(c));
    if c.port != "" {
      PortCut(c);
    }
  }

  lemma TailParsed(c: Uri)
    requires Grammatical(c) && WellOrdered(Print(c))
    ensures Components(Print(c)).path == c.path && Components(Print(c)).query == c.query
  {
    SlashPosition(c);
    QuestionPosition(c);
    Cuts(Prefix(c), c.host, PortPart(c), c.path, c.query);
  }

  /** Parsing a printed URL returns its components, for every grammatical choice of them. */
  lemma ParsePrint(c: Uri)
    requires Grammatical(c)
    ensures WellOrdered(Print(c)) && Components(Print(c)) == c
  {
    Positions(c);
    ProtocolParsed(c);
    HostParsed(c);
    PortParsed(c);
    TailParsed(c);
  }

  // ---------------------------------------------------------------- a parsed URL, printed

  /** The delimiters a parse does not remember: "://" after an empty protocol, and a colon before an
      empty port. */
  predicate DropsDelimiter(u: string)
    requires WellOrdered(u)
  {
    (HasProtocol(u) && IndexOf(u, ':', 0) == 0) || HostEnd(u) + 1 == AuthorityEnd(u)
  }

  lemma Rejoin(u: string, s: nat, e: nat, a: nat, q: nat)
    requires s <= e <= a <= q <= |u|
    ensures u == u[..s] + (u[s..e] + u[e..a] + u[a..q] + u[q..])
  {
  }

  lemma Ordered(u: string)
    requires WellOrdered(u)
    ensures HostStart(u) <= HostEnd(u) <= AuthorityEnd(u) <= QueryStart(u) <= |u|
    ensures Components(u).path == u[AuthorityEnd(u)..QueryStart(u)]
  {
  }

  lemma PrefixKept(u: string)
    requires WellOrdered(u)
    ensures if HasProtocol(u) && IndexOf(u, ':', 0) == 0
      then |Prefix(Components(u))| < HostStart(u) else Prefix(Components(u)) == u[..HostStart(u)]
  {
    var k := IndexOf(u, ':', 0);
    if HasProtocol(u) {
      assert u[..k + 3] == u[..k] + u[k..k + 3];
    }
  }

  lemma PortKept(u: string)
    requires WellOrdered(u)
    ensures var e, a := HostEnd(u), AuthorityEnd(u);
      if e + 1 == a then |PortPart(Components(u))| < a - e else PortPart(Components(u)) == u[e..a]
  {
    var e, a := HostEnd(u), AuthorityEnd(u);
    Ordered(u);
    ComponentsPort(u);
    if e < a {
      ColonBeforePort(u);
      ColonJoins(u, e, a);
    }
  }

  lemma ColonBeforePort(u: string)
    requires WellOrdered(u) && HostEnd(u) < AuthorityEnd(u)
    ensures AuthorityEnd(u) <= |u| && u[HostEnd(u)] == ':'
  {
  }

  lemma ColonJoins(u: string, e: nat, a: nat)
    requires e < a <= |u| && u[e] == ':'
    ensures u[e..a] == ":" + u[e + 1..a]
  {
  }

  lemma PrintedPieces(u: string)
    requires WellOrdered(u)
    ensures Print(Components(u)) == u <==> !DropsDelimiter(u)
  {
    var c := Components(u);
    Ordered(u);
    PrefixKept(u);
    PortKept(u);
    Rejoin(u, HostStart(u), HostEnd(u), AuthorityEnd(u), QueryStart(u));
    if DropsDelimiter(u) {
      PrintedLength(c);
    }
  }

  lemma PrintedLength(c: Uri)
    ensures |Print(c)| == |Prefix(c)| + |c.host| + |PortPart(c)| + |c.path| + |c.query|
  {
  }

  /** A stretch before the first occurrence holds none. */
  lemma Before(u: string, c: char, from: nat, i: nat, j: nat)
    requires from <= |u| && from <= i <= j <= IndexOf(u, c, from)
    ensures c !in u[i..j]
  {
    IndexFirst(u, c, from);
    assert u[i..j] == u[from..IndexOf(u, c, from)][i - from..j - from];
  }

  /** What every parse yields: the parts before the path hold none of the delimiters that end them. */
  lemma ParsedParts(u: string)
    requires WellOrdered(u)
    ensures var c := Components(u);
      && ':' !in c.protocol && '?' !in c.protocol
      && ':' !in c.host && '/' !in c.host && '?' !in c.host
      && '/' !in c.port && '?' !in c.port
  {
    var s, e, a := HostStart(u), HostEnd(u), AuthorityEnd(u);
    Ordered(u);
    if HasProtocol(u) {
      Before(u, ':', 0, 0, IndexOf(u, ':', 0));
      Before(u, '?', 0, 0, IndexOf(u, ':', 0));
    }
    Before(u, ':', s, s, e);
    Before(u, '/', s, s, e);
    Before(u, '?', 0, s, e);
    if e < a {
      Before(u, '/', s, e + 1, a);
      Before(u, '?', 0, e + 1, a);
    }
  }

  lemma ParsedTail(u: string)
    requires WellOrdered(u)
    ensures var c := Components(u);
      && (c.path != "" ==> c.path[0] == '/' && '?' !in c.path)
      && (c.query != "" ==> c.query[0] == '?')
  {
    Ordered(u);
    Before(u, '?', 0, AuthorityEnd(u), QueryStart(u));
  }

  /** An empty path means that no slash follows the protocol. */
  lemma NoPathNoSlash(u: string)
    requires WellOrdered(u) && Components(u).path == ""
    ensures '/' !in Components(u).query
  {
    Before(u, '/', HostStart(u), QueryStart(u), |u|);
  }

  lemma ParsedProtocol(u: string)
    requires WellOrdered(u) && !DropsDelimiter(u) && HasProtocol(u)
    ensures var c := Components(u); c.protocol != "" && Rest(c) != "" && Rest(c)[0] != '\0'
  {
    var c, s := Components(u), HostStart(u);
    PrintedPieces(u);
    PrefixKept(u);
    assert Rest(c) == u[s..];
  }

  /** The other direction: printing what was parsed gives the string back, and its components are
      grammatical, exactly when no delimiter was dropped. */
  lemma PrintParse(u: string)
    requires WellOrdered(u)
    ensures Print(Components(u)) == u && Grammatical(Components(u)) <==> !DropsDelimiter(u)
  {
    PrintedPieces(u);
    if !DropsDelimiter(u) {
      ParsedParts(u);
      ParsedTail(u);
      if Components(u).path == "" {
        NoPathNoSlash(u);
      }
      if HasProtocol(u) {
        ParsedProtocol(u);
      }
    }
  }

  /** The grammar is exactly the set of component choices that survive printing and parsing. */
  lemma GrammarExactly(c: Uri)
    ensures Grammatical(c) <==> WellOrdered(Print(c)) && Components(Print(c)) == c
  {
    if Grammatical(c) {
      ParsePrint(c);
    } else if WellOrdered(Print(c)) && Components(Print(c)) == c {
      PrintedPieces(Print(c));
      PrintParse(Print(c));
    }
  }

  // ---------------------------------------------------------------- strings that fail

  /** A slash after the question mark; a question mark before the host. */
  lemma InvertedExamples()
    ensures !WellOrdered("?/") && !WellOrdered("?://h")
  {
    assert IndexOf("?/", '/', 1) == 1;
    assert IndexOf("?://h", ':', 1) == 1 && "?://h"[1..4] == "://";
    assert HostStart("?://h") == 4;
    assert IndexOf("?://h", '/', 5) == 5;
  }

  /** The colon before an empty port does not come back. */
  lemma DroppedExample()
    ensures WellOrdered("h:") && Components("h:") == Uri("", "h", "", "", "") && Print(Components("h:")) == "h"
  {
    var u := "h:";
    assert IndexOf(u, ':', 1) == 1 && IndexOf(u, '/', 2) == 2 && IndexOf(u, '/', 1) == 2;
    assert IndexOf(u, '?', 2) == 2 && IndexOf(u, '?', 1) == 2;
  }
}
