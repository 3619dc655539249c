/** `web/media.py`: how a chat line divides into plain text, links and defused tags. */
module ChatPieces {
  import opened Text
  import opened HtmlText

  // ---- URLs: `https?://\S+`, ignoring case ---------------------------------------------------

  /** The length of the scheme part a URL match at the start of `s` would have, or 0. The
      case-blind `s` also matches the long s. */
  function SchemeLen(s: string): nat {
    if |s| < 7 || s[0] !in "hH" || s[1] !in "tT" || s[2] !in "tT" || s[3] !in "pP" then 0
    else if |s| >= 8 && s[4] in "sS\U{017F}" && s[5] == ':' && s[6] == '/' && s[7] == '/' then 8
    else if s[4] == ':' && s[5] == '/' && s[6] == '/' then 7
    else 0
  }

  predicate UrlHere(s: string) {
    var n := SchemeLen(s);
    0 < n < |s| && !IsSpace(s[n])
  }

  function NonSpaceRun(s: string): (n: nat)
    ensures n <= |s|
  {
    if s == "" || IsSpace(s[0]) then 0 else 1 + NonSpaceRun(s[1..])
  }

  function UrlEnd(s: string): (n: nat)
    requires UrlHere(s)
    ensures SchemeLen(s) < n <= |s|
  {
    SchemeLen(s) + NonSpaceRun(s[SchemeLen(s)..])
  }

  /** Where the first URL starts, or `|s|`. */
  function FindUrl(s: string): (u: nat)
    ensures u <= |s|
    ensures u < |s| ==> UrlHere(s[u..])
  {
    if s == "" || UrlHere(s) then 0 else 1 + FindUrl(s[1..])
  }

  const A_OPEN: string := "a href=\""
  const A_TARGET: string := "\" target=\"_blank\""
  const A_REL: string := " rel=\"noopener noreferrer\""

  function AnchorTag(url: string): string { A_OPEN + url + A_TARGET + A_REL }

  /** `_anchor` */
  function Anchor(url: string): string {
    "<" + AnchorTag(url) + ">" + url + ("<" + "/a" + ">")
  }

  /** `_URL_RE.sub(_anchor, s)` */
  function Linkify(s: string): string
    decreases |s|
  {
    if s == "" then ""
    else if UrlHere(s) then Anchor(s[..UrlEnd(s)]) + Linkify(s[UrlEnd(s)..])
    else [s[0]] + Linkify(s[1..])
  }

  function RenderMessageHtml(text: string): string { Linkify(Escape(text)) }

  // ---- Defused tags: "@", a zero-width space, a name, a word boundary -----------------------------

  const ZWSP: char := '\U{200B}'

  /** The character tables of the regex engine: `\w`, case-blind equality, and `str.lower`. */
  datatype Tables = Tables(isWord: char -> bool, same: (char, char) -> bool, lower: string -> string)

  /** `\b` between `s[j-1]` and `s[j]`, where the ends of `s` are not word characters. */
  predicate Boundary(s: string, j: nat, t: Tables)
    requires j <= |s|
  {
    (j > 0 && t.isWord(s[j - 1])) != (j < |s| && t.isWord(s[j]))
  }

  predicate SameText(a: string, b: string, t: Tables) {
    |a| == |b| && forall i | 0 <= i < |a| :: t.same(a[i], b[i])
  }

  /** A tag to `name` (escaped) stands at the start of `s`. */
  predicate TagHere(s: string, name: string, t: Tables) {
    && |s| >= 2 + |name| && s[0] == '@' && s[1] == ZWSP
    && SameText(s[2..2 + |name|], name, t) && Boundary(s, 2 + |name|, t)
  }

  /** The alternation tries the names in order. */
  function FirstName(s: string, names: seq<string>, t: Tables): (r: Option<string>)
    ensures r.Some? ==> r.value in names && TagHere(s, Escape(r.value), t)
    ensures r.None? ==> forall name | name in names :: !TagHere(s, Escape(name), t)
  {
    if names == [] then None
    else if TagHere(s, Escape(names[0]), t) then Some(names[0])
    else FirstName(s, names[1..], t)
  }

  /** How long the tag at the start of `s` is, or 0. */
  function TagLen(s: string, names: seq<string>, t: Tables): (n: nat)
    ensures n == 0 || 2 <= n <= |s|
  {
    var name := FirstName(s, names, t);
    if name == None then 0 else 2 + |Escape(name.value)|
  }

  /** `sorted(agents, key=len, reverse=True)`, which keeps ties in order. */
  function ByLength(agents: seq<string>): seq<string> {
    if agents == [] then [] else InsertByLength(agents[0], ByLength(agents[1..]))
  }

  function InsertByLength(a: string, longestFirst: seq<string>): seq<string> {
    if longestFirst == [] || |longestFirst[0]| <= |a| then [a] + longestFirst
    else [longestFirst[0]] + InsertByLength(a, longestFirst[1..])
  }

  // ---- The pieces of a line ---------------------------------------------------------------------

  datatype Piece = Plain(s: string) | Link(url: string) | Tag(nick: string)

  const SPAN_CLASS: string := "span class=\"lens-defused-tag\""
  const SPAN_TESTID: string := " data-testid=\"defused-tag\""
  const SPAN_TITLE: string := " title=\"Not a real tag\""

  function Span(nick: string): string {
    "<" + (SPAN_CLASS + SPAN_TESTID + SPAN_TITLE) + ">" + ("@" + [ZWSP] + nick) + ("<" + "/span" + ">")
  }

  function Render(p: Piece): string {
    match p
    case Plain(s) => s
    case Link(url) => Anchor(url)
    case Tag(nick) => Span(nick)
  }

  function Shown(p: Piece): string {
    match p
    case Plain(s) => s
    case Link(url) => url
    case Tag(nick) => "@" + [ZWSP] + nick
  }

  function RenderAll(ps: seq<Piece>): string { if ps == [] then "" else Render(ps[0]) + RenderAll(ps[1..]) }

  function ShownAll(ps: seq<Piece>): string { if ps == [] then "" else Shown(ps[0]) + ShownAll(ps[1..]) }

  function TagNicks(ps: seq<Piece>): seq<string> {
    if ps == [] then [] else (if ps[0].Tag? then [ps[0].nick] else []) + TagNicks(ps[1..])
  }

  /** The first piece of a segment between two URLs. */
  function FirstPiece(s: string, names: seq<string>, t: Tables): Piece
    requires s != ""
  {
    var n := TagLen(s, names, t);
    if n == 0 then Plain(s[..1]) else Tag(s[2..n])
  }

  function FirstLen(s: string, names: seq<string>, t: Tables): (n: nat)
    requires s != ""
    ensures 0 < n <= |s|
  {
    var n := TagLen(s, names, t);
    if n == 0 then 1 else n
  }

  /** `mark` on the text between two URLs. */
  function MarkPieces(s: string, names: seq<string>, t: Tables): seq<Piece>
    decreases |s|
  {
    if s == "" then [] else [FirstPiece(s, names, t)] + MarkPieces(s[FirstLen(s, names, t)..], names, t)
  }

  function Pieces(s: string, names: seq<string>, t: Tables): seq<Piece>
    decreases |s|
  {
    var u := FindUrl(s);
    if u == |s| then MarkPieces(s, names, t)
    else
      var url, rest := s[u..][..UrlEnd(s[u..])], s[u..][UrlEnd(s[u..])..];
      MarkPieces(s[..u], names, t) + ([Link(url)] + Pieces(rest, names, t))
  }

  function ChatLine(text: string, agents: seq<string>, t: Tables): seq<Piece> {
    Pieces(Escape(text), ByLength(agents), t)
  }

  // ---- Sequences of pieces -------------------------------------------------------------------------

  lemma Assoc<T>(a: seq<T>, b: seq<T>, c: seq<T>)
    ensures a + (b + c) == a + b + c
  {
  }

  lemma Cut<T>(s: seq<T>, n: nat)
    requires n <= |s|
    ensures s[..n] + s[n..] == s
  {
  }

  lemma {:induction false} RenderAppend(a: seq<Piece>, b: seq<Piece>)
    ensures RenderAll(a + b) == RenderAll(a) + RenderAll(b)
  {
    hide Render;
    if a == [] {
      assert a + b == b;
    } else {
      RenderAppend(a[1..], b);
      assert (a + b)[1..] == a[1..] + b && (a + b)[0] == a[0];
      Assoc(Render(a[0]), RenderAll(a[1..]), RenderAll(b));
    }
  }

  lemma {:induction false} ShownAppend(a: seq<Piece>, b: seq<Piece>)
    ensures ShownAll(a + b) == ShownAll(a) + ShownAll(b)
  {
    hide Shown;
    if a == [] {
      assert a + b == b;
    } else {
      ShownAppend(a[1..], b);
      assert (a + b)[1..] == a[1..] + b && (a + b)[0] == a[0];
      Assoc(Shown(a[0]), ShownAll(a[1..]), ShownAll(b));
    }
  }

  lemma {:induction false} NicksAppend(a: seq<Piece>, b: seq<Piece>)
    ensures TagNicks(a + b) == TagNicks(a) + TagNicks(b)
  {
    if a == [] {
      assert a + b == b;
    } else {
      NicksAppend(a[1..], b);
      assert (a + b)[1..] == a[1..] + b && (a + b)[0] == a[0];
      Assoc(if a[0].Tag? then [a[0].nick] else [], TagNicks(a[1..]), TagNicks(b));
    }
  }

  lemma OnePiece(p: Piece)
    ensures RenderAll([p]) == Render(p) && ShownAll([p]) == Shown(p) && TagNicks([p]) == if p.Tag? then [p.nick] else []
  {
    hide Render, Shown;
    assert [p][1..] == [];
  }

  // ---- The visible text is the message --------------------------------------------------------------

  lemma FirstShows(s: string, names: seq<string>, t: Tables)
    requires s != ""
    ensures Shown(FirstPiece(s, names, t)) == s[..FirstLen(s, names, t)]
  {
    hide Escape, SameText, Boundary;
  }

  lemma {:induction false} MarkShowsSegment(s: string, names: seq<string>, t: Tables)
    ensures ShownAll(MarkPieces(s, names, t)) == s
    decreases |s|
  {
    hide Shown, FirstPiece, FirstLen;
    if s != "" {
      var n := FirstLen(s, names, t);
      MarkShowsSegment(s[n..], names, t);
      FirstShows(s, names, t);
      OnePiece(FirstPiece(s, names, t));
      ShownAppend([FirstPiece(s, names, t)], MarkPieces(s[n..], names, t));
      Cut(s, n);
    }
  }

  lemma {:induction false} PiecesShowAll(s: string, names: seq<string>, t: Tables)
    ensures ShownAll(Pieces(s, names, t)) == s
    decreases |s|
  {
    hide MarkPieces, UrlHere, UrlEnd, FindUrl, ShownAll, Shown;
    var u := FindUrl(s);
    if u == |s| {
      MarkShowsSegment(s, names, t);
    } else {
      var r, n := s[u..], UrlEnd(s[u..]);
      MarkShowsSegment(s[..u], names, t);
      PiecesShowAll(r[n..], names, t);
      ShownAppend(MarkPieces(s[..u], names, t), [Link(r[..n])] + Pieces(r[n..], names, t));
      ShownAppend([Link(r[..n])], Pieces(r[n..], names, t));
      LinkShows(r[..n]);
      hide Pieces;
      Cut(r, n);
      Cut(s, u);
    }
  }

  lemma LinkShows(url: string)
    ensures ShownAll([Link(url)]) == url && RenderAll([Link(url)]) == Anchor(url) && TagNicks([Link(url)]) == []
  {
    hide Anchor;
    OnePiece(Link(url));
  }

  lemma WithoutAppend(a: string, b: string, c: char)
    ensures Without(a + b, c) <==> Without(a, c) && Without(b, c)
  {
    forall i | 0 <= i < |b| ensures b[i] == (a + b)[|a| + i] {}
    forall i | 0 <= i < |a| ensures a[i] == (a + b)[i] {}
  }

  lemma AnchorTagIsOneTag(url: string)
    requires Without(url, '>')
    ensures Without(AnchorTag(url), '>')
  {
    assert Without(A_OPEN, '>') && Without(A_TARGET, '>') && Without(A_REL, '>');
    WithoutAppend(A_OPEN, url, '>');
    WithoutAppend(A_OPEN + url, A_TARGET, '>');
    WithoutAppend(A_OPEN + url + A_TARGET, A_REL, '>');
  }

  lemma SpanTagIsOneTag()
    ensures Without(SPAN_CLASS + SPAN_TESTID + SPAN_TITLE, '>')
  {
    assert Without(SPAN_CLASS, '>') && Without(SPAN_TESTID, '>') && Without(SPAN_TITLE, '>');
    WithoutAppend(SPAN_CLASS, SPAN_TESTID, '>');
    WithoutAppend(SPAN_CLASS + SPAN_TESTID, SPAN_TITLE, '>');
  }

  lemma PlainShows(s: string, rest: string)
    requires NoMarkup(s)
    ensures StripTags(s + rest) == s + StripTags(rest)
  {
    StripPlain(s, rest);
  }

  lemma AnchorShows(url: string, rest: string)
    requires NoMarkup(url)
    ensures StripTags(Anchor(url) + rest) == url + StripTags(rest)
  {
    hide StripTags, AnchorTag;
    assert Without(url, '>') && Without(url, '<') && Without("/a", '>');
    AnchorTagIsOneTag(url);
    hide Without;
    StripElement(AnchorTag(url), url, "/a", rest);
  }

  lemma SpanShows(nick: string, rest: string)
    requires NoMarkup("@" + [ZWSP] + nick)
    ensures StripTags(Span(nick) + rest) == "@" + [ZWSP] + nick + StripTags(rest)
  {
    hide StripTags;
    assert Without("@" + [ZWSP] + nick, '<') && Without("/span", '>');
    SpanTagIsOneTag();
    hide Without;
    StripElement(SPAN_CLASS + SPAN_TESTID + SPAN_TITLE, "@" + [ZWSP] + nick, "/span", rest);
  }

  lemma StripPiece(p: Piece, rest: string)
    requires NoMarkup(Shown(p))
    ensures StripTags(Render(p) + rest) == Shown(p) + StripTags(rest)
  {
    hide NoMarkup, StripTags, Anchor, Span;
    match p {
      case Plain(s) => PlainShows(s, rest);
      case Link(url) => AnchorShows(url, rest);
      case Tag(nick) => SpanShows(nick, rest);
    }
  }

  lemma {:induction false} StripAll(ps: seq<Piece>)
    requires NoMarkup(ShownAll(ps))
    ensures StripTags(RenderAll(ps)) == ShownAll(ps)
  {
    if ps != [] {
      hide Render, Shown, StripTags;
      var a, b := Shown(ps[0]), ShownAll(ps[1..]);
      assert NoMarkup(a) by { forall i | 0 <= i < |a| ensures a[i] == (a + b)[i] {} }
      assert NoMarkup(b) by { forall i | 0 <= i < |b| ensures b[i] == (a + b)[|a| + i] {} }
      StripAll(ps[1..]);
      StripPiece(ps[0], RenderAll(ps[1..]));
    }
  }

  /** For every message and agent list: take the tags out of the markup, unescape, and the message
      is back. */
  lemma RenderingKeepsTheText(text: string, agents: seq<string>, t: Tables)
    ensures Unescape(StripTags(RenderAll(ChatLine(text, agents, t)))) == text
  {
    hide Pieces, RenderAll, ShownAll, StripTags, Escape, Unescape, ByLength, NoMarkup;
    EscapedIsPlain(text);
    PiecesShowAll(Escape(text), ByLength(agents), t);
    StripAll(ChatLine(text, agents, t));
    UnescapeInvertsEscape(text);
  }

  // ---- Which links are http and https -------------------------------------------------------------

  /** `url` is `scheme`, in either case of the ASCII letters, and something more. */
  predicate HasScheme(url: string, scheme: string) {
    |url| > |scheme| && Lower(url[..|scheme|]) == scheme
  }

  predicate IsHttpUrl(url: string) {
    (HasScheme(url, "http://") || HasScheme(url, "https://")) && SpaceFree(url)
  }

  const LONG_S: char := '\U{017F}'

  /** An http(s) URL exactly unless a long s stands in the scheme. */
  predicate HttpUnlessLongS(url: string) {
    |url| > 7 && SpaceFree(url) && (IsHttpUrl(url) <==> url[4] != LONG_S)
  }

  lemma {:induction false} RunIsSpaceFree(s: string)
    ensures SpaceFree(s[..NonSpaceRun(s)])
  {
    if s != "" && !IsSpace(s[0]) {
      RunIsSpaceFree(s[1..]);
      assert s[..NonSpaceRun(s)] == [s[0]] + s[1..][..NonSpaceRun(s[1..])];
    }
  }

  lemma SchemeOfPrefix(s: string, n: nat)
    requires SchemeLen(s) <= n <= |s|
    ensures SchemeLen(s) > 0 ==> SchemeLen(s[..n]) == SchemeLen(s) && SpaceFree(s[..SchemeLen(s)])
  {
  }

  lemma SchemeIsHttp(url: string)
    requires 0 < SchemeLen(url) < |url| && SpaceFree(url)
    ensures HttpUnlessLongS(url)
  {
    hide IsSpace, SpaceFree;
    var seven, eight := Lower(url[..7]), Lower(url[..8]);
    assert seven[4] == LowerChar(url[4]) && eight[4] == LowerChar(url[4]);
    if url[4] != LONG_S {
      if SchemeLen(url) == 7 {
        assert seven == "http://";
      } else {
        assert eight == "https://";
      }
    }
  }

  lemma UrlIsHttp(s: string)
    requires UrlHere(s)
    ensures HttpUnlessLongS(s[..UrlEnd(s)])
  {
    var n := SchemeLen(s);
    SchemeOfPrefix(s, UrlEnd(s));
    RunIsSpaceFree(s[n..]);
    hide SchemeLen, IsSpace, HttpUnlessLongS;
    assert s[..UrlEnd(s)] == s[..n] + s[n..][..NonSpaceRun(s[n..])];
    SchemeIsHttp(s[..UrlEnd(s)]);
  }

  lemma {:induction false} MarkHasNoLinks(s: string, names: seq<string>, t: Tables)
    ensures forall p | p in MarkPieces(s, names, t) :: !p.Link?
    decreases |s|
  {
    if s != "" {
      hide FirstLen, TagLen;
      MarkHasNoLinks(s[FirstLen(s, names, t)..], names, t);
    }
  }

  lemma {:induction false} LinksUnlessLongS(s: string, names: seq<string>, t: Tables)
    ensures forall p | p in Pieces(s, names, t) && p.Link? :: HttpUnlessLongS(p.url)
    decreases |s|
  {
    hide MarkPieces, FindUrl, UrlHere, UrlEnd, HttpUnlessLongS;
    var u := FindUrl(s);
    if u == |s| {
      MarkHasNoLinks(s, names, t);
    } else {
      var r, n := s[u..], UrlEnd(s[u..]);
      MarkHasNoLinks(s[..u], names, t);
      UrlIsHttp(r);
      LinksUnlessLongS(r[n..], names, t);
      assert Pieces(s, names, t)
          == MarkPieces(s[..u], names, t) + ([Link(r[..n])] + Pieces(r[n..], names, t));
    }
  }

  lemma {:induction false} EscapeAddsNoLongS(text: string)
    requires Without(text, LONG_S)
    ensures Without(Escape(text), LONG_S)
  {
    if text != "" {
      EscapeAddsNoLongS(text[1..]);
      WithoutAppend(EscapeChar(text[0]), Escape(text[1..]), LONG_S);
    }
  }

  lemma {:induction false} ShownOfPiece(ps: seq<Piece>, p: Piece, c: char)
    requires p in ps && Without(ShownAll(ps), c)
    ensures Without(Shown(p), c)
  {
    hide Without, Shown;
    WithoutAppend(Shown(ps[0]), ShownAll(ps[1..]), c);
    if p != ps[0] {
      ShownOfPiece(ps[1..], p, c);
    }
  }

  /** For every message and agent list: a link has no white space and is an http(s) URL if and only if
      no long s stands in its scheme, so every link is one if the message has no long s. */
  lemma LinksAreHttpExactly(text: string, agents: seq<string>, t: Tables)
    ensures forall p | p in ChatLine(text, agents, t) && p.Link? :: HttpUnlessLongS(p.url)
    ensures Without(text, LONG_S) ==> forall p | p in ChatLine(text, agents, t) && p.Link? :: IsHttpUrl(p.url)
  {
    hide Pieces, Escape, ByLength, IsHttpUrl, Without;
    var s, names := Escape(text), ByLength(agents);
    LinksUnlessLongS(s, names, t);
    if Without(text, LONG_S) {
      EscapeAddsNoLongS(text);
      PiecesShowAll(s, names, t);
      forall p | p in Pieces(s, names, t) && p.Link? ensures p.url[4] != LONG_S {
        ShownOfPiece(Pieces(s, names, t), p, LONG_S);
        LongSAbsent(p.url);
      }
    }
  }

  /** The first attribute value of some markup: what stands between its first two quotes. */
  function FirstQuoted(s: string): string {
    var i := IndexOf(s, '"');
    if i == |s| then "" else s[i + 1..][..IndexOf(s[i + 1..], '"')]
  }

  lemma QuotedIs(s: string, i: nat, v: string)
    requires i + 1 + |v| < |s| && s[i] == '"' && s[i + 1..i + 1 + |v|] == v && s[i + 1 + |v|] == '"'
    requires Without(s[..i], '"') && Without(v, '"')
    ensures FirstQuoted(s) == v
  {
    forall j | 0 <= j < i ensures s[j] != '"' { assert s[j] == s[..i][j]; }
    assert IndexOf(s, '"') == i;
    var t := s[i + 1..];
    assert t[|v|] == '"' && t[..|v|] == v;
    forall j | 0 <= j < |v| ensures t[j] != '"' { assert t[j] == v[j]; }
    assert IndexOf(t, '"') == |v|;
  }

  lemma AnchorPointsTo(url: string)
    requires Without(url, '"')
    ensures FirstQuoted(Anchor(url)) == url
  {
    var open, rest := "<" + A_OPEN, A_TARGET + A_REL + ">" + url + ("<" + "/a" + ">");
    var s := Anchor(url);
    assert s == open + url + rest by { AnchorParts(url); }
    assert |open| == 9 && open[8] == '"' && rest[0] == '"' && Without(open[..8], '"');
    hide Anchor;
    assert s[..8] == open[..8] && s[9..9 + |url|] == url && s[9 + |url|] == rest[0];
    QuotedIs(s, 8, url);
  }

  lemma AnchorParts(url: string)
    ensures Anchor(url) == ("<" + A_OPEN) + url + (A_TARGET + A_REL + ">" + url + ("<" + "/a" + ">"))
  {
    var end := "<" + "/a" + ">";
    Regroup(A_OPEN, url, A_TARGET, A_REL, ">", end);
  }

  lemma Regroup(a: string, url: string, b: string, c: string, d: string, end: string)
    ensures "<" + (a + url + b + c) + d + url + end == ("<" + a) + url + (b + c + d + url + end)
  {
  }

  /** In every rendered line a link points to the very URL it shows. */
  lemma LinksPointWhereTheyShow(text: string, agents: seq<string>, t: Tables)
    ensures forall p | p in ChatLine(text, agents, t) && p.Link? :: FirstQuoted(Render(p)) == Shown(p)
  {
    hide Pieces, Escape, ByLength, Anchor, FirstQuoted, ShownAll;
    var s, names := Escape(text), ByLength(agents);
    EscapedIsPlain(text);
    PiecesShowAll(s, names, t);
    forall p | p in Pieces(s, names, t) && p.Link? ensures FirstQuoted(Render(p)) == Shown(p) {
      ShownOfPiece(Pieces(s, names, t), p, '"');
      AnchorPointsTo(p.url);
    }
  }

  lemma LongSAbsent(url: string)
    requires |url| > 7 && Without(url, LONG_S)
    ensures url[4] != LONG_S
  {
  }

  const LONG_S_URL: string := "http\U{017F}://x"

  lemma LongSUrlMatches()
    ensures UrlHere(LONG_S_URL) && UrlEnd(LONG_S_URL) == |LONG_S_URL| && !IsHttpUrl(LONG_S_URL)
  {
    var s := LONG_S_URL;
    assert s[8..] == "x" && NonSpaceRun("x") == 1 + NonSpaceRun("x"[1..]);
    assert SchemeLen(s) == 8 && s[4] == LONG_S;
    hide SchemeLen;
    assert Lower(s[..7])[4] == LONG_S && Lower(s[..8])[4] == LONG_S;
  }

  lemma WholeUrlIsOneLink(s: string, names: seq<string>, t: Tables)
    requires UrlHere(s) && UrlEnd(s) == |s|
    ensures Pieces(s, names, t) == [Link(s)]
  {
    hide UrlHere, UrlEnd, TagLen;
    assert FindUrl(s) == 0 && FindUrl("") == 0;
    hide FindUrl;
    assert s[0..] == s && s[..0] == "" && s[..|s|] == s && s[|s|..] == "";
    assert MarkPieces("", names, t) == [] && Pieces("", names, t) == [];
  }

  /** A message that is one link, to a URL of neither scheme. */
  lemma LongSIsLinked(agents: seq<string>, t: Tables)
    ensures ChatLine(LONG_S_URL, agents, t) == [Link(LONG_S_URL)] && !IsHttpUrl(LONG_S_URL)
  {
    LongSUrlMatches();
    PlainEscapes(LONG_S_URL);
    WholeUrlIsOneLink(LONG_S_URL, ByLength(agents), t);
  }

  lemma {:induction false} PlainEscapes(text: string)
    requires NoMarkup(text) && Without(text, '&')
    ensures Escape(text) == text
  {
    if text != "" {
      PlainEscapes(text[1..]);
    }
  }

  // ---- Every URL is a link --------------------------------------------------------------------------

  /** An http(s) URL starts here: the scheme, in either case, and a character that is no white space. */
  predicate UrlStarts(s: string) {
    || (|s| > 7 && Lower(s[..7]) == "http://" && !IsSpace(s[7]))
    || (|s| > 8 && Lower(s[..8]) == "https://" && !IsSpace(s[8]))
  }

  /** The piece that shows position `i` of the line. */
  function PieceAt(ps: seq<Piece>, i: nat): Piece
    requires i < |ShownAll(ps)|
  {
    if i < |Shown(ps[0])| then ps[0] else PieceAt(ps[1..], i - |Shown(ps[0])|)
  }

  lemma {:induction false} PieceAtAppend(a: seq<Piece>, b: seq<Piece>, i: nat)
    requires i < |ShownAll(a + b)|
    ensures |ShownAll(a + b)| == |ShownAll(a)| + |ShownAll(b)|
    ensures PieceAt(a + b, i) == if i < |ShownAll(a)| then PieceAt(a, i) else PieceAt(b, i - |ShownAll(a)|)
    decreases |a|
  {
    hide Shown;
    ShownAppend(a, b);
    if a == [] {
      assert a + b == b;
    } else {
      assert (a + b)[1..] == a[1..] + b && (a + b)[0] == a[0];
      ShownAppend(a[1..], b);
      if i >= |Shown(a[0])| {
        PieceAtAppend(a[1..], b, i - |Shown(a[0])|);
      }
    }
  }

  lemma LowerAt(c: char, lower: char)
    requires LowerChar(c) == lower && 'a' <= lower <= 'z'
    ensures c == lower || c == UpperChar(lower)
  {
  }

  lemma StartsAreMatched(s: string)
    requires UrlStarts(s)
    ensures UrlHere(s)
  {
    var n := if |s| > 7 && Lower(s[..7]) == "http://" && !IsSpace(s[7]) then 7 else 8;
    var low := Lower(s[..n]);
    assert low[0] == 'h' && low[1] == 't' && low[2] == 't' && low[3] == 'p';
    assert forall i | 0 <= i < n :: low[i] == LowerChar(s[i]);
    LowerAt(s[0], 'h');
    LowerAt(s[1], 't');
    LowerAt(s[2], 't');
    LowerAt(s[3], 'p');
    if n == 7 {
      assert low[4] == ':' && low[5] == '/' && low[6] == '/';
    } else {
      assert low[4] == 's' && low[5] == ':' && low[6] == '/' && low[7] == '/';
      LowerAt(s[4], 's');
    }
  }

  lemma {:induction false} NoUrlBefore(s: string, j: nat)
    requires j < FindUrl(s)
    ensures !UrlHere(s[j..])
  {
    hide UrlHere;
    if j > 0 {
      NoUrlBefore(s[1..], j - 1);
      assert s[1..][j - 1..] == s[j..];
    } else {
      assert s[0..] == s;
    }
  }

  lemma {:induction false} RunEndsAtSpace(s: string)
    ensures NonSpaceRun(s) == |s| || IsSpace(s[NonSpaceRun(s)])
  {
    if s != "" && !IsSpace(s[0]) {
      RunEndsAtSpace(s[1..]);
    }
  }

  lemma UrlEndsAtSpace(s: string)
    requires UrlHere(s)
    ensures UrlEnd(s) == |s| || IsSpace(s[UrlEnd(s)])
  {
    hide IsSpace, SchemeLen;
    RunEndsAtSpace(s[SchemeLen(s)..]);
  }

  /** The piece at a position of a line whose first URL starts at `u`. */
  lemma PieceAfterMarks(s: string, names: seq<string>, t: Tables, i: nat)
    requires FindUrl(s) <= i < |s| && FindUrl(s) < |s|
    ensures |ShownAll(Pieces(s, names, t))| == |s|
    ensures var r := s[FindUrl(s)..];
            var k, n := i - FindUrl(s), UrlEnd(r);
            && |ShownAll(Pieces(r[n..], names, t))| == |r| - n
            && PieceAt(Pieces(s, names, t), i)
               == if k < n then Link(r[..n]) else PieceAt(Pieces(r[n..], names, t), k - n)
  {
    hide MarkPieces, FindUrl, UrlHere, UrlEnd, ShownAll, PieceAt;
    var u := FindUrl(s);
    var r, n := s[u..], UrlEnd(s[u..]);
    var marks, link, rest := MarkPieces(s[..u], names, t), [Link(r[..n])], Pieces(r[n..], names, t);
    assert Pieces(s, names, t) == marks + (link + rest);
    PiecesShowAll(s, names, t);
    hide Pieces;
    MarkShowsSegment(s[..u], names, t);
    PiecesShowAll(r[n..], names, t);
    LinkShows(r[..n]);
    ShownAppend(marks, link + rest);
    PieceAtAppend(marks, link + rest, i);
    PieceAtAppend(link, rest, i - u);
    OnePieceAt(Link(r[..n]), i - u);
  }

  lemma OnePieceAt(p: Piece, i: nat)
    ensures |ShownAll([p])| == |Shown(p)|
    ensures i < |Shown(p)| ==> PieceAt([p], i) == p
  {
    OnePiece(p);
    hide Shown;
  }

  lemma NoLinkInMarks(s: string, names: seq<string>, t: Tables, i: nat)
    requires i < FindUrl(s)
    ensures |ShownAll(Pieces(s, names, t))| == |s| && !PieceAt(Pieces(s, names, t), i).Link?
  {
    hide MarkPieces, FindUrl, UrlHere, UrlEnd, ShownAll, PieceAt;
    var u := FindUrl(s);
    PiecesShowAll(s, names, t);
    MarkShowsSegment(s[..u], names, t);
    MarkHasNoLinks(s[..u], names, t);
    var marks := MarkPieces(s[..u], names, t);
    if u == |s| {
      assert s[..u] == s;
    } else {
      var r, n := s[u..], UrlEnd(s[u..]);
      assert Pieces(s, names, t) == marks + ([Link(r[..n])] + Pieces(r[n..], names, t));
      hide Pieces;
      PieceAtAppend(marks, [Link(r[..n])] + Pieces(r[n..], names, t), i);
    }
    PieceAtIsPiece(marks, i);
  }

  lemma {:induction false} PieceAtIsPiece(ps: seq<Piece>, i: nat)
    requires i < |ShownAll(ps)|
    ensures PieceAt(ps, i) in ps
  {
    hide Shown;
    if i >= |Shown(ps[0])| {
      PieceAtIsPiece(ps[1..], i - |Shown(ps[0])|);
    }
  }

  /** Wherever an http(s) URL starts in a line, a link is shown. */
  lemma {:induction false} EveryUrlIsLinked(s: string, names: seq<string>, t: Tables, i: nat)
    requires i < |s| && UrlStarts(s[i..])
    ensures |ShownAll(Pieces(s, names, t))| == |s| && PieceAt(Pieces(s, names, t), i).Link?
    decreases |s|
  {
    hide Pieces, MarkPieces, FindUrl, UrlEnd, UrlHere, UrlStarts, ShownAll, PieceAt, IsSpace;
    var u := FindUrl(s);
    StartsAreMatched(s[i..]);
    if i < u {
      NoUrlBefore(s, i);
    } else {
      PieceAfterMarks(s, names, t, i);
      var r, n := s[u..], UrlEnd(s[u..]);
      if i - u >= n {
        SuffixOfSuffix(s, u, n, i);
        EveryUrlIsLinked(r[n..], names, t, i - u - n);
      }
    }
  }

  lemma SuffixOfSuffix(s: string, u: nat, n: nat, i: nat)
    requires u + n <= i <= |s|
    ensures s[u..][n..][i - u - n..] == s[i..]
    ensures i < |s| ==> s[u..][n..][i - u - n] == s[i]
  {
  }

  /** A link goes on until white space or the end of the line. */
  lemma {:induction false} LinksGoOn(s: string, names: seq<string>, t: Tables, i: nat)
    requires i + 1 < |s| && !IsSpace(s[i + 1])
    ensures |ShownAll(Pieces(s, names, t))| == |s|
    ensures PieceAt(Pieces(s, names, t), i).Link? ==>
              PieceAt(Pieces(s, names, t), i + 1) == PieceAt(Pieces(s, names, t), i)
    decreases |s|
  {
    hide Pieces, MarkPieces, FindUrl, UrlEnd, UrlHere, ShownAll, PieceAt, IsSpace;
    var u := FindUrl(s);
    if i < u {
      NoLinkInMarks(s, names, t, i);
    } else {
      PieceAfterMarks(s, names, t, i);
      PieceAfterMarks(s, names, t, i + 1);
      var r, n := s[u..], UrlEnd(s[u..]);
      UrlEndsAtSpace(r);
      if i - u >= n {
        SuffixOfSuffix(s, u, n, i + 1);
        LinksGoOn(r[n..], names, t, i - u - n);
      }
    }
  }

  // ---- What is a defused tag -------------------------------------------------------------------------

  /** `s` is an at sign, a zero-width space, the name as written, where a word ends (or begins), and the
      rest. */
  predicate TagSplit(s: string, name: string, t: Tables, written: string, rest: string) {
    && s == "@" + [ZWSP] + written + rest && |written| == |name|
    && (forall i | 0 <= i < |name| :: t.same(written[i], name[i]))
    && t.isWord(if written == "" then ZWSP else written[|written| - 1]) != (rest != "" && t.isWord(rest[0]))
  }

  ghost predicate StartsTag(s: string, name: string, t: Tables) {
    exists written, rest :: TagSplit(s, name, t, written, rest)
  }

  lemma TaggedName(s: string, name: string, t: Tables, written: string, rest: string)
    requires s == "@" + [ZWSP] + written + rest && |written| == |name|
    ensures TagHere(s, name, t) <==> TagSplit(s, name, t, written, rest)
  {
    var j := 2 + |name|;
    assert |s| == j + |rest| && s[0] == '@' && s[1] == ZWSP;
    assert s[2..j] == written;
    assert s[j - 1] == if written == "" then ZWSP else written[|written| - 1];
    assert rest != "" ==> rest[0] == s[j];
  }

  lemma TagHereExactly(s: string, name: string, t: Tables)
    ensures TagHere(s, name, t) <==> StartsTag(s, name, t)
  {
    if TagHere(s, name, t) {
      var written, rest := s[2..2 + |name|], s[2 + |name|..];
      assert s == "@" + [ZWSP] + written + rest;
      TaggedName(s, name, t, written, rest);
    } else if StartsTag(s, name, t) {
      hide TagHere;
      var written, rest :| TagSplit(s, name, t, written, rest);
      TaggedName(s, name, t, written, rest);
    }
  }

  /** Between links, a piece is a tag exactly where the escaped name of an agent is tagged, and then it
      shows the nick as written; everything else is shown a character at a time. */
  lemma TaggedExactly(s: string, names: seq<string>, t: Tables)
    requires s != ""
    ensures MarkPieces(s, names, t) != []
    ensures var first := MarkPieces(s, names, t)[0];
            && (first.Tag? <==> exists name | name in names :: StartsTag(s, Escape(name), t))
            && (first.Tag? ==> exists name | name in names ::
                  StartsTag(s, Escape(name), t) && first.nick == s[2..2 + |Escape(name)|])
            && (!first.Tag? ==> first == Plain(s[..1]))
  {
    hide Escape, TagHere, StartsTag;
    assert MarkPieces(s, names, t)[0] == FirstPiece(s, names, t);
    hide MarkPieces;
    forall name | name in names
      ensures TagHere(s, Escape(name), t) <==> StartsTag(s, Escape(name), t)
    {
      TagHereExactly(s, Escape(name), t);
    }
  }

  // ---- Without agents it is `render_message_html` -----------------------------------------------

  lemma {:induction false} NoNamesNoTags(s: string, t: Tables)
    ensures RenderAll(MarkPieces(s, [], t)) == s && TagNicks(MarkPieces(s, [], t)) == []
  {
    if s != "" {
      NoNamesNoTags(s[1..], t);
      assert MarkPieces(s, [], t) == [Plain(s[..1])] + MarkPieces(s[1..], [], t);
      hide MarkPieces;
      OnePiece(Plain(s[..1]));
      RenderAppend([Plain(s[..1])], MarkPieces(s[1..], [], t));
      NicksAppend([Plain(s[..1])], MarkPieces(s[1..], [], t));
      Cut(s, 1);
    }
  }

  lemma SkipOne(s: string)
    requires s != "" && !UrlHere(s)
    ensures Linkify(s) == [s[0]] + Linkify(s[1..])
  {
  }

  lemma {:induction false} LinkifySkips(s: string)
    ensures Linkify(s) == s[..FindUrl(s)] + Linkify(s[FindUrl(s)..])
  {
    hide UrlEnd, UrlHere, Anchor, Linkify;
    if s == "" || UrlHere(s) {
      assert s[0..] == s;
    } else {
      var r := s[1..];
      var u := FindUrl(r);
      assert FindUrl(s) == 1 + u;
      hide FindUrl;
      LinkifySkips(r);
      SkipOne(s);
      assert s[..1 + u] == [s[0]] + r[..u] && s[1 + u..] == r[u..];
      Assoc([s[0]], r[..u], Linkify(r[u..]));
    }
  }

  lemma {:induction false} NoNamesIsLinkify(s: string, t: Tables)
    ensures RenderAll(Pieces(s, [], t)) == Linkify(s) && TagNicks(Pieces(s, [], t)) == []
    decreases |s|
  {
    hide MarkPieces, FindUrl, UrlEnd, UrlHere, Anchor, RenderAll, TagNicks;
    var u := FindUrl(s);
    LinkifySkips(s);
    if u == |s| {
      NoNamesNoTags(s, t);
      assert s[..u] == s && s[u..] == "";
    } else {
      var r, n := s[u..], UrlEnd(s[u..]);
      var marks, link, rest := MarkPieces(s[..u], [], t), [Link(r[..n])], Pieces(r[n..], [], t);
      NoNamesNoTags(s[..u], t);
      NoNamesIsLinkify(r[n..], t);
      assert Linkify(r) == Anchor(r[..n]) + Linkify(r[n..]);
      hide Linkify;
      LinkShows(r[..n]);
      RenderAppend(link, rest);
      RenderAppend(marks, link + rest);
      NicksAppend(link, rest);
      NicksAppend(marks, link + rest);
    }
  }

  /** With no agents the markup is exactly `render_message_html`'s and there are no nicks. */
  lemma NoAgentsIsMessageHtml(text: string, t: Tables)
    ensures RenderAll(ChatLine(text, [], t)) == RenderMessageHtml(text) && TagNicks(ChatLine(text, [], t)) == []
  {
    NoNamesIsLinkify(Escape(text), t);
  }

  // ---- Which agent is named ------------------------------------------------------------------------

  predicate LongestFirst(names: seq<string>) {
    names != [] ==> LongestFirst(names[1..]) && forall n | n in names[1..] :: |n| <= |names[0]|
  }

  lemma {:induction false} InsertKeepsOrder(a: string, names: seq<string>)
    requires LongestFirst(names)
    ensures LongestFirst(InsertByLength(a, names)) && multiset(InsertByLength(a, names)) == multiset(names) + multiset{a}
    ensures forall n | n in InsertByLength(a, names) :: n == a || n in names
  {
    if names != [] {
      assert names == [names[0]] + names[1..];
      if |names[0]| <= |a| {
        assert InsertByLength(a, names)[1..] == names;
      } else {
        InsertKeepsOrder(a, names[1..]);
        assert InsertByLength(a, names)[1..] == InsertByLength(a, names[1..]);
      }
    }
  }

  lemma {:induction false} ByLengthSorts(agents: seq<string>)
    ensures LongestFirst(ByLength(agents)) && multiset(ByLength(agents)) == multiset(agents)
  {
    if agents != [] {
      var rest := ByLength(agents[1..]);
      assert ByLength(agents) == InsertByLength(agents[0], rest);
      hide InsertByLength, LongestFirst, ByLength;
      ByLengthSorts(agents[1..]);
      InsertKeepsOrder(agents[0], rest);
      assert agents == [agents[0]] + agents[1..];
    } else {
      assert LongestFirst([]);
    }
  }

  lemma {:induction false} FirstIsLongest(s: string, names: seq<string>, t: Tables, other: string)
    requires LongestFirst(names) && other in names && TagHere(s, Escape(other), t)
    ensures FirstName(s, names, t).Some? && |other| <= |FirstName(s, names, t).value|
  {
    hide TagHere, Escape;
    if !TagHere(s, Escape(names[0]), t) {
      FirstIsLongest(s, names[1..], t, other);
    } else {
      assert other == names[0] || other in names[1..];
    }
  }

  /** Where several agents' names fit, the tag names a longest one of them. */
  lemma TagsNameTheLongest(s: string, agents: seq<string>, t: Tables, other: string)
    requires other in agents && TagHere(s, Escape(other), t)
    ensures var name := FirstName(s, ByLength(agents), t);
            && name.Some? && name.value in agents && |other| <= |name.value|
  {
    ByLengthSorts(agents);
    assert other in multiset(agents);
    assert other in ByLength(agents);
    FirstIsLongest(s, ByLength(agents), t, other);
    var name := FirstName(s, ByLength(agents), t);
    assert name.value in multiset(ByLength(agents));
  }
}
