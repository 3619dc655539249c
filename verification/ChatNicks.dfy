/** `web/media.py`: the nicks noted under a rendered line. */
module ChatNicks {
  import opened Text
  import opened HtmlText
  import opened ChatPieces

  predicate Known(nicks: seq<string>, nick: string, t: Tables) {
    exists i :: 0 <= i < |nicks| && t.lower(nicks[i]) == t.lower(nick)
  }

  /** What `span` does to the list for each match. */
  function AddNick(nicks: seq<string>, nick: string, t: Tables): seq<string> {
    if Known(nicks, nick, t) then nicks else nicks + [nick]
  }

  function AddNicks(nicks: seq<string>, more: seq<string>, t: Tables): seq<string> {
    if more == [] then nicks else AddNick(AddNicks(nicks, more[..|more| - 1], t), more[|more| - 1], t)
  }

  /** The nicks whose lower-case form no earlier one has, in order. */
  function FirstUses(tags: seq<string>, t: Tables): seq<string> {
    if tags == [] then []
    else
      var n := |tags| - 1;
      FirstUses(tags[..n], t) + (if Known(tags[..n], tags[n], t) then [] else [tags[n]])
  }

  lemma KnownSnoc(a: seq<string>, x: string, nick: string, t: Tables)
    ensures Known(a + [x], nick, t) <==> Known(a, nick, t) || t.lower(x) == t.lower(nick)
  {
    var all := a + [x];
    if Known(a, nick, t) {
      var i :| 0 <= i < |a| && t.lower(a[i]) == t.lower(nick);
      assert all[i] == a[i];
    }
    if t.lower(x) == t.lower(nick) {
      assert all[|a|] == x;
    }
    if i :| 0 <= i < |all| && t.lower(all[i]) == t.lower(nick) {
      assert i < |a| ==> all[i] == a[i];
    }
  }

  lemma SameLower(a: seq<string>, x: string, y: string, t: Tables)
    requires t.lower(x) == t.lower(y) && Known(a, x, t)
    ensures Known(a, y, t)
  {
  }

  lemma {:induction false} SameKnown(tags: seq<string>, nick: string, t: Tables)
    ensures Known(FirstUses(tags, t), nick, t) <==> Known(tags, nick, t)
  {
    if tags != [] {
      hide Known;
      var n := |tags| - 1;
      SameKnown(tags[..n], nick, t);
      assert tags == tags[..n] + [tags[n]];
      KnownSnoc(tags[..n], tags[n], nick, t);
      if Known(tags[..n], tags[n], t) {
        assert FirstUses(tags, t) == FirstUses(tags[..n], t);
        if t.lower(tags[n]) == t.lower(nick) { SameLower(tags[..n], tags[n], nick, t); }
      } else {
        KnownSnoc(FirstUses(tags[..n], t), tags[n], nick, t);
      }
    }
  }

  /** The list kept while rendering is the case-insensitively distinct nicks of the spans, each as
      first written, in order of first use. */
  lemma {:induction false} NicksAreFirstUses(tags: seq<string>, t: Tables)
    ensures AddNicks([], tags, t) == FirstUses(tags, t)
  {
    if tags != [] {
      hide Known;
      var n := |tags| - 1;
      NicksAreFirstUses(tags[..n], t);
      SameKnown(tags[..n], tags[n], t);
    }
  }

  lemma {:induction false} AddNicksAppend(nicks: seq<string>, a: seq<string>, b: seq<string>, t: Tables)
    ensures AddNicks(nicks, a + b, t) == AddNicks(AddNicks(nicks, a, t), b, t)
  {
    hide AddNick;
    if b == [] {
      assert a + b == a;
    } else {
      var n := |b| - 1;
      AddNicksAppend(nicks, a, b[..n], t);
      assert (a + b)[..|a + b| - 1] == a + b[..n];
    }
  }

  // ---- The spans of a string of markup ------------------------------------------------------------

  function SpanHead(): string { "<" + (SPAN_CLASS + SPAN_TESTID + SPAN_TITLE) + ">" + ("@" + [ZWSP]) }

  predicate Starts(s: string, p: string) { |p| <= |s| && s[..|p|] == p }

  /** The text of every defused-tag span in `s`, found by scanning the markup itself. */
  function SpanNicks(s: string): seq<string>
    decreases |s|
  {
    if s == "" then []
    else if Starts(s, SpanHead()) && SpanHead() != "" then
      var r := s[|SpanHead()|..];
      var n := IndexOf(r, '<');
      [r[..n]] + SpanNicks(r[n..])
    else SpanNicks(s[1..])
  }

  lemma HeadOpens()
    ensures |SpanHead()| >= 2 && SpanHead()[0] == '<' && SpanHead()[1] == 's'
  {
  }

  lemma StartsAt(s: string)
    requires Starts(s, SpanHead())
    ensures |s| >= 2 && s[0] == '<' && s[1] == 's'
  {
    HeadOpens();
    hide SpanHead;
    assert s[0] == s[..|SpanHead()|][0] && s[1] == s[..|SpanHead()|][1];
  }

  lemma {:induction false} NoSpanIn(a: string, rest: string)
    requires Without(a, '<')
    ensures SpanNicks(a + rest) == SpanNicks(rest)
  {
    if a == "" {
      assert a + rest == rest;
    } else {
      var s := a + rest;
      if Starts(s, SpanHead()) { StartsAt(s); }
      hide SpanHead, Starts;
      assert s[1..] == a[1..] + rest;
      NoSpanIn(a[1..], rest);
    }
  }

  /** A tag that is not a span. */
  lemma OtherTag(inside: string, rest: string)
    requires inside != "" && inside[0] != 's' && Without(inside, '<')
    ensures SpanNicks("<" + inside + rest) == SpanNicks(rest)
  {
    var s := "<" + inside + rest;
    if Starts(s, SpanHead()) { StartsAt(s); }
    hide SpanHead, Starts;
    assert s[1..] == inside + rest;
    NoSpanIn(inside, rest);
  }

  lemma {:induction false} IndexOfFirst(a: string, c: char, rest: string)
    requires Without(a, c) && rest != "" && rest[0] == c
    ensures IndexOf(a + rest, c) == |a|
  {
    if a == "" {
      assert a + rest == rest;
    } else {
      assert (a + rest)[1..] == a[1..] + rest;
      IndexOfFirst(a[1..], c, rest);
    }
  }

  lemma SpanIsFound(nick: string, rest: string)
    requires Without(nick, '<')
    ensures SpanNicks(Span(nick) + rest) == [nick] + SpanNicks(rest)
  {
    var close := "<" + "/span" + ">";
    var s, r := Span(nick) + rest, nick + (close + rest);
    SpanHeadStarts(nick, rest);
    HeadOpens();
    assert s[..|SpanHead()|] == SpanHead() && s[|SpanHead()|..] == r;
    IndexOfFirst(nick, '<', close + rest);
    assert r[..|nick|] == nick && r[|nick|..] == close + rest;
    hide SpanHead, Starts, Span;
    assert close + rest == "<" + "/span>" + rest;
    OtherTag("/span>", rest);
  }

  lemma SpanHeadStarts(nick: string, rest: string)
    ensures Span(nick) + rest == SpanHead() + (nick + ("<" + "/span" + ">" + rest))
  {
  }

  lemma AnchorOpensOnce(url: string)
    requires NoMarkup(url)
    ensures var inside := AnchorTag(url) + ">" + url; inside[0] == 'a' && Without(inside, '<')
  {
    assert Without(A_OPEN, '<') && Without(A_TARGET, '<') && Without(A_REL, '<') && Without(">", '<') && Without(url, '<');
    hide Without;
    WithoutAppend(A_OPEN, url, '<');
    WithoutAppend(A_OPEN + url, A_TARGET, '<');
    WithoutAppend(A_OPEN + url + A_TARGET, A_REL, '<');
    WithoutAppend(AnchorTag(url), ">", '<');
    WithoutAppend(AnchorTag(url) + ">", url, '<');
  }

  lemma AnchorHasNoSpan(url: string, rest: string)
    requires NoMarkup(url)
    ensures SpanNicks(Anchor(url) + rest) == SpanNicks(rest)
  {
    hide AnchorTag, SpanNicks, NoMarkup;
    var inside := AnchorTag(url) + ">" + url;
    AnchorOpensOnce(url);
    assert Anchor(url) + rest == "<" + inside + ("<" + "/a>" + rest);
    hide Anchor;
    OtherTag(inside, "<" + "/a>" + rest);
    OtherTag("/a>", rest);
  }

  lemma PieceSpans(p: Piece, rest: string)
    requires NoMarkup(Shown(p))
    ensures SpanNicks(Render(p) + rest) == (if p.Tag? then [p.nick] else []) + SpanNicks(rest)
  {
    hide SpanNicks, Anchor, Span;
    match p {
      case Plain(s) => NoSpanIn(s, rest);
      case Link(url) => AnchorHasNoSpan(url, rest);
      case Tag(nick) =>
        assert Without(nick, '<') by {
          forall i | 0 <= i < |nick| ensures nick[i] == ("@" + [ZWSP] + nick)[2 + i] {}
        }
        SpanIsFound(nick, rest);
    }
  }

  /** Reading the spans back out of the markup gives exactly the nicks that were tagged. */
  lemma {:induction false} SpansAreTheTags(ps: seq<Piece>)
    requires NoMarkup(ShownAll(ps))
    ensures SpanNicks(RenderAll(ps)) == TagNicks(ps)
  {
    if ps != [] {
      hide Render, Shown, SpanNicks;
      var a, b := Shown(ps[0]), ShownAll(ps[1..]);
      assert NoMarkup(a) by { forall i | 0 <= i < |a| ensures a[i] == (a + b)[i] {} }
      assert NoMarkup(b) by { forall i | 0 <= i < |b| ensures b[i] == (a + b)[|a| + i] {} }
      SpansAreTheTags(ps[1..]);
      PieceSpans(ps[0], RenderAll(ps[1..]));
    } else {
      NoSpanIn("", "");
    }
  }

  /** The noted nicks are the case-insensitively distinct nicks of the spans in the markup. */
  lemma NotedNicksAreSpanNicks(text: string, agents: seq<string>, t: Tables)
    ensures var line := ChatLine(text, agents, t);
            AddNicks([], TagNicks(line), t) == FirstUses(SpanNicks(RenderAll(line)), t)
  {
    hide Pieces, RenderAll, ShownAll, TagNicks, SpanNicks, Escape, ByLength, NoMarkup, AddNicks, FirstUses;
    EscapedIsPlain(text);
    PiecesShowAll(Escape(text), ByLength(agents), t);
    SpansAreTheTags(ChatLine(text, agents, t));
    NicksAreFirstUses(TagNicks(ChatLine(text, agents, t)), t);
  }
}
