/** `web/media.py`: `render_chat_text` as it runs, one pass for markup and nicks. */
module ChatRender {
  import opened Text
  import opened HtmlText
  import opened ChatPieces
  import opened ChatNicks

  method EscapeText(text: string) returns (escaped: string)
    ensures escaped == Escape(text)
  {
    hide EscapeChar;
    escaped := "";
    var i := |text|;
    while i > 0
      invariant 0 <= i <= |text| && escaped == Escape(text[i..])
    {
      i := i - 1;
      assert text[i..][1..] == text[i + 1..];
      escaped := EscapeChar(text[i]) + escaped;
    }
    assert text[0..] == text;
  }

  /** `done` of the pieces `all` are rendered and noted; `rest` are to come. */
  ghost predicate Midway(all: seq<Piece>, done: seq<Piece>, rest: seq<Piece>, markup: string,
                         known: seq<string>, nicks: seq<string>, t: Tables) {
    all == done + rest && markup == RenderAll(done) && nicks == AddNicks(known, TagNicks(done), t)
  }

  lemma MidwayStart(all: seq<Piece>, known: seq<string>, t: Tables)
    ensures Midway(all, [], all, "", known, known, t)
  {
    assert [] + all == all;
  }

  lemma MidwayStep(all: seq<Piece>, done: seq<Piece>, more: seq<Piece>, rest: seq<Piece>, markup: string,
                   known: seq<string>, nicks: seq<string>, t: Tables)
    requires Midway(all, done, more + rest, markup, known, nicks, t)
    ensures Midway(all, done + more, rest, markup + RenderAll(more), known, AddNicks(nicks, TagNicks(more), t), t)
  {
    hide RenderAll, TagNicks, AddNicks;
    Assoc(done, more, rest);
    RenderAppend(done, more);
    NicksAppend(done, more);
    AddNicksAppend(known, TagNicks(done), TagNicks(more), t);
  }

  lemma MidwayEnd(all: seq<Piece>, done: seq<Piece>, markup: string, known: seq<string>, nicks: seq<string>, t: Tables)
    requires Midway(all, done, [], markup, known, nicks, t)
    ensures markup == RenderAll(all) && nicks == AddNicks(known, TagNicks(all), t)
  {
    assert all == done;
  }

  lemma AddOne(nicks: seq<string>, p: Piece, t: Tables)
    ensures AddNicks(nicks, TagNicks([p]), t) == if p.Tag? then AddNick(nicks, p.nick, t) else nicks
  {
    hide AddNick, Render, Shown;
    OnePiece(p);
    if p.Tag? {
      assert [p.nick][..0] == [];
    }
  }

  /** `mark`: one pass over a segment, wrapping tags and noting new nicks. */
  method Mark(segment: string, names: seq<string>, t: Tables, known: seq<string>)
    returns (marked: string, nicks: seq<string>)
    ensures marked == RenderAll(MarkPieces(segment, names, t))
    ensures nicks == AddNicks(known, TagNicks(MarkPieces(segment, names, t)), t)
  {
    hide Render, RenderAll, TagNicks, AddNick, AddNicks, Known, Midway, Escape, FirstName, Shown;
    marked, nicks := "", known;
    var rest := segment;
    ghost var all, done: seq<Piece> := MarkPieces(segment, names, t), [];
    MidwayStart(all, known, t);
    while rest != ""
      invariant Midway(all, done, MarkPieces(rest, names, t), marked, known, nicks, t)
      decreases |rest|
    {
      var n := TagLen(rest, names, t);
      var p, next := Plain(rest[..1]), 1;
      if n > 0 {
        p, next := Tag(rest[2..n]), n;
      }
      MidwayStep(all, done, [p], MarkPieces(rest[next..], names, t), marked, known, nicks, t);
      OnePiece(p);
      AddOne(nicks, p, t);
      done := done + [p];
      marked := marked + Render(p);
      if p.Tag? {
        nicks := AddNick(nicks, p.nick, t);
      }
      rest := rest[next..];
    }
    MidwayEnd(all, done, marked, known, nicks, t);
  }

  lemma NextUrl(rest: string, names: seq<string>, t: Tables)
    requires FindUrl(rest) < |rest|
    ensures var u := FindUrl(rest);
            var r := rest[u..];
            && UrlHere(r)
            && Pieces(rest, names, t)
               == MarkPieces(rest[..u], names, t) + ([Link(r[..UrlEnd(r)])] + Pieces(r[UrlEnd(r)..], names, t))
  {
  }

  lemma NoUrl(rest: string, names: seq<string>, t: Tables)
    requires FindUrl(rest) == |rest|
    ensures Pieces(rest, names, t) == MarkPieces(rest, names, t)
  {
  }

  /** `render_chat_text`: the segment before each URL is marked, then the URL becomes a link. */
  method RenderPieces(text: string, agents: seq<string>, t: Tables) returns (markup: string, nicks: seq<string>)
    ensures markup == RenderAll(ChatLine(text, agents, t))
    ensures nicks == AddNicks([], TagNicks(ChatLine(text, agents, t)), t)
  {
    hide Render, RenderAll, TagNicks, AddNick, AddNicks, Known, Midway, Escape, MarkPieces, Pieces, Anchor, UrlHere, UrlEnd;
    var rest := EscapeText(text);
    var names := ByLength(agents);
    markup, nicks := "", [];
    ghost var all, done: seq<Piece> := ChatLine(text, agents, t), [];
    MidwayStart(all, [], t);
    var u := FindUrl(rest);
    while u < |rest|
      invariant u == FindUrl(rest)
      invariant Midway(all, done, Pieces(rest, names, t), markup, [], nicks, t)
      decreases |rest|
    {
      var r := rest[u..];
      var url := r[..UrlEnd(r)];
      NextUrl(rest, names, t);
      var marked, nicks' := Mark(rest[..u], names, t, nicks);
      ghost var marks := MarkPieces(rest[..u], names, t);
      ghost var later := Pieces(r[UrlEnd(r)..], names, t);
      MidwayStep(all, done, marks, [Link(url)] + later, markup, [], nicks, t);
      MidwayStep(all, done + marks, [Link(url)], later, markup + marked, [], nicks', t);
      LinkShows(url);
      AddOne(nicks', Link(url), t);
      markup := markup + marked + Anchor(url);
      nicks := nicks';
      done := done + marks + [Link(url)];
      rest := r[UrlEnd(r)..];
      u := FindUrl(rest);
    }
    NoUrl(rest, names, t);
    var marked, nicks' := Mark(rest, names, t, nicks);
    ghost var marks := MarkPieces(rest, names, t);
    assert marks + [] == marks;
    MidwayStep(all, done, marks, [], markup, [], nicks, t);
    markup, nicks := markup + marked, nicks';
    MidwayEnd(all, done + marks, markup, [], nicks, t);
  }

  /** What a caller of `render_chat_text` relies on: the markup shows exactly the message, the
      nicks are the distinct ones of its spans, and without agents it is the plain rendering. */
  method RenderChatText(text: string, agents: seq<string>, t: Tables) returns (markup: string, nicks: seq<string>)
    ensures Unescape(StripTags(markup)) == text
    ensures nicks == FirstUses(SpanNicks(markup), t)
    ensures agents == [] ==> markup == RenderMessageHtml(text) && nicks == []
  {
    hide RenderAll, TagNicks, Pieces, StripTags, Unescape, Linkify, Escape, SpanNicks, FirstUses;
    markup, nicks := RenderPieces(text, agents, t);
    RenderingKeepsTheText(text, agents, t);
    NotedNicksAreSpanNicks(text, agents, t);
    if agents == [] {
      NoAgentsIsMessageHtml(text, t);
    }
  }
}
