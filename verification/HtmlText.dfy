/** `markupsafe.escape`, and what a browser shows of a string of text and tags. */
module HtmlText {
  import opened Text

  function EscapeChar(c: char): string {
    match c
    case '&' => "&amp;"
    case '<' => "&lt;"
    case '>' => "&gt;"
    case '\'' => "&#39;"
    case '"' => "&#34;"
    case _ => [c]
  }

  function Escape(text: string): string {
    if text == "" then "" else EscapeChar(text[0]) + Escape(text[1..])
  }

  /** The entity at the start of `s`: its character and its length. */
  function Entity(s: string): (r: Option<(char, nat)>)
    ensures r.Some? ==> 0 < r.value.1 <= |s|
  {
    if |s| < 4 || s[0] != '&' then None
    else if s[1] == 'l' && s[2] == 't' && s[3] == ';' then Some(('<', 4))
    else if s[1] == 'g' && s[2] == 't' && s[3] == ';' then Some(('>', 4))
    else if |s| < 5 || s[4] != ';' then None
    else if s[1] == 'a' && s[2] == 'm' && s[3] == 'p' then Some(('&', 5))
    else if s[1] == '#' && s[2] == '3' && s[3] == '9' then Some(('\'', 5))
    else if s[1] == '#' && s[2] == '3' && s[3] == '4' then Some(('"', 5))
    else None
  }

  /** What a browser shows for the entities `escape` writes. */
  function Unescape(s: string): string
    decreases |s|
  {
    if s == "" then ""
    else
      match Entity(s)
      case Some((c, n)) => [c] + Unescape(s[n..])
      case None => [s[0]] + Unescape(s[1..])
  }

  predicate NoMarkup(s: string) {
    forall i | 0 <= i < |s| :: s[i] != '<' && s[i] != '>' && s[i] != '"' && s[i] != '\''
  }

  /** Escaped text can open neither a tag nor an attribute. */
  lemma {:induction false} EscapedIsPlain(text: string)
    ensures NoMarkup(Escape(text))
  {
    if text != "" {
      EscapedIsPlain(text[1..]);
    }
  }

  lemma EntityOfEscaped(c: char, rest: string)
    ensures Entity(EscapeChar(c) + rest) == if c in "&<>'\"" then Some((c, |EscapeChar(c)|)) else None
  {
  }

  lemma UnescapeChar(c: char, rest: string)
    ensures Unescape(EscapeChar(c) + rest) == [c] + Unescape(rest)
  {
    EntityOfEscaped(c, rest);
    hide Entity;
    var s := EscapeChar(c) + rest;
    assert s[|EscapeChar(c)|..] == rest;
    assert s[0] == EscapeChar(c)[0];
  }

  lemma {:induction false} UnescapeInvertsEscape(text: string)
    ensures Unescape(Escape(text)) == text
  {
    if text != "" {
      hide Unescape, EscapeChar;
      UnescapeInvertsEscape(text[1..]);
      UnescapeChar(text[0], Escape(text[1..]));
    } else {
      assert Unescape("") == "";
    }
  }

  // ---- Tags ------------------------------------------------------------------------------------

  /** `<...>` removed. */
  function StripTags(s: string): string
    decreases |s|
  {
    if s == "" then ""
    else if s[0] == '<' then
      var k := IndexOf(s, '>');
      if k == |s| then "" else StripTags(s[k + 1..])
    else [s[0]] + StripTags(s[1..])
  }

  predicate Without(s: string, c: char) { forall i | 0 <= i < |s| :: s[i] != c }

  lemma {:induction false} StripPlain(a: string, rest: string)
    requires Without(a, '<')
    ensures StripTags(a + rest) == a + StripTags(rest)
  {
    if a == "" {
      assert a + rest == rest;
    } else {
      assert (a + rest)[1..] == a[1..] + rest;
      StripPlain(a[1..], rest);
    }
  }

  lemma {:induction false} IndexInside(a: string, c: char, rest: string)
    requires Without(a, c)
    ensures IndexOf(a + [c] + rest, c) == |a|
  {
    if a != "" {
      assert (a + [c] + rest)[1..] == a[1..] + [c] + rest;
      IndexInside(a[1..], c, rest);
    }
  }

  lemma StripOneTag(inside: string, rest: string)
    requires Without(inside, '>')
    ensures StripTags("<" + inside + ">" + rest) == StripTags(rest)
  {
    var s := "<" + inside + ">" + rest;
    IndexInside("<" + inside, '>', rest);
    assert s[|inside| + 2..] == rest;
  }

  /** An element around plain text shows the text. */
  lemma StripElement(open: string, shown: string, close: string, rest: string)
    requires Without(open, '>') && Without(shown, '<') && Without(close, '>')
    ensures StripTags("<" + open + ">" + shown + ("<" + close + ">") + rest) == shown + StripTags(rest)
  {
    hide StripTags, Without;
    var tail := shown + ("<" + close + ">" + rest);
    assert "<" + open + ">" + shown + ("<" + close + ">") + rest == "<" + open + ">" + tail;
    StripOneTag(open, tail);
    StripPlain(shown, "<" + close + ">" + rest);
    StripOneTag(close, rest);
  }
}
