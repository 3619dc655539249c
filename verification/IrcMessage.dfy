/** `irc/message.py`: one IRC line, RFC 2812 section 2.3.1 with IRCv3 message tags. */
module IrcMessage {
  import opened Text

  datatype Tag = Tag(key: string, value: string)

  /** `tags` is in insertion order, and its keys are distinct. */
  datatype Message = Message(prefix: Option<string>, command: string, params: seq<string>, tags: seq<Tag>)

  // ---- Tag values --------------------------------------------------------------

  /** The second character of the escape of `c`, for the five characters that have one. */
  function EscapeCode(c: char): Option<char> {
    if c == ';' then Some(':')
    else if c == ' ' then Some('s')
    else if c == '\\' then Some('\\')
    else if c == '\r' then Some('r')
    else if c == '\n' then Some('n')
    else None
  }

  /** What backslash followed by `c` stands for; an unknown escape drops the backslash. */
  function UnescapeCode(c: char): char {
    if c == ':' then ';'
    else if c == 's' then ' '
    else if c == 'r' then '\r'
    else if c == 'n' then '\n'
    else c
  }

  function EscapeChar(c: char): string {
    match EscapeCode(c)
    case Some(e) => ['\\', e]
    case None => [c]
  }

  function Escape(v: string): string {
    if v == "" then "" else EscapeChar(v[0]) + Escape(v[1..])
  }

  function Unescape(w: string): string {
    if w == "" then ""
    else if w[0] == '\\' && |w| > 1 then [UnescapeCode(w[1])] + Unescape(w[2..])
    else [w[0]] + Unescape(w[1..])
  }

  method EscapeTagValue(value: string) returns (out: string)
    ensures out == Escape(value)
  {
    out := "";
    for i := 0 to |value|
      invariant out + Escape(value[i..]) == Escape(value)
    {
      assert value[i..][1..] == value[i + 1..];
      out := out + EscapeChar(value[i]);
    }
  }

  lemma UnescapeStep(value: string, i: nat)
    requires i < |value|
    ensures var w := value[i..];
            if value[i] == '\\' && i + 1 < |value| then
              Unescape(w) == [UnescapeCode(value[i + 1])] + Unescape(value[i + 2..])
            else Unescape(w) == [value[i]] + Unescape(value[i + 1..])
  {
    hide UnescapeCode;
    var w := value[i..];
    assert w[1..] == value[i + 1..];
    if i + 1 < |value| {
      assert w[2..] == value[i + 2..];
    }
  }

  method UnescapeTagValue(value: string) returns (out: string)
    ensures out == Unescape(value)
  {
    hide UnescapeCode, Unescape;
    out := "";
    assert value[0..] == value;
    var i := 0;
    while i < |value|
      invariant 0 <= i <= |value|
      invariant out + Unescape(value[i..]) == Unescape(value)
    {
      UnescapeStep(value, i);
      if value[i] == '\\' && i + 1 < |value| {
        out := out + [UnescapeCode(value[i + 1])];
        i := i + 2;
      } else {
        out := out + [value[i]];
        i := i + 1;
      }
    }
    UnescapeNothing(value[i..]);
  }

  lemma UnescapeNothing(w: string)
    requires w == ""
    ensures Unescape(w) == ""
  {
  }

  /** Every tag value survives, and its wire form holds nothing that ends a tag or a line. */
  lemma {:induction false} TagValueRoundTrip(v: string)
    ensures Unescape(Escape(v)) == v
    ensures forall c | c in Escape(v) :: c !in {';', ' ', '\r', '\n'}
    ensures Escape(v) == "" <==> v == ""
  {
    if v != "" {
      TagValueRoundTrip(v[1..]);
      var e := EscapeChar(v[0]);
      assert Escape(v) == e + Escape(v[1..]);
      assert (e + Escape(v[1..]))[|e|..] == Escape(v[1..]);
    }
  }

  // ---- Python string operations -------------------------------------------------

  predicate EndsLine(c: char) { c == '\r' || c == '\n' }

  /** `line.rstrip("\r\n")` */
  function RStrip(s: string): string {
    if s != "" && EndsLine(s[|s| - 1]) then RStrip(s[..|s| - 1]) else s
  }

  /** `s.split(c)` */
  function Split(s: string, c: char): seq<string> {
    var k := IndexOf(s, c);
    if k == |s| then [s] else [s[..k]] + Split(s[k + 1..], c)
  }

  /** Where `" :"` first occurs, or `|s|`. */
  function FindTrailing(s: string): (k: nat)
    ensures k == |s| || (k + 2 <= |s| && s[k] == ' ' && s[k + 1] == ':')
  {
    if |s| < 2 then |s|
    else if s[0] == ' ' && s[1] == ':' then 0
    else 1 + FindTrailing(s[1..])
  }

  /** `s.split()`, given the characters of the word being read. */
  function Words(open: string, s: string): seq<string>
    decreases |s|
  {
    var done := if open == "" then [] else [open];
    if s == "" then done
    else if IsSpace(s[0]) then done + Words("", s[1..])
    else Words(open + [s[0]], s[1..])
  }

  // ---- Parsing --------------------------------------------------------------------

  /** `tags[key] = value` on an insertion-ordered dict. */
  function PutTag(tags: seq<Tag>, t: Tag): seq<Tag> {
    if tags == [] then [t]
    else if tags[0].key == t.key then [t] + tags[1..]
    else [tags[0]] + PutTag(tags[1..], t)
  }

  function ParsePiece(piece: string): Tag {
    var k := IndexOf(piece, '=');
    if k == |piece| then Tag(piece, "") else Tag(piece[..k], Unescape(piece[k + 1..]))
  }

  function ParsePieces(tags: seq<Tag>, pieces: seq<string>): seq<Tag>
    decreases |pieces|
  {
    if pieces == [] then tags
    else ParsePieces(if pieces[0] == "" then tags else PutTag(tags, ParsePiece(pieces[0])), pieces[1..])
  }

  function ParseTagBlock(line: string): (seq<Tag>, string) {
    if line == "" || line[0] != '@' then ([], line)
    else
      var k := IndexOf(line, ' ');
      if k == |line| then ([], "")
      else (ParsePieces([], Split(line[1..k], ';')), line[k + 1..])
  }

  function ParseBody(tags: seq<Tag>, prefix: Option<string>, line: string): Message {
    var k := FindTrailing(line);
    var parts := Words("", line[..k]);
    if parts == [] then Message(prefix, "", [], tags)
    else
      var trailing := if k < |line| then [line[k + 2..]] else [];
      Message(prefix, Upper(parts[0]), parts[1..] + trailing, tags)
  }

  function ParsePrefixed(tags: seq<Tag>, line: string): Message {
    if line == "" then Message(None, "", [], tags)
    else if line[0] == ':' then
      var k := IndexOf(line, ' ');
      if k == |line| then Message(None, "", [], tags)
      else ParseBody(tags, Some(line[1..k]), line[k + 1..])
    else ParseBody(tags, None, line)
  }

  function Parse(line: string): Message {
    var (tags, rest) := ParseTagBlock(RStrip(line));
    ParsePrefixed(tags, rest)
  }

  // ---- Formatting -------------------------------------------------------------------

  function TagPiece(t: Tag): string {
    if t.value == "" then t.key else t.key + "=" + Escape(t.value)
  }

  function TagBlob(tags: seq<Tag>): string {
    if tags == [] then ""
    else if |tags| == 1 then TagPiece(tags[0])
    else TagPiece(tags[0]) + ";" + TagBlob(tags[1..])
  }

  predicate NeedsColon(last: string) {
    ' ' in last || last == "" || last[0] == ':'
  }

  function MidPart(mids: seq<string>): string {
    if mids == [] then "" else " " + mids[0] + MidPart(mids[1..])
  }

  function LastPart(last: string, colon: bool): string {
    (if colon then " :" else " ") + last
  }

  function Body(command: string, params: seq<string>): string {
    if params == [] then command
    else
      var n := |params| - 1;
      command + MidPart(params[..n]) + LastPart(params[n], NeedsColon(params[n]))
  }

  function PrefixPart(prefix: Option<string>): string {
    if prefix == None || prefix.value == "" then "" else ":" + prefix.value + " "
  }

  function Head(m: Message): string {
    (if m.tags == [] then "" else "@" + TagBlob(m.tags) + " ") + PrefixPart(m.prefix)
  }

  function Format(m: Message): string {
    Head(m) + Body(m.command, m.params) + "\r\n"
  }

  /** `" ".join(parts)` */
  function Join(parts: seq<string>): string {
    if parts == [] then "" else parts[0] + MidPart(parts[1..])
  }

  // ---- Well-formed messages -----------------------------------------------------------

  predicate KeyOk(t: Tag) {
    ';' !in t.key && '=' !in t.key && ' ' !in t.key && !(t.key == "" && t.value == "")
  }

  predicate TagsOk(tags: seq<Tag>) {
    && (forall i | 0 <= i < |tags| :: KeyOk(tags[i]))
    && (forall i, j | 0 <= i < j < |tags| :: tags[i].key != tags[j].key)
  }

  predicate WordOk(w: string) { w != "" && SpaceFree(w) }

  /** Everything but the last parameter is representable on the wire. */
  predicate HeadOk(m: Message) {
    && TagsOk(m.tags)
    && (m.prefix.Some? ==> m.prefix.value != "" && ' ' !in m.prefix.value)
    && WordOk(m.command) && Upper(m.command) == m.command
    && (m.prefix == None ==> m.command[0] != ':')
    && (m.prefix == None && m.tags == [] ==> m.command[0] != '@')
    && (forall i | 0 <= i < |m.params| - 1 :: WordOk(m.params[i]) && m.params[i][0] != ':')
  }

  /** The last parameter survives: it ends in no CR or LF and, unless it is written with
      a colon, holds no white space (a tab without a space would split it). */
  predicate LastOk(last: string) {
    && (last == "" || !EndsLine(last[|last| - 1]))
    && (NeedsColon(last) || SpaceFree(last))
  }

  // ---- Lemmas: string operations -------------------------------------------------------

  lemma {:induction false} RStripEnd(a: string, b: string)
    requires a != "" && !EndsLine(a[|a| - 1])
    ensures RStrip(a + b) == a + RStrip(b)
    decreases |b|
  {
    if b == "" {
      assert a + b == a;
    } else if EndsLine(b[|b| - 1]) {
      assert (a + b)[..|a + b| - 1] == a + b[..|b| - 1];
      RStripEnd(a, b[..|b| - 1]);
    }
  }

  lemma {:induction false} RStripShorter(s: string)
    ensures |RStrip(s)| <= |s|
    ensures RStrip(s) == s[..|RStrip(s)|]
    ensures RStrip(s) == s <==> s == "" || !EndsLine(s[|s| - 1])
  {
    if s != "" && EndsLine(s[|s| - 1]) {
      RStripShorter(s[..|s| - 1]);
    }
  }

  lemma IndexOfAfter(p: string, s: string, c: char)
    requires c !in p
    ensures IndexOf(p + s, c) == |p| + IndexOf(s, c)
  {
    var t, k, j := p + s, IndexOf(p + s, c), IndexOf(s, c);
    assert forall i | 0 <= i < |p| :: t[i] == p[i] && p[i] in p;
    assert forall i | 0 <= i < |s| :: t[|p| + i] == s[i];
    if |p| <= k < |t| { assert s[k - |p|] == c; }
    if j < |s| { assert t[|p| + j] == c; }
  }

  lemma IndexOfAt(p: string, s: string, c: char)
    requires c !in p
    ensures IndexOf(p + [c] + s, c) == |p|
  {
    assert p + [c] + s == p + ([c] + s);
    IndexOfAfter(p, [c] + s, c);
  }

  lemma SplitAt(p: string, s: string, c: char)
    requires c !in p
    ensures Split(p + [c] + s, c) == [p] + Split(s, c)
    ensures Split(p, c) == [p]
  {
    IndexOfAt(p, s, c);
    var t := p + [c] + s;
    assert t[..|p|] == p && t[|p| + 1..] == s;
    IndexOfAfter(p, "", c);
    assert p + "" == p;
  }

  lemma {:induction false} FindTrailingAfter(w: string, s: string)
    requires ' ' !in w
    ensures FindTrailing(w + s) == |w| + FindTrailing(s)
    decreases |w|
  {
    if w == "" {
      assert w + s == s;
    } else {
      assert (w + s)[1..] == w[1..] + s;
      assert w[0] in w;
      FindTrailingAfter(w[1..], s);
      if |w + s| < 2 {
        assert s == "";
      }
    }
  }

  lemma {:induction false} FindTrailingAfterMids(mids: seq<string>, s: string)
    requires forall i | 0 <= i < |mids| :: WordOk(mids[i]) && mids[i][0] != ':'
    ensures FindTrailing(MidPart(mids) + s) == |MidPart(mids)| + FindTrailing(s)
    decreases |mids|
  {
    if mids == [] {
      assert MidPart(mids) + s == s;
    } else {
      var w, rest := mids[0], MidPart(mids[1..]) + s;
      FindTrailingAfterMids(mids[1..], s);
      SpaceFreeHasNoBlank(w);
      FindTrailingAfter(w, rest);
      assert MidPart(mids) + s == " " + (w + rest);
      assert (" " + (w + rest))[1..] == w + rest;
      assert (w + rest)[0] == w[0];
    }
  }

  lemma SpaceFreeHasNoBlank(w: string)
    requires SpaceFree(w)
    ensures ' ' !in w
  {
    forall i | 0 <= i < |w|
      ensures w[i] != ' '
    {
      assert !IsSpace(w[i]);
    }
  }

  lemma {:induction false} WordsOpen(open: string, w: string, s: string)
    requires SpaceFree(w)
    ensures Words(open, w + s) == Words(open + w, s)
    decreases |w|
  {
    if w == "" {
      assert w + s == s && open + w == open;
    } else {
      assert !IsSpace(w[0]);
      assert (w + s)[1..] == w[1..] + s;
      assert SpaceFree(w[1..]) by { assert forall i | 0 <= i < |w| - 1 :: w[1..][i] == w[i + 1]; }
      WordsOpen(open + [w[0]], w[1..], s);
      assert open + [w[0]] + w[1..] == open + w;
    }
  }

  lemma {:induction false} WordsOfMids(open: string, mids: seq<string>)
    requires open != ""
    requires forall i | 0 <= i < |mids| :: WordOk(mids[i])
    ensures Words(open, MidPart(mids)) == [open] + mids
    decreases |mids|
  {
    if mids == [] {
      assert [open] + mids == [open];
    } else {
      var rest := mids[0] + MidPart(mids[1..]);
      assert MidPart(mids) == " " + rest;
      assert (" " + rest)[1..] == rest;
      WordsOpen("", mids[0], MidPart(mids[1..]));
      assert "" + mids[0] == mids[0];
      WordsOfMids(mids[0], mids[1..]);
      assert [mids[0]] + mids[1..] == mids;
    }
  }

  lemma WordsBreak(open: string, s: string)
    requires open != ""
    ensures Words(open, " " + s) == [open] + Words("", s)
  {
    assert (" " + s)[1..] == s;
  }

  lemma {:induction false} WordsOfMidsThen(open: string, mids: seq<string>, s: string)
    requires open != ""
    requires forall i | 0 <= i < |mids| :: WordOk(mids[i])
    ensures Words(open, MidPart(mids) + (" " + s)) == [open] + mids + Words("", s)
    decreases |mids|
  {
    hide Words, SpaceFree;
    var end := " " + s;
    if mids == [] {
      assert MidPart(mids) + end == end;
      WordsBreak(open, s);
    } else {
      var w, m := mids[0], MidPart(mids[1..]);
      Assoc(" " + w, m, end);
      Assoc(" ", w, m + end);
      hide MidPart;
      WordsBreak(open, w + (m + end));
      WordsOpen("", w, m + end);
      assert "" + w == w;
      WordsOfMidsThen(w, mids[1..], s);
      assert [w] + mids[1..] == mids;
      Assoc([open], mids, Words("", s));
    }
  }

  lemma {:induction false} WordsAreSpaceFree(open: string, s: string)
    requires SpaceFree(open)
    ensures forall i | 0 <= i < |Words(open, s)| :: SpaceFree(Words(open, s)[i])
    decreases |s|
  {
    if s != "" {
      WordsAreSpaceFree(if IsSpace(s[0]) then "" else open + [s[0]], s[1..]);
    }
  }

  // ---- Lemmas: the tag block ------------------------------------------------------------

  lemma PieceRoundTrip(t: Tag)
    requires KeyOk(t)
    ensures TagPiece(t) != "" && ParsePiece(TagPiece(t)) == t
    ensures ';' !in TagPiece(t) && ' ' !in TagPiece(t)
  {
    var p := TagPiece(t);
    if t.value == "" {
      IndexOfAfter(t.key, "", '=');
      assert t.key + "" == t.key;
    } else {
      TagValueRoundTrip(t.value);
      IndexOfAt(t.key, Escape(t.value), '=');
      assert p[..|t.key|] == t.key && p[|t.key| + 1..] == Escape(t.value);
    }
  }

  function Pieces(tags: seq<Tag>): seq<string> {
    if tags == [] then [] else [TagPiece(tags[0])] + Pieces(tags[1..])
  }

  lemma {:induction false} BlobSplits(tags: seq<Tag>)
    requires tags != [] && forall i | 0 <= i < |tags| :: KeyOk(tags[i])
    ensures Split(TagBlob(tags), ';') == Pieces(tags)
    ensures ' ' !in TagBlob(tags)
  {
    PieceRoundTrip(tags[0]);
    var p := TagPiece(tags[0]);
    if |tags| == 1 {
      SplitAt(p, "", ';');
    } else {
      BlobSplits(tags[1..]);
      SplitAt(p, TagBlob(tags[1..]), ';');
    }
  }

  lemma {:induction false} PutNewTag(tags: seq<Tag>, t: Tag)
    requires forall i | 0 <= i < |tags| :: tags[i].key != t.key
    ensures PutTag(tags, t) == tags + [t]
  {
    if tags != [] {
      PutNewTag(tags[1..], t);
    }
  }

  lemma NextIsNew(done: seq<Tag>, tags: seq<Tag>)
    requires TagsOk(done + tags) && tags != []
    ensures KeyOk(tags[0]) && forall i | 0 <= i < |done| :: done[i].key != tags[0].key
  {
    hide KeyOk;
    var all := done + tags;
    assert all[|done|] == tags[0];
    forall i | 0 <= i < |done|
      ensures done[i].key != tags[0].key
    {
      assert all[i] == done[i];
    }
  }

  lemma {:induction false} PiecesParse(done: seq<Tag>, tags: seq<Tag>)
    requires TagsOk(done + tags)
    ensures ParsePieces(done, Pieces(tags)) == done + tags
    decreases |tags|
  {
    if tags == [] {
      assert done + tags == done;
    } else {
      hide KeyOk, TagPiece, ParsePiece, PutTag;
      NextIsNew(done, tags);
      hide TagsOk;
      PieceRoundTrip(tags[0]);
      PutNewTag(done, tags[0]);
      assert done + [tags[0]] + tags[1..] == done + tags;
      PiecesParse(done + [tags[0]], tags[1..]);
      assert Pieces(tags)[1..] == Pieces(tags[1..]);
    }
  }

  lemma BlockCut(blob: string, rest: string)
    ensures var line := "@" + blob + " " + rest;
            && |line| == 2 + |blob| + |rest| && line[0] == '@'
            && line[1..1 + |blob|] == blob && line[2 + |blob|..] == rest
  {
    var line := "@" + blob + " " + rest;
    forall i | 0 <= i < |rest| ensures line[2 + |blob| + i] == rest[i] {}
    forall i | 0 <= i < |blob| ensures line[1 + i] == blob[i] {}
  }

  lemma TagBlockParses(tags: seq<Tag>, rest: string)
    requires tags != [] && TagsOk(tags)
    ensures ParseTagBlock("@" + TagBlob(tags) + " " + rest) == (tags, rest)
  {
    hide TagBlob, Split, ParsePieces, Pieces, KeyOk;
    var blob := TagBlob(tags);
    BlobSplits(tags);
    assert [] + tags == tags;
    PiecesParse([], tags);
    IndexOfAt("@" + blob, rest, ' ');
    BlockCut(blob, rest);
  }

  // ---- Lemmas: the whole line -------------------------------------------------------------

  lemma Assoc<T>(a: seq<T>, b: seq<T>, c: seq<T>)
    ensures a + b + c == a + (b + c)
  {
  }

  lemma PrefixParses(m: Message, rest: string)
    requires HeadOk(m) && rest != "" && rest[0] == m.command[0]
    ensures ParsePrefixed(m.tags, PrefixPart(m.prefix) + rest) == ParseBody(m.tags, m.prefix, rest)
  {
    if m.prefix.Some? {
      var p := ":" + m.prefix.value;
      IndexOfAt(p, rest, ' ');
      var line := p + [' '] + rest;
      assert line[1..|p|] == m.prefix.value && line[|p| + 1..] == rest;
    } else {
      assert "" + rest == rest;
    }
  }

  /** Head and body separate again, whatever follows the head. */
  lemma HeadParses(m: Message, rest: string)
    requires HeadOk(m) && rest != "" && rest[0] == m.command[0]
    ensures var (tags, tail) := ParseTagBlock(Head(m) + rest);
            ParsePrefixed(tags, tail) == ParseBody(m.tags, m.prefix, rest)
  {
    var tail := PrefixPart(m.prefix) + rest;
    PrefixParses(m, rest);
    if m.tags == [] {
      assert Head(m) == PrefixPart(m.prefix);
    } else {
      var block := "@" + TagBlob(m.tags) + " ";
      Assoc(block, PrefixPart(m.prefix), rest);
      TagBlockParses(m.tags, tail);
    }
  }

  /** A body whose last parameter is written with a colon. */
  lemma ColonBodyParses(tags: seq<Tag>, prefix: Option<string>, command: string, mids: seq<string>, last: string)
    requires WordOk(command) && Upper(command) == command
    requires forall i | 0 <= i < |mids| :: WordOk(mids[i]) && mids[i][0] != ':'
    ensures ParseBody(tags, prefix, command + MidPart(mids) + LastPart(last, true))
         == Message(prefix, command, mids + [last], tags)
  {
    hide ParseBody, MidPart, Words, Upper, WordOk, FindTrailing, LastPart;
    BodyTrailingAt(command, mids, LastPart(last, true));
    ColonIsFound(last);
    CommandWords(command, mids);
    ColonSplitsBody(tags, prefix, command + MidPart(mids), command, mids, last);
  }

  lemma ColonSplitsBody(tags: seq<Tag>, prefix: Option<string>, before: string, command: string, mids: seq<string>,
                        last: string)
    requires FindTrailing(before + LastPart(last, true)) == |before| && Words("", before) == [command] + mids
    ensures ParseBody(tags, prefix, before + LastPart(last, true))
         == Message(prefix, Upper(command), mids + [last], tags)
  {
    hide Words, FindTrailing, Upper;
    ColonCut(before, last);
    hide LastPart;
    assert ([command] + mids)[1..] == mids && ([command] + mids)[0] == command;
  }

  lemma ColonCut(before: string, last: string)
    ensures var line := before + LastPart(last, true);
            && |line| == |before| + 2 + |last| && line[..|before|] == before && line[|before| + 2..] == last
  {
    var line := before + LastPart(last, true);
    forall i | 0 <= i < |last| ensures line[|before| + 2 + i] == last[i] {}
  }

  lemma ColonIsFound(last: string)
    ensures FindTrailing(LastPart(last, true)) == 0
  {
    assert LastPart(last, true)[0] == ' ' && LastPart(last, true)[1] == ':';
  }

  lemma BodyTrailingAt(command: string, mids: seq<string>, tail: string)
    requires WordOk(command)
    requires forall i | 0 <= i < |mids| :: WordOk(mids[i]) && mids[i][0] != ':'
    ensures FindTrailing(command + MidPart(mids) + tail) == |command + MidPart(mids)| + FindTrailing(tail)
  {
    SpaceFreeHasNoBlank(command);
    FindTrailingAfterMids(mids, tail);
    FindTrailingAfter(command, MidPart(mids) + tail);
    Assoc(command, MidPart(mids), tail);
  }

  lemma CommandWords(command: string, mids: seq<string>)
    requires WordOk(command)
    requires forall i | 0 <= i < |mids| :: WordOk(mids[i])
    ensures Words("", command + MidPart(mids)) == [command] + mids
  {
    WordsOpen("", command, MidPart(mids));
    assert "" + command == command;
    WordsOfMids(command, mids);
  }

  /** A body without a colon never yields a parameter that holds white space. */
  lemma PlainBodyParses(tags: seq<Tag>, prefix: Option<string>, command: string, mids: seq<string>, tail: string)
    requires WordOk(command)
    requires forall i | 0 <= i < |mids| :: WordOk(mids[i]) && mids[i][0] != ':'
    requires tail == "" || (tail[0] == ' ' && ' ' !in tail[1..] && (|tail| > 1 ==> tail[1] != ':'))
    ensures ParseBody(tags, prefix, command + MidPart(mids) + tail)
         == var parts := Words("", command + MidPart(mids) + tail);
            if parts == [] then Message(prefix, "", [], tags)
            else Message(prefix, Upper(parts[0]), parts[1..], tags)
  {
    var line := command + MidPart(mids) + tail;
    BodyTrailingAt(command, mids, tail);
    if |tail| >= 2 {
      FindTrailingAfter(tail[1..], "");
      assert tail[1..] + "" == tail[1..];
    }
    assert FindTrailing(line) == |line|;
    assert line[..|line|] == line;
    var parts := Words("", line);
    if parts != [] {
      assert parts[1..] + [] == parts[1..];
    }
  }

  lemma RStripLineEnd(s: string)
    ensures RStrip(s + "\r\n") == RStrip(s)
  {
    assert (s + "\r\n")[..|s| + 1] == s + "\r";
    assert (s + "\r")[..|s|] == s;
  }

  lemma StripToBody(m: Message, stem: string, last: string)
    requires stem != "" && !EndsLine(stem[|stem| - 1])
    ensures RStrip(Head(m) + (stem + last) + "\r\n") == Head(m) + (stem + RStrip(last))
  {
    var a := Head(m) + stem;
    Assoc(Head(m), stem, last);
    Assoc(a, last, "\r\n");
    RStripEnd(a, last + "\r\n");
    RStripLineEnd(last);
    Assoc(Head(m), stem, RStrip(last));
  }

  /** What parsing a formatted message with parameters gives, good last parameter or not. */
  lemma ParsedForm(m: Message)
    requires HeadOk(m) && m.params != []
    ensures var n := |m.params| - 1;
            var last := m.params[n];
            var line := m.command + MidPart(m.params[..n]) + LastPart(RStrip(last), NeedsColon(last));
            Parse(Format(m)) == ParseBody(m.tags, m.prefix, line)
  {
    hide ParseBody, ParsePrefixed, ParseTagBlock, MidPart, RStrip, Head, Words;
    var n := |m.params| - 1;
    var last := m.params[n];
    var stem := m.command + MidPart(m.params[..n]) + (if NeedsColon(last) then " :" else " ");
    assert Body(m.command, m.params) == stem + last;
    StripToBody(m, stem, last);
    var line := m.command + MidPart(m.params[..n]) + LastPart(RStrip(last), NeedsColon(last));
    assert line == stem + RStrip(last);
    assert line[0] == m.command[0];
    HeadParses(m, line);
  }

  lemma NoParamsRoundTrip(m: Message)
    requires HeadOk(m) && m.params == []
    ensures Parse(Format(m)) == m
  {
    var c := m.command;
    assert c[|c| - 1] in c && !IsSpace(c[|c| - 1]);
    assert c == c + "";
    StripToBody(m, c, "");
    HeadParses(m, c);
    assert MidPart([]) == "" && c + MidPart([]) + "" == c;
    PlainBodyParses(m.tags, m.prefix, c, [], "");
    CommandWords(c, []);
    assert [c] + [] == [c];
  }

  lemma FirstAndRest<T>(first: T, a: seq<T>, b: seq<T>)
    ensures ([first] + a + b)[0] == first && ([first] + a + b)[1..] == a + b
  {
  }

  /** After a body without a colon, the last parameter is read as the words it splits into. */
  lemma PlainLastParses(tags: seq<Tag>, prefix: Option<string>, command: string, mids: seq<string>, kept: string)
    requires WordOk(command) && Upper(command) == command && ' ' !in kept && (kept != "" ==> kept[0] != ':')
    requires forall i | 0 <= i < |mids| :: WordOk(mids[i]) && mids[i][0] != ':'
    ensures ParseBody(tags, prefix, command + MidPart(mids) + LastPart(kept, false))
         == Message(prefix, command, mids + Words("", kept), tags)
  {
    hide ParseBody, MidPart, Words, Upper;
    var tail := LastPart(kept, false);
    assert tail[1..] == kept;
    PlainBodyParses(tags, prefix, command, mids, tail);
    Assoc(command, MidPart(mids), tail);
    WordsOpen("", command, MidPart(mids) + tail);
    assert "" + command == command;
    WordsOfMidsThen(command, mids, kept);
    FirstAndRest(command, mids, Words("", kept));
  }

  /** How the last parameter is read back. */
  function LastRead(last: string): seq<string> {
    if NeedsColon(last) then [RStrip(last)] else Words("", RStrip(last))
  }

  lemma LastReadExactly(last: string)
    ensures LastRead(last) == [last] <==> LastOk(last)
  {
    hide RStrip, Words;
    RStripShorter(last);
    if !NeedsColon(last) {
      if SpaceFree(last) {
        assert !IsSpace(last[|last| - 1]);
        OneWord(last);
      } else {
        RStripKeepsOut(last, ' ');
        WordsAreSpaceFree("", RStrip(last));
        NoSuchWord(Words("", RStrip(last)), last);
      }
    }
  }

  lemma NoSuchWord(words: seq<string>, last: string)
    requires !SpaceFree(last) && forall i | 0 <= i < |words| :: SpaceFree(words[i])
    ensures words != [last]
  {
    hide SpaceFree;
    assert |words| == 1 ==> SpaceFree(words[0]);
    assert [last][0] == last;
  }

  lemma OneWord(w: string)
    requires WordOk(w)
    ensures Words("", w) == [w]
  {
    hide SpaceFree;
    assert w + "" == w && "" + w == w;
    WordsOpen("", w, "");
  }

  lemma RStripKeepsOut(s: string, c: char)
    requires c !in s
    ensures c !in RStrip(s)
  {
    hide RStrip;
    RStripShorter(s);
  }

  /** Tags, prefix, command and middle parameters always come back; the last parameter as it is read. */
  lemma PrintedParses(m: Message)
    requires HeadOk(m) && m.params != []
    ensures var n := |m.params| - 1;
            Parse(Format(m)) == m.(params := m.params[..n] + LastRead(m.params[n]))
  {
    hide Parse, Format, ParseBody, MidPart, RStrip, Words, Body, Head, Upper, ParsePieces, TagsOk;
    ParsedForm(m);
    var n := |m.params| - 1;
    var mids, last := m.params[..n], m.params[n];
    if NeedsColon(last) {
      ColonBodyParses(m.tags, m.prefix, m.command, mids, RStrip(last));
    } else {
      RStripKeepsOut(last, ' ');
      RStripShorter(last);
      PlainLastParses(m.tags, m.prefix, m.command, mids, RStrip(last));
    }
  }

  lemma {:induction false} MidPartSnoc(mids: seq<string>, last: string)
    ensures MidPart(mids + [last]) == MidPart(mids) + " " + last
  {
    if mids == [] {
      assert [last][1..] == [] && MidPart([last]) == " " + last + "";
    } else {
      assert (mids + [last])[1..] == mids[1..] + [last];
      MidPartSnoc(mids[1..], last);
    }
  }

  /** Printing and parsing again gives the message back exactly when its last parameter is
      representable; tags, prefix, command and middle parameters come back in any case, and the last
      parameter as `LastRead` says. */
  lemma RoundTrip(m: Message)
    requires HeadOk(m)
    ensures Parse(Format(m)) == m <==> (m.params != [] ==> LastOk(m.params[|m.params| - 1]))
    ensures m.params != [] ==>
              var n := |m.params| - 1;
              Parse(Format(m)) == m.(params := m.params[..n] + LastRead(m.params[n]))
  {
    hide Parse, Format, LastRead, LastOk, HeadOk;
    if m.params == [] {
      NoParamsRoundTrip(m);
    } else {
      PrintedParses(m);
      var n := |m.params| - 1;
      var mids, last := m.params[..n], m.params[n];
      LastReadExactly(last);
      assert m.params == mids + [last];
      assert (mids + LastRead(last))[n..] == LastRead(last) && (mids + [last])[n..] == [last];
    }
  }

  /** A tab in a last parameter that holds no space is lost: two parameters come back. */
  lemma TabSplitsLastParameter()
    ensures var m := Message(None, "PRIVMSG", ["#a", "x\ty"], []);
            HeadOk(m) && Parse(Format(m)) != m
  {
    hide Parse, Format;
    var m := Message(None, "PRIVMSG", ["#a", "x\ty"], []);
    assert SpaceFree("#a") && SpaceFree("PRIVMSG");
    assert !SpaceFree("x\ty") by { assert IsSpace("x\ty"[1]); }
    RoundTrip(m);
  }

  // ---- What any line is read as -------------------------------------------------------------------------

  /** Words are what white space of any length separates; white space at either end separates nothing. */
  lemma {:induction false} WordsExactly(gap: string, w: string, s: string)
    requires Blank(gap)
    ensures Words("", gap + s) == Words("", s)
    ensures WordOk(w) && gap != "" ==> Words("", w + gap + s) == [w] + Words("", s)
    ensures WordOk(w) ==> Words("", w) == [w]
    ensures Words("", "") == []
    decreases |gap|
  {
    BlankIsSkipped(gap, s);
    if WordOk(w) {
      OneWord(w);
      if gap != "" {
        WordsOpen("", w, gap + s);
        assert "" + w == w && w + (gap + s) == w + gap + s;
        assert (gap + s)[1..] == gap[1..] + s;
        assert forall i | 0 <= i < |gap| - 1 :: gap[1..][i] == gap[i + 1];
        BlankIsSkipped(gap[1..], s);
      }
    }
  }

  lemma {:induction false} BlankIsSkipped(gap: string, s: string)
    requires Blank(gap)
    ensures Words("", gap + s) == Words("", s)
    decreases |gap|
  {
    if gap == "" {
      assert gap + s == s;
    } else {
      assert (gap + s)[1..] == gap[1..] + s;
      assert forall i | 0 <= i < |gap| - 1 :: gap[1..][i] == gap[i + 1];
      BlankIsSkipped(gap[1..], s);
    }
  }

  /** The value a tag block gives a key. */
  function ValueOf(tags: seq<Tag>, key: string): Option<string> {
    if tags == [] then None
    else if tags[0].key == key then Some(tags[0].value)
    else ValueOf(tags[1..], key)
  }

  /** The value the last piece for a key gives it; empty pieces give nothing. */
  function LastValue(pieces: seq<string>, key: string): Option<string> {
    if pieces == [] then None
    else
      var last := pieces[|pieces| - 1];
      if last != "" && ParsePiece(last).key == key then Some(ParsePiece(last).value)
      else LastValue(pieces[..|pieces| - 1], key)
  }

  lemma {:induction false} PutTagExactly(tags: seq<Tag>, t: Tag, key: string)
    ensures ValueOf(PutTag(tags, t), key) == if key == t.key then Some(t.value) else ValueOf(tags, key)
  {
    if tags != [] {
      PutTagExactly(tags[1..], t, key);
    }
  }

  lemma {:induction false} ParsePiecesSnoc(tags: seq<Tag>, pieces: seq<string>, last: string)
    ensures ParsePieces(tags, pieces + [last])
         == var before := ParsePieces(tags, pieces);
            if last == "" then before else PutTag(before, ParsePiece(last))
    decreases |pieces|
  {
    hide PutTag, ParsePiece;
    if pieces != [] {
      assert (pieces + [last])[1..] == pieces[1..] + [last] && (pieces + [last])[0] == pieces[0];
      ParsePiecesSnoc(if pieces[0] == "" then tags else PutTag(tags, ParsePiece(pieces[0])), pieces[1..], last);
    } else {
      assert pieces + [last] == [last] && [last][1..] == [];
    }
  }

  /** However a tag block is put together, a key has the value of its last piece. */
  lemma {:induction false} LastPieceWins(pieces: seq<string>, key: string)
    ensures ValueOf(ParsePieces([], pieces), key) == LastValue(pieces, key)
  {
    hide PutTag, ParsePiece;
    if pieces != [] {
      var before, last := pieces[..|pieces| - 1], pieces[|pieces| - 1];
      LastPieceWins(before, key);
      assert pieces == before + [last];
      ParsePiecesSnoc([], before, last);
      if last != "" {
        PutTagExactly(ParsePieces([], before), ParsePiece(last), key);
      }
    }
  }

  /** What is read of a line without a command: its tags at most, and a prefix only before white space. */
  lemma MalformedExactly(body: string, prefix: string)
    ensures Parse("") == Message(None, "", [], [])
    ensures ' ' !in body && (body == "" || !EndsLine(body[|body| - 1])) ==>
              Parse("@" + body) == Message(None, "", [], []) && Parse(":" + body) == Message(None, "", [], [])
    ensures ' ' !in prefix ==> Parse(":" + prefix + " ") == Message(Some(prefix), "", [], [])
  {
    hide Split, ParsePieces, Upper;
    assert RStrip("") == "";
    if ' ' !in body && (body == "" || !EndsLine(body[|body| - 1])) {
      assert forall i | 0 <= i < |body| :: body[i] in body;
      RStripShorter("@" + body);
      RStripShorter(":" + body);
      IndexOfAfter("@" + body, "", ' ');
      IndexOfAfter(":" + body, "", ' ');
      assert "@" + body + "" == "@" + body && ":" + body + "" == ":" + body;
    }
    if ' ' !in prefix {
      PrefixAlone(prefix);
    }
  }

  lemma PrefixAlone(prefix: string)
    requires ' ' !in prefix
    ensures Parse(":" + prefix + " ") == Message(Some(prefix), "", [], [])
  {
    hide Split, ParsePieces, Upper;
    var line := ":" + prefix + " ";
    RStripShorter(line);
    IndexOfAt(":" + prefix, "", ' ');
    assert line == ":" + prefix + [' '] + "";
    assert line[1..1 + |prefix|] == prefix && line[2 + |prefix|..] == "";
    assert FindTrailing("") == 0 && Words("", "") == [];
  }

  // ---- Parsing and printing step by step ---------------------------------------------------------------

  method ParseTagBlockOf(line: string) returns (tags: seq<Tag>, rest: string)
    ensures (tags, rest) == ParseTagBlock(line)
  {
    hide Split, PutTag, Unescape;
    if line == "" || line[0] != '@' {
      return [], line;
    }
    if ' ' !in line {
      var k := IndexOf(line, ' ');
      return [], "";
    }
    var k := IndexOf(line, ' ');
    if k == |line| { assert false; }
    var pieces := Split(line[1..k], ';');
    tags, rest := [], line[k + 1..];
    for i := 0 to |pieces|
      invariant ParsePieces(tags, pieces[i..]) == ParsePieces([], pieces)
    {
      var piece := pieces[i];
      assert pieces[i..][1..] == pieces[i + 1..];
      if piece != "" {
        if '=' in piece {
          var e := IndexOf(piece, '=');
          var value := UnescapeTagValue(piece[e + 1..]);
          tags := PutTag(tags, Tag(piece[..e], value));
        } else {
          tags := PutTag(tags, Tag(piece, ""));
        }
      }
    }
  }

  method ParseLine(line: string) returns (m: Message)
    ensures m == Parse(line)
  {
    var tags, rest := ParseTagBlockOf(RStrip(line));
    if rest == "" {
      return Message(None, "", [], tags);
    }
    var prefix := None;
    if rest[0] == ':' {
      var k := IndexOf(rest, ' ');
      if k == |rest| {
        return Message(None, "", [], tags);
      }
      prefix, rest := Some(rest[1..k]), rest[k + 1..];
    }
    m := ParseBodyOf(tags, prefix, rest);
  }

  method ParseBodyOf(tags: seq<Tag>, prefix: Option<string>, rest: string) returns (m: Message)
    ensures m == ParseBody(tags, prefix, rest)
  {
    var trailing: Option<string> := None;
    var t := FindTrailing(rest);
    var line := rest[..t];
    if t < |rest| {
      trailing := Some(rest[t + 2..]);
    }
    var parts := Words("", line);
    if parts == [] {
      return Message(prefix, "", [], tags);
    }
    var params := parts[1..];
    if trailing.Some? {
      params := params + [trailing.value];
    } else {
      assert params + [] == params;
    }
    m := Message(prefix, Upper(parts[0]), params, tags);
  }

  method JoinTags(tags: seq<Tag>) returns (blob: string)
    requires tags != []
    ensures blob == TagBlob(tags)
  {
    hide TagPiece, TagBlob;
    blob := TagPiece(tags[0]);
    BlobIsFirstAndRest(tags);
    for i := 1 to |tags|
      invariant blob + BlobRest(tags[i..]) == TagBlob(tags)
    {
      assert tags[i..][1..] == tags[i + 1..];
      Assoc(blob, ";" + TagPiece(tags[i]), BlobRest(tags[i + 1..]));
      blob := blob + (";" + TagPiece(tags[i]));
    }
  }

  method FormatMessage(m: Message) returns (line: string)
    ensures line == Format(m)
  {
    var parts: seq<string> := [];
    if m.tags != [] {
      var blob := JoinTags(m.tags);
      parts := ["@" + blob];
    }
    if m.prefix.Some? && m.prefix.value != "" {
      parts := parts + [":" + m.prefix.value];
    }
    parts := parts + [m.command];
    ghost var start := parts;
    if m.params != [] {
      parts := parts + m.params[..|m.params| - 1];
      var last := m.params[|m.params| - 1];
      parts := parts + [if NeedsColon(last) then ":" + last else last];
    }
    JoinIsFormat(m, start, parts);
    line := Join(parts) + "\r\n";
  }

  function BlobRest(tags: seq<Tag>): string {
    if tags == [] then "" else ";" + TagPiece(tags[0]) + BlobRest(tags[1..])
  }

  lemma {:induction false} BlobIsFirstAndRest(tags: seq<Tag>)
    requires tags != []
    ensures TagBlob(tags) == TagPiece(tags[0]) + BlobRest(tags[1..])
  {
    if |tags| == 1 {
      assert TagPiece(tags[0]) + "" == TagPiece(tags[0]);
    } else {
      BlobIsFirstAndRest(tags[1..]);
    }
  }

  lemma {:induction false} JoinMore(a: seq<string>, b: seq<string>)
    requires a != []
    ensures Join(a + b) == Join(a) + MidPart(b)
  {
    assert (a + b)[1..] == a[1..] + b;
    MidPartConcat(a[1..], b);
  }

  lemma {:induction false} MidPartConcat(a: seq<string>, b: seq<string>)
    ensures MidPart(a + b) == MidPart(a) + MidPart(b)
  {
    if a == [] {
      assert a + b == b;
    } else {
      assert (a + b)[1..] == a[1..] + b;
      MidPartConcat(a[1..], b);
    }
  }

  function Source(prefix: Option<string>): seq<string> {
    if prefix == None || prefix.value == "" then [] else [":" + prefix.value]
  }

  /** The first parts: tags and prefix if any, then the command. */
  function StartParts(m: Message): seq<string> {
    (if m.tags == [] then [] else ["@" + TagBlob(m.tags)]) + Source(m.prefix) + [m.command]
  }

  lemma JoinSource(prefix: Option<string>, command: string)
    ensures Join(Source(prefix) + [command]) == PrefixPart(prefix) + command
  {
    var c := [command];
    assert Join(c) == command by { assert c[1..] == []; }
    if Source(prefix) == [] {
      assert Source(prefix) + c == c;
    } else {
      JoinCons(":" + prefix.value, c);
    }
  }

  lemma JoinStart(m: Message)
    ensures Join(StartParts(m)) == Head(m) + m.command
  {
    hide TagBlob, Join;
    JoinSource(m.prefix, m.command);
    var p := Source(m.prefix) + [m.command];
    if m.tags == [] {
      assert StartParts(m) == p;
    } else {
      assert StartParts(m) == ["@" + TagBlob(m.tags)] + p;
      JoinCons("@" + TagBlob(m.tags), p);
      hide Source, PrefixPart;
      Assoc("@" + TagBlob(m.tags) + " ", PrefixPart(m.prefix), m.command);
    }
  }

  lemma JoinIsFormat(m: Message, start: seq<string>, parts: seq<string>)
    requires start == StartParts(m)
    requires parts == if m.params == [] then start
                      else
                        var n := |m.params| - 1;
                        var last := m.params[n];
                        start + m.params[..n] + [if NeedsColon(last) then ":" + last else last]
    ensures Join(parts) == Head(m) + Body(m.command, m.params)
  {
    JoinStart(m);
    assert start != [];
    hide Join, Head, StartParts;
    if m.params != [] {
      JoinLast(m, start, parts);
    }
  }

  lemma JoinCons(a: string, rest: seq<string>)
    requires rest != []
    ensures Join([a] + rest) == a + " " + Join(rest)
  {
    assert ([a] + rest)[1..] == rest;
    Assoc(a, " ", Join(rest));
    Assoc(" ", rest[0], MidPart(rest[1..]));
  }

  lemma JoinLast(m: Message, start: seq<string>, parts: seq<string>)
    requires start != [] && m.params != [] && Join(start) == Head(m) + m.command
    requires var n := |m.params| - 1;
             var last := m.params[n];
             parts == start + m.params[..n] + [if NeedsColon(last) then ":" + last else last]
    ensures Join(parts) == Head(m) + Body(m.command, m.params)
  {
    var n := |m.params| - 1;
    var mids, last := m.params[..n], m.params[n];
    var form := if NeedsColon(last) then ":" + last else last;
    assert start + (mids + [form]) == parts;
    JoinMore(start, mids + [form]);
    MidPartSnoc(mids, form);
    var tail := LastPart(last, NeedsColon(last));
    assert MidPart(mids + [form]) == MidPart(mids) + tail by {
      Assoc(MidPart(mids), " ", form);
      assert " " + form == tail;
    }
    Assoc(Head(m), m.command, MidPart(mids) + tail);
    Assoc(m.command, MidPart(mids), tail);
  }
}
