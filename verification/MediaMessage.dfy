/** `web/media.py`: the outgoing line for an uploaded file, always under the server's line cap. */
module MediaMessage {
  import opened Text

  const MAX_INBOUND_LINE: nat := 8192

  type Bytes = seq<int>

  // ---- UTF-8 --------------------------------------------------------------------------------------

  function Tail(n: int): int { 0x80 + n % 64 }

  function EncodeChar(c: char): (b: Bytes)
    ensures 1 <= |b| <= 4
  {
    var n := c as int;
    if n < 0x80 then [n]
    else if n < 0x800 then [0xC0 + n / 64, Tail(n)]
    else if n < 0x10000 then [0xE0 + n / 4096, Tail(n / 64), Tail(n)]
    else [0xF0 + n / 262144, Tail(n / 4096), Tail(n / 64), Tail(n)]
  }

  function Encode(s: string): Bytes {
    if s == "" then [] else EncodeChar(s[0]) + Encode(s[1..])
  }

  /** How long the sequence a lead byte opens is; 0 for a byte that opens none. */
  function Width(lead: int): (w: nat)
    ensures w <= 4
  {
    if lead < 0x80 then 1
    else if lead < 0xC0 then 0
    else if lead < 0xE0 then 2
    else if lead < 0xF0 then 3
    else if lead < 0xF8 then 4
    else 0
  }

  function Value(b: Bytes): int
    requires 1 <= |b| <= 4
  {
    match |b|
    case 1 => b[0]
    case 2 => (b[0] - 0xC0) * 64 + (b[1] - 0x80)
    case 3 => (b[0] - 0xE0) * 4096 + (b[1] - 0x80) * 64 + (b[2] - 0x80)
    case _ => (b[0] - 0xF0) * 262144 + (b[1] - 0x80) * 4096 + (b[2] - 0x80) * 64 + (b[3] - 0x80)
  }

  predicate IsScalar(n: int) { 0 <= n < 0xD800 || 0xE000 <= n < 0x110000 }

  /** `decode("utf-8", errors="ignore")` on what is left of encoded text: what is no whole
      character is dropped. */
  function DecodeIgnoring(b: Bytes): string
    decreases |b|
  {
    if b == [] then ""
    else
      var w := Width(b[0]);
      if w == 0 then DecodeIgnoring(b[1..])
      else if |b| < w then ""
      else (if IsScalar(Value(b[..w])) then [Value(b[..w]) as char] else "") + DecodeIgnoring(b[w..])
  }

  /** A character takes as few bytes as it can. */
  lemma EncodedLength(c: char)
    ensures var n := c as int;
            |EncodeChar(c)| == if n < 128 then 1 else if n < 2048 then 2 else if n < 65536 then 3 else 4
    ensures EncodeChar(c)[0] < 128 <==> c as int < 128
    ensures forall i | 0 < i < |EncodeChar(c)| :: 128 <= EncodeChar(c)[i] < 192
  {
  }

  lemma CharSurvives(c: char)
    ensures Width(EncodeChar(c)[0]) == |EncodeChar(c)| && Value(EncodeChar(c)) == c as int
  {
    var n := c as int;
    if n >= 0x80 {
      assert n == n / 64 * 64 + n % 64;
    }
    if n >= 0x800 {
      assert n / 64 == n / 4096 * 64 + n / 64 % 64;
    }
    if n >= 0x10000 {
      assert n / 4096 == n / 262144 * 64 + n / 4096 % 64;
    }
  }

  lemma DecodeOne(c: char, rest: Bytes)
    ensures DecodeIgnoring(EncodeChar(c) + rest) == [c] + DecodeIgnoring(rest)
  {
    CharSurvives(c);
    hide Width, Value, EncodeChar;
    var b, w := EncodeChar(c) + rest, |EncodeChar(c)|;
    assert b[0] == EncodeChar(c)[0] && b[..w] == EncodeChar(c) && b[w..] == rest;
  }

  lemma CutCharIsNothing(c: char, n: nat)
    requires n < |EncodeChar(c)|
    ensures DecodeIgnoring(EncodeChar(c)[..n]) == ""
  {
    CharSurvives(c);
    hide Width, Value, EncodeChar;
  }

  /** How many characters of `s` fit in `n` bytes. */
  function Fit(s: string, n: nat): (k: nat)
    ensures k <= |s|
  {
    if s == "" || |EncodeChar(s[0])| > n then 0 else 1 + Fit(s[1..], n - |EncodeChar(s[0])|)
  }

  /** `_truncate_utf8` of encoded text. */
  function Truncate(s: string, max: int): string {
    if max <= 0 then ""
    else if max < |Encode(s)| then DecodeIgnoring(Encode(s)[..max])
    else DecodeIgnoring(Encode(s))
  }

  lemma PrefixOfSum<T>(a: seq<T>, b: seq<T>, n: nat)
    requires n <= |a + b|
    ensures (a + b)[..n] == if n < |a| then a[..n] else a + b[..n - |a|]
  {
  }

  lemma PrefixOfCons<T>(s: seq<T>, k: nat)
    requires k < |s|
    ensures s[..1 + k] == [s[0]] + s[1..][..k]
  {
  }

  lemma FitStep(s: string, n: nat)
    requires s != ""
    ensures Fit(s, n) == if |EncodeChar(s[0])| > n then 0 else 1 + Fit(s[1..], n - |EncodeChar(s[0])|)
  {
    hide EncodeChar;
  }

  lemma {:induction false} CutDecodesToFit(s: string, n: nat)
    requires n <= |Encode(s)|
    ensures DecodeIgnoring(Encode(s)[..n]) == s[..Fit(s, n)]
  {
    if s != "" {
      hide EncodeChar, DecodeIgnoring, Fit;
      var first, rest := EncodeChar(s[0]), Encode(s[1..]);
      assert Encode(s) == first + rest;
      PrefixOfSum(first, rest, n);
      FitStep(s, n);
      hide Encode;
      if |first| > n {
        CutCharIsNothing(s[0], n);
      } else {
        CutDecodesToFit(s[1..], n - |first|);
        DecodeOne(s[0], rest[..n - |first|]);
        PrefixOfCons(s, Fit(s[1..], n - |first|));
      }
    } else {
      assert DecodeIgnoring([]) == "";
    }
  }

  lemma {:induction false} FitIsLongest(s: string, n: nat)
    ensures |Encode(s[..Fit(s, n)])| <= n
    ensures Fit(s, n) < |s| ==> |Encode(s[..Fit(s, n) + 1])| > n
    ensures |Encode(s)| <= n ==> Fit(s, n) == |s|
  {
    if s != "" {
      hide EncodeChar;
      var k := Fit(s, n);
      if k > 0 {
        FitIsLongest(s[1..], n - |EncodeChar(s[0])|);
        assert s[..k][1..] == s[1..][..k - 1];
        if k < |s| { assert s[..k + 1][1..] == s[1..][..k]; }
      } else {
        assert s[..1][1..] == "" && s[..1][0] == s[0];
      }
    }
  }

  /** Cutting encoded text keeps the longest run of whole characters that fits. */
  lemma TruncateKeepsLongest(s: string, max: nat)
    ensures Truncate(s, max) == s[..Fit(s, max)]
    ensures |Encode(Truncate(s, max))| <= max
    ensures Fit(s, max) < |s| ==> |Encode(s[..Fit(s, max) + 1])| > max
  {
    FitIsLongest(s, max);
    hide EncodeChar, DecodeIgnoring;
    if max > 0 {
      if max < |Encode(s)| {
        CutDecodesToFit(s, max);
      } else {
        CutDecodesToFit(s, |Encode(s)|);
        FitIsLongest(s, |Encode(s)|);
        assert Encode(s)[..|Encode(s)|] == Encode(s);
      }
    } else {
      NothingFits(s);
    }
  }

  lemma NothingFits(s: string)
    ensures Fit(s, 0) == 0 && s[..0] == ""
  {
  }

  // ---- The line ---------------------------------------------------------------------------------------

  function RStrip(s: string): string {
    if s != "" && IsSpace(s[|s| - 1]) then RStrip(s[..|s| - 1]) else s
  }

  function LStrip(s: string): string {
    if s != "" && IsSpace(s[0]) then LStrip(s[1..]) else s
  }

  function Strip(s: string): string { RStrip(LStrip(s)) }

  lemma {:induction false} RStripIsPrefix(s: string)
    ensures RStrip(s) <= s && |Encode(RStrip(s))| <= |Encode(s)|
  {
    if s != "" && IsSpace(s[|s| - 1]) {
      RStripIsPrefix(s[..|s| - 1]);
      EncodeConcat(s[..|s| - 1], s[|s| - 1..]);
      assert s == s[..|s| - 1] + s[|s| - 1..];
    }
  }

  lemma {:induction false} EncodeConcat(a: string, b: string)
    ensures Encode(a + b) == Encode(a) + Encode(b)
  {
    hide EncodeChar;
    if a == "" {
      assert a + b == b;
    } else {
      assert (a + b)[1..] == a[1..] + b && (a + b)[0] == a[0];
      EncodeConcat(a[1..], b);
    }
  }

  lemma JoinedLength(caption: string, url: string)
    ensures |Encode(caption + " " + url)| == |Encode(caption)| + 1 + |Encode(url)|
  {
    EncodeConcat(caption + " ", url);
    EncodeConcat(caption, " ");
    assert " "[1..] == "";
  }

  /** Stripping takes white space off both ends and nothing else. */
  lemma StripExactly(s: string) returns (before: string, end: string)
    ensures s == before + Strip(s) + end && Blank(before) && Blank(end)
    ensures Strip(s) != "" ==> !IsSpace(Strip(s)[0]) && !IsSpace(Strip(s)[|Strip(s)| - 1])
  {
    before := LStripExactly(s);
    end := RStripExactly(LStrip(s));
    assert before + (Strip(s) + end) == before + Strip(s) + end;
  }

  lemma {:induction false} LStripExactly(s: string) returns (before: string)
    ensures s == before + LStrip(s) && Blank(before) && (LStrip(s) != "" ==> !IsSpace(LStrip(s)[0]))
  {
    before := "";
    if s != "" && IsSpace(s[0]) {
      var rest := LStripExactly(s[1..]);
      before := [s[0]] + rest;
    }
  }

  lemma {:induction false} RStripExactly(s: string) returns (end: string)
    ensures s == RStrip(s) + end && Blank(end)
    ensures RStrip(s) != "" ==> !IsSpace(RStrip(s)[|RStrip(s)| - 1]) && RStrip(s)[0] == s[0]
  {
    end := "";
    if s != "" && IsSpace(s[|s| - 1]) {
      var rest := RStripExactly(s[..|s| - 1]);
      end := rest + [s[|s| - 1]];
    }
  }

  /** `k` is the longest part of a caption that still fits before a space and the URL; nothing may. */
  predicate LongestPart(caption: string, url: string, k: nat) {
    && k <= |caption|
    && (k > 0 ==> |Encode(caption[..k] + " " + url)| < 8192)
    && (k < |caption| ==> |Encode(caption[..k + 1] + " " + url)| >= 8192)
  }

  lemma FitIsLongestPart(caption: string, url: string, budget: int)
    requires budget == 8192 - |Encode(url)| - 2 && |Encode(url)| < 8192
    ensures LongestPart(caption, url, Fit(caption, if budget < 0 then 0 else budget))
  {
    var n: nat := if budget < 0 then 0 else budget;
    var k := Fit(caption, n);
    FitIsLongest(caption, n);
    hide Fit, Encode;
    JoinedLength(caption[..k], url);
    if k < |caption| {
      JoinedLength(caption[..k + 1], url);
    }
    SomethingTakesRoom(caption[..k]);
  }

  lemma SomethingTakesRoom(s: string)
    ensures |Encode(s)| == 0 ==> s == ""
  {
  }

  /** `compose_media_message`: the line always fits; the URL is kept whole if it fits at all, and
      of the caption the longest run of whole characters there is room for. */
  method ComposeMediaMessage(rawUrl: string, rawCaption: string) returns (line: string)
    ensures |Encode(line)| < 8192
    ensures var url, caption := Strip(rawUrl), Strip(rawCaption);
            var whole := if caption != "" then caption + " " + url else url;
            && (|Encode(whole)| < 8192 ==> line == whole)
            && (|Encode(url)| >= 8192 ==> line < url && |Encode(url[..|line| + 1])| >= 8192)
            && (|Encode(url)| < 8192 <= |Encode(whole)| ==>
                  exists k: nat :: LongestPart(caption, url, k)
                    && line == if RStrip(caption[..k]) != "" then RStrip(caption[..k]) + " " + url else url)
  {
    hide Encode, Fit, Strip, RStrip, Truncate;
    var url, caption := Strip(rawUrl), Strip(rawCaption);
    var message := if caption != "" then caption + " " + url else url;
    JoinedLength(caption, url);
    if |Encode(message)| < MAX_INBOUND_LINE {
      return message;
    }
    if |Encode(url)| >= MAX_INBOUND_LINE {
      TruncateKeepsLongest(url, MAX_INBOUND_LINE - 1);
      assert |Encode(url[..|url|])| == |Encode(url)| by { assert url[..|url|] == url; }
      return Truncate(url, MAX_INBOUND_LINE - 1);
    }
    var budget := MAX_INBOUND_LINE - |Encode(url)| - 2;
    if budget < 0 {
      TruncateNothing(caption, budget);
    } else {
      TruncateKeepsLongest(caption, budget);
    }
    FitIsLongestPart(caption, url, budget);
    var cut := RStrip(Truncate(caption, budget));
    RStripIsPrefix(Truncate(caption, budget));
    if cut != "" {
      JoinedLength(cut, url);
      return cut + " " + url;
    }
    return url;
  }

  lemma TruncateNothing(s: string, max: int)
    requires max < 0
    ensures Truncate(s, max) == s[..Fit(s, 0)] == "" && RStrip("") == ""
  {
    NothingFits(s);
  }
}
