/** The byte framing of `IRCTransport._read_loop`: chunks in, IRC lines out. */
module LineFramer {
  import opened Text

  newtype Byte = b: int | 0 <= b < 256
  type Bytes = seq<Byte>

  const LF: Byte := 10
  const CR: Byte := 13

  /** `raw.decode("utf-8", errors="replace")`; the decoder itself is a parameter. */
  type Decoder = Bytes -> string

  predicate IsBreak(b: Byte) { b == LF || b == CR }

  predicate Unbroken(s: Bytes) {
    forall i | 0 <= i < |s| :: !IsBreak(s[i])
  }

  // ---- What the stream means, whatever its chunks -------------------------

  /** The segments a CR or LF byte of `s` terminates, the first one starting with `open`. */
  function Terminated(open: Bytes, s: Bytes): seq<Bytes>
    decreases |s|
  {
    if s == [] then []
    else if IsBreak(s[0]) then [open] + Terminated([], s[1..])
    else Terminated(open + [s[0]], s[1..])
  }

  /** What is left open after `s`: the bytes since the last CR or LF. */
  function Tail(open: Bytes, s: Bytes): Bytes
    decreases |s|
  {
    if s == [] then open
    else if IsBreak(s[0]) then Tail([], s[1..])
    else Tail(open + [s[0]], s[1..])
  }

  /** Decode every segment and keep the lines that are not blank. */
  function Decoded(decode: Decoder, segments: seq<Bytes>): seq<string> {
    if segments == [] then []
    else
      var line := decode(segments[0]);
      (if Blank(line) then [] else [line]) + Decoded(decode, segments[1..])
  }

  /** The non-blank terminated lines of a byte stream. */
  function Lines(decode: Decoder, s: Bytes): seq<string> {
    Decoded(decode, Terminated([], s))
  }

  // ---- What the loop does to its buffer ------------------------------------

  /** `buf.replace(b"\r\n", b"\n")` */
  function ReplaceCrLf(s: Bytes): Bytes {
    if |s| < 2 then s
    else if s[0] == CR && s[1] == LF then [LF] + ReplaceCrLf(s[2..])
    else [s[0]] + ReplaceCrLf(s[1..])
  }

  /** `buf.replace(b"\r", b"\n")` */
  function ReplaceCr(s: Bytes): Bytes {
    seq(|s|, i requires 0 <= i < |s| => if s[i] == CR then LF else s[i])
  }

  function Normalise(s: Bytes): Bytes { ReplaceCr(ReplaceCrLf(s)) }

  /** One chunk: the lines handed to the parser, and the buffer kept. */
  function FeedStep(decode: Decoder, buf: Bytes, data: Bytes): (seq<string>, Bytes) {
    var s := Normalise(buf + data);
    (Lines(decode, s), Tail([], s))
  }

  function FeedAll(decode: Decoder, buf: Bytes, chunks: seq<Bytes>): (seq<string>, Bytes)
    decreases |chunks|
  {
    if chunks == [] then ([], buf)
    else
      var (lines, rest) := FeedStep(decode, buf, chunks[0]);
      var (more, last) := FeedAll(decode, rest, chunks[1..]);
      (lines + more, last)
  }

  function Concat(chunks: seq<Bytes>): Bytes {
    if chunks == [] then [] else chunks[0] + Concat(chunks[1..])
  }

  // ---- Lemmas ---------------------------------------------------------------

  lemma {:induction false} TerminatedConcat(open: Bytes, a: Bytes, b: Bytes)
    ensures Terminated(open, a + b) == Terminated(open, a) + Terminated(Tail(open, a), b)
    ensures Tail(open, a + b) == Tail(Tail(open, a), b)
    decreases |a|
  {
    if a == [] {
      assert a + b == b;
    } else {
      assert (a + b)[1..] == a[1..] + b;
      TerminatedConcat(if IsBreak(a[0]) then [] else open + [a[0]], a[1..], b);
    }
  }

  lemma {:induction false} UnbrokenIsOpen(open: Bytes, p: Bytes)
    requires Unbroken(p)
    ensures Terminated(open, p) == [] && Tail(open, p) == open + p
    decreases |p|
  {
    if p != [] {
      assert !IsBreak(p[0]);
      UnbrokenIsOpen(open + [p[0]], p[1..]);
      assert open + [p[0]] + p[1..] == open + p;
    } else {
      assert open + p == open;
    }
  }

  lemma {:induction false} TailIsUnbroken(open: Bytes, s: Bytes)
    requires Unbroken(open)
    ensures Unbroken(Tail(open, s))
    decreases |s|
  {
    if s != [] {
      TailIsUnbroken(if IsBreak(s[0]) then [] else open + [s[0]], s[1..]);
    }
  }

  lemma Assoc(a: seq<string>, b: seq<string>, c: seq<string>)
    ensures a + (b + c) == a + b + c
  {
  }

  lemma {:induction false} DecodedConcat(decode: Decoder, a: seq<Bytes>, b: seq<Bytes>)
    ensures Decoded(decode, a + b) == Decoded(decode, a) + Decoded(decode, b)
    decreases |a|
  {
    if a == [] {
      assert a + b == b;
    } else {
      hide Blank;
      DecodedConcat(decode, a[1..], b);
      assert (a + b)[1..] == a[1..] + b && (a + b)[0] == a[0];
      var line := decode(a[0]);
      Assoc(if Blank(line) then [] else [line], Decoded(decode, a[1..]), Decoded(decode, b));
    }
  }

  lemma ReplaceCrCons(b: Byte, s: Bytes)
    ensures ReplaceCr([b] + s) == [if b == CR then LF else b] + ReplaceCr(s)
  {
  }

  /** Normalising only loses empty segments, which decode to nothing. */
  lemma {:induction false} NormaliseKeepsLines(decode: Decoder, open: Bytes, s: Bytes)
    requires decode([]) == ""
    ensures Decoded(decode, Terminated(open, Normalise(s))) == Decoded(decode, Terminated(open, s))
    ensures Tail(open, Normalise(s)) == Tail(open, s)
    decreases |s|
  {
    if |s| >= 2 && s[0] == CR && s[1] == LF {
      ReplaceCrCons(LF, ReplaceCrLf(s[2..]));
      var n := Normalise(s[2..]);
      assert Normalise(s) == [LF] + n;
      NormaliseKeepsLines(decode, [], s[2..]);
      assert s[1..][1..] == s[2..];
      assert Terminated([], s[1..]) == [[]] + Terminated([], s[2..]);
      DecodedConcat(decode, [[]], Terminated([], s[2..]));
      assert Decoded(decode, [[]]) == [];
      assert Decoded(decode, Terminated([], s[1..])) == Decoded(decode, Terminated([], n));
      DecodedConcat(decode, [open], Terminated([], s[1..]));
      DecodedConcat(decode, [open], Terminated([], n));
    } else if s != [] {
      NormaliseOne(s);
      var n := Normalise(s[1..]);
      var open' := if IsBreak(s[0]) then [] else open + [s[0]];
      NormaliseKeepsLines(decode, open', s[1..]);
      assert Normalise(s)[1..] == n;
      if IsBreak(s[0]) {
        DecodedConcat(decode, [open], Terminated([], s[1..]));
        DecodedConcat(decode, [open], Terminated([], n));
      }
    }
  }

  lemma NormaliseOne(s: Bytes)
    requires s != [] && !(|s| >= 2 && s[0] == CR && s[1] == LF)
    ensures Normalise(s) == [if s[0] == CR then LF else s[0]] + Normalise(s[1..])
  {
    if |s| == 1 {
      assert s == [s[0]] + [];
    } else {
      assert ReplaceCrLf(s) == [s[0]] + ReplaceCrLf(s[1..]);
      ReplaceCrCons(s[0], ReplaceCrLf(s[1..]));
    }
  }

  /** One chunk appends exactly the lines its bytes complete. */
  lemma FeedStepMeaning(decode: Decoder, received: Bytes, data: Bytes)
    requires decode([]) == ""
    ensures FeedStep(decode, Tail([], received), data).1 == Tail([], received + data)
    ensures Lines(decode, received + data)
         == Lines(decode, received) + FeedStep(decode, Tail([], received), data).0
  {
    var buf := Tail([], received);
    TailIsUnbroken([], received);
    UnbrokenIsOpen([], buf);
    assert [] + buf == buf;
    TerminatedConcat([], buf, data);
    TerminatedConcat([], received, data);
    assert [] + Terminated(buf, data) == Terminated(buf, data);
    DecodedConcat(decode, Terminated([], received), Terminated(buf, data));
    NormaliseKeepsLines(decode, [], buf + data);
  }

  lemma {:induction false} FeedAllMeaning(decode: Decoder, received: Bytes, chunks: seq<Bytes>)
    requires decode([]) == ""
    ensures Lines(decode, received) + FeedAll(decode, Tail([], received), chunks).0
         == Lines(decode, received + Concat(chunks))
    ensures FeedAll(decode, Tail([], received), chunks).1 == Tail([], received + Concat(chunks))
    decreases |chunks|
  {
    hide Lines, Tail, FeedStep, Normalise;
    var before := Lines(decode, received);
    if chunks == [] {
      assert received + Concat(chunks) == received;
      assert before + [] == before;
    } else {
      var buf := Tail([], received);
      var (lines, rest) := FeedStep(decode, buf, chunks[0]);
      FeedStepMeaning(decode, received, chunks[0]);
      FeedAllMeaning(decode, received + chunks[0], chunks[1..]);
      var more := FeedAll(decode, rest, chunks[1..]).0;
      assert FeedAll(decode, buf, chunks).0 == lines + more;
      assert before + (lines + more) == before + lines + more;
      assert received + Concat(chunks) == (received + chunks[0]) + Concat(chunks[1..]);
    }
  }

  /** Any two ways of cutting one byte stream hand the same lines to the parser. */
  lemma ChunkIndependence(decode: Decoder, cut: seq<Bytes>, cut': seq<Bytes>)
    requires decode([]) == ""
    requires Concat(cut) == Concat(cut')
    ensures FeedAll(decode, [], cut) == FeedAll(decode, [], cut')
    ensures FeedAll(decode, [], cut).0 == Lines(decode, Concat(cut))
  {
    FeedAllMeaning(decode, [], cut);
    FeedAllMeaning(decode, [], cut');
    assert [] + Concat(cut) == Concat(cut);
    assert [] + Concat(cut') == Concat(cut');
    var fed, fed' := FeedAll(decode, [], cut), FeedAll(decode, [], cut');
    assert Lines(decode, []) == [];
    assert [] + fed.0 == fed.0 && [] + fed'.0 == fed'.0;
  }

  // ---- What is written comes back -----------------------------------------------

  /** The bodies of lines, each written with CR and LF after it. */
  function Written(bodies: seq<Bytes>): Bytes {
    if bodies == [] then [] else bodies[0] + [CR, LF] + Written(bodies[1..])
  }

  function DecodeAll(decode: Decoder, bodies: seq<Bytes>): seq<string> {
    seq(|bodies|, i requires 0 <= i < |bodies| => decode(bodies[i]))
  }

  /** No CR or LF, and more than white space. */
  predicate OneLine(decode: Decoder, body: Bytes) {
    Unbroken(body) && exists i :: 0 <= i < |decode(body)| && !IsSpace(decode(body)[i])
  }

  lemma OneWritten(decode: Decoder, body: Bytes, rest: Bytes)
    requires decode([]) == "" && OneLine(decode, body)
    ensures Lines(decode, body + [CR, LF] + rest) == [decode(body)] + Lines(decode, rest)
    ensures Tail([], body + [CR, LF] + rest) == Tail([], rest)
  {
    var s := body + [CR, LF] + rest;
    var k := |body|;
    assert s[..k] == body && s[k] == CR && s[k + 1..] == [LF] + rest;
    SplitAtBreak(s, k);
    assert ([LF] + rest)[..0] == [] && ([LF] + rest)[1..] == rest;
    SplitAtBreak([LF] + rest, 0);
    hide Terminated;
    assert Terminated([], s) == [body] + ([[]] + Terminated([], rest));
    DecodedConcat(decode, [body], [[]] + Terminated([], rest));
    DecodedConcat(decode, [[]], Terminated([], rest));
    assert Decoded(decode, [[]]) == [] && Decoded(decode, [body]) == [decode(body)];
  }

  lemma SplitAtBreak(s: Bytes, k: nat)
    requires k < |s| && IsBreak(s[k]) && Unbroken(s[..k])
    ensures Terminated([], s) == [s[..k]] + Terminated([], s[k + 1..])
    ensures Tail([], s) == Tail([], s[k + 1..])
  {
    assert s == s[..k] + s[k..];
    TerminatedConcat([], s[..k], s[k..]);
    UnbrokenIsOpen([], s[..k]);
    assert [] + s[..k] == s[..k];
    assert s[k..][1..] == s[k + 1..];
  }

  /** What the lines of a stream are: each CR or LF ends one, white space alone is none, and what no CR
      or LF ends yet is none either. */
  lemma LinesExactly(decode: Decoder, body: Bytes, b: Byte, rest: Bytes)
    requires Unbroken(body)
    ensures Lines(decode, body) == [] && Tail([], body) == body
    ensures b == 10 || b == 13 ==>
              && Lines(decode, body + [b] + rest)
                 == (if forall i | 0 <= i < |decode(body)| :: IsSpace(decode(body)[i]) then [] else [decode(body)])
                    + Lines(decode, rest)
              && Tail([], body + [b] + rest) == Tail([], rest)
  {
    UnbrokenIsOpen([], body);
    assert [] + body == body;
    if b == 10 || b == 13 {
      var s := body + [b] + rest;
      assert s[..|body|] == body && s[|body| + 1..] == rest;
      SplitAtBreak(s, |body|);
      hide Terminated;
      DecodedConcat(decode, [body], Terminated([], rest));
      assert [body][1..] == [] && Decoded(decode, []) == [];
    }
  }

  /** Lines that hold no CR or LF and more than white space come back one by one, however the stream
      they were written to is cut. */
  lemma {:induction false} WrittenLinesComeBack(decode: Decoder, bodies: seq<Bytes>, cut: seq<Bytes>)
    requires decode([]) == "" && Concat(cut) == Written(bodies)
    requires forall body | body in bodies :: OneLine(decode, body)
    ensures FeedAll(decode, [], cut) == (DecodeAll(decode, bodies), [])
  {
    FeedAllMeaning(decode, [], cut);
    assert [] + Concat(cut) == Concat(cut) && Lines(decode, []) == [] && Tail([], []) == [];
    hide Lines, FeedAll, Concat, Tail;
    WrittenHasTheseLines(decode, bodies);
    var fed := FeedAll(decode, [], cut);
    assert [] + fed.0 == fed.0;
  }

  lemma {:induction false} WrittenHasTheseLines(decode: Decoder, bodies: seq<Bytes>)
    requires decode([]) == ""
    requires forall body | body in bodies :: OneLine(decode, body)
    ensures Lines(decode, Written(bodies)) == DecodeAll(decode, bodies) && Tail([], Written(bodies)) == []
  {
    if bodies == [] {
      assert Lines(decode, []) == [] && Tail([], []) == [];
    } else {
      hide Lines, Tail, OneLine;
      WrittenHasTheseLines(decode, bodies[1..]);
      OneWritten(decode, bodies[0], Written(bodies[1..]));
      assert DecodeAll(decode, bodies) == [decode(bodies[0])] + DecodeAll(decode, bodies[1..]);
    }
  }

  // ---- The loop ---------------------------------------------------------------

  /** The chunks read before the first empty one, which means end of stream. */
  function BeforeEof(chunks: seq<Bytes>): seq<Bytes> {
    if chunks == [] || chunks[0] == [] then [] else [chunks[0]] + BeforeEof(chunks[1..])
  }

  function IndexOfLf(s: Bytes): (k: nat)
    requires LF in s
    ensures k < |s| && s[k] == LF
    ensures forall i | 0 <= i < k :: s[i] != LF
  {
    if s[0] == LF then 0 else 1 + IndexOfLf(s[1..])
  }

  /** Cutting the buffer at its first LF takes its first line off. */
  lemma FirstLine(decode: Decoder, buf: Bytes, k: nat)
    requires k < |buf| && buf[k] == LF && Unbroken(buf[..k])
    ensures var line := decode(buf[..k]);
            Lines(decode, buf) == (if Blank(line) then [] else [line]) + Lines(decode, buf[k + 1..])
    ensures Tail([], buf) == Tail([], buf[k + 1..])
  {
    hide Blank;
    SplitAtBreak(buf, k);
    DecodedConcat(decode, [buf[..k]], Terminated([], buf[k + 1..]));
    assert [buf[..k]][1..] == [];
  }

  /** Part way through a read: `handed` are the lines so far, `buf` is what is left. */
  ghost predicate Handing(decode: Decoder, all: Bytes, handed: seq<string>, buf: Bytes) {
    && (forall i | 0 <= i < |buf| :: buf[i] != CR)
    && Lines(decode, all) == handed + Lines(decode, buf)
    && Tail([], all) == Tail([], buf)
  }

  lemma HandingStart(decode: Decoder, s: Bytes)
    ensures Handing(decode, Normalise(s), [], Normalise(s))
  {
    hide Lines, Tail, ReplaceCrLf;
  }

  lemma HandingStep(decode: Decoder, all: Bytes, handed: seq<string>, buf: Bytes, k: nat)
    requires Handing(decode, all, handed, buf) && k < |buf| && buf[k] == LF && LF !in buf[..k]
    ensures var line := decode(buf[..k]);
            Handing(decode, all, if Blank(line) then handed else handed + [line], buf[k + 1..])
  {
    assert Unbroken(buf[..k]);
    FirstLine(decode, buf, k);
    hide Lines, Tail, Blank, Unbroken;
    var line := decode(buf[..k]);
    Assoc(handed, if Blank(line) then [] else [line], Lines(decode, buf[k + 1..]));
    assert handed + [] == handed;
  }

  lemma HandingEnd(decode: Decoder, all: Bytes, handed: seq<string>, buf: Bytes)
    requires Handing(decode, all, handed, buf) && LF !in buf
    ensures handed == Lines(decode, all) && buf == Tail([], all)
  {
    UnbrokenIsOpen([], buf);
    assert [] + buf == buf;
  }

  class Framer {
    var buf: Bytes

    constructor ()
      ensures buf == []
    {
      buf := [];
    }

    /** The body of the outer loop for one non-empty read. */
    method Feed(decode: Decoder, data: Bytes) returns (handed: seq<string>)
      modifies this
      ensures handed == FeedStep(decode, old(buf), data).0
      ensures buf == FeedStep(decode, old(buf), data).1
    {
      hide Handing, Lines, Tail, Blank, Terminated;
      handed := [];
      HandingStart(decode, buf + data);
      buf := buf + data;
      buf := ReplaceCr(ReplaceCrLf(buf));
      ghost var all := buf;
      while LF in buf
        invariant Handing(decode, all, handed, buf)
        decreases |buf|
      {
        var k := IndexOfLf(buf);
        var line := decode(buf[..k]);
        HandingStep(decode, all, handed, buf, k);
        if !Blank(line) {
          handed := handed + [line];
        }
        buf := buf[k + 1..];
      }
      HandingEnd(decode, all, handed, buf);
    }

    /** `_read_loop` over a finite sequence of reads. */
    method ReadLoop(decode: Decoder, chunks: seq<Bytes>) returns (handed: seq<string>)
      requires decode([]) == "" && buf == []
      modifies this
      ensures handed == Lines(decode, Concat(BeforeEof(chunks)))
      ensures buf == Tail([], Concat(BeforeEof(chunks)))
    {
      handed := [];
      var i := 0;
      ghost var received: Bytes := [];
      assert chunks[0..] == chunks && received + Concat(BeforeEof(chunks)) == Concat(BeforeEof(chunks));
      while i < |chunks|
        invariant 0 <= i <= |chunks|
        invariant Concat(BeforeEof(chunks)) == received + Concat(BeforeEof(chunks[i..]))
        invariant handed == Lines(decode, received) && buf == Tail([], received)
      {
        var data := chunks[i];
        assert chunks[i..][1..] == chunks[i + 1..];
        if data == [] {
          break;
        }
        FeedStepMeaning(decode, received, data);
        var more := Feed(decode, data);
        handed := handed + more;
        BeforeEofStep(received, chunks, i);
        received := received + data;
        i := i + 1;
      }
      assert received + [] == received;
    }
  }

  lemma BeforeEofStep(received: Bytes, chunks: seq<Bytes>, i: nat)
    requires i < |chunks| && chunks[i] != []
    ensures received + Concat(BeforeEof(chunks[i..]))
         == received + chunks[i] + Concat(BeforeEof(chunks[i + 1..]))
  {
    var rest := BeforeEof(chunks[i + 1..]);
    assert chunks[i..][1..] == chunks[i + 1..];
    assert BeforeEof(chunks[i..]) == [chunks[i]] + rest;
    assert ([chunks[i]] + rest)[1..] == rest;
    assert Concat([chunks[i]] + rest) == chunks[i] + Concat(rest);
  }
}
