/** `nickname.py`: the stored form of an approved nickname, or why there is none. */
module Nickname {
  import opened Text

  const NICK_MIN: nat := 2
  const NICK_MAX: nat := 16

  datatype Refusal = Invalid | Reserved
  datatype Normalized = Nick(nick: string) | No(why: Refusal)

  predicate Kept(c: char) { 'a' <= c <= 'z' || '0' <= c <= '9' || c == '_' }

  /** `_NICK_DROP.sub("", s)` */
  function Drop(s: string): string {
    if s == "" then "" else (if Kept(s[0]) then [s[0]] else "") + Drop(s[1..])
  }

  /** `sanitize_nickname` */
  function Sanitize(raw: string): Option<string> {
    var nick := Drop(Lower(raw));
    if NICK_MIN <= |nick| <= NICK_MAX then Some(nick) else None
  }

  predicate IsReserved(nick: string) {
    nick == "ask" || (|nick| >= 3 && nick[..3] == "pa_")
  }

  /** `normalize_approved`, with the reason `approved_refusal` gives. */
  function Normalize(raw: string): Normalized {
    if '@' in raw || Sanitize(raw) == None then No(Invalid)
    else
      var nick := Sanitize(raw).value;
      if IsReserved(nick) then No(Reserved) else Nick(nick)
  }

  predicate AllKept(s: string) { forall i | 0 <= i < |s| :: Kept(s[i]) }

  lemma {:induction false} DropKeeps(s: string)
    ensures AllKept(Drop(s))
    ensures AllKept(s) ==> Drop(s) == s
  {
    if s != "" {
      DropKeeps(s[1..]);
      if AllKept(s) {
        assert AllKept(s[1..]);
      }
    }
  }

  /** A stored nickname holds only `[a-z0-9_]`, is its own normal form, and two of them that
      agree without case are equal, so a plain comparison is the store's NOCASE one. */
  lemma StoredFormsAreCanonical(raw: string, raw': string)
    requires Normalize(raw).Nick?
    ensures var nick := Normalize(raw).nick;
            && AllKept(nick) && NICK_MIN <= |nick| <= NICK_MAX
            && Lower(nick) == nick && Normalize(nick) == Nick(nick)
            && (Normalize(raw').Nick? && Lower(Normalize(raw').nick) == Lower(nick) ==> Normalize(raw').nick == nick)
  {
    DropKeeps(Lower(raw));
    var nick := Normalize(raw).nick;
    KeptIsLower(nick);
    DropKeeps(nick);
    assert '@' !in nick by {
      forall i | 0 <= i < |nick| ensures nick[i] != '@' { assert Kept(nick[i]); }
    }
    if Normalize(raw').Nick? {
      DropKeeps(Lower(raw'));
      KeptIsLower(Normalize(raw').nick);
    }
  }

  lemma KeptIsLower(s: string)
    requires AllKept(s)
    ensures Lower(s) == s
  {
    forall i | 0 <= i < |s|
      ensures LowerChar(s[i]) == s[i]
    {
      assert Kept(s[i]);
    }
  }

  // ---- Which nicknames there are -----------------------------------------------------------------------

  lemma Assoc(a: string, b: string, c: string)
    ensures a + (b + c) == a + b + c
  {
  }

  lemma {:induction false} DropAppend(a: string, b: string)
    ensures Drop(a + b) == Drop(a) + Drop(b)
  {
    hide Kept;
    if a == "" {
      assert a + b == b;
    } else {
      assert (a + b)[1..] == a[1..] + b && (a + b)[0] == a[0];
      DropAppend(a[1..], b);
      Assoc(if Kept(a[0]) then [a[0]] else "", Drop(a[1..]), Drop(b));
    }
  }

  /** Dropping goes character by character and keeps the letters, digits and underscores. */
  lemma DropFilters(a: string, b: string, c: char)
    ensures Drop(a + b) == Drop(a) + Drop(b)
    ensures Drop([c]) == if 'a' <= c <= 'z' || '0' <= c <= '9' || c == '_' then [c] else ""
  {
    DropAppend(a, b);
    assert [c][1..] == "" && Drop("") == "";
  }

  /** What becomes of a choice: refused as invalid with an `@` or when fewer than 2 or more than 16
      characters remain, refused as reserved if it would be `ask` or look like an agent, and otherwise
      taken as what remains. */
  lemma NormalizedExactly(raw: string)
    ensures var left := Drop(Lower(raw));
            Normalize(raw) ==
              if '@' in raw || |left| < 2 || 16 < |left| then No(Invalid)
              else if left == "ask" || exists rest :: left == "pa_" + rest then No(Reserved)
              else Nick(left)
  {
    var left := Drop(Lower(raw));
    if |left| >= 3 && left[..3] == "pa_" {
      assert left == "pa_" + left[3..];
    }
  }
}
