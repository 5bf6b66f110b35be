/** The card uniqueIds built in App.tsx: `${id}-img-${index}` for an image
    card and `${id}-word-${index}` for a word card, where index is the
    item's position among the selected items, printed in decimal. */
module CardIds {
  import opened Types

  /** What a uniqueId encodes. */
  datatype CardTag = CardTag(matchId: string, kind: CardKind, index: nat)

  predicate IsDigit(c: char) {
    '0' <= c <= '9'
  }

  predicate AllDigits(s: string) {
    forall k :: 0 <= k < |s| ==> IsDigit(s[k])
  }

  function DigitChar(d: nat): (c: char)
    requires d < 10
    ensures IsDigit(c)
  {
    ('0' as int + d) as char
  }

  function DigitValue(c: char): nat
    requires IsDigit(c)
  {
    c as int - '0' as int
  }

  /** A natural number as JavaScript prints it in a template literal:
      decimal, no sign, no leading zeros (NatToStringNoLeadingZero). The
      digits themselves are stated by ParseNatToString, away from this
      contract, so that every uniqueId in a proof does not bring them along. */
  function NatToString(n: nat): (s: string)
    ensures |s| > 0
    decreases n
  {
    if n < 10 then [DigitChar(n)] else NatToString(n / 10) + [DigitChar(n % 10)]
  }

  /** The decimal form has no leading zero: it starts with '0' only for 0,
      and it is a single digit exactly for the numbers below 10. */
  lemma {:induction false} NatToStringNoLeadingZero(n: nat)
    ensures NatToString(n)[0] == '0' <==> n == 0
    ensures n < 10 <==> |NatToString(n)| == 1
    decreases n
  {
    if n >= 10 {
      NatToStringNoLeadingZero(n / 10);
      assert NatToString(n)[0] == NatToString(n / 10)[0];
    }
  }

  /** Read a string of decimal digits back as a number. */
  function ParseDigits(s: string): nat
    requires AllDigits(s)
    decreases |s|
  {
    if |s| == 0 then 0 else 10 * ParseDigits(s[..|s| - 1]) + DigitValue(s[|s| - 1])
  }

  /** The decimal form of n is a run of digits, and reading it back gives n. */
  lemma {:induction false} ParseNatToString(n: nat)
    ensures AllDigits(NatToString(n)) && ParseDigits(NatToString(n)) == n
    decreases n
  {
    var s := NatToString(n);
    if n >= 10 {
      ParseNatToString(n / 10);
      assert s[..|s| - 1] == NatToString(n / 10);
      assert IsDigit(s[|s| - 1]);
    }
  }


  /** The part of a uniqueId in front of the index: `${id}-img` or `${id}-word`. */
  function Head(matchId: string, kind: CardKind): string {
    match kind
    case Image => matchId + "-img"
    case Word => matchId + "-word"
  }

  /** The uniqueId of the card a tag describes (App.tsx lines 25 and 32).
      ParseUniqueIdRoundTrip shows it decodes back to the tag. */
  function UniqueId(t: CardTag): string {
    Head(t.matchId, t.kind) + "-" + NatToString(t.index)
  }

  /** Proof helper for ParseUniqueId: the position of the last occurrence
      of c in s, if any. */
  function LastIndexOf(s: string, c: char): (r: Option<nat>)
    ensures r.Some? ==> r.value < |s| && s[r.value] == c
    ensures r.Some? ==> forall k :: r.value < k < |s| ==> s[k] != c
    ensures r.None? <==> c !in s
    decreases |s|
  {
    if |s| == 0 then None
    else if s[|s| - 1] == c then Some(|s| - 1)
    else LastIndexOf(s[..|s| - 1], c)
  }

  /** Split `${id}-img` or `${id}-word` into id and kind. */
  function ParseHead(head: string, index: nat): Option<CardTag> {
    if |head| >= 4 && head[|head| - 4..] == "-img" then
      Some(CardTag(head[..|head| - 4], Image, index))
    else if |head| >= 5 && head[|head| - 5..] == "-word" then
      Some(CardTag(head[..|head| - 5], Word, index))
    else None
  }

  /** Proof helper with no counterpart in the game, which never reads a
      uniqueId apart: recover the tag from a uniqueId. The index is the
      digits after the last '-', the kind is the "-img" or "-word" in front
      of that, and the id is whatever precedes the kind. It exists to show
      that UniqueId is injective. */
  function ParseUniqueId(s: string): Option<CardTag> {
    match LastIndexOf(s, '-')
    case None => None
    case Some(k) =>
      var digits := s[k + 1..];
      if |digits| == 0 || !AllDigits(digits) then None
      else ParseHead(s[..k], ParseDigits(digits))
  }

  /** The decimal suffix holds no '-', so the last '-' is the one in front of it. */
  lemma LastDashBeforeDigits(head: string, digits: string)
    requires AllDigits(digits)
    ensures LastIndexOf(head + "-" + digits, '-') == Some(|head|)
  {
    var s := head + "-" + digits;
    assert s[|head|] == '-';
  }

  /** Parsing splits at the '-' in front of a run of digits. */
  lemma ParseSplitsAtIndex(head: string, digits: string)
    requires |digits| > 0 && AllDigits(digits)
    ensures ParseUniqueId(head + "-" + digits) == ParseHead(head, ParseDigits(digits))
  {
    var s := head + "-" + digits;
    LastDashBeforeDigits(head, digits);
    assert s[..|head|] == head;
    assert s[|head| + 1..] == digits;
  }

  lemma ParseHeadRoundTrip(matchId: string, kind: CardKind, index: nat)
    ensures ParseHead(Head(matchId, kind), index) == Some(CardTag(matchId, kind, index))
  {
    var head := Head(matchId, kind);
    match kind
    case Image =>
      assert head[|head| - 4..] == "-img";
      assert head[..|head| - 4] == matchId;
    case Word =>
      assert head[|head| - 1] == 'd';
      assert head[|head| - 5..] == "-word";
      assert head[..|head| - 5] == matchId;
  }

  /** Every uniqueId decodes back to the tag it was built from, whatever the id. */
  lemma ParseUniqueIdRoundTrip(t: CardTag)
    ensures ParseUniqueId(UniqueId(t)) == Some(t)
  {
    ParseNatToString(t.index);
    ParseSplitsAtIndex(Head(t.matchId, t.kind), NatToString(t.index));
    ParseHeadRoundTrip(t.matchId, t.kind, t.index);
  }

  /** Two cards get the same uniqueId exactly when they have the same id,
      kind and index. */
  lemma UniqueIdInjective(t: CardTag, u: CardTag)
    ensures UniqueId(t) == UniqueId(u) <==> t == u
  {
    if UniqueId(t) == UniqueId(u) {
      ParseUniqueIdRoundTrip(t);
      ParseUniqueIdRoundTrip(u);
    }
  }
}
