/**
 `truncateError`: capping an error string at a number of bytes without splitting a character.
 Well-formedness is section 4 of RFC 3629.
 */
module Utf8Truncation {

  newtype byte = b: int | 0 <= b < 0x100

  /** The bytes of U+2026, the ellipsis. */
  const ELLIPSIS: seq<byte> := [0xE2, 0x80, 0xA6]

  predicate Tail(b: byte) { 0x80 <= b <= 0xBF }

  predicate RuneStart(b: byte) { !Tail(b) }

  /** How many bytes the lead byte announces; 0 when it cannot start a character. */
  function Announced(b: byte): nat {
    if b <= 0x7F then 1
    else if 0xC2 <= b <= 0xDF then 2
    else if 0xE0 <= b <= 0xEF then 3
    else if 0xF0 <= b <= 0xF4 then 4
    else 0
  }

  /** The second byte is restricted where an encoding would be overlong, a surrogate or too large. */
  predicate SecondOk(lead: byte, second: byte) {
    Tail(second)
    && (lead == 0xE0 ==> second >= 0xA0) && (lead == 0xED ==> second <= 0x9F)
    && (lead == 0xF0 ==> second >= 0x90) && (lead == 0xF4 ==> second <= 0x8F)
  }

  /** `s` starts with a whole character of n bytes. */
  predicate StartsChar(s: seq<byte>, n: nat) {
    && 0 < n <= |s| && n == Announced(s[0])
    && (n >= 2 ==> SecondOk(s[0], s[1])) && (n >= 3 ==> Tail(s[2])) && (n >= 4 ==> Tail(s[3]))
  }

  predicate Valid(s: seq<byte>)
    decreases |s|
  {
    s == [] || (StartsChar(s, Announced(s[0])) && Valid(s[Announced(s[0])..]))
  }

  /** The loop: step back from `max` to the start of a character. */
  method TruncateError(s: seq<byte>, max: int) returns (r: seq<byte>)
    ensures max <= 0 || |s| <= max ==> r == s
    ensures 0 < max < |s| ==>
              exists cut :: 0 <= cut <= max && IsCut(s, max, cut) && r == s[..cut] + [0xE2, 0x80, 0xA6]
  {
    if max <= 0 || |s| <= max {
      return s;
    }
    var cut := max;
    while cut > 0 && !RuneStart(s[cut])
      invariant 0 <= cut <= max
      invariant forall i :: cut < i <= max ==> !RuneStart(s[i])
    {
      cut := cut - 1;
    }
    assert IsCut(s, max, cut);
    r := s[..cut] + ELLIPSIS;
  }

  /** The largest position up to `max` that is 0 or starts a character. */
  ghost predicate IsCut(s: seq<byte>, max: int, cut: int)
    requires 0 <= cut <= max < |s|
  {
    && (cut == 0 || s[cut] < 0x80 || s[cut] > 0xBF)
    && forall i :: cut < i <= max ==> 0x80 <= s[i] <= 0xBF
  }

  lemma Unfold(s: seq<byte>)
    requires Valid(s) && s != []
    ensures var n := Announced(s[0]); 0 < n <= |s| && n <= 4 && StartsChar(s, n) && Valid(s[n..])
    ensures RuneStart(s[0]) && forall i :: 0 < i < Announced(s[0]) ==> Tail(s[i])
  {
  }

  lemma Refold(s: seq<byte>, n: nat)
    requires s != [] && n == Announced(s[0]) && n <= |s| && StartsChar(s, n)
    ensures Valid(s) <==> Valid(s[n..])
  {
  }

  lemma Incomplete(s: seq<byte>)
    requires s != [] && |s| < Announced(s[0])
    ensures !Valid(s)
  {
  }

  lemma PrefixStartsChar(s: seq<byte>, i: nat, n: nat)
    requires StartsChar(s, n) && n <= i <= |s|
    ensures StartsChar(s[..i], n) && s[..i][0] == s[0]
  {
  }

  lemma EmptyValid()
    ensures Valid([])
  {
  }

  /** In valid text a position starts a character exactly when the text before it is valid, and then
      what follows is valid too. */
  lemma {:induction false} BoundaryIff(s: seq<byte>, i: nat)
    requires Valid(s) && i < |s|
    ensures RuneStart(s[i]) <==> Valid(s[..i])
    ensures RuneStart(s[i]) ==> Valid(s[i..])
    decreases |s|
  {
    hide Valid, StartsChar, Announced;
    Unfold(s);
    var n := Announced(s[0]);
    if i == 0 {
      assert s[0..] == s && s[..0] == [];
      EmptyValid();
    } else if i < n {
      assert s[..i][0] == s[0];
      Incomplete(s[..i]);
    } else {
      PrefixStartsChar(s, i, n);
      Refold(s[..i], n);
      assert s[..i][n..] == s[n..][..i - n];
      if i < |s| {
        BoundaryIff(s[n..], i - n);
        assert s[n..][i - n..] == s[i..] && s[n..][i - n] == s[i];
      }
    }
  }

  /** A character has at most three continuation bytes. */
  lemma {:induction false} StartNearby(s: seq<byte>, i: nat)
    requires Valid(s) && i < |s|
    ensures exists j :: 0 <= j <= i && i - j <= 3 && RuneStart(s[j])
    decreases |s|
  {
    var n := Announced(s[0]);
    if i < n {
      assert RuneStart(s[0]);
    } else {
      StartNearby(s[n..], i - n);
      var j :| 0 <= j <= i - n && i - n - j <= 3 && RuneStart(s[n..][j]);
      assert s[n + j] == s[n..][j];
    }
  }

  lemma ExtendedStartsChar(a: seq<byte>, b: seq<byte>, n: nat)
    requires StartsChar(a, n)
    ensures StartsChar(a + b, n) && (a + b)[0] == a[0]
  {
  }

  lemma {:induction false} ConcatValid(a: seq<byte>, b: seq<byte>)
    requires Valid(a) && Valid(b)
    ensures Valid(a + b)
    decreases |a|
  {
    hide Valid, StartsChar, Announced;
    if a == [] {
      assert a + b == b;
    } else {
      Unfold(a);
      var n := Announced(a[0]);
      ConcatValid(a[n..], b);
      ExtendedStartsChar(a, b, n);
      assert (a + b)[n..] == a[n..] + b;
      Refold(a + b, n);
    }
  }

  lemma EllipsisValid()
    ensures Valid(ELLIPSIS)
  {
  }

  /** For every valid text the cut keeps the longest whole-character prefix of at most `max` bytes, gives
      up at most three bytes, and the result is valid and at most three bytes longer than `max`. */
  lemma TruncationKeepsCharacters(s: seq<byte>, max: int, cut: int)
    requires Valid(s) && 0 <= cut <= max < |s| && IsCut(s, max, cut)
    ensures Valid(s[..cut]) && max - cut <= 3
    ensures forall c :: 0 <= c <= max && Valid(s[..c]) ==> c <= cut
    ensures Valid(s[..cut] + ELLIPSIS) && |s[..cut] + ELLIPSIS| <= max + 3
  {
    BoundaryIff(s, cut);
    BoundaryIff(s, 0);
    StartNearby(s, max);
    var j :| 0 <= j <= max && max - j <= 3 && RuneStart(s[j]);
    assert j <= cut;
    forall c | 0 <= c <= max && Valid(s[..c])
      ensures c <= cut
    {
      BoundaryIff(s, c);
    }
    EllipsisValid();
    ConcatValid(s[..cut], ELLIPSIS);
  }
}
