/**
 DNS labels and unique plan reference names of the promote command. `lower` stands for Go's Unicode
 lower-casing of a rune and `hash` for the eight hex digits of a SHA-256; only what the labels need of
 them is assumed.
 */
module PlanNames {
  import opened Text

  const MAX_LABEL := 63
  /** Go's `len` of a map is an int. */
  const MAX_LEN := 0x7fff_ffff_ffff_ffff

  predicate NameChar(c: char) { 'a' <= c <= 'z' || '0' <= c <= '9' }

  ghost predicate LowerCases(lower: char -> char) {
    forall c :: NameChar(c) || c == '-' ==> lower(c) == c
  }

  ghost predicate HashesHex(hash: string -> string) {
    forall s :: |hash(s)| == 8 && forall i :: 0 <= i < 8 ==> NameChar(hash(s)[i])
  }

  /** Letters, digits and single inner hyphens. */
  predicate Clean(s: string) {
    && (forall i :: 0 <= i < |s| ==> NameChar(s[i]) || s[i] == '-')
    && (forall i :: 0 <= i < |s| - 1 ==> !(s[i] == '-' && s[i + 1] == '-'))
    && (s != "" ==> s[0] != '-')
  }

  /** A label of section 2.1 of RFC 1123, at most 63 characters (section 2.3.4 of RFC 1035). */
  predicate IsLabel(s: string) {
    Clean(s) && 0 < |s| <= MAX_LABEL && s[|s| - 1] != '-'
  }

  /** The builder: name characters pass, a run of anything else becomes one hyphen, none in front. */
  function Squash(value: string, lower: char -> char): string {
    if value == "" then "" else Grow(Squash(value[..|value| - 1], lower), lower(value[|value| - 1]))
  }

  function Grow(r: string, c: char): string {
    if NameChar(c) then r + [c] else if r != "" && r[|r| - 1] != '-' then r + "-" else r
  }

  function TrimLeft(s: string): string {
    if s != "" && s[0] == '-' then TrimLeft(s[1..]) else s
  }

  function Trim(s: string): string { TrimRight(TrimLeft(s)) }

  function LabelValue(value: string, lower: char -> char, hash: string -> string): string {
    var name := Trim(Squash(value, lower));
    if |name| <= MAX_LABEL then name
    else
      var prefix := Trim(name[..54]);
      if prefix == "" then hash(value) else prefix + "-" + hash(value)
  }

  method DnsLabelValue(value: string, lower: char -> char, hash: string -> string) returns (name: string)
    ensures name == LabelValue(value, lower, hash)
  {
    var b: string := "";
    var lastDash := false;
    for i := 0 to |value|
      invariant b == Squash(value[..i], lower)
      invariant lastDash == (b != "" && b[|b| - 1] == '-')
    {
      assert value[..i + 1][..i] == value[..i];
      var r := lower(value[i]);
      if NameChar(r) {
        b := b + [r];
        lastDash := false;
        continue;
      }
      if !lastDash && |b| > 0 {
        b := b + "-";
        lastDash := true;
      }
    }
    assert value[..|value|] == value;
    name := Trim(b);
    if |name| > MAX_LABEL {
      var prefix := Trim(name[..54]);
      if prefix == "" {
        return hash(value);
      }
      name := prefix + "-" + hash(value);
    }
  }

  function Label(value: string, lower: char -> char, hash: string -> string): string {
    var name := LabelValue(value, lower, hash);
    if name == "" then "promotion" else name
  }

  lemma {:induction false} SquashClean(value: string, lower: char -> char)
    ensures Clean(Squash(value, lower))
  {
    if value != "" {
      SquashClean(value[..|value| - 1], lower);
    }
  }

  lemma {:induction false} TrimRightClean(s: string)
    requires Clean(s)
    ensures Clean(TrimRight(s)) && |TrimRight(s)| <= |s|
    ensures (TrimRight(s) != "" ==> TrimRight(s)[|TrimRight(s)| - 1] != '-')
    ensures s != "" ==> TrimRight(s) != "" && TrimRight(s)[0] == s[0]
  {
  }

  lemma TrimClean(s: string)
    requires Clean(s)
    ensures Clean(Trim(s)) && |Trim(s)| <= |s| && (Trim(s) == "" <==> s == "")
    ensures Trim(s) != "" ==> Trim(s)[|Trim(s)| - 1] != '-'
  {
    TrimRightClean(s);
  }

  lemma JoinClean(a: string, b: string)
    requires Clean(a) && Clean(b) && a != "" && a[|a| - 1] != '-' && b != ""
    ensures Clean(a + "-" + b) && (a + "-" + b)[|a + "-" + b| - 1] == b[|b| - 1]
  {
  }

  /** Whatever the input, a label value is empty or a valid label. */
  lemma LabelValueValid(value: string, lower: char -> char, hash: string -> string)
    requires HashesHex(hash)
    ensures var r := LabelValue(value, lower, hash); r == "" || IsLabel(r)
  {
    SquashClean(value, lower);
    TrimClean(Squash(value, lower));
    var name := Trim(Squash(value, lower));
    if |name| > MAX_LABEL {
      assert Clean(name[..54]);
      TrimClean(name[..54]);
      assert Clean(hash(value));
      JoinClean(Trim(name[..54]), hash(value));
    }
  }

  lemma {:induction false} SquashFixed(s: string, lower: char -> char)
    requires Clean(s) && LowerCases(lower)
    ensures Squash(s, lower) == s
  {
    if s != "" {
      var front := s[..|s| - 1];
      SquashFixed(front, lower);
      assert s == front + [s[|s| - 1]];
    }
  }

  /** `dnsLabel` always gives a valid label, and labelling a label changes nothing. */
  lemma LabelIdempotent(value: string, lower: char -> char, hash: string -> string)
    requires HashesHex(hash) && LowerCases(lower)
    ensures IsLabel(Label(value, lower, hash))
    ensures LabelValue(value, lower, hash) == "" ==> Label(value, lower, hash) == "promotion"
    ensures Label(Label(value, lower, hash), lower, hash) == Label(value, lower, hash)
  {
    LabelValueValid(value, lower, hash);
    LabelFixed(Label(value, lower, hash), lower, hash);
  }

  lemma LabelFixed(s: string, lower: char -> char, hash: string -> string)
    requires IsLabel(s) && LowerCases(lower)
    ensures LabelValue(s, lower, hash) == s && Label(s, lower, hash) == s
  {
    SquashFixed(s, lower);
  }

  // ---- What a label is made of ----------------------------------------------------------------------

  /** Two labels with a hyphen between them, unless one is empty. */
  function Hyphenated(a: string, b: string): string {
    if a == "" then b else if b == "" then a else a + "-" + b
  }

  /** The first `n` characters, less a hyphen at their end. */
  function CutAt(s: string, n: int): string {
    if 0 < n <= |s| then s[..if s[n - 1] == '-' then n - 1 else n] else s
  }

  /** A value whose characters are all letters and digits is lower-cased as it is. */
  lemma {:induction false} WordIsKept(value: string, lower: char -> char)
    requires forall i :: 0 <= i < |value| ==> NameChar(lower(value[i]))
    ensures Trim(Squash(value, lower)) == seq(|value|, i requires 0 <= i < |value| => lower(value[i]))
    ensures Squash(value, lower) == Trim(Squash(value, lower))
  {
    var word := seq(|value|, i requires 0 <= i < |value| => lower(value[i]));
    if value != "" {
      var n := |value| - 1;
      WordIsKept(value[..n], lower);
      assert word == word[..n] + [lower(value[n])];
      assert word[..n] == seq(n, i requires 0 <= i < n => lower(value[..n][i]));
      assert Squash(value, lower) == word;
    }
  }

  /** Any other character separates: the two sides are labelled on their own. With the lemma before, this
      says what every label is before it is cut. */
  lemma SeparatorSplits(a: string, c: char, b: string, lower: char -> char)
    requires !NameChar(lower(c))
    ensures Trim(Squash(a + [c] + b, lower))
              == Hyphenated(Trim(Squash(a, lower)), Trim(Squash(b, lower)))
  {
    hide Squash, Trim, Clean, Hyphenated;
    SquashAfter(a, c, b, lower);
    SquashClean(a, lower);
    SquashClean(b, lower);
    TrimJoined(Squash(a, lower), Squash(b, lower));
  }

  lemma TrimJoined(x: string, y: string)
    requires Clean(x) && Clean(y)
    ensures Trim((if x == "" then "" else Trim(x) + "-") + y) == Hyphenated(Trim(x), Trim(y))
  {
    TrimClean(x);
    TrimClean(y);
    if x == "" {
      assert "" + y == y;
    } else if y == "" {
      TrimDash(Trim(x));
      assert (Trim(x) + "-") + y == Trim(x) + "-";
    } else {
      TrimTail(Trim(x) + "-", y);
    }
  }

  lemma TrimDash(t: string)
    requires t != "" && t[0] != '-' && t[|t| - 1] != '-'
    ensures Trim(t + "-") == t
  {
    assert (t + "-")[..|t|] == t;
    assert TrimRight(t) == t && TrimLeft(t + "-") == t + "-";
  }

  lemma {:induction false} SquashAfter(a: string, c: char, b: string, lower: char -> char)
    requires !NameChar(lower(c))
    ensures var x := Squash(a, lower);
            Squash(a + [c] + b, lower) == (if x == "" then "" else Trim(x) + "-") + Squash(b, lower)
    decreases |b|
  {
    hide Grow, Trim, Clean, NameChar;
    var x, whole := Squash(a, lower), a + [c] + b;
    var front := if x == "" then "" else Trim(x) + "-";
    if b == "" {
      assert whole[..|whole| - 1] == a && whole[|whole| - 1] == c;
      SquashClean(a, lower);
      GrowBreaks(x, lower(c));
    } else {
      var n := |b| - 1;
      SquashAfter(a, c, b[..n], lower);
      assert whole[..|whole| - 1] == a + [c] + b[..n] && whole[|whole| - 1] == b[n];
      GrowAfter(front, Squash(b[..n], lower), lower(b[n]));
    }
  }

  lemma GrowBreaks(x: string, c: char)
    requires Clean(x) && !NameChar(c)
    ensures Grow(x, c) == if x == "" then "" else Trim(x) + "-"
  {
    TrimOne(x);
  }

  lemma GrowAfter(front: string, r: string, c: char)
    requires front == "" || front[|front| - 1] == '-'
    ensures Grow(front + r, c) == front + Grow(r, c)
  {
    if r == "" { assert front + r == front; }
  }

  /** A clean string ends in one hyphen at most. */
  lemma TrimOne(s: string)
    requires Clean(s)
    ensures s == Trim(s) || s == Trim(s) + "-"
    ensures s != "" && s[|s| - 1] != '-' ==> s == Trim(s)
    ensures s != "" && s[|s| - 1] == '-' ==> s == Trim(s) + "-"
  {
    if s != "" && s[|s| - 1] == '-' {
      var t := s[..|s| - 1];
      assert t == "" || t[|t| - 1] != '-';
      assert TrimRight(s) == TrimRight(t) == t;
    }
  }

  /** Trimming reaches neither into a non-empty clean tail nor in front of it. */
  lemma TrimTail(front: string, tail: string)
    requires Clean(tail) && tail != "" && (front != "" ==> front[0] != '-')
    ensures Trim(front + tail) == front + Trim(tail)
  {
    TrimOne(tail);
    TrimClean(tail);
    var t := Trim(tail);
    assert TrimLeft(front + tail) == front + tail;
    if tail != t {
      assert (front + tail)[..|front + tail| - 1] == front + t;
      assert TrimRight(front + tail) == TrimRight(front + t);
    }
  }

  /** A label too long is cut to 54 characters, less a hyphen at the end, and gets the hash of the value. */
  lemma LongLabelCut(value: string, lower: char -> char, hash: string -> string)
    ensures var name, r := Trim(Squash(value, lower)), LabelValue(value, lower, hash);
            if |name| <= 63 then r == name
            else r == CutAt(name, 54) + "-" + hash(value)
  {
    SquashClean(value, lower);
    TrimClean(Squash(value, lower));
    var name := Trim(Squash(value, lower));
    if |name| > 63 {
      var cut := name[..54];
      assert Clean(cut);
      TrimOne(cut);
      assert name[53] == '-' ==> cut[..53] == name[..53] && Trim(cut) == cut[..53];
    }
  }

  // ---- Suffixes -----------------------------------------------------------------------------------

  function WithSuffix(base0: string, suffix0: string, lower: char -> char, hash: string -> string): string {
    if suffix0 == "" then Label(base0, lower, hash)
    else
      var suffix, base := Label(suffix0, lower, hash), Label(base0, lower, hash);
      var maxBase := MAX_LABEL - |suffix| - 1;
      if maxBase < 1 then Label(suffix, lower, hash)
      else
        var cut := if |base| > maxBase then Trim(base[..maxBase]) else base;
        if cut == "" then Label(suffix, lower, hash) else cut + "-" + suffix
  }

  function Pow10(k: nat): nat { if k == 0 then 1 else 10 * Pow10(k - 1) }

  lemma {:induction false} DecimalLength(n: nat, k: nat)
    requires n < Pow10(k) && k >= 1
    ensures |Decimal(n)| <= k
  {
    assert Pow10(1) == 10 * Pow10(0) && Pow10(0) == 1;
    if n >= 10 {
      DecimalLength(n / 10, k - 1);
    }
  }

  lemma Pow10Of20()
    ensures Pow10(20) == 100_000_000_000_000_000_000
  {
    assert Pow10(4) == 10_000;
    assert Pow10(8) == 100_000_000;
    assert Pow10(12) == 1_000_000_000_000;
    assert Pow10(16) == 10_000_000_000_000_000;
  }

  lemma DigitsClean(n: nat)
    requires n < Pow10(20)
    ensures Clean(Decimal(n)) && 1 <= |Decimal(n)| <= 20 && '-' !in Decimal(n) && IsLabel(Decimal(n))
  {
    DecimalLength(n, 20);
    var d := Decimal(n);
    assert forall i :: 0 <= i < |d| ==> IsDigit(d[i]);
  }

  /** A numbered candidate is a valid label that ends in its number after the last hyphen. */
  lemma NumberedShape(base: string, n: nat, lower: char -> char, hash: string -> string) returns (stem: string)
    requires IsLabel(base) && n < Pow10(20) && LowerCases(lower)
    ensures WithSuffix(base, Decimal(n), lower, hash) == stem + "-" + Decimal(n)
    ensures stem == if |base| + 1 + |Decimal(n)| <= 63 then base else CutAt(base, 62 - |Decimal(n)|)
    ensures IsLabel(WithSuffix(base, Decimal(n), lower, hash))
  {
    hide Decimal, Label, LabelValue, Trim, LowerCases, Clean, IsLabel;
    DigitsClean(n);
    var d := Decimal(n);
    LabelFixed(d, lower, hash);
    LabelFixed(base, lower, hash);
    var maxBase := MAX_LABEL - |d| - 1;
    stem := base;
    if |base| > maxBase {
      stem := Trim(base[..maxBase]);
      CutLabel(base, maxBase);
      CutEnds(base, maxBase);
    }
    JoinLabel(stem, d);
  }

  lemma CutLabel(base: string, n: nat)
    requires IsLabel(base) && 0 < n <= |base|
    ensures IsLabel(Trim(base[..n])) && |Trim(base[..n])| <= n
  {
    assert Clean(base[..n]);
    TrimClean(base[..n]);
  }

  lemma CutEnds(base: string, n: nat)
    requires IsLabel(base) && 0 < n <= |base|
    ensures Trim(base[..n]) == CutAt(base, n)
  {
    var cut := base[..n];
    assert Clean(cut);
    hide Clean, Trim;
    TrimOne(cut);
    assert cut[n - 1] == base[n - 1];
    if cut[n - 1] == '-' { assert Trim(cut) == (Trim(cut) + "-")[..n - 1] == base[..n - 1]; }
  }

  lemma JoinLabel(stem: string, d: string)
    requires IsLabel(stem) && IsLabel(d) && |stem| + 1 + |d| <= MAX_LABEL
    ensures IsLabel(stem + "-" + d) && stem != "" && d != ""
  {
    JoinClean(stem, d);
  }

  /** Candidates with different numbers are different names. */
  lemma NumberedDistinct(base: string, m: nat, n: nat, lower: char -> char, hash: string -> string)
    requires IsLabel(base) && m < Pow10(20) && n < Pow10(20) && m != n && LowerCases(lower)
    ensures WithSuffix(base, Decimal(m), lower, hash) != WithSuffix(base, Decimal(n), lower, hash)
  {
    hide Decimal, WithSuffix, LowerCases;
    var a := NumberedShape(base, m, lower, hash);
    var b := NumberedShape(base, n, lower, hash);
    DigitsClean(m);
    DigitsClean(n);
    ParseOfDecimal(m);
    ParseOfDecimal(n);
    if a + "-" + Decimal(m) == b + "-" + Decimal(n) {
      SameTail(a, Decimal(m), b, Decimal(n));
    }
  }

  lemma SameTail(a: string, x: string, b: string, y: string)
    requires '-' !in x && '-' !in y && a + "-" + x == b + "-" + y
    ensures x == y
  {
    var s := a + "-" + x;
    assert s == b + "-" + y;
    assert s[|a|] == '-' && s[|b|] == '-';
    assert forall i :: |a| < i < |s| ==> s[i] == x[i - |a| - 1];
    assert forall i :: |b| < i < |s| ==> s[i] == y[i - |b| - 1];
    assert |a| == |b|;
    assert x == s[|a| + 1..] && y == s[|b| + 1..];
  }

  // ---- The search for an unused name --------------------------------------------------------------

  function Candidates(base: string, lo: nat, hi: nat, lower: char -> char, hash: string -> string): set<string> {
    set n | lo <= n < hi :: WithSuffix(base, Decimal(n), lower, hash)
  }

  /** A window of numbers gives as many names: the search cannot meet only used ones for longer than
      there are used names. */
  lemma {:induction false} CandidatesCount(base: string, lo: nat, hi: nat, lower: char -> char, hash: string -> string)
    requires IsLabel(base) && lo <= hi <= Pow10(20) && LowerCases(lower)
    ensures |Candidates(base, lo, hi, lower, hash)| == hi - lo
    decreases hi - lo
  {
    hide WithSuffix, LowerCases, IsLabel, Decimal;
    if lo < hi {
      var last := hi - 1;
      CandidatesCount(base, lo, last, lower, hash);
      var rest, name := Candidates(base, lo, last, lower, hash), WithSuffix(base, Decimal(last), lower, hash);
      forall n: nat | lo <= n < last
        ensures WithSuffix(base, Decimal(n), lower, hash) != name
      {
        NumberedDistinct(base, n, last, lower, hash);
      }
      assert Candidates(base, lo, hi, lower, hash) == rest + {name};
    }
  }

  lemma SearchBound(base: string, hi: nat, used: set<string>, lower: char -> char, hash: string -> string)
    requires IsLabel(base) && 2 <= hi <= Pow10(20) && LowerCases(lower)
    requires Candidates(base, 2, hi, lower, hash) <= used
    ensures hi - 2 <= |used|
  {
    CandidatesCount(base, 2, hi, lower, hash);
    var c := Candidates(base, 2, hi, lower, hash);
    assert used == c + (used - c);
  }

  lemma PlanIsLabel()
    ensures IsLabel("plan")
  {
  }

  lemma NextTried(base: string, n: nat, lower: char -> char, hash: string -> string)
    requires n >= 2
    ensures Candidates(base, 2, 2, lower, hash) == {}
    ensures Candidates(base, 2, n + 1, lower, hash)
              == Candidates(base, 2, n, lower, hash) + {WithSuffix(base, Decimal(n), lower, hash)}
  {
    hide WithSuffix, Decimal;
  }

  /** `uniquePlanRefName`: terminates for every set of used names and returns a valid label that is not
      among them. */
  method UniquePlanRefName(plan: string, used: set<string>, lower: char -> char, hash: string -> string)
    returns (name: string, nowUsed: set<string>)
    requires LowerCases(lower) && HashesHex(hash) && |used| < MAX_LEN
    ensures name !in used && nowUsed == used + {name} && IsLabel(name)
    ensures var value := LabelValue(plan, lower, hash);
            var base := if value == "" then "plan" else value;
            && (base !in used ==> name == base)
            && (base in used ==>
                  exists n :: 2 <= n <= |used| + 2 && name == WithSuffix(base, Decimal(n), lower, hash)
                              && Candidates(base, 2, n, lower, hash) <= used)
  {
    hide WithSuffix, Candidates, IsLabel, LowerCases, HashesHex, LabelValue, Decimal, Pow10;
    Pow10Of20();
    var base := DnsLabelValue(plan, lower, hash);
    LabelValueValid(plan, lower, hash);
    if base == "" {
      base := "plan";
      PlanIsLabel();
    }
    var candidate := base;
    var suffix: nat := 2;
    while candidate in used
      invariant 2 <= suffix <= |used| + 3 && IsLabel(candidate)
      invariant if suffix == 2 then candidate == base else base in used
      invariant suffix > 2 ==> candidate == WithSuffix(base, Decimal(suffix - 1), lower, hash)
      invariant suffix > 2 ==> Candidates(base, 2, suffix - 1, lower, hash) <= used
      decreases |used| + 3 - suffix
    {
      NextTried(base, if suffix > 2 then suffix - 1 else 2, lower, hash);
      SearchBound(base, suffix, used, lower, hash);
      var _ := NumberedShape(base, suffix, lower, hash);
      candidate := WithSuffix(base, Decimal(suffix), lower, hash);
      suffix := suffix + 1;
    }
    name, nowUsed := candidate, used + {candidate};
  }

  datatype PlanRef = PlanRef(name: string, plan: string)

  /** The plan references of one promote command: one per plan in order, all names valid labels and
      pairwise different. */
  method PlanRefs(plans: seq<string>, lower: char -> char, hash: string -> string) returns (refs: seq<PlanRef>)
    requires LowerCases(lower) && HashesHex(hash) && |plans| < MAX_LEN
    ensures |refs| == |plans| && forall i :: 0 <= i < |refs| ==> refs[i].plan == plans[i] && IsLabel(refs[i].name)
    ensures forall i, j :: 0 <= i < j < |refs| ==> refs[i].name != refs[j].name
  {
    hide IsLabel, LowerCases, HashesHex, LabelValue, WithSuffix, Candidates, Decimal;
    refs := [];
    var used: set<string> := {};
    for i := 0 to |plans|
      invariant |refs| == i && |used| == i
      invariant forall j :: 0 <= j < i ==> refs[j].name in used
      invariant forall j :: 0 <= j < i ==> refs[j].plan == plans[j] && IsLabel(refs[j].name)
      invariant forall a, b :: 0 <= a < b < i ==> refs[a].name != refs[b].name
    {
      var name, nowUsed := UniquePlanRefName(plans[i], used, lower, hash);
      refs := refs + [PlanRef(name, plans[i])];
      used := nowUsed;
    }
  }
}
