/** Strings as Go compares and formats them: lexicographic order and decimal numerals. */
module Text {

  /** `a < b` on Go strings: the first differing character decides, a proper prefix is smaller. */
  predicate LexLess(a: string, b: string) {
    b != "" &&
    (a == "" || a[0] < b[0] || (a[0] == b[0] && LexLess(a[1..], b[1..])))
  }

  /** The characters before the first difference agree. */
  lemma {:induction false} LexLessIff(a: string, b: string)
    ensures LexLess(a, b) <==>
              exists k :: 0 <= k <= |a| && k < |b| && a[..k] == b[..k] && (k == |a| || a[k] < b[k])
  {
    if a != "" && b != "" && a[0] == b[0] {
      LexLessIff(a[1..], b[1..]);
      if LexLess(a, b) {
        var k :| 0 <= k <= |a[1..]| && k < |b[1..]| && a[1..][..k] == b[1..][..k]
                 && (k == |a[1..]| || a[1..][k] < b[1..][k]);
        assert a[..k + 1] == [a[0]] + a[1..][..k] && b[..k + 1] == [b[0]] + b[1..][..k];
      }
      if k :| 0 <= k <= |a| && k < |b| && a[..k] == b[..k] && (k == |a| || a[k] < b[k]) {
        assert k > 0;
        assert a[1..][..k - 1] == a[..k][1..] && b[1..][..k - 1] == b[..k][1..];
      }
    } else if a != "" && b != "" {
      assert forall k :: 0 < k <= |a| && k < |b| ==> a[..k][0] == a[0] && b[..k][0] == b[0];
      assert a[..0] == b[..0];
    } else {
      assert a[..0] == b[..0];
    }
  }

  lemma {:induction false} LexTotal(a: string, b: string)
    ensures LexLess(a, b) || LexLess(b, a) || a == b
    ensures !(LexLess(a, b) && LexLess(b, a))
    ensures !LexLess(a, a)
  {
    if a != "" {
      LexTotal(a[1..], a[1..]);
      if b != "" && a[0] == b[0] {
        LexTotal(a[1..], b[1..]);
        assert a == [a[0]] + a[1..] && b == [b[0]] + b[1..];
      }
    }
  }

  lemma {:induction false} LexTransitive(a: string, b: string, c: string)
    requires LexLess(a, b) && LexLess(b, c)
    ensures LexLess(a, c)
  {
    if a != "" && a[0] == b[0] && b[0] == c[0] {
      LexTransitive(a[1..], b[1..], c[1..]);
    }
  }

  predicate HasPrefix(s: string, prefix: string) { |s| >= |prefix| && s[..|prefix|] == prefix }

  /** `strings.TrimRight(s, "-")`. */
  function TrimRight(s: string): (r: string)
    ensures |r| <= |s| && r == s[..|r|]
  {
    if s != "" && s[|s| - 1] == '-' then TrimRight(s[..|s| - 1]) else s
  }

  /** What is cut off are dashes, and no dash is left at the end. */
  lemma {:induction false} TrimRightStops(s: string)
    ensures var r := TrimRight(s);
            (r != "" ==> r[|r| - 1] != '-') && forall k :: |r| <= k < |s| ==> s[k] == '-'
  {
    if s != "" && s[|s| - 1] == '-' { TrimRightStops(s[..|s| - 1]); }
  }

  const DIGITS: seq<char> := ['0', '1', '2', '3', '4', '5', '6', '7', '8', '9']

  predicate IsDigit(c: char) { '0' <= c <= '9' }

  /** `fmt.Sprintf("%d", n)` for a non-negative n. */
  function Decimal(n: nat): (s: string)
    ensures s != "" && forall i :: 0 <= i < |s| ==> IsDigit(s[i])
  {
    if n < 10 then [DIGITS[n]] else Decimal(n / 10) + [DIGITS[n % 10]]
  }

  /** `fmt.Sprintf("%02d", n)` for a non-negative n. */
  function Decimal2(n: nat): string {
    if n < 10 then "0" + Decimal(n) else Decimal(n)
  }

  /** Reads a numeral back; the inverse of both formats. */
  function ParseDecimal(s: string): int {
    if s == "" then 0 else 10 * ParseDecimal(s[..|s| - 1]) + (s[|s| - 1] as int - '0' as int)
  }

  lemma {:induction false} ParseOfDecimal(n: nat)
    ensures ParseDecimal(Decimal(n)) == n
  {
    var s := Decimal(n);
    if n < 10 {
      assert s[..|s| - 1] == "" && s[|s| - 1] == DIGITS[n];
    } else {
      ParseOfDecimal(n / 10);
      assert s[..|s| - 1] == Decimal(n / 10) && s[|s| - 1] == DIGITS[n % 10];
    }
  }

  lemma ParseOfDecimal2(n: nat)
    ensures ParseDecimal(Decimal2(n)) == n
  {
    ParseOfDecimal(n);
    if n < 10 {
      var s := Decimal2(n);
      assert s[..|s| - 1] == "0" && s[|s| - 1] == DIGITS[n];
      assert "0"[..0] == "";
    }
  }
}
