/** Substring search and decimal conversions shared by the classifier, the
    year extractor and the page URL builder. */
module Text {

  /** Python's `k in s` on two strings: `k` occurs somewhere in `s`
      (the empty string occurs in every string). */
  predicate Contains(s: string, k: string)
    decreases |s|
  {
    if |k| > |s| then false
    else if s[..|k|] == k then true
    else Contains(s[1..], k)
  }

  /** `k` occurs in `s` starting at index `i`. */
  ghost predicate OccursAt(s: string, k: string, i: int)
  {
    0 <= i && i + |k| <= |s| && s[i..i + |k|] == k
  }

  /** The scan above finds `k` exactly when `k` occurs at some index of `s`. */
  lemma {:induction false} ContainsIff(s: string, k: string)
    ensures Contains(s, k) <==> exists i :: OccursAt(s, k, i)
    decreases |s|
  {
    if |k| > |s| {
    } else if s[..|k|] == k {
      assert OccursAt(s, k, 0);
    } else {
      ContainsIff(s[1..], k);
      if Contains(s[1..], k) {
        var i :| OccursAt(s[1..], k, i);
        OccursAfterHead(s, k, i);
      } else {
        forall i ensures !OccursAt(s, k, i) {
          if i <= 0 {
            assert i == 0 ==> s[0..|k|] == s[..|k|];
          } else {
            OccursAfterHead(s, k, i - 1);
          }
        }
      }
    }
  }

  /** An occurrence in the tail of `s` is an occurrence in `s` one place later. */
  lemma OccursAfterHead(s: string, k: string, i: nat)
    requires |s| > 0
    ensures OccursAt(s[1..], k, i) <==> OccursAt(s, k, i + 1)
  {
    if 0 <= i && i + |k| <= |s| - 1 {
      assert s[1..][i..i + |k|] == s[i + 1..i + 1 + |k|];
    }
  }

  /** A non-empty key whose first character does not appear in `s` is not in `s`. */
  lemma {:induction false} AbsentFirstChar(s: string, k: string)
    requires |k| > 0 && k[0] !in s
    ensures !Contains(s, k)
    decreases |s|
  {
    if |k| <= |s| {
      assert s[..|k|][0] == s[0];
      assert k[0] !in s[1..] by {
        forall c | c in s[1..] ensures c in s {
          var j :| 0 <= j < |s[1..]| && s[1..][j] == c;
          assert s[j + 1] == c;
        }
      }
      AbsentFirstChar(s[1..], k);
    }
  }

  predicate IsAsciiDigit(c: char)
  {
    '0' <= c <= '9'
  }

  predicate AllAsciiDigits(s: string)
  {
    forall i :: 0 <= i < |s| ==> IsAsciiDigit(s[i])
  }

  function DigitChar(d: nat): (c: char)
    requires d < 10
    ensures IsAsciiDigit(c)
  {
    ['0', '1', '2', '3', '4', '5', '6', '7', '8', '9'][d]
  }

  function DigitValue(c: char): (d: nat)
    requires IsAsciiDigit(c)
    ensures d < 10 && DigitChar(d) == c
  {
    (c as int - '0' as int)
  }

  /** `10^n`. */
  function Power10(n: nat): nat
  {
    if n == 0 then 1 else 10 * Power10(n - 1)
  }

  /** Four digits read as a number below `10^4 == 10000`. */
  lemma Power10Four()
    ensures Power10(4) == 10000
  {
    assert Power10(1) == 10 && Power10(2) == 100 && Power10(3) == 1000;
  }

  /** Python's `str(n)` for a non-negative integer: its decimal digits,
      without leading zeros. */
  function NatToString(n: nat): (s: string)
    ensures |s| > 0 && AllAsciiDigits(s)
    ensures |s| > 1 ==> s[0] != '0'
    decreases n
  {
    if n < 10 then [DigitChar(n)] else NatToString(n / 10) + [DigitChar(n % 10)]
  }

  /** Python's `str(n)` for any integer. */
  function IntToString(n: int): (s: string)
    ensures |s| > 0
    ensures n < 0 <==> s[0] == '-'
  {
    if n < 0 then "-" + NatToString(-n) else NatToString(n)
  }

  /** Python's `int(d)` for a string of ASCII decimal digits. */
  function DigitsValue(d: string): (n: nat)
    requires AllAsciiDigits(d)
    ensures n < Power10(|d|)
    decreases |d|
  {
    if d == [] then 0 else DigitsValue(d[..|d| - 1]) * 10 + DigitValue(d[|d| - 1])
  }

  /** `int(str(n)) == n`. */
  lemma {:induction false} DigitsValueOfNatToString(n: nat)
    ensures DigitsValue(NatToString(n)) == n
    decreases n
  {
    if n >= 10 {
      var t := NatToString(n / 10);
      var s := t + [DigitChar(n % 10)];
      assert NatToString(n) == s;
      assert s[..|s| - 1] == t;
      DigitsValueOfNatToString(n / 10);
      assert DigitsValue(s) == DigitsValue(t) * 10 + DigitValue(DigitChar(n % 10));
    }
  }

  /** Four-digit numbers print as exactly four digits. */
  lemma FourDigits(n: nat)
    requires 1000 <= n <= 9999
    ensures |NatToString(n)| == 4
  {
    var a := n / 10;
    var b := a / 10;
    var c := b / 10;
    assert 1 <= c < 10;
    assert |NatToString(c)| == 1;
    assert |NatToString(b)| == 2;
    assert |NatToString(a)| == 3;
  }

  /** `str` is injective on naturals. */
  lemma NatToStringInjective(x: nat, y: nat)
    requires NatToString(x) == NatToString(y)
    ensures x == y
  {
    DigitsValueOfNatToString(x);
    DigitsValueOfNatToString(y);
  }

  /** `str` is injective on integers: distinct numbers print differently. */
  lemma IntToStringInjective(a: int, b: int)
    requires IntToString(a) == IntToString(b)
    ensures a == b
  {
    var s := IntToString(a);
    if a < 0 {
      assert b < 0;
      var x: nat := -a;
      var y: nat := -b;
      assert s == "-" + NatToString(x) == "-" + NatToString(y);
      assert s[1..] == NatToString(x);
      assert s[1..] == NatToString(y);
      NatToStringInjective(x, y);
    } else {
      assert b >= 0;
      NatToStringInjective(a, b);
    }
  }
}
