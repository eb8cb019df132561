/**
  Dates as text: `strftime('%Y-%m-%d')` and the string comparison that the
  warehouse's `WHERE date >= '...'` performs on such text.

  Strings compare lexicographically by character code (Python's and SQL's
  string order). Dafny's own `<` on sequences means "proper prefix", so the
  order is defined here as `LexLess`.
 */
module DateText {
  import opened Calendar

  /** Lexicographic strict order on strings, as Python's `str.__lt__`. */
  predicate LexLess(a: string, b: string)
    decreases |a|
  {
    if |b| == 0 then false
    else if |a| == 0 then true
    else if a[0] != b[0] then a[0] < b[0]
    else LexLess(a[1..], b[1..])
  }

  function Pow10(w: nat): (p: nat)
    ensures p >= 1
  {
    if w == 0 then 1 else 10 * Pow10(w - 1)
  }

  function DigitChar(k: int): (c: char)
    requires 0 <= k < 10
    ensures '0' <= c <= '9'
  {
    ('0' as int + k) as char
  }

  /** The last `w` decimal digits of `n`, zero-padded on the left. */
  function Digits(n: nat, w: nat): (s: string)
    ensures |s| == w
    ensures forall i :: 0 <= i < |s| ==> '0' <= s[i] <= '9'
  {
    if w == 0 then "" else Digits(n / 10, w - 1) + [DigitChar(n % 10)]
  }

  /** `strftime('%Y-%m-%d')`: four-digit year, two-digit month and day. */
  function Format(d: Date): (s: string)
    requires ValidDate(d)
    ensures |s| == 10
    ensures s[4] == '-' && s[7] == '-'
  {
    Digits(d.year, 4) + "-" + Digits(d.month, 2) + "-" + Digits(d.day, 2)
  }

  // ----- lexicographic order facts -----

  lemma {:induction false} LexLessIrreflexive(a: string)
    ensures !LexLess(a, a)
    decreases |a|
  {
    if |a| > 0 {
      LexLessIrreflexive(a[1..]);
    }
  }

  /** Comparing two concatenations whose first parts have equal length. */
  lemma {:induction false} LexLessConcat(p1: string, q1: string, p2: string, q2: string)
    requires |p1| == |p2|
    ensures LexLess(p1 + q1, p2 + q2) <==> LexLess(p1, p2) || (p1 == p2 && LexLess(q1, q2))
    decreases |p1|
  {
    if |p1| == 0 {
      assert p1 + q1 == q1 && p2 + q2 == q2;
    } else {
      assert (p1 + q1)[0] == p1[0] && (p2 + q2)[0] == p2[0];
      assert (p1 + q1)[1..] == p1[1..] + q1;
      assert (p2 + q2)[1..] == p2[1..] + q2;
      LexLessConcat(p1[1..], q1, p2[1..], q2);
      if p1[0] == p2[0] {
        assert p1 == p2 <==> p1[1..] == p2[1..] by {
          if p1[1..] == p2[1..] {
            assert p1 == [p1[0]] + p1[1..] && p2 == [p2[0]] + p2[1..];
          }
        }
      }
    }
  }

  /** Splitting off the last decimal digit keeps the bound and the order. */
  lemma LastDigitSplit(a: nat, b: nat, w: nat)
    requires w > 0 && a < Pow10(w) && b < Pow10(w)
    ensures a / 10 < Pow10(w - 1) && b / 10 < Pow10(w - 1)
    ensures a == b <==> a / 10 == b / 10 && a % 10 == b % 10
    ensures a < b <==> a / 10 < b / 10 || (a / 10 == b / 10 && a % 10 < b % 10)
  {
    assert a == 10 * (a / 10) + a % 10;
    assert b == 10 * (b / 10) + b % 10;
  }

  /** Zero-padded numerals of one width compare as the numbers do. */
  lemma {:induction false} DigitsOrder(a: nat, b: nat, w: nat)
    requires a < Pow10(w) && b < Pow10(w)
    ensures Digits(a, w) == Digits(b, w) <==> a == b
    ensures LexLess(Digits(a, w), Digits(b, w)) <==> a < b
  {
    if w == 0 {
      LexLessIrreflexive("");
    } else {
      LastDigitSplit(a, b, w);
      DigitsOrder(a / 10, b / 10, w - 1);
      var ca, cb := [DigitChar(a % 10)], [DigitChar(b % 10)];
      LexLessConcat(Digits(a / 10, w - 1), ca, Digits(b / 10, w - 1), cb);
      assert LexLess(ca, cb) <==> a % 10 < b % 10;
      if Digits(a, w) == Digits(b, w) {
        assert Digits(a / 10, w - 1) == Digits(a, w)[..w - 1] == Digits(b / 10, w - 1);
        assert ca[0] == Digits(a, w)[w - 1] == cb[0];
      }
    }
  }

  /** Concatenation of two segment pairs of equal lengths, with a separator. */
  lemma JoinOrder(p1: string, q1: string, p2: string, q2: string)
    requires |p1| == |p2|
    ensures p1 + "-" + q1 == p2 + "-" + q2 <==> p1 == p2 && q1 == q2
    ensures LexLess(p1 + "-" + q1, p2 + "-" + q2) <==> LexLess(p1, p2) || (p1 == p2 && LexLess(q1, q2))
  {
    LexLessIrreflexive("-");
    LexLessConcat(p1, "-" + q1, p2, "-" + q2);
    LexLessConcat("-", q1, "-", q2);
    assert p1 + "-" + q1 == p1 + ("-" + q1);
    assert p2 + "-" + q2 == p2 + ("-" + q2);
    if p1 + "-" + q1 == p2 + "-" + q2 {
      assert p1 == (p1 + "-" + q1)[..|p1|] == p2;
      assert q1 == (p1 + "-" + q1)[|p1| + 1..] == q2;
    }
  }

  /** For dates of four-digit years the text order is the calendar order. */
  lemma FormatOrder(a: Date, b: Date)
    requires ValidDate(a) && ValidDate(b)
    ensures Format(a) == Format(b) <==> a == b
    ensures LexLess(Format(a), Format(b)) <==> Before(a, b)
  {
    assert Pow10(2) == 100 && Pow10(4) == 10000 by {
      assert Pow10(1) == 10;
      assert Pow10(3) == 1000;
    }
    DigitsOrder(a.year, b.year, 4);
    DigitsOrder(a.month, b.month, 2);
    DigitsOrder(a.day, b.day, 2);
    var ya, yb := Digits(a.year, 4), Digits(b.year, 4);
    var ma, mb := Digits(a.month, 2), Digits(b.month, 2);
    JoinOrder(ya + "-" + ma, Digits(a.day, 2), yb + "-" + mb, Digits(b.day, 2));
    JoinOrder(ya, ma, yb, mb);
  }
}
