/**
 * String helpers shared by the codecs: splitting on a delimiter the way
 * Rust's `str::split(char)` does, joining back, and decimal rendering of
 * unsigned numbers (`{}` on a `u64`).
 */
module Text {

  /** Rust's `s.split(d)`: always at least one piece; empty pieces are kept. */
  function Split(s: string, d: char): (r: seq<string>)
    ensures |r| >= 1
    ensures forall k :: 0 <= k < |r| ==> d !in r[k]
  {
    if |s| == 0 then [""]
    else if s[0] == d then [""] + Split(s[1..], d)
    else
      var t := Split(s[1..], d);
      [[s[0]] + t[0]] + t[1..]
  }

  /** The inverse of Split: the pieces with the delimiter between them. */
  function Join(p: seq<string>, d: char): string
    requires |p| >= 1
  {
    if |p| == 1 then p[0] else p[0] + [d] + Join(p[1..], d)
  }

  lemma {:induction false} JoinSplit(s: string, d: char)
    ensures Join(Split(s, d), d) == s
  {
    if |s| == 0 {
    } else if s[0] == d {
      JoinSplit(s[1..], d);
      assert Split(s, d) == [""] + Split(s[1..], d);
      assert s == [d] + s[1..];
    } else {
      JoinSplit(s[1..], d);
      var t := Split(s[1..], d);
      if |t| == 1 {
        assert Join(t, d) == t[0];
      } else {
        assert Join(t, d) == t[0] + [d] + Join(t[1..], d);
        assert ([[s[0]] + t[0]] + t[1..])[1..] == t[1..];
      }
      assert s == [s[0]] + s[1..];
    }
  }

  /** A string without the delimiter splits into itself. */
  lemma {:induction false} SplitNoDelimiter(s: string, d: char)
    requires d !in s
    ensures Split(s, d) == [s]
  {
    if |s| > 0 {
      assert d !in s[1..] by {
        forall k | 0 <= k < |s[1..]| ensures s[1..][k] != d { assert s[1..][k] == s[k + 1]; }
      }
      SplitNoDelimiter(s[1..], d);
      assert [s[0]] + s[1..] == s;
    }
  }

  /** Splitting `a d b` where `a` holds no delimiter peels off `a`. */
  lemma {:induction false} SplitCons(a: string, b: string, d: char)
    requires d !in a
    ensures Split(a + [d] + b, d) == [a] + Split(b, d)
  {
    if |a| == 0 {
      assert a + [d] + b == [d] + b;
      assert ([d] + b)[1..] == b;
    } else {
      assert d !in a[1..] by {
        forall k | 0 <= k < |a[1..]| ensures a[1..][k] != d { assert a[1..][k] == a[k + 1]; }
      }
      SplitCons(a[1..], b, d);
      var s := a + [d] + b;
      assert s[0] == a[0];
      assert s[1..] == a[1..] + [d] + b;
      assert [a[0]] + a[1..] == a;
    }
  }

  /** Splitting after joining gives the pieces back when none holds the delimiter. */
  lemma {:induction false} SplitJoin(p: seq<string>, d: char)
    requires |p| >= 1
    requires forall k :: 0 <= k < |p| ==> d !in p[k]
    ensures Split(Join(p, d), d) == p
  {
    if |p| == 1 {
      SplitNoDelimiter(p[0], d);
    } else {
      SplitJoin(p[1..], d);
      SplitCons(p[0], Join(p[1..], d), d);
      assert [p[0]] + p[1..] == p;
    }
  }

  /** The first piece of a split is a prefix of the string, and when there is
   *  a second piece, a delimiter follows the first one. */
  lemma {:induction false} SplitHead(s: string, d: char)
    ensures |Split(s, d)[0]| <= |s| && s[..|Split(s, d)[0]|] == Split(s, d)[0]
    ensures |Split(s, d)| >= 2 ==>
              |Split(s, d)[0]| < |s| && s[|Split(s, d)[0]|] == d &&
              Split(s[|Split(s, d)[0]| + 1..], d) == Split(s, d)[1..]
  {
    var p0 := Split(s, d)[0];
    if |s| == 0 {
    } else if s[0] == d {
    } else {
      SplitHead(s[1..], d);
      var t := Split(s[1..], d);
      assert p0 == [s[0]] + t[0];
      assert s[..|p0|] == [s[0]] + s[1..][..|t[0]|];
      if |Split(s, d)| >= 2 {
        assert s[|p0| + 1..] == s[1..][|t[0]| + 1..];
      }
    }
  }

  /** The last piece of a split is a suffix of the string, and when there are
   *  two pieces or more, a delimiter precedes it. */
  lemma SplitLast(s: string, d: char)
    ensures var r := Split(s, d); var l := r[|r| - 1];
      |l| <= |s| && s[|s| - |l|..] == l &&
      (|r| >= 2 ==> |l| < |s| && s[|s| - |l| - 1] == d)
  {
    JoinSplit(s, d);
    JoinLast(Split(s, d), d);
  }

  /** The last piece ends the joined string, right after a delimiter when
   *  there are two pieces or more. */
  lemma {:induction false} JoinLast(p: seq<string>, d: char)
    requires |p| >= 1
    ensures var l := p[|p| - 1]; var j := Join(p, d);
      |l| <= |j| && j[|j| - |l|..] == l &&
      (|p| >= 2 ==> |l| < |j| && j[|j| - |l| - 1] == d)
  {
    if |p| >= 2 {
      var l, rest := p[|p| - 1], Join(p[1..], d);
      JoinLast(p[1..], d);
      var j := p[0] + [d] + rest;
      assert Join(p, d) == j;
      assert j[|j| - |l|..] == rest[|rest| - |l|..];
      if |p| == 2 {
        assert rest == l;
      } else {
        assert j[|j| - |l| - 1] == rest[|rest| - |l| - 1];
      }
    }
  }

  /** Splitting at one delimiter between two strings splits each side
   *  on its own: the pieces of `x d y` are those of `x`, then those of `y`. */
  lemma {:induction false} SplitAppend(x: string, y: string, d: char)
    ensures Split(x + [d] + y, d) == Split(x, d) + Split(y, d)
    decreases |x|
  {
    if d !in x {
      SplitCons(x, y, d);
      SplitNoDelimiter(x, d);
    } else {
      DelimiterSplits(x, d);
      SplitHead(x, d);
      var h := Split(x, d)[0];
      var t := x[|h| + 1..];
      assert x == h + [d] + t;
      assert x + [d] + y == h + [d] + (t + [d] + y);
      SplitCons(h, t + [d] + y, d);
      SplitAppend(t, y, d);
      var px, pt, py := Split(x, d), Split(t, d), Split(y, d);
      assert px == [h] + pt;
      assert Split(x + [d] + y, d) == [h] + (pt + py);
      assert [h] + (pt + py) == ([h] + pt) + py;
    }
  }

  /** A string holding the delimiter splits into two pieces or more. */
  lemma {:induction false} DelimiterSplits(s: string, d: char)
    requires d in s
    ensures |Split(s, d)| >= 2
  {
    if s[0] != d {
      assert d in s[1..] by {
        var k :| 0 <= k < |s| && s[k] == d;
        assert s[1..][k - 1] == d;
      }
      DelimiterSplits(s[1..], d);
    }
  }

  function DigitChar(n: nat): (c: char)
    requires n < 10
    ensures '0' <= c <= '9'
  {
    ['0', '1', '2', '3', '4', '5', '6', '7', '8', '9'][n]
  }

  function DigitValue(c: char): nat
    requires '0' <= c <= '9'
  {
    (c as int - '0' as int) as nat
  }

  /** Decimal rendering of an unsigned number, without leading zeros. */
  function NatToString(n: nat): (r: string)
    ensures |r| >= 1
    ensures forall k :: 0 <= k < |r| ==> '0' <= r[k] <= '9'
    decreases n
  {
    if n < 10 then [DigitChar(n)] else NatToString(n / 10) + [DigitChar(n % 10)]
  }

  /** Reading a string of decimal digits back as a number. */
  function ParseDigits(s: string): nat
    requires forall k :: 0 <= k < |s| ==> '0' <= s[k] <= '9'
  {
    if |s| == 0 then 0 else 10 * ParseDigits(s[..|s| - 1]) + DigitValue(s[|s| - 1])
  }

  lemma {:induction false} ParseNatToString(n: nat)
    ensures ParseDigits(NatToString(n)) == n
    decreases n
  {
    var r := NatToString(n);
    if n < 10 {
      assert r[..|r| - 1] == [];
    } else {
      ParseNatToString(n / 10);
      assert r[..|r| - 1] == NatToString(n / 10);
      assert r[|r| - 1] == DigitChar(n % 10);
    }
  }

  /** Decimal rendering is injective: different numbers print differently. */
  lemma NatToStringInjective(m: nat, n: nat)
    requires NatToString(m) == NatToString(n)
    ensures m == n
  {
    ParseNatToString(m);
    ParseNatToString(n);
  }
}
