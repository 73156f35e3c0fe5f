/** Text as the database and Python see it: the order of SQLite's BINARY collation,
    blank strings, `str.strip`, and decimal rendering. */
module Text {

  // ---------------------------------------------------------------- order

  /** Strict order of two TEXT values, character by character. */
  predicate Less(a: string, b: string)
  {
    if |b| == 0 then false
    else if |a| == 0 then true
    else if a[0] != b[0] then a[0] < b[0]
    else Less(a[1..], b[1..])
  }

  lemma {:induction false} LessTrichotomy(a: string, b: string)
    ensures a == b || Less(a, b) || Less(b, a)
    ensures !(Less(a, b) && Less(b, a))
    ensures a == b ==> !Less(a, b)
  {
    if |a| > 0 && |b| > 0 {
      LessTrichotomy(a[1..], b[1..]);
      if a[0] == b[0] && a[1..] == b[1..] {
        assert a == [a[0]] + a[1..] && b == [b[0]] + b[1..];
      }
    }
  }

  lemma {:induction false} LessTransitive(a: string, b: string, c: string)
    requires Less(a, b) && Less(b, c)
    ensures Less(a, c)
  {
    if |a| > 0 && a[0] == b[0] == c[0] {
      LessTransitive(a[1..], b[1..], c[1..]);
    }
  }

  /** Two texts with prefixes of one length are ordered by the prefixes first. */
  lemma {:induction false} LessByPrefix(p: string, q: string, x: string, y: string)
    requires |p| == |q|
    ensures Less(p + x, q + y) <==> if p == q then Less(x, y) else Less(p, q)
  {
    if |p| == 0 {
      assert p + x == x && q + y == y;
    } else {
      LessByPrefix(p[1..], q[1..], x, y);
      assert (p + x)[1..] == p[1..] + x && (q + y)[1..] == q[1..] + y;
      assert p == [p[0]] + p[1..] && q == [q[0]] + q[1..];
    }
  }

  // ---------------------------------------------------------------- sorting

  predicate Before(a: string, ss: set<string>)
  {
    forall b :: b in ss && b != a ==> Less(a, b)
  }

  lemma {:induction false} LeastExists(ss: set<string>)
    requires ss != {}
    ensures exists a :: a in ss && Before(a, ss)
    decreases |ss|
  {
    var a :| a in ss;
    if ss == {a} {
      assert Before(a, ss);
    } else {
      var rest := ss - {a};
      assert rest != {};
      LeastExists(rest);
      var m :| m in rest && Before(m, rest);
      LessTrichotomy(a, m);
      if Less(m, a) {
        assert Before(m, ss);
      } else {
        forall b | b in ss && b != a ensures Less(a, b) {
          if b != m { LessTransitive(a, m, b); }
        }
        assert Before(a, ss);
      }
    }
  }

  lemma LeastUnique(ss: set<string>, a: string, b: string)
    requires a in ss && Before(a, ss) && b in ss && Before(b, ss)
    ensures a == b
  {
    LessTrichotomy(a, b);
  }

  lemma LeastsAgree(ss: set<string>)
    ensures forall a, b :: a in ss && Before(a, ss) && b in ss && Before(b, ss) ==> a == b
  {
    forall a, b | a in ss && Before(a, ss) && b in ss && Before(b, ss) ensures a == b {
      LeastUnique(ss, a, b);
    }
  }

  /** `sorted(...)` of a set of strings. */
  function SortedStrings(ss: set<string>): (r: seq<string>)
    ensures forall s :: s in r <==> s in ss
    ensures |r| == |ss|
    ensures forall i, j :: 0 <= i < j < |r| ==> Less(r[i], r[j])
    decreases |ss|
  {
    if ss == {} then []
    else
      LeastExists(ss);
      LeastsAgree(ss);
      var a :| a in ss && Before(a, ss);
      [a] + SortedStrings(ss - {a})
  }

  // ---------------------------------------------------------------- blanks

  /** The characters that Python's `str.strip` removes. */
  predicate IsSpace(c: char)
  {
    var n := c as int;
    || 9 <= n <= 13 || 28 <= n <= 32 || n == 133 || n == 160 || n == 5760
    || 8192 <= n <= 8202 || n == 8232 || n == 8233 || n == 8239 || n == 8287 || n == 12288
  }

  /** `not s.strip()`. */
  const SPACES: string :=
    "\t\n\U{000B}\U{000C}\r\U{001C}\U{001D}\U{001E}\U{001F} \U{0085}\U{00A0}\U{1680}\U{2000}\U{2001}\U{2002}"
    + "\U{2003}\U{2004}\U{2005}\U{2006}\U{2007}\U{2008}\U{2009}\U{200A}\U{2028}\U{2029}\U{202F}\U{205F}\U{3000}"

  /** The 29 whitespace characters of Unicode as Python counts them. */
  lemma SpaceIsWhitespace(c: char)
    ensures |SPACES| == 29 && (IsSpace(c) <==> c in SPACES)
  {
  }

  predicate Blank(s: string)
  {
    forall i :: 0 <= i < |s| ==> IsSpace(s[i])
  }

  /** `trim(s) = ''` in SQLite, which strips the space character only. */
  predicate SqlBlank(s: string)
  {
    forall i :: 0 <= i < |s| ==> s[i] == ' '
  }

  /** `str.strip`. */
  function Strip(s: string): (r: string)
    ensures |r| <= |s|
    ensures r == "" <==> Blank(s)
    ensures r != "" ==> !IsSpace(r[0]) && !IsSpace(r[|r| - 1])
    ensures |s| > 0 && !IsSpace(s[0]) && !IsSpace(s[|s| - 1]) ==> r == s
    decreases |s|
  {
    if |s| == 0 then s
    else if IsSpace(s[0]) then
      var r := Strip(s[1..]);
      assert Blank(s) <==> Blank(s[1..]) by {
        if Blank(s[1..]) {
          forall i | 0 <= i < |s| ensures IsSpace(s[i]) {
            if i > 0 { assert IsSpace(s[1..][i - 1]); }
          }
        } else {
          var i :| 0 <= i < |s[1..]| && !IsSpace(s[1..][i]);
          assert !IsSpace(s[i + 1]);
        }
      }
      r
    else if IsSpace(s[|s| - 1]) then
      var r := Strip(s[..|s| - 1]);
      assert !IsSpace(s[..|s| - 1][0]);
      r
    else s
  }

  /** Characters `i` to `j` of the text are what stripping leaves, and only blanks surround them. */
  predicate StripsTo(s: string, i: nat, j: nat)
  {
    i <= j <= |s| && Strip(s) == s[i..j] && Blank(s[..i]) && Blank(s[j..])
  }

  lemma StripsFront(s: string, i: nat, j: nat)
    requires |s| > 0 && IsSpace(s[0]) && StripsTo(s[1..], i, j)
    ensures StripsTo(s, i + 1, j + 1)
  {
    hide IsSpace;
    assert s[1..][i..j] == s[i + 1..j + 1] && s[1..][j..] == s[j + 1..];
    assert s[..i + 1] == [s[0]] + s[1..][..i];
  }

  lemma StripsBack(s: string, i: nat, j: nat)
    requires |s| > 0 && !IsSpace(s[0]) && IsSpace(s[|s| - 1]) && StripsTo(s[..|s| - 1], i, j)
    ensures StripsTo(s, i, j)
  {
    hide IsSpace;
    var n := |s| - 1;
    assert s[..n][i..j] == s[i..j] && s[..n][..i] == s[..i];
    assert s[j..] == s[..n][j..] + [s[n]];
  }

  /** Stripping removes blanks from both ends and nothing else. */
  lemma {:induction false} StripMeans(s: string)
    ensures exists i, j :: StripsTo(s, i, j)
    decreases |s|
  {
    hide IsSpace, StripsTo;
    if |s| > 0 && IsSpace(s[0]) {
      StripMeans(s[1..]);
      var i, j :| StripsTo(s[1..], i, j);
      StripsFront(s, i, j);
    } else if |s| > 0 && IsSpace(s[|s| - 1]) {
      StripMeans(s[..|s| - 1]);
      var i, j :| StripsTo(s[..|s| - 1], i, j);
      StripsBack(s, i, j);
    } else {
      StripsNothing(s);
    }
  }

  lemma StripsNothing(s: string)
    requires |s| == 0 || (!IsSpace(s[0]) && !IsSpace(s[|s| - 1]))
    ensures StripsTo(s, 0, |s|)
  {
    assert s[0..|s|] == s && s[..0] == [] && s[|s|..] == [];
  }

  // ---------------------------------------------------------------- decimals

  function Digit(n: nat): (c: char)
    requires n < 10
  {
    '0' + n as char
  }

  function Value(c: char): (n: nat)
    requires '0' <= c <= '9'
    ensures n < 10 && Digit(n) == c
  {
    (c - '0') as nat
  }

  predicate AllDigits(s: string)
  {
    forall i :: 0 <= i < |s| ==> '0' <= s[i] <= '9'
  }

  /** `str(n)`. */
  function Decimal(n: nat): (s: string)
    ensures |s| > 0 && AllDigits(s)
    ensures n > 0 ==> s[0] != '0'
    ensures n == 0 ==> s == "0"
  {
    if n < 10 then [Digit(n)] else Decimal(n / 10) + [Digit(n % 10)]
  }

  /** `int(s)` of a run of digits. */
  function ParseDecimal(s: string): (n: nat)
    requires AllDigits(s)
  {
    if |s| == 0 then 0 else 10 * ParseDecimal(s[..|s| - 1]) + Value(s[|s| - 1])
  }

  lemma {:induction false} ParseOfDecimal(n: nat)
    ensures ParseDecimal(Decimal(n)) == n
  {
    if n >= 10 {
      ParseOfDecimal(n / 10);
      var s := Decimal(n);
      assert s[..|s| - 1] == Decimal(n / 10) && s[|s| - 1] == Digit(n % 10);
    }
  }

  /** Rendering a counter is injective. */
  lemma DecimalInjective(m: nat, n: nat)
    requires Decimal(m) == Decimal(n)
    ensures m == n
  {
    ParseOfDecimal(m);
    ParseOfDecimal(n);
  }

  /** A run of digits without a leading zero is what its value renders to. */
  lemma {:induction false} DecimalOfParse(s: string)
    requires |s| > 0 && AllDigits(s) && s[0] != '0'
    ensures ParseDecimal(s) > 0 && Decimal(ParseDecimal(s)) == s
  {
    if |s| > 1 {
      DecimalOfParse(s[..|s| - 1]);
      assert s == s[..|s| - 1] + [s[|s| - 1]];
    } else {
      assert ParseDecimal(s[..0]) == 0;
      assert ParseDecimal(s) == Value(s[0]);
      assert s == [s[0]];
    }
  }

  /** `n` in exactly `width` decimal digits, zero-padded on the left. */
  function Pad(n: nat, width: nat): (s: string)
    ensures |s| == width
  {
    if width == 0 then "" else Pad(n / 10, width - 1) + [Digit(n % 10)]
  }

  function Pow10(k: nat): (p: nat)
    ensures p > 0
  {
    if k == 0 then 1 else 10 * Pow10(k - 1)
  }

  /** Fixed-width decimals are ordered as their values are. */
  lemma {:induction false} PadOrder(m: nat, n: nat, width: nat)
    requires m < Pow10(width) && n < Pow10(width)
    ensures Less(Pad(m, width), Pad(n, width)) <==> m < n
    ensures Pad(m, width) == Pad(n, width) <==> m == n
  {
    if width > 0 {
      PadOrder(m / 10, n / 10, width - 1);
      var p, q, x, y := Pad(m / 10, width - 1), Pad(n / 10, width - 1), [Digit(m % 10)], [Digit(n % 10)];
      LessByPrefix(p, q, x, y);
      assert Less(x, y) <==> m % 10 < n % 10 by {
        assert x[1..] == [] && y[1..] == [];
      }
      assert p + x == q + y <==> p == q && x == y by {
        if p + x == q + y {
          assert (p + x)[..width - 1] == p && (q + y)[..width - 1] == q;
          assert (p + x)[width - 1] == x[0] && (q + y)[width - 1] == y[0];
        }
      }
    }
  }
}
