/** The string operations the Python code relies on: `str.lower`, the `in`
    substring test, `str.split`, `str.replace`, string repetition, string
    comparison (for `max`) and decimal formatting of indices. */
module Text {

  /** ASCII lower-casing of one character. */
  function LowerChar(c: char): char
  {
    if 'A' <= c <= 'Z' then (c as int + 32) as char else c
  }

  /** `s.lower()` restricted to ASCII letters: no capital letter is left,
      each capital becomes its small letter, and every other character is
      kept where it was. */
  function Lower(s: string): (r: string)
    ensures |r| == |s|
    ensures forall i :: 0 <= i < |r| ==> !('A' <= r[i] <= 'Z')
    ensures forall i :: 0 <= i < |s| && 'A' <= s[i] <= 'Z' ==> r[i] as int - s[i] as int == 'a' as int - 'A' as int
    ensures forall i :: 0 <= i < |s| && !('A' <= s[i] <= 'Z') ==> r[i] == s[i]
  {
    seq(|s|, i requires 0 <= i < |s| => LowerChar(s[i]))
  }

  /** Lower-casing twice is lower-casing once. */
  lemma LowerIdempotent(s: string)
    ensures Lower(Lower(s)) == Lower(s)
  {
  }

  /** Python's `needle in hay` for strings. */
  predicate Contains(hay: string, needle: string)
  {
    exists i :: 0 <= i <= |hay| - |needle| && needle <= hay[i..]
  }

  /** Number of occurrences of the character `c` in `s`. */
  function Count(s: string, c: char): nat
  {
    if s == [] then 0 else (if s[0] == c then 1 else 0) + Count(s[1..], c)
  }

  /** `s.split(c)` for a one-character separator. */
  function Split(s: string, c: char): (parts: seq<string>)
    ensures |parts| >= 1
  {
    if s == [] then [[]]
    else
      var rest := Split(s[1..], c);
      if s[0] == c then [[]] + rest else [[s[0]] + rest[0]] + rest[1..]
  }

  /** `c.join(parts)`. */
  function Join(parts: seq<string>, c: char): string
    requires |parts| >= 1
  {
    if |parts| == 1 then parts[0] else parts[0] + [c] + Join(parts[1..], c)
  }

  /** `split` yields one more piece than there are separators. */
  lemma {:induction false} SplitCount(s: string, c: char)
    ensures |Split(s, c)| == Count(s, c) + 1
  {
    if s != [] {
      SplitCount(s[1..], c);
    }
  }

  /** No piece of `split` contains the separator. */
  lemma {:induction false} SplitPiecesFree(s: string, c: char)
    ensures forall i :: 0 <= i < |Split(s, c)| ==> c !in Split(s, c)[i]
  {
    if s != [] {
      SplitPiecesFree(s[1..], c);
      var rest := Split(s[1..], c);
      if s[0] != c {
        assert c !in rest[0];
        assert Split(s, c) == [[s[0]] + rest[0]] + rest[1..];
        forall i | 0 <= i < |Split(s, c)| ensures c !in Split(s, c)[i] {
          if i > 0 {
            assert Split(s, c)[i] == rest[i];
          }
        }
      }
    }
  }

  /** Joining the pieces of `split` with the separator gives the string back. */
  lemma {:induction false} JoinSplit(s: string, c: char)
    ensures Join(Split(s, c), c) == s
  {
    if s != [] {
      JoinSplit(s[1..], c);
      var rest := Split(s[1..], c);
      if s[0] == c {
        assert Split(s, c)[1..] == rest;
      } else if |rest| == 1 {
        assert Split(s, c) == [[s[0]] + rest[0]];
      } else {
        var parts := Split(s, c);
        assert parts[1..] == rest[1..];
        assert Join(rest, c) == rest[0] + [c] + Join(rest[1..], c);
      }
    }
  }

  /** A separator between two strings glues their splits together. */
  lemma {:induction false} SplitConcat(a: string, c: char, b: string)
    ensures Split(a + [c] + b, c) == Split(a, c) + Split(b, c)
  {
    if a == [] {
      SplitSeparator(c, b);
      assert a + [c] + b == [c] + b;
    } else {
      var rest := a[1..];
      SplitConcat(rest, c, b);
      SplitPrepend(a[0], rest + [c] + b, rest, c, Split(b, c));
      assert [a[0]] + rest == a;
      assert [a[0]] + (rest + [c] + b) == a + [c] + b;
    }
  }

  /** Splits that agree up to a common tail still agree after one more
      leading character. */
  lemma SplitPrepend(x: char, t: string, u: string, c: char, tail: seq<string>)
    requires Split(t, c) == Split(u, c) + tail
    ensures Split([x] + t, c) == Split([x] + u, c) + tail
  {
    if x == c {
      SplitSeparator(c, t);
      SplitSeparator(c, u);
    } else {
      SplitLetter(x, t, c);
      SplitLetter(x, u, c);
      JoinFirstPiece([x], Split(u, c), tail);
    }
  }

  /** Extending the first piece commutes with appending further pieces. */
  lemma JoinFirstPiece(h: string, pieces: seq<string>, tail: seq<string>)
    requires |pieces| >= 1
    ensures [h + (pieces + tail)[0]] + (pieces + tail)[1..] == [h + pieces[0]] + pieces[1..] + tail
  {
    assert (pieces + tail)[0] == pieces[0];
    assert (pieces + tail)[1..] == pieces[1..] + tail;
  }

  /** A leading separator closes an empty first piece. */
  lemma SplitSeparator(c: char, t: string)
    ensures Split([c] + t, c) == [[]] + Split(t, c)
  {
    assert ([c] + t)[1..] == t;
  }

  /** Any other leading character joins the first piece. */
  lemma SplitLetter(x: char, t: string, c: char)
    requires x != c
    ensures Split([x] + t, c) == [[x] + Split(t, c)[0]] + Split(t, c)[1..]
  {
    assert ([x] + t)[1..] == t;
  }

  /** Replacing one character by another that did not occur, then splitting
      at the new one, is splitting at the old one. */
  lemma {:induction false} SplitReplace(s: string, from: char, to: char)
    requires to !in s
    ensures Split(Replace(s, from, to), to) == Split(s, from)
  {
    if s != [] {
      var r := Replace(s, from, to);
      assert r[1..] == Replace(s[1..], from, to);
      SplitReplace(s[1..], from, to);
    }
  }

  /** Splitting a string with no separator gives it back whole. */
  lemma {:induction false} SplitFree(s: string, c: char)
    requires c !in s
    ensures Split(s, c) == [s]
  {
    if s != [] {
      SplitFree(s[1..], c);
      assert [s[0]] + s[1..] == s;
    }
  }

  /** Splitting `a + [c] + b` where `a` holds no separator gives `a` first. */
  lemma {:induction false} SplitAt(a: string, c: char, b: string)
    requires c !in a
    ensures Split(a + [c] + b, c) == [a] + Split(b, c)
  {
    if a != [] {
      assert (a + [c] + b)[1..] == a[1..] + [c] + b;
      SplitAt(a[1..], c, b);
      var rest := Split(a[1..] + [c] + b, c);
      assert rest[0] == a[1..] && rest[1..] == Split(b, c);
      assert [a[0]] + a[1..] == a;
    } else {
      assert (a + [c] + b)[1..] == b;
    }
  }

  /** `s.replace(from, to)` for single characters. */
  function Replace(s: string, from: char, to: char): (r: string)
    ensures |r| == |s|
    ensures from != to ==> from !in r
  {
    seq(|s|, i requires 0 <= i < |s| => if s[i] == from then to else s[i])
  }

  /** Replacing back is the identity when the replacement did not occur before. */
  lemma ReplaceRoundTrip(s: string, from: char, to: char)
    requires to !in s
    ensures Replace(Replace(s, from, to), to, from) == s
  {
  }

  /** Python's `s * n`. */
  function Repeat(s: string, n: nat): (r: string)
    ensures |r| == n * |s|
  {
    if n == 0 then [] else s + Repeat(s, n - 1)
  }

  /** Python's `<=` on strings: lexicographic order by code point. */
  predicate LexLe(a: string, b: string)
  {
    a == [] || (b != [] && (a[0] < b[0] || (a[0] == b[0] && LexLe(a[1..], b[1..]))))
  }

  lemma {:induction false} LexLeTotal(a: string, b: string)
    ensures LexLe(a, b) || LexLe(b, a)
  {
    if a != [] && b != [] && a[0] == b[0] {
      LexLeTotal(a[1..], b[1..]);
    }
  }

  lemma {:induction false} LexLeTransitive(a: string, b: string, c: string)
    requires LexLe(a, b) && LexLe(b, c)
    ensures LexLe(a, c)
  {
    if a != [] && b != [] && c != [] && a[0] == b[0] && b[0] == c[0] {
      LexLeTransitive(a[1..], b[1..], c[1..]);
    }
  }

  lemma {:induction false} LexLeAntisymmetric(a: string, b: string)
    requires LexLe(a, b) && LexLe(b, a)
    ensures a == b
  {
    if a != [] && b != [] {
      LexLeAntisymmetric(a[1..], b[1..]);
    }
  }

  /** Python's `max` over a non-empty list of strings: the greatest element. */
  function MaxString(xs: seq<string>): (m: string)
    requires |xs| > 0
    ensures m in xs
    ensures forall x :: x in xs ==> LexLe(x, m)
  {
    if |xs| == 1 then
      assert forall x :: x in xs ==> x == xs[0];
      LexLeReflexive(xs[0]);
      xs[0]
    else
      var init := xs[..|xs| - 1];
      var prev := MaxString(init);
      var last := xs[|xs| - 1];
      assert forall x :: x in xs ==> x in init || x == last;
      if LexLe(last, prev) then
        prev
      else
        LexLeTotal(last, prev);
        LexLeReflexive(last);
        forall x | x in init ensures LexLe(x, last) {
          LexLeTransitive(x, prev, last);
        }
        last
  }

  lemma {:induction false} LexLeReflexive(a: string)
    ensures LexLe(a, a)
  {
    if a != [] {
      LexLeReflexive(a[1..]);
    }
  }

  /** The maximum is unique: any greatest element of the list is it. */
  lemma MaxStringUnique(xs: seq<string>, y: string)
    requires |xs| > 0 && y in xs
    requires forall x :: x in xs ==> LexLe(x, y)
    ensures MaxString(xs) == y
  {
    LexLeAntisymmetric(MaxString(xs), y);
  }

  /** Decimal digits of a natural number, as `str(n)` gives them. */
  function Decimal(n: nat): (s: string)
    ensures |s| >= 1
    ensures forall i :: 0 <= i < |s| ==> '0' <= s[i] <= '9'
    decreases n
  {
    if n < 10 then [DigitChar(n)] else Decimal(n / 10) + [DigitChar(n % 10)]
  }

  function DigitChar(d: nat): (c: char)
    requires d < 10
    ensures '0' <= c <= '9'
  {
    ('0' as int + d) as char
  }

  /** Reading a string of decimal digits back as a number. */
  function ParseDecimal(s: string): nat
    requires forall i :: 0 <= i < |s| ==> '0' <= s[i] <= '9'
  {
    if s == [] then 0
    else 10 * ParseDecimal(s[..|s| - 1]) + (s[|s| - 1] as int - '0' as int)
  }

  /** Formatting a number and reading it back gives the number. */
  lemma {:induction false} DecimalRoundTrip(n: nat)
    ensures ParseDecimal(Decimal(n)) == n
    decreases n
  {
    var s := Decimal(n);
    if n >= 10 {
      DecimalRoundTrip(n / 10);
      assert s[..|s| - 1] == Decimal(n / 10);
    }
  }

  /** Python's `f"{n:2}"`: right-aligned in a field of width two. */
  function Pad2(n: nat): (s: string)
    ensures |s| >= 2
  {
    var d := Decimal(n);
    if |d| < 2 then " " + d else d
  }
}
