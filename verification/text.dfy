/** The string operations the spider applies to scraped values: Python's
    `str.strip()` on element text and `','.join(...)` on lists of image
    addresses, with `str.split` as the inverse of the join. */
module Text {

  /** Python's `str.isspace()` for one character: the ASCII whitespace and
      separator controls, NEL, NO-BREAK SPACE and the Unicode space and
      line/paragraph separators. */
  predicate IsSpace(c: char)
  {
    var n := c as int;
    || 9 <= n <= 13
    || 28 <= n <= 32
    || n == 0x85 || n == 0xA0 || n == 0x1680
    || 0x2000 <= n <= 0x200A
    || n == 0x2028 || n == 0x2029 || n == 0x202F || n == 0x205F || n == 0x3000
  }

  predicate AllSpace(s: string)
  {
    forall i :: 0 <= i < |s| ==> IsSpace(s[i])
  }

  /** Neither end of `s` is whitespace. */
  predicate Trimmed(s: string)
  {
    s == [] || (!IsSpace(s[0]) && !IsSpace(s[|s| - 1]))
  }

  /** `r` sits at offset `i` of `s` with only whitespace around it. */
  predicate PaddedAt(s: string, i: int, r: string)
  {
    && 0 <= i && i + |r| <= |s|
    && s[i..i + |r|] == r
    && AllSpace(s[..i])
    && AllSpace(s[i + |r|..])
  }

  /** Length of the whitespace prefix of `s`. */
  function LeadingSpaces(s: string): (n: nat)
    ensures n <= |s|
    ensures forall i :: 0 <= i < n ==> IsSpace(s[i])
    ensures n < |s| ==> !IsSpace(s[n])
  {
    if s == [] || !IsSpace(s[0]) then 0 else 1 + LeadingSpaces(s[1..])
  }

  /** Length of the whitespace suffix of `s`. */
  function TrailingSpaces(s: string): (n: nat)
    ensures n <= |s|
    ensures forall i :: |s| - n <= i < |s| ==> IsSpace(s[i])
    ensures n < |s| ==> !IsSpace(s[|s| - 1 - n])
  {
    if s == [] || !IsSpace(s[|s| - 1]) then 0 else 1 + TrailingSpaces(s[..|s| - 1])
  }

  /** Python's `s.strip()`: `s` without its leading and trailing whitespace. */
  function Trim(s: string): (r: string)
    ensures Trimmed(r)
    ensures exists i :: PaddedAt(s, i, r)
  {
    var a := LeadingSpaces(s);
    var rest := s[a..];
    var r := rest[..|rest| - TrailingSpaces(rest)];
    assert PaddedAt(s, a, r) by {
      assert s[a..a + |r|] == r;
      assert s[a + |r|..] == rest[|r|..];
    }
    r
  }

  /** `Trim` is determined by its contract: whatever non-blank-ended string
      sits inside whitespace padding is the trimmed value. */
  lemma TrimCharacterization(s: string, i: int, r: string)
    requires PaddedAt(s, i, r) && Trimmed(r)
    ensures Trim(s) == r
  {
    var a := LeadingSpaces(s);
    var rest := s[a..];
    var t := TrailingSpaces(rest);
    if r == [] {
      assert AllSpace(s) by {
        forall k | 0 <= k < |s|
          ensures IsSpace(s[k])
        {
          if k < i {
            assert s[..i][k] == s[k];
          } else {
            assert s[i..][k - i] == s[k];
          }
        }
      }
      assert a == |s|;
    } else {
      assert s[i] == r[0];
      forall k | 0 <= k < i
        ensures IsSpace(s[k])
      {
        assert s[..i][k] == s[k];
      }
      assert a == i;
      assert rest[..|r|] == r;
      assert rest[|rest| - 1 - (|rest| - |r|)] == r[|r| - 1];
      forall k | |r| <= k < |rest|
        ensures IsSpace(rest[k])
      {
        assert s[i + |r|..][k - |r|] == rest[k];
      }
      assert t == |rest| - |r|;
    }
  }

  /** Stripping twice is stripping once. */
  lemma TrimIdempotent(s: string)
    ensures Trim(Trim(s)) == Trim(s)
  {
    var r := Trim(s);
    assert PaddedAt(r, 0, r) by {
      assert r[0..|r|] == r;
    }
    TrimCharacterization(r, 0, r);
  }

  /** Total number of characters in `xs`. */
  function Chars(xs: seq<string>): (n: nat)
  {
    if |xs| == 0 then 0 else |xs[0]| + Chars(xs[1..])
  }

  /** Python's `sep.join(xs)`: the pieces in order, one separator between
      each two neighbours. */
  function Join(sep: char, xs: seq<string>): (r: string)
    ensures |xs| == 0 ==> r == ""
    ensures |xs| >= 1 ==> |r| == Chars(xs) + |xs| - 1
    ensures |xs| >= 1 ==> r[..|xs[0]|] == xs[0]
    decreases |xs|
  {
    if |xs| == 0 then ""
    else if |xs| == 1 then xs[0]
    else xs[0] + [sep] + Join(sep, xs[1..])
  }

  /** Python's `s.split(sep)`: the maximal separator-free pieces, in order. */
  function Split(sep: char, s: string): (parts: seq<string>)
    ensures |parts| >= 1
    ensures forall k :: 0 <= k < |parts| ==> sep !in parts[k]
    ensures |parts| == 1 + |s| - |Without(sep, s)|
    decreases |s|
  {
    if |s| == 0 then [""]
    else
      var rest := Split(sep, s[1..]);
      if s[0] == sep then [""] + rest
      else [[s[0]] + rest[0]] + rest[1..]
  }

  /** `s` with every occurrence of `sep` removed. */
  function Without(sep: char, s: string): (r: string)
    ensures |r| <= |s|
  {
    if |s| == 0 then ""
    else (if s[0] == sep then "" else [s[0]]) + Without(sep, s[1..])
  }

  /** Joining a piece in front of a non-empty list puts one separator
      between it and the join of the rest. */
  lemma JoinCons(sep: char, x: string, ys: seq<string>)
    requires |ys| >= 1
    ensures Join(sep, [x] + ys) == x + [sep] + Join(sep, ys)
  {
    assert ([x] + ys)[0] == x && ([x] + ys)[1..] == ys;
  }

  /** Joining the pieces of a split gives back the original string. */
  lemma {:induction false} JoinSplit(sep: char, s: string)
    ensures Join(sep, Split(sep, s)) == s
    decreases |s|
  {
    if |s| > 0 {
      var rest := Split(sep, s[1..]);
      JoinSplit(sep, s[1..]);
      assert s == [s[0]] + s[1..];
      if s[0] == sep {
        JoinCons(sep, "", rest);
      } else if |rest| == 1 {
        assert Split(sep, s) == [[s[0]] + rest[0]];
      } else {
        assert rest == [rest[0]] + rest[1..];
        JoinCons(sep, [s[0]] + rest[0], rest[1..]);
        JoinCons(sep, rest[0], rest[1..]);
      }
    }
  }

  /** A separator-free string is a single piece. */
  lemma {:induction false} SplitNoSeparator(sep: char, a: string)
    requires sep !in a
    ensures Split(sep, a) == [a]
    decreases |a|
  {
    if |a| > 0 {
      SplitNoSeparator(sep, a[1..]);
      assert [a[0]] + a[1..] == a;
    }
  }

  /** A separator-free prefix followed by the separator splits off as the
      first piece. */
  lemma {:induction false} SplitAfterPiece(sep: char, a: string, b: string)
    requires sep !in a
    ensures Split(sep, a + [sep] + b) == [a] + Split(sep, b)
    decreases |a|
  {
    var s := a + [sep] + b;
    if |a| == 0 {
      assert s[1..] == b;
    } else {
      assert s[1..] == a[1..] + [sep] + b;
      SplitAfterPiece(sep, a[1..], b);
      assert [a[0]] + a[1..] == a;
    }
  }

  /** Splitting a join of separator-free pieces gives back the pieces; the
      join of the empty list is "", which splits into [""], so the list must
      not be empty. */
  lemma {:induction false} SplitJoin(sep: char, xs: seq<string>)
    requires |xs| >= 1
    requires forall k :: 0 <= k < |xs| ==> sep !in xs[k]
    ensures Split(sep, Join(sep, xs)) == xs
    decreases |xs|
  {
    if |xs| == 1 {
      SplitNoSeparator(sep, xs[0]);
    } else {
      SplitJoin(sep, xs[1..]);
      SplitAfterPiece(sep, xs[0], Join(sep, xs[1..]));
      assert [xs[0]] + xs[1..] == xs;
    }
  }

  /** The empty list and the list holding one empty string serialise to the
      same cell: the join loses that distinction. */
  lemma JoinEmptyIsAmbiguous(sep: char)
    ensures Join(sep, []) == Join(sep, [""]) == ""
  {
  }
}
