/** The handful of Python `str` operations the scripts rely on, restricted to
    ASCII: `strip`, `lower`, `upper`, `startswith`, `in`, `split` on one
    separator character and `join`. */
module Text {

  /** Python's `str.isspace` on the ASCII range: tab, line feed, vertical
      tab, form feed, carriage return, the four separators 0x1C-0x1F and the
      space. The regular-expression class `\s` agrees on this range. */
  predicate IsSpace(c: char) {
    var n := c as int;
    (9 <= n <= 13) || (28 <= n <= 32)
  }

  /** True when every character is whitespace; `s.strip() == ''` in Python. */
  predicate Blank(s: string) {
    forall i | 0 <= i < |s| :: IsSpace(s[i])
  }

  /** Neither end of `s` is whitespace. */
  predicate Stripped(s: string) {
    |s| == 0 || (!IsSpace(s[0]) && !IsSpace(s[|s| - 1]))
  }

  /** `s.lstrip()`: the longest all-whitespace prefix removed. */
  function LStrip(s: string): (r: string)
    ensures |r| <= |s|
    ensures |r| > 0 ==> !IsSpace(r[0])
  {
    if |s| > 0 && IsSpace(s[0]) then LStrip(s[1..]) else s
  }

  /** `s.rstrip()`: the longest all-whitespace suffix removed. */
  function RStrip(s: string): (r: string)
    ensures |r| <= |s| && r == s[..|r|]
    ensures |r| > 0 ==> !IsSpace(r[|r| - 1])
  {
    if |s| > 0 && IsSpace(s[|s| - 1]) then RStrip(s[..|s| - 1]) else s
  }

  /** What `lstrip` keeps is a suffix of its argument. */
  lemma {:induction false} LStripIsSuffix(s: string)
    ensures LStrip(s) == s[|s| - |LStrip(s)|..]
  {
    if |s| > 0 && IsSpace(s[0]) {
      LStripIsSuffix(s[1..]);
    }
  }

  /** What `lstrip` removes is whitespace only. */
  lemma {:induction false} LStripRemovesBlank(s: string)
    ensures Blank(s[..|s| - |LStrip(s)|])
  {
    if |s| > 0 && IsSpace(s[0]) {
      LStripRemovesBlank(s[1..]);
      assert s[..|s| - |LStrip(s)|] == [s[0]] + s[1..][..|s[1..]| - |LStrip(s[1..])|];
    }
  }

  /** What `rstrip` removes is whitespace only. */
  lemma {:induction false} RStripRemovesBlank(s: string)
    ensures Blank(s[|RStrip(s)|..])
  {
    if |s| > 0 && IsSpace(s[|s| - 1]) {
      var t := s[..|s| - 1];
      RStripRemovesBlank(t);
      assert s[|RStrip(s)|..] == t[|RStrip(t)|..] + [s[|s| - 1]];
    }
  }

  /** `s.strip()`. */
  function Strip(s: string): (r: string)
    ensures Stripped(r)
    ensures |r| <= |s|
  {
    RStrip(LStrip(s))
  }

  lemma RStripOfStripped(s: string)
    requires Stripped(s)
    ensures RStrip(s) == s
  {
  }

  lemma LStripOfStripped(s: string)
    requires Stripped(s)
    ensures LStrip(s) == s
  {
  }

  /** Stripping leaves an already stripped string alone; in particular
      `Strip` is idempotent. */
  lemma StripOfStripped(s: string)
    requires Stripped(s)
    ensures Strip(s) == s
  {
    LStripOfStripped(s);
    RStripOfStripped(s);
  }

  lemma StripEmptyIffBlank(s: string)
    ensures Strip(s) == "" <==> Blank(s)
  {
    LStripIsSuffix(s);
    LStripRemovesBlank(s);
    RStripRemovesBlank(LStrip(s));
  }

  /** ASCII `str.lower` on one character. */
  function ToLower(c: char): char {
    if 'A' <= c <= 'Z' then ((c as int) + 32) as char else c
  }

  /** ASCII `str.upper` on one character. */
  function ToUpper(c: char): char {
    if 'a' <= c <= 'z' then ((c as int) - 32) as char else c
  }

  function Lower(s: string): (r: string)
    ensures |r| == |s|
  {
    seq(|s|, i requires 0 <= i < |s| => ToLower(s[i]))
  }

  function Upper(s: string): (r: string)
    ensures |r| == |s|
  {
    seq(|s|, i requires 0 <= i < |s| => ToUpper(s[i]))
  }

  /** Upper-casing then lower-casing is lower-casing. */
  lemma LowerUpper(s: string)
    ensures Lower(Upper(s)) == Lower(s)
  {
    assert forall i | 0 <= i < |s| :: ToLower(ToUpper(s[i])) == ToLower(s[i]);
  }

  /** Upper-casing keeps whitespace where it is, so it commutes with
      stripping. */
  lemma {:induction false} LStripUpper(s: string)
    ensures LStrip(Upper(s)) == Upper(LStrip(s))
  {
    if |s| > 0 {
      assert Upper(s)[0] == ToUpper(s[0]);
      if IsSpace(s[0]) {
        assert Upper(s)[1..] == Upper(s[1..]);
        LStripUpper(s[1..]);
      }
    }
  }

  lemma {:induction false} RStripUpper(s: string)
    ensures RStrip(Upper(s)) == Upper(RStrip(s))
  {
    if |s| > 0 {
      var n := |s| - 1;
      assert Upper(s)[n] == ToUpper(s[n]);
      if IsSpace(s[n]) {
        assert Upper(s)[..n] == Upper(s[..n]);
        RStripUpper(s[..n]);
      }
    }
  }

  lemma StripUpper(s: string)
    ensures Strip(Upper(s)) == Upper(Strip(s))
  {
    LStripUpper(s);
    RStripUpper(LStrip(s));
  }

  /** `" a ".strip() == "a"` and stripping leaves `"a"`, `"A"`, `"b"` alone. */
  lemma StripExamples()
    ensures Strip(" a ") == "a"
    ensures Strip("a") == "a" && Strip("A") == "A" && Strip("b") == "b"
  {
    var s := " a ";
    assert s[0] == ' ' && s[1..] == "a ";
    assert LStrip("a ") == "a ";
    assert LStrip(s) == "a ";
    assert "a "[..1] == "a";
    assert RStrip("a") == "a";
    assert RStrip("a ") == "a";
    assert Stripped("a") && Stripped("A") && Stripped("b");
    StripOfStripped("a");
    StripOfStripped("A");
    StripOfStripped("b");
  }

  lemma LowerAppend(a: string, b: string)
    ensures Lower(a + b) == Lower(a) + Lower(b)
  {
  }

  lemma LowerSlice(s: string, i: nat, j: nat)
    requires i <= j <= |s|
    ensures Lower(s[i..j]) == Lower(s)[i..j]
  {
  }

  /** Left-stripping `x + y` stops inside `x` when `x` is not blank. */
  lemma {:induction false} LStripAppend(x: string, y: string)
    requires !Blank(x)
    ensures LStrip(x + y) == LStrip(x) + y
  {
    assert (x + y)[0] == x[0];
    if IsSpace(x[0]) {
      assert (x + y)[1..] == x[1..] + y;
      assert !Blank(x[1..]) by {
        var i :| 0 <= i < |x| && !IsSpace(x[i]);
        assert x[1..][i - 1] == x[i];
      }
      LStripAppend(x[1..], y);
    }
  }

  /** Right-stripping `x + y` stops inside `y` when `y` is not blank. */
  lemma {:induction false} RStripPrepend(x: string, y: string)
    requires !Blank(y)
    ensures RStrip(x + y) == x + RStrip(y)
  {
    var n := |y| - 1;
    assert (x + y)[|x + y| - 1] == y[n];
    if IsSpace(y[n]) {
      assert (x + y)[..|x + y| - 1] == x + y[..n];
      assert !Blank(y[..n]) by {
        var i :| 0 <= i < |y| && !IsSpace(y[i]);
        assert y[..n][i] == y[i];
      }
      RStripPrepend(x, y[..n]);
    }
  }

  /** Left-stripping a non-blank string leaves it non-blank. */
  lemma {:induction false} LStripKeepsNonBlank(s: string)
    requires !Blank(s)
    ensures !Blank(LStrip(s))
  {
    if IsSpace(s[0]) {
      var i :| 0 <= i < |s| && !IsSpace(s[i]);
      assert s[1..][i - 1] == s[i];
      LStripKeepsNonBlank(s[1..]);
    }
  }

  /** Right-stripping a non-blank string leaves it non-blank. */
  lemma {:induction false} RStripKeepsNonBlank(s: string)
    requires !Blank(s)
    ensures !Blank(RStrip(s))
  {
    var n := |s| - 1;
    if IsSpace(s[n]) {
      var i :| 0 <= i < |s| && !IsSpace(s[i]);
      assert s[..n][i] == s[i];
      RStripKeepsNonBlank(s[..n]);
    }
  }

  /** Stripping a non-blank string leaves it non-blank. */
  lemma StripKeepsNonBlank(s: string)
    requires !Blank(s)
    ensures !Blank(LStrip(s)) && !Blank(RStrip(s)) && !Blank(Strip(s))
  {
    LStripKeepsNonBlank(s);
    RStripKeepsNonBlank(s);
    RStripKeepsNonBlank(LStrip(s));
  }

  lemma LStripIdempotent(s: string)
    ensures LStrip(LStrip(s)) == LStrip(s)
  {
  }

  /** A non-blank string and its stripped form start with the same
      character, the first one that is not whitespace. */
  lemma StripFirst(s: string)
    requires !Blank(s)
    ensures |LStrip(s)| > 0 && |Strip(s)| > 0 && Strip(s)[0] == LStrip(s)[0]
  {
    StripKeepsNonBlank(s);
  }

  /** A line without a newline keeps none after stripping either end. */
  lemma StripKeepsSingleLine(x: string)
    requires '\n' !in x
    ensures '\n' !in LStrip(x) && '\n' !in RStrip(x) && '\n' !in Strip(x)
  {
    LStripIsSuffix(x);
    LStripIsSuffix(LStrip(x));
    assert RStrip(LStrip(x)) == LStrip(x)[..|RStrip(LStrip(x))|];
  }

  /** `s.startswith(p)`. */
  predicate StartsWith(s: string, p: string) {
    |p| <= |s| && s[..|p|] == p
  }

  /** `t in s`: `t` occurs as a contiguous substring of `s`. */
  predicate Contains(s: string, t: string) {
    exists i | 0 <= i <= |s| - |t| :: OccursAt(s, t, i)
  }

  /** `t` occurs in `s` starting at index `i`. */
  predicate OccursAt(s: string, t: string, i: int) {
    0 <= i && i + |t| <= |s| && s[i..i + |t|] == t
  }

  /** Index of the first occurrence of `c` in `s`. */
  function IndexOf(s: string, c: char): (k: nat)
    requires c in s
    ensures k < |s| && s[k] == c
    ensures c !in s[..k]
  {
    if s[0] == c then 0 else IndexOf(s[1..], c) + 1
  }

  /** `s.split(d)` for a one-character separator: at least one piece, none
      containing the separator. */
  function Split(s: string, d: char): (r: seq<string>)
    ensures |r| >= 1
    ensures forall k | 0 <= k < |r| :: d !in r[k]
  {
    if |s| == 0 then [""]
    else
      var rest := Split(s[1..], d);
      if s[0] == d then [""] + rest
      else [[s[0]] + rest[0]] + rest[1..]
  }

  /** `d.join(ls)` for a one-character separator. */
  function Join(ls: seq<string>, d: char): string {
    if |ls| == 0 then ""
    else if |ls| == 1 then ls[0]
    else ls[0] + [d] + Join(ls[1..], d)
  }

  /** Joining the pieces of a split gives back the original string. */
  lemma {:induction false} JoinSplit(s: string, d: char)
    ensures Join(Split(s, d), d) == s
  {
    if |s| > 0 {
      var rest := Split(s[1..], d);
      JoinSplit(s[1..], d);
      if s[0] == d {
        assert Split(s, d) == [""] + rest;
        assert Join([""] + rest, d) == "" + [d] + Join(rest, d);
        assert s == [s[0]] + s[1..];
      } else {
        var r := Split(s, d);
        assert r == [[s[0]] + rest[0]] + rest[1..];
        if |rest| == 1 {
          assert Join(r, d) == [s[0]] + rest[0];
        } else {
          assert r[1..] == rest[1..];
          assert Join(r, d) == [s[0]] + rest[0] + [d] + Join(rest[1..], d);
          assert Join(rest, d) == rest[0] + [d] + Join(rest[1..], d);
        }
        assert s == [s[0]] + s[1..];
      }
    }
  }

  /** A string without the separator splits into itself alone. */
  lemma {:induction false} SplitNoSeparator(s: string, d: char)
    requires d !in s
    ensures Split(s, d) == [s]
  {
    if |s| > 0 {
      SplitNoSeparator(s[1..], d);
      assert [s[0]] + s[1..] == s;
    }
  }

  /** Splitting `a + d + b` where `a` has no separator cuts at that `d`. */
  lemma {:induction false} SplitAtFirst(a: string, d: char, b: string)
    requires d !in a
    ensures Split(a + [d] + b, d) == [a] + Split(b, d)
  {
    if |a| == 0 {
      assert a + [d] + b == [d] + b;
      assert ([d] + b)[1..] == b;
    } else {
      var s := a + [d] + b;
      assert s[0] == a[0];
      assert s[1..] == a[1..] + [d] + b;
      SplitAtFirst(a[1..], d, b);
      assert [a[0]] + a[1..] == a;
    }
  }

  /** The first piece of a split runs up to the first separator. */
  lemma {:induction false} SplitHead(s: string, d: char)
    ensures Split(s, d)[0] == if d in s then s[..IndexOf(s, d)] else s
  {
    if |s| > 0 && s[0] != d {
      SplitHead(s[1..], d);
      if d in s {
        assert d in s[1..];
        assert s[..IndexOf(s, d)] == [s[0]] + s[1..][..IndexOf(s[1..], d)];
      } else {
        assert [s[0]] + s[1..] == s;
      }
    }
  }

  /** Splitting a join gives back the pieces, when no piece holds the
      separator. */
  lemma {:induction false} SplitJoin(ls: seq<string>, d: char)
    requires |ls| >= 1
    requires forall k | 0 <= k < |ls| :: d !in ls[k]
    ensures Split(Join(ls, d), d) == ls
  {
    if |ls| == 1 {
      SplitNoSeparator(ls[0], d);
    } else {
      SplitJoin(ls[1..], d);
      SplitAtFirst(ls[0], d, Join(ls[1..], d));
      assert [ls[0]] + ls[1..] == ls;
    }
  }

  /** Splitting a text that starts with separator-free pieces, each
      followed by the separator, yields those pieces and then the pieces of
      the rest. */
  lemma {:induction false} SplitAfterPieces(ls: seq<string>, d: char, rest: string)
    requires forall k | 0 <= k < |ls| :: d !in ls[k]
    ensures Split(Concat(ls, d) + rest, d) == ls + Split(rest, d)
  {
    if |ls| > 0 {
      var c := Concat(ls[1..], d);
      assert d !in ls[0];
      assert forall k | 0 <= k < |ls[1..]| :: d !in ls[1..][k] by {
        forall k | 0 <= k < |ls[1..]| ensures d !in ls[1..][k] {
          assert ls[1..][k] == ls[k + 1];
        }
      }
      SplitAfterPieces(ls[1..], d, rest);
      var sr := Split(rest, d);
      assert Split(c + rest, d) == ls[1..] + sr;
      assert Concat(ls, d) + rest == ls[0] + [d] + (c + rest);
      SplitAtFirst(ls[0], d, c + rest);
      assert Split(Concat(ls, d) + rest, d) == [ls[0]] + (ls[1..] + sr);
      assert [ls[0]] + ls[1..] == ls;
      assert [ls[0]] + (ls[1..] + sr) == ([ls[0]] + ls[1..]) + sr;
    } else {
      assert Concat(ls, d) + rest == rest;
    }
  }

  /** Each piece followed by the separator. */
  function Concat(ls: seq<string>, d: char): string {
    if |ls| == 0 then "" else ls[0] + [d] + Concat(ls[1..], d)
  }

  /** The first piece of a join is a prefix of it. */
  lemma JoinStartsWithFirst(ls: seq<string>, d: char)
    requires |ls| >= 1
    ensures |ls[0]| <= |Join(ls, d)| && Join(ls, d)[..|ls[0]|] == ls[0]
  {
    if |ls| > 1 {
      assert Join(ls, d) == ls[0] + ([d] + Join(ls[1..], d));
    }
  }

  /** Joining two non-empty lists of pieces is joining each and putting one
      separator between. */
  lemma {:induction false} JoinConcat(a: seq<string>, b: seq<string>, d: char)
    requires |a| >= 1 && |b| >= 1
    ensures Join(a + b, d) == Join(a, d) + [d] + Join(b, d)
    decreases |a|
  {
    if |a| == 1 {
      assert (a + b)[1..] == b;
    } else {
      assert (a + b)[1..] == a[1..] + b;
      JoinConcat(a[1..], b, d);
    }
  }

  lemma JoinAppendOne(ls: seq<string>, x: string, d: char)
    requires |ls| >= 1
    ensures Join(ls + [x], d) == Join(ls, d) + [d] + x
    decreases |ls|
  {
    if |ls| == 1 {
      assert (ls + [x])[1..] == [x];
    } else {
      assert (ls + [x])[1..] == ls[1..] + [x];
      JoinAppendOne(ls[1..], x, d);
    }
  }

  /** Python's `str(n)` for a natural number. */
  function NatToString(n: nat): (r: string)
    ensures |r| >= 1
    ensures forall k | 0 <= k < |r| :: '0' <= r[k] <= '9'
  {
    if n < 10 then [DigitChar(n)]
    else NatToString(n / 10) + [DigitChar(n % 10)]
  }

  function DigitChar(d: nat): (c: char)
    requires d < 10
    ensures '0' <= c <= '9'
  {
    ((d + 48) as char)
  }
}
