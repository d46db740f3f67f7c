/**
 * The string primitives the price cleaner is built from: Python's `in`,
 * `str.replace`, `str.strip`, the character class `[^\d.]` removed by
 * `re.sub`, and the decimal reading of a digit string.
 */
module Text {

  predicate IsDigit(c: char) { '0' <= c <= '9' }

  predicate AllDigits(s: string) { forall i :: 0 <= i < |s| ==> IsDigit(s[i]) }

  function DigitValue(c: char): (d: nat)
    requires IsDigit(c)
    ensures d < 10
  {
    c as int - '0' as int
  }

  function DigitChar(d: nat): (c: char)
    requires d < 10
    ensures IsDigit(c) && DigitValue(c) == d
  {
    ('0' as int + d) as char
  }

  /** Python's `t in s` for strings: `t` occurs in `s` as a contiguous piece. */
  predicate Contains(s: string, t: string)
    decreases |s|
  {
    t <= s || (|s| > 0 && Contains(s[1..], t))
  }

  /** `t` is the slice of `s` that starts at position `i`. */
  predicate SliceAt(s: string, t: string, i: int) {
    0 <= i && i + |t| <= |s| && s[i..i + |t|] == t
  }

  /** `Contains` holds exactly when `t` is the slice of `s` at some position. */
  lemma {:induction false} ContainsAsSlice(s: string, t: string)
    ensures Contains(s, t) <==> exists i :: SliceAt(s, t, i)
  {
    if t <= s {
      assert SliceAt(s, t, 0);
    } else if |s| == 0 {
      assert forall i :: !SliceAt(s, t, i);
    } else {
      ContainsAsSlice(s[1..], t);
      if exists i :: SliceAt(s, t, i) {
        var i :| SliceAt(s, t, i);
        assert i != 0;
        assert s[1..][i - 1..i - 1 + |t|] == s[i..i + |t|];
        assert SliceAt(s[1..], t, i - 1);
      }
      if Contains(s[1..], t) {
        var i :| SliceAt(s[1..], t, i);
        assert s[i + 1..i + 1 + |t|] == s[1..][i..i + |t|];
        assert SliceAt(s, t, i + 1);
      }
    }
  }

  /** A piece placed anywhere in a text is contained in it. */
  lemma {:induction false} ContainsPiece(a: string, t: string, b: string)
    ensures Contains(a + t + b, t)
  {
    if a == [] {
      assert a + t + b == t + b;
      assert t <= t + b;
    } else {
      assert (a + t + b)[1..] == a[1..] + t + b;
      ContainsPiece(a[1..], t, b);
    }
  }

  /** Python's `s.replace(old, new)` where `old` is one character. */
  function ReplaceChar(s: string, target: char, repl: string): string {
    if s == [] then []
    else (if s[0] == target then repl else [s[0]]) + ReplaceChar(s[1..], target, repl)
  }

  lemma {:induction false} ReplaceCharAppend(a: string, b: string, target: char, repl: string)
    ensures ReplaceChar(a + b, target, repl) == ReplaceChar(a, target, repl) + ReplaceChar(b, target, repl)
  {
    if a == [] {
      assert a + b == b;
    } else {
      assert (a + b)[1..] == a[1..] + b;
      ReplaceCharAppend(a[1..], b, target, repl);
    }
  }

  /** Replacing a character by text without it removes every occurrence. */
  lemma {:induction false} ReplaceCharRemoves(s: string, target: char, repl: string)
    requires target !in repl
    ensures target !in ReplaceChar(s, target, repl)
  {
    if s != [] {
      ReplaceCharRemoves(s[1..], target, repl);
    }
  }

  /** A character found in neither the text nor the replacement is not in the result. */
  lemma {:induction false} ReplaceCharAbsent(s: string, target: char, repl: string, c: char)
    requires c !in s && c !in repl
    ensures c !in ReplaceChar(s, target, repl)
  {
    if s != [] {
      ReplaceCharAbsent(s[1..], target, repl, c);
    }
  }

  /** Replacing a character that does not occur changes nothing. */
  lemma {:induction false} ReplaceAbsent(s: string, target: char, repl: string)
    requires target !in s
    ensures ReplaceChar(s, target, repl) == s
  {
    if s != [] {
      ReplaceAbsent(s[1..], target, repl);
    }
  }

  predicate IsNumericChar(c: char) { IsDigit(c) || c == '.' }

  /** `re.sub(r'[^\d.]', '', s)`: keep only digits and dots, in order. */
  function KeepNumeric(s: string): (r: string)
    ensures forall i :: 0 <= i < |r| ==> IsNumericChar(r[i])
    ensures |r| <= |s|
  {
    if s == [] then []
    else (if IsNumericChar(s[0]) then [s[0]] else []) + KeepNumeric(s[1..])
  }

  lemma {:induction false} KeepNumericAppend(a: string, b: string)
    ensures KeepNumeric(a + b) == KeepNumeric(a) + KeepNumeric(b)
  {
    if a == [] {
      assert a + b == b;
    } else {
      assert (a + b)[1..] == a[1..] + b;
      KeepNumericAppend(a[1..], b);
    }
  }

  /** A string of digits and dots is its own residue. */
  lemma {:induction false} KeepNumericKeepsAll(s: string)
    requires forall i :: 0 <= i < |s| ==> IsNumericChar(s[i])
    ensures KeepNumeric(s) == s
  {
    if s != [] {
      KeepNumericKeepsAll(s[1..]);
    }
  }

  /** The characters Python's `str.isspace` accepts in the ASCII range. */
  predicate IsSpace(c: char) {
    c == ' ' || 9 <= c as int <= 13 || 28 <= c as int <= 31
  }

  function StripLeading(s: string): (r: string)
    ensures |r| <= |s| && r == s[|s| - |r|..]
    ensures r == [] || !IsSpace(r[0])
    ensures forall i :: 0 <= i < |s| - |r| ==> IsSpace(s[i])
  {
    if s != [] && IsSpace(s[0]) then StripLeading(s[1..]) else s
  }

  function StripTrailing(s: string): (r: string)
    ensures |r| <= |s| && r == s[..|r|]
    ensures r == [] || !IsSpace(r[|r| - 1])
    ensures forall i :: |r| <= i < |s| ==> IsSpace(s[i])
  {
    if s != [] && IsSpace(s[|s| - 1]) then StripTrailing(s[..|s| - 1]) else s
  }

  /** Python's `s.strip()`. */
  function Strip(s: string): string {
    StripTrailing(StripLeading(s))
  }

  // ---------------------------------------------------------------------
  // The separator skeleton: the digits, dots and commas of a string.  Every
  // later step of the cleaner depends on the string only through it.

  predicate IsSkeletonChar(c: char) { IsDigit(c) || c == '.' || c == ',' }

  function Skeleton(s: string): (r: string)
    ensures forall i :: 0 <= i < |r| ==> IsSkeletonChar(r[i])
  {
    if s == [] then []
    else (if IsSkeletonChar(s[0]) then [s[0]] else []) + Skeleton(s[1..])
  }

  lemma {:induction false} SkeletonAppend(a: string, b: string)
    ensures Skeleton(a + b) == Skeleton(a) + Skeleton(b)
  {
    if a == [] {
      assert a + b == b;
    } else {
      assert (a + b)[1..] == a[1..] + b;
      SkeletonAppend(a[1..], b);
    }
  }

  /** A string with no digit, dot or comma has an empty skeleton. */
  lemma {:induction false} SkeletonOfForeign(s: string)
    requires forall i :: 0 <= i < |s| ==> !IsSkeletonChar(s[i])
    ensures Skeleton(s) == []
  {
    if s != [] {
      SkeletonOfForeign(s[1..]);
    }
  }

  lemma {:induction false} SkeletonKeepsAll(s: string)
    requires forall i :: 0 <= i < |s| ==> IsSkeletonChar(s[i])
    ensures Skeleton(s) == s
  {
    if s != [] {
      SkeletonKeepsAll(s[1..]);
    }
  }

  /** A separator occurs in a string exactly when it occurs in its skeleton. */
  lemma {:induction false} SkeletonHasSeparator(s: string, c: char)
    requires c == '.' || c == ','
    ensures c in s <==> c in Skeleton(s)
  {
    if s != [] {
      SkeletonHasSeparator(s[1..], c);
      assert s == [s[0]] + s[1..];
    }
  }

  /** Rewriting a separator into skeleton characters commutes with taking the skeleton. */
  lemma {:induction false} SkeletonReplace(s: string, target: char, repl: string)
    requires target == '.' || target == ','
    requires forall i :: 0 <= i < |repl| ==> IsSkeletonChar(repl[i])
    ensures Skeleton(ReplaceChar(s, target, repl)) == ReplaceChar(Skeleton(s), target, repl)
  {
    if s != [] {
      var x, rest := s[0], s[1..];
      var h := if x == target then repl else [x];
      var k := if IsSkeletonChar(x) then [x] else [];
      assert ReplaceChar(s, target, repl) == h + ReplaceChar(rest, target, repl);
      assert Skeleton(s) == k + Skeleton(rest);
      SkeletonAppend(h, ReplaceChar(rest, target, repl));
      ReplaceCharAppend(k, Skeleton(rest), target, repl);
      SkeletonReplace(rest, target, repl);
      assert [x][1..] == [];
      if x == target {
        SkeletonKeepsAll(repl);
        assert ReplaceChar(k, target, repl) == repl + ReplaceChar([], target, repl);
      } else {
        assert Skeleton(h) == k + Skeleton([]);
        assert ReplaceChar(k, target, repl) == k;
      }
    }
  }

  /** The residue kept by `[^\d.]` removal is a function of the skeleton. */
  lemma {:induction false} KeepNumericOfSkeleton(s: string)
    ensures KeepNumeric(Skeleton(s)) == KeepNumeric(s)
  {
    if s != [] {
      var x, rest := s[0], s[1..];
      var k := if IsSkeletonChar(x) then [x] else [];
      assert Skeleton(s) == k + Skeleton(rest);
      KeepNumericAppend(k, Skeleton(rest));
      KeepNumericOfSkeleton(rest);
      assert [x][1..] == [];
      assert KeepNumeric(k) == if IsNumericChar(x) then [x] else [];
    }
  }

  /** Stripping whitespace never touches the skeleton. */
  lemma SkeletonStrip(s: string)
    ensures Skeleton(Strip(s)) == Skeleton(s)
  {
    SkeletonStripLeading(s);
    SkeletonStripTrailing(StripLeading(s));
  }

  lemma {:induction false} SkeletonStripLeading(s: string)
    ensures Skeleton(StripLeading(s)) == Skeleton(s)
  {
    if s != [] && IsSpace(s[0]) {
      SkeletonStripLeading(s[1..]);
      SkeletonSkipsSpace(s);
    }
  }

  /** A leading space is not part of the skeleton. */
  lemma SkeletonSkipsSpace(s: string)
    requires s != [] && IsSpace(s[0])
    ensures Skeleton(s) == Skeleton(s[1..])
  {
    assert !IsSkeletonChar(s[0]);
  }

  lemma SkeletonStripTrailing(s: string)
    ensures Skeleton(StripTrailing(s)) == Skeleton(s)
  {
    var t := StripTrailing(s);
    var trail := s[|t|..];
    assert s == t + trail;
    assert forall i :: 0 <= i < |trail| ==> IsSpace(trail[i]);
    SkeletonAppend(t, trail);
    SkeletonOfForeign(trail);
  }

  // ---------------------------------------------------------------------
  // Decimal digit strings

  /** The number a digit string denotes, most significant digit first. */
  function NatValue(ds: string): nat
    requires AllDigits(ds)
  {
    if ds == [] then 0 else 10 * NatValue(ds[..|ds| - 1]) + DigitValue(ds[|ds| - 1])
  }

  /** The shortest decimal digit string of `n`. */
  function ShowNat(n: nat): (ds: string)
    ensures AllDigits(ds) && |ds| > 0
  {
    if n < 10 then [DigitChar(n)] else ShowNat(n / 10) + [DigitChar(n % 10)]
  }

  /** Reading back a written number gives the number. */
  lemma {:induction false} NatValueShowNat(n: nat)
    ensures NatValue(ShowNat(n)) == n
  {
    if n >= 10 {
      NatValueShowNat(n / 10);
      var ds := ShowNat(n);
      assert ds[..|ds| - 1] == ShowNat(n / 10);
    }
  }

  /** `ds` written with a '.' before every group of three digits counted from the right. */
  function GroupThousands(ds: string): (r: string)
    requires AllDigits(ds)
    ensures forall i :: 0 <= i < |r| ==> IsNumericChar(r[i])
    ensures |ds| <= 3 ==> r == ds
  {
    if |ds| <= 3 then ds
    else GroupThousands(ds[..|ds| - 3]) + "." + ds[|ds| - 3..]
  }

  /** Deleting the dots of a grouped number gives back its digits. */
  lemma {:induction false} UngroupThousands(ds: string)
    requires AllDigits(ds)
    ensures ReplaceChar(GroupThousands(ds), '.', "") == ds
  {
    if |ds| <= 3 {
      ReplaceAbsent(ds, '.', "");
    } else {
      var front, back := ds[..|ds| - 3], ds[|ds| - 3..];
      assert AllDigits(front) && AllDigits(back);
      UngroupThousands(front);
      UngroupStep(GroupThousands(front), front, back);
      assert front + back == ds;
    }
  }

  /** Deleting the dots of `g`, a dot and trailing digits: the digits follow the undotted `g`. */
  lemma UngroupStep(g: string, front: string, back: string)
    requires ReplaceChar(g, '.', "") == front
    requires AllDigits(back)
    ensures ReplaceChar(g + "." + back, '.', "") == front + back
  {
    var gd := g + ".";
    assert ReplaceChar(gd, '.', "") == front by {
      ReplaceCharAppend(g, ".", '.', "");
      DeleteLoneDot();
    }
    assert ReplaceChar(back, '.', "") == back by {
      assert forall i :: 0 <= i < |back| ==> back[i] != '.';
      ReplaceAbsent(back, '.', "");
    }
    ReplaceCharAppend(gd, back, '.', "");
  }

  lemma DeleteLoneDot()
    ensures ReplaceChar(".", '.', "") == ""
  {
    assert "."[1..] == [];
  }
}
