/**
 * `DataProcessor.clean_price`: from a free-form price text such as
 * "40.000 CUP" to an amount and a currency.
 *
 * `CleanedPrice` is the meaning of the cleaner; `CleanPrice` performs the
 * source's steps one by one (currency search loop, regular-expression removal
 * of the currency words, strip, separator rewriting, residue, float parse,
 * range check) and is proved to compute `CleanedPrice`.
 */
module PriceCleaning {
  import opened Options
  import opened Text
  import Settings

  datatype Currency = USD | CUP | MLC

  function Token(c: Currency): string {
    match c
    case USD => "USD"
    case CUP => "CUP"
    case MLC => "MLC"
  }

  /** The order in which the cleaner looks for the currency words. */
  const CurrencyOrder: seq<Currency> := [USD, CUP, MLC]

  /** The first currency of `order` whose word occurs in `s`. */
  function FirstContained(s: string, order: seq<Currency>): Option<Currency> {
    if order == [] then None
    else if Contains(s, Token(order[0])) then Some(order[0])
    else FirstContained(s, order[1..])
  }

  /**
   * `FirstContained` finds the currency at the first position `k` of the list
   * whose word occurs, no earlier word occurring, and finds none only when no
   * word occurs.
   */
  lemma {:induction false} FirstContainedFinds(s: string, order: seq<Currency>)
    ensures var r := FirstContained(s, order);
      && (r.Some? ==> r.value in order && Contains(s, Token(r.value)))
      && (r.Some? ==> exists k :: 0 <= k < |order| && order[k] == r.value
                        && forall j :: 0 <= j < k ==> !Contains(s, Token(order[j])))
      && (r.None? <==> forall i :: 0 <= i < |order| ==> !Contains(s, Token(order[i])))
  {
    if order != [] {
      FirstContainedFinds(s, order[1..]);
      var tail := order[1..];
      if Contains(s, Token(order[0])) {
        assert order[0] == FirstContained(s, order).value;
      } else {
        assert forall i :: 1 <= i < |order| ==> order[i] == tail[i - 1];
        var r := FirstContained(s, tail);
        if r.Some? {
          var k :| 0 <= k < |tail| && tail[k] == r.value && forall j :: 0 <= j < k ==> !Contains(s, Token(tail[j]));
          assert order[k + 1] == r.value;
          assert forall j :: 0 <= j < k + 1 ==> !Contains(s, Token(order[j]));
        }
      }
    }
  }

  /** Case-sensitive substring search with priority USD, then CUP, then MLC. */
  function DetectCurrency(s: string): Option<Currency> {
    FirstContained(s, CurrencyOrder)
  }

  /** The four outcomes of the currency search, each exactly when the words occur as it says. */
  lemma DetectCurrencyCases(s: string)
    ensures DetectCurrency(s) == Some(USD) <==> Contains(s, "USD")
    ensures DetectCurrency(s) == Some(CUP) <==> !Contains(s, "USD") && Contains(s, "CUP")
    ensures DetectCurrency(s) == Some(MLC) <==> !Contains(s, "USD") && !Contains(s, "CUP") && Contains(s, "MLC")
    ensures DetectCurrency(s) == None <==> !Contains(s, "USD") && !Contains(s, "CUP") && !Contains(s, "MLC")
  {
    assert CurrencyOrder[1..] == [CUP, MLC] && CurrencyOrder[1..][1..] == [MLC] && [MLC][1..] == [];
    assert FirstContained(s, [MLC]) == if Contains(s, "MLC") then Some(MLC) else None;
    assert FirstContained(s, [CUP, MLC]) == if Contains(s, "CUP") then Some(CUP) else FirstContained(s, [MLC]);
  }

  /** The currency word anywhere in the text decides, whatever surrounds it. */
  lemma UsdAnywhere(before: string, after: string)
    ensures DetectCurrency(before + "USD" + after) == Some(USD)
  {
    ContainsPiece(before, "USD", after);
    DetectCurrencyCases(before + "USD" + after);
  }

  // ---------------------------------------------------------------------
  // `re.sub(r'\bUSD\b|\bCUP\b|\bMLC\b', '', s)`

  /** The word characters of `\w`, restricted to ASCII. */
  predicate IsWordChar(c: char) { 'a' <= c <= 'z' || 'A' <= c <= 'Z' || IsDigit(c) || c == '_' }

  /** `\b` at position `i` of `s`. */
  predicate WordBoundary(s: string, i: nat)
    requires i <= |s|
  {
    (i > 0 && IsWordChar(s[i - 1])) != (i < |s| && IsWordChar(s[i]))
  }

  predicate IsCurrencyWord(t: string) { t == "USD" || t == "CUP" || t == "MLC" }

  /** A currency word standing alone as a word starts at position `i`. */
  predicate TokenAt(s: string, i: nat)
    requires i <= |s|
  {
    i + 3 <= |s| && IsCurrencyWord(s[i..i + 3]) && WordBoundary(s, i) && WordBoundary(s, i + 3)
  }

  /** The left-to-right scan of `re.sub` from position `i`; boundaries are judged on the original text. */
  function RemoveTokensFrom(s: string, i: nat): string
    requires i <= |s|
    decreases |s| - i
  {
    if i == |s| then []
    else if TokenAt(s, i) then RemoveTokensFrom(s, i + 3)
    else [s[i]] + RemoveTokensFrom(s, i + 1)
  }

  function RemoveCurrencyTokens(s: string): string {
    RemoveTokensFrom(s, 0)
  }

  /** Removing currency words deletes letters only: the digits and separators stay as they were. */
  lemma {:induction false} RemoveTokensSkeleton(s: string, i: nat)
    requires i <= |s|
    ensures Skeleton(RemoveTokensFrom(s, i)) == Skeleton(s[i..])
    decreases |s| - i
  {
    if i == |s| {
      assert s[i..] == [];
    } else if TokenAt(s, i) {
      RemoveTokensSkeleton(s, i + 3);
      var w := s[i..i + 3];
      assert s[i..] == w + s[i + 3..];
      SkeletonAppend(w, s[i + 3..]);
      assert forall j :: 0 <= j < |w| ==> !IsSkeletonChar(w[j]);
      SkeletonOfForeign(w);
    } else {
      RemoveTokensSkeleton(s, i + 1);
      assert s[i..] == [s[i]] + s[i + 1..];
      SkeletonAppend([s[i]], s[i + 1..]);
      SkeletonAppend([s[i]], RemoveTokensFrom(s, i + 1));
    }
  }

  // ---------------------------------------------------------------------
  // Separators

  /**
   * Both '.' and ',' present: '.' groups thousands and ',' is the decimal
   * point.  Only ',': it is the decimal point.  Otherwise every '.' groups
   * thousands and is dropped.
   */
  function NormalizeSeparators(s: string): string {
    if ',' in s && '.' in s then ReplaceChar(ReplaceChar(s, '.', ""), ',', ".")
    else if ',' in s then ReplaceChar(s, ',', ".")
    else ReplaceChar(s, '.', "")
  }

  /** After rewriting no comma is left, and without a comma no dot is left either. */
  lemma SeparatorsNormalized(s: string)
    ensures ',' !in NormalizeSeparators(s)
    ensures ',' !in s ==> '.' !in NormalizeSeparators(s)
  {
    if ',' in s && '.' in s {
      ReplaceCharRemoves(ReplaceChar(s, '.', ""), ',', ".");
    } else if ',' in s {
      ReplaceCharRemoves(s, ',', ".");
    } else {
      ReplaceCharAbsent(s, '.', "", ',');
      ReplaceCharRemoves(s, '.', "");
    }
  }

  /** The digits and dots left after separator rewriting: what `float` is given. */
  function Residue(s: string): (r: string)
    ensures forall i :: 0 <= i < |r| ==> IsNumericChar(r[i])
  {
    KeepNumeric(NormalizeSeparators(s))
  }

  /** The residue of a text is determined by its digits, dots and commas alone. */
  lemma ResidueOfSkeleton(s: string)
    ensures Residue(Skeleton(s)) == Residue(s)
  {
    var k := Skeleton(s);
    SkeletonHasSeparator(s, '.');
    SkeletonHasSeparator(s, ',');
    KeepNumericOfSkeleton(NormalizeSeparators(s));
    if ',' in s && '.' in s {
      SkeletonReplace(s, '.', "");
      SkeletonReplace(ReplaceChar(s, '.', ""), ',', ".");
    } else if ',' in s {
      SkeletonReplace(s, ',', ".");
    } else {
      SkeletonReplace(s, '.', "");
    }
    KeepNumericOfSkeleton(NormalizeSeparators(k));
  }

  /** Removing the currency words and stripping whitespace has no effect on the residue. */
  lemma TokenRemovalIrrelevant(s: string)
    ensures Residue(Strip(RemoveCurrencyTokens(s))) == Residue(s)
  {
    var t := Strip(RemoveCurrencyTokens(s));
    SkeletonStrip(RemoveCurrencyTokens(s));
    RemoveTokensSkeleton(s, 0);
    assert s[0..] == s;
    ResidueOfSkeleton(t);
    ResidueOfSkeleton(s);
  }

  // ---------------------------------------------------------------------
  // `float(residue)` on a string of digits and dots

  function DotCount(s: string): (n: nat)
    ensures n <= |s|
    ensures n == 0 <==> '.' !in s
  {
    if s == [] then 0 else (if s[0] == '.' then 1 else 0) + DotCount(s[1..])
  }

  lemma {:induction false} DotCountAppend(a: string, b: string)
    ensures DotCount(a + b) == DotCount(a) + DotCount(b)
  {
    if a == [] {
      assert a + b == b;
    } else {
      assert (a + b)[1..] == a[1..] + b;
      DotCountAppend(a[1..], b);
    }
  }

  /** The position of the first occurrence of `c` in `s`. */
  function IndexOf(s: string, c: char): (i: nat)
    requires c in s
    ensures i < |s| && s[i] == c && c !in s[..i]
  {
    if s[0] == c then 0
    else
      var j := IndexOf(s[1..], c);
      assert s[..j + 1] == [s[0]] + s[1..][..j];
      j + 1
  }

  /** A string of digits and dots without a dot is a digit string. */
  lemma NoDotDigits(r: string)
    requires forall j :: 0 <= j < |r| ==> IsNumericChar(r[j])
    requires '.' !in r
    ensures AllDigits(r)
  {
    forall j | 0 <= j < |r| ensures IsDigit(r[j]) {
      assert r[j] in r;
    }
  }

  /** Both sides of the only dot of a residue are digit strings. */
  lemma DigitsAroundDot(r: string, i: nat)
    requires forall j :: 0 <= j < |r| ==> IsNumericChar(r[j])
    requires DotCount(r) <= 1 && i < |r| && r[i] == '.'
    ensures AllDigits(r[..i]) && AllDigits(r[i + 1..])
  {
    OnlyDot(r, i);
    var front, back := r[..i], r[i + 1..];
    assert forall j :: 0 <= j < |front| ==> front[j] == r[j];
    NoDotDigits(front);
    assert forall j :: 0 <= j < |back| ==> back[j] == r[i + 1 + j];
    NoDotDigits(back);
  }

  /** With at most one dot, the dot at `i` has none before or after it. */
  lemma OnlyDot(r: string, i: nat)
    requires DotCount(r) <= 1 && i < |r| && r[i] == '.'
    ensures '.' !in r[..i] && '.' !in r[i + 1..]
  {
    var front, rest := r[..i], r[i..];
    assert r == front + rest;
    DotCountAppend(front, rest);
    var dot, back := rest[..1], rest[1..];
    assert rest == dot + back;
    assert back == r[i + 1..];
    DotCountAppend(dot, back);
    assert DotCount(dot) == 1 by {
      assert dot[0] == '.' && |dot[1..]| == 0;
    }
  }

  /** The first occurrence of a character not in `a` that follows `a`. */
  lemma {:induction false} IndexAfter(a: string, c: char, b: string)
    requires c !in a
    ensures IndexOf(a + [c] + b, c) == |a|
  {
    if a != [] {
      assert (a + [c] + b)[1..] == a[1..] + [c] + b;
      IndexAfter(a[1..], c, b);
    }
  }

  /** The value of the digits after a decimal point: "25" is 0.25. */
  function FractionValue(ds: string): (x: real)
    requires AllDigits(ds)
    ensures 0.0 <= x < 1.0
  {
    if ds == [] then 0.0 else (DigitValue(ds[0]) as real + FractionValue(ds[1..])) / 10.0
  }

  /**
   * Python's `float` on a string of digits and dots: it succeeds exactly
   * when there is at most one dot and at least one digit, and reads the
   * digits before the dot as the integer part and those after it as the
   * fraction.
   */
  function ParseResidue(r: string): (v: Option<real>)
    requires forall i :: 0 <= i < |r| ==> IsNumericChar(r[i])
    ensures v.Some? <==> DotCount(r) <= 1 && DotCount(r) < |r|
    ensures v.Some? ==> v.value >= 0.0
  {
    if DotCount(r) > 1 || DotCount(r) == |r| then None
    else if DotCount(r) == 1 then Some(ReadAroundDot(r, IndexOf(r, '.')))
    else
      NoDotDigits(r);
      Some(NatValue(r) as real)
  }

  /** The integer part before the dot at `i` plus the fraction after it. */
  function ReadAroundDot(r: string, i: nat): (x: real)
    requires forall j :: 0 <= j < |r| ==> IsNumericChar(r[j])
    requires DotCount(r) <= 1 && i < |r| && r[i] == '.'
    ensures x >= 0.0
  {
    DigitsAroundDot(r, i);
    NatValue(r[..i]) as real + FractionValue(r[i + 1..])
  }

  /** A nonempty digit string reads as the integer it spells. */
  lemma ParseDigits(ds: string)
    requires AllDigits(ds) && |ds| > 0
    ensures forall i :: 0 <= i < |ds| ==> IsNumericChar(ds[i])
    ensures ParseResidue(ds) == Some(NatValue(ds) as real)
  {
  }

  /** Digit strings hold neither separator. */
  lemma DigitsHaveNoSeparator(ds: string)
    requires AllDigits(ds)
    ensures '.' !in ds && ',' !in ds
  {
    forall j | 0 <= j < |ds| ensures ds[j] != '.' && ds[j] != ',' {
      assert IsDigit(ds[j]);
    }
  }

  /** Digits, one dot, digits: the integer part plus the fraction. */
  lemma ParseWithDot(a: string, b: string, r: string)
    requires AllDigits(a) && AllDigits(b) && |a| + |b| > 0
    requires r == a + "." + b
    ensures forall i :: 0 <= i < |r| ==> IsNumericChar(r[i])
    ensures ParseResidue(r) == Some(NatValue(a) as real + FractionValue(b))
  {
    DecimalIsNumeric(a, b, r);
    DotAfterDigits(a, b);
    IndexAfter(a, '.', b);
    ParseOneDot(r, |a|);
    ReadDecimal(a, b, r);
  }

  /** A residue with exactly one dot, at `i`, reads around that dot. */
  lemma ParseOneDot(r: string, i: nat)
    requires forall j :: 0 <= j < |r| ==> IsNumericChar(r[j])
    requires DotCount(r) == 1 && 1 < |r| && i < |r| && r[i] == '.' && IndexOf(r, '.') == i
    ensures ParseResidue(r) == Some(ReadAroundDot(r, i))
  {
  }

  /** Reading around the dot of `a.b` gives `a` plus the fraction `b`. */
  lemma ReadDecimal(a: string, b: string, r: string)
    requires AllDigits(a) && AllDigits(b)
    requires r == a + "." + b
    requires forall j :: 0 <= j < |r| ==> IsNumericChar(r[j])
    requires DotCount(r) == 1
    ensures ReadAroundDot(r, |a|) == NatValue(a) as real + FractionValue(b)
  {
    assert r[..|a|] == a;
    assert r[|a| + 1..] == b;
  }

  lemma DotAfterDigits(a: string, b: string)
    requires AllDigits(a) && AllDigits(b)
    ensures DotCount(a + "." + b) == 1
  {
    DigitsHaveNoSeparator(a);
    DigitsHaveNoSeparator(b);
    DotCountAppend(a + ".", b);
    DotCountAppend(a, ".");
    assert DotCount(".") == 1 + DotCount([]);
  }

  // ---------------------------------------------------------------------
  // The cleaner

  /** `clean_price`'s result: `(price, currency)`, each possibly `None`. */
  datatype Cleaned = Cleaned(price: Option<real>, currency: Option<Currency>)

  /**
   * The meaning of `clean_price` with the bounds `minPrice`, `maxPrice`:
   * no text or no currency word gives (None, None); an unreadable residue
   * gives (None, None); an amount outside the inclusive bounds gives
   * (None, currency); otherwise (amount, currency).  The removal of the
   * currency words is left out here: `TokenRemovalIrrelevant` shows it
   * cannot change the residue.
   */
  function CleanedPrice(minPrice: real, maxPrice: real, s: string): (r: Cleaned)
    ensures r.price.Some? ==> r.currency.Some? && minPrice <= r.price.value <= maxPrice
    ensures r.currency.Some? ==> r.currency == DetectCurrency(s)
    ensures |s| == 0 || DetectCurrency(s).None? ==> r == Cleaned(None, None)
  {
    if |s| == 0 then Cleaned(None, None)
    else
      match DetectCurrency(s)
      case None => Cleaned(None, None)
      case Some(c) =>
        match ParseResidue(Residue(s))
        case None => Cleaned(None, None)
        case Some(p) =>
          if p < minPrice || p > maxPrice then Cleaned(None, Some(c)) else Cleaned(Some(p), Some(c))
  }

  /** `clean_price` as the source performs it, step by step. */
  method CleanPrice(minPrice: real, maxPrice: real, priceStr: string) returns (price: Option<real>, currency: Option<Currency>)
    ensures Cleaned(price, currency) == CleanedPrice(minPrice, maxPrice, priceStr)
  {
    if |priceStr| == 0 {
      return None, None;
    }
    currency := None;
    for i := 0 to |CurrencyOrder|
      invariant currency == None
      invariant FirstContained(priceStr, CurrencyOrder[i..]) == DetectCurrency(priceStr)
    {
      assert CurrencyOrder[i..][0] == CurrencyOrder[i] && CurrencyOrder[i..][1..] == CurrencyOrder[i + 1..];
      if Contains(priceStr, Token(CurrencyOrder[i])) {
        currency := Some(CurrencyOrder[i]);
        break;
      }
    }
    assert currency == DetectCurrency(priceStr);
    if currency == None {
      return None, None;
    }
    var s := Strip(RemoveCurrencyTokens(priceStr));
    s := NormalizeSeparators(s);
    s := KeepNumeric(s);
    TokenRemovalIrrelevant(priceStr);
    assert s == Residue(priceStr);
    price := ParseResidue(s);
    if price == None {
      CleanedOfUnreadable(minPrice, maxPrice, priceStr);
      return None, None;
    }
    CleanedOfReading(minPrice, maxPrice, priceStr, price.value);
    if price.value < minPrice || price.value > maxPrice {
      return None, currency;
    }
  }

  // ---------------------------------------------------------------------
  // Properties of the cleaner

  /** The cleaner's answer for a text with currency `c` whose amount reads as `v`. */
  function Priced(minPrice: real, maxPrice: real, v: real, c: Option<Currency>): Cleaned {
    if minPrice <= v <= maxPrice then Cleaned(Some(v), c) else Cleaned(None, c)
  }

  /** A text with a currency word whose residue reads as `v` is cleaned to `v` when `v` is in bounds. */
  lemma CleanedOfReading(minPrice: real, maxPrice: real, s: string, v: real)
    requires DetectCurrency(s).Some?
    requires ParseResidue(Residue(s)) == Some(v)
    ensures CleanedPrice(minPrice, maxPrice, s) == Priced(minPrice, maxPrice, v, DetectCurrency(s))
  {
    assert |s| > 0 by {
      if |s| == 0 { assert false; }
    }
  }

  /**
   * A residue that `float` rejects (empty, a lone dot, two dots) gives
   * neither an amount nor a currency, even when a currency word was found.
   */
  lemma CleanedOfUnreadable(minPrice: real, maxPrice: real, s: string)
    requires ParseResidue(Residue(s)).None?
    ensures CleanedPrice(minPrice, maxPrice, s) == Cleaned(None, None)
  {
  }

  /** A currency word with no amount: "USD" alone is found as USD, and still gives (None, None). */
  lemma ExampleWordOnly(minPrice: real, maxPrice: real, s: string)
    requires s == "USD"
    ensures DetectCurrency(s) == Some(USD)
    ensures CleanedPrice(minPrice, maxPrice, s) == Cleaned(None, None)
  {
    UsdAnywhere([], []);
    assert [] + "USD" + [] == s;
    assert Residue(s) == [] by {
      SkeletonOfForeign(s);
      ResidueOfSkeleton(s);
      assert Residue([]) == [] by { assert NormalizeSeparators([]) == []; }
    }
    CleanedOfUnreadable(minPrice, maxPrice, s);
  }

  /** Without a comma every dot is a thousands separator: the amount is a whole number. */
  lemma DotOnlyIsWhole(minPrice: real, maxPrice: real, s: string)
    requires ',' !in s
    ensures AllDigits(Residue(s))
    ensures CleanedPrice(minPrice, maxPrice, s).price.Some? ==>
              CleanedPrice(minPrice, maxPrice, s).price.value == NatValue(Residue(s)) as real
  {
    var r := Residue(s);
    SeparatorsNormalized(s);
    assert forall i :: 0 <= i < |r| ==> r[i] in NormalizeSeparators(s) by {
      KeepNumericSubset(NormalizeSeparators(s));
    }
    assert AllDigits(r);
    if |r| > 0 {
      ParseDigits(r);
    }
  }

  lemma {:induction false} KeepNumericSubset(s: string)
    ensures forall i :: 0 <= i < |KeepNumeric(s)| ==> KeepNumeric(s)[i] in s
  {
    if s != [] {
      KeepNumericSubset(s[1..]);
      var h := if IsNumericChar(s[0]) then [s[0]] else [];
      assert KeepNumeric(s) == h + KeepNumeric(s[1..]);
      forall i | 0 <= i < |KeepNumeric(s)| ensures KeepNumeric(s)[i] in s {
        if i < |h| {
          assert KeepNumeric(s)[i] == s[0];
        } else {
          assert KeepNumeric(s)[i] == KeepNumeric(s[1..])[i - |h|];
          assert KeepNumeric(s[1..])[i - |h|] in s[1..];
        }
      }
    }
  }

  /** A string of digits and dots consists of skeleton characters. */
  lemma NumericIsSkeleton(x: string)
    requires forall i :: 0 <= i < |x| ==> IsNumericChar(x[i])
    ensures forall i :: 0 <= i < |x| ==> IsSkeletonChar(x[i])
  {
  }

  /** A grouped number rewrites back to its digits. */
  lemma GroupedResidue(digits: string)
    requires AllDigits(digits)
    ensures Residue(GroupThousands(digits)) == digits
  {
    var g := GroupThousands(digits);
    assert ',' !in g by {
      forall i | 0 <= i < |g| ensures g[i] != ',' {
        assert IsNumericChar(g[i]);
      }
    }
    UngroupThousands(digits);
    assert NormalizeSeparators(g) == digits;
    KeepNumericKeepsAll(digits);
  }

  /**
   * A whole number written with '.' thousands separators, in any text that
   * carries no other digits, dots or commas, reads back as that number;
   * at or inside the bounds it is kept, outside them only the currency is.
   */
  lemma GroupedWholeRoundTrip(minPrice: real, maxPrice: real, digits: string, before: string, after: string, s: string)
    requires AllDigits(digits) && |digits| > 0
    requires Skeleton(before) == [] && Skeleton(after) == []
    requires s == before + GroupThousands(digits) + after
    requires DetectCurrency(s).Some?
    ensures CleanedPrice(minPrice, maxPrice, s) == Priced(minPrice, maxPrice, NatValue(digits) as real, DetectCurrency(s))
  {
    var g := GroupThousands(digits);
    NumericIsSkeleton(g);
    ResidueEmbedded(before, g, after);
    GroupedResidue(digits);
    ParseDigits(digits);
    CleanedOfReading(minPrice, maxPrice, s, NatValue(digits) as real);
  }

  /** Deleting the dots of a grouped integer followed by a comma part. */
  lemma UngroupBeforeComma(digits: string, frac: string)
    requires AllDigits(digits) && AllDigits(frac)
    ensures ReplaceChar(GroupThousands(digits) + "," + frac, '.', "") == digits + "," + frac
  {
    var g := GroupThousands(digits);
    UngroupThousands(digits);
    DigitsHaveNoSeparator(frac);
    ReplaceCharAppend(g + ",", frac, '.', "");
    ReplaceCharAppend(g, ",", '.', "");
    ReplaceAbsent(frac, '.', "");
    ReplaceAbsent(",", '.', "");
  }

  /** Turning the only comma of `x + "," + y` into the decimal point. */
  lemma CommaToDot(x: string, y: string)
    requires ',' !in x && ',' !in y
    ensures ReplaceChar(x + "," + y, ',', ".") == x + "." + y
  {
    ReplaceCharAppend(x + ",", y, ',', ".");
    ReplaceCharAppend(x, ",", ',', ".");
    ReplaceAbsent(x, ',', ".");
    ReplaceAbsent(y, ',', ".");
    assert ReplaceChar(",", ',', ".") == "." + ReplaceChar([], ',', ".");
  }

  /** Both the European rule and the comma-only rule turn "1.234,56" style into "1234.56". */
  lemma NormalizeEuropean(digits: string, frac: string)
    requires AllDigits(digits) && AllDigits(frac)
    ensures NormalizeSeparators(GroupThousands(digits) + "," + frac) == digits + "." + frac
  {
    var g := GroupThousands(digits);
    var e := g + "," + frac;
    assert e[|g|] == ',';
    DigitsHaveNoSeparator(frac);
    DigitsHaveNoSeparator(digits);
    assert ',' !in g;
    if '.' in e {
      UngroupBeforeComma(digits, frac);
      CommaToDot(digits, frac);
    } else {
      assert '.' !in g;
      ReplaceAbsent(g, '.', "");
      UngroupThousands(digits);
      CommaToDot(g, frac);
    }
  }

  /** Text with an empty skeleton around a skeleton string adds nothing to it. */
  lemma SkeletonEmbedded(before: string, x: string, after: string)
    requires Skeleton(before) == [] && Skeleton(after) == []
    requires forall i :: 0 <= i < |x| ==> IsSkeletonChar(x[i])
    ensures Skeleton(before + x + after) == x
  {
    SkeletonAppend(before + x, after);
    SkeletonAppend(before, x);
    SkeletonKeepsAll(x);
  }

  /** Text with an empty skeleton around a skeleton string does not change its residue. */
  lemma ResidueEmbedded(before: string, x: string, after: string)
    requires Skeleton(before) == [] && Skeleton(after) == []
    requires forall i :: 0 <= i < |x| ==> IsSkeletonChar(x[i])
    ensures Residue(before + x + after) == Residue(x)
  {
    SkeletonEmbedded(before, x, after);
    ResidueOfSkeleton(before + x + after);
  }

  /** A digit-and-dot string, a comma and digits: all skeleton characters. */
  lemma DecimalSkeletonChars(g: string, frac: string)
    requires forall i :: 0 <= i < |g| ==> IsNumericChar(g[i])
    requires AllDigits(frac)
    ensures forall i :: 0 <= i < |g + "," + frac| ==> IsSkeletonChar((g + "," + frac)[i])
  {
    var e := g + "," + frac;
    forall i | 0 <= i < |e| ensures IsSkeletonChar(e[i]) {
      if i < |g| { assert e[i] == g[i]; } else if i > |g| { assert e[i] == frac[i - |g| - 1]; }
    }
  }

  lemma EuropeanResidueOfAmount(digits: string, frac: string)
    requires AllDigits(digits) && AllDigits(frac)
    ensures Residue(GroupThousands(digits) + "," + frac) == digits + "." + frac
  {
    NormalizeEuropean(digits, frac);
    DecimalKeepsAll(digits, frac);
  }

  /** `digits.frac` passes the `[^\d.]` removal unchanged. */
  lemma DecimalKeepsAll(digits: string, frac: string)
    requires AllDigits(digits) && AllDigits(frac)
    ensures KeepNumeric(digits + "." + frac) == digits + "." + frac
  {
    var r := digits + "." + frac;
    DecimalIsNumeric(digits, frac, r);
    KeepNumericKeepsAll(r);
  }

  /** Digits, a dot and digits: only numeric characters. */
  lemma DecimalIsNumeric(a: string, b: string, r: string)
    requires AllDigits(a) && AllDigits(b)
    requires r == a + "." + b
    ensures forall i :: 0 <= i < |r| ==> IsNumericChar(r[i])
  {
    forall i | 0 <= i < |r| ensures IsNumericChar(r[i]) {
      if i < |a| { assert r[i] == a[i]; } else if i > |a| { assert r[i] == b[i - |a| - 1]; }
    }
  }

  /**
   * A European amount, '.' thousands and ',' before the fraction digits
   * `frac`, in any text whose digits, dots and commas are exactly that
   * amount.  With fewer than four integer digits there is no '.', the
   * comma-only rule applies instead, and the result is the same.
   */
  lemma EuropeanRoundTrip(minPrice: real, maxPrice: real, digits: string, frac: string, s: string)
    requires AllDigits(digits) && AllDigits(frac) && |digits| + |frac| > 0
    requires Skeleton(s) == GroupThousands(digits) + "," + frac
    requires DetectCurrency(s).Some?
    ensures CleanedPrice(minPrice, maxPrice, s) == Priced(minPrice, maxPrice, NatValue(digits) as real + FractionValue(frac), DetectCurrency(s))
  {
    EuropeanReading(digits, frac, s);
    CleanedOfReading(minPrice, maxPrice, s, NatValue(digits) as real + FractionValue(frac));
  }

  /** The reading of a text whose digits, dots and commas form a European amount. */
  lemma EuropeanReading(digits: string, frac: string, s: string)
    requires AllDigits(digits) && AllDigits(frac) && |digits| + |frac| > 0
    requires Skeleton(s) == GroupThousands(digits) + "," + frac
    ensures ParseResidue(Residue(s)) == Some(NatValue(digits) as real + FractionValue(frac))
  {
    ResidueOfSkeleton(s);
    EuropeanResidueOfAmount(digits, frac);
    ParseWithDot(digits, frac, digits + "." + frac);
  }

  /** "150 USD" style: a plain or dot-grouped whole number followed by the USD word. */
  lemma UsdWholeRoundTrip(minPrice: real, maxPrice: real, n: nat, s: string)
    requires minPrice <= n as real <= maxPrice
    requires s == GroupThousands(ShowNat(n)) + " USD"
    ensures CleanedPrice(minPrice, maxPrice, s) == Cleaned(Some(n as real), Some(USD))
  {
    var g := GroupThousands(ShowNat(n));
    UsdAnywhere(g + " ", "");
    assert g + " " + "USD" + "" == [] + g + " USD" == s;
    SkeletonOfForeign(" USD");
    SkeletonOfForeign([]);
    GroupedWholeRoundTrip(minPrice, maxPrice, ShowNat(n), [], " USD", s);
    NatValueShowNat(n);
  }

  /** A text that lacks one character of `t` cannot contain `t`. */
  lemma {:induction false} MissingChar(s: string, t: string, k: nat)
    requires k < |t| && t[k] !in s
    ensures !Contains(s, t)
  {
    if s != [] {
      MissingChar(s[1..], t, k);
    }
  }

  lemma ExampleUsd(minPrice: real, maxPrice: real, s: string)
    requires minPrice <= 150.0 <= maxPrice
    requires s == "150 USD"
    ensures CleanedPrice(minPrice, maxPrice, s) == Cleaned(Some(150.0), Some(USD))
  {
    assert DetectCurrency(s) == Some(USD) by {
      UsdAnywhere("150 ", "");
      assert "150 " + "USD" + "" == s;
    }
    assert s == [] + GroupThousands("150") + " USD";
    assert Skeleton(" USD") == [] by { SkeletonOfForeign(" USD"); }
    assert Skeleton([]) == [];
    assert NatValue("150") == 150 by {
      assert NatValue("1") == 1;
      assert "15"[..1] == "1" && "150"[..2] == "15";
    }
    GroupedWholeRoundTrip(minPrice, maxPrice, "150", [], " USD", s);
  }

  lemma ExampleCupThousands(minPrice: real, maxPrice: real, s: string)
    requires minPrice <= 40000.0 <= maxPrice
    requires s == "40.000 CUP"
    ensures CleanedPrice(minPrice, maxPrice, s) == Cleaned(Some(40000.0), Some(CUP))
  {
    assert DetectCurrency(s) == Some(CUP) by { CupDetected(s); }
    assert s == [] + GroupThousands("40000") + " CUP" && NatValue("40000") == 40000 by { FortyThousand(); }
    assert Skeleton(" CUP") == [] by { SkeletonOfForeign(" CUP"); }
    assert Skeleton([]) == [];
    GroupedWholeRoundTrip(minPrice, maxPrice, "40000", [], " CUP", s);
  }

  lemma CupDetected(s: string)
    requires s == "40.000 CUP"
    ensures DetectCurrency(s) == Some(CUP)
  {
    MissingChar(s, "USD", 1);
    ContainsPiece("40.000 ", "CUP", "");
    assert "40.000 " + "CUP" + "" == s;
    DetectCurrencyCases(s);
  }

  lemma FortyThousand()
    ensures GroupThousands("40000") == "40.000"
    ensures NatValue("40000") == 40000
  {
    assert "40000"[..2] == "40" && "40000"[2..] == "000";
    assert NatValue("4") == 4;
    assert "40"[..1] == "4" && "400"[..2] == "40" && "4000"[..3] == "400" && "40000"[..4] == "4000";
  }

  lemma ExampleEuro(minPrice: real, maxPrice: real, s: string)
    requires s == "1.234,56 EUR"
    ensures CleanedPrice(minPrice, maxPrice, s) == Cleaned(None, None)
  {
    MissingChar(s, "USD", 1);
    MissingChar(s, "CUP", 0);
    MissingChar(s, "MLC", 0);
    DetectCurrencyCases(s);
  }

  lemma ExampleMlc(minPrice: real, maxPrice: real, s: string)
    requires minPrice <= 100.0 <= maxPrice
    requires s == "100 MLC"
    ensures CleanedPrice(minPrice, maxPrice, s) == Cleaned(Some(100.0), Some(MLC))
  {
    assert DetectCurrency(s) == Some(MLC) by { MlcDetected(s); }
    assert s == [] + GroupThousands("100") + " MLC";
    assert Skeleton(" MLC") == [] by { SkeletonOfForeign(" MLC"); }
    assert Skeleton([]) == [];
    assert NatValue("100") == 100 by {
      assert NatValue("1") == 1;
      assert "10"[..1] == "1" && "100"[..2] == "10";
    }
    GroupedWholeRoundTrip(minPrice, maxPrice, "100", [], " MLC", s);
  }

  lemma MlcDetected(s: string)
    requires s == "100 MLC"
    ensures DetectCurrency(s) == Some(MLC)
  {
    MissingChar(s, "USD", 0);
    MissingChar(s, "CUP", 1);
    ContainsPiece("100 ", "MLC", "");
    assert "100 " + "MLC" + "" == s;
    DetectCurrencyCases(s);
  }

  lemma ExampleCommaDecimal(minPrice: real, maxPrice: real, s: string)
    requires minPrice <= 50.5 <= maxPrice
    requires s == "50,5 USD"
    ensures CleanedPrice(minPrice, maxPrice, s) == Cleaned(Some(50.5), Some(USD))
  {
    assert DetectCurrency(s) == Some(USD) by {
      UsdAnywhere("50,5 ", "");
      assert "50,5 " + "USD" + "" == s;
    }
    CommaDecimalReading(s);
    CleanedOfReading(minPrice, maxPrice, s, 50.5);
  }

  lemma CommaDecimalReading(s: string)
    requires s == "50,5 USD"
    ensures ParseResidue(Residue(s)) == Some(50.5)
  {
    var e := GroupThousands("50") + "," + "5";
    assert s == [] + e + " USD";
    assert Skeleton(" USD") == [] by { SkeletonOfForeign(" USD"); }
    assert Skeleton([]) == [];
    DecimalSkeletonChars(GroupThousands("50"), "5");
    SkeletonEmbedded([], e, " USD");
    assert NatValue("50") == 50 by {
      assert NatValue("5") == 5;
      assert "50"[..1] == "5";
    }
    assert FractionValue("5") == 0.5 by {
      assert FractionValue("5"[1..]) == 0.0;
    }
    EuropeanReading("50", "5", s);
  }

  lemma ExampleNoPrice(minPrice: real, maxPrice: real, s: string)
    requires s == "NO PRICE"
    ensures CleanedPrice(minPrice, maxPrice, s) == Cleaned(None, None)
  {
    MissingChar(s, "USD", 0);
    MissingChar(s, "CUP", 1);
    MissingChar(s, "MLC", 0);
    DetectCurrencyCases(s);
  }

  /** The cleaning cases listed in the repository's own test script, under the shipped bounds. */
  lemma CleanPriceExamples()
    ensures CleanedPrice(Settings.DefaultConfig.minPrice, Settings.DefaultConfig.maxPrice, "150 USD") == Cleaned(Some(150.0), Some(USD))
    ensures CleanedPrice(Settings.DefaultConfig.minPrice, Settings.DefaultConfig.maxPrice, "40.000 CUP") == Cleaned(Some(40000.0), Some(CUP))
    ensures CleanedPrice(Settings.DefaultConfig.minPrice, Settings.DefaultConfig.maxPrice, "1.234,56 EUR") == Cleaned(None, None)
    ensures CleanedPrice(Settings.DefaultConfig.minPrice, Settings.DefaultConfig.maxPrice, "100 MLC") == Cleaned(Some(100.0), Some(MLC))
    ensures CleanedPrice(Settings.DefaultConfig.minPrice, Settings.DefaultConfig.maxPrice, "50,5 USD") == Cleaned(Some(50.5), Some(USD))
    ensures CleanedPrice(Settings.DefaultConfig.minPrice, Settings.DefaultConfig.maxPrice, "") == Cleaned(None, None)
    ensures CleanedPrice(Settings.DefaultConfig.minPrice, Settings.DefaultConfig.maxPrice, "NO PRICE") == Cleaned(None, None)
  {
    ExampleUsd(Settings.DefaultConfig.minPrice, Settings.DefaultConfig.maxPrice, "150 USD");
    ExampleCupThousands(Settings.DefaultConfig.minPrice, Settings.DefaultConfig.maxPrice, "40.000 CUP");
    ExampleEuro(Settings.DefaultConfig.minPrice, Settings.DefaultConfig.maxPrice, "1.234,56 EUR");
    ExampleMlc(Settings.DefaultConfig.minPrice, Settings.DefaultConfig.maxPrice, "100 MLC");
    ExampleCommaDecimal(Settings.DefaultConfig.minPrice, Settings.DefaultConfig.maxPrice, "50,5 USD");
    ExampleNoPrice(Settings.DefaultConfig.minPrice, Settings.DefaultConfig.maxPrice, "NO PRICE");
  }
}
