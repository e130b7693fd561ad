/**
 * Which part of a cleaned price text `parseFloat` reads (api.js:30, api.js:37).
 *
 * `parseFloat` reads the longest prefix of its argument that is a decimal
 * literal and ignores the rest; when no prefix is a literal the result is NaN.
 * A cleaned text holds only digits and dots, so signs, exponents, "Infinity"
 * and leading whitespace cannot occur, and the literals left are
 *
 *   digits | digits '.' digits? | '.' digits
 *
 * The conversion of that prefix to a binary double is not modelled.
 */
module FloatPrefix {
  import opened PriceText

  /** The number of digits `s` starts with. */
  function LeadingDigits(s: string): (n: nat)
    ensures n <= |s|
    ensures forall i :: 0 <= i < n ==> IsDigit(s[i])
    ensures n < |s| ==> !IsDigit(s[n])
  {
    if s != [] && IsDigit(s[0]) then 1 + LeadingDigits(s[1..]) else 0
  }

  /** A run of at least `k` digits at the start makes `LeadingDigits` at least `k`. */
  lemma LeadingDigitsAtLeast(s: string, k: nat)
    requires k <= |s| && forall i :: 0 <= i < k ==> IsDigit(s[i])
    ensures LeadingDigits(s) >= k
  {
  }

  /**
   * The decimal literals `parseFloat` accepts from a text of digits and dots:
   * digits, optionally followed by a dot and more (possibly no) digits, or a
   * dot followed by at least one digit.
   */
  predicate IsDecimalLiteral(p: string) {
    || (p != [] && AllDigits(p))
    || exists k :: 0 <= k < |p| && p[k] == '.' && AllDigits(p[..k]) && AllDigits(p[k + 1..]) && 2 <= |p|
  }

  /** The prefix of a text of digits and dots that `parseFloat` consumes; empty when it reads nothing. */
  function ConsumedPrefix(s: string): (p: string)
    requires AllNumeric(s)
    ensures |p| <= |s| && p == s[..|p|]
  {
    var n := LeadingDigits(s);
    if n > 0 then
      if n < |s| && s[n] == '.' then s[..n + 1 + LeadingDigits(s[n + 1..])] else s[..n]
    else if 1 < |s| && s[0] == '.' && IsDigit(s[1]) then s[..1 + LeadingDigits(s[1..])]
    else []
  }

  /**
   * `parseFloat` gives NaN: the prefix it consumes holds no digit. Every
   * non-empty literal holds one, so this is exactly when nothing is consumed.
   */
  predicate ParsesToNaN(s: string): (nan: bool)
    requires AllNumeric(s)
    ensures nan <==> ConsumedPrefix(s) == []
  {
    var p := ConsumedPrefix(s);
    assert p != [] ==> IsDigit(p[0]) || IsDigit(p[1]);
    forall i :: 0 <= i < |p| ==> !IsDigit(p[i])
  }

  /** What is consumed is a decimal literal, unless nothing is. */
  lemma ConsumedPrefixIsLiteral(s: string)
    requires AllNumeric(s)
    ensures ConsumedPrefix(s) == [] || IsDecimalLiteral(ConsumedPrefix(s))
  {
    var p := ConsumedPrefix(s);
    var n := LeadingDigits(s);
    if n > 0 {
      if n < |s| && s[n] == '.' {
        var m := LeadingDigits(s[n + 1..]);
        assert p[n] == '.' && p[..n] == s[..n];
        var frac := p[n + 1..];
        assert AllDigits(frac) by {
          forall i | 0 <= i < |frac| ensures IsDigit(frac[i]) {
            assert frac[i] == s[n + 1..][i];
          }
        }
      } else {
        assert AllDigits(p);
      }
    } else if 1 < |s| && s[0] == '.' && IsDigit(s[1]) {
      assert p[0] == '.' && p[..0] == [];
      var frac := p[1..];
      assert AllDigits(frac) by {
        forall i | 0 <= i < |frac| ensures IsDigit(frac[i]) {
          assert frac[i] == s[1..][i];
        }
      }
    }
  }

  /** A digits-only prefix of the text is never longer than what is consumed. */
  lemma DigitsWithinConsumed(s: string, k: nat)
    requires AllNumeric(s) && 0 < k <= |s| && AllDigits(s[..k])
    ensures k <= |ConsumedPrefix(s)|
  {
    assert forall i :: 0 <= i < k ==> s[..k][i] == s[i];
    LeadingDigitsAtLeast(s, k);
  }

  /**
   * A prefix made of digits, a dot and digits, other than a lone dot, is never
   * longer than what is consumed.
   */
  lemma DottedWithinConsumed(s: string, k: nat, j: nat)
    requires AllNumeric(s) && j < k <= |s| && 2 <= k
    requires s[j] == '.' && AllDigits(s[..k][..j]) && AllDigits(s[..k][j + 1..])
    ensures k <= |ConsumedPrefix(s)|
  {
    var q := s[..k];
    var n := LeadingDigits(s);
    assert forall i :: 0 <= i < j ==> q[..j][i] == s[i];
    LeadingDigitsAtLeast(s, j);
    assert n == j;
    var rest := s[j + 1..];
    assert forall i :: 0 <= i < k - j - 1 ==> q[j + 1..][i] == rest[i];
    if j > 0 {
      LeadingDigitsAtLeast(rest, k - j - 1);
    } else {
      assert IsDigit(s[1]) by { assert q[1..][0] == s[1]; }
      LeadingDigitsAtLeast(rest, k - 1);
    }
  }

  /** No longer prefix of the text is a decimal literal: `parseFloat` reads as far as it can. */
  lemma ConsumedPrefixIsLongest(s: string, k: nat)
    requires AllNumeric(s)
    requires |ConsumedPrefix(s)| < k <= |s|
    ensures !IsDecimalLiteral(s[..k])
  {
    var q := s[..k];
    if q != [] && AllDigits(q) {
      DigitsWithinConsumed(s, k);
      assert false;
    }
    forall j | 0 <= j < |q| && q[j] == '.' && AllDigits(q[..j]) && AllDigits(q[j + 1..]) && 2 <= |q|
      ensures false
    {
      DottedWithinConsumed(s, k, j);
      assert false;
    }
  }

  /** A text that is a decimal literal as a whole is consumed as a whole. */
  lemma ConsumedWhole(s: string)
    requires AllNumeric(s) && IsDecimalLiteral(s)
    ensures ConsumedPrefix(s) == s
  {
    assert s[..|s|] == s;
    if |ConsumedPrefix(s)| < |s| {
      ConsumedPrefixIsLongest(s, |s|);
      assert false;
    }
  }

  /**
   * `parseFloat` yields NaN exactly when it consumes nothing, which is exactly
   * when the text is empty or starts with a dot not followed by a digit.
   */
  lemma NaNExactlyWhenNothingConsumed(s: string)
    requires AllNumeric(s)
    ensures ParsesToNaN(s) <==> ConsumedPrefix(s) == []
    ensures ParsesToNaN(s) <==> (s == [] || (s[0] == '.' && (|s| == 1 || s[1] == '.')))
  {
    var p := ConsumedPrefix(s);
    var n := LeadingDigits(s);
    if n > 0 {
      assert IsDigit(p[0]);
    } else if 1 < |s| && s[0] == '.' && IsDigit(s[1]) {
      assert IsDigit(p[1]);
    }
  }

  /**
   * After a cleaned "Bs. 36,75" only the part up to the second dot is read:
   * ".36.75" is read as ".36".
   */
  lemma ConsumedStopsAtSecondDot(whole: string, frac: string)
    requires whole != [] && AllDigits(whole) && AllDigits(frac)
    ensures AllNumeric(['.'] + whole + ['.'] + frac)
    ensures ConsumedPrefix(['.'] + whole + ['.'] + frac) == ['.'] + whole
  {
    var s := ['.'] + whole + ['.'] + frac;
    assert forall i :: 0 <= i < |whole| ==> s[1..][i] == whole[i];
    LeadingDigitsAtLeast(s[1..], |whole|);
    assert s[1..][|whole|] == '.';
    assert s[..1 + |whole|] == ['.'] + whole;
  }

  /**
   * A price with a decimal comma is read in full: "36,50" cleans to "36.50"
   * and `parseFloat` consumes all of it.
   */
  lemma DecimalCommaReadInFull(whole: string, frac: string)
    requires whole != [] && AllDigits(whole) && AllDigits(frac)
    ensures ConsumedPrefix(Clean(whole + [','] + frac)) == whole + ['.'] + frac
  {
    CleanDecimalComma(whole, frac);
    var s := whole + ['.'] + frac;
    assert s[..|whole|] == whole && s[|whole| + 1..] == frac;
    ConsumedWhole(s);
  }

  /**
   * A price shown as "Bs. 36,75 " is read as ".36": the label's dot survives
   * the clean-up and the real decimal point ends what `parseFloat` reads.
   */
  lemma CurrencyLabelReadAsFraction(whole: string, frac: string)
    requires whole != [] && AllDigits(whole) && AllDigits(frac)
    ensures ConsumedPrefix(Clean("Bs. " + whole + [','] + frac + " ")) == ['.'] + whole
  {
    CleanCurrencyLabel(whole, frac);
    ConsumedStopsAtSecondDot(whole, frac);
  }
}
