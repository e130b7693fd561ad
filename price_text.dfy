/**
 * The clean-up that turns the text of a scraped price element into the string
 * handed to `parseFloat` (api.js:28-30, repeated for the euro at api.js:35-37):
 *
 *   text.trim()  ->  .replace(",", ".")  ->  .replace(/[^0-9.]/g, '')
 *
 * Each step is one function here, and `Clean` is their composition.
 */
module PriceText {

  /** A character the regular expression class `[0-9]` matches. */
  predicate IsDigit(c: char) {
    '0' <= c <= '9'
  }

  /** A character the regular expression class `[0-9.]` matches, i.e. one the strip keeps. */
  predicate IsNumericChar(c: char) {
    IsDigit(c) || c == '.'
  }

  predicate AllDigits(s: string) {
    forall i :: 0 <= i < |s| ==> IsDigit(s[i])
  }

  predicate AllNumeric(s: string) {
    forall i :: 0 <= i < |s| ==> IsNumericChar(s[i])
  }

  /**
   * The characters `String.prototype.trim` removes: ECMAScript WhiteSpace
   * (tab, vertical tab, form feed, space, no-break space, byte order mark and
   * the other "space separator" characters) and LineTerminator (line feed,
   * carriage return, line and paragraph separators).
   */
  predicate IsWhitespace(c: char) {
    || c == '\t' || c == '\n' || c == '\U{B}' || c == '\U{C}' || c == '\r' || c == ' '
    || c == '\U{A0}' || c == '\U{1680}' || '\U{2000}' <= c <= '\U{200A}'
    || c == '\U{2028}' || c == '\U{2029}' || c == '\U{202F}' || c == '\U{205F}'
    || c == '\U{3000}' || c == '\U{FEFF}'
  }

  predicate AllWhitespace(s: string) {
    forall i :: 0 <= i < |s| ==> IsWhitespace(s[i])
  }

  /** Whitespace is neither the comma the second step looks for nor a character the strip keeps. */
  lemma WhitespaceIsNotNumeric(c: char)
    requires IsWhitespace(c)
    ensures c != ',' && !IsNumericChar(c)
  {
  }

  // ---------------------------------------------------------------- trim

  /** Drops the leading whitespace: the result is the suffix of `s` after it. */
  function TrimStart(s: string): (r: string)
    ensures |r| <= |s| && r == s[|s| - |r|..]
    ensures forall i :: 0 <= i < |s| - |r| ==> IsWhitespace(s[i])
    ensures r == [] || !IsWhitespace(r[0])
  {
    if s != [] && IsWhitespace(s[0]) then TrimStart(s[1..]) else s
  }

  /** Drops the trailing whitespace: the result is the prefix of `s` before it. */
  function TrimEnd(s: string): (r: string)
    ensures |r| <= |s| && r == s[..|r|]
    ensures forall i :: |r| <= i < |s| ==> IsWhitespace(s[i])
    ensures r == [] || !IsWhitespace(r[|r| - 1])
  {
    if s != [] && IsWhitespace(s[|s| - 1]) then TrimEnd(s[..|s| - 1]) else s
  }

  /** `String.prototype.trim`: leading and trailing whitespace removed. */
  function Trim(s: string): (r: string)
    ensures |r| <= |s|
    ensures r == [] || (!IsWhitespace(r[0]) && !IsWhitespace(r[|r| - 1]))
  {
    TrimEnd(TrimStart(s))
  }

  /** What `TrimStart` cuts off is a stretch of whitespace. */
  lemma TrimStartSplit(s: string) returns (pre: string)
    ensures s == pre + TrimStart(s) && AllWhitespace(pre)
  {
    pre := s[..|s| - |TrimStart(s)|];
  }

  /** What `TrimEnd` cuts off is a stretch of whitespace. */
  lemma TrimEndSplit(s: string) returns (post: string)
    ensures s == TrimEnd(s) + post && AllWhitespace(post)
  {
    var r := TrimEnd(s);
    post := s[|r|..];
    forall i | 0 <= i < |post| ensures IsWhitespace(post[i]) {
      assert post[i] == s[|r| + i];
    }
  }

  /**
   * What `Trim` cuts off is whitespace and nothing else: the text is some
   * whitespace, the trimmed text, then some whitespace.
   */
  lemma TrimSplit(s: string) returns (pre: string, post: string)
    ensures s == pre + Trim(s) + post
    ensures AllWhitespace(pre) && AllWhitespace(post)
  {
    pre := TrimStartSplit(s);
    post := TrimEndSplit(TrimStart(s));
  }

  /** Whitespace holds no comma. */
  lemma NoCommaInWhitespace(s: string)
    requires AllWhitespace(s)
    ensures ',' !in s
  {
    forall i | 0 <= i < |s| ensures s[i] != ',' {
      WhitespaceIsNotNumeric(s[i]);
    }
  }

  // ---------------------------------------------------------------- replace

  /** The first occurrence of `c` in `s` is at index `i`. */
  predicate IsFirstIndex(s: string, c: char, i: int) {
    0 <= i < |s| && s[i] == c && c !in s[..i]
  }

  /**
   * `s.replace(pat, rep)` with a one-character string pattern: only the FIRST
   * occurrence of `pat` is replaced; with no occurrence the text is unchanged.
   */
  function ReplaceFirst(s: string, pat: char, rep: char): (r: string)
    ensures |r| == |s|
    ensures pat !in s ==> r == s
  {
    if s == [] then []
    else if s[0] == pat then [rep] + s[1..]
    else [s[0]] + ReplaceFirst(s[1..], pat, rep)
  }

  /** Every character is kept, except that an occurrence of the pattern may become the replacement. */
  lemma {:induction false} ReplaceFirstChanges(s: string, pat: char, rep: char)
    ensures forall i :: 0 <= i < |s| ==>
      ReplaceFirst(s, pat, rep)[i] == s[i] || (s[i] == pat && ReplaceFirst(s, pat, rep)[i] == rep)
  {
    if s != [] && s[0] != pat {
      ReplaceFirstChanges(s[1..], pat, rep);
    }
  }

  /** The character replaced is the first occurrence of the pattern, and only that one. */
  lemma {:induction false} ReplaceFirstAt(s: string, pat: char, rep: char, i: int)
    requires IsFirstIndex(s, pat, i)
    ensures ReplaceFirst(s, pat, rep) == s[..i] + [rep] + s[i + 1..]
  {
    if i > 0 {
      assert s[..i] == [s[0]] + s[1..][..i - 1];
      assert IsFirstIndex(s[1..], pat, i - 1);
      ReplaceFirstAt(s[1..], pat, rep, i - 1);
    }
  }

  /** Replacing behind a stretch free of the pattern leaves that stretch alone. */
  lemma {:induction false} ReplaceFirstSkipsPrefix(a: string, b: string, pat: char, rep: char)
    requires pat !in a
    ensures ReplaceFirst(a + b, pat, rep) == a + ReplaceFirst(b, pat, rep)
  {
    if a == [] {
      assert a + b == b;
    } else {
      assert a[0] != pat && pat !in a[1..] by { assert a == [a[0]] + a[1..]; }
      var ab := a + b;
      assert ab[0] == a[0] && ab[1..] == a[1..] + b;
      ReplaceFirstSkipsPrefix(a[1..], b, pat, rep);
      calc {
        ReplaceFirst(ab, pat, rep);
        [a[0]] + ReplaceFirst(a[1..] + b, pat, rep);
        [a[0]] + (a[1..] + ReplaceFirst(b, pat, rep));
        { assert a == [a[0]] + a[1..]; }
        a + ReplaceFirst(b, pat, rep);
      }
    }
  }

  /** A tail free of the pattern is never touched. */
  lemma {:induction false} ReplaceFirstKeepsSuffix(a: string, b: string, pat: char, rep: char)
    requires pat !in b
    ensures ReplaceFirst(a + b, pat, rep) == ReplaceFirst(a, pat, rep) + b
  {
    if a == [] {
      assert a + b == b;
    } else {
      assert (a + b)[1..] == a[1..] + b;
      if a[0] != pat {
        ReplaceFirstKeepsSuffix(a[1..], b, pat, rep);
      }
    }
  }

  // ---------------------------------------------------------------- strip

  /**
   * `s.replace(/[^0-9.]/g, '')`: every character outside `[0-9.]` is deleted,
   * so what is left holds only digits and dots.
   */
  function KeepNumeric(s: string): (r: string)
    ensures AllNumeric(r)
    ensures |r| <= |s|
  {
    if s == [] then []
    else (if IsNumericChar(s[0]) then [s[0]] else []) + KeepNumeric(s[1..])
  }

  /** No digit or dot is lost: each occurs as often as in the input, and nothing else occurs. */
  lemma {:induction false} KeepNumericCounts(s: string, c: char)
    ensures multiset(KeepNumeric(s))[c] == if IsNumericChar(c) then multiset(s)[c] else 0
  {
    if s != [] {
      assert s == [s[0]] + s[1..];
      KeepNumericCounts(s[1..], c);
    }
  }

  /** The strip works character by character and keeps the order: it distributes over `+`. */
  lemma {:induction false} KeepNumericConcat(a: string, b: string)
    ensures KeepNumeric(a + b) == KeepNumeric(a) + KeepNumeric(b)
  {
    if a == [] {
      assert a + b == b;
    } else {
      assert (a + b)[1..] == a[1..] + b;
      KeepNumericConcat(a[1..], b);
    }
  }

  /** A single character survives exactly when it is a digit or a dot. */
  lemma KeepNumericChar(c: char)
    ensures KeepNumeric([c]) == if IsNumericChar(c) then [c] else []
  {
    assert [c][1..] == [];
  }

  /** The strip leaves a text unchanged exactly when the text is made of digits and dots only. */
  lemma {:induction false} KeepNumericFixed(s: string)
    ensures KeepNumeric(s) == s <==> AllNumeric(s)
  {
    if s != [] && AllNumeric(s) {
      KeepNumericFixed(s[1..]);
    }
  }

  /** Stripping twice is stripping once. */
  lemma KeepNumericIdempotent(s: string)
    ensures KeepNumeric(KeepNumeric(s)) == KeepNumeric(s)
  {
    KeepNumericFixed(KeepNumeric(s));
  }

  /** Text without a digit or a dot is stripped away completely. */
  lemma {:induction false} KeepNumericDropsAll(s: string)
    requires forall i :: 0 <= i < |s| ==> !IsNumericChar(s[i])
    ensures KeepNumeric(s) == []
  {
    if s != [] {
      KeepNumericDropsAll(s[1..]);
    }
  }

  /** Text of whitespace only is stripped away completely. */
  lemma KeepNumericDropsWhitespace(s: string)
    requires AllWhitespace(s)
    ensures KeepNumeric(s) == []
  {
    forall i | 0 <= i < |s| ensures !IsNumericChar(s[i]) {
      WhitespaceIsNotNumeric(s[i]);
    }
    KeepNumericDropsAll(s);
  }

  // ---------------------------------------------------------------- the chain

  /** The whole clean-up of api.js:28-30: trim, first comma to a dot, strip `[^0-9.]`. */
  function Clean(text: string): (r: string)
    ensures AllNumeric(r)
  {
    KeepNumeric(ReplaceFirst(Trim(text), ',', '.'))
  }

  /** Comma-free padding around a text is left alone by the comma replacement. */
  lemma ReplaceFirstPadded(pre: string, t: string, post: string, pat: char, rep: char)
    requires pat !in pre && pat !in post
    ensures ReplaceFirst(pre + t + post, pat, rep) == pre + ReplaceFirst(t, pat, rep) + post
  {
    assert pre + t + post == pre + (t + post);
    ReplaceFirstSkipsPrefix(pre, t + post, pat, rep);
    ReplaceFirstKeepsSuffix(t, post, pat, rep);
  }

  /** Whitespace padding around a text is removed by the strip. */
  lemma KeepNumericPadded(pre: string, u: string, post: string)
    requires AllWhitespace(pre) && AllWhitespace(post)
    ensures KeepNumeric(pre + u + post) == KeepNumeric(u)
  {
    KeepNumericConcat(pre + u, post);
    KeepNumericConcat(pre, u);
    KeepNumericDropsWhitespace(pre);
    KeepNumericDropsWhitespace(post);
  }

  /** The trim is redundant: whitespace is neither a comma nor kept by the strip. */
  lemma CleanIgnoresTrim(text: string)
    ensures Clean(text) == KeepNumeric(ReplaceFirst(text, ',', '.'))
  {
    var pre, post := TrimSplit(text);
    NoCommaInWhitespace(pre);
    NoCommaInWhitespace(post);
    ReplaceFirstPadded(pre, Trim(text), post, ',', '.');
    KeepNumericPadded(pre, ReplaceFirst(Trim(text), ',', '.'), post);
  }

  /**
   * Only the first comma turns into a dot: with `pre` free of commas, the result
   * is the digits and dots of `pre`, one dot, then the digits and dots of
   * `post`, where any later comma is simply deleted.
   */
  lemma CleanAtFirstComma(pre: string, post: string)
    requires ',' !in pre
    ensures Clean(pre + [','] + post) == KeepNumeric(pre) + ['.'] + KeepNumeric(post)
  {
    var text := pre + [','] + post;
    var replaced := pre + ['.'] + post;
    assert ReplaceFirst(text, ',', '.') == replaced by {
      assert text == pre + ([','] + post);
      ReplaceFirstSkipsPrefix(pre, [','] + post, ',', '.');
      assert ([','] + post)[1..] == post;
      assert pre + (['.'] + post) == replaced;
    }
    assert KeepNumeric(replaced) == KeepNumeric(pre) + ['.'] + KeepNumeric(post) by {
      KeepNumericConcat(pre + ['.'], post);
      KeepNumericConcat(pre, ['.']);
      KeepNumericChar('.');
    }
    CleanIgnoresTrim(text);
  }

  /** Without a comma, cleaning is just the strip. */
  lemma CleanWithoutComma(text: string)
    requires ',' !in text
    ensures Clean(text) == KeepNumeric(text)
  {
    CleanIgnoresTrim(text);
  }

  /** A text of digits and dots only is already clean. */
  lemma CleanFixesNumeric(text: string)
    requires AllNumeric(text)
    ensures Clean(text) == text
  {
    CleanIgnoresTrim(text);
    assert ',' !in text by {
      assert forall i :: 0 <= i < |text| ==> text[i] != ',';
    }
    KeepNumericFixed(text);
  }

  /** Cleaning an already cleaned text returns it unchanged. */
  lemma CleanIdempotent(text: string)
    ensures Clean(Clean(text)) == Clean(text)
  {
    CleanFixesNumeric(Clean(text));
  }

  /**
   * The digits and dots of the comma-replaced text all survive, in their order,
   * and nothing else does: cleaning `a + b` cleans each half separately when
   * `a` holds no comma.
   */
  lemma CleanConcat(a: string, b: string)
    requires ',' !in a
    ensures Clean(a + b) == KeepNumeric(a) + Clean(b)
  {
    CleanIgnoresTrim(a + b);
    CleanIgnoresTrim(b);
    ReplaceFirstSkipsPrefix(a, b, ',', '.');
    KeepNumericConcat(a, ReplaceFirst(b, ',', '.'));
  }

  /** A decimal comma becomes a decimal point: "36,50" cleans to "36.50". */
  lemma CleanDecimalComma(whole: string, frac: string)
    requires AllDigits(whole) && AllDigits(frac)
    ensures Clean(whole + [','] + frac) == whole + ['.'] + frac
  {
    CleanAtFirstComma(whole, frac);
    KeepNumericFixed(whole);
    KeepNumericFixed(frac);
  }

  /** A comma is deleted by the strip; the text on both sides of it is kept. */
  lemma KeepNumericDropsComma(b: string, c: string)
    ensures KeepNumeric(b + [','] + c) == KeepNumeric(b) + KeepNumeric(c)
  {
    KeepNumericConcat(b + [','], c);
    KeepNumericConcat(b, [',']);
    KeepNumericChar(',');
    assert KeepNumeric(b) + [] == KeepNumeric(b);
  }

  /**
   * Of two commas only the first becomes a point and the second is deleted:
   * "1,234,56" cleans to "1.23456".
   */
  lemma CleanTwoCommas(a: string, b: string, c: string)
    requires AllDigits(a) && AllDigits(b) && AllDigits(c)
    ensures Clean(a + [','] + b + [','] + c) == a + ['.'] + b + c
  {
    var tail := b + [','] + c;
    assert ',' !in a by {
      assert forall i :: 0 <= i < |a| ==> a[i] != ',';
    }
    AppendAssoc(a + [','], b + [','], c);
    AppendAssoc(a + [','], b, [',']);
    CleanAtFirstComma(a, tail);
    KeepNumericDropsComma(b, c);
    KeepNumericFixed(a);
    KeepNumericFixed(b);
    KeepNumericFixed(c);
    AppendAssoc(a + ['.'], b, c);
  }

  /** Concatenation regroups freely. */
  lemma AppendAssoc(x: string, y: string, z: string)
    ensures x + (y + z) == x + y + z
  {
  }

  /** Whitespace around a text does not change what it cleans to. */
  lemma CleanPadded(pre: string, text: string, post: string)
    requires AllWhitespace(pre) && AllWhitespace(post)
    ensures Clean(pre + text + post) == Clean(text)
  {
    NoCommaInWhitespace(pre);
    NoCommaInWhitespace(post);
    CleanIgnoresTrim(pre + text + post);
    CleanIgnoresTrim(text);
    ReplaceFirstPadded(pre, text, post, ',', '.');
    KeepNumericPadded(pre, ReplaceFirst(text, ',', '.'), post);
  }

  /** The strip keeps the dot of the currency label "Bs. ". */
  lemma KeepNumericOfLabel()
    ensures ',' !in "Bs. "
    ensures KeepNumeric("Bs. ") == ['.']
  {
    assert forall i :: 0 <= i < |"Bs. "| ==> "Bs. "[i] != ',';
    assert "Bs. " == "Bs" + (['.'] + " ");
    KeepNumericConcat("Bs", ['.'] + " ");
    KeepNumericConcat(['.'], " ");
    KeepNumericDropsAll("Bs");
    KeepNumericDropsAll(" ");
    KeepNumericChar('.');
  }

  /**
   * Whatever precedes the first comma is stripped in place: the digits and
   * dots of a label in front of the number stay in front of it.
   */
  lemma CleanAfterLabel(tag: string, whole: string, frac: string)
    requires ',' !in tag && AllDigits(whole) && AllDigits(frac)
    ensures Clean(tag + whole + [','] + frac) == KeepNumeric(tag) + whole + ['.'] + frac
  {
    assert ',' !in tag + whole by {
      assert forall i :: 0 <= i < |whole| ==> whole[i] != ',';
    }
    CleanAtFirstComma(tag + whole, frac);
    KeepNumericConcat(tag, whole);
    KeepNumericFixed(whole);
    KeepNumericFixed(frac);
  }

  /**
   * The dot of a currency label survives the strip: "Bs. 36,75 " cleans to
   * ".36.75", not to "36.75".
   */
  lemma CleanCurrencyLabel(whole: string, frac: string)
    requires AllDigits(whole) && AllDigits(frac)
    ensures Clean("Bs. " + whole + [','] + frac + " ") == ['.'] + whole + ['.'] + frac
  {
    var tag := "Bs. ";
    KeepNumericOfLabel();
    CleanAfterLabel(tag, whole, frac);
    CleanTrailingSpace(tag + whole + [','] + frac);
  }

  /** A trailing space does not change what a text cleans to. */
  lemma CleanTrailingSpace(text: string)
    ensures Clean(text + " ") == Clean(text)
  {
    assert text + " " == [] + text + " ";
    CleanPadded([], text, " ");
  }

  /** Cleaning adds no digit: a text without digits cleans to a text without digits. */
  lemma CleanAddsNoDigit(text: string)
    requires forall i :: 0 <= i < |text| ==> !IsDigit(text[i])
    ensures forall i :: 0 <= i < |Clean(text)| ==> !IsDigit(Clean(text)[i])
  {
    CleanIgnoresTrim(text);
    var replaced := ReplaceFirst(text, ',', '.');
    ReplaceFirstChanges(text, ',', '.');
    assert forall i :: 0 <= i < |replaced| ==> !IsDigit(replaced[i]);
    var r := KeepNumeric(replaced);
    forall i | 0 <= i < |r| ensures !IsDigit(r[i]) {
      var c := r[i];
      KeepNumericCounts(replaced, c);
      assert c in multiset(r);
      assert IsDigit(c) ==> c !in replaced;
    }
  }
}
