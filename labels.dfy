/** Label tokens and `try_parse` (fuzzi_logic.py, lines 4-18), with the numeric recognisers
    that `int(...)` and `float(...)` apply to a token. */
module Labels {
  import opened Wrappers
  import opened Strings

  /** What `try_parse` returns: the inner text of a quoted token, or the first of
      `int`, `float`, `bool` that accepts the token. */
  datatype Token = IntTok(i: int) | FloatTok(x: real) | BoolTok(b: bool) | TextTok(s: string)

  /** A dictionary key up to Python equality: `1`, `1.0` and `True` are one key,
      `0`, `0.0` and `False` another; text keys compare as text. */
  datatype Label = Num(n: real) | Str(s: string)

  function LabelOf(t: Token): Label
  {
    match t
    case IntTok(i) => Num(i as real)
    case FloatTok(x) => Num(x)
    case BoolTok(b) => Num(if b then 1.0 else 0.0)
    case TextTok(s) => Str(s)
  }

  predicate IsDigit(c: char) { '0' <= c <= '9' }

  predicate AllDigits(s: string) { forall k :: 0 <= k < |s| ==> IsDigit(s[k]) }

  function DigitValue(c: char): nat
    requires IsDigit(c)
  {
    (c as int) - ('0' as int)
  }

  /** The value of a run of decimal digits. */
  function DigitsValue(ds: string): nat
    requires AllDigits(ds)
  {
    if ds == [] then 0 else 10 * DigitsValue(ds[..|ds| - 1]) + DigitValue(ds[|ds| - 1])
  }

  function Pow10(n: nat): (p: nat)
    ensures p >= 1
  {
    if n == 0 then 1 else 10 * Pow10(n - 1)
  }

  /** The number that the digits `whole`, a decimal point and the digits `frac` spell. */
  function DecimalValue(whole: string, frac: string): (x: real)
    requires AllDigits(whole) && AllDigits(frac)
    ensures x >= 0.0
  {
    DigitsValue(whole) as real + DigitsValue(frac) as real / Pow10(|frac|) as real
  }

  /** An optional leading sign: whether it is `-`, and what follows it. */
  function Unsigned(s: string): (bool, string)
  {
    if s != [] && (s[0] == '+' || s[0] == '-') then (s[0] == '-', s[1..]) else (false, s)
  }


  /** `float(text)` for a string: surrounding white space, an optional sign, and digits with
      at most one decimal point and at least one digit; the value is the exact decimal. */
  function ParseFloat(text: string): (r: Option<real>)
    ensures r.Some? ==> Strip(text) != [] && Occurrences(Strip(text), '.') <= 1
    ensures r.Some? && r.value < 0.0 ==> Strip(text)[0] == '-'
  {
    var (negative, body) := Unsigned(Strip(text));
    var parts := Split(body, '.');
    if |parts| > 2 then None
    else
      var whole := parts[0];
      var frac := if |parts| == 2 then parts[1] else [];
      if AllDigits(whole) && AllDigits(frac) && |whole| + |frac| >= 1 then
        var magnitude := DecimalValue(whole, frac);
        Some(if negative then -magnitude else magnitude)
      else None
  }

  /** `int(text)` for a string: surrounding white space, an optional sign, ASCII digits. */
  function ParseInt(text: string): (r: Option<int>)
    ensures r.Some? ==> Strip(text) != [] && '.' !in Strip(text)
    ensures r.Some? && r.value < 0 ==> Strip(text)[0] == '-'
  {
    var (negative, body) := Unsigned(Strip(text));
    if body != [] && AllDigits(body) then
      Some(if negative then -(DigitsValue(body) as int) else DigitsValue(body))
    else None
  }

  /** Every token `int` accepts, `float` accepts too, with the same value: so trying `int`
      before `float` never changes the dictionary key a numeric token becomes. */
  lemma IntTokenIsFloatToken(text: string)
    requires ParseInt(text).Some?
    ensures ParseFloat(text) == Some(ParseInt(text).value as real)
  {
    var (negative, body) := Unsigned(Strip(text));
    assert '.' !in body;
    SplitNoSeparator(body, '.');
  }

  /** `float(w + "." + f)` for digit runs `w` and `f`, not both empty: the decimal they spell. */
  lemma ParseFloatDecimal(w: string, f: string)
    requires AllDigits(w) && AllDigits(f) && |w| + |f| >= 1
    ensures ParseFloat(w + "." + f) == Some(DecimalValue(w, f))
  {
    var t := w + "." + f;
    assert t[0] == (if w == [] then '.' else w[0]);
    assert t[|t| - 1] == (if f == [] then '.' else f[|f| - 1]);
    StripUnpadded(t);
    assert Unsigned(Strip(t)) == (false, t);
    assert '.' !in w && '.' !in f;
    assert Join([w, f], '.') == t;
    SplitJoin([w, f], '.');
    ParseFloatOfParts(t, w, f);
  }

  /** An unsigned, unpadded token that splits at its point into digit runs `w` and `f`. */
  lemma ParseFloatOfParts(text: string, w: string, f: string)
    requires Unsigned(Strip(text)) == (false, text)
    requires Split(text, '.') == [w, f]
    requires AllDigits(w) && AllDigits(f) && |w| + |f| >= 1
    ensures ParseFloat(text) == Some(DecimalValue(w, f))
  {
  }

  /** Decimal digits of a natural number, most significant first (Python's `str(n)`). */
  function NatText(n: nat): (s: string)
    ensures s != [] && AllDigits(s)
    ensures DigitsValue(s) == n
  {
    if n < 10 then [('0' as int + n) as char]
    else
      var s := NatText(n / 10) + [('0' as int + n % 10) as char];
      assert s[..|s| - 1] == NatText(n / 10);
      s
  }

  /** Python's `str(i)` for an integer. */
  function IntText(i: int): string
  {
    if i < 0 then "-" + NatText(-i) else NatText(i)
  }

  /** `int(str(i)) == i`: the decimal rendering of an integer label parses back to it. */
  lemma ParseIntText(i: int)
    ensures ParseInt(IntText(i)) == Some(i)
  {
    var s := IntText(i);
    StripUnpadded(s);
    if i < 0 {
      assert Unsigned(s) == (true, NatText(-i));
    } else {
      assert Unsigned(s) == (false, NatText(i));
    }
  }

  /** The decimal rendering of a natural number is the label and the degree of that number. */
  lemma NatToken(n: nat)
    ensures ParseFloat(NatText(n)) == Some(n as real)
    ensures LabelOf(TryParse(NatText(n))) == Num(n as real)
  {
    ParseIntText(n);
    IntTokenIsFloatToken(NatText(n));
    assert IsDigit(NatText(n)[0]);
  }

  /** The token is wrapped in matching double or single quotes (lines 5-7, for a string). */
  predicate Quoted(text: string)
  {
    (|text| >= 1 && text[0] == '"' && text[|text| - 1] == '"')
    || (|text| >= 1 && text[0] == '\'' && text[|text| - 1] == '\'')
  }

  /** `text[1:-1]`, which is empty for a one-character token. */
  function Unquoted(text: string): string
  {
    if |text| >= 2 then text[1..|text| - 1] else []
  }

  /** `try_parse(text)` for a string token. A quoted token yields its inner text; otherwise
      the first of int, float, bool that accepts the token. Since `bool(text)` accepts every
      string, the raw-text fallback of line 18 is never reached: an unquoted token that is
      not a number is `True`, or `False` when it is empty. */
  function TryParse(text: string): (t: Token)
    ensures t.TextTok? <==> Quoted(text)
    ensures t.TextTok? ==> t.s == Unquoted(text)
    ensures !Quoted(text) && ParseFloat(text).Some? ==> LabelOf(t) == Num(ParseFloat(text).value)
    ensures !Quoted(text) && ParseFloat(text).None? ==> t == BoolTok(text != [])
  {
    if Quoted(text) then TextTok(Unquoted(text))
    else match ParseInt(text)
      case Some(i) =>
        IntTokenIsFloatToken(text);
        IntTok(i)
      case None =>
        match ParseFloat(text)
        case Some(x) => FloatTok(x)
        case None => BoolTok(text != [])
  }

  /** An unquoted word is not kept as text: `try_parse("a")` is `True`, the key 1 (and so is
      `try_parse("False")`, below). So "a/0.1; b/0.2" names a single element, which holds 0.2. */
  lemma UnquotedWordIsTrue()
    ensures TryParse("a") == BoolTok(true)
    ensures LabelOf(TryParse("a")) == LabelOf(TryParse("b")) == Num(1.0)
  {
    WordIsNotNumber("a");
    WordIsNotNumber("b");
  }

  lemma FalseWordIsTrue()
    ensures TryParse("False") == BoolTok(true)
  {
    WordIsNotNumber("False");
  }

  /** The quote test looks at the label token as it stands, untrimmed: in "'a' /0.1" the
      token "'a' " ends in a space, so it is not text but `True`. */
  lemma PaddedQuoteIsTrue()
    ensures TryParse("'a' ") == BoolTok(true)
  {
    var t := "'a' ";
    assert !Quoted(t);
    var body := Strip(t);
    assert body[0] == '\'';
    assert Unsigned(body) == (false, body);
    var parts := Split(body, '.');
    assert !AllDigits(parts[0]) || |parts| > 1 by {
      if |parts| == 1 {
        SplitJoin(parts, '.');
      }
    }
  }

  /** A word that starts with neither a digit, a sign, a point nor a quote, and has no
      point or padding, is neither quoted nor a number. */
  lemma WordIsNotNumber(w: string)
    requires w != [] && !IsSpace(w[0]) && !IsSpace(w[|w| - 1])
    requires !IsDigit(w[0]) && w[0] !in "+-\"'" && '.' !in w
    ensures !Quoted(w) && ParseFloat(w).None?
  {
    StripUnpadded(w);
    assert Unsigned(w) == (false, w);
    SplitNoSeparator(w, '.');
  }

  /** What `try_parse` evidently means to do, as its unreachable `return text` and the `bool`
      attempt suggest: quoted text, else an `int`, else a `float`, else the literals `True`
      and `False`, else the raw token. */
  function TryParseIntended(text: string): (t: Token)
    ensures t.TextTok? <==> Quoted(text) || (ParseFloat(text).None? && text != "True" && text != "False")
    ensures Quoted(text) ==> t == TextTok(Unquoted(text))
    ensures !Quoted(text) && ParseFloat(text).Some? ==> LabelOf(t) == Num(ParseFloat(text).value)
    ensures !Quoted(text) && ParseFloat(text).None? ==>
      t == (if text == "True" then BoolTok(true) else if text == "False" then BoolTok(false) else TextTok(text))
  {
    if Quoted(text) then TextTok(Unquoted(text))
    else match ParseInt(text)
      case Some(i) =>
        IntTokenIsFloatToken(text);
        IntTok(i)
      case None =>
        match ParseFloat(text)
        case Some(x) => FloatTok(x)
        case None =>
          if text == "True" then BoolTok(true)
          else if text == "False" then BoolTok(false)
          else TextTok(text)
  }

  /** With the intended coercion, distinct unquoted words are distinct keys, and `False` is
      the key 0. */
  lemma IntendedKeepsWords(v: string, w: string)
    requires WordLike(v) && WordLike(w) && v != w
    requires v != "True" && v != "False" && w != "True" && w != "False"
    ensures LabelOf(TryParseIntended(v)) == Str(v) && LabelOf(TryParseIntended(w)) == Str(w)
    ensures LabelOf(TryParseIntended(v)) != LabelOf(TryParseIntended(w))
    ensures LabelOf(TryParseIntended("False")) == Num(0.0)
  {
    WordIsNotNumber(v);
    WordIsNotNumber(w);
    WordIsNotNumber("False");
  }

  predicate WordLike(w: string)
  {
    w != [] && !IsSpace(w[0]) && !IsSpace(w[|w| - 1]) && !IsDigit(w[0]) && w[0] !in "+-\"'" && '.' !in w
  }
}
