/**
 * The `\char` macro: a character code written in decimal, octal (`'`),
 * hexadecimal (`"`) or as a character (`` ` ``), read token by token.
 *
 * JavaScript's `NaN` (a digit lookup that finds nothing, or a code unit
 * past the end of a string) is `None`; it spreads through arithmetic as in
 * the source and prints as `NaN`.
 */
module CharNumerals {
  import opened Results
  import opened ExpansionContext

  const LowerDigits: string := "0123456789abcdef"
  const UpperDigits: string := "0123456789ABCDEF"

  /**
   * `digitToNumber[c]`: the source's table maps `0`–`9` to 0–9 and `a`–`f`
   * and `A`–`F` to 10–15; any other character gives `undefined`, here `None`.
   */
  function DigitToNumber(c: char): (r: Option<nat>)
    ensures r.Some? ==> r.value < 16
  {
    if '0' <= c <= '9' then Some(c as nat - '0' as nat)
    else if 'a' <= c <= 'f' then Some(c as nat - 'a' as nat + 10)
    else if 'A' <= c <= 'F' then Some(c as nat - 'A' as nat + 10)
    else None
  }

  /** The table holds exactly the sixteen digits in both cases, each with its value. */
  lemma DigitTableExact(c: char)
    ensures DigitToNumber(c).Some? <==> c in LowerDigits || c in UpperDigits
    ensures DigitToNumber(c).Some? ==>
              var v := DigitToNumber(c).value; v < 16 && (c == LowerDigits[v] || c == UpperDigits[v])
  {
  }

  /** Every value below 16 is read back from its digit, in either case. */
  lemma DigitRoundTrip(v: nat)
    requires v < 16
    ensures DigitToNumber(LowerDigits[v]) == Some(v)
    ensures DigitToNumber(UpperDigits[v]) == Some(v)
  {
  }

  /** `digitToNumber[numStr.charAt(0)]`: the empty string has no first digit. */
  function FirstDigit(s: string): Option<nat> {
    if s == "" then None else DigitToNumber(s[0])
  }

  /** `number *= base; number += digit`, with `NaN` absorbing. */
  function Shift(number: Option<nat>, base: nat, digit: Option<nat>): Option<nat> {
    if number.Some? && digit.Some? then Some(number.value * base + digit.value) else None
  }

  /** The value of a digit string read left to right in `base`; `None` when a character is not a digit. */
  function HornerValue(base: nat, s: string): Option<nat>
    decreases |s|
  {
    if s == [] then Some(0)
    else Shift(HornerValue(base, s[..|s| - 1]), base, DigitToNumber(s[|s| - 1]))
  }

  /** The accumulation loop, folding the characters of `s` into `number`. */
  function FoldDigits(number: Option<nat>, s: string, base: nat): Option<nat>
    decreases |s|
  {
    if s == [] then number else FoldDigits(Shift(number, base, DigitToNumber(s[0])), s[1..], base)
  }

  /** `appendCharNumbers(number, numStr, base)`: fold every character after the first. */
  function AppendCharNumbers(number: Option<nat>, numStr: string, base: nat): (r: Option<nat>)
    ensures number.None? ==> r.None?
  {
    if |numStr| <= 1 then number
    else
      FoldNaN(number, numStr[1..], base);
      FoldDigits(number, numStr[1..], base)
  }

  /** The fold stays a number exactly when it starts from one and every character is a digit. */
  lemma {:induction false} FoldNaN(number: Option<nat>, s: string, base: nat)
    ensures FoldDigits(number, s, base).Some? <==> number.Some? && forall i :: 0 <= i < |s| ==> DigitToNumber(s[i]).Some?
    decreases |s|
  {
    if s != [] {
      FoldNaN(Shift(number, base, DigitToNumber(s[0])), s[1..], base);
      assert forall i :: 1 <= i < |s| ==> s[i] == s[1..][i - 1];
    }
  }

  /**
   * `appendCharNumbers` gives `NaN` exactly when the number already is `NaN`
   * or some character after the first is not a digit (the table has no entry).
   */
  lemma AppendNaN(number: Option<nat>, numStr: string, base: nat)
    ensures AppendCharNumbers(number, numStr, base).Some? <==>
              number.Some? && forall i :: 1 <= i < |numStr| ==> DigitToNumber(numStr[i]).Some?
  {
    if |numStr| > 1 {
      FoldNaN(number, numStr[1..], base);
      assert forall i :: 1 <= i < |numStr| ==> numStr[i] == numStr[1..][i - 1];
    }
  }

  /** Appending one character to a digit string shifts its value by one place. */
  lemma HornerSnoc(base: nat, s: string, c: char)
    ensures HornerValue(base, s + [c]) == Shift(HornerValue(base, s), base, DigitToNumber(c))
  {
    assert (s + [c])[..|s|] == s;
  }

  /** Folding more characters onto a Horner value is the Horner value of the longer string. */
  lemma {:induction false} FoldIsHorner(base: nat, p: string, s: string)
    ensures FoldDigits(HornerValue(base, p), s, base) == HornerValue(base, p + s)
    decreases |s|
  {
    if s != [] {
      HornerSnoc(base, p, s[0]);
      FoldIsHorner(base, p + [s[0]], s[1..]);
      assert p + [s[0]] + s[1..] == p + s;
    } else {
      assert p + s == p;
    }
  }

  /** One token's characters, appended to a Horner value, as the macro does it. */
  lemma TokenStep(base: nat, p: string, t: string)
    requires t != ""
    ensures AppendCharNumbers(Shift(HornerValue(base, p), base, FirstDigit(t)), t, base) == HornerValue(base, p + t)
  {
    HornerSnoc(base, p, t[0]);
    if |t| > 1 {
      FoldIsHorner(base, p + [t[0]], t[1..]);
      assert p + [t[0]] + t[1..] == p + t;
    } else {
      assert p + [t[0]] == p + t;
    }
  }

  /** The first token of a numeral alone: its value is the Horner value of its text. */
  lemma FirstTokenValue(base: nat, t: string)
    requires t != ""
    ensures AppendCharNumbers(FirstDigit(t), t, base) == HornerValue(base, t)
  {
    assert Shift(HornerValue(base, ""), base, FirstDigit(t)) == FirstDigit(t) by {
      assert HornerValue(base, "") == Some(0);
    }
    assert AppendCharNumbers(FirstDigit(t), t, base) == HornerValue(base, "" + t) by {
      TokenStep(base, "", t);
    }
    assert "" + t == t;
  }

  /** `nextCharNumber`: the first digit of the next token and its text; nothing at `EOF`. */
  function NextCharNumber(ctx: Context): (r: (Option<nat>, string))
    ensures forall base: nat :: RunDigit(Future(ctx), base) <==> r.0.Some? && r.0.value < base
    ensures r.0.Some? ==> r.1 == Future(ctx).text
  {
    var numStr := Future(ctx).text;
    if numStr == "EOF" then (None, "") else (FirstDigit(numStr), numStr)
  }

  /** A token that continues a numeral in `base`: not `EOF`, and its first character a digit below `base`. */
  predicate RunDigit(t: Token, base: nat) {
    t.text != "EOF" && FirstDigit(t.text).Some? && FirstDigit(t.text).value < base
  }

  /** The length of the longest run of numeral-continuing tokens at the front of `input`. */
  function RunLength(input: seq<Token>, base: nat): (k: nat)
    decreases |input|
    ensures k <= |input|
    ensures forall j :: 0 <= j < k ==> RunDigit(input[j], base)
    ensures k < |input| ==> !RunDigit(input[k], base)
  {
    if input != [] && RunDigit(input[0], base) then 1 + RunLength(input[1..], base) else 0
  }

  /** The `while` loop of `\char`: consume digit tokens while their first character is a digit below `base`. */
  function ReadDigits(number: Option<nat>, ctx: Context, base: nat): (r: (Option<nat>, Context))
    decreases |ctx.input|
    ensures r.1.mode == ctx.mode && r.1.macros == ctx.macros
    ensures !RunDigit(Future(r.1), base)
    ensures number.None? ==> r.0.None?
  {
    var (digit, numStr) := NextCharNumber(ctx);
    if digit.Some? && digit.value < base then
      ReadDigits(AppendCharNumbers(Shift(number, base, digit), numStr, base), PopToken(ctx).1, base)
    else
      (number, ctx)
  }

  /**
   * The loop consumes exactly the maximal run of digit tokens, stopping
   * before the first other token without consuming it, and its value is the
   * Horner value of all the characters read.
   */
  lemma {:induction false} ReadDigitsSpec(base: nat, p: string, ctx: Context)
    ensures var k := RunLength(ctx.input, base);
            ReadDigits(HornerValue(base, p), ctx, base)
              == (HornerValue(base, p + StringFromArg(ctx.input[..k])), ctx.(input := ctx.input[k..]))
    decreases |ctx.input|
  {
    if ctx.input != [] && RunDigit(ctx.input[0], base) {
      var t := ctx.input[0];
      var rest := ctx.(input := ctx.input[1..]);
      ReadDigitsStep(base, p, ctx);
      ReadDigitsSpec(base, p + t.text, rest);
      RunSplit(p, ctx.input, RunLength(ctx.input, base));
    } else {
      ReadDigitsStop(base, p, ctx);
      assert ctx.input[..0] == [] && ctx.input[0..] == ctx.input;
      assert p + StringFromArg([]) == p;
    }
  }

  /** Where the loop stops: nothing is consumed and the value is unchanged. */
  lemma ReadDigitsStop(base: nat, p: string, ctx: Context)
    requires !(ctx.input != [] && RunDigit(ctx.input[0], base))
    ensures RunLength(ctx.input, base) == 0
    ensures ReadDigits(HornerValue(base, p), ctx, base) == (HornerValue(base, p), ctx)
  {
  }

  /** The text of a run is its first token's text followed by the rest of the run. */
  lemma RunSplit(p: string, input: seq<Token>, k: nat)
    requires 0 < k <= |input|
    ensures p + input[0].text + StringFromArg(input[1..][..k - 1]) == p + StringFromArg(input[..k])
    ensures input[1..][k - 1..] == input[k..]
  {
    ArgHead(input[..k]);
    assert input[..k][1..] == input[1..][..k - 1];
  }

  /** One iteration of the loop: a digit token is consumed and its characters appended. */
  lemma ReadDigitsStep(base: nat, p: string, ctx: Context)
    requires ctx.input != [] && RunDigit(ctx.input[0], base)
    ensures ReadDigits(HornerValue(base, p), ctx, base)
              == ReadDigits(HornerValue(base, p + ctx.input[0].text), ctx.(input := ctx.input[1..]), base)
    ensures RunLength(ctx.input, base) == 1 + RunLength(ctx.input[1..], base)
  {
    assert NextCharNumber(ctx) == (FirstDigit(ctx.input[0].text), ctx.input[0].text);
    TokenStep(base, p, ctx.input[0].text);
  }

  /** Joining a non-empty argument starts with its first token's text. */
  lemma ArgHead(a: seq<Token>)
    requires a != []
    ensures StringFromArg(a) == a[0].text + StringFromArg(a[1..])
  {
    StringFromArgAppend([a[0]], a[1..]);
    assert [a[0]] + a[1..] == a;
    assert StringFromArg([a[0]]) == StringFromArg([]) + a[0].text;
  }

  /** A decimal digit character. */
  function DecimalChar(d: nat): char
    requires d < 10
  {
    LowerDigits[d]
  }

  /** JavaScript's decimal rendering of a non-negative integer: digits only, no leading zero. */
  function NatToDecimal(n: nat): (s: string)
    ensures |s| >= 1 && (|s| > 1 ==> s[0] != '0')
    ensures forall i :: 0 <= i < |s| ==> '0' <= s[i] <= '9'
  {
    if n < 10 then [DecimalChar(n)] else NatToDecimal(n / 10) + [DecimalChar(n % 10)]
  }

  /** Reading the printed number back in base 10 gives the number. */
  lemma {:induction false} DecimalRoundTrip(n: nat)
    ensures HornerValue(10, NatToDecimal(n)) == Some(n)
  {
    if n < 10 {
      DecimalValue(n);
      HornerSnoc(10, [], DecimalChar(n));
      assert [] + [DecimalChar(n)] == [DecimalChar(n)];
    } else {
      var init := NatToDecimal(n / 10);
      DecimalRoundTrip(n / 10);
      DecimalValue(n % 10);
      HornerSnoc(10, init, DecimalChar(n % 10));
      DivMod10(n);
    }
  }

  /** A decimal digit character reads back as its value. */
  lemma DecimalValue(d: nat)
    requires d < 10
    ensures DigitToNumber(DecimalChar(d)) == Some(d) && '0' <= DecimalChar(d) <= '9'
  {
    DigitRoundTrip(d);
  }

  lemma DivMod10(n: nat)
    ensures (n / 10) * 10 + n % 10 == n
  {
  }

  /** The text printed for a number, `NaN` included. */
  function NumberText(number: Option<nat>): string {
    match number
    case None => "NaN"
    case Some(n) => NatToDecimal(n)
  }

  /** `` `\\@char{${number}}` ``: what `\char` expands to. */
  function CharDirective(number: Option<nat>): (r: string)
    ensures 9 <= |r| && r[..7] == "\\@char{" && r[|r| - 1] == '}'
    ensures number.Some? ==> HornerValue(10, r[7..|r| - 1]) == number
    ensures number.None? ==> r[7..|r| - 1] == "NaN"
  {
    var text := NumberText(number);
    var r := "\\@char{" + text + "}";
    assert r[7..|r| - 1] == text;
    if number.Some? then DecimalRoundTrip(number.value); r else r
  }

  /** `text.charCodeAt(i)`, with `NaN` past the end. */
  function CharCodeAt(s: string, i: nat): Option<nat> {
    if i < |s| then Some(s[i] as nat) else None
  }

  /**
   * The base branch of `\char`, starting with the already popped `token`:
   * its first character must be a digit below `base`, then the following
   * digit tokens are read.
   */
  function ParseBase(base: nat, token: Token, ctx: Context): (r: Result<Step, MacroError>)
    ensures r.Failure? <==> FirstDigit(token.text).None? || FirstDigit(token.text).value >= base
    ensures r.Failure? ==> r.error == InvalidDigit(base)
    ensures r.Success? ==> r.value.context == ctx.(input := ctx.input[RunLength(ctx.input, base)..])
    ensures r.Success? ==> exists n :: r.value.expansion == Source(CharDirective(n))
  {
    var first := FirstDigit(token.text);
    if first.None? || first.value >= base then
      Failure(InvalidDigit(base))
    else
      var number := AppendCharNumbers(first, token.text, base);
      ReadDigitsConsumes(number, ctx, base);
      var (n, rest) := ReadDigits(number, ctx, base);
      Success(Step(Source(CharDirective(n)), rest))
  }

  /** The loop consumes exactly the maximal run of digit tokens, whatever the number so far. */
  lemma {:induction false} ReadDigitsConsumes(number: Option<nat>, ctx: Context, base: nat)
    ensures ReadDigits(number, ctx, base).1 == ctx.(input := ctx.input[RunLength(ctx.input, base)..])
    decreases |ctx.input|
  {
    if ctx.input != [] && RunDigit(ctx.input[0], base) {
      var t := ctx.input[0];
      assert NextCharNumber(ctx) == (FirstDigit(t.text), t.text);
      ReadDigitsConsumes(AppendCharNumbers(Shift(number, base, FirstDigit(t.text)), t.text, base),
                         ctx.(input := ctx.input[1..]), base);
      assert ctx.input[1..][RunLength(ctx.input, base) - 1..] == ctx.input[RunLength(ctx.input, base)..];
    } else {
      assert ctx.input[0..] == ctx.input;
    }
  }

  /**
   * The code the base branch produces is the value, in `base`, of the first
   * token's text followed by the texts of the digit tokens it consumed.
   */
  lemma ParseBaseValue(base: nat, token: Token, ctx: Context)
    requires ParseBase(base, token, ctx).Success?
    ensures ParseBase(base, token, ctx).value.expansion
              == Source(CharDirective(HornerValue(base, token.text + StringFromArg(ctx.input[..RunLength(ctx.input, base)]))))
  {
    FirstTokenValue(base, token.text);
    ReadDigitsSpec(base, token.text, ctx);
  }

  /** `\char`: pick the base from the prefix token, or read a character code after `` ` ``. */
  function CharMacro(ctx: Context): (r: Result<Step, MacroError>)
    ensures r.Success? ==> exists n :: r.value.expansion == Source(CharDirective(n))
    ensures r.Failure? ==> r.error in {MissingCharArgument, InvalidDigit(8), InvalidDigit(10), InvalidDigit(16)}
    ensures r == Failure(MissingCharArgument) <==>
              ctx.input != [] && ctx.input[0].text == "`" && Future(PopToken(ctx).1).text == "EOF"
  {
    var (token, rest) := PopToken(ctx);
    if token.text == "`" then
      CharCode(rest)
    else
      var base := if token.text == "'" then 8 else if token.text == "\"" then 16 else 10;
      var (first, after) := if base == 10 then (token, rest) else PopToken(rest);
      ParseBase(base, first, after)
  }

  /** The `` ` `` branch of `\char`: the code of the next character, or of the character after a backslash. */
  function CharCode(ctx: Context): (r: Result<Step, MacroError>)
    ensures r.Failure? <==> Future(ctx).text == "EOF"
    ensures r.Failure? ==> r.error == MissingCharArgument
    ensures r.Success? ==>
              var t := Future(ctx).text;
              r.value == Step(Source(CharDirective(CharCodeAt(t, if |t| > 0 && t[0] == '\\' then 1 else 0))), PopToken(ctx).1)
  {
    var (t, after) := PopToken(ctx);
    if |t.text| > 0 && t.text[0] == '\\' then
      Success(Step(Source(CharDirective(CharCodeAt(t.text, 1))), after))
    else if t.text == "EOF" then
      Failure(MissingCharArgument)
    else
      Success(Step(Source(CharDirective(CharCodeAt(t.text, 0))), after))
  }

  /** The prefix token that selects a base: `'` for 8, `"` for 16, none for 10. */
  function BasePrefix(base: nat): seq<Token>
    requires base == 8 || base == 10 || base == 16
  {
    if base == 8 then [Plain("'")] else if base == 16 then [Plain("\"")] else []
  }

  /** Single-character digit tokens, each below `base`. */
  predicate DigitTokens(digits: seq<Token>, base: nat) {
    forall j :: 0 <= j < |digits| ==> |digits[j].text| == 1 && RunDigit(digits[j], base)
  }

  /**
   * `\char` on input of single-character tokens: the base prefix, a run of
   * digit tokens and anything that does not continue the run. The whole run is consumed,
   * the rest is left, and the code is the run's value in the base.
   */
  lemma CharInBase(ctx: Context, base: nat, digits: seq<Token>, rest: seq<Token>)
    requires base == 8 || base == 10 || base == 16
    requires |digits| > 0 && DigitTokens(digits, base)
    requires rest == [] || !RunDigit(rest[0], base)
    requires ctx.input == BasePrefix(base) + digits + rest
    ensures CharMacro(ctx) == Success(Step(Source(CharDirective(HornerValue(base, StringFromArg(digits)))),
                                           ctx.(input := rest)))
  {
    PrefixThenDigit(ctx.input, base, digits, rest);
    CharSelectsBase(ctx, base);
    RunParse(base, digits, rest, ctx);
  }

  /**
   * The first token selects `base`: `'` selects 8 and `"` selects 16;
   * any other token, or the end of the input, selects 10, except `` ` ``,
   * which reads a character instead.
   */
  predicate SelectsBase(input: seq<Token>, base: nat) {
    if base == 8 then input != [] && input[0].text == "'"
    else if base == 16 then input != [] && input[0].text == "\""
    else base == 10 && (input == [] || (input[0].text != "'" && input[0].text != "\"" && input[0].text != "`"))
  }

  /** How many prefix tokens the base takes: one for `'` and `"`, none for decimal. */
  function PrefixLength(base: nat): nat {
    if base == 10 then 0 else 1
  }

  /**
   * Once the prefix has selected a base, `\char` is the base branch on the
   * token after the prefix, whatever that token is: a digit, any other
   * token, or the `EOF` sentinel at the end of the input.
   */
  lemma CharSelectsBase(ctx: Context, base: nat)
    requires SelectsBase(ctx.input, base)
    ensures PrefixLength(base) <= |ctx.input|
    ensures var after := ctx.(input := ctx.input[PrefixLength(base)..]);
            CharMacro(ctx) == ParseBase(base, PopToken(after).0, PopToken(after).1)
  {
    assert ctx.input[0..] == ctx.input;
  }

  /**
   * After a base prefix, `\char` fails exactly when the next token does not
   * begin with a digit below the selected base, and the error names that base.
   */
  lemma CharInvalidDigit(ctx: Context, base: nat)
    requires SelectsBase(ctx.input, base)
    ensures PrefixLength(base) <= |ctx.input|
    ensures var first := Future(ctx.(input := ctx.input[PrefixLength(base)..])).text;
            CharMacro(ctx).Failure? <==> FirstDigit(first).None? || FirstDigit(first).value >= base
    ensures CharMacro(ctx).Failure? ==> CharMacro(ctx) == Failure(InvalidDigit(base))
  {
    CharSelectsBase(ctx, base);
  }

  /** A base prefix followed by a digit token selects that base, and the digit token comes next. */
  lemma PrefixThenDigit(input: seq<Token>, base: nat, digits: seq<Token>, rest: seq<Token>)
    requires base == 8 || base == 10 || base == 16
    requires digits != [] && RunDigit(digits[0], base)
    requires input == BasePrefix(base) + digits + rest
    ensures SelectsBase(input, base)
    ensures PrefixLength(base) <= |input| && input[PrefixLength(base)..] == [digits[0]] + (digits[1..] + rest)
  {
    assert input[PrefixLength(base)] == digits[0];
    assert DigitToNumber('\'') == None && DigitToNumber('"') == None && DigitToNumber('`') == None;
  }

  /** The base branch on a run of digit tokens consumes exactly the run. */
  lemma RunParse(base: nat, digits: seq<Token>, rest: seq<Token>, ctx: Context)
    requires |digits| > 0 && DigitTokens(digits, base)
    requires rest == [] || !RunDigit(rest[0], base)
    ensures ParseBase(base, digits[0], ctx.(input := digits[1..] + rest))
              == Success(Step(Source(CharDirective(HornerValue(base, StringFromArg(digits)))), ctx.(input := rest)))
  {
    var after := ctx.(input := digits[1..] + rest);
    var k := |digits| - 1;
    assert RunLength(after.input, base) == k by {
      RunOfDigits(digits[1..], rest, base);
    }
    assert after.input[..k] == digits[1..] && after.input[k..] == rest;
    assert RunDigit(digits[0], base);
    ParseBaseValue(base, digits[0], after);
    ArgHead(digits);
  }

  /** A run of digit tokens followed by a non-digit is a maximal run. */
  lemma {:induction false} RunOfDigits(digits: seq<Token>, rest: seq<Token>, base: nat)
    requires DigitTokens(digits, base)
    requires rest == [] || !RunDigit(rest[0], base)
    ensures RunLength(digits + rest, base) == |digits|
    decreases |digits|
  {
    if digits != [] {
      assert (digits + rest)[1..] == digits[1..] + rest;
      RunOfDigits(digits[1..], rest, base);
    } else {
      assert digits + rest == rest;
    }
  }

  /** Single-character digit tokens always have a numeric value: no `NaN`. */
  lemma {:induction false} DigitsHaveValue(digits: seq<Token>, base: nat)
    requires DigitTokens(digits, base)
    ensures HornerValue(base, StringFromArg(digits)).Some?
    decreases |digits|
  {
    if digits != [] {
      var init := digits[..|digits| - 1];
      DigitsHaveValue(init, base);
      assert digits[|digits| - 1].text == [digits[|digits| - 1].text[0]];
      var s := StringFromArg(digits);
      assert s == StringFromArg(init) + digits[|digits| - 1].text;
      assert s[..|s| - 1] == StringFromArg(init);
    }
  }

  /** `` \char`c `` is the code of `c`, and `` \char`\c `` the code of the character after the backslash. */
  lemma CharBacktick(ctx: Context, t: Token, rest: seq<Token>)
    requires ctx.input == [Plain("`"), t] + rest
    requires (|t.text| >= 2 && t.text[0] == '\\') || (|t.text| == 1 && t.text != "\\")
    ensures t.text[0] == '\\' ==>
              CharMacro(ctx) == Success(Step(Source(CharDirective(Some(t.text[1] as nat))), ctx.(input := rest)))
    ensures t.text[0] != '\\' ==>
              CharMacro(ctx) == Success(Step(Source(CharDirective(Some(t.text[0] as nat))), ctx.(input := rest)))
  {
    assert ([Plain("`"), t] + rest)[1..] == [t] + rest;
    assert ([t] + rest)[1..] == rest;
  }

  /** `` \char` `` with nothing after it is the missing-argument error. */
  lemma CharBacktickAtEnd(ctx: Context)
    requires ctx.input == [Plain("`")]
    ensures CharMacro(ctx) == Failure(MissingCharArgument)
  {
  }

  /**
   * The token shapes the `NaN`-freedom lemmas assume: one character other
   * than a lone backslash, or a backslash followed by at least one more
   * character. The `EOF` sentinel does not have this shape.
   */
  predicate LexerShaped(t: Token) {
    (|t.text| == 1 && t.text != "\\") || (|t.text| >= 2 && t.text[0] == '\\')
  }

  /** Every token still to be read has one of the assumed shapes. */
  predicate LexerInput(input: seq<Token>) {
    forall j :: 0 <= j < |input| ==> LexerShaped(input[j])
  }

  /**
   * As written, `\char"` at the very end of the input does not report a
   * missing digit: the sentinel `EOF` begins with the hexadecimal digit `E`,
   * so the code becomes `NaN`.
   */
  lemma HexAtEndIsNaN(ctx: Context)
    requires ctx.input == [Plain("\"")]
    ensures LexerInput(ctx.input)
    ensures CharMacro(ctx) == Success(Step(Source("\\@char{NaN}"), ctx.(input := [])))
  {
    var after := ctx.(input := []);
    HexPrefixAtEnd(ctx);
    EofReadsAsNaN(after);
    NaNDirective();
  }

  /** The directive for a `NaN` code. */
  lemma NaNDirective()
    ensures CharDirective(None) == "\\@char{NaN}"
  {
    assert NumberText(None) == "NaN";
  }

  /** `\char"` with nothing after it reads the hexadecimal branch against `EOF`. */
  lemma HexPrefixAtEnd(ctx: Context)
    requires ctx.input == [Plain("\"")]
    ensures CharMacro(ctx) == ParseBase(16, Eof, ctx.(input := []))
  {
    assert PopToken(ctx).1.input == [];
  }

  /** The hexadecimal branch read against the `EOF` sentinel: `E` is a digit, `O` is not. */
  lemma EofReadsAsNaN(ctx: Context)
    requires ctx.input == []
    ensures ParseBase(16, Eof, ctx) == Success(Step(Source(CharDirective(None)), ctx))
  {
    assert FirstDigit(Eof.text) == Some(14) by {
      assert Eof.text[0] == 'E';
    }
    assert AppendCharNumbers(Some(14), Eof.text, 16) == None by {
      assert Eof.text[1..] == "OF" && "OF"[1..] == "F";
      assert DigitToNumber('O') == None;
    }
    assert ReadDigits(None, ctx, 16) == (None, ctx) by {
      assert Future(ctx) == Eof;
    }
  }

  /**
   * `\char` with the missing-digit check the code evidently intends: a base
   * prefix at the very end of the input is an invalid-digit error instead of
   * being read against the `EOF` sentinel.
   */
  function CharMacroChecked(ctx: Context): (r: Result<Step, MacroError>)
    ensures r.Failure? ==> r.error in {MissingCharArgument, InvalidDigit(8), InvalidDigit(10), InvalidDigit(16)}
    ensures ctx.input == [Plain("\"")] ==> r == Failure(InvalidDigit(16))
    ensures ctx.input == [Plain("'")] ==> r == Failure(InvalidDigit(8))
  {
    var (token, rest) := PopToken(ctx);
    if token.text == "'" && rest.input == [] then Failure(InvalidDigit(8))
    else if token.text == "\"" && rest.input == [] then Failure(InvalidDigit(16))
    else CharMacro(ctx)
  }

  /** On input of the assumed token shapes the corrected `\char` always yields a number, never `NaN`. */
  lemma CheckedCharIsNumber(ctx: Context)
    requires LexerInput(ctx.input)
    ensures CharMacroChecked(ctx).Success? ==>
              exists n: nat :: CharMacroChecked(ctx).value.expansion == Source(CharDirective(Some(n)))
  {
    if ctx.input == [] {
      CheckedCharAtEnd(ctx);
    } else if ctx.input[0].text == "`" {
      CheckedCharBacktick(ctx);
    } else {
      var t := ctx.input[0].text;
      var base := if t == "'" then 8 else if t == "\"" then 16 else 10;
      if base == 10 || |ctx.input| > 1 {
        CheckedCharInBase(ctx, base);
      }
    }
  }

  /** After `` ` ``, a token of the assumed shapes has the character at index 0 or 1, so the code is a number. */
  lemma CheckedCharBacktick(ctx: Context)
    requires LexerInput(ctx.input) && ctx.input != [] && ctx.input[0].text == "`"
    ensures CharMacroChecked(ctx).Success? ==>
              exists n: nat :: CharMacroChecked(ctx).value.expansion == Source(CharDirective(Some(n)))
  {
    var rest := ctx.(input := ctx.input[1..]);
    assert CharMacroChecked(ctx) == CharCode(rest);
    if rest.input != [] {
      var t := rest.input[0].text;
      assert LexerShaped(rest.input[0]) by {
        assert rest.input[0] == ctx.input[1];
      }
      var i := if |t| > 0 && t[0] == '\\' then 1 else 0;
      assert CharCodeAt(t, i) == Some(t[i] as nat);
    }
  }

  /** A bare `\char` at the end of the input is an invalid decimal digit. */
  lemma CheckedCharAtEnd(ctx: Context)
    requires ctx.input == []
    ensures CharMacroChecked(ctx) == Failure(InvalidDigit(10))
  {
    assert SelectsBase(ctx.input, 10);
    CharInvalidDigit(ctx, 10);
    assert FirstDigit(Eof.text) == Some(14) by {
      assert Eof.text[0] == 'E';
    }
  }

  /** With a base selected and a token after the prefix, the corrected `\char` succeeds only with a number. */
  lemma CheckedCharInBase(ctx: Context, base: nat)
    requires LexerInput(ctx.input) && SelectsBase(ctx.input, base)
    requires PrefixLength(base) < |ctx.input|
    ensures CharMacroChecked(ctx).Success? ==>
              exists n: nat :: CharMacroChecked(ctx).value.expansion == Source(CharDirective(Some(n)))
  {
    CharSelectsBase(ctx, base);
    var after := ctx.(input := ctx.input[PrefixLength(base)..]);
    var first, rest := after.input[0], after.(input := after.input[1..]);
    assert LexerShaped(first) && LexerInput(rest.input) by {
      assert forall j :: 0 <= j < |rest.input| ==> rest.input[j] == ctx.input[j + 1 + PrefixLength(base)];
    }
    assert PopToken(after) == (first, rest);
    assert CharMacroChecked(ctx) == ParseBase(base, first, rest) by {
      assert PopToken(ctx).1.input != [] || base == 10;
    }
    ParseBaseIsNumber(base, first, rest);
    if ParseBase(base, first, rest).Success? {
      var v := HornerValue(base, first.text + StringFromArg(rest.input[..RunLength(rest.input, base)]));
      assert ParseBase(base, first, rest).value.expansion == Source(CharDirective(Some(v.value)));
    }
  }

  /** The base branch on input of the assumed token shapes: a success always carries a numeric code. */
  lemma ParseBaseIsNumber(base: nat, token: Token, ctx: Context)
    requires LexerShaped(token) && LexerInput(ctx.input)
    ensures ParseBase(base, token, ctx).Success? ==>
              var v := HornerValue(base, token.text + StringFromArg(ctx.input[..RunLength(ctx.input, base)]));
              v.Some? && ParseBase(base, token, ctx).value.expansion == Source(CharDirective(Some(v.value)))
  {
    var r := ParseBase(base, token, ctx);
    var run := ctx.input[..RunLength(ctx.input, base)];
    var all := [token] + run;
    if r.Success? {
      ParseBaseValue(base, token, ctx);
      RunTokensAreDigits(base, token, ctx);
      assert HornerValue(base, StringFromArg(all)).Some? by {
        DigitsHaveValue(all, base);
      }
      assert StringFromArg(all) == token.text + StringFromArg(run) by {
        ArgHead(all);
        assert all[1..] == run;
      }
    }
  }

  /** The first token and the run after it, when the base branch succeeds on the assumed shapes, are single-character digits. */
  lemma RunTokensAreDigits(base: nat, token: Token, ctx: Context)
    requires LexerShaped(token) && LexerInput(ctx.input)
    requires ParseBase(base, token, ctx).Success?
    ensures DigitTokens([token] + ctx.input[..RunLength(ctx.input, base)], base)
  {
    var all := [token] + ctx.input[..RunLength(ctx.input, base)];
    forall j | 0 <= j < |all|
      ensures |all[j].text| == 1 && RunDigit(all[j], base)
    {
      if j > 0 {
        assert all[j] == ctx.input[j - 1];
        ShapedDigit(all[j], base);
      } else {
        ShapedDigit(token, base);
      }
    }
  }

  /** A token of the assumed shapes that begins with a digit is that single digit. */
  lemma ShapedDigit(t: Token, base: nat)
    requires LexerShaped(t) && FirstDigit(t.text).Some? && FirstDigit(t.text).value < base
    ensures |t.text| == 1 && RunDigit(t, base)
  {
    assert DigitToNumber('\\') == None;
  }
}
