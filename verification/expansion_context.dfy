/**
 * The part of the macro expander's context that the built-in procedural
 * macros use. Tokens are held in logical reading order; the expander's own
 * reversed stack is a representation detail left out here.
 */
module ExpansionContext {

  /** A token; the two flags are the ones `\noexpand` sets. */
  datatype Token = Token(text: string, noexpand: bool, treatAsRelax: bool)

  /** A token as the lexer makes it, with no flag set. */
  function Plain(text: string): Token {
    Token(text, false, false)
  }

  /** What `popToken` and `future` yield once the input is exhausted. */
  const Eof: Token := Plain("EOF")

  datatype Mode = TextMode | MathMode

  /** A macro table entry: a template body, or a procedure whose code is not data. */
  datatype Definition = Template(body: string) | Procedure

  /** The token input still to read, the current mode and the macro table. */
  datatype Context = Context(input: seq<Token>, mode: Mode, macros: map<string, Definition>)

  /** What a procedure expands to: a token list with its argument count, or source text. */
  datatype Expansion = Tokens(tokens: seq<Token>, numArgs: nat) | Source(text: string)

  /** A procedure's expansion together with the context it leaves behind. */
  datatype Step = Step(expansion: Expansion, context: Context)

  /** The `ParseError`s the procedures raise. */
  datatype MacroError =
    | MissingCharArgument
    | InvalidDigit(base: nat)
    | DuplicateTag
    | InvalidArrowSpacing
    | InvalidArrowCharCode
    | UndefinedArrowName

  /** `popToken()`: the next token and the context without it; `EOF` at the end, consuming nothing. */
  function PopToken(ctx: Context): (r: (Token, Context))
    ensures ctx.input == [] ==> r == (Eof, ctx)
    ensures ctx.input != [] ==> [r.0] + r.1.input == ctx.input
    ensures r.1.mode == ctx.mode && r.1.macros == ctx.macros
  {
    if ctx.input == [] then (Eof, ctx)
    else (ctx.input[0], ctx.(input := ctx.input[1..]))
  }

  /** `future()`: the token `popToken` would return, without consuming it. */
  function Future(ctx: Context): (t: Token)
    ensures t == PopToken(ctx).0
  {
    if ctx.input == [] then Eof else ctx.input[0]
  }

  /** How many space tokens stand at the front of `input`. */
  function LeadingSpaces(input: seq<Token>): (n: nat)
    decreases |input|
    ensures n <= |input|
    ensures forall k :: 0 <= k < n ==> input[k].text == " "
    ensures n < |input| ==> input[n].text != " "
  {
    if input != [] && input[0].text == " " then
      var n := 1 + LeadingSpaces(input[1..]);
      assert forall k :: 0 < k < |input| ==> input[k] == input[1..][k - 1];
      n
    else 0
  }

  /** `consumeSpaces()`: drop the space tokens at the front of the input. */
  function ConsumeSpaces(ctx: Context): (r: Context)
    ensures r.mode == ctx.mode && r.macros == ctx.macros
    ensures |r.input| <= |ctx.input| && r.input == ctx.input[|ctx.input| - |r.input|..]
    ensures forall k :: 0 <= k < |ctx.input| - |r.input| ==> ctx.input[k].text == " "
    ensures r.input != [] ==> r.input[0].text != " "
  {
    ctx.(input := ctx.input[LeadingSpaces(ctx.input)..])
  }

  /**
   * `stringFromArg`: the argument's token texts joined in reading order
   * (the source walks its reversed token array from the end).
   */
  function StringFromArg(arg: seq<Token>): (r: string)
    ensures |arg| == 1 ==> r == arg[0].text
  {
    if arg == [] then "" else StringFromArg(arg[..|arg| - 1]) + arg[|arg| - 1].text
  }

  /** Joining is compatible with splitting the argument anywhere. */
  lemma {:induction false} StringFromArgAppend(a: seq<Token>, b: seq<Token>)
    ensures StringFromArg(a + b) == StringFromArg(a) + StringFromArg(b)
    decreases |b|
  {
    if b == [] {
      assert a + b == a;
    } else {
      assert (a + b)[..|a + b| - 1] == a + b[..|b| - 1];
      StringFromArgAppend(a, b[..|b| - 1]);
    }
  }

  /** For single-character tokens, the joined string spells the tokens one by one. */
  lemma {:induction false} StringFromSingleChars(arg: seq<Token>)
    requires forall k :: 0 <= k < |arg| ==> |arg[k].text| == 1
    ensures |StringFromArg(arg)| == |arg|
    ensures forall k :: 0 <= k < |arg| ==> StringFromArg(arg)[k] == arg[k].text[0]
  {
    if arg != [] {
      StringFromSingleChars(arg[..|arg| - 1]);
    }
  }
}
