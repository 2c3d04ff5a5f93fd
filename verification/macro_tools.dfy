/**
 * The procedural "macro tools": `\noexpand`, `\@firstoftwo`,
 * `\@secondoftwo`, `\@ifnextchar` and `\TextOrMath`.
 *
 * `consumeArgs(n)` belongs to the expander; its result is the parameter
 * `args` (the n argument token lists in reading order) and `ctx` is the
 * context after those arguments were consumed.
 */
module MacroTools {
  import opened ExpansionContext

  /**
   * `\noexpand`: pop one token and hand it back; an expandable token comes
   * back marked so that it is treated as `\relax`.
   */
  function NoExpand(ctx: Context, isExpandable: string -> bool): (r: Step)
    ensures r.context == PopToken(ctx).1
    ensures r.expansion.Tokens? && r.expansion.numArgs == 0 && |r.expansion.tokens| == 1
    ensures r.expansion.tokens[0].text == PopToken(ctx).0.text
    ensures isExpandable(PopToken(ctx).0.text) ==>
              r.expansion.tokens[0].noexpand && r.expansion.tokens[0].treatAsRelax
    ensures !isExpandable(PopToken(ctx).0.text) ==> r.expansion.tokens[0] == PopToken(ctx).0
  {
    var (t, rest) := PopToken(ctx);
    var marked := if isExpandable(t.text) then t.(noexpand := true, treatAsRelax := true) else t;
    Step(Tokens([marked], 0), rest)
  }

  /**
   * Marking is idempotent: pushing the result of `\noexpand` back onto the
   * input and applying `\noexpand` again gives the same step.
   */
  lemma NoExpandIdempotent(ctx: Context, isExpandable: string -> bool)
    ensures var s := NoExpand(ctx, isExpandable);
            NoExpand(s.context.(input := s.expansion.tokens + s.context.input), isExpandable) == s
  {
  }

  /** `\@firstoftwo{#1}{#2}`. */
  function FirstOfTwo(ctx: Context, args: seq<seq<Token>>): (r: Step)
    requires |args| == 2
    ensures r.context == ctx
    ensures r.expansion.Tokens? && r.expansion.numArgs == 0 && r.expansion.tokens == args[0]
  {
    Step(Tokens(args[0], 0), ctx)
  }

  /** `\@secondoftwo{#1}{#2}`. */
  function SecondOfTwo(ctx: Context, args: seq<seq<Token>>): (r: Step)
    requires |args| == 2
    ensures r.context == ctx
    ensures r.expansion.Tokens? && r.expansion.numArgs == 0 && r.expansion.tokens == args[1]
  {
    Step(Tokens(args[1], 0), ctx)
  }

  /** The two selectors are mirror images: swapping the arguments swaps them. */
  lemma SelectorsMirror(ctx: Context, a: seq<Token>, b: seq<Token>)
    ensures FirstOfTwo(ctx, [a, b]) == SecondOfTwo(ctx, [b, a])
    ensures SecondOfTwo(ctx, [a, b]) == FirstOfTwo(ctx, [b, a])
  {
  }

  /** `\TextOrMath{#1}{#2}`: the first argument in text mode, the second otherwise. */
  function TextOrMath(ctx: Context, args: seq<seq<Token>>): (r: Step)
    requires |args| == 2
    ensures r.context == ctx
    ensures r.expansion.Tokens? && r.expansion.numArgs == 0
    ensures ctx.mode == TextMode ==> r.expansion.tokens == args[0]
    ensures ctx.mode != TextMode ==> r.expansion.tokens == args[1]
  {
    if ctx.mode == TextMode then Step(Tokens(args[0], 0), ctx)
    else Step(Tokens(args[1], 0), ctx)
  }

  /** `\TextOrMath` is `\@firstoftwo` in text mode and `\@secondoftwo` in math mode. */
  lemma TextOrMathSelects(ctx: Context, args: seq<seq<Token>>)
    requires |args| == 2
    ensures TextOrMath(ctx, args) == if ctx.mode == TextMode then FirstOfTwo(ctx, args) else SecondOfTwo(ctx, args)
  {
  }

  /** The token `\@ifnextchar` compares with: the first non-space token, or `EOF`. */
  function NextNonSpace(input: seq<Token>): Token
    decreases |input|
  {
    if input == [] then Eof
    else if input[0].text == " " then NextNonSpace(input[1..])
    else input[0]
  }

  /**
   * `\@ifnextchar{#1}{#2}{#3}`: skip spaces, then peek. The result is the
   * second argument when the first is exactly one token whose text is that
   * of the peeked token, and the third otherwise. Only spaces are consumed.
   */
  function IfNextChar(ctx: Context, args: seq<seq<Token>>): (r: Step)
    requires |args| == 3
    ensures r.context == ConsumeSpaces(ctx)
    ensures r.expansion.Tokens? && r.expansion.numArgs == 0
    ensures (|args[0]| == 1 && args[0][0].text == NextNonSpace(ctx.input).text) ==> r.expansion.tokens == args[1]
    ensures !(|args[0]| == 1 && args[0][0].text == NextNonSpace(ctx.input).text) ==> r.expansion.tokens == args[2]
  {
    var rest := ConsumeSpaces(ctx);
    NextAfterSpaces(ctx);
    var nextToken := Future(rest);
    if |args[0]| == 1 && args[0][0].text == nextToken.text then Step(Tokens(args[1], 0), rest)
    else Step(Tokens(args[2], 0), rest)
  }

  /** Peeking after `consumeSpaces` sees the first non-space token. */
  lemma {:induction false} NextAfterSpaces(ctx: Context)
    ensures Future(ConsumeSpaces(ctx)) == NextNonSpace(ctx.input)
    decreases |ctx.input|
  {
    if ctx.input != [] && ctx.input[0].text == " " {
      var tail := ctx.(input := ctx.input[1..]);
      NextAfterSpaces(tail);
      assert ConsumeSpaces(ctx).input == ConsumeSpaces(tail).input by {
        assert ctx.input[1 + LeadingSpaces(tail.input)..] == tail.input[LeadingSpaces(tail.input)..];
      }
    }
  }

  /** `\@ifnextchar` picks between its branches exactly as `\@firstoftwo`/`\@secondoftwo` would. */
  lemma IfNextCharIsSelector(ctx: Context, c: seq<Token>, yes: seq<Token>, no: seq<Token>)
    ensures var matched := |c| == 1 && c[0].text == NextNonSpace(ctx.input).text;
            IfNextChar(ctx, [c, yes, no])
              == if matched then FirstOfTwo(ConsumeSpaces(ctx), [yes, no]) else SecondOfTwo(ConsumeSpaces(ctx), [yes, no])
  {
  }
}
