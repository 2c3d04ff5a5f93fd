/**
 * AMS-style automatic dots: `\dots` chooses a variant from the token that
 * follows it, and `\dotso`, `\dotsc` and `\cdots` add a thin space before a
 * closing delimiter or punctuation.
 */
module Dots {
  import opened ExpansionContext

  const DotsB: string := "\\dotsb"
  const DotsC: string := "\\dotsc"
  const DotsI: string := "\\dotsi"
  const DotsX: string := "\\dotsx"
  const DotsO: string := "\\dotso"

  /** The variants `\dots` can choose. */
  const DotsVariants: set<string> := {DotsB, DotsC, DotsI, DotsX, DotsO}

  /** The tokens `dotsByToken` sends to `\dotsb`: `\not`, the binary keys and symbols defined with `\DOTSB`, `\mathbin` or `\mathrel`. */
  const BinaryTokens: set<string> := {
    "\\not",
    "+", "=", "<", ">", "-", "*", ":",
    "\\DOTSB", "\\coprod", "\\bigvee", "\\bigwedge", "\\biguplus", "\\bigcap", "\\bigcup", "\\prod",
    "\\sum", "\\bigotimes", "\\bigoplus", "\\bigodot", "\\bigsqcap", "\\bigsqcup", "\\And",
    "\\longrightarrow", "\\Longrightarrow", "\\longleftarrow", "\\Longleftarrow",
    "\\longleftrightarrow", "\\Longleftrightarrow", "\\mapsto", "\\longmapsto", "\\hookrightarrow",
    "\\doteq",
    "\\mathbin",
    "\\mathrel", "\\relbar", "\\Relbar", "\\xrightarrow", "\\xleftarrow"
  }

  /** The tokens `dotsByToken` sends to `\dotsi`: symbols defined with `\DOTSI`. */
  const IntegralTokens: set<string> := {
    "\\DOTSI", "\\int", "\\oint", "\\iint", "\\iiint", "\\iiiint", "\\idotsint"
  }

  /** `dotsByToken`: the variant each known following token selects, grouped by variant. */
  const DotsByToken: map<string, string> :=
    map k | k in {","} + BinaryTokens + IntegralTokens + {"\\DOTSX"} ::
      if k == "," then DotsC
      else if k in BinaryTokens then DotsB
      else if k in IntegralTokens then DotsI
      else DotsX

  /** `next.substr(0, 4) === "\\not"`. */
  predicate StartsWithNot(next: string) {
    |next| >= 4 && next[..4] == "\\not"
  }

  /** The math symbol groups after which `\dots` is binary. */
  predicate BinaryGroup(next: string, groups: map<string, string>) {
    next in groups && (groups[next] == "bin" || groups[next] == "rel")
  }

  /**
   * `\dots`: `next` is the text of the following token once expanded and
   * `groups` the `group` of each math symbol. The table decides first, then
   * a `\not` prefix, then a binary or relation symbol; otherwise `\dotso`.
   */
  function DotsChoice(next: string, groups: map<string, string>): (r: string)
    ensures r in DotsVariants
    ensures next in DotsByToken ==> r == DotsByToken[next]
  {
    TableVariants();
    if next in DotsByToken then DotsByToken[next]
    else if StartsWithNot(next) then DotsB
    else if BinaryGroup(next, groups) then DotsB
    else DotsO
  }

  /** Every entry of the table names one of the variants, and none is the fallback `\dotso`. */
  lemma TableVariants()
    ensures forall k :: k in DotsByToken ==> DotsByToken[k] in DotsVariants - {DotsO}
  {
    VariantsDistinct();
  }

  /** The five variant names are distinct; they differ in their last letter. */
  lemma VariantsDistinct()
    ensures |DotsVariants| == 5
  {
    assert DotsB[5] == 'b' && DotsC[5] == 'c' && DotsI[5] == 'i' && DotsX[5] == 'x' && DotsO[5] == 'o';
  }

  /**
   * `\dots` is binary exactly when the table says so, or when the token is
   * not in the table and starts with `\not` or is a binary or relation symbol.
   */
  lemma DotsBinaryExactly(next: string, groups: map<string, string>)
    ensures DotsChoice(next, groups) == DotsB <==>
              if next in DotsByToken then DotsByToken[next] == DotsB
              else StartsWithNot(next) || BinaryGroup(next, groups)
  {
    VariantsDistinct();
  }

  /** `\dots` falls back to `\dotso` exactly when no rule applies. */
  lemma DotsOtherExactly(next: string, groups: map<string, string>)
    ensures DotsChoice(next, groups) == DotsO <==>
              next !in DotsByToken && !StartsWithNot(next) && !BinaryGroup(next, groups)
  {
    TableVariants();
    VariantsDistinct();
  }

  /** The symbol groups only matter for tokens the table and the `\not` rule leave open. */
  lemma GroupsOnlyBreakTies(next: string, g1: map<string, string>, g2: map<string, string>)
    requires next in DotsByToken || StartsWithNot(next)
    ensures DotsChoice(next, g1) == DotsChoice(next, g2)
  {
  }

  /** `spaceAfterDots`: closing delimiters and punctuation after which dots get a thin space. */
  const SpaceAfterDots: set<string> := {
    ")", "]", "\\rbrack", "\\}", "\\rbrace", "\\rangle", "\\rceil", "\\rfloor", "\\rgroup",
    "\\rmoustache", "\\right", "\\bigr", "\\biggr", "\\Bigr", "\\Biggr",
    "$",
    ";", ".", ","
  }

  const LowDots: string := "\\ldots"
  const LowDotsSpaced: string := "\\ldots\\,"
  const CenterDots: string := "\\@cdots"
  const CenterDotsSpaced: string := "\\@cdots\\,"

  /** `\dotso`: low dots, with a thin space when the next token is in `spaceAfterDots`. */
  function Dotso(ctx: Context): (r: Step)
    ensures r.context == ctx
    ensures r.expansion == Source(LowDotsSpaced) <==> Future(ctx).text in SpaceAfterDots
    ensures r.expansion == Source(LowDots) <==> Future(ctx).text !in SpaceAfterDots
  {
    assert LowDots != LowDotsSpaced;
    if Future(ctx).text in SpaceAfterDots then Step(Source(LowDotsSpaced), ctx)
    else Step(Source(LowDots), ctx)
  }

  /** `\dotsc`: as `\dotso`, except that a following comma gets no thin space. */
  function Dotsc(ctx: Context): (r: Step)
    ensures r.context == ctx
    ensures r.expansion == Source(LowDotsSpaced) <==> Future(ctx).text in SpaceAfterDots && Future(ctx).text != ","
    ensures r.expansion == Source(LowDots) <==> Future(ctx).text !in SpaceAfterDots || Future(ctx).text == ","
  {
    assert LowDots != LowDotsSpaced;
    var next := Future(ctx).text;
    if next in SpaceAfterDots && next != "," then Step(Source(LowDotsSpaced), ctx)
    else Step(Source(LowDots), ctx)
  }

  /** `\cdots`: centred dots, spaced by the same rule as `\dotso`. */
  function Cdots(ctx: Context): (r: Step)
    ensures r.context == ctx
    ensures r.expansion == Source(CenterDotsSpaced) <==> Future(ctx).text in SpaceAfterDots
    ensures r.expansion == Source(CenterDots) <==> Future(ctx).text !in SpaceAfterDots
  {
    assert CenterDots != CenterDotsSpaced;
    if Future(ctx).text in SpaceAfterDots then Step(Source(CenterDotsSpaced), ctx)
    else Step(Source(CenterDots), ctx)
  }

  /** `\dotsc` and `\dotso` differ exactly before a comma. */
  lemma DotscDiffersOnlyAtComma(ctx: Context)
    ensures Dotsc(ctx) == Dotso(ctx) <==> Future(ctx).text != ","
  {
    assert "," in SpaceAfterDots;
  }

  /** `\cdots` adds its thin space exactly when `\dotso` does. */
  lemma CdotsSpacedLikeDotso(ctx: Context)
    ensures Cdots(ctx).expansion == Source(CenterDotsSpaced) <==> Dotso(ctx).expansion == Source(LowDotsSpaced)
  {
  }
}
