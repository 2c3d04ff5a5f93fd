/**
 * Macros whose expansion defines other macros: `defineMacro` itself,
 * `\tag@literal` (which refuses a second tag) and `\newextarrow`.
 *
 * `defineMacro` writes to the module-level table of built-in macros, which
 * is a different table from the expander's `macros`; both are maps here.
 * JavaScript's `isNaN` on strings is the parameter `isNumeric` (with
 * `isNaN(s) == !isNumeric(s)`), since `Number` parsing is not modelled.
 */
module DynamicDefinitions {
  import opened Results
  import opened ExpansionContext

  /** `defineMacro(name, body)`: set one entry of the built-in table. */
  function DefineMacro(builtins: map<string, Definition>, name: string, body: Definition): (r: map<string, Definition>)
    ensures name in r && r[name] == body
    ensures r.Keys == builtins.Keys + {name}
    ensures forall k :: k in builtins && k != name ==> r[k] == builtins[k]
  {
    builtins[name := body]
  }

  /** A later definition of the same name replaces an earlier one. */
  lemma DefineMacroLastWins(builtins: map<string, Definition>, name: string, a: Definition, b: Definition)
    ensures DefineMacro(DefineMacro(builtins, name, a), name, b) == DefineMacro(builtins, name, b)
  {
  }

  /** Definitions of different names do not interfere. */
  lemma DefineMacroCommutes(builtins: map<string, Definition>, m: string, a: Definition, n: string, b: Definition)
    requires m != n
    ensures DefineMacro(DefineMacro(builtins, m, a), n, b) == DefineMacro(DefineMacro(builtins, n, b), m, a)
  {
  }

  /** JavaScript truthiness of `macros.get(name)`: defined, and not the empty string. */
  predicate MacroDefined(macros: map<string, Definition>, name: string) {
    name in macros && macros[name] != Template("")
  }

  const TagMacro: string := "\\df@tag"
  const TagDefinition: string := "\\gdef\\df@tag{\\text{#1}}"

  /** `\tag@literal`: define `\df@tag` globally, unless a tag is already defined. */
  function TagLiteral(ctx: Context): (r: Result<Step, MacroError>)
    ensures r.Failure? <==> MacroDefined(ctx.macros, TagMacro)
    ensures r.Failure? ==> r.error == DuplicateTag
    ensures r.Success? ==> r.value == Step(Source(TagDefinition), ctx)
  {
    if MacroDefined(ctx.macros, TagMacro) then Failure(DuplicateTag)
    else Success(Step(Source(TagDefinition), ctx))
  }

  /** Once the first tag's `\gdef` has defined `\df@tag`, a second `\tag@literal` fails. */
  lemma SecondTagFails(ctx: Context)
    requires TagLiteral(ctx).Success?
    ensures var tagged := ctx.(macros := ctx.macros[TagMacro := Template("\\text{#1}")]);
            TagLiteral(tagged) == Failure(DuplicateTag)
  {
    assert Template("\\text{#1}") != Template("") by {
      assert |"\\text{#1}"| != |""|;
    }
  }

  /** Join parts with a separator between each two. */
  function JoinWith(parts: seq<string>, sep: char): string
    requires |parts| >= 1
  {
    if |parts| == 1 then parts[0] else parts[0] + [sep] + JoinWith(parts[1..], sep)
  }

  /** `s.split(sep)` for a one-character separator: every piece between separators, empty ones included. */
  function SplitOn(s: string, sep: char): (parts: seq<string>)
    ensures |parts| >= 1
    ensures forall i :: 0 <= i < |parts| ==> sep !in parts[i]
    ensures JoinWith(parts, sep) == s
    decreases |s|
  {
    if s == [] then [""]
    else if s[0] == sep then [""] + SplitOn(s[1..], sep)
    else
      var rest := SplitOn(s[1..], sep);
      var parts := [[s[0]] + rest[0]] + rest[1..];
      assert parts[1..] == rest[1..];
      assert s == [s[0]] + s[1..];
      parts
  }

  /** Splitting a join of separator-free parts gives the parts back. */
  lemma {:induction false} SplitJoin(parts: seq<string>, sep: char)
    requires |parts| >= 1
    requires forall i :: 0 <= i < |parts| ==> sep !in parts[i]
    ensures SplitOn(JoinWith(parts, sep), sep) == parts
    decreases |parts|, |parts[0]|
  {
    var s := JoinWith(parts, sep);
    if parts[0] == [] {
      if |parts| == 1 {
        assert s == [];
      } else {
        assert s == [sep] + JoinWith(parts[1..], sep);
        assert s[1..] == JoinWith(parts[1..], sep);
        SplitJoin(parts[1..], sep);
        assert [""] + parts[1..] == parts;
      }
    } else {
      var c := parts[0][0];
      var shorter := [parts[0][1..]] + parts[1..];
      assert shorter[1..] == parts[1..];
      assert forall i :: 0 <= i < |shorter| ==> sep !in shorter[i] by {
        forall i | 0 <= i < |shorter| ensures sep !in shorter[i] {
          if i == 0 {
            assert forall x :: x in parts[0][1..] ==> x in parts[0];
          } else {
            assert shorter[i] == parts[i];
          }
        }
      }
      assert c != sep by {
        assert c in parts[0];
      }
      if |parts| == 1 {
        assert s == [c] + JoinWith(shorter, sep);
      } else {
        assert s == [c] + JoinWith(shorter, sep) by {
          assert parts[0] == [c] + parts[0][1..];
        }
      }
      assert s[1..] == JoinWith(shorter, sep);
      SplitJoin(shorter, sep);
      assert [[c] + shorter[0]] + shorter[1..] == parts by {
        assert [c] + parts[0][1..] == parts[0];
      }
    }
  }

  /** The expansion `\newextarrow` gives the new arrow. */
  function ArrowTemplate(left: string, right: string, charCode: string): string {
    "\\ext@arrow{" + left + "}{" + right + "}{" + charCode + "}{#1}"
  }

  /** The successful outcome of `\newextarrow`: its empty expansion and the updated built-in table. */
  datatype ArrowDefinition = ArrowDefinition(step: Step, builtins: map<string, Definition>)

  /**
   * The spacing check as written, `isNaN(padNums[0] || isNaN(padNums[1]))`:
   * when the first spacing is non-empty only it is checked, and when it is
   * empty `isNaN` is applied to a boolean, which is never `NaN`.
   */
  predicate SpacingRejectedAsWritten(parts: seq<string>, isNumeric: string -> bool) {
    |parts| != 2 || (parts[0] != "" && !isNumeric(parts[0]))
  }

  /** The spacing check as intended: two numeric spacings. */
  predicate SpacingRejected(parts: seq<string>, isNumeric: string -> bool) {
    |parts| != 2 || !isNumeric(parts[0]) || !isNumeric(parts[1])
  }

  /**
   * `\newextarrow{\name}{lspace,rspace}{charcode}`: the spacing must split
   * into exactly two pieces that `spacingOk` accepts, and the character
   * code must be numeric. `args` are the three consumed arguments in reading
   * order; the source names the arrow by the argument's first stored token,
   * which is its last token in reading order, and fails with a `TypeError`
   * when the argument is empty.
   */
  function ArrowMacro(ctx: Context, args: seq<seq<Token>>, builtins: map<string, Definition>,
                      isNumeric: string -> bool, spacingOk: (string, string) -> bool): (r: Result<ArrowDefinition, MacroError>)
    requires |args| == 3
    ensures r.Failure? ==> r.error in {UndefinedArrowName, InvalidArrowSpacing, InvalidArrowCharCode}
    ensures r == Failure(UndefinedArrowName) <==> args[0] == []
    ensures r == Failure(InvalidArrowSpacing) <==>
              var parts := SplitOn(StringFromArg(args[1]), ',');
              args[0] != [] && (|parts| != 2 || !spacingOk(parts[0], parts[1]))
    ensures r == Failure(InvalidArrowCharCode) <==>
              var parts := SplitOn(StringFromArg(args[1]), ',');
              && args[0] != [] && |parts| == 2 && spacingOk(parts[0], parts[1])
              && !isNumeric(StringFromArg(args[2]))
    ensures r.Success? ==>
              var parts := SplitOn(StringFromArg(args[1]), ',');
              && |parts| == 2 && spacingOk(parts[0], parts[1]) && isNumeric(StringFromArg(args[2]))
              && parts[0] + "," + parts[1] == StringFromArg(args[1])
              && r.value.step == Step(Source(""), ctx)
              && r.value.builtins == DefineMacro(builtins, args[0][|args[0]| - 1].text,
                                                 Template(ArrowTemplate(parts[0], parts[1], StringFromArg(args[2]))))
  {
    if args[0] == [] then Failure(UndefinedArrowName)
    else
      var arrowName := args[0][|args[0]| - 1].text;
      var padNums := SplitOn(StringFromArg(args[1]), ',');
      if |padNums| != 2 || !spacingOk(padNums[0], padNums[1]) then Failure(InvalidArrowSpacing)
      else
        var charText := StringFromArg(args[2]);
        if !isNumeric(charText) then Failure(InvalidArrowCharCode)
        else
          assert JoinWith(padNums, ',') == padNums[0] + "," + padNums[1] by {
            assert padNums[1..] == [padNums[1]];
          }
          var body := Template(ArrowTemplate(padNums[0], padNums[1], charText));
          Success(ArrowDefinition(Step(Source(""), ctx), DefineMacro(builtins, arrowName, body)))
  }

  /** `\newextarrow` as written. */
  function NewExtArrow(ctx: Context, args: seq<seq<Token>>, builtins: map<string, Definition>,
                       isNumeric: string -> bool): (r: Result<ArrowDefinition, MacroError>)
    requires |args| == 3
    ensures r == Failure(InvalidArrowSpacing) <==>
              args[0] != [] && SpacingRejectedAsWritten(SplitOn(StringFromArg(args[1]), ','), isNumeric)
    ensures r.Success? ==> |SplitOn(StringFromArg(args[1]), ',')| == 2 && isNumeric(StringFromArg(args[2]))
  {
    ArrowMacro(ctx, args, builtins, isNumeric, (left, right) => left == "" || isNumeric(left))
  }

  /** `\newextarrow` with both spacings checked, as the error message promises. */
  function NewExtArrowChecked(ctx: Context, args: seq<seq<Token>>, builtins: map<string, Definition>,
                              isNumeric: string -> bool): (r: Result<ArrowDefinition, MacroError>)
    requires |args| == 3
    ensures r == Failure(InvalidArrowSpacing) <==>
              args[0] != [] && SpacingRejected(SplitOn(StringFromArg(args[1]), ','), isNumeric)
    ensures r.Success? ==>
              var parts := SplitOn(StringFromArg(args[1]), ',');
              |parts| == 2 && isNumeric(parts[0]) && isNumeric(parts[1]) && isNumeric(StringFromArg(args[2]))
  {
    ArrowMacro(ctx, args, builtins, isNumeric, (left, right) => isNumeric(left) && isNumeric(right))
  }

  /** The arguments of `\newextarrow{\name}{2,x}{8594}`. */
  function BadSpacingArgs(): seq<seq<Token>> {
    [[Plain("\\name")], [Plain("2"), Plain(","), Plain("x")], [Plain("8"), Plain("5"), Plain("9"), Plain("4")]]
  }

  /**
   * As written, a non-numeric right spacing is accepted: `{2,x}` defines the
   * arrow, while the intended check rejects it.
   */
  lemma NonNumericRightSpacingAccepted(ctx: Context, builtins: map<string, Definition>, isNumeric: string -> bool)
    requires isNumeric("2") && !isNumeric("x") && isNumeric("8594")
    ensures NewExtArrow(ctx, BadSpacingArgs(), builtins, isNumeric).Success?
    ensures NewExtArrowChecked(ctx, BadSpacingArgs(), builtins, isNumeric) == Failure(InvalidArrowSpacing)
  {
    var args := BadSpacingArgs();
    assert StringFromArg(args[1]) == "2,x" by {
      StringFromSingleChars(args[1]);
    }
    assert StringFromArg(args[2]) == "8594" by {
      StringFromSingleChars(args[2]);
    }
    assert SplitOn("2,x", ',') == ["2", "x"] by {
      SplitJoin(["2", "x"], ',');
      assert JoinWith(["2", "x"], ',') == "2,x";
    }
  }
}
