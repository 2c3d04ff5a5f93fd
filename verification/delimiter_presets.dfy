/** The delimiter presets of the auto-render extension and `delimitersFromKey`. */
module DelimiterPresets {
  import opened MathScanner
  import opened Segmentation

  /** The AMS environments, plus `\ref{…}` and `\eqref{…}` as inline math. */
  const AmsDelimiters: seq<Delimiter> := AmsEnvironments + AmsReferences

  /** The display environments of the AMS list. */
  const AmsEnvironments: seq<Delimiter> := [
    Delimiter("\\begin{equation}", "\\end{equation}", true),
    Delimiter("\\begin{equation*}", "\\end{equation*}", true),
    Delimiter("\\begin{align}", "\\end{align}", true),
    Delimiter("\\begin{align*}", "\\end{align*}", true),
    Delimiter("\\begin{alignat}", "\\end{alignat}", true),
    Delimiter("\\begin{alignat*}", "\\end{alignat*}", true),
    Delimiter("\\begin{gather}", "\\end{gather}", true),
    Delimiter("\\begin{gather*}", "\\end{gather*}", true),
    Delimiter("\\begin{CD}", "\\end{CD}", true)
  ]

  /** The references of the AMS list, rendered inline. */
  const AmsReferences: seq<Delimiter> := [
    Delimiter("\\ref{", "}", false),
    Delimiter("\\eqref{", "}", false)
  ]

  /** The default list: `$$`, `\(`, the AMS environments and references, then `\[`. */
  const DefaultDelimiters: seq<Delimiter> :=
    [ Delimiter("$$", "$$", true),
      Delimiter("\\(", "\\)", false) ]
    + AmsDelimiters
    + [ Delimiter("\\[", "\\]", true) ]

  /** The `"$"` first-draft preset: `$$` and `` $` `` come before `$`. */
  const DollarDelimiters: seq<Delimiter> := [
    Delimiter("$$", "$$", true),
    Delimiter("$`", "`$", false),
    Delimiter("$", "$", false)
  ]

  /** The `"("` first-draft preset. */
  const ParenDelimiters: seq<Delimiter> := [
    Delimiter("\\[", "\\]", true),
    Delimiter("\\(", "\\)", false)
  ]

  /** `delimitersFromKey(key)`: unrecognised keys fall back to the default list. */
  function DelimitersFromKey(key: string): (r: seq<Delimiter>)
    ensures key in PresetKeys || r == DefaultDelimiters
    ensures WellFormed(r)
  {
    DefaultIsGood();
    DollarIsGood();
    ParenIsGood();
    AmsIsGood();
    DollarAmsIsGood();
    ParenAmsIsGood();
    AllIsGood();
    if key == "$" then DollarDelimiters
    else if key == "(" then ParenDelimiters
    else if key == "$+" then DollarDelimiters + AmsDelimiters
    else if key == "(+" then ParenDelimiters + AmsDelimiters
    else if key == "ams" then AmsDelimiters
    else if key == "all" then ParenDelimiters + DollarDelimiters + AmsDelimiters
    else DefaultDelimiters
  }

  /** The keys `delimitersFromKey` recognises. */
  const PresetKeys: set<string> := {"$", "(", "$+", "(+", "ams", "all"}

  /** Any key outside the recognised ones selects the default list. */
  lemma UnknownKeyIsDefault(key: string)
    requires key !in PresetKeys
    ensures DelimitersFromKey(key) == DefaultDelimiters
  {
  }

  /** Every left delimiter of a list is non-empty and every pair is well ordered. */
  predicate GoodPreset(delims: seq<Delimiter>) {
    WellFormed(delims) && PrefixOrdered(delims)
  }

  /** A strict prefix agrees with the longer string at its second and last characters. */
  lemma PrefixProbe(a: string, b: string)
    ensures ProperPrefix(a, b) && |a| >= 2 ==> b[1] == a[1] && b[|a| - 1] == a[|a| - 1]
  {
    if ProperPrefix(a, b) && |a| >= 2 {
      assert b[..|a|][1] == a[1];
      assert b[..|a|][|a| - 1] == a[|a| - 1];
    }
  }

  /** The probe, for every pair of left delimiters of a list. */
  lemma ProbeAll(l: seq<Delimiter>)
    ensures forall i, j :: 0 <= i < |l| && 0 <= j < |l| && ProperPrefix(l[i].left, l[j].left) && |l[i].left| >= 2 ==>
              l[j].left[1] == l[i].left[1] && l[j].left[|l[i].left| - 1] == l[i].left[|l[i].left| - 1]
  {
    forall i, j | 0 <= i < |l| && 0 <= j < |l|
      ensures ProperPrefix(l[i].left, l[j].left) && |l[i].left| >= 2 ==>
              l[j].left[1] == l[i].left[1] && l[j].left[|l[i].left| - 1] == l[i].left[|l[i].left| - 1]
    {
      PrefixProbe(l[i].left, l[j].left);
    }
  }

  lemma DefaultIsGood() ensures GoodPreset(DefaultDelimiters) {
    var head := [Delimiter("$$", "$$", true), Delimiter("\\(", "\\)", false)];
    var tail := [Delimiter("\\[", "\\]", true)];
    ProbeAll(head);
    AmsIsGood();
    assert CharsAt(head, 1, {'$', '('}) && CharsAt(tail, 1, {'['});
    AmsSecondChars();
    Separated(head, AmsDelimiters, 1, {'$', '('}, {'b', 'r', 'e'});
    Separated(head, tail, 1, {'$', '('}, {'['});
    Separated(AmsDelimiters, tail, 1, {'b', 'r', 'e'}, {'['});
    NoCrossAppend(head, AmsDelimiters, tail);
    PrefixOrderedAppend(AmsDelimiters, tail);
    PrefixOrderedAppend(head, AmsDelimiters + tail);
    assert DefaultDelimiters == head + (AmsDelimiters + tail);
  }
  lemma DollarIsGood() ensures GoodPreset(DollarDelimiters) { ProbeAll(DollarDelimiters); }
  lemma ParenIsGood() ensures GoodPreset(ParenDelimiters) { ProbeAll(ParenDelimiters); }
  lemma AmsIsGood() ensures GoodPreset(AmsDelimiters) {
    EnvironmentsAreGood();
    ProbeAll(AmsReferences);
    AmsPartsSecondChars();
    Separated(AmsEnvironments, AmsReferences, 1, {'b'}, {'r', 'e'});
    PrefixOrderedAppend(AmsEnvironments, AmsReferences);
  }
  lemma DollarAmsIsGood() ensures GoodPreset(DollarDelimiters + AmsDelimiters) {
    DollarIsGood();
    AmsIsGood();
    DollarAmsSeparated();
    PrefixOrderedAppend(DollarDelimiters, AmsDelimiters);
  }
  lemma ParenAmsIsGood() ensures GoodPreset(ParenDelimiters + AmsDelimiters) {
    ParenIsGood();
    AmsIsGood();
    ParenAmsSeparated();
    PrefixOrderedAppend(ParenDelimiters, AmsDelimiters);
  }
  lemma AllIsGood() ensures GoodPreset(ParenDelimiters + DollarDelimiters + AmsDelimiters) {
    ParenIsGood();
    DollarAmsIsGood();
    ParenAmsSeparated();
    assert CharsAt(ParenDelimiters, 0, {'\\'}) && CharsAt(DollarDelimiters, 0, {'$'});
    Separated(ParenDelimiters, DollarDelimiters, 0, {'\\'}, {'$'});
    NoCrossAppend(ParenDelimiters, DollarDelimiters, AmsDelimiters);
    PrefixOrderedAppend(ParenDelimiters, DollarDelimiters + AmsDelimiters);
    assert ParenDelimiters + DollarDelimiters + AmsDelimiters == ParenDelimiters + (DollarDelimiters + AmsDelimiters);
  }

  lemma DollarAmsSeparated() ensures NoCrossPrefix(DollarDelimiters, AmsDelimiters) {
    assert CharsAt(DollarDelimiters, 0, {'$'}) && CharsAt(AmsDelimiters, 0, {'\\'});
    Separated(DollarDelimiters, AmsDelimiters, 0, {'$'}, {'\\'});
  }

  lemma ParenAmsSeparated() ensures NoCrossPrefix(ParenDelimiters, AmsDelimiters) {
    assert CharsAt(ParenDelimiters, 1, {'[', '('});
    AmsSecondChars();
    Separated(ParenDelimiters, AmsDelimiters, 1, {'[', '('}, {'b', 'r', 'e'});
  }

  /** The AMS lefts all start with a backslash followed by `b`, `r` or `e`. */
  lemma AmsSecondChars()
    ensures CharsAt(AmsDelimiters, 1, {'b', 'r', 'e'})
  {
    AmsPartsSecondChars();
    forall i | 0 <= i < |AmsDelimiters|
      ensures |AmsDelimiters[i].left| > 1 && AmsDelimiters[i].left[1] in {'b', 'r', 'e'}
    {
      if i < |AmsEnvironments| {
        assert AmsDelimiters[i] == AmsEnvironments[i];
      } else {
        assert AmsDelimiters[i] == AmsReferences[i - |AmsEnvironments|];
      }
    }
  }

  /** The environments continue with `b` (`\\begin`), the references with `r` or `e`. */
  lemma AmsPartsSecondChars()
    ensures CharsAt(AmsEnvironments, 1, {'b'}) && CharsAt(AmsReferences, 1, {'r', 'e'})
  {
  }

  /** `s` ends with its only closing brace. */
  predicate BraceClosed(s: string) {
    |s| > 0 && s[|s| - 1] == '}' && '}' !in s[..|s| - 1]
  }

  /** A string closed by its only brace is never a proper prefix of another such string. */
  lemma BraceClosedNoPrefix(x: string, y: string)
    ensures BraceClosed(x) && BraceClosed(y) ==> !ProperPrefix(x, y)
  {
    PrefixAgreesAt(x, y, |x| - 1);
    BraceBeforeEnd(y, |x| - 1);
  }

  /** A brace before the last position lies in the part that must be brace-free. */
  lemma BraceBeforeEnd(y: string, k: int)
    ensures 0 <= k < |y| - 1 && y[k] == '}' ==> '}' in y[..|y| - 1]
  {
    if 0 <= k < |y| - 1 && y[k] == '}' {
      assert y[..|y| - 1][k] == '}';
    }
  }

  /** The `\\begin{…}` lefts each end with their only closing brace. */
  lemma EnvironmentsBraceClosed()
    ensures forall i :: 0 <= i < |AmsEnvironments| ==> BraceClosed(AmsEnvironments[i].left)
  {
  }

  /** Every `\\begin{…}` left is closed by its only brace, so none prefixes another. */
  lemma EnvironmentsAreGood()
    ensures NoCrossPrefix(AmsEnvironments, AmsEnvironments)
    ensures GoodPreset(AmsEnvironments)
  {
    var l := AmsEnvironments;
    EnvironmentsBraceClosed();
    forall i, j | 0 <= i < |l| && 0 <= j < |l|
      ensures !ProperPrefix(l[i].left, l[j].left)
    {
      BraceClosedNoPrefix(l[i].left, l[j].left);
    }
  }

  /** No left of `a` is a proper prefix of a left of `b`. */
  predicate NoCrossPrefix(a: seq<Delimiter>, b: seq<Delimiter>) {
    forall i, j :: 0 <= i < |a| && 0 <= j < |b| ==> !ProperPrefix(a[i].left, b[j].left)
  }

  /** Every left of the list has a character from `cs` at position `k`. */
  predicate CharsAt(l: seq<Delimiter>, k: nat, cs: set<char>) {
    forall i :: 0 <= i < |l| ==> |l[i].left| > k && l[i].left[k] in cs
  }

  /** Lists whose lefts differ at a fixed position cannot prefix one another. */
  lemma Separated(a: seq<Delimiter>, b: seq<Delimiter>, k: nat, ca: set<char>, cb: set<char>)
    requires CharsAt(a, k, ca) && CharsAt(b, k, cb) && ca * cb == {}
    ensures NoCrossPrefix(a, b)
  {
    forall i, j | 0 <= i < |a| && 0 <= j < |b|
      ensures !ProperPrefix(a[i].left, b[j].left)
    {
      PrefixAgreesAt(a[i].left, b[j].left, k);
      assert a[i].left[k] in ca && b[j].left[k] in cb;
      assert a[i].left[k] !in ca * cb;
    }
  }

  /** A proper prefix agrees with the longer string at each of its positions. */
  lemma PrefixAgreesAt(x: string, y: string, k: int)
    ensures ProperPrefix(x, y) && 0 <= k < |x| ==> y[k] == x[k]
  {
    if ProperPrefix(x, y) && 0 <= k < |x| {
      assert y[..|x|][k] == x[k];
    }
  }

  /** The cross condition distributes over a concatenated second list. */
  lemma NoCrossAppend(a: seq<Delimiter>, b: seq<Delimiter>, c: seq<Delimiter>)
    requires NoCrossPrefix(a, b) && NoCrossPrefix(a, c) && NoCrossPrefix(b, c)
    ensures NoCrossPrefix(a, b + c)
  {
    forall i, j | 0 <= i < |a| && 0 <= j < |b + c|
      ensures !ProperPrefix(a[i].left, (b + c)[j].left)
    {
      if j < |b| {
        assert (b + c)[j] == b[j];
      } else {
        assert (b + c)[j] == c[j - |b|];
      }
    }
  }

  /**
   * Concatenating two good lists is good when no left of the first list is
   * a proper prefix of a left of the second, which would come too late.
   */
  lemma PrefixOrderedAppend(a: seq<Delimiter>, b: seq<Delimiter>)
    requires GoodPreset(a) && GoodPreset(b) && NoCrossPrefix(a, b)
    ensures GoodPreset(a + b)
  {
    var l := a + b;
    forall i | 0 <= i < |l| ensures l[i].left != "" {
      if i < |a| { assert l[i] == a[i]; } else { assert l[i] == b[i - |a|]; }
    }
    forall i, j | 0 <= i < |l| && 0 <= j < |l| && ProperPrefix(l[i].left, l[j].left)
      ensures j < i
    {
      assert i < |a| ==> l[i] == a[i];
      assert i >= |a| ==> l[i] == b[i - |a|];
      assert j < |a| ==> l[j] == a[j];
      assert j >= |a| ==> l[j] == b[j - |a|];
    }
  }

  /**
   * Every preset is usable by the splitter and orders a left delimiter after
   * every left it is a proper prefix of, so `$` never pre-empts `$$`.
   */
  lemma PresetsAreGood(key: string)
    ensures GoodPreset(DelimitersFromKey(key))
  {
    DefaultIsGood();
    DollarIsGood();
    ParenIsGood();
    AmsIsGood();
    DollarAmsIsGood();
    ParenAmsIsGood();
    AllIsGood();
  }
}
