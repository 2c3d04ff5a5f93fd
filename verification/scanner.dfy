/**
 * The closing-delimiter search of the auto-render extension (`findEndOfMath`).
 *
 * The scan walks the text from a start index while keeping a brace level.
 * At every position it examines, the delimiter test comes first: when the
 * level is at most zero and the delimiter occurs there, that position is the
 * answer. Otherwise a backslash makes the scan skip the next character,
 * `{` raises the level and `}` lowers it.
 *
 * This module splits the scan into two parts. `Stops` is the
 * lexical walk alone (which positions are examined and at which level),
 * and it ignores the delimiter. The search then answers with the first stop
 * that is a hit.
 */
module MathScanner {
  import opened Results

  /** `delim` occurs in `text` at position `p`. */
  predicate OccursAt(text: string, delim: string, p: nat) {
    p + |delim| <= |text| && text[p..p + |delim|] == delim
  }

  /** A position the scan examines, with the brace level it holds there. */
  datatype Stop = Stop(pos: nat, level: int)

  /** The next position examined after `p`: a backslash escapes the following character. */
  function NextPos(text: string, p: nat): nat
    requires p < |text|
  {
    if text[p] == '\\' then p + 2 else p + 1
  }

  /** How the character at `p` changes the brace level (an escaped character is never read). */
  function BraceDelta(c: char): int {
    if c == '{' then 1 else if c == '}' then -1 else 0
  }

  /**
   * Every position the scan examines from `p` on, with its brace level,
   * when no delimiter ends the scan early.
   */
  function Stops(text: string, p: nat, level: int): (s: seq<Stop>)
    decreases |text| - p
    ensures forall k :: 0 <= k < |s| ==> p <= s[k].pos < |text|
    ensures |s| > 0 <==> p < |text|
    ensures |s| > 0 ==> s[0] == Stop(p, level)
    ensures forall k :: 0 <= k < |s| - 1 ==>
              s[k + 1] == Stop(NextPos(text, s[k].pos), s[k].level + BraceDelta(text[s[k].pos]))
  {
    if p >= |text| then []
    else [Stop(p, level)] + Stops(text, NextPos(text, p), level + BraceDelta(text[p]))
  }

  /** A stop at which the search ends: the level is closed and the delimiter occurs. */
  predicate Hit(text: string, delim: string, s: Stop) {
    s.level <= 0 && OccursAt(text, delim, s.pos)
  }

  /** `k` is the first stop of `s` at which the search ends. */
  predicate FirstHit(text: string, delim: string, s: seq<Stop>, k: int) {
    0 <= k < |s| && Hit(text, delim, s[k]) && forall j :: 0 <= j < k ==> !Hit(text, delim, s[j])
  }

  /** The search from position `p` with brace level `level`. */
  function EndFrom(delim: string, text: string, p: nat, level: int): (r: Option<nat>)
    decreases |text| - p
    ensures r.Some? ==> p <= r.value < |text| && OccursAt(text, delim, r.value)
  {
    if p >= |text| then None
    else if level <= 0 && OccursAt(text, delim, p) then Some(p)
    else EndFrom(delim, text, NextPos(text, p), level + BraceDelta(text[p]))
  }

  /** The search finds nothing exactly when no stop of the lexical walk is a hit. */
  lemma {:induction false} EndFromNone(delim: string, text: string, p: nat, level: int)
    ensures EndFrom(delim, text, p, level).None? ==>
              forall k :: 0 <= k < |Stops(text, p, level)| ==> !Hit(text, delim, Stops(text, p, level)[k])
    ensures (forall k :: 0 <= k < |Stops(text, p, level)| ==> !Hit(text, delim, Stops(text, p, level)[k])) ==>
              EndFrom(delim, text, p, level).None?
    decreases |text| - p
  {
    var s := Stops(text, p, level);
    if p < |text| {
      if level <= 0 && OccursAt(text, delim, p) {
        assert Hit(text, delim, s[0]);
      } else {
        var q, l := NextPos(text, p), level + BraceDelta(text[p]);
        var t := Stops(text, q, l);
        EndFromNone(delim, text, q, l);
        assert s == [Stop(p, level)] + t;
        if forall k :: 0 <= k < |s| ==> !Hit(text, delim, s[k]) {
          forall k | 0 <= k < |t|
            ensures !Hit(text, delim, t[k])
          {
            assert t[k] == s[k + 1];
          }
        }
        if EndFrom(delim, text, q, l).None? {
          forall k | 0 <= k < |s|
            ensures !Hit(text, delim, s[k])
          {
            if k > 0 {
              assert s[k] == t[k - 1];
            }
          }
        }
      }
    }
  }

  /** When the search answers, its answer is the position of the first stop that is a hit. */
  lemma {:induction false} EndFromFirstHit(delim: string, text: string, p: nat, level: int)
    requires EndFrom(delim, text, p, level).Some?
    ensures exists k :: FirstHit(text, delim, Stops(text, p, level), k) &&
                        Stops(text, p, level)[k].pos == EndFrom(delim, text, p, level).value
    decreases |text| - p
  {
    var s := Stops(text, p, level);
    if level <= 0 && OccursAt(text, delim, p) {
      assert FirstHit(text, delim, s, 0);
    } else {
      var q, l := NextPos(text, p), level + BraceDelta(text[p]);
      EndFromFirstHit(delim, text, q, l);
      assert s == [Stop(p, level)] + Stops(text, q, l);
      var k :| FirstHit(text, delim, Stops(text, q, l), k) && Stops(text, q, l)[k].pos == EndFrom(delim, text, q, l).value;
      assert FirstHit(text, delim, s, k + 1);
    }
  }

  /** `findEndOfMath(delimiter, text, startIndex)`, with "not found" as `None`. */
  function EndOfMath(delim: string, text: string, start: nat): (r: Option<nat>)
    ensures r.Some? ==> start <= r.value < |text| && OccursAt(text, delim, r.value)
    ensures start < |text| && OccursAt(text, delim, start) ==> r == Some(start)
    ensures start >= |text| ==> r.None?
  {
    EndFrom(delim, text, start, 0)
  }

  /**
   * `findEndOfMath` as the source writes it: an index loop returning -1
   * when no closing delimiter is found.
   */
  method FindEndOfMath(delim: string, text: string, startIndex: nat) returns (r: int)
    ensures r == -1 <==> EndOfMath(delim, text, startIndex).None?
    ensures r != -1 ==> r >= 0 && EndOfMath(delim, text, startIndex) == Some(r)
    ensures r != -1 ==> startIndex <= r && r + |delim| <= |text| && text[r..r + |delim|] == delim
  {
    var index: nat := startIndex;
    var braceLevel := 0;
    while index < |text|
      invariant EndFrom(delim, text, index, braceLevel) == EndOfMath(delim, text, startIndex)
      decreases |text| - index
    {
      ghost var i0, l0 := index, braceLevel;
      ghost var before := EndFrom(delim, text, index, braceLevel);
      ghost var next := EndFrom(delim, text, NextPos(text, index), braceLevel + BraceDelta(text[index]));
      var character := text[index];
      if braceLevel <= 0 && index + |delim| <= |text| && text[index..index + |delim|] == delim {
        assert OccursAt(text, delim, index);
        return index;
      }
      assert before == next;
      if character == '\\' {
        index := index + 1;
      } else if character == '{' {
        braceLevel := braceLevel + 1;
      } else if character == '}' {
        braceLevel := braceLevel - 1;
      }
      index := index + 1;
      assert index == NextPos(text, i0) && braceLevel == l0 + BraceDelta(text[i0]);
    }
    return -1;
  }

  /** Net count of `{` minus `}` over the characters at the given stops. */
  function NetBraces(text: string, s: seq<Stop>): int
    requires forall k :: 0 <= k < |s| ==> s[k].pos < |text|
  {
    if s == [] then 0 else NetBraces(text, s[..|s| - 1]) + BraceDelta(text[s[|s| - 1].pos])
  }

  /**
   * The level held at a stop is the starting level plus the net count of
   * unescaped braces before it: only characters the scan examines count.
   */
  lemma {:induction false} LevelCountsUnescapedBraces(text: string, p: nat, level: int, k: nat)
    requires k < |Stops(text, p, level)|
    ensures Stops(text, p, level)[k].level == level + NetBraces(text, Stops(text, p, level)[..k])
  {
    var s := Stops(text, p, level);
    if k > 0 {
      LevelCountsUnescapedBraces(text, p, level, k - 1);
      assert s[..k][..k - 1] == s[..k - 1];
    }
  }

  /**
   * The character right after an examined backslash is never examined:
   * it is never compared with the delimiter, nor counted as a brace.
   */
  lemma {:induction false} EscapedCharNeverExamined(text: string, p: nat, level: int, k: nat)
    requires k < |Stops(text, p, level)|
    requires text[Stops(text, p, level)[k].pos] == '\\'
    ensures forall j :: 0 <= j < |Stops(text, p, level)| ==>
              Stops(text, p, level)[j].pos != Stops(text, p, level)[k].pos + 1
  {
    var s := Stops(text, p, level);
    forall j | 0 <= j < |s|
      ensures s[j].pos != s[k].pos + 1
    {
      if j <= k {
        StopsIncreasing(text, p, level, j, k);
      } else {
        StopsIncreasing(text, p, level, k + 1, j);
      }
    }
  }

  /** Stops are visited left to right. */
  lemma {:induction false} StopsIncreasing(text: string, p: nat, level: int, i: nat, j: nat)
    requires i <= j < |Stops(text, p, level)|
    ensures Stops(text, p, level)[i].pos + (j - i) <= Stops(text, p, level)[j].pos
    decreases j - i
  {
    if i < j {
      StopsIncreasing(text, p, level, i, j - 1);
    }
  }

  /** Within a prefix of the text, occurrences are the same as in the whole text. */
  lemma OccursInPrefix(delim: string, text: string, t: string, p: nat)
    requires |t| <= |text| && t == text[..|t|]
    ensures p + |delim| <= |t| ==> (OccursAt(t, delim, p) <==> OccursAt(text, delim, p))
  {
    if p + |delim| <= |t| {
      assert t[p..p + |delim|] == text[p..p + |delim|];
    }
  }

  /**
   * Scanning a prefix of the text that still contains the closing delimiter
   * finds the same closing delimiter: the search never looks past its answer.
   */
  lemma {:induction false} EndFromPrefix(delim: string, text: string, t: string, p: nat, level: int, e: nat)
    requires EndFrom(delim, text, p, level) == Some(e)
    requires e + |delim| <= |t| <= |text| && e < |t| && t == text[..|t|]
    ensures EndFrom(delim, t, p, level) == Some(e)
    decreases |text| - p
  {
    if level <= 0 && OccursAt(text, delim, p) {
      assert p == e;
      OccursInPrefix(delim, text, t, p);
    } else {
      assert p < e;
      OccursInPrefix(delim, text, t, p);
      assert t[p] == text[p];
      EndFromPrefix(delim, text, t, NextPos(text, p), level + BraceDelta(text[p]), e);
    }
  }
}
