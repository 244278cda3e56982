/**
 * The helpers of sqf/base_type.py that every parsed element relies on:
 * the (line, column) coordinate of a piece of script text, the field-wise
 * equality of two objects' attribute dictionaries, and the position of an
 * element that has no parent.
 */
module BaseType {
  import opened Wrappers

  /** A (line, column) pair as returned by `get_coord`. */
  datatype Coord = Coord(line: nat, column: nat)

  /** `s.split('\n')`: the pieces between the newlines, in order. */
  function SplitLines(s: string): (r: seq<string>)
    ensures |r| >= 1
    decreases |s|
  {
    if s == [] then [""]
    else
      var rest := SplitLines(s[1..]);
      if s[0] == '\n' then [""] + rest else [[s[0]] + rest[0]] + rest[1..]
  }

  /** `"\n".join(lines)`. */
  function JoinLines(lines: seq<string>): string
    decreases |lines|
  {
    if lines == [] then "" else if |lines| == 1 then lines[0] else lines[0] + "\n" + JoinLines(lines[1..])
  }

  /** The number of occurrences of `c` in `s`. */
  function CountChar(s: string, c: char): nat
    decreases |s|
  {
    if s == [] then 0 else (if s[0] == c then 1 else 0) + CountChar(s[1..], c)
  }

  /** The index just after the last newline of `s`, or 0 when there is none. */
  function AfterLastNewline(s: string): (r: nat)
    ensures r <= |s|
    ensures r == 0 || s[r - 1] == '\n'
    ensures forall i :: r <= i < |s| ==> s[i] != '\n'
    decreases |s|
  {
    if s == [] then 0
    else if s[|s| - 1] == '\n' then |s|
    else AfterLastNewline(s[..|s| - 1])
  }

  /** `get_coord` (lines 14-18): the number of lines and the length of the last one. */
  function GetCoord(s: string): (r: Coord)
  {
    var lines := SplitLines(s);
    Coord(|lines|, |lines[|lines| - 1]|)
  }

  /** Splitting at the newlines and joining again gives the text back. */
  lemma {:induction false} SplitLinesRoundTrip(s: string)
    ensures JoinLines(SplitLines(s)) == s
    decreases |s|
  {
    if s != [] {
      SplitLinesRoundTrip(s[1..]);
      var rest := SplitLines(s[1..]);
      assert s == [s[0]] + s[1..];
      if s[0] != '\n' && |rest| > 1 {
        var r := SplitLines(s);
        assert r[1..] == rest[1..];
        assert JoinLines(r) == [s[0]] + rest[0] + "\n" + JoinLines(rest[1..]);
      }
    }
  }

  /** No piece holds a newline. */
  lemma {:induction false} SplitLinesNoNewline(s: string)
    ensures forall i, j :: 0 <= i < |SplitLines(s)| && 0 <= j < |SplitLines(s)[i]| ==> SplitLines(s)[i][j] != '\n'
    decreases |s|
  {
    if s != [] && s[0] != '\n' {
      SplitLinesNoNewline(s[1..]);
      var rest := SplitLines(s[1..]);
      var r := SplitLines(s);
      forall i, j | 0 <= i < |r| && 0 <= j < |r[i]| ensures r[i][j] != '\n' {
        if i == 0 && j > 0 {
          assert r[i][j] == rest[0][j - 1];
        } else if i > 0 {
          assert r[i] == rest[i];
        }
      }
    } else if s != [] {
      SplitLinesNoNewline(s[1..]);
    }
  }

  /** One more line than newlines. */
  lemma {:induction false} SplitLinesCount(s: string)
    ensures |SplitLines(s)| == CountChar(s, '\n') + 1
    decreases |s|
  {
    if s != [] {
      SplitLinesCount(s[1..]);
    }
  }

  /** `c` is counted exactly when it occurs. */
  lemma {:induction false} CountCharPositive(s: string, c: char)
    ensures CountChar(s, c) > 0 <==> exists i :: 0 <= i < |s| && s[i] == c
    decreases |s|
  {
    if s != [] {
      CountCharPositive(s[1..], c);
      if exists i :: 0 <= i < |s[1..]| && s[1..][i] == c {
        var i :| 0 <= i < |s[1..]| && s[1..][i] == c;
        assert s[i + 1] == c;
      }
      if exists i :: 0 <= i < |s| && s[i] == c {
        var i :| 0 <= i < |s| && s[i] == c;
        if i > 0 {
          assert s[1..][i - 1] == c;
        }
      }
    }
  }

  /** The last piece is the text after the last newline. */
  lemma {:induction false} SplitLinesLast(s: string)
    ensures var r := SplitLines(s); r[|r| - 1] == s[AfterLastNewline(s)..]
    decreases |s|
  {
    if s != [] {
      SplitLinesLast(s[1..]);
      var rest := SplitLines(s[1..]);
      var k := AfterLastNewline(s[1..]);
      LastNewlineShift(s);
      SplitLinesCount(s[1..]);
      CountCharPositive(s[1..], '\n');
      if |rest| > 1 {
        var i :| 0 <= i < |s[1..]| && s[1..][i] == '\n';
        assert k > 0;
        assert s[AfterLastNewline(s)..] == s[1..][k..];
      } else if s[0] == '\n' {
        assert s[AfterLastNewline(s)..] == s[1..][k..];
      } else {
        assert k == 0;
        assert s == [s[0]] + s[1..];
      }
    }
  }

  /** Dropping a first character shifts the position after the last newline by one, unless none is left. */
  lemma {:induction false} LastNewlineShift(s: string)
    requires s != []
    ensures var k := AfterLastNewline(s[1..]);
      if k == 0 && s[0] != '\n' then AfterLastNewline(s) == 0 else AfterLastNewline(s) == k + 1
  {
    var k := AfterLastNewline(s[1..]);
    var r := AfterLastNewline(s);
    if r > 1 {
      assert s[1..][r - 2] == '\n';
      assert forall i :: r - 1 <= i < |s| - 1 ==> s[1..][i] == s[i + 1];
    } else if r == 1 {
      assert s[0] == '\n';
      assert forall i :: 0 <= i < |s| - 1 ==> s[1..][i] == s[i + 1];
    }
    if k > 0 {
      assert s[k] == s[1..][k - 1];
      assert forall i :: k + 1 <= i < |s| ==> s[i] == s[1..][i - 1];
    } else {
      assert forall i :: 1 <= i < |s| ==> s[i] == s[1..][i - 1];
    }
  }

  /** `get_coord` gives the number of newlines plus one, and the length after the last newline. */
  lemma {:induction false} GetCoordMeaning(s: string)
    ensures GetCoord(s).line == CountChar(s, '\n') + 1
    ensures GetCoord(s).column == |s| - AfterLastNewline(s)
  {
    SplitLinesCount(s);
    LastLineLength(s);
  }

  lemma {:induction false} LastLineLength(s: string)
    ensures var r := SplitLines(s); |r[|r| - 1]| == |s| - AfterLastNewline(s)
  {
    SplitLinesLast(s);
  }

  /** The attributes of a dictionary other than the ignored ones. */
  function Restrict<K, V>(d: map<K, V>, ignored: set<K>): map<K, V>
  {
    map k | k in d && k !in ignored :: d[k]
  }

  /**
   * `equal_dicts` (lines 3-11): every non-ignored entry of `d1` is in `d2`
   * with an equal value, and every non-ignored key of `d2` is in `d1`.
   */
  function EqualDicts<K, V(==)>(d1: map<K, V>, d2: map<K, V>, ignoreKeys: seq<K>): (r: bool)
    ensures r <==> Restrict(d1, set k | k in ignoreKeys) == Restrict(d2, set k | k in ignoreKeys)
  {
    var ignored := set k | k in ignoreKeys;
    var first := forall k1 | k1 in d1 && k1 !in ignored :: k1 in d2 && d2[k1] == d1[k1];
    var second := forall k2 | k2 in d2 && k2 !in ignored :: k2 in d1;
    assert first && second ==> Restrict(d1, ignored) == Restrict(d2, ignored) by {
      if first && second {
        assert Restrict(d1, ignored).Keys == Restrict(d2, ignored).Keys;
      }
    }
    assert Restrict(d1, ignored) == Restrict(d2, ignored) ==> first && second by {
      if Restrict(d1, ignored) == Restrict(d2, ignored) {
        forall k1 | k1 in d1 && k1 !in ignored ensures k1 in d2 && d2[k1] == d1[k1] {
          assert k1 in Restrict(d1, ignored);
        }
        forall k2 | k2 in d2 && k2 !in ignored ensures k2 in d1 {
          assert k2 in Restrict(d2, ignored);
        }
      }
    }
    first && second
  }

  lemma {:induction false} EqualDictsReflexive<K, V>(d: map<K, V>, ignoreKeys: seq<K>)
    ensures EqualDicts(d, d, ignoreKeys)
  {
  }

  lemma {:induction false} EqualDictsSymmetric<K, V>(d1: map<K, V>, d2: map<K, V>, ignoreKeys: seq<K>)
    ensures EqualDicts(d1, d2, ignoreKeys) == EqualDicts(d2, d1, ignoreKeys)
  {
  }

  lemma {:induction false} EqualDictsTransitive<K, V>(d1: map<K, V>, d2: map<K, V>, d3: map<K, V>, ignoreKeys: seq<K>)
    requires EqualDicts(d1, d2, ignoreKeys) && EqualDicts(d2, d3, ignoreKeys)
    ensures EqualDicts(d1, d3, ignoreKeys)
  {
  }

  /** Ignored keys make no difference, whatever they hold. */
  lemma {:induction false} EqualDictsIgnores<K, V>(d1: map<K, V>, d2: map<K, V>, ignoreKeys: seq<K>, k: K, v: V)
    requires k in ignoreKeys
    ensures EqualDicts(d1[k := v], d2, ignoreKeys) == EqualDicts(d1, d2, ignoreKeys)
  {
    var ignored := set k | k in ignoreKeys;
    assert Restrict(d1[k := v], ignored) == Restrict(d1, ignored);
  }

  /**
   * `BaseType.position` (lines 44-48): `(1, 1)` without a parent, otherwise
   * the coordinate at the end of the parent's text up to this element
   * (`upTo`, the result of `string_up_to`, which is not part of this model).
   */
  function Position(upTo: Option<string>): (r: Coord)
    ensures upTo.None? ==> r == Coord(1, 1)
    ensures upTo.Some? ==> r.line == CountChar(upTo.value, '\n') + 1
    ensures upTo.Some? ==> r.column == |upTo.value| - AfterLastNewline(upTo.value)
  {
    match upTo
    case None => Coord(1, 1)
    case Some(s) => GetCoordMeaning(s); GetCoord(s)
  }
}
