/**
 * The helpers of sqf/parser.py around statement parsing: `rindex`, the rule
 * that decides where a statement ends, the `#ifdef`/`#endif` balance and
 * the splitting of an array's tokens at its commas.
 */
module SqfParser {
  import opened Wrappers
  import opened SqfTypes
  import opened BaseType

  /**
   * A token as these helpers see it: a parser keyword (`;`, `,`, brackets),
   * a preprocessor word (`#ifdef`, `#endif`, ...), the end of the file, or
   * any other token.
   */
  datatype Token = ParserKeyword(word: string) | Preprocessor(word: string) | EndOfFile | Other(text: string)

  /**
   * Python `==` on tokens: keywords and preprocessor words compare like
   * `Keyword` (same class, lower-cased words); the rest structurally.
   */
  predicate Same(a: Token, b: Token)
  {
    match a
    case ParserKeyword(w) => b.ParserKeyword? && Lower(w) == Lower(b.word)
    case Preprocessor(w) => b.Preprocessor? && Lower(w) == Lower(b.word)
    case _ => a == b
  }

  /** The list reversed (`the_list[::-1]`). */
  function Reverse(xs: seq<Token>): (r: seq<Token>)
    ensures |r| == |xs| && forall i :: 0 <= i < |xs| ==> r[i] == xs[|xs| - 1 - i]
  {
    seq(|xs|, i requires 0 <= i < |xs| => xs[|xs| - 1 - i])
  }

  /** `the_list.index(value)`; `None` stands for the `ValueError` of a missing value. */
  function FirstMatch(xs: seq<Token>, v: Token): (r: Option<nat>)
    ensures r.None? <==> forall i :: 0 <= i < |xs| ==> !Same(xs[i], v)
    ensures r.Some? ==> r.value < |xs| && Same(xs[r.value], v) && forall i :: 0 <= i < r.value ==> !Same(xs[i], v)
    decreases |xs|
  {
    if xs == [] then None
    else if Same(xs[0], v) then Some(0)
    else
      var k := FirstMatch(xs[1..], v);
      if k.None? then None else Some(k.value + 1)
  }

  /**
   * `rindex(the_list, value)` (lines 15-16), through the reversed list: the
   * last position holding `value`; `None` when it does not occur.
   */
  function Rindex(xs: seq<Token>, v: Token): (r: Option<nat>)
    ensures r.None? <==> forall i :: 0 <= i < |xs| ==> !Same(xs[i], v)
    ensures r.Some? ==> r.value < |xs| && Same(xs[r.value], v)
    ensures r.Some? ==> forall i :: r.value < i < |xs| ==> !Same(xs[i], v)
  {
    var rev := Reverse(xs);
    match FirstMatch(rev, v)
    case None =>
      assert forall i :: 0 <= i < |xs| ==> xs[i] == rev[|xs| - 1 - i];
      None
    case Some(k) =>
      assert forall i :: |xs| - 1 - k < i < |xs| ==> xs[i] == rev[|xs| - 1 - i];
      Some(|xs| - k - 1)
  }

  /** `token in stops`: some stop equals the token. */
  predicate Contains(stops: seq<Token>, token: Token)
  {
    stops != [] && (Same(stops[0], token) || Contains(stops[1..], token))
  }

  /** `STOP_KEYWORDS` (lines 26-29): `single` is `;` alone, `both` is `;` and `,`. */
  function Stops(single: bool): seq<Token>
  {
    if single then [ParserKeyword(";")] else [ParserKeyword(";"), ParserKeyword(",")]
  }

  /** `is_end_statement(token, state)` (lines 196-203); `state` is `None` outside any bracket. */
  predicate IsEndStatement(token: Token, state: Option<string>)
  {
    if state.None? || state.value in {"[]", "()", "{}"} then
      Contains(Stops(state == Some("[]")), token) || token.EndOfFile?
    else
      token.EndOfFile?
  }

  /** The keyword `w`, whatever its case. */
  predicate IsKeyword(token: Token, w: string)
  {
    token.ParserKeyword? && Lower(token.word) == w
  }

  lemma {:induction false} StopsMeaning(token: Token)
    ensures Contains(Stops(true), token) <==> IsKeyword(token, ";")
    ensures Contains(Stops(false), token) <==> IsKeyword(token, ";") || IsKeyword(token, ",")
  {
    assert Lower(";") == ";" && Lower(",") == ",";
    var one, two := Stops(true), Stops(false);
    assert one[1..] == [] && two[1..] == [ParserKeyword(",")] && two[1..][1..] == [];
  }

  /**
   * Inside `[]` only `;` ends a statement; outside brackets and inside `()`
   * or `{}` both `;` and `,` do; in any other state only the end of the file.
   */
  lemma {:induction false} IsEndStatementCases(token: Token, state: Option<string>)
    ensures state == Some("[]") ==> (IsEndStatement(token, state) <==> IsKeyword(token, ";") || token.EndOfFile?)
    ensures state.None? || state == Some("()") || state == Some("{}") ==>
      (IsEndStatement(token, state) <==> IsKeyword(token, ";") || IsKeyword(token, ",") || token.EndOfFile?)
    ensures state.Some? && state.value !in {"[]", "()", "{}"} ==> (IsEndStatement(token, state) <==> token.EndOfFile?)
  {
    StopsMeaning(token);
  }

  /** What a token adds to the `#ifdef`/`#endif` balance (lines 265-269). */
  function Delta(t: Token): int
  {
    (if Same(t, Preprocessor("#ifdef")) || Same(t, Preprocessor("#ifndef")) then 1 else 0)
    - (if Same(t, Preprocessor("#endif")) then 1 else 0)
  }

  /** The count of `#ifdef` and `#ifndef` minus the count of `#endif`. */
  function Difference(ts: seq<Token>): int
  {
    if ts == [] then 0 else Difference(ts[..|ts| - 1]) + Delta(ts[|ts| - 1])
  }

  /** `is_last_endif(if_def_tokens)` (lines 262-269). */
  method IsLastEndif(ifDefTokens: seq<Token>) returns (r: bool)
    ensures r <==> Difference(ifDefTokens) == 1
  {
    var difference := 0;
    for i := 0 to |ifDefTokens|
      invariant difference == Difference(ifDefTokens[..i])
    {
      var token := ifDefTokens[i];
      assert ifDefTokens[..i + 1][..i] == ifDefTokens[..i];
      if Same(token, Preprocessor("#ifdef")) || Same(token, Preprocessor("#ifndef")) {
        difference := difference + 1;
      }
      if Same(token, Preprocessor("#endif")) {
        difference := difference - 1;
      }
    }
    assert ifDefTokens[..|ifDefTokens|] == ifDefTokens;
    return difference == 1;
  }

  /** The balance of two stretches of tokens adds up. */
  lemma {:induction false} DifferenceAppend(a: seq<Token>, b: seq<Token>)
    ensures Difference(a + b) == Difference(a) + Difference(b)
    decreases |b|
  {
    if b == [] {
      assert a + b == a;
    } else {
      var b' := b[..|b| - 1];
      assert (a + b)[..|a + b| - 1] == a + b';
      DifferenceAppend(a, b');
    }
  }

  /** The three examples of lines 270-272. */
  lemma {:induction false} IfdefExamples(one: seq<Token>, two: seq<Token>, closed: seq<Token>)
    requires one == [Preprocessor("#ifdef")]
    requires two == [Preprocessor("#ifdef"), Preprocessor("#ifdef")]
    requires closed == [Preprocessor("#ifdef"), Preprocessor("#ifdef"), Preprocessor("#endif")]
    ensures Difference(one) == 1
    ensures Difference(two) != 1
    ensures Difference(closed) == 1
  {
    assert Lower("#ifdef")[1] == 'i' && Lower("#endif")[1] == 'e';
    assert |Lower("#ifdef")| != |Lower("#ifndef")|;
    assert Delta(Preprocessor("#ifdef")) == 1;
    assert Lower("#endif")[2] == 'n' && Lower("#ifndef")[2] == 'f';
    assert Delta(Preprocessor("#endif")) == -1;
    assert one[..0] == [];
    assert two[..1] == one && closed[..2] == two;
  }

  /** `token == ParserKeyword(',')`. */
  predicate IsComma(t: Token)
  {
    Same(t, ParserKeyword(","))
  }

  /** The comma-separated parts of `tokens`, left to right; without a comma, one part. */
  function Parts(ts: seq<Token>): (r: seq<seq<Token>>)
    ensures |r| >= 1
  {
    if ts == [] then [[]]
    else
      var init := Parts(ts[..|ts| - 1]);
      var t := ts[|ts| - 1];
      if IsComma(t) then init + [[]]
      else init[..|init| - 1] + [init[|init| - 1] + [t]]
  }

  /** How many commas `ts` holds. */
  function Commas(ts: seq<Token>): nat
  {
    if ts == [] then 0 else Commas(ts[..|ts| - 1]) + (if IsComma(ts[|ts| - 1]) then 1 else 0)
  }

  /** The parts joined back with `,` between them. */
  function Join(ps: seq<seq<Token>>): seq<Token>
    requires |ps| >= 1
  {
    if |ps| == 1 then ps[0] else Join(ps[..|ps| - 1]) + [ParserKeyword(",")] + ps[|ps| - 1]
  }

  /** One part per comma, plus one. */
  lemma {:induction false} PartsCount(ts: seq<Token>)
    ensures |Parts(ts)| == Commas(ts) + 1
  {
    if ts != [] {
      PartsCount(ts[..|ts| - 1]);
    }
  }

  /** No part holds a comma. */
  lemma {:induction false} PartsHaveNoComma(ts: seq<Token>)
    ensures forall j, k :: 0 <= j < |Parts(ts)| && 0 <= k < |Parts(ts)[j]| ==> !IsComma(Parts(ts)[j][k])
  {
    if ts != [] {
      PartsHaveNoComma(ts[..|ts| - 1]);
    }
  }

  /** A token equal to `,` is the keyword `,` itself. */
  lemma {:induction false} CommaWord(t: Token)
    requires IsComma(t)
    ensures t == ParserKeyword(",")
  {
    assert |t.word| == 1 && LowerChar(t.word[0]) == ',';
    assert t.word == [t.word[0]];
  }

  /** Joining the parts with commas gives the tokens back. */
  lemma {:induction false} PartsJoin(ts: seq<Token>)
    ensures Join(Parts(ts)) == ts
  {
    if ts != [] {
      var pre := ts[..|ts| - 1];
      var t := ts[|ts| - 1];
      var init := Parts(pre);
      PartsJoin(pre);
      assert ts == pre + [t];
      if IsComma(t) {
        CommaWord(t);
        var ps := init + [[]];
        assert ps[..|ps| - 1] == init;
      } else {
        var ps := init[..|init| - 1] + [init[|init| - 1] + [t]];
        if |init| == 1 {
          assert ps == [init[0] + [t]];
        } else {
          assert ps[..|ps| - 1] == init[..|init| - 1];
          JoinLast(init);
        }
      }
    }
  }

  lemma {:induction false} JoinLast(ps: seq<seq<Token>>)
    requires |ps| >= 2
    ensures Join(ps) == Join(ps[..|ps| - 1]) + [ParserKeyword(",")] + ps[|ps| - 1]
  {
  }

  /** The last part is empty exactly when the tokens are empty or end with a comma. */
  lemma {:induction false} LastPartEmpty(ts: seq<Token>)
    ensures Parts(ts)[|Parts(ts)| - 1] == [] <==> ts == [] || IsComma(ts[|ts| - 1])
  {
  }

  /** Reading one more token keeps every part before the last one. */
  lemma {:induction false} PartsStep(ts: seq<Token>, n: nat, j: nat)
    requires n < |ts| && j < |Parts(ts[..n])| - 1
    ensures j < |Parts(ts[..n + 1])| - 1 && Parts(ts[..n + 1])[j] == Parts(ts[..n])[j]
  {
    assert ts[..n + 1][..n] == ts[..n];
  }

  /** A finished part of a prefix is a part of the whole. */
  lemma {:induction false} PartsStable(ts: seq<Token>, n: nat, j: nat)
    requires n <= |ts| && j < |Parts(ts[..n])| - 1
    ensures j < |Parts(ts)| - 1 && Parts(ts)[j] == Parts(ts[..n])[j]
    decreases |ts| - n
  {
    if n < |ts| {
      PartsStep(ts, n, j);
      PartsStable(ts, n + 1, j);
    } else {
      assert ts[..n] == ts;
    }
  }

  /**
   * What `_analyze_array(tokens, analyze_tokens, tokens_until)` (lines
   * 529-548) returns: nothing for no tokens; an error at the end of
   * `tokens_until` when a part is empty; otherwise each part analysed.
   */
  function ArrayOf<R>(tokens: seq<Token>, analyze: seq<Token> -> R, tokensUntil: string): Result<seq<R>, Coord>
  {
    if tokens == [] then Ok([])
    else
      var ps := Parts(tokens);
      if [] in ps then Err(GetCoord(tokensUntil))
      else Ok(seq(|ps|, j requires 0 <= j < |ps| => analyze(ps[j])))
  }

  /** `_analyze_array` (lines 529-548), with `analyze_tokens` as a parameter. */
  method AnalyzeArray<R>(tokens: seq<Token>, analyze: seq<Token> -> R, tokensUntil: string) returns (r: Result<seq<R>, Coord>)
    ensures r == ArrayOf(tokens, analyze, tokensUntil)
  {
    var result: seq<R> := [];
    var part: seq<Token> := [];
    var firstCommaFound := false;
    for i := 0 to |tokens|
      invariant ArrayLoop(tokens, analyze, i, result, part, firstCommaFound)
    {
      var token := tokens[i];
      if IsComma(token) {
        firstCommaFound := true;
        if part == [] {
          ArrayEmptyPart(tokens, analyze, tokensUntil, i, result);
          return Err(GetCoord(tokensUntil));
        }
        ArrayComma(tokens, analyze, i, result, part);
        result := result + [analyze(part)];
        part := [];
      } else {
        ArrayOther(tokens, analyze, i, result, part, firstCommaFound);
        part := part + [token];
      }
    }
    ArrayEnd(tokens, analyze, tokensUntil, result, part, firstCommaFound);
    if part == [] && firstCommaFound {
      return Err(GetCoord(tokensUntil));
    } else if tokens != [] {
      result := result + [analyze(part)];
    }
    return Ok(result);
  }

  /**
   * The loop of `_analyze_array` after `i` tokens: `part` is the last part
   * so far, `result` holds the analysed parts before it, none of which is
   * empty, and a comma has been seen when there is more than one part.
   */
  ghost predicate ArrayLoop<R>(tokens: seq<Token>, analyze: seq<Token> -> R, i: nat, result: seq<R>, part: seq<Token>, found: bool)
  {
    && i <= |tokens|
    && var ps := Parts(tokens[..i]);
    && part == ps[|ps| - 1]
    && |result| == |ps| - 1
    && (forall j :: 0 <= j < |ps| - 1 ==> ps[j] != [] && result[j] == analyze(ps[j]))
    && found == (|ps| > 1)
  }

  lemma {:induction false} ArrayComma<R>(tokens: seq<Token>, analyze: seq<Token> -> R, i: nat, result: seq<R>, part: seq<Token>)
    requires i < |tokens| && IsComma(tokens[i]) && part != []
    requires ArrayLoop(tokens, analyze, i, result, part, |Parts(tokens[..i])| > 1)
    ensures ArrayLoop(tokens, analyze, i + 1, result + [analyze(part)], [], true)
  {
    assert tokens[..i + 1][..i] == tokens[..i];
  }

  lemma {:induction false} ArrayOther<R>(tokens: seq<Token>, analyze: seq<Token> -> R, i: nat, result: seq<R>, part: seq<Token>, found: bool)
    requires i < |tokens| && !IsComma(tokens[i])
    requires ArrayLoop(tokens, analyze, i, result, part, found)
    ensures ArrayLoop(tokens, analyze, i + 1, result, part + [tokens[i]], found)
  {
    assert tokens[..i + 1][..i] == tokens[..i];
  }

  /** A comma right after an empty part: the array is rejected. */
  lemma {:induction false} ArrayEmptyPart<R>(tokens: seq<Token>, analyze: seq<Token> -> R, tokensUntil: string, i: nat, result: seq<R>)
    requires i < |tokens| && IsComma(tokens[i])
    requires ArrayLoop(tokens, analyze, i, result, [], |Parts(tokens[..i])| > 1)
    ensures ArrayOf(tokens, analyze, tokensUntil) == Err(GetCoord(tokensUntil))
  {
    var ps := Parts(tokens[..i]);
    assert tokens[..i + 1][..i] == tokens[..i];
    assert Parts(tokens[..i + 1]) == ps + [[]];
    PartsStable(tokens, i + 1, |ps| - 1);
    assert Parts(tokens)[|ps| - 1] == [];
  }

  /** After the last token (lines 543-547). */
  lemma {:induction false} ArrayEnd<R>(tokens: seq<Token>, analyze: seq<Token> -> R, tokensUntil: string, result: seq<R>, part: seq<Token>, found: bool)
    requires ArrayLoop(tokens, analyze, |tokens|, result, part, found)
    ensures part == [] && found ==> ArrayOf(tokens, analyze, tokensUntil) == Err(GetCoord(tokensUntil))
    ensures !(part == [] && found) && tokens != [] ==> ArrayOf(tokens, analyze, tokensUntil) == Ok(result + [analyze(part)])
    ensures !(part == [] && found) && tokens == [] ==> ArrayOf(tokens, analyze, tokensUntil) == Ok(result)
  {
    assert tokens[..|tokens|] == tokens;
    var ps := Parts(tokens);
    LastPartEmpty(tokens);
    if part == [] && found {
      assert ps[|ps| - 1] == [];
    } else if tokens != [] {
      assert forall j :: 0 <= j < |ps| ==> ps[j] != [];
      var all := seq(|ps|, j requires 0 <= j < |ps| => analyze(ps[j]));
      var done := result + [analyze(part)];
      assert |all| == |done| && forall j :: 0 <= j < |all| ==> all[j] == done[j];
      assert all == done;
    }
  }

  /**
   * An array is rejected exactly when it has tokens and one of its
   * comma-separated elements is empty; otherwise it has one element per
   * comma plus one, or none at all for no tokens.
   */
  lemma {:induction false} ArrayOfCount<R>(tokens: seq<Token>, analyze: seq<Token> -> R, tokensUntil: string)
    ensures ArrayOf(tokens, analyze, tokensUntil).Err? <==> tokens != [] && [] in Parts(tokens)
    ensures ArrayOf(tokens, analyze, tokensUntil).Ok? ==>
      |ArrayOf(tokens, analyze, tokensUntil).value| == if tokens == [] then 0 else Commas(tokens) + 1
  {
    PartsCount(tokens);
  }

  /** A trailing comma, as in `[1,]`, is an error. */
  lemma {:induction false} ArrayTrailingComma<R>(tokens: seq<Token>, analyze: seq<Token> -> R, tokensUntil: string)
    requires tokens != [] && IsComma(tokens[|tokens| - 1])
    ensures ArrayOf(tokens, analyze, tokensUntil) == Err(GetCoord(tokensUntil))
  {
    LastPartEmpty(tokens);
  }
}
