/**
 * `parse_strings_and_comments` of sqf/parser.py: a mode machine over the
 * tokens of a script that gathers quoted strings and comments into single
 * pieces and copies every other token unchanged.
 */
module SqfStrings {
  import opened Wrappers
  import opened SqfTypes
  import opened BaseType

  /** The `mode` of the machine (`None` is `Code`). */
  datatype Mode = Code | StringDouble | StringSingle | CommentBlock | CommentLine

  /**
   * An item of the result: a token copied as it is, the text of a string
   * (from which `String(...)` is built) or the text of a comment.
   */
  datatype Piece = Plain(token: string) | Str(raw: string) | Comment(raw: string)

  /** `mode`, the buffer `string`, the result `tokens` and `in_double`. */
  datatype LexState = LexState(mode: Mode, buffer: string, pieces: seq<Piece>, inDouble: bool)

  const Start := LexState(Code, "", [], false)

  /** The token after position `i`, if any (`i != len(all_tokens) - 1 and all_tokens[i+1]`). */
  function Next(ts: seq<string>, i: nat): Option<string>
  {
    if i + 1 < |ts| then Some(ts[i + 1]) else None
  }

  /**
   * One token inside a string quoted by `q` (lines 139-159): a quote
   * followed by another quote starts a doubled quote, the second quote of
   * the pair ends it, and any other quote closes the string.
   */
  function QuoteStep(st: LexState, t: string, next: Option<string>, q: string): LexState
  {
    var buf := st.buffer + t;
    if t != q then st.(buffer := buf)
    else if st.inDouble then st.(buffer := buf, inDouble := false)
    else if next == Some(q) then st.(buffer := buf, inDouble := true)
    else LexState(Code, buf, st.pieces + [Str(buf)], false)
  }

  /** One pass of the loop of `parse_strings_and_comments` (lines 137-186). */
  function Step(st: LexState, t: string, next: Option<string>): LexState
  {
    match st.mode
    case StringDouble => QuoteStep(st, t, next, "\"")
    case StringSingle => QuoteStep(st, t, next, "'")
    case CommentBlock =>
      var buf := st.buffer + t;
      if t == "*/" then LexState(Code, "", st.pieces + [Comment(buf)], st.inDouble) else st.(buffer := buf)
    case CommentLine =>
      var buf := st.buffer + t;
      if t == "\n" || t == "\r\n" then LexState(Code, "", st.pieces + [Comment(buf)], st.inDouble) else st.(buffer := buf)
    case Code =>
      if t == "\"" then st.(buffer := t, mode := StringDouble)
      else if t == "'" then st.(buffer := t, mode := StringSingle)
      else if t == "/*" then st.(buffer := t, mode := CommentBlock)
      else if t == "//" then st.(buffer := t, mode := CommentLine)
      else st.(pieces := st.pieces + [Plain(t)])
  }

  /** The state after the first `n` tokens. */
  function Lex(ts: seq<string>, n: nat): LexState
    requires n <= |ts|
  {
    if n == 0 then Start else Step(Lex(ts, n - 1), ts[n - 1], Next(ts, n - 1))
  }

  /** The end of `parse_strings_and_comments` (lines 188-193). */
  function Finish(st: LexState): Result<seq<Piece>, Coord>
  {
    match st.mode
    case CommentLine => Ok(st.pieces + [Comment(st.buffer)])
    case CommentBlock => Ok(st.pieces + [Comment(st.buffer)])
    case StringDouble => Err(GetCoord(Flat(st.pieces)))
    case StringSingle => Err(GetCoord(Flat(st.pieces)))
    case Code => Ok(st.pieces)
  }

  /** The result of `parse_strings_and_comments(all_tokens)`; an error carries the position of the unclosed string. */
  function ParseStrings(ts: seq<string>): Result<seq<Piece>, Coord>
  {
    Finish(Lex(ts, |ts|))
  }

  /** `parse_strings_and_comments` (lines 128-193). */
  method ParseStringsAndComments(allTokens: seq<string>) returns (r: Result<seq<Piece>, Coord>)
    ensures r == ParseStrings(allTokens)
  {
    var buffer := "";
    var pieces: seq<Piece> := [];
    var inDouble := false;
    var mode := Code;
    for i := 0 to |allTokens|
      invariant LexState(mode, buffer, pieces, inDouble) == Lex(allTokens, i)
    {
      var token := allTokens[i];
      var last := i == |allTokens| - 1;
      if mode == StringDouble || mode == StringSingle {
        var q := if mode == StringDouble then "\"" else "'";
        buffer := buffer + token;
        if token == q {
          if inDouble {
            inDouble := false;
          } else if !inDouble && !last && allTokens[i + 1] == q {
            inDouble := true;
          } else {
            pieces := pieces + [Str(buffer)];
            mode := Code;
            inDouble := false;
          }
        }
      } else if mode == CommentBlock {
        buffer := buffer + token;
        if token == "*/" {
          mode := Code;
          pieces := pieces + [Comment(buffer)];
          buffer := "";
        }
      } else if mode == CommentLine {
        buffer := buffer + token;
        if token == "\n" || token == "\r\n" {
          mode := Code;
          pieces := pieces + [Comment(buffer)];
          buffer := "";
        }
      } else {
        if token == "\"" {
          buffer := token;
          mode := StringDouble;
        } else if token == "'" {
          buffer := token;
          mode := StringSingle;
        } else if token == "/*" {
          buffer := token;
          mode := CommentBlock;
        } else if token == "//" {
          buffer := token;
          mode := CommentLine;
        } else {
          pieces := pieces + [Plain(token)];
        }
      }
    }
    if mode == CommentLine || mode == CommentBlock {
      pieces := pieces + [Comment(buffer)];
    } else if mode != Code {
      return Err(GetCoord(Flat(pieces)));
    }
    return Ok(pieces);
  }

  /** The tokens joined together. */
  function Concat(ts: seq<string>): string
  {
    if ts == [] then "" else Concat(ts[..|ts| - 1]) + ts[|ts| - 1]
  }

  /** The text of a piece. */
  function Text(p: Piece): string
  {
    match p
    case Plain(t) => t
    case Str(raw) => raw
    case Comment(raw) => raw
  }

  /** The texts of the pieces joined together. */
  function Flat(ps: seq<Piece>): string
  {
    if ps == [] then "" else Flat(ps[..|ps| - 1]) + Text(ps[|ps| - 1])
  }

  lemma {:induction false} FlatAppend(ps: seq<Piece>, p: Piece)
    ensures Flat(ps + [p]) == Flat(ps) + Text(p)
  {
    assert (ps + [p])[..|ps|] == ps;
  }

  /** What the machine holds in its buffer and has not yet emitted. */
  function Pending(st: LexState): string
  {
    if st.mode == Code then "" else st.buffer
  }

  /** A string piece is quoted at both ends by the same quote; a comment piece is closed. */
  predicate WellFormed(p: Piece)
  {
    match p
    case Plain(_) => true
    case Str(raw) => |raw| >= 2 && raw[0] == raw[|raw| - 1] && IsQuote(raw[0])
    case Comment(raw) =>
      |raw| >= 2 &&
      ((raw[..2] == "//" && raw[|raw| - 1] == '\n') || (raw[..2] == "/*" && |raw| >= 4 && raw[|raw| - 2..] == "*/"))
  }

  /** What the machine keeps true after every token, `text` being the tokens read so far. */
  predicate Good(st: LexState, text: string)
  {
    Flat(st.pieces) + Pending(st) == text && PiecesOk(st.pieces) && BufferOk(st)
  }

  predicate PiecesOk(ps: seq<Piece>)
  {
    forall i :: 0 <= i < |ps| ==> WellFormed(ps[i])
  }

  /** The buffer starts with the mark that opened the current mode. */
  predicate BufferOk(st: LexState)
  {
    && (st.mode != StringDouble && st.mode != StringSingle ==> !st.inDouble)
    && (st.mode == StringDouble ==> |st.buffer| >= 1 && st.buffer[0] == '"')
    && (st.mode == StringSingle ==> |st.buffer| >= 1 && st.buffer[0] == '\'')
    && (st.mode == CommentLine ==> |st.buffer| >= 2 && st.buffer[..2] == "//")
    && (st.mode == CommentBlock ==> |st.buffer| >= 2 && st.buffer[..2] == "/*")
  }

  lemma {:induction false} StepGood(st: LexState, text: string, t: string, next: Option<string>)
    requires Good(st, text)
    ensures Good(Step(st, t, next), text + t)
  {
    StepText(st, text, t, next);
    StepBuffer(st, t, next);
    StepPieces(st, t, next);
  }

  lemma {:induction false} StepText(st: LexState, text: string, t: string, next: Option<string>)
    requires Flat(st.pieces) + Pending(st) == text
    ensures var st' := Step(st, t, next); Flat(st'.pieces) + Pending(st') == text + t
  {
    var st' := Step(st, t, next);
    if st.mode == Code {
      if t == "\"" || t == "'" || t == "/*" || t == "//" {
        assert st'.pieces == st.pieces && Pending(st') == Pending(st) + t;
        TextExtend(st.pieces, Pending(st), text, t);
      } else {
        assert st'.pieces == st.pieces + [Plain(t)] && Pending(st') == "";
        TextClose(st.pieces, Pending(st), Plain(t), text, t);
      }
    } else if st'.mode == Code {
      var p := st'.pieces[|st'.pieces| - 1];
      assert st'.pieces == st.pieces + [p] && Text(p) == st.buffer + t && Pending(st') == "";
      TextClose(st.pieces, Pending(st), p, text, t);
    } else {
      assert st'.pieces == st.pieces && Pending(st') == Pending(st) + t;
      TextExtend(st.pieces, Pending(st), text, t);
    }
  }

  lemma {:induction false} TextExtend(ps: seq<Piece>, pending: string, text: string, t: string)
    requires Flat(ps) + pending == text
    ensures Flat(ps) + (pending + t) == text + t
  {
  }

  lemma {:induction false} TextClose(ps: seq<Piece>, pending: string, p: Piece, text: string, t: string)
    requires Flat(ps) + pending == text && Text(p) == pending + t
    ensures Flat(ps + [p]) + "" == text + t
  {
    FlatAppend(ps, p);
    assert Flat(ps + [p]) + "" == Flat(ps + [p]);
  }

  lemma {:induction false} StepBuffer(st: LexState, t: string, next: Option<string>)
    requires BufferOk(st)
    ensures BufferOk(Step(st, t, next))
  {
    var st' := Step(st, t, next);
    if st.mode == Code {
      if t == "/*" || t == "//" {
        assert st'.buffer == t && t[..2] == t;
      }
    } else if st'.mode != Code {
      var buf := st.buffer + t;
      assert st'.buffer == buf;
      if st.mode == CommentBlock || st.mode == CommentLine {
        assert buf[..2] == st.buffer[..2];
      } else {
        assert buf[0] == st.buffer[0];
      }
    }
  }

  lemma {:induction false} StepPieces(st: LexState, t: string, next: Option<string>)
    requires PiecesOk(st.pieces) && BufferOk(st)
    ensures PiecesOk(Step(st, t, next).pieces)
  {
    var st' := Step(st, t, next);
    if st'.pieces != st.pieces {
      var p := st'.pieces[|st'.pieces| - 1];
      assert st'.pieces == st.pieces + [p];
      if st.mode != Code {
        ClosedWellFormed(st, t, p);
      }
    }
  }

  /** What closes a string or comment makes a well-formed piece. */
  lemma {:induction false} ClosedWellFormed(st: LexState, t: string, p: Piece)
    requires BufferOk(st) && st.mode != Code
    requires st.mode == StringDouble ==> t == "\"" && p == Str(st.buffer + t)
    requires st.mode == StringSingle ==> t == "'" && p == Str(st.buffer + t)
    requires st.mode == CommentBlock ==> t == "*/" && p == Comment(st.buffer + t)
    requires st.mode == CommentLine ==> (t == "\n" || t == "\r\n") && p == Comment(st.buffer + t)
    ensures WellFormed(p)
  {
    match st.mode
    case StringDouble => StrClosed(st.buffer, t);
    case StringSingle => StrClosed(st.buffer, t);
    case CommentBlock => BlockClosed(st.buffer, t);
    case CommentLine => LineClosed(st.buffer, t);
  }

  lemma {:induction false} StrClosed(buffer: string, t: string)
    requires |buffer| >= 1 && |t| == 1 && buffer[0] == t[0] && IsQuote(t[0])
    ensures WellFormed(Str(buffer + t))
  {
    var buf := buffer + t;
    assert buf[0] == buffer[0] && buf[|buf| - 1] == t[0];
  }

  lemma {:induction false} BlockClosed(buffer: string, t: string)
    requires |buffer| >= 2 && buffer[..2] == "/*" && t == "*/"
    ensures WellFormed(Comment(buffer + t))
  {
    var buf := buffer + t;
    assert buf[..2] == buffer[..2] && buf[|buf| - 2..] == t;
  }

  lemma {:induction false} LineClosed(buffer: string, t: string)
    requires |buffer| >= 2 && buffer[..2] == "//" && |t| >= 1 && t[|t| - 1] == '\n'
    ensures WellFormed(Comment(buffer + t))
  {
    var buf := buffer + t;
    assert buf[..2] == buffer[..2] && buf[|buf| - 1] == t[|t| - 1];
  }


  /** The invariant of the loop holds after every prefix of the tokens. */
  lemma {:induction false} LexGood(ts: seq<string>, n: nat)
    requires n <= |ts|
    ensures Good(Lex(ts, n), Concat(ts[..n]))
  {
    if n > 0 {
      LexGood(ts, n - 1);
      assert ts[..n][..n - 1] == ts[..n - 1];
      StepGood(Lex(ts, n - 1), Concat(ts[..n - 1]), ts[n - 1], Next(ts, n - 1));
    }
  }

  /** Nothing is lost or reordered: the pieces put together give the script back. */
  lemma {:induction false} ParseStringsRoundTrip(ts: seq<string>)
    requires ParseStrings(ts).Ok?
    ensures Flat(ParseStrings(ts).value) == Concat(ts)
  {
    LexGood(ts, |ts|);
    assert ts[..|ts|] == ts;
    var st := Lex(ts, |ts|);
    if st.mode == CommentLine || st.mode == CommentBlock {
      FlatAppend(st.pieces, Comment(st.buffer));
    }
  }

  /** Every string piece of a result meets the checks of `String(...)` (sqf/types.py lines 44-55). */
  lemma {:induction false} ParseStringsQuoted(ts: seq<string>, i: nat)
    requires ParseStrings(ts).Ok? && i < |ParseStrings(ts).value| && ParseStrings(ts).value[i].Str?
    ensures var raw := ParseStrings(ts).value[i].raw;
      |raw| >= 2 && raw[0] == raw[|raw| - 1] && IsQuote(raw[0])
  {
    LexShape(ts, |ts|);
    var st := Lex(ts, |ts|);
    var ps := ParseStrings(ts).value;
    assert ps[..|st.pieces|] == st.pieces;
    if i < |st.pieces| {
      assert ps[i] == st.pieces[i];
    }
  }

  /** The pieces emitted so far are well formed, and the buffer starts with its mark. */
  lemma {:induction false} LexShape(ts: seq<string>, n: nat)
    requires n <= |ts|
    ensures PiecesOk(Lex(ts, n).pieces) && BufferOk(Lex(ts, n))
  {
    if n > 0 {
      LexShape(ts, n - 1);
      StepBuffer(Lex(ts, n - 1), ts[n - 1], Next(ts, n - 1));
      StepPieces(Lex(ts, n - 1), ts[n - 1], Next(ts, n - 1));
    }
  }

  /** An error is raised exactly when the tokens end inside a string, at the position reached by the pieces before it. */
  lemma {:induction false} ParseStringsError(ts: seq<string>)
    ensures var st := Lex(ts, |ts|);
      ParseStrings(ts).Err? <==> st.mode == StringDouble || st.mode == StringSingle
    ensures ParseStrings(ts).Err? ==> ParseStrings(ts).error == GetCoord(Flat(Lex(ts, |ts|).pieces))
  {
  }

  /**
   * The position of the error is computed from `str()` of the pieces before
   * the unclosed string, which is their text: a plain token prints as
   * itself, a string as its quoted text and a closed comment as its text.
   */
  function Printed(p: Piece): string
    requires WellFormed(p)
  {
    match p
    case Plain(t) => t
    case Str(raw) => StringText(MakeString(Some(raw)))
    case Comment(raw) => CommentText(raw)
  }

  /** `str(Comment(raw))` (sqf/parser_types.py lines 6-20). */
  function CommentText(raw: string): string
    requires |raw| >= 2 && (raw[..2] == "//" || raw[..2] == "/*")
  {
    if raw[..2] == "//" then "//" + raw[2..]
    else "/*" + (if |raw| >= 4 then raw[2..|raw| - 2] else "") + "*/"
  }

  lemma {:induction false} PrintedIsText(p: Piece)
    requires WellFormed(p)
    ensures Printed(p) == Text(p)
  {
    match p
    case Plain(_) =>
    case Str(raw) => StringRoundTrip(raw);
    case Comment(raw) =>
      if raw[..2] == "//" {
        assert raw == raw[..2] + raw[2..];
      } else {
        assert raw == raw[..2] + raw[2..|raw| - 2] + raw[|raw| - 2..];
      }
  }

  /** Outside strings and comments tokens are copied unchanged and in order. */
  lemma {:induction false} LexPlain(ts: seq<string>, n: nat)
    requires n <= |ts|
    requires forall i :: 0 <= i < |ts| ==> ts[i] !in ["\"", "'", "/*", "//"]
    ensures Lex(ts, n) == LexState(Code, "", Plains(ts[..n]), false)
  {
    if n > 0 {
      LexPlain(ts, n - 1);
      assert ts[..n][..n - 1] == ts[..n - 1];
      assert ts[n - 1] !in ["\"", "'", "/*", "//"];
    }
  }

  /** One plain piece per token. */
  function Plains(ts: seq<string>): (r: seq<Piece>)
    ensures |r| == |ts| && forall i :: 0 <= i < |ts| ==> r[i] == Plain(ts[i])
  {
    seq(|ts|, i requires 0 <= i < |ts| => Plain(ts[i]))
  }

  /** A script without quotes or comment marks comes back as its tokens. */
  lemma {:induction false} ParseStringsPlain(ts: seq<string>)
    requires forall i :: 0 <= i < |ts| ==> ts[i] !in ["\"", "'", "/*", "//"]
    ensures ParseStrings(ts) == Ok(Plains(ts))
  {
    LexPlain(ts, |ts|);
    assert ts[..|ts|] == ts;
  }

  lemma {:induction false} LexUnfold(ts: seq<string>, n: nat)
    requires n < |ts|
    ensures Lex(ts, n + 1) == Step(Lex(ts, n), ts[n], Next(ts, n))
  {
  }

  /** A doubled quote inside a string leaves it open: `"a""b"` is one string. */
  lemma {:induction false} DoubledQuote(ts: seq<string>)
    requires ts == ["\"", "a", "\"", "\"", "b", "\""]
    ensures ParseStrings(ts) == Ok([Str("\"a\"\"b\"")])
  {
    LexUnfold(ts, 0);
    assert Lex(ts, 1) == LexState(StringDouble, "\"", [], false);
    LexUnfold(ts, 1);
    assert Lex(ts, 2) == LexState(StringDouble, "\"a", [], false);
    LexUnfold(ts, 2);
    assert Next(ts, 2) == Some("\"");
    assert Lex(ts, 3) == LexState(StringDouble, "\"a\"", [], true);
    LexUnfold(ts, 3);
    assert Lex(ts, 4) == LexState(StringDouble, "\"a\"\"", [], false);
    LexUnfold(ts, 4);
    assert Lex(ts, 5) == LexState(StringDouble, "\"a\"\"b", [], false);
    LexUnfold(ts, 5);
    assert Next(ts, 5) == None;
    assert "\"a\"\"b" + "\"" == "\"a\"\"b\"";
    assert Lex(ts, 6) == LexState(Code, "\"a\"\"b\"", [Str("\"a\"\"b\"")], false);
    assert |ts| == 6;
  }

  /** A lone quote closes the string: `'a'b` is a string and a token. */
  lemma {:induction false} LoneQuote(ts: seq<string>)
    requires ts == ["'", "a", "'", "b"]
    ensures ParseStrings(ts) == Ok([Str("'a'"), Plain("b")])
  {
    LexUnfold(ts, 0);
    assert Lex(ts, 1) == LexState(StringSingle, "'", [], false);
    LexUnfold(ts, 1);
    LexUnfold(ts, 2);
    assert Next(ts, 2) == Some("b");
    assert Lex(ts, 2) == LexState(StringSingle, "'a", [], false);
    assert "'a" + "'" == "'a'";
    assert Lex(ts, 3) == LexState(Code, "'a'", [Str("'a'")], false);
    LexUnfold(ts, 3);
    assert Lex(ts, 4) == LexState(Code, "'a'", [Str("'a'"), Plain("b")], false);
    assert |ts| == 4;
  }

  /** A line comment runs up to and including the end of the line. */
  lemma {:induction false} LineComment(ts: seq<string>)
    requires ts == ["//", "a", "\r\n", "b"]
    ensures ParseStrings(ts) == Ok([Comment("//a\r\n"), Plain("b")])
  {
    LexUnfold(ts, 0);
    assert Lex(ts, 1) == LexState(CommentLine, "//", [], false);
    LexUnfold(ts, 1);
    assert Lex(ts, 2) == LexState(CommentLine, "//a", [], false);
    LexUnfold(ts, 2);
    assert "//a" + "\r\n" == "//a\r\n";
    assert Lex(ts, 3) == LexState(Code, "", [Comment("//a\r\n")], false);
    LexUnfold(ts, 3);
    assert Lex(ts, 4) == LexState(Code, "", [Comment("//a\r\n"), Plain("b")], false);
    assert |ts| == 4;
  }

  /** A block comment runs up to its closing mark, whatever lies inside it. */
  lemma {:induction false} BlockComment(ts: seq<string>)
    requires ts == ["/*", "\"", "\n", "*/", "b"]
    ensures ParseStrings(ts) == Ok([Comment("/*\"\n*/"), Plain("b")])
  {
    LexUnfold(ts, 0);
    assert Lex(ts, 1) == LexState(CommentBlock, "/*", [], false);
    LexUnfold(ts, 1);
    assert Lex(ts, 2) == LexState(CommentBlock, "/*\"", [], false);
    LexUnfold(ts, 2);
    assert Lex(ts, 3) == LexState(CommentBlock, "/*\"\n", [], false);
    LexUnfold(ts, 3);
    assert "/*\"\n" + "*/" == "/*\"\n*/";
    assert Lex(ts, 4) == LexState(Code, "", [Comment("/*\"\n*/")], false);
    LexUnfold(ts, 4);
    assert Lex(ts, 5) == LexState(Code, "", [Comment("/*\"\n*/"), Plain("b")], false);
    assert |ts| == 5;
  }

  /** An unclosed string is an error at the position of the text before it. */
  lemma {:induction false} UnclosedString(ts: seq<string>)
    requires ts == ["x", "\n", "\"", "a"]
    ensures ParseStrings(ts) == Err(Coord(2, 0))
  {
    LexUnfold(ts, 0);
    LexUnfold(ts, 1);
    assert Lex(ts, 2) == LexState(Code, "", [Plain("x"), Plain("\n")], false);
    LexUnfold(ts, 2);
    LexUnfold(ts, 3);
    assert Lex(ts, 4) == LexState(StringDouble, "\"a", [Plain("x"), Plain("\n")], false);
    assert |ts| == 4;
    FlatTwo([Plain("x"), Plain("\n")], "x", "\n");
    CoordAfterNewline();
  }

  lemma {:induction false} FlatTwo(ps: seq<Piece>, a: string, b: string)
    requires ps == [Plain(a), Plain(b)]
    ensures Flat(ps) == a + b
  {
    var p1 := ps[..1];
    assert p1 == [Plain(a)] && p1[..0] == [] && ps[..|ps| - 1] == p1;
    assert Flat(p1) == Flat([]) + a;
    assert "" + a == a;
  }

  lemma {:induction false} CoordAfterNewline()
    ensures GetCoord("x\n") == Coord(2, 0)
  {
    GetCoordMeaning("x\n");
    assert CountChar("x\n", '\n') == 1;
    assert AfterLastNewline("x\n") == 2;
  }

  /** An unclosed comment is kept: it runs to the end of the script. */
  lemma {:induction false} UnclosedComment(ts: seq<string>)
    requires ts == ["x", "/*", "a"]
    ensures ParseStrings(ts) == Ok([Plain("x"), Comment("/*a")])
  {
    LexUnfold(ts, 0);
    LexUnfold(ts, 1);
    assert Lex(ts, 2) == LexState(CommentBlock, "/*", [Plain("x")], false);
    LexUnfold(ts, 2);
    assert "/*" + "a" == "/*a";
    assert Lex(ts, 3) == LexState(CommentBlock, "/*a", [Plain("x")], false);
    assert [Plain("x")] + [Comment("/*a")] == [Plain("x"), Comment("/*a")];
    assert |ts| == 3;
  }
}
