/**
 * Concrete runs of the tokenizer model: inputs on which the code of
 * core/tokenizer_source/tokenizer.h as written loses its round trip or never
 * returns, next to what the corrected variant does with them.
 */
module TokenizerExamples {
  import opened Wrappers
  import opened Tokenizer

  // One keyterm, one character: the three outcomes of lines 43-71.

  lemma {:induction false} GrowStep(st: State, term: string, c: char, cur: string)
    requires term !in st.matches
    requires cur == (if term in st.usages then st.usages[term] + [c] else [c]) && StartsWith(term, cur)
    ensures UpdateTerm(st, term, c) ==
      st.(usages := st.usages[term := cur], matches := if term == cur then Insert(st.matches, term) else st.matches)
  {
  }

  lemma {:induction false} FailStep(st: State, term: string, c: char, cur: string)
    requires term !in st.matches
    requires cur == (if term in st.usages then st.usages[term] + [c] else [c]) && !StartsWith(term, cur)
    ensures UpdateTerm(st, term, c) == st.(usages := st.usages - {term})
  {
    assert StartsWith(term, term);
  }

  lemma {:induction false} MatchedStep(st: State, term: string, c: char)
    requires term in st.matches && term in st.usages && st.usages[term] == term
    ensures UpdateTerm(st, term, c) == st
  {
    assert |st.usages[term] + [c]| != |term|;
  }

  lemma {:induction false} Advance1(st: State, ks: seq<string>, c: char)
    requires |ks| == 1
    ensures Advance(st, ks, c) == UpdateTerm(st.(sequence := st.sequence + [c]), ks[0], c)
  {
    var st' := st.(sequence := st.sequence + [c]);
    assert ks[..|ks| - 1] == [];
    assert UpdateTerms(st', ks, c) == UpdateTerm(UpdateTerms(st', [], c), ks[0], c);
  }

  lemma {:induction false} Advance2(st: State, ks: seq<string>, c: char)
    requires |ks| == 2
    ensures Advance(st, ks, c) == UpdateTerm(UpdateTerm(st.(sequence := st.sequence + [c]), ks[0], c), ks[1], c)
  {
    var st' := st.(sequence := st.sequence + [c]);
    assert ks[..1][..0] == [] && ks[..1][0] == ks[0];
    assert UpdateTerms(st', ks[..1], c) == UpdateTerm(st', ks[0], c);
    assert ks[..1] == ks[..|ks| - 1];
  }

  lemma {:induction false} Advance3(st: State, ks: seq<string>, c: char)
    requires |ks| == 3
    ensures Advance(st, ks, c) ==
      UpdateTerm(UpdateTerm(UpdateTerm(st.(sequence := st.sequence + [c]), ks[0], c), ks[1], c), ks[2], c)
  {
    var st' := st.(sequence := st.sequence + [c]);
    assert ks[..1][..0] == [] && ks[..1][0] == ks[0];
    assert UpdateTerms(st', ks[..1], c) == UpdateTerm(st', ks[0], c);
    assert ks[..2][..1] == ks[..1] && ks[..2][1] == ks[1];
    assert UpdateTerms(st', ks[..2], c) == UpdateTerm(UpdateTerms(st', ks[..1], c), ks[1], c);
    assert ks[..2] == ks[..|ks| - 1];
  }

  // tokenize("ba", {"b", "a", "baQ"}): the flush takes the pending matches in set order.

  lemma {:induction false} BaStep1(ks: seq<string>)
    requires ks == ["b", "a", "baQ"]
    ensures Advance(Start, ks, 'b') == State(map["b" := "b", "baQ" := "b"], ["b"], "b", [])
  {
    Advance3(Start, ks, 'b');
    var s := Start.(sequence := "b");
    GrowStep(s, "b", 'b', "b");
    var s' := s.(usages := map["b" := "b"], matches := ["b"]);
    FailStep(s', "a", 'b', "b");
    assert s'.usages - {"a"} == s'.usages;
    GrowStep(s', "baQ", 'b', "b");
  }

  lemma {:induction false} BaStep2(ks: seq<string>, st: State)
    requires ks == ["b", "a", "baQ"] && st == State(map["b" := "b", "baQ" := "b"], ["b"], "b", [])
    ensures Advance(st, ks, 'a') == State(map["b" := "b", "baQ" := "ba", "a" := "a"], ["a", "b"], "ba", [])
  {
    Advance3(st, ks, 'a');
    var s := st.(sequence := "ba");
    MatchedStep(s, "b", 'a');
    GrowStep(s, "a", 'a', "a");
    assert Insert(["b"], "a") == ["a", "b"];
    var s' := s.(usages := s.usages["a" := "a"], matches := ["a", "b"]);
    assert "baQ"[..2] == "ba";
    GrowStep(s', "baQ", 'a', "ba");
  }

  lemma {:induction false} BaSelect(u1: map<string, string>, u2: map<string, string>)
    requires u1 == map["b" := "b", "baQ" := "b"] && u2 == map["b" := "b", "baQ" := "ba", "a" := "a"]
    ensures SelectFrom(u1, ["b"], "") == ""
    ensures SelectFrom(u2, ["a", "b"], "") == ""
  {
    assert "baQ" in u1 && u1["baQ"] == "b";
    assert !Eligible(u1, "b");
    assert Contains("ba", "a") by { assert OccursAt("a", "ba", 1); }
    assert Contains("ba", "b") by { assert OccursAt("b", "ba", 0); }
    assert "baQ" in u2 && u2["baQ"] == "ba";
    assert !Eligible(u2, "a") && !Eligible(u2, "b");
  }

  lemma {:induction false} BaScan(text: string, ks: seq<string>)
    requires text == "ba" && ks == ["b", "a", "baQ"]
    ensures forall v :: Scan(v, text, ks, 2) == Done(State(map["b" := "b", "baQ" := "ba", "a" := "a"], ["a", "b"], "ba", []))
  {
    var s1 := State(map["b" := "b", "baQ" := "b"], ["b"], "b", []);
    var s2 := State(map["b" := "b", "baQ" := "ba", "a" := "a"], ["a", "b"], "ba", []);
    BaStep1(ks);
    BaStep2(ks, s1);
    BaSelect(s1.usages, s2.usages);
    forall v ensures Scan(v, text, ks, 2) == Done(s2) {
      ScanUnfold(v, text, ks, 1, Start);
      ScanUnfold(v, text, ks, 2, s1);
    }
  }

  lemma {:induction false} BaFlushFirst(sq: string, m: string)
    requires sq == "ba" && m == "a"
    ensures Contains(sq, m) && RSplit(sq, m) == Some(Split("b", ""))
  {
    assert OccursAt(m, sq, 1);
    assert RFind(sq, m) == Some(1);
    RSplitAt(sq, m, 1);
    assert sq[..1] == "b" && sq[2..] == "";
  }

  lemma {:induction false} BaFlushAsWritten(ms: seq<string>, sq: string)
    requires ms == ["a", "b"] && sq == "ba"
    ensures Flush(AsWritten, ms, sq, []) == Done(["b", "a", "", "b"])
  {
    BaFlushFirst(sq, ms[0]);
    FlushSplit(AsWritten, ms, sq, [], Split("b", ""));
    assert [] + ["b", ms[0]] == ["b", "a"];
    EmptySplit("", ms[1]);
    FlushSplit(AsWritten, ms[1..], "", ["b", "a"], Split("", ""));
    assert ["b", "a"] + ["", ms[1]] == ["b", "a", "", "b"];
    FlushEnd(AsWritten, ms[1..][1..], "", ["b", "a", "", "b"]);
  }

  lemma {:induction false} BaFlushCorrected(ms: seq<string>, sq: string)
    requires ms == ["a", "b"] && sq == "ba"
    ensures Flush(Corrected, ms, sq, []) == Done(["b", "a"])
  {
    BaFlushFirst(sq, ms[0]);
    FlushSplit(Corrected, ms, sq, [], Split("b", ""));
    assert [] + ["b", ms[0]] == ["b", "a"];
    NotContainedShorter("", ms[1]);
    FlushSkip(ms[1..], "", ["b", "a"]);
    FlushEnd(Corrected, ms[1..][1..], "", ["b", "a"]);
  }

  /** As written: `["b", "a", "", "b"]`, whose concatenation `"bab"` is not the text. */
  lemma {:induction false} BaAsWritten(text: string, ks: seq<string>)
    requires text == "ba" && ks == ["b", "a", "baQ"]
    ensures Run(AsWritten, text, ks) == Done(["b", "a", "", "b"])
    ensures Concat(["b", "a", "", "b"]) != text
  {
    BaScan(text, ks);
    RunAfterScan(AsWritten, text, ks, State(map["b" := "b", "baQ" := "ba", "a" := "a"], ["a", "b"], "ba", []));
    BaFlushAsWritten(["a", "b"], "ba");
    ConcatPush(["b", "a", ""], "b");
    ConcatPush(["b", "a"], "");
    ConcatPair("b", "a");
  }

  /** Corrected: `"b"` no longer occurs in the buffer and is skipped. */
  lemma {:induction false} BaCorrected(text: string, ks: seq<string>)
    requires text == "ba" && ks == ["b", "a", "baQ"]
    ensures Run(Corrected, text, ks) == Done(["b", "a"])
  {
    BaScan(text, ks);
    RunAfterScan(Corrected, text, ks, State(map["b" := "b", "baQ" := "ba", "a" := "a"], ["a", "b"], "ba", []));
    BaFlushCorrected(["a", "b"], "ba");
  }

  // tokenize("abde", {"ab", "abc", "bde"}): "ab" is emitted while "bde" still
  // tracks "bd", which reaches back into the emitted "ab".

  /** A character that starts no keyterm leaves an idle state idle. */
  lemma {:induction false} IdleTerms(st: State, ks: seq<string>, c: char)
    requires st.usages == map[] && st.matches == []
    requires forall k :: k in ks ==> !StartsWith(k, [c])
    ensures UpdateTerms(st, ks, c) == st
    decreases |ks|
  {
    if ks != [] {
      IdleTerms(st, ks[..|ks| - 1], c);
      assert ks[|ks| - 1] in ks;
    }
  }

  lemma {:induction false} AbStep1(ks: seq<string>)
    requires ks == ["ab", "abc", "bde"]
    ensures Advance(Start, ks, 'a') == State(map["ab" := "a", "abc" := "a"], [], "a", [])
  {
    Advance3(Start, ks, 'a');
    var s := Start.(sequence := "a");
    GrowStep(s, "ab", 'a', "a");
    var s' := s.(usages := map["ab" := "a"]);
    GrowStep(s', "abc", 'a', "a");
    var s'' := s'.(usages := map["ab" := "a", "abc" := "a"]);
    FailStep(s'', "bde", 'a', "a");
    assert s''.usages - {"bde"} == s''.usages;
  }

  lemma {:induction false} AbStep2(ks: seq<string>, st: State)
    requires ks == ["ab", "abc", "bde"] && st == State(map["ab" := "a", "abc" := "a"], [], "a", [])
    ensures Advance(st, ks, 'b') == State(map["ab" := "ab", "abc" := "ab", "bde" := "b"], ["ab"], "ab", [])
  {
    Advance3(st, ks, 'b');
    var s := st.(sequence := "ab");
    GrowStep(s, "ab", 'b', "ab");
    var s' := s.(usages := s.usages["ab" := "ab"], matches := ["ab"]);
    assert "abc"[..2] == "ab";
    GrowStep(s', "abc", 'b', "ab");
    var s'' := s'.(usages := s'.usages["abc" := "ab"]);
    GrowStep(s'', "bde", 'b', "b");
  }

  lemma {:induction false} AbStep3(ks: seq<string>, st: State)
    requires ks == ["ab", "abc", "bde"] && st == State(map["ab" := "ab", "abc" := "ab", "bde" := "b"], ["ab"], "ab", [])
    ensures Advance(st, ks, 'd') == State(map["ab" := "ab", "bde" := "bd"], ["ab"], "abd", [])
  {
    Advance3(st, ks, 'd');
    var s := st.(sequence := "abd");
    MatchedStep(s, "ab", 'd');
    assert !StartsWith("abc", "abd");
    FailStep(s, "abc", 'd', "abd");
    var s' := s.(usages := map["ab" := "ab", "bde" := "b"]);
    assert s.usages - {"abc"} == s'.usages;
    assert "bde"[..2] == "bd";
    GrowStep(s', "bde", 'd', "bd");
  }

  lemma {:induction false} AbSelect(u2: map<string, string>, u3: map<string, string>)
    requires u2 == map["ab" := "ab", "abc" := "ab", "bde" := "b"] && u3 == map["ab" := "ab", "bde" := "bd"]
    ensures SelectFrom(u2, ["ab"], "") == ""
    ensures SelectFrom(u3, ["ab"], "") == "ab"
  {
    assert "abc" in u2 && u2["abc"] == "ab";
    assert !Eligible(u2, "ab");
    NotContainedSameLength(u3["bde"], "ab");
    assert Eligible(u3, "ab");
  }

  lemma {:induction false} AbScan2(text: string, ks: seq<string>)
    requires text == "abde" && ks == ["ab", "abc", "bde"]
    ensures forall v :: Scan(v, text, ks, 2) == Done(State(map["ab" := "ab", "abc" := "ab", "bde" := "b"], ["ab"], "ab", []))
  {
    var s1 := State(map["ab" := "a", "abc" := "a"], [], "a", []);
    var s2 := State(map["ab" := "ab", "abc" := "ab", "bde" := "b"], ["ab"], "ab", []);
    AbStep1(ks);
    AbStep2(ks, s1);
    AbSelect(s2.usages, map["ab" := "ab", "bde" := "bd"]);
    forall v ensures Scan(v, text, ks, 2) == Done(s2) {
      ScanUnfold(v, text, ks, 1, Start);
      ScanUnfold(v, text, ks, 2, s1);
    }
  }

  /** The rightmost "ab" in "abd" is at 0. */
  lemma {:induction false} AbSplit(sq: string, t: string)
    requires sq == "abd" && t == "ab"
    ensures RSplit(sq, t) == Some(Split("", "d"))
  {
    NotContainedSameLength(sq[1..], t);
    LastOccurrence(sq, t, 0);
    RSplitAt(sq, t, 0);
    assert sq[..0] == "" && sq[2..] == "d";
  }

  /** The emission of "ab" at the third character. */
  lemma {:induction false} AbEmit(v: Variant, text: string, ks: seq<string>, st: State)
    requires text == "abde" && ks == ["ab", "abc", "bde"] && st == State(map["ab" := "ab", "bde" := "bd"], ["ab"], "abd", [])
    ensures Emit(v, text, ks, 3, st, "ab") == Done(State(Cleanup(v, st.usages, "ab", "d"), [], "d", ["ab"]))
  {
    AbSplit(st.sequence, st.matches[0]);
    EmitUnfold(v, text, ks, 3, st, st.matches[0], Split("", "d"), []);
    WithoutSingle(st.matches, st.usages);
    assert st.result + [] + [st.matches[0]] == ["ab"];
  }

  /** As written, "bde" keeps tracking "bd"; corrected, it is dropped. */
  lemma {:induction false} AbCleanup(u: map<string, string>)
    requires u == map["ab" := "ab", "bde" := "bd"]
    ensures Cleanup(AsWritten, u, "ab", "d") == map["bde" := "bd"]
    ensures Cleanup(Corrected, u, "ab", "d") == map[]
  {
    var ab := "ab";
    assert OccursAt(ab, ab, 0);
    NotContainedSameLength(ab, u["bde"]);
    NotContainedSameLength(u["bde"], ab);
    assert !IsSuffix(u["bde"], "d");
  }

  lemma {:induction false} AbScan3(text: string, ks: seq<string>)
    requires text == "abde" && ks == ["ab", "abc", "bde"]
    ensures Scan(AsWritten, text, ks, 3) == Done(State(map["bde" := "bd"], [], "d", ["ab"]))
    ensures Scan(Corrected, text, ks, 3) == Done(State(map[], [], "d", ["ab"]))
  {
    var s2 := State(map["ab" := "ab", "abc" := "ab", "bde" := "b"], ["ab"], "ab", []);
    var s3 := State(map["ab" := "ab", "bde" := "bd"], ["ab"], "abd", []);
    AbScan2(text, ks);
    AbStep3(ks, s2);
    AbSelect(s2.usages, s3.usages);
    AbCleanup(s3.usages);
    AbEmit(AsWritten, text, ks, s3);
    AbEmit(Corrected, text, ks, s3);
    ScanUnfold(AsWritten, text, ks, 3, s2);
    ScanUnfold(Corrected, text, ks, 3, s2);
  }

  /** No keyterm starts with 'd' or 'e'. */
  lemma {:induction false} IdleKeys(ks: seq<string>, c: char)
    requires ks == ["ab", "abc", "bde"] && (c == 'd' || c == 'e')
    ensures forall k :: k in ks ==> !StartsWith(k, [c])
  {
    forall k | k in ks ensures !StartsWith(k, [c]) {
      assert k[0] != [c][0];
    }
  }

  /** "de" matches nothing and comes back as one token. */
  lemma {:induction false} DeRun(v: Variant, text: string, ks: seq<string>)
    requires text == "de" && ks == ["ab", "abc", "bde"]
    ensures Run(v, text, ks) == Done([text])
  {
    var s1 := State(map[], [], "d", []);
    var s2 := State(map[], [], "de", []);
    IdleKeys(ks, text[0]);
    IdleTerms(s1, ks, text[0]);
    IdleKeys(ks, text[1]);
    IdleTerms(s2, ks, text[1]);
    assert Start.(sequence := Start.sequence + [text[0]]) == s1;
    assert s1.(sequence := s1.sequence + [text[1]]) == s2;
    ScanUnfold(v, text, ks, 1, Start);
    ScanUnfold(v, text, ks, 2, s1);
    RunAfterScan(v, text, ks, s2);
    assert s2.result + [s2.sequence] == [text];
  }

  lemma {:induction false} AbStep4(ks: seq<string>, st: State)
    requires ks == ["ab", "abc", "bde"] && st == State(map["bde" := "bd"], [], "d", ["ab"])
    ensures Advance(st, ks, 'e') == State(map["bde" := "bde"], ["bde"], "de", ["ab"])
  {
    Advance3(st, ks, 'e');
    var s := st.(sequence := "de");
    FailStep(s, "ab", 'e', "e");
    assert s.usages - {"ab"} == s.usages;
    FailStep(s, "abc", 'e', "e");
    assert s.usages - {"abc"} == s.usages;
    GrowStep(s, "bde", 'e', "bde");
  }

  /** Without an occurrence, rsplit("de", "bde") takes the whole buffer and an empty suffix. */
  lemma {:induction false} DeSplit(sq: string, t: string)
    requires sq == "de" && t == "bde"
    ensures RSplit(sq, t) == Some(Split(sq, ""))
  {
    NotContainedShorter(sq, t);
    assert sq[|t| - 1..] == "";
  }

  /** As written, "bde" completes against a buffer that holds only "de". */
  lemma {:induction false} AbEmit4(text: string, ks: seq<string>, st: State)
    requires text == "abde" && ks == ["ab", "abc", "bde"] && st == State(map["bde" := "bde"], ["bde"], "de", ["ab"])
    ensures Emit(AsWritten, text, ks, 4, st, "bde") == Done(State(map[], [], "", ["ab", "de", "bde"]))
  {
    var m := st.matches[0];
    DeSplit(st.sequence, m);
    DeRun(AsWritten, st.sequence, ks);
    EmitUnfold(AsWritten, text, ks, 4, st, m, Split(st.sequence, ""), [st.sequence]);
    CleanupAll(AsWritten, st.usages, m);
    WithoutSingle(st.matches, st.usages);
    assert st.result + [st.sequence] + [m] == ["ab", "de", "bde"];
  }

  /** As written: `["ab", "de", "bde"]`, whose concatenation is seven characters long. */
  lemma {:induction false} AbdeAsWritten(text: string, ks: seq<string>)
    requires text == "abde" && ks == ["ab", "abc", "bde"]
    ensures Run(AsWritten, text, ks) == Done(["ab", "de", "bde"])
    ensures Concat(["ab", "de", "bde"]) != text
  {
    var s3 := State(map["bde" := "bd"], [], "d", ["ab"]);
    var s4 := State(map["bde" := "bde"], ["bde"], "de", ["ab"]);
    AbScan3(text, ks);
    AbStep4(ks, s3);
    assert Eligible(s4.usages, "bde");
    assert SelectFrom(s4.usages, s4.matches, "") == "bde";
    AbEmit4(text, ks, s4);
    ScanUnfold(AsWritten, text, ks, 4, s3);
    RunAfterScan(AsWritten, text, ks, State(map[], [], "", ["ab", "de", "bde"]));
    FlushEnd(AsWritten, [], "", ["ab", "de", "bde"]);
    ConcatPush(["ab", "de"], "bde");
    ConcatPair("ab", "de");
  }

  /** Corrected: `["ab", "de"]`. */
  lemma {:induction false} AbdeCorrected(text: string, ks: seq<string>)
    requires text == "abde" && ks == ["ab", "abc", "bde"]
    ensures Run(Corrected, text, ks) == Done(["ab", "de"])
  {
    var s4 := State(map[], [], "de", ["ab"]);
    AbScan4Corrected(text, ks);
    assert |text| == 4;
    RunAfterScan(Corrected, text, ks, s4);
    FlushRest(s4.sequence, s4.result);
  }

  lemma {:induction false} AbScan4Corrected(text: string, ks: seq<string>)
    requires text == "abde" && ks == ["ab", "abc", "bde"]
    ensures Scan(Corrected, text, ks, 4) == Done(State(map[], [], "de", ["ab"]))
  {
    var s3 := State(map[], [], "d", ["ab"]);
    var s4 := State(map[], [], "de", ["ab"]);
    AbScan3(text, ks);
    IdleKeys(ks, text[3]);
    IdleTerms(s4, ks, text[3]);
    assert s3.(sequence := s3.sequence + [text[3]]) == s4;
    ScanUnfold(Corrected, text, ks, 4, s3);
  }

  lemma {:induction false} FlushRest(sequence: string, result: seq<string>)
    requires sequence == "de" && result == ["ab"]
    ensures Flush(Corrected, [], sequence, result) == Done(["ab", "de"])
  {
    assert result + [sequence] == ["ab", "de"];
  }

  // tokenize("a", {"aa", "aa"}): the second copy of "aa" sees the usage the
  // first copy has just extended, so "aa" completes after one character.

  lemma {:induction false} DupStep(ks: seq<string>)
    requires ks == ["aa", "aa"]
    ensures Advance(Start, ks, 'a') == State(map["aa" := "aa"], ["aa"], "a", [])
  {
    Advance2(Start, ks, 'a');
    var s := Start.(sequence := "a");
    GrowStep(s, ks[0], 'a', "a");
    var s' := s.(usages := map["aa" := "a"]);
    GrowStep(s', ks[1], 'a', "aa");
    assert Insert([], "aa") == ["aa"];
  }

  /** The duplicate keyterm makes the C++ code call itself on "a" again: it never returns. */
  lemma {:induction false} DupDiverges(v: Variant, text: string, ks: seq<string>)
    requires text == "a" && ks == ["aa", "aa"]
    ensures Run(v, text, ks) == Diverges
  {
    var st := State(map["aa" := "aa"], ["aa"], "a", []);
    DupStep(ks);
    assert Eligible(st.usages, "aa");
    assert SelectFrom(st.usages, st.matches, "") == "aa";
    NotContainedShorter(st.sequence, ks[0]);
    assert RSplit(st.sequence, ks[0]) == Some(Split(st.sequence, ""));
    assert Emit(v, text, ks, 1, st, ks[0]) == Diverges;
    ScanUnfold(v, text, ks, 1, Start);
  }

  /** With the duplicate removed, "a" comes back unchanged. */
  lemma {:induction false} DupCorrected(text: string, ks: seq<string>)
    requires text == "a" && ks == ["aa"]
    ensures Run(Corrected, text, ks) == Done([text])
  {
    var st := State(map["aa" := "a"], [], "a", []);
    Advance1(Start, ks, text[0]);
    assert Start.sequence + [text[0]] == text;
    GrowStep(Start.(sequence := text), ks[0], text[0], text);
    assert Advance(Start, ks, text[0]) == st;
    ScanUnfold(Corrected, text, ks, 1, Start);
    RunAfterScan(Corrected, text, ks, st);
    assert st.result + [st.sequence] == [text];
  }

  // tokenize("ab", {"ab", "ab", "b"}): the second copy of "ab" sees the usage
  // "a" that the first copy has just started, cannot extend it to "aa" and
  // erases it, so "ab" never completes and the text comes back as "a", "b".

  lemma {:induction false} AbAbStep1(ks: seq<string>)
    requires ks == ["ab", "ab", "b"]
    ensures Advance(Start, ks, 'a') == State(map[], [], "a", [])
  {
    Advance3(Start, ks, 'a');
    var s := Start.(sequence := "a");
    GrowStep(s, ks[0], 'a', "a");
    var s' := s.(usages := map["ab" := "a"]);
    FailStep(s', ks[1], 'a', "aa");
    assert s'.usages - {ks[1]} == map[];
    var s'' := s'.(usages := map[]);
    FailStep(s'', ks[2], 'a', "a");
    assert s''.usages - {ks[2]} == map[];
  }

  lemma {:induction false} AbAbStep2(ks: seq<string>, st: State)
    requires ks == ["ab", "ab", "b"] && st == State(map[], [], "a", [])
    ensures Advance(st, ks, 'b') == State(map["b" := "b"], ["b"], "ab", [])
  {
    Advance3(st, ks, 'b');
    assert st.sequence + ['b'] == "ab";
    var s := st.(sequence := "ab");
    FailStep(s, ks[0], 'b', "b");
    assert s.usages - {ks[0]} == s.usages;
    FailStep(s, ks[1], 'b', "b");
    GrowStep(s, ks[2], 'b', "b");
    assert Insert([], "b") == ["b"];
  }

  /** The prefix "a" left in front of "b" comes back unchanged. */
  lemma {:induction false} AbAbPrefix(v: Variant, text: string, ks: seq<string>)
    requires text == "a" && ks == ["ab", "ab", "b"]
    ensures Run(v, text, ks) == Done([text])
  {
    var st := State(map[], [], "a", []);
    assert text[0] == 'a';
    AbAbStep1(ks);
    ScanUnfold(v, text, ks, 1, Start);
    RunAfterScan(v, text, ks, st);
    assert st.result + [st.sequence] == [text];
  }

  /** The rightmost "b" in "ab" is at 1. */
  lemma {:induction false} AbAbSplit(sq: string, t: string)
    requires sq == "ab" && t == "b"
    ensures RSplit(sq, t) == Some(Split("a", ""))
  {
    assert OccursAt(t, sq, 1);
    LastOccurrence(sq, t, 1);
    RSplitAt(sq, t, 1);
    assert sq[..1] == "a" && sq[2..] == "";
  }

  /** The emission of "b" at the second character, after the recursive run on "a". */
  lemma {:induction false} AbAbEmit(v: Variant, text: string, ks: seq<string>, st: State)
    requires text == "ab" && ks == ["ab", "ab", "b"] && st == State(map["b" := "b"], ["b"], "ab", [])
    ensures Emit(v, text, ks, 2, st, "b") == Done(State(map[], [], "", ["a", "b"]))
  {
    AbAbSplit(st.sequence, st.matches[0]);
    AbAbPrefix(v, text[..1], ks);
    EmitUnfold(v, text, ks, 2, st, st.matches[0], Split("a", ""), ["a"]);
    CleanupAll(v, st.usages, "b");
    WithoutSingle(st.matches, st.usages);
    assert st.result + ["a"] + ["b"] == ["a", "b"];
  }

  /** As written, and with the corrected cleanup and flush, the keyterm "ab" is split in two. */
  lemma {:induction false} AbAbAsWritten(v: Variant, text: string, ks: seq<string>)
    requires text == "ab" && ks == ["ab", "ab", "b"]
    ensures Run(v, text, ks) == Done(["a", "b"])
  {
    var s1 := State(map[], [], "a", []);
    var s2 := State(map["b" := "b"], ["b"], "ab", []);
    var s3 := State(map[], [], "", ["a", "b"]);
    AbAbStep1(ks);
    ScanUnfold(v, text, ks, 1, Start);
    AbAbStep2(ks, s1);
    assert Eligible(s2.usages, "b");
    assert SelectFrom(s2.usages, s2.matches, "") == "b";
    AbAbEmit(v, text, ks, s2);
    ScanUnfold(v, text, ks, 2, s1);
    RunAfterScan(v, text, ks, s3);
    FlushEnd(v, s3.matches, s3.sequence, s3.result);
  }

  /** Repeats removed, "ab" and "b" are each listed once, "ab" first. */
  lemma {:induction false} AbAbDedup(ks: seq<string>)
    requires ks == ["ab", "ab", "b"]
    ensures Dedup(ks) == ["ab", "b"]
  {
    assert ks[..1][..0] == [];
    assert Dedup(ks[..1]) == ["ab"];
    assert ks[..2][..1] == ks[..1];
    assert Dedup(ks[..2]) == ["ab"];
    assert ks[..2] == ks[..|ks| - 1];
  }

  lemma {:induction false} AbBStep1(ks: seq<string>)
    requires ks == ["ab", "b"]
    ensures Advance(Start, ks, 'a') == State(map["ab" := "a"], [], "a", [])
  {
    Advance2(Start, ks, 'a');
    var s := Start.(sequence := "a");
    GrowStep(s, ks[0], 'a', "a");
    var s' := s.(usages := map["ab" := "a"]);
    FailStep(s', ks[1], 'a', "a");
    assert s'.usages - {ks[1]} == s'.usages;
  }

  lemma {:induction false} AbBStep2(ks: seq<string>, st: State)
    requires ks == ["ab", "b"] && st == State(map["ab" := "a"], [], "a", [])
    ensures Advance(st, ks, 'b') == State(map["ab" := "ab", "b" := "b"], ["ab", "b"], "ab", [])
  {
    Advance2(st, ks, 'b');
    assert st.sequence + ['b'] == "ab";
    var s := st.(sequence := "ab");
    GrowStep(s, ks[0], 'b', "ab");
    assert Insert([], "ab") == ["ab"];
    var s' := s.(usages := map["ab" := "ab"], matches := ["ab"]);
    GrowStep(s', ks[1], 'b', "b");
    assert !LexLess("b", "ab");
    assert Insert(["ab"], "b") == ["ab", "b"];
  }

  /** Emitting "ab" with its whole text as the buffer leaves nothing tracked or pending. */
  lemma {:induction false} AbBEmit(text: string, ks: seq<string>, st: State)
    requires text == "ab" && ks == ["ab", "b"] && st == State(map["ab" := "ab", "b" := "b"], ["ab", "b"], "ab", [])
    ensures Emit(Corrected, text, ks, 2, st, "ab") == Done(State(map[], [], "", ["ab"]))
  {
    var ab := "ab";
    assert OccursAt(ab, st.sequence, 0);
    LastOccurrence(st.sequence, ab, 0);
    RSplitAt(st.sequence, ab, 0);
    assert st.sequence[..0] == "" && st.sequence[2..] == "";
    EmitUnfold(Corrected, text, ks, 2, st, ab, Split("", ""), []);
    assert OccursAt(ab, ab, 0) && OccursAt("b", ab, 1);
    assert Cleanup(Corrected, st.usages, ab, "") == map[];
    assert st.usages["ab"] in st.usages.Values && st.usages["b"] in st.usages.Values;
    WithoutAll(st.matches, st.usages.Values);
    assert st.result + [] + [ab] == ["ab"];
  }

  /** With both tracked, "ab" is selected over "b", which it contains. */
  lemma {:induction false} AbBSelect(u: map<string, string>, ms: seq<string>)
    requires u == map["ab" := "ab", "b" := "b"] && ms == ["ab", "b"]
    ensures SelectFrom(u, ms, "") == "ab"
  {
    NotContainedShorter(u["b"], ms[0]);
    assert Eligible(u, ms[0]);
    assert SelectFrom(u, ms, "") == SelectFrom(u, ms[1..], ms[0]);
  }

  /** On "ab" and ["ab", "b"], "ab" is emitted at the second character. */
  lemma {:induction false} AbBRun(text: string, ks: seq<string>)
    requires text == "ab" && ks == ["ab", "b"]
    ensures Run(Corrected, text, ks) == Done([text])
  {
    var s1 := State(map["ab" := "a"], [], "a", []);
    var s2 := State(map["ab" := "ab", "b" := "b"], ["ab", "b"], "ab", []);
    var s3 := State(map[], [], "", ["ab"]);
    AbBStep1(ks);
    ScanUnfold(Corrected, text, ks, 1, Start);
    AbBStep2(ks, s1);
    AbBSelect(s2.usages, s2.matches);
    AbBEmit(text, ks, s2);
    ScanUnfold(Corrected, text, ks, 2, s1);
    RunAfterScan(Corrected, text, ks, s3);
    FlushEnd(Corrected, s3.matches, s3.sequence, s3.result);
  }

  /** With the repeat removed, "ab" is kept whole. */
  lemma {:induction false} AbAbCorrected(text: string, ks: seq<string>)
    requires text == "ab" && ks == ["ab", "ab", "b"]
    ensures Run(Corrected, text, Dedup(ks)) == Done([text])
  {
    AbAbDedup(ks);
    AbBRun(text, Dedup(ks));
  }

  /** `s.rfind(t)` is the position of the last occurrence. */
  lemma {:induction false} LastOccurrence(s: string, t: string, i: nat)
    requires OccursAt(t, s, i) && forall j :: i < j ==> !OccursAt(t, s, j)
    ensures RFind(s, t) == Some(i)
  {
  }

  lemma {:induction false} RSplitAt(s: string, t: string, i: nat)
    requires RFind(s, t) == Some(i)
    ensures RSplit(s, t) == Some(Split(s[..i], s[i + |t|..]))
  {
  }

  lemma {:induction false} RunAfterScan(v: Variant, text: string, ks: seq<string>, st: State)
    requires Scan(v, text, ks, |text|) == Done(st)
    ensures Run(v, text, ks) == Flush(v, st.matches, st.sequence, st.result)
  {
  }

  lemma {:induction false} FlushSplit(v: Variant, ms: seq<string>, sequence: string, result: seq<string>, sp: Split)
    requires ms != [] && (v == AsWritten || Contains(sequence, ms[0])) && RSplit(sequence, ms[0]) == Some(sp)
    ensures Flush(v, ms, sequence, result) == Flush(v, ms[1..], sp.suffix, result + [sp.prefix, ms[0]])
  {
  }

  lemma {:induction false} FlushSkip(ms: seq<string>, sequence: string, result: seq<string>)
    requires ms != [] && !Contains(sequence, ms[0])
    ensures Flush(Corrected, ms, sequence, result) == Flush(Corrected, ms[1..], sequence, result)
  {
  }

  lemma {:induction false} FlushEnd(v: Variant, ms: seq<string>, sequence: string, result: seq<string>)
    requires ms == [] && sequence == ""
    ensures Flush(v, ms, sequence, result) == Done(result)
  {
  }

  lemma {:induction false} NotContainedShorter(s: string, t: string)
    requires |s| < |t|
    ensures !Contains(s, t)
  {
  }

  /** With no occurrence, rsplit of a one-character term takes the whole buffer as prefix and an empty suffix. */
  lemma {:induction false} EmptySplit(s: string, t: string)
    requires s == "" && |t| == 1
    ensures RSplit(s, t) == Some(Split("", ""))
  {
  }

  lemma {:induction false} NotContainedSameLength(s: string, t: string)
    requires |s| == |t| && s != t
    ensures !Contains(s, t)
  {
    assert s[0..|t|] == s;
  }

  /** A single pending match whose text is still tracked is dropped from the matches. */
  lemma {:induction false} WithoutSingle(ms: seq<string>, u: map<string, string>)
    requires |ms| == 1 && ms[0] in u && u[ms[0]] == ms[0]
    ensures Without(ms, u.Values) == []
  {
    assert u[ms[0]] in u.Values;
  }

  /** Emitting the only tracked string leaves nothing tracked. */
  lemma {:induction false} CleanupAll(v: Variant, u: map<string, string>, m: string)
    requires u == map[m := m]
    ensures Cleanup(v, u, m, "") == map[]
  {
    assert OccursAt(m, m, 0);
  }
}
