/**
 * The keyterm-preserving tokenizer of core/tokenizer_source/tokenizer.h.
 *
 * `tokenize(text, keyterms)` reads `text` one character at a time.  For every
 * keyterm it remembers the live partial match (`usages`), for every tracked
 * string the keyterms that track it (`string_usages`) and the keyterms whose
 * match has completed (`matches`).  After each character it emits the longest
 * completed match that no other keyterm shares and no other tracked string
 * contains, tokenizing first, recursively, the text buffered before it.
 *
 * The functions below are the reference semantics of that code.  They are
 * parameterised by a `Variant`: `AsWritten` is the code as it stands;
 * `Corrected` differs in two places (see `Discarded` and `Flush`), because the
 * code as written does not keep its own round-trip invariant.  The method
 * `TokenizeScan` is the imperative algorithm (corrected), proved to compute
 * `Run(Corrected, ...)`; `Tokenize` adds the rejection of duplicate keyterms.
 *
 * The C++ `char` strings are modelled as `string`; characters are compared by
 * their code, as `std::string` compares bytes as unsigned values.
 */
module Tokenizer {
  import opened Wrappers

  // ---------------------------------------------------------------------
  // Strings

  predicate IsPrefix(b: string, a: string) { |b| <= |a| && a[..|b|] == b }

  predicate IsSuffix(b: string, a: string) { |b| <= |a| && a[|a| - |b|..] == b }

  /** `t` occurs in `s` starting at position `i`. */
  predicate OccursAt(t: string, s: string, i: int)
  {
    0 <= i && i + |t| <= |s| && s[i..i + |t|] == t
  }

  /**
   * `startswith(a, b)`: `a.compare(0, b.length(), b) == 0` compares the first
   * `|b|` characters of `a` (all of `a` when it is shorter) with `b`.
   */
  function StartsWith(a: string, b: string): (r: bool)
    ensures r <==> |b| <= |a| && forall i :: 0 <= i < |b| ==> a[i] == b[i]
  {
    var n := if |b| <= |a| then |b| else |a|;
    a[..n] == b
  }

  /** The greatest position below `k` at which `t` occurs in `s`. */
  function RFindBelow(s: string, t: string, k: nat): (r: Option<nat>)
    requires k <= |s| - |t| + 1
    ensures r.Some? ==> r.value < k && OccursAt(t, s, r.value)
    ensures r.Some? ==> forall j :: r.value < j < k ==> !OccursAt(t, s, j)
    ensures r.None? ==> forall j :: 0 <= j < k ==> !OccursAt(t, s, j)
    decreases k
  {
    if k == 0 then None
    else if s[k - 1..k - 1 + |t|] == t then Some(k - 1)
    else RFindBelow(s, t, k - 1)
  }

  /** `s.rfind(t)`: the last position at which `t` occurs in `s`; None stands for `npos`. */
  function RFind(s: string, t: string): (r: Option<nat>)
    ensures r.Some? ==> OccursAt(t, s, r.value) && forall j :: r.value < j ==> !OccursAt(t, s, j)
    ensures r.None? ==> forall j :: !OccursAt(t, s, j)
  {
    if |t| <= |s| then RFindBelow(s, t, |s| - |t| + 1) else None
  }

  /** `s.find(t) != npos`: `t` is a substring of `s`. */
  predicate Contains(s: string, t: string)
  {
    RFind(s, t).Some?
  }

  lemma {:induction false} ContainsAt(s: string, t: string, i: int)
    requires OccursAt(t, s, i)
    ensures Contains(s, t)
  {
  }

  lemma {:induction false} ContainsExtended(s: string, t: string, c: char)
    requires Contains(s, t)
    ensures Contains(s + [c], t)
  {
    var i := RFind(s, t).value;
    assert (s + [c])[i..i + |t|] == s[i..i + |t|];
    ContainsAt(s + [c], t, i);
  }

  lemma {:induction false} SuffixExtended(x: string, s: string, c: char)
    requires IsSuffix(x, s)
    ensures IsSuffix(x + [c], s + [c])
  {
    assert (s + [c])[|s + [c]| - |x + [c]|..] == s[|s| - |x|..] + [c];
  }

  lemma {:induction false} SuffixContained(x: string, s: string)
    requires IsSuffix(x, s)
    ensures Contains(s, x)
  {
    ContainsAt(s, x, |s| - |x|);
  }

  /** The two halves of `sequence` around one occurrence of `term`. */
  datatype Split = Split(prefix: string, suffix: string)

  /**
   * `rsplit(sequence, term)` (tokenizer.h:12-16).  When `term` does not occur,
   * `rfind` returns `npos`: the prefix is then all of `sequence`, and the
   * suffix starts at `npos + |term|`, which wraps around to `|term| - 1`;
   * `substr` throws `std::out_of_range` (None) when that is past the end.
   */
  function RSplit(sequence: string, term: string): (r: Option<Split>)
    ensures Contains(sequence, term) ==>
      && r.Some?
      && r.value.prefix + term + r.value.suffix == sequence
      && forall j :: |r.value.prefix| < j ==> !OccursAt(term, sequence, j)
    ensures r.Some? ==> IsPrefix(r.value.prefix, sequence) && IsSuffix(r.value.suffix, sequence)
  {
    match RFind(sequence, term)
    case Some(i) =>
      assert sequence == sequence[..i] + term + sequence[i + |term|..];
      Some(Split(sequence[..i], sequence[i + |term|..]))
    case None =>
      if 0 < |term| && |term| - 1 <= |sequence| then Some(Split(sequence, sequence[|term| - 1..]))
      else None
  }

  /** The concatenation of a sequence of tokens. */
  function Concat(ss: seq<string>): string
    decreases |ss|
  {
    if ss == [] then "" else Concat(ss[..|ss| - 1]) + ss[|ss| - 1]
  }

  lemma {:induction false} ConcatAppend(a: seq<string>, b: seq<string>)
    ensures Concat(a + b) == Concat(a) + Concat(b)
    decreases |b|
  {
    if b == [] {
      assert a + b == a;
    } else {
      var b', x := b[..|b| - 1], b[|b| - 1];
      var ab := a + b;
      assert ab[..|ab| - 1] == a + b' && ab[|ab| - 1] == x;
      ConcatAppend(a, b');
      assert Concat(ab) == Concat(a + b') + x;
      assert Concat(b) == Concat(b') + x;
      assert (Concat(a) + Concat(b')) + x == Concat(a) + (Concat(b') + x);
    }
  }

  // ---------------------------------------------------------------------
  // `std::set<string>` as a strictly increasing sequence

  /** `a < b` for `std::string`: lexicographic, a proper prefix first. */
  predicate LexLess(a: string, b: string)
    decreases |a|
  {
    if |a| == 0 then |b| > 0
    else if |b| == 0 then false
    else if a[0] != b[0] then a[0] < b[0]
    else LexLess(a[1..], b[1..])
  }

  lemma {:induction false} LexLessIrreflexive(a: string)
    ensures !LexLess(a, a)
    decreases |a|
  {
    if |a| > 0 {
      LexLessIrreflexive(a[1..]);
    }
  }

  lemma {:induction false} LexLessTransitive(a: string, b: string, c: string)
    requires LexLess(a, b) && LexLess(b, c)
    ensures LexLess(a, c)
    decreases |a|
  {
    if |a| > 0 && a[0] == b[0] && b[0] == c[0] {
      LexLessTransitive(a[1..], b[1..], c[1..]);
    }
  }

  lemma {:induction false} LexLessTotal(a: string, b: string)
    requires a != b
    ensures LexLess(a, b) || LexLess(b, a)
    decreases |a|
  {
    if |a| > 0 && |b| > 0 && a[0] == b[0] {
      assert a == [a[0]] + a[1..] && b == [b[0]] + b[1..];
      LexLessTotal(a[1..], b[1..]);
    }
  }

  /** The iteration order of a `std::set<string>`. */
  ghost predicate Sorted(ms: seq<string>)
  {
    forall i, j :: 0 <= i < j < |ms| ==> LexLess(ms[i], ms[j])
  }

  /** `std::set<string>::insert`: no change when `t` is present already. */
  function Insert(ms: seq<string>, t: string): (r: seq<string>)
    ensures forall x :: x in r <==> x in ms || x == t
    decreases |ms|
  {
    if ms == [] then [t]
    else if ms[0] == t then ms
    else if LexLess(t, ms[0]) then [t] + ms
    else [ms[0]] + Insert(ms[1..], t)
  }

  lemma {:induction false} InsertSorted(ms: seq<string>, t: string)
    requires Sorted(ms)
    ensures Sorted(Insert(ms, t))
    decreases |ms|
  {
    if ms != [] && ms[0] != t {
      if LexLess(t, ms[0]) {
        forall j | 0 < j < |ms| ensures LexLess(t, ms[j]) {
          LexLessTransitive(t, ms[0], ms[j]);
        }
      } else {
        LexLessTotal(t, ms[0]);
        InsertSorted(ms[1..], t);
        var r := Insert(ms, t);
        forall i, j | 0 <= i < j < |r| ensures LexLess(r[i], r[j]) {
          if i == 0 {
            assert r[j] in Insert(ms[1..], t);
            if r[j] != t {
              var k :| 0 <= k < |ms[1..]| && ms[1..][k] == r[j];
              assert ms[k + 1] == r[j];
            }
          } else {
            assert r[i] == Insert(ms[1..], t)[i - 1] && r[j] == Insert(ms[1..], t)[j - 1];
          }
        }
      }
    }
  }

  /** The elements of `ms` that are not in `gone`, in order (`std::set::erase`). */
  function Without(ms: seq<string>, gone: set<string>): (r: seq<string>)
    ensures forall x :: x in r <==> x in ms && x !in gone
    decreases |ms|
  {
    if ms == [] then []
    else (if ms[0] in gone then [] else [ms[0]]) + Without(ms[1..], gone)
  }

  lemma {:induction false} WithoutAll(ms: seq<string>, gone: set<string>)
    requires forall m :: m in ms ==> m in gone
    ensures Without(ms, gone) == []
    decreases |ms|
  {
    if ms != [] {
      assert ms[0] in ms;
      forall m | m in ms[1..] ensures m in gone {
        assert m in ms;
      }
      WithoutAll(ms[1..], gone);
    }
  }

  // ---------------------------------------------------------------------
  // The scanner state and one step of it

  /** Which cleanup the scanner applies: the code as written or the corrected one. */
  datatype Variant = AsWritten | Corrected

  /**
   * How a call ends: with its tokens, with `std::out_of_range` thrown by
   * `substr`, or in unbounded recursion (the call calls itself on its own
   * input, so it never returns).
   */
  datatype Outcome<+T> = Done(value: T) | Thrown | Diverges

  /**
   * The local variables of one `tokenize` call: `usages` maps a keyterm to the
   * text it tracks, `matches` holds the completed keyterms in `std::set` order,
   * `sequence` is the buffer since the last emitted token and `result` the
   * tokens emitted so far.  `string_usages` is not stored: it is always
   * `Inverse(usages)` (proved of `TokenizeScan`).
   */
  datatype State = State(usages: map<string, string>, matches: seq<string>, sequence: string, result: seq<string>)

  const Start := State(map[], [], "", [])

  /** The body of the keyterm loop for one `term` and the new character `c` (lines 35-71). */
  function UpdateTerm(st: State, term: string, c: char): State
  {
    var cur := if term in st.usages then st.usages[term] + [c] else [c];
    var usages :=
      if term in st.matches then st.usages
      else if StartsWith(term, cur) then st.usages[term := cur]
      else st.usages - {term};
    st.(usages := usages, matches := if term == cur then Insert(st.matches, term) else st.matches)
  }

  /** The keyterm loop (lines 34-72), over the keyterms in order. */
  function UpdateTerms(st: State, ks: seq<string>, c: char): State
    decreases |ks|
  {
    if ks == [] then st else UpdateTerm(UpdateTerms(st, ks[..|ks| - 1], c), ks[|ks| - 1], c)
  }

  /** Appending the character to the buffer, then the keyterm loop (lines 31-72). */
  function Advance(st: State, ks: seq<string>, c: char): State
  {
    UpdateTerms(st.(sequence := st.sequence + [c]), ks, c)
  }

  /** The keyterms that track exactly `s`: the entry `string_usages[s]`. */
  function Users(u: map<string, string>, s: string): set<string>
  {
    set t | t in u && u[t] == s
  }

  /** `string_usages` as a function of `usages`. */
  function Inverse(u: map<string, string>): map<string, set<string>>
  {
    map s | s in u.Values :: Users(u, s)
  }

  /** Another keyterm tracks exactly the string `m` (`string_usages[match].size() > 1`, line 80). */
  predicate Shared(u: map<string, string>, m: string)
  {
    exists t | t in u :: t != m && u[t] == m
  }

  /** Some other tracked string contains `m` (lines 83-88). */
  predicate Shadowed(u: map<string, string>, m: string)
  {
    exists t | t in u :: u[t] != m && Contains(u[t], m)
  }

  /** A completed match that may be emitted now. */
  predicate Eligible(u: map<string, string>, m: string)
  {
    !Shared(u, m) && !Shadowed(u, m)
  }

  /**
   * The candidate loop (lines 75-94): walks `ms` in order and keeps the first
   * eligible match that is strictly longer than the best so far.
   */
  function SelectFrom(u: map<string, string>, ms: seq<string>, cand: string): (r: string)
    ensures r == cand || (r in ms && Eligible(u, r) && |cand| < |r|)
    ensures |cand| <= |r|
    decreases |ms|
  {
    if ms == [] then cand
    else SelectFrom(u, ms[1..], if Eligible(u, ms[0]) && |ms[0]| > |cand| then ms[0] else cand)
  }

  /** No eligible match is longer than the one selected. */
  lemma {:induction false} SelectLongest(u: map<string, string>, ms: seq<string>, cand: string, m: string)
    requires m in ms && Eligible(u, m)
    ensures |m| <= |SelectFrom(u, ms, cand)|
    decreases |ms|
  {
    var next := if Eligible(u, ms[0]) && |ms[0]| > |cand| then ms[0] else cand;
    if m != ms[0] {
      SelectLongest(u, ms[1..], next, m);
    }
  }

  /**
   * Whether the tracked string `s` is dropped once `term` has been emitted
   * and the buffer has become `suffix`.  As written (lines 111-116): when `s`
   * is a substring of `term`.  Corrected: also when `s` reaches back into the
   * emitted text, i.e. is not a suffix of the new buffer.
   */
  predicate Discarded(v: Variant, term: string, s: string, suffix: string)
  {
    Contains(term, s) || (v == Corrected && !IsSuffix(s, suffix))
  }

  /** The `usages` that survive the emission of `term`. */
  function Cleanup(v: Variant, u: map<string, string>, term: string, suffix: string): (r: map<string, string>)
    ensures forall t :: t in r <==> t in u && !Discarded(v, term, u[t], suffix)
    ensures forall t :: t in r ==> r[t] == u[t]
  {
    map t | t in u && !Discarded(v, term, u[t], suffix) :: u[t]
  }

  /** `tokenize(text, ks)`: the scan of all of `text`, then the end-of-input flush. */
  function Run(v: Variant, text: string, ks: seq<string>): Outcome<seq<string>>
    decreases |text|, 1, 0, 0
  {
    match Scan(v, text, ks, |text|)
    case Done(st) => Flush(v, st.matches, st.sequence, st.result)
    case Thrown => Thrown
    case Diverges => Diverges
  }

  /** The state after the first `n` characters of `text` (lines 29-122). */
  function Scan(v: Variant, text: string, ks: seq<string>, n: nat): Outcome<State>
    requires n <= |text|
    decreases |text|, 0, n, 1
  {
    if n == 0 then Done(Start)
    else match Scan(v, text, ks, n - 1)
      case Done(st) =>
        var st1 := Advance(st, ks, text[n - 1]);
        var cand := SelectFrom(st1.usages, st1.matches, "");
        if cand == "" then Done(st1) else Emit(v, text, ks, n, st1, cand)
      case Thrown => Thrown
      case Diverges => Diverges
  }

  /**
   * The emission of `cand` (lines 96-121): split the buffer at its last
   * occurrence, tokenize the prefix recursively, push `cand`, clean up.  The
   * recursive call is on a prefix of `text`; when that prefix is all of
   * `text` (`|prefix| >= |text|`, see `SelfCall`) the C++ call repeats itself
   * forever, which the model reports as `Diverges`.
   */
  function Emit(v: Variant, text: string, ks: seq<string>, n: nat, st: State, cand: string): Outcome<State>
    requires n <= |text|
    decreases |text|, 0, n, 0
  {
    match RSplit(st.sequence, cand)
    case None => Thrown
    case Some(sp) =>
      var pre :=
        if |sp.prefix| == 0 then Done([])
        else if |sp.prefix| < |text| then Run(v, sp.prefix, ks)
        else Diverges;
      match pre
      case Done(toks) =>
        Done(State(Cleanup(v, st.usages, cand, sp.suffix), Without(st.matches, st.usages.Values),
                   sp.suffix, st.result + toks + [cand]))
      case Thrown => Thrown
      case Diverges => Diverges
  }

  /**
   * The end-of-input flush (lines 124-134): for each pending match in set
   * order, push the text before its last occurrence and the match itself;
   * then push what is left, if anything.  Corrected: a match that no longer
   * occurs in the buffer (its text went out with an earlier prefix) is skipped.
   */
  function Flush(v: Variant, ms: seq<string>, sequence: string, result: seq<string>): Outcome<seq<string>>
    decreases |ms|
  {
    if ms == [] then Done(if |sequence| > 0 then result + [sequence] else result)
    else if v == Corrected && !Contains(sequence, ms[0]) then Flush(v, ms[1..], sequence, result)
    else match RSplit(sequence, ms[0])
      case None => Thrown
      case Some(sp) => Flush(v, ms[1..], sp.suffix, result + [sp.prefix, ms[0]])
  }

  /** The keyterm loop leaves the buffer and the tokens alone. */
  lemma {:induction false} UpdateTermsFrame(st: State, ks: seq<string>, c: char)
    ensures UpdateTerms(st, ks, c).sequence == st.sequence
    ensures UpdateTerms(st, ks, c).result == st.result
    decreases |ks|
  {
    if ks != [] {
      UpdateTermsFrame(st, ks[..|ks| - 1], c);
    }
  }

  lemma {:induction false} SuffixOfSuffix(a: string, b: string, c: string)
    requires IsSuffix(a, b) && IsSuffix(b, c)
    ensures IsSuffix(a, c)
  {
    assert c[|c| - |a|..] == c[|c| - |b|..][|b| - |a|..];
  }

  /** In either variant the buffer is always a suffix of the text read so far. */
  lemma {:induction false} ScanSuffix(v: Variant, text: string, ks: seq<string>, n: nat)
    requires n <= |text|
    ensures Scan(v, text, ks, n).Done? ==> IsSuffix(Scan(v, text, ks, n).value.sequence, text[..n])
    decreases n
  {
    if n > 0 {
      var prev := Scan(v, text, ks, n - 1);
      if prev.Done? {
        ScanSuffix(v, text, ks, n - 1);
        ScanSuffixStep(v, text, ks, n, prev.value);
      } else {
        ScanStuck(v, text, ks, n);
      }
    }
  }

  lemma {:induction false} ScanStuck(v: Variant, text: string, ks: seq<string>, n: nat)
    requires 0 < n <= |text| && !Scan(v, text, ks, n - 1).Done?
    ensures !Scan(v, text, ks, n).Done?
  {
  }

  lemma {:induction false} ScanSuffixStep(v: Variant, text: string, ks: seq<string>, n: nat, st: State)
    requires 0 < n <= |text| && Scan(v, text, ks, n - 1) == Done(st)
    requires IsSuffix(st.sequence, text[..n - 1])
    ensures Scan(v, text, ks, n).Done? ==> IsSuffix(Scan(v, text, ks, n).value.sequence, text[..n])
  {
    ScanUnfold(v, text, ks, n, st);
    var st1 := Advance(st, ks, text[n - 1]);
    AdvanceSuffix(text, n, ks, st);
    var cand := SelectFrom(st1.usages, st1.matches, "");
    if cand != "" {
      EmitSuffix(v, text, ks, n, st1, cand);
    }
  }

  /** The buffer grows by the character read. */
  lemma {:induction false} AdvanceSuffix(text: string, n: nat, ks: seq<string>, st: State)
    requires 0 < n <= |text| && IsSuffix(st.sequence, text[..n - 1])
    ensures Advance(st, ks, text[n - 1]).sequence == st.sequence + [text[n - 1]]
    ensures IsSuffix(Advance(st, ks, text[n - 1]).sequence, text[..n])
  {
    var c := text[n - 1];
    UpdateTermsFrame(st.(sequence := st.sequence + [c]), ks, c);
    SuffixStep(text, n, st.sequence);
  }

  lemma {:induction false} EmitSuffix(v: Variant, text: string, ks: seq<string>, n: nat, st: State, cand: string)
    requires n <= |text| && IsSuffix(st.sequence, text[..n])
    ensures Emit(v, text, ks, n, st, cand).Done? ==> IsSuffix(Emit(v, text, ks, n, st, cand).value.sequence, text[..n])
  {
    match RSplit(st.sequence, cand)
    case None =>
    case Some(sp) =>
      SuffixOfSuffix(sp.suffix, st.sequence, text[..n]);
  }

  /**
   * `Diverges` is exact: when `Emit` gives up because the prefix is not
   * shorter than `text`, the prefix is `text` itself, so the C++ call
   * `tokenize(prefix, keyterms)` repeats the call it is made from.
   */
  lemma {:induction false} SelfCall(v: Variant, text: string, ks: seq<string>, n: nat, st: State, cand: string, sp: Split)
    requires 0 < n <= |text| && Scan(v, text, ks, n - 1) == Done(st)
    requires RSplit(Advance(st, ks, text[n - 1]).sequence, cand) == Some(sp) && |sp.prefix| >= |text|
    ensures sp.prefix == text
  {
    ScanSuffix(v, text, ks, n - 1);
    AdvanceSuffix(text, n, ks, st);
    WholePrefix(text, n, Advance(st, ks, text[n - 1]).sequence, sp.prefix);
  }

  lemma {:induction false} SuffixStep(text: string, n: nat, s: string)
    requires 0 < n <= |text| && IsSuffix(s, text[..n - 1])
    ensures IsSuffix(s + [text[n - 1]], text[..n])
  {
    assert text[..n] == text[..n - 1] + [text[n - 1]];
    SuffixExtended(s, text[..n - 1], text[n - 1]);
  }

  lemma {:induction false} WholePrefix(text: string, n: nat, sq: string, prefix: string)
    requires n <= |text| && IsSuffix(sq, text[..n]) && IsPrefix(prefix, sq) && |prefix| >= |text|
    ensures prefix == text
  {
    assert text[..n] == text;
  }

  // ---------------------------------------------------------------------
  // Invariants of the corrected scanner

  predicate Distinct(ks: seq<string>)
  {
    forall i, j :: 0 <= i < j < |ks| ==> ks[i] != ks[j]
  }

  /**
   * What the scanner keeps true while the keyterms in `done` have already
   * seen the newest character and the others still track text of `before`
   * (the buffer without that character): every tracked string is a prefix of
   * its keyterm; a completed match tracks itself and occurs in the buffer; a
   * live partial match is a suffix of the buffer; `matches` is in set order.
   */
  ghost predicate Tracking(ks: seq<string>, st: State, done: set<string>, before: string)
  {
    && (forall t | t in st.usages :: t in ks && IsPrefix(st.usages[t], t))
    && (forall m | m in st.matches :: m in st.usages && st.usages[m] == m && Contains(st.sequence, m))
    && (forall t | t in st.usages && t !in st.matches ::
          IsSuffix(st.usages[t], if t in done then st.sequence else before))
    && Sorted(st.matches)
  }

  function Elems(ks: seq<string>): set<string>
  {
    set t | t in ks
  }

  /** `Tracking` between two characters, when every keyterm is up to date. */
  ghost predicate Tracked(ks: seq<string>, st: State)
  {
    Tracking(ks, st, Elems(ks), st.sequence)
  }

  lemma {:induction false} UpdateTermKeeps(ks: seq<string>, st: State, done: set<string>, before: string, t: string, c: char)
    requires st.sequence == before + [c]
    requires Tracking(ks, st, done, before) && t in ks && t !in done
    ensures Tracking(ks, UpdateTerm(st, t, c), done + {t}, before)
    ensures UpdateTerm(st, t, c).sequence == st.sequence && UpdateTerm(st, t, c).result == st.result
  {
    var u := st.usages;
    var cur := if t in u then u[t] + [c] else [c];
    if t in st.matches {
      assert |cur| == |t| + 1;
      assert UpdateTerm(st, t, c) == st;
    } else {
      if t in u {
        SuffixExtended(u[t], before, c);
      } else {
        assert st.sequence[|st.sequence| - 1..] == [c];
      }
      if StartsWith(t, cur) {
        GrowKeeps(ks, st, done, before, t, cur);
      } else {
        assert t != cur;
        assert UpdateTerm(st, t, c) == st.(usages := u - {t});
      }
    }
  }

  /** A keyterm whose partial match grew to `cur`, a suffix of the buffer, keeps `Tracking`. */
  lemma {:induction false} GrowKeeps(ks: seq<string>, st: State, done: set<string>, before: string, t: string, cur: string)
    requires Tracking(ks, st, done, before) && t in ks && t !in st.matches
    requires IsSuffix(cur, st.sequence) && StartsWith(t, cur)
    ensures Tracking(ks, st.(usages := st.usages[t := cur], matches := if t == cur then Insert(st.matches, t) else st.matches),
                     done + {t}, before)
  {
    if t == cur {
      SuffixContained(cur, st.sequence);
      InsertSorted(st.matches, t);
    }
  }

  lemma {:induction false} UpdateTermsKeeps(ks: seq<string>, st: State, before: string, c: char, j: nat)
    requires Distinct(ks) && j <= |ks|
    requires st.sequence == before + [c] && Tracking(ks, st, {}, before)
    ensures Tracking(ks, UpdateTerms(st, ks[..j], c), Elems(ks[..j]), before)
    ensures UpdateTerms(st, ks[..j], c).sequence == st.sequence
    ensures UpdateTerms(st, ks[..j], c).result == st.result
  {
    if j == 0 {
      assert ks[..0] == [];
      assert Elems(ks[..0]) == {};
    } else {
      assert ks[..j][..j - 1] == ks[..j - 1];
      UpdateTermsKeeps(ks, st, before, c, j - 1);
      var done := Elems(ks[..j - 1]);
      UpdateTermKeeps(ks, UpdateTerms(st, ks[..j - 1], c), done, before, ks[j - 1], c);
      assert Elems(ks[..j]) == done + {ks[j - 1]};
    }
  }

  lemma {:induction false} AdvanceKeeps(ks: seq<string>, st: State, c: char)
    requires Distinct(ks) && Tracked(ks, st)
    ensures Tracked(ks, Advance(st, ks, c))
    ensures Advance(st, ks, c).sequence == st.sequence + [c]
    ensures Advance(st, ks, c).result == st.result
  {
    var st0 := st.(sequence := st.sequence + [c]);
    forall m | m in st0.matches ensures Contains(st0.sequence, m) {
      ContainsExtended(st.sequence, m, c);
    }
    assert Tracking(ks, st0, {}, st.sequence);
    UpdateTermsKeeps(ks, st0, st.sequence, c, |ks|);
    assert ks[..|ks|] == ks;
  }

  /** The corrected scanner keeps the round trip and its tracking invariant. */
  lemma {:induction false} ScanKeeps(text: string, ks: seq<string>, n: nat)
    requires Distinct(ks) && n <= |text|
    ensures Scan(Corrected, text, ks, n).Done?
    ensures Concat(Scan(Corrected, text, ks, n).value.result) + Scan(Corrected, text, ks, n).value.sequence == text[..n]
    ensures Tracked(ks, Scan(Corrected, text, ks, n).value)
    decreases |text|, 0, n, 1
  {
    if n > 0 {
      ScanKeeps(text, ks, n - 1);
      var st := Scan(Corrected, text, ks, n - 1).value;
      var c := text[n - 1];
      AdvanceKeeps(ks, st, c);
      ScanUnfold(Corrected, text, ks, n, st);
      var st1 := Advance(st, ks, c);
      PrefixExtended(text, n, Concat(st.result), st.sequence);
      var cand := SelectFrom(st1.usages, st1.matches, "");
      if cand != "" {
        EmitKeeps(text, ks, n, st1, cand);
      }
    }
  }

  lemma {:induction false} PrefixExtended(text: string, n: nat, done: string, pending: string)
    requires 0 < n <= |text| && done + pending == text[..n - 1]
    ensures done + (pending + [text[n - 1]]) == text[..n]
  {
    assert text[..n] == text[..n - 1] + [text[n - 1]];
  }

  /** An emission keeps the round trip and, after the corrected cleanup, the tracking invariant. */
  lemma {:induction false} EmitKeeps(text: string, ks: seq<string>, n: nat, st: State, cand: string)
    requires Distinct(ks) && n <= |text| && Tracked(ks, st)
    requires |st.sequence| <= n && cand != "" && cand == SelectFrom(st.usages, st.matches, "")
    ensures Emit(Corrected, text, ks, n, st, cand).Done?
    ensures Concat(Emit(Corrected, text, ks, n, st, cand).value.result) + Emit(Corrected, text, ks, n, st, cand).value.sequence
            == Concat(st.result) + st.sequence
    ensures Tracked(ks, Emit(Corrected, text, ks, n, st, cand).value)
    decreases |text|, 0, n, 0
  {
    assert Contains(st.sequence, cand);
    var sp := RSplit(st.sequence, cand).value;
    var toks: seq<string> := [];
    if |sp.prefix| > 0 {
      RunRoundTrip(sp.prefix, ks);
      toks := Run(Corrected, sp.prefix, ks).value;
    }
    assert Concat(toks) == sp.prefix;
    EmitUnfold(Corrected, text, ks, n, st, cand, sp, toks);
    var next := State(Cleanup(Corrected, st.usages, cand, sp.suffix), Without(st.matches, st.usages.Values),
                      sp.suffix, st.result + toks + [cand]);
    assert Emit(Corrected, text, ks, n, st, cand) == Done(next);
    ConcatEmitted(st.result, toks, cand, sp.suffix, st.sequence);
    CleanupKeeps(ks, st, cand, sp, next.result);
  }

  lemma {:induction false} ConcatEmitted(result: seq<string>, toks: seq<string>, cand: string, suffix: string, sequence: string)
    requires Concat(toks) + cand + suffix == sequence
    ensures Concat(result + toks + [cand]) + suffix == Concat(result) + sequence
  {
    var rt := result + toks;
    ConcatPush(rt, cand);
    ConcatAppend(result, toks);
    var r, t := Concat(result), Concat(toks);
    assert (r + t) + cand + suffix == r + (t + cand + suffix);
  }

  lemma {:induction false} ConcatPush(ss: seq<string>, x: string)
    ensures Concat(ss + [x]) == Concat(ss) + x
  {
    assert (ss + [x])[..|ss|] == ss;
  }

  /** The corrected cleanup leaves only suffixes of the new buffer and clears `matches`. */
  lemma {:induction false} CleanupKeeps(ks: seq<string>, st: State, cand: string, sp: Split, result: seq<string>)
    requires Tracked(ks, st)
    ensures Tracked(ks, State(Cleanup(Corrected, st.usages, cand, sp.suffix),
                              Without(st.matches, st.usages.Values), sp.suffix, result))
  {
    forall m | m in st.matches ensures m in st.usages.Values {
      assert st.usages[m] == m;
    }
    WithoutAll(st.matches, st.usages.Values);
  }

  lemma {:induction false} ConcatSingle(a: string)
    ensures Concat([a]) == a
  {
    assert [a][..0] == [];
  }

  lemma {:induction false} ConcatPair(a: string, b: string)
    ensures Concat([a, b]) == a + b
  {
    assert [a, b][..1] == [a];
    ConcatSingle(a);
  }

  /** Flushing a buffer (corrected) returns tokens that concatenate back to it. */
  lemma {:induction false} FlushRoundTrip(ms: seq<string>, sequence: string, result: seq<string>)
    ensures Flush(Corrected, ms, sequence, result).Done?
    ensures Concat(Flush(Corrected, ms, sequence, result).value) == Concat(result) + sequence
    decreases |ms|
  {
    if ms == [] {
      if |sequence| > 0 {
        ConcatPush(result, sequence);
      } else {
        assert Concat(result) + sequence == Concat(result);
      }
    } else if Contains(sequence, ms[0]) {
      var sp := RSplit(sequence, ms[0]).value;
      FlushRoundTrip(ms[1..], sp.suffix, result + [sp.prefix, ms[0]]);
      FlushSplitText(result, sequence, ms[0], sp);
    } else {
      FlushRoundTrip(ms[1..], sequence, result);
    }
  }

  /** Pushing the text before a match and the match keeps the text. */
  lemma {:induction false} FlushSplitText(result: seq<string>, sequence: string, m: string, sp: Split)
    requires sp.prefix + m + sp.suffix == sequence
    ensures Concat(result + [sp.prefix, m]) + sp.suffix == Concat(result) + sequence
  {
    var next := result + [sp.prefix, m];
    assert next == (result + [sp.prefix]) + [m];
    ConcatPush(result + [sp.prefix], m);
    ConcatPush(result, sp.prefix);
    var r := Concat(result);
    assert (r + sp.prefix) + m + sp.suffix == r + (sp.prefix + m + sp.suffix);
  }

  /** Round trip: with distinct keyterms the corrected tokenizer returns, and its tokens concatenate to `text`. */
  lemma {:induction false} RunRoundTrip(text: string, ks: seq<string>)
    requires Distinct(ks)
    ensures Run(Corrected, text, ks).Done?
    ensures Concat(Run(Corrected, text, ks).value) == text
    decreases |text|, 1, 0
  {
    ScanKeeps(text, ks, |text|);
    var st := Scan(Corrected, text, ks, |text|).value;
    FlushRoundTrip(st.matches, st.sequence, st.result);
    assert text[..|text|] == text;
  }

  // ---------------------------------------------------------------------
  // `string_usages`, the inverse of `usages`

  /** `string_usages[s].erase(t)` followed by erasing the entry if it became empty (lines 52-54, 61-63). */
  function RemoveUser(su: map<string, set<string>>, s: string, t: string): map<string, set<string>>
  {
    var users := (if s in su then su[s] else {}) - {t};
    if users == {} then su - {s} else su[s := users]
  }

  /** `string_usages[s].insert(t)` (line 57). */
  function AddUser(su: map<string, set<string>>, s: string, t: string): map<string, set<string>>
  {
    su[s := (if s in su then su[s] else {}) + {t}]
  }

  lemma {:induction false} InverseRemove(u: map<string, string>, t: string)
    requires t in u
    ensures Inverse(u - {t}) == RemoveUser(Inverse(u), u[t], t)
  {
    var u' := u - {t};
    var l := Inverse(u');
    var r := RemoveUser(Inverse(u), u[t], t);
    forall s ensures s in l <==> s in r {
      if s in l {
        var t' :| t' in u' && u'[t'] == s;
        assert t' in Users(u, s);
      }
      if s in r {
        if s == u[t] {
          var t' :| t' in Users(u, s) - {t};
          assert u'[t'] == s;
        } else {
          var t' :| t' in u && u[t'] == s;
          assert u'[t'] == s;
        }
      }
    }
    forall s | s in l ensures l[s] == r[s] {
      assert Users(u', s) == Users(u, s) - {t};
    }
  }

  lemma {:induction false} InverseAdd(u: map<string, string>, t: string, s: string)
    requires t !in u
    ensures Inverse(u[t := s]) == AddUser(Inverse(u), s, t)
  {
    var u' := u[t := s];
    var l := Inverse(u');
    var r := AddUser(Inverse(u), s, t);
    forall x ensures x in l <==> x in r {
      if x in l && x != s {
        var t' :| t' in u' && u'[t'] == x;
        assert u[t'] == x;
      }
      if x in r && x != s {
        var t' :| t' in u && u[t'] == x;
        assert u'[t'] == x;
      }
      if x == s {
        assert u'[t] == s;
      }
    }
    forall x | x in l ensures l[x] == r[x] {
      assert Users(u', x) == Users(u, x) + (if x == s then {t} else {});
    }
  }

  /** A completed match is the only keyterm tracking it exactly when it is not shared (line 80). */
  lemma {:induction false} SharedCount(u: map<string, string>, m: string)
    requires m in u && u[m] == m
    ensures m in Inverse(u)
    ensures Shared(u, m) <==> |Inverse(u)[m]| > 1
  {
    var users := Users(u, m);
    assert m in users;
    if Shared(u, m) {
      var t :| t in u && t != m && u[t] == m;
      assert {m, t} <= users;
      assert |{m, t}| == 2;
      SubsetSize({m, t}, users);
    } else {
      assert users == {m};
    }
  }

  lemma {:induction false} SubsetSize(a: set<string>, b: set<string>)
    requires a <= b
    ensures |a| <= |b|
  {
    assert b == a + (b - a);
  }

  // ---------------------------------------------------------------------
  // The algorithm

  /**
   * The body of the keyterm loop (lines 36-71) on the C++ variables:
   * `usages`, `string_usages` and `matches` in `st`, `string_usages` in `su`.
   */
  method UpdateKeyterm(st: State, su: map<string, set<string>>, term: string, c: char)
    returns (st': State, su': map<string, set<string>>)
    requires su == Inverse(st.usages)
    ensures st' == UpdateTerm(st, term, c)
    ensures su' == Inverse(st'.usages)
  {
    var usages, matches := st.usages, st.matches;
    su' := su;
    var current := [c];
    if term in usages {
      current := usages[term] + current;
    }
    if term !in matches {
      if StartsWith(term, current) {
        ghost var others := usages - {term};
        if term in usages {
          InverseRemove(usages, term);
          su' := RemoveUser(su', usages[term], term);
        } else {
          assert others == usages;
        }
        InverseAdd(others, term, current);
        assert usages[term := current] == others[term := current];
        usages := usages[term := current];
        su' := AddUser(su', current, term);
      } else if term in usages {
        InverseRemove(usages, term);
        su' := RemoveUser(su', usages[term], term);
        usages := usages - {term};
      }
    }
    if term == current {
      matches := Insert(matches, term);
    }
    st' := st.(usages := usages, matches := matches);
  }

  /** The keyterm loop (lines 34-72). */
  method UpdateKeyterms(st: State, su: map<string, set<string>>, ks: seq<string>, c: char)
    returns (st': State, su': map<string, set<string>>)
    requires su == Inverse(st.usages)
    ensures st' == UpdateTerms(st, ks, c)
    ensures su' == Inverse(st'.usages)
  {
    st', su' := st, su;
    for j := 0 to |ks|
      invariant st' == UpdateTerms(st, ks[..j], c)
      invariant su' == Inverse(st'.usages)
    {
      assert ks[..j + 1][..j] == ks[..j];
      st', su' := UpdateKeyterm(st', su', ks[j], c);
    }
    assert ks[..|ks|] == ks;
  }

  /** Whether some tracked string other than `m` contains `m`, read off the keys of `string_usages`. */
  lemma {:induction false} ShadowedKeys(u: map<string, string>, su: map<string, set<string>>, m: string)
    requires su == Inverse(u)
    ensures Shadowed(u, m) <==> exists s | s in su :: s != m && Contains(s, m)
  {
    if Shadowed(u, m) {
      var t :| t in u && u[t] != m && Contains(u[t], m);
      assert u[t] in su;
    }
    if exists s | s in su :: s != m && Contains(s, m) {
      var s :| s in su && s != m && Contains(s, m);
      var t :| t in u && u[t] == s;
    }
  }

  /** The scan of `string_usages` for a tracked string, other than `m`, that contains `m` (lines 82-88). */
  method ContainedElsewhere(su: map<string, set<string>>, m: string) returns (invalid: bool)
    ensures invalid <==> exists s | s in su :: s != m && Contains(s, m)
  {
    invalid := false;
    var pending := su.Keys;
    while pending != {} && !invalid
      invariant pending <= su.Keys
      invariant invalid <==> exists s | s in su.Keys - pending :: s != m && Contains(s, m)
      decreases |pending|
    {
      var s :| s in pending;
      if s != m && Contains(s, m) {
        invalid := true;
      }
      TakeOne(su.Keys, pending, s);
      pending := pending - {s};
    }
    assert !invalid ==> su.Keys - pending == su.Keys;
  }

  /** The candidate loop (lines 74-94); the asserts on lines 78-79 hold. */
  method SelectCandidate(st: State, su: map<string, set<string>>) returns (candidate: string)
    requires su == Inverse(st.usages)
    requires forall m | m in st.matches :: m in st.usages && st.usages[m] == m
    ensures candidate == SelectFrom(st.usages, st.matches, "")
  {
    candidate := "";
    for k := 0 to |st.matches|
      invariant SelectFrom(st.usages, st.matches[k..], candidate) == SelectFrom(st.usages, st.matches, "")
    {
      var m := st.matches[k];
      assert st.matches[k..][1..] == st.matches[k + 1..];
      SharedCount(st.usages, m);
      assert m in su && m in st.usages;
      if |su[m]| > 1 {
        continue;
      }
      var invalid := ContainedElsewhere(su, m);
      ShadowedKeys(st.usages, su, m);
      if invalid {
        continue;
      }
      if |m| > |candidate| {
        candidate := m;
      }
    }
  }

  lemma {:induction false} WithoutTwice(ms: seq<string>, a: set<string>, b: set<string>)
    ensures Without(Without(ms, a), b) == Without(ms, a + b)
    decreases |ms|
  {
    if ms != [] {
      WithoutTwice(ms[1..], a, b);
      var w := Without(ms, a);
      if ms[0] !in a {
        assert w == [ms[0]] + Without(ms[1..], a);
        assert w != [] && w[0] == ms[0] && w[1..] == Without(ms[1..], a);
      } else {
        assert w == Without(ms[1..], a);
      }
    }
  }

  lemma {:induction false} WithoutNone(ms: seq<string>, b: set<string>)
    requires forall x :: x in b ==> x !in ms
    ensures Without(ms, b) == ms
    decreases |ms|
  {
    if ms != [] {
      assert ms[0] in ms;
      WithoutNone(ms[1..], b);
    }
  }

  /** The `usages` left once the tracked strings in `done` have been through the corrected cleanup. */
  function Kept(u: map<string, string>, done: set<string>, term: string, suffix: string): map<string, string>
  {
    map t | t in u && !(u[t] in done && Discarded(Corrected, term, u[t], suffix)) :: u[t]
  }

  lemma {:induction false} InverseDrop(u: map<string, string>, s: string)
    ensures Inverse(u - Users(u, s)) == Inverse(u) - {s}
  {
    var u' := u - Users(u, s);
    forall x ensures x in Inverse(u') <==> x in Inverse(u) - {s} {
      if x in Inverse(u) - {s} {
        var t :| t in u && u[t] == x;
        assert t in u';
      }
    }
    forall x | x in Inverse(u') ensures Inverse(u')[x] == Users(u, x) {
    }
  }

  lemma {:induction false} KeptStep(u: map<string, string>, done: set<string>, s: string, term: string, suffix: string)
    requires s !in done
    ensures Users(Kept(u, done, term, suffix), s) == Users(u, s)
    ensures Kept(u, done + {s}, term, suffix) ==
      if Discarded(Corrected, term, s, suffix) then Kept(u, done, term, suffix) - Users(u, s)
      else Kept(u, done, term, suffix)
  {
  }

  lemma {:induction false} KeptBounds(u: map<string, string>, term: string, suffix: string)
    ensures Kept(u, {}, term, suffix) == u
    ensures Kept(u, u.Values, term, suffix) == Cleanup(Corrected, u, term, suffix)
  {
    assert forall t | t in u :: u[t] in u.Values;
  }

  /** `usages.erase(t)` for each keyterm `t` in `users` (lines 113-114). */
  method EraseUsers(usages: map<string, string>, users: set<string>) returns (usages': map<string, string>)
    ensures usages' == usages - users
  {
    usages' := usages;
    var pending := users;
    while pending != {}
      invariant pending <= users
      invariant usages' == usages - (users - pending)
      decreases |pending|
    {
      var t :| t in pending;
      usages' := usages' - {t};
      pending := pending - {t};
    }
  }

  lemma {:induction false} TakeOne(all: set<string>, pending: set<string>, s: string)
    requires s in pending && pending <= all
    ensures (all - pending) + {s} == all - (pending - {s})
  {
  }

  /** The corrected cleanup loop (lines 109-119, with the discard rule of `Discarded`). */
  method CleanupUsages(st: State, su: map<string, set<string>>, term: string, suffix: string)
    returns (usages: map<string, string>, su': map<string, set<string>>, matches: seq<string>)
    requires su == Inverse(st.usages)
    ensures usages == Cleanup(Corrected, st.usages, term, suffix)
    ensures su' == Inverse(usages)
    ensures matches == Without(st.matches, st.usages.Values)
  {
    usages, su', matches := st.usages, su, st.matches;
    WithoutNone(matches, {});
    var copy := su;
    var pending := copy.Keys;
    assert copy.Keys - pending == {};
    assert copy.Keys == st.usages.Values;
    KeptBounds(st.usages, term, suffix);
    while pending != {}
      invariant pending <= copy.Keys
      invariant usages == Kept(st.usages, copy.Keys - pending, term, suffix)
      invariant su' == Inverse(usages)
      invariant matches == Without(st.matches, copy.Keys - pending)
      decreases |pending|
    {
      var s :| s in pending;
      ghost var done := copy.Keys - pending;
      KeptStep(st.usages, done, s, term, suffix);
      if Discarded(Corrected, term, s, suffix) {
        InverseDrop(usages, s);
        usages := EraseUsers(usages, copy[s]);
        su' := su' - {s};
      }
      WithoutTwice(st.matches, done, {s});
      if s in matches {
        matches := Without(matches, {s});
      } else {
        WithoutNone(matches, {s});
      }
      TakeOne(copy.Keys, pending, s);
      pending := pending - {s};
    }
    assert copy.Keys - pending == st.usages.Values;
  }

  /** The end-of-input flush (lines 124-136), corrected. */
  method FlushMatches(ms: seq<string>, sequence: string, result: seq<string>) returns (tokens: seq<string>)
    ensures Flush(Corrected, ms, sequence, result) == Done(tokens)
  {
    var rest, out := sequence, result;
    for k := 0 to |ms|
      invariant Flush(Corrected, ms[k..], rest, out) == Flush(Corrected, ms, sequence, result)
    {
      assert ms[k..][1..] == ms[k + 1..];
      var m := ms[k];
      if Contains(rest, m) {
        var split := RSplit(rest, m).value;
        out := out + [split.prefix, m];
        rest := split.suffix;
      }
    }
    tokens := out;
    if |rest| > 0 {
      tokens := tokens + [rest];
    }
  }

  lemma {:induction false} ScanUnfold(v: Variant, text: string, ks: seq<string>, n: nat, st: State)
    requires 0 < n <= |text| && Scan(v, text, ks, n - 1) == Done(st)
    ensures Scan(v, text, ks, n) ==
      var st1 := Advance(st, ks, text[n - 1]);
      var cand := SelectFrom(st1.usages, st1.matches, "");
      if cand == "" then Done(st1) else Emit(v, text, ks, n, st1, cand)
  {
  }

  lemma {:induction false} EmitUnfold(v: Variant, text: string, ks: seq<string>, n: nat, st: State, cand: string, sp: Split, toks: seq<string>)
    requires n <= |text| && RSplit(st.sequence, cand) == Some(sp)
    requires if |sp.prefix| == 0 then toks == [] else |sp.prefix| < |text| && Run(v, sp.prefix, ks) == Done(toks)
    ensures Emit(v, text, ks, n, st, cand) ==
      Done(State(Cleanup(v, st.usages, cand, sp.suffix), Without(st.matches, st.usages.Values), sp.suffix, st.result + toks + [cand]))
  {
  }

  /**
   * `tokenize(text, keyterms)` for distinct keyterms, with the corrected
   * cleanup and flush: the C++ loops over a `State` and `string_usages`.
   */
  method TokenizeScan(text: string, ks: seq<string>) returns (tokens: seq<string>)
    requires Distinct(ks)
    ensures Run(Corrected, text, ks) == Done(tokens)
    ensures Concat(tokens) == text
    decreases |text|, 1
  {
    var st := Start;
    var su: map<string, set<string>> := map[];
    for i := 0 to |text|
      invariant Scan(Corrected, text, ks, i) == Done(st)
      invariant su == Inverse(st.usages)
    {
      st, su := ScanCharacter(text, ks, i, st, su);
    }
    tokens := FlushMatches(st.matches, st.sequence, st.result);
    RunRoundTrip(text, ks);
  }

  /** One iteration of the character loop (lines 31-121). */
  method ScanCharacter(text: string, ks: seq<string>, i: nat, st: State, su: map<string, set<string>>)
    returns (st': State, su': map<string, set<string>>)
    requires Distinct(ks) && i < |text|
    requires Scan(Corrected, text, ks, i) == Done(st) && su == Inverse(st.usages)
    ensures Scan(Corrected, text, ks, i + 1) == Done(st')
    ensures su' == Inverse(st'.usages)
    decreases |text|, 0
  {
    ScanKeeps(text, ks, i);
    var c := text[i];
    AdvanceKeeps(ks, st, c);
    ScanUnfold(Corrected, text, ks, i + 1, st);
    st', su' := UpdateKeyterms(st.(sequence := st.sequence + [c]), su, ks, c);
    var candidate := SelectCandidate(st', su');
    if candidate != "" {
      assert Contains(st'.sequence, candidate);
      var split := RSplit(st'.sequence, candidate).value;
      var prefixTokens := [];
      if |split.prefix| > 0 {
        prefixTokens := TokenizeScan(split.prefix, ks);
      }
      EmitUnfold(Corrected, text, ks, i + 1, st', candidate, split, prefixTokens);
      var usages, su2, matches := CleanupUsages(st', su', candidate, split.suffix);
      st' := State(usages, matches, split.suffix, st'.result + prefixTokens + [candidate]);
      su' := su2;
    }
  }

  /** The keyterms without repetitions, each kept at its first position. */
  function Dedup(ks: seq<string>): (r: seq<string>)
    ensures Distinct(r)
    ensures forall k :: k in r <==> k in ks
    decreases |ks|
  {
    if ks == [] then []
    else
      var d := Dedup(ks[..|ks| - 1]);
      assert forall k :: k in ks <==> k in ks[..|ks| - 1] || k == ks[|ks| - 1] by {
        assert ks == ks[..|ks| - 1] + [ks[|ks| - 1]];
      }
      if ks[|ks| - 1] in d then d else d + [ks[|ks| - 1]]
  }

  /**
   * The corrected tokenizer: a repeated keyterm counts once.  It always
   * returns, its tokens concatenate back to `text`, and empty text gives no
   * tokens.
   */
  method Tokenize(text: string, keyterms: seq<string>) returns (tokens: seq<string>)
    ensures Run(Corrected, text, Dedup(keyterms)) == Done(tokens)
    ensures Concat(tokens) == text
    ensures text == "" ==> tokens == []
  {
    tokens := TokenizeScan(text, Dedup(keyterms));
  }
}
