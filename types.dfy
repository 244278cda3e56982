/**
 * The SQF value types of sqf/types.py that the rest of this model needs:
 * constant values (`Nothing`, `Number`, `Boolean`, `String`), `Keyword`
 * with its case-insensitive equality, and the mutable `Array` container.
 */
module SqfTypes {
  import opened Wrappers

  /** A Python value as seen by `==` and `hash` (`None`, an `int`, a `str`). */
  datatype Raw = RNone | RInt(i: int) | RStr(s: string)

  /**
   * An SQF value.  `None` in an option is the undefined value of that type.
   * A `String` keeps its quote character (`container`) apart from its text.
   */
  datatype Value =
    | Nothing
    | Number(num: Option<int>)
    | Boolean(bit: Option<bool>)
    | String(container: Option<char>, text: Option<string>)
    | Keyword(token: string)

  /** `.value` (lines 21-23 and 278-280) as a Python object; `True` and `False` compare as `1` and `0`. */
  function PyValue(v: Value): Raw
  {
    match v
    case Nothing => RNone
    case Number(n) => if n.Some? then RInt(n.value) else RNone
    case Boolean(b) => if b.Some? then RInt(if b.value then 1 else 0) else RNone
    case String(_, t) => if t.Some? then RStr(t.value) else RNone
    case Keyword(t) => RStr(t)
  }

  /** `.value is None`. */
  predicate Undefined(v: Value)
  {
    PyValue(v) == RNone
  }

  /** `str.lower()` on the ASCII letters. */
  function Lower(s: string): (r: string)
    ensures |r| == |s|
    ensures forall i :: 0 <= i < |s| ==> r[i] == LowerChar(s[i])
  {
    seq(|s|, i requires 0 <= i < |s| => LowerChar(s[i]))
  }

  function LowerChar(c: char): char
  {
    if 'A' <= c <= 'Z' then (c - 'A' + 'a') as char else c
  }

  /** Lower-casing twice is lower-casing once. */
  lemma {:induction false} LowerIdempotent(s: string)
    ensures Lower(Lower(s)) == Lower(s)
  {
  }

  /**
   * Python `==` on values (`BaseType.__eq__`, sqf/base_type.py lines 35-39):
   * same class and equal attributes; a `Keyword` overrides it (lines
   * 292-296) and compares the lower-cased tokens.
   */
  predicate Equal(a: Value, b: Value)
  {
    match a
    case Keyword(t) => b.Keyword? && Lower(t) == Lower(b.token)
    case _ => a == b
  }

  /**
   * The string `Keyword.__hash__` (lines 298-299) hashes: the class's
   * `str()` followed by the lower-cased token.  The prefix `"Keyword"` stands
   * for `str(self.__class__)`, the same string for every keyword.
   */
  function KeywordHashKey(token: string): string
  {
    "Keyword" + Lower(token)
  }

  /** Keyword equality ignores case, and equal keywords hash alike. */
  lemma {:induction false} KeywordEquality(a: string, b: string)
    ensures Equal(Keyword(a), Keyword(b)) <==> Lower(a) == Lower(b)
    ensures Equal(Keyword(a), Keyword(b)) ==> KeywordHashKey(a) == KeywordHashKey(b)
    ensures Equal(Keyword(a), Keyword(b)) <==> KeywordHashKey(a) == KeywordHashKey(b)
  {
    if KeywordHashKey(a) == KeywordHashKey(b) {
      assert Lower(a) == KeywordHashKey(a)[7..];
    }
  }

  /** `==` on values is an equivalence. */
  lemma {:induction false} EqualEquivalence(a: Value, b: Value, c: Value)
    ensures Equal(a, a)
    ensures Equal(a, b) ==> Equal(b, a)
    ensures Equal(a, b) && Equal(b, c) ==> Equal(a, c)
  {
  }

  predicate IsQuote(c: char)
  {
    c == '"' || c == '\''
  }

  /**
   * `String(value)` (lines 44-55): the first and last characters are the
   * same quote; they become the container, and what lies between them the
   * text.  Without a value the string is undefined.
   */
  function MakeString(raw: Option<string>): (r: Value)
    requires raw.Some? ==> |raw.value| >= 1 && raw.value[0] == raw.value[|raw.value| - 1] && IsQuote(raw.value[0])
    ensures r.String?
    ensures raw.Some? ==> r.container == Some(raw.value[0]) && r.text.Some? && |r.text.value| == (if |raw.value| >= 2 then |raw.value| - 2 else 0)
    ensures raw.None? ==> Undefined(r)
  {
    match raw
    case None => String(None, None)
    case Some(s) => String(Some(s[0]), Some(if |s| >= 2 then s[1..|s| - 1] else ""))
  }

  /** `String.__str__` (lines 57-60). */
  function StringText(v: Value): string
    requires v.String?
  {
    if v.text.None? then "undefined"
    else var q := if v.container.Some? then [v.container.value] else "None"; q + v.text.value + q
  }

  /** `str()` gives back the quoted text a string was made from. */
  lemma {:induction false} StringRoundTrip(raw: string)
    requires |raw| >= 2 && raw[0] == raw[|raw| - 1] && IsQuote(raw[0])
    ensures StringText(MakeString(Some(raw))) == raw
  {
    assert raw == [raw[0]] + raw[1..|raw| - 1] + [raw[|raw| - 1]];
  }

  /** A one-character quote passes the constructor's checks but prints as two quotes. */
  lemma {:induction false} StringOneQuote(raw: string)
    requires raw == "\""
    ensures StringText(MakeString(Some(raw))) == "\"\"" != raw
  {
  }

  /** `Keyword(',')` (lines 98-99). */
  predicate HasComma(items: seq<Value>)
  {
    exists i :: 0 <= i < |items| && Equal(items[i], Keyword(","))
  }

  /** `[Nothing()] * n`: Python repeats nothing for a negative count. */
  function Padding(n: int): (r: seq<Value>)
    ensures |r| == if n > 0 then n else 0
    ensures forall i :: 0 <= i < |r| ==> r[i] == Nothing
    decreases if n > 0 then n else 0
  {
    if n <= 0 then [] else Padding(n - 1) + [Nothing]
  }

  /** `list[:n]`: a negative bound counts from the end. */
  function PrefixPy<T>(xs: seq<T>, n: int): (r: seq<T>)
    ensures n >= 0 ==> r == xs[..if n <= |xs| then n else |xs|]
    ensures n < 0 ==> r == xs[..if |xs| + n >= 0 then |xs| + n else 0]
  {
    var k := if n < 0 then |xs| + n else n;
    xs[..if k < 0 then 0 else if k > |xs| then |xs| else k]
  }

  /** The items after `extend(index)` (lines 138-141). */
  function Extended(items: seq<Value>, index: int): (r: seq<Value>)
  {
    items + Padding(index - |items| + 1)
  }

  /** `extend(i)` keeps the items; with `i >= len` the length becomes `i + 1`, padded with `Nothing`, otherwise nothing changes. */
  lemma {:induction false} ExtendedMeaning(items: seq<Value>, index: int)
    ensures Extended(items, index)[..|items|] == items
    ensures index >= |items| ==> |Extended(items, index)| == index + 1
    ensures index < |items| ==> Extended(items, index) == items
    ensures forall i :: |items| <= i < |Extended(items, index)| ==> Extended(items, index)[i] == Nothing
  {
  }

  /** The items after `resize(count)` (lines 147-152). */
  function Resized(items: seq<Value>, count: int): seq<Value>
  {
    if count > |items| then Extended(items, count - 1) else PrefixPy(items, count)
  }

  /** `resize(c)` with `c >= 0` gives exactly `c` items, the first `min(c, len)` of them the old ones. */
  lemma {:induction false} ResizedMeaning(items: seq<Value>, count: int)
    requires count >= 0
    ensures |Resized(items, count)| == count
    ensures var k := if count <= |items| then count else |items|; Resized(items, count)[..k] == items[..k]
  {
    if count > |items| {
      ExtendedMeaning(items, count - 1);
    }
  }

  /** `resize` with a negative count drops that many items from the end, as a Python slice does. */
  lemma {:induction false} ResizedNegative(items: seq<Value>, count: int)
    requires count < 0
    ensures Resized(items, count) == items[..if |items| + count >= 0 then |items| + count else 0]
  {
  }

  function Reversed<T>(xs: seq<T>): (r: seq<T>)
    ensures |r| == |xs|
    ensures forall i :: 0 <= i < |xs| ==> r[i] == xs[|xs| - 1 - i]
  {
    seq(|xs|, i requires 0 <= i < |xs| => xs[|xs| - 1 - i])
  }

  /** Reversing twice gives the items back. */
  lemma {:induction false} ReversedTwice<T>(xs: seq<T>)
    ensures Reversed(Reversed(xs)) == xs
  {
  }

  /**
   * The items after `set([index, value])` (lines 162-171), or None when
   * Python's list assignment raises `IndexError` (an index below `-len`).
   * A negative index from `-len` counts from the end.
   */
  function SetItem(items: seq<Value>, index: int, value: Value): (r: Option<seq<Value>>)
  {
    var ext := if index >= |items| then Extended(items, index) else items;
    if index >= 0 then Some(ext[index := value])
    else if index >= -|items| then Some(items[|items| + index := value])
    else None
  }

  /** `set` puts `value` at `i`, extending first when `i` is past the end; every other existing item is kept. */
  lemma {:induction false} SetItemMeaning(items: seq<Value>, index: int, value: Value)
    requires index >= 0
    ensures SetItem(items, index, value).Some?
    ensures var r := SetItem(items, index, value).value;
      && |r| == (if index < |items| then |items| else index + 1)
      && r[index] == value
      && (forall i :: 0 <= i < |items| && i != index ==> r[i] == items[i])
      && (forall i :: |items| <= i < |r| && i != index ==> r[i] == Nothing)
  {
    ExtendedMeaning(items, index);
  }

  /**
   * `set(rhs_v)` (lines 162-171) on the items of the right-hand array:
   * `rhs_v.value[0]` and `rhs_v.value[1]` raise `IndexError` when there are
   * fewer than two, an index whose `.value` is not a number raises
   * `TypeError` at `index >= len(self._tokens)`, and the assignment raises
   * `IndexError` below `-len`.  Items after the second are ignored.
   */
  function SetFrom(items: seq<Value>, rhs: seq<Value>): (r: Result<seq<Value>, string>)
    ensures r == Err("IndexError") <==> |rhs| < 2 || (PyValue(rhs[0]).RInt? && PyValue(rhs[0]).i < -|items|)
    ensures r == Err("TypeError") <==> |rhs| >= 2 && !PyValue(rhs[0]).RInt?
    ensures r.Ok? ==> PyValue(rhs[0]).RInt? && SetItem(items, PyValue(rhs[0]).i, rhs[1]) == Some(r.value)
  {
    if |rhs| < 2 then Err("IndexError")
    else match PyValue(rhs[0])
      case RInt(index) => (match SetItem(items, index, rhs[1]) case Some(t) => Ok(t) case None => Err("IndexError"))
      case _ => Err("TypeError")
  }

  /**
   * `Array` (lines 94-171): the items (`_tokens`), the copy of the items the
   * interpreter sees (`_base_tokens`; an array keeps every item there, line
   * 111) and whether it was made without items (`_undefined`).
   */
  class Array {
    var tokens: seq<Value>
    var baseTokens: seq<Value>
    var undefined: bool

    predicate Valid()
      reads this
    {
      baseTokens == tokens
    }

    /** `.value` (lines 131-135). */
    function Items(): (r: Option<seq<Value>>)
      reads this
      ensures r.None? <==> undefined
    {
      if undefined then None else Some(tokens)
    }

    /** The constructor after its comma check; see `NewArray`. */
    constructor (items: Option<seq<Value>>)
      requires items.Some? ==> !HasComma(items.value)
      ensures Valid() && undefined == items.None?
      ensures tokens == if items.Some? then items.value else []
    {
      tokens := if items.Some? then items.value else [];
      undefined := items.None?;
      baseTokens := if items.Some? then items.value else [];
    }

    /** `_update_base_tokens` (sqf/base_type.py lines 67-72): every item of an array is a base token. */
    method UpdateBaseTokens()
      modifies this
      ensures Valid() && tokens == old(tokens) && undefined == old(undefined)
    {
      var base: seq<Value> := [];
      for i := 0 to |tokens|
        invariant base == tokens[..i]
      {
        base := base + [tokens[i]];
      }
      baseTokens := base;
    }

    method Extend(index: int)
      modifies this
      ensures Valid() && tokens == Extended(old(tokens), index) && undefined == old(undefined)
    {
      tokens := tokens + Padding(index - |tokens| + 1);
      UpdateBaseTokens();
    }

    method Append(token: Value)
      modifies this
      ensures Valid() && tokens == old(tokens) + [token] && undefined == old(undefined)
    {
      tokens := tokens + [token];
      UpdateBaseTokens();
    }

    method Resize(count: int)
      modifies this
      ensures Valid() && tokens == Resized(old(tokens), count) && undefined == old(undefined)
    {
      if count > |tokens| {
        Extend(count - 1);
      } else {
        tokens := PrefixPy(tokens, count);
      }
      UpdateBaseTokens();
    }

    method Reverse()
      modifies this
      ensures Valid() && tokens == Reversed(old(tokens)) && undefined == old(undefined)
    {
      tokens := Reversed(tokens);
      UpdateBaseTokens();
    }

    method Add(other: seq<Value>)
      modifies this
      ensures Valid() && tokens == old(tokens) + other && undefined == old(undefined)
    {
      tokens := tokens + other;
      UpdateBaseTokens();
    }

    /**
     * `set(rhs_v)` (lines 162-171) on the items of the right-hand array;
     * `error` is the exception Python raises, and then nothing changes.
     */
    method Set(rhs: seq<Value>) returns (error: Option<string>)
      modifies this
      ensures error.None? <==> SetFrom(old(tokens), rhs).Ok?
      ensures error.None? ==> Valid() && tokens == SetFrom(old(tokens), rhs).value
      ensures error.Some? ==> SetFrom(old(tokens), rhs) == Err(error.value) && tokens == old(tokens) && baseTokens == old(baseTokens)
      ensures undefined == old(undefined)
    {
      if |rhs| < 2 {
        return Some("IndexError");
      }
      if !PyValue(rhs[0]).RInt? {
        return Some("TypeError");
      }
      var index, value := PyValue(rhs[0]).i, rhs[1];
      if index >= |tokens| {
        Extend(index);
      }
      if index >= 0 {
        tokens := tokens[index := value];
      } else if index >= -|tokens| {
        tokens := tokens[|tokens| + index := value];
      } else {
        return Some("IndexError");
      }
      UpdateBaseTokens();
      return None;
    }
  }

  /** `Array(tokens)` (lines 95-104): refuses a `Keyword(',')` item. */
  method NewArray(items: Option<seq<Value>>) returns (r: Result<Array, string>)
    ensures r.Err? <==> items.Some? && HasComma(items.value)
    ensures r.Ok? ==> fresh(r.value) && r.value.Valid() && r.value.Items() == items
  {
    if items.Some? && HasComma(items.value) {
      return Err("Keyword \",\" cannot be an item of an Array");
    }
    var a := new Array(items);
    return Ok(a);
  }

  /** An array made by `NewArray` holds no `Keyword(',')`. */
  lemma {:induction false} NewArrayNoComma(items: seq<Value>, k: string)
    requires !HasComma(items) && Lower(k) == ","
    ensures forall i :: 0 <= i < |items| ==> !Equal(items[i], Keyword(k))
  {
    forall i | 0 <= i < |items| ensures !Equal(items[i], Keyword(k)) {
      assert !Equal(items[i], Keyword(","));
      assert Lower(",") == ",";
    }
  }
}
