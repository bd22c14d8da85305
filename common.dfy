/** Small value types shared by every module: optional values and results. */
module Wrappers {

  /** A value that may be absent; stands for a C# nullable reference or `T?`. */
  datatype Option<+T> = None | Some(value: T) {
    /** The value, or `default` when absent: the C# `??` operator. */
    function GetOr(default: T): T {
      match this
      case Some(v) => v
      case None => default
    }
  }

  /** The outcome of an operation that either returns a value or throws. */
  datatype Result<+R, +E> = Ok(value: R) | Err(error: E)
}

/** The parts of .NET string handling the model relies on: whitespace, blank checks, Trim. */
module Text {

  /**
   * `char.IsWhiteSpace`: the Unicode space, line and paragraph separators,
   * the control characters U+0009..U+000D, and U+0085.
   */
  predicate IsWhiteSpace(c: char) {
    || ('\U{0009}' <= c <= '\U{000D}')
    || c == '\U{0020}' || c == '\U{0085}' || c == '\U{00A0}' || c == '\U{1680}'
    || ('\U{2000}' <= c <= '\U{200A}')
    || c == '\U{2028}' || c == '\U{2029}' || c == '\U{202F}' || c == '\U{205F}' || c == '\U{3000}'
  }

  /** `string.IsNullOrWhiteSpace` for a non-null string: empty or whitespace only. */
  predicate IsBlank(s: string) {
    forall k :: 0 <= k < |s| ==> IsWhiteSpace(s[k])
  }

  /** `string.TrimStart()`: drops the longest whitespace prefix. */
  function TrimStart(s: string): (r: string)
    ensures |r| <= |s| && r == s[|s| - |r|..]
    ensures forall k :: 0 <= k < |s| - |r| ==> IsWhiteSpace(s[k])
    ensures r == [] || !IsWhiteSpace(r[0])
  {
    if s != [] && IsWhiteSpace(s[0]) then TrimStart(s[1..]) else s
  }

  /** `string.TrimEnd()`: drops the longest whitespace suffix. */
  function TrimEnd(s: string): (r: string)
    ensures |r| <= |s| && r == s[..|r|]
    ensures forall k :: |r| <= k < |s| ==> IsWhiteSpace(s[k])
    ensures r == [] || !IsWhiteSpace(r[|r| - 1])
  {
    if s != [] && IsWhiteSpace(s[|s| - 1]) then TrimEnd(s[..|s| - 1]) else s
  }

  /**
   * `string.Trim()`: the result is the slice `s[i..j]` between the longest
   * whitespace prefix and the longest whitespace suffix, and it neither
   * begins nor ends with whitespace.
   */
  function Trim(s: string): (r: string)
    ensures |r| <= |s|
    ensures var i := |s| - |TrimStart(s)|;
      && i + |r| <= |s| && r == s[i..i + |r|]
      && (forall k :: 0 <= k < i ==> IsWhiteSpace(s[k]))
      && (forall k :: i + |r| <= k < |s| ==> IsWhiteSpace(s[k]))
    ensures r == [] || (!IsWhiteSpace(r[0]) && !IsWhiteSpace(r[|r| - 1]))
    ensures r == [] <==> IsBlank(s)
  {
    var t := TrimStart(s);
    var r := TrimEnd(t);
    TrimmedSlice(s, t, r);
    r
  }

  /**
   * What the two trims together leave: given what `TrimStart` promises of
   * `t` and what `TrimEnd` promises of `r`, `r` is the slice of `s` between
   * two whitespace runs, and it neither begins nor ends with whitespace.
   */
  lemma {:induction false} TrimmedSlice(s: string, t: string, r: string)
    requires |t| <= |s| && t == s[|s| - |t|..]
    requires forall k :: 0 <= k < |s| - |t| ==> IsWhiteSpace(s[k])
    requires t == [] || !IsWhiteSpace(t[0])
    requires |r| <= |t| && r == t[..|r|]
    requires forall k :: |r| <= k < |t| ==> IsWhiteSpace(t[k])
    requires r == [] || !IsWhiteSpace(r[|r| - 1])
    ensures var i := |s| - |t|;
      && i + |r| <= |s| && r == s[i..i + |r|]
      && (forall k :: 0 <= k < i ==> IsWhiteSpace(s[k]))
      && (forall k :: i + |r| <= k < |s| ==> IsWhiteSpace(s[k]))
    ensures r == [] || (!IsWhiteSpace(r[0]) && !IsWhiteSpace(r[|r| - 1]))
    ensures r == [] <==> IsBlank(s)
  {
    assert r == [] || r[0] == t[0];
    SuffixOfPrefix(s, t, r);
    EmptySliceIffBlank(s, |s| - |t|, r);
  }

  /**
   * A slice of `s` that begins with no whitespace and leaves only whitespace
   * around it is empty exactly when `s` is blank.
   */
  lemma EmptySliceIffBlank(s: string, i: nat, r: string)
    requires i + |r| <= |s| && r == s[i..i + |r|]
    requires forall k :: 0 <= k < i ==> IsWhiteSpace(s[k])
    requires forall k :: i + |r| <= k < |s| ==> IsWhiteSpace(s[k])
    requires r == [] || !IsWhiteSpace(r[0])
    ensures r == [] <==> IsBlank(s)
  {
    if r != [] {
      assert s[i] == r[0];
    }
  }

  /**
   * A prefix `r` of a suffix `t` of `s` is the slice of `s` that starts where
   * `t` does; when what `r` leaves of `t` is whitespace, so is what it
   * leaves at the end of `s`.
   */
  lemma {:induction false} SuffixOfPrefix(s: string, t: string, r: string)
    requires |t| <= |s| && t == s[|s| - |t|..]
    requires |r| <= |t| && r == t[..|r|]
    requires forall k :: |r| <= k < |t| ==> IsWhiteSpace(t[k])
    ensures var i := |s| - |t|;
      && i + |r| <= |s| && r == s[i..i + |r|]
      && (forall k :: i + |r| <= k < |s| ==> IsWhiteSpace(s[k]))
  {
    var i := |s| - |t|;
    forall k | i + |r| <= k < |s| ensures IsWhiteSpace(s[k]) {
      assert s[k] == t[k - i];
    }
  }

  /** A string that does not begin or end with whitespace is its own trim. */
  lemma {:induction false} TrimOfTrimmed(s: string)
    requires s == [] || (!IsWhiteSpace(s[0]) && !IsWhiteSpace(s[|s| - 1]))
    ensures Trim(s) == s
  {
  }

  /** One leading blank before a trimmed string is removed and nothing else is. */
  lemma {:induction false} TrimLeadingSpace(s: string)
    requires s == [] || (!IsWhiteSpace(s[0]) && !IsWhiteSpace(s[|s| - 1]))
    ensures Trim(" " + s) == s
  {
    assert (" " + s)[1..] == s;
  }

  /** One trailing blank after a trimmed string is removed and nothing else is. */
  lemma {:induction false} TrimTrailingSpace(s: string)
    requires s == [] || (!IsWhiteSpace(s[0]) && !IsWhiteSpace(s[|s| - 1]))
    ensures Trim(s + " ") == s
  {
    if s == [] {
      assert IsBlank(s + " ");
    } else {
      assert (s + " ")[0] == s[0];
      assert TrimStart(s + " ") == s + " ";
      assert (s + " ")[..|s|] == s;
      assert TrimEnd(s + " ") == TrimEnd(s) == s;
    }
  }
}

/** Instants, as `DateTime` values read from `DateTime.UtcNow`. */
module Time {
  /** An instant, counted in whole seconds; sub-second ticks are not modelled. */
  type DateTime = int

  /** `DateTime.AddMinutes` for a whole number of minutes. */
  function AddMinutes(t: DateTime, minutes: int): (r: DateTime)
    ensures minutes >= 0 ==> r >= t
    ensures r - t == 60 * minutes
  {
    t + 60 * minutes
  }
}
