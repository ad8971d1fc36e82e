/** The character classes of the JavaScript regular expressions used by the
    sentence segmenter, and maximal runs of one class. */
module Chars {

  /** `\d` without the `u` flag: the ASCII digits only. */
  predicate IsDigit(c: char) {
    '0' <= c <= '9'
  }

  /** `\s` (and what `String.prototype.trim` strips): the ECMAScript
      WhiteSpace and LineTerminator code points. */
  predicate IsSpace(c: char) {
    c == '\t' || c == '\n' || c == '\U{B}' || c == '\U{C}' || c == '\r' || c == ' '
    || c == '\U{A0}' || c == '\U{1680}' || ('\U{2000}' <= c <= '\U{200A}')
    || c == '\U{2028}' || c == '\U{2029}' || c == '\U{202F}' || c == '\U{205F}'
    || c == '\U{3000}' || c == '\U{FEFF}'
  }

  /** The sentence terminators `[.!?]`. */
  predicate IsTerminator(c: char) {
    c == '.' || c == '!' || c == '?'
  }

  /** The classes a run is taken over; `NonTerminator` is `[^.!?]`. */
  datatype CharClass = Digit | Space | Terminator | NonTerminator

  predicate In(cls: CharClass, c: char) {
    match cls
    case Digit => IsDigit(c)
    case Space => IsSpace(c)
    case Terminator => IsTerminator(c)
    case NonTerminator => !IsTerminator(c)
  }

  predicate AllIn(cls: CharClass, s: seq<char>) {
    forall k :: 0 <= k < |s| ==> In(cls, s[k])
  }

  /** The end of the longest run of `cls` characters in `s` starting at `i`:
      what a greedy `cls+` or `cls*` consumes from there. */
  function RunEnd(s: seq<char>, i: nat, cls: CharClass): (e: nat)
    requires i <= |s|
    ensures i <= e <= |s|
    ensures AllIn(cls, s[i..e])
    ensures e == |s| || !In(cls, s[e])
    decreases |s| - i
  {
    if i < |s| && In(cls, s[i]) then RunEnd(s, i + 1, cls) else i
  }

  /** A run that cannot be extended is the one `RunEnd` finds: the greedy
      quantifier has no other choice once the next character must be of
      another class. */
  lemma {:induction false} RunEndExact(s: seq<char>, i: nat, e: nat, cls: CharClass)
    requires i <= e <= |s|
    requires AllIn(cls, s[i..e])
    requires e == |s| || !In(cls, s[e])
    ensures RunEnd(s, i, cls) == e
    decreases e - i
  {
    if i < e {
      assert In(cls, s[i..e][0]);
      assert s[i + 1..e] == s[i..e][1..];
      RunEndExact(s, i + 1, e, cls);
    }
  }

  /** Every run of `cls` characters from `i` ends at or before `RunEnd`. */
  lemma {:induction false} RunEndCovers(s: seq<char>, i: nat, e: nat, cls: CharClass)
    requires i <= e <= |s|
    requires AllIn(cls, s[i..e])
    ensures e <= RunEnd(s, i, cls)
    decreases e - i
  {
    if i < e {
      assert In(cls, s[i..e][0]);
      assert s[i + 1..e] == s[i..e][1..];
      RunEndCovers(s, i + 1, e, cls);
    }
  }

  /** A run only looks forward: prefixing the text shifts it and nothing else. */
  lemma {:induction false} RunEndShift(a: seq<char>, b: seq<char>, j: nat, cls: CharClass)
    requires j <= |b|
    ensures RunEnd(a + b, |a| + j, cls) == |a| + RunEnd(b, j, cls)
    decreases |b| - j
  {
    if j < |b| && In(cls, b[j]) {
      assert (a + b)[|a| + j] == b[j];
      RunEndShift(a, b, j + 1, cls);
    } else if j < |b| {
      assert (a + b)[|a| + j] == b[j];
    }
  }

  /** A run that stops inside `a` is the same run in `a + b`. */
  lemma RunEndPrefix(a: seq<char>, b: seq<char>, i: nat, cls: CharClass)
    requires i <= |a|
    requires RunEnd(a, i, cls) < |a|
    ensures RunEnd(a + b, i, cls) == RunEnd(a, i, cls)
  {
    var e := RunEnd(a, i, cls);
    assert (a + b)[i..e] == a[i..e];
    assert (a + b)[e] == a[e];
    RunEndExact(a + b, i, e, cls);
  }

  /** A run that reaches the end of `a` stops there in `a + b` when `b`
      does not start with a character of the class. */
  lemma RunEndToEnd(a: seq<char>, b: seq<char>, i: nat, cls: CharClass)
    requires i <= |a| && RunEnd(a, i, cls) == |a|
    requires b == [] || !In(cls, b[0])
    ensures RunEnd(a + b, i, cls) == |a|
  {
    assert (a + b)[i..|a|] == a[i..];
    if b != [] {
      assert (a + b)[|a|] == b[0];
    }
    RunEndExact(a + b, i, |a|, cls);
  }

  /** A run from inside `a` reaches the end of `a` only if the last
      character of `a` belongs to the class. */
  lemma RunEndStops(a: seq<char>, j: nat, cls: CharClass)
    requires j < |a|
    ensures RunEnd(a, j, cls) == |a| ==> In(cls, a[|a| - 1])
  {
    if RunEnd(a, j, cls) == |a| {
      assert a[j..|a|][|a| - 1 - j] == a[|a| - 1];
    }
  }
}
