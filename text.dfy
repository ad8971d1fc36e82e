/** The JavaScript string operations the client relies on: `includes`,
    `replace` with a global literal pattern, `trim`, `Array.prototype.join`
    and the decimal rendering of a count in a template literal. */
module Text {
  import opened Chars
  import opened Seqs

  /** `q` occurs in `s` as a contiguous substring. */
  ghost predicate Occurs(s: seq<char>, q: seq<char>) {
    exists k: nat :: OccursAt(s, q, k)
  }

  /** `q` occurs in `s` starting at index `k`. */
  ghost predicate OccursAt(s: seq<char>, q: seq<char>, k: nat) {
    k + |q| <= |s| && s[k..k + |q|] == q
  }

  /** A substring of a text that lacks `q` lacks `q` too. */
  lemma OccursInSlice(s: seq<char>, a: nat, b: nat, q: seq<char>)
    requires a <= b <= |s|
    ensures Occurs(s[a..b], q) ==> Occurs(s, q)
  {
    if Occurs(s[a..b], q) {
      var k: nat :| OccursAt(s[a..b], q, k);
      forall i | 0 <= i < |q| ensures s[a + k + i] == q[i] {
        assert s[a..b][k..k + |q|][i] == q[i];
      }
      assert s[a + k..a + k + |q|] == q;
      assert OccursAt(s, q, a + k);
    }
  }

  /** A pattern with a character that `s` lacks does not occur in `s`. */
  lemma MissingChar(s: seq<char>, q: seq<char>, j: nat)
    requires j < |q| && q[j] !in s
    ensures !Occurs(s, q)
  {
    forall k: nat ensures !OccursAt(s, q, k) {
      if k + |q| <= |s| {
        assert s[k + j] in s;
        assert s[k..k + |q|][j] == s[k + j];
      }
    }
  }

  /** An occurrence past the first character of `[c] + u` is one in `u`. */
  lemma OccursPastCons(c: char, u: seq<char>, q: seq<char>, k: nat)
    requires k > 0
    ensures OccursAt([c] + u, q, k) <==> OccursAt(u, q, k - 1)
  {
    if k + |q| <= |u| + 1 {
      assert ([c] + u)[k..k + |q|] == u[k - 1..k - 1 + |q|];
    }
  }

  /** `s.includes(q)`, as a left-to-right search. */
  function Includes(s: seq<char>, q: seq<char>): (r: bool)
    ensures r <==> Occurs(s, q)
    decreases |s|
  {
    if |s| < |q| then false
    else if s[..|q|] == q then assert OccursAt(s, q, 0); true
    else OccursPastHead(s, q); Includes(s[1..], q)
  }

  /** When `q` is not at the head of `s`, it occurs in `s` exactly when it
      occurs in the rest of `s`. */
  lemma OccursPastHead(s: seq<char>, q: seq<char>)
    requires |s| > 0 && !OccursAt(s, q, 0)
    ensures Occurs(s, q) <==> Occurs(s[1..], q)
  {
    if Occurs(s[1..], q) {
      var k: nat :| OccursAt(s[1..], q, k);
      assert s[k + 1..k + 1 + |q|] == s[1..][k..k + |q|];
      assert OccursAt(s, q, k + 1);
    }
    if Occurs(s, q) {
      var k: nat :| OccursAt(s, q, k);
      assert s[k..k + |q|] == s[1..][k - 1..k - 1 + |q|];
      assert OccursAt(s[1..], q, k - 1);
    }
  }

  /** `s.replace(/pat/g, r)` for a literal pattern and a one-character
      replacement: the occurrences are replaced left to right without overlap. */
  function ReplaceAll(s: seq<char>, pat: seq<char>, r: char): (t: seq<char>)
    requires |pat| > 0
    ensures |t| <= |s|
    decreases |s|
  {
    if |s| < |pat| then s
    else if s[..|pat|] == pat then [r] + ReplaceAll(s[|pat|..], pat, r)
    else [s[0]] + ReplaceAll(s[1..], pat, r)
  }

  /** Text without the pattern is left as it is. */
  lemma {:induction false} ReplaceAllAbsent(s: seq<char>, pat: seq<char>, r: char)
    requires |pat| > 0 && !Occurs(s, pat)
    ensures ReplaceAll(s, pat, r) == s
    decreases |s|
  {
    if |s| >= |pat| {
      assert !OccursAt(s, pat, 0);
      OccursInSlice(s, 1, |s|, pat);
      assert s[1..|s|] == s[1..];
      ReplaceAllAbsent(s[1..], pat, r);
    }
  }

  /** An occurrence at the head becomes one replacement character. */
  lemma ReplaceAllAtHead(pat: seq<char>, b: seq<char>, r: char)
    requires |pat| > 0
    ensures ReplaceAll(pat + b, pat, r) == [r] + ReplaceAll(b, pat, r)
  {
    assert (pat + b)[..|pat|] == pat;
    assert (pat + b)[|pat|..] == b;
  }

  /** Replacing splits over a concatenation whose first part ends with a
      character the pattern does not contain: no occurrence can straddle
      the boundary. */
  lemma {:induction false} ReplaceAllConcat(a: seq<char>, b: seq<char>, pat: seq<char>, r: char)
    requires |pat| > 0 && (a == [] || a[|a| - 1] !in pat)
    ensures ReplaceAll(a + b, pat, r) == ReplaceAll(a, pat, r) + ReplaceAll(b, pat, r)
    decreases |a|
  {
    if a == [] {
      assert a + b == b;
    } else if |a| >= |pat| && a[..|pat|] == pat {
      MatchInsideHead(a, b, pat);
      ReplaceAllConcat(a[|pat|..], b, pat, r);
      ConcatMatchStep(a, b, pat, r);
    } else {
      KeptHead(a, b, pat);
      ReplaceAllConcat(a[1..], b, pat, r);
      ConcatKeptStep(a, b, pat, r);
    }
  }

  /** The step of `ReplaceAllConcat` at an occurrence at the head of `a`. */
  lemma ConcatMatchStep(a: seq<char>, b: seq<char>, pat: seq<char>, r: char)
    requires |pat| > 0 && |a| >= |pat| && a[..|pat|] == pat
    requires (a + b)[..|pat|] == pat && (a + b)[|pat|..] == a[|pat|..] + b
    requires ReplaceAll(a[|pat|..] + b, pat, r) == ReplaceAll(a[|pat|..], pat, r) + ReplaceAll(b, pat, r)
    ensures ReplaceAll(a + b, pat, r) == ReplaceAll(a, pat, r) + ReplaceAll(b, pat, r)
  {
    Assoc([r], ReplaceAll(a[|pat|..], pat, r), ReplaceAll(b, pat, r));
  }

  /** The step of `ReplaceAllConcat` where the head of `a` is kept. */
  lemma ConcatKeptStep(a: seq<char>, b: seq<char>, pat: seq<char>, r: char)
    requires |pat| > 0 && a != [] && !(|a| >= |pat| && a[..|pat|] == pat)
    requires (|a + b| >= |pat| ==> (a + b)[..|pat|] != pat) && (a + b)[1..] == a[1..] + b && (a + b)[0] == a[0]
    requires ReplaceAll(a[1..] + b, pat, r) == ReplaceAll(a[1..], pat, r) + ReplaceAll(b, pat, r)
    ensures ReplaceAll(a + b, pat, r) == ReplaceAll(a, pat, r) + ReplaceAll(b, pat, r)
  {
    Assoc([a[0]], ReplaceAll(a[1..], pat, r), ReplaceAll(b, pat, r));
  }

  /** An occurrence at the head of `a`, which ends with a character outside
      the pattern, lies inside `a` and is also at the head of `a + b`. */
  lemma MatchInsideHead(a: seq<char>, b: seq<char>, pat: seq<char>)
    requires |pat| > 0 && |a| >= |pat| && a[..|pat|] == pat && a[|a| - 1] !in pat
    ensures |a| > |pat| && a[|pat|..][|a| - |pat| - 1] == a[|a| - 1]
    ensures (a + b)[..|pat|] == pat && (a + b)[|pat|..] == a[|pat|..] + b
  {
    assert a[..|pat|][|pat| - 1] == a[|pat| - 1];
    assert pat[|pat| - 1] in pat;
    assert (a + b)[..|pat|] == a[..|pat|];
  }

  /** No occurrence at the head of `a` means none at the head of `a + b`
      when `a` ends with a character outside the pattern. */
  lemma KeptHead(a: seq<char>, b: seq<char>, pat: seq<char>)
    requires |pat| > 0 && a != [] && a[|a| - 1] !in pat && !(|a| >= |pat| && a[..|pat|] == pat)
    ensures |a + b| >= |pat| ==> (a + b)[..|pat|] != pat
    ensures (a + b)[1..] == a[1..] + b && (a + b)[0] == a[0]
    ensures |a| > 1 ==> a[1..][|a| - 2] == a[|a| - 1]
  {
    if |a + b| >= |pat| {
      if |a| >= |pat| {
        assert (a + b)[..|pat|] == a[..|pat|];
      } else {
        assert (a + b)[..|pat|][|a| - 1] == a[|a| - 1];
        assert pat[|a| - 1] in pat;
      }
    }
  }

  /** A last character the pattern does not contain stays last. */
  lemma {:induction false} ReplaceAllLast(s: seq<char>, pat: seq<char>, r: char)
    requires |pat| > 0 && s != [] && s[|s| - 1] !in pat
    ensures var t := ReplaceAll(s, pat, r); t != [] && t[|t| - 1] == s[|s| - 1]
    decreases |s|
  {
    if |s| >= |pat| && s[..|pat|] == pat {
      assert s[..|pat|][|pat| - 1] == s[|pat| - 1];
      assert pat[|pat| - 1] in pat;
      ReplaceAllLast(s[|pat|..], pat, r);
    } else if |s| >= |pat| && |s| > 1 {
      ReplaceAllLast(s[1..], pat, r);
    }
  }

  /** A prefix `u` at none of whose positions the pattern starts is kept. */
  lemma {:induction false} ReplaceAllKeeps(u: seq<char>, b: seq<char>, pat: seq<char>, r: char)
    requires |pat| > 0 && forall k :: 0 <= k < |u| ==> !OccursAt(u + b, pat, k)
    ensures ReplaceAll(u + b, pat, r) == u + ReplaceAll(b, pat, r)
    decreases |u|
  {
    if u == [] {
      assert u + b == b;
    } else {
      var v := u[1..] + b;
      assert u + b == [u[0]] + v;
      assert !OccursAt([u[0]] + v, pat, 0);
      KeptStep(u[0], v, pat, r);
      forall k | 0 <= k < |u| - 1 ensures !OccursAt(v, pat, k) {
        OccursPastCons(u[0], v, pat, k + 1);
      }
      ReplaceAllKeeps(u[1..], b, pat, r);
      Assoc([u[0]], u[1..], ReplaceAll(b, pat, r));
    }
  }

  /** A first character at which the pattern does not start is kept. */
  lemma KeptStep(c: char, v: seq<char>, pat: seq<char>, r: char)
    requires |pat| > 0 && !OccursAt([c] + v, pat, 0)
    ensures ReplaceAll([c] + v, pat, r) == [c] + ReplaceAll(v, pat, r)
  {
    assert ([c] + v)[1..] == v;
  }

  /** Up to the first replacement character, the output of `ReplaceAll` is
      the input unchanged. */
  lemma {:induction false} ReplaceAllKeepsPrefix(s: seq<char>, pat: seq<char>, r: char, m: nat)
    requires |pat| > 0
    ensures m <= |ReplaceAll(s, pat, r)| && r !in ReplaceAll(s, pat, r)[..m]
      ==> m <= |s| && s[..m] == ReplaceAll(s, pat, r)[..m]
    decreases |s|
  {
    var t := ReplaceAll(s, pat, r);
    if m == 0 || |s| < |pat| {
    } else if s[..|pat|] == pat {
      if m <= |t| {
        assert t[..m][0] == r;
      }
    } else {
      var u := ReplaceAll(s[1..], pat, r);
      ReplaceAllKeepsPrefix(s[1..], pat, r, m - 1);
      if m <= |t| && r !in t[..m] {
        assert t[..m] == [s[0]] + u[..m - 1];
        assert s[..m] == [s[0]] + s[1..][..m - 1];
      }
    }
  }

  /** A replacement character that does not occur in a pattern `q` cannot
      make `q` appear: if `q` is absent from `s` (or is the pattern being
      replaced), it is absent from the result. */
  lemma {:induction false} ReplaceAllAvoids(s: seq<char>, pat: seq<char>, r: char, q: seq<char>)
    requires |pat| > 0 && |q| > 0 && r !in q
    requires q == pat || !Occurs(s, q)
    ensures !Occurs(ReplaceAll(s, pat, r), q)
    decreases |s|
  {
    var t := ReplaceAll(s, pat, r);
    if |s| < |pat| {
    } else if s[..|pat|] == pat {
      var u := ReplaceAll(s[|pat|..], pat, r);
      OccursInSlice(s, |pat|, |s|, q);
      assert s[|pat|..|s|] == s[|pat|..];
      ReplaceAllAvoids(s[|pat|..], pat, r, q);
      forall k: nat ensures !OccursAt(t, q, k) {
        if k == 0 {
          if |q| <= |t| {
            assert t[..|q|][0] == r;
          }
        } else {
          OccursPastCons(r, u, q, k);
        }
      }
    } else {
      var u := ReplaceAll(s[1..], pat, r);
      OccursInSlice(s, 1, |s|, q);
      assert s[1..|s|] == s[1..];
      ReplaceAllAvoids(s[1..], pat, r, q);
      forall k: nat ensures !OccursAt(t, q, k) {
        if k == 0 {
          KeptHeadOccurrence(s, pat, r, q);
        } else {
          OccursPastCons(s[0], u, q, k);
        }
      }
    }
  }

  /** When the head of `s` is kept, an occurrence of `q` at the head of the
      result, which holds no replacement character, was already in `s`. */
  lemma KeptHeadOccurrence(s: seq<char>, pat: seq<char>, r: char, q: seq<char>)
    requires |pat| > 0 && |q| > 0 && r !in q
    requires |s| >= |pat| && s[..|pat|] != pat
    ensures OccursAt(ReplaceAll(s, pat, r), q, 0) ==> OccursAt(s, q, 0)
  {
    var u := ReplaceAll(s[1..], pat, r);
    assert ReplaceAll(s, pat, r) == [s[0]] + u;
    if OccursAt([s[0]] + u, q, 0) {
      OccursAtConsHead(s[0], u, q);
      assert u[..|q| - 1] == q[1..] && r !in q[1..];
      ReplaceAllKeepsPrefix(s[1..], pat, r, |q| - 1);
      assert s[1..][..|q| - 1] == q[1..];
      OccursAtConsHead(s[0], s[1..], q);
      assert [s[0]] + s[1..] == s;
    }
  }

  /** `q` starts `[c] + u` exactly when it starts with `c` and the rest of `q`
      starts `u`; a character missing from `q` is missing from its rest. */
  lemma OccursAtConsHead(c: char, u: seq<char>, q: seq<char>)
    requires |q| > 0
    ensures OccursAt([c] + u, q, 0) <==> q[0] == c && |q| - 1 <= |u| && u[..|q| - 1] == q[1..]
    ensures forall x :: x !in q ==> x !in q[1..]
  {
    if |q| - 1 <= |u| {
      assert ([c] + u)[..|q|] == [c] + u[..|q| - 1];
    }
    assert q == [q[0]] + q[1..];
  }

  /** `s.trimStart()`. */
  function TrimStart(s: seq<char>): (r: seq<char>)
    ensures |r| <= |s| && r == s[|s| - |r|..]
    ensures forall k :: 0 <= k < |s| - |r| ==> IsSpace(s[k])
    ensures r == [] || !IsSpace(r[0])
    decreases |s|
  {
    if |s| > 0 && IsSpace(s[0]) then TrimStart(s[1..]) else s
  }

  /** `s.trimEnd()`. */
  function TrimEnd(s: seq<char>): (r: seq<char>)
    ensures |r| <= |s| && r == s[..|r|]
    ensures forall k :: |r| <= k < |s| ==> IsSpace(s[k])
    ensures r == [] || !IsSpace(r[|r| - 1])
    decreases |s|
  {
    if |s| > 0 && IsSpace(s[|s| - 1]) then TrimEnd(s[..|s| - 1]) else s
  }

  /** `s.trim()`: the slice of `s` left once the white space on both sides is
      removed. */
  function Trim(s: seq<char>): (r: seq<char>)
    ensures exists a: nat, b: nat :: TrimmedSlice(s, a, b) && r == s[a..b]
    ensures r == [] || (!IsSpace(r[0]) && !IsSpace(r[|r| - 1]))
  {
    TrimBoth(s);
    TrimEnd(TrimStart(s))
  }

  /** A suffix of `s` after white space, cut before white space, is a
      trimmed slice of `s`. */
  /** Trimming the start and then the end leaves a trimmed slice. */
  lemma TrimBoth(s: seq<char>)
    ensures var r := TrimEnd(TrimStart(s));
      (exists a: nat, b: nat :: TrimmedSlice(s, a, b) && r == s[a..b])
      && (r == [] || (!IsSpace(r[0]) && !IsSpace(r[|r| - 1])))
  {
    var u := TrimStart(s);
    TrimWitness(s, u, TrimEnd(u));
  }

  lemma TrimWitness(s: seq<char>, u: seq<char>, r: seq<char>)
    requires |u| <= |s| && u == s[|s| - |u|..] && forall k :: 0 <= k < |s| - |u| ==> IsSpace(s[k])
    requires |r| <= |u| && r == u[..|r|] && forall k :: |r| <= k < |u| ==> IsSpace(u[k])
    requires (u == [] || !IsSpace(u[0])) && (r == [] || !IsSpace(r[|r| - 1]))
    ensures exists a: nat, b: nat :: TrimmedSlice(s, a, b) && r == s[a..b]
    ensures r == [] || (!IsSpace(r[0]) && !IsSpace(r[|r| - 1]))
  {
    if r != [] {
      assert r[0] == u[0];
    }
    var a := |s| - |u|;
    forall k | a + |r| <= k < |s| ensures IsSpace(s[k]) {
      assert s[k] == u[k - a];
    }
    assert TrimmedSlice(s, a, a + |r|) && r == s[a..a + |r|];
  }

  /** `s[a..b]` is what is left of `s` once white space at both ends is cut. */
  predicate TrimmedSlice(s: seq<char>, a: nat, b: nat) {
    a <= b <= |s|
    && (forall k :: 0 <= k < a ==> IsSpace(s[k]))
    && (forall k :: b <= k < |s| ==> IsSpace(s[k]))
  }

  /** A string with no white space at either end is its own trim. */
  lemma TrimIdle(s: seq<char>)
    requires s == [] || (!IsSpace(s[0]) && !IsSpace(s[|s| - 1]))
    ensures Trim(s) == s
  {
  }

  /** `parts.join(sep)`. */
  function JoinWith(parts: seq<seq<char>>, sep: seq<char>): (r: seq<char>)
    decreases |parts|
  {
    if parts == [] then []
    else if |parts| == 1 then parts[0]
    else parts[0] + sep + JoinWith(parts[1..], sep)
  }

  /** Joining one more part appends the separator and that part: the parts
      appear in the joined text in their order. */
  lemma {:induction false} JoinWithSnoc(parts: seq<seq<char>>, x: seq<char>, sep: seq<char>)
    ensures JoinWith(parts + [x], sep) == if parts == [] then x else JoinWith(parts, sep) + sep + x
    decreases |parts|
  {
    if |parts| > 1 {
      assert (parts + [x])[1..] == parts[1..] + [x];
      JoinWithSnoc(parts[1..], x, sep);
    } else if |parts| == 1 {
      assert (parts + [x])[1..] == [x];
    }
  }

  /** The length of a join: every part once, and one separator between two
      neighbours. */
  lemma {:induction false} JoinWithLength(parts: seq<seq<char>>, sep: seq<char>, total: nat)
    requires total == SumLengths(parts)
    ensures |JoinWith(parts, sep)| == total + (if parts == [] then 0 else (|parts| - 1) * |sep|)
    decreases |parts|
  {
    if |parts| > 1 {
      JoinWithLength(parts[1..], sep, SumLengths(parts[1..]));
    }
  }

  /** A join starts with its first part. */
  lemma JoinWithFirst(parts: seq<seq<char>>, sep: seq<char>)
    requires parts != []
    ensures |parts[0]| <= |JoinWith(parts, sep)| && JoinWith(parts, sep)[..|parts[0]|] == parts[0]
  {
    if |parts| > 1 {
      assert JoinWith(parts, sep) == parts[0] + (sep + JoinWith(parts[1..], sep));
    }
  }

  function SumLengths(parts: seq<seq<char>>): nat
    decreases |parts|
  {
    if parts == [] then 0 else |parts[0]| + SumLengths(parts[1..])
  }

  /** The ASCII digit for a value below ten. */
  function DigitChar(d: nat): (c: char)
    requires d < 10
    ensures IsDigit(c) && c as int - '0' as int == d
  {
    ('0' as int + d) as char
  }

  /** `${n}` for a non-negative integer: its decimal digits, most
      significant first, without leading zeros. */
  function Decimal(n: nat): (r: seq<char>)
    ensures |r| > 0 && AllIn(Digit, r)
    ensures r[0] == '0' ==> n == 0
    decreases n
  {
    if n < 10 then [DigitChar(n)] else Decimal(n / 10) + [DigitChar(n % 10)]
  }

  /** The value a string of decimal digits denotes. */
  function DecimalValue(s: seq<char>): nat
    requires AllIn(Digit, s)
    decreases |s|
  {
    if s == [] then 0
    else DecimalValue(s[..|s| - 1]) * 10 + (s[|s| - 1] as int - '0' as int)
  }

  /** Reading the rendered digits back gives the number: the rendering is
      exact and loses nothing. */
  lemma {:induction false} DecimalRoundTrip(n: nat)
    ensures DecimalValue(Decimal(n)) == n
    decreases n
  {
    if n >= 10 {
      var r := Decimal(n);
      assert r[..|r| - 1] == Decimal(n / 10);
      DecimalRoundTrip(n / 10);
    }
  }

  /** Different numbers render differently. */
  lemma DecimalInjective(m: nat, n: nat)
    requires Decimal(m) == Decimal(n)
    ensures m == n
  {
    DecimalRoundTrip(m);
    DecimalRoundTrip(n);
  }
}
