/** The sentence segmenter of `speakText` (app.js:495-511). Each regular
    expression pass is a left-to-right scan that tries a greedy matcher at
    every position, as a global `replace` or `match` does; the lemmas show
    that each greedy matcher finds the regular expression's only possible
    split points, so backtracking could not have chosen differently. */
module Segmenter {
  import opened Wrappers
  import opened Chars
  import opened Text
  import opened Seqs

  const DecimalSentinel: string := "DECIMALDOT"
  const ListSentinel: string := "LISTDOT"

  /** A text position that cannot belong to a decimal or list-number match. */
  predicate Stopper(c: char) {
    !IsDigit(c) && c != '.' && !IsSpace(c)
  }

  // ---------------------------------------------------------------------
  // Pass 1: a decimal point between digits becomes the decimal sentinel
  // ---------------------------------------------------------------------

  /** A match of pass 1 at `i`: integer digits `s[i..intEnd]`, the dot at
      `intEnd`, white space up to `fracStart`, fraction digits up to `end`. */
  datatype DecimalMatch = DecimalMatch(intEnd: nat, fracStart: nat, end: nat)

  /** `s[i..e]` matches `(\d+)\.\s*(\d+)` with the dot at `d` and the second
      group starting at `w`. */
  predicate IsDecimalAt(s: seq<char>, i: nat, d: nat, w: nat, e: nat) {
    i < d < w <= e <= |s| && w < e
    && AllIn(Digit, s[i..d]) && s[d] == '.'
    && AllIn(Space, s[d + 1..w]) && AllIn(Digit, s[w..e])
  }

  /** The match pass 1 finds at `i`: the greedy reading of the pattern. */
  function DecimalAt(s: seq<char>, i: nat): (m: Option<DecimalMatch>)
    requires i <= |s|
    ensures m.Some? ==> IsDecimalAt(s, i, m.value.intEnd, m.value.fracStart, m.value.end)
    ensures m.Some? ==> m.value.end == |s| || !IsDigit(s[m.value.end])
  {
    var d := RunEnd(s, i, Digit);
    if d == i || d == |s| || s[d] != '.' then None
    else
      var w := RunEnd(s, d + 1, Space);
      var e := RunEnd(s, w, Digit);
      if e == w then None else Some(DecimalMatch(d, w, e))
  }

  /** Whenever the pattern matches at `i` in any way, `DecimalAt` finds a
      match with the same dot and second group, at least as long. */
  lemma DecimalAtComplete(s: seq<char>, i: nat, d: nat, w: nat, e: nat)
    requires IsDecimalAt(s, i, d, w, e)
    ensures DecimalAt(s, i).Some?
    ensures DecimalAt(s, i).value.intEnd == d && DecimalAt(s, i).value.fracStart == w
    ensures e <= DecimalAt(s, i).value.end
  {
    RunEndExact(s, i, d, Digit);
    assert IsDigit(s[w..e][0]);
    RunEndExact(s, d + 1, w, Space);
    RunEndCovers(s, w, e, Digit);
    assert RunEnd(s, i, Digit) == d && RunEnd(s, d + 1, Space) == w && e <= RunEnd(s, w, Digit);
  }

  /** A match that no further digit could extend is exactly the one
      `DecimalAt` finds. */
  lemma DecimalAtExact(s: seq<char>, i: nat, d: nat, w: nat, e: nat)
    requires IsDecimalAt(s, i, d, w, e) && (e == |s| || !IsDigit(s[e]))
    ensures DecimalAt(s, i) == Some(DecimalMatch(d, w, e))
  {
    DecimalAtComplete(s, i, d, w, e);
  }

  /** What pass 1 writes for the head of `s`: a match there becomes its
      integer digits, the sentinel and its fraction digits (the white space
      after the dot is dropped); otherwise the first character is kept. */
  function DecimalHead(s: seq<char>): seq<char>
    requires s != []
  {
    match DecimalAt(s, 0)
    case Some(m) => s[..m.intEnd] + DecimalSentinel + s[m.fracStart..m.end]
    case None => [s[0]]
  }

  /** Where the scan of pass 1 resumes: after the match, or one further. */
  function DecimalSkip(s: seq<char>): (n: nat)
    requires s != []
    ensures 0 < n <= |s|
  {
    match DecimalAt(s, 0)
    case Some(m) => m.end
    case None => 1
  }

  /** Pass 1 over the whole of `s`. */
  function ProtectDecimals(s: seq<char>): seq<char>
    decreases |s|
  {
    if s == [] then [] else DecimalHead(s) + ProtectDecimals(s[DecimalSkip(s)..])
  }

  // ---------------------------------------------------------------------
  // Pass 2: a dot after digits and before white space becomes the list sentinel
  // ---------------------------------------------------------------------

  /** A match of pass 2 at `i`: digits `s[i..numEnd]`, the dot at `numEnd`,
      white space up to `end`. */
  datatype ListMatch = ListMatch(numEnd: nat, end: nat)

  /** `s[i..e]` matches `(\d+)\.\s+` with the dot at `d`. */
  predicate IsListAt(s: seq<char>, i: nat, d: nat, e: nat) {
    i < d && d + 1 < e <= |s|
    && AllIn(Digit, s[i..d]) && s[d] == '.' && AllIn(Space, s[d + 1..e])
  }

  /** The match pass 2 finds at `i`. */
  function ListAt(s: seq<char>, i: nat): (m: Option<ListMatch>)
    requires i <= |s|
    ensures m.Some? ==> IsListAt(s, i, m.value.numEnd, m.value.end)
    ensures m.Some? ==> m.value.end == |s| || !IsSpace(s[m.value.end])
  {
    var d := RunEnd(s, i, Digit);
    if d == i || d == |s| || s[d] != '.' then None
    else
      var e := RunEnd(s, d + 1, Space);
      if e == d + 1 then None else Some(ListMatch(d, e))
  }

  /** Whenever the pattern matches at `i`, `ListAt` finds a match with the
      same dot, at least as long. */
  lemma ListAtComplete(s: seq<char>, i: nat, d: nat, e: nat)
    requires IsListAt(s, i, d, e)
    ensures ListAt(s, i).Some? && ListAt(s, i).value.numEnd == d && e <= ListAt(s, i).value.end
  {
    RunEndExact(s, i, d, Digit);
    RunEndCovers(s, d + 1, e, Space);
  }

  /** What pass 2 writes for the head of `s`: a match there becomes its
      digits, the sentinel and one blank; otherwise the first character is
      kept. */
  function ListHead(s: seq<char>): seq<char>
    requires s != []
  {
    match ListAt(s, 0)
    case Some(m) => s[..m.numEnd] + ListSentinel + " "
    case None => [s[0]]
  }

  /** Where the scan of pass 2 resumes: after the match, or one further. */
  function ListSkip(s: seq<char>): (n: nat)
    requires s != []
    ensures 0 < n <= |s|
  {
    match ListAt(s, 0)
    case Some(m) => m.end
    case None => 1
  }

  /** Pass 2 over the whole of `s`. */
  function ProtectLists(s: seq<char>): (r: seq<char>)
    ensures s != [] ==> |r| > 0 && r[0] == s[0]
    decreases |s|
  {
    if s == [] then [] else ListHead(s) + ProtectLists(s[ListSkip(s)..])
  }

  /** Both protective passes, in the source's order. */
  function Protect(text: seq<char>): seq<char> {
    ProtectLists(ProtectDecimals(text))
  }

  // ---------------------------------------------------------------------
  // Pass 3: sentences are runs of non-terminators closed by terminators
  // ---------------------------------------------------------------------

  /** A match of pass 3 at a position: terminators from `termStart`, and the
      match ends at `end`. */
  datatype SentenceMatch = SentenceMatch(termStart: nat, end: nat)

  /** `s[i..e]` matches `[^.!?]+[.!?]+(?=\s|$)` with the terminators
      starting at `n`. */
  predicate IsSentenceAt(s: seq<char>, i: nat, n: nat, e: nat) {
    i < n < e <= |s|
    && AllIn(NonTerminator, s[i..n]) && AllIn(Terminator, s[n..e])
    && (e == |s| || IsSpace(s[e]))
  }

  /** The match pass 3 finds at `i`. */
  function SentenceAt(s: seq<char>, i: nat): (m: Option<SentenceMatch>)
    requires i <= |s|
    ensures m.Some? ==> IsSentenceAt(s, i, m.value.termStart, m.value.end)
  {
    var n := RunEnd(s, i, NonTerminator);
    if n == i || n == |s| then None
    else
      var e := RunEnd(s, n, Terminator);
      if e == |s| || IsSpace(s[e]) then Some(SentenceMatch(n, e)) else None
  }

  /** The pattern of pass 3 matches at `i` in at most one way, and
      `SentenceAt` finds it: a shorter run of either class would leave a
      character of that class where the next part must start. */
  lemma SentenceAtComplete(s: seq<char>, i: nat, n: nat, e: nat)
    requires IsSentenceAt(s, i, n, e)
    ensures SentenceAt(s, i) == Some(SentenceMatch(n, e))
  {
    assert IsTerminator(s[n..e][0]);
    RunEndExact(s, i, n, NonTerminator);
    RunEndExact(s, n, e, Terminator);
  }

  /** The start and end of one match of pass 3 in the protected text. */
  datatype Span = Span(start: nat, end: nat)

  predicate IsSentenceSpan(s: seq<char>, sp: Span) {
    sp.start <= |s| && SentenceAt(s, sp.start).Some? && SentenceAt(s, sp.start).value.end == sp.end
  }

  /** The matches of pass 3 from position `i` on, left to right: after a
      match the scan resumes where it ended, otherwise one position later. */
  function SentenceSpansFrom(s: seq<char>, i: nat): (r: seq<Span>)
    requires i <= |s|
    ensures forall k :: 0 <= k < |r| ==> i <= r[k].start < r[k].end <= |s| && IsSentenceSpan(s, r[k])
    ensures forall k :: 0 < k < |r| ==> r[k - 1].end <= r[k].start
    decreases |s| - i
  {
    if i == |s| then []
    else match SentenceAt(s, i)
      case Some(m) => [Span(i, m.end)] + SentenceSpansFrom(s, m.end)
      case None => SentenceSpansFrom(s, i + 1)
  }

  /** Position `p` lies inside one of `spans`. */
  ghost predicate Covered(spans: seq<Span>, p: nat) {
    exists k :: 0 <= k < |spans| && spans[k].start <= p < spans[k].end
  }

  /** The scan misses nothing: a position that no emitted match covers does
      not start a match. */
  lemma {:induction false} SpansComplete(s: seq<char>, i: nat, p: nat)
    requires i <= p < |s|
    requires !Covered(SentenceSpansFrom(s, i), p)
    ensures SentenceAt(s, p).None?
    decreases |s| - i
  {
    var spans := SentenceSpansFrom(s, i);
    match SentenceAt(s, i)
    case Some(m) =>
      var rest := SentenceSpansFrom(s, m.end);
      assert spans == [Span(i, m.end)] + rest;
      CoveredCons(Span(i, m.end), rest, p);
      SpansComplete(s, m.end, p);
    case None =>
      if p > i {
        SpansComplete(s, i + 1, p);
      }
  }

  /** A position covered by the first span or by a later one is covered. */
  lemma CoveredCons(x: Span, rest: seq<Span>, p: nat)
    ensures x.start <= p < x.end ==> Covered([x] + rest, p)
    ensures Covered(rest, p) ==> Covered([x] + rest, p)
  {
    if x.start <= p < x.end {
      assert ([x] + rest)[0] == x;
    }
    if Covered(rest, p) {
      var k :| 0 <= k < |rest| && rest[k].start <= p < rest[k].end;
      assert ([x] + rest)[k + 1] == rest[k];
    }
  }

  /** A sentence as pass 3 reads it: non-terminators, then terminators. */
  ghost predicate SentenceShaped(x: seq<char>) {
    exists n :: 0 < n < |x| && AllIn(NonTerminator, x[..n]) && AllIn(Terminator, x[n..])
  }

  /** The strings `match` returns: the slices of the emitted spans, each a
      run of non-terminators closed by a run of terminators that is followed
      in `s` by white space or the end of the text. */
  function Matches(s: seq<char>): (r: seq<seq<char>>)
    ensures |r| == |SentenceSpansFrom(s, 0)|
    ensures forall k :: 0 <= k < |r| ==>
      r[k] == s[SentenceSpansFrom(s, 0)[k].start..SentenceSpansFrom(s, 0)[k].end]
    ensures forall k :: 0 <= k < |r| ==> SentenceShaped(r[k])
    ensures forall k :: 0 <= k < |r| ==>
      SentenceSpansFrom(s, 0)[k].end == |s| || IsSpace(s[SentenceSpansFrom(s, 0)[k].end])
  {
    var spans := SentenceSpansFrom(s, 0);
    SpansShaped(s, spans);
    seq(|spans|, k requires 0 <= k < |spans| => s[spans[k].start..spans[k].end])
  }

  /** Every emitted span is sentence-shaped and followed by white space or
      the end of the text. */
  lemma SpansShaped(s: seq<char>, spans: seq<Span>)
    requires forall k :: 0 <= k < |spans| ==> IsSentenceSpan(s, spans[k])
    ensures forall k :: 0 <= k < |spans| ==>
      spans[k].start <= spans[k].end <= |s| && SentenceShaped(s[spans[k].start..spans[k].end])
    ensures forall k :: 0 <= k < |spans| ==> spans[k].end == |s| || IsSpace(s[spans[k].end])
  {
    forall k | 0 <= k < |spans|
      ensures spans[k].start <= spans[k].end <= |s| && SentenceShaped(s[spans[k].start..spans[k].end])
      ensures spans[k].end == |s| || IsSpace(s[spans[k].end])
    {
      SpanShaped(s, spans[k]);
    }
  }

  lemma SpanShaped(s: seq<char>, sp: Span)
    requires IsSentenceSpan(s, sp)
    ensures sp.start <= sp.end <= |s| && SentenceShaped(s[sp.start..sp.end])
    ensures sp.end == |s| || IsSpace(s[sp.end])
  {
    var m := SentenceAt(s, sp.start).value;
    var x, n := s[sp.start..sp.end], m.termStart - sp.start;
    assert x[..n] == s[sp.start..m.termStart];
    assert x[n..] == s[m.termStart..sp.end];
  }

  /** Some position of `s` starts a sentence: a run of non-terminators, then
      terminators followed by white space or the end of the text. */
  ghost predicate HasSentence(s: seq<char>) {
    exists i: nat, n: nat, e: nat :: IsSentenceAt(s, i, n, e)
  }

  /** `match` finds nothing exactly when the text holds no sentence at all. */
  lemma MatchesEmptyIff(s: seq<char>)
    ensures Matches(s) == [] <==> !HasSentence(s)
  {
    var spans := SentenceSpansFrom(s, 0);
    if spans != [] {
      var m := SentenceAt(s, spans[0].start).value;
      assert IsSentenceAt(s, spans[0].start, m.termStart, m.end);
    }
    if HasSentence(s) {
      var i: nat, n: nat, e: nat :| IsSentenceAt(s, i, n, e);
      SentenceAtComplete(s, i, n, e);
      if spans == [] {
        SpansComplete(s, 0, i);
      }
    }
  }

  /** Text after the last emitted sentence holds no sentence start: it is
      left out of the result, not split off as a further candidate. */
  lemma TrailingTextHasNoSentence(s: seq<char>, p: nat)
    requires SentenceSpansFrom(s, 0) != []
    requires SentenceSpansFrom(s, 0)[|SentenceSpansFrom(s, 0)| - 1].end <= p < |s|
    ensures SentenceAt(s, p).None?
  {
    SpansFromOrdered(s, 0);
    PastLastSpan(SentenceSpansFrom(s, 0), p);
    SpansComplete(s, 0, p);
  }

  /** Each span is non-empty and ends before the next one starts. */
  ghost predicate OrderedSpans(spans: seq<Span>) {
    (forall x :: 0 <= x < |spans| ==> spans[x].start < spans[x].end)
    && (forall x :: 0 < x < |spans| ==> spans[x - 1].end <= spans[x].start)
  }

  /** The spans of the scan are ordered. */
  lemma SpansFromOrdered(s: seq<char>, i: nat)
    requires i <= |s|
    ensures OrderedSpans(SentenceSpansFrom(s, i))
  {
    var spans := SentenceSpansFrom(s, i);
    forall x | 0 <= x < |spans| ensures spans[x].start < spans[x].end {
    }
  }

  /** No span of an ordered sequence covers a position past its last span. */
  lemma PastLastSpan(spans: seq<Span>, p: nat)
    requires spans != [] && spans[|spans| - 1].end <= p
    requires OrderedSpans(spans)
    ensures !Covered(spans, p)
  {
    forall k | 0 <= k < |spans| ensures !(spans[k].start <= p < spans[k].end) {
      SpansOrdered(spans, k, |spans| - 1);
    }
  }

  /** Spans that are ordered pairwise between neighbours are ordered overall. */
  lemma {:induction false} SpansOrdered(spans: seq<Span>, j: nat, k: nat)
    requires j <= k < |spans|
    requires forall x :: 0 <= x < |spans| ==> spans[x].start < spans[x].end
    requires forall x :: 0 < x < |spans| ==> spans[x - 1].end <= spans[x].start
    ensures j < k ==> spans[j].end <= spans[k].start
    ensures spans[j].start <= spans[k].start && spans[j].end <= spans[k].end
    decreases k - j
  {
    if j < k {
      SpansOrdered(spans, j, k - 1);
    }
  }

  // ---------------------------------------------------------------------
  // Candidates and their clean-up
  // ---------------------------------------------------------------------

  /** The candidate sentences: the matches of pass 3 over the protected text
      or, when there are none, the original text as it is. */
  function Candidates(text: seq<char>): seq<seq<char>> {
    var ms := Matches(Protect(text));
    if ms == [] then [text] else ms
  }

  /** The fallback is taken exactly when the protected text holds no
      sentence; then the original text, not the protected one, is the only
      candidate. */
  lemma CandidatesFallback(text: seq<char>)
    ensures Candidates(text) == if HasSentence(Protect(text)) then Matches(Protect(text)) else [text]
    ensures HasSentence(Protect(text)) ==> Candidates(text) != []
  {
    MatchesEmptyIff(Protect(text));
  }

  /** Both sentinels turned back into `.`, in the source's order. */
  function Restore(c: seq<char>): (r: seq<char>)
    ensures !Occurs(r, DecimalSentinel) && !Occurs(r, ListSentinel)
  {
    var once := ReplaceAll(c, DecimalSentinel, '.');
    ReplaceAllAvoids(c, DecimalSentinel, '.', DecimalSentinel);
    ReplaceAllAvoids(once, ListSentinel, '.', DecimalSentinel);
    ReplaceAllAvoids(once, ListSentinel, '.', ListSentinel);
    ReplaceAll(once, ListSentinel, '.')
  }

  /** Text holding neither sentinel comes out of `Restore` unchanged. */
  lemma RestoreKeeps(s: seq<char>)
    requires !Occurs(s, DecimalSentinel) && !Occurs(s, ListSentinel)
    ensures Restore(s) == s
  {
    ReplaceAllAbsent(s, DecimalSentinel, '.');
    ReplaceAllAbsent(s, ListSentinel, '.');
  }

  /** A character that can end the text before a sentinel without joining
      it: one that occurs in neither sentinel. */
  predicate SentinelSafe(s: seq<char>) {
    s == [] || (s[|s| - 1] !in DecimalSentinel && s[|s| - 1] !in ListSentinel)
  }

  /** The decimal sentinel becomes a `.`, and the text on either side is
      restored as if it stood alone. */
  lemma RestoreDecimalSentinel(a: seq<char>, b: seq<char>)
    requires SentinelSafe(a)
    ensures Restore(a + DecimalSentinel + b) == Restore(a) + "." + Restore(b)
  {
    Assoc(a, DecimalSentinel, b);
    ReplaceAllConcat(a, DecimalSentinel + b, DecimalSentinel, '.');
    ReplaceAllAtHead(DecimalSentinel, b, '.');
    var x, y := ReplaceAll(a, DecimalSentinel, '.'), ReplaceAll(b, DecimalSentinel, '.');
    if a != [] {
      ReplaceAllLast(a, DecimalSentinel, '.');
    }
    ReplaceAllConcat(x, ['.'] + y, ListSentinel, '.');
    ReplaceAllConcat(['.'], y, ListSentinel, '.');
    assert ReplaceAll(['.'], ListSentinel, '.') == ['.'];
    Assoc(ReplaceAll(x, ListSentinel, '.'), ['.'], ReplaceAll(y, ListSentinel, '.'));
  }

  /** The list sentinel becomes a `.`, and the text on either side is
      restored as if it stood alone. */
  lemma RestoreListSentinel(a: seq<char>, b: seq<char>)
    requires SentinelSafe(a)
    ensures Restore(a + ListSentinel + b) == Restore(a) + "." + Restore(b)
  {
    Assoc(a, ListSentinel, b);
    ReplaceAllConcat(a, ListSentinel + b, DecimalSentinel, '.');
    ListSentinelKept(b);
    var x, y := ReplaceAll(a, DecimalSentinel, '.'), ReplaceAll(b, DecimalSentinel, '.');
    if a != [] {
      ReplaceAllLast(a, DecimalSentinel, '.');
    }
    ReplaceAllConcat(x, ListSentinel + y, ListSentinel, '.');
    ReplaceAllAtHead(ListSentinel, y, '.');
    Assoc(ReplaceAll(x, ListSentinel, '.'), ['.'], ReplaceAll(y, ListSentinel, '.'));
  }

  /** The first replacement leaves the list sentinel alone: the decimal
      sentinel cannot start inside it. */
  lemma ListSentinelKept(b: seq<char>)
    ensures ReplaceAll(ListSentinel + b, DecimalSentinel, '.') == ListSentinel + ReplaceAll(b, DecimalSentinel, '.')
  {
    var t := ListSentinel + b;
    forall k | 0 <= k < |ListSentinel| ensures !OccursAt(t, DecimalSentinel, k) {
      if k + |DecimalSentinel| <= |t| {
        assert t[k..k + |DecimalSentinel|][0] == ListSentinel[k];
        if k == 4 {
          assert t[k..k + |DecimalSentinel|][1] == 'O';
        }
      }
    }
    ReplaceAllKeeps(ListSentinel, b, DecimalSentinel, '.');
  }

  /** A candidate as it is queued: sentinels restored, then trimmed. */
  function Clean(c: seq<char>): (r: seq<char>)
    ensures exists a: nat, b: nat :: TrimmedSlice(Restore(c), a, b) && r == Restore(c)[a..b]
    ensures r == [] || (!IsSpace(r[0]) && !IsSpace(r[|r| - 1]))
    ensures !Occurs(r, DecimalSentinel) && !Occurs(r, ListSentinel)
  {
    var restored := Restore(c);
    var r := Trim(restored);
    var a: nat, b: nat :| TrimmedSlice(restored, a, b) && r == restored[a..b];
    OccursInSlice(restored, a, b, DecimalSentinel);
    OccursInSlice(restored, a, b, ListSentinel);
    r
  }

  /** What the queue may receive: a non-empty sentence with no white space
      at either end and no sentinel left in it. */
  ghost predicate Queueable(x: seq<char>) {
    x != [] && !IsSpace(x[0]) && !IsSpace(x[|x| - 1])
    && !Occurs(x, DecimalSentinel) && !Occurs(x, ListSentinel)
  }

  /** The cleaned candidates that are not empty, in candidate order: the
      sentences the loop of `speakText` hands to the queue. */
  function Speakable(cs: seq<seq<char>>): seq<seq<char>>
    decreases |cs|
  {
    if cs == [] then []
    else
      var last := Clean(cs[|cs| - 1]);
      Speakable(cs[..|cs| - 1]) + if last == [] then [] else [last]
  }

  /** Every sentence handed to the queue is non-empty, trimmed and free of
      sentinels, and no candidate yields more than one. */
  lemma {:induction false} SpeakableQueueable(cs: seq<seq<char>>)
    ensures |Speakable(cs)| <= |cs|
    ensures forall k :: 0 <= k < |Speakable(cs)| ==> Queueable(Speakable(cs)[k])
    decreases |cs|
  {
    if cs != [] {
      var front := cs[..|cs| - 1];
      SpeakableQueueable(front);
      var last := Clean(cs[|cs| - 1]);
      if last != [] {
        assert Queueable(last);
        assert Speakable(cs) == Speakable(front) + [last];
      }
    }
  }

  /** Cleaning distributes over concatenation: each candidate contributes
      its own sentence, in place, whatever surrounds it. */
  lemma {:induction false} SpeakableAppend(a: seq<seq<char>>, b: seq<seq<char>>)
    ensures Speakable(a + b) == Speakable(a) + Speakable(b)
    decreases |b|
  {
    if b == [] {
      assert a + b == a;
    } else {
      var b', c := b[..|b| - 1], b[|b| - 1];
      assert b == b' + [c];
      assert a + b == (a + b') + [c];
      SpeakableSnoc(a + b', c);
      SpeakableSnoc(b', c);
      SpeakableAppend(a, b');
      Assoc(Speakable(a), Speakable(b'), if Clean(c) == [] then [] else [Clean(c)]);
    }
  }

  /** One more candidate adds its cleaned form at the end, if not empty. */
  lemma SpeakableSnoc(cs: seq<seq<char>>, c: seq<char>)
    ensures Speakable(cs + [c]) == Speakable(cs) + if Clean(c) == [] then [] else [Clean(c)]
  {
    assert (cs + [c])[..|cs|] == cs;
  }

  /** A candidate is queued exactly when its cleaned form is not empty. */
  lemma SpeakableOne(c: seq<char>)
    ensures Speakable([c]) == if Clean(c) == [] then [] else [Clean(c)]
  {
    assert [c][..0] == [];
  }

  /** What `speakText` queues for `text`, in order. */
  function Segment(text: seq<char>): seq<seq<char>> {
    Speakable(Candidates(text))
  }

  // ---------------------------------------------------------------------
  // What the protective passes guarantee
  // ---------------------------------------------------------------------

  /** Digit, dot, white space at positions `k - 1`, `k`, `k + 1` of `s`. */
  predicate NumberDotSpaceAt(s: seq<char>, k: nat) {
    0 < k && k + 1 < |s| && IsDigit(s[k - 1]) && s[k] == '.' && IsSpace(s[k + 1])
  }

  /** After pass 2 no digit is followed by a dot and white space: every list
      enumerator such as `2. ` has become `2LISTDOT `. */
  lemma {:induction false} ProtectListsLeavesNoNumberDot(s: seq<char>, k: nat)
    ensures !NumberDotSpaceAt(ProtectLists(s), k)
    decreases |s|
  {
    if s != [] {
      var head, rest := ListHead(s), s[ListSkip(s)..];
      assert ProtectLists(s) == head + ProtectLists(rest);
      match ListAt(s, 0)
      case Some(m) =>
        ListHeadHasNoDot(s[..m.numEnd], head);
        NumberDotSpaceAfter(head, ProtectLists(rest), k);
        if k > |head| {
          ProtectListsLeavesNoNumberDot(rest, k - |head|);
        }
      case None =>
        if k == 1 {
          KeptHeadNoNumberDot(s);
        } else if k > 1 {
          NumberDotSpaceAfter(head, ProtectLists(rest), k);
          ProtectListsLeavesNoNumberDot(rest, k - 1);
        }
    }
  }

  /** Digit, dot, white space past a prefix `h` is the same pattern in the
      rest; at or before the end of a prefix that holds no dot and ends with
      a blank, the pattern cannot start. */
  lemma NumberDotSpaceAfter(h: seq<char>, rest: seq<char>, k: nat)
    ensures k > |h| ==> (NumberDotSpaceAt(h + rest, k) <==> NumberDotSpaceAt(rest, k - |h|))
    ensures k <= |h| && h != [] && h[|h| - 1] == ' ' && (forall x :: 0 <= x < |h| ==> h[x] != '.')
      ==> !NumberDotSpaceAt(h + rest, k)
  {
    if k > |h| && k + 1 < |h + rest| {
      assert (h + rest)[k - 1] == rest[k - |h| - 1];
      assert (h + rest)[k] == rest[k - |h|];
      assert (h + rest)[k + 1] == rest[k - |h| + 1];
    }
    if 0 < k < |h| {
      assert (h + rest)[k] == h[k];
    } else if k == |h| && k > 0 {
      assert (h + rest)[k - 1] == h[|h| - 1];
    }
  }

  /** What pass 2 writes for a list number holds no dot and ends with a
      blank. */
  lemma ListHeadHasNoDot(digits: seq<char>, head: seq<char>)
    requires AllIn(Digit, digits) && head == digits + ListSentinel + " "
    ensures head != [] && head[|head| - 1] == ' ' && forall x :: 0 <= x < |head| ==> head[x] != '.'
  {
    forall x | 0 <= x < |head| ensures head[x] != '.' {
      if x < |digits| {
        assert head[x] == digits[x];
      }
    }
  }

  /** When pass 2 keeps the first character, the pattern cannot start right
      after it: a digit there followed by a dot and a blank would have been
      a match. */
  lemma KeptHeadNoNumberDot(s: seq<char>)
    requires s != [] && ListAt(s, 0).None?
    ensures !NumberDotSpaceAt(ProtectLists(s), 1)
  {
    assert ProtectLists(s) == [s[0]] + ProtectLists(s[1..]);
    if |s| > 1 && s[1] == '.' {
      var t := s[1..];
      assert t[0] == '.' && RunEnd(t, 0, Digit) == 0;
      assert ListAt(t, 0).None? && t[1..] == s[2..];
      assert ProtectLists(t) == ['.'] + ProtectLists(s[2..]);
      assert ProtectLists(s) == [s[0]] + (['.'] + ProtectLists(s[2..]));
      if |s| > 2 {
        ListAtSeesNumberDot(s, 0);
      }
    }
  }

  /** A digit, a dot and a blank at `i` always give pass 2 a match at `i`. */
  lemma ListAtSeesNumberDot(s: seq<char>, i: nat)
    requires i + 2 < |s|
    ensures IsDigit(s[i]) && s[i + 1] == '.' && IsSpace(s[i + 2]) ==> ListAt(s, i).Some?
  {
    if IsDigit(s[i]) && s[i + 1] == '.' && IsSpace(s[i + 2]) {
      ListAtComplete(s, i, i + 1, i + 3);
    }
  }

  /** A list number never ends a sentence inside the text: a sentence that
      `match` returns and that is followed by more text does not end with a
      single dot right after a digit. */
  lemma ListNumberNeverEndsSentence(text: seq<char>, k: nat)
    requires k < |SentenceSpansFrom(Protect(text), 0)|
    requires SentenceSpansFrom(Protect(text), 0)[k].end < |Protect(text)|
    ensures var p, e := Protect(text), SentenceSpansFrom(Protect(text), 0)[k].end;
      !(IsDigit(p[e - 2]) && p[e - 1] == '.')
  {
    SpanEndFollowedBySpace(Protect(text), k);
    ProtectListsLeavesNoNumberDot(ProtectDecimals(text), SentenceSpansFrom(Protect(text), 0)[k].end - 1);
  }

  /** A match of pass 3 spans at least two characters, and one that ends
      inside the text is followed by white space. */
  lemma SpanEndFollowedBySpace(s: seq<char>, k: nat)
    requires k < |SentenceSpansFrom(s, 0)|
    ensures var e := SentenceSpansFrom(s, 0)[k].end; 2 <= e && (e < |s| ==> IsSpace(s[e]))
  {
    var sp := SentenceSpansFrom(s, 0)[k];
    var m := SentenceAt(s, sp.start).value;
    assert IsSentenceAt(s, sp.start, m.termStart, sp.end);
  }

  /** No match of pass 2 can straddle the boundary of `a + b`: `a` does not
      end in a digit, and `b` does not start with white space. */
  predicate ListSafeJoin(a: seq<char>, b: seq<char>) {
    (a == [] || !IsDigit(a[|a| - 1])) && (b == [] || !IsSpace(b[0]))
  }

  /** Pass 2 at a position inside `a` sees only `a` when the join is safe. */
  lemma ListAtPrefix(a: seq<char>, b: seq<char>, i: nat)
    requires i < |a| && ListSafeJoin(a, b)
    ensures ListAt(a + b, i) == ListAt(a, i)
  {
    var d := RunEnd(a, i, Digit);
    RunEndStops(a, i, Digit);
    RunEndPrefix(a, b, i, Digit);
    assert (a + b)[d] == a[d];
    if d > i && a[d] == '.' {
      ListSpacesPrefix(a, b, d + 1);
    }
    ListAtSame(a, a + b, i);
  }

  /** Pass 2 finds the same match at `i` in two texts whose digit run from
      `i`, the character after it and the white space after that agree. */
  lemma ListAtSame(s: seq<char>, t: seq<char>, i: nat)
    requires i <= |s| && i <= |t|
    requires var d := RunEnd(s, i, Digit);
      d == RunEnd(t, i, Digit) && d < |s| && d < |t| && s[d] == t[d]
      && (d > i && s[d] == '.' ==> RunEnd(s, d + 1, Space) == RunEnd(t, d + 1, Space))
    ensures ListAt(s, i) == ListAt(t, i)
  {
  }

  /** A run of white space from inside `a` reads the same in `a + b` when
      `b` does not start with white space. */
  lemma ListSpacesPrefix(a: seq<char>, b: seq<char>, p: nat)
    requires p <= |a| && (b == [] || !IsSpace(b[0]))
    ensures RunEnd(a + b, p, Space) == RunEnd(a, p, Space)
  {
    if RunEnd(a, p, Space) < |a| {
      RunEndPrefix(a, b, p, Space);
    } else {
      RunEndToEnd(a, b, p, Space);
    }
  }

  /** Pass 2 over `a + b` is pass 2 over `a` followed by pass 2 over `b`
      when the join is safe. */
  lemma {:induction false} ProtectListsPrefix(a: seq<char>, b: seq<char>)
    requires ListSafeJoin(a, b)
    ensures ProtectLists(a + b) == ProtectLists(a) + ProtectLists(b)
    decreases |a|
  {
    if a == [] {
      assert a + b == b;
    } else {
      ListHeadPrefix(a, b);
      var rest := a[ListSkip(a)..];
      DropFromConcat(a, b, ListSkip(a));
      ProtectListsPrefix(rest, b);
      ListPrefixStep(a, b, rest);
    }
  }

  /** The head step of pass 2 at the start of `a + b` is the one at the start
      of `a`. */
  lemma ListHeadPrefix(a: seq<char>, b: seq<char>)
    requires a != [] && ListSafeJoin(a, b)
    ensures ListHead(a + b) == ListHead(a)
    ensures ListSkip(a + b) == ListSkip(a)
  {
    ListAtPrefix(a, b, 0);
    match ListAt(a, 0)
    case Some(m) =>
      assert (a + b)[..m.numEnd] == a[..m.numEnd];
    case None =>
      assert (a + b)[0] == a[0];
  }

  /** The recombination step of `ProtectListsPrefix`. */
  lemma ListPrefixStep(a: seq<char>, b: seq<char>, rest: seq<char>)
    requires a != [] && ListHead(a + b) == ListHead(a) && ListSkip(a + b) == ListSkip(a)
    requires rest == a[ListSkip(a)..] && (a + b)[ListSkip(a)..] == rest + b
    requires ProtectLists(rest + b) == ProtectLists(rest) + ProtectLists(b)
    ensures ProtectLists(a + b) == ProtectLists(a) + ProtectLists(b)
  {
  }

  /** A list-number match that no further white space could extend is
      exactly the one `ListAt` finds. */
  lemma ListAtExact(s: seq<char>, i: nat, d: nat, e: nat)
    requires IsListAt(s, i, d, e) && (e == |s| || !IsSpace(s[e]))
    ensures ListAt(s, i) == Some(ListMatch(d, e))
  {
    RunEndExact(s, i, d, Digit);
    RunEndExact(s, d + 1, e, Space);
  }

  /** A list number after a character that is not a digit is protected: its
      digits, the sentinel and one blank replace it and all the white space
      after its dot, and the text on either side is processed as if it
      stood alone. */
  lemma ProtectListsSplice(pre: seq<char>, d: seq<char>, ws: seq<char>, post: seq<char>)
    requires pre == [] || !IsDigit(pre[|pre| - 1])
    requires d != [] && AllIn(Digit, d) && ws != [] && AllIn(Space, ws)
    requires post == [] || !IsSpace(post[0])
    ensures ProtectLists(pre + d + "." + ws + post) == ProtectLists(pre) + d + ListSentinel + " " + ProtectLists(post)
  {
    var s := d + "." + ws + post;
    Regroup4(pre, d, ".", ws, post);
    assert s[0] == d[0] && In(Digit, d[0]);
    ProtectListsPrefix(pre, s);
    ListHeadOfNumber(d, ws, post);
    ListSpliceStep(s, d + ListSentinel + " ", post);
    Regroup4(ProtectLists(pre), d, ListSentinel, " ", ProtectLists(post));
  }

  lemma Regroup4(x: seq<char>, y: seq<char>, z: seq<char>, u: seq<char>, v: seq<char>)
    ensures x + (y + z + u + v) == x + y + z + u + v
  {
  }

  /** The head step of pass 2, unfolded once. */
  lemma ListSpliceStep(s: seq<char>, head: seq<char>, post: seq<char>)
    requires s != [] && ListHead(s) == head && s[ListSkip(s)..] == post
    ensures ProtectLists(s) == head + ProtectLists(post)
  {
  }

  /** Pass 2 at the start of a list number that is not followed by further
      white space rewrites exactly that number. */
  lemma ListHeadOfNumber(d: seq<char>, ws: seq<char>, post: seq<char>)
    requires d != [] && AllIn(Digit, d) && ws != [] && AllIn(Space, ws)
    requires post == [] || !IsSpace(post[0])
    ensures var s := d + "." + ws + post;
      ListHead(s) == d + ListSentinel + " " && s[ListSkip(s)..] == post
  {
    var s, e := d + "." + ws + post, |d| + 1 + |ws|;
    assert s[..|d|] == d && s[|d|] == '.' && s[|d| + 1..e] == ws && s[e..] == post;
    assert e < |s| ==> s[e] == post[0];
    ListAtExact(s, 0, |d|, e);
  }

  /** Pass 1 at a position inside `a`, when `a` ends with a character no match
      can hold, sees only `a`. */
  lemma DecimalAtPrefix(a: seq<char>, b: seq<char>, i: nat)
    requires i < |a| && Stopper(a[|a| - 1])
    ensures DecimalAt(a + b, i) == DecimalAt(a, i)
    ensures DecimalAt(a, i).Some? ==> DecimalAt(a, i).value.end < |a|
  {
    var d := RunEnd(a, i, Digit);
    RunEndStops(a, i, Digit);
    RunEndPrefix(a, b, i, Digit);
    assert (a + b)[d] == a[d];
    if d > i && a[d] == '.' {
      DecimalTailPrefix(a, b, d);
      var w := RunEnd(a, d + 1, Space);
      var e := RunEnd(a, w, Digit);
      assert DecimalAt(a, i) == if e == w then None else Some(DecimalMatch(d, w, e));
      assert DecimalAt(a + b, i) == if e == w then None else Some(DecimalMatch(d, w, e));
    } else {
      assert DecimalAt(a, i) == None == DecimalAt(a + b, i);
    }
  }

  /** The white space and fraction digits after a dot at `d` inside `a` stop
      inside `a` as well, and read the same in `a + b`. */
  lemma DecimalTailPrefix(a: seq<char>, b: seq<char>, d: nat)
    requires d < |a| && a[d] == '.' && Stopper(a[|a| - 1])
    ensures RunEnd(a + b, d + 1, Space) == RunEnd(a, d + 1, Space) < |a|
    ensures RunEnd(a + b, RunEnd(a, d + 1, Space), Digit) == RunEnd(a, RunEnd(a, d + 1, Space), Digit) < |a|
  {
    var w := RunEnd(a, d + 1, Space);
    RunEndStops(a, d + 1, Space);
    RunEndPrefix(a, b, d + 1, Space);
    RunEndStops(a, w, Digit);
    RunEndPrefix(a, b, w, Digit);
  }

  /** Pass 1 over `a + b` is pass 1 over `a` followed by pass 1 over `b`,
      when `a` ends with a character no match can hold. */
  lemma {:induction false} ProtectDecimalsPrefix(a: seq<char>, b: seq<char>)
    requires a == [] || Stopper(a[|a| - 1])
    ensures ProtectDecimals(a + b) == ProtectDecimals(a) + ProtectDecimals(b)
    decreases |a|
  {
    if a == [] {
      assert a + b == b;
    } else {
      DecimalHeadPrefix(a, b);
      var rest := a[DecimalSkip(a)..];
      DropFromConcat(a, b, DecimalSkip(a));
      ProtectDecimalsPrefix(rest, b);
      PrefixStep(a, b, rest);
    }
  }

  /** The head step of pass 1 at the start of `a + b` is the one at the start
      of `a`, and it ends inside `a`. */
  lemma DecimalHeadPrefix(a: seq<char>, b: seq<char>)
    requires a != [] && Stopper(a[|a| - 1])
    ensures DecimalHead(a + b) == DecimalHead(a)
    ensures DecimalSkip(a + b) == DecimalSkip(a)
  {
    DecimalAtPrefix(a, b, 0);
    match DecimalAt(a, 0)
    case Some(m) =>
      assert (a + b)[..m.intEnd] == a[..m.intEnd];
      assert (a + b)[m.fracStart..m.end] == a[m.fracStart..m.end];
    case None =>
      assert (a + b)[0] == a[0];
  }

  /** The recombination step of `ProtectDecimalsPrefix`. */
  lemma PrefixStep(a: seq<char>, b: seq<char>, rest: seq<char>)
    requires a != [] && DecimalHead(a + b) == DecimalHead(a) && DecimalSkip(a + b) == DecimalSkip(a)
    requires rest == a[DecimalSkip(a)..] && (a + b)[DecimalSkip(a)..] == rest + b
    requires ProtectDecimals(rest + b) == ProtectDecimals(rest) + ProtectDecimals(b)
    ensures ProtectDecimals(a + b) == ProtectDecimals(a) + ProtectDecimals(b)
  {
  }

  /** A decimal number after a character no match can hold and any white
      space is protected: its integer digits, the sentinel and its fraction
      digits replace it, the white space after its dot is dropped, and the
      text on either side is processed as if it stood alone. */
  lemma ProtectDecimalsSplice(pre: seq<char>, sp: seq<char>, d1: seq<char>, ws: seq<char>, d2: seq<char>,
                              post: seq<char>)
    requires pre == [] || Stopper(pre[|pre| - 1])
    requires AllIn(Space, sp)
    requires d1 != [] && AllIn(Digit, d1) && AllIn(Space, ws) && d2 != [] && AllIn(Digit, d2)
    requires post == [] || !IsDigit(post[0])
    ensures ProtectDecimals(pre + sp + d1 + "." + ws + d2 + post)
         == ProtectDecimals(pre) + sp + d1 + DecimalSentinel + d2 + ProtectDecimals(post)
  {
    var s := d1 + "." + ws + d2 + post;
    RegroupInput(pre, sp, d1, ".", ws, d2, post);
    ProtectDecimalsPrefix(pre, sp + s);
    ProtectDecimalsSpaces(sp, s);
    DecimalHeadOfNumber(d1, ws, d2, post);
    SpliceStep(s, d1 + DecimalSentinel + d2, post);
    Regroup(ProtectDecimals(pre), sp, d1, DecimalSentinel, d2, ProtectDecimals(post));
  }

  /** White space never starts a match of pass 1 and is copied as it is. */
  lemma {:induction false} ProtectDecimalsSpaces(sp: seq<char>, x: seq<char>)
    requires AllIn(Space, sp)
    ensures ProtectDecimals(sp + x) == sp + ProtectDecimals(x)
    decreases |sp|
  {
    if sp == [] {
      assert sp + x == x;
    } else {
      var t := sp + x;
      assert t[0] == sp[0] && In(Space, sp[0]);
      assert RunEnd(t, 0, Digit) == 0;
      assert DecimalAt(t, 0) == None;
      assert t[1..] == sp[1..] + x;
      ProtectDecimalsSpaces(sp[1..], x);
      Assoc([sp[0]], sp[1..], ProtectDecimals(x));
      assert [sp[0]] + sp[1..] == sp;
    }
  }

  /** Dropping a prefix of `a` from `a + b` leaves the rest of `a`, which ends
      as `a` does, followed by `b`. */
  lemma DropFromConcat(a: seq<char>, b: seq<char>, n: nat)
    requires n <= |a|
    ensures (a + b)[n..] == a[n..] + b
    ensures n < |a| ==> a[n..][|a| - n - 1] == a[|a| - 1]
  {
  }

  lemma Regroup(x: seq<char>, y: seq<char>, z: seq<char>, u: seq<char>, v: seq<char>, w: seq<char>)
    ensures x + (y + (z + u + v + w)) == x + y + z + u + v + w
  {
  }

  lemma RegroupInput(x: seq<char>, y: seq<char>, z: seq<char>, u: seq<char>, v: seq<char>, w: seq<char>,
                     t: seq<char>)
    ensures x + (y + (z + u + v + w + t)) == x + y + z + u + v + w + t
  {
  }

  /** The head step of pass 1, unfolded once. */
  lemma SpliceStep(s: seq<char>, head: seq<char>, post: seq<char>)
    requires s != [] && DecimalHead(s) == head && s[DecimalSkip(s)..] == post
    ensures ProtectDecimals(s) == head + ProtectDecimals(post)
  {
  }

  /** Pass 1 at the start of a decimal number that is not followed by a
      further digit rewrites exactly that number. */
  lemma DecimalHeadOfNumber(d1: seq<char>, ws: seq<char>, d2: seq<char>, post: seq<char>)
    requires d1 != [] && AllIn(Digit, d1) && AllIn(Space, ws) && d2 != [] && AllIn(Digit, d2)
    requires post == [] || !IsDigit(post[0])
    ensures var s := d1 + "." + ws + d2 + post;
      DecimalHead(s) == d1 + DecimalSentinel + d2 && s[DecimalSkip(s)..] == post
  {
    var s := d1 + "." + ws + d2 + post;
    var d, w, e := |d1|, |d1| + 1 + |ws|, |d1| + 1 + |ws| + |d2|;
    NumberLayout(d1, ws, d2, post);
    DecimalAtExact(s, 0, d, w, e);
  }

  /** Where the parts of a decimal number lie in `d1 + "." + ws + d2 + post`. */
  lemma NumberLayout(d1: seq<char>, ws: seq<char>, d2: seq<char>, post: seq<char>)
    requires d1 != [] && AllIn(Digit, d1) && AllIn(Space, ws) && d2 != [] && AllIn(Digit, d2)
    requires post == [] || !IsDigit(post[0])
    ensures var s, d, w, e := d1 + "." + ws + d2 + post, |d1|, |d1| + 1 + |ws|, |d1| + 1 + |ws| + |d2|;
      IsDecimalAt(s, 0, d, w, e) && (e == |s| || !IsDigit(s[e]))
      && s[..d] == d1 && s[w..e] == d2 && s[e..] == post
  {
    var s := d1 + "." + ws + d2 + post;
    var d, w, e := |d1|, |d1| + 1 + |ws|, |d1| + 1 + |ws| + |d2|;
    assert s[..d] == d1 && s[d] == '.' && s[d + 1..w] == ws && s[w..e] == d2 && s[e..] == post;
    assert e < |s| ==> s[e] == post[0];
  }

  // ---------------------------------------------------------------------
  // Worked examples
  // ---------------------------------------------------------------------

  /** No digit of `s` is directly followed by a dot. */
  predicate NoDigitDot(s: seq<char>) {
    forall i :: 0 <= i < |s| - 1 ==> !(IsDigit(s[i]) && s[i + 1] == '.')
  }

  /** In text where no digit meets a dot, neither protective pass finds a
      match at the head, and the rest is such text again. */
  lemma NoDigitDotHead(s: seq<char>)
    requires s != [] && NoDigitDot(s)
    ensures DecimalAt(s, 0).None? && ListAt(s, 0).None? && NoDigitDot(s[1..])
  {
    var d := RunEnd(s, 0, Digit);
    if 0 < d < |s| {
      assert s[0..d][d - 1] == s[d - 1];
    }
    forall i | 0 <= i < |s[1..]| - 1 ensures !(IsDigit(s[1..][i]) && s[1..][i + 1] == '.') {
      assert s[1..][i] == s[i + 1] && s[1..][i + 1] == s[i + 2];
    }
  }

  /** Pass 1 leaves text where no digit meets a dot unchanged. */
  lemma {:induction false} ProtectDecimalsIdle(s: seq<char>)
    requires NoDigitDot(s)
    ensures ProtectDecimals(s) == s
    decreases |s|
  {
    if s != [] {
      NoDigitDotHead(s);
      ProtectDecimalsIdle(s[1..]);
      assert s == [s[0]] + s[1..];
    }
  }

  /** Pass 2 leaves text where no digit meets a dot unchanged. */
  lemma {:induction false} ProtectListsIdle(s: seq<char>)
    requires NoDigitDot(s)
    ensures ProtectLists(s) == s
    decreases |s|
  {
    if s != [] {
      NoDigitDotHead(s);
      ProtectListsIdle(s[1..]);
      assert s == [s[0]] + s[1..];
    }
  }

  /** Text with no dot, or with one only at its end after a character that
      is not a digit, has no digit that meets a dot. */
  lemma NoDotNoDigitDot(q: seq<char>, closed: bool)
    requires '.' !in q && (closed ==> q != [] && !IsDigit(q[|q| - 1]))
    ensures NoDigitDot(if closed then q + "." else q)
  {
    var s := if closed then q + "." else q;
    forall i | 0 <= i < |s| - 1 ensures !(IsDigit(s[i]) && s[i + 1] == '.') {
      if i + 1 < |q| {
        assert s[i + 1] == q[i + 1];
      } else {
        assert s[i] == q[|q| - 1];
      }
    }
  }

  /** Text with none of `.`, `!` and `?` is all non-terminators. */
  lemma NoTerminators(q: seq<char>)
    requires '.' !in q && '!' !in q && '?' !in q
    ensures AllIn(NonTerminator, q)
  {
    forall k | 0 <= k < |q| ensures In(NonTerminator, q[k]) {
      assert q[k] in q;
    }
  }

  /** Plain text: no sentence terminator, and no `D`, the letter both
      sentinels contain. */
  predicate Plain(s: seq<char>) {
    '.' !in s && '!' !in s && '?' !in s && 'D' !in s
  }

  /** Digits are plain text. */
  lemma DigitsArePlain(d: seq<char>)
    requires AllIn(Digit, d)
    ensures Plain(d)
  {
    forall c | c in d ensures IsDigit(c) {
      var k :| 0 <= k < |d| && d[k] == c;
      assert In(Digit, d[k]);
    }
  }

  /** A sentence made of plain text, one decimal number, more plain text and
      a closing dot is spoken whole: the decimal point is neither a split
      point nor lost, and the text comes out of the segmenter unchanged. */
  lemma DecimalSentenceSpokenWhole(pre: seq<char>, d1: seq<char>, d2: seq<char>, w: seq<char>)
    requires pre != [] && !IsSpace(pre[0]) && Stopper(pre[|pre| - 1]) && Plain(pre)
    requires d1 != [] && AllIn(Digit, d1) && d2 != [] && AllIn(Digit, d2)
    requires w != [] && !IsDigit(w[0]) && !IsDigit(w[|w| - 1]) && Plain(w)
    ensures var text := pre + " " + d1 + "." + d2 + w + "."; Segment(text) == [text]
  {
    var text := pre + " " + d1 + "." + d2 + w + ".";
    var p := pre + " " + d1 + DecimalSentinel + d2 + w + ".";
    DecimalSentencePass1(pre, d1, d2, w);
    DecimalSentencePass2(pre, d1, d2, w);
    assert Candidates(text) == [p];
    DecimalSentenceRestore(pre, d1, d2, w);
    assert text[0] == pre[0] && text[|text| - 1] == '.';
    TrimIdle(text);
    SpeakableOne(p);
  }

  /** Pass 1 over the sentence of `DecimalSentenceSpokenWhole` protects its
      number and nothing else. */
  lemma DecimalSentencePass1(pre: seq<char>, d1: seq<char>, d2: seq<char>, w: seq<char>)
    requires pre != [] && Stopper(pre[|pre| - 1]) && Plain(pre)
    requires d1 != [] && AllIn(Digit, d1) && d2 != [] && AllIn(Digit, d2)
    requires w != [] && !IsDigit(w[0]) && !IsDigit(w[|w| - 1]) && Plain(w)
    ensures ProtectDecimals(pre + " " + d1 + "." + d2 + w + ".")
         == pre + " " + d1 + DecimalSentinel + d2 + w + "."
  {
    DecimalSentenceLayout(pre, d1, d2, w);
    PlainSidesIdle(pre, w);
    assert (w + ".")[0] == w[0];
    ProtectDecimalsSplice(pre, " ", d1, "", d2, w + ".");
    Assoc(pre + " " + d1 + DecimalSentinel + d2, w, ".");
  }

  lemma DecimalSentenceLayout(pre: seq<char>, d1: seq<char>, d2: seq<char>, w: seq<char>)
    ensures pre + " " + d1 + "." + d2 + w + "." == pre + " " + d1 + "." + "" + d2 + (w + ".")
  {
    var x := pre + " " + d1 + ".";
    assert x + "" == x;
    Assoc(x + d2, w, ".");
  }

  /** Plain text, and plain text closed by a dot, have no decimal number. */
  lemma PlainSidesIdle(pre: seq<char>, w: seq<char>)
    requires Plain(pre) && w != [] && !IsDigit(w[|w| - 1]) && Plain(w)
    ensures ProtectDecimals(pre) == pre && ProtectDecimals(w + ".") == w + "."
  {
    NoDotNoDigitDot(pre, false);
    ProtectDecimalsIdle(pre);
    NoDotNoDigitDot(w, true);
    ProtectDecimalsIdle(w + ".");
  }

  /** The protected sentence has no list number and is one sentence. */
  lemma DecimalSentencePass2(pre: seq<char>, d1: seq<char>, d2: seq<char>, w: seq<char>)
    requires pre != [] && Plain(pre)
    requires AllIn(Digit, d1) && AllIn(Digit, d2)
    requires w != [] && !IsDigit(w[|w| - 1]) && Plain(w)
    ensures var p := pre + " " + d1 + DecimalSentinel + d2 + w + ".";
      ProtectLists(p) == p && Matches(p) == [p]
  {
    var q := pre + " " + d1 + DecimalSentinel + d2 + w;
    var p := q + ".";
    DigitsArePlain(d1);
    DigitsArePlain(d2);
    assert '.' !in q && '!' !in q && '?' !in q;
    assert q[|q| - 1] == w[|w| - 1];
    NoDotNoDigitDot(q, true);
    ProtectListsIdle(p);
    NoTerminators(q);
    assert p[..|p| - 1] == q;
    OneSentence(p);
  }

  /** Restoring the protected sentence gives back the original one. */
  lemma DecimalSentenceRestore(pre: seq<char>, d1: seq<char>, d2: seq<char>, w: seq<char>)
    requires Plain(pre) && d1 != [] && AllIn(Digit, d1) && AllIn(Digit, d2) && Plain(w)
    ensures Restore(pre + " " + d1 + DecimalSentinel + d2 + w + ".") == pre + " " + d1 + "." + d2 + w + "."
  {
    var a, b := pre + " " + d1, d2 + w + ".";
    DigitsArePlain(d1);
    DigitsArePlain(d2);
    assert 'D' !in a && 'D' !in b;
    assert a[|a| - 1] == d1[|d1| - 1] && In(Digit, d1[|d1| - 1]);
    MissingChar(a, DecimalSentinel, 0);
    MissingChar(a, ListSentinel, 4);
    MissingChar(b, DecimalSentinel, 0);
    MissingChar(b, ListSentinel, 4);
    RestoreKeeps(a);
    RestoreKeeps(b);
    RestoreDecimalSentinel(a, b);
    Assoc(a + DecimalSentinel, d2 + w, ".");
    Assoc(a + DecimalSentinel, d2, w);
    Assoc(a + ".", d2 + w, ".");
    Assoc(a + ".", d2, w);
  }

  /** The sentence of `DecimalSentenceSpokenWhole`, written out. */
  lemma DecimalSentenceExample()
    ensures Segment("The value is 3.14 meters.") == ["The value is 3.14 meters."]
  {
    ExampleLayout();
    ExampleWords();
    ExampleDigits();
    DecimalSentenceSpokenWhole("The value is", "3", "14", " meters");
  }

  lemma ExampleLayout()
    ensures "The value is 3.14 meters." == "The value is" + " " + "3" + "." + "14" + " meters" + "."
  {
  }

  lemma ExampleWords()
    ensures var pre, w := "The value is", " meters";
      !IsSpace(pre[0]) && Stopper(pre[|pre| - 1]) && Plain(pre) && !IsDigit(w[0]) && !IsDigit(w[|w| - 1]) && Plain(w)
  {
  }

  lemma ExampleDigits()
    ensures AllIn(Digit, "3") && AllIn(Digit, "14")
  {
  }

  /** Text whose only terminators close it is one sentence. */
  lemma OneSentence(p: seq<char>)
    requires |p| > 1 && AllIn(NonTerminator, p[..|p| - 1]) && IsTerminator(p[|p| - 1])
    ensures Matches(p) == [p]
  {
    assert p[|p| - 1..] == [p[|p| - 1]];
    SentenceAtComplete(p, 0, |p| - 1, |p|);
    assert SentenceSpansFrom(p, 0) == [Span(0, |p|)];
    assert p[0..|p|] == p;
  }

  /** A list number is left alone by pass 1 and protected by pass 2: its
      digits, the sentinel and one blank, then the text of the item. */
  lemma ListItemProtected(d: seq<char>, w: seq<char>)
    requires d != [] && AllIn(Digit, d)
    requires w != [] && !IsSpace(w[0]) && !IsDigit(w[0]) && '.' !in w
    ensures ProtectDecimals(d + ". " + w) == d + ". " + w
    ensures Protect(d + ". " + w) == d + ListSentinel + " " + w
  {
    ListNumberPass1(d, w);
    ListItemPass2(d, w);
  }

  /** Pass 2 protects a list number followed by a blank and a word. */
  lemma ListItemPass2(d: seq<char>, w: seq<char>)
    requires d != [] && AllIn(Digit, d)
    requires w != [] && !IsSpace(w[0]) && '.' !in w
    ensures ProtectLists(d + ". " + w) == d + ListSentinel + " " + w
  {
    ListItemLayout(d, w);
    ProtectListsSplice([], d, " ", w);
    NoDotNoDigitDot(w, false);
    ProtectListsIdle(w);
    assert ProtectLists([]) == [];
    assert [] + d == d;
  }

  lemma ListItemLayout(d: seq<char>, w: seq<char>)
    ensures d + ". " + w == [] + d + "." + " " + w
  {
    assert [] + d == d;
    assert ". " == "." + " ";
    Assoc(d, ".", " ");
  }

  /** Pass 1 finds no decimal number in a list number followed by a blank
      and a word. */
  lemma {:induction false} ListNumberPass1(d: seq<char>, w: seq<char>)
    requires AllIn(Digit, d)
    requires w != [] && !IsSpace(w[0]) && !IsDigit(w[0]) && '.' !in w
    ensures ProtectDecimals(d + ". " + w) == d + ". " + w
    decreases |d|
  {
    if d == [] {
      ListNumberBase(w);
    } else {
      ListNumberNoDecimal(d, w);
      ListNumberPass1(d[1..], w);
      ListNumberTail(d, w);
    }
  }

  lemma ListNumberBase(w: seq<char>)
    requires '.' !in w
    ensures ProtectDecimals([] + ". " + w) == [] + ". " + w
  {
    var s := ". " + w;
    assert [] + ". " + w == s;
    forall i | 0 <= i < |s| - 1 ensures !(IsDigit(s[i]) && s[i + 1] == '.') {
      if i > 0 {
        assert s[i + 1] == w[i - 1];
      }
    }
    ProtectDecimalsIdle(s);
  }

  lemma ListNumberNoDecimal(d: seq<char>, w: seq<char>)
    requires d != [] && AllIn(Digit, d)
    requires w != [] && !IsSpace(w[0]) && !IsDigit(w[0])
    ensures DecimalAt(d + ". " + w, 0).None?
  {
    var s := d + ". " + w;
    var n := |d|;
    assert s[..n] == d && s[n] == '.' && s[n + 1] == ' ' && s[n + 2] == w[0];
    assert s[n + 1..n + 2] == " ";
    RunEndExact(s, 0, n, Digit);
    RunEndExact(s, n + 1, n + 2, Space);
    RunEndExact(s, n + 2, n + 2, Digit);
  }

  lemma ListNumberTail(d: seq<char>, w: seq<char>)
    requires d != [] && DecimalAt(d + ". " + w, 0).None?
    requires ProtectDecimals(d[1..] + ". " + w) == d[1..] + ". " + w
    ensures ProtectDecimals(d + ". " + w) == d + ". " + w
  {
    var y := ". " + w;
    Assoc(d, ". ", w);
    Assoc(d[1..], ". ", w);
    ConsTail(d, y);
    DecimalKeptStep(d + y);
  }

  lemma ConsTail(x: seq<char>, y: seq<char>)
    requires x != []
    ensures (x + y)[1..] == x[1..] + y && [x[0]] + (x[1..] + y) == x + y
  {
    assert [x[0]] + x[1..] == x;
    Assoc([x[0]], x[1..], y);
  }

  /** Where pass 1 finds no match at the head, it keeps the first character. */
  lemma DecimalKeptStep(s: seq<char>)
    requires s != [] && DecimalAt(s, 0).None?
    ensures ProtectDecimals(s) == [s[0]] + ProtectDecimals(s[1..])
  {
  }

  /** The list item of `ListItemProtected`, written out. */
  lemma ListItemExample()
    ensures ProtectDecimals("1. First") == "1. First"
    ensures Protect("1. First") == "1" + ListSentinel + " First"
  {
    ListItemWords();
    ListItemProtected("1", "First");
    Assoc("1", ListSentinel, " ");
    Assoc("1" + ListSentinel, " ", "First");
  }

  lemma ListItemWords()
    ensures "1. First" == "1" + ". " + "First" && " First" == " " + "First"
    ensures AllIn(Digit, "1") && !IsSpace('F') && !IsDigit('F') && '.' !in "First"
  {
  }
}
