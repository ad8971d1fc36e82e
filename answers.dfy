/** The decisions `processText` takes on the search service's answer
    (app.js:835-887), the test `processAudio` applies to a transcription
    (app.js:818) and the label of the message counter (app.js:480-483). */
module Answers {
  import opened Wrappers
  import opened Text
  import opened Seqs

  /** One hit of the book search. `score` is what `parseFloat` reads from
      the score (`None` where it reads `NaN`), `scoreText` how the score is
      written into a template literal; chapter, page and paragraph are
      likewise their rendered forms. */
  datatype SearchResult = SearchResult(
    text: string, score: Option<real>, scoreText: string,
    chapter: string, page: string, paragraph: string)

  /** A hit counts as relevant when its score reads as a number above 10;
      a score that reads as `NaN` never does. */
  predicate IsRelevant(r: SearchResult) {
    r.score.Some? && r.score.value > 10.0
  }

  /** The relevant hits, in search order. */
  function Relevant(results: seq<SearchResult>): (r: seq<SearchResult>)
    ensures |r| <= |results|
    ensures forall k :: 0 <= k < |r| ==> IsRelevant(r[k]) && r[k] in results
    ensures forall x :: x in results && IsRelevant(x) ==> x in r
    decreases |results|
  {
    if results == [] then []
    else
      var rest := Relevant(results[1..]);
      assert forall x :: x in results[1..] ==> x in results;
      assert forall x :: x in results ==> x == results[0] || x in results[1..];
      if IsRelevant(results[0]) then [results[0]] + rest else rest
  }

  /** Filtering keeps the original order: the relevant hits of a
      concatenation are those of its first part, then those of the rest. */
  lemma {:induction false} RelevantAppend(a: seq<SearchResult>, b: seq<SearchResult>)
    ensures Relevant(a + b) == Relevant(a) + Relevant(b)
    decreases |a|
  {
    if a != [] {
      assert (a + b)[1..] == a[1..] + b;
      RelevantAppend(a[1..], b);
      if IsRelevant(a[0]) {
        Assoc([a[0]], Relevant(a[1..]), Relevant(b));
      }
    } else {
      assert a + b == b;
    }
  }

  /** How one relevant hit is written into the context for the answer. */
  function Describe(r: SearchResult): string {
    "From " + r.chapter + ", Page " + r.page + ", Paragraph " + r.paragraph
    + " (Score: " + r.scoreText + "): " + r.text
  }

  function DescribeAll(rs: seq<SearchResult>): (r: seq<string>)
    ensures |r| == |rs| && forall k :: 0 <= k < |rs| ==> r[k] == Describe(rs[k])
  {
    seq(|rs|, k requires 0 <= k < |rs| => Describe(rs[k]))
  }

  /** The paragraph separator of the context. */
  const Separator: string := "\n\n"

  /** The context handed to the answer generator: the relevant hits, in
      order, described and joined by blank lines. */
  function Context(results: seq<SearchResult>): string {
    JoinWith(DescribeAll(Relevant(results)), Separator)
  }

  /** One more hit adds its description to the context, after a blank line
      if the context was not empty, exactly when it is relevant. */
  lemma ContextSnoc(results: seq<SearchResult>, x: SearchResult)
    ensures Context(results + [x]) ==
      if !IsRelevant(x) then Context(results)
      else if Relevant(results) == [] then Describe(x)
      else Context(results) + Separator + Describe(x)
  {
    RelevantAppend(results, [x]);
    assert Relevant([x]) == if IsRelevant(x) then [x] else [];
    var rs := Relevant(results);
    if IsRelevant(x) {
      assert DescribeAll(rs + [x]) == DescribeAll(rs) + [Describe(x)];
      JoinWithSnoc(DescribeAll(rs), Describe(x), Separator);
    } else {
      assert rs + [] == rs;
    }
  }

  /** The context is empty when no hit is relevant; when some are, it holds
      each one's description, and its length is theirs plus one separator
      between neighbours. */
  lemma ContextShape(results: seq<SearchResult>)
    ensures Relevant(results) == [] ==> Context(results) == []
    ensures |Context(results)| == SumLengths(DescribeAll(Relevant(results)))
      + if Relevant(results) == [] then 0 else 2 * (|Relevant(results)| - 1)
  {
    var parts := DescribeAll(Relevant(results));
    JoinWithLength(parts, Separator, SumLengths(parts));
  }

  /** `Source: chapter, Page p, Paragraph q` for the top hit, attached to the
      answer only when that hit is relevant. */
  function TopSource(results: seq<SearchResult>): Option<string> {
    if |results| > 0 && IsRelevant(results[0]) then
      Some("Source: " + results[0].chapter + ", Page " + results[0].page + ", Paragraph " + results[0].paragraph)
    else None
  }

  /** The context is empty exactly when no hit is relevant, since every
      description is non-empty. */
  lemma ContextEmptyIff(results: seq<SearchResult>)
    ensures Context(results) == [] <==> Relevant(results) == []
    ensures Relevant(results) == [] <==> forall k :: 0 <= k < |results| ==> !IsRelevant(results[k])
  {
    var rs := Relevant(results);
    if rs == [] {
      forall k | 0 <= k < |results| ensures !IsRelevant(results[k]) {
        assert results[k] in results;
      }
    } else {
      var parts := DescribeAll(rs);
      JoinWithFirst(parts, Separator);
      assert parts[0][0] == 'F';
      assert rs[0] in results;
      var k :| 0 <= k < |results| && results[k] == rs[0];
      assert IsRelevant(results[k]);
    }
  }

  /** There is a source exactly when the first relevant hit is the top hit,
      and then that hit's description opens the context: the source names
      the paragraph the answer is based on first. */
  lemma TopSourceOpensContext(results: seq<SearchResult>)
    ensures TopSource(results).Some? <==>
      results != [] && Relevant(results) != [] && Relevant(results)[0] == results[0]
    ensures TopSource(results).Some? ==>
      |Describe(results[0])| <= |Context(results)|
      && Context(results)[..|Describe(results[0])|] == Describe(results[0])
  {
    if results != [] && IsRelevant(results[0]) {
      JoinWithFirst(DescribeAll(Relevant(results)), Separator);
    }
  }

  /** A relevant hit that is not the first one never becomes the source. */
  lemma SourceIsOnlyTheTopHit(results: seq<SearchResult>)
    requires results != [] && !IsRelevant(results[0])
    ensures TopSource(results) == None
    ensures Relevant(results) == Relevant(results[1..])
  {
    assert results == [results[0]] + results[1..];
  }

  const NoResultMessage: string := "I could not find relevant information in the book for your question."

  /** What `processText` does with the `results` field of the search answer
      (`None` where the field is missing). */
  datatype Plan =
    | NoResult
    | Generate(context: string, source: Option<string>)

  function PlanAnswer(results: Option<seq<SearchResult>>): Plan {
    if results.None? || |results.value| == 0 then NoResult
    else Generate(Context(results.value), TopSource(results.value))
  }

  /** Any hits at all lead to an answer being generated; its context is
      empty exactly when none of them is relevant, and a source comes only
      with a non-empty context. */
  lemma PlanAnswerGenerates(results: seq<SearchResult>)
    ensures results != [] ==> PlanAnswer(Some(results)).Generate?
    ensures results != [] ==>
      (PlanAnswer(Some(results)).context == [] <==> forall k :: 0 <= k < |results| ==> !IsRelevant(results[k]))
    ensures results != [] && PlanAnswer(Some(results)).source.Some? ==> PlanAnswer(Some(results)).context != []
  {
    ContextEmptyIff(results);
    TopSourceOpensContext(results);
  }

  /** The plan for hits none of which is relevant: an answer is still asked
      for, with an empty context and no source. */
  lemma IrrelevantHitsStillGenerate(results: seq<SearchResult>)
    requires results != [] && forall k :: 0 <= k < |results| ==> !IsRelevant(results[k])
    ensures PlanAnswer(Some(results)) == Generate([], None)
  {
    NoneRelevant(results);
  }

  /** A filter over hits none of which is relevant keeps nothing. */
  lemma {:induction false} NoneRelevant(results: seq<SearchResult>)
    requires forall k :: 0 <= k < |results| ==> !IsRelevant(results[k])
    ensures Relevant(results) == []
    decreases |results|
  {
    if results != [] {
      assert forall k :: 0 <= k < |results| - 1 ==> results[1..][k] == results[k + 1];
      NoneRelevant(results[1..]);
    }
  }

  /** A transcription, possibly missing, counts as no speech when it is
      missing or empty, is `[BLANK_AUDIO]` or `[INAUDIBLE]`, or contains
      `BLANK` anywhere. */
  function IsBlankTranscript(t: Option<string>): (r: bool)
    ensures r <==> t.None? || t.value == [] || Occurs(t.value, "BLANK") || t.value == "[INAUDIBLE]"
  {
    if t.None? then true
    else
      var s := t.value;
      if s == "[BLANK_AUDIO]" then
        assert s[1..6] == "BLANK";
        assert OccursAt(s, "BLANK", 1);
        true
      else s == [] || Includes(s, "BLANK") || s == "[INAUDIBLE]"
  }

  /** The test is case-sensitive and matches inside words: an upper-case
      word that contains `BLANK` counts as no speech, its lower-case
      spelling does not. */
  lemma BlankMatchesInsideWords()
    ensures IsBlankTranscript(Some("BLANKET"))
    ensures !IsBlankTranscript(Some("blanket"))
  {
    assert OccursAt("BLANKET", "BLANK", 0);
    forall k: nat ensures !OccursAt("blanket", "BLANK", k) {
      if k + 5 <= 7 {
        assert "blanket"[k..k + 5][0] != 'B';
      }
    }
  }

  /** `updateConversationCount`: singular for exactly one message. */
  function CountLabel(n: nat): (r: string)
    ensures (r == "1 message") <==> n == 1
    ensures n != 1 ==> r == Decimal(n) + " messages"
  {
    if n == 1 then "1 message"
    else
      var r := Decimal(n) + " messages";
      assert |r| > |"1 message"|;
      r
  }

  /** Different counts are labelled differently. */
  lemma CountLabelInjective(m: nat, n: nat)
    requires CountLabel(m) == CountLabel(n)
    ensures m == n
  {
    if m != 1 && n != 1 {
      var dm, dn := Decimal(m), Decimal(n);
      assert dm + " messages" == dn + " messages";
      assert |dm| == |dn|;
      assert dm == (dm + " messages")[..|dm|];
      assert dn == (dn + " messages")[..|dn|];
      DecimalInjective(m, n);
    }
  }
}
