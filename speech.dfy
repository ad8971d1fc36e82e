/** The text-to-speech playback queue of the client: `speakText` hands each
    sentence to `queueSentenceForTTS`, which appends the synthesised audio to
    `audioQueue` and starts `playAudioQueue` unless the queue is already
    playing; `playAudioQueue` plays the items one at a time, first in first
    out (app.js:495-583). */
module Speech {
  import opened Wrappers
  import opened Segmenter
  import opened Seqs

  /** The bytes of a synthesised audio clip. */
  type Blob = seq<bv8>

  /** One `{blob, text}` entry of `audioQueue`. */
  datatype AudioItem = AudioItem(blob: Blob, text: string)

  /** The items that the TTS answers `outcomes` add to the queue when
      `sentences` are synthesised one after the other: one item per
      successful answer, in sentence order; a failed request adds nothing. */
  function Delivered(sentences: seq<string>, outcomes: seq<Result<Blob>>): (r: seq<AudioItem>)
    requires |sentences| == |outcomes|
    ensures |r| <= |sentences|
    ensures forall k :: 0 <= k < |r| ==> r[k].text in sentences
    decreases |sentences|
  {
    if sentences == [] then []
    else
      var n := |sentences| - 1;
      var front := Delivered(sentences[..n], outcomes[..n]);
      assert forall x :: x in sentences[..n] ==> x in sentences;
      match outcomes[n]
      case Success(blob) => front + [AudioItem(blob, sentences[n])]
      case Failure => front
  }

  /** The texts of a sequence of queue items. */
  function Texts(items: seq<AudioItem>): (r: seq<string>)
    ensures |r| == |items| && forall k :: 0 <= k < |r| ==> r[k] == items[k].text
  {
    seq(|items|, k requires 0 <= k < |items| => items[k].text)
  }

  /** Synthesising one more sentence extends the delivered items by at most
      that sentence, at the end. */
  lemma DeliveredSnoc(sentences: seq<string>, outcomes: seq<Result<Blob>>, x: string, o: Result<Blob>)
    requires |sentences| == |outcomes|
    ensures Delivered(sentences + [x], outcomes + [o])
         == Delivered(sentences, outcomes) + if o.Success? then [AudioItem(o.value, x)] else []
  {
    assert (sentences + [x])[..|sentences|] == sentences;
    assert (outcomes + [o])[..|outcomes|] == outcomes;
  }

  /** Delivery is compositional: the items of a longer text are those of its
      first part followed by those of the rest, so items keep sentence order. */
  lemma {:induction false} DeliveredAppend(s1: seq<string>, o1: seq<Result<Blob>>, s2: seq<string>, o2: seq<Result<Blob>>)
    requires |s1| == |o1| && |s2| == |o2|
    ensures Delivered(s1 + s2, o1 + o2) == Delivered(s1, o1) + Delivered(s2, o2)
    decreases |s2|
  {
    if s2 == [] {
      assert s1 + s2 == s1 && o1 + o2 == o1;
    } else {
      var n := |s2| - 1;
      assert s2 == s2[..n] + [s2[n]] && o2 == o2[..n] + [o2[n]];
      assert s1 + s2 == (s1 + s2[..n]) + [s2[n]];
      assert o1 + o2 == (o1 + o2[..n]) + [o2[n]];
      DeliveredSnoc(s1 + s2[..n], o1 + o2[..n], s2[n], o2[n]);
      DeliveredSnoc(s2[..n], o2[..n], s2[n], o2[n]);
      DeliveredAppend(s1, o1, s2[..n], o2[..n]);
    }
  }

  /** When every TTS request succeeds, every sentence is queued, in order. */
  lemma {:induction false} DeliveredAllSucceed(sentences: seq<string>, outcomes: seq<Result<Blob>>)
    requires |sentences| == |outcomes|
    requires forall k :: 0 <= k < |outcomes| ==> outcomes[k].Success?
    ensures Texts(Delivered(sentences, outcomes)) == sentences
    decreases |sentences|
  {
    if sentences != [] {
      var n := |sentences| - 1;
      DeliveredAllSucceed(sentences[..n], outcomes[..n]);
      assert sentences == sentences[..n] + [sentences[n]];
    }
  }

  /** When every TTS request fails, nothing is queued. */
  lemma {:induction false} DeliveredAllFail(sentences: seq<string>, outcomes: seq<Result<Blob>>)
    requires |sentences| == |outcomes|
    requires forall k :: 0 <= k < |outcomes| ==> outcomes[k].Failure?
    ensures Delivered(sentences, outcomes) == []
    decreases |sentences|
  {
    if sentences != [] {
      var n := |sentences| - 1;
      DeliveredAllFail(sentences[..n], outcomes[..n]);
    }
  }

  /** A failed sentence in the middle is skipped and its neighbours are
      still queued, in order. */
  lemma MiddleFailureSkipped(a: string, b: string, c: string, x: Blob, y: Blob)
    ensures Delivered([a, b, c], [Success(x), Failure, Success(y)]) == [AudioItem(x, a), AudioItem(y, c)]
  {
    DeliveredSnoc([], [], a, Success(x));
    assert [] + [a] == [a] && [] + [Success(x)] == [Success(x)];
    DeliveredSnoc([a], [Success(x)], b, Failure);
    assert [a] + [b] == [a, b] && [Success(x)] + [Failure] == [Success(x), Failure];
    DeliveredSnoc([a, b], [Success(x), Failure], c, Success(y));
    assert [a, b] + [c] == [a, b, c] && [Success(x), Failure] + [Success(y)] == [Success(x), Failure, Success(y)];
  }

  /** One round of the loop of `speakText` over the candidates `cs`: the
      candidate at `i` adds its cleaned form, if not empty, to what the
      first `i` candidates gave, and stays within what all of them give. */
  lemma SpeakStep(cs: seq<seq<char>>, i: nat)
    requires i < |cs|
    ensures Speakable(cs[..i + 1]) == Speakable(cs[..i]) + if Clean(cs[i]) == [] then [] else [Clean(cs[i])]
    ensures |Speakable(cs[..i + 1])| <= |Speakable(cs)|
  {
    TakeSnoc(cs, i);
    SpeakableSnoc(cs[..i], cs[i]);
    SpeakableAppend(cs[..i + 1], cs[i + 1..]);
    TakeDrop(cs, i + 1);
  }

  /** One queued sentence of the loop of `speakText`: its answer extends the
      delivered items of the sentences before it. */
  lemma DeliverStep(ss: seq<string>, os: seq<Result<Blob>>, j: nat, x: string)
    requires j < |os| && |ss| == j
    ensures Delivered(ss + [x], os[..j + 1])
         == Delivered(ss, os[..j]) + if os[j].Success? then [AudioItem(os[j].value, x)] else []
  {
    TakeSnoc(os, j);
    DeliveredSnoc(ss, os[..j], x, os[j]);
  }

  /** Where one more pushed item lands among those pushed before it. */
  lemma PushesStep(done: seq<AudioItem>, added: seq<AudioItem>)
    ensures done == [] ==> done + added == added
    ensures done != [] ==> (done + added)[0] == done[0] && (done + added)[1..] == done[1..] + added
  {
  }

  /** `audioQueue` and `isPlayingQueue`, together with the item the audio
      element is playing. `pushed` and `played` are ghost histories: every
      item ever pushed, and every item ever shifted off for playback. */
  class SpeechQueue {
    var audioQueue: seq<AudioItem>
    var isPlayingQueue: bool
    /** The item whose end (or error, or rejected `play()`) has not been
        signalled yet. */
    var playing: Option<AudioItem>
    ghost var pushed: seq<AudioItem>
    ghost var played: seq<AudioItem>

    /** Holds at every point of the queue's life: items are played in the
        order they were pushed, and the one being played is the last one
        shifted off. */
    ghost predicate Fifo()
      reads this
    {
      pushed == played + audioQueue
      && (playing.Some? ==> played != [] && playing.value == played[|played| - 1])
    }

    /** Holds between events: the flag says exactly whether an item is being
        played, and an idle queue is empty. */
    ghost predicate Valid()
      reads this
    {
      Fifo()
      && (isPlayingQueue <==> playing.Some?)
      && (!isPlayingQueue ==> audioQueue == [])
    }

    /** The state at page load (app.js:61-62). */
    constructor ()
      ensures Valid() && audioQueue == [] && !isPlayingQueue && playing == None
      ensures pushed == [] && played == []
    {
      audioQueue := [];
      isPlayingQueue := false;
      playing := None;
      pushed := [];
      played := [];
    }

    /** `playAudioQueue`: on an empty queue it clears the flag and nothing
        else; otherwise it sets the flag and shifts off exactly the head
        item, which the audio element then plays. */
    method PlayAudioQueue()
      requires Fifo()
      modifies this
      ensures Valid()
      ensures pushed == old(pushed)
      ensures old(audioQueue) == [] ==>
        !isPlayingQueue && audioQueue == [] && playing == None && played == old(played)
      ensures old(audioQueue) != [] ==>
        isPlayingQueue && audioQueue == old(audioQueue)[1..]
        && playing == Some(old(audioQueue)[0]) && played == old(played) + [old(audioQueue)[0]]
    {
      if |audioQueue| == 0 {
        isPlayingQueue := false;
        playing := None;
        return;
      }
      isPlayingQueue := true;
      var item := audioQueue[0];
      audioQueue := audioQueue[1..];
      played := played + [item];
      playing := Some(item);
    }

    /** The queue after `items` were pushed, one at a time and with no
        playback event in between, onto the state `(queue0, busy0, playing0,
        played0)`: a busy queue keeps playing and holds them at its tail; an
        idle one starts playing the first of them and holds the rest. */
    ghost predicate AfterPushes(queue0: seq<AudioItem>, busy0: bool, playing0: Option<AudioItem>,
                                played0: seq<AudioItem>, items: seq<AudioItem>)
      reads this
    {
      isPlayingQueue == (busy0 || items != [])
      && (busy0 || items == [] ==> audioQueue == queue0 + items && playing == playing0 && played == played0)
      && (!busy0 && items != [] ==>
            audioQueue == items[1..] && playing == Some(items[0]) && played == played0 + [items[0]])
    }

    /** `queueSentenceForTTS`: a successful TTS answer appends one item at
        the tail and starts playback if the queue is idle; a failed request
        (a rejected fetch or a status that is not OK) changes nothing. */
    method QueueSentence(sentence: string, outcome: Result<Blob>)
      requires Valid()
      modifies this
      ensures Valid()
      ensures outcome.Failure? ==> unchanged(this)
      ensures outcome.Success? ==> pushed == old(pushed) + [AudioItem(outcome.value, sentence)]
      ensures outcome.Success? && old(isPlayingQueue) ==>
        isPlayingQueue && audioQueue == old(audioQueue) + [AudioItem(outcome.value, sentence)]
        && playing == old(playing) && played == old(played)
      ensures outcome.Success? && !old(isPlayingQueue) ==>
        isPlayingQueue && audioQueue == [] && playing == Some(AudioItem(outcome.value, sentence))
        && played == old(played) + [AudioItem(outcome.value, sentence)]
    {
      match outcome
      case Failure =>
      case Success(blob) =>
        var item := AudioItem(blob, sentence);
        audioQueue := audioQueue + [item];
        pushed := pushed + [item];
        if !isPlayingQueue {
          PlayAudioQueue();
        }
    }

    /** The audio element's `ended` or `error` event, or a rejected
        `play()`: each one moves on to the next item. */
    method PlaybackFinished()
      requires Valid() && playing.Some?
      modifies this
      ensures Valid()
      ensures pushed == old(pushed)
      ensures old(audioQueue) == [] ==> !isPlayingQueue && playing == None && played == old(played)
      ensures old(audioQueue) != [] ==>
        audioQueue == old(audioQueue)[1..] && playing == Some(old(audioQueue)[0])
        && played == old(played) + [old(audioQueue)[0]]
    {
      PlayAudioQueue();
    }

    /** One call of `queueSentenceForTTS` inside the loop of `speakText`,
        seen against the state before the loop: the items pushed so far,
        `done`, grow by what this answer adds. */
    method QueueNext(sentence: string, outcome: Result<Blob>, ghost queue0: seq<AudioItem>, ghost busy0: bool,
                     ghost playing0: Option<AudioItem>, ghost played0: seq<AudioItem>, ghost done: seq<AudioItem>)
      requires Valid() && AfterPushes(queue0, busy0, playing0, played0, done)
      modifies this
      ensures Valid()
      ensures var added := if outcome.Success? then [AudioItem(outcome.value, sentence)] else [];
        pushed == old(pushed) + added && AfterPushes(queue0, busy0, playing0, played0, done + added)
    {
      QueueSentence(sentence, outcome);
      ghost var added := if outcome.Success? then [AudioItem(outcome.value, sentence)] else [];
      PushesStep(done, added);
      Assoc(queue0, done, added);
    }

    /** One round of the loop of `speakText`: the candidate at `i` is
        cleaned and, if not empty, synthesised with the `j`-th answer and
        queued. */
    method SpeakOne(sentences: seq<string>, outcomes: seq<Result<Blob>>, i: nat, j: nat,
                    ghost queue0: seq<AudioItem>, ghost busy0: bool, ghost playing0: Option<AudioItem>,
                    ghost played0: seq<AudioItem>, ghost pushed0: seq<AudioItem>, ghost sofar: seq<AudioItem>)
      returns (j': nat, ghost sofar': seq<AudioItem>)
      requires i < |sentences| && |outcomes| == |Speakable(sentences)|
      requires Valid() && j == |Speakable(sentences[..i])| && j <= |outcomes|
      requires sofar == Delivered(Speakable(sentences[..i]), outcomes[..j])
      requires pushed == pushed0 + sofar && AfterPushes(queue0, busy0, playing0, played0, sofar)
      modifies this
      ensures Valid() && j' == |Speakable(sentences[..i + 1])| && j' <= |outcomes|
      ensures sofar' == Delivered(Speakable(sentences[..i + 1]), outcomes[..j'])
      ensures pushed == pushed0 + sofar' && AfterPushes(queue0, busy0, playing0, played0, sofar')
    {
      var sentence := Clean(sentences[i]);
      SpeakStep(sentences, i);
      j', sofar' := j, sofar;
      if |sentence| > 0 {
        ghost var added := if outcomes[j].Success? then [AudioItem(outcomes[j].value, sentence)] else [];
        QueueNext(sentence, outcomes[j], queue0, busy0, playing0, played0, sofar);
        DeliverStep(Speakable(sentences[..i]), outcomes, j, sentence);
        Assoc(pushed0, sofar, added);
        j', sofar' := j + 1, sofar + added;
      } else {
        assert Speakable(sentences[..i + 1]) == Speakable(sentences[..i]);
      }
    }

    /** `speakText`: the candidate sentences of `text` are computed, then
        handed to the queue in order. `outcomes` are the TTS service's
        answers, one per non-empty sentence in order; no playback event
        arrives while the sentences are being synthesised. */
    method SpeakText(text: string, outcomes: seq<Result<Blob>>)
      requires Valid() && |outcomes| == |Segment(text)|
      modifies this
      ensures Valid()
      ensures pushed == old(pushed) + Delivered(Segment(text), outcomes)
      ensures AfterPushes(old(audioQueue), old(isPlayingQueue), old(playing), old(played),
                          Delivered(Segment(text), outcomes))
    {
      SpeakCandidates(Candidates(text), outcomes);
    }

    /** The loop of `speakText`: every candidate is cleaned, and each one
        that is not empty is synthesised and queued before the next one is
        looked at. */
    method SpeakCandidates(sentences: seq<string>, outcomes: seq<Result<Blob>>)
      requires Valid() && |outcomes| == |Speakable(sentences)|
      modifies this
      ensures Valid()
      ensures pushed == old(pushed) + Delivered(Speakable(sentences), outcomes)
      ensures AfterPushes(old(audioQueue), old(isPlayingQueue), old(playing), old(played),
                          Delivered(Speakable(sentences), outcomes))
    {
      var j := 0;
      ghost var sofar: seq<AudioItem> := [];
      ghost var queue0, busy0, playing0, played0, pushed0 := audioQueue, isPlayingQueue, playing, played, pushed;
      for i := 0 to |sentences|
        invariant Valid()
        invariant j == |Speakable(sentences[..i])| && j <= |outcomes|
        invariant sofar == Delivered(Speakable(sentences[..i]), outcomes[..j])
        invariant pushed == pushed0 + sofar
        invariant AfterPushes(queue0, busy0, playing0, played0, sofar)
      {
        j, sofar := SpeakOne(sentences, outcomes, i, j, queue0, busy0, playing0, played0, pushed0, sofar);
      }
      TakeAll(sentences);
      TakeAll(outcomes);
    }
  }
}
