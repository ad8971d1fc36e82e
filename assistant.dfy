/** The recording and processing state of the voice assistant page: the
    chunk buffer of the recorder, the `isRecording` and `isProcessing`
    flags, the voice button, the text box and the question-answer turn that
    `processAudio` and `processText` run (app.js:744-916, 961-972). */
module Assistant {
  import opened Wrappers
  import opened Text
  import opened Seqs
  import opened Answers

  /** The bytes of a recorded chunk or clip. */
  type Blob = seq<bv8>

  /** The audio clip `new Blob(chunks)` builds: the chunks' bytes, in
      arrival order. */
  function Flatten(chunks: seq<Blob>): Blob
    decreases |chunks|
  {
    if chunks == [] then [] else Flatten(chunks[..|chunks| - 1]) + chunks[|chunks| - 1]
  }

  /** Joining keeps every chunk whole and in place: the clip of two runs of
      chunks is the clip of the first followed by the clip of the second. */
  lemma {:induction false} FlattenAppend(a: seq<Blob>, b: seq<Blob>)
    ensures Flatten(a + b) == Flatten(a) + Flatten(b)
    decreases |b|
  {
    if b == [] {
      assert a + b == a;
    } else {
      var n := |b| - 1;
      assert (a + b)[..|a + b| - 1] == a + b[..n];
      FlattenAppend(a, b[..n]);
      Assoc(Flatten(a), Flatten(b[..n]), b[n]);
    }
  }

  /** No byte is lost or invented: the clip is as long as its chunks. */
  lemma {:induction false} FlattenLength(chunks: seq<Blob>)
    ensures |Flatten(chunks)| == TotalLength(chunks)
    decreases |chunks|
  {
    if chunks != [] {
      var n := |chunks| - 1;
      FlattenLength(chunks[..n]);
      TotalLengthSnoc(chunks[..n], chunks[n]);
      assert chunks[..n] + [chunks[n]] == chunks;
    }
  }

  function TotalLength(chunks: seq<Blob>): nat
    decreases |chunks|
  {
    if chunks == [] then 0 else |chunks[0]| + TotalLength(chunks[1..])
  }

  lemma {:induction false} TotalLengthSnoc(chunks: seq<Blob>, c: Blob)
    ensures TotalLength(chunks + [c]) == TotalLength(chunks) + |c|
    decreases |chunks|
  {
    if chunks == [] {
      assert [] + [c] == [c];
    } else {
      assert (chunks + [c])[1..] == chunks[1..] + [c];
      TotalLengthSnoc(chunks[1..], c);
    }
  }

  /** One entry of `chatMessages`. */
  datatype ChatMessage = ChatMessage(text: string, isUser: bool, source: Option<string>)

  /** What `generateAnswer` is asked: the question, the context built from
      the relevant hits, all hits, and the chat so far. */
  datatype GenerateRequest = GenerateRequest(
    query: string, context: string, results: seq<SearchResult>, history: seq<ChatMessage>)

  /** What decoding a recorded clip gives `processAudio`: a clip that cannot
      be decoded, one whose loudest sample is below the silence threshold,
      or one loud enough to transcribe. */
  datatype AudioCheck = Undecodable | Quiet | Loud

  const Searching: string := "Searching the book for relevant information..."
  const Generating: string := "Generating answer from the book..."
  const Complete: string := "Response complete. Press Space for voice input or type your question."
  const ErrorMessage: string := "I encountered an error. Please try again."

  /** The effect of one question-answer turn: the chat messages it adds, the
      texts it has spoken, the last status line it shows and the new
      `currentResponse` (each `None` where it is left as it was), and the
      request made of the answer generator, if any. */
  datatype Turn = Turn(
    added: seq<ChatMessage>, speech: seq<string>, status: Option<string>,
    response: Option<string>, request: Option<GenerateRequest>)

  /** `processText(text)` after a chat `history`, given the search
      service's answer (`Success(None)` where it has no `results` field) and
      the answer generator's. */
  function TextTurn(history: seq<ChatMessage>, text: string,
                    search: Result<Option<seq<SearchResult>>>, answer: Result<string>): (t: Turn)
    ensures |t.added| <= 1 && forall k :: 0 <= k < |t.added| ==> !t.added[k].isUser
    ensures t.speech != [] && t.speech[0] == Searching && t.status.Some?
  {
    match search
    case Failure => Turn([], [Searching, ErrorMessage], Some(ErrorMessage), None, None)
    case Success(results) =>
      var r := ResultsTurn(history, text, results, answer);
      r.(speech := [Searching] + r.speech, status := Some(if r.status.Some? then r.status.value else Searching))
  }

  /** The part of `processText` after the search answered with `results`. */
  function ResultsTurn(history: seq<ChatMessage>, text: string,
                       results: Option<seq<SearchResult>>, answer: Result<string>): (t: Turn)
    ensures |t.added| <= 1 && forall k :: 0 <= k < |t.added| ==> !t.added[k].isUser
  {
    match PlanAnswer(results)
    case NoResult =>
      Turn([ChatMessage(NoResultMessage, false, None)], [NoResultMessage], None, Some(NoResultMessage), None)
    case Generate(context, source) =>
      var request := Some(GenerateRequest(text, context, results.value, history));
      match answer
      case Failure => Turn([], [Generating, ErrorMessage], Some(ErrorMessage), None, request)
      case Success(response) =>
        Turn([ChatMessage(response, false, source)], [Generating, response], Some(Complete), Some(response), request)
  }

  /** An answer is recorded exactly when the search answered and either had
      no hits or the generator answered; its source is set exactly when the
      top hit is relevant. */
  lemma TextTurnReply(history: seq<ChatMessage>, text: string,
                      search: Result<Option<seq<SearchResult>>>, answer: Result<string>)
    ensures var t := TextTurn(history, text, search, answer);
      (t.added != [] <==> search.Success? && (PlanAnswer(search.value).NoResult? || answer.Success?))
      && (t.added != [] && t.added[0].source.Some? <==>
          search.Success? && search.value.Some? && search.value.value != []
          && IsRelevant(search.value.value[0]) && answer.Success?)
  {
  }

  /** The generator is asked only when the search found hits, and then with
      the context of the relevant ones and the whole chat so far. */
  lemma TextTurnRequest(history: seq<ChatMessage>, text: string,
                        search: Result<Option<seq<SearchResult>>>, answer: Result<string>)
    ensures var t := TextTurn(history, text, search, answer);
      (t.request.Some? <==> search.Success? && search.value.Some? && search.value.value != [])
      && (t.request.Some? ==> t.request.value == GenerateRequest(text, Context(search.value.value),
                                                                 search.value.value, history))
  {
  }

  const Converting: string := "Converting speech to text..."
  const AudioFailed: string := "Error processing audio. Please try again."
  const TooQuiet: string := "Audio too quiet. Please speak louder."
  const NoSpeech: string := "No speech detected. Please try again."

  /** `processAudio` on a clip, once it holds the gate, up to the end of the
      `processText` it may start: `history` is the chat before the clip was
      processed. */
  function AudioTurn(history: seq<ChatMessage>, audio: AudioCheck, transcript: Result<Option<string>>,
                     search: Result<Option<seq<SearchResult>>>, answer: Result<string>): (t: Turn)
    ensures t.speech != [] && t.speech[0] == Converting && t.status.Some?
  {
    var c := ClipTurn(history, audio, transcript, search, answer);
    c.(speech := [Converting] + c.speech)
  }

  /** What `processAudio` does after announcing the conversion. */
  function ClipTurn(history: seq<ChatMessage>, audio: AudioCheck, transcript: Result<Option<string>>,
                    search: Result<Option<seq<SearchResult>>>, answer: Result<string>): (t: Turn)
    ensures t.status.Some?
  {
    match audio
    case Undecodable => Turn([], [AudioFailed], Some(AudioFailed), None, None)
    case Quiet => Turn([], [TooQuiet], Some(TooQuiet), None, None)
    case Loud =>
      match transcript
      case Failure => Turn([], [AudioFailed], Some(AudioFailed), None, None)
      case Success(said) =>
        if IsBlankTranscript(said) then Turn([], [NoSpeech], Some(NoSpeech), None, None)
        else
          var question := ChatMessage(said.value, true, None);
          var t := TextTurn(history + [question], said.value, search, answer);
          t.(added := [question] + t.added, speech := ["You said: " + said.value] + t.speech)
  }

  /** The chat gains a question only from a loud clip with a transcription
      that is not blank; it is that transcription, sent by the user, and comes
      before the answer. */
  lemma AudioTurnQuestion(history: seq<ChatMessage>, audio: AudioCheck, transcript: Result<Option<string>>,
                          search: Result<Option<seq<SearchResult>>>, answer: Result<string>)
    ensures var t := AudioTurn(history, audio, transcript, search, answer);
      (t.added != [] <==> audio == Loud && transcript.Success? && !IsBlankTranscript(transcript.value))
      && (t.added != [] ==>
            t.added[0] == ChatMessage(transcript.value.value, true, None)
            && forall k :: 1 <= k < |t.added| ==> !t.added[k].isUser)
  {
  }

  /** The page state the model keeps; `spoken` lists every text handed to
      `speakText`, in order, and `acquisitions` counts how often
      `isProcessing` was switched on. Handlers run one at a time and every
      one that sets `isProcessing` clears it before it returns, so between
      events the flag is clear; the branches for a held gate are the ones
      that overlapping handlers would take in the browser. */
  class VoiceAssistant {
    var hasRecorder: bool
    var isRecording: bool
    var audioChunks: seq<Blob>
    var isProcessing: bool
    var chatMessages: seq<ChatMessage>
    var counterLabel: string
    var currentResponse: string
    var textInput: string
    var status: string
    var spoken: seq<string>
    ghost var acquisitions: nat

    ghost predicate Valid()
      reads this
    {
      counterLabel == CountLabel(|chatMessages|) && (isRecording ==> hasRecorder)
    }

    /** The page once the models are ready, with an empty chat. */
    constructor ()
      ensures Valid() && !hasRecorder && !isRecording && !isProcessing
      ensures audioChunks == [] && chatMessages == [] && spoken == [] && acquisitions == 0
    {
      hasRecorder := false;
      isRecording := false;
      audioChunks := [];
      isProcessing := false;
      chatMessages := [];
      counterLabel := CountLabel(0);
      currentResponse := "";
      textInput := "";
      status := "";
      spoken := [];
      acquisitions := 0;
    }

    /** `announceStatus(message, speak)`. */
    method Announce(message: string, speak: bool)
      modifies this
      ensures status == message && spoken == old(spoken) + if speak then [message] else []
      ensures hasRecorder == old(hasRecorder) && isRecording == old(isRecording)
      ensures audioChunks == old(audioChunks) && isProcessing == old(isProcessing)
      ensures chatMessages == old(chatMessages) && counterLabel == old(counterLabel)
      ensures currentResponse == old(currentResponse) && textInput == old(textInput)
      ensures acquisitions == old(acquisitions)
    {
      status := message;
      if speak {
        spoken := spoken + [message];
      }
    }

    /** `addChatMessage`: appends the message and refreshes the counter. */
    method AddChatMessage(m: ChatMessage)
      modifies this
      ensures chatMessages == old(chatMessages) + [m] && counterLabel == CountLabel(|chatMessages|)
      ensures hasRecorder == old(hasRecorder) && isRecording == old(isRecording)
      ensures audioChunks == old(audioChunks) && isProcessing == old(isProcessing)
      ensures currentResponse == old(currentResponse) && textInput == old(textInput)
      ensures status == old(status) && spoken == old(spoken) && acquisitions == old(acquisitions)
    {
      chatMessages := chatMessages + [m];
      counterLabel := CountLabel(|chatMessages|);
    }

    /** `resetProcessing`: releases the processing gate. */
    method ResetProcessing()
      modifies this
      ensures !isProcessing
      ensures hasRecorder == old(hasRecorder) && isRecording == old(isRecording)
      ensures audioChunks == old(audioChunks) && chatMessages == old(chatMessages)
      ensures counterLabel == old(counterLabel) && currentResponse == old(currentResponse)
      ensures textInput == old(textInput) && status == old(status) && spoken == old(spoken)
      ensures acquisitions == old(acquisitions)
    {
      isProcessing := false;
    }

    /** `startRecording`: `micGranted` is whether the microphone was
        granted. A new recorder starts with an empty chunk buffer. */
    method StartRecording(micGranted: bool)
      requires Valid()
      modifies this
      ensures Valid()
      ensures micGranted ==>
        hasRecorder && isRecording && audioChunks == []
        && spoken == old(spoken) + ["Requesting microphone access...", "Recording started. Speak now."]
        && status == "Recording started. Speak now."
      ensures !micGranted ==>
        hasRecorder == old(hasRecorder) && isRecording == old(isRecording)
        && audioChunks == old(audioChunks)
        && spoken == old(spoken) + ["Requesting microphone access...", "Could not access microphone. Please check permissions."]
        && status == "Could not access microphone. Please check permissions."
      ensures isProcessing == old(isProcessing) && chatMessages == old(chatMessages)
      ensures currentResponse == old(currentResponse) && textInput == old(textInput)
      ensures acquisitions == old(acquisitions)
    {
      Announce("Requesting microphone access...", true);
      if micGranted {
        hasRecorder := true;
        audioChunks := [];
        isRecording := true;
        Announce("Recording started. Speak now.", true);
      } else {
        Announce("Could not access microphone. Please check permissions.", true);
      }
    }

    /** The recorder's `dataavailable` event: the chunk joins the buffer at
        its end. */
    method OnDataAvailable(chunk: Blob)
      requires Valid()
      modifies this
      ensures Valid() && audioChunks == old(audioChunks) + [chunk]
      ensures hasRecorder == old(hasRecorder) && isRecording == old(isRecording)
      ensures isProcessing == old(isProcessing) && chatMessages == old(chatMessages)
      ensures spoken == old(spoken) && acquisitions == old(acquisitions) && status == old(status)
      ensures currentResponse == old(currentResponse) && textInput == old(textInput)
    {
      audioChunks := audioChunks + [chunk];
    }

    /** `stopRecording`: acts only while a recorder exists and is recording;
        the recorder's `stop` event follows as `OnRecorderStop`. */
    method StopRecording()
      requires Valid()
      modifies this
      ensures Valid()
      ensures old(hasRecorder && isRecording) ==>
        !isRecording && spoken == old(spoken) + ["Processing your speech..."]
        && status == "Processing your speech..."
      ensures !old(hasRecorder && isRecording) ==> unchanged(this)
      ensures hasRecorder == old(hasRecorder) && audioChunks == old(audioChunks)
      ensures isProcessing == old(isProcessing) && chatMessages == old(chatMessages)
      ensures acquisitions == old(acquisitions)
      ensures currentResponse == old(currentResponse) && textInput == old(textInput)
    {
      if hasRecorder && isRecording {
        isRecording := false;
        Announce("Processing your speech...", true);
      }
    }

    /** The recorder's `stop` event: the buffered chunks become one clip, in
        arrival order, the buffer is emptied, and the clip is processed. */
    method OnRecorderStop(audio: AudioCheck, transcript: Result<Option<string>>,
                          search: Result<Option<seq<SearchResult>>>, answer: Result<string>)
      returns (clip: Blob, request: Option<GenerateRequest>)
      requires Valid()
      modifies this
      ensures Valid()
      ensures clip == Flatten(old(audioChunks)) && audioChunks == []
      ensures old(isProcessing) ==>
        chatMessages == old(chatMessages) && spoken == old(spoken) && isProcessing && request == None
        && acquisitions == old(acquisitions) && status == old(status)
        && currentResponse == old(currentResponse)
      ensures !old(isProcessing) ==>
        var t := AudioTurn(old(chatMessages), audio, transcript, search, answer);
        !isProcessing && acquisitions == old(acquisitions) + 1
        && chatMessages == old(chatMessages) + t.added && spoken == old(spoken) + t.speech
        && status == t.status.value && request == t.request
        && currentResponse == (if t.response.Some? then t.response.value else old(currentResponse))
      ensures hasRecorder == old(hasRecorder) && isRecording == old(isRecording)
      ensures textInput == old(textInput)
    {
      clip := Flatten(audioChunks);
      audioChunks := [];
      request := ProcessAudio(clip, audio, transcript, search, answer);
    }

    /** `processAudio`: returns at once while the gate is held; otherwise it
        takes the gate and releases it on every way out. `audio` is what
        decoding `clip` gives, `transcript` the transcription service's
        answer. */
    method ProcessAudio(clip: Blob, audio: AudioCheck, transcript: Result<Option<string>>,
                        search: Result<Option<seq<SearchResult>>>, answer: Result<string>)
      returns (request: Option<GenerateRequest>)
      requires Valid()
      modifies this
      ensures Valid()
      ensures old(isProcessing) ==> unchanged(this) && request == None
      ensures !old(isProcessing) ==>
        var t := AudioTurn(old(chatMessages), audio, transcript, search, answer);
        !isProcessing && acquisitions == old(acquisitions) + 1
        && chatMessages == old(chatMessages) + t.added && spoken == old(spoken) + t.speech
        && status == t.status.value && request == t.request
        && currentResponse == (if t.response.Some? then t.response.value else old(currentResponse))
      ensures hasRecorder == old(hasRecorder) && isRecording == old(isRecording)
      ensures audioChunks == old(audioChunks) && textInput == old(textInput)
    {
      request := None;
      if isProcessing {
        return;
      }
      isProcessing := true;
      acquisitions := acquisitions + 1;
      Announce(Converting, true);
      request := UseClip(audio, transcript, search, answer);
      Assoc(old(spoken), [Converting], ClipTurn(old(chatMessages), audio, transcript, search, answer).speech);
    }

    /** The rest of `processAudio` once the conversion is announced. */
    method UseClip(audio: AudioCheck, transcript: Result<Option<string>>,
                   search: Result<Option<seq<SearchResult>>>, answer: Result<string>)
      returns (request: Option<GenerateRequest>)
      requires Valid()
      modifies this
      ensures Valid()
      ensures var t := ClipTurn(old(chatMessages), audio, transcript, search, answer);
        !isProcessing && acquisitions == old(acquisitions)
        && chatMessages == old(chatMessages) + t.added && spoken == old(spoken) + t.speech
        && status == t.status.value && request == t.request
        && currentResponse == (if t.response.Some? then t.response.value else old(currentResponse))
      ensures hasRecorder == old(hasRecorder) && isRecording == old(isRecording)
      ensures audioChunks == old(audioChunks) && textInput == old(textInput)
    {
      request := None;
      match audio
      case Undecodable =>
        Announce(AudioFailed, true);
        ResetProcessing();
      case Quiet =>
        Announce(TooQuiet, true);
        ResetProcessing();
      case Loud =>
        match transcript
        case Failure =>
          Announce(AudioFailed, true);
          ResetProcessing();
        case Success(said) =>
          if IsBlankTranscript(said) {
            Announce(NoSpeech, true);
            ResetProcessing();
          } else {
            var text := said.value;
            var question := ChatMessage(text, true, None);
            AddChatMessage(question);
            Announce("You said: " + text, true);
            request := ProcessText(text, search, answer);
            ghost var t := TextTurn(old(chatMessages) + [question], text, search, answer);
            Assoc(old(chatMessages), [question], t.added);
            Assoc(old(spoken), ["You said: " + text], t.speech);
          }
    }

    /** `processText`: searches, then records and speaks either the
        no-result message, the generated answer (with its source when the
        top hit is relevant) or, on any failure, only speaks the error
        message. It releases the gate on every way out and never takes it. */
    method ProcessText(text: string, search: Result<Option<seq<SearchResult>>>, answer: Result<string>)
      returns (request: Option<GenerateRequest>)
      requires Valid()
      modifies this
      ensures Valid()
      ensures var t := TextTurn(old(chatMessages), text, search, answer);
        !isProcessing && acquisitions == old(acquisitions)
        && chatMessages == old(chatMessages) + t.added && spoken == old(spoken) + t.speech
        && status == t.status.value && request == t.request
        && currentResponse == (if t.response.Some? then t.response.value else old(currentResponse))
      ensures hasRecorder == old(hasRecorder) && isRecording == old(isRecording)
      ensures audioChunks == old(audioChunks) && textInput == old(textInput)
    {
      Announce(Searching, true);
      match search
      case Failure =>
        request := None;
        Announce(ErrorMessage, true);
        ResetProcessing();
      case Success(results) =>
        request := UseResults(text, results, answer);
        Assoc(old(spoken), [Searching], ResultsTurn(old(chatMessages), text, results, answer).speech);
    }

    /** The rest of `processText` once the search has answered. */
    method UseResults(text: string, results: Option<seq<SearchResult>>, answer: Result<string>)
      returns (request: Option<GenerateRequest>)
      requires Valid()
      modifies this
      ensures Valid()
      ensures var t := ResultsTurn(old(chatMessages), text, results, answer);
        !isProcessing && acquisitions == old(acquisitions)
        && chatMessages == old(chatMessages) + t.added && spoken == old(spoken) + t.speech
        && status == (if t.status.Some? then t.status.value else old(status)) && request == t.request
        && currentResponse == (if t.response.Some? then t.response.value else old(currentResponse))
      ensures hasRecorder == old(hasRecorder) && isRecording == old(isRecording)
      ensures audioChunks == old(audioChunks) && textInput == old(textInput)
    {
      var history := chatMessages;
      request := None;
      match PlanAnswer(results)
      case NoResult =>
        currentResponse := NoResultMessage;
        AddChatMessage(ChatMessage(NoResultMessage, false, None));
        spoken := spoken + [NoResultMessage];
        ResetProcessing();
      case Generate(context, source) =>
        Announce(Generating, true);
        request := Some(GenerateRequest(text, context, results.value, history));
        match answer
        case Failure =>
          Announce(ErrorMessage, true);
          ResetProcessing();
        case Success(response) =>
          currentResponse := response;
          AddChatMessage(ChatMessage(response, false, source));
          spoken := spoken + [response];
          Announce(Complete, false);
          ResetProcessing();
    }

    /** `handleTextSubmit`: the trimmed text box is asked unless it is empty
        or a clip is being processed. The gate is only checked, never
        taken. */
    method HandleTextSubmit(search: Result<Option<seq<SearchResult>>>, answer: Result<string>)
      returns (request: Option<GenerateRequest>)
      requires Valid()
      modifies this
      ensures Valid()
      ensures acquisitions == old(acquisitions) && (isProcessing ==> old(isProcessing))
      ensures Trim(old(textInput)) == [] ==>
        chatMessages == old(chatMessages) && spoken == old(spoken) + ["Please enter a question."]
        && isProcessing == old(isProcessing) && textInput == old(textInput) && request == None
        && status == "Please enter a question." && currentResponse == old(currentResponse)
      ensures Trim(old(textInput)) != [] && old(isProcessing) ==>
        chatMessages == old(chatMessages)
        && spoken == old(spoken) + ["Please wait for the current question to be processed."]
        && isProcessing && textInput == old(textInput) && request == None
        && status == "Please wait for the current question to be processed."
        && currentResponse == old(currentResponse)
      ensures Trim(old(textInput)) != [] && !old(isProcessing) ==>
        var question := ChatMessage(Trim(old(textInput)), true, None);
        var t := TextTurn(old(chatMessages) + [question], Trim(old(textInput)), search, answer);
        chatMessages == old(chatMessages) + [question] + t.added
        && spoken == old(spoken) + ["You asked: " + Trim(old(textInput))] + t.speech
        && textInput == [] && !isProcessing && request == t.request && status == t.status.value
        && currentResponse == (if t.response.Some? then t.response.value else old(currentResponse))
      ensures hasRecorder == old(hasRecorder) && isRecording == old(isRecording)
      ensures audioChunks == old(audioChunks)
    {
      request := None;
      var text := Trim(textInput);
      if |text| == 0 {
        Announce("Please enter a question.", true);
        return;
      }
      if isProcessing {
        Announce("Please wait for the current question to be processed.", true);
        return;
      }
      request := AskTyped(text, search, answer);
    }

    /** The rest of `handleTextSubmit` once the question has passed both
        checks: it is recorded, announced and asked, and the text box is
        cleared. */
    method AskTyped(text: string, search: Result<Option<seq<SearchResult>>>, answer: Result<string>)
      returns (request: Option<GenerateRequest>)
      requires Valid()
      modifies this
      ensures Valid()
      ensures var question := ChatMessage(text, true, None);
        var t := TextTurn(old(chatMessages) + [question], text, search, answer);
        chatMessages == old(chatMessages) + [question] + t.added
        && spoken == old(spoken) + ["You asked: " + text] + t.speech
        && textInput == [] && !isProcessing && request == t.request && status == t.status.value
        && currentResponse == (if t.response.Some? then t.response.value else old(currentResponse))
      ensures acquisitions == old(acquisitions)
      ensures hasRecorder == old(hasRecorder) && isRecording == old(isRecording)
      ensures audioChunks == old(audioChunks)
    {
      var question := ChatMessage(text, true, None);
      AddChatMessage(question);
      Announce("You asked: " + text, true);
      textInput := [];
      request := ProcessText(text, search, answer);
      ghost var t := TextTurn(old(chatMessages) + [question], text, search, answer);
      Assoc(old(chatMessages), [question], t.added);
      Assoc(old(spoken), ["You asked: " + text], t.speech);
    }

    /** The voice button: while a clip is being processed it only asks the
        user to wait; otherwise it stops a running recording or starts a
        new one. */
    method VoiceButtonClick(micGranted: bool)
      requires Valid()
      modifies this
      ensures Valid()
      ensures old(isProcessing) ==>
        spoken == old(spoken) + ["Please wait for processing to complete."]
        && status == "Please wait for processing to complete."
        && isRecording == old(isRecording) && hasRecorder == old(hasRecorder) && audioChunks == old(audioChunks)
      ensures !old(isProcessing) && old(isRecording) ==>
        !isRecording && hasRecorder == old(hasRecorder) && audioChunks == old(audioChunks)
        && spoken == old(spoken) + ["Processing your speech..."] && status == "Processing your speech..."
      ensures !old(isProcessing) && !old(isRecording) && micGranted ==>
        hasRecorder && isRecording && audioChunks == []
        && spoken == old(spoken) + ["Requesting microphone access...", "Recording started. Speak now."]
        && status == "Recording started. Speak now."
      ensures !old(isProcessing) && !old(isRecording) && !micGranted ==>
        !isRecording && hasRecorder == old(hasRecorder) && audioChunks == old(audioChunks)
        && spoken == old(spoken) + ["Requesting microphone access...", "Could not access microphone. Please check permissions."]
        && status == "Could not access microphone. Please check permissions."
      ensures isProcessing == old(isProcessing) && chatMessages == old(chatMessages)
      ensures acquisitions == old(acquisitions)
      ensures currentResponse == old(currentResponse) && textInput == old(textInput)
    {
      if isProcessing {
        Announce("Please wait for processing to complete.", true);
        return;
      }
      if isRecording {
        StopRecording();
      } else {
        StartRecording(micGranted);
      }
    }
  }
}
