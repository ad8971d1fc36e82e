# Voice assistant client: a verified model of its sequential core

The client page of a book-reading voice assistant (`app.js`) records a spoken
question or takes a typed one and sends it to a search service. It asks an
answer generator for a reply and reads the reply aloud, sentence by sentence,
through a text-to-speech (TTS) service. This Dafny project models the parts of
the page that are sequential logic rather than DOM or network wiring, and
proves what they promise:

- **The sentence segmenter of `speakText`** (`segmenter.dfy`, over `chars.dfy`
  and `text.dfy`) runs in three passes, each a scan over `seq<char>`:
  - pass 1 protects decimal points with the `DECIMALDOT` sentinel;
  - pass 2 protects list numbers with the `LISTDOT` sentinel;
  - pass 3 collects every sentence, meaning a run of non-terminators that is
    closed by terminators and followed by white space or the end of the text.

  The whole text is used when no sentence matches. Each candidate then has its
  sentinels restored, is trimmed, and is dropped if empty. Every regular
  expression is a leftmost, greedy scan. Lemmas prove that the greedy match at a
  position is the longest one and has the same split points as any other match
  there, so it is the match a backtracking engine returns. For pass 3 it is the
  only match.
- **The TTS playback queue** (`speech.dfy`) is the class `Speech.SpeechQueue`
  with the fields `audioQueue` and `isPlayingQueue`. Its methods are
  `queueSentenceForTTS`, `playAudioQueue`, the audio element's end or error
  event, and the sentence loop of `speakText`. Two ghost logs, `pushed` and
  `played`, state the FIFO order: everything pushed is either already played or
  still queued, in push order.
- **The recording and processing state** (`assistant.dfy`) is the class
  `Assistant.VoiceAssistant`. It covers:
  - the recorder's chunk buffer;
  - the `isRecording` and `isProcessing` flags;
  - `startRecording`, `stopRecording`, the recorder's `stop` event,
    `processAudio`, `processText`, `resetProcessing`, `handleTextSubmit` and the
    voice button;
  - the chat log and its message counter.

  Each question-answer turn is specified by a pure function (`TextTurn`,
  `AudioTurn`). The function gives the chat messages the turn adds, the texts
  it speaks, its final status line and the request it makes of the answer
  generator.
- **The answer decisions of `processText`** (`answers.dfy`):
  - the filter of relevant hits (score above 10);
  - the context built from them;
  - the choice of the top hit as the source;
  - the no-result branch;
  - the blank-transcription test;
  - the label of the message counter.

Modelling choices:
- **Remote services are parameters.** Transcription, search, answer generation,
  TTS and the microphone permission are each passed in as an outcome. `Result`
  stands for success or a thrown error, and `Option` for a missing field.
- **Announcements are logged, not played.** A text handed to `speakText` by
  `announceStatus(message, true)` is appended to the assistant's `spoken` log.
  The queue that plays such texts is modelled separately by
  `Speech.SpeechQueue.SpeakText`.
- **Events run one at a time.** Each handler runs to completion, with its awaits
  in program order. Events such as the recorder's `stop` and the audio
  element's `ended` are separate methods.
- **Characters are Dafny `char`s.** These are Unicode scalar values; JavaScript
  strings are UTF-16 code units.

## Model

| member | source | states |
|---|---|---|
| Chars.RunEnd | app.js:498-500 | the end of the longest run of one character class from a position, which is what a greedy `\d+`, `\s*`, `\s+`, `[^.!?]+` or `[.!?]+` consumes; the run is all of that class and cannot be extended |
| Chars.RunEndExact | app.js:498-500 | a run that cannot be extended is the one the greedy quantifier takes |
| Chars.RunEndCovers | app.js:498-500 | every run of the class from a position ends at or before the greedy run's end |
| Text.Includes | app.js:818 | `includes` is true exactly when the pattern occurs as a contiguous substring |
| Text.ReplaceAllAvoids | app.js:504-505 | replacing every occurrence of a literal sentinel by a character the sentinel does not contain leaves no occurrence of the sentinel |
| Text.ReplaceAll | app.js:504-505 | a global `replace` of a literal pattern by one character: occurrences are replaced left to right without overlap, and the result is never longer than the input |
| Text.ReplaceAllAbsent | app.js:504-505 | text in which the pattern does not occur is left unchanged |
| Text.ReplaceAllAtHead | app.js:504-505 | an occurrence at the head becomes the replacement character, and the rest is replaced on its own |
| Text.ReplaceAllConcat | app.js:504-505 | replacing splits over a concatenation whose first part ends with a character the pattern does not contain |
| Text.ReplaceAllLast | app.js:504-505 | a last character that the pattern does not contain stays the last character |
| Text.ReplaceAllKeeps | app.js:504-505 | a prefix at none of whose positions the pattern starts is kept as it is |
| Text.Trim | app.js:506 | trimming yields the slice that has white space cut at both ends, with no white space at either end of the result |
| Text.TrimIdle | app.js:506 | a string with no white space at either end is its own trim |
| Text.JoinWith | app.js:855 | `join`: the parts with the separator between each two neighbours; its meaning is stated by the three lemmas below |
| Text.JoinWithSnoc | app.js:855 | one more part adds the separator and that part at the end, or is the whole join when it is the first part, so every part appears whole and in order |
| Text.JoinWithFirst | app.js:855 | a join starts with its first part |
| Text.JoinWithLength | app.js:855 | the length of a join is the total length of the parts plus one separator between each two neighbours |
| Text.DecimalRoundTrip | app.js:482 | reading back the decimal digits of a count gives the count |
| Text.DecimalInjective | app.js:482 | different counts render as different digit strings |
| Text.Decimal | app.js:482 | the count as a template literal writes it: a non-empty string of digits with no leading zero unless the count is zero |
| Segmenter.DecimalAt | app.js:498 | the match of pass 1 at a position satisfies the decimal pattern and cannot be extended by another digit |
| Segmenter.DecimalAtComplete | app.js:498 | whenever the decimal pattern matches at a position in any way, pass 1 finds a match with the same dot and fraction start, at least as long |
| Segmenter.DecimalAtExact | app.js:498 | a decimal match that no digit can extend is exactly the one pass 1 takes |
| Segmenter.ProtectDecimals | app.js:498 | pass 1 as a global `replace`: a match at the scan position is rewritten and the scan resumes after it, otherwise one character is kept; its meaning is stated by the lemmas below |
| Segmenter.ProtectDecimalsSpaces | app.js:498 | white space starts no decimal match and is copied as it is |
| Segmenter.ProtectDecimalsPrefix | app.js:498 | pass 1 over a concatenation is pass 1 over each part, when the first part ends with a character that no match can hold |
| Segmenter.ProtectDecimalsSplice | app.js:498 | a decimal number after any white space, following text that is empty or ends with a character that is not a digit, dot or white space, becomes its integer digits, `DECIMALDOT` and its fraction digits; the white space after the dot is deleted and the text on either side is processed as if it stood alone |
| Segmenter.ListAt | app.js:499 | the match of pass 2 at a position satisfies the list-number pattern and takes all the white space after the dot |
| Segmenter.ListAtComplete | app.js:499 | whenever the list-number pattern matches at a position, pass 2 finds a match with the same dot, at least as long |
| Segmenter.ProtectLists | app.js:499 | pass 2 as a global `replace`: a match at the scan position is rewritten and the scan resumes after it, otherwise one character is kept; a non-empty text keeps its first character |
| Segmenter.ProtectListsPrefix | app.js:499 | pass 2 over a concatenation is pass 2 over each part, when the first part does not end with a digit and the second does not start with white space |
| Segmenter.ProtectListsSplice | app.js:499 | a list number after text that is empty or does not end with a digit becomes its digits, `LISTDOT` and one blank, which replace all the white space after the dot; the text on either side is processed as if it stood alone |
| Segmenter.Protect | app.js:498-499 | the two protective passes in the source's order: decimals first, then list numbers |
| Segmenter.ProtectListsLeavesNoNumberDot | app.js:499 | after pass 2 no digit is followed by a dot and white space anywhere in the text |
| Segmenter.ListNumberNeverEndsSentence | app.js:499-500 | a sentence that ends inside the protected text never ends with a digit followed by a dot, so a list number is never a split point |
| Segmenter.SentenceAt | app.js:500 | the match of pass 3 at a position is non-terminators, then terminators, followed by white space or the end of the text |
| Segmenter.SentenceAtComplete | app.js:500 | the sentence pattern matches at a position in at most one way, and pass 3 finds that way |
| Segmenter.SentenceSpansFrom | app.js:500 | the sentences found lie inside the text, each matches the pattern, and they are in text order without overlap |
| Segmenter.SpansComplete | app.js:500 | the scan misses nothing: no sentence starts at a position that no emitted sentence covers |
| Segmenter.Matches | app.js:500 | `match` returns exactly the slices of the emitted sentences, in order; each is a non-empty run of non-terminators closed by a non-empty run of terminators, and is followed in the text by white space or the end |
| Segmenter.MatchesEmptyIff | app.js:500 | `match` finds nothing exactly when the text holds no sentence anywhere |
| Segmenter.TrailingTextHasNoSentence | app.js:500 | no sentence starts after the end of the last one emitted, so unterminated trailing text is dropped |
| Segmenter.Candidates | app.js:497-500 | the matches of pass 3 over the protected text or, when `match` returns `null`, the original text as the only candidate |
| Segmenter.CandidatesFallback | app.js:497-500 | when the protected text holds no sentence, the only candidate is the original text; otherwise the candidates are the matches |
| Segmenter.Restore | app.js:504-505 | restoring the sentinels leaves no `DECIMALDOT` and no `LISTDOT` |
| Segmenter.RestoreKeeps | app.js:504-505 | text that holds neither sentinel comes out unchanged |
| Segmenter.RestoreDecimalSentinel | app.js:504-505 | a `DECIMALDOT` becomes `.` and the text on either side is restored as if it stood alone, when the text before it does not end with a letter of either sentinel |
| Segmenter.RestoreListSentinel | app.js:504-505 | a `LISTDOT` becomes `.` and the text on either side is restored as if it stood alone, when the text before it does not end with a letter of either sentinel |
| Segmenter.ListSentinelKept | app.js:504-505 | the first replacement leaves a `LISTDOT` untouched, so the second one still finds it |
| Segmenter.Clean | app.js:503-506 | a cleaned candidate is the restored candidate with the white space at both ends cut off: a slice of it that is empty or has no white space at either end, and holds no sentinel |
| Segmenter.Speakable | app.js:502-510 | the cleaned candidates that are not empty, in candidate order; its meaning is stated by the three lemmas below |
| Segmenter.SpeakableQueueable | app.js:502-510 | every sentence handed to the queue is non-empty, trimmed and free of sentinels, and there are no more of them than candidates |
| Segmenter.SpeakableAppend | app.js:502-510 | the queued sentences of consecutive candidates are those of the first candidates followed by those of the rest, so sentences are queued in text order |
| Segmenter.SpeakableSnoc | app.js:502-510 | one more candidate adds its cleaned form at the end exactly when that form is not empty |
| Segmenter.Segment | app.js:495-510 | the sentences `speakText` hands to the queue for a text: the speakable forms of its candidates |
| Segmenter.DecimalSentenceSpokenWhole | app.js:495-510 | a sentence is queued whole and unchanged when it is made of: text that holds no terminator and no `D`, does not start with white space and ends with a character other than a digit, dot or white space; then a blank and a decimal number; then text with no terminator and no `D` that neither starts nor ends with a digit; then a closing dot. The decimal point neither splits the sentence nor is lost |
| Segmenter.DecimalSentenceExample | app.js:495-510 | "The value is 3.14 meters." is queued as the single sentence "The value is 3.14 meters." |
| Segmenter.ListItemProtected | app.js:498-499 | a list number followed by a blank and a word is left alone by the decimal pass, and the list pass turns its dot and blank into `LISTDOT` and one blank |
| Segmenter.ListItemExample | app.js:498-499 | the decimal pass leaves "1. First" alone, and the list pass turns it into "1LISTDOT First" |
| Speech.Delivered | app.js:521-548 | the items a run of TTS answers adds are at most one per sentence, and each carries one of the sentences |
| Speech.DeliveredAppend | app.js:502-548 | what consecutive runs of sentences deliver is the concatenation of what each run delivers |
| Speech.DeliveredAllSucceed | app.js:533-548 | when every TTS request succeeds, every sentence is queued, in order |
| Speech.DeliveredAllFail | app.js:533-548 | when every TTS request fails, nothing is queued |
| Speech.MiddleFailureSkipped | app.js:533-548 | a failed sentence between two successful ones is skipped, and its neighbours are queued in order |
| Speech.SpeechQueue.constructor | app.js:61-62 | the queue starts empty and idle |
| Speech.SpeechQueue.PlayAudioQueue | app.js:551-558 | on an empty queue it clears the flag and changes nothing else; otherwise it sets the flag, removes only the head item and starts playing it |
| Speech.SpeechQueue.QueueSentence | app.js:521-548 | a successful TTS answer appends exactly one item at the tail and starts playback only when the queue was idle; a failed one changes nothing |
| Speech.SpeechQueue.PlaybackFinished | app.js:565-582 | the end, error or rejected play of the current item plays the next item in FIFO order, or goes idle on an empty queue |
| Speech.SpeechQueue.SpeakText | app.js:495-511 | `speakText` pushes exactly the delivered items of the segmented sentences, in order, and keeps the FIFO invariant. The queue ends busy exactly when it was busy or something was delivered. A busy queue gains the delivered items at its tail and nothing more is played. An idle queue that receives items starts playing the first and holds the rest |
| Speech.SpeechQueue.SpeakCandidates | app.js:502-511 | the loop over the candidates pushes the delivered items of the cleaned non-empty candidates, in order, with the same final queue, flag and playback as `SpeakText` |
| Answers.Relevant | app.js:853 | the filter keeps only hits with a score above 10, and it keeps all of them |
| Answers.RelevantAppend | app.js:853 | the filter keeps the original order |
| Answers.IsRelevant | app.js:853 | `parseFloat(r.score) > 10`; a score that reads as `NaN` is never relevant |
| Answers.Describe | app.js:854 | the template literal that describes one hit |
| Answers.DescribeAll | app.js:854 | `map`: one description per hit, in the same order |
| Answers.Context | app.js:852-855 | the relevant hits, described and joined by blank lines; its meaning is stated by the lemmas below |
| Answers.ContextSnoc | app.js:852-855 | one more hit adds its description to the context, after a blank line when the context was not empty, exactly when the hit is relevant |
| Answers.ContextShape | app.js:852-855 | the context is empty when no hit is relevant; otherwise its length is that of the descriptions plus one two-character separator between neighbours |
| Answers.ContextEmptyIff | app.js:852-855 | the context is empty exactly when no hit is relevant, that is when every score is `NaN` or at most 10 |
| Answers.TopSource | app.js:857-868 | the source line attached to the answer: the top hit's chapter, page and paragraph when that hit is relevant, and none otherwise; its meaning is stated by the two lemmas below |
| Answers.TopSourceOpensContext | app.js:852-868 | a source is attached exactly when the first relevant hit is the top hit, and then that hit's description opens the context |
| Answers.SourceIsOnlyTheTopHit | app.js:857-859 | a relevant hit after an irrelevant first hit never becomes the source |
| Answers.PlanAnswer | app.js:841-868 | the no-result message for missing or empty results, otherwise a request to the generator with the context and the source; its meaning is stated by the two lemmas below |
| Answers.PlanAnswerGenerates | app.js:841-868 | any hits lead to an answer being generated; its context is empty exactly when no hit is relevant, and a source comes only with a non-empty context |
| Answers.IrrelevantHitsStillGenerate | app.js:841-859 | hits none of which is relevant still go to the generator, with an empty context and no source |
| Answers.IsBlankTranscript | app.js:818 | a transcription is no speech exactly when it is missing, empty, `[INAUDIBLE]`, or contains `BLANK` |
| Answers.BlankMatchesInsideWords | app.js:818 | the test is case-sensitive and matches inside words |
| Answers.CountLabel | app.js:480-483 | the label is `1 message` exactly for one message; otherwise it is the count in decimal followed by ` messages` |
| Answers.CountLabelInjective | app.js:480-483 | different counts get different labels |
| Assistant.Flatten | app.js:763 | `new Blob(audioChunks)`: the bytes of the chunks, concatenated in arrival order |
| Assistant.FlattenAppend | app.js:763 | the clip built from the chunks keeps every chunk whole and in arrival order |
| Assistant.FlattenLength | app.js:763 | no byte is lost or added when the chunks are joined |
| Assistant.TextTurn | app.js:835-887 | a typed or spoken question gets at most one reply, which is never a user message, and is always first announced as a search |
| Assistant.TextTurnReply | app.js:841-885 | a reply is recorded exactly when the search answered and either found no hits or the generator answered; it carries a source exactly when the top hit is relevant |
| Assistant.TextTurnRequest | app.js:852-863 | the generator is asked only when the search found hits, and then with the question, the context of the relevant hits, all hits and the chat so far |
| Assistant.ResultsTurn | app.js:841-879 | once the search has answered, the turn adds at most one reply and it is never a user message |
| Assistant.AudioTurn | app.js:791-833 | processing a clip always announces the conversion and ends with a status line |
| Assistant.ClipTurn | app.js:805-831 | every way through `processAudio` after the conversion announcement ends with a status line |
| Assistant.AudioTurnQuestion | app.js:805-826 | the chat gains a question only from a loud clip whose transcription is not blank; the question is that transcription, sent by the user, and comes before any reply |
| Assistant.VoiceAssistant.constructor | app.js:51-59 | the page starts with no recorder, an empty chunk buffer and chat, both flags clear, and nothing spoken |
| Assistant.VoiceAssistant.Announce | app.js:485-493 | the status line shows the message, and the message joins the spoken texts exactly when it is to be spoken |
| Assistant.VoiceAssistant.StartRecording | app.js:744-781 | a granted microphone starts recording with an empty chunk buffer; a refused one only announces the failure; the status line is the last announcement; the chat, reply area, text box and gate are unchanged |
| Assistant.VoiceAssistant.OnDataAvailable | app.js:761 | a chunk joins the buffer at its end, and nothing else changes |
| Assistant.VoiceAssistant.StopRecording | app.js:783-789 | acts only while a recorder exists and is recording; it then clears `isRecording` and announces the processing, with that as the status line; otherwise nothing changes |
| Assistant.VoiceAssistant.OnRecorderStop | app.js:762-767 | the buffered chunks become one clip in arrival order, and the buffer is emptied; a held gate leaves everything else unchanged; otherwise the gate is taken once and released, and the chat, spoken texts, status line and reply area are those of `AudioTurn` |
| Assistant.VoiceAssistant.ProcessAudio | app.js:791-833 | returns with no change while `isProcessing` is set; otherwise it takes the gate once, runs the turn `AudioTurn` describes and releases the gate on every way out |
| Assistant.VoiceAssistant.ProcessText | app.js:835-887 | runs the turn `TextTurn` describes, releases the gate on every way out and never takes it |
| Assistant.VoiceAssistant.UseClip | app.js:805-831 | after the conversion announcement, it runs the turn `ClipTurn` describes and releases the gate on every way out |
| Assistant.VoiceAssistant.ResetProcessing | app.js:889-890 | clears `isProcessing` and nothing else of the model's state |
| Assistant.VoiceAssistant.UseResults | app.js:841-879 | once the search has answered, it runs the turn `ResultsTurn` describes and releases the gate on every way out |
| Assistant.VoiceAssistant.HandleTextSubmit | app.js:899-916 | an empty trimmed input or a held gate only announces, with that as the status line; otherwise the trimmed text is recorded and asked, the input is cleared, and the status line and reply area are those of `TextTurn`; the gate is never taken |
| Assistant.VoiceAssistant.AskTyped | app.js:913-915 | a question that passed both checks is recorded as the user's, announced and asked, and the text box is cleared; the chat, spoken texts, status line and reply area are those of `TextTurn` |
| Assistant.VoiceAssistant.VoiceButtonClick | app.js:961-972 | while processing it only announces; otherwise it stops a running recording or starts a new one; every path states the spoken texts, the status line, the recorder and the chunk buffer, and keeps the chat, reply area and text box |
| Assistant.VoiceAssistant.AddChatMessage | app.js:629-634 | appends the message and sets the counter to the label of the new count |

## Left out

- HTTP and the remote services. All `fetch` calls are left out, including login, chat sessions, saving messages and model start-up; so are the bodies of `transcribeAudio`, `searchBook`, `generateAnswer` and the TTS request. Each service enters the model only as a success-or-failure outcome passed in by the caller, and saving a chat message is taken to succeed.
- The DOM: rendering, `classList` and `aria` updates, the `disabled` attributes of the controls, `localStorage`, navigation and keyboard shortcuts.
- The browser devices: `getUserMedia`, `MediaRecorder`, `decodeAudioData`, the base64 encoding of the samples, object URLs and stopping the stream's tracks. A clip's decoding enters `ProcessAudio` as an `AudioCheck` outcome.
- Assistant.VoiceAssistant.ProcessAudio: the silence check compares a floating-point peak amplitude with 0.01. The model takes the result of that comparison as a parameter and does not compute it.
- Answers.IsRelevant: `parseFloat` is not modelled. A score is the real number it reads as, `None` where it reads as `NaN`, and a separate string for how it is printed in the context.
- The playback rate of the audio element and the `speechSynthesis` fallback of `speakText`. The fallback runs only when the segmenter throws, which it cannot do on a string.
- Timers (`setTimeout`) and the timestamps of chat messages.
- Concurrency: un-awaited `speakText` calls running side by side, and a voice turn starting while a typed one is still waiting on the network. The double advance of the queue when both a rejected `play()` and the `error` event fire is left out as well. Handlers run one at a time in this model.
- Speech.SpeechQueue.SpeakText: no `ended` or `error` event of the audio element is taken to arrive while its TTS requests are awaited. In the browser the item playing may finish in between, and the queue may then advance earlier than the model states.
- Assistant.VoiceAssistant: announcements handed to `speakText` are logged in `spoken`; their sentences are not pushed into a `SpeechQueue` by this class.
- `loadChatSession`: its source text is not well formed, so there is no behaviour to reproduce. The same goes for `createNewChatSession`, which sits inside it. A chat session is taken to be open already, so saving a message never clears `chatMessages`, resets the counter or speaks "New chat session started" as the source would on the first question without a session (app.js:413-416).
- Characters are Unicode scalar values, not UTF-16 code units, so `trim` and the character classes see a surrogate pair as one character.
