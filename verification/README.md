# Edu-AI backend core in Dafny

A model of the pure logic of the Edu-AI learning-assistant backend (Python, FastAPI), with
proofs about it. Six pieces are covered:

- **Text chunking** (`NLPService.chunk_text`, module `Nlp`). The transcript is split into
  sentences at the whitespace after `.`, `!` or `?`. The sentences are packed greedily into
  chunks bounded by word count. Each new chunk starts with an overlap of sentences carried
  from the previous one. The comma-split post-processing of `extract_key_concepts` is here too.
- **Quiz grading** (`QuizService.evaluate_quiz_attempt`, module `Quiz`). Questions are zipped
  with answers and the correct answers counted. Wrong answers are tallied per topic. The
  result gives the percentage score, the weak topics and the pass flag.
- **YouTube and audio transcription** (`TranscriptionService`, module `Transcription`). This
  covers the video-id parser, the caption join, the metadata dictionary and the wrapping of
  every failure into a user-facing message. It also covers the "API key not configured"
  guard of audio transcription. The caption provider and the speech-to-text client are
  inputs: functions from the video id (or the file path) to an outcome.
- **Tutor conversation history** (`AITutorService`, module `Tutor`). This is the per-user
  map of stored messages. It covers the messages sent with a question (the last ten stored
  messages are sent along), the update after an answer and clearing. It also covers the
  default lookups for learning style, depth level and resource formats. A trace model
  (`Replay`) runs a sequence of asks and clears from an empty service.
- **CORS origin parsing** (`Settings.parse_cors_origins`, module `Config`), together with
  the settings constants the services read.
- **Database URL rewriting** (top of `database.py`, module `Database`). The synchronous
  driver in the URL is swapped for the async one.

The module `Strings` models the Python `str` operations these rely on: `in`, `startswith`,
`split(sep)`, `join`, `replace`, `strip()` and `split()`. Whitespace is Python's
`str.isspace()` set, which is also what the regular-expression class `\s` matches.
`Wrappers` holds `Option` and `Result`. Python exceptions become `Err` values that carry
the exception's message.

A YouTube link is served from captions only, and an audio file goes only to the remote
speech-to-text API; there is no fallback between them. One mismatch is inside
the code itself. The comment above the weak-area filter speaks of "topics with
< 60% accuracy". The code actually divides a topic's wrong answers by the number of all
questions. The model follows the code (`Quiz.IsWeak`).

## Model

| member | source | states |
|---|---|---|
| Config.ParseCorsOrigins | backend/app/core/config.py:49-54 | A list passes through unchanged. A string gives one origin per comma-separated piece, in order, so there are commas + 1 origins and empty pieces are kept. Each origin is its piece with the surrounding whitespace removed. |
| Config.CorsRoundTrip | backend/app/core/config.py:52-53 | Origins that have no comma and no outer whitespace, written comma-separated, parse back to the same list. |
| Config.EmptyCorsStringGivesOneEmptyOrigin | backend/app/core/config.py:53 | An empty setting string gives the list `[""]`, not an empty list. |
| Database.AsyncDatabaseUrl | backend/app/core/database.py:9-13 | These URLs come back unchanged: a URL naming neither dialect; a "sqlite…" URL without "sqlite:///"; a "postgresql…" URL without "postgresql://". A "sqlite…" URL that contains "sqlite:///" has its leftmost occurrence replaced by "sqlite+aiosqlite:///", the text before it kept, and the rest rewritten the same way. A "postgresql…" URL that contains "postgresql://" is rewritten the same way with "postgresql+asyncpg://". |
| Database.SqliteUrlGetsAsyncDriver | backend/app/core/database.py:10-11 | A "sqlite:///" URL becomes "sqlite+aiosqlite:///" with the rest unchanged. |
| Database.PostgresUrlGetsAsyncDriver | backend/app/core/database.py:12-13 | A "postgresql://" URL becomes "postgresql+asyncpg://" with the rest unchanged. |
| Database.DefaultDatabaseUrl | backend/app/core/database.py:9-11 | The default setting becomes "sqlite+aiosqlite:///./ai_learning_assistant.db". |
| Database.AsyncSqliteUrlIsRewrittenAgain | backend/app/core/database.py:10-11 | As written, a URL that already names aiosqlite is rewritten again and gains a second "+aiosqlite". |
| Database.AsyncDatabaseUrlOnce | backend/app/core/database.py:9-13 | The intended rewrite swaps a leading synchronous scheme for its async driver and leaves every other URL alone. |
| Database.AsyncDatabaseUrlOnceIdempotent | backend/app/core/database.py:9-13 | Applying the intended rewrite twice gives the same result as applying it once. |
| Database.AsyncDatabaseUrlOnceAgrees | backend/app/core/database.py:9-13 | On plain synchronous URLs, the intended rewrite and the code as written agree. |
| Strings.Contains | backend/app/services/transcription_service.py:88 | Python's `t in s`: some index holds an occurrence of `t`. |
| Strings.StartsWith | backend/app/core/database.py:10 | Python's `s.startswith(prefix)`: the first `len(prefix)` characters are `prefix`. |
| Strings.Find | backend/app/services/transcription_service.py:89 | The index where `split(marker)` cuts first: an occurrence with none before it, and no result exactly when the marker does not occur. |
| Strings.Split | backend/app/core/config.py:53 | The pieces joined with the separator give back the string. No piece contains the separator. The first piece ends at the first occurrence. There is a single piece exactly when the separator does not occur. |
| Strings.SplitJoin | backend/app/core/config.py:53 | Joining separator-free pieces and splitting at the separator gives back the pieces. |
| Strings.SplitCount | backend/app/services/nlp_service.py:115 | Splitting at a character gives one more piece than the string has occurrences of that character. |
| Strings.ReplaceAll | backend/app/core/database.py:11 | Replacing a target that does not occur leaves the string unchanged. |
| Strings.ReplaceAllLeftmost | backend/app/core/database.py:11 | When the target occurs, its leftmost occurrence is replaced, the text before it is kept, and the text after it is rewritten the same way: every non-overlapping occurrence is replaced, left to right. |
| Strings.Strip | backend/app/core/config.py:53 | The result has no outer whitespace, and the input is the result with whitespace added at both ends. |
| Strings.StripEach | backend/app/core/config.py:53 | `[o.strip() for o in …]`: one result per piece, each trimmed and padded only by whitespace in its piece. |
| Strings.Words | backend/app/services/nlp_service.py:176 | `split()` gives non-empty words with no whitespace in them. |
| Strings.WordsKeepText | backend/app/services/nlp_service.py:176 | The words of a string, concatenated, are the string with its whitespace deleted: nothing but whitespace is lost or reordered. |
| Strings.WordsAcrossGap | backend/app/services/nlp_service.py:176 | A non-empty run of whitespace separates words: the words of `a + gap + b` are the words of `a` followed by those of `b`. |
| Strings.WordsOfWord | backend/app/services/nlp_service.py:176 | A non-empty run without whitespace is exactly one word. Together with `WordsAcrossGap` and `WordsOfSpace`, this fixes `split()` completely. |
| Strings.WordsOfSpace | backend/app/services/nlp_service.py:176 | A run of whitespace holds no word. |
| Strings.Join | backend/app/services/nlp_service.py:179 | `sep.join(parts)`. Its layout is stated by `Strings.JoinLayout`. |
| Strings.JoinLayout | backend/app/services/nlp_service.py:179 | Joining with a one-character separator gives "" for no parts. Otherwise the length is the parts' total length plus one per gap. Each part sits at its offset, and the separator follows every part but the last. |
| Nlp.SplitSentences | backend/app/services/nlp_service.py:169 | The sentence split gives at least one piece. No piece holds a split point. Every piece but the last ends in `.`, `!` or `?`. No later piece starts with whitespace. |
| Nlp.SentenceGaps | backend/app/services/nlp_service.py:169 | The split drops one non-empty whitespace run between each pair of neighbouring sentences. |
| Nlp.SentencesInterleave | backend/app/services/nlp_service.py:169 | Putting each dropped run back between its neighbours gives the text again. The split loses nothing but those runs. |
| Nlp.SentencesRoundTrip | backend/app/services/nlp_service.py:169 | Well-formed sentences joined by single spaces split back into the same sentences. |
| Nlp.SentencesKeepWords | backend/app/services/nlp_service.py:169 | Splitting into sentences neither loses, adds nor reorders a word of the text. |
| Nlp.JoinedWords | backend/app/services/nlp_service.py:176-179 | The word count of sentences joined by single spaces is the sum of their word counts, which is what the running `current_length` tracks. |
| Nlp.OverlapTail | backend/app/services/nlp_service.py:181-190 | The carried overlap is a suffix of the flushed chunk. Each sentence was taken while fewer than `overlap` words were carried. The suffix stops at `overlap` words or at the whole chunk. It is non-empty exactly when the chunk is non-empty and `overlap` is positive. |
| Nlp.OverlapTailUnique | backend/app/services/nlp_service.py:181-190 | No other suffix has those properties. |
| Nlp.TakeOverlap | backend/app/services/nlp_service.py:181-190 | The backwards loop returns exactly that overlap, together with its word count. |
| Nlp.ChunkingAppend | backend/app/services/nlp_service.py:192-193 | Adding a sentence that fits to the open chunk preserves the chunking description. |
| Nlp.ChunkingFlush | backend/app/services/nlp_service.py:178-193 | Closing a full chunk and opening the next preserves the description. The next chunk holds the overlap plus the sentence that did not fit. |
| Nlp.PackSentences | backend/app/services/nlp_service.py:171-196 | The chunks, without their overlaps, list every sentence once, in order. Each chunk adds a sentence. Each later chunk starts with the previous chunk's overlap. A chunk was closed exactly when the next sentence would have taken it over the size. There are no chunks only for no sentences. |
| Nlp.PackStep | backend/app/services/nlp_service.py:175-193 | One pass of the main loop keeps its invariant: the closed chunks and the open one describe a chunking of the sentences read so far, the open chunk holds a new sentence, and `current_length` is the open chunk's word count. |
| Nlp.FlushOpen | backend/app/services/nlp_service.py:178-193 | When the sentence does not fit into a non-empty chunk, that chunk is closed unchanged. The next chunk holds its overlap followed by the sentence, and `current_length` is their word count. |
| Nlp.ExtendOpen | backend/app/services/nlp_service.py:192-193 | Otherwise the sentence is appended to the open chunk, the closed chunks stay as they are, and `current_length` grows by the sentence's word count. |
| Nlp.JoinChunks | backend/app/services/nlp_service.py:179-196 | Each chunk's text is its sentences joined by single spaces, and its word count is the sum of theirs. |
| Nlp.OrDefault | backend/app/services/nlp_service.py:165-166 | A missing or zero size or overlap falls back to the default. Any other value, negative ones included, is used as given. |
| Nlp.ChunkText | backend/app/services/nlp_service.py:153-198 | The result is never empty. Each chunk is its sentence group joined by single spaces, and its word count is the group's word-count sum. The groups are a chunking of the text's sentences under the effective size and overlap (1000 and 200 by default). |
| Nlp.ChunkWithinSize | backend/app/services/nlp_service.py:175-193 | A chunk that received two or more new sentences is within the size. Only the first sentence of a chunk is added unchecked. |
| Nlp.OverlapIsSuffixOfPrevious | backend/app/services/nlp_service.py:181-190 | With a positive overlap, every chunk after the first starts with a non-empty suffix of the previous chunk's sentences. |
| Nlp.KeyConcepts | backend/app/services/nlp_service.py:114-116 | One stripped concept per comma-separated piece of the reply: commas + 1 of them, with empty pieces kept. |
| Nlp.KeyConceptsRoundTrip | backend/app/services/nlp_service.py:115-116 | Concepts with no comma and no outer whitespace, listed comma-separated, are read back unchanged. |
| Quiz.Graded | backend/app/services/quiz_service.py:141 | `zip` grades as many pairs as the shorter of the two lists. |
| Quiz.CorrectCount | backend/app/services/quiz_service.py:142-144 | The running `correct` after n pairs is the number of indices below n whose answer is right. |
| Quiz.IsCorrect | backend/app/services/quiz_service.py:142 | An answer is right exactly when the question has a correct answer equal to it. A question without one is never answered right. |
| Quiz.TopicOf | backend/app/services/quiz_service.py:146 | A wrong answer is charged to the question's topic, or to "general" when it names none. |
| Quiz.Record | backend/app/services/quiz_service.py:142-155 | One grading step appends one entry that reports the pair. A right answer adds one to `correct` and leaves the dictionary alone. A wrong one adds one to its topic's count (from 0 if absent), and a new topic joins the end of the key order. |
| Quiz.TallyOf | backend/app/services/quiz_service.py:141-155 | After n pairs the loop holds one result per pair and at most n right answers. |
| Quiz.WrongTopics | backend/app/services/quiz_service.py:142-147 | Right answers plus wrong answers (each charged to one topic) add up to the number of graded pairs. |
| Quiz.Dedup | backend/app/services/quiz_service.py:146-147 | The per-topic dictionary's keys are exactly the topics charged, each listed once. |
| Quiz.DedupOrdered | backend/app/services/quiz_service.py:160-161 | The keys come in order of each topic's first wrong answer. |
| Quiz.AtMostTwoWeak | backend/app/services/quiz_service.py:159-163 | Three distinct topics cannot each have more than two fifths of all questions wrong, so there are at most two weak areas. |
| Quiz.PassThreshold | backend/app/services/quiz_service.py:171 | `correct / total * 100 >= 0.7 * 100` holds exactly when 10·correct ≥ 7·total. |
| Quiz.WeakThreshold | backend/app/services/quiz_service.py:162 | `errors / total > 1 - 0.6` holds exactly when 5·errors > 2·total. |
| Quiz.IsWeak | backend/app/services/quiz_service.py:162 | The weak-area test agrees with the integer form 5·errors > 2·total. |
| Quiz.ScoreOf | backend/app/services/quiz_service.py:157 | The score is 0 for no questions. Otherwise score × total = 100 × correct. It lies in [0, 100]. It reaches the pass mark exactly when there are questions and 10·correct ≥ 7·total. |
| Quiz.FullScore | backend/app/services/quiz_service.py:157 | The score is 100 exactly when there are questions and all of them are right. |
| Quiz.UnansweredCostPoints | backend/app/services/quiz_service.py:137-157 | Fewer answers than questions never scores 100, because `total` counts every question. |
| Quiz.PerfectAttempt | backend/app/services/quiz_service.py:141-147 | If all graded pairs are right, none is charged to a topic. |
| Quiz.TallyStep | backend/app/services/quiz_service.py:146-147 | `weak_topics[topic] = weak_topics.get(topic, 0) + 1` keeps the per-topic counts equal to the number of wrong answers charged to each topic. The key order stays the order of first wrong answer. |
| Quiz.RecordWrong | backend/app/services/quiz_service.py:145-147 | Grading a wrong answer charges it to its topic. The counts stay the number of wrong answers per topic, and the key order stays the order of first wrong answer. |
| Quiz.TallyOfAccounts | backend/app/services/quiz_service.py:141-155 | After n pairs, the fold has counted the right answers and tallied every wrong answer under its topic. It holds one result per pair, with index, verdict, answer, key and explanation. |
| Quiz.TallyAnswers | backend/app/services/quiz_service.py:141-155 | The grading loop computes that tally for all graded pairs. |
| Quiz.WeakAmongOrdered | backend/app/services/quiz_service.py:160-163 | Filtering the keys keeps the order of first wrong answer. |
| Quiz.WeakAreasOfWrong | backend/app/services/quiz_service.py:159-163 | Filtering the keys finds exactly the topics with 5·errors > 2·total, in first-wrong-answer order, at most two of them. |
| Quiz.FilterWeak | backend/app/services/quiz_service.py:160-163 | The loop over the dictionary's keys keeps exactly the keys whose error rate passes the threshold, in key order. |
| Quiz.SelectWeakAreas | backend/app/services/quiz_service.py:159-163 | The comprehension's weak areas: exactly the weak topics, all among the wrong answers, in first-wrong-answer order, at most two. |
| Quiz.EvaluateQuizAttempt | backend/app/services/quiz_service.py:121-172 | `total` is the number of questions. `correct` counts the right answers among the graded pairs, with one result per pair. The score is `ScoreOf` and lies in [0, 100]. The attempt passes exactly when total > 0 and 10·correct ≥ 7·total. The weak areas are as stated above. |
| Transcription.CutSegment | backend/app/services/transcription_service.py:90 | `split(marker)` then `split(stop)` returns a prefix that ends at the first stop character or the next marker. |
| Transcription.ExtractVideoId | backend/app/services/transcription_service.py:87-94 | With "v=" present, the id is the text after the first "v=", up to the next "&" or "v=". Otherwise, with "youtu.be/" present, it is the text after the first "youtu.be/", up to the next "?" or "youtu.be/". With neither present, the result is "Invalid YouTube URL". |
| Transcription.WatchUrlRoundTrip | backend/app/services/transcription_service.py:89-90 | A watch link built from an id (no "&" and no "v=" in it) gives that id back. |
| Transcription.ShortUrlRoundTrip | backend/app/services/transcription_service.py:91-92 | A short link built from an id (no "?" and no "youtu.be/" in it, and no "v=" anywhere in the link) gives that id back. |
| Transcription.GetYoutubeMetadata | backend/app/services/transcription_service.py:96-108 | Metadata exists exactly when an id can be extracted. The title is "Video: " + id, with the URL and the id beside it. Otherwise it is the error entry "Invalid YouTube URL". |
| Transcription.TitleNamesId | backend/app/services/transcription_service.py:103-105 | The id can be read back from the title. |
| Transcription.JoinCaptions | backend/app/services/transcription_service.py:71 | No fragments give "". Otherwise the transcript is exactly the fragment texts in provider order with one space between neighbours: its length is their total plus one per gap, and each text sits at its offset. Its words are the fragments' words in order, so its word count is their sum. |
| Transcription.CaptionsSplitBack | backend/app/services/transcription_service.py:71 | If no fragment contains a space, splitting the transcript at spaces gives back the fragment texts. |
| Transcription.TranscribeYoutubeVideo | backend/app/services/transcription_service.py:56-85 | A bad link, a timeout and a provider error each produce one specific message under "YouTube transcription failed: ". Success returns the joined captions with the video's metadata. |
| Transcription.YoutubeErrorsArePrefixed | backend/app/services/transcription_service.py:84-85 | Every failure message starts with "YouTube transcription failed: ". |
| Transcription.CaptionsOnlyForId | backend/app/services/transcription_service.py:58-69 | Only the provider's answer for the extracted id matters. A link without an id never reaches the provider. |
| Transcription.TranscriptMetadataNamesVideo | backend/app/services/transcription_service.py:71-76 | On success the metadata names the link, and the provider returned captions for the id in that metadata. |
| Transcription.NewService | backend/app/services/transcription_service.py:18 | A client exists exactly when the API key is non-empty. |
| Transcription.DefaultServiceHasNoClient | backend/app/services/transcription_service.py:18 | With the default (empty) key, there is no client. |
| Transcription.TranscribeAudioFile | backend/app/services/transcription_service.py:30-42 | Without a client, the call fails with the configuration message. Otherwise it returns the client's text, or the client's error under "Transcription failed: ". |
| Transcription.UnconfiguredIgnoresWhisper | backend/app/services/transcription_service.py:30-31 | Without a key, the outcome does not depend on the speech-to-text call at all. |
| Transcription.MissingKeyIsNotATranscriptionFailure | backend/app/services/transcription_service.py:30-42 | A failure carries the "Transcription failed: " prefix exactly when a client exists. |
| Tutor.StyleInstruction | backend/app/services/ai_tutor_service.py:43-50 | A known style gets its instruction. Any other style gets the "visual" one. |
| Tutor.DepthInstruction | backend/app/services/ai_tutor_service.py:117-123 | A known depth gets its instruction. Any other depth gets the "intermediate" one. |
| Tutor.PreferredFormats | backend/app/services/ai_tutor_service.py:223-230 | "various formats" appears exactly when the style is unknown. A known style gets its listed formats. |
| Tutor.UnknownStyleReadsAsVisual | backend/app/services/ai_tutor_service.py:43-50 | The four listed styles are the only keys. Every other style reads like "visual" and gets the generic formats. |
| Tutor.UnknownDepthReadsAsIntermediate | backend/app/services/ai_tutor_service.py:117-123 | The three listed depths are the only keys. Every other depth reads like "intermediate". |
| Tutor.SystemPrompt | backend/app/services/ai_tutor_service.py:50-64 | The prompt starts with the tutor opening. "specializing in " and the subject follow it exactly when a non-empty subject is given. Otherwise the approach header and the style instruction follow it directly. The style's instruction always appears, and the prompt ends with the fixed list of teaching bullets. |
| Tutor.Window | backend/app/services/ai_tutor_service.py:77 | `[-10:]` is the last min(10, length) stored messages. |
| Tutor.OutgoingMessages | backend/app/services/ai_tutor_service.py:66-80 | The request is, in order: the system prompt; the reference-material message exactly when a non-empty context is given; the window; the question. |
| Tutor.RecordExchange | backend/app/services/ai_tutor_service.py:39-94 | The user's entry exists afterwards. It grows by the question and then the answer on success, and is unchanged on failure. Every other user's entry is untouched. |
| Tutor.GetTutorResponse | backend/app/services/ai_tutor_service.py:17-96 | The request is built from the history as it stood before the question. The caller gets the completion's answer or error. The state is updated as `RecordExchange` states. |
| Tutor.ClearConversationHistory | backend/app/services/ai_tutor_service.py:260-263 | Only this user's entry is removed. |
| Tutor.ClearIdempotent | backend/app/services/ai_tutor_service.py:260-263 | Clearing twice is the same as clearing once. Clearing a user with no entry changes nothing. |
| Tutor.HistoryLength | backend/app/services/ai_tutor_service.py:93-94 | Stored history is never trimmed. Its length is twice the number of successful questions since the last clear. |
| Tutor.HistoriesAreExchanges | backend/app/services/ai_tutor_service.py:93-94 | Every stored history alternates question, answer, question, answer. |
| Tutor.WindowIsExchanges | backend/app/services/ai_tutor_service.py:76-77 | The window sent with a question is whole exchanges (the last five or fewer) and starts with a question. |
| Tutor.HistoriesAreIsolated | backend/app/services/ai_tutor_service.py:93-94 | A user's history depends only on that user's own questions and clears. |

## Left out

- Calls to the language model (`generate_notes`, `summarize_text`, `generate_flashcards`, `generate_quiz`, `generate_adaptive_quiz`, `get_question_explanation`, `explain_concept`, `generate_study_plan`, `recommend_resources`, and the completions inside `extract_key_concepts` and `get_tutor_response`): these are external calls around prompt templates. The model keeps only their pure pre- and post-processing. The reply is an input.
- Tutor.SystemPrompt: the contract places the five parts of the prompt (opening, subject context, approach header, style instruction, closing bullets) but no lemma spells out the whole prompt character by character.
- Concurrency and the 30-second deadline of the caption fetch (`asyncio.to_thread`, `wait_for`): the fetch is an input that returns fragments, a timeout or a provider error.
- File I/O: opening the audio file is part of the speech-to-text input. `transcribe_live_audio` is not modelled: it ignores its audio chunks, creates an empty temporary file, sends that empty file to `transcribe_audio_file` and deletes it afterwards.
- Engine and session creation, `get_db`, `init_db`, the ORM models, the HTTP endpoints, the router and the frontend: they are declarations or forwarding with no logic of their own.
- Settings other than the ones the modelled code reads (app name, secrets, model names, Redis, upload limits): constants with no behaviour.
- Quiz.ScoreOf: the score is an exact real. Python computes `correct / total * 100` in doubles, so the printed value can differ in the last digit. The pass and weak-area comparisons agree with the doubles, because `0.7 * 100 == 70.0` and `1 - 0.6 == 0.4` exactly. The one exception would be a total so large that `correct / total` and 0.7 (or 0.4) round to the same double; that is far beyond any quiz size.
- Quiz.Question: a `topic` key that is present but null is charged to the null topic in Python, not to "general". The model has only "missing" or a string. Answers and correct answers are strings, so equality between other JSON types is not modelled.
- Transcription.Fragment: a caption fragment without a `text` key would raise `KeyError` inside the try, and the user would see it as "Transcript not available". The model's fragments always have a text.
- Tutor.RecordExchange: an ask is modelled as one atomic step. In the code, `get_tutor_response` creates the user's entry, builds the ten-message window, awaits the completion and only then appends to `conversation_history[user_id]`. A `clear_conversation_history` for the same user that runs during that await makes the append raise `KeyError`, so the caller gets a server error after a successful completion and the exchange is lost. Two concurrent asks of one user both build their windows from the same history. The model covers only runs where asks and clears do not interleave.
- Tutor.GetTutorResponse: builds the request and updates the history in one step, under the same no-interleaving assumption as `Tutor.RecordExchange`; the `KeyError` after an interleaved clear is not modelled.
- Nlp.ChunkText: the default chunk size and overlap are fixed at 1000 and 200 (`Config.ChunkSize`, `Config.ChunkOverlap`). The code reads them from `Settings`, which the environment or a `.env` file can override; explicit arguments to `chunk_text` are modelled for any value.
- Quiz.EvaluateQuizAttempt: the thresholds are fixed at their defaults, 0.7 for passing and 0.6 for weak areas (`Config.MinQuizAccuracy`, `Config.WeakAreaThreshold`), so "10·correct ≥ 7·total" and "5·errors > 2·total" hold only for those values. The code reads both from `Settings`, which the environment or a `.env` file can override.
- Tutor.Histories: user ids are integers, and a failing completion is an `Err` that is passed on rather than an exception. The state update around it is the same.
- Nlp.ChunkWithinSize: a chunk can still exceed the size. This happens when its first new sentence plus the carried overlap is over the size, because the code adds that sentence without a check. Only chunks with two or more new sentences are bounded.

## Findings

| source | as written | input that shows it | evidently intended | confidence | as-written member | corrected member |
|---|---|---|---|---|---|---|
| backend/app/core/database.py:10-11 | `replace("sqlite:///", "sqlite+aiosqlite:///")` on any URL starting with "sqlite" | `DATABASE_URL = "sqlite+aiosqlite:///./app.db"` becomes `"sqlite+aiosqlite+aiosqlite:///./app.db"`, because "sqlite:///" occurs inside "sqlite+aiosqlite:///" | swap only a leading synchronous scheme; leave an already-async URL unchanged | high, not executed | Database.AsyncSqliteUrlIsRewrittenAgain | Database.AsyncDatabaseUrlOnceIdempotent |
