# Chaeeze reply engine in Dafny

Chaeeze is a small offline chat bot (`app.js`). Each time the user submits a
line, `botReply` picks one answer by walking a fixed priority chain:

1. empty input: a "no pressure" prompt;
2. self-harm phrase: a fixed urgent-support message;
3. mood keyword (sad, happy, angry, tired, stressed; the first match in
   declaration order wins): that mood's fixed template;
4. question (trailing `?` or a question word): a fixed "tiny steps" answer
   when the text asks what to do, else one of three suggestive answers;
5. otherwise: with a coin flip and more than three space-separated pieces,
   an echo of one word of the input; else one of five empathetic lines.

This project models that engine:

- `js_string.dfy` (module `JsString`): the JavaScript string operations the
  engine relies on. These are ASCII `toLowerCase`, `trim` with the
  ECMAScript white-space set, `includes`, `endsWith`, `split(' ')` (which
  keeps empty pieces) and the `length > 2` word filter. Each comes with its
  specification lemmas.
- `chaeeze.dfy` (module `Chaeeze`): the keyword tables and messages copied
  verbatim from the source, and the classifiers `containsAny`,
  `detectMood`, `isQuestion` and `detectSelfHarm`. It also holds the chain
  `BotReply` with its rendered message `BotMessage`, and the lemmas that
  characterise each step of the chain.
- `chaeeze_examples.dfy` (module `ChaeezeExamples`): worked examples
  proved about the model. Among them are "How are you", "Fine.", "sad and
  lonely", "What should I do?" and an echo of "we saw the sea".

`BotReply` does not send the message to a timer. It returns a `Reply` made
of the branch taken and a `Say`. A `Say` is one of:

- a fixed `Template`;
- an index into `SUGGESTIVE_ANSWERS`;
- an index into `EMPATHETIC_FALLBACK`;
- an echo of a pivot word.

`Text` renders a `Say` to the exact string the source would display. Each
`Math.random()` the chain consults is an injected field of `Draws`:

- the coin, for `< 0.35`;
- the answer index;
- the pivot index;
- the comfort index.

`DrawsFit` bounds each index to the range the source's
`Math.floor(Math.random() * n)` can produce.

Points where the model follows the code rather than its comments:

- `isQuestion` is commented as "starting with question word". The code
  tests whether a question word occurs anywhere, and so does the model.
- The "what should i do" phrase test at `app.js:135` runs on the trimmed
  but not lower-cased text. So "What should I do?" gets a suggestive answer
  and not the micro-step message. The model keeps this
  (`ChaeezeExamples.CapitalWhatGetsNoMicroStep`).
- The `mood === 'lonely'` test at `app.js:111` can never be true.
  "lonely" is a keyword of the sad list, not a label
  (`Chaeeze.DetectMoodLabels`).

## Model

| member | source | states |
|---|---|---|
| JsString.Lower | app.js:68 | The result is as long as the input and contains no ASCII capital. Capitals are shifted to their lower-case letter; every other character is kept. |
| JsString.LowerIdempotent | app.js:80-83 | Lower-casing twice is lower-casing once. `isQuestion` lower-cases text that `containsAny` lower-cases again, and the second pass changes nothing. |
| JsString.LeadingSpaces | app.js:92 | The white space `trim` drops at the front: a prefix of spaces followed by a non-space or the end. |
| JsString.ContentEnd | app.js:92 | Where `trim` cuts at the back: everything after it is white space, and the character before it is not. |
| JsString.TrimIsInnerBlock | app.js:92 | `trim` returns a contiguous slice of its input that neither starts nor ends with white space. |
| JsString.TrimEmptyIffBlank | app.js:92-93 | The trimmed text is empty exactly when the input is all white space. |
| JsString.TrimIdempotent | app.js:80 | Trimming already-trimmed text (as `isQuestion` does with the `t` of `botReply`) changes nothing. |
| JsString.IncludesSpec | app.js:69 | The `includes` scan answers true exactly when the word occurs at some position of the text. |
| JsString.AbsentCharRulesOut | app.js:69 | A word with a character the text lacks is not included in it. |
| JsString.AbsentPairRulesOut | app.js:69 | A word with two adjacent characters that never stand side by side in the text is not included in it. |
| JsString.JoinSplit | app.js:145 | `split(' ')` loses nothing: joining the pieces with the separator gives the input back. |
| JsString.SplitJoin | app.js:145 | Splitting a join of separator-free pieces gives exactly those pieces. This is the other half of the round trip. |
| JsString.SplitPiecesFree | app.js:145 | No piece of a split contains the separator. |
| JsString.SplitCount | app.js:145 | The split yields one piece more than there are separators, counting empty pieces. |
| JsString.LongWords | app.js:147 | The filter keeps no more pieces than it is given, and every piece it keeps is longer than two characters. |
| JsString.LongWordsOne | app.js:147 | A single piece is kept exactly when it is longer than two characters. |
| JsString.LongWordsAppend | app.js:147 | Filtering a concatenation concatenates the filtered parts. Together with `LongWordsOne`, the filter keeps every long piece, in its original order and with its repeats, which makes the pivot window the first long pieces. |
| JsString.LongWordsMembers | app.js:147 | A piece survives the filter exactly when it is in the input and longer than two characters. |
| Chaeeze.SomeIncludedSpec | app.js:69 | `list.some(w => t.includes(w))` is true exactly when some list entry occurs in `t`. |
| Chaeeze.ContainsAnySpec | app.js:67-70 | `containsAny` is true exactly when some keyword occurs in the lower-cased text, and it is always false for an empty list. |
| Chaeeze.FirstMatchSpec | app.js:72-77 | The search answers null exactly when no entry matches. Otherwise the answer is the label of a matching entry and no earlier entry matches. |
| Chaeeze.FirstMatchLabel | app.js:72-77 | Whatever the search answers is the label of one of its entries. |
| Chaeeze.DetectMoodFirstMatch | app.js:72-77 | `detectMood` returns the k-th mood exactly when its keywords match and no earlier mood's do, so a text with sad and happy words is sad. It returns null exactly when no list matches. |
| Chaeeze.DetectMoodLabels | app.js:72-77 | `detectMood` only answers with one of the five declared labels, each of which has a template, and never with "lonely". |
| Chaeeze.IsQuestionSpec | app.js:79-84 | `isQuestion` holds exactly when the trimmed text ends with `?` or a question word occurs in it, in any letter case. |
| Chaeeze.DetectSelfHarmSpec | app.js:86-88 | `detectSelfHarm` holds exactly when a self-harm phrase occurs in the lower-cased text, and it ignores letter case. |
| Chaeeze.NormalizeBlank | app.js:92-93 | `(userText \|\| '').trim()` is empty exactly when the input is missing or all white space. |
| Chaeeze.RespondSteps | app.js:91-154 | Given any cues, each step fires exactly when all earlier steps declined and its own cue holds. Each step yields its own message: the fixed prompt, the urgent message, the mood's template, the micro-step message or an indexed suggestion, or the fallback. |
| Chaeeze.BotReplyRenderable | app.js:140-153 | For draws in the range `Math.random` can produce, every pool index the chain uses is inside its pool, so a message always exists. |
| Chaeeze.EmptyGuard | app.js:92-97 | The "no pressure" prompt is given exactly for missing or blank input, whatever the draws. |
| Chaeeze.SafetyFirst | app.js:99-107 | A non-blank input with a self-harm phrase always gets the urgent message, and only such an input does. This holds whatever mood or question cues it also carries. |
| Chaeeze.MoodStep | app.js:109-130 | The mood step fires exactly for non-blank, harm-free text where some mood list matches. The reply is the template of the first matching mood. |
| Chaeeze.QuestionStep | app.js:132-142 | The question step fires exactly for non-blank text with no harm, no mood and a question cue. It gives the micro-step message exactly when a phrase occurs in the case-preserved trimmed text, otherwise `SUGGESTIVE_ANSWERS[answer]`. |
| Chaeeze.FallbackStep | app.js:144-153 | The fallback fires exactly when no earlier step did. It echoes a pivot word when the coin is set and the text has more than two spaces (more than three pieces), otherwise it says `EMPATHETIC_FALLBACK[comfort]`. |
| Chaeeze.PivotChoice | app.js:147-148 | The echoed word is one of the first min(4, n) pieces longer than two characters, and it is "that" when there are none. |
| Chaeeze.BranchIgnoresDraws | app.js:91-154 | The branch taken depends on the text alone. Randomness only chooses among the lines of the branch. |
| Chaeeze.MoodTextsDistinct | app.js:112-128 | The five mood templates are pairwise different messages. |
| Chaeeze.NoPressureUnlikeTemplates | app.js:94-136 | The empty-input prompt differs from the urgent, mood and micro-step messages. |
| Chaeeze.NoPressureNotSuggestive | app.js:25-29 | The empty-input prompt is none of the suggestive answers. |
| Chaeeze.NoPressureNotEmpathetic | app.js:17-23 | The empty-input prompt is none of the empathetic lines, including the one of equal length. |
| Chaeeze.NoPressureTextUnique | app.js:94-153 | Among all renderable replies, only the empty-input reply spells out the prompt's text, echoes included. |
| Chaeeze.NoPressureOnlyForBlank | app.js:92-97 | The message shown is the empty-input prompt exactly when the input is missing or blank, whatever the draws. |
| ChaeezeExamples.NoneMentioned | app.js:67-70 | If every keyword has a character or character pair missing from the lower-cased text, `containsAny` cannot fire. |
| ChaeezeExamples.HowAreYouMentionsHow | app.js:15 | "How are you" contains the question word "how" once lower-cased. |
| ChaeezeExamples.HowAreYouIsQuestion | app.js:79-84 | `isQuestion("How are you")` is true even without a question mark. |
| ChaeezeExamples.FineIsNoQuestion | app.js:79-84 | `isQuestion("Fine.")` is false. |
| ChaeezeExamples.SadBeatsHappy | app.js:72-77 | "I am sad and happy" is classified sad: the first mood in order wins. |
| ChaeezeExamples.LonelyNoSelfHarm | app.js:86-88 | "sad and lonely" contains no self-harm phrase. |
| ChaeezeExamples.LonelyIsSad | app.js:6 | "sad and lonely" matches the sad keyword list. |
| ChaeezeExamples.LonelyGetsSadReply | app.js:109-114 | "sad and lonely" gets the sad template through the sad label, whatever the draws. |
| ChaeezeExamples.WantToDieIsSelfHarm | app.js:86-88 | "so sad I want to die" contains a self-harm phrase. |
| ChaeezeExamples.SafetyBeatsMood | app.js:99-107 | "so sad I want to die" gets the urgent message, although it also has a sad word. |
| ChaeezeExamples.CapitalWhatLacksPhrases | app.js:135 | None of the three micro-step phrases occurs in "What should I do?" as written, because the capital W is kept. |
| ChaeezeExamples.CapitalWhatIsNoMicroStep | app.js:135 | The phrase test is false for "What should I do?". |
| ChaeezeExamples.CapitalWhatIsQuestion | app.js:79-84 | "What should I do?" is a question. |
| ChaeezeExamples.CapitalWhatGetsNoMicroStep | app.js:132-142 | "What should I do?" never gets the micro-step message. If it reaches the question step, it gets a suggestive answer. |
| ChaeezeExamples.SmallWhatIsMicroStep | app.js:135 | The phrase test is true for "what should I do?". |
| ChaeezeExamples.SeaPieces | app.js:145 | "we saw the sea" splits into four pieces. |
| ChaeezeExamples.SeaEchoWords | app.js:147 | Of those pieces, "saw", "the" and "sea" are echo candidates. |
| ChaeezeExamples.SeaEcho | app.js:145-150 | With the coin set and pivot draw 2, the fallback for "we saw the sea" echoes "sea". |

## Left out

- The page and its event handlers (`app.js:31-48`, `app.js:163` onwards) are not modelled. They are display and input wiring with no decision logic.
- The timestamp (`timeNow`) is not modelled. It reads the clock and only labels messages.
- Conversation storage in `localStorage` (`saveMessage`, `loadConversation`, `app.js:50-64`) is not modelled. It is I/O, and a stored message is only replayed to the screen.
- `delayedReply` (`app.js:156-161`) is not modelled. The model returns the chosen message where the source hands it to a timer with a random 500–1200 ms delay and then shows and stores it.
- `Math.random()` is replaced by the injected `Draws`. Its floating-point values are not modelled. The coin stands for `Math.random() < 0.35`, so the 35% probability is not represented, and each index is any value `Math.floor(Math.random() * n)` can take.
- JsString.Lower: folds only the ASCII capitals A-Z. JavaScript's `toLowerCase` folds all Unicode capitals, and some of them become ASCII letters: U+212A KELVIN SIGN becomes `k`, and U+0130 becomes `i` followed by U+0307. So an input spelled with such characters can be classified differently by the model than by the source, the self-harm check included (for example, "kill myself" written with a Kelvin sign gets the urgent message in the source but not in the model).
- JsString.LongWords: counts characters for `w.length`. JavaScript counts UTF-16 code units, which differ only for characters outside the Basic Multilingual Plane.
- Inputs that are not strings: only a missing input is modelled, as `None` (`userText || ''`). Other falsy values behave the same in the source.
- Chaeeze.ReadCues: computes all four cues up front. The source computes them lazily in chain order. The classifiers have no side effects, so the replies are the same.
- ChaeezeExamples.CapitalWhatGetsNoMicroStep: states the question step conditionally. It does not prove that "What should I do?" clears the mood step, because that would need a no-match proof for all five mood lists.
