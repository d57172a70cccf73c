/** The reply engine of the Chaeeze chat bot: keyword tables, the keyword
    classifiers and the priority chain that turns one line of user text into
    one bot message (empty guard, self-harm check, mood check, question
    check, fallback).

    The bot hands its message to a timer that displays and stores it; here
    `BotReply` returns the message instead, tagged with the branch that
    produced it. Every `Math.random()` the chain consults is an injected
    draw (`Draws`). */
module Chaeeze {
  import opened JsString

  datatype Option<T> = None | Some(value: T)

  // ---------------------------------------------------------------------
  // Keyword tables and fixed messages
  // ---------------------------------------------------------------------

  /** Mood labels with their trigger lists, in declaration order: the order
      in which `Object.entries` walks them. */
  const MOOD_KEYWORDS: seq<(string, seq<string>)> := [
    ("sad", ["sad", "sadness", "depressed", "depressing", "unhappy", "down", "lonely", "loneliness", "tear", "cry", "crying", "hopeless"]),
    ("happy", ["happy", "great", "joy", "excited", "excitedly", "glad", "awesome", "yay", "good news", "celebrate"]),
    ("angry", ["angry", "mad", "furious", "annoyed", "frustrated", "pissed", "hate"]),
    ("tired", ["tired", "exhausted", "sleepy", "drained", "burnout"]),
    ("stressed", ["stressed", "stress", "anxious", "anxiety", "worried", "overwhelmed", "panic", "nervous"])
  ]

  /** Self-harm indicators; the duplicate "kill myself" is harmless. */
  const SELF_HARM_KEYWORDS: seq<string> := [
    "suicide", "kill myself", "end my life", "hurt myself", "kill myself",
    "die by", "want to die", "i want to die", "i'll kill myself", "i will kill myself"
  ]

  const QUESTION_WORDS: seq<string> := [
    "what", "how", "why", "when", "should", "can", "could", "help", "advice", "what should"
  ]

  const EMPATHETIC_FALLBACK: seq<string> := [
    "I hear you.",
    "That sounds heavy — I'm listening.",
    "I'm here with you.",
    "It's okay to feel that way.",
    "Take a breath — tell me more when you're ready."
  ]

  const SUGGESTIVE_ANSWERS: seq<string> := [
    "Sometimes a small step helps — can you try one tiny thing right now?",
    "Would it help to name one small, doable task for today?",
    "Talking to someone you trust can help. If that's not possible, I'm here to listen."
  ]

  const NO_PRESSURE_TEXT := "It's okay — you can type whenever you're ready."
  const URGENT_HELP_TEXT :=
    "I'm really sorry you're feeling this way. If you are thinking about hurting yourself or ending your life, please consider reaching out for immediate help — "
    + "contact local emergency services or a crisis hotline. "
    + "If you're in India, you can call or text 9152987821 (Sneha) or reach out to a local helpline. "
    + "You don't have to go through this alone. If you'd like, tell me if you'd like resources or someone to contact."
  const SAD_TEXT := "I'm sorry you're feeling this way. I'm here with you — would you like to tell me more about what's on your mind?"
  const HAPPY_TEXT := "That's wonderful! I'm happy for you — want to share what made your day special?"
  const ANGRY_TEXT := "I can hear your frustration. It's okay to feel angry — would you like to describe what's making you feel this way?"
  const TIRED_TEXT := "That sounds exhausting. You deserve rest — is there something small that might help you relax right now?"
  const STRESSED_TEXT := "Stress can be overwhelming. Try taking one small break — maybe a short walk or a few deep breaths. Want to try that now?"
  const MICRO_STEP_TEXT := "Sometimes breaking the situation into tiny steps helps. What is one small thing that would feel doable right now?"

  /** The fixed messages of the chain. */
  datatype Template =
    | NoPressure   // empty input
    | UrgentHelp   // self-harm mentioned
    | SadReply | HappyReply | AngryReply | TiredReply | StressedReply
    | MicroStep    // a "what should i do" question

  function TemplateText(m: Template): string {
    match m
    case NoPressure => NO_PRESSURE_TEXT
    case UrgentHelp => URGENT_HELP_TEXT
    case SadReply => SAD_TEXT
    case HappyReply => HAPPY_TEXT
    case AngryReply => ANGRY_TEXT
    case TiredReply => TIRED_TEXT
    case StressedReply => STRESSED_TEXT
    case MicroStep => MICRO_STEP_TEXT
  }

  /** The phrasings that earn the micro-step reply; they are matched
      against the trimmed text with its case preserved. */
  const MICRO_STEP_PHRASES: seq<string> := ["what should i do", "what do i do", "what should"]

  /** The one fixed reply of each mood, as a table from label to template. */
  const MOOD_REPLIES: map<string, Template> := map[
    "sad" := SadReply,
    "happy" := HappyReply,
    "angry" := AngryReply,
    "tired" := TiredReply,
    "stressed" := StressedReply
  ]

  // ---------------------------------------------------------------------
  // Classifiers
  // ---------------------------------------------------------------------

  /** `list.some(w => t.includes(w))`. */
  function SomeIncluded(t: string, list: seq<string>): bool {
    if list == [] then false
    else Includes(t, list[0]) || SomeIncluded(t, list[1..])
  }

  /** Some keyword of `list` occurs in the lower-cased `text`. */
  ghost predicate Mentions(text: string, list: seq<string>) {
    exists k :: 0 <= k < |list| && Occurs(Lower(text), list[k])
  }

  /** `containsAny(text, list)`. Only the text is lower-cased, never the
      keywords. */
  function ContainsAny(text: string, list: seq<string>): bool {
    SomeIncluded(Lower(text), list)
  }

  /** The label of the first entry whose keywords match, or `None`: the
      early-return search of `detectMood`. */
  function FirstMatch(text: string, entries: seq<(string, seq<string>)>): Option<string> {
    if entries == [] then None
    else if ContainsAny(text, entries[0].1) then Some(entries[0].0)
    else FirstMatch(text, entries[1..])
  }

  /** `detectMood(text)`. */
  function DetectMood(text: string): Option<string> {
    FirstMatch(text, MOOD_KEYWORDS)
  }

  /** Whether the keyword list of the `k`-th mood matches. */
  predicate MoodMatches(text: string, k: nat)
    requires k < |MOOD_KEYWORDS|
  {
    ContainsAny(text, MOOD_KEYWORDS[k].1)
  }

  /** `isQuestion(text)`: a trailing question mark, or a question word. */
  function IsQuestion(text: string): bool {
    var t := Lower(Trim(text));
    if EndsWith(t, "?") then true else ContainsAny(t, QUESTION_WORDS)
  }

  /** `detectSelfHarm(text)`. */
  function DetectSelfHarm(text: string): bool {
    ContainsAny(text, SELF_HARM_KEYWORDS)
  }

  // ---------------------------------------------------------------------
  // The reply chain
  // ---------------------------------------------------------------------

  /** Which step of the chain produced the reply. */
  datatype Branch = EmptyInput | Safety | Mood(name: string) | Question | Fallback

  /** What the bot says: a fixed message, the `index`-th line of the
      suggestive or the empathetic pool, or a reflective echo of `pivot`
      followed by an empathetic line. `Text` spells it out. */
  datatype Say =
    | Fixed(template: Template)
    | Suggestive(index: nat)
    | Empathetic(index: nat)
    | Echo(pivot: string, index: nat)

  datatype Reply = Reply(branch: Branch, say: Say)

  /** Every pool index is inside its pool. */
  predicate Renderable(s: Say) {
    match s
    case Fixed(_) => true
    case Suggestive(k) => k < |SUGGESTIVE_ANSWERS|
    case Empathetic(k) => k < |EMPATHETIC_FALLBACK|
    case Echo(_, k) => k < |EMPATHETIC_FALLBACK|
  }

  /** The message string the bot emits. */
  function Text(s: Say): string
    requires Renderable(s)
  {
    match s
    case Fixed(m) => TemplateText(m)
    case Suggestive(k) => SUGGESTIVE_ANSWERS[k]
    case Empathetic(k) => EMPATHETIC_FALLBACK[k]
    case Echo(p, k) => "It sounds like " + p + " is important to you. " + EMPATHETIC_FALLBACK[k]
  }

  /** The values the chain draws from `Math.random()`: the 0.35 coin of the
      fallback, and the indices `Math.floor(Math.random() * n)` into the
      suggestive answers, the echo candidates and the empathetic fallbacks. */
  datatype Draws = Draws(coin: bool, answer: nat, pivot: nat, comfort: nat)

  /** `(userText || '').trim()`; `None` stands for a null or undefined input. */
  function Normalize(userText: Option<string>): string {
    match userText
    case None => ""
    case Some(s) => Trim(s)
  }

  /** The echo candidates: the pieces of `t.split(' ')` longer than two
      characters. */
  function EchoWords(t: string): seq<string> {
    LongWords(Split(t, ' '))
  }

  /** `Math.min(words.length, 4)`: how many candidates the pick ranges over. */
  function PivotSpan(t: string): nat {
    var n := |EchoWords(t)|;
    if n < 4 then n else 4
  }

  /** The draws a random source can produce for the trimmed text `t`:
      each index below its pool's size, the pivot below `PivotSpan(t)`,
      or 0 when that span is empty. */
  predicate DrawsFit(d: Draws, t: string) {
    && d.answer < |SUGGESTIVE_ANSWERS|
    && d.comfort < |EMPATHETIC_FALLBACK|
    && (d.pivot < PivotSpan(t) || d.pivot == 0)
  }

  /** `words[p] || 'that'`. */
  function Pivot(words: seq<string>, p: nat): string {
    if p < |words| && words[p] != "" then words[p] else "that"
  }

  /** The fallback step: a reflective echo when the coin came up and the
      text splits into more than three pieces, a plain empathetic line
      otherwise. */
  function FallbackSay(t: string, d: Draws): Say {
    if d.coin && |Split(t, ' ')| > 3 then Echo(Pivot(EchoWords(t), d.pivot), d.comfort)
    else Empathetic(d.comfort)
  }

  /** What the classifiers report about the trimmed text `t`. The chain
      consults them one after another and stops at the first that fires;
      they have no side effects, so reading them all up front gives the same
      replies. */
  datatype Cues = Cues(selfHarm: bool, mood: Option<string>, question: bool, microStep: bool)

  function ReadCues(t: string): Cues {
    Cues(DetectSelfHarm(t), DetectMood(t), IsQuestion(t), AsksWhatToDo(t))
  }

  /** The test of the question step for a "what should i do" phrasing,
      made on the trimmed text with its case preserved. */
  function AsksWhatToDo(t: string): bool {
    Includes(t, MICRO_STEP_PHRASES[0]) || Includes(t, MICRO_STEP_PHRASES[1]) || Includes(t, MICRO_STEP_PHRASES[2])
  }

  /** The priority chain of `botReply`: empty guard, self-harm, the five mood
      tests (the first also accepting a 'lonely' label), question, fallback. */
  function Respond(t: string, c: Cues, d: Draws): Reply {
    if t == "" then Reply(EmptyInput, Fixed(NoPressure))
    else if c.selfHarm then Reply(Safety, Fixed(UrgentHelp))
    else if c.mood == Some("sad") || c.mood == Some("lonely") then Reply(Mood(c.mood.value), Fixed(SadReply))
    else if c.mood == Some("happy") then Reply(Mood("happy"), Fixed(HappyReply))
    else if c.mood == Some("angry") then Reply(Mood("angry"), Fixed(AngryReply))
    else if c.mood == Some("tired") then Reply(Mood("tired"), Fixed(TiredReply))
    else if c.mood == Some("stressed") then Reply(Mood("stressed"), Fixed(StressedReply))
    else if c.question then Reply(Question, if c.microStep then Fixed(MicroStep) else Suggestive(d.answer))
    else Reply(Fallback, FallbackSay(t, d))
  }

  /** `botReply(userText)`: what it would emit, and from which step. */
  function BotReply(userText: Option<string>, d: Draws): Reply
    requires DrawsFit(d, Normalize(userText))
  {
    var t := Normalize(userText);
    Respond(t, ReadCues(t), d)
  }

  /** The message string `botReply` hands on for display. */
  function BotMessage(userText: Option<string>, d: Draws): (m: string)
    requires DrawsFit(d, Normalize(userText))
  {
    BotReplyRenderable(userText, d);
    Text(BotReply(userText, d).say)
  }

  // ---------------------------------------------------------------------
  // Properties of the classifiers
  // ---------------------------------------------------------------------

  /** `some` over `includes` holds exactly when some keyword occurs. */
  lemma {:induction false} SomeIncludedSpec(t: string, list: seq<string>)
    ensures SomeIncluded(t, list) <==> exists k :: 0 <= k < |list| && Occurs(t, list[k])
  {
    if list != [] {
      IncludesSpec(t, list[0]);
      SomeIncludedSpec(t, list[1..]);
      assert forall k :: 1 <= k < |list| ==> list[k] == list[1..][k - 1];
    }
  }

  /** `containsAny(text, list)` is true exactly when some keyword of the list
      occurs in the lower-cased text; an empty list never matches. */
  lemma ContainsAnySpec(text: string, list: seq<string>)
    ensures ContainsAny(text, list) <==> Mentions(text, list)
    ensures list == [] ==> !ContainsAny(text, list)
  {
    SomeIncludedSpec(Lower(text), list);
  }

  /** The first-match search answers `None` exactly when no entry matches,
      and otherwise the label of a matching entry that no earlier entry
      precedes in matching. */
  lemma {:induction false} FirstMatchSpec(text: string, entries: seq<(string, seq<string>)>)
    ensures FirstMatch(text, entries).None?
            <==> forall k :: 0 <= k < |entries| ==> !ContainsAny(text, entries[k].1)
    ensures FirstMatch(text, entries).Some? ==>
              exists k :: && 0 <= k < |entries|
                          && entries[k].0 == FirstMatch(text, entries).value
                          && ContainsAny(text, entries[k].1)
                          && forall j :: 0 <= j < k ==> !ContainsAny(text, entries[j].1)
  {
    if entries != [] && !ContainsAny(text, entries[0].1) {
      var rest := entries[1..];
      FirstMatchSpec(text, rest);
      assert forall k :: 1 <= k < |entries| ==> entries[k] == rest[k - 1];
      var r := FirstMatch(text, entries);
      if r.Some? {
        var k :| && 0 <= k < |rest| && rest[k].0 == r.value
                 && ContainsAny(text, rest[k].1)
                 && forall j :: 0 <= j < k ==> !ContainsAny(text, rest[j].1);
        forall j | 0 <= j < k + 1 ensures !ContainsAny(text, entries[j].1) {
          if j > 0 {
            assert entries[j] == rest[j - 1];
          }
        }
        assert entries[k + 1].0 == r.value && ContainsAny(text, entries[k + 1].1);
      }
    } else if entries != [] {
      assert entries[0].0 == FirstMatch(text, entries).value;
    }
  }

  /** Whatever the first-match search answers is one of the labels. */
  lemma {:induction false} FirstMatchLabel(text: string, entries: seq<(string, seq<string>)>)
    ensures FirstMatch(text, entries).Some? ==>
              exists k :: 0 <= k < |entries| && entries[k].0 == FirstMatch(text, entries).value
  {
    if entries != [] && !ContainsAny(text, entries[0].1) {
      FirstMatchLabel(text, entries[1..]);
      if FirstMatch(text, entries).Some? {
        var k :| 0 <= k < |entries| - 1 && entries[1..][k].0 == FirstMatch(text, entries).value;
        assert entries[k + 1] == entries[1..][k];
      }
    } else if entries != [] {
      assert entries[0].0 == FirstMatch(text, entries).value;
    }
  }

  /** `detectMood` returns the label of the `k`-th mood exactly when that
      mood's keywords match and no earlier mood's do; it returns null
      exactly when no mood matches. */
  lemma DetectMoodFirstMatch(text: string, k: nat)
    requires k < |MOOD_KEYWORDS|
    ensures DetectMood(text) == Some(MOOD_KEYWORDS[k].0)
            <==> MoodMatches(text, k) && forall j :: 0 <= j < k ==> !MoodMatches(text, j)
    ensures DetectMood(text) == None
            <==> forall j :: 0 <= j < |MOOD_KEYWORDS| ==> !MoodMatches(text, j)
  {
    FirstMatchSpec(text, MOOD_KEYWORDS);
    var r := DetectMood(text);
    if r.Some? {
      var i :| && 0 <= i < |MOOD_KEYWORDS| && MOOD_KEYWORDS[i].0 == r.value
               && MoodMatches(text, i) && forall j :: 0 <= j < i ==> !MoodMatches(text, j);
      assert MOOD_KEYWORDS[i].0 == MOOD_KEYWORDS[k].0 <==> i == k;
    }
  }

  /** `detectMood` only ever answers with one of the five declared labels,
      each of which has a reply template; in particular it never answers
      'lonely', so the `mood === 'lonely'` test of the reply chain is dead. */
  lemma DetectMoodLabels(text: string)
    ensures DetectMood(text).Some? ==> DetectMood(text).value in MOOD_REPLIES
    ensures DetectMood(text) != Some("lonely")
  {
    FirstMatchLabel(text, MOOD_KEYWORDS);
  }

  /** `isQuestion` in plain terms: the trimmed text ends with '?' (the
      lower-casing cannot create or remove one), or a question word occurs
      in it once lower-cased (lower-casing a second time changes nothing). */
  lemma IsQuestionSpec(text: string)
    ensures IsQuestion(text) <==> EndsWith(Trim(text), "?") || Mentions(Trim(text), QUESTION_WORDS)
  {
    var t := Trim(text);
    LowerIdempotent(t);
    ContainsAnySpec(Lower(t), QUESTION_WORDS);
    if t != [] {
      assert Lower(t)[|t| - 1] == '?' <==> t[|t| - 1] == '?';
    }
  }

  /** `detectSelfHarm` flags a text exactly when one of the self-harm
      phrases occurs in it, whatever the letter case of the text. */
  lemma DetectSelfHarmSpec(text: string)
    ensures DetectSelfHarm(text) <==> Mentions(text, SELF_HARM_KEYWORDS)
    ensures DetectSelfHarm(text) == DetectSelfHarm(Lower(text))
  {
    ContainsAnySpec(text, SELF_HARM_KEYWORDS);
    LowerIdempotent(text);
  }

  // ---------------------------------------------------------------------
  // Properties of the reply chain
  // ---------------------------------------------------------------------

  /** The input is missing or consists of white space only. */
  ghost predicate Blank(userText: Option<string>) {
    userText.None? || forall i :: 0 <= i < |userText.value| ==> IsSpace(userText.value[i])
  }

  lemma NormalizeBlank(userText: Option<string>)
    ensures Normalize(userText) == "" <==> Blank(userText)
  {
    if userText.Some? {
      TrimEmptyIffBlank(userText.value);
    }
  }

  /** The chain on given cues, step by step: each step is reached exactly
      when the earlier ones did not fire and its own cue holds; the five
      mood tests amount to one lookup in the table of mood templates, for
      any label `detectMood` can return; and the drawn indices are the only
      thing that can fall outside a pool. */
  lemma RespondSteps(t: string, c: Cues, d: Draws)
    requires c.mood.Some? ==> c.mood.value in MOOD_REPLIES
    ensures Respond(t, c, d).branch == EmptyInput <==> t == ""
    ensures Respond(t, c, d).say == Fixed(NoPressure) <==> t == ""
    ensures Respond(t, c, d).branch == Safety <==> t != "" && c.selfHarm
    ensures Respond(t, c, d).say == Fixed(UrgentHelp) <==> Respond(t, c, d).branch == Safety
    ensures Respond(t, c, d).branch.Mood? <==> t != "" && !c.selfHarm && c.mood.Some?
    ensures Respond(t, c, d).branch.Mood? ==>
              && Respond(t, c, d).branch.name == c.mood.value
              && Respond(t, c, d).say == Fixed(MOOD_REPLIES[c.mood.value])
    ensures Respond(t, c, d).branch == Question <==> t != "" && !c.selfHarm && c.mood.None? && c.question
    ensures Respond(t, c, d).say == Fixed(MicroStep) <==> Respond(t, c, d).branch == Question && c.microStep
    ensures Respond(t, c, d).branch == Question && !c.microStep ==> Respond(t, c, d).say == Suggestive(d.answer)
    ensures Respond(t, c, d).branch == Fallback <==> t != "" && !c.selfHarm && c.mood.None? && !c.question
    ensures Respond(t, c, d).branch == Fallback ==> Respond(t, c, d).say == FallbackSay(t, d)
    ensures d.answer < |SUGGESTIVE_ANSWERS| && d.comfort < |EMPATHETIC_FALLBACK| ==> Renderable(Respond(t, c, d).say)
  {
  }

  /** Every pool index the chain uses is inside its pool, so the message
      can be spelled out. */
  lemma BotReplyRenderable(userText: Option<string>, d: Draws)
    requires DrawsFit(d, Normalize(userText))
    ensures Renderable(BotReply(userText, d).say)
  {
    var t := Normalize(userText);
    DetectMoodLabels(t);
    RespondSteps(t, ReadCues(t), d);
  }

  /** Empty guard: a missing or all-white-space input, and only such an
      input, gets the fixed "type whenever you're ready" message, whatever
      the draws. */
  lemma EmptyGuard(userText: Option<string>, d: Draws)
    requires DrawsFit(d, Normalize(userText))
    ensures BotReply(userText, d).branch == EmptyInput <==> Blank(userText)
    ensures BotReply(userText, d).say == Fixed(NoPressure) <==> Blank(userText)
  {
    var t := Normalize(userText);
    NormalizeBlank(userText);
    DetectMoodLabels(t);
    RespondSteps(t, ReadCues(t), d);
  }

  /** Safety first: a non-blank input that mentions a self-harm keyword
      (case-insensitively) gets the fixed urgent message, whatever mood or
      question cues it also carries; no other input gets that message. */
  lemma SafetyFirst(userText: Option<string>, d: Draws)
    requires DrawsFit(d, Normalize(userText))
    ensures BotReply(userText, d).branch == Safety
            <==> !Blank(userText) && Mentions(Normalize(userText), SELF_HARM_KEYWORDS)
    ensures BotReply(userText, d).say == Fixed(UrgentHelp) <==> BotReply(userText, d).branch == Safety
  {
    var t := Normalize(userText);
    NormalizeBlank(userText);
    DetectMoodLabels(t);
    RespondSteps(t, ReadCues(t), d);
    ContainsAnySpec(t, SELF_HARM_KEYWORDS);
  }

  /** Mood step: reached exactly when the input is not blank, mentions no
      self-harm keyword and matches some mood; the reply is then the fixed
      template of the mood `detectMood` picked, whatever the draws. */
  lemma MoodStep(userText: Option<string>, d: Draws)
    requires DrawsFit(d, Normalize(userText))
    ensures BotReply(userText, d).branch.Mood?
            <==> && !Blank(userText)
                 && !Mentions(Normalize(userText), SELF_HARM_KEYWORDS)
                 && exists k :: 0 <= k < |MOOD_KEYWORDS| && MoodMatches(Normalize(userText), k)
    ensures BotReply(userText, d).branch.Mood? ==>
              && DetectMood(Normalize(userText)) == Some(BotReply(userText, d).branch.name)
              && BotReply(userText, d).branch.name in MOOD_REPLIES
              && BotReply(userText, d).say == Fixed(MOOD_REPLIES[BotReply(userText, d).branch.name])
  {
    var t := Normalize(userText);
    NormalizeBlank(userText);
    DetectMoodLabels(t);
    RespondSteps(t, ReadCues(t), d);
    ContainsAnySpec(t, SELF_HARM_KEYWORDS);
    DetectMoodFirstMatch(t, 0);
  }

  /** Question step: reached exactly when no earlier step fired and the text
      is a question. The fixed micro-step message is given exactly when, in
      addition, the trimmed text, case preserved, contains one of the "what
      should i do" phrasings; any other question gets the drawn suggestive
      answer. */
  lemma QuestionStep(userText: Option<string>, d: Draws)
    requires DrawsFit(d, Normalize(userText))
    ensures BotReply(userText, d).branch == Question
            <==> && !Blank(userText)
                 && !Mentions(Normalize(userText), SELF_HARM_KEYWORDS)
                 && DetectMood(Normalize(userText)) == None
                 && IsQuestion(Normalize(userText))
    ensures BotReply(userText, d).say == Fixed(MicroStep)
            <==> && BotReply(userText, d).branch == Question
                 && exists k :: 0 <= k < |MICRO_STEP_PHRASES| && Occurs(Normalize(userText), MICRO_STEP_PHRASES[k])
    ensures BotReply(userText, d).branch == Question && BotReply(userText, d).say != Fixed(MicroStep)
            ==> BotReply(userText, d).say == Suggestive(d.answer)
  {
    var t := Normalize(userText);
    NormalizeBlank(userText);
    DetectMoodLabels(t);
    RespondSteps(t, ReadCues(t), d);
    ContainsAnySpec(t, SELF_HARM_KEYWORDS);
    IncludesSpec(t, MICRO_STEP_PHRASES[0]);
    IncludesSpec(t, MICRO_STEP_PHRASES[1]);
    IncludesSpec(t, MICRO_STEP_PHRASES[2]);
  }

  /** Fallback step: reached exactly when no earlier step fired. With the
      coin up and more than three space-separated pieces (more than two
      spaces) the reply echoes a pivot word before the drawn empathetic
      line; otherwise it is the drawn empathetic line alone. */
  lemma FallbackStep(userText: Option<string>, d: Draws)
    requires DrawsFit(d, Normalize(userText))
    ensures BotReply(userText, d).branch == Fallback
            <==> && !Blank(userText)
                 && !Mentions(Normalize(userText), SELF_HARM_KEYWORDS)
                 && DetectMood(Normalize(userText)) == None
                 && !IsQuestion(Normalize(userText))
    ensures BotReply(userText, d).branch == Fallback ==>
              BotReply(userText, d).say
                == if d.coin && CountChar(Normalize(userText), ' ') > 2
                   then Echo(Pivot(EchoWords(Normalize(userText)), d.pivot), d.comfort)
                   else Empathetic(d.comfort)
  {
    var t := Normalize(userText);
    NormalizeBlank(userText);
    DetectMoodLabels(t);
    RespondSteps(t, ReadCues(t), d);
    ContainsAnySpec(t, SELF_HARM_KEYWORDS);
    SplitCount(t, ' ');
  }

  /** The echoed pivot is one of the first min(4, n) echo candidates (pieces
      of more than two characters, hence free of spaces), or "that" when
      there is no candidate. */
  lemma PivotChoice(t: string, d: Draws)
    requires DrawsFit(d, t)
    ensures EchoWords(t) == [] ==> Pivot(EchoWords(t), d.pivot) == "that"
    ensures EchoWords(t) != [] ==>
              && Pivot(EchoWords(t), d.pivot) in EchoWords(t)[..PivotSpan(t)]
              && |Pivot(EchoWords(t), d.pivot)| > 2
              && ' ' !in Pivot(EchoWords(t), d.pivot)
  {
    var ws := EchoWords(t);
    if ws != [] {
      assert d.pivot < PivotSpan(t);
      LongWordsMembers(Split(t, ' '), ws[d.pivot]);
      SplitPiecesFree(t, ' ', ws[d.pivot]);
    }
  }

  lemma RespondBranchIgnoresDraws(t: string, c: Cues, d1: Draws, d2: Draws)
    ensures Respond(t, c, d1).branch == Respond(t, c, d2).branch
  {
  }

  /** The branch a turn takes depends on the text alone, never on the draws. */
  lemma BranchIgnoresDraws(userText: Option<string>, d1: Draws, d2: Draws)
    requires DrawsFit(d1, Normalize(userText)) && DrawsFit(d2, Normalize(userText))
    ensures BotReply(userText, d1).branch == BotReply(userText, d2).branch
  {
    var t := Normalize(userText);
    RespondBranchIgnoresDraws(t, ReadCues(t), d1, d2);
  }

  // ---------------------------------------------------------------------
  // Properties of the message texts
  // ---------------------------------------------------------------------

  /** The five mood templates are pairwise different messages, so the reply
      alone tells which mood was detected. */
  lemma MoodTextsDistinct()
    ensures var texts := [SAD_TEXT, HAPPY_TEXT, ANGRY_TEXT, TIRED_TEXT, STRESSED_TEXT];
            forall i, j :: 0 <= i < j < |texts| ==> texts[i] != texts[j]
  {
    assert |SAD_TEXT| == 112 && |HAPPY_TEXT| == 79 && |ANGRY_TEXT| == 114
        && |TIRED_TEXT| == 104 && |STRESSED_TEXT| == 120;
  }

  /** The prompt for empty input is no other template's message. */
  lemma NoPressureUnlikeTemplates(m: Template)
    requires m != NoPressure
    ensures TemplateText(m) != NO_PRESSURE_TEXT
  {
    assert |NO_PRESSURE_TEXT| == 47;
    match m
    case UrgentHelp => assert |URGENT_HELP_TEXT| == 414;
    case SadReply => assert |SAD_TEXT| == 112;
    case HappyReply => assert |HAPPY_TEXT| == 79;
    case AngryReply => assert |ANGRY_TEXT| == 114;
    case TiredReply => assert |TIRED_TEXT| == 104;
    case StressedReply => assert |STRESSED_TEXT| == 120;
    case MicroStep => assert |MICRO_STEP_TEXT| == 113;
  }

  /** The prompt for empty input is none of the suggestive answers. */
  lemma NoPressureNotSuggestive()
    ensures NO_PRESSURE_TEXT !in SUGGESTIVE_ANSWERS
  {
    assert |NO_PRESSURE_TEXT| == 47;
    assert |SUGGESTIVE_ANSWERS[0]| == 68 && |SUGGESTIVE_ANSWERS[1]| == 55 && |SUGGESTIVE_ANSWERS[2]| == 82;
  }

  /** The prompt for empty input is none of the empathetic lines. The last
      line has the same length: the two differ where "whenever" and "when"
      end, just before their common ending " you're ready.". */
  lemma NoPressureNotEmpathetic()
    ensures NO_PRESSURE_TEXT !in EMPATHETIC_FALLBACK
  {
    assert |NO_PRESSURE_TEXT| == 47;
    assert |EMPATHETIC_FALLBACK[0]| == 11 && |EMPATHETIC_FALLBACK[1]| == 34
        && |EMPATHETIC_FALLBACK[2]| == 18 && |EMPATHETIC_FALLBACK[3]| == 27;
    assert NO_PRESSURE_TEXT[32] == 'r' && EMPATHETIC_FALLBACK[4][32] == 'n';
  }

  /** No renderable reply other than the empty-input prompt spells out the
      prompt's text. */
  lemma NoPressureTextUnique(s: Say)
    requires Renderable(s)
    ensures Text(s) == NO_PRESSURE_TEXT <==> s == Fixed(NoPressure)
  {
    match s
    case Fixed(m) =>
      if m != NoPressure { NoPressureUnlikeTemplates(m); }
    case Suggestive(k) =>
      NoPressureNotSuggestive();
    case Empathetic(k) =>
      NoPressureNotEmpathetic();
    case Echo(p, k) =>
      assert |NO_PRESSURE_TEXT| == 47;
      assert |EMPATHETIC_FALLBACK[k]| >= 11;
  }

  /** The message shown is the empty-input prompt exactly when the input is
      missing or blank, whatever the draws: no other step ever emits it. */
  lemma NoPressureOnlyForBlank(userText: Option<string>, d: Draws)
    requires DrawsFit(d, Normalize(userText))
    ensures BotMessage(userText, d) == NO_PRESSURE_TEXT <==> Blank(userText)
  {
    EmptyGuard(userText, d);
    BotReplyRenderable(userText, d);
    NoPressureTextUnique(BotReply(userText, d).say);
  }
}
