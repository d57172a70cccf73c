/** Worked examples of the reply engine on concrete messages. */
module ChaeezeExamples {
  import opened JsString
  import opened Chaeeze

  // ---------------------------------------------------------------------
  // Ruling keywords out
  // ---------------------------------------------------------------------

  /** Why a keyword cannot occur in a lower-cased text: one of its
      characters is missing from the text, or two of its neighbouring
      characters never stand side by side in it. */
  datatype Absence = Char(at: nat) | Pair(at: nat)

  predicate RuledOut(lowered: string, w: string, a: Absence) {
    match a
    case Char(k) => k < |w| && w[k] !in lowered
    case Pair(k) =>
      && k + 1 < |w|
      && forall i :: 0 <= i < |lowered| - 1 ==> !(lowered[i] == w[k] && lowered[i + 1] == w[k + 1])
  }

  /** A text mentions none of the keywords when each is ruled out. */
  lemma NoneMentioned(text: string, lowered: string, list: seq<string>, why: seq<Absence>)
    requires Lower(text) == lowered
    requires |why| == |list|
    requires forall k :: 0 <= k < |list| ==> RuledOut(lowered, list[k], why[k])
    ensures !Mentions(text, list)
  {
    forall k | 0 <= k < |list| ensures !Occurs(lowered, list[k]) {
      match why[k]
      case Char(j) => AbsentCharRulesOut(lowered, list[k], j);
      case Pair(j) => AbsentPairRulesOut(lowered, list[k], j);
    }
  }

  // ---------------------------------------------------------------------
  // isQuestion
  // ---------------------------------------------------------------------

  const HOW_ARE_YOU := "How are you"
  const FINE := "Fine."

  lemma HowAreYouMentionsHow()
    ensures Mentions(HOW_ARE_YOU, QUESTION_WORDS)
  {
    assert Lower(HOW_ARE_YOU) == "how are you";
    assert OccursAt(Lower(HOW_ARE_YOU), QUESTION_WORDS[1], 0);
  }

  /** "How are you" has no question mark but contains the question word
      "how" once lower-cased. */
  lemma HowAreYouIsQuestion()
    ensures IsQuestion(HOW_ARE_YOU)
  {
    TrimNoop(HOW_ARE_YOU);
    HowAreYouMentionsHow();
    IsQuestionSpec(HOW_ARE_YOU);
  }

  /** "Fine." has neither a question mark nor a question word. */
  lemma FineIsNoQuestion()
    ensures !IsQuestion(FINE)
  {
    TrimNoop(FINE);
    assert Lower(FINE) == "fine.";
    NoneMentioned(FINE, "fine.", QUESTION_WORDS,
      [Char(0), Char(0), Char(0), Char(0), Char(0), Char(0), Char(0), Char(0), Char(0), Char(0)]);
    IsQuestionSpec(FINE);
  }

  // ---------------------------------------------------------------------
  // detectMood
  // ---------------------------------------------------------------------

  const SAD_AND_HAPPY := "I am sad and happy"

  /** With both "sad" and "happy" present, the earlier-declared mood wins. */
  lemma SadBeatsHappy()
    ensures DetectMood(SAD_AND_HAPPY) == Some("sad")
  {
    assert OccursAt(Lower(SAD_AND_HAPPY), MOOD_KEYWORDS[0].1[0], 5);
    ContainsAnySpec(SAD_AND_HAPPY, MOOD_KEYWORDS[0].1);
    DetectMoodFirstMatch(SAD_AND_HAPPY, 0);
  }

  // ---------------------------------------------------------------------
  // botReply
  // ---------------------------------------------------------------------

  const LONELY := "sad and lonely"

  lemma LonelyNoSelfHarm()
    ensures !Mentions(LONELY, SELF_HARM_KEYWORDS)
  {
    LowerOfLower(LONELY);
    NoneMentioned(LONELY, LONELY, SELF_HARM_KEYWORDS,
      [Char(1), Char(0), Char(4), Char(0), Char(0), Char(1), Char(0), Char(0), Char(0), Char(0)]);
  }

  lemma LonelyIsSad()
    ensures MoodMatches(LONELY, 0)
  {
    LowerOfLower(LONELY);
    assert OccursAt(LONELY, MOOD_KEYWORDS[0].1[0], 0);
    ContainsAnySpec(LONELY, MOOD_KEYWORDS[0].1);
  }

  /** "lonely" is a keyword of the sad mood: the reply is the sad template
      under the label "sad", whatever the draws. */
  lemma LonelyGetsSadReply(d: Draws)
    requires DrawsFit(d, Normalize(Some(LONELY)))
    ensures BotReply(Some(LONELY), d) == Reply(Mood("sad"), Fixed(SadReply))
  {
    TrimNoop(LONELY);
    NormalizeBlank(Some(LONELY));
    LonelyNoSelfHarm();
    LonelyIsSad();
    DetectMoodFirstMatch(LONELY, 0);
    MoodStep(Some(LONELY), d);
  }

  const WANT_TO_DIE := "so sad I want to die"

  lemma WantToDieIsSelfHarm()
    ensures Mentions(WANT_TO_DIE, SELF_HARM_KEYWORDS)
  {
    assert Lower(WANT_TO_DIE) == "so sad i want to die";
    assert OccursAt(Lower(WANT_TO_DIE), SELF_HARM_KEYWORDS[6], 9);
  }

  /** A self-harm phrase overrides the sad mood the same text carries. */
  lemma SafetyBeatsMood(d: Draws)
    requires DrawsFit(d, Normalize(Some(WANT_TO_DIE)))
    ensures BotReply(Some(WANT_TO_DIE), d) == Reply(Safety, Fixed(UrgentHelp))
  {
    TrimNoop(WANT_TO_DIE);
    NormalizeBlank(Some(WANT_TO_DIE));
    WantToDieIsSelfHarm();
    SafetyFirst(Some(WANT_TO_DIE), d);
  }

  const CAPITAL_WHAT := "What should I do?"
  const SMALL_WHAT := "what should I do?"

  /** None of the micro-step phrases occurs in "What should I do?": each
      starts with a lower-case w, and the text has only a capital one. */
  lemma CapitalWhatLacksPhrases()
    ensures forall k :: 0 <= k < |MICRO_STEP_PHRASES| ==> !Occurs(CAPITAL_WHAT, MICRO_STEP_PHRASES[k])
  {
    AbsentCharRulesOut(CAPITAL_WHAT, MICRO_STEP_PHRASES[0], 0);
    AbsentCharRulesOut(CAPITAL_WHAT, MICRO_STEP_PHRASES[1], 0);
    AbsentCharRulesOut(CAPITAL_WHAT, MICRO_STEP_PHRASES[2], 0);
  }

  /** The micro-step phrases are looked for with case preserved: the cue is
      off for a capital W. */
  lemma CapitalWhatIsNoMicroStep()
    ensures !AsksWhatToDo(CAPITAL_WHAT)
  {
    CapitalWhatLacksPhrases();
    IncludesSpec(CAPITAL_WHAT, MICRO_STEP_PHRASES[0]);
    IncludesSpec(CAPITAL_WHAT, MICRO_STEP_PHRASES[1]);
    IncludesSpec(CAPITAL_WHAT, MICRO_STEP_PHRASES[2]);
  }

  lemma CapitalWhatIsQuestion()
    ensures IsQuestion(CAPITAL_WHAT)
  {
    TrimNoop(CAPITAL_WHAT);
    IsQuestionSpec(CAPITAL_WHAT);
  }

  /** "What should I do?" never gets the micro-step reply, whatever the
      draws: once it reaches the question step, the reply is the drawn
      suggestive answer. */
  lemma CapitalWhatGetsNoMicroStep(d: Draws)
    requires DrawsFit(d, Normalize(Some(CAPITAL_WHAT)))
    ensures BotReply(Some(CAPITAL_WHAT), d).say != Fixed(MicroStep)
    ensures BotReply(Some(CAPITAL_WHAT), d).branch == Question
            ==> BotReply(Some(CAPITAL_WHAT), d).say == Suggestive(d.answer)
  {
    TrimNoop(CAPITAL_WHAT);
    CapitalWhatLacksPhrases();
    QuestionStep(Some(CAPITAL_WHAT), d);
  }

  /** The same question with a lower-case w finds "what should". */
  lemma SmallWhatIsMicroStep()
    ensures AsksWhatToDo(SMALL_WHAT)
  {
    assert OccursAt(SMALL_WHAT, MICRO_STEP_PHRASES[2], 0);
    IncludesSpec(SMALL_WHAT, MICRO_STEP_PHRASES[2]);
  }

  const SEA := "we saw the sea"

  lemma SeaPieces()
    ensures Split(SEA, ' ') == ["we", "saw", "the", "sea"]
  {
    var ws := ["we", "saw", "the", "sea"];
    assert Join(ws[3..], ' ') == "sea";
    assert Join(ws[2..], ' ') == "the sea";
    assert Join(ws[1..], ' ') == "saw the sea";
    assert Join(ws, ' ') == SEA;
    SplitJoin(ws, ' ');
  }

  lemma SeaEchoWords()
    ensures EchoWords(SEA) == ["saw", "the", "sea"]
  {
    SeaPieces();
    var ws := ["we", "saw", "the", "sea"];
    assert LongWords(ws[3..]) == ["sea"];
    assert LongWords(ws[2..]) == ["the", "sea"];
    assert LongWords(ws[1..]) == ["saw", "the", "sea"];
  }

  /** With the coin up, a plain statement of four pieces that reaches the
      fallback echoes the echo candidate the draw picks: the candidates are
      "saw", "the" and "sea", and pick 2 is "sea". */
  lemma SeaEcho(d: Draws)
    requires d == Draws(true, 0, 2, 0)
    ensures FallbackSay(SEA, d) == Echo("sea", 0)
  {
    SeaPieces();
    SeaEchoWords();
    var ws := EchoWords(SEA);
    assert ws[2] == "sea";
  }
}
