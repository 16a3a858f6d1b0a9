/** `analyze_sentiment_and_generate`: check that the models are loaded and
    the prompt is not blank, classify the first 512 characters, fall back to
    NEUTRAL below the confidence threshold, template the full prompt with the
    final label, generate, and clean the generated text.

    The two models are opaque: the classifier is a function from text to a
    label and a score, and the generator is a function from an instruction
    and `max_new_tokens` to text. The generator samples, so a call may give
    any text; passing it in as a parameter lets every statement below hold
    for whatever text it produced. */
module Pipeline {
  import opened Wrappers
  import opened Text
  import opened Prompt
  import opened Cleanup

  /** The top result of the classifier: its label and confidence score. */
  datatype Prediction = Prediction(predicted: string, score: real)

  /** The loaded models: the sentiment classifier and the text generator. */
  datatype Models = Models(sentiment: string -> Prediction, generator: (string, int) -> string)

  const ErrorLabel: string := "ERROR"
  const NeutralLabel: string := "NEUTRAL"
  const ModelsNotLoaded: string := "Models not loaded."
  const EmptyPromptMessage: string := "Please provide a prompt."

  /** Number of leading characters of the prompt given to the classifier. */
  const ClassifierWindow: nat := 512

  /** Below this score the classifier's label is not trusted. */
  const ConfidenceThreshold: real := 0.75

  /** `max_length` when the caller gives none. */
  const DefaultMaxLength: int := 200

  /** `prompt[:512]`: the whole prompt when it is short enough, otherwise its
      first 512 characters. */
  function ClassifierInput(prompt: string): (r: string)
    ensures |prompt| <= ClassifierWindow ==> r == prompt
    ensures |prompt| > ClassifierWindow ==> |r| == ClassifierWindow
    ensures r == prompt[..|r|]
  {
    if |prompt| <= ClassifierWindow then prompt else prompt[..ClassifierWindow]
  }

  /** The label kept after the confidence check. */
  function FinalLabel(p: Prediction): (final: string)
    ensures p.score < ConfidenceThreshold ==> final == NeutralLabel
    ensures p.score >= ConfidenceThreshold ==> final == p.predicted
  {
    if p.score < ConfidenceThreshold then NeutralLabel else p.predicted
  }

  /** The label is NEUTRAL exactly when the score is below the threshold or
      the classifier itself said NEUTRAL; a score of exactly 0.75 keeps the
      classifier's label. */
  lemma FinalLabelNeutralIff(p: Prediction)
    ensures FinalLabel(p) == NeutralLabel <==> p.score < 0.75 || p.predicted == NeutralLabel
    ensures p.score == 0.75 ==> FinalLabel(p) == p.predicted
  {
  }

  /** `analyze_sentiment_and_generate(models, prompt, max_length)`, returning
      the label and the cleaned text. `None` is the missing model set. */
  function AnalyzeSentimentAndGenerate(models: Option<Models>, prompt: string, maxLength: int := DefaultMaxLength): (r: (string, string))
    ensures models.None? ==> r == (ErrorLabel, ModelsNotLoaded)
    ensures models.Some? && IsBlank(prompt) ==> r == (NeutralLabel, EmptyPromptMessage)
    ensures models.Some? && !IsBlank(prompt) ==>
      && r.0 == FinalLabel(models.value.sentiment(ClassifierInput(prompt)))
      && r.1 == Clean(models.value.generator(CraftPrompt(prompt, r.0), maxLength))
    ensures models.Some? && !IsBlank(prompt) ==>
      && MarkerFree(r.1)
      && (r.1 == [] || (!IsWhitespace(r.1[0]) && !IsWhitespace(r.1[|r.1| - 1])))
  {
    if models.None? then (ErrorLabel, ModelsNotLoaded)
    else if Strip(prompt) == [] then (NeutralLabel, EmptyPromptMessage)
    else
      var m := models.value;
      var prediction := m.sentiment(ClassifierInput(prompt));
      var final := FinalLabel(prediction);
      var generated := m.generator(CraftPrompt(prompt, final), maxLength);
      (final, Clean(generated))
  }

  /** A blank prompt invokes neither model: any two model sets give the same
      answer. */
  lemma BlankPromptInvokesNoModel(m1: Models, m2: Models, prompt: string, maxLength: int)
    requires IsBlank(prompt)
    ensures AnalyzeSentimentAndGenerate(Some(m1), prompt, maxLength) == AnalyzeSentimentAndGenerate(Some(m2), prompt, maxLength)
  {
  }

  /** The classifier sees only `prompt[:512]`: two classifiers that agree on
      that window give the same answer, whatever they do on longer text. */
  lemma ClassifierSeesOnlyWindow(c1: string -> Prediction, c2: string -> Prediction, g: (string, int) -> string, prompt: string, maxLength: int)
    requires c1(ClassifierInput(prompt)) == c2(ClassifierInput(prompt))
    ensures AnalyzeSentimentAndGenerate(Some(Models(c1, g)), prompt, maxLength) == AnalyzeSentimentAndGenerate(Some(Models(c2, g)), prompt, maxLength)
  {
  }

  /** The generator sees only the instruction built from the full prompt and
      the final label, and `max_new_tokens == max_length`: two generators that
      agree on that one call give the same answer. */
  lemma GeneratorSeesOnlyInstruction(c: string -> Prediction, g1: (string, int) -> string, g2: (string, int) -> string, prompt: string, maxLength: int)
    requires
      var instruction := CraftPrompt(prompt, FinalLabel(c(ClassifierInput(prompt))));
      g1(instruction, maxLength) == g2(instruction, maxLength)
    ensures AnalyzeSentimentAndGenerate(Some(Models(c, g1)), prompt, maxLength) == AnalyzeSentimentAndGenerate(Some(Models(c, g2)), prompt, maxLength)
  {
  }

  /** Below the threshold the classifier's label is dropped: the answer is
      NEUTRAL and the generator is asked for the neutral tone about the whole
      prompt. */
  lemma LowConfidenceUsesNeutralTone(m: Models, prompt: string, maxLength: int)
    requires !IsBlank(prompt)
    requires m.sentiment(ClassifierInput(prompt)).score < ConfidenceThreshold
    ensures AnalyzeSentimentAndGenerate(Some(m), prompt, maxLength) == (NeutralLabel, Clean(m.generator(Header(Neutral) + prompt, maxLength)))
  {
    ToneOfNeutral();
  }

  /** The instruction of the scenario below, written out. */
  lemma SunnyBeachInstruction(prompt: string, predicted: string, instruction: string)
    requires prompt == "a sunny beach day" && predicted == "POSITIVE"
    requires instruction == "Write a single, coherent paragraph in a " + "joyful and uplifting" + " tone about the following topic:\n" + "a sunny beach day"
    ensures CraftPrompt(prompt, predicted) == instruction
  {
    UpperByCharacters(predicted, "POSITIVE");
    assert ToneFor(predicted) == Joyful;
    assert Header(Joyful) == "Write a single, coherent paragraph in a " + "joyful and uplifting" + " tone about the following topic:\n";
  }

  /** A confident POSITIVE on "a sunny beach day" with the default length:
      the label is POSITIVE and the generator is asked, with 200 new tokens,
      for a joyful and uplifting paragraph about that topic. */
  lemma SunnyBeachScenario(m: Models, prompt: string, instruction: string)
    requires prompt == "a sunny beach day"
    requires instruction == "Write a single, coherent paragraph in a " + "joyful and uplifting" + " tone about the following topic:\n" + "a sunny beach day"
    requires m.sentiment(prompt) == Prediction("POSITIVE", 0.92)
    ensures AnalyzeSentimentAndGenerate(Some(m), prompt) == ("POSITIVE", Clean(m.generator(instruction, 200)))
  {
    assert !IsWhitespace(prompt[0]);
    SunnyBeachInstruction(prompt, "POSITIVE", instruction);
  }
}
