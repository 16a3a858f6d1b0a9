# Sentiment-aligned text generation: the request pipeline

The application classifies the sentiment of a user's prompt and then asks a
text generator for a paragraph in a matching tone. This project models the
pure core of `utils.py` and proves properties of it:

- `craft_prompt`: the label is upper-cased and looked up in a table of three
  tones, with a neutral default. The instruction is a fixed sentence with
  that tone, then a line break, then the user's prompt (module `Prompt`).
- `analyze_sentiment_and_generate`, with the two models passed in as
  functions (module `Pipeline`). It checks the models first and then the
  prompt. It classifies `prompt[:512]`, replaces a label whose score is below
  0.75 by `NEUTRAL`, builds the instruction from the full prompt, generates
  and cleans the result.
- The cleanup of the generated text, `re.sub(r"\s+---.*", "", text).strip()`,
  with Python `re` semantics (module `Cleanup`):
  - `\s+` is greedy;
  - `.` stops at a newline;
  - matches are leftmost-first and non-overlapping.

  `Text` holds Python's whitespace set and `str.strip()`.

The cleanup removes only the rest of the line the marker is on.
`"Hello world.\n---\njunk"` therefore cleans to `"Hello world.\njunk"`, not
to `"Hello world."`: the match is the newline and `---`, and `.*` stops
before the second newline. The model follows the code here, and
`Cleanup.CleanStopsAtNewline` proves this outcome.

## Model

| member | source | states |
|---|---|---|
| Prompt.UpperChar | utils.py:39 | `a`-`z` become `A`-`Z`, dotless i becomes I, long s becomes S, and every other character is kept; so an upper-case letter comes only from itself, its lower-case form, dotless i or long s |
| Prompt.Upper | utils.py:39 | `sentiment_label.upper()` has the same length and upper-cases each character |
| Prompt.UpperIdempotent | utils.py:39 | Upper-casing twice is the same as once |
| Prompt.Tone.Phrase | utils.py:34-38 | The three tone phrases of `tone_map` |
| Prompt.ToneTable | utils.py:34-39 | `tone_map` has exactly the keys POSITIVE, NEGATIVE and NEUTRAL with their three phrases, and the default is "neutral and descriptive" |
| Prompt.ToneFor | utils.py:34-39 | The tone is joyful exactly when the upper-cased label is POSITIVE, melancholic exactly when it is NEGATIVE, and the neutral default in every other case |
| Prompt.ToneIgnoresCase | utils.py:39 | A label and its upper-case form get the same tone |
| Prompt.UpperByCharacters | utils.py:39 | A text whose characters upper-case one by one to a key upper-cases to that key |
| Prompt.ToneExamplesKeys | utils.py:34-39 | "positive" gives the joyful tone and "Negative" the melancholic one |
| Prompt.ToneOfNeutral | utils.py:37 | NEUTRAL gives the neutral tone |
| Prompt.ToneExamplesDefault | utils.py:39 | "ERROR" and the empty label fall back to the neutral tone |
| Prompt.Header | utils.py:40 | The template before the prompt: the tone phrase after the fixed 40-character opening, the fixed closing, and a final line break |
| Prompt.CraftPrompt | utils.py:40 | The instruction is the header for the tone followed by the unchanged user prompt |
| Prompt.ParseInstruction | utils.py:40 | Reading an instruction back gives a tone and a rest that rebuild the instruction exactly |
| Prompt.HeadersDiffer | utils.py:34-40 | The header of one tone is never a prefix of an instruction built on another tone |
| Prompt.ParseCraftPrompt | utils.py:30-40 | Round trip: parsing `craft_prompt(p, label)` gives back the label's tone and `p` |
| Prompt.CraftPromptInjective | utils.py:30-40 | Equal instructions have equal prompts and labels of the same tone |
| Text.IsWhitespace | utils.py:77-78 | The characters `\s` and `strip()` treat as whitespace: Python's `str.isspace()` set |
| Text.WhitespaceIsPythonSet | utils.py:77-78 | The ranges of `IsWhitespace` hold exactly the 29 listed code points of that set |
| Text.WhitespaceEnd | utils.py:77 | The whitespace run from a position ends at the first non-whitespace character or at the end |
| Text.LeadingWhitespace | utils.py:77 | The greedy whitespace prefix is all whitespace and is followed by a non-whitespace character or the end |
| Text.TrailingWhitespace | utils.py:78 | The whitespace suffix is all whitespace and is preceded by a non-whitespace character or the start |
| Text.Strip | utils.py:78 | `strip()` is empty exactly for blank text; otherwise it is the middle slice that starts and ends with non-whitespace, and all it cuts off is whitespace |
| Text.StripKeepsTrimmed | utils.py:78 | A text without whitespace at either end is its own `strip()` |
| Text.StripIdempotent | utils.py:78 | `strip()` twice is `strip()` once |
| Cleanup.SplitIsGreedyRun | utils.py:77 | The only split of `\s+---` that can match is the whole greedy whitespace run |
| Cleanup.LineEnd | utils.py:77 | The line from a position ends at the first newline at or after it, or at the end |
| Cleanup.RestOfLine | utils.py:77 | `.*` takes the longest newline-free prefix and stops at a newline or the end |
| Cleanup.MatchLength | utils.py:77 | A match starts exactly when a non-empty whitespace run is followed by `---`; it covers at least the run and the marker |
| Cleanup.MatchLengthEnd | utils.py:77 | The match contains no newline after the marker and ends at a newline or at the end of the text |
| Cleanup.MatchLengthFindsMatch | utils.py:77 | A match is found exactly when some split into whitespace and `---` matches at the start |
| Cleanup.Substitute | utils.py:77 | `re.sub(r"\s+---.*", "", s)`; its contract only bounds the length. `RemovesLeftmostMatch` and `KeepsTextWithoutMatch` together describe it as `re.sub` does: keep the text up to the leftmost match, drop the match, continue after it, and keep a text without matches whole |
| Cleanup.SubstituteHead | utils.py:77 | The substituted text starts with the kept first character, or with the newline that ended a match |
| Cleanup.SubstituteKeepsFirst | utils.py:77 | A substituted text not starting with a newline starts with the original first character, which no match removed |
| Cleanup.SubstituteStartsWithMarker | utils.py:77 | The substitution does not create a marker at the start |
| Cleanup.SubstituteIsMarkerFree | utils.py:77 | After `re.sub` no whitespace is followed by `---`, even where removing a match joined two pieces |
| Cleanup.MarkerFreeUnchanged | utils.py:77 | A text with no whitespace followed by `---` passes unchanged |
| Cleanup.SubstituteFixedIff | utils.py:77 | `re.sub` leaves a text unchanged exactly when it has no whitespace followed by `---` |
| Cleanup.SubstituteIdempotent | utils.py:77 | Substituting twice removes nothing more |
| Cleanup.SubstituteKeepsUnmatched | utils.py:77 | Where no match starts, the first character is kept and the scan moves on by one |
| Cleanup.KeepsTextBeforeMatch | utils.py:77 | Text before the first position where a match starts is kept as it is |
| Cleanup.RemovesLeftmostMatch | utils.py:77 | The leftmost match is removed, it ends at a newline or at the end, and the scan resumes right after it |
| Cleanup.KeepsTextWithoutMatch | utils.py:77 | A text where no match starts anywhere passes unchanged |
| Cleanup.LeadingWhitespaceConcat | utils.py:77 | The whitespace run of a concatenation stays in the first part unless that part is all whitespace |
| Cleanup.RestOfLineConcat | utils.py:77 | `.*` stops at the line break that starts the second part |
| Cleanup.MatchLengthBeforeLineBreak | utils.py:77 | A match starting before a line break with no match of its own is the same with or without what follows |
| Cleanup.MatchLengthRunInside | utils.py:77 | Proof step of `SubstituteLineByLine`: `MatchLengthBeforeLineBreak` when the whitespace run ends before the line break |
| Cleanup.MarkerInsideLine | utils.py:77 | Proof step of `SubstituteLineByLine`: `MatchLengthBeforeLineBreak` when the marker lies before the line break |
| Cleanup.MatchLengthCongruent | utils.py:77 | Proof step of `SubstituteLineByLine`: texts with the same run, the same marker test and the same rest of line have the same match |
| Cleanup.RestOfLineAfter | utils.py:77 | Proof step of `SubstituteLineByLine`: the rest of a line starting before a line break ends at or before it |
| Cleanup.MarkerAtPrefix | utils.py:77 | Proof step of `SubstituteLineByLine`: whether `---` is at a position is decided by the first part when it fits there |
| Cleanup.MarkerCutByLineBreak | utils.py:77 | Proof step of `SubstituteLineByLine`: a marker cannot straddle a line break: no match there |
| Cleanup.MatchLengthRunAcross | utils.py:77 | Proof step of `SubstituteLineByLine`: a whitespace run that crosses the line break matches only if the text after the break does |
| Cleanup.SubstituteDropsMatch | utils.py:77 | Where a match starts, it is dropped and the scan resumes after it |
| Cleanup.SubstituteDropsMatchConcat | utils.py:77 | Proof step of `SubstituteLineByLine`: `SubstituteDropsMatch` for a text given in two parts, the match lying in the first |
| Cleanup.LineBreakStepMatched | utils.py:77 | Proof step of `SubstituteLineByLine`: removing a match before a line break commutes with cleaning the two sides apart |
| Cleanup.SubstituteKeepsUnmatchedConcat | utils.py:77 | Proof step of `SubstituteLineByLine`: keeping an unmatched first character, for a text given in two parts |
| Cleanup.LineBreakStepUnmatched | utils.py:77 | Proof step of `SubstituteLineByLine`: keeping a character before a line break commutes with cleaning the two sides apart |
| Cleanup.SubstituteBeforeLineBreak | utils.py:77 | Text before a line break where no match starts is cleaned on its own |
| Cleanup.SubstituteLineByLine | utils.py:77 | A line break where no match starts splits the text into independently cleaned parts: a match never runs into the next line |
| Cleanup.MarkerFreeSlice | utils.py:78 | Stripping keeps a text free of whitespace followed by `---` |
| Cleanup.Clean | utils.py:77-78 | The cleaned text has no whitespace at either end and no whitespace followed by `---` |
| Cleanup.CleanKeepsClean | utils.py:77-78 | A text with those two properties is its own cleanup |
| Cleanup.CleanIdempotent | utils.py:77-78 | Cleaning twice is the same as cleaning once |
| Cleanup.NoMatchAtText | utils.py:77 | No match starts at a non-whitespace character |
| Cleanup.NoMatchAtSpace | utils.py:77 | No match starts at a whitespace character followed by something that is neither whitespace nor `-` |
| Cleanup.ExampleFirstLineUnmatched | utils.py:77 | In `"Hello world.\n---\njunk"` no match starts on the first line |
| Cleanup.ExampleMatch | utils.py:77 | There, the match is the newline and `---` |
| Cleanup.ExampleLastLineKept | utils.py:77 | `"\njunk"` passes unchanged |
| Cleanup.ExampleRemovesMarkerLine | utils.py:77 | The marker line is the leftmost match and is removed |
| Cleanup.ExampleSubstitute | utils.py:77 | `re.sub` turns the example into `"Hello world.\njunk"` |
| Cleanup.CleanStopsAtNewline | utils.py:77-78 | The cleanup of the example is `"Hello world.\njunk"`: the line after the marker survives |
| Pipeline.ClassifierInput | utils.py:53 | `prompt[:512]` is the whole prompt when it is short enough, else its first 512 characters |
| Pipeline.FinalLabel | utils.py:54-59 | A score below 0.75 gives NEUTRAL; otherwise the classifier's label is kept |
| Pipeline.FinalLabelNeutralIff | utils.py:54-59 | The label is NEUTRAL exactly when the score is below 0.75 or the classifier said NEUTRAL; a score of exactly 0.75 keeps the label |
| Pipeline.AnalyzeSentimentAndGenerate | utils.py:42-79 | Missing models give the error pair, then a blank prompt gives the neutral request. Otherwise the label is the confidence-checked label of `prompt[:512]` and the text is the cleaned generation for `craft_prompt(prompt, label)` with `max_new_tokens == max_length`; it is trimmed and free of whitespace followed by `---` |
| Pipeline.BlankPromptInvokesNoModel | utils.py:49-50 | For a blank prompt the answer does not depend on the models |
| Pipeline.ClassifierSeesOnlyWindow | utils.py:53 | Classifiers that agree on `prompt[:512]` give the same answer |
| Pipeline.GeneratorSeesOnlyInstruction | utils.py:62-73 | Generators that agree on the one instruction and length asked for give the same answer |
| Pipeline.LowConfidenceUsesNeutralTone | utils.py:57-62 | Below the threshold the answer is NEUTRAL and the generator is asked for the neutral tone about the whole prompt |
| Pipeline.SunnyBeachInstruction | utils.py:40 | The instruction for "a sunny beach day" labelled POSITIVE, written out |
| Pipeline.SunnyBeachScenario | utils.py:42-79 | A confident POSITIVE for "a sunny beach day" gives POSITIVE and the joyful instruction with 200 new tokens |

## Left out

- `load_models` (utils.py:9-28): loading the models, caching them and reporting load errors are I/O. The pipeline takes an optional model set instead, and `None` stands for a failed load.
- `not models` on an empty dictionary: the model set is either present with both models or absent.
- The models themselves: the classifier is a function from text to a label and a score, and the generator is a function from an instruction and a token budget to text. The sampling parameters (`do_sample`, `top_k=50`, `top_p=0.95`, `temperature=0.8`, `num_return_sequences=1`) only shape what the generator does. Every generator is allowed, so the statements hold for whatever text it samples.
- Exceptions raised inside a model call are not modelled; the source does not catch them either.
- Pipeline.FinalLabel: the score is a `real`, so floating-point rounding and NaN (for which `score < 0.75` is false and the label is kept) are not modelled.
- Prompt.UpperChar: this is `str.upper()` only as far as the table lookup can tell. Other characters keep their value. Multi-character upper-case forms are not expanded; they never produce a key of the table, so the tone is the same.
- `app.py`: the web interface, the session history, the mapping from the length choice to 80, 200 or 380 tokens, and the way it calls the pipeline are user interface code.
