/** `craft_prompt`: the sentiment label picks a tone phrase from a fixed
    table, and the instruction for the generator is a fixed sentence with
    that tone followed by the user's prompt. */
module Prompt {
  import opened Wrappers

  /** The three tones of the table. */
  datatype Tone = Joyful | Melancholic | Neutral {
    function Phrase(): string {
      match this
      case Joyful => "joyful and uplifting"
      case Melancholic => "melancholic and reflective"
      case Neutral => "neutral and descriptive"
    }
  }

  /** The tone table, keyed by upper-case label. */
  const ToneMap: map<string, Tone> := map["POSITIVE" := Joyful, "NEGATIVE" := Melancholic, "NEUTRAL" := Neutral]

  /** The tone used for a label that is not a key of the table. */
  const DefaultTone: Tone := Neutral

  /** Python's `str.upper()` on one character, as far as the table lookup can
      tell: ASCII letters, dotless i (U+0131) and long s (U+017F) are the only
      characters whose upper-case form is a single letter of A-Z other than
      themselves; every other character is left as it is. */
  function UpperChar(c: char): (u: char)
    ensures 'a' <= c <= 'z' ==> 'A' <= u <= 'Z' && u as int == c as int - 32
    ensures c == '\U{131}' ==> u == 'I'
    ensures c == '\U{17F}' ==> u == 'S'
    ensures !('a' <= c <= 'z') && c != '\U{131}' && c != '\U{17F}' ==> u == c
    ensures 'A' <= u <= 'Z' ==> u == c || c == (u as int + 32) as char || (u == 'I' && c == '\U{131}') || (u == 'S' && c == '\U{17F}')
  {
    if 'a' <= c <= 'z' then (c as int - 32) as char
    else if c == '\U{131}' then 'I'
    else if c == '\U{17F}' then 'S'
    else c
  }

  /** `str.upper()` as seen by the tone lookup, character by character. */
  function Upper(s: string): (r: string)
    ensures |r| == |s|
    ensures forall i :: 0 <= i < |s| ==> r[i] == UpperChar(s[i])
  {
    if s == [] then [] else [UpperChar(s[0])] + Upper(s[1..])
  }

  /** Upper-casing twice changes nothing more. */
  lemma {:induction false} UpperIdempotent(s: string)
    ensures Upper(Upper(s)) == Upper(s)
  {
    var u := Upper(s);
    assert forall i :: 0 <= i < |u| ==> UpperChar(u[i]) == u[i];
  }

  /** `tone_map.get(sentiment.upper(), "neutral and descriptive")`. */
  function ToneFor(sentiment: string): (t: Tone)
    ensures t == Joyful <==> Upper(sentiment) == "POSITIVE"
    ensures t == Melancholic <==> Upper(sentiment) == "NEGATIVE"
    ensures t == Neutral <==> Upper(sentiment) != "POSITIVE" && Upper(sentiment) != "NEGATIVE"
  {
    var key := Upper(sentiment);
    if key in ToneMap then ToneMap[key] else DefaultTone
  }

  /** The lookup ignores case: a label and its upper-case form get the same tone. */
  lemma ToneIgnoresCase(sentiment: string)
    ensures ToneFor(sentiment) == ToneFor(Upper(sentiment))
  {
    UpperIdempotent(sentiment);
  }

  /** A text is upper-cased to `key` when its characters are, one by one. */
  lemma UpperByCharacters(w: string, key: string)
    requires |w| == |key| && forall i :: 0 <= i < |w| ==> UpperChar(w[i]) == key[i]
    ensures Upper(w) == key
  {
  }

  /** The table's keys match in any letter case. */
  lemma ToneExamplesKeys(lower: string, mixed: string)
    requires lower == "positive" && mixed == "Negative"
    ensures ToneFor(lower) == Joyful && ToneFor(mixed) == Melancholic
  {
    UpperByCharacters(lower, "POSITIVE");
    UpperByCharacters(mixed, "NEGATIVE");
  }

  /** The label the pipeline falls back to gets the neutral tone. */
  lemma ToneOfNeutral()
    ensures ToneFor("NEUTRAL") == Neutral
  {
  }

  /** Every other label, `"ERROR"` among them, falls back to the neutral tone. */
  lemma ToneExamplesDefault()
    ensures ToneFor("ERROR") == Neutral && ToneFor("") == Neutral
  {
  }

  /** The table as a whole: its three keys, the phrase each one selects, and
      the phrase used for every other label. */
  lemma ToneTable()
    ensures ToneMap.Keys == {"POSITIVE", "NEGATIVE", "NEUTRAL"}
    ensures ToneMap["POSITIVE"].Phrase() == "joyful and uplifting"
    ensures ToneMap["NEGATIVE"].Phrase() == "melancholic and reflective"
    ensures ToneMap["NEUTRAL"].Phrase() == "neutral and descriptive"
    ensures DefaultTone.Phrase() == "neutral and descriptive"
  {
  }

  /** The fixed sentence that precedes the user's prompt: the tone phrase
      sits after the 40-character opening, and the sentence ends with the
      line break that separates it from the prompt. */
  function Header(t: Tone): (h: string)
    ensures |h| == 40 + |t.Phrase()| + 33
    ensures h[40..40 + |t.Phrase()|] == t.Phrase()
    ensures h[|h| - 1] == '\n'
  {
    "Write a single, coherent paragraph in a " + t.Phrase() + " tone about the following topic:\n"
  }

  /** `craft_prompt(user_prompt, sentiment_label)`: the instruction for the generator. */
  function CraftPrompt(userPrompt: string, sentiment: string): (r: string)
    ensures |r| == |Header(ToneFor(sentiment))| + |userPrompt|
    ensures r[..|Header(ToneFor(sentiment))|] == Header(ToneFor(sentiment))
    ensures r[|r| - |userPrompt|..] == userPrompt
  {
    Header(ToneFor(sentiment)) + userPrompt
  }

  /** Reads an instruction back into its tone and the user's prompt; `None`
      when it does not start with one of the three headers. */
  function ParseInstruction(r: string): (p: Option<(Tone, string)>)
    ensures p.Some? ==> r == Header(p.value.0) + p.value.1
  {
    if Header(Joyful) <= r then Some((Joyful, r[|Header(Joyful)|..]))
    else if Header(Melancholic) <= r then Some((Melancholic, r[|Header(Melancholic)|..]))
    else if Header(Neutral) <= r then Some((Neutral, r[|Header(Neutral)|..]))
    else None
  }

  /** Each header differs from the others at the first letter of the tone,
      so no header is a prefix of an instruction built on another tone. */
  lemma HeadersDiffer(t: Tone, u: Tone, rest: string)
    requires t != u
    ensures !(Header(t) <= Header(u) + rest)
  {
    var h, g := Header(t), Header(u);
    assert h[40] == h[40..40 + |t.Phrase()|][0] == t.Phrase()[0];
    assert (g + rest)[40] == g[40..40 + |u.Phrase()|][0] == u.Phrase()[0];
  }

  /** The instruction determines the tone and the user's prompt: the prompt
      is carried through unchanged and can be read back. */
  lemma {:induction false} ParseCraftPrompt(userPrompt: string, sentiment: string)
    ensures ParseInstruction(CraftPrompt(userPrompt, sentiment)) == Some((ToneFor(sentiment), userPrompt))
  {
    var t := ToneFor(sentiment);
    var r := CraftPrompt(userPrompt, sentiment);
    assert Header(t) <= r;
    if t != Joyful { HeadersDiffer(Joyful, t, userPrompt); }
    if t != Melancholic { HeadersDiffer(Melancholic, t, userPrompt); }
  }

  /** Two instructions are equal only when their prompts are equal and their
      labels map to the same tone. */
  lemma CraftPromptInjective(p1: string, s1: string, p2: string, s2: string)
    requires CraftPrompt(p1, s1) == CraftPrompt(p2, s2)
    ensures p1 == p2 && ToneFor(s1) == ToneFor(s2)
  {
    ParseCraftPrompt(p1, s1);
    ParseCraftPrompt(p2, s2);
  }
}
