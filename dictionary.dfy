// A dictionary record as the application reads it. An absent transcription
// or audio link is the empty string, which JavaScript treats as falsy.
module Dictionary {

  datatype Entry = Entry(word: string, uk: string, us: string, ukAudio: string, usAudio: string)

  /** `phonetics.uk || phonetics.us || ''`: the British transcription unless it is missing. */
  function Preferred(e: Entry): string
  {
    if e.uk != [] then e.uk else e.us
  }

  /** `phonetics?.uk || phonetics?.us` is truthy. */
  predicate HasPhonetics(e: Entry)
  {
    e.uk != [] || e.us != []
  }

  lemma PreferredPresent(e: Entry)
    ensures HasPhonetics(e) <==> Preferred(e) != []
  {
  }
}
