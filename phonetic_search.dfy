// Single-sound phonetic search: the result filter, the affricate exclusion
// rule applied to whole transcriptions, and the input guard of the search box.
module PhoneticSearch {
  import opened Text
  import opened Wrappers
  import opened Collections
  import opened Dictionary

  /** The four symbols that are also parts of the affricates tʃ and dʒ. */
  predicate IsAffricatePart(sound: string)
  {
    sound == "t" || sound == "ʃ" || sound == "d" || sound == "ʒ"
  }

  /** The transcription contains the affricate the symbol belongs to. */
  predicate IsSpecialCase(phonetic: string, sound: string)
  {
    ((sound == "t" || sound == "ʃ") && Includes(phonetic, "tʃ"))
    || ((sound == "d" || sound == "ʒ") && Includes(phonetic, "dʒ"))
  }

  /** One record matches one sound. */
  predicate MatchesSound(e: Entry, sound: string)
    ensures MatchesSound(e, sound) ==> Includes(e.us, sound) || Includes(e.uk, sound)
  {
    if IsAffricatePart(sound) then
      (Includes(e.us, sound) && !IsSpecialCase(e.us, sound)) || (Includes(e.uk, sound) && !IsSpecialCase(e.uk, sound))
    else
      Includes(e.us, sound) || Includes(e.uk, sound)
  }

  /** All records that match the sound, in dictionary order. */
  function SearchByPhonetic(dict: seq<Entry>, sound: string): (r: seq<Entry>)
    ensures forall e :: e in r <==> e in dict && MatchesSound(e, sound)
    ensures IsSubsequence(r, dict)
  {
    FilterIsSubsequence(dict, e => MatchesSound(e, sound));
    Filter(dict, e => MatchesSound(e, sound))
  }

  /** The search button and the Enter key: a blank input starts no search. */
  function SubmitSearchBox(dict: seq<Entry>, input: string): (r: Option<seq<Entry>>)
    ensures r.None? <==> forall i :: 0 <= i < |input| ==> IsJsSpace(input[i])
    ensures r.Some? ==> r.value == SearchByPhonetic(dict, Trim(input))
  {
    var term := Trim(input);
    if forall i :: 0 <= i < |input| ==> IsJsSpace(input[i]) then
      TrimOfSpacesIsEmpty(input);
      None
    else
      assert term != [] by { NonSpaceSurvivesTrim(input); }
      Some(SearchByPhonetic(dict, term))
  }

  // The earlier declaration of `searchByPhonetic` in script.js, which the
  // later declaration of the same name replaces, capped its results at 20.
  function OverriddenSearchByPhonetic(dict: seq<Entry>, sound: string): (r: seq<Entry>)
    ensures |r| <= 20
    ensures r <= SearchByPhonetic(dict, sound)
    ensures |SearchByPhonetic(dict, sound)| <= 20 ==> r == SearchByPhonetic(dict, sound)
  {
    var all := SearchByPhonetic(dict, sound);
    if |all| <= 20 then all else all[..20]
  }

  lemma {:induction false} NonSpaceSurvivesTrim(s: string)
    requires exists i :: 0 <= i < |s| && !IsJsSpace(s[i])
    ensures Trim(s) != []
  {
    var i :| 0 <= i < |s| && !IsJsSpace(s[i]);
    var t := TrimStart(s);
    assert |s| - |t| <= i;
    assert t[i - (|s| - |t|)] == s[i];
    var r := TrimEnd(t);
    assert |r| > i - (|s| - |t|);
  }

  // ---- properties of the affricate rule ----

  /** A record with neither transcription never matches a non-empty sound. */
  lemma NoTranscriptionNoMatch(e: Entry, sound: string)
    requires e.uk == [] && e.us == [] && sound != []
    ensures !MatchesSound(e, sound)
  {
  }

  /** Searching for a part of tʃ or dʒ skips every transcription that contains the affricate at all. */
  lemma {:induction false} AffricatePartRule(e: Entry, sound: string)
    requires IsAffricatePart(sound)
    ensures var dig := if sound == "t" || sound == "ʃ" then "tʃ" else "dʒ";
            MatchesSound(e, sound) <==>
              (Includes(e.us, sound) && !Includes(e.us, dig)) || (Includes(e.uk, sound) && !Includes(e.uk, dig))
  {
  }

  /** “teacher” /ˈtiːtʃə/ has a free-standing t, but the tʃ elsewhere excludes it. */
  lemma {:induction false} TeacherNotFoundForT()
    ensures !MatchesSound(Entry("teacher", "ˈtiːtʃə(r)", "ˈtiːtʃər", "", ""), "t")
  {
    assert OccursAt("ˈtiːtʃə(r)", "tʃ", 4);
    assert OccursAt("ˈtiːtʃər", "tʃ", 4);
  }

  /** A sound that is not an affricate part matches by plain containment. */
  lemma {:induction false} PlainSoundFound()
    ensures MatchesSound(Entry("example", "ɪɡˈzɑːmpl", "ɪɡˈzæmpl", "", ""), "æ")
  {
    assert OccursAt("ɪɡˈzæmpl", "æ", 4);
  }
}
