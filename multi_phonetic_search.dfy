// Multi-sound phonetic search: every selected sound (AND) or at least one
// (OR), each judged by the single-sound rule.
module MultiPhoneticSearch {
  import opened Wrappers
  import opened Collections
  import opened Dictionary
  import opened PhoneticSearch
  import opened Text

  /** The checked search-mode radio button's value; `AND` when none is checked. */
  function SearchMode(checked: Option<string>): (mode: string)
    ensures checked.None? ==> mode == "AND"
    ensures checked.Some? ==> mode == checked.value
  {
    if checked.Some? then checked.value else "AND"
  }

  /** Any mode value other than `AND` selects the OR test. */
  predicate MatchesSounds(e: Entry, sounds: seq<string>, mode: string)
    ensures |sounds| == 1 ==> (MatchesSounds(e, sounds, mode) <==> MatchesSound(e, sounds[0]))
    ensures sounds == [] ==> (MatchesSounds(e, sounds, mode) <==> mode == "AND")
  {
    if mode == "AND" then forall i :: 0 <= i < |sounds| ==> MatchesSound(e, sounds[i])
    else exists i :: 0 <= i < |sounds| && MatchesSound(e, sounds[i])
  }

  function SearchByMultiplePhonetics(dict: seq<Entry>, sounds: seq<string>, mode: string): (r: seq<Entry>)
    ensures forall e :: e in r <==> e in dict && MatchesSounds(e, sounds, mode)
    ensures IsSubsequence(r, dict)
  {
    FilterIsSubsequence(dict, e => MatchesSounds(e, sounds, mode));
    Filter(dict, e => MatchesSounds(e, sounds, mode))
  }

  /** The search button: with no sound selected the user is alerted and nothing is searched. */
  function SubmitSelection(dict: seq<Entry>, selected: seq<string>, checked: Option<string>): (r: Option<seq<Entry>>)
    ensures r.None? <==> selected == []
    ensures r.Some? ==> r.value == SearchByMultiplePhonetics(dict, selected, SearchMode(checked))
  {
    if |selected| > 0 then Some(SearchByMultiplePhonetics(dict, selected, SearchMode(checked))) else None
  }

  /** For a non-empty selection, the AND results are an order-preserving part of the OR results. */
  lemma {:induction false} AndWithinOr(dict: seq<Entry>, sounds: seq<string>)
    requires sounds != []
    ensures IsSubsequence(SearchByMultiplePhonetics(dict, sounds, "AND"), SearchByMultiplePhonetics(dict, sounds, "OR"))
  {
    forall e | e in dict && MatchesSounds(e, sounds, "AND")
      ensures MatchesSounds(e, sounds, "OR")
    {
      assert MatchesSound(e, sounds[0]);
    }
    FilterWeaker(dict, e => MatchesSounds(e, sounds, "AND"), e => MatchesSounds(e, sounds, "OR"));
  }

  /** Selecting a single sound gives exactly the single-sound search, in either mode. */
  lemma {:induction false} SingleSoundAgrees(dict: seq<Entry>, sound: string, mode: string)
    ensures SearchByMultiplePhonetics(dict, [sound], mode) == SearchByPhonetic(dict, sound)
  {
    forall e | e in dict
      ensures MatchesSounds(e, [sound], mode) == MatchesSound(e, sound)
    {
      if mode != "AND" && MatchesSound(e, sound) {
        assert [sound][0] == sound;
      }
    }
    FilterSame(dict, e => MatchesSounds(e, [sound], mode), e => MatchesSound(e, sound));
  }

  /** In AND mode each sound may be found in a different transcription of the same record. */
  lemma {:induction false} AndAcrossTranscriptions()
    ensures MatchesSounds(Entry("bip", "bɪ", "pɪ", "", ""), ["p", "b"], "AND")
  {
    assert OccursAt("pɪ", "p", 0);
    assert OccursAt("bɪ", "b", 0);
    assert MatchesSound(Entry("bip", "bɪ", "pɪ", "", ""), "p");
    assert MatchesSound(Entry("bip", "bɪ", "pɪ", "", ""), "b");
  }
}
