// Locating a target sound in a record's preferred transcription: every
// start offset, found by repeated `indexOf` from one past the previous hit,
// so that overlapping occurrences are all recorded.
module SymbolLocator {
  import opened Text
  import opened Dictionary
  import opened PositionPattern
  import opened Collections

  /** The record of one located word: `{word, phonetic, positions, positionPattern}`. */
  datatype Located = Located(word: Entry, phonetic: string, positions: seq<nat>, positionPattern: string)

  /** Every start offset at or after `k` where `sym` occurs in `t`, ascending. */
  function OccurrencesFrom(t: string, sym: string, k: nat): seq<nat>
    decreases |t| + 1 - k
  {
    if k > |t| then [] else (if OccursAt(t, sym, k) then [k] else []) + OccurrencesFrom(t, sym, k + 1)
  }

  function Occurrences(t: string, sym: string): seq<nat>
  {
    OccurrencesFrom(t, sym, 0)
  }

  /** The offsets found are exactly the occurrences, strictly increasing. */
  lemma {:induction false} OccurrencesExact(t: string, sym: string, k: nat)
    ensures forall p :: p in OccurrencesFrom(t, sym, k) <==> k <= p && OccursAt(t, sym, p)
    ensures forall i, j :: 0 <= i < j < |OccurrencesFrom(t, sym, k)| ==>
              OccurrencesFrom(t, sym, k)[i] < OccurrencesFrom(t, sym, k)[j]
    decreases |t| + 1 - k
  {
    if k <= |t| {
      var rest := OccurrencesFrom(t, sym, k + 1);
      OccurrencesExact(t, sym, k + 1);
      assert forall j :: 0 <= j < |rest| ==> k < rest[j] by {
        forall j | 0 <= j < |rest| ensures k < rest[j] { assert rest[j] in rest; }
      }
    }
  }

  /** Some offset is found exactly when the transcription includes the symbol. */
  lemma OccurrencesIffIncludes(t: string, sym: string)
    ensures Occurrences(t, sym) != [] <==> Includes(t, sym)
  {
    var ps := Occurrences(t, sym);
    OccurrencesExact(t, sym, 0);
    if ps != [] {
      assert ps[0] in ps;
      assert OccursAt(t, sym, ps[0]);
    }
    if Includes(t, sym) {
      var i :| 0 <= i <= |t| && OccursAt(t, sym, i);
      assert i in ps;
    }
  }

  lemma {:induction false} SkipGap(t: string, sym: string, a: nat, b: nat)
    requires a <= b <= |t| + 1
    requires forall j :: a <= j < b ==> !OccursAt(t, sym, j)
    ensures OccurrencesFrom(t, sym, a) == OccurrencesFrom(t, sym, b)
    decreases b - a
  {
    if a < b {
      SkipGap(t, sym, a + 1, b);
    }
  }

  /** The located record the source builds for one dictionary word. */
  function LocateSpec(e: Entry, sym: string): Located
  {
    var t := Preferred(e);
    var ps := Occurrences(t, sym);
    Located(e, t, ps, Join(ps))
  }

  /** The per-word body of `processWordsForPositionMatching`. */
  method Locate(e: Entry, sym: string) returns (l: Located)
    requires sym != []
    ensures l == LocateSpec(e, sym)
    ensures forall p :: p in l.positions <==> OccursAt(l.phonetic, sym, p)
    ensures forall i, j :: 0 <= i < j < |l.positions| ==> l.positions[i] < l.positions[j]
    ensures l.positionPattern == Join(l.positions)
  {
    var t := Preferred(e);
    var positions := FindPositions(t, sym);
    l := Located(e, t, positions, Join(positions));
    OccurrencesExact(t, sym, 0);
  }

  /** The `indexOf` loop of one word: every start offset of `sym` in `t`, ascending. */
  method FindPositions(t: string, sym: string) returns (positions: seq<nat>)
    requires sym != []
    ensures positions == Occurrences(t, sym)
  {
    positions := [];
    var pos := IndexOf(t, sym, 0);
    SkipGap(t, sym, 0, if pos == -1 then |t| + 1 else pos);
    while pos != -1
      invariant pos == -1 ==> positions == Occurrences(t, sym)
      invariant pos != -1 ==> 0 <= pos && pos + |sym| <= |t| && OccursAt(t, sym, pos)
      invariant pos != -1 ==> positions + OccurrencesFrom(t, sym, pos) == Occurrences(t, sym)
      decreases if pos == -1 then 0 else |t| + 1 - pos
    {
      var next := IndexOf(t, sym, pos + 1);
      LocateStep(t, sym, positions, pos, next);
      positions := positions + [pos];
      pos := next;
    }
  }

  /** One turn of the `indexOf` loop: the hit at `pos` is recorded and the search resumes one past it. */
  lemma LocateStep(t: string, sym: string, positions: seq<nat>, pos: nat, next: int)
    requires sym != [] && pos + |sym| <= |t| && OccursAt(t, sym, pos)
    requires positions + OccurrencesFrom(t, sym, pos) == Occurrences(t, sym)
    requires next == IndexOf(t, sym, pos + 1)
    ensures next == -1 ==> positions + [pos] == Occurrences(t, sym)
    ensures next != -1 ==> pos < next && next + |sym| <= |t| && OccursAt(t, sym, next)
                           && (positions + [pos]) + OccurrencesFrom(t, sym, next) == Occurrences(t, sym)
  {
    assert next == IndexFrom(t, sym, pos + 1);
    SkipGap(t, sym, pos + 1, if next == -1 then |t| + 1 else next);
    assert OccurrencesFrom(t, sym, pos) == [pos] + OccurrencesFrom(t, sym, pos + 1);
    AppendAssoc(positions, [pos], OccurrencesFrom(t, sym, pos + 1));
    if next == -1 {
      assert OccurrencesFrom(t, sym, |t| + 1) == [];
    }
  }

  /** `processWordsForPositionMatching`: one located record per input word, in order. */
  method ProcessWordsForPositionMatching(words: seq<Entry>, sym: string) returns (r: seq<Located>)
    requires sym != []
    ensures |r| == |words|
    ensures forall i :: 0 <= i < |words| ==> r[i] == LocateSpec(words[i], sym)
  {
    r := [];
    for i := 0 to |words|
      invariant |r| == i
      invariant forall j :: 0 <= j < i ==> r[j] == LocateSpec(words[j], sym)
    {
      var l := Locate(words[i], sym);
      r := r + [l];
    }
  }

  /** Overlapping occurrences are each recorded: “aaa” holds “aa” at 0 and 1. */
  lemma {:induction false} OverlapsCounted()
    ensures Occurrences("aaa", "aa") == [0, 1]
  {
    assert OccursAt("aaa", "aa", 0) && OccursAt("aaa", "aa", 1);
    assert !OccursAt("aaa", "aa", 2) && !OccursAt("aaa", "aa", 3);
  }
}
