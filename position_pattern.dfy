// The position signature of a located sound: its offsets joined with commas
// (`positions.join(',')`), and the reading back that the match score performs
// (`pattern.split(',').map(Number)`).
module PositionPattern {
  import opened Text

  /** Only digits and commas: the alphabet of every signature. */
  predicate PatternChars(p: string)
  {
    forall i :: 0 <= i < |p| ==> IsDigit(p[i]) || p[i] == ','
  }

  /** `positions.join(',')`. */
  function Join(ps: seq<nat>): (r: string)
    ensures ps == [] <==> r == []
    ensures PatternChars(r)
  {
    if ps == [] then []
    else if |ps| == 1 then NatToString(ps[0])
    else NatToString(ps[0]) + "," + Join(ps[1..])
  }

  /** `p.split(',').map(Number)` on a string of digits and commas. */
  function Parse(p: string): (r: seq<nat>)
    requires PatternChars(p)
    ensures |r| >= 1
    decreases |p|
  {
    var k := IndexOf(p, ",", 0);
    if k == -1 then
      assert forall i :: 0 <= i < |p| ==> p[i] != ',' by {
        forall i | 0 <= i < |p| ensures p[i] != ',' { assert !OccursAt(p, ",", i); }
      }
      [ParseDecimal(p)]
    else
      assert forall i :: 0 <= i < k ==> p[i] != ',' by {
        forall i | 0 <= i < k ensures p[i] != ',' { assert !OccursAt(p, ",", i); }
      }
      [ParseDecimal(p[..k])] + Parse(p[k + 1..])
  }

  lemma {:induction false} FirstCommaAfterNumeral(n: nat, rest: string)
    ensures IndexOf(NatToString(n) + "," + rest, ",", 0) == |NatToString(n)|
  {
    var a := NatToString(n);
    var s := a + "," + rest;
    assert OccursAt(s, ",", |a|);
    forall j | 0 <= j < |a| ensures !OccursAt(s, ",", j) {
      assert s[j] == a[j];
    }
  }

  lemma {:induction false} NoCommaInNumeral(n: nat)
    ensures IndexOf(NatToString(n), ",", 0) == -1
  {
    var a := NatToString(n);
    forall j | 0 <= j <= |a| ensures !OccursAt(a, ",", j) {
      if j < |a| { assert a[j] != ','; }
    }
  }

  /** Reading a signature back gives the offsets it was built from. */
  lemma {:induction false} ParseJoin(ps: seq<nat>)
    requires ps != []
    ensures Parse(Join(ps)) == ps
    decreases |ps|
  {
    var a := NatToString(ps[0]);
    if |ps| == 1 {
      NoCommaInNumeral(ps[0]);
      ParseNatToString(ps[0]);
    } else {
      var s := Join(ps);
      assert s == a + "," + Join(ps[1..]);
      FirstCommaAfterNumeral(ps[0], Join(ps[1..]));
      assert s[..|a|] == a;
      assert s[|a| + 1..] == Join(ps[1..]);
      ParseNatToString(ps[0]);
      ParseJoin(ps[1..]);
    }
  }

  /** Distinct offset lists have distinct signatures. */
  lemma {:induction false} JoinInjective(ps: seq<nat>, qs: seq<nat>)
    requires Join(ps) == Join(qs)
    ensures ps == qs
  {
    if ps != [] && qs != [] {
      ParseJoin(ps);
      ParseJoin(qs);
    }
  }

  /** The signature "0,4" stands for the offsets 0 and 4. */
  lemma {:induction false} JoinExample()
    ensures Join([0, 4]) == "0,4"
  {
    assert [0, 4][1..] == [4];
  }
}
