/** The sum of a column of counts. */
module Totals {
  import opened Cursors

  /** SUM(column), or sum(counts.values()) */
  function Total(counts: map<Name, nat>): nat {
    if counts.Keys == {} then 0 else
      var code := Least(counts.Keys);
      assert |counts - {code}| < |counts| by { Smaller(counts, code); }
      counts[code] + Total(counts - {code})
  }

  lemma {:induction false} Smaller(counts: map<Name, nat>, code: Name)
    requires code in counts
    ensures |counts - {code}| < |counts|
  {
    assert (counts - {code}).Keys == counts.Keys - {code};
  }

  function CountOf(counts: map<Name, nat>, code: Name): nat {
    if code in counts then counts[code] else 0
  }

  function Bumped(counts: map<Name, nat>, code: Name, more: nat): map<Name, nat> {
    counts[code := CountOf(counts, code) + more]
  }

  /** Adding to one count adds to the sum. */
  lemma {:induction false} TotalBumped(counts: map<Name, nat>, code: Name, more: nat)
    ensures Total(Bumped(counts, code, more)) == Total(counts) + more
    decreases |counts|
  {
    var after := Bumped(counts, code, more);
    assert after.Keys == counts.Keys + {code};
    var least := Least(after.Keys);
    if least == code {
      if code in counts {
        assert IsLeast(counts.Keys, code) && Least(counts.Keys) == code;
        assert after - {code} == counts - {code};
      } else {
        assert after - {code} == counts;
      }
    } else {
      assert Least(counts.Keys) == least;
      assert after - {least} == Bumped(counts - {least}, code, more);
      Smaller(counts, least);
      TotalBumped(counts - {least}, code, more);
    }
  }

  /** Every count is positive, so there are no more groups than members. */
  lemma {:induction false} GroupsBounded(counts: map<Name, nat>)
    requires forall code :: code in counts ==> counts[code] > 0
    ensures |counts| <= Total(counts) && (Total(counts) == 0 <==> counts.Keys == {})
    decreases |counts|
  {
    if counts.Keys != {} {
      var code := Least(counts.Keys);
      Smaller(counts, code);
      assert (counts - {code}).Keys == counts.Keys - {code} && |counts - {code}| == |counts| - 1;
      GroupsBounded(counts - {code});
    }
  }

  lemma {:induction false} TotalZero(counts: map<Name, nat>)
    ensures Total(counts) == 0 <==> forall code :: code in counts ==> counts[code] == 0
    decreases |counts|
  {
    if counts.Keys != {} {
      var code := Least(counts.Keys);
      Smaller(counts, code);
      TotalZero(counts - {code});
      assert forall c :: c in counts <==> c == code || c in counts - {code};
    }
  }

  /** The counts of the selected codes, zero where there is none. */
  function Selected(counts: map<Name, nat>, codes: set<Name>): map<Name, nat> {
    map code | code in codes :: CountOf(counts, code)
  }

  lemma {:induction false} SelectOne(counts: map<Name, nat>, codes: set<Name>, code: Name)
    requires code in counts && code in codes
    ensures Selected(counts, codes) == Bumped(Selected(counts - {code}, codes), code, counts[code])
    ensures counts - codes == counts - {code} - codes
  {
  }

  lemma {:induction false} PassOver(counts: map<Name, nat>, codes: set<Name>, code: Name)
    requires code in counts && code !in codes
    ensures Selected(counts, codes) == Selected(counts - {code}, codes)
    ensures counts - codes == Bumped(counts - {code} - codes, code, counts[code])
  {
    assert (counts - codes).Keys == (counts - {code} - codes).Keys + {code};
  }

  /** What is selected and what is not add up to the whole. */
  lemma {:induction false} SelectedTotal(counts: map<Name, nat>, codes: set<Name>)
    ensures Total(Selected(counts, codes)) + Total(counts - codes) == Total(counts)
    decreases |counts|
  {
    if counts.Keys == {} {
      TotalZero(Selected(counts, codes));
      assert counts - codes == counts;
    } else {
      var code := Least(counts.Keys);
      var rest := counts - {code};
      Smaller(counts, code);
      SelectedTotal(rest, codes);
      if code in codes {
        SelectOne(counts, codes, code);
        TotalBumped(Selected(rest, codes), code, counts[code]);
      } else {
        PassOver(counts, codes, code);
        TotalBumped(rest - codes, code, counts[code]);
      }
    }
  }
}
