/**
 * The bucket-list filter (`getVisibleBuckets`) as its tests specify it: an
 * empty filter shows every bucket, any other filter the buckets whose name
 * contains it, in their original order.
 */
module Buckets {
  import opened Strings
  import opened Seqs

  /** The buckets the sidebar shows for the text typed into the filter box. */
  function VisibleBuckets(list: seq<string>, filter: string): (visible: seq<string>)
    ensures filter == "" ==> visible == list
    ensures forall b :: b in visible <==> b in list && Contains(b, filter)
    ensures forall b :: multiset(visible)[b] == (if Contains(b, filter) then multiset(list)[b] else 0)
    ensures IsSubsequence(visible, list)
  {
    if filter == "" then
      assert forall b :: Contains(b, filter);
      assert forall b :: multiset(list)[b] == (if Contains(b, filter) then multiset(list)[b] else 0);
      SubsequenceOfItself(list);
      list
    else Filter(list, (b: string) => Contains(b, filter))
  }

  /** A bucket that contains the filter is shown; one that does not is hidden. */
  lemma VisibleExactly(list: seq<string>, filter: string, b: string)
    requires b in list
    ensures b in VisibleBuckets(list, filter) <==> Contains(b, filter)
  {
  }

  /** The first test: no filter, all three buckets. */
  lemma NoFilterShowsAll()
    ensures VisibleBuckets(["TEST1", "TEST11", "TEST22"], "") == ["TEST1", "TEST11", "TEST22"]
  {
  }

  /** Which of the test buckets contain "TEST1". */
  lemma TestBucketsContaining()
    ensures Contains("TEST1", "TEST1") && Contains("TEST11", "TEST1") && !Contains("TEST22", "TEST1")
  {
    assert "TEST11"[..5] == "TEST1";
    ContainsIff("TEST22", "TEST1");
    forall i: nat ensures !OccursAt("TEST22", "TEST1", i) {
      if i == 0 {
        assert "TEST22"[4] != "TEST1"[4];
      } else if i == 1 {
        assert "TEST22"[1] != "TEST1"[0];
      }
    }
  }

  /** The second test: "TEST1" keeps "TEST1" and "TEST11" and drops "TEST22". */
  lemma FilterKeepsMatches()
    ensures VisibleBuckets(["TEST1", "TEST11", "TEST22"], "TEST1") == ["TEST1", "TEST11"]
  {
    var list := ["TEST1", "TEST11", "TEST22"];
    TestBucketsContaining();
    assert list[1..] == ["TEST11", "TEST22"];
    assert list[1..][1..] == ["TEST22"];
    assert list[1..][1..][1..] == [];
  }
}
