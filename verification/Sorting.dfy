/** sort.Slice by descending length: not stable, so any sorted arrangement may come out. */
module Sorting {
  import opened Unredaction

  method SortByLength(keys: seq<string>) returns (sorted: seq<string>)
    ensures LongestFirst(sorted) && multiset(sorted) == multiset(keys)
  {
    hide LongestFirst, AtMost;
    sorted := [];
    NoneIsSorted();
    var rest := keys;
    while rest != []
      invariant multiset(sorted) + multiset(rest) == multiset(keys)
      invariant LongestFirst(sorted)
      invariant sorted != [] ==> AtMost(rest, |sorted[|sorted| - 1]|)
      decreases |rest|
    {
      Longest(rest);
      var i :| 0 <= i < |rest| && AtMost(rest, |rest[i]|);
      MovesOne(sorted, rest, i);
      sorted, rest := sorted + [rest[i]], rest[..i] + rest[i + 1..];
    }
  }

  lemma NoneIsSorted()
    ensures LongestFirst([])
  {
  }

  predicate AtMost(keys: seq<string>, n: nat)
  {
    forall i :: 0 <= i < |keys| ==> |keys[i]| <= n
  }

  /** One of the longest keys left over goes behind the sorted ones. */
  lemma MovesOne(sorted: seq<string>, rest: seq<string>, i: nat)
    requires i < |rest| && AtMost(rest, |rest[i]|)
    requires LongestFirst(sorted) && (sorted != [] ==> AtMost(rest, |sorted[|sorted| - 1]|))
    ensures var more, others := sorted + [rest[i]], rest[..i] + rest[i + 1..];
            && multiset(more) + multiset(others) == multiset(sorted) + multiset(rest)
            && LongestFirst(more) && AtMost(others, |rest[i]|)
  {
    assert rest == rest[..i] + [rest[i]] + rest[i + 1..];
  }

  lemma Longest(keys: seq<string>)
    requires keys != []
    ensures exists i :: 0 <= i < |keys| && AtMost(keys, |keys[i]|)
  {
    if |keys| == 1 {
      assert AtMost(keys, |keys[0]|);
    } else {
      var rest := keys[1..];
      Longest(rest);
      var i :| 0 <= i < |rest| && AtMost(rest, |rest[i]|);
      var best := if |keys[0]| >= |rest[i]| then 0 else i + 1;
      forall j | 0 <= j < |keys|
        ensures |keys[j]| <= |keys[best]|
      {
        assert j > 0 ==> keys[j] == rest[j - 1];
      }
      assert AtMost(keys, |keys[best]|);
    }
  }

  lemma SameMembers(a: seq<string>, b: seq<string>)
    requires multiset(a) == multiset(b)
    ensures forall key :: key in a <==> key in b
  {
    forall key
      ensures key in a <==> key in b
    {
      assert key in a <==> key in multiset(a);
      assert key in b <==> key in multiset(b);
    }
  }
}
