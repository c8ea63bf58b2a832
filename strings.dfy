/** List-of-strings helpers: membership and removal of every occurrence. */
module Strings {

  function ContainsString(list: seq<string>, s: string): (r: bool)
    ensures r <==> exists i :: 0 <= i < |list| && list[i] == s
  {
    if |list| == 0 then false
    else if list[0] == s then true
    else
      assert forall i :: 0 < i < |list| ==> list[i] == list[1..][i - 1];
      ContainsString(list[1..], s)
  }

  /** `list` without any occurrence of `s`, the other entries in their order. */
  function RemoveString(list: seq<string>, s: string): (r: seq<string>)
    ensures forall x :: x in r <==> x in list && x != s
    ensures |r| <= |list|
    ensures s !in list ==> r == list
  {
    if |list| == 0 then []
    else if list[0] == s then RemoveString(list[1..], s)
    else [list[0]] + RemoveString(list[1..], s)
  }

  /** Removal distributes over concatenation: the kept entries keep their order. */
  lemma {:induction false} RemoveStringConcat(a: seq<string>, b: seq<string>, s: string)
    ensures RemoveString(a + b, s) == RemoveString(a, s) + RemoveString(b, s)
  {
    if |a| > 0 {
      assert (a + b)[1..] == a[1..] + b;
      RemoveStringConcat(a[1..], b, s);
    } else {
      assert a + b == b;
    }
  }

  /** Every occurrence goes, and nothing else: the count of each other entry is kept. */
  lemma {:induction false} RemoveStringCounts(list: seq<string>, s: string)
    ensures multiset(RemoveString(list, s)) == multiset(list)[s := 0]
  {
    if |list| > 0 {
      RemoveStringCounts(list[1..], s);
      assert list == [list[0]] + list[1..];
    }
  }

  /** The cases the helpers' tests pin down. */
  lemma StringsHelperCases()
    ensures ContainsString(["apple", "banana", "cherry"], "banana")
    ensures !ContainsString(["apple", "banana", "cherry"], "grape")
    ensures !ContainsString([], "apple")
    ensures RemoveString(["apple", "banana", "cherry"], "banana") == ["apple", "cherry"]
    ensures RemoveString(["apple", "banana", "cherry"], "grape") == ["apple", "banana", "cherry"]
    ensures RemoveString([], "apple") == []
  {
    assert ["apple", "banana", "cherry"][1] == "banana";
  }
}
