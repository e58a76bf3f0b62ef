/** Lists of table indices without repetition, as linked lists visit them. */
module Lists {
  ghost function Members(s: seq<nat>): set<nat> {
    set x | x in s
  }

  ghost predicate Distinct(s: seq<nat>) {
    forall j, k :: 0 <= j < k < |s| ==> s[j] != s[k]
  }

  lemma SubsetCount<T>(a: set<T>, b: set<T>)
    requires a <= b
    ensures |a| <= |b|
  {
    assert b == a + (b - a);
  }

  lemma DistinctAt(s: seq<nat>, j: nat, k: nat)
    requires Distinct(s) && j < |s| && k < |s|
    ensures s[j] == s[k] <==> j == k
  {
  }

  /** The list without its element number at. */
  ghost function Without(s: seq<nat>, at: nat): (c: seq<nat>)
    requires at < |s|
    ensures |c| == |s| - 1
    ensures forall k {:trigger c[k]} :: 0 <= k < |c| ==> c[k] == s[if k < at then k else k + 1]
  {
    s[..at] + s[at + 1..]
  }

  /** The list with b in front. */
  ghost function Onto(b: nat, s: seq<nat>): (c: seq<nat>)
    ensures |c| == |s| + 1 && c[0] == b
    ensures forall k {:trigger c[k]} :: 1 <= k < |c| ==> c[k] == s[k - 1]
    ensures forall x :: x in c <==> x == b || x in s
  {
    [b] + s
  }

  lemma DistinctWithout(s: seq<nat>, at: nat)
    requires Distinct(s) && at < |s|
    ensures Distinct(Without(s, at))
  {
    var c := Without(s, at);
    forall j, k | 0 <= j < k < |c| ensures c[j] != c[k] {
      DistinctAt(s, if j < at then j else j + 1, if k < at then k else k + 1);
    }
  }

  lemma DistinctOnto(s: seq<nat>, b: nat)
    requires Distinct(s) && b !in s
    ensures Distinct(Onto(b, s))
  {
    var c := Onto(b, s);
    forall j, k | 0 <= j < k < |c| ensures c[j] != c[k] {
      assert c[k] == s[k - 1] && s[k - 1] in s;
    }
  }

  /** Only the element taken out is gone. */
  lemma StillIn(s: seq<nat>, at: nat, x: nat)
    requires Distinct(s) && at < |s|
    ensures x in Without(s, at) <==> x in s && x != s[at]
  {
    var c := Without(s, at);
    forall j | 0 <= j < |c| ensures c[j] in s && c[j] != s[at] {
      DistinctAt(s, if j < at then j else j + 1, at);
    }
    if x in s && x != s[at] {
      var k :| 0 <= k < |s| && s[k] == x;
      assert c[if k < at then k else k - 1] == x;
    }
  }
}
