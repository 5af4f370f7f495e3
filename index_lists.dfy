/** Shapes of the index lists that the clustering passes around. */
module IndexLists {

  /** Every element is smaller than every later one. */
  predicate StrictlyAscending(s: seq<nat>)
  {
    forall a, b :: 0 <= a < b < |s| ==> s[a] < s[b]
  }

  /** No index occurs twice. */
  predicate NoDuplicates(s: seq<nat>)
  {
    forall a, b :: 0 <= a < b < |s| ==> s[a] != s[b]
  }

  /** Two strictly ascending lists with the same elements start with the same element. */
  lemma AscendingHeads(s: seq<nat>, t: seq<nat>)
    requires StrictlyAscending(s) && StrictlyAscending(t)
    requires forall x :: x in s <==> x in t
    requires s != []
    ensures t != [] && s[0] == t[0]
  {
    assert s[0] in t;
    var b :| 0 <= b < |t| && t[b] == s[0];
    assert t[0] in s;
    var a :| 0 <= a < |s| && s[a] == t[0];
    assert s[0] <= s[a] && t[0] <= t[b];
  }

  /** Dropping the common first element of two such lists leaves two lists with the same elements. */
  lemma AscendingTails(s: seq<nat>, t: seq<nat>)
    requires StrictlyAscending(s) && StrictlyAscending(t)
    requires forall x :: x in s <==> x in t
    requires s != [] && t != [] && s[0] == t[0]
    ensures forall x :: x in s[1..] <==> x in t[1..]
  {
    forall x
      ensures x in s[1..] ==> x in t[1..]
    {
      if x in s[1..] {
        var a :| 1 <= a < |s| && s[a] == x;
        assert s[0] < x && x in t;
        var b :| 0 <= b < |t| && t[b] == x;
        assert b != 0;
        assert t[1..][b - 1] == x;
      }
    }
    forall x
      ensures x in t[1..] ==> x in s[1..]
    {
      if x in t[1..] {
        var b :| 1 <= b < |t| && t[b] == x;
        assert t[0] < x && x in s;
        var a :| 0 <= a < |s| && s[a] == x;
        assert a != 0;
        assert s[1..][a - 1] == x;
      }
    }
  }

  /** A strictly ascending list is determined by the set of its elements. */
  lemma {:induction false} AscendingUnique(s: seq<nat>, t: seq<nat>)
    requires StrictlyAscending(s) && StrictlyAscending(t)
    requires forall x :: x in s <==> x in t
    ensures s == t
  {
    if s != [] {
      AscendingHeads(s, t);
      AscendingTails(s, t);
      assert StrictlyAscending(s[1..]) && StrictlyAscending(t[1..]);
      AscendingUnique(s[1..], t[1..]);
      assert s == [s[0]] + s[1..] && t == [t[0]] + t[1..];
    } else if t != [] {
      AscendingHeads(t, s);
    }
  }
}
