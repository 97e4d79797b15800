/** The page-selection list of src/App.tsx: the toggle on a page checkbox and the reset on a new page list. */
module PageSelection {

  /** No page index appears twice. */
  predicate NoDup(s: seq<int>) {
    forall i, j :: 0 <= i < j < |s| ==> s[i] != s[j]
  }

  /** Every entry is the index of one of `n` pages. */
  predicate InRange(s: seq<int>, n: nat) {
    forall i :: 0 <= i < |s| ==> 0 <= s[i] < n
  }

  /** `Array.prototype.indexOf`: the first position holding `v`, or -1. */
  function IndexOf(s: seq<int>, v: int): (r: int)
    ensures -1 <= r < |s|
    ensures r == -1 <==> v !in s
    ensures 0 <= r ==> s[r] == v && v !in s[..r]
  {
    if s == [] then -1
    else if s[0] == v then 0
    else
      var k := IndexOf(s[1..], v);
      if k == -1 then -1
      else
        assert s[..k + 1] == [s[0]] + s[1..][..k];
        k + 1
  }

  /** `s` with every occurrence of `v` filtered out, the rest in order. */
  function Without(s: seq<int>, v: int): seq<int> {
    if s == [] then []
    else if s[0] == v then Without(s[1..], v)
    else [s[0]] + Without(s[1..], v)
  }

  /**
   * The selection after a click on page `v`: pushed at the end when absent,
   * spliced out at its first position when present.
   */
  function Toggled(s: seq<int>, v: int): (r: seq<int>)
    ensures v !in s ==> |r| == |s| + 1 && multiset(r) == multiset(s) + multiset{v}
    ensures v in s ==> |r| == |s| - 1 && multiset(r) == multiset(s) - multiset{v}
  {
    var i := IndexOf(s, v);
    if i == -1 then s + [v]
    else
      assert s == s[..i] + [v] + s[i + 1..];
      s[..i] + s[i + 1..]
  }

  /** The selection a new page list of length `n` starts with: every page, in page order. */
  function AllPages(n: nat): (r: seq<int>)
    ensures |r| == n && NoDup(r) && InRange(r, n)
    ensures forall i, j :: 0 <= i < j < n ==> r[i] < r[j]
  {
    seq(n, i => i)
  }

  /** After the reset every one of the `n` pages is selected. */
  lemma AllPagesSelectsEvery(n: nat)
    ensures forall p :: 0 <= p < n ==> p in AllPages(n)
  {
    forall p | 0 <= p < n
      ensures p in AllPages(n)
    {
      assert AllPages(n)[p] == p;
    }
  }

  lemma {:induction false} WithoutConcat(a: seq<int>, b: seq<int>, v: int)
    ensures Without(a + b, v) == Without(a, v) + Without(b, v)
  {
    if a == [] {
      assert a + b == b;
    } else {
      assert (a + b)[0] == a[0] && (a + b)[1..] == a[1..] + b;
      WithoutConcat(a[1..], b, v);
    }
  }

  /** A click on `v` flips whether `v` is selected and leaves every other page's membership alone. */
  lemma ToggleMembership(s: seq<int>, v: int, u: int)
    requires NoDup(s)
    ensures v in Toggled(s, v) <==> v !in s
    ensures u != v ==> (u in Toggled(s, v) <==> u in s)
  {
    var i := IndexOf(s, v);
    if i != -1 {
      assert s == s[..i] + [v] + s[i + 1..];
      assert forall j :: i < j < |s| ==> s[j] != v;
      assert v !in s[i + 1..];
    }
  }

  /** The pages other than `v` keep their relative order: filtering `v` out gives the same list before and after. */
  lemma ToggleKeepsOrder(s: seq<int>, v: int)
    ensures Without(Toggled(s, v), v) == Without(s, v)
  {
    var i := IndexOf(s, v);
    if i == -1 {
      WithoutConcat(s, [v], v);
    } else {
      assert s == s[..i] + ([v] + s[i + 1..]);
      WithoutConcat(s[..i], [v] + s[i + 1..], v);
      WithoutConcat(s[..i], s[i + 1..], v);
    }
  }

  /** A selection without duplicates stays without duplicates, whatever is clicked. */
  lemma ToggleNoDup(s: seq<int>, v: int)
    requires NoDup(s)
    ensures NoDup(Toggled(s, v))
  {
    var i := IndexOf(s, v);
    if i != -1 {
      var t := Toggled(s, v);
      forall a, b | 0 <= a < b < |t|
        ensures t[a] != t[b]
      {
        var a' := if a < i then a else a + 1;
        var b' := if b < i then b else b + 1;
        assert t[a] == s[a'] && t[b] == s[b'];
      }
    }
  }

  /** Clicking one of `n` pages keeps the selection inside `[0, n)`. */
  lemma ToggleInRange(s: seq<int>, v: int, n: nat)
    requires InRange(s, n) && 0 <= v < n
    ensures InRange(Toggled(s, v), n)
  {
    var i := IndexOf(s, v);
    if i != -1 {
      var t := Toggled(s, v);
      forall a | 0 <= a < |t|
        ensures 0 <= t[a] < n
      {
        assert t[a] == s[if a < i then a else a + 1];
      }
    }
  }

  /** Clicking an unselected page twice restores the selection exactly. */
  lemma ToggleTwice(s: seq<int>, v: int)
    requires v !in s
    ensures Toggled(Toggled(s, v), v) == s
  {
    var t := s + [v];
    assert IndexOf(t, v) == |s| by {
      assert forall j :: 0 <= j < |s| ==> t[j] == s[j] && t[j] != v;
    }
    assert t[..|s|] == s;
  }

  /** Clicking a selected page twice moves it to the end of the selection. */
  lemma ToggleTwiceSelected(s: seq<int>, v: int)
    requires NoDup(s) && v in s
    ensures Toggled(Toggled(s, v), v) == Without(s, v) + [v]
  {
    ToggleMembership(s, v, v);
    ToggleKeepsOrder(s, v);
    var t := Toggled(s, v);
    WithoutAbsent(t, v);
  }

  lemma {:induction false} WithoutAbsent(s: seq<int>, v: int)
    requires v !in s
    ensures Without(s, v) == s
  {
    if s != [] {
      assert s == [s[0]] + s[1..];
      WithoutAbsent(s[1..], v);
    }
  }
}
