/** What several components share. */
module Basics {
  datatype Option<+T> = None | Some(value: T)

  function TrimLeft<T>(blank: T -> bool, s: seq<T>): seq<T> {
    if s != [] && blank(s[0]) then TrimLeft(blank, s[1..]) else s
  }

  function TrimRight<T>(blank: T -> bool, s: seq<T>): seq<T> {
    if s != [] && blank(s[|s| - 1]) then TrimRight(blank, s[..|s| - 1]) else s
  }

  /** Without the blanks at both ends. */
  function Trim<T>(blank: T -> bool, s: seq<T>): seq<T> { TrimRight(blank, TrimLeft(blank, s)) }

  /** Trimming keeps exactly what lies between the first and the last element that is not blank. */
  lemma TrimIsInner<T>(blank: T -> bool, s: seq<T>) returns (i: nat, j: nat)
    ensures i <= j <= |s| && Trim(blank, s) == s[i..j]
    ensures (forall k :: 0 <= k < i ==> blank(s[k])) && (forall k :: j <= k < |s| ==> blank(s[k]))
    ensures i < j ==> !blank(s[i]) && !blank(s[j - 1])
  {
    i := LeftIsSuffix(blank, s);
    var t := s[i..];
    j := RightIsPrefix(blank, t);
    assert t[..j] == s[i..i + j];
    j := i + j;
    assert forall k :: j <= k < |s| ==> s[k] == t[k - i];
  }

  lemma {:induction false} LeftIsSuffix<T>(blank: T -> bool, s: seq<T>) returns (i: nat)
    ensures i <= |s| && TrimLeft(blank, s) == s[i..] && (i < |s| ==> !blank(s[i]))
    ensures forall k :: 0 <= k < i ==> blank(s[k])
  {
    i := 0;
    if s != [] && blank(s[0]) {
      i := LeftIsSuffix(blank, s[1..]);
      i := i + 1;
    }
  }

  lemma {:induction false} RightIsPrefix<T>(blank: T -> bool, s: seq<T>) returns (j: nat)
    ensures j <= |s| && TrimRight(blank, s) == s[..j] && (j > 0 ==> !blank(s[j - 1]))
    ensures forall k :: j <= k < |s| ==> blank(s[k])
  {
    j := |s|;
    if s != [] && blank(s[|s| - 1]) {
      j := RightIsPrefix(blank, s[..|s| - 1]);
    }
  }

  /** Times are nanoseconds unless said otherwise. */
  const SECOND := 1_000_000_000

  // ---- Filtering ----

  function Filter<T(!new)>(p: T -> bool, s: seq<T>): (r: seq<T>)
    ensures forall x :: x in r <==> x in s && p(x)
    ensures |r| <= |s|
  {
    if s == [] then []
    else Filter(p, s[..|s| - 1]) + if p(s[|s| - 1]) then [s[|s| - 1]] else []
  }

  lemma FilterNext<T(!new)>(p: T -> bool, s: seq<T>, i: nat)
    requires i < |s|
    ensures Filter(p, s[..i + 1]) == Filter(p, s[..i]) + if p(s[i]) then [s[i]] else []
  {
    assert s[..i + 1][..i] == s[..i];
  }

  lemma FilterOfAppend<T(!new)>(p: T -> bool, s: seq<T>, x: T)
    ensures Filter(p, s + [x]) == Filter(p, s) + if p(x) then [x] else []
  {
    FilterNext(p, s + [x], |s|);
    assert (s + [x])[..|s| + 1] == s + [x] && (s + [x])[..|s|] == s;
  }

  /** The positions of the elements that have the property. */
  ghost function Where<T(!new)>(p: T -> bool, s: seq<T>): set<int> { set i | 0 <= i < |s| && p(s[i]) }

  lemma WhereNext<T(!new)>(p: T -> bool, s: seq<T>, x: T)
    ensures |Where(p, s + [x])| == |Where(p, s)| + if p(x) then 1 else 0
  {
    var all := s + [x];
    assert forall i :: 0 <= i < |s| ==> all[i] == s[i];
    assert Where(p, all) == Where(p, s) + if p(x) then {|s|} else {};
  }

  /** As many elements are left as have the property. */
  lemma {:induction false} FilterCount<T(!new)>(p: T -> bool, s: seq<T>)
    ensures |Filter(p, s)| == |Where(p, s)|
  {
    if s != [] {
      var init, last := s[..|s| - 1], s[|s| - 1];
      FilterCount(p, init);
      WhereNext(p, init, last);
      assert s == init + [last];
    }
  }
}
