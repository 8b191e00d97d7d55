/** Text comparison as the resolver uses it, for ASCII. */
module Text {
  import opened Basics

  function LowerChar(c: char): char { if 'A' <= c <= 'Z' then c - 'A' + 'a' else c }

  function Lower(s: string): (r: string)
    ensures |r| == |s| && forall i :: 0 <= i < |s| ==> r[i] == LowerChar(s[i])
  {
    seq(|s|, i requires 0 <= i < |s| => LowerChar(s[i]))
  }

  predicate EqualFold(a: string, b: string) { Lower(a) == Lower(b) }

  predicate HasAt(s: string, part: string, i: int) { 0 <= i <= |s| - |part| && s[i..i + |part|] == part }

  predicate Contains(s: string, part: string) { exists i :: 0 <= i <= |s| && HasAt(s, part, i) }

  predicate IsSpace(c: char): (r: bool)
    ensures r <==> c in [' ', '\t', '\n', 11 as char, 12 as char, '\r']
  {
    c == ' ' || '\t' <= c <= '\r'
  }

  function TrimSpace(s: string): string { Trim(IsSpace, s) }

  // ---- Without regard to case ----

  /** The same letter, or a capital and its small letter, which comes 32 places later. */
  predicate SameLetter(a: char, b: char) {
    || a == b
    || ('A' <= a <= 'Z' && b as int == a as int + 32)
    || ('A' <= b <= 'Z' && a as int == b as int + 32)
  }

  /** `part` stands at position k of s. */
  predicate StandsAt(s: string, part: string, k: nat) {
    k + |part| <= |s| && forall i :: 0 <= i < |part| ==> SameLetter(s[k + i], part[i])
  }

  predicate SameText(a: string, b: string) { |a| == |b| && StandsAt(a, b, 0) }

  lemma LowerIff(a: char, b: char)
    ensures LowerChar(a) == LowerChar(b) <==> SameLetter(a, b)
  {
  }

  lemma StandsAtIff(s: string, part: string, k: nat)
    requires k + |part| <= |s|
    ensures Lower(s)[k..k + |part|] == Lower(part) <==> StandsAt(s, part, k)
  {
    var there := Lower(s)[k..k + |part|];
    forall i | 0 <= i < |part| ensures there[i] == Lower(part)[i] <==> SameLetter(s[k + i], part[i]) {
      LowerIff(s[k + i], part[i]);
    }
    if StandsAt(s, part, k) {
      assert there == Lower(part);
    }
  }

  lemma EqualFoldIff(a: string, b: string)
    ensures EqualFold(a, b) <==> SameText(a, b)
  {
    if |a| == |b| {
      StandsAtIff(a, b, 0);
      assert Lower(a)[0..|b|] == Lower(a);
    } else {
      assert |Lower(a)| != |Lower(b)|;
    }
  }

  lemma PrefixIff(s: string, part: string)
    ensures Lower(part) <= Lower(s) <==> StandsAt(s, part, 0)
  {
    if |part| <= |s| {
      StandsAtIff(s, part, 0);
    }
  }

  lemma ContainsIff(s: string, part: string)
    ensures Contains(Lower(s), Lower(part)) <==> exists k: nat :: StandsAt(s, part, k)
  {
    forall k: nat | k + |part| <= |s| ensures HasAt(Lower(s), Lower(part), k) <==> StandsAt(s, part, k) {
      StandsAtIff(s, part, k);
    }
    if Contains(Lower(s), Lower(part)) {
      var k :| 0 <= k <= |s| && HasAt(Lower(s), Lower(part), k);
      assert StandsAt(s, part, k);
    }
    if k: nat :| StandsAt(s, part, k) {
      assert HasAt(Lower(s), Lower(part), k);
    }
  }
}
