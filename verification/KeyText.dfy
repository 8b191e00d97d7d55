/** Numbers in decimal and parts separated by colons, as stored keys use them. */
module KeyText {
  import opened Basics

  function Digit(d: nat): char
    requires d < 10
  {
    '0' + d as char
  }

  function Digits(n: nat): (s: string)
    ensures s != "" && forall i :: 0 <= i < |s| ==> '0' <= s[i] <= '9'
  {
    if n < 10 then [Digit(n)] else Digits(n / 10) + [Digit(n % 10)]
  }

  /** `fmt.Sprintf("%d", n)`. */
  function Decimal(n: int): string { if n < 0 then "-" + Digits(-n) else Digits(n) }

  function ParseDigits(s: string): Option<nat> {
    if s == "" then None
    else
      var c := s[|s| - 1];
      if !('0' <= c <= '9') then None
      else if |s| == 1 then Some((c - '0') as nat)
      else match ParseDigits(s[..|s| - 1])
        case None => None
        case Some(n) => Some(10 * n + (c - '0') as nat)
  }

  /** `strconv.Atoi`, for numbers that fit. */
  function Atoi(s: string): Option<int> {
    if s != "" && (s[0] == '-' || s[0] == '+') then
      match ParseDigits(s[1..])
      case None => None
      case Some(n) => var m: int := n; Some(if s[0] == '-' then -m else m)
    else match ParseDigits(s)
      case None => None
      case Some(n) => Some(n)
  }

  lemma {:induction false} DigitsRoundTrip(n: nat)
    ensures ParseDigits(Digits(n)) == Some(n)
  {
    if n >= 10 {
      DigitsRoundTrip(n / 10);
      var s := Digits(n);
      assert s[..|s| - 1] == Digits(n / 10);
    }
  }

  lemma DecimalRoundTrip(n: int)
    ensures Atoi(Decimal(n)) == Some(n) && ':' !in Decimal(n)
  {
    DigitsRoundTrip(if n < 0 then -n else n);
    if n < 0 {
      assert Decimal(n)[1..] == Digits(-n);
    }
  }

  /** First position of a colon at or after i; |s| if there is none. */
  function FirstColon(s: string, i: nat): (j: nat)
    requires i <= |s|
    ensures i <= j <= |s| && (j < |s| ==> s[j] == ':') && forall k :: i <= k < j ==> s[k] != ':'
    decreases |s| - i
  {
    if i == |s| || s[i] == ':' then i else FirstColon(s, i + 1)
  }

  /** One past the last colon before i; 0 if there is none. */
  function PastLastColon(s: string, i: nat): (j: nat)
    requires i <= |s|
    ensures j <= i && (j > 0 ==> s[j - 1] == ':') && forall k :: j <= k < i ==> s[k] != ':'
  {
    if i == 0 || s[i - 1] == ':' then i else PastLastColon(s, i - 1)
  }

  lemma SplitFirst(a: string, b: string)
    requires ':' !in a
    ensures var s := a + (":" + b); FirstColon(s, 0) == |a| && s[..|a|] == a && s[|a| + 1..] == b
  {
    var s := a + (":" + b);
    assert s[|a|] == ':';
    assert forall k :: 0 <= k < |a| ==> s[k] == a[k];
    assert FirstColon(s, 0) >= |a|;
  }

  lemma SplitLast(a: string, b: string)
    requires ':' !in b
    ensures var s := a + (":" + b); PastLastColon(s, |s|) == |a| + 1 && s[..|a|] == a && s[|a| + 1..] == b
  {
    var s := a + (":" + b);
    assert s[|a|] == ':';
    assert forall k :: |a| < k < |s| ==> s[k] == b[k - |a| - 1];
    assert PastLastColon(s, |s|) <= |a| + 1;
  }
}
