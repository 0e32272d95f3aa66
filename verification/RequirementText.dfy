/** String operations the requirement parser uses; a char is a code point. */
module RequirementText {
  import opened Base

  /** White space as Unicode defines it. */
  predicate IsSpace(ch: char) {
    var c := ch as int;
    || 0x09 <= c <= 0x0D || c == 0x20 || c == 0x85 || c == 0xA0 || c == 0x1680 || 0x2000 <= c <= 0x200A
    || c == 0x2028 || c == 0x2029 || c == 0x202F || c == 0x205F || c == 0x3000
  }

  predicate IsAlnum(ch: char) {
    'a' <= ch <= 'z' || 'A' <= ch <= 'Z' || '0' <= ch <= '9'
  }

  predicate AllOf(s: string, p: char -> bool) {
    forall i :: 0 <= i < |s| ==> p(s[i])
  }

  /** The length of the longest prefix whose characters satisfy `p`. */
  function Span(s: string, p: char -> bool): (n: nat)
    ensures n <= |s|
    ensures AllOf(s[..n], p)
    ensures n < |s| ==> !p(s[n])
  {
    if s == [] || !p(s[0]) then 0 else
    var n := 1 + Span(s[1..], p);
    assert forall i :: 1 <= i < n ==> s[i] == s[1..][..n - 1][i - 1];
    n
  }

  function TrimLeft(s: string, p: char -> bool): string {
    s[Span(s, p)..]
  }

  function TrimRight(s: string, p: char -> bool): string {
    if s != [] && p(s[|s| - 1]) then TrimRight(s[..|s| - 1], p) else s
  }

  function TrimSpace(s: string): string {
    TrimRight(TrimLeft(s, IsSpace), IsSpace)
  }

  lemma TailSlice(s: string, i: nat, j: nat)
    requires s != [] && i <= j < |s|
    ensures s[1..][i..j] == s[i + 1..j + 1]
  {
    forall k | 0 <= k < j - i
      ensures s[1..][i..j][k] == s[i + 1..j + 1][k]
    {
    }
  }

  /** The first place where `sub` stands. */
  function Find(s: string, sub: string): (r: Option<nat>)
    requires sub != []
    ensures r.Some? ==> r.value + |sub| <= |s| && s[r.value..r.value + |sub|] == sub
  {
    if |s| < |sub| then None
    else if sub <= s then Some(0)
    else match Find(s[1..], sub)
      case None => None
      case Some(i) =>
        TailSlice(s, i, i + |sub|);
        Some(i + 1)
  }

  lemma {:induction false} FindIsFirst(s: string, sub: string, k: nat)
    requires sub != [] && k + |sub| <= |s| && s[k..k + |sub|] == sub
    ensures Find(s, sub).Some? && Find(s, sub).value <= k
  {
    if k == 0 {
      assert s[..|sub|] == s[0..0 + |sub|];
    } else if !(sub <= s) {
      TailSlice(s, k - 1, k - 1 + |sub|);
      FindIsFirst(s[1..], sub, k - 1);
    }
  }

  /** A text without one of its characters does not hold `sub`. */
  lemma {:induction false} FindAbsent(s: string, sub: string, k: nat)
    requires k < |sub| && sub[k] !in s
    ensures Find(s, sub).None?
  {
    if |s| >= |sub| {
      assert s[k] != sub[k];
      FindAbsent(s[1..], sub, k);
    }
  }

  /** The pieces between commas. */
  function SplitComma(s: string): (r: seq<string>)
    ensures r != []
    decreases |s|
  {
    match Find(s, ",")
    case None => [s]
    case Some(i) => [s[..i]] + SplitComma(s[i + 1..])
  }

  lemma TrimSpaceKeeps(s: string)
    requires s == [] || (!IsSpace(s[0]) && !IsSpace(s[|s| - 1]))
    ensures TrimSpace(s) == s
  {
  }
}
