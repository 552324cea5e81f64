/** Bytes in memory: little-endian words and C strings (lib.c's strlen and strncmp). */
module Bytes {
  import opened Arithmetic

  type byte = x: int | 0 <= x < 256

  /** The number whose bytes these are, lowest first. */
  function Number(s: seq<byte>): nat { if s == [] then 0 else s[0] as int + Times(0x100, Number(s[1..])) }

  lemma NumberStep(s: seq<byte>)
    requires s != []
    ensures Number(s) == s[0] as int + 0x100 * Number(s[1..])
  {
    TimesIs(0x100, Number(s[1..]));
  }

  lemma NumberOfFour(s: seq<byte>)
    requires |s| == 4
    ensures Number(s) == s[0] as int + 0x100 * (s[1] as int + 0x100 * (s[2] as int + 0x100 * (s[3] as int)))
    ensures Number(s) < 0x1_0000_0000
  {
    NumberStep(s);
    NumberStep(s[1..]);
    NumberStep(s[1..][1..]);
    NumberStep(s[1..][1..][1..]);
    assert Number(s[1..][1..][1..][1..]) == 0;
  }

  function Le32(m: seq<byte>, at: nat): (v: nat)
    requires at + 4 <= |m|
    ensures v < 0x1_0000_0000
  {
    NumberOfFour(m[at..at + 4]);
    Number(m[at..at + 4])
  }

  /** The four bytes of a 32-bit value, lowest first. */
  function Word(v: nat): (s: seq<byte>)
    ensures |s| == 4
  {
    [v % 0x100, v / 0x100 % 0x100, v / 0x100 / 0x100 % 0x100, v / 0x100 / 0x100 / 0x100 % 0x100]
  }

  /** One byte below a value: what `Word` takes apart and `Number` puts together. */
  lemma LowByte(b: nat, rest: nat)
    requires b < 0x100
    ensures (b + 0x100 * rest) % 0x100 == b && (b + 0x100 * rest) / 0x100 == rest
  {
    DivModUnique(rest, b, 0x100);
  }

  lemma WordOfNumber(s: seq<byte>)
    requires |s| == 4
    ensures Word(Number(s)) == s
  {
    NumberOfFour(s);
    var v3: nat := s[3];
    var v2 := s[2] as int + 0x100 * v3;
    var v1 := s[1] as int + 0x100 * v2;
    LowByte(s[2], v3);
    LowByte(s[1], v2);
    LowByte(s[0], v1);
    assert v3 % 0x100 == v3;
  }

  lemma SplitLow(v: nat)
    ensures v == v % 0x100 + 0x100 * (v / 0x100)
  {}

  lemma NumberOfWord(v: nat)
    requires v < 0x1_0000_0000
    ensures Number(Word(v)) == v
  {
    NumberOfFour(Word(v));
    SplitLow(v);
    SplitLow(v / 0x100);
    SplitLow(v / 0x100 / 0x100);
    SplitLow(v / 0x100 / 0x100 / 0x100);
    assert v / 0x100 / 0x100 / 0x100 < 0x100;
  }

  /** Reading a word and writing it again gives the same bytes. */
  lemma WordOfLe32(m: seq<byte>, at: nat)
    requires at + 4 <= |m|
    ensures Word(Le32(m, at)) == m[at..at + 4]
  {
    WordOfNumber(m[at..at + 4]);
  }

  /** Writing a 32-bit value and reading it gives the value. */
  lemma Le32OfWord(m: seq<byte>, at: nat, v: nat)
    requires at + 4 <= |m| && v < 0x1_0000_0000 && m[at..at + 4] == Word(v)
    ensures Le32(m, at) == v
  {
    NumberOfWord(v);
  }

  /** The C string at `at`: everything up to the first NUL, or to the end of memory. */
  ghost function CStr(m: seq<byte>, at: nat): (s: seq<byte>)
    requires at <= |m|
    ensures at + |s| <= |m| && s == m[at..at + |s|]
    ensures 0 !in s
    ensures at + |s| < |m| ==> m[at + |s|] == 0
    decreases |m| - at
  {
    if at == |m| || m[at] == 0 then [] else [m[at]] + CStr(m, at + 1)
  }

  ghost predicate Terminated(m: seq<byte>, at: nat) {
    at <= |m| && at + |CStr(m, at)| < |m|
  }

  lemma {:induction false} CStrIs(m: seq<byte>, at: nat, s: seq<byte>)
    requires at + |s| < |m| && m[at..at + |s|] == s && 0 !in s && m[at + |s|] == 0
    ensures CStr(m, at) == s
    decreases |s|
  {
    if s != [] {
      assert s[0] == m[at];
      CStrIs(m, at + 1, s[1..]);
    }
  }

  method StrLen(m: seq<byte>, at: nat) returns (len: nat)
    requires Terminated(m, at)
    ensures len == |CStr(m, at)|
  {
    ghost var s := CStr(m, at);
    assert forall k :: 0 <= k < |s| ==> s[k] == m[at + k] != 0;
    len := 0;
    while m[at + len] != 0
      invariant len <= |s|
      decreases |s| - len
    {
      len := len + 1;
    }
  }

  ghost function Take(s: seq<byte>, n: nat): seq<byte> { s[..Min(n, |s|)] }

  lemma TakesDiffer(x: seq<byte>, y: seq<byte>, i: nat, n: nat)
    requires i < n && i <= |x| && i <= |y|
    requires (i < |x| && (i == |y| || x[i] != y[i])) || (i < |y| && i == |x|)
    ensures Take(x, n) != Take(y, n)
  {
    if i < |x| { assert Take(x, n)[i] == x[i]; }
    if i < |y| { assert Take(y, n)[i] == y[i]; }
  }

  lemma TakesAgree(x: seq<byte>, y: seq<byte>, i: nat, n: nat)
    requires i <= |x| && i <= |y| && (i == n || i == |x| == |y|)
    requires forall k :: 0 <= k < i ==> x[k] == y[k]
    ensures i <= n ==> Take(x, n) == Take(y, n)
  {}

  /** strncmp(s + a, t + b, n): zero exactly when the two strings agree up to `n` bytes. */
  method StrNCmp(s: seq<byte>, a: nat, t: seq<byte>, b: nat, n: nat) returns (d: int)
    requires Terminated(s, a) && Terminated(t, b)
    ensures d == 0 <==> Take(CStr(s, a), n) == Take(CStr(t, b), n)
  {
    ghost var x, y := CStr(s, a), CStr(t, b);
    assert forall k :: 0 <= k < |x| ==> x[k] == s[a + k] != 0;
    assert forall k :: 0 <= k < |y| ==> y[k] == t[b + k] != 0;
    var i := 0;
    while i < n
      invariant i <= n && i <= |x| && i <= |y|
      invariant forall k :: 0 <= k < i ==> x[k] == y[k]
    {
      if s[a + i] != t[b + i] || s[a + i] == 0 {
        if s[a + i] != t[b + i] { TakesDiffer(x, y, i, n); } else { TakesAgree(x, y, i, n); }
        return s[a + i] as int - t[b + i] as int;
      }
      i := i + 1;
    }
    TakesAgree(x, y, i, n);
    return 0;
  }
}
