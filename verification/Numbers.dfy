/** Number formatting: `itoa`, the in-place `strrev` it ends with, and the zero-padded
    `%#x` branch of `printf`.  The userland copies have the same bodies. */
module Numbers {
  import opened Arithmetic

  const LOOKUP := "0123456789ABCDEFGHIJKLMNOPQRSTUVWXYZ"
  const NUL: char := '\0'

  function Digit(d: nat): char
    requires d < 36
  {
    if d < 10 then '0' + d as char else 'A' + (d - 10) as char
  }

  lemma DivShrinks(v: nat, radix: nat)
    requires 2 <= radix <= v
    ensures 0 < v / radix < v
  {
    var q := v / radix;
    assert v == q * radix + v % radix;
    MulMono(q, 0, radix);
    MulMono(v, q, radix);
    MulMono(radix, 2, v);
  }

  /** The numeral of `v`, most significant digit first. */
  ghost function Numeral(v: nat, radix: nat): (s: string)
    requires 2 <= radix <= 36
    ensures s != []
    decreases v
  {
    if v < radix then [Digit(v)]
    else DivShrinks(v, radix); Numeral(v / radix, radix) + [Digit(v % radix)]
  }

  /** What one digit character is worth. */
  ghost function Value(c: char): int {
    if '0' <= c <= '9' then c as int - '0' as int
    else if 'A' <= c <= 'Z' then c as int - 'A' as int + 10
    else -1
  }

  /** The digits in order of their values. */
  lemma DigitValues(d: nat)
    requires d < 36
    ensures Value("0123456789ABCDEFGHIJKLMNOPQRSTUVWXYZ"[d]) == d
  {
    if d < 18 { assert "0123456789ABCDEFGHIJKLMNOPQRSTUVWXYZ"[..18] == "0123456789ABCDEFGH"; }
  }

  /** Reading a numeral back. */
  ghost function Parse(s: string, radix: nat): int {
    if s == [] then 0 else Parse(s[..|s| - 1], radix) * radix + Value(s[|s| - 1])
  }

  ghost predicate IsNumeral(s: string, radix: nat) {
    && s != []
    && (forall k :: 0 <= k < |s| ==> 0 <= Value(s[k]) < radix)
    && (Value(s[0]) == 0 ==> |s| == 1)
  }

  lemma LookupIsDigit(d: nat)
    requires d < 36
    ensures LOOKUP[d] == Digit(d)
  {
    if d < 18 { assert LOOKUP[..18] == "0123456789ABCDEFGH"; }
  }

  /** One more digit at the low end. */
  lemma NumeralStep(q: nat, d: nat, radix: nat)
    requires 2 <= radix <= 36 && q > 0 && d < radix
    ensures q * radix + d >= radix
    ensures Numeral(q * radix + d, radix) == Numeral(q, radix) + [Digit(d)]
  {
    MulMono(1, q, radix);
    DivModUnique(q, d, radix);
  }

  lemma NumeralUnfold(v: nat, radix: nat) returns (q: nat, d: nat)
    requires 2 <= radix <= 36 && v >= radix
    ensures 0 < q < v && d < radix && v == q * radix + d
    ensures Numeral(v, radix) == Numeral(q, radix) + [Digit(d)]
  {
    DivShrinks(v, radix);
    q, d := v / radix, v % radix;
  }

  lemma ParseAppend(s: string, c: char, radix: nat)
    ensures Parse(s + [c], radix) == Parse(s, radix) * radix + Value(c)
  {
    assert (s + [c])[..|s|] == s;
  }

  /** Parsing the numeral of `v` gives `v` back; every digit is below the radix and there
      is no leading zero. */
  lemma {:induction false} ParseNumeral(v: nat, radix: nat)
    requires 2 <= radix <= 36
    ensures Parse(Numeral(v, radix), radix) == v
    ensures IsNumeral(Numeral(v, radix), radix)
    ensures v > 0 ==> Value(Numeral(v, radix)[0]) > 0
    decreases v
  {
    if v < radix {
      ParseAppend([], Digit(v), radix);
      assert Numeral(v, radix) == [] + [Digit(v)];
    } else {
      var q, d := NumeralUnfold(v, radix);
      ParseNumeral(q, radix);
      ParseAppend(Numeral(q, radix), Digit(d), radix);
    }
  }

  /** The digits before the last of a longer numeral are a numeral. */
  lemma NumeralInit(s: string, radix: nat)
    requires IsNumeral(s, radix) && |s| > 1
    ensures var init, last := s[..|s| - 1], s[|s| - 1];
      && s == init + [last] && IsNumeral(init, radix) && init[0] == s[0] && Value(s[0]) > 0
      && 0 <= Value(last) < radix && Parse(s, radix) == Parse(init, radix) * radix + Value(last)
  {}

  lemma DigitOfValue(c: char)
    requires 0 <= Value(c) < 36
    ensures Digit(Value(c)) == c
  {}

  lemma NumeralAppend(init: string, last: char, radix: nat)
    requires 2 <= radix <= 36 && 0 <= Value(last) < radix
    requires Parse(init, radix) > 0 && Numeral(Parse(init, radix), radix) == init
    ensures Parse(init + [last], radix) > 0
    ensures Numeral(Parse(init + [last], radix), radix) == init + [last]
  {
    DigitOfValue(last);
    ParseAppend(init, last, radix);
    NumeralStep(Parse(init, radix), Value(last), radix);
  }

  /** Conversely a numeral without leading zeros is the numeral of its value. */
  lemma {:induction false} NumeralParse(s: string, radix: nat)
    requires 2 <= radix <= 36 && IsNumeral(s, radix)
    ensures Parse(s, radix) >= 0 && Numeral(Parse(s, radix), radix) == s
    ensures Value(s[0]) > 0 ==> Parse(s, radix) > 0
    decreases |s|
  {
    var init, last := s[..|s| - 1], s[|s| - 1];
    DigitOfValue(last);
    if |s| == 1 {
      assert init == [] && s == [last];
    } else {
      NumeralInit(s, radix);
      NumeralParse(init, radix);
      NumeralAppend(init, last, radix);
    }
  }

  ghost function Pow16(n: nat): nat { if n == 0 then 1 else 16 * Pow16(n - 1) }

  lemma {:induction false} HexLengthBy(v: nat, n: nat, bound: nat)
    requires v < bound && n >= 1 && bound == Pow16(n)
    ensures |Numeral(v, 16)| <= n
    decreases n
  {
    if v >= 16 && n > 1 {
      HexLengthBy(v / 16, n - 1, Pow16(n - 1));
    }
  }

  /** A 32-bit value has at most eight hexadecimal digits. */
  lemma HexLength(v: nat)
    requires v < 0x1_0000_0000
    ensures |Numeral(v, 16)| <= 8
  {
    HexLengthBy(v, 8, 0x1_0000_0000);
  }

  ghost function Reversed<T>(s: seq<T>): (r: seq<T>)
    ensures |r| == |s|
  {
    seq(|s|, i requires 0 <= i < |s| => s[|s| - 1 - i])
  }

  /** The length of the string at `at`: the distance to the first NUL. */
  ghost predicate HasLength(buf: array<char>, at: nat, len: nat)
    reads buf
  {
    && at + len < buf.Length
    && buf[at + len] == NUL
    && forall k :: at <= k < at + len ==> buf[k] != NUL
  }

  method StrLen(buf: array<char>, at: nat, ghost n: nat) returns (len: nat)
    requires HasLength(buf, at, n)
    ensures len == n
  {
    len := 0;
    while buf[at + len] != NUL
      invariant len <= n
      decreases n - len
    {
      len := len + 1;
    }
  }

  lemma ReversedSlice(was: string, now: string, at: nat, n: nat)
    requires |was| == |now| && at + n <= |was|
    requires forall k :: at <= k < at + n ==> now[k] == was[at + at + n - 1 - k]
    ensures now[at..at + n] == Reversed(was[at..at + n])
  {
    var x, y := now[at..at + n], Reversed(was[at..at + n]);
    forall k | 0 <= k < n ensures x[k] == y[k] { assert now[at + k] == was[at + at + n - 1 - (at + k)]; }
  }

  /** In-place reversal of the string at `at`; nothing else in the buffer changes. */
  method StrRev(buf: array<char>, at: nat, ghost n: nat)
    requires HasLength(buf, at, n)
    modifies buf
    ensures buf[at..at + n] == Reversed(old(buf[at..at + n]))
    ensures HasLength(buf, at, n)
    ensures forall k :: 0 <= k < buf.Length && !(at <= k < at + n) ==> buf[k] == old(buf[k])
  {
    ghost var was := buf[..];
    var len := StrLen(buf, at, n);
    var beg: int, end: int := 0, len as int - 1;
    while beg < end
      invariant 0 <= beg && beg + end + 1 == n && end >= -1
      invariant forall k :: 0 <= k < buf.Length && !(at <= k < at + n) ==> buf[k] == was[k]
      invariant forall k :: at + beg <= k <= at + end ==> buf[k] == was[k]
      invariant forall k :: at <= k < at + beg ==> buf[k] == was[at + at + n - 1 - k]
      invariant forall k :: at + end < k < at + n ==> buf[k] == was[at + at + n - 1 - k]
    {
      buf[at + end], buf[at + beg] := buf[at + beg], buf[at + end];
      beg := beg + 1;
      end := end - 1;
    }
    assert forall k :: at <= k < at + n ==> buf[k] == was[at + at + n - 1 - k] != NUL;
    ReversedSlice(was, buf[..], at, n);
    assert buf[..][at..at + n] == buf[at..at + n];
  }

  lemma ReverseTwice(s: string, c: char)
    ensures Reversed(Reversed(s)) == s
    ensures Reversed(s + [c]) == [c] + Reversed(s)
  {}

  lemma NoNul(v: nat, radix: nat)
    requires 2 <= radix <= 36
    ensures NUL !in Numeral(v, radix)
  {
    ParseNumeral(v, radix);
    var s := Numeral(v, radix);
    assert forall k :: 0 <= k < |s| ==> Value(s[k]) >= 0;
  }

  /** What one turn of the digit loop leaves to be written. */
  lemma PeelDigit(v: nat, radix: nat, low: string)
    requires 2 <= radix <= 36 && v > 0
    ensures 0 <= v / radix < v && 0 <= v % radix < radix
    ensures v / radix == 0 ==>
      Numeral(v, radix) + Reversed(low) == Reversed(low + [Digit(v % radix)])
    ensures v / radix > 0 ==>
      Numeral(v, radix) + Reversed(low) == Numeral(v / radix, radix) + Reversed(low + [Digit(v % radix)])
  {
    ReverseTwice(low, Digit(v % radix));
    if v < radix {
      DivModUnique(0, v, radix);
    } else {
      DivShrinks(v, radix);
    }
  }

  /** The digit loop of `itoa`: the digits come out lowest first. */
  method DigitsLowFirst(value: nat, buf: array<char>, at: nat, radix: nat) returns (p: nat)
    requires 0 < value && 2 <= radix <= 36
    requires at + |Numeral(value, radix)| < buf.Length
    modifies buf
    ensures p == at + |Numeral(value, radix)|
    ensures Reversed(buf[at..p]) == Numeral(value, radix)
    ensures forall k :: 0 <= k < buf.Length && !(at <= k < p) ==> buf[k] == old(buf[k])
  {
    ghost var want := Numeral(value, radix);
    var newval := value;
    p := at;
    assert Reversed(buf[at..p]) == [];
    while newval > 0
      invariant at <= p <= at + |want|
      invariant want == (if newval > 0 then Numeral(newval, radix) else []) + Reversed(buf[at..p])
      invariant forall k :: 0 <= k < buf.Length && !(at <= k < p) ==> buf[k] == old(buf[k])
    {
      ghost var low := buf[at..p];
      var i := newval % radix;
      PeelDigit(newval, radix, low);
      LookupIsDigit(i);
      buf[p] := LOOKUP[i];
      p := p + 1;
      assert buf[at..p] == low + [Digit(i)];
      newval := newval / radix;
    }
  }

  /** `itoa`: the numeral and its terminator are written at `at`, and nothing else. */
  method Itoa(value: nat, buf: array<char>, at: nat, radix: nat)
    requires value < 0x1_0000_0000 && 2 <= radix <= 36
    requires at + |Numeral(value, radix)| < buf.Length
    modifies buf
    ensures buf[at..at + |Numeral(value, radix)|] == Numeral(value, radix)
    ensures HasLength(buf, at, |Numeral(value, radix)|)
    ensures forall k :: 0 <= k < buf.Length && !(at <= k <= at + |Numeral(value, radix)|) ==> buf[k] == old(buf[k])
  {
    NoNul(value, radix);
    if value == 0 {
      buf[at] := '0';
      buf[at + 1] := NUL;
      return;
    }
    ghost var want := Numeral(value, radix);
    var p := DigitsLowFirst(value, buf, at, radix);
    ghost var low := buf[at..p];
    buf[p] := NUL;
    assert buf[at..p] == low;
    assert forall k :: at <= k < p ==> buf[k] == low[k - at] == want[p - 1 - k];
    StrRev(buf, at, |want|);
  }

  lemma {:induction false} LeadingZeros(zeros: string, s: string)
    requires forall k :: 0 <= k < |zeros| ==> zeros[k] == '0'
    ensures Parse(zeros + s, 16) == Parse(s, 16)
    decreases |zeros| + |s|
  {
    if s != [] {
      LeadingZeros(zeros, s[..|s| - 1]);
      assert (zeros + s)[..|zeros + s| - 1] == zeros + s[..|s| - 1];
    } else if zeros != [] {
      LeadingZeros(zeros[..|zeros| - 1], []);
      assert zeros + [] == zeros && zeros[..|zeros| - 1] + [] == zeros[..|zeros| - 1];
    }
  }

  lemma PaddedText(pad: nat, n: string, text: string)
    requires IsNumeral(n, 16) && |text| == pad + |n|
    requires (forall k :: 0 <= k < pad ==> text[k] == '0') && text[pad..] == n
    ensures Parse(text, 16) == Parse(n, 16)
    ensures forall k :: 0 <= k < |text| ==> 0 <= Value(text[k]) < 16
  {
    LeadingZeros(text[..pad], n);
    assert text == text[..pad] + n;
    assert forall k :: pad <= k < |text| ==> text[k] == text[pad..][k - pad];
  }

  /** The padding loop: zeros are stored from `start` up to 8. */
  method PadZeros(buf: array<char>, start: nat)
    requires buf.Length == 64 && start <= 8
    modifies buf
    ensures forall k :: start <= k < 8 ==> buf[k] == '0'
    ensures forall i, j :: 8 <= i <= j <= buf.Length ==> buf[i..j] == old(buf[i..j])
  {
    var i := start;
    while i < 8
      invariant start <= i <= 8
      invariant forall k :: start <= k < i ==> buf[k] == '0'
      invariant forall k :: 8 <= k < buf.Length ==> buf[k] == old(buf[k])
    {
      buf[i] := '0';
      i := i + 1;
    }
  }

  /** The eight characters from `start` on, when zeros fill the gap before the numeral at 8. */
  lemma PaddedSlice(buf: seq<char>, start: nat, n: string)
    requires |buf| == 64 && start == |n| <= 8 && IsNumeral(n, 16)
    requires (forall k :: start <= k < 8 ==> buf[k] == '0') && buf[8..8 + start] == n
    ensures var text := buf[start..8 + start];
      Parse(text, 16) == Parse(n, 16) && forall k :: 0 <= k < 8 ==> 0 <= Value(text[k]) < 16
  {
    var text, pad := buf[start..8 + start], 8 - start;
    forall k | 0 <= k < pad ensures text[k] == '0' { assert text[k] == buf[start + k]; }
    forall k | 0 <= k < |n| ensures text[pad..][k] == n[k] { assert n[k] == buf[8 + k] == text[pad + k]; }
    assert text[pad..] == n;
    PaddedText(pad, n, text);
  }

  /** The `%#x` branch of printf: the text handed to `puts_for_keyboard`. */
  method HexPadded(value: nat) returns (text: string)
    requires value < 0x1_0000_0000
    ensures |text| == 8 && Parse(text, 16) == value
    ensures forall k :: 0 <= k < |text| ==> 0 <= Value(text[k]) < 16
  {
    HexLength(value);
    ParseNumeral(value, 16);
    ghost var n := Numeral(value, 16);
    var convBuf := new char[64];
    Itoa(value, convBuf, 8, 16);
    var start := StrLen(convBuf, 8, |n|);
    PadZeros(convBuf, start);
    PaddedSlice(convBuf[..], start, n);
    text := convBuf[start..8 + start];
    assert text == convBuf[..][start..8 + start];
  }
}
