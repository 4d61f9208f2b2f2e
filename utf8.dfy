/** UTF-8 as Go's strings hold it: a string is a sequence of bytes, and a
    character ("rune") is decoded as RFC 3629 section 4 describes. A
    malformed sequence is read as a single byte, as Go's utf8.DecodeRune
    does. This module serves the blog summary rule in
    internal/controllers/blogs.go, which cuts a string by byte length. */
module Utf8 {

  newtype byte = x: int | 0 <= x < 256

  type Bytes = seq<byte>

  /** The byte length announced by a lead byte; 0 for a byte that cannot
      start a character (a continuation byte, C0, C1, F5..FF). */
  function LeadWidth(b: byte): nat
  {
    if b < 0x80 then 1
    else if 0xC2 <= b <= 0xDF then 2
    else if 0xE0 <= b <= 0xEF then 3
    else if 0xF0 <= b <= 0xF4 then 4
    else 0
  }

  predicate IsTail(b: byte)
  {
    0x80 <= b <= 0xBF
  }

  /** The range RFC 3629 section 4 allows for the byte after `lead`
      (this excludes overlong forms, surrogates and code points above
      U+10FFFF). */
  predicate SecondOk(lead: byte, b: byte)
  {
    if lead == 0xE0 then 0xA0 <= b <= 0xBF
    else if lead == 0xED then 0x80 <= b <= 0x9F
    else if lead == 0xF0 then 0x90 <= b <= 0xBF
    else if lead == 0xF4 then 0x80 <= b <= 0x8F
    else IsTail(b)
  }

  /** `s` begins with one well-formed encoded character. */
  predicate StartsWithRune(s: Bytes)
  {
    && |s| > 0
    && 1 <= LeadWidth(s[0]) <= |s|
    && (LeadWidth(s[0]) >= 2 ==> SecondOk(s[0], s[1]))
    && (LeadWidth(s[0]) >= 3 ==> IsTail(s[2]))
    && (LeadWidth(s[0]) == 4 ==> IsTail(s[3]))
  }

  /** The number of bytes the first character of `s` occupies. */
  function RuneWidth(s: Bytes): (w: nat)
    requires |s| > 0
    ensures 1 <= w <= |s| && w <= 4
    ensures StartsWithRune(s) ==> w == LeadWidth(s[0])
  {
    if StartsWithRune(s) then LeadWidth(s[0]) else 1
  }

  /** `s` is a well-formed UTF-8 string. */
  predicate Valid(s: Bytes)
    decreases |s|
  {
    s == [] || (StartsWithRune(s) && Valid(s[RuneWidth(s)..]))
  }

  /** The number of characters in `s` (utf8.RuneCountInString). */
  function RuneCount(s: Bytes): (n: nat)
    ensures n <= |s|
    ensures n == 0 <==> s == []
    decreases |s|
  {
    if s == [] then 0 else 1 + RuneCount(s[RuneWidth(s)..])
  }

  /** The byte length of the first `n` characters of `s`. */
  function RunePrefix(s: Bytes, n: nat): (k: nat)
    ensures k <= |s|
    ensures n > 0 && s != [] ==> k >= 1
    decreases |s|
  {
    if n == 0 || s == [] then 0
    else RuneWidth(s) + RunePrefix(s[RuneWidth(s)..], n - 1)
  }

  predicate AllAscii(s: Bytes)
  {
    forall i :: 0 <= i < |s| ==> s[i] < 0x80
  }

  /** A character at the front of `a` is read the same at the front of any
      extension `a + b`. */
  lemma StartsWithRuneExtends(a: Bytes, b: Bytes)
    requires StartsWithRune(a)
    ensures StartsWithRune(a + b) && RuneWidth(a + b) == RuneWidth(a)
    ensures (a + b)[RuneWidth(a)..] == a[RuneWidth(a)..] + b
  {
    var w := LeadWidth(a[0]);
    assert forall k :: 0 <= k < w ==> (a + b)[k] == a[k];
    assert StartsWithRune(a + b);
    assert RuneWidth(a) == w == RuneWidth(a + b);
    assert (a + b)[w..] == a[w..] + b;
  }

  /** After a well-formed prefix, the rest of the string decides validity. */
  lemma {:induction false} ValidConcat(a: Bytes, b: Bytes)
    requires Valid(a)
    ensures Valid(a + b) <==> Valid(b)
    ensures RuneCount(a + b) == RuneCount(a) + RuneCount(b)
    decreases |a|
  {
    if a == [] {
      assert a + b == b;
    } else {
      var w := RuneWidth(a);
      StartsWithRuneExtends(a, b);
      ValidConcat(a[w..], b);
    }
  }

  /** Cutting a string after its first (well-formed) character keeps that
      character, and the rest of the cut is the cut of the rest. */
  lemma CutAfterFirst(s: Bytes, k: nat)
    requires StartsWithRune(s) && RuneWidth(s) <= k <= |s|
    ensures StartsWithRune(s[..k]) && RuneWidth(s[..k]) == RuneWidth(s)
    ensures s[..k][RuneWidth(s)..] == s[RuneWidth(s)..][..k - RuneWidth(s)]
    ensures Valid(s[..k]) <==> Valid(s[RuneWidth(s)..][..k - RuneWidth(s)])
    ensures RuneCount(s[..k]) == 1 + RuneCount(s[RuneWidth(s)..][..k - RuneWidth(s)])
  {
    var w := RuneWidth(s);
    assert forall i :: 0 <= i < w ==> s[..k][i] == s[i];
  }

  /** Cutting after `n > 0` characters is cutting after the first one and
      then after `n - 1` characters of the rest. */
  lemma PrefixStep(s: Bytes, n: nat)
    requires StartsWithRune(s) && n > 0
    ensures var w := RuneWidth(s);
      var t := s[w..];
      && Valid(s[..RunePrefix(s, n)]) == Valid(t[..RunePrefix(t, n - 1)])
      && RuneCount(s[..RunePrefix(s, n)]) == 1 + RuneCount(t[..RunePrefix(t, n - 1)])
  {
    var w := RuneWidth(s);
    var t := s[w..];
    var k := RunePrefix(s, n);
    assert k == w + RunePrefix(t, n - 1);
    CutAfterFirst(s, k);
    assert s[w..][..k - w] == t[..RunePrefix(t, n - 1)];
  }

  /** Cutting a valid string after whole characters leaves a valid
      string. */
  lemma {:induction false} RunePrefixValid(s: Bytes, n: nat)
    requires Valid(s)
    ensures Valid(s[..RunePrefix(s, n)])
    decreases |s|
  {
    if n == 0 || s == [] {
      assert s[..RunePrefix(s, n)] == [];
      assert Valid([]);
    } else {
      var t := s[RuneWidth(s)..];
      assert Valid(t);
      RunePrefixValid(t, n - 1);
      assert Valid(t[..RunePrefix(t, n - 1)]);
      PrefixStep(s, n);
    }
  }

  /** The cut after `n` characters holds exactly the first `n` of them (or
      all, if there are fewer). */
  lemma {:induction false} RunePrefixCount(s: Bytes, n: nat)
    requires Valid(s)
    ensures RuneCount(s[..RunePrefix(s, n)]) == if n <= RuneCount(s) then n else RuneCount(s)
    decreases |s|
  {
    if n == 0 || s == [] {
      assert s[..RunePrefix(s, n)] == [];
    } else {
      var t := s[RuneWidth(s)..];
      assert Valid(t) && RuneCount(s) == 1 + RuneCount(t);
      RunePrefixCount(t, n - 1);
      var c := RuneCount(t[..RunePrefix(t, n - 1)]);
      assert c == if n - 1 <= RuneCount(t) then n - 1 else RuneCount(t);
      PrefixStep(s, n);
      assert RuneCount(s[..RunePrefix(s, n)]) == 1 + c;
    }
  }

  /** On pure ASCII every byte is a character, so counting characters is
      counting bytes and `RunePrefix` is the plain byte cut. */
  lemma {:induction false} AsciiRunes(s: Bytes, n: nat)
    requires AllAscii(s)
    ensures Valid(s) && RuneCount(s) == |s|
    ensures RunePrefix(s, n) == if n <= |s| then n else |s|
    decreases |s|
  {
    if s != [] {
      assert RuneWidth(s) == 1;
      assert AllAscii(s[1..]) by {
        assert forall i :: 0 <= i < |s| - 1 ==> s[1..][i] == s[i + 1];
      }
      if n > 0 {
        AsciiRunes(s[1..], n - 1);
      } else {
        AsciiRunes(s[1..], 0);
      }
    }
  }

  /** 一 (U+4E00), three bytes in UTF-8. */
  const Yi: Bytes := [0xE4, 0xB8, 0x80]

  function Repeat(c: Bytes, n: nat): (r: Bytes)
    ensures |r| == n * |c|
  {
    if n == 0 then [] else Repeat(c, n - 1) + c
  }

  lemma {:induction false} RepeatValid(c: Bytes, n: nat)
    requires Valid(c)
    ensures Valid(Repeat(c, n)) && RuneCount(Repeat(c, n)) == n * RuneCount(c)
  {
    if n > 0 {
      var prev := Repeat(c, n - 1);
      RepeatValid(c, n - 1);
      assert Repeat(c, n) == prev + c;
      ValidConcat(prev, c);
      assert n * RuneCount(c) == (n - 1) * RuneCount(c) + RuneCount(c);
    }
  }

  /** n copies of 一 are a well-formed string of n characters. */
  lemma YiRun(n: nat)
    ensures Valid(Repeat(Yi, n)) && RuneCount(Repeat(Yi, n)) == n && |Repeat(Yi, n)| == 3 * n
  {
    assert Valid(Yi) && RuneCount(Yi) == 1 by {
      assert StartsWithRune(Yi) && Yi[3..] == [];
    }
    RepeatValid(Yi, n);
  }
}
