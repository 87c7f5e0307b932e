/**
 The two phone normalisers (internal/service/account.go:1698-1726, 2252-2266): one walks the
 bytes of a string, the other its runes as Go's `range` decodes them, invalid UTF-8 included
 (the encoding is section 3 of RFC 3629).
 */
module Phone {

  newtype byte = x: int | 0 <= x < 256

  const RUNE_ERROR := 0xFFFD

  predicate IsDigit(b: byte) {
    0x30 <= b <= 0x39
  }

  // ---- Decoding ----

  /** One decoded rune: its value and how many bytes it took. */
  datatype Rune = Rune(value: nat, size: nat)

  predicate Continues(b: byte) {
    0x80 <= b <= 0xBF
  }

  /** Go's `utf8.DecodeRune`: overlong forms, surrogates and values past 0x10FFFF are one bad byte. */
  function DecodeRune(s: seq<byte>): (r: Rune)
    requires s != []
    ensures 1 <= r.size <= |s|
    ensures s[0] < 0x80 ==> r == Rune(s[0] as nat, 1)
    ensures 0x80 <= s[0] ==> 0x80 <= r.value && forall i :: 0 <= i < r.size ==> 0x80 <= s[i]
  {
    var b0 := s[0] as int;
    if b0 < 0x80 then Rune(b0, 1)
    else if 0xC2 <= b0 <= 0xDF && 2 <= |s| && Continues(s[1]) then
      Rune((b0 - 0xC0) * 0x40 + (s[1] as int - 0x80), 2)
    else if 0xE0 <= b0 <= 0xEF && 3 <= |s| && Continues(s[1]) && Continues(s[2])
      && (b0 == 0xE0 ==> 0xA0 <= s[1]) && (b0 == 0xED ==> s[1] <= 0x9F) then
      Rune((b0 - 0xE0) * 0x1000 + (s[1] as int - 0x80) * 0x40 + (s[2] as int - 0x80), 3)
    else if 0xF0 <= b0 <= 0xF4 && 4 <= |s| && Continues(s[1]) && Continues(s[2]) && Continues(s[3])
      && (b0 == 0xF0 ==> 0x90 <= s[1]) && (b0 == 0xF4 ==> s[1] <= 0x8F) then
      Rune((b0 - 0xF0) * 0x40000 + (s[1] as int - 0x80) * 0x1000 + (s[2] as int - 0x80) * 0x40
           + (s[3] as int - 0x80), 4)
    else Rune(RUNE_ERROR, 1)
  }

  /** UTF-8 of a code point (section 3 of RFC 3629). */
  function Encode(c: nat): seq<byte>
    requires c <= 0x10FFFF
  {
    if c < 0x80 then [c as byte]
    else if c < 0x800 then [(0xC0 + c / 0x40) as byte, Tail(c)]
    else if c < 0x10000 then [(0xE0 + c / 0x40 / 0x40) as byte, Tail(c / 0x40), Tail(c)]
    else [(0xF0 + c / 0x40 / 0x40 / 0x40) as byte, Tail(c / 0x40 / 0x40), Tail(c / 0x40), Tail(c)]
  }

  function Tail(c: nat): byte {
    (0x80 + c % 0x40) as byte
  }

  /** Code points without the surrogates. */
  predicate IsScalar(c: nat) {
    c < 0xD800 || 0xDFFF < c <= 0x10FFFF
  }

  predicate StartsWith(s: seq<byte>, t: seq<byte>) {
    |t| <= |s| && s[..|t|] == t
  }

  lemma EncodedIsDecoded(s: seq<byte>, c: nat)
    requires IsScalar(c) && StartsWith(s, Encode(c))
    ensures DecodeRune(s) == Rune(c, |Encode(c)|)
  {
    var t := Encode(c);
    assert forall i :: 0 <= i < |t| ==> s[i] == t[i];
    if c < 0x80 {
    } else if c < 0x800 {
      assert DecodeRune(s) == Rune(c, 2);
    } else if c < 0x10000 {
      assert DecodeRune(s) == Rune(c, 3);
    } else {
      assert DecodeRune(s) == Rune(c, 4);
    }
  }

  lemma ShortIsEncoded(s: seq<byte>)
    requires s != []
    ensures var r := DecodeRune(s);
      r == Rune(0xFFFD, 1) || r.size == 4
      || (IsScalar(r.value) && StartsWith(s, Encode(r.value)) && r.size == |Encode(r.value)|)
  {
    var r := DecodeRune(s);
    var c := r.value;
    if r != Rune(0xFFFD, 1) && r.size == 1 {
      assert s[..1] == Encode(c);
    } else if r.size == 2 {
      assert c / 0x40 == s[0] as int - 0xC0 && Tail(c) == s[1];
      assert s[..2] == Encode(c);
    } else if r.size == 3 {
      assert c / 0x40 == (s[0] as int - 0xE0) * 0x40 + (s[1] as int - 0x80) && Tail(c) == s[2];
      assert c / 0x40 / 0x40 == s[0] as int - 0xE0 && Tail(c / 0x40) == s[1];
      assert s[..3] == Encode(c);
    }
  }

  lemma LongIsEncoded(s: seq<byte>)
    requires s != [] && DecodeRune(s).size == 4
    ensures var r := DecodeRune(s);
      IsScalar(r.value) && StartsWith(s, Encode(r.value)) && |Encode(r.value)| == 4
  {
    var c := DecodeRune(s).value;
    var b0, b1, b2 := s[0] as int - 0xF0, s[1] as int - 0x80, s[2] as int - 0x80;
    assert c / 0x40 == b0 * 0x1000 + b1 * 0x40 + b2 && Tail(c) == s[3];
    assert c / 0x40 / 0x40 == b0 * 0x40 + b1 && Tail(c / 0x40) == s[2];
    assert c / 0x40 / 0x40 / 0x40 == b0 && Tail(c / 0x40 / 0x40) == s[1];
    assert s[..4] == Encode(c);
  }

  /** Decoding undoes encoding, and a string that starts with no encoding gives one bad byte. */
  lemma DecodesIff(s: seq<byte>, c: nat)
    requires s != [] && IsScalar(c)
    ensures StartsWith(s, Encode(c)) <==> DecodeRune(s) == Rune(c, |Encode(c)|)
    ensures (forall x :: IsScalar(x) ==> !StartsWith(s, Encode(x))) ==> DecodeRune(s) == Rune(0xFFFD, 1)
  {
    ShortIsEncoded(s);
    if DecodeRune(s).size == 4 {
      LongIsEncoded(s);
    }
    if StartsWith(s, Encode(c)) {
      EncodedIsDecoded(s, c);
    }
    assert |Encode(0xFFFD)| == 3;
    hide DecodeRune, Encode;
  }

  // ---- The specification: the digits of a string, in order ----

  function DigitOf(b: byte): seq<byte> {
    if IsDigit(b) then [b] else []
  }

  function Digits(s: seq<byte>): seq<byte> {
    if s == [] then [] else Digits(s[..|s| - 1]) + DigitOf(s[|s| - 1])
  }

  lemma {:induction false} DigitsDistribute(s: seq<byte>, t: seq<byte>)
    ensures Digits(s + t) == Digits(s) + Digits(t)
  {
    if t == [] {
      assert s + t == s;
    } else {
      var front, c := t[..|t| - 1], t[|t| - 1];
      hide Digits, DigitOf;
      assert t == front + [c] && s + t == s + front + [c];
      DigitsSnoc(front, c);
      DigitsSnoc(s + front, c);
      DigitsDistribute(s, front);
    }
  }

  lemma DigitsSnoc(s: seq<byte>, c: byte)
    ensures Digits(s + [c]) == Digits(s) + DigitOf(c)
  {
    assert (s + [c])[..|s|] == s;
  }

  lemma {:induction false} OnlyDigits(s: seq<byte>)
    ensures forall i :: 0 <= i < |Digits(s)| ==> IsDigit(Digits(s)[i])
  {
    if s != [] {
      OnlyDigits(s[..|s| - 1]);
    }
  }

  lemma {:induction false} DigitsOfDigits(s: seq<byte>)
    requires forall i :: 0 <= i < |s| ==> IsDigit(s[i])
    ensures Digits(s) == s
  {
    if s != [] {
      DigitsOfDigits(s[..|s| - 1]);
    }
  }

  lemma {:induction false} NoDigits(s: seq<byte>)
    requires forall i :: 0 <= i < |s| ==> !IsDigit(s[i])
    ensures Digits(s) == []
  {
    if s != [] {
      NoDigits(s[..|s| - 1]);
    }
  }

  // ---- The two loops ----

  /** `NormalizePhone`, byte by byte. */
  method NormalizeBytes(phone: seq<byte>) returns (out: seq<byte>)
    ensures out == Digits(phone)
  {
    out := [];
    for i := 0 to |phone|
      invariant out == Digits(phone[..i])
    {
      assert phone[..i + 1][..i] == phone[..i];
      if IsDigit(phone[i]) {
        out := out + [phone[i]];
      }
    }
    assert phone[..|phone|] == phone;
  }

  /** `normalizePhone`, rune by rune; a digit rune is written back as its one byte. */
  method NormalizeRunes(s: seq<byte>) returns (out: seq<byte>)
    ensures out == Digits(s)
  {
    out := [];
    assert Digits([]) == [];
    hide DecodeRune, Digits, DigitOf, IsDigit;
    var i := 0;
    while i < |s|
      invariant 0 <= i <= |s| && out == Digits(s[..i])
    {
      var r := DecodeRune(s[i..]);
      RuneStep(s, i);
      if 0x30 <= r.value <= 0x39 {
        out := out + [r.value as byte];
      }
      i := i + r.size;
    }
    assert s[..|s|] == s;
  }

  lemma RuneStep(s: seq<byte>, i: nat)
    requires i < |s|
    ensures var r := DecodeRune(s[i..]);
      Digits(s[..i + r.size]) == Digits(s[..i]) + if 0x30 <= r.value <= 0x39 then [r.value as byte] else []
  {
    hide DecodeRune, Digits, DigitOf, IsDigit;
    var r := DecodeRune(s[i..]);
    RuneDigits(s[i..]);
    assert s[..i + r.size] == s[..i] + s[i..][..r.size];
    DigitsDistribute(s[..i], s[i..][..r.size]);
  }

  /** A rune is a digit exactly when the bytes it took hold one, and then it is that byte. */
  lemma RuneDigits(s: seq<byte>)
    requires s != []
    ensures var r := DecodeRune(s);
      Digits(s[..r.size]) == if 0x30 <= r.value <= 0x39 then [r.value as byte] else []
  {
    var r := DecodeRune(s);
    if s[0] < 0x80 {
      assert s[..1] == [s[0]];
      assert [s[0]][..0] == [];
    } else {
      NoDigits(s[..r.size]);
    }
  }

  // ---- Main results ----

  /** The result is digits only; normalising is stable, and normalising a concatenation concatenates the results. */
  lemma NormalForm(s: seq<byte>, t: seq<byte>)
    ensures forall i :: 0 <= i < |Digits(s)| ==> IsDigit(Digits(s)[i])
    ensures Digits(Digits(s)) == Digits(s)
    ensures Digits(s + t) == Digits(s) + Digits(t)
  {
    OnlyDigits(s);
    DigitsOfDigits(Digits(s));
    DigitsDistribute(s, t);
  }

  /** `phoneMatches`: equal, not comparable, or the registered number lacks the country code. */
  predicate PhoneMatches(authed: seq<byte>, registered: seq<byte>) {
    var a, r := Digits(authed), Digits(registered);
    a == [] || r == [] || a == r || (7 <= |r| <= |a| && a[|a| - |r|..] == r)
  }

  /**
   Formatting never matters to a match, and a prefixed country code never breaks one that
   rests on seven digits or more.
   */
  lemma {:induction false} MatchIgnoresFormatting(authed: seq<byte>, registered: seq<byte>, code: seq<byte>)
    ensures PhoneMatches(authed, registered) <==> PhoneMatches(Digits(authed), Digits(registered))
    ensures 7 <= |Digits(registered)| && PhoneMatches(authed, registered) && Digits(authed) != [] ==>
      PhoneMatches(code + authed, registered)
  {
    NormalForm(authed, []);
    NormalForm(registered, []);
    NormalForm(code, authed);
    var a, r, c := Digits(authed), Digits(registered), Digits(code);
    hide Digits;
    assert |r| <= |a| ==> (c + a)[|c + a| - |r|..] == a[|a| - |r|..];
  }

  /**
   A number matches when one of the two has no digits, or when the paired one is the registered one
   with something in front, which may only be something where the registered one has seven digits.
   */
  lemma MatchesIff(authed: seq<byte>, registered: seq<byte>)
    ensures PhoneMatches(authed, registered) <==>
      || Digits(authed) == [] || Digits(registered) == []
      || exists code :: Digits(authed) == code + Digits(registered) && (code == [] || 7 <= |Digits(registered)|)
  {
    var a, r := Digits(authed), Digits(registered);
    hide Digits;
    if |r| <= |a| {
      var code := a[..|a| - |r|];
      assert a == code + a[|a| - |r|..];
      assert a == r ==> a == [] + r;
    }
    forall code | a == code + r
      ensures |r| <= |a| && a[|a| - |r|..] == r && (code == [] ==> a == r)
    {
    }
  }
}
