/** How long a text is once it is encoded in UTF-8 (section 3 of RFC 3629). */
module Utf8 {
  function CharBytes(c: char): (n: nat)
    ensures 1 <= n <= 4
  {
    if c as int < 0x80 then 1
    else if c as int < 0x800 then 2
    else if c as int < 0x1_0000 then 3
    else 4
  }

  function ByteLength(s: string): nat {
    if s == [] then 0 else ByteLength(s[..|s| - 1]) + CharBytes(s[|s| - 1])
  }

  // Printable characters only, as the network demands of names.
  predicate IsPlainAscii(s: string) {
    s == [] || (' ' <= s[|s| - 1] <= '~' && IsPlainAscii(s[..|s| - 1]))
  }

  lemma {:induction false} PlainAsciiConcat(a: string, b: string)
    ensures IsPlainAscii(a + b) <==> IsPlainAscii(a) && IsPlainAscii(b)
  {
    if b == [] {
      assert a + b == a;
    } else {
      PlainAsciiConcat(a, b[..|b| - 1]);
      assert (a + b)[..|a + b| - 1] == a + b[..|b| - 1];
    }
  }

  lemma {:induction false} PlainAsciiBytes(s: string)
    requires IsPlainAscii(s)
    ensures ByteLength(s) == |s|
  {
    if s == [] {
    } else {
      PlainAsciiBytes(s[..|s| - 1]);
    }
  }

  lemma {:induction false} ByteLengthBounds(s: string)
    ensures |s| <= ByteLength(s) <= 4 * |s|
  {
    if s == [] {
    } else {
      ByteLengthBounds(s[..|s| - 1]);
    }
  }

  predicate IsCyrillic(s: string) {
    forall i | 0 <= i < |s| :: 0x400 <= s[i] as int < 0x500
  }

  lemma {:induction false} CyrillicBytes(s: string)
    requires IsCyrillic(s)
    ensures ByteLength(s) == 2 * |s|
  {
    if s == [] {
    } else {
      CyrillicBytes(s[..|s| - 1]);
    }
  }
}
