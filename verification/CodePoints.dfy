/** Texts as sequences of code points: white space, and their length in UTF-8 bytes. */
module CodePoints {
  /** unicode.IsSpace */
  predicate IsSpace(c: char) {
    var n := c as int;
    || 9 <= n <= 13 || n == 0x20 || n == 0x85 || n == 0xA0 || n == 0x1680 || 0x2000 <= n <= 0x200A
    || n == 0x2028 || n == 0x2029 || n == 0x202F || n == 0x205F || n == 0x3000
  }

  /** A text of white space only. */
  predicate Blank(s: string) { forall i | 0 <= i < |s| :: IsSpace(s[i]) }

  function Width(c: char): nat {
    var n := c as int;
    if n < 0x80 then 1 else if n < 0x800 then 2 else if n < 0x10000 then 3 else 4
  }

  /** The length of a text in bytes. */
  function ByteLength(s: string): (n: nat)
    ensures |s| <= n && (n == 0 <==> s == "")
  {
    if s == "" then 0 else Width(s[0]) + ByteLength(s[1..])
  }

  lemma {:induction false} ByteLengthConcat(a: string, b: string)
    ensures ByteLength(a + b) == ByteLength(a) + ByteLength(b)
  {
    if a == "" {
      assert a + b == b;
    } else {
      assert (a + b)[1..] == a[1..] + b;
      ByteLengthConcat(a[1..], b);
    }
  }

  /** How many code points of a text fit in some bytes. */
  function Fitting(s: string, bytes: nat): (n: nat)
    ensures n <= |s| && (ByteLength(s) > bytes ==> n < |s|)
  {
    if s == "" || Width(s[0]) > bytes then 0 else 1 + Fitting(s[1..], bytes - Width(s[0]))
  }

  /** They fill the bytes but for less than one code point. */
  lemma {:induction false} FittingFills(s: string, bytes: nat)
    ensures ByteLength(s[..Fitting(s, bytes)]) <= bytes
    ensures ByteLength(s) > bytes ==> ByteLength(s[..Fitting(s, bytes)]) + 4 > bytes
  {
    var n := Fitting(s, bytes);
    if n > 0 {
      FittingFills(s[1..], bytes - Width(s[0]));
      assert s[..n][1..] == s[1..][..n - 1];
    }
  }
}
