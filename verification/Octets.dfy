/** Big-endian numbers in byte strings. */
module Octets {

  type octet = n: nat | n < 256

  function Be16(n: nat): (r: seq<octet>)
    ensures |r| == 2
  {
    [n / 256 % 256, n % 256]
  }

  function Be32(n: nat): (r: seq<octet>)
    ensures |r| == 4
  {
    [n / 0x100_0000 % 256, n / 0x1_0000 % 256, n / 256 % 256, n % 256]
  }

  function U16(s: seq<octet>, i: nat): (n: nat)
    requires i + 2 <= |s|
    ensures n < 0x1_0000
  {
    s[i] as nat * 256 + s[i + 1] as nat
  }

  function U32(s: seq<octet>, i: nat): (n: nat)
    requires i + 4 <= |s|
    ensures n < 0x1_0000_0000
  {
    s[i] as nat * 0x100_0000 + s[i + 1] as nat * 0x1_0000 + s[i + 2] as nat * 256 + s[i + 3] as nat
  }

  /** Truncation to 32 bits */
  function W32(n: nat): (r: nat) {
    n % 0x1_0000_0000
  }

  lemma Be32Value(n: nat)
    ensures U32(Be32(n), 0) == W32(n)
  {
    hide W32;
    Digits(n);
    Low32(n, n / 0x100_0000 / 256, U32(Be32(n), 0));
  }

  /** The digits to base 256. */
  lemma Digits(n: nat)
    ensures n == n / 0x100_0000 / 256 * 0x1_0000_0000
                 + n / 0x100_0000 % 256 * 0x100_0000 + n / 0x1_0000 % 256 * 0x1_0000 + n / 256 % 256 * 256 + n % 256
  {
    Shift16(n);
    Shift24(n);
    var a, b, c := n / 256, n / 0x1_0000, n / 0x100_0000;
    assert n == a * 256 + n % 256 && a == b * 256 + a % 256 && b == c * 256 + b % 256 && c == c / 256 * 256 + c % 256;
  }

  lemma Shift16(n: nat)
    ensures n / 256 / 256 == n / 0x1_0000
  {
    var a, b := n / 256, n / 256 / 256;
    assert n == b * 0x1_0000 + (a % 256 * 256 + n % 256);
  }

  lemma Shift24(n: nat)
    ensures n / 0x1_0000 / 256 == n / 0x100_0000
  {
    var b, c := n / 0x1_0000, n / 0x1_0000 / 256;
    assert n == c * 0x100_0000 + (b % 256 * 0x1_0000 + n % 0x1_0000);
  }

  lemma Low32(n: nat, d: nat, r: nat)
    requires n == d * 0x1_0000_0000 + r && r < 0x1_0000_0000
    ensures W32(n) == r
  {
  }

  /** `p` stands in `s` at position `i`. */
  predicate At(s: seq<octet>, i: nat, p: seq<octet>) {
    i + |p| <= |s| && s[i..i + |p|] == p
  }

  lemma AtSplit(s: seq<octet>, i: nat, p: seq<octet>, q: seq<octet>)
    ensures At(s, i, p + q) <==> At(s, i, p) && At(s, i + |p|, q)
  {
    if i + |p| + |q| <= |s| {
      var t := s[i..i + |p| + |q|];
      assert t[..|p|] == s[i..i + |p|] && t[|p|..] == s[i + |p|..i + |p| + |q|];
      assert t == t[..|p|] + t[|p|..];
    }
  }

  lemma At16(s: seq<octet>, i: nat, n: nat)
    requires At(s, i, Be16(n)) && n < 0x1_0000
    ensures i + 2 <= |s| && U16(s, i) == n
  {
    var p := s[i..i + 2];
    assert p[0] == s[i] && p[1] == s[i + 1];
  }

  lemma At32(s: seq<octet>, i: nat, n: nat)
    requires At(s, i, Be32(n))
    ensures i + 4 <= |s| && U32(s, i) == W32(n)
  {
    hide Be32, W32;
    Be32Value(n);
    var p := s[i..i + 4];
    assert p[0] == s[i] && p[1] == s[i + 1] && p[2] == s[i + 2] && p[3] == s[i + 3];
  }
}
