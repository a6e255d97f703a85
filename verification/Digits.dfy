/** Numbers in base 64 and base 1024, as UTF-8 and UTF-16 write code points. */
module Digits {
  /** Six bits split off, and put back. */
  lemma SixBits(u: nat, high: nat, low: nat)
    requires low < 64
    ensures u == high * 64 + low <==> u / 64 == high && u % 64 == low
  {
  }

  /** The digits of a number in base 64. */
  lemma Digits64(u: nat, a: nat, b: nat, c: nat, d: nat)
    requires b < 64 && c < 64 && d < 64
    ensures u == a * 262144 + b * 4096 + c * 64 + d <==>
              u / 262144 == a && u / 4096 % 64 == b && u / 64 % 64 == c && u % 64 == d
  {
    var v := u / 64;
    var w := v / 64;
    NestedDivision(u);
    SixBits(u, v, d);
    SixBits(v, w, c);
    SixBits(w, a, b);
  }

  lemma NestedDivision(u: nat)
    ensures u / 64 / 64 == u / 4096 && u / 64 / 64 / 64 == u / 262144
  {
  }

  lemma TenBits(u: nat, high: nat, low: nat)
    requires low < 0x400
    ensures u == high * 0x400 + low <==> u / 0x400 == high && u % 0x400 == low
  {
  }
}
