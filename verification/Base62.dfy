/** Base-62 numerals and the truncated random bodies of public ids. */
module Base62 {
  const DIGITS: string := "0123456789"
  const UPPER: string := "ABCDEFGHIJKLMNOPQRSTUVWXYZ"
  const LOWER: string := "abcdefghijklmnopqrstuvwxyz"
  const BASE62_ALPHABET: string := DIGITS + UPPER + LOWER

  const BASE: nat := 62

  function DigitChar(d: nat): char
    requires d < BASE
  {
    BASE62_ALPHABET[d]
  }

  /** The place of a character in the alphabet; 0 for any other character. */
  function CharValue(c: char): nat {
    if '0' <= c <= '9' then c as int - '0' as int
    else if 'A' <= c <= 'Z' then c as int - 'A' as int + 10
    else if 'a' <= c <= 'z' then c as int - 'a' as int + 36
    else 0
  }

  function ToBase62(n: nat): (s: string)
    ensures s != ""
    decreases n
  {
    if n < BASE then [DigitChar(n)] else ToBase62(n / BASE) + [DigitChar(n % BASE)]
  }

  function FromBase62(s: string): nat {
    if s == "" then 0 else FromBase62(s[..|s| - 1]) * BASE + CharValue(s[|s| - 1])
  }

  function Power(k: nat): (p: nat)
    ensures p > 0
  {
    if k == 0 then 1 else BASE * Power(k - 1)
  }

  lemma DigitAt(d: nat)
    requires d < 10
    ensures CharValue(DIGITS[d]) == d
  {
  }

  lemma UpperAt(d: nat)
    requires d < 26
    ensures CharValue(UPPER[d]) == d + 10
  {
  }

  lemma LowerAt(d: nat)
    requires d < 26
    ensures CharValue(LOWER[d]) == d + 36
  {
  }

  lemma CharsAreDistinctDigits(d: nat)
    requires d < BASE
    ensures CharValue(DigitChar(d)) == d
  {
    if d < 10 {
      DigitAt(d);
      assert BASE62_ALPHABET[d] == DIGITS[d];
    } else if d < 36 {
      UpperAt(d - 10);
      assert BASE62_ALPHABET[d] == UPPER[d - 10];
    } else {
      LowerAt(d - 36);
      assert BASE62_ALPHABET[d] == LOWER[d - 36];
    }
  }

  /** Decoding inverts encoding, so no two integers share a numeral. */
  lemma {:induction false} RoundTrip(n: nat)
    ensures FromBase62(ToBase62(n)) == n
  {
    if n < BASE {
      CharsAreDistinctDigits(n);
      assert FromBase62("") == 0;
      assert [DigitChar(n)][..0] == "";
    } else {
      RoundTrip(n / BASE);
      CharsAreDistinctDigits(n % BASE);
      var s := ToBase62(n);
      assert s[..|s| - 1] == ToBase62(n / BASE);
    }
  }

  lemma {:induction false} NoLeadingZero(n: nat)
    requires n > 0
    ensures ToBase62(n)[0] != '0'
  {
    if n < BASE {
      CharsAreDistinctDigits(n);
    } else {
      NoLeadingZero(n / BASE);
    }
  }

  lemma DivideBelow(n: nat, p: nat)
    ensures n / BASE < p <==> n < BASE * p
  {
  }

  /** A numeral has at most k digits exactly for the integers below 62 to the k. */
  lemma {:induction false} LengthExact(n: nat, k: nat)
    requires k > 0
    ensures |ToBase62(n)| <= k <==> n < Power(k)
    decreases k
  {
    assert Power(k) == BASE * Power(k - 1);
    if k == 1 {
      assert Power(0) == 1;
    } else if n < BASE {
      assert Power(k - 1) >= 1;
    } else {
      LengthExact(n / BASE, k - 1);
      DivideBelow(n, Power(k - 1));
    }
  }

  // ---- generate_prefixed_id ----

  const DRAWS: nat := 0x1_0000_0000_0000_0000
  const BODY_LENGTH: nat := 10

  function Truncate(s: string, length: nat): string {
    if |s| <= length then s else s[..length]
  }

  /** The body made from the upper 64 bits of a uuid. */
  function Body(u: nat): string {
    Truncate(ToBase62(u), BODY_LENGTH)
  }

  function Candidate(prefix: string, u: nat): string {
    prefix + Body(u)
  }

  lemma PowersOfInterest()
    ensures Power(9) == 13537086546263552 && Power(10) == 839299365868340224
    ensures DRAWS < Power(11)
  {
    assert Power(0) == 1;
    assert Power(1) == 62;
    assert Power(2) == 3844;
    assert Power(3) == 238328;
    assert Power(4) == 14776336;
    assert Power(5) == 916132832;
    assert Power(6) == 56800235584;
    assert Power(7) == 3521614606208;
    assert Power(8) == 218340105584896;
    assert Power(9) == 13537086546263552;
    assert Power(10) == 839299365868340224;
    assert Power(11) == 62 * Power(10);
  }

  /** Cutting an eleven-digit numeral to ten digits divides by 62; shorter numerals stay whole. */
  lemma BodyIsNumeral(u: nat)
    requires u < DRAWS
    ensures Body(u) == ToBase62(if u < Power(10) then u else u / BASE)
  {
    PowersOfInterest();
    LengthExact(u, 10);
    LengthExact(u, 11);
    if u >= Power(10) {
      assert |ToBase62(u)| == 11;
      assert ToBase62(u)[..10] == ToBase62(u / BASE);
    }
  }

  /**
  Two draws give the same body exactly when they are equal or the one, having eleven digits, has
  the other as its first ten, or both have eleven and share those ten.
  */
  lemma BodiesCollideExactly(u: nat, v: nat)
    requires u < DRAWS && v < DRAWS
    ensures Body(u) == Body(v) <==>
            (if u < Power(10) then u else u / BASE) == (if v < Power(10) then v else v / BASE)
  {
    BodyIsNumeral(u);
    BodyIsNumeral(v);
    var m, n := if u < Power(10) then u else u / BASE, if v < Power(10) then v else v / BASE;
    if Body(u) == Body(v) {
      RoundTrip(m);
      RoundTrip(n);
    }
  }

  function DrawsOf(body: string): set<nat> {
    set u: nat | 0 <= u < DRAWS && Body(u) == body
  }

  function Range(low: nat, count: nat): (r: set<nat>)
    ensures forall x :: x in r <==> low <= x < low + count
    ensures |r| == count
  {
    if count == 0 then {} else Range(low, count - 1) + {low + count - 1}
  }

  /** No body comes from more than 63 of the 2^64 draws. */
  lemma AtMost63Draws(body: string)
    ensures |DrawsOf(body)| <= 63
  {
    if draw :| draw in DrawsOf(body) {
      var v := if draw < Power(10) then draw else draw / BASE;
      var long := Range(BASE * v, BASE);
      forall u | u in DrawsOf(body) ensures u in long + {v} {
        BodiesCollideExactly(u, draw);
        if u >= Power(10) {
          assert u == BASE * (u / BASE) + u % BASE;
        }
      }
      SubsetSize(DrawsOf(body), long + {v});
    }
  }

  lemma SubsetSize(a: set<nat>, b: set<nat>)
    requires a <= b
    ensures |a| <= |b|
  {
    assert b == a + (b - a);
  }

  /** And 63 is reached. */
  lemma SixtyThreeDrawsReached()
    ensures |DrawsOf(ToBase62(Power(9)))| == 63
  {
    PowersOfInterest();
    var v := Power(9);
    var long := Range(BASE * v, BASE);
    BodyIsNumeral(v);
    forall u | u in long + {v} ensures u in DrawsOf(ToBase62(v)) {
      BodiesCollideExactly(u, v);
    }
    SubsetSize(long + {v}, DrawsOf(ToBase62(v)));
    AtMost63Draws(ToBase62(v));
  }

  // ---- The conversion loop ----

  function Reverse(s: string): (r: string)
    ensures |r| == |s|
    ensures forall i :: 0 <= i < |s| ==> r[i] == s[|s| - 1 - i]
  {
    if s == "" then "" else Reverse(s[1..]) + [s[0]]
  }

  method IntToBase62(num: nat) returns (r: string)
    ensures r == ToBase62(num)
  {
    if num == 0 {
      return [BASE62_ALPHABET[0]];
    }
    var chars: string := [];
    var n: nat := num;
    while n > 0
      invariant n > 0 ==> ToBase62(num) == ToBase62(n) + Reverse(chars)
      invariant n == 0 ==> ToBase62(num) == Reverse(chars)
    {
      var rem := n % BASE;
      assert Reverse(chars + [BASE62_ALPHABET[rem]]) == [BASE62_ALPHABET[rem]] + Reverse(chars);
      n, chars := n / BASE, chars + [BASE62_ALPHABET[rem]];
    }
    return Reverse(chars);
  }

  method GeneratePrefixedId(prefix: string, u: nat) returns (id: string)
    ensures id == Candidate(prefix, u)
  {
    var numeral := IntToBase62(u);
    return prefix + Truncate(numeral, BODY_LENGTH);
  }
}
