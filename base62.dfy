/** The identifier encoder of url_shortener/shortener.py: base 62, most
    significant symbol first, over the alphabet 0-9, a-z, A-Z. */
module Base62 {

  // The source spells the alphabet as one 62-character literal; it is the
  // concatenation of these three runs, in this order.
  const Digits: string := "0123456789"
  const Lower: string := "abcdefghijklmnopqrstuvwxyz"
  const Upper: string := "ABCDEFGHIJKLMNOPQRSTUVWXYZ"
  const Alphabet: string := Digits + Lower + Upper
  const Base: nat := 62

  /** A symbol of the alphabet. */
  predicate IsSymbol(c: char) {
    '0' <= c <= '9' || 'a' <= c <= 'z' || 'A' <= c <= 'Z'
  }

  predicate AllSymbols(s: string) {
    forall i | 0 <= i < |s| :: IsSymbol(s[i])
  }

  /** The symbol of digit d, by arithmetic on character codes. */
  function Symbol(d: nat): (c: char)
    requires d < Base
    ensures IsSymbol(c)
  {
    if d < 10 then ('0' as int + d) as char
    else if d < 36 then ('a' as int + d - 10) as char
    else ('A' as int + d - 36) as char
  }

  /** The alphabet literal lists the symbols in digit order. */
  lemma AlphabetAt(d: nat)
    requires d < Base
    ensures |Alphabet| == Base && Alphabet[d] == Symbol(d)
  {
    assert forall i | 0 <= i < 10 :: Digits[i] == ('0' as int + i) as char;
    assert forall i | 0 <= i < 26 :: Lower[i] == ('a' as int + i) as char;
    assert forall i | 0 <= i < 26 :: Upper[i] == ('A' as int + i) as char;
    if d < 10 {
      assert Alphabet[d] == Digits[d];
    } else if d < 36 {
      assert Alphabet[d] == Lower[d - 10];
    } else {
      assert Alphabet[d] == Upper[d - 36];
    }
  }

  /** The digit a symbol stands for: the inverse of Symbol. */
  function SymbolValue(c: char): (v: nat)
    requires IsSymbol(c)
    ensures v < Base && Symbol(v) == c
  {
    if c <= '9' then c as int - '0' as int
    else if 'a' <= c then c as int - 'a' as int + 10
    else c as int - 'A' as int + 36
  }

  /** The reference encoding of n: one symbol below 62, otherwise the
      encoding of the quotient followed by the symbol of the remainder. */
  function ToBase62(n: nat): (s: string)
    ensures |s| >= 1 && AllSymbols(s)
    ensures n > 0 ==> s[0] != '0'
    decreases n
  {
    if n < Base then [Symbol(n)]
    else
      var p := ToBase62(n / Base);
      SymbolsSnoc(p, Symbol(n % Base));
      p + [Symbol(n % Base)]
  }

  lemma SymbolsSnoc(p: string, c: char)
    requires AllSymbols(p) && IsSymbol(c)
    ensures AllSymbols(p + [c])
  {
    forall i | 0 <= i < |p| + 1 ensures IsSymbol((p + [c])[i]) {
      if i < |p| {
        assert (p + [c])[i] == p[i];
      }
    }
  }

  /** Division by the base undoes one positional step. */
  lemma DivModBase(q: nat, r: nat)
    requires r < Base
    ensures (q * Base + r) / Base == q && (q * Base + r) % Base == r
  {
  }

  /** The reference decoder: positional value of a string of symbols. */
  function Decode(s: string): nat
    requires AllSymbols(s)
  {
    if s == [] then 0
    else Decode(s[..|s| - 1]) * Base + SymbolValue(s[|s| - 1])
  }

  /** A string that ToBase62 can produce: one symbol, or several with no leading '0'. */
  predicate IsCanonical(s: string) {
    |s| >= 1 && AllSymbols(s) && (|s| == 1 || s[0] != '0')
  }

  lemma SymbolValueAt(d: nat)
    requires d < Base
    ensures SymbolValue(Symbol(d)) == d
  {
  }

  /** One step of ToBase62: the last symbol is the remainder's, the rest
      encodes the quotient (and is empty when the quotient is 0). */
  lemma Unfold(n: nat)
    ensures n / Base == 0 ==> ToBase62(n) == [Symbol(n % Base)]
    ensures n / Base > 0 ==> ToBase62(n) == ToBase62(n / Base) + [Symbol(n % Base)]
  {
    assert n < Base <==> n / Base == 0;
    if n < Base {
      assert n % Base == n;
    }
  }

  lemma {:induction false} DecodeEncode(n: nat)
    ensures Decode(ToBase62(n)) == n
    decreases n
  {
    var q, r := n / Base, n % Base;
    assert n == q * Base + r;
    Unfold(n);
    SymbolValueAt(r);
    var s := ToBase62(n);
    if q > 0 {
      DecodeEncode(q);
      assert s[..|s| - 1] == ToBase62(q);
    } else {
      assert s[..|s| - 1] == [];
    }
  }

  lemma {:induction false} DecodeLowerBound(s: string)
    requires AllSymbols(s) && |s| >= 1 && s[0] != '0'
    ensures Decode(s) >= 1
    ensures |s| >= 2 ==> Decode(s) >= Base
    decreases |s|
  {
    var p := s[..|s| - 1];
    if |s| >= 2 {
      DecodeLowerBound(p);
    } else {
      assert Decode(s) == SymbolValue(s[0]);
    }
  }

  /** Every canonical string is the encoding of its value: with DecodeEncode,
      ToBase62 is a bijection from the naturals onto the canonical strings. */
  lemma {:induction false} EncodeDecode(s: string)
    requires IsCanonical(s)
    ensures ToBase62(Decode(s)) == s
    decreases |s|
  {
    var p := s[..|s| - 1];
    var v := SymbolValue(s[|s| - 1]);
    if |s| == 1 {
      assert Decode(s) == v;
    } else {
      DecodeLowerBound(s);
      DecodeLowerBound(p);
      assert IsCanonical(p);
      EncodeDecode(p);
      var n := Decode(s);
      DivModBase(Decode(p), v);
      assert n / Base == Decode(p) && n % Base == v;
      assert s == p + [s[|s| - 1]];
    }
  }

  lemma EncodeInjective(m: nat, n: nat)
    ensures ToBase62(m) == ToBase62(n) <==> m == n
  {
    if ToBase62(m) == ToBase62(n) {
      DecodeEncode(m);
      DecodeEncode(n);
    }
  }

  /** encode(0) is the first symbol of the alphabet. */
  lemma EncodeZero()
    ensures ToBase62(0) == [Alphabet[0]] == "0"
  {
    AlphabetAt(0);
  }

  /** s with its elements in the opposite order. */
  function Reversed(s: string): (r: string)
    ensures |r| == |s|
    ensures forall i | 0 <= i < |s| :: r[i] == s[|s| - 1 - i]
  {
    if s == [] then [] else [s[|s| - 1]] + Reversed(s[..|s| - 1])
  }

  lemma ReversedSnoc(s: string, c: char)
    ensures Reversed(s + [c]) == [c] + Reversed(s)
  {
    assert (s + [c])[..|s|] == s;
  }

  /** Python's loop: peel off remainders (least significant first) into a
      list of alphabet symbols, then reverse it. */
  method Encode(n: nat) returns (s: string)
    ensures s == ToBase62(n)
  {
    if n == 0 {
      AlphabetAt(0);
      return [Alphabet[0]];
    }
    var arr: string := [];
    var m: nat := n;
    while m != 0
      invariant m > 0 ==> ToBase62(n) == ToBase62(m) + Reversed(arr)
      invariant m == 0 ==> ToBase62(n) == Reversed(arr)
      decreases m
    {
      var rem := m % Base;
      AlphabetAt(rem);
      Unfold(m);
      m := m / Base;
      ReversedSnoc(arr, Alphabet[rem]);
      arr := arr + [Alphabet[rem]];
    }
    s := Reversed(arr);
  }
}
