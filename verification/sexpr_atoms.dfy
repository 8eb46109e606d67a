/** Atoms as they are written: symbols, flags and integers, and that each reads back as itself. */
module SexprAtoms {
  import opened Wrappers
  import opened Sexprs

  // ---- Integers ----

  /** A decimal digit, with an underscore before it or not. */
  datatype Digit = Digit(d: nat, spaced: bool)

  predicate DigitsOk(ds: seq<Digit>) {
    ds != [] && !ds[0].spaced && forall x :: x in ds ==> x.d < 10
  }

  function DigitText(x: Digit): string {
    (if x.spaced then "_" else "") + ['0' + (x.d % 10) as char]
  }

  function DigitsText(ds: seq<Digit>): string {
    if ds == [] then "" else DigitText(ds[0]) + DigitsText(ds[1..])
  }

  /** The number the digits spell after `n`, read from left to right. */
  function DigitsValue(ds: seq<Digit>, n: nat): nat {
    if ds == [] then n else DigitsValue(ds[1..], 10 * n + ds[0].d)
  }

  datatype Sign = Unsigned | Plus | Minus

  datatype Numeral = Numeral(sign: Sign, digits: seq<Digit>)

  function NumeralText(m: Numeral): string {
    (match m.sign case Unsigned => "" case Plus => "+" case Minus => "-") + DigitsText(m.digits)
  }

  function NumeralValue(m: Numeral): int {
    var n: int := DigitsValue(m.digits, 0);
    if m.sign.Minus? then -n else n
  }

  /** A token that spells an integer. */
  ghost predicate IsNumeral(tok: string) {
    exists m: Numeral :: DigitsOk(m.digits) && NumeralText(m) == tok
  }

  lemma {:induction false} DigitsMore(init: seq<Digit>, x: Digit, n: nat)
    ensures DigitsText(init + [x]) == DigitsText(init) + DigitText(x)
    ensures DigitsValue(init + [x], n) == 10 * DigitsValue(init, n) + x.d
  {
    if init == [] {
      assert [] + [x] == [x] && [x][1..] == [];
    } else {
      assert (init + [x])[1..] == init[1..] + [x];
      DigitsMore(init[1..], x, 10 * n + init[0].d);
    }
  }

  lemma OneDigit(x: Digit)
    requires x.d < 10
    ensures var c := '0' + x.d as char;
            IsDigit(c) && c as int - '0' as int == x.d && DigitText(x) == (if x.spaced then "_" else "") + [c]
  {
  }

  /** One digit more behind digits that read already, an underscore before it or not. */
  lemma DigitsGo(head: string, n: nat, spaced: bool, c: char, s: string)
    requires head != [] && IsDigit(head[|head| - 1]) && DigitsOf(head) == Some(n)
    requires IsDigit(c) && s == head + ((if spaced then "_" else "") + [c])
    ensures DigitsOf(s) == Some(10 * n + (c as int - '0' as int))
  {
    var init := s[..|s| - 1];
    assert s[|s| - 1] == c && init == head + if spaced then "_" else "";
    if spaced { assert init[|init| - 1] == '_' && init[..|init| - 1] == head; } else { assert init == head; }
  }

  /** Digits read back as the number they spell, and their text ends in a digit. */
  lemma {:induction false} DigitsRead(ds: seq<Digit>)
    requires DigitsOk(ds)
    ensures DigitsOf(DigitsText(ds)) == Some(DigitsValue(ds, 0))
    ensures DigitsText(ds) != [] && IsDigit(DigitsText(ds)[|DigitsText(ds)| - 1])
    decreases |ds|
  {
    var init, x := ds[..|ds| - 1], ds[|ds| - 1];
    assert ds == init + [x];
    OneDigit(x);
    var c := '0' + x.d as char;
    DigitsMore(init, x, 0);
    if init == [] {
      assert DigitsText(ds) == [c] && [c][..0] == [];
    } else {
      DigitsRead(init);
      DigitsGo(DigitsText(init), DigitsValue(init, 0), x.spaced, c, DigitsText(ds));
    }
  }

  lemma LastDigit(s: string, head: string, spaced: bool, d: nat)
    requires s != [] && IsDigit(s[|s| - 1]) && d == s[|s| - 1] as int - '0' as int
    requires s[..|s| - 1] == head + if spaced then "_" else ""
    ensures d < 10 && head + DigitText(Digit(d, spaced)) == s
  {
    assert s == s[..|s| - 1] + [s[|s| - 1]];
  }

  /** Whatever reads as digits is spelled by some. */
  lemma {:induction false} DigitsSpelled(s: string) returns (ds: seq<Digit>)
    requires DigitsOf(s).Some?
    ensures DigitsOk(ds) && DigitsText(ds) == s
    decreases |s|
  {
    var d, init := s[|s| - 1] as int - '0' as int, s[..|s| - 1];
    if init == [] {
      ds := [Digit(d, false)];
      assert ds[1..] == [];
    } else {
      var spaced := init[|init| - 1] == '_';
      var head := if spaced then init[..|init| - 1] else init;
      var more := DigitsSpelled(head);
      ds := more + [Digit(d, spaced)];
      DigitsMore(more, Digit(d, spaced), 0);
      LastDigit(s, head, spaced, d);
    }
  }

  lemma DigitFirst(ds: seq<Digit>)
    requires DigitsOk(ds)
    ensures DigitsText(ds) != [] && IsDigit(DigitsText(ds)[0])
  {
  }

  lemma NumeralFirst(m: Numeral)
    requires DigitsOk(m.digits)
    ensures NumeralText(m) != [] && (IsDigit(NumeralText(m)[0]) || NumeralText(m)[0] in "+-")
  {
    DigitFirst(m.digits);
  }

  /** A numeral reads as its value. */
  lemma NumeralReads(m: Numeral)
    requires DigitsOk(m.digits)
    ensures IntOf(NumeralText(m)) == Some(NumeralValue(m))
  {
    DigitsRead(m.digits);
    DigitFirst(m.digits);
    var tok, digits := NumeralText(m), DigitsText(m.digits);
    if m.sign.Unsigned? { assert tok == digits; } else { assert tok[1..] == digits; }
  }

  /** The reader takes a token for an integer if and only if it spells one. */
  lemma IntsAreNumerals(tok: string)
    ensures IntOf(tok).Some? <==> IsNumeral(tok)
  {
    if IntOf(tok).Some? {
      var m := NumeralFor(tok);
    }
    if m: Numeral :| DigitsOk(m.digits) && NumeralText(m) == tok {
      NumeralReads(m);
    }
  }

  lemma NumeralFor(tok: string) returns (m: Numeral)
    requires IntOf(tok).Some?
    ensures DigitsOk(m.digits) && NumeralText(m) == tok
  {
    if tok != [] && (tok[0] == '-' || tok[0] == '+') {
      var ds := DigitsSpelled(tok[1..]);
      m := Numeral(if tok[0] == '-' then Minus else Plus, ds);
      assert tok == [tok[0]] + tok[1..];
    } else {
      var ds := DigitsSpelled(tok);
      m := Numeral(Unsigned, ds);
      assert "" + tok == tok;
    }
  }

  /** An integer in plain decimal. */
  function Decimal(n: int): Numeral {
    if n < 0 then Numeral(Minus, DecimalDigits(-n)) else Numeral(Unsigned, DecimalDigits(n))
  }

  function DecimalDigits(n: nat): seq<Digit> {
    (if n < 10 then [] else DecimalDigits(n / 10)) + [Digit(n % 10, false)]
  }

  lemma {:induction false} DecimalSpells(n: nat)
    ensures DigitsOk(DecimalDigits(n)) && DigitsValue(DecimalDigits(n), 0) == n
  {
    if n < 10 {
      assert [] + [Digit(n % 10, false)] == [Digit(n, false)] && [Digit(n, false)][1..] == [];
    } else {
      DecimalSpells(n / 10);
      DigitsMore(DecimalDigits(n / 10), Digit(n % 10, false), 0);
    }
  }

  // ---- Atoms ----

  /** An atom that is meant: a bare symbol, a flag or an integer in some spelling. */
  datatype Atom = Name(s: string) | Bool(b: bool) | Int(m: Numeral)

  function AtomText(a: Atom): string {
    match a
    case Name(s) => s
    case Bool(b) => if b then "#t" else "#f"
    case Int(m) => NumeralText(m)
  }

  function Meant(a: Atom): Value {
    match a
    case Name(s) => Symbol(s)
    case Bool(b) => Flag(b)
    case Int(m) => Number(NumeralValue(m))
  }

  /** A token that stands alone: no delimiter in it, no blank first, no lone dot. */
  predicate TokenOk(tok: string) {
    && tok != [] && !IsSpace(tok[0]) && (forall c :: c in tok ==> !Delim(c))
    && (tok[0] == '.' ==> |tok| > 1 && !IsSpace(tok[1]))
  }

  /** A symbol is any token that is no flag and no integer. */
  ghost predicate AtomOk(a: Atom) {
    match a
    case Name(s) => TokenOk(s) && s != "#t" && s != "#f" && !IsNumeral(s)
    case Bool(_) => true
    case Int(m) => DigitsOk(m.digits)
  }

  lemma {:induction false} DigitsPlain(ds: seq<Digit>)
    ensures forall c :: c in DigitsText(ds) ==> IsDigit(c) || c == '_'
  {
    if ds != [] { DigitsPlain(ds[1..]); }
  }

  lemma AtomTokenOk(a: Atom)
    requires AtomOk(a)
    ensures TokenOk(AtomText(a))
  {
    if a.Int? {
      DigitsPlain(a.m.digits);
      DigitFirst(a.m.digits);
    }
  }

  /** Each atom reads as what is meant by it. */
  lemma AtomMeans(a: Atom)
    requires AtomOk(a)
    ensures AtomValue(AtomText(a)) == Meant(a)
  {
    match a
    case Name(s) => IntsAreNumerals(s);
    case Bool(b) =>
    case Int(m) =>
      NumeralReads(m);
      NumeralFirst(m);
  }

  /** Every integer has a spelling, and it reads back as the integer. */
  lemma IntegerReads(n: int)
    ensures AtomOk(Int(Decimal(n))) && AtomValue(AtomText(Int(Decimal(n)))) == Number(n)
  {
    DecimalSpells(if n < 0 then -n else n);
    AtomMeans(Int(Decimal(n)));
  }
}
