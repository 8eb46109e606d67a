/** S-expressions of the generated data files: how they are read, how they are printed, and that reading undoes
    printing in any layout. */
module Sexprs {
  import opened Wrappers
  import opened Lines

  /** `Pair` is a dotted pair; a vector reads as a list. */
  datatype Value = Text(s: string) | Symbol(s: string) | Flag(b: bool) | Number(n: int) | List(items: seq<Value>)
        | Pair(car: Value, cdr: Value)

  datatype Error = UnexpectedEnd | UnterminatedString | CutEscape | UnterminatedVector | UnterminatedList
        | MalformedPair | TrailingContent

  // ---- Characters ----

  predicate IsSpace(c: char) {
    var n := c as int;
    9 <= n <= 13 || 28 <= n <= 32 || n == 0x85 || n == 0xa0 || n == 0x1680 || 0x2000 <= n <= 0x200a || n == 0x2028
        || n == 0x2029
    || n == 0x202f || n == 0x205f || n == 0x3000
  }

  /** What ends an atom. */
  predicate Delim(c: char) {
    c == ' ' || c == '\t' || c == '\n' || c == '\r' || c == '(' || c == ')' || c == '"' || c == ';'
  }

  // ---- Reading ----

  function AfterLine(s: string): (r: string)
    ensures |r| <= |s| && (s != [] ==> |r| < |s|)
  {
    var b := BreakFrom(s, 0);
    if b == |s| then [] else s[b + 1..]
  }

  /** The text after whitespace and comments. */
  function Skip(s: string): (r: string)
    ensures |r| <= |s| && (r != [] ==> !IsSpace(r[0]) && r[0] != ';')
    decreases |s|
  {
    if s == [] then []
    else if s[0] == ';' then Skip(AfterLine(s))
    else if IsSpace(s[0]) then Skip(s[1..])
    else s
  }

  lemma SkipComment(text: string, pos: nat, nl: nat, here: string)
    requires pos < |text| && text[pos] == ';' && nl == BreakFrom(text, pos) && here == text[pos..]
    ensures nl == |text| ==> Skip(here) == Skip(text[|text|..])
    ensures nl < |text| ==> Skip(here) == Skip(text[nl + 1..])
  {
    BreakShift(text, pos);
    assert text[|text|..] == [];
    if nl < |text| {
      var after := text[nl + 1..];
      assert here[nl - pos + 1..] == after;
      assert AfterLine(here) == after;
    } else {
      assert AfterLine(here) == [];
    }
  }

  type Quoted = Result<(string, string), Error>

  function WithPrefix(out: string, r: Quoted): Quoted {
    match r case Success(v) => Success((out + v.0, v.1)) case Failure(e) => Failure(e)
  }

  lemma PrefixMore(out: string, c: char, r: Quoted)
    ensures WithPrefix(out, WithPrefix([c], r)) == WithPrefix(out + [c], r) && WithPrefix([], r) == r
  {
    if r.Success? { assert out + ([c] + r.value.0) == out + [c] + r.value.0 && [] + r.value.0 == r.value.0; }
  }

  /** A string's characters after its opening quote, and the text after the closing one. */
  function ReadQuoted(s: string): (r: Quoted)
    ensures r.Success? ==> |r.value.1| < |s|
    decreases |s|
  {
    if s == [] then Failure(UnterminatedString)
    else if s[0] == '\\' then
      if |s| == 1 then Failure(CutEscape) else WithPrefix([s[1]], ReadQuoted(s[2..]))
    else if s[0] == '"' then Success(([], s[1..]))
    else WithPrefix([s[0]], ReadQuoted(s[1..]))
  }

  /** How far an atom runs. */
  function AtomLength(s: string): (n: nat)
    ensures n <= |s|
  {
    if s == [] || Delim(s[0]) then 0 else 1 + AtomLength(s[1..])
  }

  predicate IsDigit(c: char) {
    '0' <= c <= '9'
  }

  /** Digits with single underscores between. */
  function DigitsOf(s: string): Option<nat> {
    if s == [] || !IsDigit(s[|s| - 1]) then None
    else
      var d, init := s[|s| - 1] as int - '0' as int, s[..|s| - 1];
      if init == [] then Some(d)
      else
        match DigitsOf(if init[|init| - 1] == '_' then init[..|init| - 1] else init)
        case Some(n) => Some(10 * n + d)
        case None => None
  }

  function IntOf(tok: string): Option<int> {
    if tok != [] && (tok[0] == '-' || tok[0] == '+') then
      match DigitsOf(tok[1..])
      case Some(n) => var m: int := n; Some(if tok[0] == '-' then -m else m)
      case None => None
    else match DigitsOf(tok) case Some(n) => Some(n) case None => None
  }

  function AtomValue(tok: string): Value {
    if tok == "#t" then Flag(true)
    else if tok == "#f" then Flag(false)
    else match IntOf(tok) case Some(n) => Number(n) case None => Symbol(tok)
  }

  /** A value and the text after it. */
  function Parse(s: string): (r: Result<(Value, string), Error>)
    ensures r.Success? ==> Skip(s) != [] && |r.value.1| <= |s| && (Skip(s)[0] != ')' ==> |r.value.1| < |Skip(s)|)
    decreases |s|, 0
  {
    var t := Skip(s);
    if t == [] then Failure(UnexpectedEnd)
    else if t[0] == '#' && |t| > 1 && t[1] == '(' then ParseItems(t[2..], [], true)
    else if t[0] == '(' then ParseItems(t[1..], [], false)
    else if t[0] == '"' then
      match ReadQuoted(t[1..])
      case Success(more) => Success((Text(more.0), more.1))
      case Failure(e) => Failure(e)
    else
      AtomMoves(t);
      Success((AtomValue(t[..AtomLength(t)]), t[AtomLength(t)..]))
  }

  lemma AtomMoves(t: string)
    requires t != [] && !IsSpace(t[0]) && t[0] != ';' && t[0] != '(' && t[0] != '"'
    ensures t[0] != ')' ==> AtomLength(t) > 0
  {
  }

  predicate StartsDot(t: string, items: seq<Value>) {
    t != [] && t[0] == '.' && |t| > 1 && IsSpace(t[1]) && |items| == 1
  }

  /** The rest of a list or vector with `items` read already. */
  function ParseItems(s: string, items: seq<Value>, vector: bool): (r: Result<(Value, string), Error>)
    ensures r.Success? ==> |r.value.1| < |s|
    decreases |s|, 1
  {
    var t := Skip(s);
    if t == [] then Failure(if vector then UnterminatedVector else UnterminatedList)
    else if t[0] == ')' then Success((List(items), t[1..]))
    else if !vector && StartsDot(t, items) then CdrOf(items[0], t[1..])
    else
      SkipSame(s);
      match Parse(t)
      case Failure(e) => Failure(e)
      case Success(v) => ParseItems(v.1, items + [v.0], vector)
  }

  function CdrOf(car: Value, s: string): (r: Result<(Value, string), Error>)
    ensures r.Success? ==> |r.value.1| < |s|
    decreases |s|, 1
  {
    match Parse(s)
    case Failure(e) => Failure(e)
    case Success(cdr) =>
      var u := Skip(cdr.1);
      if u == [] || u[0] != ')' then Failure(MalformedPair) else Success((Pair(car, cdr.0), u[1..]))
  }

  lemma ItemRead(here: string, item: string, items: seq<Value>, vector: bool, v: Value, rest: string)
    requires item == Skip(here) != [] && item[0] != ')' && (vector || !StartsDot(item, items))
             && Parse(item) == Success((v, rest))
    ensures ParseItems(here, items, vector) == ParseItems(rest, items + [v], vector) && |rest| < |here|
  {
    SkipSame(here);
  }

  lemma {:induction false} SkipSame(s: string)
    ensures Skip(Skip(s)) == Skip(s)
    decreases |s|
  {
    if s != [] {
      if s[0] == ';' { SkipSame(AfterLine(s)); } else if IsSpace(s[0]) { SkipSame(s[1..]); }
    }
  }

  /** The one value a file holds. */
  function ReadAll(text: string): Result<Value, Error> {
    match Parse(Skip(text))
    case Failure(e) => Failure(e)
    case Success(v) => if Skip(v.1) == [] then Success(v.0) else Failure(TrailingContent)
  }

  // ---- The reader, with its shared position ----

  class SexprReader {
    const text: string
    var pos: nat

    constructor (text: string)
      ensures this.text == text && pos == 0
    {
      this.text, pos := text, 0;
    }

    ghost predicate Valid() reads this { pos <= |text| }

    ghost function Rest(): string
      requires Valid()
      reads this
    {
      text[pos..]
    }

    method SkipWs()
      requires Valid()
      modifies `pos
      ensures Valid() && pos >= old(pos) && Rest() == Skip(old(Rest()))
    {
      while pos < |text|
        invariant Valid() && pos >= old(pos) && Skip(Rest()) == Skip(old(Rest()))
        decreases |text| - pos
      {
        var c := text[pos];
        if c == ';' {
          var nl := BreakFrom(text, pos);
          SkipComment(text, pos, nl, Rest());
          pos := if nl == |text| then |text| else nl + 1;
        } else if IsSpace(c) {
          pos := pos + 1;
        } else {
          return;
        }
      }
    }

    method ReadString() returns (r: Result<string, Error>)
      requires Valid() && pos < |text|
      modifies `pos
      ensures Valid() && pos > old(pos)
      ensures match ReadQuoted(old(Rest())[1..])
              case Success(v) => r == Success(v.0) && Rest() == v.1
              case Failure(e) => r == Failure(e)
    {
      ghost var all := ReadQuoted(Rest()[1..]);
      pos := pos + 1;
      var out := [];
      PrefixMore([], ' ', all);
      while true
        invariant Valid() && pos > old(pos) && all == WithPrefix(out, ReadQuoted(Rest()))
        decreases |text| - pos
      {
        if pos >= |text| { return Failure(UnterminatedString); }
        var c := text[pos];
        if c == '\\' {
          pos := pos + 1;
          if pos >= |text| { return Failure(CutEscape); }
          PrefixMore(out, text[pos], ReadQuoted(text[pos + 1..]));
          out := out + [text[pos]];
          pos := pos + 1;
        } else if c == '"' {
          assert out + [] == out;
          pos := pos + 1;
          return Success(out);
        } else {
          PrefixMore(out, c, ReadQuoted(text[pos + 1..]));
          out := out + [c];
          pos := pos + 1;
        }
      }
    }

    method ReadAtom() returns (v: Value)
      requires Valid()
      modifies `pos
      ensures Valid() && pos >= old(pos) && v == AtomValue(old(Rest())[..AtomLength(old(Rest()))])
      ensures Rest() == old(Rest())[AtomLength(old(Rest()))..]
    {
      var start := pos;
      while pos < |text| && !Delim(text[pos])
        invariant start <= pos <= |text|
        invariant AtomLength(text[start..]) == (pos - start) + AtomLength(text[pos..])
      {
        pos := pos + 1;
      }
      assert text[start..][..pos - start] == text[start..pos];
      v := AtomValue(text[start..pos]);
    }

    method ReadValue() returns (r: Result<Value, Error>)
      requires Valid()
      modifies `pos
      ensures Valid() && pos >= old(pos)
      ensures match Parse(old(Rest()))
              case Success(v) => r == Success(v.0) && Rest() == v.1
              case Failure(e) => r == Failure(e)
      decreases |text| - pos, 0
    {
      SkipWs();
      if pos >= |text| { return Failure(UnexpectedEnd); }
      var c := text[pos];
      if c == '#' && pos + 1 < |text| && text[pos + 1] == '(' {
        pos := pos + 2;
        r := ReadItems(true);
      } else if c == '(' {
        pos := pos + 1;
        r := ReadItems(false);
      } else if c == '"' {
        var s := ReadString();
        r := match s case Success(v) => Success(Text(v)) case Failure(e) => Failure(e);
      } else {
        var v := ReadAtom();
        r := Success(v);
      }
    }

    /** The items of a list or vector, or a dotted pair, to its closing parenthesis. */
    method ReadItems(vector: bool) returns (r: Result<Value, Error>)
      requires Valid()
      modifies `pos
      ensures Valid() && pos >= old(pos)
      ensures match ParseItems(old(Rest()), [], vector)
              case Success(v) => r == Success(v.0) && Rest() == v.1
              case Failure(e) => r == Failure(e)
      decreases |text| - pos, 1
    {
      ghost var all := ParseItems(Rest(), [], vector);
      var items := [];
      while true
        invariant Valid() && pos >= old(pos) && ParseItems(Rest(), items, vector) == all
        decreases |text| - pos
      {
        ghost var here := Rest();
        SkipWs();
        SkipSame(here);
        if pos >= |text| { return Failure(if vector then UnterminatedVector else UnterminatedList); }
        if text[pos] == ')' {
          pos := pos + 1;
          return Success(List(items));
        }
        if !vector && text[pos] == '.' && pos + 1 < |text| && IsSpace(text[pos + 1]) && |items| == 1 {
          r := ReadCdr(items[0]);
          return;
        }
        ghost var item := Rest();
        var v := ReadValue();
        if v.Failure? { return v; }
        ItemRead(here, item, items, vector, v.value, Rest());
        items := items + [v.value];
      }
    }

    /** The second half of a dotted pair, from its dot. */
    method ReadCdr(car: Value) returns (r: Result<Value, Error>)
      requires Valid() && pos < |text|
      modifies `pos
      ensures Valid() && pos >= old(pos)
      ensures match CdrOf(car, old(Rest())[1..])
              case Success(v) => r == Success(v.0) && Rest() == v.1
              case Failure(e) => r == Failure(e)
      decreases |text| - pos, 0
    {
      pos := pos + 1;
      var cdr := ReadValue();
      if cdr.Failure? { return cdr; }
      SkipWs();
      if pos >= |text| || text[pos] != ')' { return Failure(MalformedPair); }
      pos := pos + 1;
      return Success(Pair(car, cdr.value));
    }

    method ReadSexpr() returns (r: Result<Value, Error>)
      requires Valid() && pos == 0
      modifies `pos
      ensures Valid() && r == ReadAll(text)
    {
      SkipWs();
      var value := ReadValue();
      if value.Failure? { return value; }
      SkipWs();
      if pos != |text| { return Failure(TrailingContent); }
      return value;
    }
  }
}
