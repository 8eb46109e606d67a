/** A serializer and a parser that undo each other: what the framing results ask of theirs can be had. */
module JsonCodes {
  import opened Wrappers
  import opened Sequences
  import opened Messages
  import opened Framing
  import opened Codec

  function NatCode(n: nat): (r: seq<Byte>)
    ensures r != []
  {
    if n == 0 then [0] else [1] + NatCode(n - 1)
  }

  lemma {:induction false} NatCodeTells(m: nat, n: nat, x: seq<Byte>, y: seq<Byte>)
    requires NatCode(m) + x == NatCode(n) + y
    ensures m == n && x == y
  {
    assert (NatCode(m) + x)[0] == NatCode(m)[0] && (NatCode(n) + y)[0] == NatCode(n)[0];
    if m > 0 {
      Peel(1, NatCode(m - 1), x, NatCode(n - 1), y);
      NatCodeTells(m - 1, n - 1, x, y);
    } else {
      assert (NatCode(m) + x)[1..] == x && (NatCode(n) + y)[1..] == y;
    }
  }

  lemma Peel(tag: Byte, a: seq<Byte>, x: seq<Byte>, b: seq<Byte>, y: seq<Byte>)
    requires ([tag] + a) + x == ([tag] + b) + y
    ensures a + x == b + y
  {
    assert (([tag] + a) + x)[1..] == a + x && (([tag] + b) + y)[1..] == b + y;
  }

  function StrCode(s: string): (r: seq<Byte>)
    ensures r != []
  {
    if s == [] then [0] else [1] + (NatCode(s[0] as nat) + StrCode(s[1..]))
  }

  lemma {:induction false} StrCodeTells(s: string, t: string, x: seq<Byte>, y: seq<Byte>)
    requires StrCode(s) + x == StrCode(t) + y
    ensures s == t && x == y
  {
    assert (StrCode(s) + x)[0] == StrCode(s)[0] && (StrCode(t) + y)[0] == StrCode(t)[0];
    if s != [] {
      var (c, d) := (NatCode(s[0] as nat), NatCode(t[0] as nat));
      Peel(1, c + StrCode(s[1..]), x, d + StrCode(t[1..]), y);
      assert (c + StrCode(s[1..])) + x == c + (StrCode(s[1..]) + x)
             && (d + StrCode(t[1..])) + y == d + (StrCode(t[1..]) + y);
      NatCodeTells(s[0] as nat, t[0] as nat, StrCode(s[1..]) + x, StrCode(t[1..]) + y);
      StrCodeTells(s[1..], t[1..], x, y);
      assert s == [s[0]] + s[1..] && t == [t[0]] + t[1..];
    } else {
      assert (StrCode(s) + x)[1..] == x && (StrCode(t) + y)[1..] == y;
    }
  }

  /** A tag for the kind of value, then its parts, each telling where it ends. */
  ghost function Code(v: Json): (r: seq<Byte>)
    ensures r != []
    decreases v, 1, 0
  {
    match v
    case Null => [0]
    case Bool(b) => [1, if b then 1 else 0]
    case Int(n) => [2, if n < 0 then 1 else 0] + NatCode(if n < 0 then -n else n)
    case Float(bits) => [3] + NatCode(bits)
    case Str(s) => [4] + StrCode(s)
    case Arr(items) => [5] + ItemsCode(items, v)
    case Obj(fields) => [6] + FieldsCode(fields, v)
  }

  ghost function ItemsCode(items: seq<Json>, whole: Json): (r: seq<Byte>)
    requires whole.Arr? && forall v :: v in items ==> v in whole.items
    ensures r != []
    decreases whole, 0, |items|
  {
    if items == [] then [0] else assert items[0] in items; [1] + (Code(items[0]) + ItemsCode(items[1..], whole))
  }

  ghost function FieldsCode(fields: map<string, Json>, whole: Json): (r: seq<Byte>)
    requires whole.Obj? && forall k :: k in fields ==> k in whole.fields && fields[k] == whole.fields[k]
    ensures r != []
    decreases whole, 0, |fields|
  {
    if fields == map[] then [0]
    else
      var k := AnyKey(fields);
      [1] + (StrCode(k) + (Code(fields[k]) + FieldsCode(fields - {k}, whole)))
  }

  ghost function AnyKey(fields: map<string, Json>): (k: string)
    requires fields != map[]
    ensures k in fields
  {
    var k :| k in fields; k
  }

  lemma SameHead(tag: Byte, a: seq<Byte>, x: seq<Byte>, tag': Byte, b: seq<Byte>, y: seq<Byte>)
    requires ([tag] + a) + x == ([tag'] + b) + y
    ensures tag == tag' && a + x == b + y
  {
    assert (([tag] + a) + x)[0] == tag && (([tag'] + b) + y)[0] == tag';
    Peel(tag, a, x, b, y);
  }

  lemma OneByte(p: Byte, x: seq<Byte>, q: Byte, y: seq<Byte>)
    requires [p] + x == [q] + y
    ensures p == q && x == y
  {
    assert ([p] + x)[0] == p && ([q] + y)[0] == q && ([p] + x)[1..] == x && ([q] + y)[1..] == y;
  }

  ghost function Tag(v: Json): Byte {
    match v case Null => 0 case Bool(_) => 1 case Int(_) => 2 case Float(_) => 3 case Str(_) => 4 case Arr(_) =>
        5 case Obj(_) => 6
  }

  /** What follows the tag of a value. */
  ghost function Body(v: Json): seq<Byte> {
    match v
    case Null => []
    case Bool(b) => [if b then 1 else 0]
    case Int(n) => [if n < 0 then 1 else 0] + NatCode(if n < 0 then -n else n)
    case Float(bits) => NatCode(bits)
    case Str(s) => StrCode(s)
    case Arr(items) => ItemsCode(items, v)
    case Obj(fields) => FieldsCode(fields, v)
  }

  lemma TagBody(v: Json)
    ensures Code(v) == [Tag(v)] + Body(v)
  {
    if v.Int? { assert Code(v) == [2] + Body(v); }
  }

  /** No code is the start of another: a value is told from its code and from what follows. */
  lemma {:induction false} CodeTells(v: Json, w: Json, x: seq<Byte>, y: seq<Byte>)
    requires Code(v) + x == Code(w) + y
    ensures v == w && x == y
    decreases v, 2, 0
  {
    TagBody(v);
    TagBody(w);
    SameHead(Tag(v), Body(v), x, Tag(w), Body(w), y);
    BodyTells(v, w, x, y);
  }

  lemma {:induction false} BodyTells(v: Json, w: Json, x: seq<Byte>, y: seq<Byte>)
    requires Tag(v) == Tag(w) && Body(v) + x == Body(w) + y
    ensures v == w && x == y
    decreases v, 1, 0
  {
    match v
    case Null => assert [] + x == x && [] + y == y;
    case Bool(b) => OneByte(if b then 1 else 0, x, if w.b then 1 else 0, y);
    case Int(n) => IntTells(n, w.n, x, y);
    case Float(bits) => NatCodeTells(bits, w.bits, x, y);
    case Str(s) => StrCodeTells(s, w.s, x, y);
    case Arr(items) => ItemsTell(items, w.items, v, w, x, y);
    case Obj(fields) => FieldsTell(fields, w.fields, v, w, x, y);
  }

  lemma IntTells(m: int, n: int, x: seq<Byte>, y: seq<Byte>)
    requires ([if m < 0 then 1 else 0] + NatCode(if m < 0 then -m else m)) + x
          == ([if n < 0 then 1 else 0] + NatCode(if n < 0 then -n else n)) + y
    ensures m == n && x == y
  {
    SameHead(if m < 0 then 1 else 0, NatCode(if m < 0 then -m else m), x, if n < 0 then 1
        else 0, NatCode(if n < 0 then -n else n), y);
    NatCodeTells(if m < 0 then -m else m, if n < 0 then -n else n, x, y);
  }

  lemma {:induction false} ItemsTell(a: seq<Json>, b: seq<Json>, v: Json, w: Json, x: seq<Byte>, y: seq<Byte>)
    requires v.Arr? && w.Arr? && (forall u :: u in a ==> u in v.items) && (forall u :: u in b ==> u in w.items)
    requires ItemsCode(a, v) + x == ItemsCode(b, w) + y
    ensures a == b && x == y
    decreases v, 0, |a|
  {
    assert (ItemsCode(a, v) + x)[0] == ItemsCode(a, v)[0] && (ItemsCode(b, w) + y)[0] == ItemsCode(b, w)[0];
    if a == [] {
      OneByte(0, x, 0, y);
    } else {
      assert a[0] in a && b[0] in b;
      var (s, t) := (ItemsCode(a[1..], v), ItemsCode(b[1..], w));
      SameHead(1, Code(a[0]) + s, x, 1, Code(b[0]) + t, y);
      Assoc(Code(a[0]), s, x);
      Assoc(Code(b[0]), t, y);
      CodeTells(a[0], b[0], s + x, t + y);
      ItemsTell(a[1..], b[1..], v, w, x, y);
      assert a == [a[0]] + a[1..] && b == [b[0]] + b[1..];
    }
  }

  lemma {:induction false} FieldsTell(a: map<string, Json>, b: map<string, Json>, v: Json, w: Json, x: seq<Byte>,
                                      y: seq<Byte>)
    requires v.Obj? && (forall k :: k in a ==> k in v.fields && a[k] == v.fields[k])
    requires w.Obj? && (forall k :: k in b ==> k in w.fields && b[k] == w.fields[k])
    requires FieldsCode(a, v) + x == FieldsCode(b, w) + y
    ensures a == b && x == y
    decreases v, 0, |a|
  {
    assert (FieldsCode(a, v) + x)[0] == FieldsCode(a, v)[0] && (FieldsCode(b, w) + y)[0] == FieldsCode(b, w)[0];
    if a == map[] {
      OneByte(0, x, 0, y);
    } else {
      var (i, j) := (AnyKey(a), AnyKey(b));
      var (s, t) := (FieldsCode(a - {i}, v), FieldsCode(b - {j}, w));
      FieldTells(i, a[i], s, x, j, b[j], t, y);
      CodeTells(a[i], b[j], s + x, t + y);
      FieldsTell(a - {i}, b - {j}, v, w, x, y);
      assert a == (a - {i})[i := a[i]] && b == (b - {j})[j := b[j]];
    }
  }

  lemma FieldTells(i: string, v: Json, s: seq<Byte>, x: seq<Byte>, j: string, w: Json, t: seq<Byte>, y: seq<Byte>)
    requires ([1] + (StrCode(i) + (Code(v) + s))) + x == ([1] + (StrCode(j) + (Code(w) + t))) + y
    ensures i == j && Code(v) + (s + x) == Code(w) + (t + y)
  {
    SameHead(1, StrCode(i) + (Code(v) + s), x, 1, StrCode(j) + (Code(w) + t), y);
    Assoc(StrCode(i), Code(v) + s, x);
    Assoc(StrCode(j), Code(w) + t, y);
    StrCodeTells(i, j, (Code(v) + s) + x, (Code(w) + t) + y);
    Assoc(Code(v), s, x);
    Assoc(Code(w), t, y);
  }

  ghost predicate IsCode(b: seq<Byte>) { exists v :: Code(v) == b }

  ghost function Decoded(b: seq<Byte>): Option<Json> {
    if IsCode(b) then var v :| Code(v) == b; Some(v) else None
  }

  lemma DecodedCode(v: Json)
    ensures Decoded(Code(v)) == Some(v)
  {
    var b := Code(v);
    assert IsCode(b);
    CodeTells(Decoded(b).value, v, [], []);
  }

  /** A serializer and a parser that undo each other exist. */
  lemma InversesExist() returns (ser: Serializer, parse: Parser)
    ensures Inverse(ser, parse)
  {
    ser, parse := v => Code(v), b => Decoded(b);
    forall v ensures parse(ser(v)) == Some(v) && ser(v) != [] { DecodedCode(v); }
  }
}
