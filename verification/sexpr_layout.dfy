/** Printing s-expressions as the sync scripts do, in any layout, and reading them back. */
module SexprLayout {
  import opened Wrappers
  import opened Lines
  import opened Sexprs
  import opened SexprAtoms

  // ---- Emitters ----

  /** Every `c` preceded by a backslash. */
  function Guarded(s: string, c: char): string {
    if s == [] then [] else (if s[0] == c then ['\\', c] else [s[0]]) + Guarded(s[1..], c)
  }

  /** A string literal: backslashes doubled first, then quotes guarded. */
  function SchemeStr(s: string): string {
    "\"" + Guarded(Guarded(s, '\\'), '"') + "\""
  }

  function Join(sep: string, items: seq<string>): string {
    if items == [] then "" else if |items| == 1 then items[0] else items[0] + sep + Join(sep, items[1..])
  }

  function Literals(items: seq<string>): seq<string> {
    if items == [] then [] else [SchemeStr(items[0])] + Literals(items[1..])
  }

  function SchemeStrList(items: seq<string>): string {
    Join(" ", Literals(items))
  }

  function GeneratedFileText(header: string, rows: seq<string>): string {
    Join("\n", [header, Join("\n", rows), ""])
  }

  /** A quoted list, for programs that are evaluated. */
  function SchemeList(items: seq<string>): string {
    if items == [] then "'()" else "'(" + SchemeStrList(items) + ")"
  }

  // ---- Layouts ----

  /** A written value: what it says and how it is spaced. Each item carries the gap before it, `last` is the gap
      before the closing parenthesis. */
  datatype Doc =
    | StrDoc(s: string)
    | AtomDoc(atom: Atom)
    | ListDoc(vector: bool, items: seq<Item>, last: string)
    | PairDoc(car: Item, dotGap: string, cdr: Item, last: string)

  datatype Item = Item(gap: string, doc: Doc)

  function ValueOf(d: Doc): Value
    decreases d
  {
    match d
    case StrDoc(s) => Text(s)
    case AtomDoc(atom) => Meant(atom)
    case ListDoc(_, items, _) => List(ValuesOf(items))
    case PairDoc(car, _, cdr, _) => Pair(ValueOf(car.doc), ValueOf(cdr.doc))
  }

  function ValuesOf(items: seq<Item>): seq<Value>
    decreases items
  {
    if items == [] then [] else [ValueOf(items[0].doc)] + ValuesOf(items[1..])
  }

  function TextOf(d: Doc): string
    decreases d
  {
    match d
    case StrDoc(s) => SchemeStr(s)
    case AtomDoc(atom) => AtomText(atom)
    case ListDoc(vector, items, last) => (if vector then "#(" else "(") + ItemsText(items) + last + ")"
    case PairDoc(car, dotGap, cdr, last) =>
      "(" + car.gap + TextOf(car.doc) + dotGap + "." + cdr.gap + TextOf(cdr.doc) + last + ")"
  }

  function ItemsText(items: seq<Item>): string
    decreases items
  {
    if items == [] then "" else items[0].gap + TextOf(items[0].doc) + ItemsText(items[1..])
  }

  /** Whitespace and whole-line comments. */
  predicate Gap(g: string)
    decreases |g|
  {
    g == [] || (IsSpace(g[0]) && Gap(g[1..])) || (g[0] == ';' && BreakFrom(g, 0) < |g| && Gap(AfterLine(g)))
  }

  /** What may follow an atom. */
  predicate EndsAtom(s: string) {
    s == [] || Delim(s[0])
  }

  /** Gaps are gaps, and an atom is followed by something that ends it. */
  ghost predicate WellSpaced(d: Doc)
    decreases d
  {
    match d
    case StrDoc(_) => true
    case AtomDoc(atom) => AtomOk(atom)
    case ListDoc(_, items, last) => Gap(last) && ItemsSpaced(items, last + ")")
    case PairDoc(car, dotGap, cdr, last) =>
      && Gap(car.gap) && WellSpaced(car.doc) && Gap(dotGap) && (car.doc.AtomDoc? ==> dotGap != [] && EndsAtom(dotGap))
      && Gap(cdr.gap) && cdr.gap != [] && IsSpace(cdr.gap[0]) && WellSpaced(cdr.doc)
      && Gap(last) && (cdr.doc.AtomDoc? ==> EndsAtom(last))
  }

  ghost predicate ItemsSpaced(items: seq<Item>, after: string)
    decreases items
  {
    items == [] ||
    (&& Gap(items[0].gap) && WellSpaced(items[0].doc) && ItemsSpaced(items[1..], after)
     && (items[0].doc.AtomDoc? ==>
          EndsAtom(ItemsText(items[1..]) + after)
          && (items[0].doc.atom == Name("#") ==> !StartsParen(ItemsText(items[1..]) + after))))
  }

  predicate StartsParen(s: string) {
    s != [] && s[0] == '('
  }

  // ---- Strings ----

  lemma {:induction false} GuardedConcat(a: string, b: string, c: char)
    ensures Guarded(a + b, c) == Guarded(a, c) + Guarded(b, c)
  {
    if a == [] {
      assert a + b == b;
    } else {
      assert (a + b)[1..] == a[1..] + b;
      GuardedConcat(a[1..], b, c);
    }
  }

  /** A guarded string reads back as itself, whatever quotes and backslashes it holds. */
  lemma {:induction false} QuotedReads(s: string, rest: string, all: string)
    requires all == Guarded(Guarded(s, '\\'), '"') + "\"" + rest
    ensures ReadQuoted(all) == Success((s, rest))
    decreases |s|
  {
    if s == [] {
      assert all == ['"'] + rest && all[1..] == rest;
    } else {
      var c, more := s[0], Guarded(Guarded(s[1..], '\\'), '"') + "\"" + rest;
      QuotedReads(s[1..], rest, more);
      OneGuarded(c, s[1..]);
      if c == '\\' || c == '"' {
        assert all == ['\\', c] + more && all[2..] == more;
      } else {
        assert all == [c] + more && all[1..] == more;
      }
      assert [c] + s[1..] == s;
    }
  }

  lemma OneGuarded(c: char, tail: string)
    ensures Guarded(Guarded([c] + tail, '\\'), '"')
         == (if c == '\\' || c == '"' then ['\\', c] else [c]) + Guarded(Guarded(tail, '\\'), '"')
  {
    var s, inner := [c] + tail, Guarded(tail, '\\');
    assert s[1..] == tail;
    var head := if c == '\\' then ['\\', '\\'] else [c];
    GuardedConcat(head, inner, '"');
    assert [c][1..] == [] && ['\\', '\\'][1..] == ['\\'] && ['\\'][1..] == [];
  }

  // ---- Gaps ----

  lemma BreakPrefix(g: string, s: string)
    requires BreakFrom(g, 0) < |g|
    ensures BreakFrom(g + s, 0) == BreakFrom(g, 0) && AfterLine(g + s) == AfterLine(g) + s
  {
    BreakMeans(g, 0);
    BreakIs(g + s, 0, BreakFrom(g, 0));
  }

  lemma {:induction false} SkipGap(g: string, s: string, all: string)
    requires Gap(g) && all == g + s
    ensures Skip(all) == Skip(s)
    decreases |g|
  {
    if g == [] {
      assert all == s;
    } else if IsSpace(g[0]) {
      assert all[1..] == g[1..] + s;
      SkipGap(g[1..], s, all[1..]);
    } else {
      BreakPrefix(g, s);
      SkipGap(AfterLine(g), s, AfterLine(all));
    }
  }

  /** A gap before a value is skipped. */
  lemma ParseAfterGap(g: string, s: string, all: string)
    requires Gap(g) && all == g + s
    ensures Parse(all) == Parse(s)
  {
    SkipGap(g, s, all);
  }

  lemma ItemsAfterGap(g: string, s: string, all: string, items: seq<Value>, vector: bool)
    requires Gap(g) && all == g + s
    ensures ParseItems(all, items, vector) == ParseItems(s, items, vector)
  {
    SkipGap(g, s, all);
  }

  // ---- Atoms ----

  lemma {:induction false} AtomRuns(tok: string, rest: string, all: string)
    requires (forall c :: c in tok ==> !Delim(c)) && EndsAtom(rest) && all == tok + rest
    ensures AtomLength(all) == |tok|
    decreases |tok|
  {
    if tok == [] {
      assert all == rest;
    } else {
      assert all[1..] == tok[1..] + rest && tok[0] in tok;
      AtomRuns(tok[1..], rest, all[1..]);
    }
  }

  lemma TokenReads(tok: string, rest: string, all: string)
    requires TokenOk(tok) && EndsAtom(rest) && (tok == "#" ==> !StartsParen(rest)) && all == tok + rest
    ensures Parse(all) == Success((AtomValue(tok), rest))
  {
    AtomRuns(tok, rest, all);
    assert tok[0] in tok && all[0] == tok[0] && Skip(all) == all;
    if |tok| > 1 { assert tok[1] in tok && all[1] == tok[1]; }
    assert all[..|tok|] == tok && all[|tok|..] == rest;
  }

  /** An atom reads as what is meant by it. */
  lemma AtomReads(atom: Atom, rest: string, all: string)
    requires AtomOk(atom) && EndsAtom(rest) && (atom == Name("#") ==> !StartsParen(rest))
             && all == AtomText(atom) + rest
    ensures Parse(all) == Success((Meant(atom), rest))
  {
    AtomTokenOk(atom);
    AtomMeans(atom);
    if AtomText(atom) == "#" { LoneHash(atom); }
    TokenReads(AtomText(atom), rest, all);
  }

  lemma LoneHash(atom: Atom)
    requires AtomOk(atom) && AtomText(atom) == "#"
    ensures atom == Name("#")
  {
    if atom.Int? { NumeralFirst(atom.m); }
  }

  // ---- Reading back ----

  /** The text of a value starts with the value: no gap, no closing parenthesis, no lone dot. */
  lemma Starts(d: Doc, rest: string, all: string, acc: seq<Value>)
    requires WellSpaced(d) && all == TextOf(d) + rest
    ensures all != [] && Skip(all) == all && all[0] != ')' && !StartsDot(all, acc)
  {
    match d
    case StrDoc(_) => assert all[0] == '"';
    case AtomDoc(atom) =>
      AtomTokenOk(atom);
      var tok := AtomText(atom);
      assert tok[0] in tok && all[0] == tok[0];
      if |tok| > 1 { assert all[1] == tok[1]; }
    case ListDoc(vector, _, _) => assert all[0] == if vector then '#' else '(';
    case PairDoc(_, _, _, _) => assert all[0] == '(';
  }

  lemma StrReads(s: string, rest: string, all: string)
    requires all == SchemeStr(s) + rest
    ensures Parse(all) == Success((Text(s), rest))
  {
    var body := Guarded(Guarded(s, '\\'), '"') + "\"" + rest;
    assert all[0] == '"' && all[1..] == body && Skip(all) == all;
    QuotedReads(s, rest, body);
  }

  /** Reading undoes printing: any well-spaced text of a value reads as the value, and nothing more is consumed. */
  lemma {:induction false} ReadsDoc(d: Doc, rest: string, all: string)
    requires WellSpaced(d) && all == TextOf(d) + rest
    requires d.AtomDoc? ==> EndsAtom(rest) && (d.atom == Name("#") ==> !StartsParen(rest))
    ensures Parse(all) == Success((ValueOf(d), rest))
    decreases d, 1
  {
    match d
    case StrDoc(s) => StrReads(s, rest, all);
    case AtomDoc(atom) => AtomReads(atom, rest, all);
    case ListDoc(vector, items, last) =>
      var inner := ItemsText(items) + last + ")" + rest;
      ListText(vector, ItemsText(items), last, rest, inner, all);
      ListOpens(vector, inner, all);
      ItemsRead(items, [], last, rest, vector, inner);
      NoneBefore(ValuesOf(items));
    case PairDoc(car, dotGap, cdr, last) => PairReads(car, dotGap, cdr, last, rest, all);
  }

  lemma NoneBefore(values: seq<Value>)
    ensures [] + values == values
  {
  }

  lemma ListText(vector: bool, items: string, last: string, rest: string, inner: string, all: string)
    requires inner == items + last + ")" + rest && all == ((if vector then "#(" else "(") + items + last + ")") + rest
    ensures all == (if vector then "#(" else "(") + inner
  {
  }

  lemma ListOpens(vector: bool, inner: string, all: string)
    requires all == (if vector then "#(" else "(") + inner
    ensures Parse(all) == ParseItems(inner, [], vector)
  {
    if vector { assert all[0] == '#' && all[1] == '(' && all[2..] == inner; }
        else { assert all[0] == '(' && all[1..] == inner; }
  }

  /** Items are read one by one, up to what stands after them. */
  lemma {:induction false} ItemsThen(items: seq<Item>, acc: seq<Value>, after: string, rest: string, vector: bool,
                                     all: string)
    requires ItemsSpaced(items, after) && (after == [] ==> rest == []) && all == ItemsText(items) + after + rest
    ensures ParseItems(all, acc, vector) == ParseItems(after + rest, acc + ValuesOf(items), vector)
    decreases items, 0
  {
    if items == [] {
      assert all == after + rest;
      NoneAfter(acc);
    } else {
      var doc, more := items[0].doc, ItemsText(items[1..]) + after + rest;
      var text := TextOf(doc) + more;
      ItemTexts(items[0].gap, TextOf(doc), ItemsText(items[1..]), after, rest, text, more, all);
      FollowsOn(ItemsText(items[1..]) + after, rest, more);
      ReadsDoc(doc, more, text);
      ItemReadAt(items[0], acc, vector, text, more, all);
      ItemsThen(items[1..], acc + [ValueOf(doc)], after, rest, vector, more);
      OneBefore(acc, ValueOf(doc), ValuesOf(items[1..]));
    }
  }

  lemma {:induction false} ItemsRead(items: seq<Item>, acc: seq<Value>, last: string, rest: string, vector: bool,
                                     all: string)
    requires ItemsSpaced(items, last + ")") && Gap(last) && all == ItemsText(items) + last + ")" + rest
    ensures ParseItems(all, acc, vector) == Success((List(acc + ValuesOf(items)), rest))
    decreases items, 1
  {
    var after := last + ")";
    CloseTexts(ItemsText(items), last, rest, after, all);
    ItemsThen(items, acc, after, rest, vector, all);
    ItemsAfterGap(last, ")" + rest, after + rest, acc + ValuesOf(items), vector);
    CloseReads(acc + ValuesOf(items), rest, vector);
  }

  lemma CloseTexts(items: string, last: string, rest: string, after: string, all: string)
    requires after == last + ")" && all == items + last + ")" + rest
    ensures all == items + after + rest && after + rest == last + (")" + rest)
  {
  }

  lemma ItemTexts(gap: string, doc: string, items: string, after: string, rest: string, text: string, more: string,
                  all: string)
    requires more == items + after + rest && text == doc + more && all == (gap + doc + items) + after + rest
    ensures all == gap + text && more == (items + after) + rest
  {
  }

  lemma ItemReadAt(item: Item, acc: seq<Value>, vector: bool, text: string, more: string, all: string)
    requires Gap(item.gap) && WellSpaced(item.doc) && text == TextOf(item.doc) + more && all == item.gap + text
    requires Parse(text) == Success((ValueOf(item.doc), more))
    ensures ParseItems(all, acc, vector) == ParseItems(more, acc + [ValueOf(item.doc)], vector)
  {
    ItemsAfterGap(item.gap, text, all, acc, vector);
    Starts(item.doc, more, text, acc);
    ItemRead(text, text, acc, vector, ValueOf(item.doc), more);
  }

  lemma NoneAfter(acc: seq<Value>)
    ensures acc + [] == acc
  {
  }

  lemma OneBefore(acc: seq<Value>, v: Value, values: seq<Value>)
    ensures acc + [v] + values == acc + ([v] + values)
  {
  }

  lemma CloseReads(acc: seq<Value>, rest: string, vector: bool)
    ensures ParseItems(")" + rest, acc, vector) == Success((List(acc), rest))
  {
    var s := ")" + rest;
    assert s[0] == ')' && s[1..] == rest && Skip(s) == s;
    assert acc + [] == acc;
  }

  lemma FollowsOn(after: string, rest: string, more: string)
    requires (after == [] ==> rest == []) && more == after + rest
    ensures (EndsAtom(after) ==> EndsAtom(more)) && (!StartsParen(after) ==> !StartsParen(more))
  {
  }

  lemma {:induction false} PairReads(car: Item, dotGap: string, cdr: Item, last: string, rest: string, all: string)
    requires var d := PairDoc(car, dotGap, cdr, last); WellSpaced(d) && all == TextOf(d) + rest
    ensures Parse(all) == Success((Pair(ValueOf(car.doc), ValueOf(cdr.doc)), rest))
    decreases PairDoc(car, dotGap, cdr, last), 0
  {
    var tail := cdr.gap + TextOf(cdr.doc) + last + ")" + rest;
    var dotted := dotGap + ("." + tail);
    var first := TextOf(car.doc) + dotted;
    var inner := car.gap + first;
    PairTexts(car.gap, TextOf(car.doc), dotGap, cdr.gap, TextOf(cdr.doc), last, rest, inner, all);
    ListOpens(false, inner, all);
    if car.doc.AtomDoc? { FollowsOn(dotGap, "." + tail, dotted); GapNoParen(dotGap); }
    ReadsDoc(car.doc, dotted, first);
    ItemReadAt(car, [], false, first, dotted, inner);
    NoneBefore([ValueOf(car.doc)]);
    ItemsAfterGap(dotGap, "." + tail, dotted, [ValueOf(car.doc)], false);
    DotReads(ValueOf(car.doc), cdr, last, rest, tail);
  }

  lemma PairTexts(gap: string, car: string, dotGap: string, cdrGap: string, cdr: string, last: string, rest: string,
                  inner: string,
                  all: string)
    requires inner == gap + (car + (dotGap + ("." + (cdrGap + cdr + last + ")" + rest))))
    requires all == ("(" + gap + car + dotGap + "." + cdrGap + cdr + last + ")") + rest
    ensures all == "(" + inner
  {
  }

  lemma GapNoParen(g: string)
    requires Gap(g)
    ensures !StartsParen(g)
  {
  }

  lemma {:induction false} DotReads(car: Value, cdr: Item, last: string, rest: string, tail: string)
    requires tail == cdr.gap + TextOf(cdr.doc) + last + ")" + rest && Gap(cdr.gap) && cdr.gap != []
             && IsSpace(cdr.gap[0])
    requires WellSpaced(cdr.doc) && Gap(last) && (cdr.doc.AtomDoc? ==> EndsAtom(last))
    ensures ParseItems("." + tail, [car], false) == Success((Pair(car, ValueOf(cdr.doc)), rest))
    decreases cdr.doc, 2
  {
    var s, closing := "." + tail, last + (")" + rest);
    assert s[0] == '.' && s[1] == cdr.gap[0] && s[1..] == tail && Skip(s) == s;
    var text := TextOf(cdr.doc) + closing;
    assert tail == cdr.gap + text;
    ParseAfterGap(cdr.gap, text, tail);
    if cdr.doc.AtomDoc? { AfterLast(last, ")" + rest, closing); }
    ReadsDoc(cdr.doc, closing, text);
    SkipGap(last, ")" + rest, closing);
    var end := ")" + rest;
    assert end[0] == ')' && end[1..] == rest && Skip(end) == end;
  }

  lemma AfterLast(last: string, end: string, closing: string)
    requires Gap(last) && EndsAtom(last) && end != [] && end[0] == ')' && closing == last + end
    ensures EndsAtom(closing) && !StartsParen(closing)
  {
    if last == [] { assert closing == end; }
  }

  /** A generated file: a header of comment lines over rows that hold one value reads as that value, to the end. */
  lemma GeneratedReads(header: string, rows: seq<string>, d: Doc, before: string, after: string)
    requires Gap(header + "\n") && Gap(before) && Gap(after + "\n") && WellSpaced(d)
    requires Join("\n", rows) == before + TextOf(d) + after && (d.AtomDoc? ==> EndsAtom(after))
    ensures ReadAll(GeneratedFileText(header, rows)) == Success(ValueOf(d))
  {
    var text, closing := GeneratedFileText(header, rows), after + "\n";
    var value := TextOf(d) + closing;
    FileText(header, rows);
    BodyText(header + "\n", before, TextOf(d), after, value, text);
    SkipGap(header + "\n", before + value, text);
    SkipGap(before, value, before + value);
    Starts(d, closing, value, []);
    if d.AtomDoc? { AfterEnd(after, closing); }
    ReadsDoc(d, closing, value);
    SkipAll(closing);
  }

  lemma BodyText(head: string, before: string, doc: string, after: string, value: string, text: string)
    requires value == doc + (after + "\n") && text == head + ((before + doc + after) + "\n")
    ensures text == head + (before + value)
  {
  }

  lemma SkipAll(closing: string)
    requires Gap(closing)
    ensures Skip(closing) == []
  {
    assert closing + [] == closing;
    SkipGap(closing, [], closing);
  }

  lemma AfterEnd(after: string, closing: string)
    requires Gap(closing) && EndsAtom(after) && closing == after + "\n"
    ensures EndsAtom(closing) && !StartsParen(closing)
  {
  }

  lemma FileText(header: string, rows: seq<string>)
    ensures GeneratedFileText(header, rows) == (header + "\n") + (Join("\n", rows) + "\n")
  {
    var body := Join("\n", rows);
    var parts := [header, body, ""];
    assert parts[1..] == [body, ""] && [body, ""][1..] == [""];
    assert Join("\n", [""]) == "" && Join("\n", [body, ""]) == body + "\n" + "";
    assert Join("\n", parts) == header + "\n" + Join("\n", parts[1..]);
  }

  /** A list of string literals as the scripts join it. */
  lemma {:induction false} StrListItems(items: seq<string>)
    requires items != []
    ensures ItemsText(StrItems(items)) == " " + SchemeStrList(items)
    decreases |items|
  {
    var rest, first := items[1..], SchemeStr(items[0]);
    FirstText(items);
    if rest == [] {
      assert Literals(items) == [first] && StrItems(items)[1..] == [];
    } else {
      StrListItems(rest);
      JoinMore(first, Literals(rest), Literals(items));
      Spaced(first, SchemeStrList(rest));
    }
  }

  lemma FirstText(items: seq<string>)
    requires items != []
    ensures ItemsText(StrItems(items)) == " " + SchemeStr(items[0]) + ItemsText(StrItems(items[1..]))
  {
    assert StrItems(items)[1..] == StrItems(items[1..]);
  }

  lemma Spaced(a: string, b: string)
    ensures " " + a + (" " + b) == " " + (a + " " + b)
  {
  }

  lemma JoinMore(first: string, rest: seq<string>, all: seq<string>)
    requires rest != [] && all == [first] + rest
    ensures Join(" ", all) == first + " " + Join(" ", rest)
  {
    assert all[1..] == rest;
  }

  lemma {:induction false} StrItemsSpaced(items: seq<string>, after: string)
    ensures ItemsSpaced(StrItems(items), after) && ValuesOf(StrItems(items)) == Texts(items)
    decreases |items|
  {
    if items != [] {
      StrItemsSpaced(items[1..], after);
      assert StrItems(items)[1..] == StrItems(items[1..]);
      assert " "[1..] == "";
    }
  }

  function StrItems(items: seq<string>): seq<Item> {
    if items == [] then [] else [Item(" ", StrDoc(items[0]))] + StrItems(items[1..])
  }

  function Texts(items: seq<string>): seq<Value> {
    if items == [] then [] else [Text(items[0])] + Texts(items[1..])
  }

  /** A tagged list of strings reads as its tag and the strings, for strings with any quotes and backslashes. */
  lemma TaggedListReads(tag: Atom, items: seq<string>, rest: string)
    requires AtomOk(tag) && items != []
    ensures Parse("(" + AtomText(tag) + " " + SchemeStrList(items) + ")" + rest)
            == Success((List([Meant(tag)] + Texts(items)), rest))
  {
    StrListItems(items);
    StrItemsSpaced(items, "" + ")");
    var strs := StrItems(items);
    var all := [Item("", AtomDoc(tag))] + strs;
    var d := ListDoc(false, all, "");
    TaggedText(tag, strs, SchemeStrList(items), d);
    ReadsDoc(d, rest, TextOf(d) + rest);
  }

  lemma TaggedText(tag: Atom, strs: seq<Item>, literals: string, d: Doc)
    requires AtomOk(tag) && d == ListDoc(false, [Item("", AtomDoc(tag))] + strs, "")
    requires ItemsText(strs) == " " + literals && ItemsSpaced(strs, "" + ")")
    ensures TextOf(d) == "(" + AtomText(tag) + " " + literals + ")" && WellSpaced(d)
    ensures ValueOf(d) == List([Meant(tag)] + ValuesOf(strs))
  {
    assert d.items[1..] == strs;
    assert ItemsText(d.items) == AtomText(tag) + (" " + literals);
    assert ValuesOf(d.items) == [ValueOf(d.items[0].doc)] + ValuesOf(d.items[1..]);
    assert ItemsText(strs) + ("" + ")") == [' '] + (literals + ")");
  }

  /** The strings of a list, the first right behind its parenthesis. */
  function ListItems(items: seq<string>): seq<Item> {
    if items == [] then [] else [Item("", StrDoc(items[0]))] + StrItems(items[1..])
  }

  lemma ListItemsText(items: seq<string>)
    ensures ItemsText(ListItems(items)) == SchemeStrList(items)
    ensures ItemsSpaced(ListItems(items), ")") && ValuesOf(ListItems(items)) == Texts(items)
  {
    if items != [] {
      StrListItems(items);
      FirstText(items);
      StrItemsSpaced(items[1..], ")");
      var first, more := SchemeStr(items[0]), ItemsText(StrItems(items[1..]));
      assert ListItems(items)[1..] == StrItems(items[1..]);
      BehindSpace(first + more, SchemeStrList(items), first, more);
    }
  }

  lemma BehindSpace(all: string, list: string, first: string, more: string)
    requires all == first + more && " " + first + more == " " + list
    ensures "" + first + more == list
  {
    assert (" " + first + more)[1..] == first + more && (" " + list)[1..] == list;
  }

  /** The reader knows no quote: it takes a quoted list for the symbol `'`, with the list left to read. */
  lemma QuotedListReads(items: seq<string>, rest: string, list: string, all: string)
    requires list == "(" + SchemeStrList(items) + ")" + rest && all == SchemeList(items) + rest
    ensures Parse(all) == Success((Symbol("'"), list)) && Parse(list) == Success((List(Texts(items)), rest))
  {
    var doc := ListDoc(false, ListItems(items), "");
    ListItemsText(items);
    assert "" + ")" == ")" && TextOf(doc) == "(" + SchemeStrList(items) + "" + ")";
    QuotedText(items, rest, list, all);
    ReadsDoc(doc, rest, list);
    QuoteIsName();
    AtomReads(Name("'"), list, all);
  }

  lemma QuoteIsName()
    ensures AtomOk(Name("'"))
  {
    IntsAreNumerals("'");
  }

  lemma QuotedText(items: seq<string>, rest: string, list: string, all: string)
    requires list == "(" + SchemeStrList(items) + ")" + rest && all == SchemeList(items) + rest
    ensures all == "'" + list && list == ("(" + SchemeStrList(items) + "" + ")") + rest && list[0] == '('
  {
    if items == [] { assert SchemeStrList(items) == ""; }
  }

  /** So a file that holds a quoted list does not read back. */
  lemma QuotedListRefused(items: seq<string>)
    ensures ReadAll(SchemeList(items)) == Failure(TrailingContent)
  {
    var all, list := SchemeList(items), "(" + SchemeStrList(items) + ")";
    assert all + "" == all && list + "" == list;
    QuotedListReads(items, "", list, all);
    QuotedText(items, "", list, all);
    assert all[0] == '\'' && Skip(all) == all && Skip(list) == list;
  }

  // ---- What is refused ----

  /** A list or vector that is not closed. */
  lemma UnclosedFails(vector: bool, items: seq<Item>, last: string)
    requires Gap(last) && ItemsSpaced(items, last)
    ensures Parse((if vector then "#(" else "(") + (ItemsText(items) + last))
         == Failure(if vector then UnterminatedVector else UnterminatedList)
  {
    var inner := ItemsText(items) + last;
    ListOpens(vector, inner, (if vector then "#(" else "(") + inner);
    assert inner == ItemsText(items) + last + "";
    ItemsThen(items, [], last, "", vector, inner);
    assert last + "" == last;
    SkipAll(last);
  }

  lemma PrefixOn(c: char, tail: string, r: Quoted)
    ensures WithPrefix([c], WithPrefix(tail, r)) == WithPrefix([c] + tail, r)
  {
    if r.Success? { assert [c] + (tail + r.value.0) == [c] + tail + r.value.0; }
  }

  lemma {:induction false} QuotedRuns(s: string, rest: string, all: string)
    requires all == Guarded(Guarded(s, '\\'), '"') + rest
    ensures ReadQuoted(all) == WithPrefix(s, ReadQuoted(rest))
    decreases |s|
  {
    if s == [] {
      assert all == rest;
      PrefixMore([], ' ', ReadQuoted(rest));
    } else {
      var c, more := s[0], Guarded(Guarded(s[1..], '\\'), '"') + rest;
      QuotedRuns(s[1..], rest, more);
      OneGuarded(c, s[1..]);
      assert [c] + s[1..] == s;
      if c == '\\' || c == '"' {
        assert all == ['\\', c] + more && all[2..] == more;
      } else {
        assert all == [c] + more && all[1..] == more;
      }
      PrefixOn(c, s[1..], ReadQuoted(rest));
    }
  }

  /** A string that is not closed, or that ends in a lone backslash. */
  lemma UnclosedStringFails(s: string)
    ensures var open := "\"" + Guarded(Guarded(s, '\\'), '"');
            && Parse(open) == Failure(UnterminatedString)
            && Parse(open + "\\") == Failure(CutEscape)
  {
    var body := Guarded(Guarded(s, '\\'), '"');
    var open := "\"" + body;
    QuotedRuns(s, "", body);
    QuotedRuns(s, "\\", body + "\\");
    assert body + "" == body && open[1..] == body && (open + "\\")[1..] == body + "\\";
    assert Skip(open) == open && Skip(open + "\\") == open + "\\";
  }

  /** A dotted pair with more than its two halves, or not closed. */
  lemma {:induction false} LongPairFails(car: Item, dotGap: string, cdr: Item, last: string, more: string)
    requires var d := PairDoc(car, dotGap, cdr, last); WellSpaced(d)
    requires more == [] || (more[0] != ')' && Skip(more) == more)
    requires cdr.doc.AtomDoc? ==> EndsAtom(last + more) && !StartsParen(last + more)
    ensures Parse("(" + (car.gap + (TextOf(car.doc) + (dotGap + ("." + (cdr.gap + TextOf(cdr.doc) + (last + more)))))))
         == Failure(MalformedPair)
  {
    var tail := cdr.gap + TextOf(cdr.doc) + (last + more);
    var dotted := dotGap + ("." + tail);
    var first := TextOf(car.doc) + dotted;
    var inner := car.gap + first;
    ListOpens(false, inner, "(" + inner);
    if car.doc.AtomDoc? { FollowsOn(dotGap, "." + tail, dotted); GapNoParen(dotGap); }
    ReadsDoc(car.doc, dotted, first);
    ItemReadAt(car, [], false, first, dotted, inner);
    NoneBefore([ValueOf(car.doc)]);
    ItemsAfterGap(dotGap, "." + tail, dotted, [ValueOf(car.doc)], false);
    DotFails(ValueOf(car.doc), cdr, last, more, tail);
  }

  lemma DotFails(car: Value, cdr: Item, last: string, more: string, tail: string)
    requires tail == cdr.gap + TextOf(cdr.doc) + (last + more) && Gap(cdr.gap) && cdr.gap != [] && IsSpace(cdr.gap[0])
    requires WellSpaced(cdr.doc) && Gap(last) && (more == [] || (more[0] != ')' && Skip(more) == more))
    requires cdr.doc.AtomDoc? ==> EndsAtom(last + more) && !StartsParen(last + more)
    ensures ParseItems("." + tail, [car], false) == Failure(MalformedPair)
  {
    var closing := last + more;
    DotStarts(car, tail, cdr.gap[0]);
    CdrReads(cdr, closing, tail);
    SkipGap(last, more, closing);
    CdrFails(car, tail, ValueOf(cdr.doc), closing, more);
  }

  lemma CdrReads(cdr: Item, closing: string, tail: string)
    requires Gap(cdr.gap) && WellSpaced(cdr.doc) && tail == cdr.gap + TextOf(cdr.doc) + closing
    requires cdr.doc.AtomDoc? ==> EndsAtom(closing) && !StartsParen(closing)
    ensures Parse(tail) == Success((ValueOf(cdr.doc), closing))
  {
    var text := TextOf(cdr.doc) + closing;
    assert tail == cdr.gap + text;
    ParseAfterGap(cdr.gap, text, tail);
    ReadsDoc(cdr.doc, closing, text);
  }

  lemma CdrFails(car: Value, tail: string, v: Value, closing: string, more: string)
    requires Parse(tail) == Success((v, closing)) && Skip(closing) == Skip(more)
    requires more == [] || (more[0] != ')' && Skip(more) == more)
    ensures CdrOf(car, tail) == Failure(MalformedPair)
  {
  }

  lemma DotStarts(car: Value, tail: string, blank: char)
    requires tail != [] && tail[0] == blank && IsSpace(blank)
    ensures ParseItems("." + tail, [car], false) == CdrOf(car, tail)
  {
    var s := "." + tail;
    assert s[0] == '.' && s[1] == blank && s[1..] == tail && Skip(s) == s;
  }

  /** A file with anything behind its value, or with no value. */
  lemma TrailingRefused(before: string, d: Doc, rest: string)
    requires Gap(before) && WellSpaced(d) && Skip(rest) != [] && (d.AtomDoc? ==> EndsAtom(rest) && !StartsParen(rest))
    ensures ReadAll(before + (TextOf(d) + rest)) == Failure(TrailingContent)
    ensures ReadAll(before) == Failure(UnexpectedEnd)
  {
    var value := TextOf(d) + rest;
    SkipGap(before, value, before + value);
    Starts(d, rest, value, []);
    ReadsDoc(d, rest, value);
    SkipAll(before);
  }
}
