/** The worklist behind `{:?}` and `{:#?}` of match patterns, and its agreement
    with the rendering a derived `Debug` would produce. */
module PatternDebug {
  import opened Text
  import opened MatchPattern

  /** How leaves are written: quoted names, a literal on one line, and the tuple
      name and value of a literal (none for the unit literal `Null`). */
  datatype Style<!L> = Style(
    quote: string -> string,
    compactLiteral: L -> string,
    literalParts: L -> Option<(string, string)>)

  // ---------- compact rendering ----------

  function Compact<L>(s: Style<L>, p: Pattern<L>): string
    decreases p, 1
  {
    match p
    case Wildcard => "Wildcard"
    case Binding(name) => "Binding(" + s.quote(name) + ")"
    case Literal(literal) => "Literal(" + s.compactLiteral(literal) + ")"
    case Variant(enumName, variant, fields) => CompactHead(s, enumName, variant) + (CompactFields(s, fields, true) + "] }")
  }

  function CompactHead<L>(s: Style<L>, enumName: string, variant: string): string
  {
    "EnumVariant { enum_name: " + s.quote(enumName) + ", variant: " + s.quote(variant) + ", fields: ["
  }

  function CompactFields<L>(s: Style<L>, ps: seq<Pattern<L>>, first: bool): string
    decreases ps, 0
  {
    if |ps| == 0 then ""
    else (if first then "" else ", ") + (Compact(s, ps[0]) + CompactFields(s, ps[1..], false))
  }

  // ---------- compact rendering, as a derived implementation builds it ----------

  function Joined(parts: seq<string>, sep: string): string
  {
    if |parts| == 0 then "" else if |parts| == 1 then parts[0] else parts[0] + sep + Joined(parts[1..], sep)
  }

  function TupleOf(name: string, value: string): string
  {
    name + "(" + value + ")"
  }

  function StructOf(name: string, fields: seq<(string, string)>): string
  {
    name + " { " + Joined(seq(|fields|, k requires 0 <= k < |fields| => fields[k].0 + ": " + fields[k].1), ", ") + " }"
  }

  function ListOf(values: seq<string>): string
  {
    "[" + Joined(values, ", ") + "]"
  }

  function DerivedCompact<L>(s: Style<L>, p: Pattern<L>): string
    decreases p, 1
  {
    match p
    case Wildcard => "Wildcard"
    case Binding(name) => TupleOf("Binding", s.quote(name))
    case Literal(literal) => TupleOf("Literal", s.compactLiteral(literal))
    case Variant(enumName, variant, fields) =>
      StructOf("EnumVariant", [("enum_name", s.quote(enumName)), ("variant", s.quote(variant)),
                               ("fields", ListOf(DerivedAll(s, fields)))])
  }

  function DerivedAll<L>(s: Style<L>, ps: seq<Pattern<L>>): (r: seq<string>)
    ensures |r| == |ps|
    decreases ps, 0
  {
    if |ps| == 0 then [] else [DerivedCompact(s, ps[0])] + DerivedAll(s, ps[1..])
  }

  lemma JoinedMore(parts: seq<string>, sep: string)
    requires |parts| > 1
    ensures Joined(parts, sep) == parts[0] + sep + Joined(parts[1..], sep)
  {
  }

  lemma JoinedOne(part: string, sep: string)
    ensures Joined([part], sep) == part && Joined([], sep) == ""
  {
  }

  lemma StructForm(name: string, a: string, x: string, b: string, y: string, c: string, z: string)
    ensures StructOf(name, [(a, x), (b, y), (c, z)]) ==
            name + " { " + a + ": " + x + ", " + b + ": " + y + ", " + c + ": " + z + " }"
  {
    hide Joined;
    var fields := [(a, x), (b, y), (c, z)];
    var parts := seq(|fields|, k requires 0 <= k < |fields| => fields[k].0 + ": " + fields[k].1);
    assert parts == [a + ": " + x, b + ": " + y, c + ": " + z];
    JoinedMore(parts, ", ");
    JoinedMore(parts[1..], ", ");
    assert parts[1..][1..] == [c + ": " + z];
    JoinedOne(c + ": " + z, ", ");
  }

  /** The compact rendering is the one a derived implementation builds. */
  lemma {:induction false} CompactIsDerived<L>(s: Style<L>, p: Pattern<L>)
    ensures Compact(s, p) == DerivedCompact(s, p)
    decreases p, 1
  {
    hide StructOf, Joined, CompactFields, DerivedAll;
    match p
    case Wildcard =>
    case Binding(_) =>
    case Literal(_) =>
    case Variant(enumName, variant, fields) =>
      CompactFieldsAreDerived(s, fields);
      StructForm("EnumVariant", "enum_name", s.quote(enumName), "variant", s.quote(variant),
                 "fields", ListOf(DerivedAll(s, fields)));
      HeadForm(s, enumName, variant, Joined(DerivedAll(s, fields), ", "));
  }

  lemma HeadForm<L>(s: Style<L>, enumName: string, variant: string, body: string)
    ensures CompactHead(s, enumName, variant) + (body + "] }") ==
            "EnumVariant" + " { " + "enum_name" + ": " + s.quote(enumName) + ", " + "variant" + ": " + s.quote(variant)
            + ", " + "fields" + ": " + ("[" + body + "]") + " }"
  {
    var head := CompactHead(s, enumName, variant);
    var built := "EnumVariant" + " { " + "enum_name" + ": " + s.quote(enumName) + ", " + "variant" + ": "
                 + s.quote(variant) + ", " + "fields" + ": ";
    assert head == built + "[";
  }

  lemma {:induction false} CompactFieldsAreDerived<L>(s: Style<L>, ps: seq<Pattern<L>>)
    ensures CompactFields(s, ps, true) == Joined(DerivedAll(s, ps), ", ")
    ensures |ps| > 0 ==> CompactFields(s, ps, false) == ", " + Joined(DerivedAll(s, ps), ", ")
    decreases ps, 0
  {
    hide Compact, DerivedCompact, Joined;
    if |ps| > 0 {
      CompactIsDerived(s, ps[0]);
      CompactFieldsAreDerived(s, ps[1..]);
      var all := DerivedAll(s, ps);
      assert all[1..] == DerivedAll(s, ps[1..]) && all[0] == DerivedCompact(s, ps[0]);
      if |ps| == 1 {
        assert all == [all[0]];
        JoinedOne(all[0], ", ");
      } else {
        JoinedMore(all, ", ");
      }
    } else {
      JoinedOne("", ", ");
    }
  }

  // ---------- pretty rendering, as the worklist indents it ----------

  function Indent(depth: nat): string
  {
    if depth == 0 then "" else "    " + Indent(depth - 1)
  }

  function TupleStart(name: string, depth: nat): string
  {
    name + "(\n" + Indent(depth + 1)
  }

  function TupleEnd(depth: nat): string
  {
    ",\n" + Indent(depth) + ")"
  }

  function PrettyLiteral<L>(s: Style<L>, literal: L, depth: nat): string
  {
    match s.literalParts(literal)
    case Some((name, value)) => TupleStart(name, depth) + value + TupleEnd(depth)
    case None => "Null"
  }

  function PrettyHead<L>(s: Style<L>, enumName: string, variant: string, depth: nat): string
  {
    "EnumVariant {\n" + Indent(depth + 1) + "enum_name: " + s.quote(enumName) + ",\n" + Indent(depth + 1) + "variant: "
    + s.quote(variant) + ",\n" + Indent(depth + 1) + "fields: "
  }

  function EnumEnd(depth: nat): string
  {
    Indent(depth + 1) + "],\n" + Indent(depth) + "}"
  }

  function Pretty<L>(s: Style<L>, p: Pattern<L>, depth: nat): string
    decreases p, 1
  {
    match p
    case Wildcard => "Wildcard"
    case Binding(name) => TupleStart("Binding", depth) + s.quote(name) + TupleEnd(depth)
    case Literal(literal) => TupleStart("Literal", depth) + (PrettyLiteral(s, literal, depth + 1) + TupleEnd(depth))
    case Variant(enumName, variant, fields) =>
      if |fields| == 0 then PrettyHead(s, enumName, variant, depth) + ("[],\n" + Indent(depth) + "}")
      else PrettyHead(s, enumName, variant, depth) + "[\n" + (PrettyFields(s, fields, depth + 2) + EnumEnd(depth))
  }

  function PrettyFields<L>(s: Style<L>, ps: seq<Pattern<L>>, depth: nat): string
    decreases ps, 0
  {
    if |ps| == 0 then ""
    else Indent(depth) + (Pretty(s, ps[0], depth) + (",\n" + PrettyFields(s, ps[1..], depth)))
  }

  // ---------- the worklist ----------

  datatype Work<L> =
    | PatternWork(pattern: Pattern<L>, depth: nat)
    | FieldsWork(fields: seq<Pattern<L>>, depth: nat, first: bool)
    | LiteralWork(literal: L, depth: nat)
    | TextWork(text: string)
    | TupleEndWork(depth: nat)
    | EnumEndWork(depth: nat)

  /** What one work item will write. */
  function Shown<L>(s: Style<L>, pretty: bool, w: Work<L>): string
  {
    match w
    case PatternWork(p, depth) => if pretty then Pretty(s, p, depth) else Compact(s, p)
    case FieldsWork(ps, depth, first) => if pretty then PrettyFields(s, ps, depth) else CompactFields(s, ps, first)
    case LiteralWork(literal, depth) => PrettyLiteral(s, literal, depth)
    case TextWork(text) => text
    case TupleEndWork(depth) => TupleEnd(depth)
    case EnumEndWork(depth) => EnumEnd(depth)
  }

  /** What a worklist will write, last item first. */
  function ShownAll<L>(s: Style<L>, pretty: bool, work: seq<Work<L>>): string
    decreases |work|
  {
    if |work| == 0 then ""
    else Shown(s, pretty, work[|work| - 1]) + ShownAll(s, pretty, work[..|work| - 1])
  }

  function Weight<L>(w: Work<L>): (n: nat)
    ensures n >= 1
  {
    match w
    case PatternWork(p, _) => 6 * Size(p) - 2
    case FieldsWork(ps, _, _) => 6 * SizeAll(ps) + 1
    case _ => 1
  }

  function TotalWeight<L>(work: seq<Work<L>>): nat
    decreases |work|
  {
    if |work| == 0 then 0 else Weight(work[|work| - 1]) + TotalWeight(work[..|work| - 1])
  }

  lemma PushWork<L>(s: Style<L>, pretty: bool, work: seq<Work<L>>, w: Work<L>)
    ensures ShownAll(s, pretty, work + [w]) == Shown(s, pretty, w) + ShownAll(s, pretty, work)
    ensures TotalWeight(work + [w]) == Weight(w) + TotalWeight(work)
  {
    hide Shown, Weight;
    assert (work + [w])[..|work|] == work;
  }

  /** One pass of the loop: `written` is emitted at once, `pushed` is left for later. */
  datatype Expansion<L> = Expansion(written: string, pushed: seq<Work<L>>)

  function Expand<L>(s: Style<L>, pretty: bool, w: Work<L>): Expansion<L>
  {
    match w
    case PatternWork(p, depth) => ExpandPattern(s, pretty, p, depth)
    case FieldsWork(ps, depth, first) =>
      if |ps| == 0 then Expansion("", [])
      else if pretty then
        Expansion(Indent(depth), [FieldsWork(ps[1..], depth, false), TextWork(",\n"), PatternWork(ps[0], depth)])
      else Expansion(if first then "" else ", ", [FieldsWork(ps[1..], depth, false), PatternWork(ps[0], depth)])
    case LiteralWork(literal, depth) => Expansion(PrettyLiteral(s, literal, depth), [])
    case TextWork(text) => Expansion(text, [])
    case TupleEndWork(depth) => Expansion(TupleEnd(depth), [])
    case EnumEndWork(depth) => Expansion(EnumEnd(depth), [])
  }

  function ExpandPattern<L>(s: Style<L>, pretty: bool, p: Pattern<L>, depth: nat): Expansion<L>
  {
    match p
    case Wildcard => Expansion("Wildcard", [])
    case Binding(name) =>
      if pretty then Expansion(TupleStart("Binding", depth) + s.quote(name) + TupleEnd(depth), [])
      else Expansion("Binding(" + s.quote(name) + ")", [])
    case Literal(literal) =>
      if pretty then Expansion(TupleStart("Literal", depth), [TupleEndWork(depth), LiteralWork(literal, depth + 1)])
      else Expansion("Literal(" + s.compactLiteral(literal) + ")", [])
    case Variant(enumName, variant, fields) =>
      if pretty then
        if |fields| == 0 then Expansion(PrettyHead(s, enumName, variant, depth) + ("[],\n" + Indent(depth) + "}"), [])
        else Expansion(PrettyHead(s, enumName, variant, depth) + "[\n",
                       [EnumEndWork(depth), FieldsWork(fields, depth + 2, true)])
      else Expansion(CompactHead(s, enumName, variant), [TextWork("] }"), FieldsWork(fields, depth, true)])
  }

  lemma NothingShown<L>(s: Style<L>, pretty: bool)
    ensures ShownAll(s, pretty, []) == "" && TotalWeight<L>([]) == 0
  {
  }

  lemma ShowTwo<L>(s: Style<L>, pretty: bool, a: Work<L>, b: Work<L>)
    ensures ShownAll(s, pretty, [a, b]) == Shown(s, pretty, b) + Shown(s, pretty, a)
    ensures TotalWeight([a, b]) == Weight(a) + Weight(b)
  {
    hide Shown, Weight, ShownAll, TotalWeight;
    NothingShown(s, pretty);
    PushWork(s, pretty, [], a);
    PushWork(s, pretty, [a], b);
    assert [] + [a] == [a] && [a] + [b] == [a, b];
    assert Shown(s, pretty, a) + "" == Shown(s, pretty, a);
  }

  lemma ShowThree<L>(s: Style<L>, pretty: bool, a: Work<L>, b: Work<L>, c: Work<L>)
    ensures ShownAll(s, pretty, [a, b, c]) == Shown(s, pretty, c) + (Shown(s, pretty, b) + Shown(s, pretty, a))
    ensures TotalWeight([a, b, c]) == Weight(a) + Weight(b) + Weight(c)
  {
    hide Shown, Weight, ShownAll, TotalWeight;
    ShowTwo(s, pretty, a, b);
    PushWork(s, pretty, [a, b], c);
    assert [a, b] + [c] == [a, b, c];
  }

  lemma ExpandFields<L>(s: Style<L>, pretty: bool, ps: seq<Pattern<L>>, depth: nat, first: bool)
    ensures var w := FieldsWork(ps, depth, first);
            var x := Expand(s, pretty, w);
            Shown(s, pretty, w) == x.written + ShownAll(s, pretty, x.pushed) && TotalWeight(x.pushed) < Weight(w)
  {
    hide Pretty, Compact, Indent, Size, ShownAll, TotalWeight;
    NothingShown(s, pretty);
    if |ps| > 0 {
      var rest, head := FieldsWork(ps[1..], depth, false), PatternWork(ps[0], depth);
      ShowTwo(s, pretty, rest, head);
      ShowThree(s, pretty, rest, TextWork(",\n"), head);
    }
  }

  lemma ExpandOnePattern<L>(s: Style<L>, pretty: bool, p: Pattern<L>, depth: nat)
    ensures var w := PatternWork(p, depth);
            var x := Expand(s, pretty, w);
            Shown(s, pretty, w) == x.written + ShownAll(s, pretty, x.pushed) && TotalWeight(x.pushed) < Weight(w)
  {
    hide PrettyFields, CompactFields, Indent, ShownAll, TotalWeight, TupleStart, TupleEnd, PrettyLiteral;
    hide PrettyHead, CompactHead, EnumEnd, SizeAll;
    NothingShown(s, pretty);
    match p
    case Wildcard =>
    case Binding(name) =>
      assert (TupleStart("Binding", depth) + s.quote(name) + TupleEnd(depth)) + "" ==
             TupleStart("Binding", depth) + s.quote(name) + TupleEnd(depth);
      assert ("Binding(" + s.quote(name) + ")") + "" == "Binding(" + s.quote(name) + ")";
    case Literal(literal) =>
      ShowTwo(s, pretty, TupleEndWork(depth), LiteralWork(literal, depth + 1));
      assert ("Literal(" + s.compactLiteral(literal) + ")") + "" == "Literal(" + s.compactLiteral(literal) + ")";
    case Variant(enumName, variant, fields) =>
      ShowTwo(s, pretty, EnumEndWork(depth), FieldsWork(fields, depth + 2, true));
      ShowTwo(s, pretty, TextWork("] }"), FieldsWork(fields, depth, true));
      var empty := PrettyHead(s, enumName, variant, depth) + ("[],\n" + Indent(depth) + "}");
      assert empty + "" == empty;
  }

  /** Expanding an item writes a prefix of what it shows, leaves the rest on the
      worklist, and makes the worklist lighter. */
  lemma ExpandCorrect<L>(s: Style<L>, pretty: bool, w: Work<L>)
    ensures var x := Expand(s, pretty, w);
            Shown(s, pretty, w) == x.written + ShownAll(s, pretty, x.pushed) && TotalWeight(x.pushed) < Weight(w)
  {
    hide ShownAll, TotalWeight;
    NothingShown(s, pretty);
    match w
    case PatternWork(p, depth) => ExpandOnePattern(s, pretty, p, depth);
    case FieldsWork(ps, depth, first) => ExpandFields(s, pretty, ps, depth, first);
    case LiteralWork(literal, depth) =>
      hide PrettyLiteral;
      assert PrettyLiteral(s, literal, depth) + "" == PrettyLiteral(s, literal, depth);
    case TextWork(text) => assert text + "" == text;
    case TupleEndWork(depth) =>
      hide TupleEnd;
      assert TupleEnd(depth) + "" == TupleEnd(depth);
    case EnumEndWork(depth) =>
      hide EnumEnd;
      assert EnumEnd(depth) + "" == EnumEnd(depth);
  }

  lemma {:induction false} PushAll<L>(s: Style<L>, pretty: bool, work: seq<Work<L>>, more: seq<Work<L>>)
    ensures ShownAll(s, pretty, work + more) == ShownAll(s, pretty, more) + ShownAll(s, pretty, work)
    ensures TotalWeight(work + more) == TotalWeight(more) + TotalWeight(work)
    decreases |more|
  {
    hide Shown, Weight, ShownAll, TotalWeight;
    if |more| == 0 {
      NothingShown(s, pretty);
      assert work + more == work && more == [];
      assert "" + ShownAll(s, pretty, work) == ShownAll(s, pretty, work);
    } else {
      var last, init := more[|more| - 1], more[..|more| - 1];
      PushAll(s, pretty, work, init);
      assert more == init + [last] && work + more == (work + init) + [last];
      PushWork(s, pretty, init, last);
      PushWork(s, pretty, work + init, last);
      Assoc(Shown(s, pretty, last), ShownAll(s, pretty, init), ShownAll(s, pretty, work));
    }
  }

  /** `Debug::fmt`: the explicit worklist writes exactly the recursive rendering,
      compact or pretty. */
  method Format<L>(s: Style<L>, pretty: bool, p: Pattern<L>) returns (output: string)
    ensures output == if pretty then Pretty(s, p, 0) else Compact(s, p)
  {
    hide Pretty, Compact, ShownAll, TotalWeight, Expand, Weight;
    output := "";
    var pending: seq<Work<L>> := [PatternWork(p, 0)];
    ghost var goal := Shown(s, pretty, PatternWork(p, 0));
    NothingShown(s, pretty);
    PushWork(s, pretty, [], PatternWork(p, 0));
    assert [] + [PatternWork(p, 0)] == pending;
    assert "" + (goal + "") == goal;
    while |pending| > 0
      invariant output + ShownAll(s, pretty, pending) == goal
      decreases TotalWeight(pending)
    {
      var last := |pending| - 1;
      var work, rest := pending[last], pending[..last];
      assert pending == rest + [work];
      PushWork(s, pretty, rest, work);
      ExpandCorrect(s, pretty, work);
      var x := Expand(s, pretty, work);
      PushAll(s, pretty, rest, x.pushed);
      Assoc(x.written, ShownAll(s, pretty, x.pushed), ShownAll(s, pretty, rest));
      Assoc(output, x.written, ShownAll(s, pretty, x.pushed) + ShownAll(s, pretty, rest));
      output := output + x.written;
      pending := rest + x.pushed;
    }
    NothingShown(s, pretty);
    assert pending == [] && output + "" == output;
  }

  // ---------- agreement with a derived rendering ----------

  /** The standard library's indenting adapter: four spaces before the first
      character of every line. */
  function Pad(text: string, lineStart: bool): string
  {
    if |text| == 0 then ""
    else (if lineStart then "    " else "") + [text[0]] + Pad(text[1..], text[0] == '\n')
  }

  function PaddedLine(text: string): string
  {
    Pad(text + ",\n", true)
  }

  function DerivedTuple(name: string, inner: string): string
  {
    name + "(\n" + PaddedLine(inner) + ")"
  }

  function DerivedLiteral<L>(s: Style<L>, literal: L): string
  {
    match s.literalParts(literal)
    case Some((name, value)) => DerivedTuple(name, value)
    case None => "Null"
  }

  /** What `#[derive(Debug)]` prints for `{:#?}`: nested builders, each padding
      whatever its fields printed. No depth is passed down. */
  function Derived<L>(s: Style<L>, p: Pattern<L>): string
    decreases p, 1
  {
    match p
    case Wildcard => "Wildcard"
    case Binding(name) => DerivedTuple("Binding", s.quote(name))
    case Literal(literal) => DerivedTuple("Literal", DerivedLiteral(s, literal))
    case Variant(enumName, variant, fields) =>
      "EnumVariant {\n" + PaddedLine("enum_name: " + s.quote(enumName)) + PaddedLine("variant: " + s.quote(variant))
      + PaddedLine("fields: " + (if |fields| == 0 then "[]" else "[\n" + DerivedEntries(s, fields) + "]")) + "}"
  }

  function DerivedEntries<L>(s: Style<L>, ps: seq<Pattern<L>>): string
    decreases ps, 0
  {
    if |ps| == 0 then "" else PaddedLine(Derived(s, ps[0])) + DerivedEntries(s, ps[1..])
  }

  /** Move a text `n` levels to the right: indentation after every newline. */
  function Shift(n: nat, text: string): string
  {
    if |text| == 0 then ""
    else if text[0] == '\n' then "\n" + Indent(n) + Shift(n, text[1..])
    else [text[0]] + Shift(n, text[1..])
  }

  lemma {:induction false} ShiftConcat(n: nat, a: string, b: string)
    ensures Shift(n, a + b) == Shift(n, a) + Shift(n, b)
  {
    hide Indent;
    if |a| == 0 {
      assert a + b == b;
    } else {
      ShiftConcat(n, a[1..], b);
      assert (a + b)[1..] == a[1..] + b && (a + b)[0] == a[0];
      if a[0] == '\n' {
        Assoc("\n" + Indent(n), Shift(n, a[1..]), Shift(n, b));
      } else {
        Assoc([a[0]], Shift(n, a[1..]), Shift(n, b));
      }
    }
  }

  lemma {:induction false} ShiftFlat(n: nat, text: string)
    requires '\n' !in text
    ensures Shift(n, text) == text
  {
    if |text| > 0 {
      ShiftFlat(n, text[1..]);
      assert text == [text[0]] + text[1..];
    }
  }

  lemma {:induction false} IndentAdd(a: nat, b: nat)
    ensures Indent(a) + Indent(b) == Indent(a + b)
  {
    if a > 0 {
      IndentAdd(a - 1, b);
      Assoc("    ", Indent(a - 1), Indent(b));
    }
  }

  lemma {:induction false} IndentFlat(n: nat)
    ensures '\n' !in Indent(n)
  {
    if n > 0 {
      IndentFlat(n - 1);
    }
  }

  lemma {:induction false} ShiftTwice(n: nat, m: nat, text: string)
    ensures Shift(n, Shift(m, text)) == Shift(n + m, text)
  {
    if |text| > 0 {
      ShiftTwice(n, m, text[1..]);
      hide Indent;
      var rest := Shift(m, text[1..]);
      if text[0] == '\n' {
        IndentFlat(m);
        IndentAdd(n, m);
        ShiftFlat(n, Indent(m));
        ShiftNewline(n);
        ShiftConcat(n, "\n", Indent(m));
        ShiftConcat(n, "\n" + Indent(m), rest);
        Assoc("\n", Indent(n), Indent(m));
      } else {
        ShiftFlat(n, [text[0]]);
        ShiftConcat(n, [text[0]], rest);
      }
    }
  }

  lemma ShiftNewline(n: nat)
    ensures Shift(n, "\n") == "\n" + Indent(n)
  {
    hide Indent;
    assert "\n"[1..] == "";
    assert "\n" + Indent(n) + "" == "\n" + Indent(n);
  }

  lemma IndentOne()
    ensures Indent(1) == "    "
  {
    assert Indent(0) == "";
  }

  /** Padding a text that ends its last line is a one-level shift behind one indent. */
  lemma {:induction false} PadIsShift(text: string, lineStart: bool)
    ensures Pad(text + "\n", lineStart) == (if lineStart then "    " else "") + Shift(1, text) + "\n"
  {
    var lead := if lineStart then "    " else "";
    IndentOne();
    if |text| == 0 {
      assert text + "\n" == "\n";
      assert "\n"[1..] == "" && Pad("", true) == "";
      assert lead + "" == lead && lead + "\n" + "" == lead + "\n";
    } else {
      hide Indent;
      assert (text + "\n")[1..] == text[1..] + "\n" && (text + "\n")[0] == text[0];
      PadIsShift(text[1..], text[0] == '\n');
      var inner := Shift(1, text[1..]);
      if text[0] == '\n' {
        assert lead + "\n" + ("    " + inner + "\n") == lead + ("\n" + "    " + inner) + "\n";
      } else {
        assert lead + [text[0]] + ("" + inner + "\n") == lead + ([text[0]] + inner) + "\n";
      }
    }
  }

  lemma PaddedLineIs(text: string)
    ensures PaddedLine(text) == Indent(1) + Shift(1, text) + ",\n"
  {
    IndentOne();
    hide Pad, Shift, Indent;
    PadIsShift(text + ",", true);
    assert text + "," + "\n" == text + ",\n";
    ShiftConcat(1, text, ",");
    ShiftFlat(1, ",");
    assert "    " + (Shift(1, text) + ",") + "\n" == "    " + Shift(1, text) + ",\n";
  }

  /** A padded line, shifted to depth `n`, in the worklist's own terms. */
  lemma ShiftedLine(n: nat, text: string)
    ensures Shift(n, PaddedLine(text)) == Indent(1) + Shift(n + 1, text) + ",\n" + Indent(n)
  {
    hide Pad, Shift, Indent, PaddedLine;
    PaddedLineIs(text);
    IndentFlat(1);
    ShiftConcat(n, Indent(1), Shift(1, text));
    ShiftConcat(n, Indent(1) + Shift(1, text), ",\n");
    ShiftFlat(n, Indent(1));
    ShiftTwice(n, 1, text);
    ShiftConcat(n, ",", "\n");
    assert "," + "\n" == ",\n";
    ShiftFlat(n, ",");
    ShiftNewline(n);
    var head := Indent(1) + Shift(n + 1, text);
    assert head + ("," + ("\n" + Indent(n))) == head + ",\n" + Indent(n);
  }

  /** Leaves are written on one line: debug strings escape their newlines. */
  ghost predicate FlatLeaves<L(!new)>(s: Style<L>)
  {
    && (forall text :: '\n' !in s.quote(text))
    && forall l :: match s.literalParts(l) case Some((name, value)) => '\n' !in name && '\n' !in value case None => true
  }

  lemma ShiftTuple(n: nat, name: string, inner: string)
    requires '\n' !in name
    ensures Shift(n, DerivedTuple(name, inner)) == TupleStart(name, n) + Shift(n + 1, inner) + TupleEnd(n)
  {
    hide Shift, Indent, PaddedLine;
    var line := PaddedLine(inner);
    var head := name + "(";
    assert name + "(\n" == head + "\n";
    ShiftFlat(n, head);
    ShiftFlat(n, ")");
    ShiftNewline(n);
    ShiftConcat(n, head, "\n");
    ShiftConcat(n, head + "\n", line);
    ShiftConcat(n, head + "\n" + line, ")");
    ShiftedLine(n, inner);
    IndentAdd(n, 1);
    var body := Shift(n + 1, inner);
    assert (head + ("\n" + Indent(n))) + (Indent(1) + body + ",\n" + Indent(n)) + ")" ==
           (head + "\n" + (Indent(n) + Indent(1))) + body + (",\n" + Indent(n) + ")");
  }

  lemma ShiftLiteral<L(!new)>(s: Style<L>, literal: L, n: nat)
    requires FlatLeaves(s)
    ensures Shift(n, DerivedLiteral(s, literal)) == PrettyLiteral(s, literal, n)
  {
    hide Shift, DerivedTuple, TupleStart, TupleEnd;
    match s.literalParts(literal)
    case Some((name, value)) =>
      ShiftTuple(n, name, value);
      ShiftFlat(n + 1, value);
    case None => ShiftFlat(n, "Null");
  }

  /** The three padded fields of a variant, shifted, are the worklist's header. */
  lemma ShiftVariant<L(!new)>(s: Style<L>, enumName: string, variant: string, tail: string, n: nat)
    requires FlatLeaves(s)
    ensures Shift(n, "EnumVariant {\n" + PaddedLine("enum_name: " + s.quote(enumName))
                     + PaddedLine("variant: " + s.quote(variant)) + PaddedLine("fields: " + tail) + "}") ==
            PrettyHead(s, enumName, variant, n) + Shift(n + 1, tail) + (",\n" + Indent(n) + "}")
  {
    hide Shift, Indent, PaddedLine;
    var e, v, f := "enum_name: " + s.quote(enumName), "variant: " + s.quote(variant), "fields: " + tail;
    var open := "EnumVariant {\n";
    ShiftOpen(n);
    ShiftedLine(n, e);
    ShiftedLine(n, v);
    ShiftedLine(n, f);
    ShiftFlat(n + 1, e);
    ShiftFlat(n + 1, v);
    ShiftFlat(n, "}");
    ShiftConcat(n + 1, "fields: ", tail);
    ShiftFlat(n + 1, "fields: ");
    ShiftConcat(n, open, PaddedLine(e));
    ShiftConcat(n, open + PaddedLine(e), PaddedLine(v));
    ShiftConcat(n, open + PaddedLine(e) + PaddedLine(v), PaddedLine(f));
    ShiftConcat(n, open + PaddedLine(e) + PaddedLine(v) + PaddedLine(f), "}");
    IndentAdd(n, 1);
    VariantText(Indent(n), Indent(1), s.quote(enumName), s.quote(variant), Shift(n + 1, tail));
  }

  lemma ShiftOpen(n: nat)
    ensures Shift(n, "EnumVariant {\n") == "EnumVariant {\n" + Indent(n)
  {
    hide Shift, Indent;
    assert "EnumVariant {\n" == "EnumVariant {" + "\n";
    ShiftConcat(n, "EnumVariant {", "\n");
    ShiftFlat(n, "EnumVariant {");
    ShiftNewline(n);
  }

  lemma VariantText(near: string, step: string, e: string, v: string, tail: string)
    ensures ("EnumVariant {\n" + near) + (step + ("enum_name: " + e) + ",\n" + near)
            + (step + ("variant: " + v) + ",\n" + near) + (step + ("fields: " + tail) + ",\n" + near) + "}" ==
            ("EnumVariant {\n" + (near + step) + "enum_name: " + e + ",\n" + (near + step) + "variant: "
             + v + ",\n" + (near + step) + "fields: ") + tail + (",\n" + near + "}")
  {
    var a, b, c := "enum_name: ", "variant: ", "fields: ";
    var open, comma, close := "EnumVariant {\n", ",\n", "}";
    var x := open + (near + step) + a + e;
    assert (open + near) + (step + (a + e) + comma + near) == x + comma + near;
    var y := x + comma + (near + step) + b + v;
    assert x + comma + near + (step + (b + v) + comma + near) == y + comma + near;
    assert y + comma + near + (step + (c + tail) + comma + near) == y + comma + (near + step) + c + tail + (comma + near);
    assert (comma + near) + close == comma + near + close;
    Assoc(y + comma + (near + step) + c + tail, comma + near, close);
  }

  lemma {:induction false} EntriesShift<L(!new)>(s: Style<L>, ps: seq<Pattern<L>>, n: nat)
    requires FlatLeaves(s)
    ensures Indent(n) + Shift(n, DerivedEntries(s, ps)) == PrettyFields(s, ps, n + 1) + Indent(n)
    decreases ps, 0
  {
    hide Shift, Indent, PaddedLine, Derived, Pretty, FlatLeaves;
    if |ps| == 0 {
      ShiftFlat(n, "");
      assert Indent(n) + "" == "" + Indent(n);
    } else {
      PrettyIsDerived(s, ps[0], n + 1);
      EntriesShift(s, ps[1..], n);
      ShiftedLine(n, Derived(s, ps[0]));
      ShiftConcat(n, PaddedLine(Derived(s, ps[0])), DerivedEntries(s, ps[1..]));
      IndentAdd(n, 1);
      var head, rest := Pretty(s, ps[0], n + 1), Shift(n, DerivedEntries(s, ps[1..]));
      var others := PrettyFields(s, ps[1..], n + 1);
      EntryText(Indent(n), Indent(1), head, rest, others);
    }
  }

  lemma EntryText(near: string, step: string, head: string, rest: string, others: string)
    requires near + rest == others + near
    ensures near + ((step + head + ",\n" + near) + rest) == ((near + step) + (head + (",\n" + others))) + near
  {
    var comma := ",\n";
    calc {
      near + ((step + head + comma + near) + rest);
      near + step + head + comma + (near + rest);
      near + step + head + comma + (others + near);
      ((near + step) + (head + (comma + others))) + near;
    }
  }

  /** The depth-carrying worklist output at depth `n` is the derived rendering
      moved `n` levels to the right; at depth zero the two are equal. */
  lemma {:induction false} PrettyIsDerived<L(!new)>(s: Style<L>, p: Pattern<L>, n: nat)
    requires FlatLeaves(s)
    ensures Pretty(s, p, n) == Shift(n, Derived(s, p))
    decreases p, 1
  {
    hide Shift, Indent, PaddedLine, TupleStart, TupleEnd, DerivedTuple, PrettyHead, PrettyLiteral, DerivedLiteral;
    match p
    case Wildcard => ShiftFlat(n, "Wildcard");
    case Binding(name) =>
      ShiftTuple(n, "Binding", s.quote(name));
      ShiftFlat(n + 1, s.quote(name));
    case Literal(literal) =>
      ShiftTuple(n, "Literal", DerivedLiteral(s, literal));
      ShiftLiteral(s, literal, n + 1);
      Assoc(TupleStart("Literal", n), PrettyLiteral(s, literal, n + 1), TupleEnd(n));
    case Variant(enumName, variant, fields) =>
      if |fields| == 0 {
        ShiftVariant(s, enumName, variant, "[]", n);
        ShiftFlat(n + 1, "[]");
        var head := PrettyHead(s, enumName, variant, n);
        assert head + "[]" + (",\n" + Indent(n) + "}") == head + ("[],\n" + Indent(n) + "}");
      } else {
        var entries := DerivedEntries(s, fields);
        var tail := "[\n" + entries + "]";
        ShiftVariant(s, enumName, variant, tail, n);
        EntriesShift(s, fields, n + 1);
        ShiftList(n + 1, entries);
        ListText(PrettyHead(s, enumName, variant, n), Indent(n + 1), Indent(n), Shift(n + 1, entries),
                 PrettyFields(s, fields, n + 2));
      }
  }

  lemma ShiftList(n: nat, entries: string)
    ensures Shift(n, "[\n" + entries + "]") == "[\n" + (Indent(n) + Shift(n, entries)) + "]"
  {
    hide Shift, Indent;
    assert "[\n" == "[" + "\n";
    ShiftConcat(n, "[", "\n");
    ShiftFlat(n, "[");
    ShiftNewline(n);
    ShiftConcat(n, "[\n", entries);
    ShiftConcat(n, "[\n" + entries, "]");
    ShiftFlat(n, "]");
    assert ("[" + ("\n" + Indent(n))) + Shift(n, entries) == "[\n" + (Indent(n) + Shift(n, entries));
  }

  lemma ListText(head: string, inner: string, outer: string, entries: string, fields: string)
    requires inner + entries == fields + inner
    ensures head + ("[\n" + (inner + entries) + "]") + (",\n" + outer + "}") ==
            head + "[\n" + (fields + (inner + "],\n" + outer + "}"))
  {
    assert "[\n" + (fields + inner) + "]" + (",\n" + outer + "}") == "[\n" + (fields + (inner + "],\n" + outer + "}"));
    Assoc(head, "[\n" + (fields + inner) + "]", ",\n" + outer + "}");
    Assoc(head, "[\n", fields + (inner + "],\n" + outer + "}"));
  }

  /** `{:#?}` of a pattern is what a derived implementation would print. */
  lemma PrettyAtRoot<L(!new)>(s: Style<L>, p: Pattern<L>)
    requires FlatLeaves(s)
    ensures Pretty(s, p, 0) == Derived(s, p)
  {
    hide Shift, Pretty, Derived;
    PrettyIsDerived(s, p, 0);
    ShiftZero(Derived(s, p));
  }

  lemma {:induction false} ShiftZero(text: string)
    ensures Shift(0, text) == text
  {
    if |text| > 0 {
      ShiftZero(text[1..]);
      assert text == [text[0]] + text[1..];
    }
  }
}
