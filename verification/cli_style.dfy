/**
 * `sw_cli/utils/style.py`: the colour switch, the colour helpers and the
 * recursive JSON pretty printer.  `click.style` is outside this model: a
 * console carries it as a `Painter`, so every statement about the text
 * itself is made with colouring off, which is what `--color never` gives.
 */
module CliStyle {
  import opened Base
  import opened PyStr
  import opened Json

  datatype Colour = NoColour | Green | Yellow | Red | Magenta | Cyan

  /** The keyword arguments a helper passes to `click.style`. */
  datatype Look = Look(fg: Colour, bold: bool)

  const GreenLook: Look := Look(Green, false)
  const YellowLook: Look := Look(Yellow, false)
  const RedLook: Look := Look(Red, true)
  const MagentaLook: Look := Look(Magenta, false)
  const CyanLook: Look := Look(Cyan, true)
  const BoldLook: Look := Look(NoColour, true)

  /** What `click.style` makes of a text. */
  type Painter = (string, Look) -> string

  /** The global `COLOR_MODE`, whether stdout is a terminal, and the styling library. */
  datatype Console = Console(mode: string, isatty: bool, paint: Painter)

  const DefaultMode: string := "auto"

  /** `set_color_mode(mode)`: the mode is kept lower-cased. */
  function SetColorMode(c: Console, mode: string): (r: Console)
    ensures r.isatty == c.isatty && r.paint == c.paint
    ensures forall k :: 0 <= k < |r.mode| ==> !('A' <= r.mode[k] <= 'Z')
  {
    c.(mode := Lower(mode))
  }

  /** `should_color()`: forced on, forced off, or following the terminal. */
  function ShouldColor(c: Console): (r: bool)
    ensures c.mode == "always" ==> r
    ensures c.mode == "never" ==> !r
    ensures c.mode != "always" && c.mode != "never" ==> r == c.isatty
  {
    if c.mode == "always" then true
    else if c.mode == "never" then false
    else c.isatty
  }

  lemma LowerIdempotent(s: string)
    ensures Lower(Lower(s)) == Lower(s)
  {
  }

  /**
   * After `set_color_mode(mode)` colouring depends only on the lower-cased
   * mode, so `ALWAYS` and `Never` work like `always` and `never`.
   */
  lemma SetColorModeDecides(c: Console, mode: string)
    ensures ShouldColor(SetColorMode(c, mode)) == ShouldColor(SetColorMode(c, Lower(mode)))
    ensures Lower(mode) == "always" ==> ShouldColor(SetColorMode(c, mode))
    ensures Lower(mode) == "never" ==> !ShouldColor(SetColorMode(c, mode))
  {
    LowerIdempotent(mode);
  }

  /** `style(text, **kwargs)`. */
  function Style(c: Console, text: string, look: Look): (r: string)
    ensures !ShouldColor(c) ==> r == text
  {
    if ShouldColor(c) then c.paint(text, look) else text
  }

  function GreenText(c: Console, text: string): string { Style(c, text, GreenLook) }
  function YellowText(c: Console, text: string): string { Style(c, text, YellowLook) }
  function RedText(c: Console, text: string): string { Style(c, text, RedLook) }
  function MagentaText(c: Console, text: string): string { Style(c, text, MagentaLook) }
  function CyanText(c: Console, text: string): string { Style(c, text, CyanLook) }
  function BoldText(c: Console, text: string): string { Style(c, text, BoldLook) }

  /** With colouring off every helper hands its text back. */
  lemma PlainHelpers(c: Console, text: string)
    requires !ShouldColor(c)
    ensures GreenText(c, text) == text && YellowText(c, text) == text
    ensures RedText(c, text) == text && MagentaText(c, text) == text
    ensures CyanText(c, text) == text && BoldText(c, text) == text
  {
  }

  /** With colouring on, only red, cyan and bold ask for bold text. */
  lemma PaintedHelpers(c: Console, text: string)
    requires ShouldColor(c)
    ensures GreenText(c, text) == c.paint(text, Look(Green, false))
    ensures YellowText(c, text) == c.paint(text, Look(Yellow, false))
    ensures RedText(c, text) == c.paint(text, Look(Red, true))
    ensures MagentaText(c, text) == c.paint(text, Look(Magenta, false))
    ensures CyanText(c, text) == c.paint(text, Look(Cyan, true))
    ensures BoldText(c, text) == c.paint(text, Look(NoColour, true))
  {
  }

  /** `format_boolean(value)`. */
  function FormatBoolean(c: Console, value: bool): (r: string)
    ensures !ShouldColor(c) ==> (r == "True" <==> value) && (r == "False" <==> !value)
    ensures ShouldColor(c) ==> r == c.paint(if value then "True" else "False", if value then GreenLook else RedLook)
  {
    if value then GreenText(c, "True") else RedText(c, "False")
  }

  /** `format_by_value(value, bad_values)`, with `None` for a missing set. */
  function FormatByValue(c: Console, value: string, badValues: Option<set<string>>): (r: string)
    ensures !ShouldColor(c) ==> r == value
    ensures ShouldColor(c) ==> r == c.paint(value, if badValues.Some? && value in badValues.value then RedLook else GreenLook)
  {
    var bad := if badValues.None? then {} else badValues.value;
    if value in bad then RedText(c, value) else GreenText(c, value)
  }

  /** A missing set of bad values is the empty set. */
  lemma ByValueMissingSet(c: Console, value: string)
    ensures FormatByValue(c, value, None) == FormatByValue(c, value, Some({}))
    ensures ShouldColor(c) ==> FormatByValue(c, value, None) == GreenText(c, value)
  {
  }

  // ---- format_json ----

  function Spaces(n: nat): (r: string)
    ensures |r| == n && forall k :: 0 <= k < n ==> r[k] == ' '
  {
    seq(n, _ => ' ')
  }

  function Quote(s: string): string {
    "\"" + s + "\""
  }

  /** The comma that ends every entry but the last of `n`. */
  function Comma(i: int, n: int): string {
    if i < n - 1 then "," else ""
  }

  /** `format_json(obj, indent)`. */
  function FormatJson(c: Console, obj: Json, indent: nat): (r: string)
    ensures obj.Obj? ==> |r| >= 3 + indent && r[..2] == "{\n" && r[|r| - indent - 2..] == "\n" + Spaces(indent) + "}"
    ensures obj.Arr? ==> |r| >= 3 + indent && r[..2] == "[\n" && r[|r| - indent - 2..] == "\n" + Spaces(indent) + "]"
    decreases obj, 0
  {
    match obj
    case Obj(fields) => "{\n" + Join(FieldLines(c, fields, indent, 0), "\n") + "\n" + Spaces(indent) + "}"
    case Arr(items) => "[\n" + Join(ItemLines(c, items, indent, 0), "\n") + "\n" + Spaces(indent) + "]"
    case Str(s) => GreenText(c, Quote(s))
    case Bool(b) => YellowText(c, if b then "true" else "false")
    case Null => RedText(c, "null")
    case Int(i) => MagentaText(c, IntToString(i))
  }

  /** The lines the loop over `obj.items()` collects, from entry `i` on. */
  function FieldLines(c: Console, fields: seq<Field>, indent: nat, i: nat): (r: seq<string>)
    requires i <= |fields|
    ensures |r| == |fields| - i
    decreases fields, |fields| - i
  {
    if i == |fields| then []
    else
      [Spaces(indent) + "  " + CyanText(c, Quote(fields[i].key)) + ": "
        + FormatJson(c, fields[i].val, indent + 2) + Comma(i, |fields|)]
      + FieldLines(c, fields, indent, i + 1)
  }

  /** The lines the loop over a list collects, from item `i` on. */
  function ItemLines(c: Console, items: seq<Json>, indent: nat, i: nat): (r: seq<string>)
    requires i <= |items|
    ensures |r| == |items| - i
    decreases items, |items| - i
  {
    if i == |items| then []
    else
      [Spaces(indent) + "  " + FormatJson(c, items[i], indent + 2) + Comma(i, |items|)]
      + ItemLines(c, items, indent, i + 1)
  }

  // ---- the printed layout, line by line ----

  predicate IsScalar(obj: Json) {
    !obj.Obj? && !obj.Arr?
  }

  /** How a scalar reads without colour. */
  function PlainScalar(obj: Json): string
    requires IsScalar(obj)
  {
    match obj
    case Str(s) => Quote(s)
    case Bool(b) => if b then "true" else "false"
    case Null => "null"
    case Int(i) => IntToString(i)
  }

  /** A block of lines with `pre` put before its first line and `post` after its last. */
  function Decorate(ls: seq<string>, pre: string, post: string): (r: seq<string>)
    requires |ls| >= 1
    ensures |r| == |ls|
    ensures r[0] == pre + ls[0] + (if |ls| == 1 then post else "")
    ensures |ls| > 1 ==> r[|r| - 1] == ls[|ls| - 1] + post
    ensures forall k :: 0 < k < |ls| - 1 ==> r[k] == ls[k]
  {
    if |ls| == 1 then [pre + ls[0] + post]
    else [pre + ls[0]] + ls[1..|ls| - 1] + [ls[|ls| - 1] + post]
  }

  /**
   * The layout of `format_json` without colour, as a list of lines: a
   * scalar is one line; a container opens on its own line, gives each
   * entry the lines of its value, the first of them indented two more and
   * led by the key, the last of them followed by a comma unless it is the
   * last entry, and closes on a line indented like the container.  An
   * empty container keeps one blank line between its brackets.
   */
  function Lines(obj: Json, indent: nat): (r: seq<string>)
    ensures |r| >= 1
    ensures obj.Obj? ==> |r| >= 3 && r[0] == "{" && r[|r| - 1] == Spaces(indent) + "}"
    ensures obj.Arr? ==> |r| >= 3 && r[0] == "[" && r[|r| - 1] == Spaces(indent) + "]"
    ensures IsScalar(obj) ==> r == [PlainScalar(obj)]
    decreases obj, 0
  {
    match obj
    case Obj(fields) =>
      ["{"] + (if fields == [] then [""] else FieldBlock(fields, indent, 0)) + [Spaces(indent) + "}"]
    case Arr(items) =>
      ["["] + (if items == [] then [""] else ItemBlock(items, indent, 0)) + [Spaces(indent) + "]"]
    case _ => [PlainScalar(obj)]
  }

  function FieldBlock(fields: seq<Field>, indent: nat, i: nat): (r: seq<string>)
    requires i <= |fields|
    ensures |r| >= |fields| - i
    decreases fields, |fields| - i
  {
    if i == |fields| then []
    else
      Decorate(Lines(fields[i].val, indent + 2), Spaces(indent + 2) + Quote(fields[i].key) + ": ", Comma(i, |fields|))
      + FieldBlock(fields, indent, i + 1)
  }

  function ItemBlock(items: seq<Json>, indent: nat, i: nat): (r: seq<string>)
    requires i <= |items|
    ensures |r| >= |items| - i
    decreases items, |items| - i
  {
    if i == |items| then []
    else
      Decorate(Lines(items[i], indent + 2), Spaces(indent + 2), Comma(i, |items|))
      + ItemBlock(items, indent, i + 1)
  }

  // ---- joining lines ----

  lemma {:induction false} JoinConcat(a: seq<string>, b: seq<string>, sep: string)
    requires |a| >= 1 && |b| >= 1
    ensures Join(a + b, sep) == Join(a, sep) + sep + Join(b, sep)
  {
    if |a| > 1 {
      assert (a + b)[1..] == a[1..] + b;
      JoinConcat(a[1..], b, sep);
    }
  }

  lemma JoinDecorate(ls: seq<string>, pre: string, post: string, sep: string)
    requires |ls| >= 1
    ensures Join(Decorate(ls, pre, post), sep) == pre + Join(ls, sep) + post
  {
    if |ls| > 1 {
      var mid := ls[1..|ls| - 1];
      var last := ls[|ls| - 1];
      var d := Decorate(ls, pre, post);
      DecorateSplit(ls, pre, post);
      var tail := if mid == [] then [] else Join(mid, sep) + sep;
      TailJoin(mid, last, sep, tail);
      TailJoin(mid, last + post, sep, tail);
      Regroup(pre, ls[0], sep, tail, last, post);
    }
  }

  /** The decorated lines: the first with its prefix, the middle untouched, the last with its suffix. */
  lemma DecorateSplit(ls: seq<string>, pre: string, post: string)
    requires |ls| > 1
    ensures var d := Decorate(ls, pre, post);
            d[0] == pre + ls[0] && d[1..] == ls[1..|ls| - 1] + [ls[|ls| - 1] + post] &&
            ls[1..] == ls[1..|ls| - 1] + [ls[|ls| - 1]]
  {
  }

  lemma Regroup(pre: string, first: string, sep: string, tail: string, last: string, post: string)
    ensures (pre + first) + sep + (tail + (last + post)) == pre + (first + sep + (tail + last)) + post
  {
  }

  /** Joining `mid + [last]` puts `last` after the joined `mid` and a separator, if `mid` has anything. */
  lemma TailJoin(mid: seq<string>, last: string, sep: string, tail: string)
    requires tail == if mid == [] then [] else Join(mid, sep) + sep
    ensures Join(mid + [last], sep) == tail + last
  {
    if mid == [] {
      assert mid + [last] == [last];
    } else {
      JoinAppend(mid, last, sep);
    }
  }

  lemma SpacesAdd(indent: nat)
    ensures Spaces(indent) + "  " == Spaces(indent + 2)
  {
  }

  /** Without colour, `format_json` prints exactly the lines of `Lines`, joined by newlines. */
  lemma {:induction false} FormatJsonLines(c: Console, obj: Json, indent: nat)
    requires !ShouldColor(c)
    ensures FormatJson(c, obj, indent) == Join(Lines(obj, indent), "\n")
    decreases obj, 0
  {
    match obj
    case Obj(fields) => ObjectLines(c, fields, indent);
    case Arr(items) => ArrayLines(c, items, indent);
    case _ =>
  }

  lemma {:induction false} ObjectLines(c: Console, fields: seq<Field>, indent: nat)
    requires !ShouldColor(c)
    ensures FormatJson(c, Obj(fields), indent) == Join(Lines(Obj(fields), indent), "\n")
    decreases fields, |fields| + 1
  {
    var close := Spaces(indent) + "}";
    assert "{" + "\n" == "{\n";
    var text := Join(FieldLines(c, fields, indent, 0), "\n");
    assert FormatJson(c, Obj(fields), indent) == "{\n" + text + "\n" + close;
    if fields == [] {
      assert Lines(Obj(fields), indent) == ["{", "", close];
      WrapEmpty("{", close, "\n");
    } else {
      var block := FieldBlock(fields, indent, 0);
      assert Lines(Obj(fields), indent) == ["{"] + block + [close];
      assert text == Join(block, "\n") by {
        FieldLinesJoin(c, fields, indent, 0);
      }
      WrapBlock("{", block, close, "\n");
    }
  }


  lemma {:induction false} ArrayLines(c: Console, items: seq<Json>, indent: nat)
    requires !ShouldColor(c)
    ensures FormatJson(c, Arr(items), indent) == Join(Lines(Arr(items), indent), "\n")
    decreases items, |items| + 1
  {
    var close := Spaces(indent) + "]";
    assert "[" + "\n" == "[\n";
    var text := Join(ItemLines(c, items, indent, 0), "\n");
    assert FormatJson(c, Arr(items), indent) == "[\n" + text + "\n" + close;
    if items == [] {
      assert Lines(Arr(items), indent) == ["[", "", close];
      WrapEmpty("[", close, "\n");
    } else {
      var block := ItemBlock(items, indent, 0);
      assert Lines(Arr(items), indent) == ["["] + block + [close];
      assert text == Join(block, "\n") by {
        ItemLinesJoin(c, items, indent, 0);
      }
      WrapBlock("[", block, close, "\n");
    }
  }


  lemma JoinCons(x: string, rest: seq<string>, sep: string)
    requires |rest| >= 1
    ensures Join([x] + rest, sep) == x + sep + Join(rest, sep)
  {
    assert ([x] + rest)[1..] == rest;
  }

  lemma WrapEmpty(open: string, close: string, sep: string)
    ensures Join([open, "", close], sep) == open + sep + Join([], sep) + sep + close
  {
    JoinCons(open, ["", close], sep);
    JoinCons("", [close], sep);
    assert [open] + ["", close] == [open, "", close];
    assert [""] + [close] == ["", close];
  }

  lemma WrapBlock(open: string, block: seq<string>, close: string, sep: string)
    requires |block| >= 1
    ensures Join([open] + block + [close], sep) == open + sep + Join(block, sep) + sep + close
  {
    assert [open] + block + [close] == [open] + (block + [close]);
    JoinCons(open, block + [close], sep);
    JoinAppend(block, close, sep);
  }

  lemma {:induction false} FieldLinesJoin(c: Console, fields: seq<Field>, indent: nat, i: nat)
    requires !ShouldColor(c) && i < |fields|
    ensures Join(FieldLines(c, fields, indent, i), "\n") == Join(FieldBlock(fields, indent, i), "\n")
    decreases fields, |fields| - i
  {
    var v := fields[i].val;
    assert v < fields[i];
    var pre := Spaces(indent + 2) + Quote(fields[i].key) + ": ";
    var comma := Comma(i, |fields|);
    FormatJsonLines(c, v, indent + 2);
    SpacesAdd(indent);
    JoinDecorate(Lines(v, indent + 2), pre, comma, "\n");
    var head := Decorate(Lines(v, indent + 2), pre, comma);
    assert FieldLines(c, fields, indent, i)[0] == Join(head, "\n");
    if i + 1 < |fields| {
      FieldLinesJoin(c, fields, indent, i + 1);
      JoinConcat(head, FieldBlock(fields, indent, i + 1), "\n");
      assert FieldLines(c, fields, indent, i)[1..] == FieldLines(c, fields, indent, i + 1);
    } else {
      var fl := FieldLines(c, fields, indent, i);
      assert fl == [Join(head, "\n")];
      assert Join(fl, "\n") == Join(head, "\n");
      assert FieldBlock(fields, indent, i) == head + [] == head;
    }
  }

  lemma {:induction false} ItemLinesJoin(c: Console, items: seq<Json>, indent: nat, i: nat)
    requires !ShouldColor(c) && i < |items|
    ensures Join(ItemLines(c, items, indent, i), "\n") == Join(ItemBlock(items, indent, i), "\n")
    decreases items, |items| - i
  {
    var v := items[i];
    var pre := Spaces(indent + 2);
    var comma := Comma(i, |items|);
    FormatJsonLines(c, v, indent + 2);
    SpacesAdd(indent);
    JoinDecorate(Lines(v, indent + 2), pre, comma, "\n");
    var head := Decorate(Lines(v, indent + 2), pre, comma);
    assert ItemLines(c, items, indent, i)[0] == Join(head, "\n");
    if i + 1 < |items| {
      ItemLinesJoin(c, items, indent, i + 1);
      JoinConcat(head, ItemBlock(items, indent, i + 1), "\n");
      assert ItemLines(c, items, indent, i)[1..] == ItemLines(c, items, indent, i + 1);
    } else {
      var il := ItemLines(c, items, indent, i);
      assert il == [Join(head, "\n")];
      assert Join(il, "\n") == Join(head, "\n");
      assert ItemBlock(items, indent, i) == head + [] == head;
    }
  }

  // ---- what the layout guarantees ----

  /** Without colour a scalar prints as its plain text, whatever the indent. */
  lemma PlainScalars(c: Console, obj: Json, indent: nat)
    requires !ShouldColor(c) && IsScalar(obj)
    ensures FormatJson(c, obj, indent) == PlainScalar(obj)
  {
  }

  /**
   * Different scalars never print alike: strings are the only quoted
   * texts, and a boolean is printed as a word, never as a number.
   */
  lemma PlainScalarInjective(a: Json, b: Json)
    requires IsScalar(a) && IsScalar(b)
    requires PlainScalar(a) == PlainScalar(b)
    ensures a == b
  {
    var t := PlainScalar(a);
    if a.Str? || b.Str? {
      assert a.Str? && b.Str? by {
        assert t[0] == '"' <==> a.Str?;
        assert t[0] == '"' <==> b.Str?;
      }
      assert a.s == t[1..|t| - 1] == b.s;
    } else if a.Int? && b.Int? {
      IntToStringInjective(a.i, b.i);
    } else {
      assert a.Int? <==> IsDigit(t[0]) || t[0] == '-';
      assert b.Int? <==> IsDigit(t[0]) || t[0] == '-';
      assert !a.Int? && !b.Int?;
      assert a.Null? <==> t[0] == 'n';
      assert b.Null? <==> t[0] == 'n';
      assert a.Bool? && b.Bool? ==> (a.b <==> t[0] == 't') && (b.b <==> t[0] == 't');
    }
  }

  /** No string in the value, key or item, holds a line break. */
  predicate NoNewlines(obj: Json)
    decreases obj
  {
    match obj
    case Str(s) => '\n' !in s
    case Arr(items) => forall k :: 0 <= k < |items| ==> NoNewlines(items[k])
    case Obj(fields) => forall k :: 0 <= k < |fields| ==> '\n' !in fields[k].key && NoNewlines(fields[k].val)
    case _ => true
  }

  predicate LinesFree(ls: seq<string>) {
    forall k :: 0 <= k < |ls| ==> '\n' !in ls[k]
  }

  lemma DecorateFree(ls: seq<string>, pre: string, post: string)
    requires |ls| >= 1 && LinesFree(ls) && '\n' !in pre && '\n' !in post
    ensures LinesFree(Decorate(ls, pre, post))
  {
    var d := Decorate(ls, pre, post);
    forall k | 0 <= k < |d|
      ensures '\n' !in d[k]
    {
      if k == 0 {
        assert d[0] == pre + ls[0] + (if |ls| == 1 then post else "");
      } else if k == |d| - 1 {
        assert d[k] == ls[k] + post;
      }
    }
  }

  lemma FreeConcat(a: seq<string>, b: seq<string>)
    requires LinesFree(a) && LinesFree(b)
    ensures LinesFree(a + b)
  {
    forall k | 0 <= k < |a + b|
      ensures '\n' !in (a + b)[k]
    {
      if k >= |a| {
        assert (a + b)[k] == b[k - |a|];
      }
    }
  }

  lemma {:induction false} LinesNoNewlines(obj: Json, indent: nat)
    requires NoNewlines(obj)
    ensures LinesFree(Lines(obj, indent))
    decreases obj, 0
  {
    match obj
    case Obj(fields) =>
      if fields != [] {
        FieldBlockFree(fields, indent, 0);
        FreeConcat(["{"] + FieldBlock(fields, indent, 0), [Spaces(indent) + "}"]);
        FreeConcat(["{"], FieldBlock(fields, indent, 0));
      }
    case Arr(items) =>
      if items != [] {
        ItemBlockFree(items, indent, 0);
        FreeConcat(["["] + ItemBlock(items, indent, 0), [Spaces(indent) + "]"]);
        FreeConcat(["["], ItemBlock(items, indent, 0));
      }
    case _ =>
  }

  lemma {:induction false} FieldBlockFree(fields: seq<Field>, indent: nat, i: nat)
    requires i <= |fields|
    requires forall k :: 0 <= k < |fields| ==> '\n' !in fields[k].key && NoNewlines(fields[k].val)
    ensures LinesFree(FieldBlock(fields, indent, i))
    decreases fields, |fields| - i
  {
    if i < |fields| {
      assert fields[i].val < fields[i];
      LinesNoNewlines(fields[i].val, indent + 2);
      var pre := Spaces(indent + 2) + Quote(fields[i].key) + ": ";
      assert '\n' !in pre;
      DecorateFree(Lines(fields[i].val, indent + 2), pre, Comma(i, |fields|));
      FieldBlockFree(fields, indent, i + 1);
      FreeConcat(Decorate(Lines(fields[i].val, indent + 2), pre, Comma(i, |fields|)), FieldBlock(fields, indent, i + 1));
    }
  }

  lemma {:induction false} ItemBlockFree(items: seq<Json>, indent: nat, i: nat)
    requires i <= |items|
    requires forall k :: 0 <= k < |items| ==> NoNewlines(items[k])
    ensures LinesFree(ItemBlock(items, indent, i))
    decreases items, |items| - i
  {
    if i < |items| {
      LinesNoNewlines(items[i], indent + 2);
      DecorateFree(Lines(items[i], indent + 2), Spaces(indent + 2), Comma(i, |items|));
      ItemBlockFree(items, indent, i + 1);
      FreeConcat(Decorate(Lines(items[i], indent + 2), Spaces(indent + 2), Comma(i, |items|)), ItemBlock(items, indent, i + 1));
    }
  }

  /** When no string holds a line break, the printed lines are exactly `Lines`. */
  lemma SplitFormatJson(c: Console, obj: Json, indent: nat)
    requires !ShouldColor(c) && NoNewlines(obj)
    ensures Split(FormatJson(c, obj, indent), '\n') == Lines(obj, indent)
  {
    FormatJsonLines(c, obj, indent);
    LinesNoNewlines(obj, indent);
    SplitJoin(Lines(obj, indent), '\n');
  }

  /** Every line after the first is blank or indented by at least `indent`. */
  predicate Indented(ls: seq<string>, indent: nat) {
    forall k :: 1 <= k < |ls| ==> ls[k] == "" || StartsWith(ls[k], Spaces(indent))
  }

  /** Every line of a block is blank or indented by at least `indent`. */
  predicate BlockIndented(ls: seq<string>, indent: nat) {
    forall k :: 0 <= k < |ls| ==> ls[k] == "" || StartsWith(ls[k], Spaces(indent))
  }

  lemma StartsWithAppend(a: string, b: string, p: string)
    requires StartsWith(a, p)
    ensures StartsWith(a + b, p)
  {
    assert (a + b)[..|p|] == a[..|p|];
  }

  lemma StartsWithFewer(s: string, n: nat, m: nat)
    requires m <= n && StartsWith(s, Spaces(n))
    ensures StartsWith(s, Spaces(m))
  {
    assert s[..m] == s[..n][..m];
  }

  /** An entry's lines: the value's lines, indented two more, stay indented two more. */
  lemma DecorateIndented(obj: Json, indent: nat, pre: string, post: string)
    requires StartsWith(pre, Spaces(indent + 2))
    requires Indented(Lines(obj, indent + 2), indent + 2)
    ensures BlockIndented(Decorate(Lines(obj, indent + 2), pre, post), indent + 2)
  {
    var ls := Lines(obj, indent + 2);
    var d := Decorate(ls, pre, post);
    forall k | 0 <= k < |d|
      ensures d[k] == "" || StartsWith(d[k], Spaces(indent + 2))
    {
      if k == 0 {
        StartsWithAppend(pre, ls[0] + (if |ls| == 1 then post else ""), Spaces(indent + 2));
        assert d[0] == pre + (ls[0] + (if |ls| == 1 then post else ""));
      } else if k == |d| - 1 {
        assert !IsScalar(obj);
        assert ls[k] == Spaces(indent + 2) + (if obj.Obj? then "}" else "]");
        StartsWithAppend(Spaces(indent + 2), if obj.Obj? then "}" else "]", Spaces(indent + 2));
        StartsWithAppend(ls[k], post, Spaces(indent + 2));
      }
    }
  }

  lemma BlockConcat(a: seq<string>, b: seq<string>, indent: nat)
    requires BlockIndented(a, indent) && BlockIndented(b, indent)
    ensures BlockIndented(a + b, indent)
  {
    forall k | 0 <= k < |a + b|
      ensures (a + b)[k] == "" || StartsWith((a + b)[k], Spaces(indent))
    {
      if k >= |a| {
        assert (a + b)[k] == b[k - |a|];
      }
    }
  }

  /** Opening line, a block indented two more, closing line indented by `indent`. */
  lemma WrapIndented(open: string, block: seq<string>, close: string, indent: nat)
    requires BlockIndented(block, indent + 2) && StartsWith(close, Spaces(indent))
    ensures Indented([open] + block + [close], indent)
  {
    var ls := [open] + block + [close];
    forall k | 1 <= k < |ls|
      ensures ls[k] == "" || StartsWith(ls[k], Spaces(indent))
    {
      if k <= |block| {
        assert ls[k] == block[k - 1];
        if ls[k] != "" {
          StartsWithFewer(ls[k], indent + 2, indent);
        }
      }
    }
  }

  lemma {:induction false} LinesIndented(obj: Json, indent: nat)
    ensures Indented(Lines(obj, indent), indent)
    decreases obj, 0
  {
    match obj
    case Obj(fields) =>
      var close := Spaces(indent) + "}";
      StartsWithAppend(Spaces(indent), "}", Spaces(indent));
      if fields == [] {
        WrapIndented("{", [""], close, indent);
      } else {
        FieldBlockIndented(fields, indent, 0);
        WrapIndented("{", FieldBlock(fields, indent, 0), close, indent);
      }
    case Arr(items) =>
      var close := Spaces(indent) + "]";
      StartsWithAppend(Spaces(indent), "]", Spaces(indent));
      if items == [] {
        WrapIndented("[", [""], close, indent);
      } else {
        ItemBlockIndented(items, indent, 0);
        WrapIndented("[", ItemBlock(items, indent, 0), close, indent);
      }
    case _ =>
  }

  lemma {:induction false} FieldBlockIndented(fields: seq<Field>, indent: nat, i: nat)
    requires i <= |fields|
    ensures BlockIndented(FieldBlock(fields, indent, i), indent + 2)
    decreases fields, |fields| - i
  {
    if i < |fields| {
      var v := fields[i].val;
      assert v < fields[i];
      var pre := Spaces(indent + 2) + Quote(fields[i].key) + ": ";
      LinesIndented(v, indent + 2);
      StartsWithAppend(Spaces(indent + 2), Quote(fields[i].key) + ": ", Spaces(indent + 2));
      assert pre == Spaces(indent + 2) + (Quote(fields[i].key) + ": ");
      DecorateIndented(v, indent, pre, Comma(i, |fields|));
      FieldBlockIndented(fields, indent, i + 1);
      BlockConcat(Decorate(Lines(v, indent + 2), pre, Comma(i, |fields|)), FieldBlock(fields, indent, i + 1), indent + 2);
    }
  }

  lemma {:induction false} ItemBlockIndented(items: seq<Json>, indent: nat, i: nat)
    requires i <= |items|
    ensures BlockIndented(ItemBlock(items, indent, i), indent + 2)
    decreases items, |items| - i
  {
    if i < |items| {
      var v := items[i];
      LinesIndented(v, indent + 2);
      assert StartsWith(Spaces(indent + 2), Spaces(indent + 2));
      DecorateIndented(v, indent, Spaces(indent + 2), Comma(i, |items|));
      ItemBlockIndented(items, indent, i + 1);
      BlockConcat(Decorate(Lines(v, indent + 2), Spaces(indent + 2), Comma(i, |items|)), ItemBlock(items, indent, i + 1), indent + 2);
    }
  }

  /**
   * The printed text, line by line: nothing after the first line comes out
   * less indented than the value itself, and a dict opens with `{` and
   * closes on a line of its own indentation.
   */
  lemma FormatJsonIndented(c: Console, obj: Json, indent: nat)
    requires !ShouldColor(c) && NoNewlines(obj)
    ensures var ls := Split(FormatJson(c, obj, indent), '\n');
            Indented(ls, indent) &&
            (obj.Obj? ==> ls[0] == "{" && ls[|ls| - 1] == Spaces(indent) + "}") &&
            (obj.Arr? ==> ls[0] == "[" && ls[|ls| - 1] == Spaces(indent) + "]")
  {
    SplitFormatJson(c, obj, indent);
    LinesIndented(obj, indent);
  }

  /** Every value is a scalar, so every entry takes one line. */
  predicate FlatFields(fields: seq<Field>) {
    forall k :: 0 <= k < |fields| ==> IsScalar(fields[k].val)
  }

  /** The line entry `k` of a flat dict prints as. */
  function EntryLine(fields: seq<Field>, indent: nat, k: nat): string
    requires k < |fields| && IsScalar(fields[k].val)
  {
    Spaces(indent + 2) + Quote(fields[k].key) + ": " + PlainScalar(fields[k].val) + Comma(k, |fields|)
  }

  lemma {:induction false} FlatFieldBlock(fields: seq<Field>, indent: nat, i: nat)
    requires i <= |fields| && FlatFields(fields)
    ensures |FieldBlock(fields, indent, i)| == |fields| - i
    ensures forall k :: i <= k < |fields| ==> FieldBlock(fields, indent, i)[k - i] == EntryLine(fields, indent, k)
    decreases |fields| - i
  {
    if i < |fields| {
      FlatFieldBlock(fields, indent, i + 1);
      var rest := FieldBlock(fields, indent, i + 1);
      var b := FieldBlock(fields, indent, i);
      assert b == [EntryLine(fields, indent, i)] + rest;
      forall k | i < k < |fields|
        ensures b[k - i] == EntryLine(fields, indent, k)
      {
        assert b[k - i] == rest[k - (i + 1)];
      }
    }
  }

  /**
   * A dict of scalars prints one `"key": value` line per entry, in order,
   * indented `indent + 2`, each but the last followed by a comma, between
   * an opening `{` and a closing `}` indented by `indent`.
   */
  lemma FlatObjectLines(c: Console, fields: seq<Field>, indent: nat)
    requires !ShouldColor(c) && NoNewlines(Obj(fields))
    requires fields != [] && FlatFields(fields)
    ensures var ls := Split(FormatJson(c, Obj(fields), indent), '\n');
            |ls| == |fields| + 2 && ls[0] == "{" && ls[|ls| - 1] == Spaces(indent) + "}" &&
            forall k :: 0 <= k < |fields| ==> ls[k + 1] == EntryLine(fields, indent, k)
  {
    SplitFormatJson(c, Obj(fields), indent);
    FlatFieldBlock(fields, indent, 0);
    var ls := Lines(Obj(fields), indent);
    assert ls == ["{"] + FieldBlock(fields, indent, 0) + [Spaces(indent) + "}"];
    forall k | 0 <= k < |fields|
      ensures ls[k + 1] == EntryLine(fields, indent, k)
    {
      assert ls[k + 1] == FieldBlock(fields, indent, 0)[k];
    }
  }

  predicate FlatItems(items: seq<Json>) {
    forall k :: 0 <= k < |items| ==> IsScalar(items[k])
  }

  /** The line item `k` of a flat list prints as. */
  function ItemLine(items: seq<Json>, indent: nat, k: nat): string
    requires k < |items| && IsScalar(items[k])
  {
    Spaces(indent + 2) + PlainScalar(items[k]) + Comma(k, |items|)
  }

  lemma {:induction false} FlatItemBlock(items: seq<Json>, indent: nat, i: nat)
    requires i <= |items| && FlatItems(items)
    ensures |ItemBlock(items, indent, i)| == |items| - i
    ensures forall k :: i <= k < |items| ==> ItemBlock(items, indent, i)[k - i] == ItemLine(items, indent, k)
    decreases |items| - i
  {
    if i < |items| {
      FlatItemBlock(items, indent, i + 1);
      var rest := ItemBlock(items, indent, i + 1);
      var b := ItemBlock(items, indent, i);
      assert b == [ItemLine(items, indent, i)] + rest;
      forall k | i < k < |items|
        ensures b[k - i] == ItemLine(items, indent, k)
      {
        assert b[k - i] == rest[k - (i + 1)];
      }
    }
  }

  /** A list of scalars prints one item per line in the same layout. */
  lemma FlatArrayLines(c: Console, items: seq<Json>, indent: nat)
    requires !ShouldColor(c) && NoNewlines(Arr(items))
    requires items != [] && FlatItems(items)
    ensures var ls := Split(FormatJson(c, Arr(items), indent), '\n');
            |ls| == |items| + 2 && ls[0] == "[" && ls[|ls| - 1] == Spaces(indent) + "]" &&
            forall k :: 0 <= k < |items| ==> ls[k + 1] == ItemLine(items, indent, k)
  {
    SplitFormatJson(c, Arr(items), indent);
    FlatItemBlock(items, indent, 0);
    var ls := Lines(Arr(items), indent);
    assert ls == ["["] + ItemBlock(items, indent, 0) + [Spaces(indent) + "]"];
    forall k | 0 <= k < |items|
      ensures ls[k + 1] == ItemLine(items, indent, k)
    {
      assert ls[k + 1] == ItemBlock(items, indent, 0)[k];
    }
  }

  /** An empty dict or list keeps a blank line between its brackets. */
  lemma EmptyContainers(c: Console, indent: nat)
    requires !ShouldColor(c)
    ensures FormatJson(c, Obj([]), indent) == "{\n\n" + Spaces(indent) + "}"
    ensures FormatJson(c, Arr([]), indent) == "[\n\n" + Spaces(indent) + "]"
  {
  }
}
