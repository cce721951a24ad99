/** That reading what a tree prints makes of it just what `AsRead` and `Refuses` say. */
module ValuesReading {
  import opened Options
  import opened ImageTags
  import opened ValuesTree

  // ---- Standing at a level ------------------------------------------------------------------

  lemma {:induction false} ReadOn(st: State, a: seq<Line>, b: seq<Line>)
    ensures Read(st, a + b) == match Read(st, a) case Refused => Refused case Running(next) => Read(next, b)
    decreases |a|
  {
    if a == [] {
      assert a + b == b;
    } else {
      assert (a + b)[0] == a[0] && (a + b)[1..] == a[1..] + b;
      var next := Step(st, a[0]);
      if next.Running? {
        ReadOn(next.state, a[1..], b);
      }
    }
  }

  lemma {:induction false} PopTwice(path: Path, inner: nat, outer: nat)
    requires outer <= inner
    ensures PopTo(PopTo(path, inner), outer) == PopTo(path, outer)
  {
    if path != [] && path[|path| - 1].0 >= inner {
      PopTwice(path[..|path| - 1], inner, outer);
    }
  }

  /** The reader stands where a line at `indent` belongs under `base`. */
  predicate AtLevel(path: Path, scalar: Option<nat>, indent: nat, base: Path) {
    PopTo(path, indent) == base && (scalar.None? || scalar.value >= indent)
  }

  predicate Below(base: Path, indent: nat) {
    PopTo(base, indent) == base
  }

  lemma {:induction false} ReadNoise(st: State, noise: seq<Line>, indent: nat, base: Path)
    requires IsNoise(noise) && AtLevel(st.path, st.scalar, indent, base)
    ensures Read(st, noise).Running?
    ensures var next := Read(st, noise).state;
      AtLevel(next.path, next.scalar, indent, base) && next.mappings == st.mappings
    decreases |noise|
  {
    if noise != [] {
      assert noise[0] in noise;
      ReadNoise(Step(st, noise[0]).state, noise[1..], indent, base);
    }
  }

  lemma {:induction false} ReadScalar(st: State, lines: seq<Line>, indent: nat)
    requires st.scalar == Some(indent) && IndentedBelow(lines, indent)
    ensures Read(st, lines) == Running(st)
    decreases |lines|
  {
    if lines != [] {
      assert lines[0] in lines;
      ReadScalar(st, lines[1..], indent);
    }
  }

  lemma ReadOne(st: State, line: Line, lines: seq<Line>)
    ensures Read(st, [line] + lines) ==
      match Step(st, line) case Refused => Refused case Running(next) => Read(next, lines)
  {
    assert ([line] + lines)[1..] == lines;
  }

  lemma Deeper(path: Path, scalar: Option<nat>, inner: nat, outer: nat, base: Path)
    requires AtLevel(path, scalar, inner, base) && outer <= inner
    ensures AtLevel(path, scalar, outer, PopTo(base, outer))
  {
    PopTwice(path, inner, outer);
  }

  lemma PopBase(base: Path, indent: nat, key: string)
    requires Below(base, indent)
    ensures PopTo(base + [(indent, key)], indent) == base
    ensures forall inner: nat :: indent < inner ==> PopTo(base + [(indent, key)], inner) == base + [(indent, key)]
  {
    assert (base + [(indent, key)])[..|base|] == base;
  }

  lemma StillBelow(base: Path, indent: nat, level: nat)
    requires Below(base, indent) && indent <= level
    ensures Below(base, level)
  {
  }

  lemma NamesOfMore(base: Path, more: (nat, string))
    ensures NamesOf(base + [more]) == NamesOf(base) + [more.1]
    ensures LIST in NamesOf(base + [more]) <==> LIST in NamesOf(base) || more.1 == LIST
  {
  }

  // ---- What is added -------------------------------------------------------------------------

  predicate Prefixes(keys: Keys, k: Keys) {
    |keys| <= |k| && k[..|keys|] == keys
  }

  /** What was read under `keys` added exactly the fields of `es`, and no tag inside a
      list. */
  ghost predicate Adds(before: Mappings, after: Mappings, keys: Keys, es: Entries) {
    && (forall k: Keys :: LIST !in k ==> Lookup(after, k) == Lookup(before, k) + Under(es, keys, k))
    && (Untagged(before) ==> Untagged(after))
  }

  function Under(es: Entries, keys: Keys, k: Keys): Fields {
    if Prefixes(keys, k) then FieldsAt(es, k[|keys|..]) else map[]
  }

  ghost predicate Untagged(mappings: Mappings) {
    forall k: Keys :: LIST in k ==> TAG !in Lookup(mappings, k)
  }

  lemma OneMore(x: Fields, y: Fields, z: Fields)
    ensures (x + y) + z == x + (y + z)
  {
  }

  lemma {:induction false} FieldsAppend(a: Entries, b: Entries, path: Keys)
    ensures FieldsAt(Append(a, b), path) == FieldsAt(a, path) + FieldsAt(b, path)
  {
    if a.End? {
      assert FieldsAt(End, path) == map[];
    } else {
      FieldsAppend(a.rest, b, path);
      var one: Fields :=
        if path == [] then (if a.node.Plain? then map[a.key := a.node.text] else map[])
        else if a.node.Mapping? && a.key == path[0] then FieldsAt(a.node.entries, path[1..]) else map[];
      assert FieldsAt(a, path) == one + FieldsAt(a.rest, path);
      assert FieldsAt(Append(a, b), path) == one + FieldsAt(Append(a.rest, b), path);
      hide FieldsAt, Texts, Append;
      OneMore(one, FieldsAt(a.rest, path), FieldsAt(b, path));
    }
  }

  lemma {:induction false} AppendEnd(a: Entries)
    ensures Append(a, End) == a
  {
    if a.Entry? {
      AppendEnd(a.rest);
    }
  }

  lemma AddsBoth(a: Mappings, b: Mappings, c: Mappings, keys: Keys, x: Entries, y: Entries)
    requires Adds(a, b, keys, x) && Adds(b, c, keys, y)
    ensures Adds(a, c, keys, Append(x, y))
  {
    hide Lookup, Under;
    forall k: Keys | LIST !in k
      ensures Lookup(c, k) == Lookup(a, k) + Under(Append(x, y), keys, k)
    {
      UnderAppend(x, y, keys, k);
      OneMore(Lookup(a, k), Under(x, keys, k), Under(y, keys, k));
    }
  }

  lemma UnderAppend(x: Entries, y: Entries, keys: Keys, k: Keys)
    ensures Under(Append(x, y), keys, k) == Under(x, keys, k) + Under(y, keys, k)
  {
    FieldsAppend(x, y, if Prefixes(keys, k) then k[|keys|..] else []);
  }

  lemma FieldsOfOne(key: string, node: Node, path: Keys)
    ensures var es := Entry([], key, node, End);
      && (path == [] ==> FieldsAt(es, path) == if node.Plain? then map[key := node.text] else map[])
      && (path != [] && node.Mapping? && key == path[0] ==> FieldsAt(es, path) == FieldsAt(node.entries, path[1..]))
      && (path != [] && !(node.Mapping? && key == path[0]) ==> FieldsAt(es, path) == map[])
  {
    assert Texts(End) == map[] && FieldsAt(End, path) == map[];
  }

  lemma AddsText(mappings: Mappings, keys: Keys, key: string, text: string)
    requires !(LIST in keys && key == TAG)
    ensures Adds(mappings, Set(mappings, keys, key, text), keys, Entry([], key, Plain(text), End))
  {
    var after, es := Set(mappings, keys, key, text), Entry([], key, Plain(text), End);
    forall k: Keys | LIST !in k
      ensures Lookup(after, k) == Lookup(mappings, k) + Under(es, keys, k)
    {
      FieldsOfOne(key, Plain(text), if Prefixes(keys, k) then k[|keys|..] else []);
      if k == keys {
        assert Under(es, keys, k) == map[key := text];
      } else {
        assert Prefixes(keys, k) ==> k[|keys|..] != [];
        assert Under(es, keys, k) == map[];
      }
    }
  }

  lemma AddsScalar(mappings: Mappings, keys: Keys, key: string, node: Node)
    requires node.Scalar?
    ensures Adds(mappings, mappings, keys, Entry([], key, node, End))
  {
    forall k: Keys
      ensures Under(Entry([], key, node, End), keys, k) == map[]
    {
      FieldsOfOne(key, node, if Prefixes(keys, k) then k[|keys|..] else []);
    }
    hide Under, Lookup;
  }

  lemma AddsNested(before: Mappings, after: Mappings, keys: Keys, key: string, sub: Entries)
    requires Adds(before, after, keys + [key], sub)
    ensures Adds(before, after, keys, Entry([], key, Mapping(0, sub), End))
  {
    forall k: Keys | LIST !in k
      ensures Under(Entry([], key, Mapping(0, sub), End), keys, k) == Under(sub, keys + [key], k)
    {
      FieldsOfOne(key, Mapping(0, sub), if Prefixes(keys, k) then k[|keys|..] else []);
      PrefixMore(keys, key, k);
    }
  }

  lemma PrefixMore(keys: Keys, key: string, k: Keys)
    ensures Prefixes(keys + [key], k) <==> Prefixes(keys, k) && |k| > |keys| && k[|keys|] == key
    ensures Prefixes(keys + [key], k) ==> k[|keys|..][1..] == k[|keys + [key]|..]
  {
    if |k| > |keys| {
      assert k[..|keys| + 1] == k[..|keys|] + [k[|keys|]];
      assert k[|keys|..][1..] == k[|keys| + 1..];
    }
  }

  lemma InListAddsNothing(before: Mappings, after: Mappings, keys: Keys, es: Entries, other: Keys)
    requires Adds(before, after, keys, es) && LIST in keys
    ensures Adds(before, after, other, End)
  {
    forall k: Keys | LIST !in k
      ensures Under(es, keys, k) == map[]
    {
      PrefixHasList(keys, k);
    }
  }

  lemma PrefixHasList(keys: Keys, k: Keys)
    ensures LIST in keys && LIST !in k ==> !Prefixes(keys, k)
  {
    if LIST in keys && Prefixes(keys, k) {
      var j :| 0 <= j < |keys| && keys[j] == LIST;
      assert k[..|keys|][j] == k[j];
    }
  }

  lemma AddsNothingTwice(a: Mappings, b: Mappings, c: Mappings, keys: Keys)
    requires Adds(a, b, keys, End) && Adds(b, c, keys, End)
    ensures Adds(a, c, keys, End)
  {
  }

  lemma AddsSame(mappings: Mappings, keys: Keys)
    ensures Adds(mappings, mappings, keys, End)
  {
    forall k: Keys
      ensures Under(End, keys, k) == map[]
    {
      assert Texts(End) == map[];
    }
  }

  lemma ListedTextAdds(mappings: Mappings, inside: Keys, key: string, text: string, keys: Keys)
    requires LIST in inside && key != TAG
    ensures Adds(mappings, Set(mappings, inside, key, text), keys, End)
  {
    AddsSame(mappings, keys);
  }

  /** What reading lines printed at a level comes to: a refusal, or the same level again
      with exactly `es` added under the base's keys. */
  ghost predicate ReadsAs(st: State, lines: seq<Line>, indent: nat, base: Path, refused: bool, es: Entries) {
    var reading := Read(st, lines);
    if refused then reading == Refused
    else
      && reading.Running?
      && AtLevel(reading.state.path, reading.state.scalar, indent, base)
      && Adds(st.mappings, reading.state.mappings, NamesOf(base), es)
  }

  // ---- A text read as lines of a list --------------------------------------------------------

  lemma PopKeepsBase(path: Path, level: nat, indent: nat, base: Path)
    requires PopTo(path, level) == base && level <= indent
    ensures PopTo(PopTo(path, indent), level) == base && base <= PopTo(path, indent)
    ensures LIST in NamesOf(base) ==> LIST in NamesOf(PopTo(path, indent))
  {
    PopTwice(path, indent, level);
    var popped := PopTo(path, indent);
    assert base == popped[..|base|];
    if j :| 0 <= j < |base| && NamesOf(base)[j] == LIST {
      assert NamesOf(popped)[j] == LIST;
    }
  }

  lemma PopPushed(path: Path, level: nat, indent: nat, key: string)
    requires level <= indent
    ensures PopTo(path + [(indent, key)], level) == PopTo(path, level)
  {
    assert (path + [(indent, key)])[..|path|] == path;
  }

  /** One line of such a text moves the reader about below the list, and adds nothing
      outside it. */
  ghost predicate StepsInside(st: State, line: Line, level: nat, base: Path) {
    var next := Step(st, line);
    if !Swallowed(st.scalar, line) && IsTagLine(line) then next == Refused
    else
      && next.Running? && next.state.scalar == ScalarAfter(st.scalar, line)
      && AtLevel(next.state.path, next.state.scalar, level, base)
      && Adds(st.mappings, next.state.mappings, NamesOf(base), End)
  }

  lemma TextStep(st: State, line: Line, level: nat, base: Path)
    requires AtLevel(st.path, st.scalar, level, base) && LIST in NamesOf(base)
    requires line.Blank? || line.indent >= level
    ensures StepsInside(st, line, level, base)
  {
    AddsSame(st.mappings, NamesOf(base));
    if !Swallowed(st.scalar, line) {
      PopKeepsBase(st.path, level, line.indent, base);
      if line.Pair? {
        PairStep(st, line, level, base);
      } else {
        OtherStep(st, line, level, base);
      }
    }
  }

  lemma PairStep(st: State, line: Line, level: nat, base: Path)
    requires line.Pair? && line.indent >= level && !Swallowed(st.scalar, line)
    requires PopTo(PopTo(st.path, line.indent), level) == base && LIST in NamesOf(PopTo(st.path, line.indent))
    ensures StepsInside(st, line, level, base)
  {
    hide Adds, PopTo, NamesOf, Set;
    var popped := PopTo(st.path, line.indent);
    PopPushed(popped, level, line.indent, line.key);
    AddsSame(st.mappings, NamesOf(base));
    if line.value.Text? && line.key != TAG {
      ListedTextAdds(st.mappings, NamesOf(popped), line.key, line.value.text, NamesOf(base));
    }
  }

  lemma OtherStep(st: State, line: Line, level: nat, base: Path)
    requires (line.Item? || line.Unread? || line.Comment?) && line.indent >= level && !Swallowed(st.scalar, line)
    requires PopTo(st.path, level) == base && PopTo(PopTo(st.path, line.indent), level) == base
    ensures StepsInside(st, line, level, base)
  {
    hide Adds, PopTo, NamesOf;
    PopPushed(PopTo(st.path, line.indent), level, line.indent, LIST);
    AddsSame(st.mappings, NamesOf(base));
  }

  lemma {:induction false} ReadText(st: State, lines: seq<Line>, level: nat, base: Path)
    requires AtLevel(st.path, st.scalar, level, base) && LIST in NamesOf(base)
    requires forall l :: l in lines ==> l.Blank? || l.indent >= level
    ensures ReadsAs(st, lines, level, base, ReadsTag(lines, st.scalar), End)
    decreases |lines|
  {
    if lines != [] {
      assert lines[0] in lines;
      TextStep(st, lines[0], level, base);
      var next := Step(st, lines[0]);
      hide Step, AtLevel, Adds, Swallowed, IsTagLine, ScalarAfter;
      if next.Running? {
        ReadText(next.state, lines[1..], level, base);
        var last := Read(next.state, lines[1..]);
        if last.Running? {
          AddsNothingTwice(st.mappings, next.state.mappings, last.state.mappings, NamesOf(base));
        }
      }
    } else {
      ReadNothingAt(st, level, base);
    }
  }

  lemma ReadNothingAt(st: State, level: nat, base: Path)
    requires AtLevel(st.path, st.scalar, level, base)
    ensures ReadsAs(st, [], level, base, false, End)
  {
    hide AtLevel;
  }

  /** What is read under a list adds nothing outside lists, and leads back out of it. */
  lemma InsideList(st: State, lines: seq<Line>, inner: nat, outer: nat, base: Path, refused: bool, es: Entries)
    requires ReadsAs(st, lines, inner, base, refused, es) && LIST in NamesOf(base)
    requires outer <= inner && Below(base, outer)
    ensures ReadsAs(st, lines, outer, base, refused, End)
  {
    hide Read, Adds, NamesOf;
    if !refused {
      var last := Read(st, lines).state;
      Deeper(last.path, last.scalar, inner, outer, base);
      hide AtLevel, Below, PopTo;
      InListAddsNothing(st.mappings, last.mappings, NamesOf(base), es, NamesOf(base));
    }
  }

  lemma ReadsThen(st: State, a: seq<Line>, b: seq<Line>, at: nat, outer: nat, base: Path, first: bool, second: bool)
    requires ReadsAs(st, a, at, base, first, End)
    requires Read(st, a).Running? ==> ReadsAs(Read(st, a).state, b, outer, base, second, End)
    ensures ReadsAs(st, a + b, outer, base, first || second, End)
  {
    ReadOn(st, a, b);
    hide Read, Adds, AtLevel, NamesOf;
    if !first && !second {
      var next := Read(st, a).state;
      AddsNothingTwice(st.mappings, next.mappings, Read(next, b).state.mappings, NamesOf(base));
    }
  }

  // ---- Entries and items ---------------------------------------------------------------------

  lemma {:induction false} ReadEntries(st: State, es: Entries, indent: nat, base: Path)
    requires AtLevel(st.path, st.scalar, indent, base) && Below(base, indent) && Written(es, indent)
    ensures ReadsAs(st, Print(es, indent), indent, base, Refuses(es, LIST in NamesOf(base)), AsRead(es))
    decreases es, 1
  {
    match es
    case End => AddsSame(st.mappings, NamesOf(base));
    case Entry(noise, key, node, rest) =>
      var one := noise + [Pair(indent, key, ValueOf(node))] + PrintNode(node, indent);
      ReadEntry(st, es, indent, base);
      ReadOn(st, one, Print(rest, indent));
      var reading := Read(st, one);
      hide Read, Adds, AtLevel, PrintNode, EntryRefuses, EntryAsRead;
      if reading.Running? {
        ReadEntries(reading.state, rest, indent, base);
        var last := Read(reading.state, Print(rest, indent));
        if last.Running? {
          AddsBoth(st.mappings, reading.state.mappings, last.state.mappings, NamesOf(base),
                   EntryAsRead(key, node), AsRead(rest));
        }
      }
  }

  lemma {:induction false} ReadEntry(st: State, es: Entries, indent: nat, base: Path)
    requires AtLevel(st.path, st.scalar, indent, base) && Below(base, indent) && Written(es, indent) && es.Entry?
    ensures ReadsAs(st, es.noise + [Pair(indent, es.key, ValueOf(es.node))] + PrintNode(es.node, indent), indent, base,
                    EntryRefuses(es.key, es.node, LIST in NamesOf(base)), EntryAsRead(es.key, es.node))
    decreases es, 0
  {
    var line := Pair(indent, es.key, ValueOf(es.node));
    ReadNoise(st, es.noise, indent, base);
    var quiet := Read(st, es.noise).state;
    assert es.noise + [line] + PrintNode(es.node, indent) == es.noise + ([line] + PrintNode(es.node, indent));
    ReadOn(st, es.noise, [line] + PrintNode(es.node, indent));
    hide PrintNode, EntryRefuses, EntryAsRead, Adds;
    if es.node.Plain? || es.node.Scalar? {
      ReadLeaf(quiet, es.key, es.node, indent, base);
    } else {
      ReadBlock(quiet, es.key, es.node, indent, base);
    }
  }

  lemma ReadLeaf(st: State, key: string, node: Node, indent: nat, base: Path)
    requires AtLevel(st.path, st.scalar, indent, base) && Below(base, indent)
    requires (node.Plain? || node.Scalar?) && WrittenNode(node, indent)
    ensures ReadsAs(st, [Pair(indent, key, ValueOf(node))] + PrintNode(node, indent), indent, base,
                    EntryRefuses(key, node, LIST in NamesOf(base)), EntryAsRead(key, node))
  {
    var line := Pair(indent, key, ValueOf(node));
    ReadOne(st, line, PrintNode(node, indent));
    assert !InScalar(st.scalar, line);
    match node
    case Plain(text) =>
      if !(key == TAG && LIST in NamesOf(base)) {
        AddsText(st.mappings, NamesOf(base), key, text);
        hide Adds;
      }
    case Scalar(lines) =>
      ReadScalar(Step(st, line).state, lines, indent);
      AddsScalar(st.mappings, NamesOf(base), key, node);
      hide Adds;
  }

  lemma {:induction false} ReadBlock(st: State, key: string, node: Node, indent: nat, base: Path)
    requires AtLevel(st.path, st.scalar, indent, base) && Below(base, indent)
    requires key != LIST && WrittenNode(node, indent) && (node.Mapping? || node.List?)
    ensures ReadsAs(st, [Pair(indent, key, Nothing)] + PrintNode(node, indent), indent, base,
                    EntryRefuses(key, node, LIST in NamesOf(base)), EntryAsRead(key, node))
    decreases node, 1
  {
    var line := Pair(indent, key, Nothing);
    ReadOne(st, line, PrintNode(node, indent));
    assert !InScalar(st.scalar, line);
    var next := State(base + [(indent, key)], None, st.mappings);
    assert Step(st, line) == Running(next);
    hide Step, AtLevel, Adds, PrintItems, Print, Written, WrittenItems, Read, AsRead, Flat, Refuses, ItemsRefuse;
    if node.Mapping? {
      ReadNested(next, node.entries, indent, indent + 1 + node.more, base, key);
    } else {
      ReadList(next, key, node, indent, base);
    }
  }

  lemma {:induction false} ReadNested(st: State, es: Entries, outer: nat, inner: nat, base: Path, key: string)
    requires st.path == base + [(outer, key)] && st.scalar.None? && Below(base, outer) && outer < inner
    requires Written(es, inner) && key != LIST
    ensures ReadsAs(st, Print(es, inner), outer, base, Refuses(es, LIST in NamesOf(base)),
                    Entry([], key, Mapping(0, AsRead(es)), End))
    decreases es, 2
  {
    PopBase(base, outer, key);
    NamesOfMore(base, (outer, key));
    assert AtLevel(st.path, st.scalar, inner, st.path) && Below(st.path, inner);
    ReadEntries(st, es, inner, st.path);
    hide Read, Adds, Print, AsRead, Refuses, Written;
    var reading := Read(st, Print(es, inner));
    if reading.Running? {
      Deeper(reading.state.path, reading.state.scalar, inner, outer, st.path);
      hide PopTo, AtLevel;
      AddsNested(st.mappings, reading.state.mappings, NamesOf(base), key, AsRead(es));
    }
  }

  lemma {:induction false} ReadList(st: State, key: string, node: Node, indent: nat, base: Path)
    requires node.List? && WrittenNode(node, indent) && key != LIST
    requires st.path == base + [(indent, key)] && st.scalar.None? && Below(base, indent)
    ensures ReadsAs(st, PrintNode(node, indent), indent, base, ItemsRefuse(node.items, LIST in NamesOf(base)),
                    EntryAsRead(key, node))
    decreases node, 0
  {
    PopBase(base, indent, key);
    NamesOfMore(base, (indent, key));
    var level := indent + node.more;
    var under := if node.more == 0 then base else st.path;
    assert AtLevel(st.path, st.scalar, level, under) && Below(under, level) && PopTo(under, indent) == base;
    hide PopTo, AtLevel, Below, Adds, PrintItems, ItemsRefuse, WrittenItems, Read, Flat;
    ReadItems(st, node.items, level, under);
    var reading := Read(st, PrintItems(node.items, level));
    if reading.Running? {
      Deeper(reading.state.path, reading.state.scalar, level, indent, under);
      if node.more > 0 {
        AddsNested(st.mappings, reading.state.mappings, NamesOf(base), key, Flat(node.items));
      }
    }
  }

  lemma {:induction false} ReadItems(st: State, items: Items, indent: nat, base: Path)
    requires AtLevel(st.path, st.scalar, indent, base) && Below(base, indent) && WrittenItems(items, indent)
    ensures ReadsAs(st, PrintItems(items, indent), indent, base, ItemsRefuse(items, LIST in NamesOf(base)), Flat(items))
    decreases items, 1
  {
    match items
    case NoMore => AddsSame(st.mappings, NamesOf(base));
    case AnItem(noise, item, next) =>
      var one := noise + PrintItem(item, indent);
      ReadNoise(st, noise, indent, base);
      ReadOn(st, noise, PrintItem(item, indent));
      ReadItem(Read(st, noise).state, item, indent, base);
      ReadOn(st, one, PrintItems(next, indent));
      var reading := Read(st, one);
      hide Read, Adds, AtLevel, PrintItem, ItemRefuses, FlatItem, WrittenItem;
      if reading.Running? {
        ReadItems(reading.state, next, indent, base);
        var last := Read(reading.state, PrintItems(next, indent));
        if last.Running? {
          AddsBoth(st.mappings, reading.state.mappings, last.state.mappings, NamesOf(base), FlatItem(item), Flat(next));
        }
      }
  }

  lemma {:induction false} ReadItem(st: State, item: ListItem, indent: nat, base: Path)
    requires AtLevel(st.path, st.scalar, indent, base) && Below(base, indent) && WrittenItem(item, indent)
    ensures ReadsAs(st, PrintItem(item, indent), indent, base, ItemRefuses(item, LIST in NamesOf(base)), FlatItem(item))
    decreases item, 3
  {
    var line, lines := DashLine(item, indent), PrintUnder(item, indent);
    ReadOne(st, line, lines);
    assert !InScalar(st.scalar, line);
    if !IsTagItem(item) {
      var begun := State(if item.Bare? then base else base + [(indent, LIST)], None, st.mappings);
      assert Step(st, line) == Running(begun);
      PopBase(base, indent, LIST);
      NamesOfMore(base, (indent, LIST));
      hide Step, Adds, Read, PrintUnder, UnderRefuses, FlatItem, NamesOf;
      assert Below(begun.path, indent + 1) && PopTo(begun.path, indent) == base;
      ReadUnder(begun, item, indent);
      var reading := Read(begun, lines);
      if reading.Running? {
        Deeper(reading.state.path, reading.state.scalar, indent + 1, indent, begun.path);
        if item.Dashed? {
          DashedIsFlat(item);
          InListAddsNothing(st.mappings, reading.state.mappings, NamesOf(begun.path), End, NamesOf(base));
        }
      }
    }
  }

  lemma DashedIsFlat(item: ListItem)
    requires item.Dashed?
    ensures FlatItem(item) == End
    ensures UnderRefuses(item, true) == UnderRefuses(item, false)
  {
  }

  /** Under a dash alone the lines are read as those of the mapping around. */
  lemma {:induction false} ReadUnder(st: State, item: ListItem, indent: nat)
    requires st.scalar.None? && Below(st.path, indent + 1) && WrittenItem(item, indent)
    requires item.Dashed? ==> LIST in NamesOf(st.path)
    ensures ReadsAs(st, PrintUnder(item, indent), indent + 1, st.path, UnderRefuses(item, LIST in NamesOf(st.path)), FlatItem(item))
    decreases item, 2
  {
    match item
    case Bare(node) =>
      ReadBlockAt(st, node, indent, indent + 1);
      hide *;
    case Dashed(_, _, _) =>
      hide Adds, Read, PrintFirst, FirstRefuses, WrittenFirst, Written, Refuses, Print, AsRead;
      ReadDashed(st, item, indent);
  }

  /** The lines of a block that are deeper than `outer`, read under the same keys. */
  lemma {:induction false} ReadBlockAt(st: State, node: Node, indent: nat, outer: nat)
    requires st.scalar.None? && Below(st.path, outer) && WrittenNode(node, indent) && (node.Mapping? || node.List?)
    requires outer <= if node.Mapping? then indent + 1 else indent + node.more
    ensures ReadsAs(st, PrintNode(node, indent), outer, st.path, NodeRefuses(node, LIST in NamesOf(st.path)),
                    FlatItem(Bare(node)))
    decreases node, 2
  {
    var level := indent + node.more + if node.Mapping? then 1 else 0;
    StillBelow(st.path, outer, level);
    assert AtLevel(st.path, st.scalar, level, st.path);
    if node.Mapping? {
      ReadEntries(st, node.entries, level, st.path);
    } else {
      ReadItems(st, node.items, level, st.path);
    }
    hide Read, Adds, AsRead, Flat, Refuses, ItemsRefuse, Print, PrintItems, Written, WrittenItems;
    var reading := Read(st, PrintNode(node, indent));
    if reading.Running? {
      Deeper(reading.state.path, reading.state.scalar, level, outer, st.path);
    }
  }

  /** The lines of an item of a list the reader is in add nothing outside it. */
  lemma {:induction false} ReadDashed(st: State, item: ListItem, indent: nat)
    requires st.scalar.None? && Below(st.path, indent + 1) && LIST in NamesOf(st.path)
    requires item.Dashed? && WrittenItem(item, indent)
    ensures ReadsAs(st, PrintUnder(item, indent), indent + 1, st.path, UnderRefuses(item, true), End)
    decreases item, 1
  {
    var column := indent + 2 + item.extra;
    var first, rest := PrintFirst(item.first, column), Print(item.entries, column);
    ReadFirst(st, item.first, indent, column);
    hide Adds, Read, AtLevel, NamesOf, PrintFirst, FirstRefuses, WrittenFirst, Print, Refuses, Written;
    var reading := Read(st, first);
    if reading.Running? {
      ReadRest(reading.state, item.first, item.entries, indent, column, st.path);
    }
    ReadsThen(st, first, rest, LevelAfter(item.first, indent, column), indent + 1, st.path,
              FirstRefuses(item.first), Refuses(item.entries, true));
  }

  /** The level the reader is at after what begins beside a dash at `indent`. */
  function LevelAfter(first: First, indent: nat, column: nat): nat {
    if first.Block? || first.Inner? then indent + 1 else column
  }

  lemma {:induction false} ReadRest(st: State, first: First, entries: Entries, indent: nat, column: nat, base: Path)
    requires AtLevel(st.path, st.scalar, LevelAfter(first, indent, column), base) && LIST in NamesOf(base)
    requires Below(base, indent + 1) && indent + 2 <= column && Written(entries, column)
    requires first.Block? || first.Inner? ==> entries.End?
    ensures ReadsAs(st, Print(entries, column), indent + 1, base, Refuses(entries, true), End)
    decreases entries, 2
  {
    if first.Block? || first.Inner? {
      ReadNothingAt(st, indent + 1, base);
    } else {
      StillBelow(base, indent + 1, column);
      ReadEntries(st, entries, column, base);
      hide ReadsAs, AsRead, Refuses, Print;
      InsideList(st, Print(entries, column), column, indent + 1, base, Refuses(entries, true), AsRead(entries));
    }
  }

  lemma {:induction false} ReadFirst(st: State, first: First, indent: nat, column: nat)
    requires st.scalar.None? && Below(st.path, indent + 1) && LIST in NamesOf(st.path) && indent + 2 <= column
    requires WrittenFirst(first, indent, column)
    ensures ReadsAs(st, PrintFirst(first, column), LevelAfter(first, indent, column), st.path, FirstRefuses(first), End)
    decreases first, 2
  {
    StillBelow(st.path, indent + 1, column);
    var level := LevelAfter(first, indent, column);
    assert AtLevel(st.path, st.scalar, level, st.path);
    match first
    case Value => ReadNothingAt(st, level, st.path);
    case Block(lines) => ReadText(st, lines, level, st.path);
    case Keyed(_, node) =>
      hide Adds, Read, AtLevel, Below;
      if node.Plain? {
        ReadNothingAt(st, level, st.path);
      } else if node.Scalar? {
        ReadText(st, node.lines, level, st.path);
      } else {
        ReadKeyedBlock(st, node, column);
      }
    case Inner(item, next) => ReadInner(st, item, next, indent, column);
  }

  lemma {:induction false} ReadKeyedBlock(st: State, node: Node, column: nat)
    requires st.scalar.None? && Below(st.path, column) && LIST in NamesOf(st.path)
    requires WrittenNode(node, column) && (node.Mapping? || node.List?)
    ensures ReadsAs(st, PrintNode(node, column), column, st.path, NodeRefuses(node, true), End)
    decreases node, 3
  {
    ReadBlockAt(st, node, column, column);
    hide ReadsAs, PrintNode, NodeRefuses, FlatItem;
    InsideList(st, PrintNode(node, column), column, column, st.path, NodeRefuses(node, true), FlatItem(Bare(node)));
  }

  lemma {:induction false} ReadInner(st: State, item: ListItem, next: Items, indent: nat, column: nat)
    requires st.scalar.None? && Below(st.path, indent + 1) && LIST in NamesOf(st.path) && indent + 2 <= column
    requires WrittenItem(item, column) && WrittenItems(next, column)
    ensures ReadsAs(st, PrintUnder(item, column) + PrintItems(next, column), indent + 1, st.path,
                    UnderRefuses(item, true) || ItemsRefuse(next, true), End)
    decreases Inner(item, next), 1
  {
    hide *;
    var under, rest := PrintUnder(item, column), PrintItems(next, column);
    StillBelow(st.path, indent + 1, column);
    ReadInnerItem(st, item, column);
    if Read(st, under).Running? {
      ReadInnerRest(st, under, UnderRefuses(item, true), next, indent, column);
    }
    ReadsThen(st, under, rest, column, indent + 1, st.path, UnderRefuses(item, true), ItemsRefuse(next, true));
  }

  lemma {:induction false} ReadInnerItem(st: State, item: ListItem, column: nat)
    requires st.scalar.None? && Below(st.path, column) && LIST in NamesOf(st.path) && WrittenItem(item, column)
    ensures ReadsAs(st, PrintUnder(item, column), column, st.path, UnderRefuses(item, true), End)
    decreases item, 3
  {
    hide *;
    StillBelow(st.path, column, column + 1);
    ReadUnder(st, item, column);
    InsideList(st, PrintUnder(item, column), column + 1, column, st.path, UnderRefuses(item, true), FlatItem(item));
  }

  lemma {:induction false} ReadInnerRest(st: State, lines: seq<Line>, refused: bool, next: Items, indent: nat, column: nat)
    requires ReadsAs(st, lines, column, st.path, refused, End) && Read(st, lines).Running?
    requires Below(st.path, indent + 1) && LIST in NamesOf(st.path) && indent + 2 <= column && WrittenItems(next, column)
    ensures ReadsAs(Read(st, lines).state, PrintItems(next, column), indent + 1, st.path, ItemsRefuse(next, true), End)
    decreases next, 2
  {
    StillBelow(st.path, indent + 1, column);
    var begun := Read(st, lines).state;
    assert AtLevel(begun.path, begun.scalar, column, st.path);
    hide *;
    ReadItems(begun, next, column, st.path);
    InsideList(begun, PrintItems(next, column), column, indent + 1, st.path, ItemsRefuse(next, true), Flat(next));
  }

  // ---- Reading undoes printing -----------------------------------------------------------

  /** Reading a printed tree ends in a refusal exactly as `Refuses` says; otherwise it
      finds exactly the images of the tree as read. */
  lemma ReadIsOfTree(es: Entries, indent: nat)
    requires Written(es, indent)
    ensures var reading := Read(START, Print(es, indent));
      if Refuses(es, false) then reading == Refused
      else reading.Running? && TagsOf(AsRead(es), ImagesIn(reading.state.mappings))
  {
    hide Read, Print, Written, AsRead, Refuses, TagsOf, Adds;
    ReadFromStart(es, indent, START);
    var reading := Read(START, Print(es, indent));
    if reading.Running? {
      ImagesOfTree(AsRead(es), reading.state.mappings);
    }
  }

  lemma ReadFromStart(es: Entries, indent: nat, start: State)
    requires Written(es, indent) && start.path == [] && start.scalar.None?
    ensures var reading := Read(start, Print(es, indent));
      if Refuses(es, false) then reading == Refused
      else reading.Running? && Adds(start.mappings, reading.state.mappings, [], AsRead(es))
  {
    hide Read, Print, Written, AsRead, Refuses, Adds, AtLevel, Below, NamesOf, PopTo;
    NothingAbove(indent);
    ReadEntries(start, es, indent, []);
  }

  lemma NothingAbove(indent: nat)
    ensures AtLevel([], None, indent, []) && Below([], indent) && NamesOf([]) == []
  {
  }

  lemma LooksUp(es: Entries, mappings: Mappings, k: Keys)
    requires Adds(map[], mappings, [], es)
    ensures LIST !in k ==> Lookup(mappings, k) == FieldsAt(es, k)
    ensures LIST in k ==> !IsImage(Lookup(mappings, k))
  {
    assert k[0..] == k && Under(es, [], k) == FieldsAt(es, k);
  }

  lemma ImageOfTree(es: Entries, mappings: Mappings, k: Keys)
    requires Adds(map[], mappings, [], es)
    ensures NamesImage(mappings, k) <==> ImageKey(es, k)
    ensures NamesImage(mappings, k) && ImageKey(es, k) ==> TagAt(mappings, k) == ImageTag(es, k)
  {
    hide Adds, FieldsAt, Lookup, IsImage;
    if k != [] {
      LooksUp(es, mappings, k[..|k| - 1]);
      assert k == k[..|k| - 1] + [k[|k| - 1]];
    }
  }

  lemma ImagesOfTree(es: Entries, mappings: Mappings)
    requires Adds(map[], mappings, [], es)
    ensures TagsOf(es, ImagesIn(mappings))
  {
    hide NamesImage, TagAt, ImageKey, ImageTag, Adds, FieldsAt, Lookup, IsImage;
    var tags := ImagesIn(mappings);
    forall k: Keys
      ensures k in tags <==> ImageKey(es, k)
      ensures ImageKey(es, k) && k in tags ==> tags[k] == ImageTag(es, k)
    {
      ImageOfTree(es, mappings, k);
    }
  }
}
