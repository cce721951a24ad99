/** Values files as the trees they are written from, what they say, and what a reader
    that goes by indentation makes of them. */
module ValuesTree {
  import opened Options
  import opened ImageTags

  /** A block mapping: its entries in order, each with the blank and comment lines before
      it. A nested block is indented by one more than `more`, a list by `more`. */
  datatype Entries = End | Entry(noise: seq<Line>, key: string, node: Node, rest: Entries)

  datatype Node =
    | Plain(text: string)
    | Scalar(lines: seq<Line>)
    | Mapping(more: nat, entries: Entries)
    | List(more: nat, items: Items)

  datatype Items = NoMore | AnItem(noise: seq<Line>, item: ListItem, next: Items)

  /** A list's item: a dash alone on its line, over a mapping or a list; or a dash with
      what begins on its line, then its other entries, `extra` columns further in than
      two past the dash. */
  datatype ListItem = Bare(node: Node) | Dashed(first: First, extra: nat, entries: Entries)

  /** What begins beside a dash: a plain value, a block scalar, a key with what it holds,
      or a list of its own, its first dash on the same line. */
  datatype First =
    | Value
    | Block(lines: seq<Line>)
    | Keyed(key: string, node: Node)
    | Inner(item: ListItem, next: Items)

  predicate IsNoise(lines: seq<Line>) {
    forall l :: l in lines ==> l.Blank? || l.Comment?
  }

  predicate IndentedBelow(lines: seq<Line>, indent: nat) {
    forall l :: l in lines ==> l.Blank? || l.indent > indent
  }

  /** A tree a values file can be printed from: what is noise is, a block scalar's lines
      are indented below it, and no key is written as a list is. */
  predicate Written(es: Entries, indent: nat) {
    es.Entry? ==>
      (&& IsNoise(es.noise) && es.key != LIST && Written(es.rest, indent)
       && WrittenNode(es.node, indent))
  }

  predicate WrittenNode(node: Node, indent: nat) {
    match node
    case Plain(_) => true
    case Scalar(lines) => IndentedBelow(lines, indent)
    case Mapping(more, entries) => Written(entries, indent + 1 + more)
    case List(more, items) => WrittenItems(items, indent + more)
  }

  predicate WrittenItems(items: Items, indent: nat) {
    items.AnItem? ==> IsNoise(items.noise) && WrittenItem(items.item, indent) && WrittenItems(items.next, indent)
  }

  predicate WrittenItem(item: ListItem, indent: nat) {
    match item
    case Bare(node) => (node.Mapping? || (node.List? && node.more > 0)) && WrittenNode(node, indent)
    case Dashed(first, extra, entries) =>
      && Written(entries, indent + 2 + extra)
      && (first.Block? || first.Inner? ==> entries.End?)
      && WrittenFirst(first, indent, indent + 2 + extra)
  }

  predicate WrittenFirst(first: First, indent: nat, column: nat) {
    match first
    case Value => true
    case Block(lines) => IndentedBelow(lines, indent)
    case Keyed(key, node) => key != LIST && WrittenNode(node, column)
    case Inner(item, next) => WrittenItem(item, column) && WrittenItems(next, column)
  }

  // ---- Printing ------------------------------------------------------------------------

  function Print(es: Entries, indent: nat): seq<Line> {
    match es
    case End => []
    case Entry(noise, key, node, rest) =>
      noise + [Pair(indent, key, ValueOf(node))] + PrintNode(node, indent) + Print(rest, indent)
  }

  function ValueOf(node: Node): ImageTags.Value {
    match node
    case Plain(text) => Text(text)
    case Scalar(_) => BlockScalar
    case _ => Nothing
  }

  function PrintNode(node: Node, indent: nat): seq<Line> {
    match node
    case Plain(_) => []
    case Scalar(lines) => lines
    case Mapping(more, entries) => Print(entries, indent + 1 + more)
    case List(more, items) => PrintItems(items, indent + more)
  }

  function PrintItems(items: Items, indent: nat): seq<Line> {
    match items
    case NoMore => []
    case AnItem(noise, item, next) => noise + PrintItem(item, indent) + PrintItems(next, indent)
  }

  function PrintItem(item: ListItem, indent: nat): seq<Line>
    decreases item, 1
  {
    [DashLine(item, indent)] + PrintUnder(item, indent)
  }

  /** A dash alone is no item the reader knows, and no key. */
  function DashLine(item: ListItem, indent: nat): Line {
    if item.Bare? then Unread(indent) else Item(indent, IsTagItem(item))
  }

  predicate IsTagItem(item: ListItem) {
    item.Dashed? && item.first.Keyed? && item.first.key == TAG
  }

  /** An item's lines after that of its dash. */
  function PrintUnder(item: ListItem, indent: nat): seq<Line>
    decreases item, 0
  {
    match item
    case Bare(node) => PrintNode(node, indent)
    case Dashed(first, extra, entries) =>
      PrintFirst(first, indent + 2 + extra) + Print(entries, indent + 2 + extra)
  }

  function PrintFirst(first: First, column: nat): seq<Line> {
    match first
    case Value => []
    case Block(lines) => lines
    case Keyed(_, node) => PrintNode(node, column)
    case Inner(item, next) => PrintUnder(item, column) + PrintItems(next, column)
  }

  // ---- What a tree says ------------------------------------------------------------------

  /** The texts a mapping sets; of two of one key, the later. */
  function Texts(es: Entries): Fields {
    match es
    case End => map[]
    case Entry(_, key, node, rest) => (if node.Plain? then map[key := node.text] else map[]) + Texts(rest)
  }

  /** The texts of the mapping at a path of keys; none where there is no mapping. */
  function FieldsAt(es: Entries, path: Keys): Fields {
    if path == [] then Texts(es)
    else
      match es
      case End => map[]
      case Entry(_, key, node, rest) =>
        (if node.Mapping? && key == path[0] then FieldsAt(node.entries, path[1..]) else map[]) + FieldsAt(rest, path)
  }

  /** Whether a tag is inside a list, or, with `listed`, anywhere. */
  predicate TagListed(es: Entries, listed: bool) {
    es.Entry? && ((es.node.Plain? && listed && es.key == TAG) || NodeListed(es.node, listed) || TagListed(es.rest, listed))
  }

  predicate NodeListed(node: Node, listed: bool) {
    match node
    case Plain(_) => false
    case Scalar(_) => false
    case Mapping(_, entries) => TagListed(entries, listed)
    case List(_, items) => ItemsListed(items)
  }

  predicate ItemsListed(items: Items) {
    items.AnItem? && (ItemListed(items.item) || ItemsListed(items.next))
  }

  predicate ItemListed(item: ListItem) {
    match item
    case Bare(node) => NodeListed(node, true)
    case Dashed(first, _, entries) => FirstListed(first) || TagListed(entries, true)
  }

  predicate FirstListed(first: First) {
    match first
    case Value => false
    case Block(_) => false
    case Keyed(key, node) => key == TAG || NodeListed(node, true)
    case Inner(item, next) => ItemListed(item) || ItemsListed(next)
  }

  // ---- What reading makes of it ------------------------------------------------------------

  /** Whether a line of a text, outside a block scalar, reads as a tag. */
  predicate IsTagLine(line: Line) {
    (line.Item? && line.isTag) || (line.Pair? && line.key == TAG && line.value.Text?)
  }

  predicate Swallowed(scalar: Option<nat>, line: Line) {
    InScalar(scalar, line) || line.Blank?
  }

  function ScalarAfter(scalar: Option<nat>, line: Line): Option<nat> {
    if Swallowed(scalar, line) then scalar
    else if line.Pair? && line.value.BlockScalar? then Some(line.indent) else None
  }

  /** Whether a line of a text, outside the block scalars `scalar` and those the text
      itself seems to open, reads as a tag. */
  predicate ReadsTag(lines: seq<Line>, scalar: Option<nat>) {
    lines != []
    && ((!Swallowed(scalar, lines[0]) && IsTagLine(lines[0])) || ReadsTag(lines[1..], ScalarAfter(scalar, lines[0])))
  }

  /** Whether reading comes to a tag in a list, `listed` saying whether it is in one. A
      dash alone leads into none, a key behind a second dash is not read, and a block
      scalar that begins an item is read as lines. */
  predicate Refuses(es: Entries, listed: bool) {
    es.Entry? && (EntryRefuses(es.key, es.node, listed) || Refuses(es.rest, listed))
  }

  predicate EntryRefuses(key: string, node: Node, listed: bool)
    decreases node, 1
  {
    (node.Plain? && listed && key == TAG) || NodeRefuses(node, listed)
  }

  predicate NodeRefuses(node: Node, listed: bool)
    decreases node, 0
  {
    match node
    case Plain(_) => false
    case Scalar(_) => false
    case Mapping(_, entries) => Refuses(entries, listed)
    case List(_, items) => ItemsRefuse(items, listed)
  }

  predicate ItemsRefuse(items: Items, listed: bool) {
    items.AnItem? && (ItemRefuses(items.item, listed) || ItemsRefuse(items.next, listed))
  }

  predicate ItemRefuses(item: ListItem, listed: bool)
    decreases item, 1
  {
    IsTagItem(item) || UnderRefuses(item, listed)
  }

  predicate UnderRefuses(item: ListItem, listed: bool)
    decreases item, 0
  {
    match item
    case Bare(node) => NodeRefuses(node, listed)
    case Dashed(first, _, entries) => FirstRefuses(first) || Refuses(entries, true)
  }

  predicate FirstRefuses(first: First) {
    match first
    case Value => false
    case Block(lines) => ReadsTag(lines, None)
    case Keyed(_, node) => if node.Scalar? then ReadsTag(node.lines, None) else NodeRefuses(node, true)
    case Inner(item, next) => UnderRefuses(item, true) || ItemsRefuse(next, true)
  }

  function Append(a: Entries, b: Entries): Entries {
    if a.End? then b else a.(rest := Append(a.rest, b))
  }

  /** The tree without lists that reading makes of it: what a dash leads into is gone, but
      what is under a dash alone is read as the entries of the mapping around, which is the
      list's own key's or, where the list is no deeper than its key, the one that has it. */
  function AsRead(es: Entries): Entries
    decreases es
  {
    if es.End? then End else Append(EntryAsRead(es.key, es.node), AsRead(es.rest))
  }

  function EntryAsRead(key: string, node: Node): Entries
    decreases node
  {
    match node
    case Plain(_) => Entry([], key, node, End)
    case Scalar(_) => Entry([], key, node, End)
    case Mapping(_, entries) => Entry([], key, Mapping(0, AsRead(entries)), End)
    case List(more, items) => if more == 0 then Flat(items) else Entry([], key, Mapping(0, Flat(items)), End)
  }

  /** The entries under the dashes of a list that stand alone. */
  function Flat(items: Items): Entries
    decreases items
  {
    if items.NoMore? then End else Append(FlatItem(items.item), Flat(items.next))
  }

  function FlatItem(item: ListItem): Entries
    decreases item
  {
    if item.Dashed? then End
    else
      match item.node
      case Mapping(_, entries) => AsRead(entries)
      case List(_, items) => Flat(items)
      case _ => End
  }

  // ---- Images ---------------------------------------------------------------------------------

  /** `k` is the path of an image's tag: the mapping at the rest of it, outside lists,
      sets `name: arkhai` and a `tag`. */
  predicate ImageKey(es: Entries, k: Keys) {
    k != [] && k[|k| - 1] == TAG && LIST !in k && IsImage(FieldsAt(es, k[..|k| - 1]))
  }

  function ImageTag(es: Entries, k: Keys): string
    requires ImageKey(es, k)
  {
    FieldsAt(es, k[..|k| - 1])[TAG]
  }

  ghost predicate TagsOf(es: Entries, tags: map<Keys, string>) {
    && (forall k :: k in tags <==> ImageKey(es, k))
    && (forall k :: ImageKey(es, k) && k in tags ==> tags[k] == ImageTag(es, k))
  }

  // ---- The mapping at a path ----------------------------------------------------------------

  predicate HasKey(es: Entries, key: string) {
    es.Entry? && (es.key == key || HasKey(es.rest, key))
  }

  /** No mapping repeats a key. */
  predicate Unique(es: Entries) {
    es.Entry? ==>
      !HasKey(es.rest, es.key) && Unique(es.rest) && (es.node.Mapping? ==> Unique(es.node.entries))
  }

  /** `sub` is the mapping at `path`. */
  predicate MappingAt(es: Entries, path: Keys, sub: Entries) {
    if path == [] then es == sub
    else
      es.Entry?
      && ((es.key == path[0] && es.node.Mapping? && MappingAt(es.node.entries, path[1..], sub))
          || MappingAt(es.rest, path, sub))
  }

  lemma {:induction false} NoFieldsWithoutKey(es: Entries, path: Keys)
    requires path != [] && !HasKey(es, path[0])
    ensures FieldsAt(es, path) == map[] && forall sub :: !MappingAt(es, path, sub)
  {
    if es.Entry? {
      NoFieldsWithoutKey(es.rest, path);
    }
  }

  /** Where no mapping repeats a key, the fields at a path are those of the one mapping
      there. */
  lemma {:induction false} FieldsAreTheMappings(es: Entries, path: Keys, sub: Entries)
    requires Unique(es) && MappingAt(es, path, sub)
    ensures FieldsAt(es, path) == Texts(sub)
  {
    if path != [] {
      if es.key == path[0] {
        NoFieldsWithoutKey(es.rest, path);
        FieldsAreTheMappings(es.node.entries, path[1..], sub);
      } else {
        FieldsAreTheMappings(es.rest, path, sub);
      }
    }
  }

  /** A mapping's text, where no key repeats, is that of its one entry of the key. */
  predicate Says(es: Entries, key: string, text: string) {
    es.Entry? && ((es.key == key && es.node == Plain(text)) || Says(es.rest, key, text))
  }

  lemma {:induction false} TextsAreTheEntries(es: Entries, key: string, text: string)
    requires Unique(es)
    ensures key in Texts(es) && Texts(es)[key] == text <==> Says(es, key, text)
    ensures key in Texts(es) || Says(es, key, text) ==> HasKey(es, key)
  {
    if es.Entry? {
      TextsAreTheEntries(es.rest, key, text);
    }
  }

  lemma {:induction false} FieldsNeedAMapping(es: Entries, path: Keys)
    requires FieldsAt(es, path) != map[]
    ensures exists sub :: MappingAt(es, path, sub)
  {
    if path == [] {
      assert MappingAt(es, path, es);
    } else if es.node.Mapping? && es.key == path[0] && FieldsAt(es.node.entries, path[1..]) != map[] {
      FieldsNeedAMapping(es.node.entries, path[1..]);
      var sub :| MappingAt(es.node.entries, path[1..], sub);
      assert MappingAt(es, path, sub);
    } else {
      FieldsNeedAMapping(es.rest, path);
      var sub :| MappingAt(es.rest, path, sub);
      assert MappingAt(es, path, sub);
    }
  }

  /** Where no key repeats, these are exactly the mappings with `name: arkhai` and a
      `tag`, each with that tag. */
  lemma ImagesAreTheMappings(es: Entries, path: Keys, tag: string)
    requires Unique(es)
    ensures IsImage(FieldsAt(es, path)) && FieldsAt(es, path)[TAG] == tag <==>
      exists sub :: MappingAt(es, path, sub) && Says(sub, "name", BUILT_HERE) && Says(sub, TAG, tag)
  {
    if IsImage(FieldsAt(es, path)) {
      FieldsNeedAMapping(es, path);
    }
    forall sub | MappingAt(es, path, sub)
      ensures IsImage(FieldsAt(es, path)) && FieldsAt(es, path)[TAG] == tag <==>
        Says(sub, "name", BUILT_HERE) && Says(sub, TAG, tag)
    {
      FieldsAreTheMappings(es, path, sub);
      UniqueInside(es, path, sub);
      TextsAreTheEntries(sub, "name", BUILT_HERE);
      TextsAreTheEntries(sub, TAG, tag);
    }
  }

  lemma {:induction false} UniqueInside(es: Entries, path: Keys, sub: Entries)
    requires Unique(es) && MappingAt(es, path, sub)
    ensures Unique(sub)
  {
    if path != [] {
      if es.key == path[0] && es.node.Mapping? && MappingAt(es.node.entries, path[1..], sub) {
        UniqueInside(es.node.entries, path[1..], sub);
      } else {
        UniqueInside(es.rest, path, sub);
      }
    }
  }

  /** Where no mapping repeats a key, no mapping is under the `tag` that is a text. */
  lemma {:induction false} NothingUnderATag(es: Entries, path: Keys, under: Keys)
    requires Unique(es) && TAG in FieldsAt(es, path) && path + [TAG] <= under
    ensures FieldsAt(es, under) == map[]
  {
    if path == [] {
      TextsAreTheEntries(es, TAG, Texts(es)[TAG]);
      assert under[0] == TAG && Says(es, TAG, Texts(es)[TAG]);
      SaysNotNested(es, under);
    } else if es.key == path[0] {
      NoFieldsWithoutKey(es.rest, path);
      assert under[0] == path[0];
      NoFieldsWithoutKey(es.rest, under);
      assert (path + [TAG])[1..] == path[1..] + [TAG] && path[1..] + [TAG] <= under[1..];
      NothingUnderATag(es.node.entries, path[1..], under[1..]);
    } else {
      assert under[0] == path[0];
      NothingUnderATag(es.rest, path, under);
    }
  }

  lemma {:induction false} SaysNotNested(es: Entries, under: Keys)
    requires Unique(es) && under != [] && exists text :: Says(es, under[0], text)
    ensures FieldsAt(es, under) == map[]
  {
    var text :| Says(es, under[0], text);
    TextsAreTheEntries(es.rest, under[0], text);
    if es.key == under[0] {
      NoFieldsWithoutKey(es.rest, under);
    } else {
      SaysNotNested(es.rest, under);
    }
  }

  /** So no image's tag is on the way to another's. */
  lemma ImagesApart(es: Entries, a: Keys, b: Keys)
    requires Unique(es) && ImageKey(es, a) && ImageKey(es, b) && a <= b
    ensures a == b
  {
    if |a| < |b| {
      assert a == a[..|a| - 1] + [TAG] && a <= b[..|b| - 1];
      NothingUnderATag(es, a[..|a| - 1], b[..|b| - 1]);
    }
  }
}
