/** When a tag inside a list is refused, as scripts/change_namespace.py promises, and the
    two ways of writing a list that let one by. */
module ValuesLists {
  import opened Options
  import opened ImageTags
  import opened ValuesTree
  import opened ValuesReading

  // ---- What a caller can look for ---------------------------------------------------------

  /** Whether a list not inside another has a dash alone on its line. */
  predicate LoneDash(es: Entries) {
    es.Entry? && (NodeLoneDash(es.node) || LoneDash(es.rest))
  }

  predicate NodeLoneDash(node: Node) {
    (node.Mapping? && LoneDash(node.entries)) || (node.List? && HasBare(node.items))
  }

  predicate HasBare(items: Items) {
    items.AnItem? && (items.item.Bare? || HasBare(items.next))
  }

  /** Whether a line begins with two dashes. */
  predicate TwoDashes(es: Entries) {
    es.Entry? && (NodeTwoDashes(es.node) || TwoDashes(es.rest))
  }

  predicate NodeTwoDashes(node: Node) {
    match node
    case Plain(_) => false
    case Scalar(_) => false
    case Mapping(_, entries) => TwoDashes(entries)
    case List(_, items) => ItemsTwoDashes(items)
  }

  predicate ItemsTwoDashes(items: Items) {
    items.AnItem? && (ItemTwoDashes(items.item) || ItemsTwoDashes(items.next))
  }

  predicate ItemTwoDashes(item: ListItem) {
    match item
    case Bare(node) => NodeTwoDashes(node)
    case Dashed(first, _, entries) =>
      first.Inner? || (first.Keyed? && NodeTwoDashes(first.node)) || TwoDashes(entries)
  }

  /** Whether a block scalar that begins an item has a line that reads as a tag. */
  predicate TextReads(es: Entries) {
    es.Entry? && (NodeTextReads(es.node) || TextReads(es.rest))
  }

  predicate NodeTextReads(node: Node) {
    match node
    case Plain(_) => false
    case Scalar(_) => false
    case Mapping(_, entries) => TextReads(entries)
    case List(_, items) => ItemsTextRead(items)
  }

  predicate ItemsTextRead(items: Items) {
    items.AnItem? && (ItemTextReads(items.item) || ItemsTextRead(items.next))
  }

  predicate ItemTextReads(item: ListItem) {
    match item
    case Bare(node) => NodeTextReads(node)
    case Dashed(first, _, entries) => FirstTextReads(first) || TextReads(entries)
  }

  predicate FirstTextReads(first: First) {
    match first
    case Value => false
    case Block(lines) => ReadsTag(lines, None)
    case Keyed(_, node) => if node.Scalar? then ReadsTag(node.lines, None) else NodeTextReads(node)
    case Inner(item, next) => ItemTextReads(item) || ItemsTextRead(next)
  }

  // ---- What is refused ----------------------------------------------------------------------

  /** Whatever is refused has a tag in a list, or a text that reads as one; and all that
      has is refused, but for lone dashes and second ones. */
  lemma {:induction false} RefusedMeans(es: Entries, listed: bool, inside: bool)
    requires listed ==> inside
    ensures Refuses(es, listed) ==> TagListed(es, inside) || TextReads(es)
    ensures !TwoDashes(es) && (listed || !LoneDash(es)) && (TagListed(es, listed) || TextReads(es)) ==> Refuses(es, listed)
  {
    if es.Entry? {
      assert EntryRefuses(es.key, es.node, listed) <==>
        (es.node.Plain? && listed && es.key == TAG) || NodeRefuses(es.node, listed);
      RefusedMeans(es.rest, listed, inside);
      NodeRefusedMeans(es.node, listed, inside);
      hide NodeRefuses, NodeListed, NodeTextReads, NodeTwoDashes, NodeLoneDash;
    }
  }

  lemma {:induction false} NodeRefusedMeans(node: Node, listed: bool, inside: bool)
    requires listed ==> inside
    ensures NodeRefuses(node, listed) ==> NodeListed(node, inside) || NodeTextReads(node)
    ensures !NodeTwoDashes(node) && (listed || !NodeLoneDash(node)) && (NodeListed(node, listed) || NodeTextReads(node)) ==>
      NodeRefuses(node, listed)
  {
    match node
    case Plain(_) =>
    case Scalar(_) =>
    case Mapping(_, entries) => RefusedMeans(entries, listed, inside);
    case List(_, items) => ItemsRefusedMeans(items, listed);
  }

  lemma {:induction false} ItemsRefusedMeans(items: Items, listed: bool)
    ensures ItemsRefuse(items, listed) ==> ItemsListed(items) || ItemsTextRead(items)
    ensures !ItemsTwoDashes(items) && (listed || !HasBare(items)) && (ItemsListed(items) || ItemsTextRead(items)) ==>
      ItemsRefuse(items, listed)
  {
    if items.AnItem? {
      ItemRefusedMeans(items.item, listed);
      ItemsRefusedMeans(items.next, listed);
      hide ItemRefuses, ItemListed, ItemTextReads, ItemTwoDashes;
    }
  }

  lemma {:induction false} ItemRefusedMeans(item: ListItem, listed: bool)
    ensures ItemRefuses(item, listed) ==> ItemListed(item) || ItemTextReads(item)
    ensures !ItemTwoDashes(item) && (listed || item.Dashed?) && (ItemListed(item) || ItemTextReads(item)) ==>
      ItemRefuses(item, listed)
  {
    match item
    case Bare(node) =>
      NodeRefusedMeans(node, listed, true);
      BareSays(item, listed);
      hide *;
    case Dashed(first, _, entries) =>
      FirstRefusedMeans(first);
      RefusedMeans(entries, true, true);
      assert first.Keyed? && first.key == TAG ==> FirstListed(first);
      DashedSays(item, 0, listed);
      hide *;
  }

  lemma {:induction false} FirstRefusedMeans(first: First)
    ensures FirstRefuses(first) ==> FirstListed(first) || FirstTextReads(first)
    ensures !first.Inner? && (first.Keyed? ==> first.key != TAG && !NodeTwoDashes(first.node)) ==>
      (FirstListed(first) || FirstTextReads(first) ==> FirstRefuses(first))
  {
    match first
    case Value =>
    case Block(_) =>
    case Keyed(_, node) => NodeRefusedMeans(node, true, true);
    case Inner(item, next) =>
      ItemRefusedMeans(item, true);
      ItemsRefusedMeans(next, true);
  }

  lemma BareSays(item: ListItem, listed: bool)
    requires item.Bare?
    ensures ItemRefuses(item, listed) <==> NodeRefuses(item.node, listed)
    ensures ItemListed(item) <==> NodeListed(item.node, true)
    ensures ItemTwoDashes(item) <==> NodeTwoDashes(item.node)
    ensures ItemTextReads(item) <==> NodeTextReads(item.node)
  {
    assert ItemRefuses(item, listed) <==> IsTagItem(item) || UnderRefuses(item, listed);
  }

  lemma DashedSays(item: ListItem, indent: nat, listed: bool)
    requires item.Dashed?
    ensures var column := indent + 2 + item.extra;
      WrittenItem(item, indent) <==>
        Written(item.entries, column) && (item.first.Block? || item.first.Inner? ==> item.entries.End?)
        && WrittenFirst(item.first, indent, column)
    ensures ItemRefuses(item, listed) <==>
      (item.first.Keyed? && item.first.key == TAG) || FirstRefuses(item.first) || Refuses(item.entries, true)
    ensures ItemListed(item) <==> FirstListed(item.first) || TagListed(item.entries, true)
    ensures ItemTwoDashes(item) <==>
      item.first.Inner? || (item.first.Keyed? && NodeTwoDashes(item.first.node)) || TwoDashes(item.entries)
    ensures ItemTextReads(item) <==> FirstTextReads(item.first) || TextReads(item.entries)
  {
    assert ItemRefuses(item, listed) <==> IsTagItem(item) || UnderRefuses(item, listed);
  }

  // ---- What is read ---------------------------------------------------------------------------

  /** Without lone dashes, the tree as read has the fields of the tree. */
  lemma {:induction false} ReadFields(es: Entries, path: Keys)
    requires !LoneDash(es)
    ensures FieldsAt(AsRead(es), path) == FieldsAt(es, path)
  {
    if es.Entry? {
      ReadFields(es.rest, path);
      FieldsAppend(EntryAsRead(es.key, es.node), AsRead(es.rest), path);
      EntryFields(es.key, es.node, path);
    }
  }

  /** The fields one entry gives. */
  function FieldsOf(key: string, node: Node, path: Keys): Fields {
    if path == [] then (if node.Plain? then map[key := node.text] else map[])
    else if node.Mapping? && key == path[0] then FieldsAt(node.entries, path[1..]) else map[]
  }

  lemma {:induction false} EntryFields(key: string, node: Node, path: Keys)
    requires !NodeLoneDash(node)
    ensures FieldsAt(EntryAsRead(key, node), path) == FieldsOf(key, node, path)
    decreases node
  {
    match node
    case Plain(_) => FieldsOfOne(key, node, path);
    case Scalar(_) => FieldsOfOne(key, node, path);
    case Mapping(_, entries) =>
      FieldsOfOne(key, Mapping(0, AsRead(entries)), path);
      if path != [] {
        ReadFields(entries, path[1..]);
      }
    case List(more, items) =>
      NothingFlat(items);
      FieldsOfOne(key, Mapping(0, End), path);
      assert FieldsAt(End, path) == map[] && (path != [] ==> FieldsAt(End, path[1..]) == map[]);
  }

  lemma {:induction false} NothingFlat(items: Items)
    requires !HasBare(items)
    ensures Flat(items) == End
  {
    if items.AnItem? {
      NothingFlat(items.next);
    }
  }

  lemma ReadTags(es: Entries, tags: map<Keys, string>)
    requires !LoneDash(es) && TagsOf(AsRead(es), tags)
    ensures TagsOf(es, tags)
  {
    forall k: Keys
      ensures ImageKey(AsRead(es), k) <==> ImageKey(es, k)
      ensures ImageKey(es, k) ==> ImageTag(AsRead(es), k) == ImageTag(es, k)
    {
      if k != [] {
        ReadFields(es, k[..|k| - 1]);
      }
    }
  }

  /** Whatever is refused has a tag in a list or a text that reads as one. Where no dash
      is alone on its line outside a list and no line begins with two, all that has is
      refused, and of everything else exactly the images are found. */
  lemma ListedTagsAreRefused(es: Entries, indent: nat)
    requires Written(es, indent)
    ensures var reading := Read(START, Print(es, indent));
      && (reading == Refused ==> TagListed(es, false) || TextReads(es))
      && (!LoneDash(es) && !TwoDashes(es) ==> (reading == Refused <==> TagListed(es, false) || TextReads(es)))
      && (!LoneDash(es) && reading.Running? ==> TagsOf(es, ImagesIn(reading.state.mappings)))
  {
    ReadIsOfTree(es, indent);
    RefusedMeans(es, false, false);
    var reading := Read(START, Print(es, indent));
    hide *;
    if !LoneDash(es) && reading.Running? {
      ReadTags(es, ImagesIn(reading.state.mappings));
    }
  }

  // ---- What is let by ---------------------------------------------------------------------------

  /** An image built here, as a mapping. */
  function Image(tag: string): Node {
    Mapping(0, Entry([], "name", Plain(BUILT_HERE), Entry([], TAG, Plain(tag), End)))
  }

  /** An item that is a tag. */
  function Tagged(tag: string): ListItem {
    Dashed(Keyed(TAG, Plain(tag)), 0, End)
  }

  /** The tree with an image under each lone dash, and a tag behind each second one. */
  function Filled(es: Entries, listed: bool, tag: string): Entries {
    if es.End? then End else es.(node := FilledNode(es.node, listed, tag), rest := Filled(es.rest, listed, tag))
  }

  function FilledNode(node: Node, listed: bool, tag: string): Node {
    match node
    case Plain(_) => node
    case Scalar(_) => node
    case Mapping(more, entries) => Mapping(more, Filled(entries, listed, tag))
    case List(more, items) => List(more, FilledItems(items, listed, tag))
  }

  function FilledItems(items: Items, listed: bool, tag: string): Items {
    if items.NoMore? then NoMore
    else items.(item := FilledItem(items.item, listed, tag), next := FilledItems(items.next, listed, tag))
  }

  function FilledItem(item: ListItem, listed: bool, tag: string): ListItem {
    match item
    case Bare(node) => Bare(if listed then FilledNode(node, true, tag) else Image(tag))
    case Dashed(first, extra, entries) => Dashed(FilledFirst(first, tag), extra, Filled(entries, true, tag))
  }

  function FilledFirst(first: First, tag: string): First {
    match first
    case Keyed(key, node) => Keyed(key, FilledNode(node, true, tag))
    case Inner(_, next) => Inner(Tagged(tag), FilledItems(next, true, tag))
    case _ => first
  }

  lemma {:induction false} FillingKeeps(es: Entries, listed: bool, indent: nat, tag: string)
    requires Written(es, indent) && !Refuses(es, listed)
    ensures Written(Filled(es, listed, tag), indent) && !Refuses(Filled(es, listed, tag), listed)
    ensures TwoDashes(es) || (!listed && LoneDash(es)) ==> TagListed(Filled(es, listed, tag), listed)
  {
    if es.Entry? {
      FillingKeepsNode(es.node, listed, indent, tag);
      FillingKeeps(es.rest, listed, indent, tag);
    }
  }

  lemma {:induction false} FillingKeepsNode(node: Node, listed: bool, indent: nat, tag: string)
    requires WrittenNode(node, indent) && !NodeRefuses(node, listed)
    ensures WrittenNode(FilledNode(node, listed, tag), indent) && !NodeRefuses(FilledNode(node, listed, tag), listed)
    ensures NodeTwoDashes(node) || (!listed && NodeLoneDash(node)) ==> NodeListed(FilledNode(node, listed, tag), listed)
    decreases node, 0
  {
    match node
    case Plain(_) =>
    case Scalar(_) =>
    case Mapping(more, entries) => FillingKeeps(entries, listed, indent + 1 + more, tag);
    case List(more, items) => FillingKeepsItems(items, listed, indent + more, tag);
  }

  lemma {:induction false} FillingKeepsItems(items: Items, listed: bool, indent: nat, tag: string)
    requires WrittenItems(items, indent) && !ItemsRefuse(items, listed)
    ensures WrittenItems(FilledItems(items, listed, tag), indent) && !ItemsRefuse(FilledItems(items, listed, tag), listed)
    ensures ItemsTwoDashes(items) || (!listed && HasBare(items)) ==> ItemsListed(FilledItems(items, listed, tag))
  {
    if items.AnItem? {
      FillingKeepsItem(items.item, listed, indent, tag);
      FillingKeepsItems(items.next, listed, indent, tag);
    }
  }

  lemma {:induction false} FillingKeepsItem(item: ListItem, listed: bool, indent: nat, tag: string)
    requires WrittenItem(item, indent) && !ItemRefuses(item, listed)
    ensures WrittenItem(FilledItem(item, listed, tag), indent) && !ItemRefuses(FilledItem(item, listed, tag), listed)
    ensures ItemTwoDashes(item) || (!listed && item.Bare?) ==> ItemListed(FilledItem(item, listed, tag))
  {
    match item
    case Bare(node) => FillingKeepsBare(node, listed, indent, tag);
    case Dashed(first, extra, entries) =>
      FillingKeepsFirst(first, indent, indent + 2 + extra, tag);
      FillingKeeps(entries, true, indent + 2 + extra, tag);
      DashedIsFilled(item, listed, tag);
      FilledBeside(first, tag);
      DashedSays(item, indent, listed);
      DashedSays(FilledItem(item, listed, tag), indent, listed);
      hide *;
  }

  lemma {:induction false} FillingKeepsBare(node: Node, listed: bool, indent: nat, tag: string)
    requires WrittenItem(Bare(node), indent) && !NodeRefuses(node, listed)
    ensures var filled := FilledItem(Bare(node), listed, tag);
      && filled.Bare? && WrittenItem(filled, indent) && !NodeRefuses(filled.node, listed)
      && (NodeTwoDashes(node) || !listed ==> NodeListed(filled.node, true))
    decreases node, 1
  {
    if listed {
      FillingKeepsNode(node, true, indent, tag);
    } else {
      ImageIsWritten(indent, tag);
    }
    hide NodeRefuses, NodeListed, NodeTwoDashes, WrittenNode, Image;
  }

  /** What beside a dash has no further entries still has none. */
  lemma FilledBeside(first: First, tag: string)
    ensures var filled := FilledFirst(first, tag);
      && (filled.Block? || filled.Inner? <==> first.Block? || first.Inner?) && Filled(End, true, tag) == End
      && (filled.Keyed? <==> first.Keyed?) && (first.Keyed? && filled.Keyed? ==> filled.key == first.key)
  {
  }

  lemma DashedIsFilled(item: ListItem, listed: bool, tag: string)
    requires item.Dashed?
    ensures FilledItem(item, listed, tag) == Dashed(FilledFirst(item.first, tag), item.extra, Filled(item.entries, true, tag))
  {
  }

  lemma ImageIsWritten(indent: nat, tag: string)
    ensures WrittenItem(Bare(Image(tag)), indent) && !NodeRefuses(Image(tag), false) && NodeListed(Image(tag), true)
  {
    var last := Entry([], TAG, Plain(tag), End);
    var both := Entry([], "name", Plain(BUILT_HERE), last);
    assert Written(End, indent + 1) && !Refuses(End, false);
    TextIsWritten(TAG, tag, End, indent + 1);
    TextIsWritten("name", BUILT_HERE, last, indent + 1);
    assert Image(tag) == Mapping(0, both);
    hide Written, Refuses, TagListed, Image;
  }

  lemma TextIsWritten(key: string, text: string, rest: Entries, indent: nat)
    requires key != LIST && Written(rest, indent)
    ensures var es := Entry([], key, Plain(text), rest);
      && Written(es, indent) && (!Refuses(rest, false) ==> !Refuses(es, false))
      && (TagListed(es, true) <==> key == TAG || TagListed(rest, true))
  {
    assert !NodeRefuses(Plain(text), false) && !EntryRefuses(key, Plain(text), false);
    assert !NodeListed(Plain(text), true) && WrittenNode(Plain(text), indent);
  }

  lemma TaggedIsWritten(indent: nat, tag: string)
    ensures WrittenItem(Tagged(tag), indent) && !UnderRefuses(Tagged(tag), true) && ItemListed(Tagged(tag))
  {
    assert Written(End, indent + 2) && !Refuses(End, true);
    assert !NodeRefuses(Plain(tag), true) && !FirstRefuses(Keyed(TAG, Plain(tag)));
  }

  lemma {:induction false} FillingKeepsFirst(first: First, indent: nat, column: nat, tag: string)
    requires WrittenFirst(first, indent, column) && !FirstRefuses(first)
    ensures WrittenFirst(FilledFirst(first, tag), indent, column) && !FirstRefuses(FilledFirst(first, tag))
    ensures first.Inner? || (first.Keyed? && NodeTwoDashes(first.node)) ==> FirstListed(FilledFirst(first, tag))
  {
    match first
    case Value =>
    case Block(_) =>
    case Keyed(_, node) =>
      if !node.Scalar? {
        FillingKeepsNode(node, true, column, tag);
      }
    case Inner(_, next) =>
      TaggedIsWritten(column, tag);
      FillingKeepsItems(next, true, column, tag);
  }

  /** Where a dash is alone on its line outside a list, or a line begins with two, the
      promise fails: the same tree with a tag there, in a list, is not refused either. */
  lemma DashesLetTagsBy(es: Entries, indent: nat, tag: string)
    requires Written(es, indent) && Read(START, Print(es, indent)) != Refused
    requires LoneDash(es) || TwoDashes(es)
    ensures var filled := Filled(es, false, tag);
      Written(filled, indent) && TagListed(filled, false) && Read(START, Print(filled, indent)) != Refused
  {
    ReadIsOfTree(es, indent);
    FillingKeeps(es, false, indent, tag);
    ReadIsOfTree(Filled(es, false, tag), indent);
  }

  // ---- Such files ---------------------------------------------------------------------------------

  /** `images:`, over one item. */
  function OneItem(item: ListItem): Entries {
    Entry([], "images", List(1, AnItem([], item, NoMore)), End)
  }

  lemma OneItemIsWritten(item: ListItem, indent: nat)
    requires WrittenItem(item, indent + 1)
    ensures Written(OneItem(item), indent)
    ensures Refuses(OneItem(item), false) <==> ItemRefuses(item, false)
    ensures TagListed(OneItem(item), false) <==> ItemListed(item)
  {
    var items := AnItem([], item, NoMore);
    assert WrittenItems(items, indent + 1) by {
      assert WrittenItems(NoMore, indent + 1);
    }
    assert ItemsListed(items) <==> ItemListed(item);
    assert ItemsRefuse(items, false) <==> ItemRefuses(item, false);
    hide WrittenItems, WrittenItem, ItemsListed, ItemListed, ItemsRefuse, ItemRefuses;
    BlockIsWritten("images", List(1, items), indent);
  }

  lemma BlockIsWritten(key: string, node: Node, indent: nat)
    requires key != LIST && WrittenNode(node, indent) && !node.Plain?
    ensures var es := Entry([], key, node, End);
      && Written(es, indent) && (Refuses(es, false) <==> NodeRefuses(node, false))
      && (TagListed(es, false) <==> NodeListed(node, false))
  {
    assert Written(End, indent) && !Refuses(End, false) && !TagListed(End, false);
    hide WrittenNode, NodeRefuses, NodeListed;
  }

  /** An image under a lone dash is in a list, yet the reader gives it the path of the
      mapping around. */
  lemma LoneDashMisread(indent: nat, tag: string)
    ensures var es, k := OneItem(Bare(Image(tag))), ["images", TAG];
      && Written(es, indent) && TagListed(es, false) && !ImageKey(es, k)
      && var reading := Read(START, Print(es, indent));
         reading.Running? && k in ImagesIn(reading.state.mappings) && ImagesIn(reading.state.mappings)[k] == tag
  {
    var es, k := OneItem(Bare(Image(tag))), ["images", TAG];
    ImageIsWritten(indent + 1, tag);
    OneItemIsWritten(Bare(Image(tag)), indent);
    assert !ItemRefuses(Bare(Image(tag)), false) && ItemListed(Bare(Image(tag)));
    hide *;
    ReadIsOfTree(es, indent);
    ImageIsRead(es, k, tag);
    TagIsOf(AsRead(es), ImagesIn(Read(START, Print(es, indent)).state.mappings), k);
  }

  lemma TagIsOf(es: Entries, tags: map<Keys, string>, k: Keys)
    requires TagsOf(es, tags) && ImageKey(es, k)
    ensures k in tags && tags[k] == ImageTag(es, k)
  {
  }

  lemma ImageIsRead(es: Entries, k: Keys, tag: string)
    requires es == OneItem(Bare(Image(tag))) && k == ["images", TAG]
    ensures ImageKey(AsRead(es), k) && ImageTag(AsRead(es), k) == tag && !ImageKey(es, k)
  {
    OneItemAsRead(tag);
    var path, both := k[..1], Image(tag).entries;
    assert path == ["images"] && path[1..] == [];
    FieldsOfOne("images", Image(tag), path);
    FieldsOfOne("images", es.node, path);
    assert Texts(both.rest.rest) == map[] && Texts(both.rest) == map[TAG := tag];
    assert FieldsAt(both, []) == map["name" := BUILT_HERE, TAG := tag];
  }

  lemma OneItemAsRead(tag: string)
    ensures AsRead(OneItem(Bare(Image(tag)))) == Entry([], "images", Image(tag), End)
  {
    var both := Image(tag).entries;
    assert EntryAsRead(TAG, Plain(tag)) == both.rest && EntryAsRead("name", Plain(BUILT_HERE)) == both.(rest := End);
    AppendEnd(both.rest);
    assert Append(End, both.rest) == both.rest && Append(both.(rest := End), both.rest) == both;
    assert AsRead(End) == End && AsRead(both.rest) == both.rest && AsRead(both) == both;
    AppendEnd(both);
    assert Flat(AnItem([], Bare(Image(tag)), NoMore)) == both by {
      assert Flat(NoMore) == End;
    }
  }

  /** A block scalar that begins an item is not skipped but read as lines: with no tag of
      its own, the file is refused exactly if one of them reads as a tag. */
  lemma ItemScalarIsRead(text: seq<Line>, indent: nat, key: string)
    requires key != TAG && key != LIST
    ensures IndentedBelow(text, indent + 1) ==>
      (Read(START, Print(OneItem(Dashed(Block(text), 0, End)), indent)) == Refused <==> ReadsTag(text, None))
    ensures IndentedBelow(text, indent + 3) ==>
      (Read(START, Print(OneItem(Dashed(Keyed(key, Scalar(text)), 0, End)), indent)) == Refused <==> ReadsTag(text, None))
  {
    if IndentedBelow(text, indent + 1) {
      ItemIsRead(Block(text), indent, text);
    }
    if IndentedBelow(text, indent + 3) {
      ItemIsRead(Keyed(key, Scalar(text)), indent, text);
    }
  }

  lemma ItemIsRead(first: First, indent: nat, text: seq<Line>)
    requires WrittenFirst(first, indent + 1, indent + 3) && !IsTagItem(Dashed(first, 0, End))
    requires FirstRefuses(first) <==> ReadsTag(text, None)
    ensures Read(START, Print(OneItem(Dashed(first, 0, End)), indent)) == Refused <==> ReadsTag(text, None)
  {
    var item := Dashed(first, 0, End);
    assert Written(End, indent + 3) && !Refuses(End, true);
    assert WrittenItem(item, indent + 1);
    assert ItemRefuses(item, false) <==> ReadsTag(text, None);
    hide *;
    OneItemIsWritten(item, indent);
    ReadIsOfTree(OneItem(item), indent);
  }
}
