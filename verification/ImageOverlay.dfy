/** The overlay that gives each image built here the change's tag (scripts/change_namespace.py). */
module ImageOverlay {
  import opened Options
  import opened ImageTags
  import ValuesTree
  import ValuesLists

  /** A value of the overlay: a text, or a mapping. */
  datatype Json = Leaf(text: string) | Dict(entries: map<string, Json>)

  /** The text at a path of keys, if that is where a text is. */
  function LeafAt(node: Json, keys: Keys): Option<string>
    decreases |keys|
  {
    match node
    case Leaf(text) => if keys == [] then Some(text) else None
    case Dict(entries) =>
      if keys == [] || keys[0] !in entries then None else LeafAt(entries[keys[0]], keys[1..])
  }

  /** `node` with `text` put at a path, mappings made on the way; None where a text is in
      the way, into which `image_overlay` cannot put a key. */
  function Put(node: Json, keys: Keys, text: string): Option<Json>
    requires keys != []
    decreases |keys|
  {
    match node
    case Leaf(_) => None
    case Dict(entries) =>
      if |keys| == 1 then Some(Dict(entries[keys[0] := Leaf(text)]))
      else
        var child := Put(if keys[0] in entries then entries[keys[0]] else Dict(map[]), keys[1..], text);
        if child.None? then None else Some(Dict(entries[keys[0] := child.value]))
  }

  predicate Within(a: Keys, b: Keys) {
    a <= b || b <= a
  }

  /** No text is on the way to `keys`, or beyond it. */
  ghost predicate Clear(node: Json, keys: Keys) {
    forall k: Keys :: LeafAt(node, k).Some? ==> k == keys || !Within(k, keys)
  }

  lemma {:induction false} PutPuts(node: Json, keys: Keys, text: string)
    requires keys != [] && Clear(node, keys)
    ensures Put(node, keys, text).Some?
    ensures forall k: Keys :: LeafAt(Put(node, keys, text).value, k) == if k == keys then Some(text) else LeafAt(node, k)
    decreases |keys|
  {
    assert node.Leaf? ==> LeafAt(node, []).Some? && Within([], keys);
    var entries := node.entries;
    var child := if keys[0] in entries then entries[keys[0]] else Dict(map[]);
    if |keys| > 1 {
      forall k: Keys | LeafAt(child, k).Some?
        ensures k == keys[1..] || !Within(k, keys[1..])
      {
        var longer := [keys[0]] + k;
        assert longer[1..] == k && LeafAt(node, longer) == LeafAt(child, k);
        assert keys == [keys[0]] + keys[1..];
        assert Within(k, keys[1..]) ==> Within(longer, keys);
      }
      PutPuts(child, keys[1..], text);
    }
    forall k: Keys
      ensures LeafAt(Put(node, keys, text).value, k) == if k == keys then Some(text) else LeafAt(node, k)
    {
      if k != [] && k[0] == keys[0] {
        assert k == [k[0]] + k[1..] && keys == [keys[0]] + keys[1..];
        if |keys| == 1 {
          assert k != keys ==> keys <= k;
        }
      }
    }
  }

  /** No path of `tags` is on the way to another. */
  ghost predicate Apart(tags: map<Keys, string>) {
    forall a, b :: a in tags && b in tags && Within(a, b) ==> a == b
  }

  /** The overlay holds, at exactly the paths of `tags`, each tag with the suffix. */
  ghost predicate Overlays(node: Json, tags: map<Keys, string>, suffix: string) {
    forall k: Keys :: LeafAt(node, k) == if k in tags then Some(tags[k] + suffix) else None
  }

  lemma {:induction false} LeavesApart(node: Json, a: Keys, b: Keys)
    requires LeafAt(node, a).Some? && LeafAt(node, b).Some? && a <= b
    ensures a == b
    decreases |a|
  {
    if a != [] {
      assert a[1..] <= b[1..] && a == [a[0]] + a[1..] && b == [b[0]] + b[1..];
      LeavesApart(node.entries[a[0]], a[1..], b[1..]);
    }
  }

  /** No overlay could hold one tag on the way to another. */
  lemma OnlyApart(node: Json, tags: map<Keys, string>, suffix: string)
    requires Overlays(node, tags, suffix)
    ensures Apart(tags)
  {
    forall a, b | a in tags && b in tags && Within(a, b)
      ensures a == b
    {
      if a <= b {
        LeavesApart(node, a, b);
      } else {
        LeavesApart(node, b, a);
      }
    }
  }

  /** The overlay of some tags, put one at a time in any order. */
  method Overlay(tags: map<Keys, string>, suffix: string) returns (overlay: Option<Json>)
    requires [] !in tags
    ensures Apart(tags) <==> overlay.Some? && Overlays(overlay.value, tags, suffix)
  {
    var node := Dict(map[]);
    var left := tags.Keys;
    ghost var done: map<Keys, string> := map[];
    while left != {}
      invariant left <= tags.Keys && done == map k | k in tags && k !in left :: tags[k]
      invariant Apart(tags) ==> Overlays(node, done, suffix)
    {
      var keys :| keys in left;
      left := left - {keys};
      var next := Put(node, keys, tags[keys] + suffix);
      if Apart(tags) {
        assert Clear(node, keys);
        PutPuts(node, keys, tags[keys] + suffix);
      }
      if next.None? {
        return None;
      }
      node := next.value;
      done := done[keys := tags[keys]];
    }
    assert done == tags;
    if Overlays(node, tags, suffix) {
      OnlyApart(node, tags, suffix);
    }
    return Some(node);
  }

  /** The overlay's texts are exactly the tags of the tree's images, each with the
      suffix. */
  ghost predicate OverlaysTree(node: Json, es: ValuesTree.Entries, suffix: string) {
    forall k: Keys ::
      LeafAt(node, k) == if ValuesTree.ImageKey(es, k) then Some(ValuesTree.ImageTag(es, k) + suffix) else None
  }

  /** A file of which no mapping repeats a key, with no tag in a list, nor a text that
      reads as one, and no dash alone on its line but inside a list. */
  ghost predicate WellFormed(es: ValuesTree.Entries, indent: nat) {
    && ValuesTree.Written(es, indent) && ValuesTree.Unique(es)
    && !ValuesTree.TagListed(es, false) && !ValuesLists.TextReads(es) && !ValuesLists.LoneDash(es)
  }

  /** The overlay of a values file; None where a tag is refused or in another's way. */
  method ImageOverlay(lines: seq<Line>, suffix: string) returns (overlay: Option<Json>)
    ensures forall es, indent: nat :: lines == ValuesTree.Print(es, indent) && WellFormed(es, indent) ==>
      overlay.Some? && OverlaysTree(overlay.value, es, suffix)
  {
    var tags := Tags(lines);
    forall es, indent: nat | lines == ValuesTree.Print(es, indent) && WellFormed(es, indent)
      ensures tags.Some? && ValuesTree.TagsOf(es, tags.value) && Apart(tags.value)
    {
      hide ValuesTree.Print, ValuesTree.Written, ValuesTree.TagListed, ValuesLists.TextReads, ValuesLists.LoneDash;
      ValuesLists.ListedTagsAreRefused(es, indent);
      TreeTagsApart(es, tags.value);
    }
    if tags.None? {
      return None;
    }
    hide *;
    overlay := Overlay(tags.value, suffix);
    forall es, indent: nat | lines == ValuesTree.Print(es, indent) && WellFormed(es, indent)
      ensures overlay.Some? && OverlaysTree(overlay.value, es, suffix)
    {
      OverlaysOfTags(overlay.value, tags.value, es, suffix);
    }
  }

  lemma TreeTagsApart(es: ValuesTree.Entries, tags: map<Keys, string>)
    requires ValuesTree.TagsOf(es, tags) && ValuesTree.Unique(es)
    ensures Apart(tags)
  {
    forall a, b | a in tags && b in tags && Within(a, b)
      ensures a == b
    {
      if a <= b {
        ValuesTree.ImagesApart(es, a, b);
      } else {
        ValuesTree.ImagesApart(es, b, a);
      }
    }
  }

  lemma OverlaysOfTags(node: Json, tags: map<Keys, string>, es: ValuesTree.Entries, suffix: string)
    requires Overlays(node, tags, suffix) && ValuesTree.TagsOf(es, tags)
    ensures OverlaysTree(node, es, suffix)
  {
  }
}
