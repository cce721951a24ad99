/** The image tags a values file sets, read by its indentation (scripts/change_namespace.py). */
module ImageTags {
  import opened Options

  datatype Value = Nothing | BlockScalar | Text(text: string)

  /** A line of a values file as the reader sees it: blank, a comment, a list item and
      whether its first key is `tag`, a key with its value, or none of these. */
  datatype Line =
    | Blank
    | Comment(indent: nat)
    | Item(indent: nat, isTag: bool)
    | Pair(indent: nat, key: string, value: Value)
    | Unread(indent: nat)

  type Keys = seq<string>
  type Path = seq<(nat, string)>
  type Fields = map<string, string>
  type Mappings = map<Keys, Fields>

  const LIST := "[]"
  const TAG := "tag"
  const BUILT_HERE := "arkhai"

  /** Where the reader is: the keys above the line, each with its indent, the block scalar
      it is in, and the fields read of each mapping. */
  datatype State = State(path: Path, scalar: Option<nat>, mappings: Mappings)

  datatype Reading = Running(state: State) | Refused

  function NamesOf(path: Path): (keys: Keys)
    ensures |keys| == |path| && forall k :: 0 <= k < |keys| ==> keys[k] == path[k].1
  {
    seq(|path|, k requires 0 <= k < |path| => path[k].1)
  }

  function PopTo(path: Path, indent: nat): (popped: Path)
    ensures popped <= path && (popped != [] ==> popped[|popped| - 1].0 < indent)
  {
    if path != [] && path[|path| - 1].0 >= indent then PopTo(path[..|path| - 1], indent) else path
  }

  function Lookup(mappings: Mappings, keys: Keys): Fields {
    if keys in mappings then mappings[keys] else map[]
  }

  function Set(mappings: Mappings, keys: Keys, key: string, text: string): Mappings {
    mappings[keys := Lookup(mappings, keys)[key := text]]
  }

  /** Whether a block scalar swallows the line. */
  predicate InScalar(scalar: Option<nat>, line: Line) {
    scalar.Some? && (line.Blank? || line.indent > scalar.value)
  }

  function Step(st: State, line: Line): Reading {
    if InScalar(st.scalar, line) then Running(st)
    else
      match line
      case Blank => Running(st)
      case Comment(_) => Running(st.(scalar := None))
      case Unread(indent) => Running(State(PopTo(st.path, indent), None, st.mappings))
      case Item(indent, isTag) =>
        if isTag then Refused
        else Running(State(PopTo(st.path, indent) + [(indent, LIST)], None, st.mappings))
      case Pair(indent, key, value) =>
        var path := PopTo(st.path, indent);
        match value
        case BlockScalar => Running(State(path, Some(indent), st.mappings))
        case Nothing => Running(State(path + [(indent, key)], None, st.mappings))
        case Text(text) =>
          if key == TAG && LIST in NamesOf(path) then Refused
          else Running(State(path, None, Set(st.mappings, NamesOf(path), key, text)))
  }

  function Read(st: State, lines: seq<Line>): Reading
    decreases |lines|
  {
    if lines == [] then Running(st)
    else
      var next := Step(st, lines[0]);
      if next.Refused? then Refused else Read(next.state, lines[1..])
  }

  predicate IsImage(fields: Fields) {
    TAG in fields && "name" in fields && fields["name"] == BUILT_HERE
  }

  predicate NamesImage(mappings: Mappings, k: Keys) {
    k != [] && k[|k| - 1] == TAG && IsImage(Lookup(mappings, k[..|k| - 1]))
  }

  function ImagesIn(mappings: Mappings): (tags: map<Keys, string>)
    ensures forall k :: k in tags <==> NamesImage(mappings, k)
    ensures forall k :: k in tags ==> NamesImage(mappings, k) && tags[k] == TagAt(mappings, k)
  {
    var images := set keys | keys in mappings && IsImage(mappings[keys]) :: keys + [TAG];
    assert forall keys: Keys :: (keys + [TAG])[..|keys|] == keys;
    assert forall k: Keys :: NamesImage(mappings, k) ==> k == k[..|k| - 1] + [TAG] && k[..|k| - 1] in mappings;
    map k | k in images :: TagAt(mappings, k)
  }

  function TagAt(mappings: Mappings, k: Keys): string
    requires NamesImage(mappings, k)
  {
    Lookup(mappings, k[..|k| - 1])[TAG]
  }

  const START := State([], None, map[])

  /** The tag of every image built here, by its path of keys; None when one is refused. */
  method Tags(lines: seq<Line>) returns (tags: Option<map<Keys, string>>)
    ensures tags == match Read(START, lines) case Refused => None case Running(st) => Some(ImagesIn(st.mappings))
  {
    var mappings: Mappings := map[];
    var path: Path := [];
    var scalar: Option<nat> := None;
    for i := 0 to |lines|
      invariant Read(START, lines) == Read(State(path, scalar, mappings), lines[i..])
    {
      var line := lines[i];
      if line.Blank? {
        continue;
      }
      if scalar.Some? {
        if line.indent > scalar.value {
          continue;
        }
        scalar := None;
      }
      if line.Comment? {
        continue;
      }
      ghost var before := path;
      while path != [] && path[|path| - 1].0 >= line.indent
        invariant PopTo(path, line.indent) == PopTo(before, line.indent)
      {
        path := path[..|path| - 1];
      }
      match line {
        case Item(indent, isTag) =>
          path := path + [(indent, LIST)];
          if isTag {
            return None;
          }
        case Unread(_) =>
        case Pair(indent, key, value) =>
          var keys := NamesOf(path);
          match value {
            case BlockScalar => scalar := Some(indent);
            case Nothing => path := path + [(indent, key)];
            case Text(text) =>
              if key == TAG && LIST in keys {
                return None;
              }
              mappings := Set(mappings, keys, key, text);
          }
      }
    }
    return Some(ImagesIn(mappings));
  }
}
