/** The configuration of each kind of spec node, as fixed at construction. */
module Nodes {
  import opened Wrappers
  import Template

  /** Which external-file loader a file node uses (`JSON`, `YAML`, `Mat`). */
  datatype Loader = Json | Yaml | Mat(simplified: bool)

  /** One step of a field path: a string key or an integer index. */
  datatype Item = Key(name: string) | Index(i: int)

  /** The `field` argument of a file node: one item, or a tuple/list of items. */
  datatype FieldPath = Single(item: Item) | Steps(items: seq<Item>)

  /** One spec node. `PathNode`/`PathsNode`: metadata embedded in path names;
      `GlobNode`: a path found from previously known metadata; `FileNode`: a
      field of an external JSON, YAML or MAT file. */
  datatype Node =
    | PathNode(format: string)
    | PathsNode(format: string)
    | GlobNode(key: string, format: string, onlyDirs: bool)
    | FileNode(loader: Loader, path: string, key: string, field: FieldPath, cache: bool)

  /** Some group of the template is a named field. */
  ghost predicate HasNamedField(format: string) {
    Template.HasNamedGroup(Template.Segments(format))
  }

  /** What construction guarantees of a node. */
  ghost predicate Valid(n: Node) {
    (n.PathNode? || n.PathsNode?) ==> HasNamedField(n.format)
  }

  /** `Path(format)` or, when `multi`, `Paths(format)`: a template without any
      named field is rejected with `ValueError`. */
  function MakePathNode(format: string, multi: bool): (r: Result<Node>)
    ensures r.Ok? <==> HasNamedField(format)
    ensures r.Ok? ==> r.value == (if multi then PathsNode(format) else PathNode(format)) && Valid(r.value)
    ensures r.Err? ==> r.error.ValueError?
  {
    Template.NamedFieldsNonEmpty(format);
    if |Template.NamedFields(format)| == 0 then Err(ValueError("format string must use named fields"))
    else if multi then Ok(PathsNode(format))
    else Ok(PathNode(format))
  }
}
