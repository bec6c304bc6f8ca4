// Host values as stream chunks and configuration documents hold them.
module ObjectTree {
  import opened Common

  /** A host value: both dictionaries and lists carry own properties; a list has its indices and `length` among them. */
  datatype Tree =
    | Null
    | Bool(b: bool)
    | Num(n: real)
    | Str(s: string)
    | List(own: Fields)
    | Dict(own: Fields)

  type Fields = map<string, Tree>

  predicate Holder(t: Tree) { t.List? || t.Dict? }

  /** The value at a path of own properties. */
  function At(t: Tree, path: seq<string>): Option<Tree>
    decreases |path|
  {
    if path == [] then Some(t)
    else if Holder(t) && path[0] in t.own then At(t.own[path[0]], path[1..])
    else None
  }
}
