/**
  The pattern tree of docopt: leaves and five kinds of branches.
 */
module DocoptPatterns {

  datatype Value = NoValue | Flag(on: bool) | Count(n: int) | Text(text: string) | Many(items: seq<string>)

  /** Argument, Command and Option.  An option's name is its long form if it has one; the
      arguments of a parsed command line have no name, written "" here. */
  datatype Leaf =
    | Argument(name: string, value: Value)
    | Command(name: string, value: Value)
    | Option(name: string, argcount: nat, value: Value)

  /** A leaf of a tree: options have a short or a long form. */
  type TreeLeaf = x: Leaf | x.Option? ==> x.name != "" witness Argument("", NoValue)

  datatype Kind = Required | Optional | OptionsShortcut | Either | OneOrMore

  datatype Pattern = Tip(leaf: TreeLeaf) | Branch(kind: Kind, children: seq<Pattern>)
}
