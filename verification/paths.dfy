/**
 Absolute paths built from the root by appending one component at a time:
 "/tmp/5f3a/signature.xml" is Child(Child(Child(Root, "tmp"), "5f3a"), "signature.xml").
 */
module Paths {

  datatype Path = Root | Child(parent: Path, name: string)

  /** `$dir . DIRECTORY_SEPARATOR . $name` for a name without separators. */
  function Join(dir: Path, name: string): Path
  {
    Child(dir, name)
  }

  /** PHP's `dirname`: the path without its last component; the root is its
      own parent. */
  function Dirname(p: Path): (d: Path)
    ensures p.Child? ==> Join(d, p.name) == p
    ensures p.Root? ==> d.Root?
  {
    if p.Root? then Root else p.parent
  }
}
