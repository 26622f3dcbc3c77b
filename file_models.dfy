/**
 * The row record of a listing (FileModel.kt) and the abstract directory tree that stands
 * in for java.io.File in this model.
 */
module FileModels {
  const MinLong: int := -0x8000_0000_0000_0000
  const MaxLong: int := 0x7FFF_FFFF_FFFF_FFFF

  /** Kotlin's 64-bit `Long`. */
  type Long = x: int | MinLong <= x <= MaxLong

  /**
   * One file-system object as java.io.File reports it: its name and path, whether it is a
   * directory, `length()` in bytes, and `listFiles()`.
   */
  datatype Node = Node(
    name: string,
    path: string,
    isDirectory: bool,
    length: Long,
    listing: Listing)

  /** What `listFiles()` returns: null for a plain file or an unreadable directory, else the children. */
  datatype Listing = Null | Files(children: seq<Node>)

  /**
   * A tree that java.io.File can report: `listFiles()` is null for everything that is not a
   * directory, at every level.
   */
  predicate WellFormed(n: Node)
    decreases n
  {
    match n.listing
    case Null => true
    case Files(children) =>
      n.isDirectory &&
      forall i :: 0 <= i < |children| ==> WellFormed(children[i])
  }

  /** FileModel without its creation date: one row of a directory listing. */
  datatype FileModel = FileModel(
    name: string,
    path: string,
    child: int,
    isDirectory: bool,
    size: Long)
}
