/**
 * The decisions FileAdapter makes for each row of a listing: the shortened name, the detail
 * text (item count or formatted size), and where a tap on the row leads.
 */
module FileAdapter {
  import opened Wrappers
  import opened FileModels
  import StorageUtility

  // ---------------------------------------------------------------- names

  /**
   * ellipsizeMiddle: a name longer than maxLength keeps its first and last maxLength / 2
   * characters around "...". The adapter only ever calls it with the default of 40.
   */
  function EllipsizeMiddle(text: string, maxLength: int := 40): (r: string)
    requires maxLength >= 0
    ensures |text| <= maxLength ==> r == text
    ensures |text| > maxLength ==> |r| == 2 * (maxLength / 2) + 3 > maxLength
  {
    if |text| <= maxLength then text
    else
      var keepLength := maxLength / 2;
      text[..keepLength] + "..." + text[|text| - keepLength..]
  }

  /** A shortened name starts with a prefix of the name, ends with a suffix of it, and has "..." between. */
  lemma EllipsizedKeepsEnds(text: string, maxLength: int)
    requires maxLength >= 0 && |text| > maxLength
    ensures var r, keep := EllipsizeMiddle(text, maxLength), maxLength / 2;
      && r[..keep] == text[..keep]
      && r[keep..keep + 3] == "..."
      && r[|r| - keep..] == text[|text| - keep..]
  {
  }

  /** Shortening a name twice gives the same text as shortening it once. */
  lemma EllipsizeMiddleIdempotent(text: string, maxLength: int)
    requires maxLength >= 0
    ensures EllipsizeMiddle(EllipsizeMiddle(text, maxLength), maxLength) == EllipsizeMiddle(text, maxLength)
  {
    if |text| > maxLength {
      var r := EllipsizeMiddle(text, maxLength);
      var keep := maxLength / 2;
      EllipsizedKeepsEnds(text, maxLength);
      calc {
        EllipsizeMiddle(r, maxLength);
        r[..keep] + "..." + r[|r| - keep..];
        text[..keep] + "..." + text[|text| - keep..];
        r;
      }
    }
  }

  lemma EllipsizeMiddleExamples()
    ensures EllipsizeMiddle("notes.txt") == "notes.txt"
    ensures |EllipsizeMiddle(seq(41, i => 'a'))| == 43
  {
  }

  // ---------------------------------------------------------------- taps

  /** The callback a tap on a row runs, with its argument. */
  datatype TapAction =
    | NavigateNotFound(title: string)
    | NavigateDown(path: string)
    | OpenFile(path: string)

  /** The click listener set in bind. */
  function OnTap(file: FileModel): (a: TapAction)
    ensures a.NavigateNotFound? <==> file.isDirectory && file.child == 0
    ensures a.NavigateDown? <==> file.isDirectory && file.child != 0
    ensures a.OpenFile? <==> !file.isDirectory
    ensures a.NavigateNotFound? ==> a.title == file.name
    ensures !a.NavigateNotFound? ==> a.path == file.path
  {
    if file.isDirectory then
      if file.child == 0 then NavigateNotFound(file.name)
      else NavigateDown(file.path)
    else OpenFile(file.path)
  }

  // ---------------------------------------------------------------- row contents

  /** The second line of a row: a directory's item count or a file's formatted size. */
  datatype Detail = ItemCount(count: int) | ItemSize(size: StorageUtility.Conversion)

  /** What bind puts on screen for a row, and what its click listener does. */
  datatype Row = Row(title: string, detail: Detail, tap: TapAction)

  function Bind(file: FileModel): Row
  {
    Row(
      EllipsizeMiddle(file.name),
      if file.isDirectory then ItemCount(file.child)
      else ItemSize(StorageUtility.FileSizeConversion(file.size)),
      OnTap(file))
  }

  /** The adapter over a listing; the list is never changed after construction. */
  datatype Adapter = Adapter(files: seq<FileModel>) {

    function GetItemCount(): nat
    {
      |files|
    }

    /** onBindViewHolder: the row at `position` is bound to the file at that position. */
    function OnBindViewHolder(position: nat): Row
      requires position < GetItemCount()
    {
      Bind(files[position])
    }
  }

  // ---------------------------------------------------------------- listing and adapter together

  /**
   * For the adapter built over showFiles' listing of `root`: it has one row per child, and a
   * tap on row i is decided by child i alone. An unreadable or empty directory leads to the
   * not-found screen under its name; a readable non-empty one is descended into, and
   * listing it then succeeds with at least one row; a file is opened.
   */
  lemma TapOnListedChild(root: Node, i: nat)
    requires root.listing.Files? && i < |root.listing.children|
    ensures var adapter := Adapter(StorageUtility.ShowFiles(root).value);
      var c := root.listing.children[i];
      var tap := adapter.OnBindViewHolder(i).tap;
      && adapter.GetItemCount() == |root.listing.children|
      && (tap == NavigateNotFound(c.name) <==> c.isDirectory && (c.listing.Null? || c.listing.children == []))
      && (tap == NavigateDown(c.path) <==> c.isDirectory && c.listing.Files? && c.listing.children != [])
      && (tap == OpenFile(c.path) <==> !c.isDirectory)
      && (tap.NavigateDown? ==> StorageUtility.ShowFiles(c).Success? && StorageUtility.ShowFiles(c).value != [])
  {
    var adapter := Adapter(StorageUtility.ShowFiles(root).value);
    var c := root.listing.children[i];
    assert adapter.files[i].child == StorageUtility.ChildCount(c);
  }

  /** A file row whose size is within the unit table shows a value in [1, 1024) for a positive size. */
  lemma FileRowShowsScaledSize(file: FileModel)
    requires !file.isDirectory && 0 < file.size < StorageUtility.Pow1024(5)
    ensures var d := Bind(file).detail;
      d.ItemSize? && d.size.Converted? && 1.0 <= d.size.value < 1024.0
  {
    var k := StorageUtility.DigitGroups(file.size);
    StorageUtility.DigitGroupsIsLargest(file.size, 5);
    StorageUtility.FileSizeConversionInRange(file.size, k);
  }

  /**
   * The example of a root holding a directory `docs` with two entries and a 2048-byte file
   * `a.txt`: two rows, `docs` descends into its path and `a.txt` is opened.
   */
  lemma TwoEntryExample(docsChildren: seq<Node>)
    requires |docsChildren| == 2
    ensures var docs := Node("docs", "/root/docs", true, 4096, Files(docsChildren));
      var file := Node("a.txt", "/root/a.txt", false, 2048, Null);
      var adapter := Adapter(StorageUtility.ShowFiles(Node("root", "/root", true, 4096, Files([docs, file]))).value);
      && adapter.GetItemCount() == 2
      && adapter.OnBindViewHolder(0) == Row("docs", ItemCount(2), NavigateDown("/root/docs"))
      && adapter.OnBindViewHolder(1) == Row("a.txt", ItemSize(StorageUtility.Converted(2.0, "KB")), OpenFile("/root/a.txt"))
  {
    StorageUtility.FileSizeConversionInRange(2048, 1);
  }
}
