/**
 * The shape of a bookmarks file after it has been decoded (the `file` module
 * of src/main.rs). A TOML table becomes an ordered sequence of (key, value)
 * pairs: the order is the order of the keys in the file.
 */
module BookmarkFile {
  import opened Wrappers

  /** A value of the file: a leaf (it has a `url`) or a nested table (a group). */
  datatype BookmarkItem =
    | Item(title: Option<string>, url: string, keywords: seq<string>)
    | Group(title: Option<string>, items: seq<Entry>)

  /** One key of a table with its value. */
  datatype Entry = Entry(key: string, value: BookmarkItem)

  /** The whole decoded file: the top-level table. */
  datatype BookmarksFile = BookmarksFile(entries: seq<Entry>)

  /** Number of leaves and groups in an ordered table, nested tables included. */
  function MapSize(entries: seq<Entry>): nat
  {
    if entries == [] then 0
    else
      1 + (match entries[0].value
           case Group(_, items) => MapSize(items)
           case Item(_, _, _) => 0)
        + MapSize(entries[1..])
  }

  /** Number of nodes in the subtree of one value, the value itself included. */
  function ItemSize(item: BookmarkItem): (n: nat)
    ensures n >= 1
  {
    match item
    case Group(_, items) => 1 + MapSize(items)
    case Item(_, _, _) => 1
  }

  /** The subtree of any entry of a table is part of the table's node count. */
  lemma {:induction false} EntryWithinMap(entries: seq<Entry>, i: nat)
    requires i < |entries|
    ensures ItemSize(entries[i].value) <= MapSize(entries)
    decreases i
  {
    if i > 0 {
      EntryWithinMap(entries[1..], i - 1);
      assert entries[1..][i - 1] == entries[i];
    }
  }
}
