/**
 * The in-memory bookmark tree and its construction from the decoded file
 * (`impl From<file::BookmarksFile> for Bookmarks` in src/main.rs).
 */
module Bookmarks {
  import opened Wrappers
  import F = BookmarkFile

  /** A node of the tree (`BookmarkGroupItem`): a leaf bookmark or a group of nodes. */
  datatype Node =
    | Item(title: string, url: string, keywords: seq<string>)
    | Group(title: string, children: seq<Node>)

  /** The root: the top-level nodes, in file order. */
  datatype Bookmarks = Bookmarks(items: seq<Node>)

  /** Number of nodes in a forest, every nested group's nodes included. */
  function Count(nodes: seq<Node>): nat
  {
    if nodes == [] then 0
    else 1 + (if nodes[0].Group? then Count(nodes[0].children) else 0) + Count(nodes[1..])
  }

  lemma {:induction false} CountAppend(a: seq<Node>, b: seq<Node>)
    ensures Count(a + b) == Count(a) + Count(b)
  {
    if a == [] {
      assert a + b == b;
    } else {
      assert (a + b)[0] == a[0];
      assert (a + b)[1..] == a[1..] + b;
      CountAppend(a[1..], b);
    }
  }

  /** `from_item`: converts one file value, found under `key`, into a node. */
  function FromItem(key: string, item: F.BookmarkItem): (n: Node)
    decreases F.ItemSize(item), 0
    ensures n.Item? <==> item.Item?
    ensures item.title.Some? ==> n.title == item.title.value
    ensures item.title.None? ==> n.title == key
    ensures item.Item? ==> n.url == item.url && n.keywords == item.keywords
    ensures item.Group? ==> n.children == FromMap(item.items)
  {
    match item
    case Item(title, url, keywords) => Item(title.UnwrapOr(key), url, keywords)
    case Group(title, items) => Group(title.UnwrapOr(key), FromMap(items))
  }

  /** `from_map`: converts an ordered table into the sequence of its nodes. */
  function FromMap(entries: seq<F.Entry>): (nodes: seq<Node>)
    decreases F.MapSize(entries), 1
    ensures |nodes| == |entries|
  {
    if entries == [] then []
    else
      F.EntryWithinMap(entries, 0);
      [FromItem(entries[0].key, entries[0].value)] + FromMap(entries[1..])
  }

  /** The i-th node of a converted table is the conversion of the table's i-th entry. */
  lemma {:induction false} FromMapEntries(entries: seq<F.Entry>)
    ensures forall i :: 0 <= i < |entries| ==> FromMap(entries)[i] == FromItem(entries[i].key, entries[i].value)
  {
    if entries != [] {
      FromMapEntries(entries[1..]);
      forall i | 1 <= i < |entries|
        ensures FromMap(entries)[i] == FromItem(entries[i].key, entries[i].value)
      {
        assert FromMap(entries)[i] == FromMap(entries[1..])[i - 1];
        assert entries[1..][i - 1] == entries[i];
      }
    }
  }

  /** Conversion neither adds nor drops a node anywhere in the tree. */
  lemma {:induction false} CountFromMap(entries: seq<F.Entry>)
    ensures Count(FromMap(entries)) == F.MapSize(entries)
    decreases F.MapSize(entries)
  {
    if entries != [] {
      var nodes := FromMap(entries);
      assert nodes[1..] == FromMap(entries[1..]);
      CountFromMap(entries[1..]);
      match entries[0].value
      case Item(_, _, _) =>
      case Group(_, items) =>
        CountFromMap(items);
    }
  }

  /** `Bookmarks::from`: the root holds the converted top-level entries, one per entry, in order. */
  function FromFile(file: F.BookmarksFile): (b: Bookmarks)
    ensures |b.items| == |file.entries|
    ensures forall i :: 0 <= i < |file.entries| ==> b.items[i] == FromItem(file.entries[i].key, file.entries[i].value)
    ensures Count(b.items) == F.MapSize(file.entries)
  {
    CountFromMap(file.entries);
    FromMapEntries(file.entries);
    Bookmarks(FromMap(file.entries))
  }

  /** `from_item` as the source runs it: a group's children are pushed one by one. */
  method ConvertItem(key: string, item: F.BookmarkItem) returns (n: Node)
    decreases F.ItemSize(item)
    ensures n == FromItem(key, item)
  {
    match item
    case Item(title, url, keywords) =>
      n := Item(title.UnwrapOr(key), url, keywords);
    case Group(title, items) =>
      var children: seq<Node> := [];
      for i := 0 to |items|
        invariant |children| == i
        invariant forall j :: 0 <= j < i ==> children[j] == FromItem(items[j].key, items[j].value)
      {
        F.EntryWithinMap(items, i);
        var child := ConvertItem(items[i].key, items[i].value);
        children := children + [child];
      }
      FromMapEntries(items);
      n := Group(title.UnwrapOr(key), children);
  }

  /** `Bookmarks::from` as the source runs it: `from_map` over the top-level table. */
  method ConvertFile(file: F.BookmarksFile) returns (b: Bookmarks)
    ensures b == FromFile(file)
  {
    var entries := file.entries;
    var children: seq<Node> := [];
    for i := 0 to |entries|
      invariant |children| == i
      invariant forall j :: 0 <= j < i ==> children[j] == FromItem(entries[j].key, entries[j].value)
    {
      var child := ConvertItem(entries[i].key, entries[i].value);
      children := children + [child];
    }
    FromMapEntries(entries);
    b := Bookmarks(children);
  }
}
