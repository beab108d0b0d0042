/**
 * What one run of the program does (`main` in src/main.rs), given how
 * loading the bookmarks went, the command-line arguments and whether opening
 * a URL failed. Each run is independent: where the user is in the menu is
 * carried only by the selector argument.
 */
module Cli {
  import opened Wrappers
  import F = BookmarkFile
  import opened Bookmarks
  import Menu
  import opened Resolver

  /** The result of reading `ROFI_BOOKMARKS_PATH`, reading that file and decoding it as TOML. */
  datatype Load =
    | PathUnset
    | ReadFailed(path: string)
    | DecodeFailed(path: string)
    | Decoded(path: string, file: F.BookmarksFile)

  /** What a run leaves behind: both output streams, the URL handed to the opener, the exit code. */
  datatype Effects = Effects(stdout: string, stderr: string, openedUrl: Option<string>, exitCode: int)

  function PathUnsetMessage(): string
  {
    "Environment variable 'ROFI_BOOKMARKS_PATH' not set.\n"
  }

  function ReadFailedMessage(path: string): string
  {
    "Failed to read bookmarks file at " + path + ".\n"
  }

  function NotFoundMessage(selector: string): string
  {
    "Selector '" + selector + "' not found!\n"
  }

  function OpenFailedMessage(reason: string): string
  {
    "Failed to open url. Reason: " + reason + "\n"
  }

  /**
   * `main`. `args` are the arguments after the program name; only the first
   * is read. `openError` is what opening a URL reports, if it fails.
   */
  method Run(load: Load, args: seq<string>, openError: Option<string>) returns (effects: Effects)
    ensures load.PathUnset? ==> effects == Effects("", PathUnsetMessage(), None, 1)
    ensures load.ReadFailed? || load.DecodeFailed? ==> effects == Effects("", ReadFailedMessage(load.path), None, 1)
    ensures load.Decoded? && args == [] ==>
              effects == Effects(Menu.Output(Menu.None, FromFile(load.file).items), "", None, 0)
    ensures load.Decoded? && args != [] ==>
              match Resolution(FromFile(load.file).items, args[0])
              case OpenUrl(url) =>
                effects == Effects("", if openError.Some? then OpenFailedMessage(openError.value) else "", Some(url), 0)
              case ShowGroup(title, children) =>
                effects == Effects(Menu.Output(Menu.Title(title), children), "", None, 0)
              case NotFound =>
                effects == Effects("", NotFoundMessage(args[0]), None, 1)
  {
    match load
    case PathUnset =>
      return Effects("", PathUnsetMessage(), None, 1);
    case ReadFailed(path) =>
      return Effects("", ReadFailedMessage(path), None, 1);
    case DecodeFailed(path) =>
      return Effects("", ReadFailedMessage(path), None, 1);
    case Decoded(_, file) =>
      var bookmarks := ConvertFile(file);
      if args == [] {
        var stdout := Menu.PrintItems(Menu.None, bookmarks.items);
        return Effects(stdout, "", None, 0);
      }
      var selector := args[0];
      var outcome, _ := Resolve(bookmarks.items, selector);
      assert outcome == Resolution(bookmarks.items, selector);
      match outcome
      case OpenUrl(url) =>
        var stderr := if openError.Some? then OpenFailedMessage(openError.value) else "";
        effects := Effects("", stderr, Some(url), 0);
      case ShowGroup(title, children) =>
        var stdout := Menu.PrintItems(Menu.Title(title), children);
        effects := Effects(stdout, "", None, 0);
      case NotFound =>
        effects := Effects("", NotFoundMessage(selector), None, 1);
  }

  /**
   * Listing without a selector: one row per top-level key of the file, in
   * file order, each showing the entry's `title` or else its key.
   */
  lemma {:induction false} TopLevelListing(file: F.BookmarksFile)
    requires forall i :: 0 <= i < |file.entries| ==> Menu.Listable(FromFile(file).items[i])
    ensures var lines := Menu.Split(Menu.Output(Menu.None, FromFile(file).items), '\n');
            |lines| == |file.entries| &&
            forall i :: 0 <= i < |file.entries| ==>
              Menu.DisplayText(lines[i]) == file.entries[i].value.title.UnwrapOr(file.entries[i].key)
  {
    var items := FromFile(file).items;
    Menu.OneLinePerItem(Menu.None, items);
    Menu.HeaderComesFirst("", items);
    forall i | 0 <= i < |items|
      ensures Menu.DisplayText(Menu.Split(Menu.Output(Menu.None, items), '\n')[i]) == items[i].title
    {
      Menu.DisplayedTitle(items[i]);
    }
  }

  /**
   * Navigation needs no state: whatever row of a listing the user picks, the
   * text the launcher hands back as the next run's selector resolves to a
   * node bearing that title, never to `NotFound`. This holds for the
   * top-level listing and for every group listing a selector produced.
   */
  lemma {:induction false} PickedRowResolves(items: seq<Node>, listed: seq<Node>, i: nat)
    requires i < |listed| && Menu.Listable(listed[i])
    requires listed == items || exists s :: Resolution(items, s) == ShowGroup(s, listed)
    ensures Resolution(items, Menu.DisplayText(Menu.Line(listed[i]))) == Resolution(items, listed[i].title)
    ensures Resolution(items, Menu.DisplayText(Menu.Line(listed[i]))) != NotFound
  {
    Menu.DisplayedTitle(listed[i]);
    if listed == items {
      TopLevelInPreOrder(items);
    } else {
      var s :| Resolution(items, s) == ShowGroup(s, listed);
      var k :| 0 <= k < |PreOrder(items)| && PreOrder(items)[k] == Group(s, listed);
      ChildrenInPreOrder(items, Group(s, listed));
    }
    assert listed[i] in PreOrder(items);
  }

  /**
   * The selector is only a title, so a picked row resolves to the first node
   * in pre-order bearing that title, which need not be the row's own node:
   * the bookmark `x` listed under group `b` opens the url of the `x` under
   * the earlier group `a`.
   */
  lemma {:induction false} PickedRowMayResolveElsewhere()
    ensures var items := [Group("a", [Item("x", "https://one.example", [])]),
                          Group("b", [Item("x", "https://two.example", [])])];
            Resolution(items, "b") == ShowGroup("b", [Item("x", "https://two.example", [])]) &&
            Resolution(items, "x") == OpenUrl("https://one.example")
  {
  }
}
