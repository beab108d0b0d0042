# rofi-bookmarks in Dafny

A model of rofi-bookmarks, a script-mode data source for the rofi launcher.
The program reads a TOML file of bookmarks nested in groups. Run without an
argument, it lists the top-level bookmarks and groups in rofi's row format.
Run with the title of a previously listed row, it searches the whole tree for
that title. A bookmark opens its URL. A group lists its own children, under
the group's title. Where the user is in the menu is carried only by that one
argument, so each run is independent.

The model follows `src/main.rs` part by part:

- `BookmarkFile` (`bookmark_file.dfy`) is the decoded file shape (`mod file`).
  An `IndexMap` becomes a sequence of `Entry(key, value)` in the order of the keys in the file.
- `Bookmarks` (`bookmarks.dfy`) is the in-memory tree and its construction
  from the file. `FromItem` and `FromMap` are the reference functions.
  `ConvertItem` and `ConvertFile` are the source's push loops, proved equal
  to them.
- `Menu` (`menu.dfy`) is `print_items`. `Output` is the exact text written.
  `PrintItems` writes it piece by piece, as the source does. Its partner is a
  decoder: `Split` cuts text at a separator, `DisplayText` and `RowOptions`
  take a row apart the way rofi does. The lemmas prove that the output splits
  back into one row per item and that each row gives back its title and
  keywords.
- `Resolver` (`resolver.dfy`) is the selection loop of `main`. `Find` is the
  recursive reference: a depth-first, pre-order search that descends into
  every non-matching group before that group's later siblings. `Resolve` is
  the source's loop over a stack of sibling iterators. It is proved to return
  the outcome for `Find`'s node, and to make at most `2 * Count + 2` passes.
  `Resolution` states that this node is the first node in pre-order
  (`PreOrder`) that bears the selector as its title.
- `Cli` (`cli.dfy`) is `main`: loading, the no-argument listing, resolution
  and its three outcomes, stderr messages and exit codes.

Each `slice::Iter` on the source's iterator stack is a `Cursor`: the sibling
sequence and the index of the next sibling. The model keeps the top of the
stack at index 0, so a push prepends and a pop drops the first cursor.
`Vec::push`/`Vec::pop` at the end of the vector would be the mirror image.
The helper lemmas `TakeOne`, `PendingAfterPop`, `PendingAfterNext` and
`PendingAfterPush` unfold one step of the pending nodes for `Resolve`'s loop
invariant: popping an exhausted cursor, advancing the top cursor and pushing a
group's children.
Standard output is the string that `PrintItems` returns; in the source it is
a stdout handle local to `print_items`.

The code does not require a bookmark's `url` to be non-empty, so the model
does not claim it.

The selector a run receives is only a title. When two nodes share a title, a
row picked from a group listing resolves to the first node in pre-order with
that title, which need not be the node that row showed
(`Cli.PickedRowMayResolveElsewhere`).

## Model

| member | source | states |
|---|---|---|
| `Bookmarks.FromItem` | src/main.rs:66-91 | A file leaf becomes a leaf and a file group becomes a group. The title is the explicit `title` if there is one, else the map key. A leaf's url and keywords are copied unchanged. A group's children are the conversion of its table. |
| `Bookmarks.FromMap` | src/main.rs:56-64 | A converted table has exactly one node per entry. |
| `Bookmarks.FromMapEntries` | src/main.rs:59-61 | The i-th converted node comes from the i-th entry of the table. This holds at every level, because groups use the same conversion (lines 84-86). |
| `Bookmarks.CountFromMap` | src/main.rs:67-90 | Conversion keeps the total number of nodes in the tree. |
| `Bookmarks.FromFile` | src/main.rs:54-95 | The root has one item per top-level entry, in file order, each the conversion of its entry. The total node count equals the file's. |
| `Bookmarks.ConvertItem` | src/main.rs:66-91 | The push loop over a group's entries builds exactly `FromItem`'s node. |
| `Bookmarks.ConvertFile` | src/main.rs:56-64 | The push loop over the top-level table builds exactly `FromFile`'s root. |
| `Menu.PrintItem` | src/main.rs:112-131 | One loop pass writes the item's row and a newline. For a bookmark that is the title, NUL, `meta`, US, each keyword followed by a comma, then US. For a group it is the title, NUL, `icon`, US, `folder`. |
| `Menu.PrintItems` | src/main.rs:103-134 | What is written equals `Output(title, items)`: the optional header line, then one row per item. |
| `Menu.HeaderComesFirst` | src/main.rs:108-110 | With a title, the output starts with NUL `message` US, the title and a newline, followed by the untitled output. Without a title the output is the items' rows alone, each followed by a newline. |
| `Menu.OneLinePerItem` | src/main.rs:112-131 | When no field holds a newline, the output splits into exactly one line per item, in input order, after the header line if there is one. |
| `Menu.SplitJoin` | src/main.rs:120-121 | Text written as parts each followed by a separator splits back into the same parts, when no part contains the separator. This is the decoder for both rows and keyword lists. |
| `Menu.DisplayedTitle` | src/main.rs:119 | The text rofi displays for a row, which is everything before the first NUL, is the node's title when the title has no NUL. |
| `Menu.ItemOptions` | src/main.rs:119-123 | A bookmark row's options are exactly `meta` and its keyword list. The keyword list splits back into the keywords: every keyword, the last included, is followed by a comma. |
| `Menu.GroupOptions` | src/main.rs:126 | A group row's options are exactly `icon` and `folder`. Nothing about the children is written. |
| `Menu.LineRoundTrip` | src/main.rs:119-127 | A row decodes to the node's title. A bookmark row also gives back its keywords under `meta`; a group row gives back the `folder` icon. |
| `Resolver.FirstTitledIsFirst` | src/main.rs:185-196 | The linear scan finds a node exactly when some node bears the title, and then the earliest such node. |
| `Resolver.FindIsFirstInPreOrder` | src/main.rs:185-196 | The recursive search, which descends into a non-matching group before its later siblings, finds the first node in pre-order whose title is the selector. |
| `Resolver.Resolution` | src/main.rs:167-199 | The outcome is NotFound exactly when no node in the tree bears the selector. Otherwise it is OpenUrl with the url of the first match in pre-order, if that is a bookmark. If it is a group, it is ShowGroup with that group's title and its direct children only. |
| `Resolver.NestedMatchComesFirst` | src/main.rs:193-196 | When nothing before a group matches and the group's own title does not, a match inside the group wins over every later sibling of the group: the outcome is the action on the group's own search result. |
| `Resolver.Resolve` | src/main.rs:163-204 | The iterator-stack loop returns the outcome for the node the recursive search finds. It terminates: the measure is twice the node count still to visit plus the stack height. It makes at most 2 * (node count) + 2 passes. |
| `Cli.Run` | src/main.rs:136-205 | If the path variable is unset, or the file cannot be read or decoded, the run writes its message to stderr and exits 1. Without an argument, it prints the top-level rows with no header and exits 0. With a selector, it acts on `Resolution`. OpenUrl hands that url to the opener and exits 0 even if opening fails; the failure is only reported on stderr. ShowGroup prints the group's children under its title and exits 0. NotFound reports on stderr and exits 1. |
| `Cli.TopLevelListing` | src/main.rs:158-161 | The listing with no selector has one row per top-level key, in file order. Each row displays the entry's `title` if there is one, else its key. |
| `Cli.PickedRowResolves` | src/main.rs:193-199 | Any row of the top-level listing, or of a group listing that a selector produced, resolves when rofi hands its text back as the next selector. The text resolves as the row's title does, and the result is never NotFound. |
| `Cli.PickedRowMayResolveElsewhere` | src/main.rs:185-199 | With two groups `a` and `b` each holding a bookmark `x`, selecting `b` lists its own `x`, but picking that row opens the url of the `x` in `a`. |

## Left out

- Reading `ROFI_BOOKMARKS_PATH`, reading the file and TOML decoding (src/main.rs:137-150) are input and a foreign library. `Cli.Load` stands for their result, and the model keeps their messages and exit code 1.
- serde's untagged matching is not modelled: the leaf shape is tried first, and a group's `title` key is absorbed out of its flattened map. A decoded `BookmarkItem` is already an `Item` or a `Group`.
- An `IndexMap` has unique keys. The model's sequence of entries does not impose this, and no property needs it.
- `open::that` (src/main.rs:189) is an external effect. `Effects.openedUrl` records the url handed to it, and the `openError` parameter stands for its failure.
- Write errors on stdout are not modelled. This covers the `?` propagation in `print_items`, a partial `write` at src/main.rs:123 and the `expect` panics at lines 159 and 199. Output is a pure string.
- The panic when argv[0] is missing (src/main.rs:156) is not modelled. `Cli.Run` takes the arguments after the program name.
- Standard error is one string, so its interleaving with standard output is not modelled.
- A line-oriented `# title :: url extra` file variant is not part of this model: src/main.rs contains only the TOML variant.
- Fields that break rofi's row format are outside the decoding lemmas, which require their absence. These are titles containing NUL or a newline, and keywords containing a comma, US or a newline. The program itself writes such fields unchanged.
