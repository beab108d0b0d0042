/**
 * The menu emitter (`print_items` in src/main.rs): the lines a rofi script
 * mode reads. A line is the displayed text, then NUL, then row options
 * separated by US (0x1f); an option is a name, US, and a value.
 */
module Menu {
  import opened Bookmarks

  const NUL: char := '\0'
  const US: char := '\U{1F}'

  /** The optional header (`Title` in the source). */
  datatype Title = None | Title(text: string)

  /** Every part followed by `sep`: how both lines ('\n') and keywords (',') are written. */
  function Join(parts: seq<string>, sep: char): string
  {
    if parts == [] then [] else parts[0] + [sep] + Join(parts[1..], sep)
  }

  lemma {:induction false} JoinSnoc(parts: seq<string>, last: string, sep: char)
    ensures Join(parts + [last], sep) == Join(parts, sep) + last + [sep]
  {
    if parts == [] {
      assert parts + [last] == [last];
    } else {
      assert (parts + [last])[1..] == parts[1..] + [last];
      JoinSnoc(parts[1..], last, sep);
    }
  }

  /** A character that occurs in no part and is not the separator does not occur in the joined text. */
  lemma {:induction false} JoinAvoids(parts: seq<string>, sep: char, c: char)
    requires c != sep
    requires forall k :: 0 <= k < |parts| ==> c !in parts[k]
    ensures c !in Join(parts, sep)
  {
    if parts != [] {
      JoinAvoids(parts[1..], sep, c);
    }
  }

  /** Position of the first `c` in `s`, or `|s|` when there is none. */
  function IndexOf(s: string, c: char): (i: nat)
    ensures i <= |s|
    ensures i < |s| ==> s[i] == c
    ensures forall j :: 0 <= j < i ==> s[j] != c
  {
    if s == [] then 0
    else if s[0] == c then 0
    else 1 + IndexOf(s[1..], c)
  }

  /** The first `c` of `p + [c] + rest` is the one right after `p` when `p` has none. */
  lemma {:induction false} FirstOccurrence(p: string, c: char, rest: string)
    requires c !in p
    ensures IndexOf(p + [c] + rest, c) == |p|
  {
    var s := p + [c] + rest;
    assert s[|p|] == c;
  }

  /** Cuts `s` after every `sep`; text after the last `sep` becomes a final part. */
  function Split(s: string, sep: char): seq<string>
    decreases |s|
  {
    if s == [] then []
    else
      var i := IndexOf(s, sep);
      if i == |s| then [s] else [s[..i]] + Split(s[i + 1..], sep)
  }

  /** Splitting undoes joining when no part contains the separator. */
  lemma {:induction false} SplitJoin(parts: seq<string>, sep: char)
    requires forall k :: 0 <= k < |parts| ==> sep !in parts[k]
    ensures Split(Join(parts, sep), sep) == parts
  {
    if parts != [] {
      var p, rest := parts[0], Join(parts[1..], sep);
      var s := p + [sep] + rest;
      assert Join(parts, sep) == s;
      FirstOccurrence(p, sep, rest);
      assert s[..|p|] == p;
      assert s[|p| + 1..] == rest;
      SplitJoin(parts[1..], sep);
    }
  }

  /** Text of the line written for one node, without its newline. */
  function Line(n: Node): string
  {
    match n
    case Item(title, _, keywords) => title + [NUL] + "meta" + [US] + Join(keywords, ',') + [US]
    case Group(title, _) => title + [NUL] + "icon" + [US] + "folder"
  }

  /** The header line, when there is one. */
  function HeaderLines(title: Title): seq<string>
  {
    match title
    case None => []
    case Title(text) => [[NUL] + "message" + [US] + text]
  }

  /** The lines of a menu: the header, then one line per node, in order. */
  function Lines(title: Title, items: seq<Node>): seq<string>
  {
    HeaderLines(title) + seq(|items|, i requires 0 <= i < |items| => Line(items[i]))
  }

  /** Everything `print_items` writes: each line terminated by a newline. */
  function Output(title: Title, items: seq<Node>): string
  {
    Join(Lines(title, items), '\n')
  }

  /** One pass of the loop in `print_items`: the writes for one node and its newline. */
  method PrintItem(n: Node) returns (text: string)
    ensures text == Line(n) + "\n"
  {
    match n {
      case Item(title, _, keywords) =>
        text := title + [NUL] + "meta" + [US];
        ghost var prefix := text;
        for k := 0 to |keywords|
          invariant text == prefix + Join(keywords[..k], ',')
        {
          assert keywords[..k + 1] == keywords[..k] + [keywords[k]];
          JoinSnoc(keywords[..k], keywords[k], ',');
          text := text + keywords[k] + ",";
        }
        assert keywords[..|keywords|] == keywords;
        text := text + [US];
      case Group(title, _) =>
        text := title + [NUL] + "icon" + [US] + "folder";
    }
    text := text + "\n";
  }

  /** What is written before the first item: the header line, if any. */
  lemma {:induction false} OutputBeforeItems(title: Title, items: seq<Node>)
    ensures Join(Lines(title, items[..0]), '\n') ==
            if title.Title? then [NUL] + "message" + [US] + title.text + "\n" else []
  {
  }

  /** Writing one more item appends its line and a newline. */
  lemma {:induction false} OutputOneMore(title: Title, items: seq<Node>, i: nat)
    requires i < |items|
    ensures Join(Lines(title, items[..i + 1]), '\n') == Join(Lines(title, items[..i]), '\n') + Line(items[i]) + "\n"
  {
    assert Lines(title, items[..i + 1]) == Lines(title, items[..i]) + [Line(items[i])];
    JoinSnoc(Lines(title, items[..i]), Line(items[i]), '\n');
  }

  /** `print_items`: writes the header, then each node's line, to stdout. */
  method PrintItems(title: Title, items: seq<Node>) returns (stdout: string)
    ensures stdout == Output(title, items)
  {
    stdout := [];
    if title.Title? {
      stdout := stdout + [NUL] + "message" + [US] + title.text + "\n";
    }
    OutputBeforeItems(title, items);
    for i := 0 to |items|
      invariant stdout == Join(Lines(title, items[..i]), '\n')
    {
      var text := PrintItem(items[i]);
      OutputOneMore(title, items, i);
      stdout := stdout + text;
    }
    assert items[..|items|] == items;
  }

  /** A node none of whose written fields holds a newline. */
  predicate SingleLine(n: Node)
  {
    '\n' !in n.title &&
    (n.Item? ==> forall k :: 0 <= k < |n.keywords| ==> '\n' !in n.keywords[k])
  }

  lemma {:induction false} LineHasNoNewline(n: Node)
    requires SingleLine(n)
    ensures '\n' !in Line(n)
  {
    if n.Item? {
      JoinAvoids(n.keywords, ',', '\n');
    }
  }

  /**
   * The output holds exactly one newline-terminated line per item, in order,
   * after the header line when there is one.
   */
  lemma {:induction false} OneLinePerItem(title: Title, items: seq<Node>)
    requires title.Title? ==> '\n' !in title.text
    requires forall i :: 0 <= i < |items| ==> SingleLine(items[i])
    ensures |Split(Output(title, items), '\n')| == |items| + (if title.Title? then 1 else 0)
    ensures Split(Output(title, items), '\n') == Lines(title, items)
  {
    var lines := Lines(title, items);
    var h := |HeaderLines(title)|;
    forall k | 0 <= k < |lines|
      ensures '\n' !in lines[k]
    {
      if k < h {
        assert lines[k] == [NUL] + "message" + [US] + title.text;
        assert '\n' !in "message";
      } else {
        assert lines[k] == Line(items[k - h]);
        LineHasNoNewline(items[k - h]);
      }
    }
    SplitJoin(lines, '\n');
  }

  /** With a title the header line comes first; without one, only the items' lines are written. */
  lemma {:induction false} HeaderComesFirst(text: string, items: seq<Node>)
    ensures Output(Title(text), items) == [NUL] + "message" + [US] + text + "\n" + Output(None, items)
    ensures Output(None, items) == Join(seq(|items|, i requires 0 <= i < |items| => Line(items[i])), '\n')
  {
    var lines := Lines(Title(text), items);
    assert lines[1..] == Lines(None, items);
    assert Lines(None, items) == seq(|items|, i requires 0 <= i < |items| => Line(items[i]));
  }

  /** The text rofi displays (and hands back when the row is chosen): everything before the first NUL. */
  function DisplayText(line: string): string
  {
    line[..IndexOf(line, NUL)]
  }

  /** The row options after the first NUL, cut at each US. */
  function RowOptions(line: string): seq<string>
  {
    var i := IndexOf(line, NUL);
    if i == |line| then [] else Split(line[i + 1..], US)
  }

  /** A node the launcher shows on one row and hands back by its exact title. */
  predicate Listable(n: Node)
  {
    SingleLine(n) && NUL !in n.title
  }

  /** A node whose line the launcher can take apart again. */
  predicate Decodable(n: Node)
  {
    NUL !in n.title &&
    (n.Item? ==> forall k :: 0 <= k < |n.keywords| ==> US !in n.keywords[k] && ',' !in n.keywords[k])
  }

  /** A line whose display text has no NUL splits into that text and its options. */
  lemma {:induction false} TitleThenOptions(title: string, options: string)
    requires NUL !in title
    ensures DisplayText(title + [NUL] + options) == title
    ensures RowOptions(title + [NUL] + options) == Split(options, US)
  {
    var line := title + [NUL] + options;
    FirstOccurrence(title, NUL, options);
    assert line[..|title|] == title;
    assert line[|title| + 1..] == options;
  }

  /** The options of a group's line: the `folder` icon, and nothing about its children. */
  lemma {:induction false} GroupOptions()
    ensures Split("icon" + [US] + "folder", US) == ["icon", "folder"]
  {
    FirstOccurrence("icon", US, "folder");
    var options := "icon" + [US] + "folder";
    assert options[..4] == "icon";
    assert options[5..] == "folder";
    assert IndexOf("folder", US) == 6;
  }

  /** One option followed by US splits into its name and its value. */
  lemma {:induction false} OptionSplit(name: string, value: string)
    requires US !in name && US !in value
    ensures Split(name + [US] + value + [US], US) == [name, value]
  {
    var rest := value + [US];
    FirstOccurrence(name, US, rest);
    var s := name + [US] + rest;
    assert s[..|name|] == name;
    assert s[|name| + 1..] == rest;
    FirstOccurrence(value, US, []);
    assert rest[..|value|] == value;
    assert rest[|value| + 1..] == [];
    assert Split(rest, US) == [value];
    assert Split(s, US) == [name] + Split(rest, US);
    assert s == name + [US] + value + [US];
  }

  /** The options of an item's line: its keywords, each followed by a comma, as `meta`. */
  lemma {:induction false} ItemOptions(keywords: seq<string>)
    requires forall k :: 0 <= k < |keywords| ==> US !in keywords[k] && ',' !in keywords[k]
    ensures Split("meta" + [US] + Join(keywords, ',') + [US], US) == ["meta", Join(keywords, ',')]
    ensures Split(Join(keywords, ','), ',') == keywords
  {
    JoinAvoids(keywords, ',', US);
    assert US !in "meta";
    OptionSplit("meta", Join(keywords, ','));
    SplitJoin(keywords, ',');
  }

  /** The launcher displays, and hands back, exactly a node's title. */
  lemma {:induction false} DisplayedTitle(n: Node)
    requires NUL !in n.title
    ensures DisplayText(Line(n)) == n.title
  {
    match n
    case Item(title, _, keywords) =>
      var options := "meta" + [US] + Join(keywords, ',') + [US];
      assert Line(n) == title + [NUL] + options;
      TitleThenOptions(title, options);
    case Group(title, _) =>
      var options := "icon" + [US] + "folder";
      assert Line(n) == title + [NUL] + options;
      TitleThenOptions(title, options);
  }

  /**
   * A node's line gives back its title as the displayed text; an item's line
   * carries its keywords as `meta`, a group's line the `folder` icon.
   */
  lemma {:induction false} LineRoundTrip(n: Node)
    requires Decodable(n)
    ensures DisplayText(Line(n)) == n.title
    ensures n.Item? ==> RowOptions(Line(n)) == ["meta", Join(n.keywords, ',')]
    ensures n.Item? ==> Split(Join(n.keywords, ','), ',') == n.keywords
    ensures n.Group? ==> RowOptions(Line(n)) == ["icon", "folder"]
  {
    match n
    case Item(title, _, keywords) =>
      var options := "meta" + [US] + Join(keywords, ',') + [US];
      assert Line(n) == title + [NUL] + options;
      TitleThenOptions(title, options);
      ItemOptions(keywords);
    case Group(title, _) =>
      var options := "icon" + [US] + "folder";
      assert Line(n) == title + [NUL] + options;
      TitleThenOptions(title, options);
      GroupOptions();
  }
}
