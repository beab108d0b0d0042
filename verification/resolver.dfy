/**
 * The selection resolver: the loop of `main` in src/main.rs that walks the
 * tree with a stack of sibling iterators, looking for the node whose title
 * is the selector.
 */
module Resolver {
  import opened Wrappers
  import opened Bookmarks

  /** What a run with a selector does: open a bookmark, list a group, or report failure. */
  datatype Outcome =
    | OpenUrl(url: string)
    | ShowGroup(title: string, children: seq<Node>)
    | NotFound

  /** All nodes of a forest in depth-first pre-order: a group comes right before its children. */
  function PreOrder(nodes: seq<Node>): (r: seq<Node>)
    ensures |r| == Count(nodes)
  {
    if nodes == [] then []
    else [nodes[0]] + (if nodes[0].Group? then PreOrder(nodes[0].children) else []) + PreOrder(nodes[1..])
  }

  /** Linear scan: the first node of a list whose title is `selector`. */
  function FirstTitled(list: seq<Node>, selector: string): Option<Node>
  {
    if list == [] then None
    else if list[0].title == selector then Some(list[0])
    else FirstTitled(list[1..], selector)
  }

  /** The scan finds a node exactly when one bears the title, and then the earliest one. */
  lemma {:induction false} FirstTitledIsFirst(list: seq<Node>, selector: string)
    ensures FirstTitled(list, selector).None? <==> forall i :: 0 <= i < |list| ==> list[i].title != selector
    ensures FirstTitled(list, selector).Some? ==>
              exists i :: 0 <= i < |list| && list[i] == FirstTitled(list, selector).value &&
                          list[i].title == selector &&
                          forall j :: 0 <= j < i ==> list[j].title != selector
  {
    if list != [] && list[0].title != selector {
      FirstTitledIsFirst(list[1..], selector);
      if FirstTitled(list, selector).Some? {
        var i :| 0 <= i < |list[1..]| && list[1..][i] == FirstTitled(list, selector).value &&
                 list[1..][i].title == selector &&
                 forall j :: 0 <= j < i ==> list[1..][j].title != selector;
        assert list[i + 1] == list[1..][i];
        forall j | 0 <= j < i + 1 ensures list[j].title != selector {
          if j > 0 { assert list[j] == list[1..][j - 1]; }
        }
      } else {
        forall i | 0 <= i < |list| ensures list[i].title != selector {
          if i > 0 { assert list[i] == list[1..][i - 1]; }
        }
      }
    }
  }

  lemma {:induction false} FirstTitledAppend(a: seq<Node>, b: seq<Node>, selector: string)
    ensures FirstTitled(a + b, selector) ==
            if FirstTitled(a, selector).Some? then FirstTitled(a, selector) else FirstTitled(b, selector)
  {
    if a == [] {
      assert a + b == b;
    } else {
      assert (a + b)[0] == a[0];
      assert (a + b)[1..] == a[1..] + b;
      FirstTitledAppend(a[1..], b, selector);
    }
  }

  /** Recursive reference for the resolver: pre-order search, descending into each non-matching group. */
  function Find(nodes: seq<Node>, selector: string): Option<Node>
  {
    if nodes == [] then None
    else if nodes[0].title == selector then Some(nodes[0])
    else
      var inside := if nodes[0].Group? then Find(nodes[0].children, selector) else None;
      if inside.Some? then inside else Find(nodes[1..], selector)
  }

  /** Searching a concatenation searches the second part only when the first has no match. */
  lemma {:induction false} FindAppend(a: seq<Node>, b: seq<Node>, selector: string)
    ensures Find(a + b, selector) == if Find(a, selector).Some? then Find(a, selector) else Find(b, selector)
  {
    if a == [] {
      assert a + b == b;
    } else {
      assert (a + b)[0] == a[0];
      assert (a + b)[1..] == a[1..] + b;
      FindAppend(a[1..], b, selector);
    }
  }

  /** The recursive search finds the first node in pre-order whose title is the selector. */
  lemma {:induction false} FindIsFirstInPreOrder(nodes: seq<Node>, selector: string)
    ensures Find(nodes, selector) == FirstTitled(PreOrder(nodes), selector)
  {
    if nodes != [] {
      var head := nodes[0];
      var inner := if head.Group? then PreOrder(head.children) else [];
      var rest := PreOrder(nodes[1..]);
      var list := PreOrder(nodes);
      assert list[0] == head;
      assert list[1..] == inner + rest;
      FindIsFirstInPreOrder(nodes[1..], selector);
      if head.Group? {
        FindIsFirstInPreOrder(head.children, selector);
      }
      FirstTitledAppend(inner, rest, selector);
    }
  }

  /** The outcome for the node a search found, if any. */
  function Act(found: Option<Node>): Outcome
  {
    match found
    case None => NotFound
    case Some(Item(_, url, _)) => OpenUrl(url)
    case Some(Group(title, children)) => ShowGroup(title, children)
  }

  /** What a selector leads to: the outcome for the first node in pre-order bearing that title. */
  function Resolution(nodes: seq<Node>, selector: string): (outcome: Outcome)
    ensures outcome.NotFound? <==> forall i :: 0 <= i < |PreOrder(nodes)| ==> PreOrder(nodes)[i].title != selector
    ensures outcome.OpenUrl? ==>
              exists i :: 0 <= i < |PreOrder(nodes)| && PreOrder(nodes)[i].Item? &&
                          PreOrder(nodes)[i].title == selector && PreOrder(nodes)[i].url == outcome.url &&
                          forall j :: 0 <= j < i ==> PreOrder(nodes)[j].title != selector
    ensures outcome.ShowGroup? ==>
              exists i :: 0 <= i < |PreOrder(nodes)| &&
                          PreOrder(nodes)[i] == Group(selector, outcome.children) && outcome.title == selector &&
                          forall j :: 0 <= j < i ==> PreOrder(nodes)[j].title != selector
  {
    FindIsFirstInPreOrder(nodes, selector);
    FirstTitledIsFirst(PreOrder(nodes), selector);
    Act(Find(nodes, selector))
  }

  /** Every top-level node occurs in the pre-order listing. */
  lemma {:induction false} TopLevelInPreOrder(nodes: seq<Node>)
    ensures forall i :: 0 <= i < |nodes| ==> nodes[i] in PreOrder(nodes)
  {
    if nodes != [] {
      TopLevelInPreOrder(nodes[1..]);
      forall i | 1 <= i < |nodes| ensures nodes[i] in PreOrder(nodes) {
        assert nodes[i] == nodes[1..][i - 1];
      }
    }
  }

  /** The children of every group in the pre-order listing occur in it too. */
  lemma {:induction false} ChildrenInPreOrder(nodes: seq<Node>, group: Node)
    requires group in PreOrder(nodes) && group.Group?
    ensures forall c :: c in group.children ==> c in PreOrder(nodes)
  {
    var head := nodes[0];
    var inner := if head.Group? then PreOrder(head.children) else [];
    var rest := PreOrder(nodes[1..]);
    assert PreOrder(nodes) == [head] + inner + rest;
    if group == head {
      TopLevelInPreOrder(head.children);
    } else if group in inner {
      ChildrenInPreOrder(head.children, group);
    } else {
      ChildrenInPreOrder(nodes[1..], group);
    }
  }

  /**
   * A match nested in a group wins over any later sibling of that group with
   * the same title: when nothing before the group matches and the group's own
   * title does not, the search descends into the group before moving on.
   */
  lemma {:induction false} NestedMatchComesFirst(before: seq<Node>, g: Node, after: seq<Node>, s: string)
    requires Find(before, s).None? && g.Group? && g.title != s && Find(g.children, s).Some?
    ensures Resolution(before + [g] + after, s) == Act(Find(g.children, s))
  {
    FindAppend(before, [g] + after, s);
    assert before + [g] + after == before + ([g] + after);
    assert ([g] + after)[0] == g;
    assert ([g] + after)[1..] == after;
  }

  /** A `slice::Iter` over a sibling sequence: the siblings and the position of the next one. */
  datatype Cursor = Cursor(siblings: seq<Node>, next: nat)

  /** The siblings a cursor has not handed out yet. */
  function Remaining(c: Cursor): seq<Node>
  {
    if c.next <= |c.siblings| then c.siblings[c.next..] else []
  }

  /**
   * The nodes a stack of cursors still holds, in visiting order. The top of
   * the stack is its first element: the top cursor's siblings come first.
   */
  function Pending(stack: seq<Cursor>): seq<Node>
  {
    if stack == [] then [] else Remaining(stack[0]) + Pending(stack[1..])
  }

  /** No cursor on the stack points past the end of its siblings. */
  predicate InBounds(stack: seq<Cursor>)
  {
    forall k :: 0 <= k < |stack| ==> stack[k].next <= |stack[k].siblings|
  }

  /** Taking one node off the front of the pending nodes. */
  lemma {:induction false} TakeOne(item: Node, rest: seq<Node>, selector: string)
    ensures Count([item] + rest) == 1 + (if item.Group? then Count(item.children) else 0) + Count(rest)
    ensures Find([item] + rest, selector) ==
            if item.title == selector then Some(item)
            else if item.Group? && Find(item.children, selector).Some? then Find(item.children, selector)
            else Find(rest, selector)
  {
  }

  /** Popping an exhausted iterator leaves the pending nodes as they were. */
  lemma {:induction false} PendingAfterPop(stack: seq<Cursor>)
    requires stack != [] && Remaining(stack[0]) == []
    ensures Pending(stack[1..]) == Pending(stack)
    ensures InBounds(stack) ==> InBounds(stack[1..])
  {
  }

  /** Advancing the top iterator takes the first pending node off. */
  lemma {:induction false} PendingAfterNext(stack: seq<Cursor>)
    requires stack != [] && stack[0].next < |stack[0].siblings|
    ensures Pending(stack) == [stack[0].siblings[stack[0].next]] +
                              Pending([Cursor(stack[0].siblings, stack[0].next + 1)] + stack[1..])
    ensures InBounds(stack) ==> InBounds([Cursor(stack[0].siblings, stack[0].next + 1)] + stack[1..])
  {
    var advanced := [Cursor(stack[0].siblings, stack[0].next + 1)] + stack[1..];
    assert forall k :: 1 <= k < |advanced| ==> advanced[k] == stack[k];
  }

  /** Pushing an iterator over a group's children puts them in front of the pending nodes. */
  lemma {:induction false} PendingAfterPush(stack: seq<Cursor>, children: seq<Node>)
    ensures Pending([Cursor(children, 0)] + stack) == children + Pending(stack)
    ensures InBounds(stack) ==> InBounds([Cursor(children, 0)] + stack)
  {
    var pushed := [Cursor(children, 0)] + stack;
    assert forall k :: 1 <= k < |pushed| ==> pushed[k] == stack[k - 1];
  }

  /**
   * The loop of `main`: a stack of sibling iterators (top first), advanced at the top,
   * popped when exhausted, pushed with a group's children when the group's
   * title is not the selector. It stops at the first node titled `selector`,
   * or when the stack is empty.
   */
  method Resolve(items: seq<Node>, selector: string) returns (outcome: Outcome, ghost iterations: nat)
    ensures outcome == Act(Find(items, selector))
    ensures iterations <= 2 * Count(items) + 2
  {
    var stack := [Cursor(items, 0)];
    iterations := 0;
    PendingAfterPush([], items);
    assert [Cursor(items, 0)] + [] == stack;
    assert items + [] == items;
    while true
      invariant InBounds(stack)
      invariant Find(Pending(stack), selector) == Find(items, selector)
      invariant iterations + 2 * Count(Pending(stack)) + |stack| <= 2 * Count(items) + 1
      decreases 2 * Count(Pending(stack)) + |stack|
    {
      iterations := iterations + 1;
      if stack == [] {
        outcome := NotFound;
        return;
      }
      var top := stack[0];
      if top.next == |top.siblings| {
        // the iterator is exhausted: pop it
        PendingAfterPop(stack);
        stack := stack[1..];
        continue;
      }
      var item := top.siblings[top.next];
      PendingAfterNext(stack);
      stack := [Cursor(top.siblings, top.next + 1)] + stack[1..];
      TakeOne(item, Pending(stack), selector);
      match item {
        case Item(title, url, _) =>
          if title != selector {
            continue;
          }
          outcome := OpenUrl(url);
          return;
        case Group(title, children) =>
          if title != selector {
            FindAppend(children, Pending(stack), selector);
            CountAppend(children, Pending(stack));
            PendingAfterPush(stack, children);
            stack := [Cursor(children, 0)] + stack;
            continue;
          }
          outcome := ShowGroup(title, children);
          return;
      }
    }
  }
}
