/**
 * The article body of src/components/BlogPostPage.js: the post and its
 * content blocks are looked up by slug, and a loop over the blocks turns
 * `h2`, `p`, `note`, `ul` and `li` blocks into page elements, buffering
 * consecutive `li` items until something else closes the list.
 */
module Blog {
  import opened Js

  /** One content block: its `type` and `text`. */
  datatype Block = Block(kind: string, text: string)

  /** `<li key={`li-${idx}`}>`: the item's block index and text. */
  datatype ListItem = ListItem(idx: nat, text: string)

  /** An element of the article body. Lists are keyed `ul-<n>`, the others by block index. */
  datatype Element =
    | List(listKey: nat, items: seq<ListItem>)
    | Heading(idx: nat, text: string)
    | Paragraph(idx: nat, text: string)
    | Note(idx: nat, text: string)

  /** The element an `h2`, `p` or `note` block becomes; other kinds become nothing. */
  function ElementOf(b: Block, idx: nat): (es: seq<Element>)
    ensures |es| <= 1
    ensures es != [] <==> b.kind in {"h2", "p", "note"}
    ensures forall e :: e in es ==> !e.List?
  {
    if b.kind == "h2" then [Heading(idx, b.text)]
    else if b.kind == "p" then [Paragraph(idx, b.text)]
    else if b.kind == "note" then [Note(idx, b.text)]
    else []
  }

  /** The loop's variables: `elements`, the pending `listItems` and `listKey`. */
  datatype State = State(elements: seq<Element>, pending: seq<ListItem>, listKey: nat)

  /** Close the pending items into a list, when there are any. */
  function Flush(st: State): (r: State)
    ensures r.pending == []
    ensures st.pending == [] ==> r == st
    ensures st.pending != [] ==> r == State(st.elements + [List(st.listKey, st.pending)], [], st.listKey + 1)
  {
    if |st.pending| > 0 then State(st.elements + [List(st.listKey, st.pending)], [], st.listKey + 1) else st
  }

  /** One iteration of the loop, for block `b` at index `idx`. */
  function Step(st: State, b: Block, idx: nat): State
  {
    if b.kind == "ul" then
      var f := Flush(st);
      State(f.elements + [List(f.listKey, [])], [], f.listKey + 1)
    else if b.kind == "li" then
      State(st.elements, st.pending + [ListItem(idx, b.text)], st.listKey)
    else
      var f := Flush(st);
      State(f.elements + ElementOf(b, idx), [], f.listKey)
  }

  /** The loop's state after the blocks of `blocks`, in order. */
  function Fold(blocks: seq<Block>): State
    decreases |blocks|
  {
    if blocks == [] then State([], [], 0)
    else Step(Fold(blocks[..|blocks| - 1]), blocks[|blocks| - 1], |blocks| - 1)
  }

  /** The elements the article body renders: the loop, then the final flush. */
  function Render(blocks: seq<Block>): seq<Element>
  {
    Flush(Fold(blocks)).elements
  }

  /** The body's loop, with its buffer and counter. */
  method RenderBlocks(blocks: seq<Block>) returns (elements: seq<Element>)
    ensures elements == Render(blocks)
  {
    elements := [];
    var listItems: seq<ListItem> := [];
    var listKey: nat := 0;
    var idx := 0;
    while idx < |blocks|
      invariant 0 <= idx <= |blocks|
      invariant State(elements, listItems, listKey) == Fold(blocks[..idx])
    {
      assert blocks[..idx + 1][..idx] == blocks[..idx];
      var block := blocks[idx];
      if block.kind == "ul" {
        if |listItems| > 0 {
          elements := elements + [List(listKey, listItems)];
          listKey := listKey + 1;
          listItems := [];
        }
        elements := elements + [List(listKey, [])];
        listKey := listKey + 1;
      } else if block.kind == "li" {
        listItems := listItems + [ListItem(idx, block.text)];
      } else {
        if |listItems| > 0 {
          elements := elements + [List(listKey, listItems)];
          listKey := listKey + 1;
          listItems := [];
        }
        if block.kind == "h2" {
          elements := elements + [Heading(idx, block.text)];
        } else if block.kind == "p" {
          elements := elements + [Paragraph(idx, block.text)];
        } else if block.kind == "note" {
          elements := elements + [Note(idx, block.text)];
        }
      }
      idx := idx + 1;
    }
    assert blocks[..idx] == blocks;
    if |listItems| > 0 {
      elements := elements + [List(listKey, listItems)];
      listKey := listKey + 1;
    }
  }

  // ------------------------------------------------------------ projections

  /** The items of every list of `es`, in element order. */
  function ItemsOf(es: seq<Element>): seq<ListItem>
    decreases |es|
  {
    if es == [] then []
    else ItemsOf(es[..|es| - 1]) + (if es[|es| - 1].List? then es[|es| - 1].items else [])
  }

  /** The `li` blocks of `blocks`, as items keyed by block index. */
  function LiItems(blocks: seq<Block>): seq<ListItem>
    decreases |blocks|
  {
    if blocks == [] then []
    else LiItems(blocks[..|blocks| - 1])
         + (if blocks[|blocks| - 1].kind == "li" then [ListItem(|blocks| - 1, blocks[|blocks| - 1].text)] else [])
  }

  /** The keys of the lists of `es`, in element order. */
  function ListKeys(es: seq<Element>): seq<nat>
    decreases |es|
  {
    if es == [] then []
    else ListKeys(es[..|es| - 1]) + (if es[|es| - 1].List? then [es[|es| - 1].listKey] else [])
  }

  /** `0, 1, ..., n - 1`. */
  function Upto(n: nat): seq<nat>
  {
    if n == 0 then [] else Upto(n - 1) + [n - 1]
  }

  /** The non-list elements of `es`, in order. */
  function Others(es: seq<Element>): seq<Element>
    decreases |es|
  {
    if es == [] then []
    else Others(es[..|es| - 1]) + (if es[|es| - 1].List? then [] else [es[|es| - 1]])
  }

  /** The headings, paragraphs and notes the blocks call for, in block order. */
  function OtherElements(blocks: seq<Block>): seq<Element>
    decreases |blocks|
  {
    if blocks == [] then []
    else OtherElements(blocks[..|blocks| - 1]) + ElementOf(blocks[|blocks| - 1], |blocks| - 1)
  }

  predicate IsEmptyList(e: Element)
  {
    e.List? && e.items == []
  }

  /** The number of empty lists in `es`. */
  function EmptyLists(es: seq<Element>): nat
    decreases |es|
  {
    if es == [] then 0
    else EmptyLists(es[..|es| - 1]) + (if IsEmptyList(es[|es| - 1]) then 1 else 0)
  }

  /** The number of `ul` blocks. */
  function UlCount(blocks: seq<Block>): nat
    decreases |blocks|
  {
    if blocks == [] then 0 else UlCount(blocks[..|blocks| - 1]) + (if blocks[|blocks| - 1].kind == "ul" then 1 else 0)
  }

  /** Each projection of `es + [e]` extends that of `es` by what `e` contributes. */
  lemma SnocItems(es: seq<Element>, e: Element)
    ensures ItemsOf(es + [e]) == ItemsOf(es) + (if e.List? then e.items else [])
  {
    assert (es + [e])[..|es|] == es;
  }

  lemma SnocKeys(es: seq<Element>, e: Element)
    ensures ListKeys(es + [e]) == ListKeys(es) + (if e.List? then [e.listKey] else [])
  {
    assert (es + [e])[..|es|] == es;
  }

  lemma SnocOthers(es: seq<Element>, e: Element)
    ensures Others(es + [e]) == Others(es) + (if e.List? then [] else [e])
    ensures EmptyLists(es + [e]) == EmptyLists(es) + (if IsEmptyList(e) then 1 else 0)
  {
    assert (es + [e])[..|es|] == es;
  }

  /** The loop's state after `blocks + [b]` is one more iteration. */
  lemma FoldSnoc(blocks: seq<Block>, b: Block)
    ensures Fold(blocks + [b]) == Step(Fold(blocks), b, |blocks|)
  {
    assert (blocks + [b])[..|blocks|] == blocks;
  }

  /** What `blocks + [b]` adds over `blocks`. */
  lemma SnocBlock(blocks: seq<Block>, b: Block)
    ensures Fold(blocks + [b]) == Step(Fold(blocks), b, |blocks|)
    ensures LiItems(blocks + [b]) == LiItems(blocks) + (if b.kind == "li" then [ListItem(|blocks|, b.text)] else [])
    ensures OtherElements(blocks + [b]) == OtherElements(blocks) + ElementOf(b, |blocks|)
    ensures UlCount(blocks + [b]) == UlCount(blocks) + (if b.kind == "ul" then 1 else 0)
  {
    assert (blocks + [b])[..|blocks|] == blocks;
  }

  // ---------------------------------------------------------- the invariants

  /** Closing the pending items moves them, unchanged, to the end of the emitted items. */
  lemma FlushItems(st: State)
    ensures ItemsOf(Flush(st).elements) + Flush(st).pending == ItemsOf(st.elements) + st.pending
  {
    if st.pending != [] {
      SnocItems(st.elements, List(st.listKey, st.pending));
    }
  }

  /** Closing the pending items takes the next list key. */
  lemma FlushKeys(st: State)
    ensures ListKeys(Flush(st).elements) == ListKeys(st.elements) + (if st.pending == [] then [] else [st.listKey])
    ensures Flush(st).listKey == st.listKey + (if st.pending == [] then 0 else 1)
  {
    if st.pending != [] {
      SnocKeys(st.elements, List(st.listKey, st.pending));
    }
  }

  /** Closing the pending items adds neither a non-list element nor an empty list. */
  lemma FlushOthers(st: State)
    ensures Others(Flush(st).elements) == Others(st.elements)
    ensures EmptyLists(Flush(st).elements) == EmptyLists(st.elements)
  {
    if st.pending != [] {
      SnocOthers(st.elements, List(st.listKey, st.pending));
    }
  }

  /** One iteration adds the block's item, if it is an `li`, after everything emitted or pending. */
  lemma StepItems(st: State, b: Block, idx: nat)
    ensures ItemsOf(Step(st, b, idx).elements) + Step(st, b, idx).pending
         == ItemsOf(st.elements) + st.pending + (if b.kind == "li" then [ListItem(idx, b.text)] else [])
  {
    FlushItems(st);
    var f := Flush(st);
    if b.kind == "ul" {
      SnocItems(f.elements, List(f.listKey, []));
    } else if b.kind != "li" {
      var e := ElementOf(b, idx);
      if e != [] {
        SnocItems(f.elements, e[0]);
        assert f.elements + e == f.elements + [e[0]];
      } else {
        assert f.elements + e == f.elements;
      }
    }
  }

  /** Every `li` text is emitted or pending, once each, in block order. */
  lemma {:induction false} FoldItems(blocks: seq<Block>)
    ensures ItemsOf(Fold(blocks).elements) + Fold(blocks).pending == LiItems(blocks)
    decreases |blocks|
  {
    if blocks != [] {
      var init := blocks[..|blocks| - 1];
      var b := blocks[|blocks| - 1];
      assert init + [b] == blocks;
      SnocBlock(init, b);
      FoldItems(init);
      StepItems(Fold(init), b, |init|);
    }
  }

  lemma FlushNumbering(st: State)
    requires ListKeys(st.elements) == Upto(st.listKey)
    ensures ListKeys(Flush(st).elements) == Upto(Flush(st).listKey)
  {
    FlushKeys(st);
    if st.pending != [] {
      assert Upto(st.listKey + 1) == Upto(st.listKey) + [st.listKey];
    }
  }

  /** One iteration keeps the list keys numbered `0, 1, ...` up to `listKey`. */
  lemma StepKeys(st: State, b: Block, idx: nat)
    requires ListKeys(st.elements) == Upto(st.listKey)
    ensures ListKeys(Step(st, b, idx).elements) == Upto(Step(st, b, idx).listKey)
  {
    FlushNumbering(st);
    var f := Flush(st);
    if b.kind == "ul" {
      SnocKeys(f.elements, List(f.listKey, []));
      assert Upto(f.listKey + 1) == Upto(f.listKey) + [f.listKey];
    } else if b.kind != "li" {
      var e := ElementOf(b, idx);
      if e != [] {
        SnocKeys(f.elements, e[0]);
        assert f.elements + e == f.elements + [e[0]];
      } else {
        assert f.elements + e == f.elements;
      }
    }
  }

  /** One iteration adds the block's own element, if any, to the non-list elements,
      and one empty list for a `ul`. */
  lemma StepOthers(st: State, b: Block, idx: nat)
    ensures Others(Step(st, b, idx).elements) == Others(st.elements) + ElementOf(b, idx)
    ensures EmptyLists(Step(st, b, idx).elements) == EmptyLists(st.elements) + (if b.kind == "ul" then 1 else 0)
  {
    FlushOthers(st);
    var f := Flush(st);
    var r := Step(st, b, idx);
    if b.kind == "ul" {
      assert r.elements == f.elements + [List(f.listKey, [])];
      SnocOthers(f.elements, List(f.listKey, []));
    } else if b.kind == "li" {
      assert r.elements == st.elements;
    } else {
      var e := ElementOf(b, idx);
      assert r.elements == f.elements + e;
      if e != [] {
        SnocOthers(f.elements, e[0]);
        assert f.elements + e == f.elements + [e[0]];
      } else {
        assert f.elements + e == f.elements;
      }
    }
  }

  /** The lists are keyed `0, 1, ...` in order, and `listKey` counts them. */
  lemma {:induction false} FoldKeys(blocks: seq<Block>)
    ensures ListKeys(Fold(blocks).elements) == Upto(Fold(blocks).listKey)
    decreases |blocks|
  {
    if blocks != [] {
      var init := blocks[..|blocks| - 1];
      var b := blocks[|blocks| - 1];
      assert init + [b] == blocks;
      SnocBlock(init, b);
      FoldKeys(init);
      StepKeys(Fold(init), b, |init|);
    }
  }

  /** The headings, paragraphs and notes come out in block order, and nothing else besides lists. */
  lemma {:induction false} FoldOthers(blocks: seq<Block>)
    ensures Others(Fold(blocks).elements) == OtherElements(blocks)
    ensures EmptyLists(Fold(blocks).elements) == UlCount(blocks)
    decreases |blocks|
  {
    if blocks != [] {
      var init := blocks[..|blocks| - 1];
      var b := blocks[|blocks| - 1];
      assert init + [b] == blocks;
      SnocBlock(init, b);
      FoldOthers(init);
      StepOthers(Fold(init), b, |init|);
    }
  }

  /**
   * What the article body promises: every `li` text appears exactly once
   * across the lists, in block order; the lists are keyed `ul-0`, `ul-1`,
   * ...; there is one empty list per `ul` block; and the other elements
   * are the `h2`, `p` and `note` blocks in order.
   */
  lemma RenderSpec(blocks: seq<Block>)
    ensures ItemsOf(Render(blocks)) == LiItems(blocks)
    ensures exists n: nat :: ListKeys(Render(blocks)) == Upto(n)
    ensures Others(Render(blocks)) == OtherElements(blocks)
    ensures EmptyLists(Render(blocks)) == UlCount(blocks)
  {
    FoldItems(blocks);
    FoldKeys(blocks);
    FoldOthers(blocks);
    FlushItems(Fold(blocks));
    FlushKeys(Fold(blocks));
    FlushOthers(Fold(blocks));
    var st := Fold(blocks);
    if st.pending != [] {
      assert Upto(st.listKey + 1) == Upto(st.listKey) + [st.listKey];
    }
    assert ListKeys(Render(blocks)) == Upto(Flush(st).listKey);
  }

  /** An `li` block only appends its item, tagged with the block's index, to the pending items. */
  lemma StepLi(st: State, b: Block, idx: nat)
    requires b.kind == "li"
    ensures Step(st, b, idx) == State(st.elements, st.pending + [ListItem(idx, b.text)], st.listKey)
  {
    assert b.kind[0] != "ul"[0];
  }

  /** The items a run of `li` blocks starting at index `start` contributes. */
  function RunItems(start: nat, lis: seq<Block>): (r: seq<ListItem>)
    ensures |r| == |lis|
    ensures forall j :: 0 <= j < |lis| ==> r[j] == ListItem(start + j, lis[j].text)
  {
    seq(|lis|, j requires 0 <= j < |lis| => ListItem(start + j, lis[j].text))
  }

  /**
   * A run of `li` blocks from index `k` to the end only adds to the pending
   * items, each tagged with its own index.
   */
  lemma {:induction false} LiRun(blocks: seq<Block>, k: nat)
    requires k <= |blocks|
    requires forall j :: k <= j < |blocks| ==> blocks[j].kind == "li"
    ensures var start := Fold(blocks[..k]);
      Fold(blocks) == State(start.elements, start.pending + RunItems(k, blocks[k..]), start.listKey)
    decreases |blocks|
  {
    var start := Fold(blocks[..k]);
    if |blocks| == k {
      assert blocks[..k] == blocks;
      assert start.pending + RunItems(k, blocks[k..]) == start.pending;
    } else {
      var init := blocks[..|blocks| - 1];
      var last := blocks[|blocks| - 1];
      var items := RunItems(k, init[k..]);
      var item := ListItem(|init|, last.text);
      LiRun(init, k);
      assert init[..k] == blocks[..k];
      StepLi(Fold(init), last, |init|);
      assert blocks[k..] == init[k..] + [last];
      RunItemsSnoc(k, init[k..], last);
      Associative(start.pending, items, [item]);
    }
  }

  lemma SplitAfter<T>(a: seq<T>, b: seq<T>)
    ensures (a + b)[..|a|] == a && (a + b)[|a|..] == b
  {
  }

  lemma Associative<T>(a: seq<T>, b: seq<T>, c: seq<T>)
    ensures a + (b + c) == (a + b) + c
  {
  }

  /** The items of a run one block longer end with that block's item. */
  lemma RunItemsSnoc(start: nat, init: seq<Block>, last: Block)
    ensures RunItems(start, init + [last]) == RunItems(start, init) + [ListItem(start + |init|, last.text)]
  {
  }

  /**
   * A `ul` block closes what is pending and emits an empty list; a run of `li`
   * blocks after it only fills the pending items.
   */
  lemma UlThenLiState(pre: seq<Block>, ul: Block, lis: seq<Block>)
    requires ul.kind == "ul"
    requires forall j :: 0 <= j < |lis| ==> lis[j].kind == "li"
    ensures var f := Flush(Fold(pre));
      Fold(pre + [ul] + lis) ==
        State(f.elements + [List(f.listKey, [])], RunItems(|pre| + 1, lis), f.listKey + 1)
  {
    var blocks := pre + [ul] + lis;
    FoldSnoc(pre, ul);
    SplitAfter(pre + [ul], lis);
    LiRun(blocks, |pre| + 1);
    assert [] + RunItems(|pre| + 1, lis) == RunItems(|pre| + 1, lis);
  }

  /** Closing pending items after an empty list puts them in a list of their own. */
  lemma FlushAfterEmptyList(es: seq<Element>, key: nat, items: seq<ListItem>)
    requires items != []
    ensures Flush(State(es + [List(key, [])], items, key + 1)).elements ==
      es + [List(key, []), List(key + 1, items)]
  {
  }

  /**
   * A run of `li` blocks right after a `ul` does not fill that (empty) list:
   * whatever came before is closed, the `ul` renders as an empty list, and the
   * run becomes the next list, keyed one higher.
   */
  lemma UlThenLi(pre: seq<Block>, ul: Block, lis: seq<Block>)
    requires ul.kind == "ul" && |lis| > 0
    requires forall j :: 0 <= j < |lis| ==> lis[j].kind == "li"
    ensures var f := Flush(Fold(pre));
      Render(pre + [ul] + lis) ==
        f.elements + [List(f.listKey, []), List(f.listKey + 1, RunItems(|pre| + 1, lis))]
  {
    var f := Flush(Fold(pre));
    UlThenLiState(pre, ul, lis);
    FlushAfterEmptyList(f.elements, f.listKey, RunItems(|pre| + 1, lis));
  }

  // ------------------------------------------------------------- page lookup

  /** An entry of `blogs`. */
  datatype Post = Post(slug: string, title: string, summary: string)

  /** `blogs.find(b => b.slug === slug)`. */
  function FindPost(posts: seq<Post>, slug: string): (r: Option<Post>)
    ensures r.None? <==> forall i :: 0 <= i < |posts| ==> posts[i].slug != slug
    ensures r.Some? ==> r.value in posts && r.value.slug == slug
  {
    if posts == [] then None
    else if posts[0].slug == slug then Some(posts[0])
    else FindPost(posts[1..], slug)
  }

  /** `find` returns the first post with the slug. */
  lemma {:induction false} FindPostFirst(posts: seq<Post>, slug: string, i: int)
    requires 0 <= i < |posts| && posts[i].slug == slug
    requires forall j :: 0 <= j < i ==> posts[j].slug != slug
    ensures FindPost(posts, slug) == Some(posts[i])
  {
    if i > 0 {
      FindPostFirst(posts[1..], slug, i - 1);
    }
  }

  /** `blogContentBySlug[slug] || []`. */
  function BlocksFor(content: map<string, seq<Block>>, slug: string): seq<Block>
  {
    if slug in content then content[slug] else []
  }

  datatype Page = NotFound | Article(post: Post, body: seq<Element>)

  /** The page for a slug: not found without a post, otherwise the post with its rendered body. */
  function BlogPostPage(posts: seq<Post>, content: map<string, seq<Block>>, slug: string): (page: Page)
    ensures page.NotFound? <==> forall i :: 0 <= i < |posts| ==> posts[i].slug != slug
    ensures page.Article? ==> page.post.slug == slug && page.body == Render(BlocksFor(content, slug))
  {
    var post := FindPost(posts, slug);
    if post.None? then NotFound else Article(post.value, Render(BlocksFor(content, slug)))
  }

  /** A post without content shows an empty body. */
  lemma PostWithoutContent(posts: seq<Post>, content: map<string, seq<Block>>, slug: string)
    requires slug !in content
    requires BlogPostPage(posts, content, slug).Article?
    ensures BlogPostPage(posts, content, slug).body == []
  {
  }
}
