/** `mapProductsToCategories`: links every product node to the category nodes it references and
    every category node back to those products, by updating the shared node objects in place. */
module Linker {
  import opened Js
  import opened Graph

  const ProductType := "wcProducts"
  const CategoryType := "wcProductsCategories"

  /** `nodes.filter(node => node.internal.type === "wcProductsCategories")`, order kept. */
  function Categories(nodes: seq<Node>): (cats: seq<Node>)
    ensures forall c :: c in cats ==> c in nodes && c.typeName == CategoryType
    ensures forall n :: n in nodes && n.typeName == CategoryType ==> n in cats
    ensures |nodes| == 1 ==> cats == if nodes[0].typeName == CategoryType then nodes else []
    decreases |nodes|
  {
    if nodes == [] then []
    else (if nodes[0].typeName == CategoryType then [nodes[0]] else []) + Categories(nodes[1..])
  }

  /** `filter` keeps order and multiplicity: the categories of a concatenation are those of
      each part, in order (a single node being kept exactly when it is a category). */
  lemma {:induction false} CategoriesAppend(a: seq<Node>, b: seq<Node>)
    ensures Categories(a + b) == Categories(a) + Categories(b)
    decreases |a|
  {
    if a == [] {
      assert a + b == b;
    } else {
      assert (a + b)[0] == a[0];
      assert (a + b)[1..] == a[1..] + b;
      CategoriesAppend(a[1..], b);
    }
  }

  /** `categories.find(c => id === c.wordpress_id)`: the first category with that source id. */
  function FindCategory(cats: seq<Node>, ref: int): (r: Option<Node>)
    ensures r.Some? ==> r.value in cats && r.value.wordpressId == ref
    decreases |cats|
  {
    if cats == [] then None
    else if cats[0].wordpressId == ref then Some(cats[0])
    else FindCategory(cats[1..], ref)
  }

  /** The category found is the first one with that source id. */
  lemma {:induction false} FindCategoryFirst(cats: seq<Node>, ref: int)
    ensures var r := FindCategory(cats, ref);
      r.Some? ==> exists k :: 0 <= k < |cats| && cats[k] == r.value &&
                              forall m :: 0 <= m < k ==> cats[m].wordpressId != ref
    decreases |cats|
  {
    if cats != [] && cats[0].wordpressId != ref {
      FindCategoryFirst(cats[1..], ref);
      var r := FindCategory(cats, ref);
      if r.Some? {
        var k :| 0 <= k < |cats[1..]| && cats[1..][k] == r.value &&
                 forall m :: 0 <= m < k ==> cats[1..][m].wordpressId != ref;
        assert cats[k + 1] == r.value;
        assert forall m :: 0 <= m < k + 1 ==> cats[m].wordpressId != ref by {
          forall m | 0 <= m < k + 1 ensures cats[m].wordpressId != ref {
            if m > 0 { assert cats[m] == cats[1..][m - 1]; }
          }
        }
      }
    }
  }

  /** `find` returns `undefined` exactly when no category has that source id. */
  lemma {:induction false} FindCategoryNone(cats: seq<Node>, ref: int)
    ensures FindCategory(cats, ref).None? <==> forall c :: c in cats ==> c.wordpressId != ref
    decreases |cats|
  {
    if cats != [] {
      FindCategoryNone(cats[1..], ref);
      assert forall c :: c in cats ==> c == cats[0] || c in cats[1..];
    }
  }

  /** Line 30: only product nodes are linked, and only when there is some category node. */
  predicate Linked(cats: seq<Node>, n: Node) {
    |cats| > 0 && n.typeName == ProductType
  }

  /** `categories_connection___NODE` after the product's references `refs` were processed as
      written: each match re-creates the list (line 34 tests a misspelled key that is never set)
      and pushes the category's node id, so only the last match survives. */
  function Connect(cats: seq<Node>, refs: seq<int>, init: Option<seq<NodeId>>): Option<seq<NodeId>>
    decreases |refs|
  {
    if refs == [] then init
    else
      match FindCategory(cats, refs[|refs| - 1])
      case Some(c) => Some([c.id])
      case None => Connect(cats, refs[..|refs| - 1], init)
  }

  /** The connection a node ends up with after `mapProductsToCategories`. */
  function ConnectionAfter(cats: seq<Node>, n: Node, init: Option<seq<NodeId>>): Option<seq<NodeId>> {
    if Linked(cats, n) then Connect(cats, n.categories, init) else init
  }

  /** Lines 41-46: `if (!list) list = []` then `list.push(...)`. An existing list, even an empty
      one, is truthy and is kept. */
  function AppendLinks(init: Option<seq<NodeId>>, ids: seq<NodeId>): (r: Option<seq<NodeId>>)
    ensures r.Some? <==> init.Some? || ids != []
    ensures init.Some? ==> r.Some? && |init.value| <= |r.value| && r.value[..|init.value|] == init.value
    ensures r.Some? ==> |r.value| == |init.GetOr([])| + |ids| && r.value[|init.GetOr([])|..] == ids
  {
    if ids == [] then init else Some(init.GetOr([]) + ids)
  }

  /** The ids that product `p` pushes onto category `c`'s `products___NODE`, one per reference
      in `refs` whose first matching category is `c`. */
  function RefBackLinks(cats: seq<Node>, p: Node, refs: seq<int>, c: Node): (r: seq<NodeId>)
    ensures |r| <= |refs|
    ensures forall k :: 0 <= k < |r| ==> r[k] == p.id
    decreases |refs|
  {
    if refs == [] then []
    else
      RefBackLinks(cats, p, refs[..|refs| - 1], c) +
      (if FindCategory(cats, refs[|refs| - 1]) == Some(c) then [p.id] else [])
  }

  /** Everything the nodes `nodes`, in order, push onto `c`'s `products___NODE`. */
  function BackLinks(cats: seq<Node>, nodes: seq<Node>, c: Node): seq<NodeId>
    decreases |nodes|
  {
    if nodes == [] then []
    else
      var p := nodes[|nodes| - 1];
      BackLinks(cats, nodes[..|nodes| - 1], c) +
      (if Linked(cats, p) then RefBackLinks(cats, p, p.categories, c) else [])
  }

  /** `mapProductsToCategories(nodes)`, returning the same node objects, in the same order. */
  method MapProductsToCategories(nodes: seq<Node>) returns (r: seq<Node>)
    modifies set n | n in nodes
    ensures r == nodes
    ensures forall n :: n in nodes ==>
      n.categoriesConnection == ConnectionAfter(Categories(nodes), n, old(n.categoriesConnection))
    ensures forall n :: n in nodes ==>
      n.productLinks == AppendLinks(old(n.productLinks), BackLinks(Categories(nodes), nodes, n))
  {
    var categories := Categories(nodes);
    ghost var conn0 := map n | n in nodes :: n.categoriesConnection;
    ghost var links0 := map n | n in nodes :: n.productLinks;
    var i := 0;
    NothingLinkedYet(categories, nodes, conn0, links0);
    while i < |nodes|
      invariant 0 <= i <= |nodes|
      invariant ConnectedUpTo(categories, nodes, i, conn0)
      invariant BackLinkedUpTo(categories, nodes, i, links0)
    {
      LinkNode(categories, nodes, i, conn0, links0);
      i := i + 1;
    }
    EverythingLinked(categories, nodes, conn0, links0);
    r := nodes;
  }

  /** Before the loop every node holds its initial connection and back-links. */
  lemma NothingLinkedYet(categories: seq<Node>, nodes: seq<Node>,
                         conn0: map<Node, Option<seq<NodeId>>>, links0: map<Node, Option<seq<NodeId>>>)
    requires forall n :: n in nodes ==> n in conn0 && conn0[n] == n.categoriesConnection
    requires forall n :: n in nodes ==> n in links0 && links0[n] == n.productLinks
    ensures ConnectedUpTo(categories, nodes, 0, conn0)
    ensures BackLinkedUpTo(categories, nodes, 0, links0)
  {
    assert nodes[..0] == [];
  }

  /** After the loop every node holds its final connection and back-links. */
  lemma EverythingLinked(categories: seq<Node>, nodes: seq<Node>,
                         conn0: map<Node, Option<seq<NodeId>>>, links0: map<Node, Option<seq<NodeId>>>)
    requires ConnectedUpTo(categories, nodes, |nodes|, conn0)
    requires BackLinkedUpTo(categories, nodes, |nodes|, links0)
    ensures forall n :: n in nodes ==>
      n in conn0 && n.categoriesConnection == ConnectionAfter(categories, n, conn0[n])
    ensures forall n :: n in nodes ==>
      n in links0 && n.productLinks == AppendLinks(links0[n], BackLinks(categories, nodes, n))
  {
    assert nodes[..|nodes|] == nodes;
  }

  /** The body of the loop at lines 29-50 for the node at index `i`. */
  method LinkNode(categories: seq<Node>, nodes: seq<Node>, i: nat,
                  ghost conn0: map<Node, Option<seq<NodeId>>>, ghost links0: map<Node, Option<seq<NodeId>>>)
    requires i < |nodes|
    requires forall c :: c in categories ==> c in nodes && c.typeName == CategoryType
    requires ConnectedUpTo(categories, nodes, i, conn0)
    requires BackLinkedUpTo(categories, nodes, i, links0)
    modifies set n | n in nodes
    ensures ConnectedUpTo(categories, nodes, i + 1, conn0)
    ensures BackLinkedUpTo(categories, nodes, i + 1, links0)
  {
    var node := nodes[i];
    ghost var connBefore := map n | n in nodes :: n.categoriesConnection;
    ghost var linksBefore := map n | n in nodes :: n.productLinks;
    if Linked(categories, node) {
      assert node !in categories;
      LinkProduct(categories, node);
    }
    forall n | n in nodes
      ensures n.productLinks == AppendLinks(linksBefore[n],
        if Linked(categories, node) then RefBackLinks(categories, node, node.categories, n) else [])
    {
      if Linked(categories, node) && n !in categories {
        RefBackLinksOnlyToCategories(categories, node, node.categories, n);
      }
    }
    ConnectionStep(categories, nodes, i, conn0, connBefore);
    LinksStep(categories, nodes, i, links0, linksBefore);
  }

  /** The connections after the first `k` nodes were processed: each of those nodes holds its
      final connection, every other node its initial one. */
  ghost predicate ConnectedUpTo(categories: seq<Node>, nodes: seq<Node>, k: nat,
                                conn0: map<Node, Option<seq<NodeId>>>)
    requires k <= |nodes|
    reads set n | n in nodes
  {
    forall n :: n in nodes ==>
      n in conn0 &&
      n.categoriesConnection == (if n in nodes[..k] then ConnectionAfter(categories, n, conn0[n]) else conn0[n])
  }

  /** The back-links after the first `k` nodes were processed: each node's `products___NODE`
      has gained what those nodes pushed onto it, in order. */
  ghost predicate BackLinkedUpTo(categories: seq<Node>, nodes: seq<Node>, k: nat,
                                 links0: map<Node, Option<seq<NodeId>>>)
    requires k <= |nodes|
    reads set n | n in nodes
  {
    forall n :: n in nodes ==>
      n in links0 &&
      n.productLinks == AppendLinks(links0[n], BackLinks(categories, nodes[..k], n))
  }

  /** One step of the loop of `mapProductsToCategories`, for the back-links: what node `i`
      pushes onto each category comes after what the nodes before it pushed. */
  lemma LinksStep(categories: seq<Node>, nodes: seq<Node>, i: nat,
                  links0: map<Node, Option<seq<NodeId>>>, before: map<Node, Option<seq<NodeId>>>)
    requires i < |nodes| && forall n :: n in nodes ==> n in links0 && n in before
    requires forall n :: n in nodes ==>
      before[n] == AppendLinks(links0[n], BackLinks(categories, nodes[..i], n))
    requires forall n :: n in nodes ==> n.productLinks == AppendLinks(before[n],
      if Linked(categories, nodes[i]) then RefBackLinks(categories, nodes[i], nodes[i].categories, n) else [])
    ensures BackLinkedUpTo(categories, nodes, i + 1, links0)
  {
    forall n | n in nodes
      ensures n.productLinks == AppendLinks(links0[n], BackLinks(categories, nodes[..i + 1], n))
    {
      BackLinksStep(categories, nodes, i, n, links0[n]);
    }
  }

  /** One step of the loop of `mapProductsToCategories`, for the connections: when node `i` is
      linked, or left alone, and no other node's connection changes, the nodes processed so far
      hold their final connection and the others their initial one. */
  lemma ConnectionStep(categories: seq<Node>, nodes: seq<Node>, i: nat,
                       conn0: map<Node, Option<seq<NodeId>>>, before: map<Node, Option<seq<NodeId>>>)
    requires i < |nodes| && forall n :: n in nodes ==> n in conn0 && n in before
    requires forall n :: n in nodes ==>
      before[n] == (if n in nodes[..i] then ConnectionAfter(categories, n, conn0[n]) else conn0[n])
    requires forall n :: n in nodes && n != nodes[i] ==> n.categoriesConnection == before[n]
    requires nodes[i].categoriesConnection == ConnectionAfter(categories, nodes[i], before[nodes[i]])
    ensures ConnectedUpTo(categories, nodes, i + 1, conn0)
  {
    var node := nodes[i];
    assert nodes[..i + 1] == nodes[..i] + [node];
    if node in nodes[..i] {
      ConnectIdempotent(categories, node.categories, conn0[node]);
    }
  }

  /** Lines 31-48 for one product: the `forEach` callback run over every reference, in order. */
  method LinkProduct(categories: seq<Node>, node: Node)
    requires node !in categories
    modifies node, set c | c in categories
    ensures node.categoriesConnection == Connect(categories, node.categories, old(node.categoriesConnection))
    ensures node.productLinks == old(node.productLinks)
    ensures forall n :: n in categories ==>
      n.productLinks == AppendLinks(old(n.productLinks), RefBackLinks(categories, node, node.categories, n)) &&
      n.categoriesConnection == old(n.categoriesConnection)
  {
    ghost var conn0 := node.categoriesConnection;
    ghost var links0 := map n | n in categories :: n.productLinks;
    ghost var conns0 := map n | n in categories :: n.categoriesConnection;
    ghost var ownLinks := node.productLinks;
    assert node.categories[..0] == [];
    var j := 0;
    while j < |node.categories|
      invariant 0 <= j <= |node.categories|
      invariant PushedUpTo(categories, node, j, conn0, links0, conns0, ownLinks)
    {
      LinkReference(categories, node, j, conn0, links0, conns0, ownLinks);
      j := j + 1;
    }
    assert node.categories[..j] == node.categories;
  }

  /** The state after the callback ran over the first `j` references of `node`: the connection
      and every category's back-links are as the references so far make them, and nothing else
      has changed. */
  ghost predicate PushedUpTo(categories: seq<Node>, node: Node, j: nat, conn0: Option<seq<NodeId>>,
                             links0: map<Node, Option<seq<NodeId>>>, conns0: map<Node, Option<seq<NodeId>>>,
                             ownLinks: Option<seq<NodeId>>)
    requires j <= |node.categories|
    reads node, set c | c in categories
  {
    node !in categories &&
    node.categoriesConnection == Connect(categories, node.categories[..j], conn0) &&
    node.productLinks == ownLinks &&
    forall n :: n in categories ==>
      n in links0 && n in conns0 &&
      n.productLinks == AppendLinks(links0[n], RefBackLinks(categories, node, node.categories[..j], n)) &&
      n.categoriesConnection == conns0[n]
  }

  /** The `forEach` callback at lines 31-48, for the reference at index `j`: when a category has
      that source id, the product is connected to it and the category gains a back-link. */
  method LinkReference(categories: seq<Node>, node: Node, j: nat, ghost conn0: Option<seq<NodeId>>,
                       ghost links0: map<Node, Option<seq<NodeId>>>, ghost conns0: map<Node, Option<seq<NodeId>>>,
                       ghost ownLinks: Option<seq<NodeId>>)
    requires j < |node.categories|
    requires PushedUpTo(categories, node, j, conn0, links0, conns0, ownLinks)
    modifies node, set c | c in categories
    ensures PushedUpTo(categories, node, j + 1, conn0, links0, conns0, ownLinks)
  {
    var id := node.categories[j];
    var category := FindCategory(categories, id);
    ghost var connBefore := node.categoriesConnection;
    ghost var before := map n | n in categories :: n.productLinks;
    if category.Some? {
      var c := category.value;
      // line 34 reads `categories_conection___NODE`, which no record carries, so the
      // connection list is re-created before every push
      node.categoriesConnection := Some([]);
      node.categoriesConnection := Some(node.categoriesConnection.value + [c.id]);
      if c.productLinks.None? {
        c.productLinks := Some([]);
      }
      c.productLinks := Some(c.productLinks.value + [node.id]);
      assert [] + [c.id] == [c.id];
    }
    PushStep(categories, node, j, conn0, links0, conns0, ownLinks, connBefore, before);
  }

  /** The step lemma behind `LinkReference`. */
  lemma PushStep(categories: seq<Node>, node: Node, j: nat, conn0: Option<seq<NodeId>>,
                 links0: map<Node, Option<seq<NodeId>>>, conns0: map<Node, Option<seq<NodeId>>>,
                 ownLinks: Option<seq<NodeId>>, connBefore: Option<seq<NodeId>>,
                 before: map<Node, Option<seq<NodeId>>>)
    requires j < |node.categories| && node !in categories && node.productLinks == ownLinks
    requires connBefore == Connect(categories, node.categories[..j], conn0)
    requires forall n :: n in categories ==>
      n in links0 && n in conns0 && n in before &&
      before[n] == AppendLinks(links0[n], RefBackLinks(categories, node, node.categories[..j], n)) &&
      n.categoriesConnection == conns0[n]
    requires var found := FindCategory(categories, node.categories[j]);
      node.categoriesConnection == (if found.Some? then Some([found.value.id]) else connBefore)
    requires forall n :: n in categories ==>
      n.productLinks == (if FindCategory(categories, node.categories[j]) == Some(n)
                         then Some(before[n].GetOr([]) + [node.id]) else before[n])
    ensures PushedUpTo(categories, node, j + 1, conn0, links0, conns0, ownLinks)
  {
    var refs := node.categories;
    assert refs[..j + 1] == refs[..j] + [refs[j]];
    assert refs[..j + 1][..j] == refs[..j];
    assert [] + [node.id] == [node.id];
    assert Connect(categories, refs[..j + 1], conn0) ==
      match FindCategory(categories, refs[j])
      case Some(c) => Some([c.id])
      case None => connBefore;
    forall n | n in categories
      ensures n.productLinks == AppendLinks(links0[n], RefBackLinks(categories, node, refs[..j + 1], n))
    {
      RefBackLinksStep(categories, node, refs, j, n, links0[n]);
    }
  }

  /** One more reference processed: its push comes after those of the references before it. */
  lemma RefBackLinksStep(cats: seq<Node>, p: Node, refs: seq<int>, j: nat, n: Node, init: Option<seq<NodeId>>)
    requires j < |refs|
    ensures var added := if FindCategory(cats, refs[j]) == Some(n) then [p.id] else [];
      AppendLinks(AppendLinks(init, RefBackLinks(cats, p, refs[..j], n)), added) ==
      AppendLinks(init, RefBackLinks(cats, p, refs[..j + 1], n))
  {
    var added := if FindCategory(cats, refs[j]) == Some(n) then [p.id] else [];
    assert refs[..j + 1][..j] == refs[..j];
    assert RefBackLinks(cats, p, refs[..j + 1], n) == RefBackLinks(cats, p, refs[..j], n) + added;
    AppendLinksCompose(init, RefBackLinks(cats, p, refs[..j], n), added);
  }

  /** One more node processed: its pushes come after those of the nodes before it. */
  lemma BackLinksStep(categories: seq<Node>, nodes: seq<Node>, i: nat, n: Node, init: Option<seq<NodeId>>)
    requires i < |nodes|
    ensures var added := if Linked(categories, nodes[i]) then RefBackLinks(categories, nodes[i], nodes[i].categories, n) else [];
      AppendLinks(AppendLinks(init, BackLinks(categories, nodes[..i], n)), added) ==
      AppendLinks(init, BackLinks(categories, nodes[..i + 1], n)) &&
      (n !in categories ==> added == [])
  {
    var before := BackLinks(categories, nodes[..i], n);
    var added := if Linked(categories, nodes[i]) then RefBackLinks(categories, nodes[i], nodes[i].categories, n) else [];
    assert nodes[..i + 1][..i] == nodes[..i];
    assert BackLinks(categories, nodes[..i + 1], n) == before + added;
    if n !in categories {
      RefBackLinksOnlyToCategories(categories, nodes[i], nodes[i].categories, n);
    }
    AppendLinksCompose(init, before, added);
  }

  lemma AppendLinksCompose(init: Option<seq<NodeId>>, a: seq<NodeId>, b: seq<NodeId>)
    ensures AppendLinks(AppendLinks(init, a), b) == AppendLinks(init, a + b)
  {
    if b == [] {
      assert a + b == a;
    } else if a == [] {
      assert a + b == b;
    } else {
      assert AppendLinks(init, a).GetOr([]) == init.GetOr([]) + a;
      assert (init.GetOr([]) + a) + b == init.GetOr([]) + (a + b);
    }
  }

  /** Processing a product's references again leaves its connection as it was: the connection
      depends only on the last matching reference. */
  lemma {:induction false} ConnectIdempotent(cats: seq<Node>, refs: seq<int>, init: Option<seq<NodeId>>)
    ensures Connect(cats, refs, Connect(cats, refs, init)) == Connect(cats, refs, init)
    decreases |refs|
  {
    if refs != [] {
      ConnectIdempotent(cats, refs[..|refs| - 1], init);
    }
  }

  /** As written, a product keeps exactly one connection, to the category matched by its last
      matching reference; with no match the connection is left as it was. */
  lemma {:induction false} ConnectKeepsLastMatch(cats: seq<Node>, refs: seq<int>, init: Option<seq<NodeId>>, j: nat)
    requires j < |refs| && FindCategory(cats, refs[j]).Some?
    requires forall m :: j < m < |refs| ==> FindCategory(cats, refs[m]).None?
    ensures Connect(cats, refs, init) == Some([FindCategory(cats, refs[j]).value.id])
    decreases |refs|
  {
    if j < |refs| - 1 {
      ConnectKeepsLastMatch(cats, refs[..|refs| - 1], init, j);
    }
  }

  /** Unmatched references change nothing. */
  lemma {:induction false} ConnectWithoutMatch(cats: seq<Node>, refs: seq<int>, init: Option<seq<NodeId>>)
    requires forall m :: 0 <= m < |refs| ==> FindCategory(cats, refs[m]).None?
    ensures Connect(cats, refs, init) == init
    decreases |refs|
  {
    if refs != [] {
      ConnectWithoutMatch(cats, refs[..|refs| - 1], init);
    }
  }

  /** A product referencing two existing categories is connected to the second one only. */
  lemma TwoMatchesKeepOnlyLast(c1: Node, c2: Node)
    requires c1.wordpressId == 10 && c2.wordpressId == 20 && c1.id != c2.id
    ensures Connect([c1, c2], [10, 20], None) == Some([c2.id])
    ensures IntendedConnect([c1, c2], [10, 20], None) == Some([c1.id, c2.id])
  {
    assert FindCategory([c1, c2], 10) == Some(c1);
    assert FindCategory([c1, c2], 20) == Some(c2);
    assert [10, 20][..1] == [10];
    assert [10][..0] == [];
    assert IntendedConnect([c1, c2], [], None) == None;
    assert [] + [c1.id] == [c1.id];
    assert IntendedConnect([c1, c2], [10], None) == Some([c1.id]);
    assert [c1.id] + [c2.id] == [c1.id, c2.id];
  }

  /** The node ids of the categories that `refs` match, in order. */
  function MatchedIds(cats: seq<Node>, refs: seq<int>): seq<NodeId>
    decreases |refs|
  {
    if refs == [] then []
    else
      MatchedIds(cats, refs[..|refs| - 1]) +
      match FindCategory(cats, refs[|refs| - 1])
      case Some(c) => [c.id]
      case None => []
  }

  /** The connection as evidently intended (line 34 testing `categories_connection___NODE`):
      the list is created once and every match is pushed onto it. */
  function IntendedConnect(cats: seq<Node>, refs: seq<int>, init: Option<seq<NodeId>>): Option<seq<NodeId>>
    decreases |refs|
  {
    if refs == [] then init
    else
      var prior := IntendedConnect(cats, refs[..|refs| - 1], init);
      match FindCategory(cats, refs[|refs| - 1])
      case Some(c) => Some(prior.GetOr([]) + [c.id])
      case None => prior
  }

  /** With the intended test, a product is connected to the category of every matching
      reference, in reference order, after whatever it already had. */
  lemma {:induction false} IntendedConnectLinksAll(cats: seq<Node>, refs: seq<int>, init: Option<seq<NodeId>>)
    ensures IntendedConnect(cats, refs, init) == AppendLinks(init, MatchedIds(cats, refs))
    ensures forall m :: 0 <= m < |refs| && FindCategory(cats, refs[m]).Some? ==>
      IntendedConnect(cats, refs, init).Some? &&
      FindCategory(cats, refs[m]).value.id in IntendedConnect(cats, refs, init).value
    decreases |refs|
  {
    if refs != [] {
      var prior := refs[..|refs| - 1];
      IntendedConnectLinksAll(cats, prior, init);
      var last := FindCategory(cats, refs[|refs| - 1]);
      AppendLinksCompose(init, MatchedIds(cats, prior), if last.Some? then [last.value.id] else []);
    }
    MatchedIdsComplete(cats, refs);
  }

  /** Every matching reference contributes its category's node id. */
  lemma {:induction false} MatchedIdsComplete(cats: seq<Node>, refs: seq<int>)
    ensures forall m :: 0 <= m < |refs| && FindCategory(cats, refs[m]).Some? ==>
      FindCategory(cats, refs[m]).value.id in MatchedIds(cats, refs)
    decreases |refs|
  {
    if refs != [] {
      var prior := refs[..|refs| - 1];
      MatchedIdsComplete(cats, prior);
      assert forall m :: 0 <= m < |prior| ==> refs[m] == prior[m];
    }
  }

  /** Only category nodes receive back-links: a node that is not a category, or any node when
      there is no category at all, keeps its `products___NODE`. */
  lemma {:induction false} BackLinksOnlyToCategories(cats: seq<Node>, nodes: seq<Node>, n: Node)
    requires n !in cats
    ensures BackLinks(cats, nodes, n) == []
    decreases |nodes|
  {
    if nodes != [] {
      BackLinksOnlyToCategories(cats, nodes[..|nodes| - 1], n);
      RefBackLinksOnlyToCategories(cats, nodes[|nodes| - 1], nodes[|nodes| - 1].categories, n);
    }
  }

  lemma {:induction false} RefBackLinksOnlyToCategories(cats: seq<Node>, p: Node, refs: seq<int>, n: Node)
    requires n !in cats
    ensures RefBackLinks(cats, p, refs, n) == []
    decreases |refs|
  {
    if refs != [] {
      RefBackLinksOnlyToCategories(cats, p, refs[..|refs| - 1], n);
    }
  }

  /** Back-links accumulate: each reference of a linked product whose first matching category
      is `c` puts the product's id on `c`'s `products___NODE`. */
  lemma {:induction false} BackLinksRecordEveryMatch(cats: seq<Node>, nodes: seq<Node>, i: nat, m: nat, c: Node)
    requires i < |nodes| && Linked(cats, nodes[i])
    requires m < |nodes[i].categories| && FindCategory(cats, nodes[i].categories[m]) == Some(c)
    ensures nodes[i].id in BackLinks(cats, nodes, c)
    decreases |nodes|
  {
    if i < |nodes| - 1 {
      BackLinksRecordEveryMatch(cats, nodes[..|nodes| - 1], i, m, c);
    } else {
      RefBackLinksRecordMatch(cats, nodes[i], nodes[i].categories, m, c);
    }
  }

  lemma {:induction false} RefBackLinksRecordMatch(cats: seq<Node>, p: Node, refs: seq<int>, m: nat, c: Node)
    requires m < |refs| && FindCategory(cats, refs[m]) == Some(c)
    ensures p.id in RefBackLinks(cats, p, refs, c)
    decreases |refs|
  {
    if m < |refs| - 1 {
      RefBackLinksRecordMatch(cats, p, refs[..|refs| - 1], m, c);
    }
  }

  /** Conversely, a product pushes onto `c` only for a reference whose first matching category
      is `c`: references that match nothing, or match another category, push nothing onto it. */
  lemma {:induction false} RefBackLinksSound(cats: seq<Node>, p: Node, refs: seq<int>, c: Node)
    ensures RefBackLinks(cats, p, refs, c) != [] ==>
      exists m :: 0 <= m < |refs| && FindCategory(cats, refs[m]) == Some(c)
    ensures (forall m :: 0 <= m < |refs| ==> FindCategory(cats, refs[m]) != Some(c)) ==>
      RefBackLinks(cats, p, refs, c) == []
    decreases |refs|
  {
    if refs != [] {
      var prior := refs[..|refs| - 1];
      RefBackLinksSound(cats, p, prior, c);
      if RefBackLinks(cats, p, prior, c) != [] {
        var m :| 0 <= m < |prior| && FindCategory(cats, prior[m]) == Some(c);
        assert refs[m] == prior[m];
      }
      if forall m :: 0 <= m < |refs| ==> FindCategory(cats, refs[m]) != Some(c) {
        assert forall m :: 0 <= m < |prior| ==> prior[m] == refs[m];
      }
    }
  }

  /** Every id on `c`'s `products___NODE` is that of a linked product with a reference whose
      first matching category is `c`. */
  lemma {:induction false} BackLinksSound(cats: seq<Node>, nodes: seq<Node>, c: Node, x: NodeId)
    requires x in BackLinks(cats, nodes, c)
    ensures exists i, m ::
              0 <= i < |nodes| && Linked(cats, nodes[i]) && x == nodes[i].id &&
              0 <= m < |nodes[i].categories| && FindCategory(cats, nodes[i].categories[m]) == Some(c)
    decreases |nodes|
  {
    var init := nodes[..|nodes| - 1];
    var p := nodes[|nodes| - 1];
    if x in BackLinks(cats, init, c) {
      BackLinksSound(cats, init, c, x);
      var i, m :| 0 <= i < |init| && Linked(cats, init[i]) && x == init[i].id &&
        0 <= m < |init[i].categories| && FindCategory(cats, init[i].categories[m]) == Some(c);
      assert nodes[i] == init[i];
    } else {
      var i := |nodes| - 1;
      assert Linked(cats, p) && x in RefBackLinks(cats, p, p.categories, c);
      RefBackLinksSound(cats, p, p.categories, c);
      var m :| 0 <= m < |p.categories| && FindCategory(cats, p.categories[m]) == Some(c);
      assert x == p.id;
      assert nodes[i] == p;
    }
  }

  /** Linking is not idempotent: a product linked to category `c` puts its id on `c`'s
      `products___NODE` again when `mapProductsToCategories` runs a second time over the same
      nodes, so the list is strictly longer after the second run than after the first. */
  lemma RelinkingDuplicatesBackLinks(nodes: seq<Node>, i: nat, m: nat, c: Node, init: Option<seq<NodeId>>)
    requires i < |nodes| && Linked(Categories(nodes), nodes[i])
    requires m < |nodes[i].categories| && FindCategory(Categories(nodes), nodes[i].categories[m]) == Some(c)
    ensures var links := BackLinks(Categories(nodes), nodes, c);
      var first := AppendLinks(init, links);
      var second := AppendLinks(first, links);
      first.Some? && second.Some? && second != first &&
      |second.value| == |init.GetOr([])| + 2 * |links| && nodes[i].id in second.value[|first.value|..]
  {
    var links := BackLinks(Categories(nodes), nodes, c);
    BackLinksRecordEveryMatch(Categories(nodes), nodes, i, m, c);
    assert links != [];
  }

  /** Two categories with source ids 10 and 20 and a product referencing 10: the product is
      connected to category 10 only, which gets exactly one back-link, and category 20 none. */
  lemma OneProductTwoCategories(c10: Node, c20: Node, p: Node)
    requires c10.typeName == CategoryType && c20.typeName == CategoryType && p.typeName == ProductType
    requires c10.wordpressId == 10 && c20.wordpressId == 20 && p.categories == [10]
    requires c10 != c20
    ensures Categories([c10, c20, p]) == [c10, c20]
    ensures ConnectionAfter([c10, c20], p, None) == Some([c10.id])
    ensures BackLinks([c10, c20], [c10, c20, p], c10) == [p.id]
    ensures BackLinks([c10, c20], [c10, c20, p], c20) == []
  {
    var cats := [c10, c20];
    var nodes := [c10, c20, p];
    assert nodes[1..] == [c20, p];
    assert nodes[1..][1..] == [p];
    assert [p][1..] == [];
    assert Categories([p]) == [];
    assert Categories([c20, p]) == [c20];
    assert Categories(nodes) == [c10] + [c20];
    assert FindCategory(cats, 10) == Some(c10);
    assert [10][..0] == [];
    assert nodes[..2] == cats;
    assert cats[..1] == [c10];
    assert [c10][..0] == [];
    assert !Linked(cats, c10) && !Linked(cats, c20) && Linked(cats, p);
    assert BackLinks(cats, [c10], c10) == [];
    assert BackLinks(cats, cats, c10) == [];
    assert BackLinks(cats, [c10], c20) == [];
    assert BackLinks(cats, cats, c20) == [];
    assert RefBackLinks(cats, p, [10], c10) == [p.id];
    assert RefBackLinks(cats, p, [10], c20) == [];
  }
}
