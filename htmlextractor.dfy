/**
 * The HTML text walker: parse the upload, then walk the node tree in document
 * order, writing each text node's data and a space into a string builder.
 */
module HtmlExtractor {
  import opened Wrappers
  import opened TextJoin

  /** The node kinds of the HTML parser. */
  datatype NodeType = ErrorNode | TextNode | DocumentNode | ElementNode | CommentNode | DoctypeNode | RawNode

  /**
   * A parsed HTML node. `children` lists the nodes reached from `FirstChild`
   * along `NextSibling`, in that order.
   */
  datatype Node = Node(nodeType: NodeType, data: string, children: seq<Node>)

  /** What a node writes itself, before its children: its data and a space if it is a text node. */
  function Own(n: Node): string
  {
    if n.nodeType == TextNode then n.data + " " else ""
  }

  /** The text the walk writes for `n` and its descendants. */
  function Text(n: Node): string
    decreases n, 1
  {
    Own(n) + Siblings(n.children, |n.children|)
  }

  /** The text the walk writes for the first `k` of a list of siblings, visited in order. */
  function Siblings(cs: seq<Node>, k: nat): string
    requires k <= |cs|
    decreases cs, k
  {
    if k == 0 then "" else Siblings(cs, k - 1) + Text(cs[k - 1])
  }

  /** Every node of the tree rooted at `n`, in pre-order (document order). */
  function PreOrder(n: Node): seq<Node>
    decreases n, 1
  {
    [n] + PreOrderSiblings(n.children, |n.children|)
  }

  /** The pre-orders of the first `k` siblings, one after the other. */
  function PreOrderSiblings(cs: seq<Node>, k: nat): seq<Node>
    requires k <= |cs|
    decreases cs, k
  {
    if k == 0 then [] else PreOrderSiblings(cs, k - 1) + PreOrder(cs[k - 1])
  }

  /** The data of the text nodes among `ns`, in order. */
  function TextData(ns: seq<Node>): seq<string>
  {
    if ns == [] then []
    else (if ns[0].nodeType == TextNode then [ns[0].data] else []) + TextData(ns[1..])
  }

  lemma {:induction false} TextDataAppend(a: seq<Node>, b: seq<Node>)
    ensures TextData(a + b) == TextData(a) + TextData(b)
  {
    if a != [] {
      assert (a + b)[1..] == a[1..] + b;
      TextDataAppend(a[1..], b);
    } else {
      assert a + b == b;
    }
  }

  /** The walk of the first `k` siblings depends on those siblings only. */
  lemma {:induction false} SiblingsPrefix(a: seq<Node>, b: seq<Node>, k: nat)
    requires k <= |a| && k <= |b|
    requires forall i :: 0 <= i < k ==> a[i] == b[i]
    ensures Siblings(a, k) == Siblings(b, k)
  {
    if k > 0 {
      SiblingsPrefix(a, b, k - 1);
      assert a[k - 1] == b[k - 1];
    }
  }

  /** The walk of one sibling more appends that sibling's walk. */
  lemma SiblingsNext(cs: seq<Node>, k: nat)
    requires k < |cs|
    ensures Siblings(cs, k + 1) == Siblings(cs, k) + Text(cs[k])
  {
  }

  /** One step of `SiblingsSplit`: from `k - 1` siblings to `k`. */
  lemma SplitStep(cs: seq<Node>, j: nat, k: nat)
    requires j < k <= |cs|
    requires Siblings(cs, k - 1) == Siblings(cs, j) + Siblings(cs[j..k - 1], k - 1 - j)
    ensures Siblings(cs, k) == Siblings(cs, j) + Siblings(cs[j..k], k - j)
  {
    var mid, mid' := cs[j..k], cs[j..k - 1];
    var m := k - 1 - j;
    assert forall i :: 0 <= i < m ==> mid[i] == mid'[i];
    SiblingsPrefix(mid, mid', m);
    assert mid[m] == cs[k - 1];
    SiblingsNext(cs, k - 1);
    SiblingsNext(mid, m);
    ConcatAssoc(Siblings(cs, j), Siblings(mid', m), Text(cs[k - 1]));
  }

  /**
   * Compositionality over siblings: the walk of the first `k` siblings is the
   * walk of the first `j` followed by the walk of siblings `j .. k-1`.
   */
  lemma {:induction false} SiblingsSplit(cs: seq<Node>, j: nat, k: nat)
    requires j <= k <= |cs|
    ensures Siblings(cs, k) == Siblings(cs, j) + Siblings(cs[j..k], k - j)
    decreases k
  {
    if k > j {
      SiblingsSplit(cs, j, k - 1);
      SplitStep(cs, j, k);
    }
  }

  /**
   * Compositionality: the walk of a node is its own contribution followed by
   * the walks of its children, in sibling order, split at any child.
   */
  lemma TextUnfolds(n: Node, k: nat)
    requires k <= |n.children|
    ensures Text(n) == Own(n) + Siblings(n.children, k) + Siblings(n.children[k..], |n.children| - k)
  {
    var cs := n.children;
    SiblingsSplit(cs, k, |cs|);
    assert cs[k..|cs|] == cs[k..];
    ConcatAssoc(Own(n), Siblings(cs, k), Siblings(cs[k..], |cs| - k));
  }

  /** One sibling more: if the walks so far agree with the reference, they still do. */
  lemma SiblingsStep(cs: seq<Node>, k: nat)
    requires 0 < k <= |cs|
    requires Siblings(cs, k - 1) == Join(TextData(PreOrderSiblings(cs, k - 1)))
    requires Text(cs[k - 1]) == Join(TextData(PreOrder(cs[k - 1])))
    ensures Siblings(cs, k) == Join(TextData(PreOrderSiblings(cs, k)))
  {
    var before, own := PreOrderSiblings(cs, k - 1), PreOrder(cs[k - 1]);
    TextDataAppend(before, own);
    JoinAppend(TextData(before), TextData(own));
  }

  /** A node's walk agrees with the reference once its children's walks do. */
  lemma NodeStep(n: Node)
    requires Siblings(n.children, |n.children|) == Join(TextData(PreOrderSiblings(n.children, |n.children|)))
    ensures Text(n) == Join(TextData(PreOrder(n)))
  {
    var rest := PreOrderSiblings(n.children, |n.children|);
    TextDataAppend([n], rest);
    JoinAppend(TextData([n]), TextData(rest));
    assert [n][1..] == [];
    if n.nodeType == TextNode {
      assert Join([n.data]) == n.data + " ";
    }
  }

  /**
   * Reference definition: the walk writes `data + " "` for every text node of
   * the tree, in pre-order, and nothing else.
   */
  lemma {:induction false} TextIsPreOrderJoin(n: Node)
    ensures Text(n) == Join(TextData(PreOrder(n)))
    decreases n
  {
    var cs := n.children;
    var i := 0;
    while i < |cs|
      invariant i <= |cs|
      invariant Siblings(cs, i) == Join(TextData(PreOrderSiblings(cs, i)))
    {
      TextIsPreOrderJoin(cs[i]);
      SiblingsStep(cs, i + 1);
      i := i + 1;
    }
    NodeStep(n);
  }

  /** The walk adds one space per text node on top of the text nodes' data. */
  lemma TextLength(n: Node)
    ensures |Text(n)| == SumLen(TextData(PreOrder(n))) + |TextData(PreOrder(n))|
  {
    TextIsPreOrderJoin(n);
    JoinLength(TextData(PreOrder(n)));
  }

  /** A tree without text nodes yields the empty text, and one with text nodes does not. */
  lemma {:induction false} NoTextNodesMeansEmpty(n: Node)
    ensures Text(n) == "" <==> TextData(PreOrder(n)) == []
    ensures Text(n) != "" ==> Text(n)[|Text(n)| - 1] == ' '
  {
    TextIsPreOrderJoin(n);
    JoinEndsInSpace(TextData(PreOrder(n)));
  }

  /** `strings.Builder`: a buffer that writes only ever append to. */
  class Builder {
    var buf: string

    constructor ()
      ensures buf == ""
    {
      buf := "";
    }

    /** `WriteString`: append `s`, leaving what was written before untouched. */
    method WriteString(s: string)
      modifies this
      ensures buf == old(buf) + s
    {
      buf := buf + s;
    }

    /** `String`: the text written so far. */
    function String(): string
      reads this
    {
      buf
    }
  }

  /**
   * `extractNodeText`: write the node's own text, then walk the children from
   * the first along the sibling chain. The builder only grows, by exactly
   * the walk's text.
   */
  method ExtractNodeText(n: Node, tb: Builder)
    modifies tb
    ensures tb.buf == old(tb.buf) + Text(n)
    decreases n
  {
    if n.nodeType == TextNode {
      tb.WriteString(n.data);
      tb.WriteString(" ");
      ConcatAssoc(old(tb.buf), n.data, " ");
    }
    assert tb.buf == old(tb.buf) + Own(n) + Siblings(n.children, 0);
    var i := 0;
    while i < |n.children|
      invariant 0 <= i <= |n.children|
      invariant tb.buf == old(tb.buf) + Own(n) + Siblings(n.children, i)
    {
      ExtractNodeText(n.children[i], tb);
      SiblingsNext(n.children, i);
      ConcatAssoc(old(tb.buf) + Own(n), Siblings(n.children, i), Text(n.children[i]));
      i := i + 1;
    }
  }

  /**
   * What `ExtractTextFromHTML` returns: the parser's error as it is, or the
   * data of every text node of the parsed document, in document order, each
   * followed by a space. `parse` stands for the HTML parser.
   */
  function HtmlText(htmlData: seq<byte>, parse: seq<byte> -> Result<Node>): (r: Result<string>)
    ensures parse(htmlData).Err? ==> r == Err(parse(htmlData).error)
    ensures parse(htmlData).Ok? ==> r == Ok(Join(TextData(PreOrder(parse(htmlData).value))))
  {
    var parsed := parse(htmlData);
    if parsed.Err? then Err(parsed.error)
    else
      TextIsPreOrderJoin(parsed.value);
      Ok(Text(parsed.value))
  }

  /**
   * `ExtractTextFromHTML`: a parse failure is returned as it is and nothing is
   * walked; otherwise a fresh builder receives the walk of the parsed document.
   */
  method ExtractTextFromHTML(htmlData: seq<byte>, parse: seq<byte> -> Result<Node>) returns (r: Result<string>)
    ensures r == HtmlText(htmlData, parse)
  {
    var parsed := parse(htmlData);
    if parsed.Err? {
      return Err(parsed.error);
    }
    var textBuilder := new Builder();
    ExtractNodeText(parsed.value, textBuilder);
    assert textBuilder.buf == Text(parsed.value);
    r := Ok(textBuilder.String());
  }
}
