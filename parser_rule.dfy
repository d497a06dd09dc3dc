/** The generic syntax-tree node (ParserRule): an ordered list of children
    with a back-link from each child to its parent. The nodes of one parse
    live in a SyntaxTree and refer to each other by index, so a parent link
    is a plain index and never an owning reference. A node's type is fixed
    when it is created. */
module ParserRules {
  import opened Tokens
  import opened SyntaxNodeTypes

  /** An interior rule, or a terminal node holding the token it stands for. */
  datatype RuleKind = Rule | Terminal(token: Option<Token>)

  datatype ParserRule = ParserRule(nodeType: NodeType, kind: RuleKind, parent: Option<nat>, children: seq<nat>)

  /** Every child was created after its parent and exists. This keeps the
      tree acyclic, so that text and span computations terminate. */
  ghost predicate WellFormed(rules: seq<ParserRule>)
  {
    forall i, k :: 0 <= i < |rules| && 0 <= k < |rules[i].children| ==> i < rules[i].children[k] < |rules|
  }

  /** Every child's parent link names the node that holds it. */
  ghost predicate Linked(rules: seq<ParserRule>)
  {
    && WellFormed(rules)
    && forall i, k :: 0 <= i < |rules| && 0 <= k < |rules[i].children| ==> rules[rules[i].children[k]].parent == Some(i)
  }

  /** AddChildNode on values: the child's parent becomes p and the child is
      appended to p's children; nothing else changes. */
  function Attach(rules: seq<ParserRule>, p: nat, c: nat): (r: seq<ParserRule>)
    requires p < c < |rules|
    ensures |r| == |rules|
    ensures r[c].parent == Some(p) && r[p].children == rules[p].children + [c]
    ensures forall i :: 0 <= i < |r| ==> r[i].nodeType == rules[i].nodeType && r[i].kind == rules[i].kind
    ensures forall i :: 0 <= i < |r| && i != p ==> r[i].children == rules[i].children
    ensures forall i :: 0 <= i < |r| && i != c ==> r[i].parent == rules[i].parent
  {
    rules[c := rules[c].(parent := Some(p))][p := rules[p].(children := rules[p].children + [c])]
  }

  /** Creating a node and attaching it to p in one go: the node takes the
      next free index. */
  function Adopt(rules: seq<ParserRule>, p: nat, node: ParserRule): (r: seq<ParserRule>)
    requires p < |rules|
    ensures |r| == |rules| + 1
  {
    Attach(rules + [node], p, |rules|)
  }

  /** Adopting a fresh node appends it to p's children and changes no other
      node; the tree stays well formed and its links stay right. */
  lemma AdoptShape(rules: seq<ParserRule>, p: nat, node: ParserRule)
    requires WellFormed(rules) && p < |rules| && node.parent.None? && node.children == []
    ensures var r := Adopt(rules, p, node); var n := |rules|;
      && WellFormed(r)
      && r[p] == rules[p].(children := rules[p].children + [n])
      && r[n] == node.(parent := Some(p))
      && (forall i :: 0 <= i < n && i != p ==> r[i] == rules[i])
      && (Linked(rules) ==> Linked(r))
  {
    var n := |rules|;
    var grown := rules + [node];
    assert WellFormed(grown);
    assert Linked(rules) ==> Linked(grown);
    if Linked(rules) {
      AttachKeepsLinks(grown, p, n);
    }
  }

  /** The text of a terminal: its token's value, empty without a token. */
  function TokenText(t: Option<Token>): string
  {
    if t.Some? then t.value.value else ""
  }

  /** In-order concatenation. */
  function Concat(texts: seq<string>): string
  {
    if texts == [] then "" else Concat(texts[..|texts| - 1]) + texts[|texts| - 1]
  }

  /** GetText: a terminal's token text; for a rule, its children's texts in order. */
  function Text(rules: seq<ParserRule>, id: nat): string
    requires WellFormed(rules) && id < |rules|
    decreases |rules| - id, 1
  {
    match rules[id].kind
    case Terminal(t) => TokenText(t)
    case Rule => Concat(ChildTexts(rules, id))
  }

  /** The texts of a node's children, in order. */
  function ChildTexts(rules: seq<ParserRule>, id: nat): (ts: seq<string>)
    requires WellFormed(rules) && id < |rules|
    ensures |ts| == |rules[id].children|
    decreases |rules| - id, 0
  {
    seq(|rules[id].children|, k requires 0 <= k < |rules[id].children| => Text(rules, rules[id].children[k]))
  }

  /** Start: a terminal's token; for a rule, its first child's Start, or
      None when it has no children. */
  function Start(rules: seq<ParserRule>, id: nat): Option<Token>
    requires WellFormed(rules) && id < |rules|
    decreases |rules| - id
  {
    match rules[id].kind
    case Terminal(t) => t
    case Rule => if rules[id].children == [] then None else Start(rules, rules[id].children[0])
  }

  /** End: a terminal's token; for a rule, its last child's End, or None
      when it has no children. */
  function End(rules: seq<ParserRule>, id: nat): Option<Token>
    requires WellFormed(rules) && id < |rules|
    decreases |rules| - id
  {
    match rules[id].kind
    case Terminal(t) => t
    case Rule =>
      var n := |rules[id].children|;
      if n == 0 then None else End(rules, rules[id].children[n - 1])
  }

  /** Two trees that agree on kinds and children from index q upwards. */
  ghost predicate AgreeFrom(rules: seq<ParserRule>, rules': seq<ParserRule>, q: nat)
  {
    && |rules| == |rules'|
    && forall j :: q <= j < |rules| ==> rules[j].kind == rules'[j].kind && rules[j].children == rules'[j].children
  }

  /** A node's text, Start and End depend only on the nodes from its own index upwards. */
  lemma {:induction false} FrameFrom(rules: seq<ParserRule>, rules': seq<ParserRule>, q: nat)
    requires WellFormed(rules) && WellFormed(rules') && q < |rules| && AgreeFrom(rules, rules', q)
    ensures Text(rules, q) == Text(rules', q)
    ensures Start(rules, q) == Start(rules', q)
    ensures End(rules, q) == End(rules', q)
    decreases |rules| - q
  {
    var kids := rules[q].children;
    forall k | 0 <= k < |kids|
      ensures Text(rules, kids[k]) == Text(rules', kids[k])
      ensures Start(rules, kids[k]) == Start(rules', kids[k])
      ensures End(rules, kids[k]) == End(rules', kids[k])
    {
      FrameFrom(rules, rules', kids[k]);
    }
    assert ChildTexts(rules, q) == ChildTexts(rules', q);
  }

  /** Appending c to rule p's children appends c's text to p's text. */
  lemma TextAfterAttach(rules: seq<ParserRule>, p: nat, c: nat)
    requires WellFormed(rules) && p < c < |rules| && rules[p].kind.Rule?
    ensures WellFormed(Attach(rules, p, c))
    ensures Text(Attach(rules, p, c), p) == Text(rules, p) + Text(rules, c)
  {
    var r := Attach(rules, p, c);
    var kids := rules[p].children;
    forall k | 0 <= k < |r[p].children|
      ensures Text(r, r[p].children[k]) == Text(rules, r[p].children[k])
    {
      FrameFrom(rules, r, r[p].children[k]);
    }
    assert ChildTexts(r, p) == ChildTexts(rules, p) + [Text(rules, c)];
  }

  /** Appending c to rule p's children makes p end where c ends, and leaves
      p's Start alone unless p had no children before. */
  lemma StartEndAfterAttach(rules: seq<ParserRule>, p: nat, c: nat)
    requires WellFormed(rules) && p < c < |rules| && rules[p].kind.Rule?
    ensures WellFormed(Attach(rules, p, c))
    ensures End(Attach(rules, p, c), p) == End(rules, c)
    ensures Start(Attach(rules, p, c), p) == if rules[p].children == [] then Start(rules, c) else Start(rules, p)
  {
    var r := Attach(rules, p, c);
    FrameFrom(rules, r, c);
    if rules[p].children != [] {
      FrameFrom(rules, r, rules[p].children[0]);
    }
  }

  /** Attaching a node that has no parent keeps every parent link right. */
  lemma AttachKeepsLinks(rules: seq<ParserRule>, p: nat, c: nat)
    requires Linked(rules) && p < c < |rules| && rules[c].parent.None?
    ensures Linked(Attach(rules, p, c))
  {
  }

  /** The parse's nodes; indices stand for node references. */
  class SyntaxTree {
    var rules: seq<ParserRule>

    ghost predicate Valid()
      reads this
    {
      WellFormed(rules)
    }

    constructor ()
      ensures Valid() && rules == []
    {
      rules := [];
    }

    /** new ParserRule(type): a rule node with no parent and no children. */
    method NewRule(nodeType: NodeType) returns (id: nat)
      requires Valid()
      modifies this
      ensures Valid()
      ensures id == |old(rules)| && rules == old(rules) + [ParserRule(nodeType, Rule, None, [])]
    {
      id := |rules|;
      rules := rules + [ParserRule(nodeType, Rule, None, [])];
    }

    /** AddChildNode(new ...): a fresh node without parent or children,
        created and attached to parent. */
    method AddNewChild(parent: nat, node: ParserRule) returns (id: nat)
      requires Valid() && parent < |rules| && node.parent.None? && node.children == []
      modifies this
      ensures Valid()
      ensures id == |old(rules)| && rules == Adopt(old(rules), parent, node)
      ensures old(Linked(rules)) ==> Linked(rules)
    {
      id := |rules|;
      ghost var before := rules;
      rules := rules + [node];
      assert Linked(before) ==> Linked(rules);
      AddChildNode(parent, id);
    }

    /** AddChildNode: sets the node's parent to the receiver and appends it
        to the receiver's children. Earlier children and every node's type
        are unchanged, and links stay right when the node had no parent. */
    method AddChildNode(parent: nat, node: nat)
      requires Valid() && parent < node < |rules|
      modifies this
      ensures Valid()
      ensures rules == Attach(old(rules), parent, node)
      ensures |rules[parent].children| == |old(rules[parent].children)| + 1
      ensures rules[parent].children[..|old(rules[parent].children)|] == old(rules[parent].children)
      ensures old(Linked(rules)) && old(rules[node].parent.None?) ==> Linked(rules)
    {
      if Linked(rules) && rules[node].parent.None? {
        AttachKeepsLinks(rules, parent, node);
      }
      rules := Attach(rules, parent, node);
    }

    /** GetText: no children give the empty string, one child its text,
        and more children their texts appended in order. */
    method GetText(id: nat) returns (text: string)
      requires Valid() && id < |rules|
      ensures text == Text(rules, id)
      decreases |rules| - id
    {
      if rules[id].kind.Terminal? {
        return TokenText(rules[id].kind.token);
      }
      var kids := rules[id].children;
      ghost var texts := ChildTexts(rules, id);
      assert Text(rules, id) == Concat(texts);
      if |kids| == 0 {
        text := "";
        assert texts == [];
      } else if |kids| == 1 {
        text := GetText(kids[0]);
        assert texts[..0] == [] && texts == [text];
      } else {
        text := "";
        for k := 0 to |kids|
          invariant text == Concat(texts[..k])
        {
          var childText := GetText(kids[k]);
          assert texts[..k + 1][..k] == texts[..k];
          text := text + childText;
        }
        assert texts[..|kids|] == texts;
      }
    }

    /** ToString is GetText. */
    method ToString(id: nat) returns (text: string)
      requires Valid() && id < |rules|
      ensures text == Text(rules, id)
    {
      text := GetText(id);
    }
  }
}
