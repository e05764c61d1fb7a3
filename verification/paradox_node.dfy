/** The `ParadoxNode` tree value (ParadoxNode.cpp): a key and three value
    stores, of which the mutators keep at most one populated; the child
    query, the quote-stripping query, and the canonical text rendering. */
module ParadoxNode {
  import opened Wrappers
  import opened Grammar
  import opened Decimal

  /** One node. The value lives in three parallel stores; the root of a
      parsed document is the node with the empty key. */
  datatype Node = Node(key: string, textValue: string, intValues: seq<int>, children: seq<Node>)

  /** No store is populated. */
  predicate HasEmptyValue(n: Node) {
    n.textValue == [] && n.intValues == [] && n.children == []
  }

  /** At most one of the three stores is populated. */
  predicate Exclusive(n: Node) {
    && (n.textValue != [] ==> n.intValues == [] && n.children == [])
    && (n.intValues != [] ==> n.children == [])
  }

  /** Two nodes hold the same value in all three stores. */
  predicate SameValue(a: Node, b: Node) {
    a.textValue == b.textValue && a.intValues == b.intValues && a.children == b.children
  }

  // ----- factories -----

  function CreateRoot(): (r: Node)
    ensures r.key == [] && HasEmptyValue(r)
  {
    Node([], [], [], [])
  }

  function Create(key: string): (r: Node)
    ensures r.key == key && HasEmptyValue(r)
  {
    CreateRoot().(key := key)
  }

  /** The two-argument factories are `Create(key)` followed by the
      matching setter. */
  function CreateWithText(key: string, textValue: string): (r: Node)
    ensures r.key == key && r.textValue == textValue
    ensures r.intValues == [] && r.children == [] && Exclusive(r)
    ensures r == SetValue(Create(key), textValue)
  {
    CreateRoot().(key := key, textValue := textValue)
  }

  function CreateWithIntegers(key: string, intValues: seq<int>): (r: Node)
    ensures r.key == key && r.intValues == intValues
    ensures r.textValue == [] && r.children == [] && Exclusive(r)
    ensures r == SetValues(Create(key), intValues)
  {
    CreateRoot().(key := key, intValues := intValues)
  }

  function CreateWithChildren(key: string, children: seq<Node>): (r: Node)
    ensures r.key == key && r.children == children
    ensures r.textValue == [] && r.intValues == [] && Exclusive(r)
    ensures r == SetChildren(Create(key), children)
  {
    CreateRoot().(key := key, children := children)
  }

  // ----- mutators, as functions from the node before to the node after -----

  function SetKey(n: Node, key: string): (r: Node)
    ensures r.key == key && SameValue(r, n)
    ensures Exclusive(r) <==> Exclusive(n)
  {
    n.(key := key)
  }

  /** Renaming a node and renaming it back restores it. */
  lemma SetKeyRestores(n: Node, key: string)
    ensures SetKey(SetKey(n, key), n.key) == n
  {
  }

  function ClearValue(n: Node): (r: Node)
    ensures r.key == n.key && HasEmptyValue(r)
  {
    n.(textValue := [], intValues := [], children := [])
  }

  function SetValue(n: Node, textValue: string): (r: Node)
    ensures r.key == n.key && r.textValue == textValue
    ensures r.intValues == [] && r.children == [] && Exclusive(r)
  {
    ClearValue(n).(textValue := textValue)
  }

  function SetValues(n: Node, intValues: seq<int>): (r: Node)
    ensures r.key == n.key && r.intValues == intValues
    ensures r.textValue == [] && r.children == [] && Exclusive(r)
  {
    ClearValue(n).(intValues := intValues)
  }

  function AddIntegerValue(n: Node, intValue: int): (r: Node)
    ensures r.key == n.key && r.textValue == [] && r.children == [] && Exclusive(r)
    ensures |r.intValues| == |n.intValues| + 1
    ensures r.intValues[..|n.intValues|] == n.intValues
    ensures r.intValues[|n.intValues|] == intValue
  {
    n.(textValue := [], children := [], intValues := n.intValues + [intValue])
  }

  function SetChildren(n: Node, children: seq<Node>): (r: Node)
    ensures r.key == n.key && r.children == children
    ensures r.textValue == [] && r.intValues == [] && Exclusive(r)
  {
    ClearValue(n).(children := children)
  }

  function AddChild(n: Node, child: Node): (r: Node)
    ensures r.key == n.key && r.textValue == [] && r.intValues == [] && Exclusive(r)
    ensures |r.children| == |n.children| + 1
    ensures r.children[..|n.children|] == n.children
    ensures r.children[|n.children|] == child
  {
    n.(textValue := [], intValues := [], children := n.children + [child])
  }

  /** `AddIntegerValue` applied to each element of `xs` in turn. */
  function AddIntegerValues(n: Node, xs: seq<int>): Node
    decreases |xs|
  {
    if xs == [] then n else AddIntegerValues(AddIntegerValue(n, xs[0]), xs[1..])
  }

  /** `AddChild` applied to each element of `cs` in turn. */
  function AddChildren(n: Node, cs: seq<Node>): Node
    decreases |cs|
  {
    if cs == [] then n else AddChildren(AddChild(n, cs[0]), cs[1..])
  }

  /** Adding integers one by one keeps earlier ones in order and clears
      the other stores as soon as one integer has been added. */
  lemma {:induction false} AddIntegerValuesAppends(n: Node, xs: seq<int>)
    requires xs != []
    ensures AddIntegerValues(n, xs) == Node(n.key, [], n.intValues + xs, [])
    decreases |xs|
  {
    var n' := AddIntegerValue(n, xs[0]);
    if xs[1..] == [] {
      assert xs == [xs[0]];
    } else {
      AddIntegerValuesAppends(n', xs[1..]);
      assert n.intValues + [xs[0]] + xs[1..] == n.intValues + xs;
    }
  }

  /** Starting from a cleared node, adding integers one at a time builds the
      same node as setting them all at once. */
  lemma AddIntegerValuesIsSetValues(n: Node, xs: seq<int>)
    ensures AddIntegerValues(ClearValue(n), xs) == SetValues(n, xs)
  {
    if xs != [] {
      AddIntegerValuesAppends(ClearValue(n), xs);
    }
  }

  lemma {:induction false} AddChildrenAppends(n: Node, cs: seq<Node>)
    requires cs != []
    ensures AddChildren(n, cs) == Node(n.key, [], [], n.children + cs)
    decreases |cs|
  {
    var n' := AddChild(n, cs[0]);
    if cs[1..] == [] {
      assert cs == [cs[0]];
    } else {
      AddChildrenAppends(n', cs[1..]);
      assert n.children + [cs[0]] + cs[1..] == n.children + cs;
    }
  }

  /** Starting from a cleared node, adding children one at a time builds the
      same node as setting them all at once. */
  lemma AddChildrenIsSetChildren(n: Node, cs: seq<Node>)
    ensures AddChildren(ClearValue(n), cs) == SetChildren(n, cs)
  {
    if cs != [] {
      AddChildrenAppends(ClearValue(n), cs);
    }
  }

  // ----- queries -----

  /** Position of the first node in `cs` whose key is `key`. */
  function IndexOfKey(cs: seq<Node>, key: string): (r: Option<nat>)
    ensures r.None? <==> forall j :: 0 <= j < |cs| ==> cs[j].key != key
    ensures r.Some? ==> r.value < |cs| && cs[r.value].key == key
                        && forall j :: 0 <= j < r.value ==> cs[j].key != key
  {
    if cs == [] then None
    else if cs[0].key == key then Some(0)
    else match IndexOfKey(cs[1..], key)
      case None => None
      case Some(i) => Some(i + 1)
  }

  /** `GetChild`: the first child, in order, whose key is `key`; `None`
      (the source's null pointer) when no child has it. */
  function GetChild(n: Node, key: string): (r: Option<Node>)
    ensures r.None? <==> forall j :: 0 <= j < |n.children| ==> n.children[j].key != key
    ensures r.Some? ==> exists i :: 0 <= i < |n.children| && n.children[i] == r.value
                                    && r.value.key == key
                                    && forall j :: 0 <= j < i ==> n.children[j].key != key
  {
    match IndexOfKey(n.children, key)
    case None => None
    case Some(i) => Some(n.children[i])
  }

  predicate IsQuote(c: char) {
    c == '\'' || c == '"'
  }

  /** `GetValueUnquoted`: the text without its surrounding quotes when it is
      longer than two characters and starts and ends with the same quote. */
  function GetValueUnquoted(n: Node): (r: string)
    ensures var t := n.textValue;
            if |t| > 2 && IsQuote(t[0]) && t[0] == t[|t| - 1]
            then |r| == |t| - 2 && forall i :: 0 <= i < |r| ==> r[i] == t[i + 1]
            else r == t
  {
    var t := n.textValue;
    if |t| > 2 && IsQuote(t[0]) && t[0] == t[|t| - 1] then t[1..|t| - 1] else t
  }

  /** Quoting a non-empty text and unquoting it gives the text back. */
  lemma UnquoteRemovesQuotes(n: Node, q: char, s: string)
    requires IsQuote(q) && |s| > 0
    ensures GetValueUnquoted(SetValue(n, [q] + s + [q])) == s
  {
    var t := [q] + s + [q];
    assert t[1..|t| - 1] == s;
  }

  /** A two-character quoted text, `""` or `''`, is returned as it is. */
  lemma UnquoteKeepsEmptyQuotes(n: Node, q: char)
    requires IsQuote(q)
    ensures GetValueUnquoted(SetValue(n, [q, q])) == [q, q]
  {
  }

  /** A text that does not end in its opening quote is returned as it is. */
  lemma UnquoteKeepsUnbalanced(n: Node)
    requires |n.textValue| > 0 && n.textValue[0] != n.textValue[|n.textValue| - 1]
    ensures GetValueUnquoted(n) == n.textValue
  {
  }

  // ----- canonical rendering -----

  /** Two spaces per level of depth. */
  function Indentation(depth: nat): (r: string)
    ensures |r| == 2 * depth
    ensures forall i :: 0 <= i < |r| ==> r[i] == ' '
  {
    if depth == 0 then [] else "  " + Indentation(depth - 1)
  }

  /** ` i1 i2 ... in`: each integer preceded by one space. */
  function RenderIntegers(xs: seq<int>): (r: string)
    ensures r == [] <==> xs == []
    ensures xs != [] ==> r[0] == ' '
    ensures forall i :: 0 <= i < |r| ==> r[i] == ' ' || r[i] == '-' || IsDigit(r[i])
  {
    if xs == [] then [] else " " + IntToString(xs[0]) + RenderIntegers(xs[1..])
  }

  /** `Output(out, depth)`: an empty-key node writes only its children at
      the same depth; a keyed node writes its indentation, `key = ` and its
      value. Everything written ends with a newline. */
  function Render(n: Node, depth: nat): (r: string)
    ensures r == [] || r[|r| - 1] == '\n'
    ensures n.key != [] ==> r != [] && Indentation(depth) + n.key + " = " <= r
    decreases n, 2
  {
    if n.key == [] then RenderAll(n.children, depth)
    else Indentation(depth) + n.key + " = " + RenderValue(n, depth)
  }

  /** The value part of a keyed node's output: its text, its integers in
      braces, or a block of children one level deeper, in that order of
      priority; it always ends with a newline. */
  function RenderValue(n: Node, depth: nat): (r: string)
    ensures r != [] && r[|r| - 1] == '\n'
    ensures r[0] == '{' <==> n.textValue == [] || n.textValue[0] == '{'
    decreases n, 1
  {
    if n.textValue != [] then n.textValue + "\n"
    else if n.intValues != [] then "{" + RenderIntegers(n.intValues) + " }\n"
    else "{\n" + RenderAll(n.children, depth + 1) + Indentation(depth) + "}\n"
  }

  /** The renderings of `cs`, one after the other, all at `depth`. */
  function RenderAll(cs: seq<Node>, depth: nat): (r: string)
    ensures r == [] || r[|r| - 1] == '\n'
    decreases cs, 0
  {
    if cs == [] then [] else Render(cs[0], depth) + RenderAll(cs[1..], depth)
  }
}
