/** The event orders the grammar of ParadoxNodeParser.cpp can produce, as
    a syntax tree, and what the tree builder makes of them.

    An `Entry` is one match of the `Node` rule; a `Value` is one match of
    the `Value` rule: a `TextValue`, or a `Composite` that the ordered
    choice `CompositeValue` resolved to an `IntegerSequence` (tried first,
    needs at least one integer) or to a `NodeSet` (possibly empty). */
module EventGrammar {
  import opened Wrappers
  import opened Grammar
  import opened Decimal
  import opened ParadoxNode
  import opened TreeBuilder

  datatype Value =
    | TextVal(text: string)
    | IntegersVal(tokens: seq<string>)
    | NodeSetVal(entries: seq<Entry>)

  datatype Entry = Entry(key: string, value: Value)

  /** Tokens that the grammar's character classes admit. */
  predicate LegalEntry(e: Entry)
    decreases e, 2
  {
    IsIdentifier(e.key) && LegalValue(e.value)
  }

  predicate LegalValue(v: Value)
    decreases v, 1
  {
    match v
    case TextVal(t) => IsTextToken(t) && '#' !in t
    case IntegersVal(ts) => |ts| > 0 && forall i :: 0 <= i < |ts| ==> IsIntegerToken(ts[i])
    case NodeSetVal(es) => LegalEntries(es)
  }

  predicate LegalEntries(es: seq<Entry>)
    decreases es, 0
  {
    es == [] || (LegalEntry(es[0]) && LegalEntries(es[1..]))
  }

  // ----- the events the grammar's actions see, in order -----

  function IntegerEvents(ts: seq<string>): (r: seq<Event>)
    requires forall i :: 0 <= i < |ts| ==> IsIntegerToken(ts[i])
    ensures |r| == |ts|
    ensures forall i :: 0 <= i < |ts| ==> r[i] == IntEv(DecimalValue(ts[i]))
  {
    if ts == [] then [] else [IntEv(DecimalValue(ts[0]))] + IntegerEvents(ts[1..])
  }

  /** The actions one `Node` match fires: its key, then a text, or a `{`
      followed by the integers or by the entries and the node-set end. */
  function EntryEvents(e: Entry): (r: seq<Event>)
    requires LegalEntry(e)
    ensures |r| >= 2 && r[0] == KeyEv(e.key)
    ensures e.value.TextVal? ==> r == [KeyEv(e.key), TextEv(e.value.text)]
    ensures !e.value.TextVal? ==> r[1] == OpenEv
    ensures e.value.IntegersVal? ==> |r| == 2 + |e.value.tokens| && r[|r| - 1].IntEv?
    ensures e.value.NodeSetVal? ==> |r| >= 3 && r[|r| - 1] == NodeSetEndEv
    decreases e, 2
  {
    [KeyEv(e.key)] + ValueEvents(e.value)
  }

  function ValueEvents(v: Value): (r: seq<Event>)
    requires LegalValue(v)
    ensures |r| >= 1
    ensures v.TextVal? <==> r[0].TextEv?
    ensures v.TextVal? ==> r == [TextEv(v.text)]
    ensures !v.TextVal? ==> r[0] == OpenEv
    ensures v.IntegersVal? ==> |r| == 1 + |v.tokens| && r[|r| - 1].IntEv?
    ensures v.NodeSetVal? ==> |r| >= 2 && r[|r| - 1] == NodeSetEndEv
    decreases v, 1
  {
    match v
    case TextVal(t) => [TextEv(t)]
    case IntegersVal(ts) => [OpenEv] + IntegerEvents(ts)
    case NodeSetVal(es) => [OpenEv] + EntriesEvents(es) + [NodeSetEndEv]
  }

  function EntriesEvents(es: seq<Entry>): (r: seq<Event>)
    requires LegalEntries(es)
    ensures |r| >= 2 * |es|
    ensures es == [] <==> r == []
    ensures es != [] ==> r[0] == KeyEv(es[0].key)
    decreases es, 0
  {
    if es == [] then [] else EntryEvents(es[0]) + EntriesEvents(es[1..])
  }

  /** A whole document: its top-level entries, then the completion of the
      outermost `NodeSet` that `Parse` matches. */
  function DocumentEvents(es: seq<Entry>): (r: seq<Event>)
    requires LegalEntries(es)
    ensures |r| >= 1 && r[|r| - 1] == NodeSetEndEv
    ensures es == [] <==> r == [NodeSetEndEv]
    ensures es != [] ==> r[0] == KeyEv(es[0].key)
  {
    EntriesEvents(es) + [NodeSetEndEv]
  }

  // ----- what a syntax tree means, independently of the stack -----

  function DecimalValues(ts: seq<string>): (r: seq<int>)
    requires forall i :: 0 <= i < |ts| ==> IsIntegerToken(ts[i])
    ensures |r| == |ts|
  {
    if ts == [] then [] else [DecimalValue(ts[0]) as int] + DecimalValues(ts[1..])
  }

  function Meaning(e: Entry): Node
    requires LegalEntry(e)
    decreases e, 2
  {
    ValueMeaning(e.key, e.value)
  }

  function ValueMeaning(key: string, v: Value): Node
    requires LegalValue(v)
    decreases v, 1
  {
    match v
    case TextVal(t) => CreateWithText(key, TrimTrailing(t))
    case IntegersVal(ts) => CreateWithIntegers(key, DecimalValues(ts))
    case NodeSetVal(es) => CreateWithChildren(key, Meanings(es))
  }

  function Meanings(es: seq<Entry>): (r: seq<Node>)
    requires LegalEntries(es)
    ensures |r| == |es|
    decreases es, 0
  {
    if es == [] then [] else [Meaning(es[0])] + Meanings(es[1..])
  }

  // ----- the builder realises the meaning -----

  /** Replacing the current node of a stack built by pushing touches
      nothing else. */
  lemma WithCurrentOfPushed(st: Stack, frame: Frame, n: Node, m: Node)
    ensures WithCurrent(st + [frame + [n]], m) == st + [frame + [m]]
  {
    var s := st + [frame + [n]];
    assert Top(s) == frame + [n] && Pop(s) == st;
    assert Top(s)[..|Top(s)| - 1] == frame;
  }

  lemma IntegerOnOwner(st: Stack, frame: Frame, n: Node, v: int)
    ensures Run(st + [frame + [n]], [IntEv(v)]) == Success(st + [frame + [AddIntegerValue(n, v)]])
  {
    var s := st + [frame + [n]];
    assert Top(s) == frame + [n] && Pop(s) == st;
    WithCurrentOfPushed(st, frame, n, AddIntegerValue(n, v));
    assert Step(s, IntEv(v)) == Success(st + [frame + [AddIntegerValue(n, v)]]);
  }

  /** The first integer finds the speculative frame still empty, drops it,
      and goes to the node below. */
  lemma IntegerOnEmptyFrame(st: Stack, frame: Frame, n: Node, v: int)
    ensures Run(st + [frame + [n]] + [[]], [IntEv(v)]) == Success(st + [frame + [AddIntegerValue(n, v)]])
  {
    var s := st + [frame + [n]] + [[]];
    assert Top(s) == [] && Pop(s) == st + [frame + [n]];
    var s' := st + [frame + [n]];
    assert Top(s') == frame + [n] && Pop(s') == st;
    WithCurrentOfPushed(st, frame, n, AddIntegerValue(n, v));
    assert Step(s, IntEv(v)) == Success(st + [frame + [AddIntegerValue(n, v)]]);
  }

  lemma KeyOnTop(st: Stack, frame: Frame, k: string)
    ensures Run(st + [frame], [KeyEv(k)]) == Success(st + [frame + [Create(k)]])
  {
    var s := st + [frame];
    assert Top(s) == frame && Pop(s) == st;
    assert Step(s, KeyEv(k)) == Success(st + [frame + [Create(k)]]);
  }

  lemma OpenOnTop(st: Stack)
    ensures Run(st, [OpenEv]) == Success(st + [[]])
  {
    assert Step(st, OpenEv) == Success(st + [[]]);
  }

  lemma TextOnOwner(st: Stack, frame: Frame, n: Node, t: string)
    requires !AllWhitespace(t)
    ensures Run(st + [frame + [n]], [TextEv(t)]) == Success(st + [frame + [SetValue(n, TrimTrailing(t))]])
  {
    var s := st + [frame + [n]];
    assert Top(s) == frame + [n] && Pop(s) == st;
    WithCurrentOfPushed(st, frame, n, SetValue(n, TrimTrailing(t)));
    assert Step(s, TextEv(t)) == Success(st + [frame + [SetValue(n, TrimTrailing(t))]]);
  }

  lemma NodeSetEndOnOwner(st: Stack, frame: Frame, n: Node, children: Frame)
    ensures Run(st + [frame + [n]] + [children], [NodeSetEndEv])
            == Success(st + [frame + [SetChildren(n, children)]])
  {
    var s := st + [frame + [n]] + [children];
    assert Top(s) == children && Pop(s) == st + [frame + [n]];
    var s' := st + [frame + [n]];
    assert Top(s') == frame + [n] && Pop(s') == st;
    WithCurrentOfPushed(st, frame, n, SetChildren(n, children));
    assert Step(s, NodeSetEndEv) == Success(st + [frame + [SetChildren(n, children)]]);
  }

  /** The integer events after the first one find the owning node on top
      and extend its integers. */
  lemma {:induction false} BuildMoreIntegers(st: Stack, frame: Frame, n: Node, ts: seq<string>)
    requires forall i :: 0 <= i < |ts| ==> IsIntegerToken(ts[i])
    requires n.textValue == [] && n.children == []
    ensures Run(st + [frame + [n]], IntegerEvents(ts))
            == Success(st + [frame + [CreateWithIntegers(n.key, n.intValues + DecimalValues(ts))]])
    decreases |ts|
  {
    if ts == [] {
      assert n.intValues + [] == n.intValues;
      assert n == CreateWithIntegers(n.key, n.intValues);
    } else {
      var v := DecimalValue(ts[0]);
      var n' := AddIntegerValue(n, v);
      var rest := IntegerEvents(ts[1..]);
      var more := DecimalValues(ts[1..]);
      assert n'.intValues + more == n.intValues + DecimalValues(ts) by {
        assert DecimalValues(ts) == [v as int] + more;
        assert n.intValues + ([v as int] + more) == (n.intValues + [v as int]) + more;
      }
      assert Run(st + [frame + [n]], IntegerEvents(ts)) == Run(st + [frame + [n']], rest) by {
        IntegerOnOwner(st, frame, n, v);
        assert IntegerEvents(ts) == [IntEv(v)] + rest;
        RunAppend(st + [frame + [n]], [IntEv(v)], rest);
      }
      BuildMoreIntegers(st, frame, n', ts[1..]);
    }
  }

  /** `key = text`: the key's node receives the trimmed text. */
  lemma BuildTextEntry(st: Stack, frame: Frame, e: Entry)
    requires LegalEntry(e) && e.value.TextVal?
    ensures Run(st + [frame], EntryEvents(e)) == Success(st + [frame + [Meaning(e)]])
  {
    var k, t := e.key, e.value.text;
    KeyOnTop(st, frame, k);
    assert !IsWhitespaceChar(t[0]);
    TextOnOwner(st, frame, Create(k), t);
    RunAppend(st + [frame], [KeyEv(k)], [TextEv(t)]);
    assert EntryEvents(e) == [KeyEv(k)] + [TextEv(t)];
    assert Meaning(e) == SetValue(Create(k), TrimTrailing(t));
  }

  /** `key = { i1 ... in }`: the speculative frame is dropped at the first
      integer and the key's node receives all the integers, in order. */
  lemma BuildIntegersEntry(st: Stack, frame: Frame, e: Entry)
    requires LegalEntry(e) && e.value.IntegersVal?
    ensures Run(st + [frame], EntryEvents(e)) == Success(st + [frame + [Meaning(e)]])
  {
    var k, ts := e.key, e.value.tokens;
    var v := DecimalValue(ts[0]);
    var s1 := st + [frame + [Create(k)]];
    var n1 := AddIntegerValue(Create(k), v);
    var more := IntegerEvents(ts[1..]);
    KeyOnTop(st, frame, k);
    OpenOnTop(s1);
    IntegerOnEmptyFrame(st, frame, Create(k), v);
    BuildMoreIntegers(st, frame, n1, ts[1..]);
    assert IntegerEvents(ts) == [IntEv(v)] + more;
    RunAppend(s1 + [[]], [IntEv(v)], more);
    RunAppend(s1, [OpenEv], [IntEv(v)] + more);
    RunAppend(st + [frame], [KeyEv(k)], [OpenEv] + ([IntEv(v)] + more));
    assert EntryEvents(e) == [KeyEv(k)] + ([OpenEv] + ([IntEv(v)] + more));
    assert DecimalValues(ts) == [v as int] + DecimalValues(ts[1..]);
    assert Meaning(e) == CreateWithIntegers(k, DecimalValues(ts));
  }

  /** `key = { ... }` with a node set inside: the key's node receives, as
      children, the nodes the inner events collected on the pushed frame. */
  lemma BuildNodeSetEntry(st: Stack, frame: Frame, e: Entry)
    requires LegalEntry(e) && e.value.NodeSetVal? && LegalEntries(e.value.entries)
    requires Run(st + [frame + [Create(e.key)]] + [[]], EntriesEvents(e.value.entries))
             == Success(st + [frame + [Create(e.key)]] + [Meanings(e.value.entries)])
    ensures Run(st + [frame], EntryEvents(e)) == Success(st + [frame + [Meaning(e)]])
  {
    var k, es := e.key, e.value.entries;
    var s1 := st + [frame + [Create(k)]];
    var tail := EntriesEvents(es) + [NodeSetEndEv];
    assert Run(st + [frame], EntryEvents(e)) == Run(s1, [OpenEv] + tail) by {
      KeyOnTop(st, frame, k);
      assert EntryEvents(e) == [KeyEv(k)] + ([OpenEv] + tail);
      RunAppend(st + [frame], [KeyEv(k)], [OpenEv] + tail);
    }
    OpenedNodeSet(s1, st, frame, Create(k), es);
    assert Meaning(e) == SetChildren(Create(k), Meanings(es));
  }

  /** After the key: the brace, the inner entries and the end of the set. */
  lemma OpenedNodeSet(s1: Stack, st: Stack, frame: Frame, n: Node, es: seq<Entry>)
    requires s1 == st + [frame + [n]] && LegalEntries(es)
    requires Run(s1 + [[]], EntriesEvents(es)) == Success(s1 + [Meanings(es)])
    ensures Run(s1, [OpenEv] + (EntriesEvents(es) + [NodeSetEndEv]))
            == Success(st + [frame + [SetChildren(n, Meanings(es))]])
  {
    var inner := EntriesEvents(es);
    OpenOnTop(s1);
    NodeSetEndOnOwner(st, frame, n, Meanings(es));
    RunAppend(s1 + [[]], inner, [NodeSetEndEv]);
    RunAppend(s1, [OpenEv], inner + [NodeSetEndEv]);
  }

  /** One entry's events append the entry's meaning to the top frame and
      leave every frame below it as it was. */
  lemma {:induction false} BuildEntry(st: Stack, frame: Frame, e: Entry)
    requires LegalEntry(e)
    ensures Run(st + [frame], EntryEvents(e)) == Success(st + [frame + [Meaning(e)]])
    decreases e, 2
  {
    match e.value
    case TextVal(_) =>
      BuildTextEntry(st, frame, e);
    case IntegersVal(_) =>
      BuildIntegersEntry(st, frame, e);
    case NodeSetVal(es) =>
      BuildEntries(st + [frame + [Create(e.key)]], [], es);
      assert [] + Meanings(es) == Meanings(es);
      BuildNodeSetEntry(st, frame, e);
  }

  /** The events of a list of entries append their meanings, in order, to
      the top frame. */
  lemma {:induction false} BuildEntries(st: Stack, frame: Frame, es: seq<Entry>)
    requires LegalEntries(es)
    ensures Run(st + [frame], EntriesEvents(es)) == Success(st + [frame + Meanings(es)])
    decreases es, 0
  {
    if es == [] {
      assert frame + [] == frame;
    } else {
      BuildEntry(st, frame, es[0]);
      BuildEntries(st, frame + [Meaning(es[0])], es[1..]);
      RunAppend(st + [frame], EntryEvents(es[0]), EntriesEvents(es[1..]));
      assert frame + [Meaning(es[0])] + Meanings(es[1..]) == frame + Meanings(es);
    }
  }

  /** The top-level entries fill the frame above the root. */
  lemma TopLevelEntries(es: seq<Entry>)
    requires LegalEntries(es)
    ensures Run(InitialStack(), EntriesEvents(es)) == Success([[CreateRoot()], Meanings(es)])
  {
    var root := CreateRoot();
    var none: Frame := [];
    var bottom: Stack := [];
    assert none + [root] == [root];
    assert bottom + [none + [root]] == [[root]];
    var base: Stack := bottom + [none + [root]];
    assert InitialStack() == base + [[]];
    BuildEntries(base, [], es);
    assert [] + Meanings(es) == Meanings(es);
    assert base + [Meanings(es)] == [[root], Meanings(es)];
  }

  /** The end of the outermost set installs the entries under the root,
      which is left alone in the one remaining frame. */
  lemma OutermostEnd(children: Frame)
    ensures Run([[CreateRoot()], children], [NodeSetEndEv])
            == Success([[SetChildren(CreateRoot(), children)]])
  {
    var root := CreateRoot();
    var none: Frame := [];
    var bottom: Stack := [];
    assert none + [root] == [root];
    assert bottom + [[root]] == [[root]];
    assert [[root]] + [children] == [[root], children];
    NodeSetEndOnOwner(bottom, none, root, children);
    var top := SetChildren(root, children);
    assert none + [top] == [top];
    assert bottom + [[top]] == [[top]];
  }

  lemma DocumentRun(es: seq<Entry>)
    requires LegalEntries(es)
    ensures Run(InitialStack(), DocumentEvents(es)) == Success([[SetChildren(CreateRoot(), Meanings(es))]])
  {
    TopLevelEntries(es);
    RunAppend(InitialStack(), EntriesEvents(es), [NodeSetEndEv]);
    OutermostEnd(Meanings(es));
  }

  /** A legal document never misuses the stack, and parsing it returns the
      empty-key root whose children are the meanings of its top-level
      entries, in order. */
  lemma ParseDocument(es: seq<Entry>)
    requires LegalEntries(es)
    ensures ParseEvents(DocumentEvents(es)) == Success(CreateWithChildren([], Meanings(es)))
  {
    DocumentRun(es);
  }
}
