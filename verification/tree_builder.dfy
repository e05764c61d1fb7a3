/** The parser's tree builder (the `Action<...>` specialisations and the
    stack handling of `Parse` in ParadoxNodeParser.cpp), driven by the
    events the grammar fires instead of by the PEG library itself.

    The stack of pending child lists is a sequence of frames whose LAST
    element is the top. Where the source would call `top()` on an empty
    stack or `back()`/`front()` on an empty frame (undefined behaviour in
    C++), the model stops with a `BuildError`. */
module TreeBuilder {
  import opened Wrappers
  import opened Grammar
  import opened ParadoxNode

  /** A grammar rule that has just matched and whose action runs. */
  datatype Event =
    | KeyEv(key: string)     // `Key` matched this identifier
    | OpenEv                 // the `{` of a `Composite` matched
    | IntEv(value: int)      // an `Integer` matched; `value` is `std::stoi` of its digits
    | TextEv(text: string)   // a `TextValue` matched this text
    | NodeSetEndEv           // a `NodeSet` finished matching

  /** The nodes collected so far at one nesting depth. */
  type Frame = seq<Node>

  /** Frames from the bottom (index 0) to the top (last index). */
  type Stack = seq<Frame>

  datatype BuildError =
    | EmptyStack   // the source would use the top of an empty stack
    | EmptyFrame   // the source would use the last node of an empty frame

  function Top(st: Stack): Frame
    requires |st| > 0
  {
    st[|st| - 1]
  }

  function Pop(st: Stack): Stack
    requires |st| > 0
  {
    st[..|st| - 1]
  }

  /** The last node of the top frame, `nodes.top().back()`. */
  function Current(st: Stack): Node
    requires |st| > 0 && |Top(st)| > 0
  {
    Top(st)[|Top(st)| - 1]
  }

  /** The stack with `nodes.top().back()` replaced by `n`. */
  function WithCurrent(st: Stack, n: Node): (r: Stack)
    requires |st| > 0 && |Top(st)| > 0
    ensures |r| == |st| && Pop(r) == Pop(st)
    ensures |Top(r)| == |Top(st)| && Current(r) == n
    ensures Top(r)[..|Top(r)| - 1] == Top(st)[..|Top(st)| - 1]
  {
    Pop(st) + [Top(st)[..|Top(st)| - 1] + [n]]
  }

  /** `Action<Key>`: a fresh node carrying the key, with no value, is
      appended to the top frame; no other frame changes. */
  function OnKey(st: Stack, key: string): (r: Result<Stack, BuildError>)
    ensures r.Success? <==> |st| > 0
    ensures r.Success? ==> |r.value| == |st| && Pop(r.value) == Pop(st)
                           && Top(r.value) == Top(st) + [Create(key)]
  {
    if |st| == 0 then Failure(EmptyStack)
    else Success(Pop(st) + [Top(st) + [Create(key)]])
  }

  /** `Action<one<'{'>>`: one empty frame is pushed, on the assumption that
      the composite will turn out to hold child nodes. */
  function OnOpen(st: Stack): (r: Stack)
    ensures |r| == |st| + 1 && Pop(r) == st && Top(r) == []
  {
    st + [[]]
  }

  /** `Action<Integer>`: when the top frame is still empty the assumption
      of child nodes was wrong, so that frame is dropped; the integer is
      then appended to the last node of the (new) top frame. */
  function OnInteger(st: Stack, value: int): (r: Result<Stack, BuildError>)
    ensures r.Success? <==>
              |st| > 0 && (Top(st) == [] ==> |st| > 1 && Top(Pop(st)) != [])
    ensures r.Success? && Top(st) == [] ==>
              |r.value| == |st| - 1 && Pop(r.value) == Pop(Pop(st))
              && Top(r.value) == Top(Pop(st))[..|Top(Pop(st))| - 1]
                                 + [AddIntegerValue(Current(Pop(st)), value)]
    ensures r.Success? && Top(st) != [] ==>
              |r.value| == |st| && Pop(r.value) == Pop(st)
              && Top(r.value) == Top(st)[..|Top(st)| - 1] + [AddIntegerValue(Current(st), value)]
  {
    if |st| == 0 then Failure(EmptyStack)
    else
      var st' := if Top(st) == [] then Pop(st) else st;
      if |st'| == 0 then Failure(EmptyStack)
      else if Top(st') == [] then Failure(EmptyFrame)
      else Success(WithCurrent(st', AddIntegerValue(Current(st'), value)))
  }

  /** `Action<TextValue>`: the text, with trailing spaces, tabs and
      newlines removed, becomes the text of the last node of the top
      frame; a text that is all whitespace changes nothing. */
  function OnText(st: Stack, text: string): (r: Result<Stack, BuildError>)
    ensures AllWhitespace(text) ==> r == Success(st)
    ensures !AllWhitespace(text) ==> (r.Success? <==> |st| > 0 && Top(st) != [])
    ensures !AllWhitespace(text) && r.Success? ==>
              |r.value| == |st| && Pop(r.value) == Pop(st)
              && Top(r.value) == Top(st)[..|Top(st)| - 1] + [SetValue(Current(st), TrimTrailing(text))]
  {
    match LastNotWhitespace(text)
    case None => Success(st)
    case Some(p) =>
      if |st| == 0 then Failure(EmptyStack)
      else if Top(st) == [] then Failure(EmptyFrame)
      else Success(WithCurrent(st, SetValue(Current(st), text[..p + 1])))
  }

  /** `Action<NodeSet>`: the top frame is popped and installs, in order,
      as the children of the last node of the frame below. */
  function OnNodeSetEnd(st: Stack): (r: Result<Stack, BuildError>)
    ensures r.Success? <==> |st| > 1 && Top(Pop(st)) != []
    ensures r.Success? ==>
              |r.value| == |st| - 1 && Pop(r.value) == Pop(Pop(st))
              && Top(r.value) == Top(Pop(st))[..|Top(Pop(st))| - 1]
                                 + [SetChildren(Current(Pop(st)), Top(st))]
  {
    if |st| == 0 then Failure(EmptyStack)
    else
      var children := Top(st);
      var st' := Pop(st);
      if |st'| == 0 then Failure(EmptyStack)
      else if Top(st') == [] then Failure(EmptyFrame)
      else Success(WithCurrent(st', SetChildren(Current(st'), children)))
  }

  /** The action for one event. Only `{` pushes a frame, and only the
      end of a node set (or an integer in a frame still empty) pops one;
      the frames below the top two are never touched; and a stack whose
      top two frames hold nodes takes any event. */
  function Step(st: Stack, ev: Event): (r: Result<Stack, BuildError>)
    ensures r.Success? ==> |st| - 1 <= |r.value| <= |st| + 1
    ensures (r.Success? && |r.value| == |st| + 1) <==> ev.OpenEv?
    ensures r.Success? && |r.value| == |st| - 1 ==> ev.NodeSetEndEv? || (ev.IntEv? && Top(st) == [])
    ensures r.Success? && |st| >= 2 ==> r.value[..|st| - 2] == st[..|st| - 2]
    ensures |st| >= 2 && Top(st) != [] && Top(Pop(st)) != [] ==> r.Success?
  {
    match ev
    case KeyEv(k) => OnKey(st, k)
    case OpenEv => Success(OnOpen(st))
    case IntEv(v) => OnInteger(st, v)
    case TextEv(t) => OnText(st, t)
    case NodeSetEndEv => OnNodeSetEnd(st)
  }

  /** Number of `{` events in a sequence. */
  function Opens(evs: seq<Event>): nat {
    if evs == [] then 0 else (if evs[0].OpenEv? then 1 else 0) + Opens(evs[1..])
  }

  /** Number of events that may pop a frame. */
  function Closes(evs: seq<Event>): nat {
    if evs == [] then 0 else (if evs[0].NodeSetEndEv? || evs[0].IntEv? then 1 else 0) + Closes(evs[1..])
  }

  /** The actions for a sequence of events, stopping at the first error:
      the stack grows by at most one frame per `{` and shrinks by at most
      one frame per node-set end or integer. */
  function Run(st: Stack, evs: seq<Event>): (r: Result<Stack, BuildError>)
    ensures r.Success? ==> |r.value| <= |st| + Opens(evs)
    ensures r.Success? ==> |st| - Closes(evs) <= |r.value|
    decreases |evs|
  {
    if evs == [] then Success(st)
    else match Step(st, evs[0])
      case Failure(e) => Failure(e)
      case Success(st') => Run(st', evs[1..])
  }

  /** Running two event sequences one after the other is running their
      concatenation. */
  lemma {:induction false} RunAppend(st: Stack, a: seq<Event>, b: seq<Event>)
    ensures Run(st, a + b) == match Run(st, a)
                              case Failure(e) => Failure(e)
                              case Success(st') => Run(st', b)
    decreases |a|
  {
    if a == [] {
      assert a + b == b;
    } else {
      assert (a + b)[0] == a[0];
      assert (a + b)[1..] == a[1..] + b;
      match Step(st, a[0])
      case Failure(e) =>
      case Success(st') => RunAppend(st', a[1..], b);
    }
  }

  /** The stack `Parse` starts from: a base frame holding one empty-key
      root, under one empty frame for the top-level entries. */
  function InitialStack(): (r: Stack)
    ensures |r| == 2 && Top(r) == [] && Pop(r) == [[CreateRoot()]]
  {
    [[CreateRoot()], []]
  }

  datatype ParseError =
    | BuilderFault(fault: BuildError)   // an action would misuse the stack
    | NoNodeSet                         // the stack ended up empty

  /** The tree-building part of `Parse`: run the actions from the initial
      stack, then return the first node of the top frame. */
  function ParseEvents(evs: seq<Event>): (r: Result<Node, ParseError>)
    ensures r.Success? <==> Run(InitialStack(), evs).Success?
                            && |Run(InitialStack(), evs).value| > 0
                            && Top(Run(InitialStack(), evs).value) != []
    ensures r.Success? ==> r.value == Top(Run(InitialStack(), evs).value)[0]
  {
    match Run(InitialStack(), evs)
    case Failure(e) => Failure(BuilderFault(e))
    case Success(st) =>
      if |st| == 0 then Failure(NoNodeSet)
      else if Top(st) == [] then Failure(BuilderFault(EmptyFrame))
      else Success(Top(st)[0])
  }
}
