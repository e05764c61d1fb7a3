# ParadoxNode in Dafny

A model of the core of ParadoxNode, a small C++ library that reads and
writes Paradox Script: files of `key = value` entries, where a value is a
line of text, a brace-delimited list of integers, or a brace-delimited
block of further entries, and `#` starts a comment that runs to the end
of the line.

The model has two halves. The first is the `ParadoxNode` tree value. The
second is the parser's pre-pass and tree builder.

- `ParadoxNode` (`paradox_node.dfy`) is an immutable `Node` with a key
  and three parallel value stores: text, integers and children. The
  factories and mutators become pure functions, and their contracts state
  that the stores stay mutually exclusive.
  - `GetChild` returns the first child whose key matches.
  - `GetValueUnquoted` strips matching quotes from a text longer than two
    characters.
  - `Output` becomes `Render`, a function that returns the text
    `Output` writes.
- `RenderLines` views that text as lines. It proves the two-space
  indentation per level, the one-level shift of a nested block, and that
  `Output` writes no stray newlines.
- `Grammar` holds the character classes of the PEG grammar, and the
  trailing-whitespace trim that the `TextValue` action applies. `Decimal`
  holds the decimal writing and reading of integers.
- `TreeBuilder` models the parser's actions over a stack of frames. Each
  grammar rule that matches and has an action becomes an event: `KeyEv`,
  `OpenEv`, `IntEv`, `TextEv` or `NodeSetEndEv`. The source's
  `std::stack<ActiveNodeSet>` becomes a `seq<seq<Node>>` with the top
  last. Where the source would call `top()` on an empty stack, or
  `back()` on an empty frame, the model returns a `BuildError`.
- `EventGrammar` describes the event orders the grammar produces, as a
  syntax tree of `Entry` and `Value`. It also gives the reference meaning
  of each entry. Its main theorem, `ParseDocument`, says that the builder
  turns the events of any legal document into an empty-key root whose
  children are the meanings of the entries.
  - The speculative frame is the frame `{` pushes on the assumption that
    child nodes follow. The first integer drops it.
- `RoundTrip` closes the loop:
  - A well-formed tree, seen as the entries `Output` writes, is rebuilt
    exactly.
  - The builder makes only well-formed trees.
  - Comment removal leaves the rendering of a well-formed tree alone, so
    the grammar reads exactly what `Output` wrote.
- `Tokens` shows that the grammar's greedy repetitions match the tokens
  of the canonical rendering exactly. It also shows that the grammar's
  two ordered choices take the branch `Output` meant. The choices are
  `Value` (`Composite` before `TextValue`) and `CompositeValue`
  (`IntegerSequence` before `NodeSet`).
- `Comments` models the comment-removal loop of `Parse` as a method. The
  method is proved equal to a reference definition that works one
  character at a time.
- `Scenarios` works through small examples at the level of events.

An unclosed brace, as in `a = { b = 1`, is not an error. `Parse` throws
when the top rule fails to match (ParadoxNodeParser.cpp:139-143), when
the stack is empty afterwards (:144-147), and when `std::stoi` is given
more digits than an `int` holds (:71). On this input the top rule
`star<Node>` matches, so the throw at :142 is not reached; the stack is
not empty; and no integer is read. By the grammar rules, `Composite`
reads `{`, then `b = 1` as a node set, and fails only for want of the
closing `}`. `Value` then falls back to `TextValue`, which accepts
`{ b = 1` to the end of the input. The actions that the failed attempt
fired leave the stack balanced, and the text replaces the children they
installed. `Scenarios.UnclosedBrace` follows those events and returns a
root whose child `a` has the text `{ b = 1`.

## Model

| member | source | states |
|---|---|---|
| Grammar.CharacterClasses | ParadoxNodeParser.cpp:14-30 | the classes tell whitespace, digits, identifier characters, `=`, `{`, `}`, `-` and `#` apart; a digit cannot start a key; `Text` runs over identifier characters, whitespace other than newline, `{`, `=` and `#`, and stops at `}` and newline |
| Grammar.LastNotWhitespace | ParadoxNodeParser.cpp:88-89 | `None` exactly when every character is a space, tab or newline; otherwise it is the position of a non-whitespace character with only whitespace after it |
| Grammar.TrimTrailing | ParadoxNodeParser.cpp:87-90 | the kept text is a prefix of the matched text, does not end in whitespace, and everything dropped is whitespace |
| Grammar.TrimTrailingIdempotent | ParadoxNodeParser.cpp:87-90 | trimming an already trimmed text changes nothing |
| Grammar.TrimTrailingKeepsTrimmed | ParadoxNodeParser.cpp:87-90 | a text that does not end in whitespace is kept whole |
| Grammar.TextTokenTrimsToNonEmpty | ParadoxNodeParser.cpp:83-92 | a text the `Text` rule hands to the action never trims to nothing, so the action always sets a value, and its first character is kept |
| Decimal.NatToString | ParadoxNode.cpp:134-136 | the digits written for a non-negative integer form a token the `Integer` rule accepts, with no leading zero |
| Decimal.IntToString | ParadoxNode.cpp:136 | `out << intValue` writes a non-negative integer as an integer token, a negative one as `-` followed by an integer token, and nothing but digits and `-` |
| Decimal.DecimalValue | ParadoxNodeParser.cpp:71 | `std::stoi` of a digit string is zero exactly when every digit is `0`, leading zeros allowed |
| Decimal.DecimalRoundTrip | ParadoxNodeParser.cpp:71 | `std::stoi` of the digits written for `n` gives `n` back |
| ParadoxNode.CreateRoot | ParadoxNode.cpp:5-8 | the root has the empty key and no value |
| ParadoxNode.Create | ParadoxNode.cpp:10-15 | a node with the given key and no value |
| ParadoxNode.CreateWithText | ParadoxNode.cpp:17-23 | the node holds the key and the text, nothing else, and equals `Create(key)` followed by `SetValue` |
| ParadoxNode.CreateWithIntegers | ParadoxNode.cpp:25-31 | the node holds the key and the integers, nothing else, and equals `Create(key)` followed by `SetValues` |
| ParadoxNode.CreateWithChildren | ParadoxNode.cpp:33-39 | the node holds the key and the children, nothing else, and equals `Create(key)` followed by `SetChildren` |
| ParadoxNode.SetKey | ParadoxNode.cpp:53-56 | only the key changes; all three stores are untouched, so exclusivity is kept exactly when it held |
| ParadoxNode.SetKeyRestores | ParadoxNode.cpp:53-56 | setting the old key back restores the node |
| ParadoxNode.ClearValue | ParadoxNode.cpp:110-115 | all three stores are empty and the key is kept |
| ParadoxNode.SetValue | ParadoxNode.cpp:58-62 | the text is the argument, the integers and children are empty, and the key is unchanged |
| ParadoxNode.SetValues | ParadoxNode.cpp:64-68 | the integers are the argument, the text and children are empty, and the key is unchanged |
| ParadoxNode.AddIntegerValue | ParadoxNode.cpp:70-75 | text and children are cleared; the integers grow by one, keep the earlier ones in order, and end with the new one |
| ParadoxNode.SetChildren | ParadoxNode.cpp:77-81 | the children are the argument, the text and integers are empty, and the key is unchanged |
| ParadoxNode.AddChild | ParadoxNode.cpp:83-88 | text and integers are cleared; the children grow by one, keep the earlier ones in order, and end with the new one; the key is unchanged |
| ParadoxNode.AddIntegerValuesAppends | ParadoxNode.cpp:70-75 | adding a non-empty list of integers one at a time appends them all, in order, and leaves only integers |
| ParadoxNode.AddIntegerValuesIsSetValues | ParadoxNode.cpp:64-75 | from a cleared node, adding integers one by one gives the same node as `SetValues` |
| ParadoxNode.AddChildrenAppends | ParadoxNode.cpp:83-88 | adding a non-empty list of children one at a time appends them all, in order, and leaves only children |
| ParadoxNode.AddChildrenIsSetChildren | ParadoxNode.cpp:77-88 | from a cleared node, adding children one by one gives the same node as `SetChildren` |
| ParadoxNode.IndexOfKey | ParadoxNode.cpp:92-94 | the position of the first node with the key; `None` exactly when no node has it |
| ParadoxNode.GetChild | ParadoxNode.cpp:90-96 | `None` (the null pointer) exactly when no child has the key; otherwise a child with the key and no earlier child with it |
| ParadoxNode.GetValueUnquoted | ParadoxNode.cpp:98-108 | for a text longer than two characters whose first character is a quote and equals its last, it returns the characters in between; otherwise it returns the text unchanged |
| ParadoxNode.UnquoteRemovesQuotes | ParadoxNode.cpp:100-104 | quoting a non-empty text with `'` or `"` and unquoting it gives the text back |
| ParadoxNode.UnquoteKeepsEmptyQuotes | ParadoxNode.cpp:100-107 | the two-character texts `""` and `''` are returned as they are |
| ParadoxNode.UnquoteKeepsUnbalanced | ParadoxNode.cpp:103-107 | a text whose first and last characters differ is returned as it is |
| ParadoxNode.Render | ParadoxNode.cpp:117-128 | the text is empty or ends with a newline; a keyed node's text starts with the indentation, the key and ` = ` |
| ParadoxNode.RenderValue | ParadoxNode.cpp:130-145 | the value ends with a newline and starts with `{` exactly when the node has no text or its text starts with `{` |
| ParadoxNode.RenderAll | ParadoxNode.cpp:121-122 | the children's text is empty or ends with a newline |
| ParadoxNode.RenderIntegers | ParadoxNode.cpp:135-136 | empty exactly when there are no integers; otherwise starts with a space, and holds only spaces, signs and digits |
| ParadoxNode.Indentation | ParadoxNode.cpp:126 | exactly `2 * depth` characters, all spaces |
| RenderLines.RenderIsLines | ParadoxNode.cpp:117-146 | `Output` writes exactly the lines of `Lines`, each ended by one newline: for a keyed node, one line with the text or the integers in braces, or an opening line, the children one level deeper and a closing line |
| RenderLines.RenderAllIsLines | ParadoxNode.cpp:119-124 | the children's outputs follow one another, in order, at the same depth |
| RenderLines.TextIsLine | ParadoxNode.cpp:128-131 | a text value is written as the single line `key = text` |
| RenderLines.IntegersIsLine | ParadoxNode.cpp:128-137 | an integer list is written as the single line `key = { ... }` |
| RenderLines.BlockNodeIsLines | ParadoxNode.cpp:139-144 | a block is written as the lines of its opening, its children and its closing |
| RenderLines.BlockIsLines | ParadoxNode.cpp:141-144 | a block is the line `key = {`, the inner lines, and the closing `}` line at the node's own indentation |
| RenderLines.IndentationGrows | ParadoxNode.cpp:126 | the indentation of one level is a prefix of the indentation of the next |
| RenderLines.LinesIndented | ParadoxNode.cpp:126-144 | every line written for a node at some depth starts with that depth's indentation, including the lines of its nested children |
| RenderLines.LinesAllIndented | ParadoxNode.cpp:121-122 | the same for a list of nodes written at one depth, as the empty-key root writes its children |
| RenderLines.OneLineShift | ParadoxNode.cpp:128-137 | a text or integer line written one level deeper is the same line with two more spaces in front |
| RenderLines.BlockShift | ParadoxNode.cpp:141-144 | a block written one level deeper has its opening and closing lines two spaces further in, around children that are shifted too |
| RenderLines.LinesShift | ParadoxNode.cpp:117-146 | writing any node one level deeper writes the same lines, each with two more spaces in front |
| RenderLines.LinesAllShift | ParadoxNode.cpp:142-143 | the same for a list of children |
| RenderLines.IntegersHaveNoNewline | ParadoxNode.cpp:134-137 | the integers inside braces are written without a newline |
| RenderLines.LinesHaveNoNewline | ParadoxNode.cpp:128-144 | when no key or text holds a newline, the only newlines `Output` writes are the ones that end its lines |
| RenderLines.LinesAllHaveNoNewline | ParadoxNode.cpp:121-122 | the same for a list of nodes |
| Tokens.MatchLength | ParadoxNodeParser.cpp:17-24 | a greedy repetition consumes a prefix of accepted characters and stops at the end or at the first refused character |
| Tokens.MatchLengthExact | ParadoxNodeParser.cpp:17-24 | a token followed by a refused character is consumed exactly |
| Tokens.KeyMatchesRenderedKey | ParadoxNodeParser.cpp:29-30 | on a written line `key = ...`, the identifier rule consumes exactly the key |
| Tokens.TextMatchesRenderedText | ParadoxNodeParser.cpp:20-21 | on a written text value, the `Text` rule consumes exactly the text, up to the newline `Output` writes after it |
| Tokens.ReadIntegerList | ParadoxNodeParser.cpp:26-27 | a match of `list<Integer, Whitespace>` yields at least one token, all of them digit strings, and consumes input |
| Tokens.ReadLastInteger | ParadoxNodeParser.cpp:26-27 | an integer followed by ` }` ends the list, and the separator is not consumed |
| Tokens.ReadNextInteger | ParadoxNodeParser.cpp:26-27 | an integer, a space and another integer continue the list |
| Tokens.ReadRenderedIntegers | ParadoxNodeParser.cpp:26-27 | reading the integers `Output` wrote between the braces yields the tokens they were written as, in order, and stops before ` }` |
| Tokens.SkipWhitespace | ParadoxNodeParser.cpp:44 | the padding drops the leading spaces, tabs and newlines and nothing else: every dropped character is whitespace, and what remains is a suffix that is empty or starts with a non-whitespace character |
| Tokens.ValueChoice | ParadoxNodeParser.cpp:40-41 | `Composite` is tried first and starts with `{`: the written value starts with `{` exactly when the node has no text, so a text fails `Composite` at its first character |
| Tokens.CompositeChoice | ParadoxNodeParser.cpp:49-50 | `IntegerSequence` is tried first and needs a digit after the padding: on a written composite, it applies exactly when the node has integers; otherwise `NodeSet` reads the block |
| Tokens.FirstChildInside | ParadoxNodeParser.cpp:43-47 | inside a written block with children, the padding leads to the first child's key |
| Tokens.BlockInside | ParadoxNodeParser.cpp:43-47 | after the padding inside a written block comes the first child's key or the closing brace, never a digit |
| TreeBuilder.OnKey | ParadoxNodeParser.cpp:75-81 | a fresh keyed node with no value is appended to the top frame, and no other frame changes; fails only on an empty stack |
| TreeBuilder.OnOpen | ParadoxNodeParser.cpp:94-101 | exactly one empty frame is pushed; the depth grows by one and the frames below are unchanged |
| TreeBuilder.OnInteger | ParadoxNodeParser.cpp:60-73 | an empty top frame is popped first and otherwise the depth is unchanged; the integer is appended to the last node of the new top frame; it succeeds exactly when that node exists |
| TreeBuilder.OnText | ParadoxNodeParser.cpp:83-92 | all-whitespace text changes nothing; otherwise the last node of the top frame gets the text with trailing whitespace removed, and nothing else changes |
| TreeBuilder.OnNodeSetEnd | ParadoxNodeParser.cpp:103-111 | the top frame is popped and installed, in order, as the children of the last node of the frame below; the depth shrinks by one; it succeeds exactly when that node exists |
| TreeBuilder.Step | ParadoxNodeParser.cpp:60-111 | only `{` pushes a frame; only a node-set end or an integer in an empty frame pops one; frames below the top two never change; a stack whose top two frames hold nodes accepts any event |
| TreeBuilder.Run | ParadoxNodeParser.cpp:139 | over a whole run, the depth grows by at most one per `{` and shrinks by at most one per node-set end or integer |
| TreeBuilder.RunAppend | ParadoxNodeParser.cpp:56-111 | running two event sequences one after the other equals running their concatenation, and the first error stops the run |
| TreeBuilder.InitialStack | ParadoxNodeParser.cpp:135-138 | two frames: the bottom one holds only the empty-key root, and the top one is empty |
| TreeBuilder.ParseEvents | ParadoxNodeParser.cpp:139-148 | succeeds exactly when the actions never misuse the stack and the final top frame is non-empty; the result is that frame's first node |
| EventGrammar.IntegerEvents | ParadoxNodeParser.cpp:26-27 | an integer sequence fires one integer event per token, in order, carrying `std::stoi` of the token |
| EventGrammar.EntryEvents | ParadoxNodeParser.cpp:37-44 | a `Node` match fires its key first; a text value gives exactly the key and text actions; any other value fires `{` second; an integer entry ends in an integer action, one per token; a block entry ends in the node-set action |
| EventGrammar.ValueEvents | ParadoxNodeParser.cpp:37-50 | `Value` tries `Composite` first: a text fires one text action and nothing else, a composite starts with `{`; an integer list is `{` and one action per token; a block ends in the node-set action |
| EventGrammar.EntriesEvents | ParadoxNodeParser.cpp:46-47 | `star<Node>` fires at least two actions per node and none for no nodes; a non-empty list starts with its first node's key |
| EventGrammar.DocumentEvents | ParadoxNodeParser.cpp:139 | the top-level parse always ends with the outermost node-set action, and is only that action for an empty document; otherwise it starts with the first key |
| EventGrammar.KeyOnTop | ParadoxNodeParser.cpp:75-81 | the key event appends `Create(key)` to the top frame of any stack |
| EventGrammar.IntegerOnEmptyFrame | ParadoxNodeParser.cpp:64-71 | the first integer after `{` drops the speculative frame and extends the key's node below it |
| EventGrammar.BuildMoreIntegers | ParadoxNodeParser.cpp:60-73 | later integers find the owning node on top and append their values, in order, to its integers |
| EventGrammar.BuildTextEntry | ParadoxNodeParser.cpp:75-92 | `key = text` appends to the top frame a node with the key and the trimmed text |
| EventGrammar.BuildIntegersEntry | ParadoxNodeParser.cpp:60-101 | `key = { i1 ... in }` appends to the top frame a node with the key and exactly those integers, and the stack returns to its depth |
| EventGrammar.BuildNodeSetEntry | ParadoxNodeParser.cpp:94-111 | `key = { entries }` appends a node with the key whose children are what the inner events collected on the pushed frame |
| EventGrammar.BuildEntry | ParadoxNodeParser.cpp:37-50 | the events of any legal entry append its meaning to the top frame and leave every frame below unchanged |
| EventGrammar.BuildEntries | ParadoxNodeParser.cpp:46-47 | the events of a list of legal entries append their meanings, in order, to the top frame |
| EventGrammar.TopLevelEntries | ParadoxNodeParser.cpp:135-139 | from the initial stack, the top-level entries fill the frame above the root |
| EventGrammar.OutermostEnd | ParadoxNodeParser.cpp:103-111 | the end of the outermost node set installs the collected entries under the root, which is left alone in the one remaining frame |
| EventGrammar.ParseDocument | ParadoxNodeParser.cpp:134-148 | a legal document never misuses the stack, and the returned root has the empty key, no text or integers, and the meanings of the top-level entries as children, in order |
| RoundTrip.IntegerTokensRoundTrip | ParadoxNode.cpp:134-136 | non-negative integers written by `Output` are integer tokens that read back as the same integers |
| RoundTrip.ToEntry | ParadoxNode.cpp:126-145 | how the grammar reads what `Output` writes for a node: the same key; a text exactly when the node has text; an integer list exactly when there is no text but there are integers, one token per integer; otherwise a block with one entry per child |
| RoundTrip.ToEntries | ParadoxNode.cpp:143-144 | the children are read as entries one for one, in order |
| RoundTrip.EntryRoundTrip | ParadoxNode.cpp:117-146 | what `Output` writes for a well-formed node is a legal entry whose meaning is that node |
| RoundTrip.EntriesRoundTrip | ParadoxNode.cpp:121-122 | the same for a list of nodes, in order |
| RoundTrip.RebuildDocument | ParadoxNodeParser.cpp:134-148 | building from the events of a well-formed root's rendering gives back exactly that root |
| RoundTrip.ReparseParsed | ParadoxNodeParser.cpp:134-148 | parsing is stable: the tree a legal document parses to, written out by `Output` and read again, gives the same root |
| RoundTrip.RenderHasNoHash | ParadoxNode.cpp:126-131 | for a well-formed node, `Output` writes no `#`: indentation, key, ` = ` and the value hold none |
| RoundTrip.ValueHasNoHash | ParadoxNode.cpp:130-145 | the value written for a well-formed node holds no `#`, whether text, integers or a block |
| RoundTrip.RenderAllHasNoHash | ParadoxNode.cpp:121-122 | the same for a list of nodes |
| RoundTrip.RenderSurvivesCommentRemoval | ParadoxNodeParser.cpp:117-132 | comment removal leaves what `Output` writes for a well-formed document unchanged, so the grammar reads exactly the rendered text |
| RoundTrip.MeaningIsWellFormed | ParadoxNodeParser.cpp:60-111 | every node the builder makes from a legal entry is well formed: an identifier key, one store at most, trimmed text without `#`, non-negative integers |
| RoundTrip.MeaningsAreWellFormed | ParadoxNodeParser.cpp:103-111 | the same for the children the builder installs |
| RoundTrip.DecimalValuesNonNegative | ParadoxNodeParser.cpp:23-24 | digit-only tokens never yield a negative integer |
| Comments.Find | ParadoxNodeParser.cpp:118-121 | the first position at or after the start that holds the character, or `None` when there is none |
| Comments.StripRemovesHashes | ParadoxNodeParser.cpp:118-132 | no `#` is left after comment removal |
| Comments.StripKeepsNewlines | ParadoxNodeParser.cpp:121-129 | every newline of the input survives: the number of newlines is unchanged |
| Comments.StripKeepsPlainText | ParadoxNodeParser.cpp:118-119 | input without `#` is kept as it is |
| Comments.StripPlainPrefix | ParadoxNodeParser.cpp:118-130 | text before the first `#` is kept, and removal continues on the rest |
| Comments.StripCommentBody | ParadoxNodeParser.cpp:121-129 | inside a comment, everything before the next newline is dropped |
| Comments.FinalCommentErased | ParadoxNodeParser.cpp:122-126 | a comment that no newline ends is erased to the end of the input |
| Comments.CommentLineErased | ParadoxNodeParser.cpp:127-131 | a comment is erased up to, but not including, the newline that ends it, and removal continues after that newline |
| Comments.ResumeSearch | ParadoxNodeParser.cpp:130 | searching again from the erase position finds the next pending comment, or shows that the content is finished |
| Comments.EraseToEnd | ParadoxNodeParser.cpp:122-126 | erasing from the `#` to the end completes the removal |
| Comments.EraseToNewline | ParadoxNodeParser.cpp:127-130 | erasing from the `#` up to the newline keeps the loop's invariant at the erase position |
| Comments.RemoveComments | ParadoxNodeParser.cpp:117-132 | the loop computes the one-character-at-a-time reference removal, and its result has no `#` |
| Scenarios.MixedDocument | ParadoxNodeParser.cpp:115-148 | for `a = 1`, `b = { 1 2 3 }` and `c = { d = foo }`, the events build a root with a text child, an integer child and a block child, in order |
| Scenarios.CommentedDocument | ParadoxNodeParser.cpp:83-132 | comment removal turns `# header`, newline, `key = value # trailing`, newline into an empty line and `key = value `; the events of that line give the text `value`, without the space left before the comment |
| Scenarios.ValueLineIsToken | ParadoxNodeParser.cpp:20-30 | `key` is an identifier, and `value ` is a text token without `#` that trims to `value` |
| Scenarios.CommentedSource | ParadoxNodeParser.cpp:117-132 | comment removal on that file leaves exactly a newline, `key = value ` and a newline |
| Scenarios.HeaderThenTrailingComment | ParadoxNodeParser.cpp:117-132 | a whole-line comment followed by a line with a trailing comment leaves an empty line and the text before the second `#` |
| Scenarios.OneLineDocument | ParadoxNodeParser.cpp:75-92 | the events of a one-line document `key = text` build a root with one child holding the key and the trimmed text |
| Scenarios.MixedTailEvents | ParadoxNodeParser.cpp:60-111 | the integer entry and the block entry fire the key, brace, integer, text and node-set-end events in source order |
| Scenarios.UnclosedBrace | ParadoxNodeParser.cpp:37-41 | for `a = { b = 1`, the failed `Composite` attempt's actions and the fallback text together leave a root whose child `a` has the text `{ b = 1`, not an error |
| Scenarios.QuotedText | ParadoxNode.cpp:98-108 | `name = "Hello World"` parses to a child whose text keeps its quotes, and unquoting that text drops them |
| Scenarios.QuotedTextParsed | ParadoxNodeParser.cpp:83-92 | the quoted text is one text token, stored whole with its quotes |
| Scenarios.QuotedTextIsToken | ParadoxNodeParser.cpp:20-21 | `"Hello World"` is a text the `Text` rule accepts whole, with no `#` and no trailing whitespace to trim |
| Scenarios.QuotedTextUnquoted | ParadoxNode.cpp:98-104 | unquoting `"Hello World"` gives `Hello World` |

## Left out

- The PEG library itself: `pegtl::parse`, `pad`, `sor`, backtracking, and
  the moment each action fires. The builder is driven by an explicit event
  sequence. `EventGrammar` states which sequences the grammar produces for
  a clean read. `Tokens` checks, on the text `Output` writes, the greedy
  token matches and the two ordered choices.
  - There is no function that turns an arbitrary input string into
    events, so `Parse` itself is modelled as `RemoveComments` followed by
    `ParseEvents`.
- Whether `Parse` reports an error (ParadoxNodeParser.cpp:139-143) is
  decided inside the PEG library, from the top rule `NodeSet`, which is
  `star<Node>` and so always matches, possibly nothing. Whether input left
  unconsumed counts as an error is not modelled.
- The `std::runtime_error` messages and `sourceName`
  (ParadoxNodeParser.cpp:140-147). A failure is a `ParseError` value
  without text.
- Mixed composites such as `{ 1 a = 2 }`, and a text value that starts
  with `{`. On these, actions fire on a branch that later fails, with no
  rollback. `IsTextToken` and `LegalValue` exclude them.
- TreeBuilder.OnInteger: the integer is unbounded. `std::stoi` throws
  `out_of_range` for digit strings beyond 32 bits, and this is not
  modelled.
- RoundTrip.RebuildDocument: the round trip is stated for well-formed
  trees only. `Output` writes a negative integer as `-5`, which the
  digits-only `Integer` rule cannot read back. It also writes a text
  starting or ending with whitespace, or holding `}`, `#` or a newline, in a
  form the grammar reads differently. Nodes with those values are outside
  the statement.
- RoundTrip.EntryRoundTrip: a text holding `#` is outside the statement,
  because comment removal would cut the text there. For every node inside
  the statement, `RoundTrip.RenderSurvivesCommentRemoval` shows that
  comment removal leaves the rendering alone.
- RoundTrip.EntriesRoundTrip: the same `#` exclusion, for a list of nodes.
- Strings are sequences of Unicode characters, while the source works on
  the bytes of a `std::string`. Every character the grammar and the
  comment pass test is ASCII, and no byte of a multi-byte UTF-8 character
  is ASCII, so the two views agree on UTF-8 input.
- `operator<<` and the null check at ParadoxNode.cpp:46-51. `Output`
  writes to a stream; `Render` returns the string instead.
- `ParadoxNode::Parse` (ParadoxNode.cpp:41-44) only forwards to the parser
  and has no separate member.
- `shared_ptr` sharing. In the source, `GetChild` returns a pointer
  through which the tree can be changed in place. Here nodes are values,
  and `GetChild` returns a copy.
- ParadoxNode.h is not part of this model. It declares a single `value`
  field and other members, which do not match ParadoxNode.cpp.
- PerformanceTest/PerformanceTest.cpp is not part of this model. It only
  reads files, times the parse and writes the result.
