/** Worked examples: the events the grammar fires on small documents and
    what the builder and the comment pre-pass make of them. */
module Scenarios {
  import opened Wrappers
  import opened Grammar
  import opened Decimal
  import opened ParadoxNode
  import opened TreeBuilder
  import opened EventGrammar
  import opened Comments

  /** The entries of `a = 1`, `b = { 1 2 3 }`, `c = { d = foo }`. */
  function MixedEntries(): seq<Entry> {
    [Entry("a", TextVal("1")),
     Entry("b", IntegersVal(["1", "2", "3"])),
     Entry("c", NodeSetVal([Entry("d", TextVal("foo"))]))]
  }

  lemma MixedEntriesLegal()
    ensures LegalEntries(MixedEntries())
  {
    var es := MixedEntries();
    assert LegalEntries([es[2]]) by {
      assert LegalEntries([Entry("d", TextVal("foo"))]);
    }
    assert es[1..][1..] == [es[2]];
    assert LegalEntries(es[1..]);
  }

  lemma IntegersEntryEvents()
    ensures LegalEntry(MixedEntries()[1])
    ensures EntryEvents(MixedEntries()[1]) == [KeyEv("b"), OpenEv, IntEv(1), IntEv(2), IntEv(3)]
  {
    assert DecimalValue("1") == 1 && DecimalValue("2") == 2 && DecimalValue("3") == 3;
    var ts := ["1", "2", "3"];
    assert ts[1..] == ["2", "3"] && ts[1..][1..] == ["3"];
    assert IntegerEvents(ts) == [IntEv(1), IntEv(2), IntEv(3)];
  }

  lemma BlockEntryEvents()
    ensures LegalEntry(MixedEntries()[2])
    ensures EntryEvents(MixedEntries()[2])
            == [KeyEv("c"), OpenEv, KeyEv("d"), TextEv("foo"), NodeSetEndEv]
  {
    var d := Entry("d", TextVal("foo"));
    assert LegalEntry(d) by {
      assert '#' !in "foo";
    }
    assert LegalEntries([d]) by {
      assert [d][1..] == [];
    }
    assert EntriesEvents([d]) == [KeyEv("d"), TextEv("foo")] by {
      assert [d][1..] == [];
    }
  }

  lemma MixedEvents()
    requires LegalEntries(MixedEntries())
    ensures DocumentEvents(MixedEntries())
            == [KeyEv("a"), TextEv("1"),
                KeyEv("b"), OpenEv, IntEv(1), IntEv(2), IntEv(3),
                KeyEv("c"), OpenEv, KeyEv("d"), TextEv("foo"), NodeSetEndEv,
                NodeSetEndEv]
  {
    var es := MixedEntries();
    var a := [KeyEv("a"), TextEv("1")];
    var rest := [KeyEv("b"), OpenEv, IntEv(1), IntEv(2), IntEv(3),
                 KeyEv("c"), OpenEv, KeyEv("d"), TextEv("foo"), NodeSetEndEv];
    MixedTailEvents();
    assert EntryEvents(es[0]) == a;
    assert EntriesEvents(es) == a + rest;
    assert DocumentEvents(es) == a + rest + [NodeSetEndEv];
  }

  /** The events of the integer entry and the block entry, one after the other. */
  lemma MixedTailEvents()
    requires LegalEntries(MixedEntries())
    ensures LegalEntries(MixedEntries()[1..])
    ensures EntriesEvents(MixedEntries()[1..])
            == [KeyEv("b"), OpenEv, IntEv(1), IntEv(2), IntEv(3),
                KeyEv("c"), OpenEv, KeyEv("d"), TextEv("foo"), NodeSetEndEv]
  {
    var es := MixedEntries()[1..];
    var b := [KeyEv("b"), OpenEv, IntEv(1), IntEv(2), IntEv(3)];
    var c := [KeyEv("c"), OpenEv, KeyEv("d"), TextEv("foo"), NodeSetEndEv];
    assert EntriesEvents(es[1..]) == c by {
      BlockEntryEvents();
      assert es[1..] == [MixedEntries()[2]];
    }
    IntegersEntryEvents();
    assert es[0] == MixedEntries()[1];
    assert EntriesEvents(es) == b + c;
  }

  lemma IntegersEntryMeaning()
    requires LegalEntry(MixedEntries()[1])
    ensures Meaning(MixedEntries()[1]) == CreateWithIntegers("b", [1, 2, 3])
  {
    assert DecimalValue("1") == 1 && DecimalValue("2") == 2 && DecimalValue("3") == 3;
    assert DecimalValues(["1", "2", "3"]) == [1, 2, 3];
  }

  lemma BlockEntryMeaning()
    requires LegalEntry(MixedEntries()[2])
    ensures Meaning(MixedEntries()[2]) == CreateWithChildren("c", [CreateWithText("d", "foo")])
  {
    var d := Entry("d", TextVal("foo"));
    assert TrimTrailing("foo") == "foo";
    assert [d][1..] == [];
    assert Meanings([d]) == [CreateWithText("d", "foo")];
  }

  lemma MixedMeanings()
    requires LegalEntries(MixedEntries())
    ensures Meanings(MixedEntries())
            == [CreateWithText("a", "1"),
                CreateWithIntegers("b", [1, 2, 3]),
                CreateWithChildren("c", [CreateWithText("d", "foo")])]
  {
    var es := MixedEntries();
    assert es[1..] == [es[1], es[2]] && es[1..][1..] == [es[2]] && es[1..][1..][1..] == [];
    assert TrimTrailing("1") == "1";
    assert Meaning(es[0]) == CreateWithText("a", "1");
    IntegersEntryMeaning();
    BlockEntryMeaning();
  }

  /** A text, an integer list (the speculative frame is dropped at the
      first integer) and a block, under the empty-key root. */
  lemma MixedDocument()
    ensures ParseEvents([KeyEv("a"), TextEv("1"),
                         KeyEv("b"), OpenEv, IntEv(1), IntEv(2), IntEv(3),
                         KeyEv("c"), OpenEv, KeyEv("d"), TextEv("foo"), NodeSetEndEv,
                         NodeSetEndEv])
            == Success(CreateWithChildren([], [
                 CreateWithText("a", "1"),
                 CreateWithIntegers("b", [1, 2, 3]),
                 CreateWithChildren("c", [CreateWithText("d", "foo")])]))
  {
    MixedEntriesLegal();
    MixedEvents();
    MixedMeanings();
    ParseDocument(MixedEntries());
  }

  /** A document of one line `key = text`: the root holds one child with
      the text, trailing whitespace trimmed. */
  lemma OneLineDocument(key: string, t: string)
    requires IsIdentifier(key) && IsTextToken(t) && '#' !in t
    ensures ParseEvents([KeyEv(key), TextEv(t), NodeSetEndEv])
            == Success(CreateWithChildren([], [CreateWithText(key, TrimTrailing(t))]))
  {
    var e := Entry(key, TextVal(t));
    assert LegalEntry(e);
    assert [e][1..] == [];
    assert LegalEntries([e]);
    var none: seq<Event> := [];
    assert EntryEvents(e) == [KeyEv(key), TextEv(t)];
    assert EntriesEvents([e]) == EntryEvents(e) + none;
    assert DocumentEvents([e]) == [KeyEv(key), TextEv(t), NodeSetEndEv];
    var nodes: seq<Node> := [];
    assert Meaning(e) == CreateWithText(key, TrimTrailing(t));
    assert Meanings([e]) == [Meaning(e)] + nodes;
    assert Meanings([e]) == [CreateWithText(key, TrimTrailing(t))];
    ParseDocument([e]);
  }

  /** A file with a comment line and a trailing comment: comment removal
      leaves an empty line and `key = value `, and the space left before the
      comment is trimmed from the text by the `TextValue` action. */
  lemma CommentedDocument()
    ensures StripComments("# header\n" + "key = value # trailing\n") == "\n" + "key = value \n"
    ensures ParseEvents([KeyEv("key"), TextEv("value "), NodeSetEndEv])
            == Success(CreateWithChildren([], [CreateWithText("key", "value")]))
  {
    ValueLineIsToken();
    OneLineDocument("key", "value ");
    CommentedSource();
  }

  /** The line left by comment removal holds a key and a text whose
      trailing space is trimmed. */
  lemma ValueLineIsToken()
    ensures IsIdentifier("key")
    ensures IsTextToken("value ") && '#' !in "value "
    ensures TrimTrailing("value ") == "value"
  {
  }

  /** Comment removal on the file of `CommentedDocument`. */
  lemma CommentedSource()
    ensures StripComments("# header\n" + "key = value # trailing\n") == "\n" + "key = value \n"
  {
    var kept := "key = value ";
    assert "# header\n" == "#" + " header" + "\n";
    assert "key = value # trailing\n" == kept + "#" + " trailing" + "\n";
    assert "key = value \n" == kept + "\n";
    HeaderThenTrailingComment(" header", kept, " trailing");
  }

  /** A comment line, then a line with a trailing comment: an empty line and
      the text before the second `#` remain. */
  lemma HeaderThenTrailingComment(header: string, kept: string, trailing: string)
    requires '\n' !in header && '#' !in kept && '\n' !in trailing
    ensures StripComments(("#" + header + "\n") + (kept + "#" + trailing + "\n")) == "\n" + (kept + "\n")
  {
    var line := kept + "#" + trailing + "\n";
    assert ("#" + header + "\n") + line == [] + "#" + header + "\n" + line;
    CommentLineErased([], header, line);
    assert line == kept + "#" + trailing + "\n" + [];
    CommentLineErased(kept, trailing, []);
    assert StripComments([]) == [];
  }

  /** `name = "Hello World"` keeps its quotes as text; unquoting drops them. */
  lemma QuotedText()
    ensures ParseEvents([KeyEv("name"), TextEv("\"Hello World\""), NodeSetEndEv])
            == Success(CreateWithChildren([], [CreateWithText("name", "\"Hello World\"")]))
    ensures GetValueUnquoted(CreateWithText("name", "\"Hello World\"")) == "Hello World"
  {
    QuotedTextParsed();
    QuotedTextUnquoted();
  }

  /** Unquoting drops the two quotes around the text. */
  lemma QuotedTextUnquoted()
    ensures GetValueUnquoted(CreateWithText("name", "\"Hello World\"")) == "Hello World"
  {
    var t := "\"Hello World\"";
    assert t == ['"'] + "Hello World" + ['"'];
    assert CreateWithText("name", t) == SetValue(Create("name"), t);
    UnquoteRemovesQuotes(Create("name"), '"', "Hello World");
  }

  /** The quoted text is one text token with nothing to trim. */
  lemma QuotedTextParsed()
    ensures ParseEvents([KeyEv("name"), TextEv("\"Hello World\""), NodeSetEndEv])
            == Success(CreateWithChildren([], [CreateWithText("name", "\"Hello World\"")]))
  {
    QuotedTextIsToken();
    OneLineDocument("name", "\"Hello World\"");
  }

  /** The quoted text is a text token without `#` and with nothing to trim. */
  lemma QuotedTextIsToken()
    ensures IsIdentifier("name")
    ensures IsTextToken("\"Hello World\"") && '#' !in "\"Hello World\""
    ensures TrimTrailing("\"Hello World\"") == "\"Hello World\""
  {
    var t := "\"Hello World\"";
    assert !IsWhitespaceChar(t[|t| - 1]);
    TrimTrailingKeepsTrimmed(t);
  }

  /** `a = { b = 1` with no closing brace: the `Composite` attempt fires
      `{`, reads `b = 1` as a node set and closes it, then fails for want
      of `}`; `Value` falls back to `TextValue`, which takes `{ b = 1` to
      the end of the input. The text replaces the children the failed
      attempt installed, so a root comes back rather than an error. */
  lemma UnclosedBrace()
    ensures ParseEvents([KeyEv("a"), OpenEv, KeyEv("b"), TextEv("1"), NodeSetEndEv,
                         TextEv("{ b = 1"), NodeSetEndEv])
            == Success(CreateWithChildren([], [CreateWithText("a", "{ b = 1")]))
  {
    var failed := Entry("a", NodeSetVal([Entry("b", TextVal("1"))]));
    UnclosedAttempt(failed);
    var a1 := Meaning(failed);
    var a2 := SetValue(a1, "{ b = 1");
    var after := [TextEv("{ b = 1"), NodeSetEndEv];
    assert [KeyEv("a"), OpenEv, KeyEv("b"), TextEv("1"), NodeSetEndEv] + after
           == [KeyEv("a"), OpenEv, KeyEv("b"), TextEv("1"), NodeSetEndEv, TextEv("{ b = 1"), NodeSetEndEv];
    RunAppend(InitialStack(), [KeyEv("a"), OpenEv, KeyEv("b"), TextEv("1"), NodeSetEndEv], after);
    FallBackToText(a1);
    assert a2 == CreateWithText("a", "{ b = 1");
  }

  /** The failed `Composite` attempt fires the events of a block entry. */
  lemma UnclosedAttempt(failed: Entry)
    requires failed == Entry("a", NodeSetVal([Entry("b", TextVal("1"))]))
    ensures LegalEntries([failed])
    ensures Run(InitialStack(), [KeyEv("a"), OpenEv, KeyEv("b"), TextEv("1"), NodeSetEndEv])
            == Success([[CreateRoot()], [Meaning(failed)]])
  {
    var inner := Entry("b", TextVal("1"));
    assert [inner][1..] == [] && [failed][1..] == [];
    assert IsIdentifier("a") && IsIdentifier("b") && IsTextToken("1");
    assert LegalEntries([inner]) && LegalEntries([failed]);
    assert EntriesEvents([inner]) == [KeyEv("b"), TextEv("1")];
    assert EntriesEvents([failed]) == [KeyEv("a"), OpenEv, KeyEv("b"), TextEv("1"), NodeSetEndEv];
    assert Meanings([failed]) == [Meaning(failed)];
    TopLevelEntries([failed]);
  }

  /** The fallback `TextValue` replaces the node's children by the text,
      and the outermost set ends. */
  lemma FallBackToText(a1: Node)
    ensures Run([[CreateRoot()], [a1]], [TextEv("{ b = 1"), NodeSetEndEv])
            == Success([[SetChildren(CreateRoot(), [SetValue(a1, "{ b = 1")])]])
  {
    var root := CreateRoot();
    var t := "{ b = 1";
    var none: Frame := [];
    assert TrimTrailing(t) == t by {
      assert !IsWhitespaceChar(t[|t| - 1]);
      TrimTrailingKeepsTrimmed(t);
    }
    assert !IsWhitespaceChar(t[0]);
    assert none + [a1] == [a1];
    assert [[root]] + [[a1]] == [[root], [a1]];
    TextOnOwner([[root]], none, a1, t);
    var a2 := SetValue(a1, t);
    assert none + [a2] == [a2];
    assert [[root]] + [[a2]] == [[root], [a2]];
    RunAppend([[root], [a1]], [TextEv(t)], [NodeSetEndEv]);
    assert [TextEv(t)] + [NodeSetEndEv] == [TextEv(t), NodeSetEndEv];
    OutermostEnd([a2]);
  }
}
