/** The round trip at the level of grammar events: a tree that the
    renderer writes in a form the grammar can read back is rebuilt, exactly,
    by the tree builder from the events that reading fires; and every tree
    the builder makes from a legal document is of that form. */
module RoundTrip {
  import opened Wrappers
  import opened Grammar
  import opened Decimal
  import opened ParadoxNode
  import opened TreeBuilder
  import opened EventGrammar
  import opened Comments

  /** A node whose rendering the grammar reads back as the same node: an
      identifier key, at most one populated store, a text the `Text` rule
      matches in full that does not end in whitespace, integers without a
      sign, no `#` anywhere (the comment pre-pass would cut the text there),
      and children of the same kind. */
  predicate WellFormed(n: Node)
    decreases n, 1
  {
    && IsIdentifier(n.key)
    && Exclusive(n)
    && (n.textValue != [] ==>
          IsTextToken(n.textValue) && !IsWhitespaceChar(n.textValue[|n.textValue| - 1])
          && '#' !in n.textValue)
    && (forall i :: 0 <= i < |n.intValues| ==> n.intValues[i] >= 0)
    && WellFormedAll(n.children)
  }

  predicate WellFormedAll(cs: seq<Node>)
    decreases cs, 0
  {
    cs == [] || (WellFormed(cs[0]) && WellFormedAll(cs[1..]))
  }

  /** The tokens `Output` writes for a list of integers. */
  function IntegerTokens(xs: seq<int>): (r: seq<string>)
    ensures |r| == |xs|
    ensures forall i :: 0 <= i < |xs| ==> r[i] == IntToString(xs[i])
  {
    if xs == [] then [] else [IntToString(xs[0])] + IntegerTokens(xs[1..])
  }

  /** How the grammar sees the rendering of a node, choosing the branch
      `Output` chooses: text first, then integers, then a block. */
  function ToEntry(n: Node): (r: Entry)
    ensures r.key == n.key
    ensures r.value.TextVal? <==> n.textValue != []
    ensures r.value.TextVal? ==> r.value.text == n.textValue
    ensures r.value.IntegersVal? <==> n.textValue == [] && n.intValues != []
    ensures r.value.IntegersVal? ==> |r.value.tokens| == |n.intValues|
    ensures r.value.NodeSetVal? ==> |r.value.entries| == |n.children|
    decreases n, 1
  {
    Entry(n.key,
          if n.textValue != [] then TextVal(n.textValue)
          else if n.intValues != [] then IntegersVal(IntegerTokens(n.intValues))
          else NodeSetVal(ToEntries(n.children)))
  }

  function ToEntries(cs: seq<Node>): (r: seq<Entry>)
    ensures |r| == |cs|
    ensures forall i :: 0 <= i < |cs| ==> r[i] == ToEntry(cs[i])
    decreases cs, 0
  {
    if cs == [] then [] else [ToEntry(cs[0])] + ToEntries(cs[1..])
  }

  /** Reading back the integers `Output` wrote gives the same integers. */
  lemma {:induction false} IntegerTokensRoundTrip(xs: seq<int>)
    requires forall i :: 0 <= i < |xs| ==> xs[i] >= 0
    ensures forall i :: 0 <= i < |xs| ==> IsIntegerToken(IntegerTokens(xs)[i])
    ensures DecimalValues(IntegerTokens(xs)) == xs
  {
    if xs != [] {
      DecimalRoundTrip(xs[0]);
      IntegerTokensRoundTrip(xs[1..]);
      var ts := IntegerTokens(xs);
      assert ts[1..] == IntegerTokens(xs[1..]);
    }
  }

  lemma {:induction false} EntryRoundTrip(n: Node)
    requires WellFormed(n)
    ensures LegalEntry(ToEntry(n)) && Meaning(ToEntry(n)) == n
    decreases n, 1
  {
    if n.textValue != [] {
      TrimTrailingKeepsTrimmed(n.textValue);
    } else if n.intValues != [] {
      IntegerTokensRoundTrip(n.intValues);
    } else {
      EntriesRoundTrip(n.children);
    }
  }

  lemma {:induction false} EntriesRoundTrip(cs: seq<Node>)
    requires WellFormedAll(cs)
    ensures LegalEntries(ToEntries(cs)) && Meanings(ToEntries(cs)) == cs
    decreases cs, 0
  {
    if cs != [] {
      EntryRoundTrip(cs[0]);
      EntriesRoundTrip(cs[1..]);
      var es := ToEntries(cs);
      assert es[0] == ToEntry(cs[0]) && es[1..] == ToEntries(cs[1..]);
    }
  }

  /** Building from the events of a well-formed document tree gives the
      same tree back. */
  lemma RebuildDocument(root: Node)
    requires root.key == [] && root.textValue == [] && root.intValues == []
    requires WellFormedAll(root.children)
    ensures LegalEntries(ToEntries(root.children))
    ensures ParseEvents(DocumentEvents(ToEntries(root.children))) == Success(root)
  {
    EntriesRoundTrip(root.children);
    ParseDocument(ToEntries(root.children));
  }

  /** Parsing is stable: the children a legal document parses to, written
      out and read again, parse to the same root. */
  lemma ReparseParsed(es: seq<Entry>)
    requires LegalEntries(es)
    ensures LegalEntries(ToEntries(Meanings(es)))
    ensures ParseEvents(DocumentEvents(ToEntries(Meanings(es)))) == Success(CreateWithChildren([], Meanings(es)))
  {
    MeaningsAreWellFormed(es);
    RebuildDocument(CreateWithChildren([], Meanings(es)));
  }

  /** `Output` writes no `#` for a well-formed node: keys are identifiers,
      integers are digits and signs, and texts hold none. */
  lemma {:induction false} RenderHasNoHash(n: Node, depth: nat)
    requires WellFormed(n)
    ensures '#' !in Render(n, depth)
    decreases n, 2
  {
    var head := Indentation(depth) + n.key + " = ";
    assert '#' !in head by {
      assert forall i :: 0 <= i < |n.key| ==> IsIdentifierOther(n.key[i]);
      assert '#' !in Indentation(depth);
    }
    ValueHasNoHash(n, depth);
    assert Render(n, depth) == head + RenderValue(n, depth);
  }

  lemma {:induction false} ValueHasNoHash(n: Node, depth: nat)
    requires WellFormed(n)
    ensures '#' !in RenderValue(n, depth)
    decreases n, 1
  {
    if n.textValue != [] {
      assert RenderValue(n, depth) == n.textValue + "\n";
    } else if n.intValues != [] {
      var ints := RenderIntegers(n.intValues);
      assert '#' !in ints;
      assert RenderValue(n, depth) == "{" + ints + " }\n";
    } else {
      var inner := RenderAll(n.children, depth + 1);
      assert '#' !in inner by {
        RenderAllHasNoHash(n.children, depth + 1);
      }
      assert '#' !in Indentation(depth);
      assert RenderValue(n, depth) == "{\n" + inner + Indentation(depth) + "}\n";
    }
  }

  lemma {:induction false} RenderAllHasNoHash(cs: seq<Node>, depth: nat)
    requires WellFormedAll(cs)
    ensures '#' !in RenderAll(cs, depth)
    decreases cs, 0
  {
    if cs != [] {
      RenderHasNoHash(cs[0], depth);
      RenderAllHasNoHash(cs[1..], depth);
    }
  }

  /** The comment pre-pass of `Parse` leaves what `Output` writes for a
      well-formed document untouched, so the grammar reads exactly the
      rendered text. */
  lemma RenderSurvivesCommentRemoval(root: Node)
    requires root.key == [] && WellFormedAll(root.children)
    ensures StripComments(Render(root, 0)) == Render(root, 0)
  {
    RenderAllHasNoHash(root.children, 0);
    StripKeepsPlainText(Render(root, 0));
  }

  /** The converse: the builder only ever makes well-formed nodes out of a
      legal document. */
  lemma {:induction false} MeaningIsWellFormed(e: Entry)
    requires LegalEntry(e)
    ensures WellFormed(Meaning(e))
    decreases e, 2
  {
    match e.value
    case TextVal(t) =>
      TextTokenTrimsToNonEmpty(t);
      var r := TrimTrailing(t);
      assert forall i :: 0 <= i < |r| ==> r[i] == t[i];
      assert '#' !in r;
    case IntegersVal(ts) =>
      DecimalValuesNonNegative(ts);
    case NodeSetVal(es) =>
      MeaningsAreWellFormed(es);
  }

  lemma {:induction false} MeaningsAreWellFormed(es: seq<Entry>)
    requires LegalEntries(es)
    ensures WellFormedAll(Meanings(es))
    decreases es, 0
  {
    if es != [] {
      MeaningIsWellFormed(es[0]);
      MeaningsAreWellFormed(es[1..]);
      assert Meanings(es)[1..] == Meanings(es[1..]);
    }
  }

  lemma {:induction false} DecimalValuesNonNegative(ts: seq<string>)
    requires forall i :: 0 <= i < |ts| ==> IsIntegerToken(ts[i])
    ensures forall i :: 0 <= i < |ts| ==> DecimalValues(ts)[i] >= 0
  {
    if ts != [] {
      DecimalValuesNonNegative(ts[1..]);
      assert DecimalValues(ts)[1..] == DecimalValues(ts[1..]);
    }
  }
}
