/** The grammar's greedy repetitions (`plus<...>`, `list<Integer,
    Whitespace>` in ParadoxNodeParser.cpp) applied to the text `Output`
    writes: each token of the canonical rendering is matched exactly, so the
    actions see the key, the text and the integers that were written. */
module Tokens {
  import opened Wrappers
  import opened Grammar
  import opened Decimal
  import opened ParadoxNode
  import opened RoundTrip

  /** Length of the longest prefix of `s` whose characters all satisfy
      `accepts` (a greedy repetition; `plus` matches when it is positive). */
  function MatchLength(s: string, accepts: char -> bool): (r: nat)
    ensures r <= |s|
    ensures forall i :: 0 <= i < r ==> accepts(s[i])
    ensures r == |s| || !accepts(s[r])
  {
    if s == [] || !accepts(s[0]) then 0 else 1 + MatchLength(s[1..], accepts)
  }

  /** A token followed by a character the class refuses is matched in full. */
  lemma {:induction false} MatchLengthExact(token: string, rest: string, accepts: char -> bool)
    requires forall i :: 0 <= i < |token| ==> accepts(token[i])
    requires rest != [] && !accepts(rest[0])
    ensures MatchLength(token + rest, accepts) == |token|
  {
    if token != [] {
      assert (token + rest)[1..] == token[1..] + rest;
      MatchLengthExact(token[1..], rest, accepts);
    } else {
      assert token + rest == rest;
    }
  }

  /** The `Key` rule on a rendered line `key = ...` matches the key. */
  lemma KeyMatchesRenderedKey(key: string, rest: string)
    requires IsIdentifier(key)
    ensures MatchLength(key + " = " + rest, IsIdentifierOther) == |key|
  {
    assert key + " = " + rest == key + (" = " + rest);
    MatchLengthExact(key, " = " + rest, IsIdentifierOther);
  }

  /** The `Text` rule on a rendered text value matches up to the newline
      `Output` writes after it. */
  lemma TextMatchesRenderedText(text: string, rest: string)
    requires forall i :: 0 <= i < |text| ==> IsTextChar(text[i])
    ensures MatchLength(text + "\n" + rest, IsTextChar) == |text|
  {
    assert text + "\n" + rest == text + ("\n" + rest);
    MatchLengthExact(text, "\n" + rest, IsTextChar);
  }

  /** `list<Integer, Whitespace>`: an integer, then as long as whitespace is
      followed by another integer, that integer too. Returns the integer
      tokens matched, in order, and the input left after the last one. */
  function ReadIntegerList(s: string): (r: Option<(seq<string>, string)>)
    ensures r.Some? ==> |r.value.0| > 0 && |r.value.1| < |s|
    ensures r.Some? ==> forall i :: 0 <= i < |r.value.0| ==> IsIntegerToken(r.value.0[i])
    decreases |s|
  {
    var n := MatchLength(s, IsDigit);
    if n == 0 then None
    else
      var rest := s[n..];
      var w := MatchLength(rest, IsWhitespaceChar);
      if w > 0 && MatchLength(rest[w..], IsDigit) > 0 then
        match ReadIntegerList(rest[w..])
        case Some((ts, left)) => Some(([s[..n]] + ts, left))
        case None => None
      else Some(([s[..n]], rest))
  }

  /** The last integer token, followed by ` }`, ends the list. */
  lemma ReadLastInteger(d: string, tail: string)
    requires IsIntegerToken(d)
    ensures ReadIntegerList(d + " }" + tail) == Some(([d], " }" + tail))
  {
    var s := d + (" }" + tail);
    assert d + " }" + tail == s;
    MatchLengthExact(d, " }" + tail, IsDigit);
    assert s[..|d|] == d && s[|d|..] == " }" + tail;
    MatchLengthExact(" ", "}" + tail, IsWhitespaceChar);
    assert " }" + tail == " " + ("}" + tail);
    assert (" }" + tail)[1..] == "}" + tail;
  }

  /** An integer token followed by one space and another integer continues
      the list. */
  lemma ReadNextInteger(d: string, next: string)
    requires IsIntegerToken(d) && next != [] && IsDigit(next[0])
    ensures ReadIntegerList(d + " " + next)
            == match ReadIntegerList(next)
               case Some((ts, left)) => Some(([d] + ts, left))
               case None => None
  {
    var s := d + (" " + next);
    assert d + " " + next == s;
    MatchLengthExact(d, " " + next, IsDigit);
    assert s[..|d|] == d && s[|d|..] == " " + next;
    MatchLengthExact(" ", next, IsWhitespaceChar);
    assert (" " + next)[1..] == next;
  }

  /** Reading the integers `Output` wrote between the braces gives back the
      tokens the integers were written as, and stops before ` }`. */
  lemma {:induction false} ReadRenderedIntegers(x: int, xs: seq<int>, tail: string)
    requires x >= 0 && forall i :: 0 <= i < |xs| ==> xs[i] >= 0
    ensures ReadIntegerList(IntToString(x) + RenderIntegers(xs) + " }" + tail)
            == Some((IntegerTokens([x] + xs), " }" + tail))
    decreases |xs|
  {
    var d := IntToString(x);
    var input := d + RenderIntegers(xs) + " }" + tail;
    var tokens := IntegerTokens([x] + xs);
    assert tokens == [d] + IntegerTokens(xs) by {
      assert ([x] + xs)[1..] == xs;
    }
    if xs == [] {
      assert input == d + " }" + tail && tokens == [d];
      ReadLastInteger(d, tail);
    } else {
      var d' := IntToString(xs[0]);
      var next := d' + RenderIntegers(xs[1..]) + " }" + tail;
      assert input == d + " " + next by {
        var rest := RenderIntegers(xs[1..]);
        assert RenderIntegers(xs) == " " + d' + rest;
        assert d + (" " + d' + rest) + " }" + tail == d + " " + (d' + rest + " }" + tail);
      }
      ReadRenderedIntegers(xs[0], xs[1..], tail);
      assert ReadIntegerList(next) == Some((IntegerTokens(xs), " }" + tail)) by {
        assert [xs[0]] + xs[1..] == xs;
      }
      ReadNextInteger(d, next);
    }
  }

  // ----- the grammar's ordered choices on rendered values -----

  /** What `pad<..., WhitespaceCharacter>` skips before a rule: the
      leading spaces, tabs and newlines. */
  function SkipWhitespace(s: string): (r: string)
    ensures |r| <= |s| && r == s[|s| - |r|..]
    ensures forall i :: 0 <= i < |s| - |r| ==> IsWhitespaceChar(s[i])
    ensures r == [] || !IsWhitespaceChar(r[0])
  {
    s[MatchLength(s, IsWhitespaceChar)..]
  }

  /** `Value` tries `Composite` first, and `Composite` starts with `{`: on
      what `Output` writes for a well-formed node, the composite branch
      is taken exactly when the node has no text, and a text value fails
      the `{` at its first character, before any action fires. */
  lemma ValueChoice(n: Node, depth: nat)
    requires WellFormed(n)
    ensures RenderValue(n, depth) != []
    ensures RenderValue(n, depth)[0] == '{' <==> n.textValue == []
  {
  }

  /** Skipping whitespace in front of text that starts with a solid
      character. */
  lemma SkipTo(pad: string, rest: string)
    requires forall i :: 0 <= i < |pad| ==> IsWhitespaceChar(pad[i])
    requires rest != [] && !IsWhitespaceChar(rest[0])
    ensures SkipWhitespace(pad + rest) == rest
  {
    MatchLengthExact(pad, rest, IsWhitespaceChar);
    assert (pad + rest)[|pad|..] == rest;
  }

  /** A newline and an indentation are skipped. */
  lemma SkipIndent(depth: nat, rest: string)
    requires rest != [] && !IsWhitespaceChar(rest[0])
    ensures SkipWhitespace("\n" + Indentation(depth) + rest) == rest
  {
    var pad := "\n" + Indentation(depth);
    assert forall i :: 0 <= i < |pad| ==> IsWhitespaceChar(pad[i]);
    SkipTo(pad, rest);
  }

  /** The rest of the rendering of `cs` after the first child's
      indentation and key. */
  function AfterFirstKey(cs: seq<Node>, depth: nat): string
    requires cs != []
  {
    " = " + RenderValue(cs[0], depth) + RenderAll(cs[1..], depth)
  }

  /** The rendering of a non-empty list of keyed children starts with the
      first child's indentation and key. */
  lemma RenderAllStart(cs: seq<Node>, depth: nat)
    requires cs != [] && cs[0].key != []
    ensures RenderAll(cs, depth) == Indentation(depth) + (cs[0].key + AfterFirstKey(cs, depth))
  {
    var c, i := cs[0], Indentation(depth);
    var more := RenderAll(cs[1..], depth);
    var v := RenderValue(c, depth);
    assert RenderAll(cs, depth) == i + c.key + " = " + v + more by {
      assert RenderAll(cs, depth) == Render(c, depth) + more;
      assert Render(c, depth) == i + c.key + " = " + v;
    }
    assert AfterFirstKey(cs, depth) == " = " + v + more;
    assert i + c.key + " = " + v + more == i + (c.key + (" = " + v + more));
  }

  /** The inside of a rendered block starts, after whitespace, with the
      first child's key or with the closing brace. */
  lemma BlockInside(cs: seq<Node>, depth: nat)
    requires WellFormedAll(cs)
    ensures var inner := SkipWhitespace("\n" + RenderAll(cs, depth + 1) + Indentation(depth) + "}\n");
            inner != [] && (inner[0] == '}' || IsIdentifierFirst(inner[0]))
  {
    if cs == [] {
      assert "\n" + RenderAll(cs, depth + 1) + Indentation(depth) + "}\n" == "\n" + Indentation(depth) + "}\n";
      SkipIndent(depth, "}\n");
    } else {
      FirstChildInside(cs, depth);
    }
  }

  /** With a first child, the inside of a block starts with that child's key. */
  lemma FirstChildInside(cs: seq<Node>, depth: nat)
    requires WellFormedAll(cs) && cs != []
    ensures var inner := SkipWhitespace("\n" + RenderAll(cs, depth + 1) + Indentation(depth) + "}\n");
            inner != [] && IsIdentifierFirst(inner[0])
  {
    var k := cs[0].key;
    var line := k + AfterFirstKey(cs, depth + 1);
    assert IsIdentifierFirst(k[0]) by {
      assert WellFormed(cs[0]);
    }
    var text := "\n" + RenderAll(cs, depth + 1) + Indentation(depth) + "}\n";
    assert text == "\n" + (Indentation(depth + 1) + line) + Indentation(depth) + "}\n" by {
      RenderAllStart(cs, depth + 1);
    }
    SkipIndentBefore(depth + 1, line, Indentation(depth), "}\n");
    assert SkipWhitespace(text) == line + Indentation(depth) + "}\n";
    assert (line + Indentation(depth) + "}\n")[0] == k[0];
  }

  /** A newline and an indentation are skipped in front of a line that
      starts with a solid character, whatever follows the line. */
  lemma SkipIndentBefore(depth: nat, line: string, a: string, b: string)
    requires line != [] && !IsWhitespaceChar(line[0])
    ensures SkipWhitespace("\n" + (Indentation(depth) + line) + a + b) == line + a + b
  {
    assert "\n" + (Indentation(depth) + line) + a + b == "\n" + Indentation(depth) + (line + a + b);
    SkipIndent(depth, line + a + b);
  }

  /** After the `{` of a rendered integer list comes one space and the
      first integer's digits. */
  lemma IntegersInside(xs: seq<int>)
    requires xs != [] && xs[0] >= 0
    ensures var inner := SkipWhitespace(RenderIntegers(xs) + " }\n");
            inner != [] && IsDigit(inner[0])
  {
    var d := NatToString(xs[0]);
    var rest := d + RenderIntegers(xs[1..]) + " }\n";
    assert RenderIntegers(xs) + " }\n" == " " + rest;
    assert rest[0] == d[0];
    SkipTo(" ", rest);
  }

  lemma IntegersAfterBrace(n: Node, depth: nat)
    requires n.textValue == [] && n.intValues != []
    ensures RenderValue(n, depth)[1..] == RenderIntegers(n.intValues) + " }\n"
  {
    var body := RenderIntegers(n.intValues) + " }\n";
    assert RenderValue(n, depth) == "{" + body;
  }

  lemma BlockAfterBrace(n: Node, depth: nat)
    requires n.textValue == [] && n.intValues == []
    ensures RenderValue(n, depth)[1..]
            == "\n" + RenderAll(n.children, depth + 1) + Indentation(depth) + "}\n"
  {
    var inner := RenderAll(n.children, depth + 1);
    assert RenderValue(n, depth) == "{\n" + inner + Indentation(depth) + "}\n";
    assert "{\n" == ['{'] + "\n";
    assert "{\n" + inner + Indentation(depth) + "}\n" == ['{'] + ("\n" + inner + Indentation(depth) + "}\n");
  }

  /** `CompositeValue` tries `IntegerSequence` first, which needs a digit
      after the padding: on what `Output` writes for a well-formed node
      without text, the integer branch is taken exactly when the node has
      integers, and otherwise the block is read as a `NodeSet`. */
  lemma CompositeChoice(n: Node, depth: nat)
    requires WellFormed(n) && n.textValue == []
    ensures var inner := SkipWhitespace(RenderValue(n, depth)[1..]);
            inner != [] && (IsDigit(inner[0]) <==> n.intValues != [])
  {
    if n.intValues != [] {
      IntegersAfterBrace(n, depth);
      IntegersInside(n.intValues);
    } else {
      BlockAfterBrace(n, depth);
      BlockInside(n.children, depth);
    }
  }
}
