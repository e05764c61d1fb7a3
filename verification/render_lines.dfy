/** The canonical rendering of `Output` (ParadoxNode.cpp) seen as lines:
    the output is a sequence of lines, each ended by a newline, and every
    line written for a node at some depth starts with two spaces per level
    of that depth. */
module RenderLines {
  import opened Grammar
  import opened Decimal
  import opened ParadoxNode

  /** The lines written for `n` at `depth`, without their newlines. */
  function Lines(n: Node, depth: nat): seq<string>
    decreases n, 1
  {
    var head := Indentation(depth) + n.key + " = ";
    if n.key == [] then LinesAll(n.children, depth)
    else if n.textValue != [] then [head + n.textValue]
    else if n.intValues != [] then [head + "{" + RenderIntegers(n.intValues) + " }"]
    else [head + "{"] + LinesAll(n.children, depth + 1) + [Indentation(depth) + "}"]
  }

  function LinesAll(cs: seq<Node>, depth: nat): seq<string>
    decreases cs, 0
  {
    if cs == [] then [] else Lines(cs[0], depth) + LinesAll(cs[1..], depth)
  }

  /** Each line followed by a newline. */
  function Unlines(ls: seq<string>): string {
    if ls == [] then [] else ls[0] + "\n" + Unlines(ls[1..])
  }

  lemma {:induction false} UnlinesAppend(a: seq<string>, b: seq<string>)
    ensures Unlines(a + b) == Unlines(a) + Unlines(b)
  {
    if a == [] {
      assert a + b == b;
    } else {
      assert (a + b)[0] == a[0] && (a + b)[1..] == a[1..] + b;
      UnlinesAppend(a[1..], b);
    }
  }

  /** `Output` writes exactly the lines of `Lines`, each ended by a newline. */
  lemma {:induction false} RenderIsLines(n: Node, depth: nat)
    ensures Render(n, depth) == Unlines(Lines(n, depth))
    decreases n, 1
  {
    if n.key == [] {
      RenderAllIsLines(n.children, depth);
      assert Render(n, depth) == RenderAll(n.children, depth);
    } else if n.textValue != [] {
      TextIsLine(n, depth);
    } else if n.intValues != [] {
      IntegersIsLine(n, depth);
    } else {
      RenderAllIsLines(n.children, depth + 1);
      BlockNodeIsLines(n, depth);
    }
  }

  /** A text value is written as one line. */
  lemma TextIsLine(n: Node, depth: nat)
    requires n.key != [] && n.textValue != []
    ensures Render(n, depth) == Unlines(Lines(n, depth))
  {
    var head := Indentation(depth) + n.key + " = ";
    assert Render(n, depth) == head + (n.textValue + "\n");
    assert Lines(n, depth) == [head + n.textValue];
    assert Unlines([head + n.textValue]) == head + n.textValue + "\n";
  }

  /** An integer list is written as one line. */
  lemma IntegersIsLine(n: Node, depth: nat)
    requires n.key != [] && n.textValue == [] && n.intValues != []
    ensures Render(n, depth) == Unlines(Lines(n, depth))
  {
    var head := Indentation(depth) + n.key + " = ";
    var ints := RenderIntegers(n.intValues);
    assert Render(n, depth) == head + ("{" + ints + " }\n");
    assert Lines(n, depth) == [head + "{" + ints + " }"];
    assert Unlines([head + "{" + ints + " }"]) == head + "{" + ints + " }" + "\n";
  }

  /** A block is written as its opening line, its children's lines and its
      closing line. */
  lemma BlockNodeIsLines(n: Node, depth: nat)
    requires n.key != [] && n.textValue == [] && n.intValues == []
    requires RenderAll(n.children, depth + 1) == Unlines(LinesAll(n.children, depth + 1))
    ensures Render(n, depth) == Unlines(Lines(n, depth))
  {
    var head := Indentation(depth) + n.key + " = ";
    var inner := LinesAll(n.children, depth + 1);
    assert RenderValue(n, depth) == "{\n" + Unlines(inner) + Indentation(depth) + "}\n";
    assert Render(n, depth) == head + ("{\n" + Unlines(inner) + Indentation(depth) + "}\n");
    BlockIsLines(head, inner, Indentation(depth));
  }

  /** The layout of a block: an opening line, the inner lines, a closing line. */
  lemma BlockIsLines(head: string, inner: seq<string>, indent: string)
    ensures head + ("{\n" + Unlines(inner) + indent + "}\n")
            == Unlines([head + "{"] + inner + [indent + "}"])
  {
    UnlinesAppend([head + "{"] + inner, [indent + "}"]);
    UnlinesAppend([head + "{"], inner);
    assert Unlines([indent + "}"]) == indent + "}" + "\n";
    assert Unlines([head + "{"]) == head + "{" + "\n";
  }

  lemma {:induction false} RenderAllIsLines(cs: seq<Node>, depth: nat)
    ensures RenderAll(cs, depth) == Unlines(LinesAll(cs, depth))
    decreases cs, 0
  {
    if cs != [] {
      RenderIsLines(cs[0], depth);
      RenderAllIsLines(cs[1..], depth);
      UnlinesAppend(Lines(cs[0], depth), LinesAll(cs[1..], depth));
    }
  }

  lemma IndentationGrows(depth: nat)
    ensures Indentation(depth) <= Indentation(depth + 1)
  {
  }

  /** Every line written for a node at `depth` starts with its indentation. */
  lemma {:induction false} LinesIndented(n: Node, depth: nat)
    ensures forall i :: 0 <= i < |Lines(n, depth)| ==> Indentation(depth) <= Lines(n, depth)[i]
    decreases n, 1
  {
    if n.key == [] {
      LinesAllIndented(n.children, depth);
    } else if n.textValue == [] && n.intValues == [] {
      var inner := LinesAll(n.children, depth + 1);
      LinesAllIndented(n.children, depth + 1);
      IndentationGrows(depth);
      var ls := Lines(n, depth);
      forall i | 0 <= i < |ls|
        ensures Indentation(depth) <= ls[i]
      {
        if 0 < i < |ls| - 1 {
          assert ls[i] == inner[i - 1];
        }
      }
    }
  }

  lemma {:induction false} LinesAllIndented(cs: seq<Node>, depth: nat)
    ensures forall i :: 0 <= i < |LinesAll(cs, depth)| ==> Indentation(depth) <= LinesAll(cs, depth)[i]
    decreases cs, 0
  {
    if cs != [] {
      LinesIndented(cs[0], depth);
      LinesAllIndented(cs[1..], depth);
    }
  }

  /** Each line with two more spaces in front. */
  function Deeper(ls: seq<string>): (r: seq<string>)
    ensures |r| == |ls| && forall i :: 0 <= i < |ls| ==> r[i] == "  " + ls[i]
  {
    seq(|ls|, i requires 0 <= i < |ls| => "  " + ls[i])
  }

  /** A one-line node at one more level: the same line, two spaces further in. */
  lemma OneLineShift(n: Node, depth: nat)
    requires n.key != [] && (n.textValue != [] || n.intValues != [])
    ensures Lines(n, depth + 1) == Deeper(Lines(n, depth))
  {
    var head := Indentation(depth) + n.key + " = ";
    assert Indentation(depth + 1) + n.key + " = " == "  " + head;
    if n.textValue != [] {
      assert "  " + head + n.textValue == "  " + (head + n.textValue);
    } else {
      var ints := RenderIntegers(n.intValues);
      assert Lines(n, depth) == [head + "{" + ints + " }"];
      assert Lines(n, depth + 1) == ["  " + head + "{" + ints + " }"];
      assert "  " + head + "{" + ints + " }" == "  " + (head + "{" + ints + " }");
    }
  }

  lemma DeeperBlock(open: string, inner: seq<string>, close: string)
    ensures Deeper([open] + inner + [close]) == ["  " + open] + Deeper(inner) + ["  " + close]
  {
    assert Deeper([open] + inner + [close]) == Deeper([open] + inner) + Deeper([close]);
    assert Deeper([open] + inner) == Deeper([open]) + Deeper(inner);
  }

  /** A block at one more level: its opening and closing lines two spaces
      further in, around the children's lines one level deeper. */
  lemma BlockShift(n: Node, depth: nat)
    requires n.key != [] && n.textValue == [] && n.intValues == []
    requires LinesAll(n.children, depth + 2) == Deeper(LinesAll(n.children, depth + 1))
    ensures Lines(n, depth + 1) == Deeper(Lines(n, depth))
  {
    var open := Indentation(depth) + n.key + " = " + "{";
    var close := Indentation(depth) + "}";
    var inner := LinesAll(n.children, depth + 1);
    assert Lines(n, depth) == [open] + inner + [close];
    assert Indentation(depth + 1) + n.key + " = " + "{" == "  " + open by {
      assert Indentation(depth + 1) == "  " + Indentation(depth);
    }
    assert Indentation(depth + 1) + "}" == "  " + (Indentation(depth) + "}") by {
      assert Indentation(depth + 1) == "  " + Indentation(depth);
    }
    assert Lines(n, depth + 1) == ["  " + open] + Deeper(inner) + ["  " + close];
    DeeperBlock(open, inner, close);
  }

  /** Two spaces per level: rendering a node one level deeper writes the
      same lines, each indented by two more spaces. */
  lemma {:induction false} LinesShift(n: Node, depth: nat)
    ensures Lines(n, depth + 1) == Deeper(Lines(n, depth))
    decreases n, 1
  {
    if n.key == [] {
      LinesAllShift(n.children, depth);
    } else if n.textValue != [] || n.intValues != [] {
      OneLineShift(n, depth);
    } else {
      LinesAllShift(n.children, depth + 1);
      BlockShift(n, depth);
    }
  }

  lemma {:induction false} LinesAllShift(cs: seq<Node>, depth: nat)
    ensures LinesAll(cs, depth + 1) == Deeper(LinesAll(cs, depth))
    decreases cs, 0
  {
    if cs != [] {
      LinesShift(cs[0], depth);
      LinesAllShift(cs[1..], depth);
      assert Deeper(Lines(cs[0], depth) + LinesAll(cs[1..], depth))
          == Deeper(Lines(cs[0], depth)) + Deeper(LinesAll(cs[1..], depth));
    }
  }

  /** No key and no text in the tree contains a newline. */
  predicate NoNewlines(n: Node)
    decreases n, 1
  {
    '\n' !in n.key && '\n' !in n.textValue && NoNewlinesAll(n.children)
  }

  predicate NoNewlinesAll(cs: seq<Node>)
    decreases cs, 0
  {
    cs == [] || (NoNewlines(cs[0]) && NoNewlinesAll(cs[1..]))
  }

  lemma {:induction false} IntegersHaveNoNewline(xs: seq<int>)
    ensures '\n' !in RenderIntegers(xs)
  {
    if xs != [] {
      IntegersHaveNoNewline(xs[1..]);
    }
  }

  /** When no key or text holds a newline, the lines really are lines: the
      only newlines `Output` writes are the ones that end them. */
  lemma {:induction false} LinesHaveNoNewline(n: Node, depth: nat)
    requires NoNewlines(n)
    ensures forall i :: 0 <= i < |Lines(n, depth)| ==> '\n' !in Lines(n, depth)[i]
    decreases n, 1
  {
    if n.key == [] {
      LinesAllHaveNoNewline(n.children, depth);
    } else if n.textValue != [] {
    } else if n.intValues != [] {
      IntegersHaveNoNewline(n.intValues);
    } else {
      LinesAllHaveNoNewline(n.children, depth + 1);
      var inner := LinesAll(n.children, depth + 1);
      var ls := Lines(n, depth);
      forall i | 0 <= i < |ls|
        ensures '\n' !in ls[i]
      {
        if 0 < i < |ls| - 1 {
          assert ls[i] == inner[i - 1];
        }
      }
    }
  }

  lemma {:induction false} LinesAllHaveNoNewline(cs: seq<Node>, depth: nat)
    requires NoNewlinesAll(cs)
    ensures forall i :: 0 <= i < |LinesAll(cs, depth)| ==> '\n' !in LinesAll(cs, depth)[i]
    decreases cs, 0
  {
    if cs != [] {
      LinesHaveNoNewline(cs[0], depth);
      LinesAllHaveNoNewline(cs[1..], depth);
    }
  }
}
