/** The comment-removing pre-pass of `Parse` (ParadoxNodeParser.cpp):
    every `#` is erased together with what follows it up to, but not
    including, the next newline, or up to the end of the input. */
module Comments {
  import opened Wrappers

  /** `s.find(c, from)`: the first position at or after `from` holding `c`. */
  function Find(s: string, c: char, from: nat): (r: Option<nat>)
    requires from <= |s|
    ensures r.None? ==> forall i :: from <= i < |s| ==> s[i] != c
    ensures r.Some? ==> from <= r.value < |s| && s[r.value] == c
                        && forall i :: from <= i < r.value ==> s[i] != c
    decreases |s| - from
  {
    if from == |s| then None
    else if s[from] == c then Some(from)
    else Find(s, c, from + 1)
  }

  /** Reference definition, one character at a time: `inComment` is true
      after a `#` and until the next newline, which is always kept. */
  function Strip(s: string, inComment: bool): (r: string)
    ensures |r| <= |s|
  {
    if s == [] then []
    else if s[0] == '\n' then "\n" + Strip(s[1..], false)
    else if inComment || s[0] == '#' then Strip(s[1..], true)
    else [s[0]] + Strip(s[1..], false)
  }

  function StripComments(s: string): string {
    Strip(s, false)
  }

  function CountChar(s: string, c: char): nat {
    if s == [] then 0 else (if s[0] == c then 1 else 0) + CountChar(s[1..], c)
  }

  /** The stripped text contains no `#`. */
  lemma {:induction false} StripRemovesHashes(s: string, inComment: bool)
    ensures '#' !in Strip(s, inComment)
  {
    if s != [] {
      StripRemovesHashes(s[1..], s[0] != '\n' && (inComment || s[0] == '#'));
    }
  }

  /** Every newline of the input survives, in order: the newlines of the
      result are those of the input. */
  lemma {:induction false} StripKeepsNewlines(s: string, inComment: bool)
    ensures CountChar(Strip(s, inComment), '\n') == CountChar(s, '\n')
  {
    if s != [] {
      var rest := Strip(s[1..], s[0] != '\n' && (inComment || s[0] == '#'));
      StripKeepsNewlines(s[1..], s[0] != '\n' && (inComment || s[0] == '#'));
      if s[0] == '\n' {
        assert Strip(s, inComment) == "\n" + rest;
        assert ("\n" + rest)[1..] == rest;
      } else if !(inComment || s[0] == '#') {
        assert Strip(s, inComment) == [s[0]] + rest;
        assert ([s[0]] + rest)[1..] == rest;
      }
    }
  }

  /** Text without `#` outside a comment is kept as it is. */
  lemma {:induction false} StripKeepsPlainText(s: string)
    requires '#' !in s
    ensures Strip(s, false) == s
  {
    if s != [] {
      StripKeepsPlainText(s[1..]);
    }
  }

  /** Plain text before a comment is kept, and processing continues outside
      a comment after it. */
  lemma {:induction false} StripPlainPrefix(a: string, b: string)
    requires '#' !in a
    ensures Strip(a + b, false) == a + Strip(b, false)
  {
    if a != [] {
      assert (a + b)[0] == a[0] && (a + b)[1..] == a[1..] + b;
      StripPlainPrefix(a[1..], b);
    } else {
      assert a + b == b;
    }
  }

  /** Inside a comment, everything up to the next newline is dropped. */
  lemma {:induction false} StripCommentBody(b: string, c: string)
    requires '\n' !in b
    ensures Strip(b + c, true) == Strip(c, true)
  {
    if b != [] {
      assert (b + c)[0] == b[0] && (b + c)[1..] == b[1..] + c;
      StripCommentBody(b[1..], c);
    } else {
      assert b + c == c;
    }
  }

  /** A comment with no newline after it runs to the end of the input. */
  lemma FinalCommentErased(a: string, b: string)
    requires '#' !in a && '\n' !in b
    ensures StripComments(a + "#" + b) == a
  {
    assert a + "#" + b == a + ("#" + b);
    StripPlainPrefix(a, "#" + b);
    assert ("#" + b)[0] == '#' && ("#" + b)[1..] == b;
    StripCommentBody(b, []);
    assert b + [] == b;
  }

  /** A comment ended by a newline is erased up to, but not including,
      that newline. */
  lemma CommentLineErased(a: string, b: string, c: string)
    requires '#' !in a && '\n' !in b
    ensures StripComments(a + "#" + b + "\n" + c) == a + "\n" + StripComments(c)
  {
    var t := "#" + b + "\n" + c;
    assert a + "#" + b + "\n" + c == a + t;
    StripPlainPrefix(a, t);
    assert t[0] == '#' && t[1..] == b + ("\n" + c);
    StripCommentBody(b, "\n" + c);
    assert ("\n" + c)[0] == '\n' && ("\n" + c)[1..] == c;
  }

  /** Loop state of `RemoveComments`: `content` holds a `#` at `b`, none
      before it, and stripping `content` from `b` on finishes the job. */
  ghost predicate Pending(input: string, content: string, b: nat) {
    && b < |content|
    && content[b] == '#'
    && Resumed(input, content, b)
  }

  /** `content` has no `#` before `b`, and stripping it from `b` on
      finishes the job. */
  ghost predicate Resumed(input: string, content: string, b: nat) {
    && b <= |content|
    && '#' !in content[..b]
    && StripComments(input) == content[..b] + Strip(content[b..], false)
  }

  /** Moving the search position forward over text without `#`. */
  lemma AdvanceOverPlain(input: string, content: string, b: nat, b': nat)
    requires Resumed(input, content, b)
    requires b <= b' <= |content| && forall i :: b <= i < b' ==> content[i] != '#'
    ensures Resumed(input, content, b')
  {
    var plain := content[b..b'];
    assert content[..b'] == content[..b] + plain;
    assert content[b..] == plain + content[b'..];
    StripPlainPrefix(plain, content[b'..]);
    assert StripComments(input) == content[..b] + (plain + Strip(content[b'..], false));
  }

  /** The search for the next `#` either finds the next pending comment or
      shows that `content` is already the answer. */
  lemma ResumeSearch(input: string, content: string, b: nat)
    requires Resumed(input, content, b)
    ensures Find(content, '#', b).Some? ==> Pending(input, content, Find(content, '#', b).value)
    ensures Find(content, '#', b).None? ==> '#' !in content && StripComments(input) == content
  {
    match Find(content, '#', b)
    case Some(b') =>
      AdvanceOverPlain(input, content, b, b');
    case None =>
      AdvanceOverPlain(input, content, b, |content|);
      assert content[..|content|] == content && content[|content|..] == [];
  }

  /** Erasing a final comment that no newline ends. */
  lemma EraseToEnd(input: string, content: string, b: nat)
    requires Pending(input, content, b)
    requires forall i :: b <= i < |content| ==> content[i] != '\n'
    ensures '#' !in content[..b] && StripComments(input) == content[..b]
  {
    var tail := content[b..];
    assert tail == "#" + tail[1..];
    assert '\n' !in tail[1..];
    StripCommentBody(tail[1..], []);
    assert tail[1..] + [] == tail[1..];
  }

  /** Erasing a comment up to the newline at `e`, which is kept. */
  lemma EraseToNewline(input: string, content: string, b: nat, e: nat)
    requires Pending(input, content, b)
    requires b < e < |content| && content[e] == '\n'
    requires forall i :: b <= i < e ==> content[i] != '\n'
    ensures Resumed(input, content[..b] + content[e..], b)
  {
    var tail := content[b..];
    var rest := content[e..];
    assert tail == "#" + (content[b + 1..e] + rest);
    assert '\n' !in content[b + 1..e];
    StripCommentBody(content[b + 1..e], rest);
    assert rest[0] == '\n';
    var content' := content[..b] + rest;
    assert content'[..b] == content[..b] && content'[b..] == rest;
  }

  /** The source's loop: find a `#`, erase up to the next newline (or to the
      end), and look for the next `#` from the erase position. */
  method RemoveComments(input: string) returns (content: string)
    ensures content == StripComments(input)
    ensures '#' !in content
  {
    content := input;
    var commentBegin := Find(content, '#', 0);
    ResumeSearch(input, content, 0);
    while commentBegin.Some?
      invariant commentBegin.Some? ==> Pending(input, content, commentBegin.value)
      invariant commentBegin.None? ==> '#' !in content && StripComments(input) == content
      decreases |content| + (if commentBegin.Some? then 1 else 0)
    {
      var b := commentBegin.value;
      var commentEnd := Find(content, '\n', b);
      if commentEnd.None? {
        EraseToEnd(input, content, b);
        content := content[..b];
        commentBegin := None;
      } else {
        EraseToNewline(input, content, b, commentEnd.value);
        content := content[..b] + content[commentEnd.value..];
        commentBegin := Find(content, '#', b);
        ResumeSearch(input, content, b);
      }
    }
  }
}
