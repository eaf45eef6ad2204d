/** How `tokenize` of src/pseudo-html-parser.js treats the pieces `stringify`
    writes: runs of text, words inside a tag, quoted values and the
    delimiters `<`, `>`, `/>`, `=`. */
module PseudoHtmlLexing {
  import opened Wrappers
  import opened PseudoHtml

  /** Characters that extend the buffer inside a tag without ending a token. */
  predicate WordChar(c: char) {
    !IsWhitespace(c) && c != '=' && c != '"' && c != '>' && c != '/'
  }

  predicate IsWord(s: string) {
    |s| > 0 && forall i :: 0 <= i < |s| ==> WordChar(s[i])
  }

  /** Feeding two strings one after the other is feeding their concatenation. */
  lemma {:induction false} FeedAppend(l: Lexer, a: string, b: string)
    ensures Feed(l, a + b) == Feed(Feed(l, a), b)
    decreases |a|
  {
    if a == [] {
      assert a + b == b;
    } else {
      assert (a + b)[0] == a[0];
      assert (a + b)[1..] == a[1..] + b;
      FeedAppend(Step(l, a[0]), a[1..], b);
    }
  }

  /** Between tags every character but `<` is buffered: text accumulates
      without yielding anything. */
  lemma {:induction false} TextRun(b: string, out: seq<Token>, t: string)
    requires forall i :: 0 <= i < |t| ==> t[i] != '<'
    ensures Feed(Lexer(Outside, b, out), t) == Lexer(Outside, b + t, out)
    decreases |t|
  {
    if t != [] {
      TextRun(b + [t[0]], out, t[1..]);
      assert b + [t[0]] + t[1..] == b + t;
    } else {
      assert b + t == b;
    }
  }

  /** Inside a tag, word characters accumulate without yielding anything. */
  lemma {:induction false} WordRun(b: string, out: seq<Token>, w: string)
    requires forall i :: 0 <= i < |w| ==> WordChar(w[i])
    ensures Feed(Lexer(InTag, b, out), w) == Lexer(InTag, b + w, out)
    decreases |w|
  {
    if w != [] {
      WordRun(b + [w[0]], out, w[1..]);
      assert b + [w[0]] + w[1..] == b + w;
    } else {
      assert b + w == b;
    }
  }

  /** Inside quotes every character but `"` accumulates, whitespace included. */
  lemma {:induction false} QuotedRun(b: string, out: seq<Token>, q: string)
    requires forall i :: 0 <= i < |q| ==> q[i] != '"'
    ensures Feed(Lexer(InQuote, b, out), q) == Lexer(InQuote, b + q, out)
    decreases |q|
  {
    if q != [] {
      QuotedRun(b + [q[0]], out, q[1..]);
      assert b + [q[0]] + q[1..] == b + q;
    } else {
      assert b + q == b;
    }
  }

  /** Input without any `<` is one text token, or none when it is empty. */
  lemma PlainTextTokenizes(t: string)
    requires forall i :: 0 <= i < |t| ==> t[i] != '<'
    ensures Tokenize(t) == Pending(t)
    ensures t != [] ==> Tokenize(t) == [TextTok(t)]
  {
    TextRun("", [], t);
    assert "" + t == t;
  }

  /** Text up to a `<` is yielded as one token, only when non-empty, followed by `TagOpen`. */
  lemma TextThenTagOpen(t: string)
    requires forall i :: 0 <= i < |t| ==> t[i] != '<'
    ensures Feed(Lexer(Outside, "", []), t + "<") == Lexer(InTag, "", Pending(t) + [TagOpen])
  {
    FeedAppend(Lexer(Outside, "", []), t, "<");
    TextRun("", [], t);
    assert "" + t == t;
  }

  /** A quoted string inside a tag is one text token holding exactly the
      characters between the quotes, even when there are none. */
  lemma QuotedString(out: seq<Token>, q: string)
    requires forall i :: 0 <= i < |q| ==> q[i] != '"'
    ensures Feed(Lexer(InTag, "", out), "\"" + q + "\"") == Lexer(InTag, "", out + [TextTok(q)])
  {
    FeedAppend(Lexer(InTag, "", out), "\"" + q, "\"");
    FeedAppend(Lexer(InTag, "", out), "\"", q);
    QuotedRun("", out, q);
    assert "" + q == q;
  }

  /** Inside a tag, whitespace ends the buffered word and is never part of a token. */
  lemma WhitespaceSeparates(out: seq<Token>, w1: string, sp: char, w2: string)
    requires IsWord(w1) && IsWord(w2) && IsWhitespace(sp)
    ensures Feed(Lexer(InTag, "", out), w1 + [sp] + w2) == Lexer(InTag, w2, out + [TextTok(w1)])
  {
    FeedAppend(Lexer(InTag, "", out), w1 + [sp], w2);
    FeedAppend(Lexer(InTag, "", out), w1, [sp]);
    WordRun("", out, w1);
    assert "" + w1 == w1;
    WordRun("", out + [TextTok(w1)], w2);
    assert "" + w2 == w2;
  }

  /** Whatever the lexer holds between tags, `<` yields it and opens a tag. */
  lemma OpenDelimiter(l: Lexer)
    requires l.mode == Outside
    ensures Feed(l, "<") == Lexer(InTag, "", Flush(l) + [TagOpen])
  {
  }

  /** `>` inside a tag yields the buffered word, then `TagClose`, and leaves the tag. */
  lemma CloseDelimiter(l: Lexer)
    requires l.mode == InTag
    ensures Feed(l, ">") == Lexer(Outside, "", Flush(l) + [TagClose])
  {
  }

  /** `=` inside a tag yields the buffered word, then `Equals`, and stays in the tag. */
  lemma EqualsDelimiter(l: Lexer)
    requires l.mode == InTag
    ensures Feed(l, "=") == Lexer(InTag, "", Flush(l) + [Equals])
  {
  }

  /** A `/` inside a tag yields the buffered word, then `TagSlash`, and stays in the tag. */
  lemma SlashDelimiter(l: Lexer)
    requires l.mode == InTag
    ensures Feed(l, "/") == Lexer(InTag, "", Flush(l) + [TagSlash])
  {
  }

  /** `/>` inside a tag yields the buffered word, `TagSlash` and `TagClose`. */
  lemma SelfCloseDelimiter(l: Lexer)
    requires l.mode == InTag
    ensures Feed(l, "/>") == Lexer(Outside, "", Flush(l) + [TagSlash, TagClose])
  {
    FeedAppend(l, "/", ">");
    assert Flush(l) + [TagSlash] + [TagClose] == Flush(l) + [TagSlash, TagClose];
  }
}
